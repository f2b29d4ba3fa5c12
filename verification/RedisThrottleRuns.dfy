/** Overlapping checks and resets of one key, interleaved at every await, while Redis may fail at any command. */
module RedisThrottleRuns {
  import opened Prelude
  import opened RedisThrottle
  import S = SlidingLog
  import M = MemoryThrottle
  import L = SlidingLua

  /** Where a check is: before its first await, or awaiting the probe, the script, or the fallback. */
  datatype Phase = Entering | Probing | Asking | Falling | Done(allowed: bool)

  datatype Event =
    | Arrive(id: nat)
    | Enter(id: nat)
    | ProbeEnds(id: nat, pong: bool)
    | Ask(id: nat, link: Link)
    | Fall(id: nat)
    | ResetKey(id: nat, link: Link)
    | ResetFallback(id: nat)
    | Ping(pong: bool)
    | HealthCheck(pong: bool)
    | Tick(gap: Duration)

  /**
   * `byRedis` and `byFallback` are the times of the admissions that callers were told of, each since its store was last
   * cleared; `primary` and `secondary` are the events that the stores saw, and `probes` the times of in-call probes.
   */
  datatype System = System(
    t: Throttle, checks: map<nat, Phase>, resetting: set<nat>, now: real, byRedis: seq<real>, byFallback: seq<real>,
    primary: seq<S.Event>, secondary: seq<S.Event>, probes: seq<real>)

  predicate InPhase(s: System, id: nat, p: Phase) {
    id in s.checks && s.checks[id] == p
  }

  function At(s: System, id: nat, p: Phase): System {
    s.(checks := s.checks[id := p])
  }

  /** A store sees an event some time after the last one that it saw. */
  function SeenByRedis(o: Options, start: real, s: System): S.Event {
    var before := L.Run(SettingOf(o), start, s.primary).now;
    S.Check(if s.now >= before then s.now - before else 0.0)
  }

  function SeenByFallback(o: Options, start: real, s: System): S.Event {
    var before := M.Run(o.rate, start, s.secondary).now;
    S.Check(if s.now >= before then s.now - before else 0.0)
  }

  predicate RedisAllows(o: Options, s: System) {
    L.EvalReply(SettingOf(o), s.t.keys, s.now).allowed
  }

  predicate FallbackAllows(o: Options, s: System) {
    M.CheckDecision(s.t.window, o.rate, s.now).allowed
  }

  /** The script, if Redis executes it. */
  function Evaluated(o: Options, start: real, s: System, link: Link): System {
    if link == Refused then s
    else s.(t := s.t.(keys := L.AfterEval(SettingOf(o), s.t.keys, s.now)),
            primary := s.primary + [SeenByRedis(o, start, s)])
  }

  /** The reply to the script, or the error that takes its place. */
  function Asked(o: Options, start: real, s: System, id: nat, link: Link): System {
    var e := Evaluated(o, start, s, link);
    if link != Answered then At(e.(t := MarkDegraded(e.t, s.now)), id, Falling)
    else At(e.(byRedis := if RedisAllows(o, s) then s.byRedis + [s.now] else s.byRedis), id, Done(RedisAllows(o, s)))
  }

  /** The decision without Redis. */
  function Fell(o: Options, start: real, s: System, id: nat): System {
    if o.failClosed then At(s, id, Done(false))
    else
      At(s.(t := s.t.(window := M.AfterCheck(s.t.window, o.rate, s.now)),
            secondary := s.secondary + [SeenByFallback(o, start, s)],
            byFallback := if FallbackAllows(o, s) then s.byFallback + [s.now] else s.byFallback),
         id, Done(FallbackAllows(o, s)))
  }

  function Entered(o: Options, s: System, id: nat): System {
    if s.t.healthy then At(s, id, Asking)
    else if Probes(o, s.t, s.now) then
      At(s.(t := s.t.(lastProbe := s.now), probes := s.probes + [s.now]), id, Probing)
    else At(s, id, Falling)
  }

  /** One step of one coroutine. An event that is not enabled changes nothing. */
  function Next(o: Options, start: real, s: System, e: Event): System {
    match e
    case Arrive(id) => if id in s.checks then s else At(s, id, Entering)
    case Enter(id) => if InPhase(s, id, Entering) then Entered(o, s, id) else s
    case ProbeEnds(id, pong) =>
      if InPhase(s, id, Probing)
      then At(s.(t := Recovered(s.t, pong)), id, if pong then Asking else Falling)
      else s
    case Ask(id, link) => if InPhase(s, id, Asking) then Asked(o, start, s, id, link) else s
    case Fall(id) => if InPhase(s, id, Falling) then Fell(o, start, s, id) else s
    case ResetKey(id, link) =>
      if id in s.resetting then s
      else if link == Refused then s.(t := MarkDegraded(s.t, s.now), resetting := s.resetting + {id})
      else
        var t := s.t.(keys := L.AfterReset(s.t.keys));
        s.(t := if link == Answered then t else MarkDegraded(t, s.now), resetting := s.resetting + {id},
           byRedis := [], primary := s.primary + [S.Reset])
    case ResetFallback(id) =>
      if id in s.resetting
      then s.(t := s.t.(window := []), resetting := s.resetting - {id}, byFallback := [], secondary := s.secondary + [S.Reset])
      else s
    case Ping(pong) => s.(t := Recovered(s.t, pong))
    case HealthCheck(pong) => if pong then s else s.(t := MarkDegraded(s.t, s.now))
    case Tick(gap) => s.(now := s.now + gap)
  }

  function Run(o: Options, start: real, es: seq<Event>): System {
    if es == [] then System(INITIAL, map[], {}, start, [], [], [], [], [])
    else Next(o, start, Run(o, start, es[..|es| - 1]), es[|es| - 1])
  }

  // ----- the methods are runs in which nothing comes between -----

  /** A check all by itself, up to the point where it asks Redis or falls back; then the rest of it. */
  function Routed(o: Options, start: real, s: System, id: nat, pong: bool): System {
    Next(o, start, Next(o, start, Next(o, start, s, Arrive(id)), Enter(id)), ProbeEnds(id, pong))
  }

  function Rest(o: Options, start: real, s: System, id: nat, link: Link): System {
    Next(o, start, Next(o, start, s, Ask(id, link)), Fall(id))
  }

  lemma RoutedAlone(o: Options, start: real, s: System, id: nat, pong: bool)
    requires id !in s.checks
    ensures var r := Routed(o, start, s, id, pong);
            && r.t == Probed(o, s.t, s.now, pong) && r.now == s.now
            && InPhase(r, id, if r.t.healthy then Asking else Falling)
  {
  }

  lemma RestIs(o: Options, start: real, s: System, id: nat, link: Link)
    requires InPhase(s, id, if s.t.healthy then Asking else Falling)
    ensures var r := Rest(o, start, s, id, link);
            var served := s.t.healthy && link == Answered;
            var marked := if s.t.healthy && link != Answered then MarkDegraded(s.t, s.now) else s.t;
            && r.t.healthy == marked.healthy && r.t.degradedSince == marked.degradedSince && r.t.lastProbe == marked.lastProbe
            && r.t.keys == (if s.t.healthy && link != Refused then L.AfterEval(SettingOf(o), s.t.keys, s.now) else s.t.keys)
            && r.t.window == (if served || o.failClosed then s.t.window else M.AfterCheck(s.t.window, o.rate, s.now))
            && InPhase(r, id, Done(if served then RedisAllows(o, s) else !o.failClosed && FallbackAllows(o, s)))
  {
    hide L.AfterEval, RedisAllows, FallbackAllows, M.AfterCheck, SettingOf, SeenByRedis, SeenByFallback;
    SameFallback(o, s, Next(o, start, s, Ask(id, link)));
  }

  lemma SameFallback(o: Options, s: System, q: System)
    ensures q.t.window == s.t.window && q.now == s.now ==> FallbackAllows(o, q) == FallbackAllows(o, s)
  {
  }

  /** What the method `Check` does is a run in which nothing comes between: the same stores, flags and answer. */
  lemma CheckIsRun(o: Options, start: real, s: System, id: nat, link: Link, pong: bool)
    requires id !in s.checks
    ensures var t := Rest(o, start, Routed(o, start, s, id, pong), id, link);
            && t.t == AfterCheck(o, s.t, s.now, link, pong)
            && InPhase(t, id, Done(CheckDecision(o, s.t, s.now, link, pong).allowed))
  {
    hide Routed, Rest, L.AfterEval, L.EvalReply, M.AfterCheck, M.CheckDecision, SettingOf, InPhase;
    RoutedAlone(o, start, s, id, pong);
    RestIs(o, start, Routed(o, start, s, id, pong), id, link);
  }

  lemma ResetIsRun(o: Options, start: real, s: System, id: nat, link: Link)
    requires id !in s.resetting
    ensures var t := Next(o, start, Next(o, start, s, ResetKey(id, link)), ResetFallback(id));
            t.t == AfterReset(s.t, s.now, link) && t.resetting == s.resetting
  {
    hide L.AfterReset;
  }

  predicate ValidOptions(o: Options) {
    o.rate.count >= 1 && o.rate.perSeconds >= 1.0
  }

  lemma WindowOf(o: Options)
    requires ValidOptions(o)
    ensures 0.0 < SettingOf(o).window <= o.rate.perSeconds && SettingOf(o).limit == o.rate.count
  {
  }

  // ----- each store is where the events that it saw have brought it -----

  predicate StoresFollow(o: Options, start: real, s: System) {
    && s.t.keys == L.Run(SettingOf(o), start, s.primary).keys
    && s.t.window == M.Run(o.rate, start, s.secondary).window
    && L.Run(SettingOf(o), start, s.primary).now <= s.now
    && M.Run(o.rate, start, s.secondary).now <= s.now
  }

  function RedisLog(o: Options, start: real, s: System): seq<real> {
    S.Run(L.LimitOf(SettingOf(o)), start, s.primary).log
  }

  function FallbackLog(o: Options, start: real, s: System): seq<real> {
    S.Run(M.LimitOf(o.rate), start, s.secondary).log
  }

  lemma LAppend(o: Options, start: real, log: seq<S.Event>, e: S.Event)
    ensures L.Run(SettingOf(o), start, log + [e]) == L.Next(SettingOf(o), L.Run(SettingOf(o), start, log), e)
    ensures S.Run(L.LimitOf(SettingOf(o)), start, log + [e])
            == S.Next(L.LimitOf(SettingOf(o)), S.Run(L.LimitOf(SettingOf(o)), start, log), e)
  {
    hide L.Next, S.Next;
    assert (log + [e])[..|log|] == log;
  }

  lemma MAppend(o: Options, start: real, log: seq<S.Event>, e: S.Event)
    ensures M.Run(o.rate, start, log + [e]) == M.Next(o.rate, M.Run(o.rate, start, log), e)
    ensures S.Run(M.LimitOf(o.rate), start, log + [e]) == S.Next(M.LimitOf(o.rate), S.Run(M.LimitOf(o.rate), start, log), e)
  {
    hide M.Next, S.Next;
    assert (log + [e])[..|log|] == log;
  }

  lemma AskFollows(o: Options, start: real, s: System, id: nat, link: Link)
    requires StoresFollow(o, start, s)
    ensures StoresFollow(o, start, Asked(o, start, s, id, link))
  {
    hide L.AfterEval, L.Run, M.Run, S.Run, L.EvalReply, SettingOf, RedisAllows;
    LAppend(o, start, s.primary, SeenByRedis(o, start, s));
  }

  lemma FallFollows(o: Options, start: real, s: System, id: nat)
    requires StoresFollow(o, start, s)
    ensures StoresFollow(o, start, Fell(o, start, s, id))
  {
    hide M.AfterCheck, L.Run, M.Run, S.Run, SettingOf, FallbackAllows;
    MAppend(o, start, s.secondary, SeenByFallback(o, start, s));
  }

  lemma ResetFollows(o: Options, start: real, s: System, e: Event)
    requires StoresFollow(o, start, s) && (e.ResetKey? || e.ResetFallback?)
    ensures StoresFollow(o, start, Next(o, start, s, e))
  {
    hide L.AfterEval, M.AfterCheck, L.Run, M.Run, S.Run, SettingOf, L.AfterReset;
    LAppend(o, start, s.primary, S.Reset);
    MAppend(o, start, s.secondary, S.Reset);
  }

  lemma StepFollows(o: Options, start: real, s: System, e: Event)
    requires StoresFollow(o, start, s)
    ensures StoresFollow(o, start, Next(o, start, s, e))
  {
    hide L.Run, M.Run, Asked, Fell, SettingOf;
    match e {
      case Ask(id, link) => AskFollows(o, start, s, id, link);
      case Fall(id) => FallFollows(o, start, s, id);
      case ResetKey(_, _) => ResetFollows(o, start, s, e);
      case ResetFallback(_) => ResetFollows(o, start, s, e);
      case _ =>
    }
  }

  /** Redis decides as its log says. */
  lemma RedisAsks(o: Options, start: real, s: System)
    requires ValidOptions(o) && start >= 0.0 && StoresFollow(o, start, s)
    ensures RedisAllows(o, s) <==> S.Ask(L.LimitOf(SettingOf(o)), RedisLog(o, start, s), s.now).allowed
    ensures S.Run(L.LimitOf(SettingOf(o)), start, s.primary).now == L.Run(SettingOf(o), start, s.primary).now
  {
    hide L.EvalReply, L.Run, M.Run, S.Run, S.Ask, SettingOf;
    WindowOf(o);
    L.ReplyIsAnswer(SettingOf(o), start, s.primary, SeenByRedis(o, start, s).gap);
    L.SetRefinesLog(SettingOf(o), start, s.primary);
  }

  lemma FallbackAsks(o: Options, start: real, s: System)
    requires ValidOptions(o) && StoresFollow(o, start, s)
    ensures FallbackAllows(o, s) <==> S.Ask(M.LimitOf(o.rate), FallbackLog(o, start, s), s.now).allowed
    ensures S.Run(M.LimitOf(o.rate), start, s.secondary).now == M.Run(o.rate, start, s.secondary).now
  {
    hide M.CheckDecision, L.Run, M.Run, S.Run, S.Ask;
    M.DecisionIsAnswer(o.rate, start, s.secondary, SeenByFallback(o, start, s).gap);
    M.DequeRefinesLog(o.rate, start, s.secondary);
  }

  /** What a script run adds to the log of Redis. */
  lemma RedisLogGrows(o: Options, start: real, s: System, link: Link)
    requires ValidOptions(o) && start >= 0.0 && StoresFollow(o, start, s)
    ensures RedisLog(o, start, Evaluated(o, start, s, link))
            == RedisLog(o, start, s) + if link != Refused && RedisAllows(o, s) then [s.now] else []
  {
    hide L.AfterEval, L.EvalReply, L.Run, M.Run, S.Run, S.Ask, SettingOf, RedisAllows;
    RedisAsks(o, start, s);
    LAppend(o, start, s.primary, SeenByRedis(o, start, s));
    assert RedisLog(o, start, s) + [] == RedisLog(o, start, s);
  }

  lemma FallbackLogGrows(o: Options, start: real, s: System)
    requires ValidOptions(o) && StoresFollow(o, start, s)
    ensures S.Run(M.LimitOf(o.rate), start, s.secondary + [SeenByFallback(o, start, s)]).log
            == FallbackLog(o, start, s) + if FallbackAllows(o, s) then [s.now] else []
  {
    hide M.CheckDecision, L.Run, M.Run, S.Run, S.Ask, FallbackAllows;
    FallbackAsks(o, start, s);
    MAppend(o, start, s.secondary, SeenByFallback(o, start, s));
    assert FallbackLog(o, start, s) + [] == FallbackLog(o, start, s);
  }

  // ----- the admissions told to callers are backed by the stores -----

  /** Redis may have admitted more than callers were told, when a reply was lost; the fallback has not. */
  predicate Backed(o: Options, start: real, s: System, lo: real, hi: real) {
    && S.CountSpan(s.byRedis, lo, hi, S.Dropped) <= S.CountSpan(RedisLog(o, start, s), lo, hi, S.Dropped)
    && s.byFallback == FallbackLog(o, start, s)
    && (o.failClosed ==> s.byFallback == [])
  }

  lemma AskBacked(o: Options, start: real, s: System, id: nat, link: Link, lo: real, hi: real)
    requires ValidOptions(o) && start >= 0.0 && StoresFollow(o, start, s) && Backed(o, start, s, lo, hi)
    ensures Backed(o, start, Asked(o, start, s, id, link), lo, hi)
  {
    hide L.AfterEval, RedisAllows, S.Run, S.CountSpan, StoresFollow, SeenByRedis, SettingOf;
    RedisLogGrows(o, start, s, link);
    assert RedisLog(o, start, s) + [] == RedisLog(o, start, s);
    S.CountSpanAppend(RedisLog(o, start, s), s.now, lo, hi, S.Dropped);
    S.CountSpanAppend(s.byRedis, s.now, lo, hi, S.Dropped);
  }

  lemma FallBacked(o: Options, start: real, s: System, id: nat, lo: real, hi: real)
    requires ValidOptions(o) && StoresFollow(o, start, s) && Backed(o, start, s, lo, hi)
    ensures Backed(o, start, Fell(o, start, s, id), lo, hi)
  {
    hide M.AfterCheck, FallbackAllows, S.Run, S.CountSpan, StoresFollow, SeenByFallback, SettingOf;
    FallbackLogGrows(o, start, s);
    assert FallbackLog(o, start, s) + [] == FallbackLog(o, start, s);
  }

  lemma KeyResetBacked(o: Options, start: real, s: System, id: nat, link: Link, lo: real, hi: real)
    requires Backed(o, start, s, lo, hi)
    ensures Backed(o, start, Next(o, start, s, ResetKey(id, link)), lo, hi)
  {
    hide S.Run, L.Run, L.AfterReset, SettingOf;
    LAppend(o, start, s.primary, S.Reset);
  }

  lemma FallbackResetBacked(o: Options, start: real, s: System, id: nat, lo: real, hi: real)
    requires Backed(o, start, s, lo, hi)
    ensures Backed(o, start, Next(o, start, s, ResetFallback(id)), lo, hi)
  {
    hide S.Run, M.Run, S.CountSpan, SettingOf;
    MAppend(o, start, s.secondary, S.Reset);
  }

  lemma StepBacked(o: Options, start: real, s: System, e: Event, lo: real, hi: real)
    requires ValidOptions(o) && start >= 0.0 && StoresFollow(o, start, s) && Backed(o, start, s, lo, hi)
    ensures Backed(o, start, Next(o, start, s, e), lo, hi)
  {
    hide S.CountSpan, StoresFollow, Asked, Fell, S.Run, SettingOf;
    match e {
      case Ask(id, link) => AskBacked(o, start, s, id, link, lo, hi);
      case Fall(id) => FallBacked(o, start, s, id, lo, hi);
      case ResetKey(id, link) => KeyResetBacked(o, start, s, id, link, lo, hi);
      case ResetFallback(id) => FallbackResetBacked(o, start, s, id, lo, hi);
      case _ =>
    }
  }

  lemma {:induction false} RunBacked(o: Options, start: real, es: seq<Event>, lo: real, hi: real)
    requires ValidOptions(o) && start >= 0.0
    ensures StoresFollow(o, start, Run(o, start, es)) && Backed(o, start, Run(o, start, es), lo, hi)
  {
    if es != [] {
      hide StoresFollow, Backed, Next;
      var s := Run(o, start, es[..|es| - 1]);
      RunBacked(o, start, es[..|es| - 1], lo, hi);
      StepFollows(o, start, s, es[|es| - 1]);
      StepBacked(o, start, s, es[|es| - 1], lo, hi);
    }
  }

  lemma {:induction false} DroppedWithinKept(log: seq<real>, lo: real, hi: real)
    ensures S.CountSpan(log, lo, hi, S.Dropped) <= S.CountSpan(log, lo, hi, S.Kept)
  {
    if log != [] {
      DroppedWithinKept(log[..|log| - 1], lo, hi);
    }
  }

  /** The admissions within a window (lo, lo + w], of the whole seconds of the rate, that callers were told of. */
  function ToldWithin(o: Options, s: System, lo: real): nat {
    S.CountSpan(s.byRedis, lo, lo + SettingOf(o).window, S.Dropped)
    + S.CountSpan(s.byFallback, lo, lo + SettingOf(o).window, S.Dropped)
  }

  lemma ToldByRedis(o: Options, start: real, es: seq<Event>, lo: real)
    requires ValidOptions(o) && start >= 0.0
    ensures S.CountSpan(Run(o, start, es).byRedis, lo, lo + SettingOf(o).window, S.Dropped) <= o.rate.count
  {
    hide Run, S.Run, S.CountSpan, StoresFollow, SettingOf;
    WindowOf(o);
    RunBacked(o, start, es, lo, lo + SettingOf(o).window);
    S.WindowHoldsAtMostCount(L.LimitOf(SettingOf(o)), start, Run(o, start, es).primary, lo);
  }

  lemma FallbackWindow(o: Options, start: real, seen: seq<S.Event>, lo: real)
    requires ValidOptions(o)
    ensures S.CountSpan(S.Run(M.LimitOf(o.rate), start, seen).log, lo, lo + SettingOf(o).window, S.Dropped) <= o.rate.count
  {
    hide S.Run, S.CountSpan, SettingOf;
    var w, log := SettingOf(o).window, S.Run(M.LimitOf(o.rate), start, seen).log;
    WindowOf(o);
    S.WindowHoldsAtMostCount(M.LimitOf(o.rate), start, seen, lo);
    DroppedWithinKept(log, lo, lo + w);
    S.SpanGrows(log, lo, lo + w, lo + o.rate.perSeconds, S.Kept);
  }

  lemma EmptySpan(lo: real, hi: real)
    ensures S.CountSpan([], lo, hi, S.Dropped) == 0
  {
  }

  lemma ToldByFallback(o: Options, start: real, es: seq<Event>, lo: real)
    requires ValidOptions(o) && start >= 0.0
    ensures S.CountSpan(Run(o, start, es).byFallback, lo, lo + SettingOf(o).window, S.Dropped)
            <= if o.failClosed then 0 else o.rate.count
  {
    hide Run, S.Run, S.CountSpan, StoresFollow, SettingOf, RedisLog;
    RunBacked(o, start, es, lo, lo);
    FallbackWindow(o, start, Run(o, start, es).secondary, lo);
    EmptySpan(lo, lo + SettingOf(o).window);
  }

  /**
   * However checks overlap and Redis fails and comes back, no window sees more than `count` admissions when the
   * throttle fails closed, nor more than twice `count` when it falls back in-process.
   */
  lemma OutagesAtMostDouble(o: Options, start: real, es: seq<Event>, lo: real)
    requires ValidOptions(o) && start >= 0.0
    ensures ToldWithin(o, Run(o, start, es), lo) <= if o.failClosed then o.rate.count else 2 * o.rate.count
  {
    hide Run, S.CountSpan, SettingOf;
    ToldByRedis(o, start, es, lo);
    ToldByFallback(o, start, es, lo);
  }

  // ----- and twice the count is reached -----

  /** The log of `n` admissions at one time. */
  function Times(t: real, n: nat): seq<real> {
    if n == 0 then [] else Times(t, n - 1) + [t]
  }

  lemma {:induction false} TimesCount(t: real, n: nat, lo: real, hi: real, edge: S.Edge)
    requires lo < t <= hi
    ensures |S.Live(Times(t, n), lo, edge)| == n && S.CountSpan(Times(t, n), lo, hi, edge) == n
  {
    if n > 0 {
      TimesCount(t, n - 1, lo, hi, edge);
      S.LiveAppend(Times(t, n - 1), t, lo, edge);
      S.CountSpanAppend(Times(t, n - 1), t, lo, hi, edge);
    }
  }

  /** All at `start`: Redis has admitted the first `j` checks, and the fallback the `k` after them. */
  predicate Burst(o: Options, start: real, s: System, j: nat, k: nat) {
    && StoresFollow(o, start, s) && s.now == start && (forall id | id in s.checks :: id < j + k)
    && RedisLog(o, start, s) == Times(start, j) && s.byRedis == Times(start, j)
    && FallbackLog(o, start, s) == Times(start, k) && s.byFallback == Times(start, k)
  }

  lemma BurstDecides(o: Options, start: real, s: System, j: nat, k: nat)
    requires ValidOptions(o) && start >= 0.0 && Burst(o, start, s, j, k)
    ensures RedisAllows(o, s) <==> j < o.rate.count
    ensures FallbackAllows(o, s) <==> k < o.rate.count
  {
    hide RedisAllows, FallbackAllows, L.Run, M.Run, S.Run, SettingOf, S.Live, S.CountSpan;
    WindowOf(o);
    RedisAsks(o, start, s);
    FallbackAsks(o, start, s);
    TimesCount(start, j, start - SettingOf(o).window, start, S.Dropped);
    TimesCount(start, k, start - o.rate.perSeconds, start, S.Kept);
  }

  lemma SameDecision(o: Options, s: System, q: System)
    requires q.t.keys == s.t.keys && q.t.window == s.t.window && q.now == s.now
    ensures RedisAllows(o, q) == RedisAllows(o, s) && FallbackAllows(o, q) == FallbackAllows(o, s)
  {
  }

  lemma RunAppend(o: Options, start: real, es: seq<Event>, e: Event)
    ensures Run(o, start, es + [e]) == Next(o, start, Run(o, start, es), e)
  {
    hide Next;
    assert (es + [e])[..|es|] == es;
  }

  /** The events of a check that Redis answers, up to the script. */
  function ToRedis(es: seq<Event>, id: nat): seq<Event> {
    es + [Arrive(id)] + [Enter(id)]
  }

  /** The events of a check that Redis refuses, up to the fallback; what does not happen to it changes nothing. */
  function ToFallback(es: seq<Event>, id: nat): seq<Event> {
    es + [Arrive(id)] + [Enter(id)] + [ProbeEnds(id, false)] + [Ask(id, Refused)]
  }

  lemma ComesToRedis(o: Options, start: real, es: seq<Event>, id: nat)
    requires id !in Run(o, start, es).checks && Run(o, start, es).t.healthy
    ensures Run(o, start, ToRedis(es, id)) == At(Run(o, start, es), id, Asking)
  {
    hide Run;
    RunAppend(o, start, es, Arrive(id));
    RunAppend(o, start, es + [Arrive(id)], Enter(id));
  }

  /** A check that Redis does not serve comes to the fallback, whatever its way there. */
  lemma RefusedAsk(o: Options, start: real, s: System, id: nat)
    requires InPhase(s, id, Asking) || InPhase(s, id, Falling)
    ensures var r := Next(o, start, s, Ask(id, Refused));
            && InPhase(r, id, Falling) && r.checks.Keys == s.checks.Keys && r.now == s.now
            && r.t.keys == s.t.keys && r.t.window == s.t.window && r.byRedis == s.byRedis && r.byFallback == s.byFallback
            && r.primary == s.primary && r.secondary == s.secondary
  {
    hide L.AfterEval, SettingOf, RedisAllows, SeenByRedis;
  }

  lemma EnteredUnserved(o: Options, start: real, s: System, id: nat)
    requires id !in s.checks
    ensures var r := Next(o, start, Next(o, start, Next(o, start, s, Arrive(id)), Enter(id)), ProbeEnds(id, false));
            && (InPhase(r, id, Asking) || InPhase(r, id, Falling)) && r.checks.Keys == s.checks.Keys + {id} && r.now == s.now
            && r.t.keys == s.t.keys && r.t.window == s.t.window && r.byRedis == s.byRedis && r.byFallback == s.byFallback
            && r.primary == s.primary && r.secondary == s.secondary
  {
  }

  lemma ComesToFallback(o: Options, start: real, es: seq<Event>, id: nat)
    requires id !in Run(o, start, es).checks
    ensures var s, r := Run(o, start, es), Run(o, start, ToFallback(es, id));
            && InPhase(r, id, Falling) && r.checks.Keys == s.checks.Keys + {id}
            && r.now == s.now && r.t.keys == s.t.keys && r.t.window == s.t.window
            && r.byRedis == s.byRedis && r.byFallback == s.byFallback
            && r.primary == s.primary && r.secondary == s.secondary
  {
    hide Run, Next;
    EnteredUnserved(o, start, Run(o, start, es), id);
    RunAppend(o, start, es, Arrive(id));
    RunAppend(o, start, es + [Arrive(id)], Enter(id));
    RunAppend(o, start, es + [Arrive(id)] + [Enter(id)], ProbeEnds(id, false));
    RunAppend(o, start, es + [Arrive(id)] + [Enter(id)] + [ProbeEnds(id, false)], Ask(id, Refused));
    RefusedAsk(o, start, Run(o, start, es + [Arrive(id)] + [Enter(id)] + [ProbeEnds(id, false)]), id);
  }

  lemma AnsweredAsk(o: Options, start: real, q: System, id: nat)
    requires ValidOptions(o) && start >= 0.0 && StoresFollow(o, start, q) && RedisAllows(o, q)
    ensures var t := Asked(o, start, q, id, Answered);
            && RedisLog(o, start, t) == RedisLog(o, start, q) + [q.now] && FallbackLog(o, start, t) == FallbackLog(o, start, q)
            && t.byRedis == q.byRedis + [q.now] && t.byFallback == q.byFallback
            && t.now == q.now && t.checks.Keys == q.checks.Keys + {id} && t.t.healthy == q.t.healthy
  {
    hide L.AfterEval, RedisAllows, StoresFollow, SeenByRedis, S.Run, SettingOf;
    RedisLogGrows(o, start, q, Answered);
  }

  lemma BurstOnRedis(o: Options, start: real, es: seq<Event>, j: nat)
    requires ValidOptions(o) && start >= 0.0 && j < o.rate.count
    requires Burst(o, start, Run(o, start, es), j, 0) && Run(o, start, es).t.healthy
    ensures var t := Run(o, start, ToRedis(es, j) + [Ask(j, Answered)]); Burst(o, start, t, j + 1, 0) && t.t.healthy
  {
    hide Run, Asked, RedisAllows, FallbackAllows, StoresFollow, S.Run, ToRedis, SettingOf, Backed;
    var s, q := Run(o, start, es), Run(o, start, ToRedis(es, j));
    ComesToRedis(o, start, es, j);
    RunAppend(o, start, ToRedis(es, j), Ask(j, Answered));
    RunBacked(o, start, ToRedis(es, j) + [Ask(j, Answered)], start, start);
    RunBacked(o, start, ToRedis(es, j), start, start);
    BurstDecides(o, start, s, j, 0);
    SameDecision(o, s, q);
    AnsweredAsk(o, start, q, j);
  }

  lemma FallInBurst(o: Options, start: real, q: System, id: nat)
    requires ValidOptions(o) && StoresFollow(o, start, q) && FallbackAllows(o, q) && !o.failClosed
    ensures var t := Fell(o, start, q, id);
            && FallbackLog(o, start, t) == FallbackLog(o, start, q) + [q.now] && RedisLog(o, start, t) == RedisLog(o, start, q)
            && t.byFallback == q.byFallback + [q.now] && t.byRedis == q.byRedis
            && t.now == q.now && t.checks.Keys == q.checks.Keys + {id}
  {
    hide M.AfterCheck, FallbackAllows, StoresFollow, SeenByFallback, S.Run, SettingOf;
    FallbackLogGrows(o, start, q);
  }

  lemma BurstOnFallback(o: Options, start: real, es: seq<Event>, j: nat, k: nat)
    requires ValidOptions(o) && start >= 0.0 && !o.failClosed && k < o.rate.count
    requires Burst(o, start, Run(o, start, es), j, k)
    ensures Burst(o, start, Run(o, start, ToFallback(es, j + k) + [Fall(j + k)]), j, k + 1)
  {
    hide Run, Fell, RedisAllows, FallbackAllows, StoresFollow, S.Run, ToFallback, SettingOf, Backed;
    var id := j + k;
    var s, r := Run(o, start, es), Run(o, start, ToFallback(es, id));
    ComesToFallback(o, start, es, id);
    RunAppend(o, start, ToFallback(es, id), Fall(id));
    RunBacked(o, start, ToFallback(es, id) + [Fall(id)], start, start);
    RunBacked(o, start, ToFallback(es, id), start, start);
    BurstDecides(o, start, s, j, k);
    SameDecision(o, s, r);
    FallInBurst(o, start, r, id);
  }

  /** `j` checks that Redis answers, then `k` that it refuses, all at one time and one after another. */
  function Outage(j: nat, k: nat): seq<Event> {
    if k > 0 then ToFallback(Outage(j, k - 1), j + k - 1) + [Fall(j + k - 1)]
    else if j > 0 then ToRedis(Outage(j - 1, 0), j - 1) + [Ask(j - 1, Answered)]
    else []
  }

  lemma {:induction false} OutageAdmits(o: Options, start: real, j: nat, k: nat)
    requires ValidOptions(o) && start >= 0.0 && !o.failClosed && j <= o.rate.count && k <= o.rate.count
    ensures Burst(o, start, Run(o, start, Outage(j, k)), j, k)
    ensures k == 0 ==> Run(o, start, Outage(j, k)).t.healthy
  {
    hide Run, Burst, ToFallback, ToRedis;
    if k > 0 {
      OutageAdmits(o, start, j, k - 1);
      BurstOnFallback(o, start, Outage(j, k - 1), j, k - 1);
    } else if j > 0 {
      OutageAdmits(o, start, j - 1, 0);
      BurstOnRedis(o, start, Outage(j - 1, 0), j - 1);
    } else {
      BurstBegins(o, start);
    }
  }

  lemma BurstBegins(o: Options, start: real)
    ensures Burst(o, start, Run(o, start, []), 0, 0) && Run(o, start, []).t.healthy
  {
  }

  /** Failing open, an outage that begins when Redis has given out its share lets the fallback give out another. */
  lemma DoubleIsReached(o: Options, start: real)
    requires ValidOptions(o) && start >= 0.0 && !o.failClosed
    ensures ToldWithin(o, Run(o, start, Outage(o.rate.count, o.rate.count)), start - SettingOf(o).window)
            == 2 * o.rate.count
  {
    hide Run, S.CountSpan, S.Live, SettingOf, StoresFollow, RedisLog, FallbackLog, Outage;
    WindowOf(o);
    OutageAdmits(o, start, o.rate.count, o.rate.count);
    TimesCount(start, o.rate.count, start - SettingOf(o).window, start, S.Dropped);
  }

  // ----- health and probes -----

  predicate Spaced(probes: seq<real>, interval: real) {
    |probes| <= 1
    || (probes[|probes| - 1] - probes[|probes| - 2] >= interval && Spaced(probes[..|probes| - 1], interval))
  }

  predicate HealthInOrder(o: Options, s: System) {
    && (s.t.healthy <==> s.t.degradedSince == None)
    && Spaced(s.probes, o.interval)
    && (s.probes != [] ==> s.t.lastProbe == s.probes[|s.probes| - 1])
  }

  /** Only the start of a probe touches the probes, and only with the time of the new one. */
  lemma StepProbes(o: Options, start: real, s: System, e: Event)
    requires s.t.healthy <==> s.t.degradedSince == None
    ensures var r := Next(o, start, s, e);
            && (r.t.healthy <==> r.t.degradedSince == None)
            && if e.Enter? && InPhase(s, e.id, Entering) && Probes(o, s.t, s.now)
               then r.probes == s.probes + [s.now] && r.t.lastProbe == s.now
               else r.probes == s.probes && r.t.lastProbe == s.t.lastProbe
  {
    hide L.AfterEval, M.AfterCheck, RedisAllows, FallbackAllows, SeenByRedis, SeenByFallback, L.AfterReset, SettingOf;
  }

  lemma StepKeepsHealth(o: Options, start: real, s: System, e: Event)
    requires HealthInOrder(o, s)
    ensures HealthInOrder(o, Next(o, start, s, e))
  {
    hide Next, Spaced;
    StepProbes(o, start, s, e);
    if e.Enter? && Probes(o, s.t, s.now) {
      SpacedAppend(s.probes, o.interval, s.now);
    }
  }

  lemma SpacedAppend(probes: seq<real>, interval: real, now: real)
    requires Spaced(probes, interval)
    requires probes == [] || now - probes[|probes| - 1] >= interval
    ensures Spaced(probes + [now], interval)
  {
    assert (probes + [now])[..|probes|] == probes;
  }

  /** `healthy` and `degraded_since` never disagree, and two probes of checks are an interval apart. */
  lemma {:induction false} HealthAndProbes(o: Options, start: real, es: seq<Event>)
    ensures HealthInOrder(o, Run(o, start, es))
  {
    if es != [] {
      hide Next, HealthInOrder;
      HealthAndProbes(o, start, es[..|es| - 1]);
      StepKeepsHealth(o, start, Run(o, start, es[..|es| - 1]), es[|es| - 1]);
    }
  }
}
