/** The Redis throttle of one key, with its in-process fallback, while Redis may fail at any command. */
module RedisThrottle {
  import opened Prelude
  import S = SlidingLog
  import M = MemoryThrottle
  import L = SlidingLua
  import A = ThrottleAgreement

  /** `failClosed` is the fail mode; `interval` is the least time between two probes while degraded. */
  datatype Options = Options(rate: M.Rate, failClosed: bool, interval: real, keep: bool)

  datatype Throttle = Throttle(
    keys: L.Keys, window: seq<real>, healthy: bool, degradedSince: Option<real>, lastProbe: real)

  const INITIAL := Throttle(L.NO_KEYS, [], true, None, 0.0)

  function SettingOf(o: Options): L.Setting {
    A.SettingOf(o.rate, true, o.keep)
  }

  function MarkDegraded(t: Throttle, now: real): Throttle {
    if t.healthy then t.(healthy := false, degradedSince := Some(now)) else t
  }

  function Recovered(t: Throttle, pong: bool): Throttle {
    if !t.healthy && pong then t.(healthy := true, degradedSince := None) else t
  }

  /** A check sends PING first when the throttle is degraded and the last probe is old enough. */
  predicate Probes(o: Options, t: Throttle, now: real) {
    !t.healthy && now - t.lastProbe >= o.interval
  }

  function Probed(o: Options, t: Throttle, now: real, pong: bool): Throttle {
    if Probes(o, t, now) then Recovered(t.(lastProbe := now), pong) else t
  }

  function Denial(o: Options, now: real): M.Decision {
    M.Decision(false, 0, o.rate.count, o.rate.perSeconds, Trunc(now) + Trunc(o.rate.perSeconds))
  }

  /** The script is sent, and Redis executes it. */
  predicate Executes(o: Options, t: Throttle, now: real, link: Link, pong: bool) {
    Probed(o, t, now, pong).healthy && link != Refused
  }

  /** Redis does not answer, so that the fail mode decides. */
  predicate Degraded(o: Options, t: Throttle, now: real, link: Link, pong: bool) {
    !Probed(o, t, now, pong).healthy || link != Answered
  }

  function AfterCheck(o: Options, t: Throttle, now: real, link: Link, pong: bool): Throttle {
    var p := Probed(o, t, now, pong);
    var marked := if p.healthy && link != Answered then MarkDegraded(p, now) else p;
    marked.(keys := if Executes(o, t, now, link, pong) then L.AfterEval(SettingOf(o), t.keys, now) else t.keys,
            window := if Degraded(o, t, now, link, pong) && !o.failClosed
                      then M.AfterCheck(t.window, o.rate, now) else t.window)
  }

  function CheckDecision(o: Options, t: Throttle, now: real, link: Link, pong: bool): M.Decision {
    if !Degraded(o, t, now, link, pong) then A.RedisDecision(o.rate, L.EvalReply(SettingOf(o), t.keys, now), now)
    else if o.failClosed then Denial(o, now)
    else M.CheckDecision(t.window, o.rate, now)
  }

  function AfterReset(t: Throttle, now: real, link: Link): Throttle {
    var deleted := t.(keys := if link == Refused then t.keys else L.AfterReset(t.keys), window := []);
    if link == Answered then deleted else MarkDegraded(deleted, now)
  }

  /**
   * What a check leaves behind, wherever Redis fails it: it asks Redis when healthy or when a probe that is due is
   * answered; what Redis does not answer, the fail mode decides.
   */
  ghost predicate Leaves(o: Options, t: Throttle, now: real, link: Link, pong: bool, after: Throttle) {
    var due := !t.healthy && now - t.lastProbe >= o.interval;
    var asks := t.healthy || (due && pong);
    var served := asks && link == Answered;
    && after.lastProbe == (if due then now else t.lastProbe)
    && (after.healthy <==> served)
    && after.degradedSince == (if asks && link != Answered then Some(now)
                               else if due && pong then None else t.degradedSince)
    && after.keys == (if asks && link != Refused then L.AfterEval(SettingOf(o), t.keys, now) else t.keys)
    && after.window == (if served || o.failClosed then t.window else M.AfterCheck(t.window, o.rate, now))
  }

  /** What a check answers: the script's reply, a denial for the whole period, or the fallback's decision. */
  ghost predicate Answers(o: Options, t: Throttle, now: real, link: Link, pong: bool, d: M.Decision) {
    var asks := t.healthy || (now - t.lastProbe >= o.interval && pong);
    if asks && link == Answered then d == A.RedisDecision(o.rate, L.EvalReply(SettingOf(o), t.keys, now), now)
    else if !o.failClosed then d == M.CheckDecision(t.window, o.rate, now)
    else
      && !d.allowed && d.remaining == 0 && d.limit == o.rate.count && d.resetAfter == o.rate.perSeconds
      && d.resetAt == Trunc(now) + Trunc(o.rate.perSeconds)
  }

  lemma CheckExactly(o: Options, t: Throttle, now: real, link: Link, pong: bool)
    ensures Leaves(o, t, now, link, pong, AfterCheck(o, t, now, link, pong))
    ensures Answers(o, t, now, link, pong, CheckDecision(o, t, now, link, pong))
  {
    hide L.AfterEval, L.EvalReply, M.AfterCheck, M.CheckDecision, A.RedisDecision, SettingOf;
  }

  /** A reset clears both stores, except for a set that Redis was not told to clear. */
  lemma ResetExactly(t: Throttle, now: real, link: Link)
    ensures var after := AfterReset(t, now, link);
            && after.window == [] && after.lastProbe == t.lastProbe
            && after.keys == (if link == Refused then t.keys else t.keys.(zset := map[], zDeadline := None))
            && (after.healthy <==> t.healthy && link == Answered)
            && after.degradedSince == (if t.healthy && link != Answered then Some(now) else t.degradedSince)
  {
  }

  class RedisAsyncThrottle {
    const options: Options
    const key: string
    const redis: L.SlidingWindow
    const fallback: M.InMemoryAsyncThrottle
    var healthy: bool
    var degradedSince: Option<real>
    var lastProbeAt: real

    ghost predicate Valid()
      reads this
    {
      redis.setting == SettingOf(options)
    }

    ghost function View(): Throttle
      reads this, redis, fallback
    {
      Throttle(redis.View(), fallback.Window(key), healthy, degradedSince, lastProbeAt)
    }

    constructor (options: Options, key: string)
      ensures Valid() && this.options == options && View() == INITIAL
      ensures fresh(redis) && fresh(fallback)
    {
      this.options, this.key := options, key;
      redis := new L.SlidingWindow(SettingOf(options));
      fallback := new M.InMemoryAsyncThrottle();
      healthy, degradedSince, lastProbeAt := true, None, 0.0;
    }

    method Degrade(now: real)
      modifies this
      ensures View() == MarkDegraded(old(View()), now)
      ensures !healthy && degradedSince == if old(healthy) then Some(now) else old(degradedSince)
    {
      if healthy {
        healthy := false;
        degradedSince := Some(now);
      }
    }

    method TryRecover(pong: bool)
      modifies this
      ensures View() == Recovered(old(View()), pong)
      ensures healthy == (old(healthy) || pong) && (pong && !old(healthy) ==> degradedSince == None)
    {
      if !healthy && pong {
        healthy := true;
        degradedSince := None;
      }
    }

    method MaybeProbe(now: real, pong: bool) returns (recovered: bool)
      requires !healthy
      modifies this
      ensures View() == Probed(options, old(View()), now, pong)
      ensures recovered == View().healthy
    {
      if now - lastProbeAt < options.interval {
        return false;
      }
      lastProbeAt := now;
      TryRecover(pong);
      recovered := healthy;
    }

    method DegradedDecision(now: real) returns (d: M.Decision)
      requires Valid()
      modifies fallback
      ensures View() == if options.failClosed then old(View())
                        else old(View()).(window := M.AfterCheck(old(View()).window, options.rate, now))
      ensures d == if options.failClosed then Denial(options, now)
                   else M.CheckDecision(old(View()).window, options.rate, now)
    {
      if options.failClosed {
        return Denial(options, now);
      }
      d := fallback.Check(key, options.rate, now);
    }

    method Check(now: real, link: Link, pong: bool) returns (d: M.Decision)
      requires Valid()
      modifies this, redis, fallback
      ensures View() == AfterCheck(options, old(View()), now, link, pong)
      ensures d == CheckDecision(options, old(View()), now, link, pong)
    {
      hide L.AfterEval, L.EvalReply, M.AfterCheck, M.CheckDecision;
      if !healthy {
        var recovered := MaybeProbe(now, pong);
        if !recovered {
          d := DegradedDecision(now);
          return;
        }
      }
      if link == Refused {
        Degrade(now);
        d := DegradedDecision(now);
        return;
      }
      var reply := redis.Eval(now);
      if link == ReplyLost {
        Degrade(now);
        d := DegradedDecision(now);
        return;
      }
      d := A.RedisDecision(options.rate, reply, now);
    }

    method Reset(now: real, link: Link)
      requires Valid()
      modifies this, redis, fallback
      ensures View() == AfterReset(old(View()), now, link)
    {
      if link != Refused {
        redis.Reset();
      }
      if link != Answered {
        Degrade(now);
      }
      fallback.Reset(key);
    }
  }
}
