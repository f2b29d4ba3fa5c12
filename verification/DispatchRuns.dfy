/** Conservation, order and drain over every run of the worker. */
module DispatchRuns {
  import opened Dispatch

  datatype Delivery<T> = Delivery(batch: seq<T>, ok: bool)

  /** What a run did: submissions that returned, events accepted in order, which of them were displaced, flushes. */
  datatype History<T> = History(returned: nat, accepted: seq<T>, displaced: set<nat>, delivered: seq<Delivery<T>>)

  datatype State<T> = State(w: Worker<T>, h: History<T>)

  function Flatten<T>(delivered: seq<Delivery<T>>): seq<T> {
    if |delivered| == 0 then []
    else Flatten(delivered[..|delivered| - 1]) + delivered[|delivered| - 1].batch
  }

  /** The events of the batches whose flush ended as `ok` says. */
  function Total<T>(delivered: seq<Delivery<T>>, ok: bool): nat {
    if |delivered| == 0 then 0
    else
      var last := delivered[|delivered| - 1];
      Total(delivered[..|delivered| - 1], ok) + if last.ok == ok then |last.batch| else 0
  }

  /** The events whose places are not in `gone`, in order. */
  function Kept<T>(s: seq<T>, gone: set<nat>): seq<T> {
    if |s| == 0 then []
    else Kept(s[..|s| - 1], gone) + if |s| - 1 in gone then [] else [s[|s| - 1]]
  }

  /** The place in `s` of the kept event number `k`. */
  function PlaceOf<T>(s: seq<T>, gone: set<nat>, k: nat): nat {
    if |s| == 0 then 0
    else if |s| - 1 !in gone && |Kept(s[..|s| - 1], gone)| == k then |s| - 1
    else PlaceOf(s[..|s| - 1], gone, k)
  }

  function Held<T>(w: Worker<T>): seq<T> {
    if w.phase.Stopped? then w.phase.lost else InFlight(w)
  }

  /** The place of the oldest accepted event that is neither displaced nor with the worker. */
  function OldestQueued<T>(s: State<T>): nat {
    PlaceOf(s.h.accepted, s.h.displaced, |Flatten(s.h.delivered)| + |Held(s.w)|)
  }

  function Record<T>(c: Config, s: State<T>, e: Event<T>): History<T> {
    if !Enabled(c, s.w, e) then s.h
    else match e
      case Submit(event) =>
        s.h.(returned := s.h.returned + 1,
             accepted := if Accepts(c, s.w) then s.h.accepted + [event] else s.h.accepted,
             displaced := if Displaces(c, s.w) then s.h.displaced + {OldestQueued(s)} else s.h.displaced)
      case EndFlush(ok) => s.h.(delivered := s.h.delivered + [Delivery(s.w.phase.batch, ok)])
      case _ => s.h
  }

  function Next<T>(c: Config, s: State<T>, e: Event<T>): State<T> {
    State(After(c, s.w, e), Record(c, s, e))
  }

  function Run<T>(c: Config, events: seq<Event<T>>): State<T> {
    if |events| == 0 then State(Fresh<T>(), History(0, [], {}, []))
    else Next(c, Run(c, events[..|events| - 1]), events[|events| - 1])
  }

  // ----- conservation -----

  /** Everything submitted is flushed, failed, queued, dropped at shutdown or held; a timeout loses what was held. */
  predicate Conserved<T>(s: State<T>) {
    var w := s.w;
    && w.submitted == w.flushed + w.flushFailed + |w.queue| + |Held(w)|
    && s.h.returned == w.submitted + w.dropped
    && w.unfinished == |w.queue| + |Held(w)|
    && w.flushed == Total(s.h.delivered, true) && w.flushFailed == Total(s.h.delivered, false)
    && w.shutdownDropped == (if w.phase.Stopped? then |w.queue| else 0)
    && (w.phase.NotStarted? ==> |w.queue| == 0 && w.submitted + w.dropped == 0)
    && (w.phase.Stopped? ==> w.closed)
  }

  ghost predicate Bounded<T>(c: Config, s: State<T>) {
    && (c.queueSize > 0 ==> |s.w.queue| <= c.queueSize)
    && |Held(s.w)| <= BatchLimit(c)
    && (s.w.phase.Filling? || s.w.phase.Flushing? ==> 1 <= |InFlight(s.w)|)
    && (forall d <- s.h.delivered :: 1 <= |d.batch| <= BatchLimit(c))
  }

  lemma TotalAppend<T>(delivered: seq<Delivery<T>>, d: Delivery<T>, ok: bool)
    ensures Total(delivered + [d], ok) == Total(delivered, ok) + if d.ok == ok then |d.batch| else 0
  {
    assert (delivered + [d])[..|delivered|] == delivered;
  }

  lemma FlattenAppend<T>(delivered: seq<Delivery<T>>, d: Delivery<T>)
    ensures Flatten(delivered + [d]) == Flatten(delivered) + d.batch
  {
    assert (delivered + [d])[..|delivered|] == delivered;
  }

  lemma StepConserves<T>(c: Config, s: State<T>, e: Event<T>)
    requires Conserved(s) && Bounded(c, s)
    ensures Conserved(Next(c, s, e)) && Bounded(c, Next(c, s, e))
  {
    hide Total, OldestQueued;
    if Enabled(c, s.w, e) && e.EndFlush? {
      TotalAppend(s.h.delivered, Delivery(s.w.phase.batch, e.ok), true);
      TotalAppend(s.h.delivered, Delivery(s.w.phase.batch, e.ok), false);
    }
  }

  /** Conservation and the bounds, in every reachable state under both policies. */
  lemma {:induction false} AlwaysConserved<T>(c: Config, events: seq<Event<T>>)
    ensures Conserved(Run(c, events)) && Bounded(c, Run(c, events))
  {
    if |events| > 0 {
      hide Next, Conserved, Bounded;
      AlwaysConserved(c, events[..|events| - 1]);
      StepConserves(c, Run(c, events[..|events| - 1]), events[|events| - 1]);
    }
  }

  /** `join` can return exactly when nothing is queued and nothing is in flight. */
  lemma JoinsExactlyWhenNothingPends<T>(c: Config, events: seq<Event<T>>)
    ensures var w := Run(c, events).w;
            Enabled(c, w, Drained) <==> w.closed && w.phase.Idle? && |w.queue| == 0
  {
    hide Run;
    AlwaysConserved(c, events);
  }

  /** After a shutdown timeout at most one batch is in no counter; after a drain nothing is. */
  lemma UncountedAfterShutdown<T>(c: Config, events: seq<Event<T>>)
    ensures var w := Run(c, events).w;
            var uncounted := w.submitted - w.flushed - w.flushFailed - w.shutdownDropped;
            && (w.phase.Stopped? ==> uncounted == |w.phase.lost| <= BatchLimit(c))
            && (Enabled(c, w, Drained) ==> uncounted == 0 && |InFlight(w)| == 0)
  {
    hide Run, Total;
    AlwaysConserved(c, events);
  }

  // ----- order -----

  ghost predicate InOrder<T>(c: Config, s: State<T>) {
    && Kept(s.h.accepted, s.h.displaced) == Flatten(s.h.delivered) + Held(s.w) + s.w.queue
    && (forall k <- s.h.displaced :: k < |s.h.accepted|)
    && (c.overflow == DropNewest ==> s.h.displaced == {})
    && |s.h.accepted| == s.w.submitted + |s.h.displaced|
    && (c.overflow == DropOldest ==> s.w.dropped == |s.h.displaced|)
  }

  /** Displacing the kept event number `k` takes just that event out. */
  lemma {:induction false} KeptWithout<T>(s: seq<T>, gone: set<nat>, k: nat)
    requires k < |Kept(s, gone)|
    ensures PlaceOf(s, gone, k) < |s| && PlaceOf(s, gone, k) !in gone
    ensures Kept(s, gone + {PlaceOf(s, gone, k)}) == Kept(s, gone)[..k] + Kept(s, gone)[k + 1..]
  {
    var front := s[..|s| - 1];
    if |s| - 1 !in gone && |Kept(front, gone)| == k {
      KeptBefore(front, gone, |s| - 1);
    } else {
      KeptWithout(front, gone, k);
    }
  }

  lemma {:induction false} KeptBefore<T>(s: seq<T>, gone: set<nat>, place: nat)
    requires |s| <= place
    ensures Kept(s, gone + {place}) == Kept(s, gone)
  {
    if |s| > 0 {
      KeptBefore(s[..|s| - 1], gone, place);
    }
  }

  lemma KeptAppend<T>(s: seq<T>, gone: set<nat>, event: T)
    requires forall k <- gone :: k < |s|
    ensures Kept(s + [event], gone) == Kept(s, gone) + [event]
  {
    assert (s + [event])[..|s|] == s;
    assert |s| !in gone;
  }

  lemma SubmitKeepsOrder<T>(c: Config, s: State<T>, event: T)
    requires InOrder(c, s) && Conserved(s)
    ensures InOrder(c, Next(c, s, Event.Submit(event)))
  {
    hide Kept, Flatten, PlaceOf, Total;
    if Accepts(c, s.w) {
      KeptAppend(s.h.accepted, s.h.displaced, event);
    }
    if Displaces(c, s.w) {
      var k := |Flatten(s.h.delivered)| + |Held(s.w)|;
      KeptWithout(s.h.accepted, s.h.displaced, k);
      KeptAppend(s.h.accepted, s.h.displaced + {OldestQueued(s)}, event);
    }
  }

  /** Events only ever move from the queue to the batch, and leave when their flush ends. */
  lemma WorkerMoves<T>(c: Config, w: Worker<T>, e: Event<T>)
    requires Enabled(c, w, e) && !e.Submit?
    ensures var t := After(c, w, e);
            && t.submitted == w.submitted && t.dropped == w.dropped
            && (if e.EndFlush? then Held(w) == w.phase.batch && Held(t) == [] && t.queue == w.queue
                else Held(t) + t.queue == Held(w) + w.queue)
  {
  }

  lemma Regroup<T>(done: seq<T>, held: seq<T>, queue: seq<T>, held': seq<T>, queue': seq<T>)
    requires held + queue == held' + queue'
    ensures done + held + queue == done + held' + queue'
  {
    assert done + held + queue == done + (held + queue);
    assert done + held' + queue' == done + (held' + queue');
  }

  lemma EndFlushKeepsOrder<T>(c: Config, s: State<T>, ok: bool)
    requires InOrder(c, s) && Enabled(c, s.w, EndFlush(ok))
    ensures InOrder(c, Next(c, s, EndFlush(ok)))
  {
    hide Kept, Flatten, OldestQueued, After, Held;
    WorkerMoves(c, s.w, EndFlush(ok));
    FlattenAppend(s.h.delivered, Delivery(s.w.phase.batch, ok));
    var done := Flatten(s.h.delivered) + s.w.phase.batch;
    assert done + [] == done;
  }

  lemma StepKeepsOrder<T>(c: Config, s: State<T>, e: Event<T>)
    requires InOrder(c, s) && Conserved(s)
    ensures InOrder(c, Next(c, s, e))
  {
    if e.Submit? {
      SubmitKeepsOrder(c, s, e.event);
    } else if e.EndFlush? && Enabled(c, s.w, e) {
      EndFlushKeepsOrder(c, s, e.ok);
    } else if Enabled(c, s.w, e) {
      hide Kept, Flatten, OldestQueued, Total, After, Held, Conserved, Enabled;
      WorkerMoves(c, s.w, e);
      var t := After(c, s.w, e);
      Regroup(Flatten(s.h.delivered), Held(s.w), s.w.queue, Held(t), t.queue);
    }
  }

  /** Flushed batches, the batch in hand and the queue are the accepted events in order, minus the displaced ones. */
  lemma {:induction false} AlwaysInOrder<T>(c: Config, events: seq<Event<T>>)
    ensures InOrder(c, Run(c, events))
  {
    if |events| > 0 {
      hide Next, InOrder, Conserved;
      AlwaysInOrder(c, events[..|events| - 1]);
      AlwaysConserved(c, events[..|events| - 1]);
      StepKeepsOrder(c, Run(c, events[..|events| - 1]), events[|events| - 1]);
    }
  }

  /** What DROP_OLDEST throws out is the head of the queue, the oldest event still in it. */
  lemma DisplacesTheHead<T>(c: Config, events: seq<Event<T>>, event: T)
    requires Displaces(c, Run(c, events).w)
    ensures var s, t := Run(c, events), Next(c, Run(c, events), Event.Submit(event));
            && t.h.displaced == s.h.displaced + {OldestQueued(s)} && OldestQueued(s) !in s.h.displaced
            && OldestQueued(s) < |s.h.accepted| && s.h.accepted[OldestQueued(s)] == s.w.queue[0]
  {
    hide Run, Flatten, Kept, PlaceOf, Total;
    var s := Run(c, events);
    var k := |Flatten(s.h.delivered)| + |Held(s.w)|;
    AlwaysInOrder(c, events);
    AlwaysConserved(c, events);
    KeptWithout(s.h.accepted, s.h.displaced, k);
    KeptAt(s.h.accepted, s.h.displaced, k);
  }

  lemma {:induction false} KeptAt<T>(s: seq<T>, gone: set<nat>, k: nat)
    requires k < |Kept(s, gone)| && PlaceOf(s, gone, k) < |s|
    ensures s[PlaceOf(s, gone, k)] == Kept(s, gone)[k]
  {
    if !(|s| - 1 !in gone && |Kept(s[..|s| - 1], gone)| == k) {
      KeptWithout(s[..|s| - 1], gone, k);
      KeptAt(s[..|s| - 1], gone, k);
    }
  }

  // ----- room, and batches -----

  /** A submission is refused after close; it is queued while there is room; the policy is for a full queue only. */
  lemma SubmitExactly<T>(c: Config, events: seq<Event<T>>, event: T)
    ensures var s := Run(c, events);
            var t := Next(c, s, Event.Submit(event));
            var room := c.queueSize <= 0 || |s.w.queue| < c.queueSize;
            && (s.w.closed ==> t == s)
            && (!s.w.closed && room ==>
                  t.w.queue == s.w.queue + [event] && t.w.submitted == s.w.submitted + 1 && t.w.dropped == s.w.dropped)
            && (!s.w.closed && !room && c.overflow == DropNewest ==>
                  t.w.queue == s.w.queue && t.w.submitted == s.w.submitted && t.w.dropped == s.w.dropped + 1)
            && (!s.w.closed && !room && c.overflow == DropOldest ==>
                  && t.w.queue == s.w.queue[1..] + [event] && |t.w.queue| == c.queueSize
                  && t.w.submitted == s.w.submitted && t.w.dropped == s.w.dropped + 1)
            && (Accepts(c, s.w) <==> !s.w.closed && (room || c.overflow == DropOldest))
            && t.h.accepted == s.h.accepted + (if Accepts(c, s.w) then [event] else [])
            && (!s.w.closed ==> !t.w.phase.NotStarted?)
  {
    hide Run, OldestQueued, Total;
    AlwaysConserved(c, events);
    assert Run(c, events).h.accepted + [] == Run(c, events).h.accepted;
  }

  /** With enough events waiting, a batch takes the first of them until it is as big as it may be. */
  lemma {:induction false} BatchFills<T>(c: Config, w: Worker<T>, n: nat)
    requires w.phase.Idle? && 1 <= n <= BatchLimit(c) && n <= |w.queue|
    ensures var t := Taken(c, w, n);
            t.phase == Filling(w.queue[..n]) && t.queue == w.queue[n..] && Enabled(c, t, EndFill)
    ensures n == BatchLimit(c) ==> !Enabled(c, Taken(c, w, n), Fill)
  {
    if n > 1 {
      BatchFills(c, w, n - 1);
      assert w.queue[..n - 1] + [w.queue[n - 1]] == w.queue[..n];
    } else {
      assert [w.queue[0]] == w.queue[..1];
    }
  }

  /** The first event of a batch and `n - 1` more. */
  function Taken<T>(c: Config, w: Worker<T>, n: nat): Worker<T> {
    if n == 0 then w else if n == 1 then After(c, w, Take) else After(c, Taken(c, w, n - 1), Fill)
  }

  // ----- drain -----

  /** How many steps the worker still has before everything is handled. */
  function Work<T>(w: Worker<T>): nat {
    3 * |w.queue| + match w.phase case Filling(_) => 2 case Flushing(_) => 1 case _ => 0
  }

  predicate IsWorkerStep<T>(e: Event<T>) {
    e.Take? || e.Fill? || e.EndFill? || e.EndFlush?
  }

  /** Every step of the worker leaves it less to do. */
  lemma WorkerProgresses<T>(c: Config, w: Worker<T>, e: Event<T>)
    requires IsWorkerStep(e) && Enabled(c, w, e)
    ensures Work(After(c, w, e)) < Work(w)
  {
  }

  /** While anything is pending, the running worker has a step to take. */
  lemma WorkerNeverStuck<T>(c: Config, events: seq<Event<T>>)
    requires var w := Run(c, events).w; Running(w) && w.unfinished != 0
    ensures exists e: Event<T> :: IsWorkerStep(e) && Enabled(c, Run(c, events).w, e)
  {
    hide Run, Total;
    AlwaysConserved(c, events);
    var w := Run(c, events).w;
    var e: Event<T> := match w.phase case Idle => Take case Filling(_) => EndFill case _ => EndFlush(true);
    assert IsWorkerStep(e) && Enabled(c, w, e);
  }

  /** Worker steps that are each enabled when their turn comes. */
  predicate Proceeds<T>(c: Config, w: Worker<T>, steps: seq<Event<T>>)
    decreases |steps|
  {
    |steps| > 0 ==>
      IsWorkerStep(steps[0]) && Enabled(c, w, steps[0]) && Proceeds(c, After(c, w, steps[0]), steps[1..])
  }

  lemma {:induction false} ProceedsBounded<T>(c: Config, w: Worker<T>, steps: seq<Event<T>>)
    requires Proceeds(c, w, steps)
    ensures |steps| <= Work(w)
    decreases |steps|
  {
    if |steps| > 0 {
      WorkerProgresses(c, w, steps[0]);
      ProceedsBounded(c, After(c, w, steps[0]), steps[1..]);
    }
  }

  /** A drain ends: no more than so many steps, and one that cannot go on has delivered all it was to deliver. */
  lemma DrainDelivers<T>(c: Config, events: seq<Event<T>>, steps: seq<Event<T>>)
    requires Running(Run(c, events).w) && Proceeds(c, Run(c, events).w, steps)
    ensures |steps| <= Work(Run(c, events).w)
    ensures (forall e: Event<T> | IsWorkerStep(e) :: !Enabled(c, Run(c, events + steps).w, e)) ==>
              var s := Run(c, events + steps);
              && s.w.unfinished == 0 && (s.w.closed ==> Enabled(c, s.w, Drained))
              && Kept(s.h.accepted, s.h.displaced) == Flatten(s.h.delivered)
              && s.w.submitted == s.w.flushed + s.w.flushFailed
  {
    hide Run, Total, Kept, Flatten, Proceeds;
    ProceedsBounded(c, Run(c, events).w, steps);
    StillRunning(c, events, steps);
    AlwaysConserved(c, events + steps);
    AlwaysInOrder(c, events + steps);
    if Run(c, events + steps).w.unfinished != 0 {
      WorkerNeverStuck(c, events + steps);
    }
  }

  lemma {:induction false} StillRunning<T>(c: Config, events: seq<Event<T>>, steps: seq<Event<T>>)
    requires Running(Run(c, events).w) && Proceeds(c, Run(c, events).w, steps)
    ensures Running(Run(c, events + steps).w)
    decreases |steps|
  {
    if |steps| == 0 {
      assert events + steps == events;
    } else {
      assert (events + [steps[0]])[..|events|] == events;
      assert events + steps == events + [steps[0]] + steps[1..];
      StillRunning(c, events + [steps[0]], steps[1..]);
    }
  }
}
