/** The bounded queue and its batching worker, cut at the points where the coroutines await. */
module Dispatch {
  import opened Prelude

  datatype Policy = DropNewest | DropOldest

  /** A `queueSize` of zero or less means a queue without bound, as in asyncio. */
  datatype Config = Config(queueSize: int, batchMax: int, overflow: Policy)

  /** Where the worker coroutine stands, with its local batch; `lost` is the batch a cancelled worker held. */
  datatype Phase<T> = NotStarted | Idle | Filling(batch: seq<T>) | Flushing(batch: seq<T>) | Stopped(lost: seq<T>)

  datatype Worker<T> = Worker(
    queue: seq<T>, unfinished: int, phase: Phase<T>, closed: bool,
    submitted: nat, dropped: nat, flushed: nat, flushFailed: nat, shutdownDropped: nat)

  datatype Event<T> =
    | Submit(event: T)
    | Take
    | Fill
    | EndFill
    | EndFlush(ok: bool)
    | Close
    | Drained
    | TimedOut

  function Fresh<T>(): Worker<T> {
    Worker([], 0, NotStarted, false, 0, 0, 0, 0, 0)
  }

  function BatchLimit(c: Config): int {
    Max(1, c.batchMax)
  }

  predicate Full<T>(c: Config, w: Worker<T>) {
    c.queueSize > 0 && |w.queue| >= c.queueSize
  }

  /** The events the worker has taken and not finished. */
  function InFlight<T>(w: Worker<T>): seq<T> {
    match w.phase
    case Filling(batch) => batch
    case Flushing(batch) => batch
    case _ => []
  }

  predicate Running<T>(w: Worker<T>) {
    w.phase.Idle? || w.phase.Filling? || w.phase.Flushing?
  }

  /** `submit`, its two refusals and the displacement of the oldest event included. */
  function AfterSubmit<T>(c: Config, w: Worker<T>, event: T): Worker<T> {
    if w.closed then w
    else
      var phase := if w.phase.NotStarted? then Idle else w.phase;
      if !Full(c, w) then
        w.(phase := phase, queue := w.queue + [event], unfinished := w.unfinished + 1, submitted := w.submitted + 1)
      else if c.overflow == DropOldest then
        w.(phase := phase, queue := w.queue[1..] + [event], dropped := w.dropped + 1)
      else w.(phase := phase, dropped := w.dropped + 1)
  }

  predicate Accepts<T>(c: Config, w: Worker<T>) {
    !w.closed && (!Full(c, w) || c.overflow == DropOldest)
  }

  predicate Displaces<T>(c: Config, w: Worker<T>) {
    !w.closed && Full(c, w) && c.overflow == DropOldest
  }

  predicate Enabled<T>(c: Config, w: Worker<T>, e: Event<T>) {
    match e
    case Submit(_) => !w.closed
    case Take => w.phase.Idle? && |w.queue| > 0
    case Fill => w.phase.Filling? && |w.phase.batch| < c.batchMax && |w.queue| > 0
    case EndFill => w.phase.Filling?
    case EndFlush(_) => w.phase.Flushing?
    case Close => !w.closed
    case Drained => w.closed && Running(w) && w.unfinished == 0
    case TimedOut => w.closed && Running(w)
  }

  /** One step; a step that is not enabled does nothing. */
  function After<T>(c: Config, w: Worker<T>, e: Event<T>): Worker<T> {
    if !Enabled(c, w, e) then w
    else match e
      case Submit(event) => AfterSubmit(c, w, event)
      case Take => w.(queue := w.queue[1..], phase := Filling([w.queue[0]]))
      case Fill => w.(queue := w.queue[1..], phase := Filling(w.phase.batch + [w.queue[0]]))
      case EndFill => w.(phase := Flushing(w.phase.batch))
      case EndFlush(ok) =>
        var n := |w.phase.batch|;
        var done := w.(phase := Idle, unfinished := w.unfinished - n);
        if ok then done.(flushed := w.flushed + n) else done.(flushFailed := w.flushFailed + n)
      case Close => w.(closed := true)
      case Drained => w.(phase := Stopped(InFlight(w)))
      case TimedOut => w.(phase := Stopped(InFlight(w)), shutdownDropped := w.shutdownDropped + |w.queue|)
  }

  datatype Submission = Returned(accepted: bool) | RuntimeError

  class FireAndForget<T> {
    const config: Config
    var queue: seq<T>
    var unfinished: int
    var phase: Phase<T>
    var closed: bool
    var submitted: nat
    var dropped: nat
    var flushed: nat
    var flushFailed: nat
    var shutdownDropped: nat

    ghost function View(): Worker<T>
      reads this
    {
      Worker(queue, unfinished, phase, closed, submitted, dropped, flushed, flushFailed, shutdownDropped)
    }

    constructor (config: Config)
      ensures this.config == config && View() == Fresh<T>()
    {
      this.config := config;
      queue, unfinished, phase, closed := [], 0, NotStarted, false;
      submitted, dropped, flushed, flushFailed, shutdownDropped := 0, 0, 0, 0, 0;
    }

    predicate QueueFull()
      reads this
    {
      config.queueSize > 0 && |queue| >= config.queueSize
    }

    method Submit(event: T) returns (r: Submission)
      modifies this
      ensures View() == After(config, old(View()), Event.Submit(event))
      ensures r == if old(closed) then RuntimeError else Returned(Accepts(config, old(View())))
    {
      if closed {
        return RuntimeError;
      }
      if phase.NotStarted? {
        phase := Idle;
      }
      if QueueFull() {
        var accepted := HandleOverflow(event);
        return Returned(accepted);
      }
      queue, unfinished := queue + [event], unfinished + 1;
      submitted := submitted + 1;
      r := Returned(true);
    }

    method HandleOverflow(event: T) returns (accepted: bool)
      requires !closed && QueueFull()
      modifies `queue, `unfinished, `dropped
      ensures accepted == (config.overflow == DropOldest)
      ensures dropped == old(dropped) + 1 && unfinished == old(unfinished)
      ensures queue == if accepted then old(queue)[1..] + [event] else old(queue)
    {
      dropped := dropped + 1;
      if config.overflow == DropOldest {
        queue := queue[1..];
        TaskDone();
        queue, unfinished := queue + [event], unfinished + 1;
        return true;
      }
      accepted := false;
    }

    method TaskDone()
      modifies `unfinished
      ensures unfinished == old(unfinished) - 1
    {
      unfinished := unfinished - 1;
    }

    /** `_run`: the first event of a batch arrives. */
    method TakeFirst()
      requires Enabled(config, View(), Take)
      modifies this
      ensures View() == After(config, old(View()), Take)
    {
      var first := queue[0];
      queue := queue[1..];
      phase := Filling([first]);
    }

    /** `_fill_batch`: one more event arrives in time, if the batch has room for it. */
    method FillBatch() returns (more: bool)
      requires phase.Filling? && |queue| > 0
      modifies this
      ensures more == (|old(phase).batch| < config.batchMax)
      ensures View() == After(config, old(View()), if more then Fill else EndFill)
    {
      more := |phase.batch| < config.batchMax;
      if more {
        var event := queue[0];
        queue := queue[1..];
        phase := Filling(phase.batch + [event]);
      } else {
        phase := Flushing(phase.batch);
      }
    }

    /** `_fill_batch`: the interval is over. */
    method IntervalOver()
      requires Enabled(config, View(), EndFill)
      modifies this
      ensures View() == After(config, old(View()), EndFill)
    {
      phase := Flushing(phase.batch);
    }

    /** The end of `_flush_batch`, then `task_done` for every event of the batch. */
    method FlushBatch(ok: bool)
      requires Enabled(config, View(), EndFlush(ok))
      modifies this
      ensures View() == After(config, old(View()), EndFlush(ok))
    {
      var batch := phase.batch;
      if ok {
        flushed := flushed + |batch|;
      } else {
        flushFailed := flushFailed + |batch|;
      }
      for i := 0 to |batch|
        invariant View() == (if ok then old(View()).(flushed := old(flushed) + |batch|)
                             else old(View()).(flushFailed := old(flushFailed) + |batch|))
                            .(unfinished := old(unfinished) - i)
      {
        TaskDone();
      }
      phase := Idle;
    }

    /** `aclose` up to the wait for the queue; `joins` says whether it waits at all. */
    method BeginClose() returns (joins: bool)
      modifies this
      ensures View() == After(config, old(View()), Close)
      ensures joins == (!old(closed) && !old(phase).NotStarted?)
    {
      if closed {
        return false;
      }
      closed := true;
      joins := !phase.NotStarted?;
    }

    /** The rest of `aclose`: the queue was joined, or the timeout came first. */
    method EndClose(timedOut: bool)
      requires Enabled(config, View(), if timedOut then TimedOut else Drained)
      modifies this
      ensures View() == After(config, old(View()), if timedOut then TimedOut else Drained)
    {
      if timedOut {
        var remaining := |queue|;
        if remaining > 0 {
          shutdownDropped := shutdownDropped + remaining;
        }
      }
      phase := Stopped(if phase.Idle? then [] else phase.batch);
    }
  }
}
