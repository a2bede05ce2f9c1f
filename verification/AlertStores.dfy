/**
 The background alert writer, as the steps of its two sides: the packet loop offers alerts and
 closes, the writer receives, flushes on a ticker and drains. An alert is known by its place in
 the order of offers.
 */
module AlertStores {

  /** A transaction that left the batch, and whether it committed. */
  datatype Batch = Batch(alerts: seq<nat>, committed: bool)

  datatype State = State(
    queue: seq<nat>, // accepted, waiting for the writer
    batch: seq<nat>, // received, waiting to be written
    closed: bool, // no more offers
    done: bool, // the writer has returned
    offers: nat,
    dropped: seq<nat>,
    sent: seq<Batch>)

  const START := State([], [], false, false, 0, [], [])

  datatype Step = Enqueue | Receive(commits: bool) | Flush(commits: bool) | Close | Drain(commits: bool)

  /** What each side may do: offering to a closed store is a caller's error. */
  predicate Enabled(s: State, step: Step) {
    match step
    case Enqueue => !s.closed
    case Receive(_) => !s.done && s.queue != []
    case Flush(_) => !s.done
    case Close => !s.closed
    case Drain(_) => !s.done && s.closed && s.queue == []
  }

  function Flushed(s: State, commits: bool): State {
    if s.batch == [] then s else s.(sent := s.sent + [Batch(s.batch, commits)], batch := [])
  }

  function Apply(s: State, step: Step, queueSize: nat, batchSize: nat): State
    requires Enabled(s, step)
  {
    match step
    case Enqueue =>
      if |s.queue| < queueSize then s.(queue := s.queue + [s.offers], offers := s.offers + 1)
      else s.(dropped := s.dropped + [s.offers], offers := s.offers + 1)
    case Receive(commits) =>
      var t := s.(queue := s.queue[1..], batch := s.batch + [s.queue[0]]);
      if |t.batch| >= batchSize then Flushed(t, commits) else t
    case Flush(commits) => Flushed(s, commits)
    case Close => s.(closed := true)
    case Drain(commits) => Flushed(s, commits).(done := true)
  }

  /** The steps can be taken in this order from here. */
  predicate Runs(s: State, steps: seq<Step>, queueSize: nat, batchSize: nat)
    decreases |steps|
  {
    steps != [] ==> Enabled(s, steps[0]) && Runs(Apply(s, steps[0], queueSize, batchSize), steps[1..], queueSize, batchSize)
  }

  function After(s: State, steps: seq<Step>, queueSize: nat, batchSize: nat): State
    requires Runs(s, steps, queueSize, batchSize)
    decreases |steps|
  {
    if steps == [] then s else After(Apply(s, steps[0], queueSize, batchSize), steps[1..], queueSize, batchSize)
  }

  function AlertsIn(bs: seq<Batch>): seq<nat> {
    if bs == [] then [] else AlertsIn(bs[..|bs| - 1]) + bs[|bs| - 1].alerts
  }

  /** Everything accepted: written or failed, then batched, then queued. */
  function Accepted(s: State): seq<nat> { AlertsIn(s.sent) + (s.batch + s.queue) }

  ghost predicate Increasing(ids: seq<nat>) { forall i, j | 0 <= i < j < |ids| :: ids[i] < ids[j] }

  /**
   Every alert offered is in exactly one place: dropped, queued, batched, or in one of the batches
   sent; batches are never empty nor too large, and what was accepted stays in the order of offers.
   */
  ghost predicate Keeps(s: State, queueSize: nat, batchSize: nat, room: int) {
    && Increasing(Accepted(s)) && Increasing(s.dropped)
    && (forall id: nat :: id < s.offers <==> id in Accepted(s) || id in s.dropped)
    && (forall id: nat :: id !in Accepted(s) || id !in s.dropped)
    && |Accepted(s)| + |s.dropped| == s.offers
    && |s.queue| <= queueSize && |s.batch| <= room
    && (forall b | b in s.sent :: 1 <= |b.alerts| <= batchSize)
    && (s.done ==> s.closed && s.queue == [] && s.batch == [])
  }

  /** Between steps the batch is not full. */
  ghost predicate Conserves(s: State, queueSize: nat, batchSize: nat) { Keeps(s, queueSize, batchSize, batchSize - 1) }

  lemma SentMore(bs: seq<Batch>, b: Batch)
    ensures AlertsIn(bs + [b]) == AlertsIn(bs) + b.alerts
  {
    assert (bs + [b])[..|bs|] == bs;
  }

  /** Flushing moves the batch on without disturbing the order of what was accepted. */
  lemma FlushedAccepts(s: State, commits: bool)
    ensures Accepted(Flushed(s, commits)) == Accepted(s)
  {
    if s.batch != [] {
      SentMore(s.sent, Batch(s.batch, commits));
      assert AlertsIn(s.sent) + s.batch + ([] + s.queue) == AlertsIn(s.sent) + (s.batch + s.queue);
    }
  }

  lemma ReceiveAccepts(s: State)
    requires s.queue != []
    ensures Accepted(s.(queue := s.queue[1..], batch := s.batch + [s.queue[0]])) == Accepted(s)
  {
    assert s.batch + [s.queue[0]] + s.queue[1..] == s.batch + s.queue;
  }

  lemma IncreasingMore(ids: seq<nat>, n: nat)
    requires Increasing(ids) && forall id | id in ids :: id < n
    ensures Increasing(ids + [n])
  {
    assert forall i | 0 <= i < |ids| :: ids[i] in ids;
  }

  lemma EnqueueConserves(s: State, queueSize: nat, batchSize: nat)
    requires Conserves(s, queueSize, batchSize) && !s.closed
    ensures Conserves(Apply(s, Enqueue, queueSize, batchSize), queueSize, batchSize)
  {
    hide AlertsIn, Increasing;
    var t := Apply(s, Enqueue, queueSize, batchSize);
    if |s.queue| < queueSize {
      assert Accepted(t) == Accepted(s) + [s.offers] by {
        assert AlertsIn(s.sent) + (s.batch + (s.queue + [s.offers])) == AlertsIn(s.sent) + (s.batch + s.queue) + [s.offers];
      }
      IncreasingMore(Accepted(s), s.offers);
    } else {
      assert Accepted(t) == Accepted(s);
      IncreasingMore(s.dropped, s.offers);
    }
  }

  lemma FlushKeeps(s: State, commits: bool, queueSize: nat, batchSize: nat)
    requires Keeps(s, queueSize, batchSize, batchSize)
    ensures Keeps(Flushed(s, commits), queueSize, batchSize, 0)
  {
    hide AlertsIn, Increasing;
    FlushedAccepts(s, commits);
    hide Accepted;
    forall b | b in Flushed(s, commits).sent ensures 1 <= |b.alerts| <= batchSize {
      assert b in s.sent || b == Batch(s.batch, commits);
    }
  }

  lemma ReceiveKeeps(s: State, queueSize: nat, batchSize: nat)
    requires Conserves(s, queueSize, batchSize) && s.queue != []
    ensures Keeps(s.(queue := s.queue[1..], batch := s.batch + [s.queue[0]]), queueSize, batchSize, batchSize)
  {
    ReceiveAccepts(s);
    hide Accepted, Increasing;
  }

  lemma Resize(s: State, queueSize: nat, batchSize: nat, room: int, other: int)
    requires Keeps(s, queueSize, batchSize, room) && (room <= other || |s.batch| <= other)
    ensures Keeps(s, queueSize, batchSize, other)
  {
    hide Accepted, Increasing;
  }

  lemma CloseKeeps(s: State, queueSize: nat, batchSize: nat, room: int)
    requires Keeps(s, queueSize, batchSize, room)
    ensures Keeps(s.(closed := true), queueSize, batchSize, room)
    ensures s.closed && s.queue == [] && s.batch == [] ==> Keeps(s.(done := true), queueSize, batchSize, room)
  {
    hide AlertsIn, Increasing;
    assert Accepted(s.(closed := true)) == Accepted(s) == Accepted(s.(done := true));
    hide Accepted;
  }

  lemma StepConserves(s: State, step: Step, queueSize: nat, batchSize: nat)
    requires batchSize > 0 && Conserves(s, queueSize, batchSize) && Enabled(s, step)
    ensures Conserves(Apply(s, step, queueSize, batchSize), queueSize, batchSize)
  {
    hide Keeps;
    match step {
      case Enqueue => EnqueueConserves(s, queueSize, batchSize);
      case Receive(commits) =>
        ReceiveKeeps(s, queueSize, batchSize);
        var t := s.(queue := s.queue[1..], batch := s.batch + [s.queue[0]]);
        if |t.batch| >= batchSize {
          FlushKeeps(t, commits, queueSize, batchSize);
          Resize(Flushed(t, commits), queueSize, batchSize, 0, batchSize - 1);
        } else {
          Resize(t, queueSize, batchSize, batchSize, batchSize - 1);
        }
      case Flush(commits) =>
        Resize(s, queueSize, batchSize, batchSize - 1, batchSize);
        FlushKeeps(s, commits, queueSize, batchSize);
        Resize(Flushed(s, commits), queueSize, batchSize, 0, batchSize - 1);
      case Close => CloseKeeps(s, queueSize, batchSize, batchSize - 1);
      case Drain(commits) =>
        Resize(s, queueSize, batchSize, batchSize - 1, batchSize);
        FlushKeeps(s, commits, queueSize, batchSize);
        CloseKeeps(Flushed(s, commits), queueSize, batchSize, 0);
        Resize(Flushed(s, commits).(done := true), queueSize, batchSize, 0, batchSize - 1);
    }
  }

  /** On every interleaving, every alert offered is accounted for once. */
  lemma {:induction false} RunConserves(s: State, steps: seq<Step>, queueSize: nat, batchSize: nat)
    requires batchSize > 0 && Conserves(s, queueSize, batchSize) && Runs(s, steps, queueSize, batchSize)
    ensures Conserves(After(s, steps, queueSize, batchSize), queueSize, batchSize)
    decreases |steps|
  {
    if steps != [] {
      hide Conserves, Enabled, Apply;
      StepConserves(s, steps[0], queueSize, batchSize);
      RunConserves(Apply(s, steps[0], queueSize, batchSize), steps[1..], queueSize, batchSize);
    }
  }

  /** Some alert is offered in this run as number `a` while the queue is full. */
  ghost predicate MeetsFull(s: State, steps: seq<Step>, queueSize: nat, batchSize: nat, a: nat)
    requires Runs(s, steps, queueSize, batchSize)
    decreases |steps|
  {
    steps != [] && ((steps[0] == Enqueue && s.offers == a && |s.queue| >= queueSize)
                    || MeetsFull(Apply(s, steps[0], queueSize, batchSize), steps[1..], queueSize, batchSize, a))
  }

  /** An alert is dropped exactly when the queue is full as it is offered, never because the writer is busy otherwise. */
  lemma {:induction false} DropsExactlyFull(s: State, steps: seq<Step>, queueSize: nat, batchSize: nat, a: nat)
    requires Runs(s, steps, queueSize, batchSize)
    ensures a in After(s, steps, queueSize, batchSize).dropped <==> a in s.dropped || MeetsFull(s, steps, queueSize, batchSize, a)
    decreases |steps|
  {
    if steps != [] {
      DropsExactlyFull(Apply(s, steps[0], queueSize, batchSize), steps[1..], queueSize, batchSize, a);
    }
  }

  /** How many batches hold less than a full one. */
  function Short(bs: seq<Batch>, batchSize: nat): nat {
    if bs == [] then 0 else Short(bs[..|bs| - 1], batchSize) + if |bs[|bs| - 1].alerts| < batchSize then 1 else 0
  }

  /** The steps that write whatever is batched. */
  function Hurries(steps: seq<Step>): nat {
    if steps == [] then 0 else Hurries(steps[1..]) + if steps[0].Flush? || steps[0].Drain? then 1 else 0
  }

  lemma ShortMore(bs: seq<Batch>, b: Batch, batchSize: nat)
    ensures Short(bs + [b], batchSize) == Short(bs, batchSize) + if |b.alerts| < batchSize then 1 else 0
  {
    assert (bs + [b])[..|bs|] == bs;
  }

  /** Batches are written full but for those the ticker, or the end, asks for. */
  lemma {:induction false} BatchesFull(s: State, steps: seq<Step>, queueSize: nat, batchSize: nat)
    requires Runs(s, steps, queueSize, batchSize)
    ensures Short(After(s, steps, queueSize, batchSize).sent, batchSize) <= Short(s.sent, batchSize) + Hurries(steps)
    decreases |steps|
  {
    hide Short;
    if steps != [] {
      var t := Apply(s, steps[0], queueSize, batchSize);
      BatchesFull(t, steps[1..], queueSize, batchSize);
      if t.sent != s.sent {
        ShortMore(s.sent, t.sent[|t.sent| - 1], batchSize);
      }
    }
  }

  lemma StartConserves(queueSize: nat, batchSize: nat)
    requires batchSize > 0
    ensures Conserves(START, queueSize, batchSize)
  {
  }

  function Counted(bs: seq<Batch>, committed: bool): nat {
    if bs == [] then 0
    else Counted(bs[..|bs| - 1], committed) + if bs[|bs| - 1].committed == committed then |bs[|bs| - 1].alerts| else 0
  }

  lemma {:induction false} CountedAll(bs: seq<Batch>)
    ensures Counted(bs, true) + Counted(bs, false) == |AlertsIn(bs)|
  {
    if bs != [] {
      CountedAll(bs[..|bs| - 1]);
    }
  }

  /**
   Once the writer has returned nothing is queued or batched, and every alert offered was dropped,
   written or failed.
   */
  lemma ClosedAccounts(steps: seq<Step>, queueSize: nat, batchSize: nat)
    requires batchSize > 0 && Runs(START, steps, queueSize, batchSize) && After(START, steps, queueSize, batchSize).done
    ensures
      var s := After(START, steps, queueSize, batchSize);
      && s.queue == [] && s.batch == []
      && s.offers == |s.dropped| + Counted(s.sent, true) + Counted(s.sent, false)
  {
    StartConserves(queueSize, batchSize);
    RunConserves(START, steps, queueSize, batchSize);
    var s := After(START, steps, queueSize, batchSize);
    CountedAll(s.sent);
    assert Accepted(s) == AlertsIn(s.sent);
  }

  /** The writer's way out of a closed store: receive what is queued, then drain. */
  function Finishing(n: nat): (steps: seq<Step>)
    ensures |steps| == n + 1
  {
    if n == 0 then [Drain(true)] else [Receive(true)] + Finishing(n - 1)
  }

  /** After a close the writer can always return, and does so within one step for each alert queued. */
  lemma {:induction false} CloseReturns(s: State, queueSize: nat, batchSize: nat)
    requires s.closed && !s.done
    ensures Runs(s, Finishing(|s.queue|), queueSize, batchSize)
    ensures After(s, Finishing(|s.queue|), queueSize, batchSize).done
    decreases |s.queue|
  {
    var steps := Finishing(|s.queue|);
    if s.queue == [] {
      assert steps[1..] == [];
    } else {
      var t := Apply(s, Receive(true), queueSize, batchSize);
      CloseReturns(t, queueSize, batchSize);
      assert steps[1..] == Finishing(|t.queue|);
    }
  }

  /** The steps that take the writer on: all but its ticker's. */
  function Advances(steps: seq<Step>): nat {
    if steps == [] then 0 else Advances(steps[1..]) + if steps[0].Receive? || steps[0].Drain? then 1 else 0
  }

  /**
   After a close every schedule leads the same way: the writer advances at most once for each alert
   queued and once more, it has returned exactly when it has made that last step, and until then such
   a step is possible, whatever the ticker does in between and whichever transactions commit.
   */
  lemma {:induction false} EveryScheduleReturns(s: State, steps: seq<Step>, queueSize: nat, batchSize: nat)
    requires s.closed && !s.done && Runs(s, steps, queueSize, batchSize)
    ensures
      var t := After(s, steps, queueSize, batchSize);
      && Advances(steps) + |t.queue| == |s.queue| + (if t.done then 1 else 0)
      && (t.done <==> Advances(steps) == |s.queue| + 1) && (t.done ==> t.queue == [])
      && (!t.done ==> forall commits :: Enabled(t, if t.queue == [] then Drain(commits) else Receive(commits)))
    decreases |steps|
  {
    if steps != [] {
      var step := steps[0];
      var t := Apply(s, step, queueSize, batchSize);
      if step.Drain? {
        ReturnedStays(t, steps[1..], queueSize, batchSize);
      } else {
        EveryScheduleReturns(t, steps[1..], queueSize, batchSize);
      }
    }
  }

  /** Once the writer has returned nothing more happens. */
  lemma ReturnedStays(s: State, steps: seq<Step>, queueSize: nat, batchSize: nat)
    requires s.closed && s.done && Runs(s, steps, queueSize, batchSize)
    ensures steps == []
  {
  }

  lemma FlushedRest(s: State, commits: bool)
    ensures var t := Flushed(s, commits);
            && t.queue == s.queue && t.batch == [] && t.closed == s.closed && t.done == s.done
            && t.offers == s.offers && t.dropped == s.dropped
  {
  }

  class Store {
    const queueSize: nat
    const batchSize: nat

    var queue: seq<nat>
    var batch: seq<nat>
    var closed: bool
    var done: bool
    var dropped: nat
    var written: nat
    var failed: nat
    ghost var s: State

    /** The counters are those of the history, and the history conserves every alert. */
    ghost predicate Valid()
      reads this
    {
      && batchSize > 0 && Conserves(s, queueSize, batchSize)
      && queue == s.queue && batch == s.batch && closed == s.closed && done == s.done
      && dropped == |s.dropped| && written == Counted(s.sent, true) && failed == Counted(s.sent, false)
    }

    constructor (queueSize: nat, batchSize: nat)
      requires batchSize > 0
      ensures Valid() && s == START && queue == [] && batch == [] && !closed && !done && this.queueSize == queueSize
      ensures this.batchSize == batchSize
    {
      this.queueSize, this.batchSize := queueSize, batchSize;
      queue, batch, closed, done := [], [], false, false;
      dropped, written, failed, s := 0, 0, 0, START;
      new;
      StartConserves(queueSize, batchSize);
    }

    /** Hand the next alert to the writer without blocking; a full queue drops it. */
    method Offer(a: nat)
      requires Valid() && !closed && a == s.offers
      modifies this
      ensures Valid() && s == Apply(old(s), Enqueue, queueSize, batchSize)
    {
      hide Conserves;
      StepConserves(s, Enqueue, queueSize, batchSize);
      if |queue| < queueSize {
        queue := queue + [a];
      } else {
        dropped := dropped + 1;
      }
      s := Apply(s, Enqueue, queueSize, batchSize);
    }

    /** Write the batch as one transaction, which may fail as a whole. */
    method WriteBatch(commits: bool)
      requires batch == s.batch && written == Counted(s.sent, true) && failed == Counted(s.sent, false)
      modifies this`batch, this`written, this`failed, this`s
      ensures s == Flushed(old(s), commits) && batch == s.batch
      ensures written == Counted(s.sent, true) && failed == Counted(s.sent, false) && batch == []
      ensures if commits then written == old(written) + |old(batch)| && failed == old(failed)
              else failed == old(failed) + |old(batch)| && written == old(written)
    {
      hide Counted, Flushed;
      FlushedIs(s, commits);
      if |batch| == 0 {
        return;
      }
      CountedMore(s.sent, Batch(batch, commits));
      if commits {
        written := written + |batch|;
      } else {
        failed := failed + |batch|;
      }
      batch := [];
      s := Flushed(s, commits);
    }

    /** Take one alert off the queue; a full batch is written. */
    method TakeOne(commits: bool)
      requires Valid() && !done && queue != []
      modifies this
      ensures Valid() && s == Apply(old(s), Receive(commits), queueSize, batchSize)
    {
      hide Conserves, Counted, Flushed;
      StepConserves(s, Receive(commits), queueSize, batchSize);
      var a := queue[0];
      queue := queue[1..];
      batch := batch + [a];
      s := s.(queue := queue, batch := batch);
      if |batch| >= batchSize {
        FlushedRest(s, commits);
        WriteBatch(commits);
      }
    }

    method OnTicker(commits: bool)
      requires Valid() && !done
      modifies this
      ensures Valid() && s == Apply(old(s), Flush(commits), queueSize, batchSize)
    {
      hide Conserves, Counted, Flushed;
      StepConserves(s, Flush(commits), queueSize, batchSize);
      FlushedRest(s, commits);
      WriteBatch(commits);
    }

    method CloseQueue()
      requires Valid() && !closed
      modifies this
      ensures Valid() && s == Apply(old(s), Close, queueSize, batchSize)
    {
      hide Conserves, Counted, Flushed;
      StepConserves(s, Close, queueSize, batchSize);
      closed := true;
      s := s.(closed := true);
    }

    /** With the queue closed and empty, write what is batched and return. */
    method DrainAndReturn(commits: bool)
      requires Valid() && !done && closed && queue == []
      modifies this
      ensures Valid() && s == Apply(old(s), Drain(commits), queueSize, batchSize)
    {
      hide Conserves, Counted, Flushed;
      StepConserves(s, Drain(commits), queueSize, batchSize);
      FlushedRest(s, commits);
      WriteBatch(commits);
      done := true;
      s := s.(done := true);
    }
  }

  lemma FlushedIs(s: State, commits: bool)
    ensures var t := Flushed(s, commits);
            if s.batch == [] then t == s else t.batch == [] && t.sent == s.sent + [Batch(s.batch, commits)]
  {
  }

  lemma CountedMore(bs: seq<Batch>, b: Batch)
    ensures forall committed :: Counted(bs + [b], committed) == Counted(bs, committed) + if b.committed == committed then |b.alerts| else 0
  {
    assert (bs + [b])[..|bs|] == bs;
  }
}
