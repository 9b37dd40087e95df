/**
 Sequences of provider calls. `Run` threads a provider through a sequence of
 operations and records every intermediate state and every response, so that
 properties spanning several calls (shutdown happens once, later shutdowns are
 no-ops, each reader's collect time is its own and only moves forward) can be
 stated over the trace.
 */
module ProviderRuns {
  import opened Wrappers
  import opened CompletableResult
  import opened SdkMeterProvider

  /** One call on the provider or on one of its leased producers. */
  datatype Op =
    | ForceFlushOp(succeeds: nat -> bool)
    | ShutdownOp(succeeds: nat -> bool)
    | CloseOp(succeeds: nat -> bool)
    | CollectOp(producer: MetricProducer, clockNow: int)
    | GetMeterOp(scopeName: Option<string>)
  {
    /** The calls that try to shut the provider down. */
    predicate IsShutdownCall()
    {
      ShutdownOp? || CloseOp?
    }
  }

  datatype Response<D> =
    | Completed(code: ResultCode)
    | Closed
    | Collected(readerIndex: nat, collectTime: int, metrics: seq<D>)
    | Obtained(meter: Meter)

  datatype Stepped<D> = Stepped(next: Provider, response: Response<D>)

  /** `states[k]` is the provider before operation k; `states[|ops|]` is the final one. */
  datatype Trace<D> = Trace(states: seq<Provider>, responses: seq<Response<D>>)

  /** Every collection goes through a producer leased to one of the `n` readers. */
  predicate ValidOps(n: nat, ops: seq<Op>)
  {
    forall k :: 0 <= k < |ops| && ops[k].CollectOp? ==> ops[k].producer.readerIndex < n
  }

  /** Some call in `ops` tries to shut the provider down. */
  predicate Closes(ops: seq<Op>)
  {
    exists k :: 0 <= k < |ops| && ops[k].IsShutdownCall()
  }

  /** One operation; the set of readers never changes. */
  function Step<D>(p: Provider, op: Op, collectAll: (Scope, nat, int) -> seq<D>): (s: Stepped<D>)
    requires op.CollectOp? ==> op.producer.readerIndex < |p.readers|
    ensures |s.next.readers| == |p.readers|
  {
    match op
    case ForceFlushOp(succeeds) =>
      var t := ForceFlush(p, succeeds);
      Stepped(t.next, Completed(t.result))
    case ShutdownOp(succeeds) =>
      var t := Shutdown(p, succeeds);
      Stepped(t.next, Completed(t.result))
    case CloseOp(succeeds) =>
      Stepped(Close(p, succeeds), Closed)
    case CollectOp(producer, clockNow) =>
      var c := Collect(p, producer, clockNow, collectAll);
      Stepped(c.next, Collected(producer.readerIndex, clockNow, c.metrics))
    case GetMeterOp(scopeName) =>
      var l := GetMeter(p, scopeName);
      Stepped(l.next, Obtained(l.meter))
  }

  /**
   What one operation does to the lifecycle: the closed flag is set by the
   shutdown calls and never cleared; a reader is shut down only by the call
   that closes the provider; a shutdown call on a closed provider succeeds at
   once and changes nothing.
   */
  lemma StepLifecycle<D>(p: Provider, op: Op, collectAll: (Scope, nat, int) -> seq<D>)
    requires op.CollectOp? ==> op.producer.readerIndex < |p.readers|
    ensures var s := Step(p, op, collectAll);
            && s.next.isClosed == (p.isClosed || op.IsShutdownCall())
            && (forall i :: 0 <= i < |p.readers| ==>
                  s.next.readers[i].reader.shutdownCalls
                  == p.readers[i].reader.shutdownCalls + (if op.IsShutdownCall() && !p.isClosed then 1 else 0))
            && (op.IsShutdownCall() && p.isClosed ==> s.next == p)
            && (op.ShutdownOp? && p.isClosed ==> s.response == Completed(Succeeded))
  {
  }

  /** A reader's last-collect time changes only through its own producer, to that collection's clock reading. */
  lemma StepStamps<D>(p: Provider, op: Op, collectAll: (Scope, nat, int) -> seq<D>)
    requires op.CollectOp? ==> op.producer.readerIndex < |p.readers|
    ensures var s := Step(p, op, collectAll);
            forall i :: 0 <= i < |p.readers| ==>
              s.next.readers[i].lastCollectEpochNanos
              == (if op.CollectOp? && op.producer.readerIndex == i then op.clockNow else p.readers[i].lastCollectEpochNanos)
  {
  }

  /** No operation registers a scope twice. */
  lemma StepKeepsRegistryUnique<D>(p: Provider, op: Op, collectAll: (Scope, nat, int) -> seq<D>)
    requires op.CollectOp? ==> op.producer.readerIndex < |p.readers|
    requires UniqueMeters(p.meters)
    ensures UniqueMeters(Step(p, op, collectAll).next.meters)
  {
  }

  /** The trace of running `ops` from `p`: each state is the step of the one before. */
  function Run<D>(p: Provider, ops: seq<Op>, collectAll: (Scope, nat, int) -> seq<D>): (t: Trace<D>)
    requires ValidOps(|p.readers|, ops)
    ensures |t.states| == |ops| + 1 && |t.responses| == |ops| && t.states[0] == p
    ensures forall k :: 0 <= k <= |ops| ==> |t.states[k].readers| == |p.readers|
    ensures forall k :: 0 <= k < |ops| ==>
              && t.states[k + 1] == Step(t.states[k], ops[k], collectAll).next
              && t.responses[k] == Step(t.states[k], ops[k], collectAll).response
    decreases |ops|
  {
    if |ops| == 0 then Trace([p], [])
    else
      var n := |ops| - 1;
      var before := Run(p, ops[..n], collectAll);
      var s := Step(before.states[n], ops[n], collectAll);
      Trace(before.states + [s.next], before.responses + [s.response])
  }

  /** Extending a prefix by one operation adds that operation's shutdown call, if it is one. */
  lemma ClosesExtend(ops: seq<Op>, k: nat)
    requires k < |ops|
    ensures Closes(ops[..k + 1]) <==> Closes(ops[..k]) || ops[k].IsShutdownCall()
  {
    assert ops[..k + 1][k] == ops[k];
    if Closes(ops[..k + 1]) && !ops[k].IsShutdownCall() {
      var j :| 0 <= j < k + 1 && ops[..k + 1][j].IsShutdownCall();
      assert ops[..k][j] == ops[j];
    }
    if Closes(ops[..k]) {
      var j :| 0 <= j < k && ops[..k][j].IsShutdownCall();
      assert ops[..k + 1][j] == ops[j];
    }
  }

  /**
   Over any sequence of calls, the closed flag before operation k is set
   exactly when the provider started closed or one of the first k operations
   was a shutdown or close.
   */
  lemma {:induction false} ClosedExactlyAfterFirstShutdown<D>(p: Provider, ops: seq<Op>, collectAll: (Scope, nat, int) -> seq<D>, k: nat)
    requires ValidOps(|p.readers|, ops)
    requires k <= |ops|
    ensures Run(p, ops, collectAll).states[k].isClosed <==> p.isClosed || Closes(ops[..k])
    decreases k
  {
    if k > 0 {
      var t := Run(p, ops, collectAll);
      ClosedExactlyAfterFirstShutdown(p, ops, collectAll, k - 1);
      StepLifecycle(t.states[k - 1], ops[k - 1], collectAll);
      ClosesExtend(ops, k - 1);
    }
  }

  /**
   Over any sequence of calls each reader is shut down at most once: before
   operation k its shutdown count has grown by one exactly when the provider
   started open and one of the first k operations was a shutdown or close.
   */
  lemma {:induction false} ShutdownReachesReadersOnce<D>(p: Provider, ops: seq<Op>, collectAll: (Scope, nat, int) -> seq<D>, k: nat, i: nat)
    requires ValidOps(|p.readers|, ops)
    requires k <= |ops| && i < |p.readers|
    ensures Run(p, ops, collectAll).states[k].readers[i].reader.shutdownCalls
            == p.readers[i].reader.shutdownCalls + (if !p.isClosed && Closes(ops[..k]) then 1 else 0)
    decreases k
  {
    if k > 0 {
      var t := Run(p, ops, collectAll);
      ShutdownReachesReadersOnce(p, ops, collectAll, k - 1, i);
      ClosedExactlyAfterFirstShutdown(p, ops, collectAll, k - 1);
      StepLifecycle(t.states[k - 1], ops[k - 1], collectAll);
      ClosesExtend(ops, k - 1);
    }
  }

  /**
   Every shutdown or close issued once the provider is closed changes nothing,
   and every such `shutdown` returns success at once.
   */
  lemma LaterShutdownsAreNoOps<D>(p: Provider, ops: seq<Op>, collectAll: (Scope, nat, int) -> seq<D>, k: nat)
    requires ValidOps(|p.readers|, ops)
    requires k < |ops| && ops[k].IsShutdownCall() && (p.isClosed || Closes(ops[..k]))
    ensures Run(p, ops, collectAll).states[k + 1] == Run(p, ops, collectAll).states[k]
    ensures ops[k].ShutdownOp? ==> Run(p, ops, collectAll).responses[k] == Completed(Succeeded)
  {
    var t := Run(p, ops, collectAll);
    ClosedExactlyAfterFirstShutdown(p, ops, collectAll, k);
    StepLifecycle(t.states[k], ops[k], collectAll);
  }

  /** After a whole run from an open provider, the shutdown count has grown by one exactly when the run closes it. */
  lemma FinalShutdownCount<D>(p: Provider, ops: seq<Op>, collectAll: (Scope, nat, int) -> seq<D>, i: nat)
    requires ValidOps(|p.readers|, ops)
    requires !p.isClosed && i < |p.readers|
    ensures Run(p, ops, collectAll).states[|ops|].readers[i].reader.shutdownCalls
            == p.readers[i].reader.shutdownCalls + (if Closes(ops) then 1 else 0)
  {
    assert ops[..|ops|] == ops;
    ShutdownReachesReadersOnce(p, ops, collectAll, |ops|, i);
  }

  /**
   A provider built over readers never shut down before has every reader shut
   down at most once by any sequence of calls, and exactly once when the
   sequence holds a shutdown or close.
   */
  lemma ShutdownAtMostOnceFromCreate<D>(readers: seq<RegisteredReader>, startEpochNanos: int, ops: seq<Op>,
                                        collectAll: (Scope, nat, int) -> seq<D>, i: nat)
    requires forall r :: 0 <= r < |readers| ==> readers[r].reader.shutdownCalls == 0
    requires ValidOps(|readers|, ops)
    requires i < |readers|
    ensures Run(Create(readers, startEpochNanos), ops, collectAll).states[|ops|].readers[i].reader.shutdownCalls
            == (if Closes(ops) then 1 else 0)
  {
    var p := Create(readers, startEpochNanos);
    assert !p.isClosed && p.readers[i].reader.shutdownCalls == 0;
    FinalShutdownCount(p, ops, collectAll, i);
  }

  /** The time of reader i's most recent own collection in `ops`, or `t0` when it has none. */
  function LastOwnCollect(t0: int, ops: seq<Op>, i: nat): int
    decreases |ops|
  {
    if |ops| == 0 then t0
    else
      var op := ops[|ops| - 1];
      if op.CollectOp? && op.producer.readerIndex == i then op.clockNow
      else LastOwnCollect(t0, ops[..|ops| - 1], i)
  }

  /**
   A reader's last-collect time is the time of its own latest collection, or
   the start time when it has none: no other reader's collection, and no other
   call, ever writes it.
   */
  lemma {:induction false} StampIsOwnLatestCollection<D>(p: Provider, ops: seq<Op>, collectAll: (Scope, nat, int) -> seq<D>, k: nat, i: nat)
    requires ValidOps(|p.readers|, ops)
    requires k <= |ops| && i < |p.readers|
    ensures Run(p, ops, collectAll).states[k].readers[i].lastCollectEpochNanos
            == LastOwnCollect(p.readers[i].lastCollectEpochNanos, ops[..k], i)
    decreases k
  {
    if k > 0 {
      var t := Run(p, ops, collectAll);
      StampIsOwnLatestCollection(p, ops, collectAll, k - 1, i);
      StepStamps(t.states[k - 1], ops[k - 1], collectAll);
      assert ops[..k][..k - 1] == ops[..k - 1];
      assert ops[..k][k - 1] == ops[k - 1];
    }
  }

  /**
   The shared clock never runs backwards: every collection reads a time no
   earlier than `t0` and no earlier than any collection before it.
   */
  predicate ClockFrom(t0: int, ops: seq<Op>)
  {
    && (forall k :: 0 <= k < |ops| && ops[k].CollectOp? ==> t0 <= ops[k].clockNow)
    && (forall j, k :: 0 <= j < k < |ops| && ops[j].CollectOp? && ops[k].CollectOp? ==> ops[j].clockNow <= ops[k].clockNow)
  }

  /** Before operation k, reader i's last-collect time is at most any clock reading still to come. */
  lemma {:induction false} StampPrecedesLaterReadings<D>(p: Provider, t0: int, ops: seq<Op>, collectAll: (Scope, nat, int) -> seq<D>,
                                                          k: nat, i: nat)
    requires ValidOps(|p.readers|, ops)
    requires ClockFrom(t0, ops)
    requires forall r :: 0 <= r < |p.readers| ==> p.readers[r].lastCollectEpochNanos <= t0
    requires k <= |ops| && i < |p.readers|
    ensures forall m :: k <= m < |ops| && ops[m].CollectOp? ==>
              Run(p, ops, collectAll).states[k].readers[i].lastCollectEpochNanos <= ops[m].clockNow
    decreases k
  {
    if k > 0 {
      var t := Run(p, ops, collectAll);
      StampPrecedesLaterReadings(p, t0, ops, collectAll, k - 1, i);
      StepStamps(t.states[k - 1], ops[k - 1], collectAll);
    }
  }

  /** One operation never moves a reader's last-collect time backwards. */
  lemma StampStepNonDecreasing<D>(p: Provider, t0: int, ops: seq<Op>, collectAll: (Scope, nat, int) -> seq<D>, k: nat, i: nat)
    requires ValidOps(|p.readers|, ops)
    requires ClockFrom(t0, ops)
    requires forall r :: 0 <= r < |p.readers| ==> p.readers[r].lastCollectEpochNanos <= t0
    requires k < |ops| && i < |p.readers|
    ensures Run(p, ops, collectAll).states[k].readers[i].lastCollectEpochNanos
            <= Run(p, ops, collectAll).states[k + 1].readers[i].lastCollectEpochNanos
  {
    var t := Run(p, ops, collectAll);
    StampPrecedesLaterReadings(p, t0, ops, collectAll, k, i);
    StepStamps(t.states[k], ops[k], collectAll);
  }

  /**
   With a clock that never runs backwards, whose readings are no earlier than
   every reader's starting last-collect time, a reader's last-collect time
   never decreases from one state of a run to any later one.
   */
  lemma {:induction false} StampNeverDecreases<D>(p: Provider, t0: int, ops: seq<Op>, collectAll: (Scope, nat, int) -> seq<D>,
                                                         j: nat, k: nat, i: nat)
    requires ValidOps(|p.readers|, ops)
    requires ClockFrom(t0, ops)
    requires forall r :: 0 <= r < |p.readers| ==> p.readers[r].lastCollectEpochNanos <= t0
    requires j <= k <= |ops| && i < |p.readers|
    ensures Run(p, ops, collectAll).states[j].readers[i].lastCollectEpochNanos
            <= Run(p, ops, collectAll).states[k].readers[i].lastCollectEpochNanos
    decreases k - j
  {
    if j < k {
      StampStepNonDecreasing(p, t0, ops, collectAll, j, i);
      StampNeverDecreases(p, t0, ops, collectAll, j + 1, k, i);
    }
  }

  /**
   Over any sequence of calls from a provider whose registry holds no scope
   twice, every state's registry still holds no scope twice.
   */
  lemma {:induction false} RegistryStaysUnique<D>(p: Provider, ops: seq<Op>, collectAll: (Scope, nat, int) -> seq<D>, k: nat)
    requires ValidOps(|p.readers|, ops)
    requires UniqueMeters(p.meters)
    requires k <= |ops|
    ensures UniqueMeters(Run(p, ops, collectAll).states[k].meters)
    decreases k
  {
    if k > 0 {
      var t := Run(p, ops, collectAll);
      RegistryStaysUnique(p, ops, collectAll, k - 1);
      StepKeepsRegistryUnique(t.states[k - 1], ops[k - 1], collectAll);
    }
  }
}
