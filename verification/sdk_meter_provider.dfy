/**
 The metrics SDK's meter provider: a fixed list of registered readers, a
 registry of meters, a start time and a closed flag, with the provider's
 operations written as pure transitions from one provider state to the next.
 Clock readings and the outcome of each reader's `forceFlush`/`shutdown` are
 inputs of the transitions.
 */
module SdkMeterProvider {
  import opened Wrappers
  import opened CompletableResult

  /** The scope name a meter gets when it is requested without one. */
  const DefaultMeterName: string := "unknown"

  /** The producer a reader collects through; it is leased to one reader, by index. */
  datatype MetricProducer = LeasedMetricProducer(readerIndex: nat)

  /**
   An external metric reader, seen through what the provider does to it: the
   producers it was registered with and how often it was flushed and shut down.
   */
  datatype MetricReader = MetricReader(producers: seq<MetricProducer>, flushCalls: nat, shutdownCalls: nat)

  /** A reader bound to the provider, with its reader-local last-collect time. */
  datatype RegisteredReader = RegisteredReader(reader: MetricReader, lastCollectEpochNanos: int)

  /** The instrumentation scope a meter is registered under. */
  datatype Scope = Scope(name: string)

  /**
   The provider state. `meters` is the registry's content, keyed by scope;
   its iteration order is taken to be registration order.
   */
  datatype Provider = Provider(
    readers: seq<RegisteredReader>,
    meters: seq<Scope>,
    startEpochNanos: int,
    isClosed: bool)

  datatype MeterBuilder = NoopMeterBuilder | SdkMeterBuilder(scopeName: string)

  datatype Meter = NoopMeter | SdkMeter(scope: Scope)

  /** A transition that also hands back a result token. */
  datatype Transition = Transition(next: Provider, result: ResultCode)

  /** A collection: the provider afterwards and the metrics handed to the reader. */
  datatype Collection<D> = Collection(next: Provider, metrics: seq<D>)

  /** A meter lookup: the provider afterwards and the meter obtained. */
  datatype Lookup = Lookup(next: Provider, meter: Meter)

  /** Every reader is still there, with the same producers and last-collect time; flush and shutdown counts are stated by each operation. */
  predicate SameReaderBindings(p: Provider, q: Provider)
  {
    && |q.readers| == |p.readers|
    && forall i :: 0 <= i < |p.readers| ==>
         && q.readers[i].reader.producers == p.readers[i].reader.producers
         && q.readers[i].lastCollectEpochNanos == p.readers[i].lastCollectEpochNanos
  }

  /** No scope is registered twice: one meter per scope. */
  predicate UniqueMeters(meters: seq<Scope>)
  {
    forall i, j :: 0 <= i < j < |meters| ==> meters[i] != meters[j]
  }

  // ---------------------------------------------------------------- construction

  function Register(r: RegisteredReader, index: nat, startEpochNanos: int): RegisteredReader
  {
    RegisteredReader(r.reader.(producers := r.reader.producers + [LeasedMetricProducer(index)]), startEpochNanos)
  }

  /**
   Builds a provider over `readers`, with `startEpochNanos` the one clock
   reading taken at construction. Each reader is registered with exactly one
   new producer, leased to that reader, and its last-collect time is set to
   the start time. The registry starts empty and the provider open.
   */
  function Create(readers: seq<RegisteredReader>, startEpochNanos: int): (p: Provider)
    ensures |p.readers| == |readers|
    ensures p.startEpochNanos == startEpochNanos && p.meters == [] && !p.isClosed
    ensures forall i :: 0 <= i < |readers| ==>
              && p.readers[i].lastCollectEpochNanos == startEpochNanos
              && p.readers[i].reader.producers == readers[i].reader.producers + [LeasedMetricProducer(i)]
              && p.readers[i].reader.flushCalls == readers[i].reader.flushCalls
              && p.readers[i].reader.shutdownCalls == readers[i].reader.shutdownCalls
  {
    Provider(seq(|readers|, i requires 0 <= i < |readers| => Register(readers[i], i, startEpochNanos)), [], startEpochNanos, false)
  }

  /**
   Readers that had no producer before construction each end up with exactly
   one, leased to that reader alone, and no two readers share a producer.
   */
  lemma CreateLeasesOneProducerPerReader(readers: seq<RegisteredReader>, startEpochNanos: int)
    requires forall i :: 0 <= i < |readers| ==> readers[i].reader.producers == []
    ensures var p := Create(readers, startEpochNanos);
            && (forall i :: 0 <= i < |readers| ==>
                  |p.readers[i].reader.producers| == 1 && p.readers[i].reader.producers[0].readerIndex == i)
            && (forall i, j :: 0 <= i < j < |readers| ==>
                  p.readers[i].reader.producers[0] != p.readers[j].reader.producers[0])
  {
  }

  // ---------------------------------------------------------------- meters

  /**
   `meterBuilder`: with no reader every name gets the no-op builder; otherwise
   a missing or empty name is replaced by the default name and any other name
   is kept.
   */
  function MeterBuilderFor(p: Provider, scopeName: Option<string>): (b: MeterBuilder)
    ensures b.NoopMeterBuilder? <==> |p.readers| == 0
    ensures b.SdkMeterBuilder? && (scopeName == None || scopeName == Some("")) ==> b.scopeName == DefaultMeterName
    ensures b.SdkMeterBuilder? && scopeName.Some? && scopeName.value != "" ==> b.scopeName == scopeName.value
  {
    if |p.readers| == 0 then NoopMeterBuilder
    else match scopeName
      case None => SdkMeterBuilder(DefaultMeterName)
      case Some(name) => if |name| == 0 then SdkMeterBuilder(DefaultMeterName) else SdkMeterBuilder(name)
  }

  /**
   Building a meter. The no-op builder yields the no-op meter and registers
   nothing. The SDK builder resolves its scope through the registry: the scope
   is added when it is new and reused when it is already there, so the
   registry never holds a scope twice and nothing but the registry changes.
   */
  function Build(p: Provider, b: MeterBuilder): (l: Lookup)
    ensures b.NoopMeterBuilder? ==> l == Lookup(p, NoopMeter)
    ensures b.SdkMeterBuilder? ==> l.meter == SdkMeter(Scope(b.scopeName)) && Scope(b.scopeName) in l.next.meters
    ensures l.next.readers == p.readers && l.next.isClosed == p.isClosed && l.next.startEpochNanos == p.startEpochNanos
    ensures forall s :: s in l.next.meters <==> s in p.meters || l.meter == SdkMeter(s)
    ensures p.meters <= l.next.meters
    ensures UniqueMeters(p.meters) ==> UniqueMeters(l.next.meters)
  {
    match b
    case NoopMeterBuilder => Lookup(p, NoopMeter)
    case SdkMeterBuilder(name) =>
      var scope := Scope(name);
      if scope in p.meters then Lookup(p, SdkMeter(scope))
      else Lookup(p.(meters := p.meters + [scope]), SdkMeter(scope))
  }

  /** `meterBuilder(name).build()`. */
  function GetMeter(p: Provider, scopeName: Option<string>): (l: Lookup)
  {
    Build(p, MeterBuilderFor(p, scopeName))
  }

  /**
   A missing name, an empty name and the default name all resolve to the same
   meter and leave the provider in the same state; with no reader every name
   gives the no-op meter and changes nothing.
   */
  lemma DefaultNameResolvesToSameMeter(p: Provider, other: Option<string>)
    ensures GetMeter(p, None) == GetMeter(p, Some("")) == GetMeter(p, Some(DefaultMeterName))
    ensures |p.readers| == 0 ==> GetMeter(p, other) == Lookup(p, NoopMeter)
    ensures |p.readers| > 0 ==> GetMeter(p, None).meter == SdkMeter(Scope(DefaultMeterName))
  {
  }

  // ---------------------------------------------------------------- flush and shutdown

  function WithFlushCall(r: RegisteredReader): RegisteredReader
  {
    r.(reader := r.reader.(flushCalls := r.reader.flushCalls + 1))
  }

  function WithShutdownCall(r: RegisteredReader): RegisteredReader
  {
    r.(reader := r.reader.(shutdownCalls := r.reader.shutdownCalls + 1))
  }

  /**
   `forceFlush`. With no reader it succeeds at once and touches nothing.
   Otherwise every reader is flushed exactly once, and the result succeeds
   exactly when every reader's flush succeeds. Nothing else changes; a closed
   provider still flushes its readers.
   */
  function ForceFlush(p: Provider, succeeds: nat -> bool): (t: Transition)
    ensures |p.readers| == 0 ==> t == Transition(p, Succeeded)
    ensures SameReaderBindings(p, t.next)
    ensures t.next.meters == p.meters && t.next.isClosed == p.isClosed && t.next.startEpochNanos == p.startEpochNanos
    ensures forall i :: 0 <= i < |p.readers| ==>
              && t.next.readers[i].reader.flushCalls == p.readers[i].reader.flushCalls + 1
              && t.next.readers[i].reader.shutdownCalls == p.readers[i].reader.shutdownCalls
    ensures t.result == Succeeded <==> forall i :: 0 <= i < |p.readers| ==> succeeds(i)
  {
    if |p.readers| == 0 then Transition(p, Succeeded)
    else
      var flushed := seq(|p.readers|, i requires 0 <= i < |p.readers| => WithFlushCall(p.readers[i]));
      Transition(p.(readers := flushed), OfAll(ReaderCodes(|p.readers|, succeeds)))
  }

  /**
   `shutdown`. The first call wins the closed flag, even with no reader, and
   shuts every reader down exactly once; its result succeeds exactly when
   every reader's shutdown succeeds (with no reader it succeeds at once).
   Every later call succeeds at once and changes nothing.
   */
  function Shutdown(p: Provider, succeeds: nat -> bool): (t: Transition)
    ensures t.next.isClosed
    ensures p.isClosed ==> t == Transition(p, Succeeded)
    ensures !p.isClosed && |p.readers| == 0 ==> t == Transition(p.(isClosed := true), Succeeded)
    ensures SameReaderBindings(p, t.next)
    ensures t.next.meters == p.meters && t.next.startEpochNanos == p.startEpochNanos
    ensures forall i :: 0 <= i < |p.readers| ==>
              && t.next.readers[i].reader.flushCalls == p.readers[i].reader.flushCalls
              && t.next.readers[i].reader.shutdownCalls == p.readers[i].reader.shutdownCalls + (if p.isClosed then 0 else 1)
    ensures t.result == Succeeded <==> p.isClosed || forall i :: 0 <= i < |p.readers| ==> succeeds(i)
  {
    if p.isClosed then Transition(p, Succeeded)
    else if |p.readers| == 0 then Transition(p.(isClosed := true), Succeeded)
    else
      var shut := seq(|p.readers|, i requires 0 <= i < |p.readers| => WithShutdownCall(p.readers[i]));
      Transition(p.(isClosed := true, readers := shut), OfAll(ReaderCodes(|p.readers|, succeeds)))
  }

  /** `close`: a shutdown whose result is only waited on, so only the state remains. */
  function Close(p: Provider, succeeds: nat -> bool): (q: Provider)
    ensures q.isClosed
    ensures p.isClosed ==> q == p
    ensures SameReaderBindings(p, q) && q.meters == p.meters && q.startEpochNanos == p.startEpochNanos
    ensures forall i :: 0 <= i < |p.readers| ==>
              && q.readers[i].reader.flushCalls == p.readers[i].reader.flushCalls
              && q.readers[i].reader.shutdownCalls == p.readers[i].reader.shutdownCalls + (if p.isClosed then 0 else 1)
  {
    Shutdown(p, succeeds).next
  }

  /**
   Once a provider has been shut down or closed, a further `close` or
   `shutdown` neither shuts a reader down again nor changes anything else.
   */
  lemma CloseAfterShutdownIsNoOp(p: Provider, first: nat -> bool, second: nat -> bool)
    ensures Close(Shutdown(p, first).next, second) == Shutdown(p, first).next
    ensures Close(Close(p, first), second) == Close(p, first)
    ensures Shutdown(Close(p, first), second) == Transition(Close(p, first), Succeeded)
  {
  }

  // ---------------------------------------------------------------- collection

  /**
   What every meter contributes for `reader` at `collectTime`, concatenated in
   registry order: a metric is in the result exactly when some registered
   meter contributes it.
   */
  function Contributions<D>(meters: seq<Scope>, reader: nat, collectTime: int, collectAll: (Scope, nat, int) -> seq<D>): (metrics: seq<D>)
    ensures forall j :: 0 <= j < |metrics| ==>
              exists k :: 0 <= k < |meters| && metrics[j] in collectAll(meters[k], reader, collectTime)
    ensures forall k, j :: 0 <= k < |meters| && 0 <= j < |collectAll(meters[k], reader, collectTime)| ==>
              collectAll(meters[k], reader, collectTime)[j] in metrics
    ensures |meters| == 0 ==> metrics == []
    decreases |meters|
  {
    if |meters| == 0 then []
    else
      var rest := Contributions(meters[1..], reader, collectTime, collectAll);
      assert forall k :: 1 <= k < |meters| ==> meters[k] == meters[1..][k - 1];
      collectAll(meters[0], reader, collectTime) + rest
  }

  lemma {:induction false} ContributionsAppend<D>(meters: seq<Scope>, m: Scope, reader: nat, collectTime: int, collectAll: (Scope, nat, int) -> seq<D>)
    ensures Contributions(meters + [m], reader, collectTime, collectAll)
         == Contributions(meters, reader, collectTime, collectAll) + collectAll(m, reader, collectTime)
    decreases |meters|
  {
    if |meters| > 0 {
      assert (meters + [m])[1..] == meters[1..] + [m];
      ContributionsAppend(meters[1..], m, reader, collectTime, collectAll);
    } else {
      assert (meters + [m])[1..] == [];
    }
  }

  /**
   `collectAllMetrics` of the producer leased to one reader: one clock reading
   `clockNow` serves as the collect time of every meter; the metrics are the
   registry-order concatenation of the meters' contributions for this reader;
   afterwards this reader's last-collect time is `clockNow` and no other reader
   and nothing else changes. Collection is not refused after shutdown.
   */
  function Collect<D>(p: Provider, producer: MetricProducer, clockNow: int, collectAll: (Scope, nat, int) -> seq<D>): (c: Collection<D>)
    requires producer.readerIndex < |p.readers|
    ensures c.metrics == Contributions(p.meters, producer.readerIndex, clockNow, collectAll)
    ensures |c.next.readers| == |p.readers|
    ensures c.next.readers[producer.readerIndex].lastCollectEpochNanos == clockNow
    ensures c.next.readers[producer.readerIndex].reader == p.readers[producer.readerIndex].reader
    ensures forall j :: 0 <= j < |p.readers| && j != producer.readerIndex ==> c.next.readers[j] == p.readers[j]
    ensures c.next.meters == p.meters && c.next.isClosed == p.isClosed && c.next.startEpochNanos == p.startEpochNanos
  {
    var i := producer.readerIndex;
    Collection(p.(readers := p.readers[i := p.readers[i].(lastCollectEpochNanos := clockNow)]),
               Contributions(p.meters, i, clockNow, collectAll))
  }

  /**
   The collection loop as the producer runs it: take the registry snapshot,
   read the clock once, append each meter's contribution in turn, then stamp
   the reader. It computes exactly the collection `Collect` describes.
   */
  method CollectAllMetrics<D>(p: Provider, producer: MetricProducer, clockNow: int, collectAll: (Scope, nat, int) -> seq<D>)
    returns (next: Provider, metrics: seq<D>)
    requires producer.readerIndex < |p.readers|
    ensures metrics == Contributions(p.meters, producer.readerIndex, clockNow, collectAll)
    ensures next == Collect(p, producer, clockNow, collectAll).next
  {
    var meters := p.meters;
    var result: seq<D> := [];
    var collectTime := clockNow;
    for k := 0 to |meters|
      invariant result == Contributions(meters[..k], producer.readerIndex, collectTime, collectAll)
    {
      ContributionsAppend(meters[..k], meters[k], producer.readerIndex, collectTime, collectAll);
      assert meters[..k + 1] == meters[..k] + [meters[k]];
      result := result + collectAll(meters[k], producer.readerIndex, collectTime);
    }
    assert meters[..|meters|] == meters;
    var i := producer.readerIndex;
    next := p.(readers := p.readers[i := p.readers[i].(lastCollectEpochNanos := collectTime)]);
    metrics := result;
  }
}
