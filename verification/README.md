# SdkMeterProvider lifecycle and collection model

A Dafny model of the OpenTelemetry Java metrics SDK's `SdkMeterProvider`: the
object that binds a fixed list of metric readers to a registry of meters, hands
each reader a producer leased to it alone, collects on that producer's behalf,
and flushes and shuts the readers down with exactly-once shutdown semantics per
registered reader binding.

The provider is an immutable datatype (`SdkMeterProvider.Provider`): the
registered readers (each with its last-collect time and the reader-side
record of producers it was registered with, flush calls and shutdown calls),
the registry's meters (in registration order, see "## Left out"), the start time, and the
`isClosed` flag. Every provider operation is a pure transition to the next
state. `ProviderRuns.Run` threads a provider through any sequence of calls and
records every intermediate state and every response, which is where the
properties about repeated calls are stated.

Inputs standing for what the provider cannot see:

- the clock: each operation that reads it takes the reading as an argument
  (`startEpochNanos`, `clockNow`);
- a reader's `forceFlush`/`shutdown` outcome: a caller-supplied
  `succeeds: nat -> bool`, reader index to success;
- a meter's `collectAll(reader, collectTime)`: a caller-supplied function
  `collectAll(scope, readerIndex, collectTime)`;
- the result token: `CompletableResult.ResultCode`, only the outcome a token
  settles on, with `OfAll` succeeding exactly when every constituent does.

A repeated `shutdown` returns an already-succeeded token (line 113), not one
that mirrors the outcome of the real shutdown; `forceFlush` and collection are
not refused after shutdown.

## Model

| member | source | states |
|---|---|---|
| CompletableResult.OfAll | sdk/metrics/src/main/java/io/opentelemetry/sdk/metrics/SdkMeterProvider.java:99-103 | The aggregate of the per-reader tokens succeeds exactly when every constituent succeeds; one failure fails it. |
| CompletableResult.OfAllIgnoresOrder | sdk/metrics/src/main/java/io/opentelemetry/sdk/metrics/SdkMeterProvider.java:118-122 | The aggregate outcome does not depend on the order in which reader results are listed. |
| SdkMeterProvider.Create | sdk/metrics/src/main/java/io/opentelemetry/sdk/metrics/SdkMeterProvider.java:52-72 | Construction keeps one binding per reader, registers each reader with one new producer leased to it, sets every last-collect time to the single start reading, and starts open with an empty registry. |
| SdkMeterProvider.CreateLeasesOneProducerPerReader | sdk/metrics/src/main/java/io/opentelemetry/sdk/metrics/SdkMeterProvider.java:67-71 | Readers with no producer before construction end up with exactly one, leased to themselves, and no two readers share one. |
| SdkMeterProvider.MeterBuilderFor | sdk/metrics/src/main/java/io/opentelemetry/sdk/metrics/SdkMeterProvider.java:75-84 | No readers gives the no-op builder for any name; otherwise a missing or empty name becomes "unknown" and any other name is kept. |
| SdkMeterProvider.Build | sdk/metrics/src/main/java/io/opentelemetry/sdk/metrics/SdkMeterProvider.java:63-66 | Building through the registry returns the meter of the builder's scope, adds the scope only when new, keeps every scope unique, and changes nothing else; the no-op builder changes nothing. |
| SdkMeterProvider.DefaultNameResolvesToSameMeter | sdk/metrics/src/main/java/io/opentelemetry/sdk/metrics/SdkMeterProvider.java:79-83 | A missing, an empty and the default name resolve to the same meter and state; with no readers every name gives the no-op meter. |
| SdkMeterProvider.ForceFlush | sdk/metrics/src/main/java/io/opentelemetry/sdk/metrics/SdkMeterProvider.java:95-104 | No readers: success, nothing touched. Otherwise each reader is flushed exactly once, nothing else changes, and the result succeeds iff every reader's flush does. |
| SdkMeterProvider.Shutdown | sdk/metrics/src/main/java/io/opentelemetry/sdk/metrics/SdkMeterProvider.java:110-123 | Always leaves the provider closed; the first call shuts every reader down once (none with zero readers) and succeeds iff all succeed; on a closed provider it succeeds and changes nothing. |
| SdkMeterProvider.Close | sdk/metrics/src/main/java/io/opentelemetry/sdk/metrics/SdkMeterProvider.java:127-129 | Close leaves the provider closed, shuts every reader down once if it was open, changes nothing else, and is a no-op on a closed provider. |
| SdkMeterProvider.CloseAfterShutdownIsNoOp | sdk/metrics/src/main/java/io/opentelemetry/sdk/metrics/SdkMeterProvider.java:110-129 | Close after shutdown, close after close and shutdown after close change nothing and never shut a reader down again. |
| SdkMeterProvider.Contributions | sdk/metrics/src/main/java/io/opentelemetry/sdk/metrics/SdkMeterProvider.java:163-168 | The collected metrics hold exactly what the registered meters contribute for this reader at the collect time. |
| SdkMeterProvider.Collect | sdk/metrics/src/main/java/io/opentelemetry/sdk/metrics/SdkMeterProvider.java:162-171 | Collection returns the registry-order concatenation of every meter's contribution at one collect time, sets this reader's last-collect time to that time, and changes no other reader and nothing else. |
| SdkMeterProvider.CollectAllMetrics | sdk/metrics/src/main/java/io/opentelemetry/sdk/metrics/SdkMeterProvider.java:162-171 | The producer's loop over the registry snapshot computes the same metrics and the same next state as Collect. |
| ProviderRuns.ClosedExactlyAfterFirstShutdown | sdk/metrics/src/main/java/io/opentelemetry/sdk/metrics/SdkMeterProvider.java:111-114 | Over any sequence of calls, before operation k the closed flag is set exactly when the provider started closed or an earlier operation was a shutdown or close. |
| ProviderRuns.ShutdownReachesReadersOnce | sdk/metrics/src/main/java/io/opentelemetry/sdk/metrics/SdkMeterProvider.java:110-123 | Over any sequence of calls, before operation k each binding's reader shutdown count has grown by one exactly when the provider started open and an earlier operation was a shutdown or close, and never by more. |
| ProviderRuns.LaterShutdownsAreNoOps | sdk/metrics/src/main/java/io/opentelemetry/sdk/metrics/SdkMeterProvider.java:111-114 | A shutdown or close issued when the provider is already closed changes no state, and such a shutdown returns success. |
| ProviderRuns.ShutdownAtMostOnceFromCreate | sdk/metrics/src/main/java/io/opentelemetry/sdk/metrics/SdkMeterProvider.java:58-123 | From construction over never-shut-down readers, any sequence of calls shuts each binding's reader down once if it holds a shutdown or close, and never otherwise. |
| ProviderRuns.StampIsOwnLatestCollection | sdk/metrics/src/main/java/io/opentelemetry/sdk/metrics/SdkMeterProvider.java:165-169 | A reader's last-collect time is always the time of its own latest collection (or the start); no other reader's collection writes it. |
| ProviderRuns.StampNeverDecreases | sdk/metrics/src/main/java/io/opentelemetry/sdk/metrics/SdkMeterProvider.java:165-169 | With a clock that never runs backwards and starts no earlier than the readers' start times, a reader's last-collect time never decreases between any two states of a run. |
| ProviderRuns.RegistryStaysUnique | sdk/metrics/src/main/java/io/opentelemetry/sdk/metrics/SdkMeterProvider.java:63-66 | In every state of a run from a provider whose registry holds no scope twice (such as a new one), the registry still holds no scope twice: one meter per scope. |

## Left out

- SdkMeterProvider.Create: readers are values, one per binding; one reader object shared by several bindings (which would be registered, flushed and shut down once per binding) is not modelled, so the exactly-once shutdown rows hold per binding.
- Concurrency: the compare-and-set on `isClosed` is one atomic step, and every call is one step of a sequential run; parallel readers and racing callers are not modelled.
- SdkMeterProvider.Close: the bounded `join(10, SECONDS)` wait is not modelled; close is its shutdown's state change only.
- CompletableResult.OfAll: pending tokens, callbacks and timeouts are not modelled, only the settled outcome.
- SdkMeterProvider.Build: the registry snapshot's iteration order is modelled as registration order; the registry's `getComponents` is not part of this model and its collection type promises no order, so the order of collected metrics across meters holds only under that assumption.
- SdkMeterProvider.Build: the registry is keyed by scope name only; scope version and schema URL, set on the builder, are not part of this model.
- SdkMeterProvider.Contributions: a meter's own instrument state is not modelled; its contribution is a fixed function of scope, reader index and collect time, so meters do not see the reader's previous last-collect time, which the source hands them through the registered reader before restamping it.
- Clock readings and timestamps are unbounded integers; the 64-bit `long` range is not modelled.
- Logging, `toString`, `resetForTest` and the static `builder()`: no behaviour beyond diagnostics or test support.
- sdk-extensions/autoconfigure/src/main/java/io/opentelemetry/sdk/autoconfigure/MetricExporterConfiguration.java: configuration glue choosing an exporter by name, whose substance lives in builders and loaders that are not part of this model.
- exporters/otlp/all/src/main/java/io/opentelemetry/exporter/otlp/http/metrics/OtlpHttpMetricExporter.java: a thin wrapper over an HTTP exporter and marshaller that are not part of this model.
- The no-op meter provider, `SdkMeterBuilder`, `SdkMeter`, `ComponentRegistry`, `RegisteredReader` and `MeterProviderSharedState` are not part of this model beyond the abstract values above.
