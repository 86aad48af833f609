# A verified model of the metrics agent and server

The repository is a metrics agent and its server. The agent polls gauges and counts polls, reports both in
signed, compressed and optionally encrypted batches, and retries; the server applies a batch to an in-memory or
PostgreSQL store, saves a snapshot, answers through a compressing and a logging writer, and tells audit observers.
A small code generator writes the `Reset()` methods that the object pools rely on.

The model follows these parts one by one.

| files | part |
|---|---|
| `GoTypes`, `Memory`, `Generator`, `GeneratorChecks`, `GeneratorCorrect`, `ResetWriter`, `GoReader`, `GeneratedText`, `GeneratedMetrics`, `Generation` | the `Reset()` generator as a compiler: Go type expressions, the emitted statements with their text, what Go's type checker says of them and what they do on a memory with aliasing pointers, the writer that emits them, a reader of Go lines that gets the statements back from the text, the generator at work on `Metrics`, and all of it from declarations to meaning |
| `Pool` | the object pool and the batch builder, over real heap cells |
| `Metrics`, `MemoryRepo`, `Retry`, `Postgres` | the two stores, batches and retries |
| `Snapshot`, `FileStorage`, `Durability`, `DurabilityLimits` | snapshots, `Save` and `Restore` on a directory, and the same steps interleaved with updates and crashes on a file system of inodes and names |
| `Report`, `Agent`, `Delivery` | the batch a report sends, the agent's functions one after another, and the whole delivery protocol as a step machine |
| `WorkerPool`, `Audit` | the sender's worker pool and the audit publisher as step machines, the publisher also as a class that refines its machine |
| `Http`, `Crypto`, `Pipeline`, `Handler`, `ResponseWriter` | headers, the encryption frame, the request pipeline, the batch endpoint and the stack of response writers |
| `Wrappers`, `Seqs` | optional values, concatenation |

A step machine has a `State`, an `Action`, `Enabled` and `Next`; a run is any sequence of enabled actions, and the
main results hold at every point of every run. Sequential code is a method proved against a function
(`ApplyBatch`, `RetryFrom`, `CompileField`, …), and the properties are lemmas about that function.
Beside each such function stand lemmas that pin it down without its own vocabulary: a reader for text that is
printed, literal names, headers and status codes, and a concrete run.
Libraries appear as function-valued parameters with inverse laws: `Json.Faithful`, `Gzip.Lawful`,
`Codecs.Lawful`, `Primitives.Matching`, `Custom.Lawful` (hand-written `Reset` methods).

Main results: `GeneratorCorrect.GeneratedResetCorrect` and `Generation.GeneratedFileMeans` with
`GeneratorChecks.RejectedExactlyWhen`, `GoReader.RenderReads`, `GeneratedText.TargetsAre`,
`GeneratorCorrect.AcyclicTerminates`, `GoTypes.TypeStringInjective`, `Agent.PostMetricsBatch`,
`MetricsPool.BatchOutlivesPoolUse`, `Metrics.BatchClosedForm`, `Postgres.BatchAgreement`,
`Postgres.RetriedBatchExactlyOnce`, `Snapshot.SaveRestoreInverse`, `Durability.AcknowledgedUpdatesSurvive` with
`DurabilityLimits.SharingLosesAck` and `OvertakingLosesAck`, `Delivery.PollConservation`, `Delivery.NoPollLost`,
`Delivery.SnapshotFreshness`, `Report.ReportStoresSnapshot`, `WorkerPool.OwnResult`, `WorkerPool.CloseAnswersAll`,
`WorkerPool.DrainBounded`, `Audit.AuditConservation`, `Audit.DrainedOnExit`, `Crypto.AcceptedFrameReencodes`,
`Pipeline.RequestRoundTrip`, `ResponseWriter.Serve`.

Several properties one might expect are false of the code. Each has a lemma with a concrete input, beside the exact
condition or the weaker property that does hold.

- The generator does not serve every struct it is asked to. The emitted file imports nothing, so a field of another
  package's type, which the comment at `cmd/reset/main.go:293` means to cover, makes it uncompilable
  (`GeneratorChecks.ForeignFieldRejected`); so do a receiver that captures a name the body spells, a type name that
  begins with an underscore, a flattened interface literal, a generic or alias target, a second `Reset`, and a
  `Reset` that wants arguments. `GeneratorChecks.Served` is the exact condition, which can be read off the
  declarations (`MethodChecksExactlyWhen`, `RejectedExactlyWhen`).
- Saves that disturb each other lose acknowledged updates, in two ways. They share one temporary file, so one can
  rename what the other has truncated (`DurabilityLimits.OverlapLosesAck`); and one that read before an update can
  rename after the update's own save (`StaleSaveLosesAck`), with no torn file anywhere. The guard under which nothing
  is lost is `Durability.Undisturbed`: no save creates the temporary file while another uses it, and none renames it
  while another still holds a snapshot from before its update. Saves that run one at a time meet it
  (`Durability.NoOverlapIsCalm`), and so do some that overlap. A step of a calm run that breaks it has a continuation that acknowledges an update
  and leaves an empty, an undecodable or an older file behind: the update is lost, exactly unless the repository has
  held just that content again since (`SharingLosesAck`, `OvertakingLosesAck`). One such step has no such
  continuation: creating the file when the other save has created it but not yet written to it destroys nothing by
  itself. A save need not be encodable to do the damage, because the file is created before it is encoded.
- `Save` never syncs the directory, so a power failure can undo the rename of an acknowledged save
  (`DurabilityLimits.PowerFailureForgetsAck`). What survives one is what was acknowledged before the last flush of
  the directory (second half of `Durability.AcknowledgedUpdatesSurvive`).
- Postgres does not always take a batch that memory takes: a total may leave BIGINT, or the name column may refuse a
  name, such as one with a zero character (`Postgres.CommitsExactlyWhen`).
- A commit that was applied but reported as a connection error is applied again (`Postgres.LostCommitCountsTwice`);
  `Postgres.RetriedBatchExactlyOnce` says exactly when retrying applies a batch once or not at all.
- `Put` resets through pointers: a caller that does not clear `Delta` and `Value` first zeroes the value it has
  just copied (`MetricsPool.PutWithoutClearing`; the exact condition is in `MetricsPool.Pool.Put`).
- After an informational status the handler's later status is dropped: the response has status 200 and the log the
  informational one. With a status that allows no body, the body is dropped. `ResponseWriter.Serve` says so exactly.

## Model

| member | source | states |
|---|---|---|
| GoTypes.TypeStringInjective | cmd/reset/main.go:389-409 | Two different plain type expressions (identifiers, pointers, selectors, slices, fixed arrays, maps) never print alike. |
| GoTypes.PrintCut | cmd/reset/main.go:389-409 | Two printed types, each followed by nothing or by the bracket that closes a map key, are cut off a common text in only one way. |
| GoTypes.TypeTexts | cmd/reset/main.go:389-409 | Pointers, slices, selectors and interfaces as Go writes them. |
| GoTypes.ArrayText | cmd/reset/main.go:397-401 | A fixed array as Go writes it. |
| GoTypes.MapText | cmd/reset/main.go:402-403 | A map as Go writes it. |
| GoTypes.InterfaceLiteralsCollide | cmd/reset/main.go:404-405 | Outside those forms injectivity fails: every interface literal prints as `any`, faithfully exactly when it has no methods. |
| GeneratorCorrect.GeneratedResetCorrect | cmd/reset/main.go:237-373 | For every target of a package the generator serves and every well-typed memory, however its pointers alias, the emitted method finishes without a nil dereference, leaves every declared field but blank ones, and every embedded `T`, `*T` or `pkg.T`, reset through any pointer depth, writes nothing outside its region, and running it again changes nothing; in every other package, and only there, the emitted file does not compile. |
| GeneratorCorrect.ScalarShows | cmd/reset/main.go:302-317 | What reset means: numbers zero, booleans false, strings empty, interfaces, channels and functions nil. |
| GeneratorCorrect.CompositeShows | cmd/reset/main.go:275-299 | What reset means: slices of length zero, maps empty or nil, pointees reset, arrays and other structs zero throughout. |
| GeneratorCorrect.FlatFrame | cmd/reset/main.go:302-329 | A struct without pointers, maps and nested resets can touch nothing outside itself. |
| GeneratedMetrics.MetricsRun | internal/model/reset.gen.go:5-17 | Run on a `Metrics` in memory, the generated method empties both texts, zeroes what Delta points to, and leaves both pointers as they are. |
| GeneratedMetrics.MetricsServed | internal/model/metrics.go:17 | The generator serves `Metrics`. |
| GeneratedMetrics.MetricsText | internal/model/reset.gen.go:5-17 | The whole method written for `Metrics`, head and nil guard included, is the committed text, line by line. |
| GoReader.RenderReads | cmd/reset/main.go:271-373 | Whatever is printed for a statement, at any pointer depth, reads back as that statement: a reader that knows Go's `!= nil`, `= 0`, `[:0]`, `clear(` and `.Reset()` but none of the printing functions finds the same variables and values. |
| GoReader.OperandReads | cmd/reset/main.go:367 | The text of an operand reads back as it, through any number of dereferences. |
| GeneratedText.MethodReads | cmd/reset/main.go:211-219 | The text written for a target reads as one method of its type, returning at once on a nil receiver, whose body is the compiled one. |
| GeneratedText.TargetsAre | cmd/reset/main.go:145-170 | The targets are the marked structs of all type declarations, each once, in order, with the names and fields they are declared with. |
| Generator.FieldNamesAre | cmd/reset/main.go:245-268 | A declaration contributes its names but blanks, or the name of an embedded `T`, `*T` or `pkg.T`, and no others. |
| GeneratorChecks.RejectedExactlyWhen | cmd/reset/main.go:204-226 | The emitted file compiles exactly when every target is served; otherwise none of its methods runs. |
| GeneratorChecks.MethodChecksExactlyWhen | cmd/reset/main.go:211-219 | An emitted method passes the type checker exactly when its target meets the condition on its declaration: receiver not blank, target neither generic nor an alias nor already with a `Reset`, no `Reset` wanting arguments called, and only types spelled that a file without imports can name, without the receiver's name and without interface methods. |
| GeneratorChecks.FieldChecksExactlyWhen | cmd/reset/main.go:271-329 | The same for the statement of one field. |
| GeneratorChecks.ElemChecksExactlyWhen | cmd/reset/main.go:331-373 | The same behind any number of pointers. |
| GeneratorChecks.ForeignFieldRejected | cmd/reset/main.go:292-294 | A field of a type from another package keeps its target from being served: the emitted file has no imports. |
| GeneratorChecks.CapturedNameRejected | cmd/reset/main.go:229-235 | So does a receiver whose name occurs in a type the body spells, in whatever role. |
| GeneratorChecks.ReceiverCapturesTypeName | cmd/reset/main.go:229-235 | For example a struct `S` with a field of type `s`. |
| GeneratorChecks.UnderscoreRejected | cmd/reset/main.go:229-235 | So does a type name that begins with an underscore. |
| GeneratorChecks.MethodInterfaceRejected | cmd/reset/main.go:404-405 | So does an interface literal with methods at any place of a spelled type. |
| GeneratorChecks.ArgumentsRejected | cmd/reset/main.go:171-181 | So does a field, or what it points to, whose `Reset` cannot be called without arguments. |
| GeneratorChecks.UnmethodableRejected | cmd/reset/main.go:153-170 | So does being generic or an alias, or having a field named `Reset`. |
| Generation.TwiceDefinedRejected | cmd/reset/main.go:171-181 | So does a `Reset` method that a marked struct already has in the source, however declared and with or without arguments. |
| Generation.GeneratedFileMeans | cmd/reset/main.go:145-226 | From declarations to meaning: for a struct marked at any place of the declarations, the text emitted reads as one method of that struct, its body is what running the struct's `Reset` executes, and it resets every field the struct declares, exactly unless the file does not compile. |
| Generation.GenerateFile | cmd/reset/main.go:145-219 | Collecting a package's declarations and writing its targets yields the methods' texts one after another, one for each target. |
| Generation.CollectedValid | cmd/reset/main.go:162-169 | What is collected is consistent: every target has a `Reset` before any text is written, whatever file and order its users stand in. |
| GeneratorCorrect.CallCorrect | cmd/reset/main.go:271-373 | The same for one call at any nesting depth: it finishes, only shrinks memory, and reaches the type's own reset state. |
| GeneratorCorrect.BodyCorrect | cmd/reset/main.go:237-243 | Running the statements of all fields one after another resets each of them, later ones undoing none of the earlier. |
| GeneratorCorrect.FieldCorrect | cmd/reset/main.go:271-329 | The statement emitted for a field of any type resets that field. |
| GeneratorCorrect.ElemCorrect | cmd/reset/main.go:331-373 | The code emitted behind a non-nil pointer resets what the pointer reaches, by recursion on the element type. |
| GeneratorCorrect.CallFrame | cmd/reset/main.go:271-373 | A call leaves every cell alone that resetting its receiver does not reach. |
| GeneratorCorrect.SliceKeepsBacking | cmd/reset/main.go:279-284 | A slice field that no other field's reset reaches keeps its backing array and capacity; only its length becomes zero. |
| GeneratorCorrect.PointerStays | cmd/reset/main.go:275-278 | A pointer field that no field's reset reaches stays as it is, and what it points to is reset. |
| GeneratorCorrect.ResetStays | cmd/reset/main.go:271-373 | What is reset stays reset when later emitted code zeroes, cuts or empties other variables, aliased ones included. |
| GeneratorChecks.EntriesCover | cmd/reset/main.go:245-268 | Every name that a field declaration contributes is among the fields the method resets, with the declaration's type. |
| GeneratorCorrect.AcyclicTerminates | cmd/reset/main.go:318-321 | If the values reached through `Reset()` calls form an acyclic graph, the call returns within one stack frame per rank, with the receiver reset. Also `cmd/reset/main.go:334-338`. |
| GeneratorCorrect.CycleNeverReturns | cmd/reset/main.go:334-338 | A node whose link points back to it exhausts every stack depth. |
| ResetWriter.Package.Collect | cmd/reset/main.go:145-185 | A name has a `Reset` exactly when some declaration in any file marks the struct or defines the method; likewise for struct definitions; what the targets are is stated by `TargetsAre`. |
| ResetWriter.NamesAre | cmd/reset/main.go:153-170 | The names collected from one declaration group are exactly those of its structs, and of its marked structs. |
| ResetWriter.Writer.WriteIdentReset | cmd/reset/main.go:302-329 | Appends the text of the statement compiled for a field of a named type, and nothing else. |
| ResetWriter.Writer.WritePointerElemReset | cmd/reset/main.go:331-373 | Appends the text of the statement compiled for what a pointer reaches, to any depth. |
| ResetWriter.Writer.WriteExprReset | cmd/reset/main.go:271-300 | Appends the text of the statement compiled for a field of any type. |
| ResetWriter.Writer.NamesOf | cmd/reset/main.go:245-268 | The non-blank declared names, or the name an embedded field gets. |
| ResetWriter.Writer.WriteFields | cmd/reset/main.go:215-217 | Field by field, the text of the whole compiled body is appended. |
| ResetWriter.Writer.WriteTarget | cmd/reset/main.go:211-219 | Appends exactly one method: its head and nil guard, the text of its compiled body, its closing brace. |
| ResetWriter.Writer.WriteAll | cmd/reset/main.go:204-219 | The file's methods are those of the targets, in order. |
| ResetWriter.ChunksAreBody | cmd/reset/main.go:215-217 | Text emitted declaration by declaration is the text of the one body over all named fields. |
| ResetWriter.MetricsBody | internal/model/reset.gen.go:5-17 | Compiling `Metrics` gives the four statements of the committed file: two fields cleared, what two pointers reach zeroed. |
| MetricsPool.MetricObject.Reset | internal/model/reset.gen.go:5-17 | The strings become empty, the cells behind non-nil pointers zero, and the pointers themselves do not move. |
| MetricsPool.Pool.Get | internal/pool/pool.go:36-43 | An object from the pool or a new one, blank and no longer pooled. |
| MetricsPool.Pool.Put | internal/pool/pool.go:46-52 | Resets through pointers, then pools; the pool still holds only blank objects exactly when the object came without pointers. |
| MetricsPool.AppendGauge | cmd/agent/reporter.go:84-94 | Whatever other users of the pool do meanwhile, the entry reads as the named gauge through a new cell, and every pooled object is blank; with nobody else, the object it was made with is back in the pool. |
| MetricsPool.BuildMetrics | cmd/agent/reporter.go:80-117 | Under the same interference between its steps, the batch reads exactly as snapshot and delta say, in order, through cells that nothing else has; the pool stays valid. |
| MetricsPool.BatchOutlivesPoolUse | cmd/agent/reporter.go:80-117 | For every history of takes, fills and returns by other users, before, between the builder's steps and after, with any objects held meanwhile, the batch reads exactly as snapshot and delta, and pooled objects stay blank. |
| MetricsPool.PutWithoutClearing | cmd/agent/reporter.go:90-93 | Without clearing the pointers before `Put`, the entry just copied reads zero and the pool is no longer blank. |
| Metrics.BatchClosedForm | internal/repository/memory.go:91-110 | After a batch each counter is its old value plus the sum of its deltas, wrapped once to int64; each gauge its last written value; no other name appears. |
| Metrics.BatchConcat | internal/repository/memory.go:91-110 | Applying a concatenation is applying the two parts in turn. |
| Metrics.CountersOrderFree | internal/repository/memory.go:91-110 | Reordering a batch does not change the counters. |
| MemoryRepository.MemoryRepo.SetGauge | internal/repository/memory.go:27-32 | A one-gauge batch: the named gauge is written, nothing else changes. |
| MemoryRepository.MemoryRepo.AddCounter | internal/repository/memory.go:35-40 | A one-counter batch: a missing counter starts at zero, the sum wraps, no gauge changes. |
| MemoryRepository.MemoryRepo.UpdateMetricsBatch | internal/repository/memory.go:91-110 | The loop reaches exactly the content the batch function defines, malformed entries skipped. |
| MemoryRepository.MemoryRepo.SetCounter | internal/repository/memory.go:43-47 | The named counter takes the absolute value, nothing else changes. |
| MemoryRepository.MemoryRepo.GetCounter | internal/repository/memory.go:58-63 | Presence and value; a missing counter reads as zero. |
| MemoryRepository.CopyMap | internal/repository/memory.go:66-85 | The copy equals the map in whatever order it is ranged over. |
| MemoryRepository.ValidateMetricsBatch | internal/handler/handler.go:342-364 | A batch is accepted exactly when every entry has a non-blank id, a known type and just the field of that type. |
| Metrics.AcceptsIs | internal/agent/client.go:67-86 | What the agent and the server accept of an entry, field by field. Also `internal/handler/handler.go:342-364`. |
| Retry.RunRetry | internal/agent/retry.go:29-45 | The loop does what attempts 0 to 3 do one after another, stopping at success, at an error that is not retriable or at a failed pause. |
| Retry.RetryTrace | internal/agent/retry.go:29-45 | Some one to four attempts run; all but the last fail with a retriable error and a pause that works; the last one succeeds, fails for good, is the fourth, or is followed by a failed pause, and just that is returned. |
| Retry.RetryIterates | internal/agent/retry.go:29-45 | If each attempt does all or nothing, the effect runs between zero and four times, and at least once on success. |
| Retry.RetryExactlyOnce | internal/repository/pgretry.go:53-71 | If failed attempts do nothing, the effect runs exactly once on success and not at all on failure. |
| Retry.RetryEffects | internal/repository/pgretry.go:53-71 | If some attempts have the effect but report a failure, the effect runs once for each of these that ran and once for the success. |
| Postgres.PostgresRepo.Upsert | internal/repository/postgres.go:192-209 | The statement form of `ExecMetric`, one entry inside a transaction; what it amounts to is stated by `StoresAgree` and `CommitsExactlyWhen`. |
| Postgres.PostgresRepo.UpdateMetricsBatchOnce | internal/repository/postgres.go:164-213 | Rows and returned error after one transaction, under any faults: an error before commit leaves the rows alone. |
| Postgres.PostgresRepo.UpdateMetricsBatch | internal/repository/postgres.go:155-162 | An empty batch does nothing; any other runs the transaction up to four times, pausing between attempts. Also `internal/repository/pgretry.go:53-71`. |
| Postgres.StoresAgree | internal/repository/postgres.go:191-210 | Any transaction that reaches its commit holds exactly what the in-memory store would. |
| Postgres.CommitsExactlyWhen | internal/repository/postgres.go:191-210 | Without faults the commit is reached exactly when every entry is well formed, the name column takes every name, and no running counter total leaves BIGINT. Also `migrations/20260503072729_add_metrics_table.up.sql:7-11`. |
| Postgres.BatchAgreement | internal/repository/postgres.go:164-213 | On a validated batch: the in-memory result if all names are taken and all running totals fit; otherwise untouched rows and an error of the data that is not retried. Also `internal/repository/memory.go:91-110`. |
| Postgres.RetriedBatchExactlyOnce | internal/repository/pgretry.go:53-71 | Retrying applies the batch once on success and not at all on failure exactly when no attempt that ran lost its commit, or when repeating the batch cannot be seen because it changes no total (and, after a failure, changes nothing at all). Also `internal/repository/postgres.go:155-162`. |
| Postgres.RetriedBatchIterates | internal/repository/pgretry.go:53-71 | Under any faults the batch is applied once for the success reported and once for every lost commit, at most four times. |
| Postgres.RetriedTotals | internal/repository/pgretry.go:53-71 | Each of these applications adds the sum of its deltas to a counter, no total ever wrapping. |
| Postgres.AttemptErrors | internal/repository/postgres.go:165-212 | A failing attempt returns the first error among begin, both prepares, the first failing entry and commit, and before commit leaves the rows alone. |
| Postgres.AttemptsRun | internal/repository/pgretry.go:53-71 | Exactly the attempts that fail with a SQLSTATE of class 08 are tried again, at most four in all and only after a wait that works; the last attempt's result, or the failed wait's error, is returned. |
| Postgres.LostCommitCountsTwice | internal/repository/pgretry.go:53-71 | A commit applied but reported as a connection error doubles the counter. |
| Snapshot.RestoreOverlays | internal/repository/file_storage.go:137-152 | Restoring a listing of a store, in any order, lays its two maps over the current ones. |
| Snapshot.SaveRestoreInverse | internal/repository/file_storage.go:35-108 | With finite gauges, any listing encodes, decodes and restores into an empty repository as the same two maps; restoring again changes nothing. Also `internal/repository/file_storage.go:137-179`. |
| Snapshot.UnencodableExactlyWhen | internal/repository/file_storage.go:62-67 | A snapshot cannot be written exactly when some gauge is not finite. |
| FileStore.FileStorage.TakeSnapshot | internal/repository/file_storage.go:154-179 | Every gauge and counter once, in whatever order the maps are ranged over. |
| FileStore.FileStorage.Save | internal/repository/file_storage.go:35-81 | Under any single failure the final file is the old one or the whole new snapshot, and never anything else in between; failure keeps the old one and, if cleanup works, leaves no temporary file of its own. |
| FileStore.FileStorage.Restore | internal/repository/file_storage.go:84-108 | A missing or empty file restores nothing, one that cannot be opened, read or decoded is an error and restores nothing, any other is laid over the repository. |
| FileStore.SaveThenRestart | internal/repository/file_storage.go:35-108 | A fresh server restored after a successful `Save` holds what was saved. |
| Durability.AcknowledgedUpdatesSurvive | internal/repository/file_storage.go:35-108 | In every run whose saves do not disturb each other, saves that fail at any step or cannot be encoded included, a process crash at any file-system step restores, map by map, a content held at or after the newest acknowledged update; a power failure one held at or after the newest update acknowledged before the last flush of the directory. Also `internal/handler/handler.go:322-339`. |
| Durability.NoOverlapIsCalm | internal/repository/file_storage.go:35-81 | Saves that do not overlap do not disturb each other. |
| Durability.SecuredAfterFlush | internal/repository/file_storage.go:75-80 | What was acknowledged before a directory flush is secured from then on. |
| Durability.UpdateHeld | internal/handler/handler.go:322-326 | The content an update makes is the one before it with the batch's deltas added and its last gauge values set, and it stays in the history. |
| Http.SaysIs | internal/middleware/gzip.go:47-51 | Comparing trimmed, lower-cased text compares up to case and outer blanks. |
| Http.BeginsIs | internal/middleware/gzip.go:198-211 | Likewise for what a header value begins with. |
| Durability.InvStep | internal/repository/file_storage.go:35-81 | Every step keeps both files whole: the final name covers every completed save, and the temporary file is neither of them. |
| Durability.FinalRenamed | internal/repository/file_storage.go:75-78 | The rename installs a complete, synced document at least as new as every update whose save has completed, the renaming one included. |
| DurabilityLimits.SharingLosesAck | internal/repository/file_storage.go:45-46 | Once a calm run comes to a save creating the temporary file, even for a snapshot that cannot be encoded, while another has data there, the other can go on to acknowledge, and a crash leaves an undecodable file, or an empty one, which loses the update exactly if the repository was not empty, map by map, since. |
| DurabilityLimits.OvertakingLosesAck | internal/repository/file_storage.go:43-75 | Once a calm run comes to a save renaming while another holds a snapshot from before its update, the update can be acknowledged and the other then rename: a crash leaves the older content, and the update is lost exactly if the repository has not held just that content, map by map, since. |
| DurabilityLimits.OverlapLosesAck | internal/repository/file_storage.go:45-66 | A run in which saves share the temporary file and an acknowledged update is gone after a crash, whatever the second save holds, encodable or not. |
| DurabilityLimits.StaleSaveLosesAck | internal/repository/file_storage.go:43-75 | A run with whole files throughout in which an overtaken save renames last and an acknowledged update is gone. |
| DurabilityLimits.PowerFailureForgetsAck | internal/repository/file_storage.go:68-78 | Without a directory sync there is a run, saves not disturbing each other, whose acknowledged update is gone after a power failure. |
| Report.DecimalInjective | internal/model/gopsutil.go:14-16 | Decimal printing is injective. |
| Report.GopsutilGaugeNames | internal/model/gopsutil.go:19-26 | The two memory names followed by one name for each CPU index from zero. |
| Report.AllDistinct | internal/model/gopsutil.go:14-26 | For every CPU count, all ids of a report are pairwise distinct. Also `internal/model/gauge_names.go:9-37`. |
| Report.ReportAddsDelta | cmd/agent/reporter.go:106-111 | Applying a report adds its delta to PollCount, wrapped, and changes no other counter. |
| Report.ReportStoresSnapshot | cmd/agent/reporter.go:96-104 | Afterwards every reported gauge has its snapshot value, zero if the snapshot lacks it, and no other gauge changed. Also `internal/repository/memory.go:91-110`. |
| Report.ReportCarries | internal/model/gauge_names.go:9-37 | A report for n CPUs carries the fixed gauges, RandomValue, TotalMemory, FreeMemory and CPUutilization0 to n - 1, and no others. |
| Report.DecimalReads | internal/model/gopsutil.go:14-16 | A printed number consists of digits, reads back as the number, and has no leading zero. |
| Report.ReportAccepted | internal/agent/client.go:67-86 | Every report passes the server's validation and is well formed for both stores, and passes the agent's check exactly when all readings are finite. Also `internal/handler/handler.go:342-364`. |
| Agent.PostMetricsBatch | internal/agent/client.go:58-97 | Nothing is sent for an empty or invalid batch. Otherwise some one to four requests are sent, each but the last answered 500, 502, 503, 504 or by a transport error worth retrying; the post succeeds exactly if one of the first four is answered 200 and all before it are tried again; any other last answer is the error, and the server has applied just what these requests applied. Also `internal/agent/client.go:164-178`. |
| Agent.PostRuns | internal/agent/client.go:164-178 | Which requests are sent, what they leave on the server, and what the caller hears. Also `internal/agent/retry.go:29-45`. |
| Agent.AcknowledgedExactlyWhen | internal/agent/client.go:173-177 | The post succeeds exactly if some request is answered 200 and all before it are tried again. |
| Agent.PostIterates | internal/agent/client.go:164-178 | Whatever the network does, a post applies its batch some n times, n at most four and at least one on success. Also `internal/agent/retry.go:29-45`. |
| Agent.TimesCounter | internal/agent/retry.go:29-45 | Applying a batch n times adds the sum of a counter's deltas n times, wrapped. Also `internal/repository/memory.go:91-110`. |
| Agent.TimesGauge | internal/repository/memory.go:91-110 | Applying a batch again changes no gauge. |
| Agent.Agent.TakeReportSnapshot | cmd/agent/utils.go:34-49 | The pending count is taken out and left at zero; the gauges are copied and left alone. |
| Agent.Agent.PollOnce | cmd/agent/utils.go:51-67 | A poll overwrites its gauges and adds one to the pending count, wrapped. |
| Agent.Agent.ReportCycle | cmd/agent/utils.go:122-126 | Acknowledged, a cycle leaves nothing pending; failed, it puts the count back; the server's PollCount grew by the delta n times, n at most four and at least one if acknowledged, and if n is positive the server's reported gauges are those the agent held. |
| Delivery.PollConservation | cmd/agent/utils.go:96-129 | At every point of every run, server count + pending + in flight = polls + extra, where an acknowledged cycle adds at most three times its polls to extra and a failed one at most four; the int64 variables are these numbers wrapped. Also `internal/agent/retry.go:29-45`, `internal/handler/handler.go:322-339`. |
| Delivery.ExactExactlyWhen | cmd/agent/utils.go:96-129 | Between cycles the server's count is exact just when every non-empty batch was applied once if acknowledged and never if given up. |
| Delivery.NoPollLost | cmd/agent/utils.go:122-126 | Every counted poll is pending, in flight, or in an acknowledged batch that the server has applied. |
| Delivery.SnapshotFreshness | cmd/agent/utils.go:34-66 | A snapshot shows the gauges of a poll at least as recent as every poll counted in its delta. |
| Delivery.InvStep | cmd/agent/utils.go:34-129 | Every step keeps the accounting: each poll in exactly one place, the server's counter equal to its applications, gauges as new as the count. |
| Delivery.ReceivedCounts | internal/handler/handler.go:322-326 | Applying a cycle's batch adds just its polls to the server's PollCount. |
| Delivery.ServerShowsSnapshot | internal/handler/handler.go:322-326 | From the request applied last on, every reported gauge on the server is that of its cycle's snapshot. |
| Delivery.ExcessBound | internal/agent/retry.go:29-45 | A cycle never under-counts, over-counts at most threefold if acknowledged and fourfold if given up, and is exact just when applied once or never. |
| WorkerPool.OwnResult | cmd/agent/reporter.go:66-77 | For any number of workers and senders, a returned call got the outcome of posting its own batch. Also `cmd/agent/reporter.go:121-128`. |
| WorkerPool.NoWorkerBlocks | cmd/agent/reporter.go:75 | A worker with a result can always hand it over at once. Also `cmd/agent/reporter.go:124`. |
| WorkerPool.PostedAtMostOnce | cmd/agent/reporter.go:73-76 | No call's batch is posted twice. |
| WorkerPool.PostsLimited | cmd/agent/reporter.go:42-55 | By construction, there are as many workers as configured, or one if that is less than one, and posts under way never exceed them. |
| WorkerPool.CloseAnswersAll | cmd/agent/reporter.go:61-64 | When all workers are gone every call has its answer, and the queue is empty. |
| WorkerPool.DrainProgress | cmd/agent/reporter.go:61-64 | After Close every remaining worker has a step. |
| WorkerPool.DrainBounded | cmd/agent/reporter.go:61-64 | However a run goes on after Close, the workers make no more steps than the work left allows, so Close returns. |
| WorkerPool.InvStep | cmd/agent/reporter.go:66-77 | Every step keeps each job in one place, owed to a waiting call with an empty reply channel. Also `cmd/agent/reporter.go:121-128`. |
| Audit.AuditConservation | internal/audit/publisher.go:23-77 | At every point of every run notified = dropped + queued + in progress + completed, within the bounds four and two; completed events were told to every observer exactly once, each observer hearing the event itself, and no event more often. |
| Audit.AcceptedAre | internal/audit/publisher.go:48-54 | The accepted events are the notified ones that found fewer than four queued, in order; the others are the dropped ones. |
| Audit.InvStep | internal/audit/publisher.go:48-77 | Every step keeps each accepted event in one place and told as often as its progress says. |
| Audit.DropsOnlyWhenFull | internal/audit/publisher.go:48-54 | By construction, an event is dropped exactly when it is notified while the queue is full. |
| Audit.DrainedOnExit | internal/audit/publisher.go:57-65 | Once both workers have exited, every accepted event has itself reached every observer exactly once. |
| Audit.DrainProgress | internal/audit/publisher.go:61-65 | After Close some worker can move until both have exited. |
| Audit.DrainBounded | internal/audit/publisher.go:61-65 | A run of worker steps is no longer than the work left at its start. |
| Audit.Publisher.Notify | internal/audit/publisher.go:48-54 | Never blocks: with fewer than four queued the event itself is appended, otherwise the queue stays as it is; this is the machine's Notify step. |
| Audit.Publisher.NotifyObservers | internal/audit/publisher.go:67-77 | Every observer is told of the event, once. |
| Audit.Publisher.WorkOnce | internal/audit/publisher.go:61-65 | One turn of a worker's loop takes the oldest event, and every observer hears that event once. |
| Audit.Publisher.Drain | internal/audit/publisher.go:57-65 | After Close a worker left to itself empties the queue, and every accepted event has reached every observer once. |
| Crypto.FrameRoundTrip | internal/crypto/crypto.go:112-117 | For every wrapped key of 1 to 65535 bytes, nonce and ciphertext, the parse recovers what was laid out. Also `internal/crypto/crypto.go:126-157`. |
| Crypto.AcceptedFrameReencodes | internal/crypto/crypto.go:126-157 | Every accepted frame, from any bytes, re-encodes to the same bytes. |
| Crypto.Encrypt | internal/crypto/crypto.go:79-119 | Filling the buffer while advancing the offset lays out exactly the frame, or fails as specified. |
| Crypto.Decrypt | internal/crypto/crypto.go:122-164 | The checks in order; every slice is within bounds for every input. |
| Crypto.DecryptEncrypt | internal/crypto/crypto.go:79-164 | Under matching keys decryption undoes every encryption that succeeds. |
| Crypto.FrameLayout | internal/crypto/crypto.go:112-117 | The frame byte by byte: a big-endian two-byte length, the wrapped key, the nonce, the ciphertext. |
| Crypto.EncryptsExactlyWhen | internal/crypto/crypto.go:79-119 | Encryption succeeds exactly with a key that wraps the AES key into at most 65535 bytes. |
| Crypto.DecryptsExactlyWhen | internal/crypto/crypto.go:122-164 | Decryption yields a text exactly if the bytes are a frame whose key unwraps to 16, 24 or 32 bytes that open the rest to it. |
| Pipeline.PostGzippedJSON | internal/agent/client.go:133-162 | The statement form of `AgentRequest`: signed over the compressed body before encryption, marked as compressed or as encrypted; what it amounts to is stated by `DecryptStage` and `RequestRoundTrip`. |
| Pipeline.DecryptMiddleware | internal/crypto/middleware.go:14-45 | The statement form of `DecryptRequest`: only marked requests are touched, and only by a server with a key; what it amounts to is stated by `DecryptStage`. |
| Pipeline.VerifyRequestBodyHash | internal/handler/hashsha256.go:47-72 | Accepted exactly when no key or no signature is present, or the signature is that of the body or of its gzip. |
| Pipeline.SignatureVerifies | internal/agent/client.go:144-151 | The agent's signature verifies after decompression under an equal trimmed secret, and if either secret is blank. Also `internal/handler/hashsha256.go:47-72`. |
| Pipeline.UnsignedVerifies | internal/handler/hashsha256.go:47-56 | A request without a signature, and any request to a server without a secret, is accepted. |
| Pipeline.ForgedRefused | internal/handler/hashsha256.go:57-71 | With a secret and a signature, a request is accepted exactly if the signature decodes to the digest of its body or of its gzip. |
| Pipeline.RequestIs | internal/agent/client.go:133-162 | The headers and body of every request the agent sends, by name: signed over the compressed body with the trimmed secret or not at all, compressed or encrypted. |
| Pipeline.DecryptCases | internal/crypto/middleware.go:14-45 | How every request fares with the decrypting stage: passed on untouched, refused with 400, or passed on decrypted and marked gzip. |
| Pipeline.DecompressCases | internal/middleware/gzip.go:12-51 | How every declared encoding fares: none and identity pass, gzip is unpacked or refused with 400, any other is refused with 415. |
| Pipeline.SignedBodyIs | internal/handler/hashsha256.go:47-72 | If neither the body received nor its gzip collides with the signed bytes under the key, a request with the agent's signature is accepted exactly when its body is the signed JSON or its gzip. |
| Pipeline.DecryptStage | internal/agent/client.go:152-162 | Encrypted or not, the decryption stage passes on the compressed body, marked as gzip, with the signature kept. Also `internal/crypto/middleware.go:17-43`. |
| Pipeline.RequestRoundTrip | internal/agent/client.go:133-162 | For every body, encrypted or not and signed or not, with equal trimmed secrets or either blank, the handler sees exactly the agent's JSON and the signature check accepts it. Also `internal/crypto/middleware.go:14-45`, `internal/middleware/gzip.go:12-45`, `internal/handler/hashsha256.go:47-72`. |
| Handler.LowerTypes | internal/handler/handler.go:398-400 | In place, each type is lower-cased, as far as ASCII texts can tell, and nothing else changes. |
| Handler.NormalizedIs | internal/handler/handler.go:398-400 | A batch with types already in lower case, as the agent sends it, is left alone. |
| Handler.AcceptedExactlyWhen | internal/handler/handler.go:342-400 | A batch is valid after lower-casing exactly if every entry is acceptable with its type spelled in any case, and then every type reads `gauge` or `counter`. |
| Handler.BatchEndpoint.Update | internal/handler/handler.go:289-340 | Refused with 400 exactly when the signature, the JSON or the batch is bad, and then nothing changes; otherwise 500 exactly when the store fails, having applied the batch or not, or when persisting fails, from a failed step or a non-finite gauge, with the batch applied; 200 means applied and, with a saver, on disk; audit hears of 200 only, and then every id in order. |
| ResponseWriter.Serve | internal/middleware/gzip.go:72-170 | For all calls made with headers fixed from the first, followed by Close: one header, with the status of the first call or 200; the response has it exactly unless it is informational. JSON and HTML that is neither encoded nor a range goes out gzipped, labelled Content-Encoding gzip and Vary Accept-Encoding, without Content-Length and otherwise unchanged; anything else as it is. The body is the concatenated writes or their gzip, exactly unless the status allows none; the logged byte count is the wire's; a broken connection gets a prefix. Also `internal/logger/logger.go:34-57`. |
| ResponseWriter.CompressesExactlyWhen | internal/middleware/gzip.go:148-161 | The code compresses exactly these responses, whatever the case of and the blanks around header values. Also `internal/middleware/gzip.go:198-211`. |
| ResponseWriter.WritesAre | internal/middleware/gzip.go:93-117 | The body consists of the Write calls' bytes, in order. |
| ResponseWriter.GzipWriter.WriteHeader | internal/middleware/gzip.go:82-91 | Deferred and first-wins: the writer's state stays the one described for the calls so far. |
| ResponseWriter.GzipWriter.Write | internal/middleware/gzip.go:93-117 | Decides on compression, sends the header once, and passes on the body or feeds the compressor; the state stays the one described for the calls so far. |
| ResponseWriter.GzipWriter.Close | internal/middleware/gzip.go:119-133 | Sends a header still deferred, completes the gzip stream, and does nothing for a handler that made no call. |
| ResponseWriter.LoggingWriter.WriteHeader | internal/logger/logger.go:41-48 | Only the first status is recorded and sent on. |
| ResponseWriter.LoggingWriter.Write | internal/logger/logger.go:50-57 | An implicit 200 first; the count grows by what the connection took. |
| ResponseWriter.NeverTwice | internal/middleware/gzip.go:148-170 | Once compression is on, the headers keep it from being started again. |

## Left out

- HTTP sockets, routing, resty, zap, pgx wire traffic, signals, tickers, migrations: only their outcomes appear, as choices of the environment.
- RSA, AES-GCM, HMAC, gzip, base64 and JSON internals: abstract functions with the laws named above. Names are text, so ids that are not valid UTF-8, which JSON does not preserve, do not occur.
- The final flush, which does not restore its delta, and polls after it (`cmd/agent/utils.go:115-121`): the conservation results are about runs before it.
- A second `metricSender.Close`, which `runAgent` reaches, would close a closed channel: `WorkerPool` enables Close once and no send after it.
- Notify after Close in the audit publisher, and observers registered after the first event.
- A server that starts beside a file it does not restore, because restoring is switched off or the file is empty, and the save at shutdown, which no request waits for: durability is about runs that start from nothing or from a restored snapshot, at store interval 0.
- Mutex-protected methods are single steps; Go's memory model below that is not modelled.
- Delays between attempts: a failed wait is the parameter `pause`; lengths of time are not modelled. `isRetriableTransportErr` unwraps library error types; its answer is a boolean of the environment.
- Postgres.PostgresRepo.UpdateMetricsBatchOnce: SQL is reduced to the two upserts on committed rows, and one transaction's isolation from others is not modelled. Which names the column refuses is a parameter.
- Postgres `SetGauge`, `AddCounter` and the getters: single statements of the same form with the same retry loop; they would add easy members.
- Writers of PollCount other than the agent's reports, which a client of the update endpoints could be.
- The other update endpoints (path and single JSON), the HTML index, ping, response signing, and the service layer: they repeat the batch endpoint's order of apply, persist, acknowledge.
- Handler.LowerTypes: letters that are not ASCII and do not become ASCII are left alone; no accepted type contains one.
- A gzip stream that breaks after its header is refused while the body is read, with another text than one with a bad header; the model refuses both at once, with 400.
- `Accept-Encoding` negotiation, HEAD requests, `Flush` (the logging writer is not a Flusher), panics in a handler, and a Content-Length set by the handler that its body exceeds.
- ResponseWriter.Serve: assumes headers unchanged after the first call, because compression is decided afresh on each write until it is on, and a first status between 100 and 999, because net/http panics on any other.
- Random choice of RandomValue and the readings themselves: a poll writes an arbitrary sample; gopsutil polls are steps that write other keys.
- In the generator: walking files, parsing, `format.Source`, the file preamble, and the parsing of the comment marker, which is a boolean here. One package to a directory and no build constraints: the declarations are those that are compiled together.
- GeneratorCorrect.GeneratedResetCorrect: supposes that the package does not redeclare a predeclared type, `nil`, `false`, `new` or `clear`, whose meaning the emitted text takes for granted; fields that `fieldNames` does not yield (an embedded `*pkg.T` or instantiated generic type) are not reset.
- Hand-written `Reset` methods: any that obey `Custom.Lawful`, which lets them zero, truncate and empty but not set other values; one that sets a default is outside the model.
- Struct, channel, function and other types that go/format prints keep their text, the names it uses and whether it refers to an import; these come from the parser.
- A `nil` receiver of `Reset`, for which the emitted guard returns at once, and `Put(nil)`.
- Flags, configuration files, environment, build info, the staticlint analyzers.
