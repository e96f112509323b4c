# A verified model of the features runner

This project models, in Dafny 4.11, the parts of the cross-SDK features runner that decide what is
run, what was reported, what counts as a pass and what is stored, and proves what they promise.
`dafny verify dfyconfig.toml` checks all of it.

| modules | what they model |
|---|---|
| `Utf8`, `Base64`, `Protobuf`, `PayloadCodec` | the base64 payload codec, down to bytes |
| `Json`, `SummaryStream`, `SummaryHandshake`, `HarnessRun` | the JSONL summary: written by a harness, read line by line from a socket, handed over between goroutines |
| `Runs`, `Batches`, `Compaction`, `NexusEndpoints`, `BatchVerdict`, `DynamicConfig`, `BatchRunner`, `WholeRun` | arguments, run batches, in-place filtering, Nexus endpoints, verdicts, server settings, the life of a batch and of a whole run |
| `GreenRuns` | all of these together: what the success of an in-process Go run says |
| `ConnectProxy` | the HTTP CONNECT proxy under concurrent handlers |
| `UpdateWorkflow`, `UpdateReplay` | the update handlers under interleaving, crashes and replay |
| `HistoryStore`, `HistoryRuns` | history files and the check every run makes |
| `Semver`, `VersionSelection`, `FeatureDirs` | version precedence and what it selects; directory names |
| `WorkerLifecycle` | the worker and client of the Go harness runner |
| `Seqs` | splitting, joining and filtering |

Code that updates variables, arrays or fields is modelled by methods proved against specification
functions; the results are lemmas about those functions, or about every run of a transition relation.
What the outside world answers (servers, sockets, uuids, map orders) is a parameter, so each result
holds for every answer.

## What the proofs found

- Generating a history is documented to overwrite an existing one. With the history check on, the
  check also compares with the version about to be overwritten, so a stored history is only ever
  replaced by one equal to it after scrubbing (`HistoryRuns.CheckedRunsAgree`).
- A harness that succeeds and leaves its summary connection open blocks `runBatch` at its receive for
  as long as that stays open (`SummaryHandshake.ReceiveBlocksExactlyWhen`, `BlockIsReachable`).
- When a harness reports a summary and then fails, `runBatch` returns without receiving and the
  `summaryServer` goroutine waits on its send for ever
  (`SummaryHandshake.GoroutineLeaksExactlyWhen`, `LeakIsReachable`).
- A hard assertion of the Go harness panics and nothing recovers it, but the deferred writer still
  reports the feature, as passed (`HarnessRun.WrittenTells`). Only the crash of the process, not the
  summary, tells that it failed.
- A variant name may hold a colon. Its task queue then does, too, and a Go feature run in a separate
  process is told another queue and a Nexus endpoint nobody created (`Batches.ArgumentsCarry`,
  `ColonVariantIsAccepted`, `HarnessRun.SeparateProcessReportsTheSame`).
- The directory a Go feature is registered under equals the one found on disk exactly when the
  feature lies below `features/` and has no component named `features` itself
  (`FeatureDirs.DirsAgreeExactly`).
- A `--version` that is a path is below every version, so it skips exactly the Go features whose
  minimum version is a proper version (`VersionSelection.PathVersionSkips`).
- The harnesses of all languages read the same directory and queue from an argument exactly when it
  has one colon (no Nexus endpoint is passed and no name has a colon) and does not begin like an option of
  the PHP harness, such as `namespace=` (`Runs.HarnessesAgree`). Of a directory that does, PHP runs
  nothing (`Runs.PhpDropsDirs`).
- The proxy answers a client before it counts the tunnel, so a verdict taken in between may reject a
  batch whose clients did all they promised (`ConnectProxy.VerdictIsOnOpened`,
  `LateCountIsReachable`).
- Summary texts survive the JSONL channel exactly when they are UTF-8
  (`SummaryStream.StreamRoundTrip`).
- On success the summary listener is closed before the settings acquired after it are put back; only
  the deferred releases run in reverse order (`BatchRunner.BatchIsBracketed`, event `StopListening`).

## Model

| member | source | states |
|---|---|---|
| Base64.RoundTrip | features/data_converter/codec/feature.go:113 | decoding undoes encoding for byte strings of every length, all padding cases of section 4 of RFC 4648 |
| Base64.DigitsHoldBits | features/data_converter/codec/feature.go:113 | four digits, most significant first, hold the 24 bits of three bytes; the alphabet and the vectors of RFC 4648 stand beside it |
| Base64.DecodesExactly | features/data_converter/codec/feature.go:127 | decoding succeeds iff, line breaks removed, the text is whole groups of alphabet characters with at most two padding characters at the end |
| Base64.LineBreaksAreIgnored | features/data_converter/codec/feature.go:127 | a line break anywhere in the text makes no difference |
| Protobuf.VarintRoundTrip | features/data_converter/codec/feature.go:107 | a 64-bit varint followed by anything reads back with exactly its bytes consumed |
| Protobuf.UnmarshalMarshal | features/data_converter/codec/feature.go:132 | a payload marshalled with its metadata in any order unmarshals to itself, other fields it carries included |
| Protobuf.UnmarshalIsWellFormed | features/data_converter/codec/feature.go:132 | whatever bytes are read, what results has UTF-8 keys and keeps only well-formed fields, so it can be written |
| Protobuf.ConcatIsMerge | features/data_converter/codec/feature.go:132 | reading two messages one behind the other is reading the second into the first: later values count, fields may come in any order |
| Protobuf.GuideExamples | features/data_converter/codec/feature.go:107 | the bytes of a varint and of a small message, its map entry being a message of key 1 and value 2 |
| PayloadCodec.Encode | features/data_converter/codec/feature.go:104-117 | a fresh slice of encodings, or the input itself with the error of the first payload that fails |
| PayloadCodec.Decode | features/data_converter/codec/feature.go:119-138 | a fresh slice of decodings, or the input itself with the error of the first payload that fails |
| PayloadCodec.RoundTrip | features/data_converter/codec/feature.go:104-138 | for every list and every metadata order decoding what was encoded gives the list back, also for payloads already carrying my-encoding or other fields; encoding fails iff some key is not UTF-8 |
| PayloadCodec.CodecKeepsWellFormed | features/data_converter/codec/feature.go:104-138 | encoded payloads, and payloads decoded from encodable ones, can be encoded again |
| PayloadCodec.EncodedHave | features/data_converter/codec/feature.go:111-114 | an encoded payload has encoding my-encoding as its only metadata and the base64 of the marshalled payload as data |
| PayloadCodec.ForeignUntouched | features/data_converter/codec/feature.go:122-136 | payloads whose encoding is not my-encoding, or missing, keep their value, all others become the message in the base64 of their data, all keep their position; decoding fails iff one of the latter does not decode |
| Utf8.ValidIsEncoded | harness/go/cmd/run.go:259 | bytes are well-formed UTF-8 iff they are the encoding of some string |
| Json.StringRoundTrip | harness/go/cmd/run.go:259 | any byte string written as a JSON string reads back with its ill-formed bytes replaced and nothing else changed |
| Json.EntryRoundTrip | harness/go/cmd/run.go:250-260 | a written entry line, newline included, is parsed to the same entry, sanitized |
| Json.WrittenIs | harness/go/cmd/run.go:250-260 | the line of an entry, member by member, without whitespace |
| Json.SpacedEntryReads | cmd/run.go:839-843 | a line with any members in any order and any whitespace between its parts is read iff only whitespace follows it |
| Json.FieldsAre | cmd/run.go:839-843 | each field of what is read is the last member of its name, or empty; other members do not matter |
| Json.SurrogatesRead | cmd/run.go:839-843 | a pair of escaped surrogates is read as the one character it stands for |
| Json.EntryHasNoNewline | harness/go/cmd/run.go:258-261 | no raw newline occurs inside the line of an entry, whatever its texts |
| SummaryStream.Connection.ReadLine | cmd/run.go:829-831 | one line with its newline is taken off the front of what remains, however the stream is cut into reads; without a newline left the end is reported |
| SummaryStream.Serve | cmd/run.go:828-848 | at end of stream the decoded complete lines are sent, on a read error nothing |
| SummaryStream.StreamRoundTrip | harness/go/cmd/run.go:250-261 | the reader rebuilds the written sequence iff all texts are UTF-8 |
| SummaryStream.CutYieldsPrefix | cmd/run.go:830-847 | cutting any stream at any byte yields a prefix of its entries |
| SummaryHandshake.ReceiveBlocksExactlyWhen | cmd/run.go:584-585 | at the receive something can still happen, without help from the harness and without a fault, iff the goroutine is not reading from an accepted connection that a successful harness left open |
| SummaryHandshake.EveryRunEnds | cmd/run.go:485-593 | every interleaving is bounded and gets runBatch past its receive iff no accepted connection stays open after success; the channel is sent on or closed at most once in all; what is received is the decoding of all that was written, or nothing, by whether the connection was accepted and properly closed |
| SummaryHandshake.BlockIsReachable | cmd/run.go:584-585 | a run that ends with the receive blocked |
| SummaryHandshake.ReceivedIsReported | cmd/run.go:821-849 | a received summary is a prefix of what the harness reported, all of it if it wrote to the end |
| SummaryHandshake.GoroutineLeaksExactlyWhen | cmd/run.go:581-583 | when nothing moves any more the goroutine has ended, except iff runBatch bailed out and a whole summary had been read, or an accepted connection stays open |
| SummaryHandshake.LeakIsPermanent | cmd/run.go:848 | that offer is never taken in any continuation |
| SummaryHandshake.LeakIsReachable | cmd/run.go:581-583 | a run that ends in the leak |
| HarnessRun.Run | harness/go/cmd/run.go:223-316 | the entries written and the error returned for every registration, execution, panic and failure to open the summary |
| HarnessRun.WrittenTells | harness/go/cmd/run.go:238-316 | one entry per feature up to the first unregistered or panicking one, the error telling which or how many failed; an entry tells how its feature ended iff that did not panic |
| HarnessRun.SeparateProcessReportsTheSame | cmd/run.go:591-594 | a feature run in a separate process, which loses its variant, and one run in-process give the same summary after the rewrite, however features execute, iff directory and queue are free of colons |
| HarnessRun.FoundFeaturesAreRegistered | harness/go/cmd/run.go:238-248 | a feature found on disk is found among the registered ones |
| Runs.Validate | harness/go/cmd/run.go:352-364 | accepts iff variant names are non-empty and pairwise different; the error names a real offender |
| Runs.SummaryNameInjective | harness/go/cmd/run.go:95-100 | equal summary names of '#'-free directories come from equal directory and variant |
| Runs.ToArgs | harness/go/cmd/run.go:49-58 | one argument per feature, the endpoint only when there is one |
| Runs.FromArgs | harness/go/cmd/run.go:61-70 | appends the parse of every argument up to the first without a queue, and reports that one |
| Runs.ArgRoundTrip | harness/go/cmd/run.go:49-82 | an argument always parses and gives back directory, queue and endpoint iff directory and queue are free of colons, the endpoint being arbitrary |
| Runs.RunRoundTrip | harness/go/cmd/run.go:49-70 | the arguments of a run read back as the run, feature by feature, iff that holds for every feature |
| Runs.HarnessesAgree | harness/python/main.py:71 | Go, Java, C#, PHP, Ruby, Python and TypeScript take the same directory and queue from an argument iff it has exactly one colon and does not begin like an option of the PHP harness |
| Runs.ReadWithEndpoint | harness/ts/main.ts:70-71 | with an endpoint Go, Java and TypeScript leave it out of the queue, C#, PHP, Ruby and Python take it in |
| Runs.ReadWithoutColon | harness/ruby/runner.rb:26 | without a colon Go, Java and C# refuse, PHP passes over it, Ruby has no queue, Python an empty one and TypeScript the directory's name |
| Runs.PhpDropsDirs | harness/php/src/Input/Command.php:35-75 | of the arguments of features PHP takes those for options whose directory begins like one, and runs nothing for them |
| Runs.PhpDisagrees | harness/php/src/Input/Command.php:35-38 | namespace=a:b has one colon; Go reads a feature from it and PHP none |
| Batches.MakeRunBatches | cmd/run.go:183-221 | the default batch of all variant-free features first, then one batch per feature and variant in order, with their settings, proxy flag and own task queue identifiers |
| Batches.WorkIsConserved | cmd/run.go:183-221 | no work is lost, added, repeated or reordered and no batch is empty |
| Batches.WorkIs | cmd/run.go:183-215 | the work is each feature without variants and each feature at each of its variants, nothing else |
| Batches.WorkConcat | cmd/run.go:183-215 | work comes in the order of the features and of their variants |
| Batches.BatchesHave | cmd/run.go:185-214 | the settings of each batch are those of its variant, or none; it expects a proxy iff one of its features promises a positive number of connections of either kind |
| Batches.SummaryNamesAreDistinct | harness/go/cmd/run.go:352-364 | over all batches of validated configs with distinct '#'-free directories no two summary names coincide |
| Batches.TaskQueuesAreDistinct | cmd/run.go:223-228 | with different UUIDs no two features of a run, variants included, share a task queue |
| Batches.ArgumentsCarry | cmd/run.go:223-228 | the argument of a feature of a run tells the harness its directory and queue iff directory and variant name are free of colons |
| Batches.ColonVariantIsAccepted | harness/go/cmd/run.go:352-364 | a variant named a:b passes validation, and its argument names another queue and an endpoint that does not exist |
| Compaction.Compact | cmd/run.go:933-939 | filtering in place over the shared backing array gives the order-preserving filter and leaves the rest of the array alone |
| Compaction.FilterFeaturesForExternalServer | cmd/run.go:401-414 | for an external server without patterns exactly the variant-free features remain, otherwise all |
| Compaction.ExternalRunHasNoVariants | cmd/run.go:398-414 | what remains makes at most one batch and no variant |
| Compaction.Command.ApplyCapabilities | cmd/env.go:20-38 | the new environment is the old or the process's one without the variable plus the new value; the caller's slice is not touched |
| Compaction.OneCapabilitiesEntry | cmd/env.go:30-37 | exactly the last entry carries the variable, with the new value, and all others are kept |
| Compaction.ProcessEnv.SetCapabilities | cmd/env.go:42-55 | the variable is set unless empty, and the returned restore brings back what was there |
| NexusEndpoints.CreateNexusEndpoints | cmd/run.go:859-946 | for every sequence of server answers: all endpoints made and recorded for cleanup, or everything made is deleted and the client closed, Nexus features being dropped if forbidden and all others keeping every field |
| NexusEndpoints.Ledger.CleanUp | cmd/run.go:888-901 | one deletion attempt per endpoint in order, then close |
| NexusEndpoints.CleanUpSettles | cmd/run.go:888-901 | cleanup turns an open session into one where deletions equal creations and the client was dialled and closed once, at the ends |
| NexusEndpoints.SettledMeans | cmd/run.go:888-946 | a settled session dialled first and closed last, once each, and attempted a deletion of every endpoint as often as it was made |
| NexusEndpoints.EndpointsAreOwn | cmd/run.go:906-943 | with different UUIDs no two features have the same endpoint name |
| NexusEndpoints.EndpointTargetsOwnQueue | cmd/run.go:906-943 | the endpoint a Nexus feature carries was created with that feature's task queue as its target |
| NexusEndpoints.EndpointNamesAre | cmd/run.go:903-907 | endpoint names have no slash and no underscore and are otherwise the directory between prefix and identifier |
| BatchVerdict.RewriteVariantSummary | cmd/run.go:668-678 | in place, every name that is a feature's directory becomes that feature's summary name, all else unchanged |
| BatchVerdict.RewriteIsIdempotent | cmd/run.go:668-678 | rewriting any summary twice is rewriting it once iff no name that a variant gives is itself the directory of a feature with a variant |
| BatchVerdict.BatchesStayApart | cmd/run.go:201-215 | that is so for every batch of one feature and for '#'-free directories |
| BatchVerdict.BareOrQualified | cmd/run.go:591-594 | bare and qualified reports give the same summary, which differs from what was reported only in the feature's own names |
| BatchVerdict.ProxyVerdict | cmd/run.go:599-629 | accepts iff something failed or both counters equal the promised sums modulo 2^32 |
| BatchVerdict.OneFeatureVerdict | cmd/run.go:599-629 | one passed feature: the counters must be its two counts modulo 2^32; failed: anything; skipped: zero |
| BatchVerdict.ExpectedIsOrderFree | cmd/run.go:602-614 | promised sums and the presence of failures do not depend on the order of entries |
| BatchVerdict.ExpectedByFeature | cmd/run.go:602-614 | what the loop over entries adds up is what the features promise, each as often as it is reported passed |
| BatchVerdict.ExpectedOfPassed | cmd/run.go:602-614 | if no name is repeated, it is the sum over the features reported as passed |
| BatchVerdict.HandleHistory | cmd/run.go:680-732 | exactly the features with workflows, an entry and no skip are handled, all of them, and the failures counted |
| BatchVerdict.HandledAre | cmd/run.go:684-701 | a history is looked at iff the feature has workflows and its first entry, under its summary name, is not SKIPPED |
| DynamicConfig.DynamicConfigArgs | cmd/run.go:235-273 | the flags of the merged settings in the order of their keys, for every order in which maps are walked, or the first error |
| DynamicConfig.OverridesReplaceDefaults | cmd/run.go:250-252 | a key the variant overrides is set exactly once, to the variant's value; every other key has exactly its defaults, in order |
| DynamicConfig.SettingsFailExactly | cmd/run.go:235-272 | there are no arguments iff the file is bad or a default that is not overridden has no JSON text |
| DynamicConfig.OrderIsUnique | cmd/run.go:254-258 | the order of keys does not depend on how the map is walked |
| ConnectProxy.AuthOkExactly | harness/go/harness/httpproxy.go:66-75 | credentials are accepted iff the decoded bytes are proxy-user:proxy-pass |
| ConnectProxy.CheckMeans | harness/go/harness/httpproxy.go:56-75 | a request gets through iff it is a CONNECT without credentials or with proxy-user:proxy-pass |
| ConnectProxy.EncodedCredentialsAreAccepted | harness/go/harness/httpproxy.go:66-75 | a client that sends the credentials base64-encoded after the scheme is accepted |
| ConnectProxy.CountersCountTunnels | harness/go/harness/httpproxy.go:56-100 | in every interleaving, response and increment being two steps, the counters are the numbers of tunnels counted of their kind modulo 2^32, and tunnels opened as authenticated had the right credentials |
| ConnectProxy.CountersLagBehind | harness/go/harness/httpproxy.go:92-100 | a counter is the number of tunnels clients may use, modulo 2^32, iff no handler of its kind, modulo 2^32, is between response and increment |
| ConnectProxy.VerdictOfARun | cmd/run.go:616-622 | the verdict accepts iff something failed or the tunnels counted of either kind, each at the moment its counter is read, are those promised, modulo 2^32, in any entry order |
| ConnectProxy.VerdictIsOnOpened | cmd/run.go:616-622 | for all summaries and promises it is the verdict on the tunnels clients may use iff at both moments no handler of the kind, modulo 2^32, is between response and increment |
| ConnectProxy.LateCountIsReachable | harness/go/harness/httpproxy.go:92-100 | a run in which a client has the tunnel its feature promised and the verdict rejects |
| BatchRunner.Runner.Run | cmd/run.go:416-632 | the exact events of a batch for every outcome, settings and environment as before, endpoints settled, and success iff everything worked |
| BatchRunner.SuccessMeans | cmd/run.go:416-632 | a batch succeeds iff server, capabilities and endpoints work out, the harness succeeds, the proxy counted what was promised and every history looked at is in order |
| BatchRunner.EffectiveIs | cmd/run.go:585-594 | what counts is what was reported, bare directories of a variant batch getting the variant, or that all passed |
| BatchRunner.HistoriesAreHandledWhen | cmd/run.go:580-632 | histories are handled iff the harness ran without error and the proxy verdict is good |
| BatchRunner.Runner.RunAll | cmd/run.go:386-395 | batches run up to the first that fails, success iff all succeed, settings and environment as before |
| BatchRunner.BatchIsBracketed | cmd/run.go:443-505 | on every way out everything acquired is released once in reverse order, with endpoints deleted while the server is up |
| BatchRunner.BracketedMeans | cmd/run.go:443-505 | bracketed events release every resource as often as they acquire it, and between an acquisition and its release all others are balanced |
| BatchRunner.ServerSpansBatch | cmd/run.go:434-439 | the server is started before and stopped after everything else of its batch, once each |
| BatchRunner.RunIsBracketed | cmd/run.go:386-394 | the same over a whole run |
| BatchRunner.BatchStartsOnce | cmd/run.go:429-580 | a batch starts its server once, with its own dynamic config, and then runs its harness iff all before it works and features are left, once, on those features, with the runner's settings plus this batch's |
| BatchRunner.RunStartsEverything | cmd/run.go:386-394 | a successful run has started every batch's server with that batch's dynamic config and run its harness on the features left, each once, in order, all from the same settings and environment |
| WholeRun.Run | cmd/run.go:330-396 | refuses for exactly one of the reasons given, or runs the batches of the chosen features, succeeding iff all do, and then has handed out all their work; settings and environment as before but for the normalized language |
| WholeRun.RunsExactlyWhen | cmd/run.go:330-384 | something is run iff generating names one version and one feature without variants, a prepared directory is fit, and a feature matches that the server can run |
| WholeRun.EveryWorkIsRun | cmd/run.go:386-394 | a successful run has given harnesses every feature without variants and every feature at each variant, once and in order, but for Nexus features of batches whose endpoints were refused |
| WholeRun.VariantsAreServed | cmd/run.go:193-215 | in a successful run each feature at a variant has a server with exactly the variant's overrides over the defaults, a harness that sees the variant's capabilities, and a proxy iff it promises connections |
| WholeRun.OnlyNexusIsLost | cmd/run.go:933-941 | of work outside nexus/ nothing is ever lost |
| WholeRun.VerdictOfBatch | cmd/run.go:599-629 | in any batch of validated configs the proxy verdict compares the counters with what the features that passed promise |
| GreenRuns.ArrivesExactly | cmd/run.go:821-849 | over all interleavings, what can arrive of the entries a harness wrote to the end is exactly those entries |
| GreenRuns.HarnessEndsWell | harness/go/cmd/run.go:250-316 | a harness run without error executed all features, which passed or skipped, and wrote exactly that |
| GreenRuns.GreenBatch | cmd/run.go:580-632 | a successful batch of an in-process Go run: all features found and passed or skipped, tunnels counted as promised by those that passed, and their histories in agreement with what is stored |
| GreenRuns.BatchesAreFit | cmd/run.go:183-221 | what GreenBatch asks of the features holds in every batch of validated configs |
| GreenRuns.GreenRun | cmd/run.go:386-394 | a successful in-process Go run has executed every unit of work in order, each ending passed or skipped, but for Nexus features of batches whose endpoints were refused |
| UpdateWorkflow.Execute | features/update/worker_restart/feature.go:88-106 | the workflow function with its handler closure, driven by any inputs, reaches the state and issues the commands of the specified run, and these are consistent |
| UpdateWorkflow.RunIsConsistent | features/update/worker_restart/feature.go:88-106 | for any overlapping updates and failing activities, successes return the running sums in completion order, nobody is answered twice, and the result is the 64-bit sum of all successful addends |
| UpdateWorkflow.AnswersFollowActivities | features/update/worker_restart/feature.go:88-106 | from the inputs alone: before the signal an update is answered iff its activity is resolved, with the sum of the addends that succeeded before if it succeeded and with a failure if it failed; the workflow returns the sum of all that succeeded |
| UpdateWorkflow.RunIsFromInputs | features/update/validation_replay/feature.go:51-79 | for both handlers the state and all commands in order, as a function of the inputs' positions |
| UpdateReplay.ReplayIsRun | features/update/validation_replay/feature.go:50-55 | a replay that does not diverge is the sequential run of the recorded inputs, and recorded plus expected commands are exactly that run's commands |
| UpdateReplay.RecoveryIsExact | features/update/worker_restart/feature.go:61-65 | after any run with crashes a worker that lost the workflow can continue, from the very state a worker that kept it has, whatever the validator state |
| UpdateReplay.RecordedSumsAreRight | features/update/worker_restart/feature.go:67-75 | in every run with crashes the recorded answers and result are the running sums and the total |
| UpdateReplay.NoArrivalIsLost | features/update/worker_restart/feature.go:61-75 | whatever crashes happen, every signal and activity result that arrived is on the server once and in order |
| UpdateReplay.ValidatingReplayDiverges | features/update/validation_replay/feature.go:50-75 | replay without validators never diverges; with them it diverges iff an update was accepted and the validator has been called before |
| UpdateReplay.OneUpdatePerProcess | features/update/validation_replay/feature.go:61-69 | without a crash exactly one update is accepted if any reaches the worker, whatever tasks and caches do |
| HistoryStore.Load | harness/go/history/storage.go:23-47 | every file of the language is read under its version, the last one listed winning, and nothing else is; or the first file that is no history is reported |
| HistoryStore.LoadIsUnique | harness/go/history/storage.go:31-45 | what is loaded is determined by the listing |
| HistoryStore.MissingVersion | harness/go/history/storage.go:44 | a file history.LANG.json is read under the version history.LANG |
| HistoryStore.Directory.Store | harness/go/history/storage.go:50-64 | exactly the files of the given versions are written over the previous ones |
| HistoryStore.LanguagesDoNotOverlap | harness/go/history/storage.go:32-35 | a file name has a language's prefix iff it was written for that dot-free language |
| HistoryStore.LoadIsView | harness/go/history/storage.go:31-45 | on directories written by Store loading gives the same map for every listing order |
| HistoryStore.LoadAfterStore | harness/go/history/storage.go:31-62 | loading after storing gives the old map overridden by the new, and other languages are unaffected |
| HistoryRuns.HandleSingleHistory | cmd/run.go:734-812 | on any directory: fails to load iff a file of the language is no history; otherwise stores iff generating, fetched and unchecked or equal to every stored version, and the outcome tells which condition failed |
| HistoryRuns.StoresExactlyWhen | cmd/run.go:758-810 | the fetched history is stored under its version iff the run generates and skips the check or every stored history equals it after scrubbing; in every other case nothing changes |
| HistoryRuns.FirstHistoryIsStored | cmd/run.go:805-810 | a generating run on an empty directory leaves exactly its history |
| HistoryRuns.StepAgreesExactly | cmd/run.go:758-810 | storing keeps all versions equal iff the new history equals every other version, which a checked run ensures |
| HistoryRuns.CheckedRunsAgree | cmd/run.go:734-812 | over any sequence of checked runs all versions of every language stay equal after scrubbing and no stored history changes or disappears |
| HistoryRuns.HistoriesAgree | cmd/run.go:734-812 | in particular from an empty directory |
| Semver.TotalPreorder | harness/go/cmd/util.go:15 | version comparison is a total preorder on all strings, invalid ones included |
| Semver.Section11 | harness/go/cmd/util.go:15 | precedence as section 11 of Semantic Versioning 2.0.0 states it, over numbers, characters and first differences; build metadata does not matter and no version is below every version |
| Semver.TextParses | harness/go/cmd/util.go:15 | the text of every version, with any pre-release and build metadata, is read as that version |
| Semver.ShortTextsParse | harness/go/cmd/util.go:15 | vMAJOR and vMAJOR.MINOR stand for versions with zeros |
| Semver.IntsCompareAsNumbers | harness/go/cmd/util.go:15 | comparing digit strings by length and then by character is comparing the numbers |
| VersionSelection.ExactlyOneMetricsFile | features/telemetry/metrics/feature.go:1 | for every version string the build tags satisfy the constraint of exactly one metrics file |
| VersionSelection.TagsAre | harness/go/cmd/util.go:7-23 | a valid version has each tag iff it is of an earlier major or minor version or a pre-release of that release; other strings have none |
| VersionSelection.TagsOnlyShrink | harness/go/cmd/util.go:7-23 | a later version never gets a tag an earlier one lacks |
| VersionSelection.FeaturesOnlyGrow | cmd/run_feature.go:67-73 | a minimum version met at a version is met at every later one |
| VersionSelection.MinimumMeans | cmd/run_feature.go:67-73 | of proper versions exactly those below the minimum in that order skip a feature, and only for Go |
| VersionSelection.PathVersionSkips | cmd/run_feature.go:67-73 | with a version that is none, a Go feature is kept iff its minimum is absent or no version either |
| VersionSelection.ReplayStored | harness/go/harness/runner.go:246-257 | exactly the stored histories not later than the SDK are replayed, or the first failing one of them is reported |
| VersionSelection.ReplayedMeans | harness/go/harness/runner.go:246-250 | a stored proper version is replayed iff the SDK's is not below it |
| VersionSelection.ReplaysOnlyGrow | harness/go/harness/runner.go:246-257 | a history replayed at a version is replayed at every later one |
| FeatureDirs.LastFeaturesIndex | harness/go/harness/feature.go:238-249 | the nested scan finds the last features component, or -1 iff there is none |
| FeatureDirs.RegisteredDir | harness/go/harness/feature.go:227-253 | a feature is registered under what follows the last features component of its source directory, or not at all |
| FeatureDirs.DirsAgreeExactly | harness/go/harness/feature.go:227-253 | for every root the registered directory equals the one found on disk iff the feature is below features/ and has no features component |
| FeatureDirs.GlobFeatures | cmd/run_feature.go:21-79 | all features selected by patterns and minimum version in walk order, or the first error |
| FeatureDirs.VisitMeans | cmd/run_feature.go:39-75 | a feature is collected iff there are no patterns or one, with or without features/ in front, fits before a bad one is tried, its config loads and its minimum is met |
| FeatureDirs.GlobOnlyGrows | cmd/run_feature.go:39-74 | every feature collected at a version is collected at every later one, and errors do not depend on it |
| WorkerLifecycle.Runner.Start | harness/go/harness/runner.go:440-474 | a second worker is refused; a worker that fails to start is kept and will be stopped |
| WorkerLifecycle.Runner.AtMostOneUnstopped | harness/go/harness/runner.go:399-425 | at any time at most the current worker is not stopped |
| WorkerLifecycle.RunFeature | harness/go/cmd/run.go:318-332 | whatever the feature does, every worker created is stopped exactly once and the client closed exactly once although Close is deferred twice |

## Left out

- Process launching, SDK builds, docker, git, CLI flags, logging and diff output: no state worth an invariant.
- WholeRun.Run: whether a prepared directory exists, the files of features on disk and pattern matching are parameters; temporary directories and signals are left out.
- `assertNamespaceCapabilities`: its outcome is a parameter of a batch; modelling it would add easy members.
- DynamicConfig.DynamicConfigArgs: values are their JSON texts, or none; YAML and JSON themselves are not modelled, nor are the constraints of a default, which the code drops too.
- Temporal server and SDK internals: the rules used (tasks, buffered events, deduplication of updates, replay by command matching) are the transition relation of `UpdateReplay`.
- Scrubbing and equality of histories: a function and an equivalence relation, any of them; marshalling and unmarshalling histories is taken to lose nothing.
- Write errors while storing histories and I/O errors while reading a directory: not modelled.
- PayloadCodec.RoundTrip: fields other than metadata and data, external payload details among them, are kept as the bytes they were read as; their own structure is not modelled.
- Json.EntryRoundTrip: lines are objects with string members; member names are matched exactly, other JSON values count as lines that do not parse.
- SummaryHandshake.EveryRunEnds: a harness is taken to return at some time; a summary whose connection is not accepted in time is lost, as in the source.
- GreenRuns.GreenBatch: texts of entries are strings, sent as their UTF-8 bytes; texts that are no UTF-8 are covered by `SummaryStream.StreamRoundTrip` alone.
- Runs.HarnessesAgree: arguments that a command line parser takes for itself before the code that splits them is reached, such as those with a leading hyphen; PHP parses its own options and is modelled with them.
- A panic that reaches the runner's own process ends it after the deferred releases; that end is not modelled beyond `HarnessRun.Run`.
- The JSON text of capabilities and dynamic config values is opaque.
- FeatureDirs.GlobFeatures: pattern matching is a parameter.
- FeatureDirs.DirsAgreeExactly: features with a skip reason are registered without a directory and are outside the claim.
- UpdateReplay.RecordedSumsAreRight: updates have distinct identifiers, as the server's deduplication provides.
- HistoryStore.Load: the order of the listing is a parameter; the directory is listed once and does not change meanwhile.
- HistoryStore.LoadAfterStore: languages are dot-free and versions free of separators; a version that is a path names a file elsewhere.
- Polling loops and timeouts: their termination depends on timers.
