# BootHop verification

BootHop switches the next boot target of a machine that has Windows and Linux side by side. An
unprivileged GUI asks a privileged one-shot helper, and the helper reads and writes firmware variables and
a protected record of the registered target. This project models the parts of BootHop whose guarantees
hold over whole runs and across components, and proves those guarantees. `dafny verify dfyconfig.toml`
checks all of it.

How to read it: pure code is a function. Code that moves an offset, fills a buffer or updates fields is a
method, or a class with methods, and is proved equal to a function; the lemmas are about the functions.
Everything an outside party decides (the firmware, the file system, the helper's pipe, the clock, the
scheduler) is an argument chosen by the environment, so every theorem is about all its behaviours.

| file | what it holds |
|---|---|
| `Results`, `Bytes`, `Utf16`, `Model` | outcome types, little-endian words, UTF-16 and the core's values |
| `DevicePath`, `LoadOption` | the EFI parsers (UEFI Specification 2.10, sections 3.1.3, 10.3.1, 10.3.5.1 and 10.3.5.4) and printers for them |
| `Identity` | the canonical identity derived from an option |
| `Record` | hex digests, wire records and the versioned record file |
| `Flow`, `FlowSafety` | the switch transaction over an arbitrary platform, and what its traces and results mean |
| `JsonText`, `JsonScanner` | the hand-written scanner with duplicate-key rejection, and the grammar it accepts |
| `JsonGrammar` | the grammar of RFC 8259, sections 2 to 7, and which accepted texts conform to it |
| `Protocol` | request ids, frames, messages, exact JSON sizes, and the budgeted response |
| `Transport` | the GUI's report check, and core results across compaction |
| `Exchange` | the GUI's half of the protocol: byte budget, deadlines, classification |
| `Session` | the helper's one-shot sessions, and client, channel and helper together |
| `Controller` | the GUI state machine with its executor and channel |
| `EndToEnd` | core, helper, protocol, client and controller composed |
| `Registration` | Configure, the record file and a later Switch composed |
| `Sample` | concrete inputs at which general statements have their exceptions |
| `Store` | the Linux record store over a crashing file system |
| `Watchdog` | the deadline watchdog's two threads |
| `Audit` | the isolation audit's alias expansion and interprocedural summaries |
| `Enumeration` | the boot-entry enumerators of both systems |
| `Description` | the display form of descriptions |

What the environment is assumed to do:

- SHA-256 is any function whose value at the empty input is the published one.
- The JSON library is any `Codec` or `RecordCodec` with the laws in its `Lawful` predicate: reading back what
  it wrote, up to the nesting it supports, and exact text sizes. Frames, scanning, hex and words are concrete.
- `FlowSafety.ResidualSound` assumes truthful reads and rollback reports and no other writer of BootNext; a
  failing write may still have taken effect. `FlowSafety.TraceSafety` assumes nothing.
- The file system of `Store` reports absence for absent names only and shows content truthfully. Any call may
  fail, reads and writes may be short or over-report, and after a crash the record is any binding since
  the last directory sync, with arbitrary bytes where the file was not synchronised. A rename that fails
  is normally without effect; one that takes effect and still reports failure is covered too, and the
  statements say exactly where it differs.

Where documents and code differ, the model follows the code and states the exact condition:

- RFC 8259 has four whitespace characters, but the scanner uses `is_ascii_whitespace`, which also accepts a
  form feed. An accepted text conforms to the standard exactly when no byte of it is a form feed
  (`JsonGrammar.AcceptedConformsIff`; `JsonGrammar.FeedIsAccepted` is an accepted text that does not conform).
- An inspection whose response frame does not fit beside hello is answered as a resource error, so the
  controller shows a failure instead of the report; every other core result reaches it unchanged in meaning
  (`EndToEnd.CoreOutcomeReachesController`; `Samples.LongInspectionIsReplaced` is such an inspection).
- A successful inspection that started from a record of the host's own system is refused by the GUI's
  report check, and no other successful report is (`Transport.ReportsAreAccepted`;
  `Samples.WrongRecordHasNoVerdict` is such an inspection).
- A report with more than 256 stages is not shortened, so with enough stages even its compact form is
  replaced by a resource error (`Protocol.BudgetedExactly`, `Protocol.ManyStagesAreLost`). The core's
  results have at most eight stages (`Transport.RunsAreShallow`).

## Model

| member | source | states |
|---|---|---|
| DevicePaths.ParseDevicePathLoop | crates/core/src/device_path.rs:32-73 | the parsing loop over nodes and instances computes the parse function, errors included |
| DevicePaths.FirstPathLengthLoop | crates/core/src/device_path.rs:75-84 | the segmenting loop computes where the first End Entire node ends |
| DevicePaths.ParseNodeKind | crates/core/src/device_path.rs:131-145 | contents are refused for hard-drive and file-path nodes only, never for end or unknown nodes |
| DevicePaths.ParsePathIffPrints | crates/core/src/device_path.rs:32-197 | a byte string is accepted as a path exactly when it is that well-formed path's own print, with end nodes exactly at instance ends |
| DevicePaths.AcceptedPathIsFirstPath | crates/core/src/device_path.rs:32-84 | an accepted path is what the segmenter cuts off every byte string that starts with it |
| DevicePaths.AcceptedPathsArePrefixFree | crates/core/src/device_path.rs:32-84 | no accepted path is a proper prefix of another |
| DevicePaths.CutFailsOnlyOnContents | crates/core/src/load_option.rs:44-59 | on a slice cut by the segmenter, parsing fails exactly when some node's contents are unreadable |
| LoadOptions.ParseLoadOptionLoop | crates/core/src/load_option.rs:7-68 | the loops over description units and file paths compute the parse function, with its order of errors |
| LoadOptions.ReadDescription | crates/core/src/load_option.rs:18-28 | the units up to the first zero unit, and the offset after it |
| LoadOptions.ReadPaths | crates/core/src/load_option.rs:44-59 | the list is segmented and parsed path by path up to its end |
| LoadOptions.ParseOptionIffPrints | crates/core/src/load_option.rs:7-68 | parsing and printing undo each other in both directions, so description, path list and optional data partition the input |
| Identities.CanonicalFilePathLoop | crates/core/src/identity.rs:210-246 | the payload is rebuilt unit by unit and compared; the loop computes the canonical node or its refusal |
| Identities.CanonicalizeParsed | crates/core/src/identity.rs:13-119 | for parsed options the outcome is decided by the documented shape alone: the re-encoding checks and the closing validation never reject |
| Identities.IdentityKeepsPathList | crates/core/src/identity.rs:163-246 | an identity determines the option's file path list byte for byte |
| Identities.IdentityFaithful | crates/core/src/identity.rs:13-54 | two parsed options share an identity exactly when path lists, optional-data lengths and digests agree |
| Records.EncodeDigestLoop | crates/core/src/record.rs:419-427 | the loop writes the lower-case hex of all 32 bytes |
| Records.DecodeDigestLoop | crates/core/src/record.rs:429-441 | the loop reads 64 hex digits or refuses the text |
| Records.DigestIff | crates/core/src/record.rs:419-449 | a text is read as a digest exactly when it is that digest's own text |
| Records.WireIff | crates/core/src/record.rs:233-400 | a wire record is accepted as a record exactly when it is that record's own wire form and its identity is valid |
| Records.RecordRoundTrip | crates/core/src/record.rs:138-224 | a record that can be written is read back as itself through version check, marker preflight and typed decode |
| Flow.FindDuplicate | crates/core/src/flow.rs:43-46 | the set-based check finds a repeated id exactly when there is one |
| Flow.RunExecute | crates/core/src/flow.rs:27-228 | the transaction makes exactly the calls, in the order, and returns the result of the specification function |
| Flow.RunDispatch | crates/core/src/flow.rs:47-127 | the three requests after enumeration, with their own calls and results |
| Flow.RunSwitch | crates/core/src/flow.rs:128-228 | the BootNext protocol: two reads, write, readback, reboot |
| Flow.RunAssess | crates/core/src/flow.rs:168-223 | residual assessment and rollback after a rejected reboot |
| FlowSafety.TraceSafety | crates/core/src/flow.rs:27-228 | against any platform: at most one save, write, reboot and rollback, each only after the reads and matches that justify it |
| FlowSafety.ResidualSound | crates/core/src/error.rs:96-105 | an error that admits no residual left BootNext as it was on entry; Inspect and Configure leave it alone; a successful Switch left the target in it |
| JsonText.ScanStringSound | crates/protocol/src/lib.rs:781-808 | a string the scanner accepts is the print of a valid text of characters and escapes |
| JsonText.ScanStringPrinted | crates/protocol/src/lib.rs:781-808 | the print of a valid text is scanned as that text, up to its closing quote |
| JsonText.ScanNumberSound | crates/protocol/src/lib.rs:818-882 | a scanned number is the print of a number of the grammar |
| JsonText.ScanNumberPrinted | crates/protocol/src/lib.rs:818-882 | a printed number that nothing continues is scanned whole |
| JsonScanners.ScannerIff | crates/protocol/src/lib.rs:684-882 | a byte string is accepted exactly when it derives from the grammar, no object has two keys equal after unescaping, and nothing sits deeper than 256 |
| JsonScanners.PrintedIsAccepted | crates/protocol/src/lib.rs:684-882 | printing any such tree is accepted, and scanned as that very tree |
| JsonScanners.DerivationIsUnique | crates/protocol/src/lib.rs:684-882 | an accepted byte string has one derivation only |
| JsonGrammar.AcceptedConformsIff | crates/protocol/src/lib.rs:684-882 | an accepted byte string is a JSON text of RFC 8259 exactly when it contains no form feed |
| JsonGrammar.FeedIsAccepted | crates/protocol/src/lib.rs:701-710 | a form feed before null is accepted, and is no JSON text of the standard |
| JsonScanners.JsonScanner.Whitespace | crates/protocol/src/lib.rs:701-710 | the offset moves over exactly the whitespace ahead |
| JsonScanners.JsonScanner.Value | crates/protocol/src/lib.rs:711-727 | a value is scanned, or refused for depth or syntax, as the specification says, and the offset ends behind it |
| JsonScanners.JsonScanner.ReadMembers | crates/protocol/src/lib.rs:728-759 | the object loop with its set of keys agrees with the specification |
| JsonScanners.JsonScanner.ReadItems | crates/protocol/src/lib.rs:760-780 | the array loop agrees with the specification |
| JsonScanners.JsonScanner.ReadString | crates/protocol/src/lib.rs:781-808 | finds the closing quote, then has the library decode the slice |
| JsonScanners.JsonScanner.ReadNumber | crates/protocol/src/lib.rs:818-882 | the number loop agrees with the specification |
| JsonScanners.RunRejectDuplicateKeys | crates/protocol/src/lib.rs:684-693 | one value, then whitespace to the end |
| Protocol.GeneratedIdIff | crates/protocol/src/lib.rs:21-57 | a generated id is valid exactly when its bytes are not all zero |
| Protocol.EncodeCapped | crates/protocol/src/lib.rs:623-643 | the capped writer yields the frame of the concatenated pieces, or the limit error exactly when the frame would exceed it |
| Protocol.FrameIff | crates/protocol/src/lib.rs:623-662 | framing and unframing are inverse |
| Protocol.OnlyWholeFrames | crates/protocol/src/lib.rs:644-662 | every strict prefix of a frame is rejected as truncated and every strict extension is rejected |
| Protocol.RequestRoundTrip | crates/protocol/src/lib.rs:890-912 | an encoded request is decoded as itself, and no strict prefix of its frame is decoded |
| Protocol.HelloRoundTrip | crates/protocol/src/lib.rs:952-968 | hello is at most 68 bytes and is read back |
| Protocol.ResponseRoundTrip | crates/protocol/src/lib.rs:916-951 | a response is never read as another result or for another request, and shallow ones are read back |
| Protocol.BudgetedExactly | crates/protocol/src/lib.rs:977-1021 | the budgeted response is the frame of the result if it fits, else of its compact form, of a resource error or nothing, each exactly when the sizes call for it |
| Protocol.AnswerBesideHello | crates/protocol/src/lib.rs:977-1087 | beside hello the answer is the result if it fits and its compact form if not, unless a report has more than 256 stages |
| Protocol.ManyStagesAreLost | crates/protocol/src/lib.rs:1062-1087 | a report with as many stages as a frame has bytes is replaced by a resource error |
| Protocol.BudgetedKeepsStages | crates/protocol/src/lib.rs:977-1087 | beside hello there is always room, and stages are kept up to the first 256 |
| Transport.CompactionKeepsVerdict | crates/gui/src/controller.rs:465-515 | compaction does not change the GUI's verdict on a report with distinct candidate ids |
| Transport.ReportsAreAccepted | crates/gui/src/controller.rs:465-515 | every successful core report gets a verdict, never the changed-target one, except exactly an inspection that started from a record of another system than the opposite one |
| Samples.WrongRecordHasNoVerdict | crates/gui/src/controller.rs:465-515 | inspecting with a record of the host's own system succeeds, and the GUI refuses the report |
| Transport.VerdictsTellWhatHappened | crates/gui/src/controller.rs:465-515 | the verdict on a core report tells how the run ended: record saved, reboot accepted, or reboot outcome unknown |
| Transport.OppositeRecordsStay | crates/core/src/flow.rs:27-114 | a run that starts from a missing record or one of the opposite system saves and shows no other |
| Transport.RunsAreShallow | crates/core/src/flow.rs:27-243 | results have at most eight stages and one level of failure, when platform errors are plain |
| Transport.ResultsSurviveTransport | crates/protocol/src/lib.rs:977-1087 | every core result fits beside hello and is read back as itself or its compact form, with stages, cause and assessments intact |
| Exchange.Run | crates/gui/src/helper_client.rs:136-209 | the exchange loops send at most one frame and classify exactly as the specification function does |
| Exchange.AwaitHello | crates/gui/src/helper_client.rs:157-179 | the first loop computes the wait for hello, with every byte charged |
| Exchange.AwaitResponse | crates/gui/src/helper_client.rs:188-209 | the second loop computes the wait for the response |
| Exchange.HelloPhaseMeans | crates/gui/src/helper_client.rs:157-179 | a request is sent only after exactly one hello frame, with every byte so far charged |
| Exchange.HelloPhaseErrs | crates/gui/src/helper_client.rs:157-179 | a failure before that is classified as not sent |
| Exchange.DeliveryFrom | crates/gui/src/helper_client.rs:188-236 | after delivery a result is returned exactly when all bytes fit the budget and the whole stdout decodes for this request |
| Exchange.FragmentationIrrelevant | crates/gui/src/helper_client.rs:188-236 | fragmentation and stderr interleaving do not change what is delivered |
| Exchange.ResponsePhaseMeans | crates/gui/src/helper_client.rs:188-236 | a delivered result was decoded from the stdout since hello within 65536 bytes; any other outcome is unknown after send |
| Exchange.DeliveredIff | crates/gui/src/helper_client.rs:188-236 | after delivery a helper is believed exactly when it writes only data, in time and within the budget, exits with success, and its stdout decodes for this request |
| Session.RunServe | crates/helper/src/dispatch.rs:30-67 | the Linux session writes hello, reads once, runs the operation at most once and answers at most once, as specified |
| Session.RunServeWindows | crates/helper/src/dispatch.rs:99-142 | the Windows session with its guard taken before the platform and released after the response |
| Session.ServeMeans | crates/helper/src/dispatch.rs:30-67 | every session run operates at most once, on the decoded request, and its output is nothing, hello, or hello and one whole response |
| Session.ServeWindowsMeans | crates/helper/src/dispatch.rs:99-142 | the same on Windows, where a refused guard or platform answers without operating |
| Session.GuardIsHeld | crates/helper/src/dispatch.rs:129-142 | the operation guard is taken before the operation and released only after it and after the response |
| Session.NotSentMeansNotRun | crates/gui/src/helper_client.rs:136-209 | cancelled, launch-failed and before-send mean that no helper session started the operation |
| Session.DeliveredIsOwnFrame | crates/gui/src/helper_client.rs:177-209 | what the client accepts is what it reads in the helper's one response frame for this request, after the operation ran exactly once |
| Session.DeliveredIsOwnFrameWindows | crates/gui/src/helper_client.rs:177-209 | the same against the Windows session |
| Session.DeliveredMeansRunOnce | crates/helper/src/dispatch.rs:30-67 | a delivered result means the operation ran exactly once for this request; it is the operation's result if that fits beside hello and its compact form if not, up to 256 stages, and beyond them what the sizes call for |
| Session.DeliveredMeansRunOnceWindows | crates/helper/src/dispatch.rs:99-142 | the same for the Windows session, where a refused guard or platform is the result and nothing ran |
| Controllers.Controller.constructor | crates/gui/src/controller.rs:116-151 | the state the cache calls for, with nothing selected, confirmed or inspected |
| Controllers.Controller.Handle | crates/gui/src/controller.rs:264-322 | an intent is ignored, refused or submitted, with evidence latched first, as the step function says |
| Controllers.Controller.Submit | crates/gui/src/controller.rs:285-321 | unresolved evidence is latched, the selection cleared, and the request becomes a job or fails at once |
| Controllers.Controller.PollChannel | crates/gui/src/controller.rs:323-331 | one completion is taken from the channel and applied |
| Controllers.Controller.SelectTarget | crates/gui/src/controller.rs:206-217 | selection succeeds exactly when selecting is possible and the id is listed as supported |
| Controllers.Controller.ConfirmTarget | crates/gui/src/controller.rs:218-222 | confirming needs a selection |
| Controllers.Controller.SucceedWith | crates/gui/src/controller.rs:332-382 | what each verdict does to state, latches and candidates |
| Controllers.Controller.FailWith | crates/gui/src/controller.rs:383-445 | a failure clears the selection and falls back to the latched evidence |
| Controllers.Controller.LatchRecovery | crates/gui/src/controller.rs:446-450 | changed-target evidence is never overwritten by other evidence |
| Controllers.RootCauseLoop | crates/gui/src/controller.rs:531-536 | the loop reaches the innermost cause, which is no flow failure |
| Controllers.DomainState | crates/gui/src/controller.rs:537-563 | a domain error leads to failure, changed target or an inspect-only state, and to no other |
| Controllers.RunIsSound | crates/gui/src/controller.rs:92-452 | the invariant tying the fields to the history holds after any inputs |
| Controllers.SubmittedIffPermitted | crates/gui/src/controller.rs:264-299 | an intent is submitted exactly when no job is outstanding and the history permits it |
| Controllers.RunIsPermitted | crates/gui/src/controller.rs:173-190 | over every run, whatever was submitted was permitted by the history before it |
| Controllers.ChangedBlocksSwitch | crates/gui/src/controller.rs:332-450 | after a target-changed outcome no Switch is submitted until a Configure succeeds |
| Controllers.UnsettledAllowsOnlyInspect | crates/gui/src/controller.rs:173-190 | after an unknown, reboot-requested, unsupported-record or durability-unknown outcome only Inspect is submitted until one succeeds |
| Controllers.ConfigureProvenance | crates/gui/src/controller.rs:194-222 | a submitted Configure(id) follows a successful Inspect that lists id, then choosing id, then confirming, with no job in between |
| Controllers.WaitingIffOneJob | crates/gui/src/controller.rs:264-331 | busy exactly while one job is outstanding, never two, and confirmed implies selected |
| Controllers.MutationEvidenceBlocks | crates/gui/src/controller.rs:537-563 | a failure past validation reopens switching exactly for an explicit reboot rejection without latched evidence |
| EndToEnd.PlainErrorIsSentWhole | crates/protocol/src/lib.rs:977-1021 | a plain error always fits beside hello and is never replaced |
| EndToEnd.CompactMeansTheSame | crates/protocol/src/lib.rs:1026-1087 | the compact form of a staged core result leads the controller to the same state |
| EndToEnd.CoreOutcomeReachesController | crates/gui/src/controller.rs:332-445 | whatever the client accepts takes the controller to the state the core's own result calls for, exactly unless that is the report of an inspection whose frame does not fit beside hello, which is answered as a resource error |
| EndToEnd.CoreOutcomeReachesControllerWindows | crates/gui/src/controller.rs:332-445 | the same through the Windows session, where a refused guard or platform reaches the controller as the plain error it is |
| Samples.LongInspectionIsReplaced | crates/protocol/src/lib.rs:977-1021 | one entry with a long description makes an inspection too large, and a resource error is sent in its place |
| Samples.LongOptionIsHeld | crates/core/src/load_option.rs:7-68 | firmware can hold such an entry: it is what its own bytes parse to |
| EndToEnd.SeenMeansHappened | crates/gui/src/controller.rs:465-515 | the verdict on a report accepted across the channel tells how the core run ended |
| EndToEnd.SeenMeansHappenedWindows | crates/gui/src/controller.rs:465-515 | the same through the Windows session, where an accepted report also means that guard and platform were had |
| EndToEnd.ToldOfNext | crates/core/src/error.rs:96-105 | residual reports are sound across the channel: a told Switch report names what BootNext now holds, any other told report and every told domain error that admits no residual mean that BootNext is as it was |
| EndToEnd.ToldOfNextWindows | crates/core/src/error.rs:96-105 | the same through the Windows session, where behind a refused guard or platform nothing ran and what is told is an error |
| Registrations.ConfigureSaves | crates/core/src/flow.rs:95-113 | a successful Configure saves the live identity of the chosen entry, for the opposite system |
| Registrations.SwitchBeginsIff | crates/core/src/flow.rs:114-228 | with a loaded record the switch goes on exactly when the entry under its id still has its identity, and every write, rollback and reboot is for that id |
| Registrations.ConfiguredIsSwitchedTo | crates/core/src/flow.rs:27-228 | a Switch that reads the record a Configure saved goes on exactly when the configured entry still has the configured identity, so over the same inventory, and writes no other id |
| EndToEnd.InspectShowsChangeIff | crates/gui/src/controller.rs:537-563 | inspecting a registered target shows a changed target exactly when its live entry is gone or has another identity |
| EndToEnd.DurabilityIsShown | crates/core/src/flow.rs:105-111 | a save of unknown durability is shown as exactly that |
| Stores.Acquire | crates/platform/src/linux/store.rs:60-96 | the store is taken exactly over validated directories and lock file with a free lock, and busy exactly when the lock is held |
| Stores.LockedStore.Load | crates/platform/src/linux/store.rs:99-140 | a loaded state is what the visible record decodes to, under short reads; loading changes nothing |
| Stores.LockedStore.WriteAll | crates/platform/src/linux/store.rs:159-169 | short writes add up to exactly the record bytes, or the attempt fails with the record untouched |
| Stores.LockedStore.FillTemporary | crates/platform/src/linux/store.rs:153-172 | the temporary file is protected, whole and synchronised before it is published |
| Stores.LockedStore.FillAndPublish | crates/platform/src/linux/store.rs:153-176 | publishing replaces the record whole; otherwise the record is untouched |
| Stores.LockedStore.CleanupTemporary | crates/platform/src/linux/store.rs:190-209 | cleanup removes a name only when it leads to the run's own protected file, and does so when its calls succeed |
| Stores.LockedStore.Replace | crates/platform/src/linux/store.rs:144-184 | the whole replacement, with what each kind of result says about record, crash outcomes and other files |
| Stores.LockedStore.Save | crates/platform/src/linux/store.rs:141-185 | atomic at every step; from a settled record a crash at any step leaves the old record or the new one, whole; Ok is final; durability-unknown shows the new record; any other error leaves the old one, exactly unless a failing rename took effect, and when every call succeeds or every rename so fails which of the two it is |
| Stores.SaveThenLoad | crates/platform/src/linux/store.rs:99-185 | after a successful save the next load gives the saved target, unless a call fails |
| Stores.SaveTorn | crates/platform/src/linux/store.rs:170-185 | the exception exists: a rename that takes effect and fails makes a save report failure with the new record in place |
| Stores.PublishingAddsOneOutcome | crates/platform/src/linux/store.rs:170-176 | renaming a synchronised file adds exactly its content to what a crash may leave |
| Stores.UnsyncedPublishingTears | crates/platform/src/linux/store.rs:170-176 | without the file sync a crash could leave any bytes as the record |
| Stores.SyncedDirectoryIsFinal | crates/platform/src/linux/store.rs:181-183 | after the directory sync a crash leaves the visible record only |
| Watchdogs.Shared.Turn | crates/helper/src/windows/pipe.rs:608-643 | the worker's critical section as one transition of the shared fields |
| Watchdogs.Shared.Disarm | crates/helper/src/windows/pipe.rs:674-689 | the disarm's critical section as one transition, and who must run the hook |
| Watchdogs.HookAtMostOnce | crates/helper/src/windows/pipe.rs:568-722 | under every interleaving the hook runs at most once, and only once the deadline was reached |
| Watchdogs.RunDecidesIff | crates/helper/src/windows/pipe.rs:516-543 | over every run the watchdog has expired exactly when a thread took the lock, still armed, from the deadline on, and is disarmed exactly when a disarm took it before |
| Watchdogs.TimelyDisarmWins | crates/helper/src/windows/pipe.rs:516-543 | a disarm that reads the clock before the deadline while armed keeps the hook from ever running |
| Watchdogs.DisarmReturnsSettled | crates/helper/src/windows/pipe.rs:674-722 | a disarm returns, or unwinds from a panicking hook, with the worker joined and the hook run exactly once if the deadline was observed first, else never |
| Watchdogs.DisarmNeverHangs | crates/helper/src/windows/pipe.rs:690-715 | a started disarm or the worker can always go on, or the bounded wait ends the process |
| Watchdogs.DecidedDisarmProgresses | crates/helper/src/windows/pipe.rs:690-715 | every effective step brings a decided disarm nearer to its return |
| Watchdogs.AbortNeedsPatience | crates/helper/src/windows/pipe.rs:696-705 | over every run the process is ended only after a decided disarm waited its full patience, with the worker unfinished all the while |
| Audits.ResolveScopedPath | tools/isolation-audit/src/main.rs:774-800 | alias expansion computes the specification within the number of aliases plus one steps, cyclic aliases included |
| Audits.ResolutionEnds | tools/isolation-audit/src/main.rs:752-800 | expansion ends at a head that is no alias, or at one that leads back to itself |
| Audits.VisitGrows | tools/isolation-audit/src/main.rs:1104-1560 | the body visitor is monotone in the dangerous, tainted and boundary sets |
| Audits.CollectTainted | tools/isolation-audit/src/main.rs:370-391 | the loop returns the least set closed under the audit of return values |
| Audits.CollectParameterBoundaries | tools/isolation-audit/src/main.rs:393-414 | the single pass finds exactly the functions whose own bodies use a parameter at the boundary |
| Audits.FlagIgnoresBoundaries | tools/isolation-audit/src/main.rs:393-414 | what the pass has found so far does not influence what it finds |
| Audits.CollectDangerous | tools/isolation-audit/src/main.rs:416-459 | the loop returns the least set closed under body audit and trait defaults |
| Audits.InheritDefaults | tools/isolation-audit/src/main.rs:443-454 | one pass adds every inherited default of the set it started from, in whatever order it walks |
| Audits.InheritFrom | tools/isolation-audit/src/main.rs:444-453 | the walk over the known set adds exactly the methods one implementation inherits from it |
| Audits.Summarise | tools/isolation-audit/src/main.rs:126-133 | the three collections run in sequence give the least taint, the boundary functions over it, and the least danger over both |
| Audits.OrderIsIrrelevant | tools/isolation-audit/src/main.rs:126-133 | all three summaries depend on the program, not on the order its items are found in |
| Enumerations.TallyOrder | crates/platform/src/windows/firmware.rs:274-289 | the loop over two bit sets yields the deduplicated ids, one diagnostic a repeated id, and the set of referenced ids |
| Enumerations.DedupMeans | crates/platform/src/windows/firmware.rs:274-289 | deduplication keeps exactly the ids of the order, once each, by first occurrence |
| Enumerations.RepeatsMeans | crates/platform/src/linux/firmware.rs:179-190 | diagnostics name exactly the repeated ids, once each, by second occurrence |
| Enumerations.Firmware.ReadBounded | crates/platform/src/windows/firmware.rs:180-220 | buffers grow strictly up to one MiB, only successful reads are charged, and a faithful variable that fits is read whole |
| Enumerations.Firmware.ReadOptions | crates/platform/src/windows/firmware.rs:263-320 | an inventory is BootOrder without repeats, then BootCurrent if absent, each entry parsed from what the firmware gave under its own name, within one MiB |
| Enumerations.EnumeratedIsDistinct | crates/core/src/flow.rs:43-46 | the duplicate check cannot fire on a Windows inventory |
| Enumerations.BootNameIff | crates/platform/src/linux/firmware.rs:230-245 | a file name is taken for an entry exactly when it is that entry's name |
| Enumerations.BootIdLoop | crates/platform/src/linux/firmware.rs:230-245 | the digit loop computes the name's id |
| Enumerations.Efivars.ReadVariable | crates/platform/src/linux/firmware.rs:78-136 | a result is the whole of the file opened under the variable's name, of the size it had before, after and once more under that name |
| Enumerations.Efivars.ReadReferences | crates/platform/src/linux/firmware.rs:159-206 | enumeration goes on only when every referenced id is among the discovered names |
| Enumerations.Efivars.ReadOptions | crates/platform/src/linux/firmware.rs:151-228 | an inventory is exactly the discovered names by ascending id, each parsed from the whole of the file of its own name, with every referenced id, within one MiB |
| Enumerations.Discover | crates/platform/src/linux/firmware.rs:193-199 | an id is discovered exactly when its entry's name is in the directory |
| Enumerations.AscendingIsDistinct | crates/core/src/flow.rs:43-46 | the duplicate check cannot fire on a Linux inventory |
| Descriptions.SafeDescriptionLoop | crates/gui/src/cache.rs:19-36 | the loop with its early break computes the specification |
| Descriptions.DescriptionIsLongestFit | crates/gui/src/cache.rs:19-36 | the text is safe, at most 2048 UTF-8 bytes, and the longest such prefix of the cleaned input |
| Descriptions.StoredIsShown | crates/gui/src/cache.rs:38-42 | what is stored decodes to exactly the shown characters, so no surrogate pair is split |
| Descriptions.Idempotent | crates/gui/src/cache.rs:38-42 | sanitising twice changes nothing more |
| Descriptions.UnchangedIff | crates/gui/src/cache.rs:19-42 | a description is kept as it is exactly when it is well-formed, safe throughout and fits |

## Left out

- The JSON library's typed decode, canonical re-encoding and string decoding of whole messages: `Codec` and `RecordCodec` carry their laws; the DTO conversions are one-to-one mappings.
- SHA-256: any function with the published value at the empty input.
- Native calls (Win32, libc, rustix, zbus, slint) and everything behind the traits: they are the environment's answers.
- Exchange.Run: the boundary's answers are a finite list of ticks after which `next` times out, because the boundary enforces its deadlines; the Windows client's native error stages and `stop` are not modelled.
- Session.RunServe: the deadlines of receiving and sending are the peer's answers; peer authentication, SIDs, access control lists and privileges are not modelled.
- Transport.ResultsSurviveTransport: assumes, as the platforms provide, that no platform error is itself a flow failure.
- EndToEnd.CoreOutcomeReachesControllerWindows: assumes the same of the errors of a refused guard or platform.
- Controllers.Controller.Handle: diagnostic texts, status strings, the failure notice, the cache writes and the waker are display only and are not modelled; the executor reports each accepted job exactly once.
- Stores.LockedStore.Load: allocation failure (`try_reserve`) is not modelled, and the four change stamps of the metadata are one number.
- Stores.LockedStore.Save: no other process writes the directory while the lock is held; `Stores.LockedStore.CleanupTemporary` needs this only between its check and its unlink.
- Watchdogs.Shared.Turn: lock poisoning and failure to spawn the worker end the process at once and are not modelled; time is a counter the environment advances.
- Audits.VisitGrows: macro arguments are given already split from their tokens, and the path and name tables are parameters of `Rules`.
- Enumerations.Efivars.ReadOptions: the walk to the directory is an argument, allocation failure is not modelled, and the order is tallied by the method shared with Windows, whose extra list of ids is ignored.
- The parsers' checks for `usize` overflow cannot fire within the size limits and are not modelled.
- The Windows protected store, the GUI cache files, D-Bus probing, the Windows collector, rendering and real clocks.
