# Proved behaviour of LibreKDE

LibreKDE is the KDE front end of a smart-card agent: a credential window, a plasmoid, a `card:/` file tree, a
signing core, and the tool that keeps its translation catalogs in step with its sources. It holds no secrets and
talks to no card itself; what it has to get right is bookkeeping. Operations end late, twice over, or not at all;
cards go away in the middle; readers come back under other names; names in a listing are keys in the next request.
This project models that bookkeeping and proves what it keeps over every input and every run.

| file | what it is about |
|---|---|
| `AgentPeer.dfy`, `CredentialWindow.dfy`, `CredentialController.dfy` | the credential window: the agent client library as the window sees it, what each method does to the state, and the class whose methods are proved to do that |
| `CredentialProtocol.dfy`, `CredentialRuns.dfy`, `CredentialVerdicts.dfy`, `CredentialCapability.dfy` | its inductive invariant, what follows for whole runs, what a report, a call and a registry come to, and when its surface fits the card's capability |
| `FieldOrder.dfy`, `GroupHeadings.dfy`, `IdentityPanel.dfy` | the identity rows, from the delivered fields to the summary and the headed list |
| `SignJob.dfy`, `SignSurfaces.dfy`, `CardSelection.dfy` | one signature, the sign state of every reader, and the choice of a card |
| `CardReads.dfy`, `CardReader.dfy` | the plasmoid's reads of the shown card |
| `PhotoSlots.dfy`, `PhotoWidgets.dfy` | the photo store the widgets share, and all of them running interleaved over it |
| `ReaderNames.dfy`, `ReaderChoice.dfy` | readers told apart by name, and which one a widget shows |
| `CertFolders.dfy`, `CardTree.dfy`, `Pem.dfy` | the `card:/` tree: names, folders, and the bytes below them |
| `PoCatalog.dfy`, `PoRoundTrip.dfy` | the catalog parser |
| `Wrappers.dfy`, `Text.dfy`, `Decimal.dfy` | optional values, stripping and splitting, numerals |

The state machines are written twice: as functions of the whole state, about which the lemmas are proved, and as
classes with the source's own fields, every method of which is proved to leave behind the state its function gives,
and every event of which to keep the invariant.
Qt's guarded pointers are optional values that become `None` when what they point to is deleted. A signal that
can still reach a slot is an operation that is alive and in that slot's set of connections.

What the client library is relied on for is stated once in each model. A card object sits in one reader, a removal
ends the operations of the cards it takes away and no others, then deletes those cards, and only then is signalled
(`CredentialProtocol.Allowed`, after components/credentials/src/CredentialController.cpp:162-164 and
shared/signing/SignJob.cpp:75-84); a read in progress on a card that goes away has ended before the card is deleted
(`CardReads.Allowed`). No two widgets have one photo slot. A removal and its signal are one event. Within it the window may still list the credentials of the dying
card; the operation goes with the card.

Four of the results are about promises the code keeps only in part; each gives the input and the exact condition.

- Whole identity rows are conserved if and only if no row of the same identity stands ahead of the first row with text
  under a curated key (`IdentityPanel.RowsConservedIff`; `RepeatedIdentityLosesARow` is an input that loses one).
- An awaited card is announced except when two readers share the bound name and the first is the empty one
  (`ReaderChoice.AwaitedIsDetected`; `TwinUnannounced`).
- The published sign surfaces stay current except through the chooser's silent pick of a named certificate for the
  displayed reader, whose entry speaks for the bound card (`SignSurfaces.PublishedCurrentIff`; `PublishedBehind`).
- The header of the controller has a card without PIN management shown as not manageable
  (components/credentials/src/CredentialController.h:45, 95). That holds throughout a run if and only if no verb is
  called on such a card, no verb that outlived the capability ends, and no loss comes in unannounced or deferred behind
  a running verb (`CredentialCapability.ReachablePromise`). `CredentialCapability.PromiseBroken` is a run of six events
  after which the window rests on the rows of a card it cannot manage. The comment at
  components/credentials/src/CredentialController.cpp:401 holds as it stands: Working implies a verb and Loading a
  listing (`CredentialProtocol.StateOk`). Its converse for verbs fails on an announced capability loss and on nothing
  else (`CredentialCapability.WorkingRunIff`).

## Model

| member | source | states |
|---|---|---|
| AgentPeer.ScanForCard | shared/agentclient/Readers.cpp:10-18 | the scan returns the first reader, in roster order, that holds a card, and nothing only when none does |
| CredentialController.Controller.constructor | components/credentials/src/CredentialController.cpp:43-59 | a new window has nothing bound, listed or running, and has asked the agent for nothing |
| CredentialController.Controller.ResetListState | components/credentials/src/CredentialController.cpp:330-345 | a running listing is disconnected and cancelled, and every list latch is released |
| CredentialController.Controller.DetachMutationOp | components/credentials/src/CredentialController.cpp:380-392 | a running verb is disconnected and cancelled, and its cancel flag and attribution forgotten |
| CredentialController.Controller.Bind | components/credentials/src/CredentialController.cpp:347-378 | only a different card, or none, drops what runs; a card supersedes a removal notice, none does not |
| CredentialController.Controller.StartListCredentials | components/credentials/src/CredentialController.cpp:229-284 | at most one listing is minted, never beside a verb, a listing or a settled list, and without Loading under a held result |
| CredentialController.Controller.ClassifyCard | components/credentials/src/CredentialController.cpp:197-227 | no card, a card without PIN management, and a manageable card end in their three surfaces |
| CredentialController.Controller.RefreshNow | components/credentials/src/CredentialController.cpp:144-195 | an unreachable agent unbinds, a running verb defers everything, and a stale binding falls back without being forgotten |
| CredentialController.Controller.BindTo | components/credentials/src/CredentialController.cpp:84-113 | a re-target away from the resolved reader drops the verb and the list state before it refreshes |
| CredentialController.Controller.ListFinished | components/credentials/src/CredentialController.cpp:286-328 | rows settle the list, a cancelled failure latches it, and a transient one leaves it to be fetched again |
| CredentialController.Controller.MutationDone | components/credentials/src/CredentialController.cpp:576-685 | the whole verdict on a finished verb: banner, colour, removal notice and the listing owed |
| CredentialController.Controller.Refused | components/credentials/src/CredentialController.cpp:687-752 | each named refusal is neutral, and lists again or not by its name |
| CredentialController.Controller.Relist | components/credentials/src/CredentialController.cpp:754-764 | the listing after a verb replaces any older one and runs under the held result |
| CredentialController.Controller.CancelInFlight | components/credentials/src/CredentialController.cpp:394-420 | a cancel is remembered for exactly the operations that run, before the agent is asked |
| CredentialController.Controller.AdoptMutation | components/credentials/src/CredentialController.cpp:536-574 | a verb enters Working, drops a listing still under way, and clears the removal notice |
| CredentialController.Controller.CallVerb | components/credentials/src/CredentialController.cpp:435-534 | a verb without a card or beside another does nothing; else it mints its own request for its own credential |
| CredentialController.Controller.Terminate | components/credentials/src/CredentialController.cpp:277-283 | an operation's end runs the slot connected to it and no other |
| CredentialController.Controller.ChangeRegistry | components/credentials/src/CredentialController.cpp:63-71 | a registry change is the sweep, the deletion of cards and the refresh, in that order |
| CredentialController.Controller.ChangeCapabilities | components/credentials/src/CredentialController.cpp:374-376 | only the bound card's capability change re-classifies |
| CredentialProtocol.InitialInv | components/credentials/src/CredentialController.cpp:43-59 | the invariant holds before the first event |
| CredentialProtocol.ClassifyInv | components/credentials/src/CredentialController.cpp:197-284 | classification restores the invariant from a fresh binding as well as from a settled one |
| CredentialProtocol.RefreshInv | components/credentials/src/CredentialController.cpp:144-195 | a refresh restores the invariant even when the bound card has just been deleted under the window |
| CredentialProtocol.BindReaderInv | components/credentials/src/CredentialController.cpp:84-113 | an explicit re-bind keeps the invariant, with a verb running or not |
| CredentialProtocol.DeliverInv | components/credentials/src/CredentialController.cpp:286-328 | the end of any operation, tracked or not, with any report, keeps the invariant |
| CredentialProtocol.MutationDoneInv | components/credentials/src/CredentialController.cpp:576-764 | whatever a verb reports, its end leaves one of the states the invariant allows |
| CredentialProtocol.RunVerbInv | components/credentials/src/CredentialController.cpp:435-574 | a verb called in any state keeps the invariant, also on top of a listing |
| CredentialProtocol.ReachableInv | components/credentials/src/CredentialController.cpp:144-764 | in every reachable state: never a listing beside a verb; connected live operations are the tracked ones, on the bound card; nothing is let go of without a cancel; each state and latch implies the operation behind it; Ready and Empty show the bound card's own list |
| CredentialRuns.DetachedOpIsInert | components/credentials/src/CredentialController.cpp:330-392 | the end of an operation that is not tracked changes nothing, though the slots never compare operations |
| CredentialRuns.DetachedForGood | components/credentials/src/CredentialController.cpp:347-392 | an operation once let go of is never tracked again and stays without effect in every run |
| CredentialRuns.RegistryChangeDeferred | components/credentials/src/CredentialController.cpp:156-168 | while a verb runs, a registry change that spares its card moves neither binding, state nor rows |
| CredentialRuns.VerbPinsBinding | components/credentials/src/CredentialController.cpp:84-168 | a verb survives an event if and only if the event is not its own end, the loss of its card or the agent, or a re-target off its reader |
| CredentialRuns.VerbPinsRun | components/credentials/src/CredentialController.cpp:156-168 | over any run of other events the same verb runs on the same card and nothing is minted |
| CredentialRuns.RetargetLeavesWorking | components/credentials/src/CredentialController.cpp:96-112 | a re-target cancels the verb and always leaves Working, also when it resolves to the same card |
| CredentialRuns.LostVerb | components/credentials/src/CredentialController.cpp:148-168 | a verb never outlives its card or the agent |
| CredentialRuns.MutationDoneMints | components/credentials/src/CredentialController.cpp:599-764 | the end of a verb lists exactly once, except for a removed card, a rate limit or an ambiguous request |
| CredentialRuns.TerminalsQuiesce | components/credentials/src/CredentialController.cpp:286-328 | each end of a tracked operation brings the window strictly closer to idle, and the end of a listing mints nothing |
| CredentialRuns.LatchStep | components/credentials/src/CredentialController.cpp:248-255 | a settled list stays settled if and only if the event neither rebinds, starts a verb nor loses the capability, and then nothing is minted and nothing shown moves |
| CredentialRuns.CancelledReadNeverReprompts | components/credentials/src/CredentialController.cpp:316-326 | after a user's cancel, anything at all, and any end of that listing, no run that stays on the card lists again |
| CredentialRuns.CancelRunKnown | components/credentials/src/CredentialController.cpp:403-419 | a cancel is known for as long as its operation is tracked, through every event |
| CredentialRuns.CancelIsNeverRed | components/credentials/src/CredentialController.cpp:586-639 | a cancelled verb never ends in an error banner, whatever the agent reports, and a named refusal never does |
| CredentialVerdicts.VerbVerdict | components/credentials/src/CredentialController.cpp:594-631 | the banner is red if and only if the agent did not refuse by name, nobody cancelled it, neither in the window nor at the agent's prompt (a cancellation that reports a pulled card or a lost agent is nobody's), and the outcome is neither done nor dismissed |
| CredentialVerdicts.VerbMessage | components/credentials/src/CredentialController.cpp:599-662 | the banner's text in each case of the report: the refusal, silence, the outcome with the credential presented and the tries left, the removal, or the failure |
| CredentialVerdicts.VerbAftermath | components/credentials/src/CredentialController.cpp:664-764 | a verb ends on its result; a pull leaves its explanation as the notice and lists nothing, a rate limit and an ambiguous request list nothing, any other end lists once |
| CredentialVerdicts.ListVerdict | components/credentials/src/CredentialController.cpp:286-328 | rows that came are shown; a listing without them clears them and is latched if and only if it was cancelled, by the window or at the prompt |
| CredentialVerdicts.VerbAsks | components/credentials/src/CredentialController.cpp:424-574 | a change asks for a change, an activation for an activation with the signing key exactly when the first row of that id has it pending, the key alone for the key, an unblock for an unblock; and each notes the kind of that row, the signing PIN or the PUK |
| CredentialVerdicts.BannerNamesCredential | components/credentials/src/CredentialController.cpp:424-433 | whatever becomes of the rows since, the banner names the kind of the first row of that id at the call, the signing PIN, or the PUK |
| CredentialVerdicts.CancelReaches | components/credentials/src/CredentialController.cpp:394-420 | a cancel reaches the agent for exactly the operations the window runs, and is remembered for exactly those |
| CredentialVerdicts.RefreshBinds | components/credentials/src/CredentialController.cpp:144-195 | a refresh that is not deferred binds the card of the first reader of the bound id while there is one, else of the first reader that holds a card, and keeps the binding |
| CredentialVerdicts.ReaderBoundBinds | components/credentials/src/CredentialController.cpp:84-113 | an explicit binding is remembered and, off the resolved reader, takes effect at once though a verb runs |
| CredentialVerdicts.RefreshUnbinds | components/credentials/src/CredentialController.cpp:144-195 | with no such reader, or no agent, nothing is bound and the binding is still remembered |
| CredentialVerdicts.ClassifyLists | components/credentials/src/CredentialController.cpp:197-284 | classification lists exactly a manageable card with nothing running and nothing settled |
| CredentialRuns.RunCharge | components/credentials/src/CredentialController.cpp:229-764 | along a run, operations minted plus the listing a verb owes grow by at most two for a verb and one for each event that re-classifies |
| CredentialRuns.MintedBound | components/credentials/src/CredentialController.cpp:229-764 | so a whole run mints at most that many operations |
| CredentialRuns.PulledCardExplained | components/credentials/src/CredentialController.cpp:664-675 | a card pulled in the middle of a verb is not listed, and the removal is explained where it leaves no card |
| CredentialRuns.NoticeStays | components/credentials/src/CredentialController.cpp:347-378 | while no card is bound no event changes the notice |
| CredentialRuns.PulledCardStaysExplained | components/credentials/src/CredentialController.cpp:664-675 | over any run without a card the removal stays explained, and the next event clears it if and only if it binds one |
| CredentialCapability.WorkingIff | components/credentials/src/CredentialController.cpp:197-247 | of the events a verb survives only the announced loss of the capability takes it off Working, and none brings it back |
| CredentialCapability.WorkingRunIff | components/credentials/src/CredentialController.cpp:197-247 | at the end of any run it survives, a verb is on Working if and only if no event of the run announced that loss |
| CredentialCapability.PromiseKeptIff | components/credentials/src/CredentialController.h:39-49 | from a state that keeps it, an event keeps "no PIN management, not manageable" if and only if it is none of four named ones |
| CredentialCapability.ReachablePromise | components/credentials/src/CredentialController.h:39-49 | every state of a run from the start keeps it if and only if the run has none of the four |
| CredentialCapability.CapabilityLossHidesVerb | components/credentials/src/CredentialController.cpp:205-212 | a capability loss hides a running verb, its end lists the unmanageable card, and the listing's end shows the rows |
| CredentialCapability.PromiseBroken | components/credentials/src/CredentialController.cpp:197-284 | a run of six events from the start ends on the rows of an unmanageable card |
| FieldOrder.StableSortSorts | components/plasmoid/src/SmartCardHandler.cpp:1035-1040 | the sort meets the contract of a stable sort by declared rank |
| FieldOrder.RankIs | components/plasmoid/src/SmartCardHandler.cpp:1036-1040 | a declared field ranks by its first place in the declared order, an undeclared one behind them all |
| FieldOrder.StableSortUnique | components/plasmoid/src/SmartCardHandler.cpp:1039-1040 | any two lists meeting that contract are equal |
| FieldOrder.SlotsAre | components/plasmoid/src/SmartCardHandler.cpp:1019-1022 | a group's slots are all its indices, each once and ascending |
| FieldOrder.CollectSlots | components/plasmoid/src/SmartCardHandler.cpp:1019-1022 | one pass over the rows collects every group's slots |
| FieldOrder.WrittenGroups | components/plasmoid/src/SmartCardHandler.cpp:1041-1043 | writing a group back into its slots changes that group's reading and no other's |
| FieldOrder.SortGroup | components/plasmoid/src/SmartCardHandler.cpp:1029-1043 | sorting one group in place sorts it, leaves every other group's reading alone and moves no group key |
| FieldOrder.ApplyFieldOrder | components/plasmoid/src/SmartCardHandler.cpp:1009-1046 | every slot keeps its group and every group is the stable sort of itself by its declared order |
| FieldOrder.OrderedMeans | components/plasmoid/src/SmartCardHandler.cpp:1024-1044 | in every group the declared fields come first, by their first places in the declared order; the undeclared rows follow in the order delivered, and so do the rows of any one declared field |
| FieldOrder.OrderedUnique | components/plasmoid/src/SmartCardHandler.cpp:1024-1044 | that settles the result, so the order a hash visits the groups in cannot show |
| FieldOrder.OrderedPermutes | components/plasmoid/src/SmartCardHandler.cpp:1009-1046 | no row is lost or doubled |
| GroupHeadings.CollectGroups | components/plasmoid/src/SmartCardHandler.cpp:1054-1062 | groups are collected by identity, in first-appearance order |
| GroupHeadings.FirstKeysOrder | components/plasmoid/src/SmartCardHandler.cpp:1054-1062 | of two groups the one listed earlier has a row ahead of every row of the other |
| GroupHeadings.ApplyGroupHeadings | components/plasmoid/src/SmartCardHandler.cpp:1048-1079 | the list is its groups in first-appearance order, each whole |
| GroupHeadings.HeadingsPromise | components/plasmoid/src/SmartCardHandler.cpp:1048-1079 | groups stand together, in their old order, hold the rows they held, and are headed on their first row only |
| GroupHeadings.HeadingsIdempotent | components/plasmoid/src/SmartCardHandler.cpp:1048-1079 | a second pass changes nothing |
| GroupHeadings.HeadingsConserve | components/plasmoid/src/SmartCardHandler.cpp:1064-1077 | no row is lost or doubled |
| IdentityPanel.CurateIdentitySummary | components/plasmoid/src/SmartCardHandler.cpp:1135-1248 | the summary is the first row with text of each curated key, in key order, or the first few distinct rows |
| IdentityPanel.FirstMatchAt | components/plasmoid/src/SmartCardHandler.cpp:1210-1218 | what a key contributes is its first row whose value is not blank |
| IdentityPanel.FullNameStandsIn | components/plasmoid/src/SmartCardHandler.cpp:1170-1194 | the full name is a headline, and then the first, if and only if no component of the name has text |
| IdentityPanel.CuratedIs | components/plasmoid/src/SmartCardHandler.cpp:1208-1218 | with a curated key that has text the summary holds exactly the first row with text of each such key, in the keys' order |
| IdentityPanel.FallbackIs | components/plasmoid/src/SmartCardHandler.cpp:1219-1246 | without one it is the first four rows that repeat no identity |
| IdentityPanel.SummaryRows | components/plasmoid/src/SmartCardHandler.cpp:1221-1246 | the summary repeats no identity, invents no row, and is empty only when there are no fields |
| IdentityPanel.CurateIdentityDetails | components/plasmoid/src/SmartCardHandler.cpp:1094-1133 | the details are the fields less the first row of each summarised identity |
| IdentityPanel.DetailsAre | components/plasmoid/src/SmartCardHandler.cpp:1094-1133 | the details are the delivered rows at every place but the first of each summarised identity, in order |
| IdentityPanel.TakenIsFirst | components/plasmoid/src/SmartCardHandler.cpp:1124-1131 | what the details leave out is, of each identity asked for, its first row and nothing else |
| IdentityPanel.IdentitiesConserved | components/plasmoid/src/SmartCardHandler.cpp:1094-1133 | for any fields, summary and details together show every identity as often as it was delivered |
| IdentityPanel.RowsConservedIff | components/plasmoid/src/SmartCardHandler.cpp:1101-1131 | whole rows, delivered without headings, are conserved if and only if no row of the same identity stands ahead of the first row with text of a curated key |
| IdentityPanel.RowsConserved | components/plasmoid/src/SmartCardHandler.cpp:1106-1115 | with identities delivered once, as the wire delivers them, no row is lost or shown twice |
| IdentityPanel.RepeatedIdentityLosesARow | components/plasmoid/src/SmartCardHandler.cpp:1125-1129 | a repeated identity whose first row is blank loses that row and shows the other twice |
| IdentityPanel.RebuildIdentityModel | components/plasmoid/src/SmartCardHandler.cpp:1003-1006 | the panel is the summary, and the details ordered and then headed |
| IdentityPanel.PanelShowsEveryRowOnce | components/plasmoid/src/SmartCardHandler.cpp:979-1007 | from the delivered fields to the screen the list stands in contiguous groups headed once, and every row appears exactly once if and only if that condition holds |
| SignJob.StepInv | shared/signing/SignJob.cpp:126-369 | a started job is always at exactly one place: reading, queued, signing or answered |
| SignJob.StartsOrFails | shared/signing/SignJob.cpp:126-190 | a start comes to the failure of the first check that fails, or to one certificate read |
| SignJob.SignsAsResolved | shared/signing/SignJob.cpp:168-179 | in every run of a started job every call is on the job's card and every signature in the format resolved for it; no other is substituted |
| SignJob.CapableFrom | shared/signing/SignJob.cpp:214-242 | of the capable certificates the first is the first delivered that can sign, and there are more exactly when another one can |
| SignJob.WholeJob | shared/signing/SignJob.cpp:126-369 | on a card with a certificate that can sign, for every way the three waits can go: the one answer, and exactly the calls made for it |
| SignJob.NothingToSignWith | shared/signing/SignJob.cpp:192-220 | on a card without one the certificates are read and nothing is signed |
| SignJob.OneSignal | shared/signing/SignJob.cpp:126-369 | over any events in any order a job has sent one answer if nothing is pending and none otherwise |
| SignJob.SignsOnlyLiveCard | shared/signing/SignJob.cpp:257-288 | a signature is asked for only in a step that finds the card alive, for the queued certificate and the settled options |
| SignJob.DeadCardNeverSigns | shared/signing/SignJob.cpp:264-268 | once the card is gone the job asks for nothing more and can only fail |
| SignJob.AnswersWithinThree | shared/signing/SignJob.cpp:186-288 | a job whose operations end answers within three of its own steps |
| SignJob.SignsWithCapable | shared/signing/SignJob.cpp:214-242 | in every run a signature names the lone capable certificate of those delivered, or of several the one the chooser answered with, and without any there is none |
| SignJob.SigningJob.Begin | shared/signing/SignJob.cpp:135-190 | a start without a card, PKI or a known format fails and asks the agent for nothing |
| SignJob.SigningJob.OnCertificatesFinished | shared/signing/SignJob.cpp:192-255 | the certificate read ends in one failure or in one queued signature |
| SignJob.SigningJob.OnQueueTurn | shared/signing/SignJob.cpp:257-288 | the queued signature re-checks the card and the input before it is asked for |
| SignJob.SigningJob.OnSignFinished | shared/signing/SignJob.cpp:290-369 | success is sent only with a written artifact, and once |
| SignSurfaces.SignStore.ChooseFile | components/plasmoid/src/SmartCardHandler.cpp:608-705 | a reader already signing starts nothing; else its entry is wiped and belongs to the new job |
| SignSurfaces.SignStore.OnSucceeded | components/plasmoid/src/SmartCardHandler.cpp:678-690 | a success is stored for the reader it was started on, with the level the agent reports |
| SignSurfaces.SignStore.OnFailed | components/plasmoid/src/SmartCardHandler.cpp:691-703 | a failure is stored for the reader it was started on |
| SignSurfaces.SignStore.OnPhaseChanged | components/plasmoid/src/SmartCardHandler.cpp:669-676 | a phase moves its own reader's entry only, also once the job has answered |
| SignSurfaces.SignStore.DismissSignResult | components/plasmoid/src/SmartCardHandler.cpp:575-587 | dismissing clears the displayed reader's outcome and nothing else |
| SignSurfaces.SignStore.PublishSignSurfaces | components/plasmoid/src/SmartCardHandler.cpp:589-606 | what is published becomes what is computed |
| SignSurfaces.SignStore.RefreshTo | components/plasmoid/src/SmartCardHandler.cpp:202-210 | departed readers are forgotten unless they still sign |
| SignSurfaces.RunInv | components/plasmoid/src/SmartCardHandler.cpp:538-705 | over every interleaving, running jobs and entries correspond one to one, labels name the silent pick, and what is published is current but for such a label |
| SignSurfaces.PublishedMeans | components/plasmoid/src/SmartCardHandler.cpp:538-606 | the displayed reader's entry is shown only while it speaks for the bound card, with busy exactly while a job of that reader runs; for another card's entry, or none, nothing is shown |
| SignSurfaces.FileStarts | components/plasmoid/src/SmartCardHandler.cpp:608-705 | a file chosen on a signing reader does nothing; else a job starts for the displayed reader and the bound card over a wiped entry, and a start that fails is kept as that |
| SignSurfaces.SignsAsChosen | components/plasmoid/src/SmartCardHandler.cpp:608-668 | over every interleaving the job of a chosen file signs in the format resolved for it, on the card that was bound |
| SignSurfaces.AnswerKept | components/plasmoid/src/SmartCardHandler.cpp:678-703 | the path and level of a success, or the reason of a failure, end in the entry of the reader the job was started on |
| SignSurfaces.PhaseWritten | components/plasmoid/src/SmartCardHandler.cpp:669-676 | a phase is written to that entry and moves nothing else of it |
| SignSurfaces.DismissClears | components/plasmoid/src/SmartCardHandler.cpp:575-587 | dismissing clears an outcome of the displayed reader and touches neither job, phase nor another reader |
| SignSurfaces.RefreshForgets | components/plasmoid/src/SmartCardHandler.cpp:202-210 | a refresh forgets exactly the entries of readers that left and do not sign |
| SignSurfaces.PullEnds | components/plasmoid/src/SmartCardHandler.cpp:117-171 | a pull ends the jobs reading or signing on the card, takes the card from those queued, leaves other cards' jobs alone, and lets no entry speak for the card |
| SignSurfaces.OneJobPerReader | components/plasmoid/src/SmartCardHandler.cpp:610-616 | no reader ever has two running jobs, and a running job's entry is still there for it |
| SignSurfaces.JobTouchesOwnEntry | components/plasmoid/src/SmartCardHandler.cpp:669-703 | a job's events change no other reader's entry |
| SignSurfaces.RunningSurvivesRefresh | components/plasmoid/src/SmartCardHandler.cpp:202-210 | re-targets and roster changes leave running jobs and their entries untouched |
| SignSurfaces.JobAnswersOnce | components/plasmoid/src/SmartCardHandler.cpp:678-704 | in every run each started job has answered once or is still running |
| SignSurfaces.SuccessNamesSigner | components/plasmoid/src/SmartCardHandler.cpp:627-690 | a success is kept for its own reader with path and level; after a silent pick the label is the subject, or else the identifier, of the certificate whose identifier the signature names, and without one there is no label |
| SignSurfaces.PublishedCurrentIff | components/plasmoid/src/SmartCardHandler.cpp:589-651 | current surfaces stay current if and only if the event is not the silent pick of a named certificate for the displayed reader and the bound card |
| SignSurfaces.PublishedBehind | components/plasmoid/src/SmartCardHandler.cpp:641-651 | a run of three events ends with the published label behind |
| SignSurfaces.SignsWithFirstCapable | components/plasmoid/src/SmartCardHandler.cpp:641-651 | in every run each signature the plasmoid asks for is with a certificate that can sign, the first of those its job read |
| SignSurfaces.SignStore.PickFirstCert | components/plasmoid/src/SmartCardHandler.cpp:641-651 | the chooser answers with the first candidate, notes its name in its own reader's entry, and publishes nothing |
| SignSurfaces.SignStore.OnCertificates | components/plasmoid/src/SmartCardHandler.cpp:641-656 | the chooser is asked only among several certificates that can sign |
| SignSurfaces.SignStore.PullCard | components/plasmoid/src/SmartCardHandler.cpp:117-171 | a pulled card ends its jobs, each answering into its own reader's entry, before the handler refreshes |
| CardSelection.ChooseSigningCard | shared/signing/CardSelection.cpp:17-87 | the chooser runs if and only if there are several candidates and one exists; cancelled means declined or unaskable; an answered choice yields exactly the card the changed registry still honours |
| CardSelection.ReaderNameIs | shared/signing/CardSelection.cpp:49-51 | the name beside a choice is that of the first reader of the card's reader id, and empty with none |
| CardSelection.OfferedAre | shared/signing/CardSelection.cpp:20-53 | the chooser is shown one choice for every reader that holds a card that can sign, in the registry's order, each with its own card and that name |
| CardSelection.HonouredIsTheirChoice | shared/signing/CardSelection.cpp:59-85 | a card handed back is the one the registry now has under the picked id, it can sign, and its reader now goes by the name the first card offered under that id was shown with |
| CardSelection.HandedBackUnderThatName | shared/signing/CardSelection.cpp:71-85 | so with readers' ids distinct it sits in a reader of the very name of the reader the picked card sat in |
| CardSelection.StillThereIsHonoured | shared/signing/CardSelection.cpp:71-85 | and a card of that id that can sign and sits under that name is always handed back |
| CardSelection.UnchangedRegistryHonours | shared/signing/CardSelection.cpp:55-86 | with nothing changed under the dialog the person gets the card they picked |
| CardReads.RunInv | components/plasmoid/src/SmartCardHandler.cpp:355-845 | in every run, whatever other widgets store, rows and photo were read by an operation of the bound card, flag, URL and stored image agree, busy means reading, and no unlock is prompted for unasked |
| CardReads.ClassifiedAs | components/plasmoid/src/SmartCardHandler.cpp:416-466 | the bound card shows as held back for its unlock until its identity was read, and else as resolved before and after that |
| CardReads.ChangeReclassifies | components/plasmoid/src/SmartCardHandler.cpp:395-399 | what a card announces of itself is taken up at once for the bound card and moves nothing for another |
| CardReads.IdentityEnds | components/plasmoid/src/SmartCardHandler.cpp:707-743 | a dismissed prompt takes the view back to where the read began, a failure is an error and nothing else, a success shows the bound card's rows |
| CardReads.PhotoEnds | components/plasmoid/src/SmartCardHandler.cpp:768-845 | a photo is stored under the widget's slot and shown under a URL of that slot that differs from the one before; without one nothing changes |
| CardReads.ReadsStart | components/plasmoid/src/SmartCardHandler.cpp:403-511 | a user's read starts one unless one runs; opening the panel starts one, unasked, exactly on an unread card with identity data and no unlock |
| CardReads.RefreshShows | components/plasmoid/src/SmartCardHandler.cpp:117-171 | a refresh to another card, or none, keeps nothing that was read and cancels both reads; to the same card it keeps all of it |
| CardReads.DetachedReadIsInert | components/plasmoid/src/SmartCardHandler.cpp:368-390 | the end of a read that was let go of changes nothing |
| CardReads.RestartsIff | components/plasmoid/src/SmartCardHandler.cpp:719-741 | the end of an identity read starts another if and only if a freely readable card's prompt was dismissed with the panel open |
| CardReads.PhotoFollowsIdentity | components/plasmoid/src/SmartCardHandler.cpp:736-766 | a photo read starts at the end of a successful identity read of the same card and nowhere else |
| CardReads.UrlYieldsLastPicture | components/plasmoid/src/SmartCardHandler.cpp:768-845 | in every run, whatever other widgets store, the URL on screen yields the last picture read from the bound card, and none when none was read |
| PhotoWidgets.FreshShell | components/plasmoid/src/SmartCardHandler.cpp:79-84 | widgets with slots handed out once start in order |
| PhotoWidgets.RunsAsAlone | components/plasmoid/src/CardPhotoStore.h:13-23 | in every interleaving of all widgets over the one store, each runs exactly as it would alone |
| PhotoWidgets.EachShowsItsOwn | components/plasmoid/src/CardPhotoStore.h:19-23 | and the URL each shows yields the last picture that widget read from its own card |
| CardReader.ReadHandler.Bind | components/plasmoid/src/SmartCardHandler.cpp:355-401 | another card drops both reads, the busy latch, the rows and the photo |
| CardReader.ReadHandler.EnsureFree | components/plasmoid/src/SmartCardHandler.cpp:468-488 | a read starts by itself only for a card without an unlock, not read, not being read, with identity data |
| CardReader.ReadHandler.ClassifyActiveCard | components/plasmoid/src/SmartCardHandler.cpp:416-466 | an unlock holds the card back until its identity was read; an open panel may start the free read |
| CardReader.ReadHandler.StartIdentityRead | components/plasmoid/src/SmartCardHandler.cpp:490-511 | one identity read at a time |
| CardReader.ReadHandler.OnOperationFinished | components/plasmoid/src/SmartCardHandler.cpp:707-743 | a dismissed prompt, a failure and a success end the read in their three ways |
| CardReader.ReadHandler.OnPhotoFinished | components/plasmoid/src/SmartCardHandler.cpp:768-830 | a photo is stored under the widget's own slot and pointed at by a new token |
| CardReader.ReadHandler.RefreshTo | components/plasmoid/src/SmartCardHandler.cpp:117-171 | an absent agent, no card and a card leave their three states |
| CardReader.ReadHandler.Terminate | components/plasmoid/src/SmartCardHandler.cpp:505-510 | an operation's end runs the slot connected to it and no other |
| CardReader.ReadHandler.ChangeRegistry | components/plasmoid/src/SmartCardHandler.cpp:111-114 | a registry change deletes operations and cards before the handler refreshes |
| CardReader.ReadHandler.SetViewActive | components/plasmoid/src/SmartCardHandler.cpp:403-414 | opening the panel may start the free read, closing it nothing |
| PhotoSlots.SlotRoundTrip | components/plasmoid/src/CardPhotoProvider.cpp:16-31 | every slot a widget can have is read back from the URL that widget writes |
| PhotoSlots.MalformedIsNobody | components/plasmoid/src/CardPhotoProvider.cpp:16-31 | an id without a slot part, or with anything but digits in it, names the slot no widget has |
| PhotoSlots.UrlsDiffer | components/plasmoid/src/SmartCardHandler.cpp:824-828 | another token makes another URL |
| PhotoSlots.PhotoStore.RequestImage | components/plasmoid/src/CardPhotoProvider.cpp:33-49 | a widget's URL yields the photo of that widget's slot, or none |
| PhotoSlots.PhotoStore.SetImage | components/plasmoid/src/CardPhotoStore.h:38-43 | storing replaces one slot's photo |
| PhotoSlots.PhotoStore.Clear | components/plasmoid/src/CardPhotoStore.h:45-50 | scrubbing empties one slot |
| ReaderNames.ReaderBaseName | components/plasmoid/src/SmartCardHandler.cpp:1329-1353 | the base name drops the last parenthesized group and up to two trailing indices |
| ReaderNames.SameUnitIff | components/plasmoid/src/SmartCardHandler.cpp:1302-1372 | two enumerated names are one unit if and only if the serial qualifies and serial and model agree, blanks around the one and spacing in the other aside |
| ReaderNames.ReenumerationRecognised | components/plasmoid/src/SmartCardHandler.cpp:1355-1372 | a reader that returns under other indices is recognised, for any model text |
| ReaderChoice.PickActiveReader | components/plasmoid/src/SmartCardHandler.cpp:244-281 | the scans pick the bound name, its unit once the name is gone, the passing pick, or the first card, in that order |
| ReaderChoice.BoundPicks | components/plasmoid/src/SmartCardHandler.cpp:244-273 | a bound widget shows the first reader of its name that holds a card; only while no reader has that name, the first of its unit that does |
| ReaderChoice.AutoPicks | components/plasmoid/src/SmartCardHandler.cpp:274-281 | in automatic mode the passing pick is shown while a reader of its name holds a card, whoever else does; else the first reader that holds one |
| ReaderChoice.NothingPicked | components/plasmoid/src/SmartCardHandler.cpp:244-281 | nothing is shown if and only if no reader that may be shown holds a card |
| ReaderChoice.ComputeCardDetected | components/plasmoid/src/SmartCardHandler.cpp:283-319 | the scans report a card in the bound name's reader, in its unit's, or in any |
| ReaderChoice.DetectedMeans | components/plasmoid/src/SmartCardHandler.cpp:283-319 | a card is announced if and only if any reader, the first of the bound name, or, while no reader has that name, one of its unit reports it |
| ReaderChoice.ShowsIff | components/plasmoid/src/SmartCardHandler.cpp:244-281 | with nothing shown, a published card is shown if and only if its reader is one the widget waits for |
| ReaderChoice.DetectedIsAwaited | components/plasmoid/src/SmartCardHandler.cpp:283-319 | a card is announced only if publishing it would show it, for any roster |
| ReaderChoice.AwaitedIsDetected | components/plasmoid/src/SmartCardHandler.cpp:290-310 | every awaited card is announced if and only if the bound name is not shared with an empty reader ahead of the full one |
| ReaderChoice.TwinUnannounced | components/plasmoid/src/SmartCardHandler.cpp:290-310 | a roster of two readers of the bound name, the empty one first, has an awaited card that is not announced |
| ReaderChoice.DetectionAgrees | components/plasmoid/src/SmartCardHandler.cpp:244-319 | with readers named apart, announcing and picking agree in both directions |
| ReaderChoice.BoundPickIsOwn | components/plasmoid/src/SmartCardHandler.cpp:217-272 | a bound widget shows only its reader or one of its unit, and then says it is present |
| CertFolders.BuildCertFolders | components/kio/CardWorkerLogic.cpp:133-164 | the pass over the certificates with its counters gives each signing certificate its folder |
| CertFolders.PurposeIs | components/kio/CardRenderers.cpp:111-131 | signing goes before authentication, and any other certificate is named by its first usage |
| CertFolders.StableNameIs | components/kio/CardWorkerLogic.cpp:101-119 | a folder's base name is the purpose, or the word Certificate, and the first eight characters of the identifier |
| CertFolders.FolderNameIs | components/kio/CardWorkerLogic.cpp:143-162 | the first folder of a base name is called that, the k-th is numbered k |
| CertFolders.NumberedInjective | components/kio/CardWorkerLogic.cpp:147-152 | a folder's name tells its base and its number |
| CertFolders.FolderNamesDistinct | components/kio/CardWorkerLogic.cpp:133-164 | no two folders of a card share a name |
| CertFolders.OneFolderEach | components/kio/CardWorkerLogic.cpp:143-162 | there is one folder for each signing certificate, in order |
| CertFolders.FoldersStable | components/kio/CardWorkerLogic.cpp:103-118 | certificates added later rename no folder |
| CertFolders.ResolveCertId | components/kio/CardWorkerLogic.cpp:166-180 | a name is looked up in the same folders that were listed |
| CertFolders.FolderLeadsBack | components/kio/CardWorkerLogic.cpp:166-180 | a listed folder leads back to its own certificate's identifier |
| CertFolders.ResolveUnlisted | components/kio/CardWorkerLogic.cpp:174-179 | a name that was not listed leads nowhere |
| CertFolders.FolderDescribesIff | components/kio/CardWorkerLogic.cpp:454-473 | `info.txt` describes the folder's own certificate if and only if it has an identifier and is the first with it |
| CardTree.SegmentsChild | components/kio/CardTree.cpp:65-70 | appending a name to a path appends one segment |
| CardTree.PresenceAt | components/kio/CardTree.cpp:72-81 | a reader's name means the first reader that goes by it |
| CardTree.TreeSpelled | components/kio/CardTree.cpp:83-165 | what each path of a reader's tree leads to, spelled out by its capabilities |
| CardTree.ListNames | components/kio/CardTree.cpp:167-206 | the names listed follow from the capabilities alone |
| CardTree.ListedIffResolves | components/kio/CardTree.cpp:83-206 | where the tree names the children, a name is listed if and only if it resolves |
| CardTree.EmittedResolves | components/kio/CardWorkerLogic.cpp:261-329 | an entry whose name is a segment opens, as a directory exactly when shown as one |
| CardTree.EmittedOpensIff | components/kio/CardWorkerLogic.cpp:261-329 | any entry shown opens the very reader, folder or file it was shown for if and only if its name is not empty and has no slash |
| CardTree.CertFilesIff | components/kio/CardWorkerLogic.cpp:317-329 | below a certificate's folder the files shown are exactly the names that open |
| CardTree.FolderIsSegmentIff | components/kio/CardWorkerLogic.cpp:101-119 | a folder name is one segment of a URL if and only if its certificate's shortened identifier has no slash |
| CardTree.ListedFolderServes | components/kio/CardWorkerLogic.cpp:454-497 | below a listed folder the exports are those of the certificate it was listed for, if and only if that has an identifier without a slash in its shortened form; else nothing is there |
| Pem.DerToPem | components/kio/CardRenderers.cpp:254-264 | the loop frames and wraps the whole encoding |
| Pem.Alphabet | components/kio/CardRenderers.cpp:254-256 | the letters are those of table 1 in section 4 of RFC 4648 |
| Pem.GroupBits | components/kio/CardRenderers.cpp:254-256 | three bytes are four letters, most significant bits first; one or two are filled up with zero bits and padding |
| Pem.Examples | components/kio/CardRenderers.cpp:254-256 | the standard's own examples, section 10 of RFC 4648, come out as printed there |
| Pem.DecodeEncode | components/kio/CardRenderers.cpp:254-256 | the base64 of any bytes decodes to them by section 4 of RFC 4648 |
| Pem.PemRoundTrip | components/kio/CardRenderers.cpp:254-264 | a reader of the frame gets back exactly the bytes exported |
| Pem.PemLines | components/kio/CardRenderers.cpp:254-264 | the export's lines are the two frame lines of section 5 of RFC 7468 around the base64 text, cut in lines of 64 characters but for the last, with none for no bytes |
| PoCatalog.Unquote | tools/check-catalogs.py:71-88 | the loop decodes the run between the outer quotes, or raises where Python would |
| PoCatalog.DecodeEscape | tools/check-catalogs.py:65-88 | unquoting inverts escaping, and escaped text has no line break |
| PoRoundTrip.EscapesSpelled | tools/check-catalogs.py:65-88 | each escape of the format stands for its character, and any other escaped letter for itself |
| PoRoundTrip.KeywordsSpelled | tools/check-catalogs.py:118-132 | the keywords that open a field are the four of the format |
| PoCatalog.ParsePo | tools/check-catalogs.py:91-136 | the one pass with its shared state computes the fold of its lines |
| PoCatalog.RefsOf | tools/check-catalogs.py:145-166 | the references are accumulated over the `#:` lines only |
| PoRoundTrip.RefsMean | tools/check-catalogs.py:145-166 | a reference is a word between white space in a comment that begins with `#:`, and no other comment adds any |
| PoRoundTrip.ParagraphsAreIndependent | tools/check-catalogs.py:98-114 | a blank line ends an entry for good: a file parses paragraph by paragraph, errors included |
| PoRoundTrip.ObsoleteIgnored | tools/check-catalogs.py:115-116 | retired lines are invisible anywhere in any file |
| PoRoundTrip.PaddingIgnored | tools/check-catalogs.py:110-111 | white space around lines is invisible in any file |
| PoRoundTrip.FeedFieldLines | tools/check-catalogs.py:120-132 | a field, however wrapped, is the string it stands for |
| PoRoundTrip.BlockParses | tools/check-catalogs.py:98-135 | a written entry parses to its key and comments, and the header to nothing |
| PoRoundTrip.CatalogRoundTrip | tools/check-catalogs.py:91-136 | any file that is a catalog but for retired lines and padding parses to exactly the entries it declares |
| PoRoundTrip.WrittenValue | tools/check-catalogs.py:65-88 | every string can be written over any division into pieces and stands for itself |
| PoRoundTrip.RefsAsWritten | tools/check-catalogs.py:145-166 | the references found are those written, over however many lines |
| PoRoundTrip.ReflowIsNoDrift | tools/check-catalogs.py:154-161 | two layouts show drift if and only if they hold different references |

## Left out

- CertFolders.BuildCertFolders: requires that no signing certificate's identifier has a `%` in its first eight characters. The second of two folders of one name is filled in by two chained calls of Qt's `arg`, which would also fill in a place marker inside the identifier; Qt's marker rules are not part of this model.
- CertFolders.ResolveCertId: the same requirement, for the same reason.
- ReaderNames.SameUnitIff: digits and white space are the ASCII ones; Qt's Unicode classes are not part of this model.
- IdentityPanel.CurateIdentitySummary: a value counts as blank by ASCII white space only.
- PhotoSlots.SlotRoundTrip: `toULongLong` is modelled on digits with an optional plus sign and padding; its other spellings are not.
- PoCatalog.ParsePo: takes the lines of a file; where Python cuts lines, its Unicode white space and its UTF-8 decoding are not modelled.
- Pem.DerToPem: the line counter is unbounded; Qt's index width is not modelled.
- CardReads.RunInv: the resolver of card states belongs to the client library and is given with the card; how it derives a state from capabilities is not modelled.
- The client library itself: operation delivery, failure classification, the naming and writing of signed files, the folding of security checks. Their results are inputs here.
- Sentences and their translation: banners are what they were composed from; outcome, error and label tables are finite lists.
- The reader's label, `startAgent` and its latch, the unblock sheet's budget text: display fields no other part of the window depends on.
- D-Bus, QML, dialogs, clipboard, process launching, file reads and writes: inputs or signals where a property needs them.
- The event that a plasmoid warms the certificate cache, and the localized display names of certificate folders: nothing is resolved by them.
- Image decoding and MIME sniffing, `renderCertInfoTxt`, `renderIdentityTxt`: one reading of each settles what it prints.
- KIO error codes, and the root listing's answer when there is no agent: a finite table.
- The mutex of the photo store: each call is one step.
- Comparing catalogs with the sources (`main` of tools/check-catalogs.py) and the extraction and compilation tools it runs: set differences over what is parsed here.
