# Continuum Memory, modelled and proved in Dafny

Continuum Memory keeps claims for agents and their owner: an append-only bitemporal ledger in
SQLite, read through per-audience projections, changed only by approved actions, audited by a
MAC-chained log with an external anchor, and recovered through a journal of locators. This
project models that behaviour and proves what it promises over every input, every run and every
interleaving. `dafny verify dfyconfig.toml` checks all of it.

How the modules fit together:

- **Ledger and reads.** `Ledger` has the rows, the steps and the invariant of every run;
  `Timelines` writes audience events row by row; `Reads` is the one eligibility test, snapshots,
  watermarks and hidden steps; `Selection` says what it selects in terms of the stored rows;
  `Conflicts` is the union-find; `Disputes` derives disputes per thread; `Paging` and `Search` page
  results, `Cards` and `Context` pack them; `Cursors` keeps continuations and `Continuations`
  follows them; `Migration` is the v2 backfill.
- **The database.** `Vault` holds every content table and the transactions on them; `Admissions`
  says what an admission stores; `Forgetting` and `Erasure` say what a forget removes, as one
  difference and as statements, and `Survivors` what it spares; `Deliveries` is the life of a
  delivery key; `Retention` the sweep before each request; `Snapshots` carries the read promises
  over to runs of whole transactions; `Kernel` is the class whose methods run the statements.
- **Commit and recovery.** `Approvals` has previews, one-shot challenges and receipts; `Outcomes`
  says what each approved preview does; `Receipts` reads receipts back; `Audit` is the chain and
  its verification; `Anchor` the writers, syncs and crashes around the anchor file; `Storage` the
  commit path; `Recovery` the command lines, the daemon, lost and late messages; `Client` and
  `Journal` the command line's own code.
- **Codecs.** `Temporal`, with the grammar of its texts in `Offsets`; `Transport`, `Framing`.

Conventions of the model. A SQLite transaction and a file replace are atomic, as the schema and the
write path arrange. Keyed digests and MACs are injective, so each is modelled as the data it covers
(`Approvals.Preview` for a preview digest, `Audit.Mac` as a free term, a dispute id as its set of
ids). Random ids are parameters that must be unused where they are drawn. Clocks, policy verdicts,
grant verification, replies and faults are parameters, so every lemma holds for all of them. Times in
the ledger are integers; `Temporal` proves that the text comparison SQL makes is that order.

Five properties one might expect turned out not to hold of the code as it stands. Each is stated with
a concrete case and the exact condition under which the code meets it:

- A reported refusal does not always mean that nothing committed. After a forget has committed, the WAL
  checkpoint runs one more statement and only SQL errors of it are caught (kernel.py:790-796). On Windows
  the guard before every statement can raise `unsafe_permissions`, `unsafe_file` or
  `unsafe_reparse_point` (windows_storage.py:85-88, windows_boundary.py:235-276); the request handler passes the
  code on (daemon.py:69-71), and the command line takes it for a refusal (cli.py:99-103). The same would
  become of any other error after a commit that is not ambiguous, such as the `invalid_json` the handler
  makes of a ValueError (`Recovery.MisreportedCommit`, `Recovery.RefusalLiesIff`,
  `Recovery.AnyCommitCanBeMisreported`).
- An anchor ahead of the database does not stop every commit: a transaction that writes the anchored
  event again passes, and nothing else does (`Anchor.ReplayedEventPasses`, `Anchor.AheadForever`,
  `Anchor.AheadCommitsIff`, `Anchor.AheadPassesOnlyTheSameHistory`).
- An anchor at number zero binds nothing: it overlooks rows numbered zero or below. Every anchor at an
  event binds the history whatever the row numbers, and AUTOINCREMENT assigns none below one
  (`Audit.NonPositiveRowsEscapeTheAnchor`, `Audit.AnchorBindsIff`, `Audit.AnchorBindsHistory`).
- The v2 backfill does not rebuild the timelines after a forget of a version that a configured provider
  had been shown (`Migration.BackfillForgetsForgotten`, `Migration.BackfillIsExactAfter`).
- Paging the recovery journal can step over a locator: the listing is sorted by file name and the cursor
  compares nonces, and the two orders differ where one nonce goes on with `-` after another ends. The
  nonces a daemon draws all have one length, so this cannot happen among them
  (`Journal.PagingMissesALocator`, `Journal.PagingIsCompleteIff`, `Journal.SameLengthsDoNotShadow`).

## Model

| member | source | states |
|---|---|---|
| Ledger.StepKeepsInv | src/continuum_memory/kernel.py:861-1012 | every committed admit, correction, expiry, forget or bare sequence step keeps: retirement written once and after ingest, unique ingest numbers, dense audience timelines, and an event for every ingest and retirement an audience can see |
| Ledger.RunKeepsInv | src/continuum_memory/kernel.py:184-232 | the same over every run, from the state bootstrap leaves |
| Ledger.StepKeepsRow | src/continuum_memory/kernel.py:1008-1012 | apart from forget no step removes a version or its disclosures, and the only change a version ever sees is its one retirement, numbered after everything recorded before |
| Ledger.RetirementHasAReason | src/continuum_memory/kernel.py:1008-1012 | a version is retired only by a correction within its own memory or once its deadline has come |
| Ledger.AnnounceNumbers | src/continuum_memory/projection.py:109-127 | an audience that is told gains exactly the next local number |
| Ledger.AnnounceDense | src/continuum_memory/projection.py:109-127 | announcing the newest recorded number keeps every timeline gap-free from 1 and in recorded order |
| Timelines.RecordAudienceChange | src/continuum_memory/projection.py:109-127 | collecting providers and inserting row by row (ignoring rows that exist) leaves exactly the timelines that telling the whole audience at once defines, the wildcard reaching every configured provider |
| Reads.LiveReadIsActive | src/continuum_memory/projection.py:43-57 | a read without a recorded bound selects exactly the active versions disclosed to the reader |
| Selection.ReadsSelect | src/continuum_memory/projection.py:43-57 | a read selects exactly the versions of its project that were disclosed to the reader or to everyone (or all, for the owner) and are live, in the disputes' own sense, at the recorded number and at the valid time if one is asked for, never one of unknown validity then; a read of the history those live at that number or at any before it; each as it is stored |
| Selection.HistoryIsEveryCurrentRead | src/continuum_memory/projection.py:50-52 | a read of the history selects a version if and only if a current read at the same or an earlier recorded number does |
| Selection.ResolveMeans | src/continuum_memory/kernel.py:1224-1235 | without a recorded number the present is read; the owner's number is the global one, cut off at the present; an agent's number n means the moment at which it had been told of exactly its first n events |
| Selection.OwnerReadsAgain | src/continuum_memory/kernel.py:1237-1253 | the owner is shown the global numbers, and reading as of the watermark is the very same read |
| Selection.CardsShowThePast | src/continuum_memory/projection.py:65-69 | whatever ran since, a read at a recorded number shows each version exactly as it was stored when the ledger stood there, retired if it was and active if it was not |
| Reads.CardsHaveSequences | src/continuum_memory/kernel.py:1245-1253 | the missing-timeline error is unreachable: both ends of an eligible row as shown have a local number, start before end, both within the watermark |
| Snapshots.ProvenanceHasSequences | src/continuum_memory/kernel.py:1641-1657 | nor can it be met by the provenance a detail view shows: each activity about an eligible version was recorded at its ingest |
| Reads.WatermarkRoundTrip | src/continuum_memory/kernel.py:1224-1243 | reading as of a returned watermark selects the same rows in the same state and returns the same watermark |
| Reads.WatermarkStaysGood | src/continuum_memory/kernel.py:1224-1243 | read again as of it at any later time, a watermark gives the rows of the read that returned it, in the state they had then, except what a forget has removed since, and the same watermark; after a forget-free run exactly those rows |
| Reads.StepKeepsSnapshot | src/continuum_memory/projection.py:65-69 | seen through a pinned snapshot a step changes no row and adds none; it removes a row only by forgetting its thread |
| Reads.RunKeepsSnapshot | src/continuum_memory/projection.py:43-69 | over every run a pinned snapshot only loses versions that a forget of the run removed |
| Reads.SnapshotIsStable | src/continuum_memory/projection.py:43-69 | over every forget-free ledger run a pinned snapshot is unchanged |
| Snapshots.SnapshotsAreStable | src/continuum_memory/kernel.py:1224-1235 | over every run of kernel transactions without a thread forget (sweeps, proposals, purges and draft forgets included) a pinned read keeps its rows and their state |
| Snapshots.DisputesAreStable | src/continuum_memory/kernel.py:1255-1273 | over every run of kernel transactions what a pinned read says about a thread's disputes stands until that thread is forgotten |
| Snapshots.RunIsSteps | src/continuum_memory/kernel.py:293-412 | every run of kernel transactions is, on the ledger, a run of ledger steps that forgets only what the run forgets |
| Reads.HiddenStepIsInvisible | src/continuum_memory/projection.py:109-127 | a step none of whose versions is disclosed to a provider or to everyone leaves that provider's rows, snapshot, watermark and local numbers as they were, for live and as-of reads |
| Reads.HiddenRunIsInvisible | src/continuum_memory/projection.py:109-127 | so over any run of hidden steps, with the snapshot resolved before and after |
| Reads.ShownStepMovesWatermark | src/continuum_memory/projection.py:109-127 | the live watermark of an agent moves on by exactly one with every step that touches a version it may see, and with no other |
| Paging.HiddenStepKeepsPages | src/continuum_memory/kernel.py:1275-1313 | such a step changes no first page the provider can be given, live or as of one of its numbers: keys, order, cursor and has-more |
| Paging.HiddenRunKeepsFirstPages | src/continuum_memory/kernel.py:1275-1313 | nor does any run of hidden steps change a first page |
| Reads.HiddenRunKeepsPinned | src/continuum_memory/kernel.py:1211-1222 | seen through a pinned recorded number, as a continuation reads, no run of steps hidden from a provider changes its rows, its watermark or the local numbers it is shown |
| Paging.HiddenRunKeepsPages | src/continuum_memory/kernel.py:1211-1235 | so no run of hidden steps changes a continuation page pinned by its cursor |
| Disputes.HiddenStepKeepsJudgement | src/continuum_memory/kernel.py:1255-1273 | such a step changes no dispute the provider is shown on a live or as-of read |
| Disputes.HiddenRunKeepsDisputes | src/continuum_memory/kernel.py:1255-1273 | nor does any run of hidden steps, live or as-of |
| Disputes.HiddenRunKeepsJudgement | src/continuum_memory/kernel.py:1255-1273 | and no run of hidden steps changes a dispute it is shown on a read pinned by a cursor |
| Conflicts.OverlapMeansBothLive | src/continuum_memory/projection.py:72-83 | two versions overlap if and only if their bodies differ and some recorded sequence and valid instant has both live |
| Conflicts.Root | src/continuum_memory/projection.py:90-94 | find with path halving terminates although pointers go both ways, returns the representative, and moves no representative |
| Conflicts.GroupsPartition | src/continuum_memory/projection.py:86-106 | dispute groups are equal or disjoint, and each row is in its own |
| Conflicts.ConflictGroups | src/continuum_memory/projection.py:86-106 | in any row order the result is exactly the connected components of size over one of the overlap relation, each with its rows in row order |
| Disputes.JudgementIgnoresLaterRetirement | src/continuum_memory/projection.py:72-83 | a retirement after the snapshot, which overlap does read, decides nothing about the disputes at the snapshot |
| Disputes.JudgementIsStable | src/continuum_memory/projection.py:72-106 | at a pinned snapshot a thread's disputes, or the verdict that it has too many rows to assess, survive every later run that does not forget the thread |
| Disputes.ProjectThread | src/continuum_memory/kernel.py:1255-1273 | a thread with at most 25 eligible rows yields exactly its dispute groups with members in row order; a longer one yields only its first 25 rows, marked not assessed |
| Disputes.ProjectionIsOldestFirst | src/continuum_memory/kernel.py:1259-1266 | members of a dispute come oldest first; of a thread with more than 25 eligible rows 25 are shown, none younger than one that is not |
| Selection.DisputesSeeTheThread | src/continuum_memory/kernel.py:1259-1262 | the rows a thread is judged by are all the selected versions of it, as they are stored |
| Paging.PagedSearchIsOneSortedRead | src/continuum_memory/kernel.py:1182-1189 | following the cursors to the end while accepts, corrections, expiries and forgets go on emits strictly ordered keys, all of the first page's snapshot, and misses only versions a forget of the run removed; nothing later is emitted |
| Paging.ModeNeverChanges | src/continuum_memory/kernel.py:1275-1299 | the exact-identifier or full-text mode of the first page is the mode of every later page |
| Paging.PageSplits | src/continuum_memory/kernel.py:1300-1313 | a page holds sorted keys of the listing and everything else lies strictly beyond its cursor |
| Search.SearchPage | src/continuum_memory/kernel.py:1180-1189 | a search answers with a prefix of the listing that holds exactly the selected versions that match and come after the cursor, in rank; it is the longest the row limit and the frame bound allow, with its last key as cursor exactly when rows remain; or too large, exactly when not even one row fits |
| Selection.ListingFinds | src/continuum_memory/kernel.py:1275-1299 | the listing of a query holds exactly the selected versions whose id or memory the text names, if it names one, and otherwise those with a positive score, each once, best score first and among equals the newest first |
| Vault.OpKeepsVault | src/continuum_memory/kernel.py:293-1157 | every transaction keeps all foreign keys valid, evidence columns backed by references, exactly one full-text row per version, every correction recorded within the thread it corrects and every activity about a version recorded at its ingest, one thread per subject, one live proposal per delivery, and no tombstoned delivery live |
| Vault.RunKeepsVault | src/continuum_memory/kernel.py:293-1157 | the same over every run |
| Vault.SurvivorsPointElsewhere | src/continuum_memory/migrations.py:140-162 | a proposal that outlives a forget was not accepted into the forgotten thread, so the one foreign key without a cascade never blocks the deletion |
| Erasure.DeletionIsNotBlocked | src/continuum_memory/kernel.py:1108-1109 | when the thread row is deleted, no remaining proposal refers to any of its versions |
| Forgetting.ForgetIsExact | src/continuum_memory/forget.py:8-75 | the difference a forget makes on threads, versions, disclosures, evidence and proposals is the previewed scope, each purged proposal leaves one tombstone, older tombstones and all timeline rows stay, and every invariant holds after |
| Forgetting.ForgetRemovesRows | src/continuum_memory/forget.py:29-56 | evidence, evidence references, attestations, consents, index rows and feedback lose exactly the previewed rows; evidence another thread references stays |
| Forgetting.ForgetRemovesLinks | src/continuum_memory/forget.py:49-55 | proposals, reviews, provenance, relations, conflicts and their members lose exactly the previewed rows |
| Forgetting.ForgetPrunesRecalls | src/continuum_memory/kernel.py:1074-1094 | no recall disappears; the recalls named in the scope are exactly those that change, and they lose exactly the positions that hold a forgotten id, the rest keeping order and multiplicity |
| Forgetting.NothingRemains | src/continuum_memory/kernel.py:1035-1137 | afterwards no row of any content table (conflict members and the inputs of provenance included) and no recall of the project names a forgotten version |
| Forgetting.WithoutIsExact | src/continuum_memory/kernel.py:1087-1088 | pruning a result list keeps, in their order, exactly the positions whose id is not forgotten |
| Forgetting.WithoutChanges | src/continuum_memory/kernel.py:1087-1088 | pruning changes a list if and only if it mentions a forgotten id |
| Kernel.Kernel.AcceptPreview | src/continuum_memory/kernel.py:861-1033 | the final write boundary refuses for the right reason in the right order (policy, lapsed retention, stale correction target, duplicate claim) or stores exactly the approved claim with its bounds, retention, audience and evidence in the memory its subject names, retires the target of a correction, and changes nothing else |
| Admissions.AdmissionStores | src/continuum_memory/kernel.py:872-1019 | an admission stores exactly what was approved: body, bounds, retention, disclosure rows, evidence, a new thread with the approved subject or the one there was, the retired target; every other version, disclosure and piece of evidence is as it was |
| Admissions.SameClaimIsADuplicate | src/continuum_memory/kernel.py:890-897 | the same claim under the same subject, admitted again right after, is refused as a duplicate whatever else it carries, unless it corrects something or its deadline has passed |
| Kernel.Kernel.AcceptProposal | src/continuum_memory/kernel.py:819-839 | acceptance is refused on a lapsed deadline, a changed draft scope, a draft no longer pending or a source that is no proper provider, in that order; otherwise it is the admission plus the marked draft and its review |
| Kernel.Kernel.RejectProposal | src/continuum_memory/kernel.py:841-852 | rejection is refused as stale, changing nothing, unless the approved draft scope is current; otherwise it is exactly the purge |
| Kernel.Kernel.ForgetApply | src/continuum_memory/kernel.py:1035-1137 | succeeds if and only if the current scope equals the approved one, is otherwise refused as stale and changes nothing; the statement-by-statement deletion with schema cascades takes the memory with all that is about it and spares everything else, with exact deletion counts |
| Survivors.ForgetSpares | src/continuum_memory/kernel.py:1035-1137 | in each table exactly the rows go that name a version of the memory or a draft of its project and subject key; evidence another version refers to stays; every other draft is unchanged and its delivery still live, every draft of the subject is buried; recalls of the project lose exactly the positions of its versions |
| Survivors.ScopeIsTheMemory | src/continuum_memory/forget.py:8-75 | the previewed scope holds every row about the memory, its drafts and its evidence with all references to it from outside, and no other row; there is one exactly for the memories of the project |
| Kernel.Kernel.ForgetProposalApply | src/continuum_memory/kernel.py:1139-1157 | a draft forget is refused as stale unless scope is current and nothing was accepted; otherwise it purges the draft and leaves one deletion receipt |
| Erasure.StagesMeet | src/continuum_memory/kernel.py:1055-1125 | feedback, recalls, index, provenance, proposals, cascade and evidence deletions run in their order add up to removing the scope |
| Kernel.PruneRecalls | src/continuum_memory/kernel.py:1074-1094 | one pass over the project's recalls prunes each and counts exactly those that mentioned a forgotten id |
| Kernel.DeleteFeedback | src/continuum_memory/kernel.py:1067-1072 | deleting feedback version by version removes and counts exactly the feedback on the forgotten versions |
| Kernel.DeleteEvidenceOf | src/continuum_memory/kernel.py:1103-1110 | deleting evidence one by one unless still referenced removes exactly the unreferenced rows and clears no surviving evidence column |
| Kernel.PurgeProposals | src/continuum_memory/proposals.py:53-70 | purging rows one by one leaves one tombstone per delivery (never overwriting one) and removes exactly their provenance, reviews and rows |
| Kernel.Kernel.PurgeDueProposals | src/continuum_memory/kernel.py:234-253 | the rejected and lapsed drafts of the project are purged in creation order, one sequence number each |
| Kernel.Kernel.ExpireVersions | src/continuum_memory/kernel.py:194-228 | for any list read before the lock, rows no longer due are skipped, the rest retire in list order with an audience event each, and legacy conflicts resolve at the last number |
| Kernel.Kernel.ExpireDue | src/continuum_memory/kernel.py:184-232 | the sweep before a request is the purge transaction followed by the expiry transaction |
| Retention.SweepIsExact | src/continuum_memory/kernel.py:184-253 | after a sweep no lapsed or rejected draft and no lapsed current version of the project is left, and nothing else was removed or retired |
| Retention.SweepOfDrafts | src/continuum_memory/kernel.py:234-253 | a draft that was rejected earlier or whose deadline has come goes and leaves a tombstone that says which of the two; every other draft and every older tombstone stays as it is |
| Retention.SweepOfVersions | src/continuum_memory/kernel.py:184-211 | an unretired version whose deadline has come expires at a number after all earlier ones; every other version stays as it is |
| Retention.SweepGoesInOrder | src/continuum_memory/kernel.py:236-246 | drafts are buried in the order they were created in |
| Retention.VersionsExpireInOrder | src/continuum_memory/kernel.py:188-211 | versions expire in the order they were ingested in |
| Retention.ResolvesExactly | src/continuum_memory/kernel.py:220-227 | an open conflict of the project is resolved, at the last number, exactly if no two of its members are still current |
| Retention.SweepIsARun | src/continuum_memory/kernel.py:184-253 | a sweep is a run of purges, expiries and conflict resolutions, so what holds over runs holds across requests |
| Retention.ExpireRunRow | src/continuum_memory/kernel.py:199-209 | listed due versions expire numbered in list order; every other version is as it was |
| Deliveries.DeliveryMoves | src/continuum_memory/proposals.py:6-17 | a transaction moves a delivery only from unseen to one live proposal to a tombstone naming that proposal |
| Deliveries.DeliveryHistory | src/continuum_memory/proposals.py:53-70 | over every run a buried delivery stays buried unchanged, a live one stays the same proposal until buried, and an unseen one that is live was proposed in the run |
| Deliveries.ReplayIsIdempotent | src/continuum_memory/kernel.py:343-358 | at any later time a delivery that went live is still the same proposal or buried: live, an identical replay answers with its id and another request under its key is refused; buried, every request under the key is suppressed; a key that fails its own check is refused first |
| Kernel.Kernel.Propose | src/continuum_memory/kernel.py:293-412 | after its sweep a proposal is answered as the key check and the delivery state demand (refused key, suppressed, field errors, replayed, conflict, lapsed, created), and only a created one changes the database, by exactly one pending draft with what was proposed and its provenance, its delivery now live |
| Outcomes.ProposalIsDrafted | src/continuum_memory/kernel.py:358-412 | a created proposal is one new pending draft with the content, source and key it came with, and its provenance; its delivery, unseen before, is live |
| Kernel.Kernel.AdminPreview | src/continuum_memory/kernel.py:452-532 | after its sweep it shows the preview of the current state and stores one unspent challenge for exactly that preview, dropping spent and expired ones |
| Approvals.AskedIsShown | src/continuum_memory/kernel.py:534-704 | the preview shown is the one asked for: the pending draft to accept or to reject as asked, the edit under the subject of its target, the memory that the target is, is a version of or was accepted into, or else the draft |
| Approvals.FreshPreviewIsNeverStale | src/continuum_memory/kernel.py:534-704 | a preview of any operation, approved while nothing has changed, can be carried out if and only if the policy admits it, its deadline has not passed and, for a new claim, no current version already says it; it is never refused as stale, missing or out of order |
| Kernel.Kernel.AdminApply | src/continuum_memory/kernel.py:706-797 | refused with the code of the first failing check, or by the audit check before the commit, leaving challenge, receipts and all tables as the sweep left them; or the action, the spent challenge and its receipt in one transaction, and then the tables and the answer are what the approved preview says |
| Outcomes.DecidedFulfils | src/continuum_memory/kernel.py:754-775 | carrying out what was decided on a preview stores the shown claim, marks the shown draft, buries it as rejected or forgotten, or takes the shown memory, as its kind says, and the answer names it with the recorded number and the rows deleted |
| Approvals.DecidedIsDoable | src/continuum_memory/kernel.py:754-775 | whatever an approved preview is decided to do passes every check of that transaction |
| Approvals.SettleKeepsDesk | src/continuum_memory/kernel.py:752-777 | a settled action keeps: a challenge is spent exactly when its nonce has a receipt |
| Recovery.ApprovalsActOnce | src/continuum_memory/results.py:36-49 | over every run with replays, challenge cleanup, expiry and crashes a nonce has at most one committed action; a receipt exists if and only if it committed, holds its answer, and never changes or disappears |
| Recovery.FailedApplyLeavesChallenge | src/continuum_memory/kernel.py:786-788 | a request that commits nothing leaves challenges and receipts exactly as they were |
| Receipts.LocatorOpensOnlyItsReceipt | src/continuum_memory/results.py:21-33 | a locator opens a receipt if and only if vault, capability, nonce, project and the very preview agree |
| Receipts.LocatorAgreesWithDigest | src/continuum_memory/results.py:52-76 | recovering by locator and reading by preview digest agree |
| Receipts.CommittedActionIsRecoverable | src/continuum_memory/results.py:36-76 | the locator handed out with a preview finds nothing before and exactly the committed answer after the approved action |
| Recovery.StepKeepsGood | src/continuum_memory/cli.py:60-108 | every step of every command line, the daemon, late or lost messages and crashes keeps what each command line may rely on |
| Recovery.StartIsGood | src/continuum_memory/cli.py:60-108 | what the runs rely on holds of a world in which nobody has asked for anything yet, for any vault |
| Recovery.BytesLeaveAtMostOnce | src/continuum_memory/cli.py:84-92 | in every run the apply bytes of a nonce leave at most once |
| Recovery.CommitsAreJournaled | src/continuum_memory/recovery_journal.py:157-190 | in every reachable world a committed or in-flight command-line action has a durable journal entry |
| Recovery.SuccessMeansCommit | src/continuum_memory/cli.py:91-108 | a reported success is a commit, with the answer that committed |
| Recovery.RefusalMeansNoCommit | src/continuum_memory/cli.py:99-103 | a reported refusal means the action did not and never will commit, in every run in which no error outside the ambiguous codes follows the commit of this command line's own action, whatever happens to others |
| Recovery.RefusalLiesIff | src/continuum_memory/daemon.py:49-78 | in every run, whatever errors follow a commit, a committed action is reported as refused if and only if its committing delivery answered an error outside the ambiguous codes, the command line received that reply, and it concluded from it |
| Recovery.ReportOfACommit | src/continuum_memory/daemon.py:49-78 | in every reachable world, a command line that concludes about a committed action reports a refusal exactly on an unambiguous error, the committed answer if the reply or a reachable receipt carries it, and unknown otherwise |
| Recovery.RefusalsAreReported | src/continuum_memory/cli.py:99-103 | every refusal of the daemon is reported under its own code, never as unknown nor as a success |
| Recovery.MisreportedCommit | src/continuum_memory/kernel.py:789-797 | a concrete run in which a forget commits, the statement after it fails with unsafe_permissions, and the command line reports a refusal |
| Recovery.AnyCommitCanBeMisreported | src/continuum_memory/daemon.py:69-71 | the handler passes on whatever code is raised, so any action that can be carried out is misreported if an error outside the ambiguous codes follows its commit |
| Client.Admin | src/continuum_memory/cli.py:60-108 | apply is sent at most once and only after authorization and a durable locator; an error before that is reported as itself, a failed journal write as unknown, and anything later by its code alone, with the receipt if the code is ambiguous |
| Client.Recover | src/continuum_memory/cli.py:111-125 | one entry per locator, committed if and only if a reachable receipt exists; the page is complete exactly when all are |
| Client.RecoveryTellsTheTruth | src/continuum_memory/cli.py:111-125 | recovery calls an operation committed only if it did commit, and finds every committed one it can reach |
| Client.RecoveryFindsEveryCommit | src/continuum_memory/cli.py:111-125 | a journal without partial files followed to its end, while others publish and whatever whole files failed publications left, names every command-line action that had committed when the listing started, and its receipt, asked for at any later time, is the committed answer |
| Client.ResidueBlocksListing | src/continuum_memory/recovery_journal.py:124-190 | a listing fails if and only if some entry is a part of a file or its nonce is no id; a whole file that a failed or killed publication left is listed like any other |
| Journal.ReadPage | src/continuum_memory/recovery_journal.py:237-262 | over the limit or invalid exactly as the scan order, the names and the contents demand (an improper name met before the limit is invalid, one after it is not seen); otherwise the first entries after the cursor in file order and a cursor exactly when more remain |
| Journal.ListingMissesNothingOld | src/continuum_memory/recovery_journal.py:237-262 | while others publish, following the cursors lists every locator after its start that existed at the start, once and in order, if no nonce shadows another |
| Journal.PagingIsCompleteIff | src/continuum_memory/recovery_journal.py:254-262 | for every page size each locator is on the first page or beyond its cursor, if and only if no nonce goes on, with a hyphen, where another ends |
| Journal.PagingMissesALocator | src/continuum_memory/recovery_journal.py:254-262 | a clean journal of two locators in which paging can never reach one of them |
| Journal.FileOrder | src/continuum_memory/recovery_journal.py:254-259 | file names sort like their nonces except for exactly such a pair, which they reverse |
| Audit.VerifyAudit | src/continuum_memory/storage.py:510-558 | the report is the one the rows and the file demand: first broken link or MAC, unavailable, malformed, rolled back, mismatched, stale or valid |
| Audit.ReportIsUnique | src/continuum_memory/storage.py:510-558 | every state of rows and file has exactly one report |
| Audit.EqualHeadsEqualHistories | src/continuum_memory/storage.py:365-399 | equal chain heads mean equal event histories |
| Audit.AnchorBindsHistory | src/continuum_memory/storage.py:365-558 | two databases that verify as valid or stale against one anchor hold the same payloads up to the anchored event, however their rows are numbered, unless the anchor stands at zero; at zero, if both number their rows from one on |
| Audit.AnchorBindsIff | src/continuum_memory/storage.py:510-558 | an anchor binds a database against every other one if and only if it stands at an event |
| Audit.AnchoredHead | src/continuum_memory/storage.py:545-558 | the anchored MAC is the head of the chain up to the anchored number if and only if that number is positive or all rows are numbered from one on |
| Audit.NonPositiveRowsEscapeTheAnchor | src/continuum_memory/storage.py:545-555 | an anchor at zero accepts two different histories of one row numbered zero |
| Audit.AppendKeepsChain | src/continuum_memory/storage.py:353-399 | appending keeps an intact chain intact |
| Anchor.AnchorIsAlwaysAPrefix | src/continuum_memory/storage.py:439-471 | over every interleaving of writers, syncs and crashes the anchor names a committed prefix, never moves back, and no committed event is lost |
| Anchor.BootstrapIsSound | src/continuum_memory/storage.py:273-293 | the world bootstrap leaves, with its one event anchored, is where every run starts: it is sound and verifies as valid |
| Anchor.OneSyncMakesItValid | src/continuum_memory/storage.py:439-450 | however stale the anchor was, one completed sync makes it valid |
| Anchor.StuckForever | src/continuum_memory/storage.py:452-464 | from a broken chain or a missing, malformed or mismatched anchor no run commits an event or rewrites the anchor |
| Anchor.AheadForever | src/continuum_memory/storage.py:452-471 | from an anchor ahead of the database no run of writers, syncs and crashes commits an event or rewrites the anchor, unless a checked transaction carries the anchored number and MAC among its new rows |
| Anchor.AheadCommitsIff | src/continuum_memory/storage.py:459-471 | exactly such a transaction passes its check, and its commit stores the rows |
| Anchor.AheadPassesIff | src/continuum_memory/storage.py:545-548 | with an anchor ahead of the rows a pending transaction passes the check if and only if one of its new rows carries the anchored number and MAC |
| Anchor.AheadPassesOnlyTheSameHistory | src/continuum_memory/storage.py:365-558 | and then the database has rewritten the lost events field by field |
| Anchor.ReplayedEventPasses | src/continuum_memory/storage.py:459-464 | a concrete run that commits past an anchor that was ahead |
| Storage.Store.Commit | src/continuum_memory/storage.py:459-471 | refused before anything is written exactly when the check fails; otherwise committed for good, and synced unless an error strikes, in which case the anchor is the old one or the new head |
| Storage.Store.SyncAuditHead | src/continuum_memory/storage.py:439-450 | publishes the current head and makes the report valid, or leaves the anchor alone when the check refuses |
| Temporal.CanonicalDenotesTheSame | src/continuum_memory/temporal.py:15-62 | normalizing denotes the same instant, whatever decimal digits the time of day is written in, and refuses exactly texts outside the subset and instants outside years 1 to 9999 in UTC |
| Offsets.TextDenotes | src/continuum_memory/temporal.py:15-62 | the text written from any stamp, a fraction of up to six digits and an offset of up to 14 hours denotes that stamp, earlier by an offset east of UTC and later by one west; only the offset -00:00 is refused |
| Offsets.AnyScriptDenotes | src/continuum_memory/temporal.py:9-62 | after the date the digits may come from any script and the text denotes the same; the unknown offset is refused in ASCII digits only |
| Offsets.ReadsExactlyWhatIsWritten | src/continuum_memory/temporal.py:9-62 | a text is read as a stamp if and only if it is written in the form of the subset with the fields of that stamp; a bare date is its midnight in UTC |
| Temporal.OrdinalIsGregorian | src/continuum_memory/temporal.py:41-60 | days are counted as the proleptic Gregorian calendar counts them, by the closed form that needs no table of months |
| Temporal.CanonicalIsIdempotent | src/continuum_memory/temporal.py:15-62 | normalizing twice changes nothing |
| Temporal.CanonicalOrder | src/continuum_memory/temporal.py:76-85 | text order of normalized values is time order, and equality is the same instant |
| Temporal.ToUtcIsExact | src/continuum_memory/temporal.py:41-60 | the offset shift carries over days, months and leap years to the same instant and fails exactly outside years 1 to 9999 |
| Temporal.EarlierMeansLess | src/continuum_memory/temporal.py:76-85 | the order of calendar fields is the order of instants |
| Transport.ScanText | src/continuum_memory/transport.py:44-65 | the loop refuses exactly where the scan gets too deep |
| Transport.ScannerIsExact | src/continuum_memory/transport.py:44-65 | on every JSON text the scan accepts if and only if containers nest at most 64 deep, and then ends outside strings and containers |
| Transport.StringKeeps | src/continuum_memory/transport.py:51-58 | no bracket inside a string, also after an escape, is ever counted |
| Transport.EncodeFrame | src/continuum_memory/transport.py:69-79 | the frame is the encoded value and one LF, refused exactly when that exceeds 65536 bytes |
| Framing.StdioTransport.ReadFrame | src/continuum_memory/stdio.py:72-102 | however the stream was cut, the result is its first line if that fits the bound with its LF, the end on an empty stream, too long once the bound is full without an LF, and incomplete if the stream ends before; the rest stays to be read |
| Framing.LinesAreTheStream | src/continuum_memory/stdio.py:72-102 | the accepted lines with their LFs are the stream up to the first line that is too long or not terminated |
| Framing.WrittenLinesAreRead | src/continuum_memory/stdio.py:72-102 | terminated lines within the bound are read back exactly as written |
| Framing.Connection.Serve | src/continuum_memory/daemon.py:151-162 | however recv cuts the bytes, the response is the first line if it fits, an error once it cannot fit, and none if the peer closes first |
| Framing.SameFirstFrames | src/continuum_memory/daemon.py:151-162 | the daemon handles a first line exactly when the stdio reader accepts it |
| Context.Pack | src/continuum_memory/kernel.py:1436-1466 | the capsule holds the largest number of leading cards that fits, each card exactly once among claims and dispute members, stays within the budget with its real token, and is refused exactly when nothing fits |
| Context.CapsuleHoldsTheCards | src/continuum_memory/kernel.py:1438-1450 | accepted claims and dispute members together are the selected cards as a multiset |
| Context.OpenMeans | src/continuum_memory/kernel.py:1442-1449 | each dispute a selected card names is shown with exactly its selected cards, and called complete if and only if it was assessed and all its members are selected |
| Context.WholeMeansNothingMissing | src/continuum_memory/kernel.py:1450-1461 | a capsule is partial if and only if a card was left out, rows remain to be fetched, or a dispute it shows is not shown whole; it counts what it leaves out |
| Context.PlainKeepsOrder | src/continuum_memory/kernel.py:1438-1440 | accepted claims are exactly the undisputed cards, in the order of the listing |
| Context.CapsuleIsAPage | src/continuum_memory/kernel.py:1465-1466 | a capsule is a page of the listing: its cursor resumes right after its last card |
| Cards.ProjectThreads | src/continuum_memory/kernel.py:1255-1273 | the loop over the threads of a page gathers what each thread contributes, exactly and without one overwriting another |
| Cards.ListConflicts | src/continuum_memory/kernel.py:1302-1313 | each dispute that a card names is listed once, with all its members, and no other |
| Cards.DisputedCardsAreMembers | src/continuum_memory/kernel.py:1268-1273 | a card that names an assessed dispute is one of its members |
| Cards.AnswerContext | src/continuum_memory/kernel.py:1417-1466 | from the query to the capsule: the cards and disputes of the query meet what packing needs, so the capsule holds the longest prefix that fits of one page of the listing and its cursor goes on where it stops |
| Cursors.Cursors.Issue | src/continuum_memory/pagination.py:38-45 | lapsed entries go, the oldest make room for at most 256, and the new one is stored |
| Cursors.Cursors.Read | src/continuum_memory/pagination.py:31-36 | a state comes back if and only if the token is stored, not lapsed and bound to this very request |
| Cursors.IssuedTokenLasts | src/continuum_memory/pagination.py:25-45 | a token survives until it lapses as long as at most 255 others are issued after it |
| Continuations.Serve | src/continuum_memory/kernel.py:1211-1222 | a request with a token is refused if and only if the table holds no live entry of that token issued for a search that agrees with it field by field; otherwise it gets the page its pinned snapshot and keyset demand, and a token that stands for the same snapshot and the last key |
| Continuations.FirstRequestReads | src/continuum_memory/kernel.py:1224-1235 | a request without a token reads the moment it asks for, with its own project, provider, mode and valid time |
| Continuations.TokensAreOneSortedRead | src/continuum_memory/kernel.py:1182-1222 | presenting each next_cursor in turn to the end, whatever the ledger does in between, is one sorted read of the snapshot the first request resolved, less what was forgotten |
| Continuations.TokenIsRedeemedIff | src/continuum_memory/kernel.py:1211-1222 | a token given to one request is redeemed, until it lapses and while at most 255 others are issued after it, by exactly the requests that agree with it in capability, provider, project, query text, mode, as-of number, valid time and owner flag |
| Migration.BackfillIsExactIff | src/continuum_memory/migrations.py:355-369 | the ranked backfill equals the incremental timelines if and only if every event is about a version that is still stored and visible |
| Migration.BackfillIsExactAfter | src/continuum_memory/migrations.py:355-369 | over every history from bootstrap, it does so if and only if no forget took a version that a configured provider had been shown |
| Migration.BackfillRebuildsTimelines | src/continuum_memory/migrations.py:355-369 | so it does for every forget-free history |
| Migration.BackfillForgetsForgotten | src/continuum_memory/migrations.py:355-369 | and not after one admission and its forget |

## Left out

- SQLite itself: locking, WAL, pragmas, the checkpoint after a forget, and the FTS5 tokeniser; the lexical score is a function of subject and body that is positive exactly for full-text hits, and the indexed subject is taken to be the thread's.
- Cryptography, the approval brokers, capabilities and their revocation, and permission checks; whether a grant verifies is a parameter of each request.
- Sockets, threads, timeouts and native platform code; only the bytes and their framing are modelled, and the error codes such code raises are parameters.
- Secret detection in admitted text: a verdict that may refuse.
- The JSON shape of cards, the detail views, feedback checks and `status`; they only read what `Reads` selects.
- `show` pages by ingest sequence and id; its listing is the same keyset argument as `search` and is not repeated.
- The columns that nothing here depends on: fingerprints, actors, tool names, recorded wall-clock times, trust tiers, and the query digest and temporal intent of recalls.
- Kernel.Kernel.AdminApply: an audit error raised by the sweep before the transaction, and the anchor state reported after it, are not part of this contract; `Storage.Store.Commit` and `Recovery` state them.
- Kernel.Kernel.ExpireDue: both transactions run without another writer between them; `Kernel.Kernel.ExpireVersions` covers a list that another writer has made stale.
- Kernel.Kernel.ShowPreview: the optional fields of a correction are already filled in by the caller with the target's values.
- Forgetting.ForgetPrunesRecalls: recalls whose stored result list is not a list of strings (the integrity error) are not represented.
- Transport.ScannerIsExact: the JSON parser that runs after the scan, with its duplicate-key and constant checks, is not part of this model.
- Framing.StdioTransport.ReadFrame: deadlines are not modelled, so a stalled stream is not represented.
- Context.Pack: the encoded size is any function that does not depend on which token of the fixed length stands in the cursor.
- Journal.ReadPage: the descriptor, owner and ACL checks on the journal directory are not part of this model; a file either decodes to the locator its name promises or does not; the lookup of a single nonce is not repeated.
- Receipts.LocatorOpensOnlyItsReceipt: the MAC over the receipt row is part of the row, so a tampered row is not represented.
- Bootstrap, its crash recovery, and the v3 to v5 upgrades that only add empty tables.
