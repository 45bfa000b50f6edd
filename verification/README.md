# AOMS: a verified model of its state machines

AOMS is a local shared-memory store for agents. This project models the parts of it whose
correctness does not depend on SQLite, the network or the command line, and proves what they
promise. Tables are maps and sequences, a transaction is one atomic step, and hashing, JSON
validity, the tokenizer, clocks and the embedding provider are parameters about which only the
stated assumptions are made.

| Part | Modules | What is proved |
|---|---|---|
| Contest ledger | Contest, Ledger, LedgerService, CallEffects, LedgerInvariants, Interleavings, AtomicRuns, DriftRuns, OneAnswer, NonInterference, Verdicts, Incidents | what every call judges, stores and answers, on the fields of the rows; exactly when drift stays empty, in every interleaving; conservation of receipts and contested writes; exactly when slots keep one answer each; contested writes do not interfere, in any interleaving |
| Chains in time | Truth, Chains | exactly when chains never fork, in every interleaving; exactly one version is active at every instant; reading the past is stable |
| Embedding queue | EmbeddingQueue, EmbeddingJobs, Backfill (Ordering) | no work lost or counted twice in any interleaving, stale enqueues included; exactly when rows stay in step; a backfill ends with everything embedded |
| Supersession graph | Links, Components, Supersession | cycle detection is exact; head selection hides nothing unexplained; resolving is idempotent |
| Blob recovery | Scanner, ScannerProperties, ScannerRecovery, JsonText, Selection, Recovery, Emission, OutputCheck, RecoverTier | the chunked scan refines the whole-file one; every object of every damaged file is recovered; scan, emit and verify compose to "no failure" |
| Packing | Fences, Bisection, Packer | budget never exceeded; exact costs; greedy and complete; fences cannot be closed from inside |
| Receipts, rate, chunks | Retention, RateLimit, Chunking | exactly when trimming at every save equals trimming once; the rate bound is met and tight; chunking is bounded, lossless and fully determined |

Code that computes values is modelled by functions; code that changes tables or loops over buffers is
modelled by classes and methods, each tied by its contract to a function or predicate about which the
lemmas speak. The ledger is given twice on purpose: as transactions on values (`Ledger`), which the
lemmas about whole runs use, and as objects that assign their fields (`LedgerService`), proved to
perform exactly those transactions. What a transaction does is stated once more on the fields of the
rows it reads and writes (`CallEffects`, and the lemmas named `...Exact`, `...Effects` and `...Means`
elsewhere), so that no result rests on a definition alone.

## What the proofs found

- Moving an entry to another claim key can leave contested records uncovered, and
  `new_claim_key` is accepted with any verdict (aoms/repositories/sqlite.py:1187-1209), not only with
  split. In a store without drift the report stays empty exactly when the entry keeps its key, another
  entry has its slot and author, or no contested record without an entry of its own matches it
  (`AtomicRuns.MoveKeepsDriftEmptyIff`). `Verdicts.SplittingACountedEntryDrifts` is a concrete run of
  four calls that is not of that kind. An entry that counts one write is safe to move only after
  runs without an unsafe move (`AtomicRuns.CountTellsAfterSafeRun`);
  `Verdicts.CountingOneWriteIsNotEnough` is a run after which it is not.
- Safe resolutions suffice only while no call falls between another's reads and its commit
  (`AtomicRuns.DriftUnderMoves`). A write about to be counted into an entry is stranded when the entry
  moves away first (`Incidents.StaleCommitDrifts`). An interleaving stays without drift exactly when
  every resolution is safe and every such write still finds an entry of its slot and author when it
  commits (`DriftRuns.InterleavedDriftIff`).
- An entry may also be resolved between the read and the commit of a write. The write is then counted
  nowhere (`Incidents.CountIsDropped`). Over every interleaving the entries fall short of the contested
  writes by exactly the number of such commits, and so count exactly if and only if there is none
  (`Interleavings.CountsFallShortByLost`); atomic runs have none.
- Admitting a contested answer as a successor closes its entry even when the successor is contested
  again (`Verdicts.SuccessorAdmittedIff` says when, `Incidents.AdmittedSuccessorIsContested` is a run),
  and on an entry that is already closed the call is
  refused only after the successor was written (`AtomicRuns.RefusedResolutionChangesNothingUnless` gives
  the exact guards, `Verdicts.RefusedResolutionLeavesASuccessor` a run).
- An admitting verdict, with or without a new claim key, may put two answers into one slot
  (`Incidents.AdmissionGivesTwoAnswers`); `OneAnswer.AdmissionAgreesIff` says exactly when it does not.
  So may two callers who both found the slot free (`Incidents.BothFoundTheSlotFree`);
  `OneAnswer.InterleavedAgreementIff` says exactly when an interleaving keeps one answer per
  slot, and `OneAnswer.StillAdmittedJoins` that a commit the gate would still admit is never at fault.
- An admitting verdict may fork a chain although all links come from `supersede`
  (`Incidents.AdmissionForksAChain`), and so may two callers who both found a record to be a head
  (`Incidents.BothFoundTheHead`). `Chains.AdmittingKeepsNoForksIff` says exactly when a verdict does not,
  `Chains.AtomicChainsIff` and `Chains.InterleavedChainsIff` when whole runs do not, and
  `Chains.StillHeadExtends` that a commit whose predecessor is still a head is never at fault.
- A scan page that read a record before it was rewritten enqueues the old revision. No work is lost or
  counted twice even then (`EmbeddingQueue.NoWorkLostOrCountedTwice`), but the row is out of step exactly
  when a store in between gave the record a new revision (`EmbeddingQueue.StaleEnqueueBreaksStepIff`,
  for whole runs `EmbeddingQueue.RowsStayInStepIff`), and no claim or completion removes it
  (`EmbeddingQueue.StaleRowNeverCompletes`). The sweep and the backfill are therefore stated for queues
  whose rows are in step with their records.
- Receipts saved out of time order may survive although one trim of the full history would drop them
  (`Retention.OutOfOrderSaveDiffers`). A save of a new id is harmless exactly when no trimmed receipt is
  newer or the trimmed log has no room left for it (`Retention.FreshSaveAgreesIff`);
  `Retention.SaveAgreesIff` covers saves over an existing id too, and
  `Retention.IncrementalEqualsBatchIff` whole histories.
- The fence of a truncated block is measured on another JSON form of the record than the one it
  encloses (aoms/recall.py:565-575). `Fences.CutFenceHolds` shows this to be safe.

## Model

| member | source | states |
|---|---|---|
| Contest.GateIsMonotone | aoms/contest.py:188-281 | a contested write stays contested with more occupants or more triggers enabled: nothing added ever lets it in |
| Contest.AdmittedWritesFitTheSlot | aoms/contest.py:188-281 | with slot collision enabled, an admitted write found its slot free, repeats the digest of every occupant, or names the only occupant as its predecessor |
| Contest.GateDecides | aoms/contest.py:188-281 | disposition, trigger and incumbents of every write, on its fields: a keyed write that differs from some occupant is contested as derived if it has sources, else as retrograde if some occupant was asserted strictly later, else as a collision if some occupant is not the one it declares to supersede, each only if the rule is enabled, and is admitted otherwise |
| Contest.GateExplains | aoms/contest.py:188-281 | the figures in a verdict count just the sources, the later occupants or the undeclared ones; repeating the slot and declaring all of it are reported as such |
| Contest.NothingAdmittedBehindTime | aoms/contest.py:240-258 | with the retrograde rule enabled, an admitted write that differs from an occupant was asserted no earlier than any occupant |
| Ledger.OpenContestForSlot | aoms/repositories/sqlite.py:1021-1044 | answers the earliest open entry of that key, scope and author, and nothing exactly when there is none; CallEffects.RememberEffects states that it is the earliest by opening time and id |
| LedgerService.MemoryRepository.WriteLedgerRows | aoms/repositories/sqlite.py:875-920 | files the entry or counts the write into an entry that is still open, and appends the receipt: exactly the value transaction |
| LedgerService.MemoryRepository.StoreIfContentUnchanged | aoms/repositories/sqlite.py:793-870 | an id is created once with its ledger rows; later writes of it change nothing and are answered by comparing content |
| LedgerService.MemoryRepository.StoreNew | aoms/repositories/sqlite.py:710-791 | the insert-only path, refusing an id already in use |
| LedgerService.MemoryRepository.ResolveContest | aoms/repositories/sqlite.py:1164-1259 | one atomic resolution: record re-admitted or re-keyed, entry closed, receipt appended, or nothing at all; it keeps the invariant, the receipts' balance and all stored content |
| LedgerService.Application.Adjudicate | aoms/application.py:220-278 | judges against the slot as read now and picks the open entry a contested write is counted into; CallEffects.WriteIsJudged says what that verdict is |
| LedgerService.Application.RememberWrite | aoms/application.py:97-218 | the whole remember call, with every refusal, as a transaction on the stored tables; it keeps the invariant, the receipts' balance and all stored content; CallEffects.RememberEffects says which rows it writes |
| LedgerService.Application.SupersedeRecord | aoms/application.py:410-452 | the whole supersede call: scope, headship and id checks, then a create-only write; it keeps the invariant, the receipts' balance and all stored content; CallEffects.SupersedeEffects says which row it writes |
| LedgerService.Application.ResolveContest | aoms/application.py:454-573 | the whole resolve call for the four verdicts, including the successor write that precedes an admit-superseding; it keeps the invariant, the receipts' balance and all stored content; CallEffects.ResolveEffects says what it changes and what its receipt holds |
| CallEffects.ScopesBind | aoms/application.py:623-628 | a record is visible to a reader exactly when it is global, or shared with the reader's workspace, or private to the reader |
| CallEffects.OccupantsExact | aoms/repositories/sqlite.py:968-998 | a slot is occupied by exactly the admitted records of its key and scope that no admitted record of it supersedes |
| CallEffects.WriteIsJudged | aoms/application.py:220-278 | the verdict, trigger and incumbents of every write, stated on the stored records of its slot |
| CallEffects.RememberEffects | aoms/application.py:97-218 | a stored write adds one record with what was asked, by whom and when, one receipt with its digest, verdict, trigger and incumbents, and when contested a count in the earliest open entry of its key, scope and author or a new entry if there is none; any other outcome changes nothing |
| CallEffects.RepeatedWrite | aoms/application.py:97-118 | a write of a used id changes nothing and answers with the record exactly when the caller sees it and repeats its content |
| CallEffects.SupersedeEffects | aoms/application.py:410-452 | a successor has its predecessor's scope, its key unless another is given, and declares it |
| CallEffects.ResolveSucceedsIff | aoms/application.py:454-573 | a resolve call succeeds if and only if the entry is open, the caller sees the record, a split goes to a key nobody holds, and an admission as successor names an incumbent that can be superseded |
| CallEffects.ResolveEffects | aoms/application.py:536-573 | a successful resolve closes the entry under the verdict, re-files entry and record under a new key, admits the record for admit and split only, leaves its content alone, and appends a receipt with the verdict, disposition, key, digest, incumbents and count |
| CallEffects.LineageExact | aoms/repositories/sqlite.py:1548-1601 | a lineage holds exactly the visible admitted records joined to the root by declared links, followed in either direction through visible admitted records, within the depth |
| LedgerInvariants.SoundAndCoveredMeansNoDrift | aoms/repositories/sqlite.py:2681-2746 | the invariant kept by the proofs implies that the drift report is empty |
| LedgerInvariants.DriftReports | aoms/repositories/sqlite.py:2681-2746 | a record is reported exactly when its bit disagrees with its disposition, an open entry stands against it though it is not contested, or it is contested with neither an entry of its own nor one of its key, scope and author |
| LedgerInvariants.WriteKeepsSound | aoms/repositories/sqlite.py:793-920 | a commit of any earlier decision keeps bit and disposition equal and every open entry against a contested record, and loses nothing stored |
| LedgerInvariants.WriteKeepsCoveredIff | aoms/repositories/sqlite.py:875-920 | a commit of any earlier decision leaves every contested record covered if and only if a write to be counted into an entry still finds one of its slot and author |
| LedgerInvariants.WriteCountsOnce | aoms/repositories/sqlite.py:900-920 | a stored contested write raises the occurrence total by one, or by nothing exactly when the entry read for it is no longer open |
| LedgerInvariants.ResolutionKeepsSound | aoms/repositories/sqlite.py:1164-1259 | a resolution with any verdict and key keeps the same invariant and all content |
| LedgerInvariants.ResolutionKeepsBalance | aoms/repositories/sqlite.py:1175-1214 | a resolution keeps receipts equal to claim-keyed records plus resolved entries |
| Interleavings.DriftStaysEmpty | aoms/repositories/sqlite.py:2681-2746 | in every interleaving of remember, supersede and resolve, slot read and commit apart, with no key moved, the drift set is empty |
| Interleavings.LedgerBalances | aoms/repositories/sqlite.py:793-920 | in every interleaving with every verdict: an id's content never changes or disappears, and receipts number the claim-keyed records plus the resolved entries |
| Interleavings.CountsFallShortByLost | aoms/repositories/sqlite.py:875-920 | in every interleaving with any verdicts and keys, occurrence counts plus the commits that found their entry resolved equal the writes stored as contested, so the counts are exact if and only if there was no such commit |
| Interleavings.OccurrencesNeverOvercount | aoms/repositories/sqlite.py:875-920 | in every interleaving with any verdicts and keys, entries never count more writes than were stored as contested |
| AtomicRuns.ResolveAsOps | aoms/application.py:454-573 | a resolve call is a run of at most one supersede and one atomic resolution, so what holds of runs holds of it |
| AtomicRuns.AtomicRunsInterleave | aoms/application.py:97-278 | every atomic run is an interleaving of the separated steps, so what holds of all interleavings holds of it |
| AtomicRuns.SupersedeStoresIff | aoms/application.py:410-452 | a supersede call stores its record, and changes anything at all, if and only if its predecessor is stored, accessible and a head and its ids are free; it closes no entry |
| AtomicRuns.RefusedResolutionChangesNothingUnless | aoms/application.py:454-573 | a refused resolve call changes the store if and only if the verdict is admit-superseding on an accessible entry already closed, whose incumbent is stored, accessible and a head, and the successor id and ledger keys are free |
| AtomicRuns.ContestedWritesAreConserved | aoms/repositories/sqlite.py:1021-1044 | in atomic runs with any verdicts and keys, occurrence counts add up to exactly the contested writes, and each slot and author has at most one open entry |
| AtomicRuns.MoveKeepsDriftEmptyIff | aoms/repositories/sqlite.py:1187-1209 | in every sound store without drift: resolving an open entry keeps the drift report empty if and only if its key stays, a sibling entry has its slot and author, or it stands for no contested record but its own |
| AtomicRuns.DriftUnderMoves | aoms/repositories/sqlite.py:2681-2746 | for calls run one after another: the drift report is empty throughout a run with any verdicts and keys if and only if every one of its resolutions is safe in that sense |
| AtomicRuns.CountTellsAfterSafeRun | aoms/repositories/sqlite.py:900-920 | after a run without an unsafe move, an open entry without a sibling stands for other records if and only if it counts more than one write |
| DriftRuns.InterleavedDriftIff | aoms/repositories/sqlite.py:2681-2746 | in every interleaving with any verdicts and keys, the drift report stays empty throughout if and only if every resolution of an open entry is safe and every write to be counted into an entry still finds one of its slot and author when it commits |
| Verdicts.SplittingACountedEntryDrifts | aoms/repositories/sqlite.py:1187-1209 | three answers of one agent and one split into an empty slot: the drift report, empty before, is not empty after |
| Verdicts.CountingOneWriteIsNotEnough | aoms/repositories/sqlite.py:1187-1209 | after that split and a fourth answer the report is empty and the new entry counts one write, yet splitting it makes the report non-empty |
| Verdicts.RefusedResolutionLeavesASuccessor | aoms/application.py:485-513 | after two answers and a set-aside, admitting the second as a successor is refused because its entry is closed, and the store has changed |
| Verdicts.SuccessorAdmittedIff | aoms/application.py:485-513 | the successor of an admit-superseding verdict is admitted if and only if the slot is free, held by the named incumbent alone, or already agrees |
| Verdicts.SecondAnswerContested | aoms/contest.py:255-281 | a different answer into a slot held by a record is contested |
| Incidents.AdmissionGivesTwoAnswers | aoms/application.py:514-535 | two different answers and a plain admission of the second: both hold the slot |
| Incidents.BothFoundTheSlotFree | aoms/application.py:220-345 | two callers read a free slot before either commits: both are admitted with different answers |
| Incidents.AdmittedSuccessorIsContested | aoms/application.py:485-513 | in a slot held by two records, admitting a third answer as successor of one reports success and closes its entry, and the successor is contested |
| Incidents.AdmissionForksAChain | aoms/repositories/sqlite.py:1220-1259 | a record superseded by a contested and then by an admitted answer has two admitted successors after the first is admitted |
| Incidents.BothFoundTheHead | aoms/application.py:410-452 | two callers find a record to be a head before either commits: both successors are admitted |
| Incidents.StaleCommitDrifts | aoms/application.py:262-278 | an entry moves, safely at that moment, between the read and the commit of a write to be counted into it: the drift report is not empty afterwards |
| Incidents.CountIsDropped | aoms/repositories/sqlite.py:900-920 | an entry is set aside between the read and the commit of a write to be counted into it: two contested writes are stored and one is counted |
| OneAnswer.OneCurrentAnswer | aoms/repositories/sqlite.py:968-998 | for every ruleset with slot collision, in every atomic run whose admitting verdicts go into free slots, all occupants of a slot have one content digest |
| OneAnswer.ResolveCallAdmitsIntoFreeSlot | aoms/application.py:514-535 | every resolve call other than a plain admission meets that condition |
| OneAnswer.AdmissionAgreesIff | aoms/repositories/sqlite.py:1187-1259 | any admitting verdict, with or without a new claim key, keeps the slot it admits into at one answer if and only if the record agrees with every occupant it does not supersede, or is itself displaced there |
| OneAnswer.InterleavedAgreementIff | aoms/application.py:220-345 | for every ruleset, an interleaving keeps one answer in every slot throughout if and only if every admitted commit and every admitting verdict meets the condition at the moment it happens |
| OneAnswer.StillAdmittedJoins | aoms/application.py:220-345 | a commit of a decision made earlier meets the condition whenever the gate would still admit the write against the slot as it is now |
| OneAnswer.AtomicAgreementIff | aoms/application.py:454-573 | for every ruleset with slot collision, an atomic run of any calls keeps one answer in every slot throughout if and only if every admitting verdict meets that condition |
| OneAnswer.DisplacedForGood | aoms/repositories/sqlite.py:968-998 | in every interleaving, a record displaced by an admitted successor in its slot never occupies that slot again |
| NonInterference.ContestedWritesDoNotInterfere | aoms/application.py:97-345 | in every interleaving of slot reads, commits and resolutions without an admitting verdict, in which no step names a contested record: letting every contested write give up instead of committing and dropping every set-aside leaves each other write's verdict, incumbents and outcome, the admitted store, slots, lineage and the callers under way unchanged |
| NonInterference.ContestedCallsDoNotInterfere | aoms/application.py:97-278 | the same for atomic runs, down to the result of every whole call that is kept |
| NonInterference.LineageReadsAdmitted | aoms/repositories/sqlite.py:1548-1601 | a lineage read depends on admitted records alone |
| NonInterference.OccupantsReadAdmitted | aoms/repositories/sqlite.py:968-998 | a slot read depends on admitted records alone |
| Truth.ReconstructTimeline | aoms/truth.py:183-215 | one version per record in creation order, with exactly its successors, its closing time the earliest successor's, and activity as defined at the instant asked for |
| Truth.GroupSuccessors | aoms/truth.py:188-196 | each id is mapped to exactly the records that declare it as predecessor |
| Truth.PastReadsAgree | aoms/truth.py:183-215 | reading a past instant from all records or from those written by then gives the same activity |
| Truth.SortSorts | aoms/truth.py:186-187 | the ordering used is a permutation of its input, sorted by creation time and then id |
| Chains.DirectSuccessorsExact | aoms/application.py:420-434 | the head check of supersede sees exactly the admitted successors, when the record itself is visible |
| Chains.TimelinesTile | aoms/application.py:410-452 | in every atomic run of supersede under a monotone clock, whose admitting verdicts extend the chains, chains never fork, and at every instant from the root's creation exactly one version is active |
| Chains.ReconstructionAgrees | aoms/truth.py:183-215 | the reconstruction's activity is activity among the admitted records |
| Chains.AdmittingKeepsNoForksIff | aoms/repositories/sqlite.py:1220-1259 | an admitting verdict keeps chains unforked if and only if no admitted record supersedes what its record supersedes and at most one supersedes the record itself |
| Chains.AtomicChainsIff | aoms/application.py:410-535 | in every atomic run in which links come from supersede alone, chains never fork if and only if every admitting verdict meets that condition |
| Chains.InterleavedChainsIff | aoms/application.py:220-452 | in every interleaving, whoever declares links and whatever the verdicts, chains never fork if and only if every admitted commit and every admitting verdict meets that condition when it happens |
| Chains.StillHeadExtends | aoms/application.py:410-452 | a commit whose predecessor is still visible and a head meets that condition |
| EmbeddingQueue.CompletionCountsRemovals | aoms/repositories/sqlite.py:2183-2215 | what a completion returns is the number of rows it removed; rows of other tokens or revisions stay |
| EmbeddingQueue.ClaimIsExclusive | aoms/repositories/sqlite.py:2135-2169 | a claim takes as many free or expired rows as the limit allows, each once, in order of enqueueing time and then id, every row taken before every claimable row left behind; it marks them with its token and time and hands out each row's revision and attempts |
| EmbeddingQueue.FailureKeepsRows | aoms/repositories/sqlite.py:2229-2243 | a failure report removes nothing and changes only rows held under its tokens |
| EmbeddingQueue.EnqueueEffects | aoms/repositories/sqlite.py:2989-3015 | a row for another revision, or none, becomes a fresh one enqueued now; a row for this revision is left as it is and not counted |
| EmbeddingQueue.CompletionEffects | aoms/repositories/sqlite.py:2183-2215 | a completion stores the vector of a record still at the item's revision and removes the row if held under its token and for that revision; else it does nothing |
| EmbeddingQueue.FailureEffects | aoms/repositories/sqlite.py:2229-2243 | a failure under the right token counts the attempt, keeps the error, frees the row, and changes nothing else |
| EmbeddingQueue.EnqueueKeepsStep | aoms/repositories/sqlite.py:2989-3015 | enqueueing at current revisions keeps every row in step with its record, touches no other row, and returns the rows added |
| EmbeddingQueue.NoWorkLostOrCountedTwice | aoms/repositories/sqlite.py:2135-2323 | under any interleaving of stores, claims, expiries, stale completions, failures, scans and stale enqueues: each record has a row or a current vector, and returned counts add up to exactly the rows that left the queue |
| EmbeddingQueue.RowsStayInStepIff | aoms/repositories/sqlite.py:2259-2323 | over a whole run every row stays in step with its record if and only if every page was still current when it was enqueued |
| EmbeddingQueue.StaleEnqueueBreaksStepIff | aoms/repositories/sqlite.py:2259-2323 | a record scanned and enqueued later has a row in step with it if and only if no store in between gave it a new revision |
| EmbeddingQueue.StaleRowNeverCompletes | aoms/repositories/sqlite.py:2183-2215 | a row out of step survives every claim, completion, failure and scan, and every store and enqueue of other records |
| EmbeddingJobs.VectorRepository.ClaimPending | aoms/repositories/sqlite.py:2135-2169 | the claim step on the stored tables is the specified one, whose order EmbeddingQueue.ClaimIsExclusive states |
| EmbeddingJobs.VectorRepository.CompletePending | aoms/repositories/sqlite.py:2183-2215 | the completion loop is the specified one, and a malformed vector changes nothing |
| EmbeddingJobs.VectorRepository.FailPending | aoms/repositories/sqlite.py:2229-2243 | the failure loop is the specified one |
| EmbeddingJobs.VectorRepository.ScanRecords | aoms/repositories/sqlite.py:2259-2284 | a page of records after the cursor, those without a current vector, and the next cursor |
| EmbeddingJobs.PageAdvances | aoms/repositories/sqlite.py:2259-2284 | moving the cursor to a page's last id leaves exactly the records that were not on it |
| EmbeddingJobs.HeldItemsComplete | aoms/repositories/sqlite.py:2183-2215 | completing items just claimed removes every one of their rows |
| EmbeddingJobs.SweepPending | aoms/embedding_jobs.py:27-101 | the figures returned account for the queue; the batch limit is kept and the sweep ends with the first batch that fails; without failures, and with no row under a live claim, it ran dry or met its batch limit; rows under expired claims are finished too; bad arguments change nothing |
| Backfill.BackfillEmbeddings | aoms/backfill.py:45-123 | from any in-step queue without live claims (expired ones are taken over) and with a provider that answers, unless it spent its batch limit it ends with nothing pending, every record embedded and `scanned` equal to the record count, for every batch size; in every case the figures account for the queue, the batch limit is kept and at most one batch fails |
| Backfill.PageServed | aoms/backfill.py:95-123 | enqueueing what a page lacks serves every record up to the page's end |
| Links.Walk | aoms/recall.py:288-301 | a walk ends by meeting its own path or by leaving for settled ground |
| Links.WalkFindsCycle | aoms/recall.py:288-301 | of a finished walk exactly the part behind the meeting point lies on a cycle |
| Components.Component | aoms/recall.py:303-315 | the stack search finds exactly the records connected to its start, links read both ways |
| Supersession.CycleIds | aoms/recall.py:288-301 | for every starting order, the ids found are exactly the records that reach themselves through in-set links |
| Supersession.ProtectedIds | aoms/recall.py:303-326 | the protected records are exactly those of components that contain a cycle |
| Supersession.LinksOfRanking | aoms/recall.py:272-287 | in a ranking without repeated ids a record is linked to the one it supersedes exactly if that is ranked too |
| Supersession.ResolveSupersessionChains | aoms/recall.py:272-347 | suppressed are exactly the records an unprotected one supersedes; the packable list is the ranking without them, in order; predecessors are the heads' own links |
| Supersession.SuppressedHasHead | aoms/recall.py:328-338 | every suppressed record is reached by following links from a packable head |
| Supersession.PackableAreHeads | aoms/recall.py:328-338 | outside cyclic components the packable records are exactly the heads; cyclic components are left whole |
| Supersession.SomethingIsPackable | aoms/recall.py:336-338 | a non-empty ranking leaves something to pack |
| Supersession.ResolvingAgainSuppressesNothing | aoms/recall.py:272-347 | resolving the result again suppresses nothing |
| Supersession.CycleKeys | aoms/truth.py:123-145 | each cycle is reported exactly once, none missed and none invented |
| Scanner.IterJsonObjects | scripts/recover_blobs_v2.py:76-172 | for every split of the file into chunks, the objects and bad spans are those of the whole-file scan |
| Scanner.CandidateByte | scripts/recover_blobs_v2.py:119-163 | one byte inside an open object keeps depth, string and escape state and the collected parts in step with the whole-file scan |
| ScannerProperties.ScanCoversFile | scripts/recover_blobs_v2.py:76-172 | spans are disjoint, in file order, objects are the file's own bytes, and every byte outside is space, tab, CR or LF; ScannerRecovery.RecoversEveryObject says which spans they are |
| ScannerProperties.ScanSplitsBack | scripts/recover_blobs_v2.py:76-172 | balanced object texts written one after another, with blanks between or not, come apart into exactly those objects |
| ScannerProperties.RescanGivesTheSameObjects | scripts/recover_blobs_v2.py:386-407 | scanning the newline-terminated objects of any scan gives those objects again and no bad span |
| ScannerRecovery.RecoversEveryObject | scripts/recover_blobs_v2.py:76-172 | for every file made of any bytes without an opening brace, accepted objects, refused balanced texts, lines torn off inside an object, and possibly an object cut by the end of the file: the scan yields exactly the objects at their places, and for every stretch, refused text, torn line and cut object one span with its own reason; a stretch is reported up to the next brace |
| ScannerRecovery.EveryFileIsParts | scripts/recover_blobs_v2.py:76-172 | every file at all is made of such parts |
| ScannerRecovery.CutObjectIsTorn | scripts/recover_blobs_v2.py:76-172 | an object cut off anywhere but right behind an escaping backslash, with a newline after it, is such a torn line |
| ScannerRecovery.LeadExact | scripts/recover_blobs_v2.py:112-117 | a stretch is reported from its first byte that is no space, tab, CR or LF |
| JsonText.ObjectIsBalanced | scripts/recover_blobs_v2.py:112-158 | every compact JSON object with escaped strings (section 7 of RFC 8259) is one balanced text to the scanner |
| JsonText.ConcatenatedObjectsComeApart | scripts/recover_blobs_v2.py:76-172 | any concatenation of compact JSON objects is split back into exactly those objects |
| Selection.BestIsFirstMaximum | scripts/recover_blobs_v2.py:326-342 | the winner of a key is timed if any holder is, no holder has a later time, at its time none has a higher field priority, and among full ties it comes first |
| Selection.StampIsFirstParsed | scripts/recover_blobs_v2.py:217-227 | the stamp of a record is its first timestamp field that parses, with a priority that falls with the field's position |
| Selection.WinnerBytesStep | scripts/recover_blobs_v2.py:331-342 | one more holder adds its bytes to its file when it wins, and the displaced winner's file gives its bytes back |
| Recovery.Select | scripts/recover_blobs_v2.py:331-342 | the incremental winner table and byte counts follow that selection, across files |
| Recovery.ScanTier | scripts/recover_blobs_v2.py:278-364 | after pass 1 the winners are the tier-wide selection and every report counts its objects, ids, schema lines, winners and the bytes they will take |
| Recovery.CountByFile | scripts/recover_blobs_v2.py:349-354 | the per-file winner counts are exact |
| Recovery.CountExact | scripts/recover_blobs_v2.py:296-312 | each count of a report is the number of that file's items of its kind |
| Emission.EmissionMatchesScan | scripts/recover_blobs_v2.py:367-414 | what pass 1 counted for a file (bytes, data, schema) is what pass 2 writes to it |
| Emission.EmitTier | scripts/recover_blobs_v2.py:367-414 | the emit-mismatch error cannot occur, each file receives its schema objects and winners in source order, and as many bytes as projected |
| Emission.KeyEmittedOnce | scripts/recover_blobs_v2.py:386-407 | of the data records that share an id, or a content, exactly one is written: timed if any of them is, none later, at its time none of higher field priority, and the first among full ties |
| Emission.UnkeyedItems | scripts/recover_blobs_v2.py:386-407 | schema objects are always written; other values that are no objects, and records without an id when ids decide, never |
| Emission.KeptInOrder | scripts/recover_blobs_v2.py:386-407 | a file receives exactly its schema objects and winners, each once and in source order |
| OutputCheck.VerifyOutputs | scripts/recover_blobs_v2.py:417-516 | no failure is reported if and only if every line is a terminated schema or keyed object, the counts match and no key occurs twice in the tier |
| OutputCheck.CleanTierMeans | scripts/recover_blobs_v2.py:417-516 | that condition line by line: terminated, decoding to a schema object or a record with a key, numbers as reported, and no two lines of the tier with the same record |
| OutputCheck.LinesExact | scripts/recover_blobs_v2.py:440-452 | the lines are the whole file, end at their newlines and hold none before, and only the last may lack one |
| RecoverTier.EmittedTierIsClean | scripts/recover_blobs_v2.py:367-516 | whatever the input, the emitted tier satisfies the verifier's condition, for every decoder as described below |
| RecoverTier.ObjectIsOneLine | scripts/recover_blobs_v2.py:127-142 | an accepted object holds no newline, so it is one physical line of the output |
| RecoverTier.RecoverOneTier | scripts/recover_blobs_v2.py:568-627 | for every input, chunking, key mode and such decoder: no mismatch, no verification failure, and bytes written equal bytes projected |
| Fences.FenceLength | aoms/recall.py:422-430 | the fence is at least four long, longer than every backtick run of the payload, and no longer than that needs (section 4.5 of CommonMark 0.31) |
| Fences.MaxRunExact | aoms/recall.py:422-430 | the counted maximum is exact: a run of n exists if and only if n does not exceed it |
| Fences.DumpRuns | aoms/recall.py:395-419 | a JSON text has a run longer than n only where one of its string values has |
| Fences.EscapeReadsBack | aoms/recall.py:433-450 | a value escaped into the JSON text reads back as itself: nothing in it ends its string or is lost |
| Fences.ShownValues | aoms/recall.py:395-419 | the text shows the content or excerpt, the record's own fields, its predecessor and its contest notice, and no other value |
| Fences.CutFenceHolds | aoms/recall.py:565-582 | the fence measured on the whole content outruns every excerpt with no longer run |
| Bisection.Search | aoms/recall.py:586-604 | whatever the tokenizer counts, the search ends at a cut that fits while the next longer one does not |
| Packer.EdgeIsLongest | aoms/recall.py:586-604 | when counts grow with the excerpt, exactly the prefixes up to that cut fit |
| Packer.CutIsLongest | aoms/recall.py:554-604 | the truncation keeps the longest token prefix that fits |
| Packer.TruncateFirstRecord | aoms/recall.py:554-604 | refuses exactly when the empty wrapper is over budget, and otherwise yields such a cut |
| Packer.Pack | aoms/recall.py:470-552 | for every tokenizer with count("") = 0: the closing assertion cannot fail, every record is packed in rank order or rejected, a rejected one did not fit behind those packed before it, and only the first packed may be cut |
| Packer.CostsAddUp | aoms/recall.py:488-549 | token costs add up to the exact count of the context |
| Packer.ContextIs | aoms/recall.py:470-552 | the context is the packed blocks with a blank line between each and the next |
| Packer.PackedBlocksAreFenced | aoms/recall.py:433-463 | every packed block consists, character by character, of plain lines, a line of n backticks before `json`, a payload, a line of n backticks and a plain line, where n is at least four and no n backticks follow each other in the payload; the payload is the record shown complete or as cut. For complete blocks this holds for every tokenizer, for cut ones when prefixes of its tokens decode to a prefix of the content followed by no backtick |
| Retention.PruningKeepsTheLongestPrefix | aoms/repositories/sqlite.py:2355-2394 | what is left is the longest newest-first prefix within both bounds, or the newest alone, never empty when the limit allows one |
| Retention.PruneEarly | aoms/repositories/sqlite.py:2326-2353 | trimming before a newer receipt arrives loses nothing that trimming after it would keep |
| Retention.IncrementalEqualsBatch | aoms/repositories/sqlite.py:2326-2394 | for receipts saved newest last, trimming at every save equals trimming the full history once |
| Retention.SaveAgreesIff | aoms/repositories/sqlite.py:2326-2394 | one save, of a new id or over an existing one: trimming before and after it equals trimming once if and only if the newest missing receipt would not be kept with it and it takes no room that receipt would have stood in |
| Retention.FreshSaveAgreesIff | aoms/repositories/sqlite.py:2326-2394 | for a receipt with a new id that condition is: no trimmed receipt is newer, or the trimmed log has no room left for it |
| Retention.IncrementalEqualsBatchIff | aoms/repositories/sqlite.py:2326-2394 | for receipts saved and saved again in any order: trimming at every save equals trimming once, throughout, if and only if every save meets the condition of SaveAgreesIff |
| Retention.OutOfOrderSaveDiffers | aoms/repositories/sqlite.py:2372-2390 | three receipts saved out of order after which a receipt is kept that one trim of the full history would drop |
| Retention.KeepNewest | aoms/repositories/sqlite.py:2372-2390 | numbering and summing newest first keeps exactly the receipts of the statement's condition |
| Retention.ReceiptLog.SaveRecallReceipt | aoms/repositories/sqlite.py:2326-2353 | a save inserts or replaces its receipt and leaves the trimmed log |
| RateLimit.TokenBucketLimiter.Consume | aoms/auth.py:321-335 | accepts exactly when the refilled level is at least one, and spends one from that key's bucket alone |
| RateLimit.TokensStayInRange | aoms/auth.py:321-335 | under any clock every bucket holds between nothing and the capacity |
| RateLimit.RateBound | aoms/auth.py:302-335 | under a non-decreasing clock, any window of length T holds at most capacity + rate * T accepted calls of a key |
| RateLimit.RefusedOnlyAtTheBound | aoms/auth.py:321-335 | a call is refused if and only if accepting it would break that bound for some window |
| RateLimit.SpacedCallsAreAccepted | aoms/auth.py:321-335 | a call at least 1/rate after the key's previous one, and a key's first call, are always accepted |
| Chunking.ParagraphsKeepInk | aoms/importers/markdown.py:344-347 | splitting at blank lines loses no non-whitespace character; Chunking.ParagraphsExact says where it splits |
| Chunking.ParagraphsExact | aoms/importers/markdown.py:344-347 | a text is cut only at blank lines and at each of them: no part holds one, and a gap takes in all the blank lines it can |
| Chunking.StripExact | aoms/importers/markdown.py:344-347 | trimming takes whitespace from the two ends and nothing else |
| Chunking.SlicesExact | aoms/importers/markdown.py:351-359 | the slices of a paragraph put together are the paragraph, all but the last of the target size |
| Chunking.SplitOversize | aoms/importers/markdown.py:344-366 | every chunk within the target, the non-whitespace characters exactly the text's in order, and no two neighbours that would have fitted into one when every paragraph fits; every chunk joins the next few pieces with a blank line between each and the next, trimmed, and the piece after those would not have fitted |
| Chunking.GatherSections | aoms/importers/markdown.py:325-341 | all sections in order: those that fit share chunks, a blank line between each and the next, until the next would not fit; only an oversized one is cut, alone; nothing is lost |
| Chunking.Sections | aoms/importers/markdown.py:316-323 | the lead and one section per heading, trimmed, covering the body |
| Chunking.Chunks | aoms/importers/markdown.py:314-342 | for every body, heading positions and target: bounded and lossless, and with headings no chunk is blank; without headings the chunks of the split, with headings those of the gathered sections that are not blank |

## Left out

- SQLite, migrations, FTS scoring, vector search and busy retries; a transaction is one atomic step.
- Importer upserts, bundle restore and ownership assignment, which write around the gate and the queue.
- Text search as of a past instant (aoms/repositories/sqlite.py:1720-1852); it does not filter contested successors, so it lies outside the non-interference result.
- Record kinds, tags, metadata, provenance, confidence, resolution notes and resolution times: stored and returned, never branched on here.
- Ids, claim keys and authors are numbers where only equality and order matter; incumbent ids are a set, where the program lists them sorted.
- Collisions of freshly drawn receipt ids, and content digest collisions (the digest is any function).
- Comma-free ids are assumed for the path strings of the lineage query.
- The remaining findings of `diagnose_chains` (aoms/truth.py:81-180): comprehensions over the successor lists, and for `MULTIPLE_HEADS` a component search of the kind `Components.Component` covers.
- One embedding profile; background tasks and their logging; the provider's own retries.
- EmbeddingJobs.SweepPending: stated for queues whose rows carry their records' current revisions; what happens otherwise is stated by EmbeddingQueue.StaleRowNeverCompletes.
- Backfill.BackfillEmbeddings: progress callbacks are left out, and completeness is stated without concurrent writers and without leases that are still live at some claim of the run.
- Chains.TimelinesTile: links come from `supersede` and calls run one after another; Chains.InterleavedChainsIff says when chains stay unforked otherwise.
- Packer.PackedBlocksAreFenced: for cut blocks the tokenizer must decode prefixes of the content's tokens to prefixes of the content, up to a tail without backticks (such as a replacement character for half a code point).
- RecoverTier.RecoverOneTier: one tier at a time, on input that does not change between the passes; of the JSON decoder it is assumed, for balanced object texts only, that a trailing newline does not matter and that no accepted one has a backslash right before a newline.
- Duplicate ratios, per-file distinct counts, and the sizes and memory figures of the recovery report; unreadable files.
- RateLimit.TokenBucketLimiter.Consume: arithmetic is exact where the program's is floating point.
- RateLimit.TokenBucketLimiter.constructor: rejects no argument; a rate above 0 and a capacity of at least 1 are required, where the program raises.
- Packer.Pack: the JSON layout is modelled as far as runs of backticks depend on it; key quoting, indentation depth and number formats are plain text, and provenance is a list of texts.
- Finding headings by regular expression: `Chunking.Chunks` takes their positions as given.
- Score arithmetic, token authentication, the command line, the HTTP and MCP servers and the dashboards.
