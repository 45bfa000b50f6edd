/** The resumable backfill (aoms/backfill.py):
    drain the queue, then scan, enqueue and embed page by page.

    The figures it returns account for the queue at every step. */
module Backfill {
  import opened Common
  import opened Ordering
  import opened EmbeddingQueue
  import opened EmbeddingJobs

  datatype BackfillResult = BackfillResult(scanned: nat, queued: nat, embedded: nat, failed: nat, batches: nat,
                                           pending: nat)

  const DEFAULT_LEASE: nat := 300

  /** Rows left behind by a worker that died may still carry its claim, if that has expired. */
  ghost predicate NothingHeld(q: Queue, clock: nat -> Time) { NoLiveLease(q, clock, DEFAULT_LEASE) }

  /** The batches spent have reached the limit. */
  predicate LimitMet(maxBatches: Option<nat>, batches: nat) { maxBatches.Some? && batches >= maxBatches.value }

  /** The limit is not passed, and no more than one batch failed. */
  predicate KeepsLimits(maxBatches: Option<nat>, batches: nat, failed: nat, batchSize: nat) {
    (maxBatches.Some? ==> batches <= maxBatches.value) && failed <= batchSize
  }

  /** Every record up to `after` has a row or a current vector. */
  ghost predicate ServedThrough(q: Queue, after: Option<Id>) {
    forall id | id in q.memories && id !in Beyond(q, after) :: id in q.pending || Embedded(q, id)
  }

  /** What the running figures say about the queue since `q0`. */
  ghost predicate Accounts(q0: Queue, q: Queue, queued: nat, embedded: nat, clock: nat -> Time) {
    && InStep(q) && q.memories == q0.memories
    && |q.pending| + embedded == |q0.pending| + queued
    && (forall id | Embedded(q0, id) :: Embedded(q, id))
    && (forall id | id in q0.pending && id !in q.pending :: Embedded(q, id))
    && (NothingHeld(q0, clock) ==> NothingHeld(q, clock))
  }

  /** The records of a page that lack a current vector. */
  ghost predicate Lacking(q: Queue, page: seq<Id>, records: seq<(Id, Time)>) {
    forall r :: r in records <==> r.0 in page && r.0 in q.memories && r.1 == q.memories[r.0] && !Embedded(q, r.0)
  }

  lemma LackingIds(q: Queue, page: seq<Id>, records: seq<(Id, Time)>, id: Id)
    requires Lacking(q, page, records) && id in page && id in q.memories && !Embedded(q, id)
    ensures id in Ids(records)
  {
    assert (id, q.memories[id]) in records;
  }

  /** Enqueueing what a page lacks serves every record up to the end of the page. */
  lemma PageServed(q: Queue, q': Queue, after: Option<Id>, limit: nat, records: seq<(Id, Time)>, n: nat, next: Id)
    requires limit >= 1 && ServedThrough(q, after) && Enqueued(q, q', Ids(records), n)
    requires var page := ScanPage(q, after, limit); page != [] && next == page[|page| - 1] && Lacking(q, page, records)
    ensures ServedThrough(q', Some(next))
  {
    PageAdvances(q, after, limit);
    forall id | id in q'.memories && id !in Beyond(q', Some(next)) ensures id in q'.pending || Embedded(q', id) {
      assert id !in Beyond(q, Some(next));
      if id in Beyond(q, after) {
        assert id in Elements(ScanPage(q, after, limit));
        if !Embedded(q, id) { LackingIds(q, ScanPage(q, after, limit), records, id); }
      }
    }
  }

  /** Finish the rows left over from earlier runs. */
  method DrainLeftovers(repo: VectorRepository, provider: Provider, batchSize: nat, maxBatches: Option<nat>,
                        clock: nat -> Time, token: nat -> Token)
    returns (embedded: nat, failed: nat, batches: nat)
    requires InStep(repo.Contents()) && SweepArguments(batchSize, maxBatches)
    modifies repo
    ensures Accounts(old(repo.Contents()), repo.Contents(), 0, embedded, clock)
    ensures AlwaysEmbeds(provider) ==> failed == 0
    ensures KeepsLimits(maxBatches, batches, failed, batchSize)
    ensures failed == 0 && !LimitMet(maxBatches, batches) && NothingHeld(old(repo.Contents()), clock) ==>
              |repo.pending| == 0
  {
    ghost var q0 := repo.Contents();
    embedded, failed, batches := 0, 0, 0;
    var stop := false;
    while !stop && (maxBatches.None? || batches < maxBatches.value)
      invariant Accounts(q0, repo.Contents(), 0, embedded, clock)
      invariant AlwaysEmbeds(provider) ==> failed == 0
      invariant KeepsLimits(maxBatches, batches, failed, batchSize) && (!stop ==> failed == 0)
      invariant stop && failed == 0 && NothingHeld(q0, clock) ==> |repo.pending| == 0
      decreases !stop, |repo.pending|
    {
      ghost var before := repo.Contents();
      var swept := SweepPending(repo, provider, batchSize, Some(1), DEFAULT_LEASE, clock, token, batches);
      var sweep := swept.value;
      embedded, failed, batches := embedded + sweep.embedded, failed + sweep.failed, batches + sweep.batches;
      stop := sweep.claimed == 0 || sweep.failed > 0;
    }
  }

  /** One scanned and enqueued page: `ids` are the records it enqueued. */
  ghost predicate PageStep(q: Queue, q': Queue, after: Option<Id>, next: Option<Id>, examined: nat, queued: nat,
                           ids: set<Id>, batchSize: nat) {
    && InStep(q') && Enqueued(q, q', ids, queued) && |ids| <= batchSize
    && (next.None? <==> Beyond(q, after) == {})
    && (next.None? ==> q' == q)
    && (next.Some? ==>
          && examined > 0 && |Beyond(q, after)| == |Beyond(q', next)| + examined
          && (ServedThrough(q, after) ==> ServedThrough(q', next)))
  }

  lemma EmptyOrMember(records: seq<(Id, Time)>)
    ensures records == [] || exists r :: r in records
  {
    if records != [] { assert records[0] in records; }
  }

  lemma PageStepHolds(q: Queue, after: Option<Id>, batchSize: nat, records: seq<(Id, Time)>, now: Time)
    requires InStep(q) && batchSize >= 1 && Lacking(q, ScanPage(q, after, batchSize), records)
    ensures var page := ScanPage(q, after, batchSize);
            var (q', n) := EnqueueAll(q, records, now);
            PageStep(q, q', after, if page == [] then None else Some(page[|page| - 1]), |page|, n, Ids(records),
                     batchSize)
  {
    var page := ScanPage(q, after, batchSize);
    var (q', n) := EnqueueAll(q, records, now);
    PageAdvances(q, after, batchSize);
    EnqueueKeepsStep(q, records, now);
    PageBound(q, after, batchSize, records);
    if page == [] {
      EmptyOrMember(records);
    } else {
      var next := page[|page| - 1];
      assert Beyond(q', Some(next)) == Beyond(q, Some(next));
      if ServedThrough(q, after) { PageServed(q, q', after, batchSize, records, n, next); }
    }
  }

  method ScanAndEnqueue(repo: VectorRepository, batchSize: nat, after: Option<Id>, now: Time)
    returns (records: seq<(Id, Time)>, next: Option<Id>, examined: nat, queued: nat)
    requires batchSize >= 1 && InStep(repo.Contents())
    modifies repo`pending
    ensures PageStep(old(repo.Contents()), repo.Contents(), after, next, examined, queued, Ids(records), batchSize)
  {
    ghost var q := repo.Contents();
    records, next, examined := repo.ScanRecords(after, batchSize);
    EnqueueIsPageStep(q, after, batchSize, records, next, examined, now);
    if next.None? {
      return records, next, examined, 0;
    }
    queued := repo.EnqueueUnembedded(records, now);
  }

  lemma EnqueueIsPageStep(q: Queue, after: Option<Id>, batchSize: nat, records: seq<(Id, Time)>, next: Option<Id>,
                          examined: nat, now: Time)
    requires InStep(q) && batchSize >= 1
    requires var page := ScanPage(q, after, batchSize);
             Lacking(q, page, records) && examined == |page|
             && next == (if page == [] then None else Some(page[|page| - 1]))
    ensures var (q', n) := EnqueueAll(q, records, now);
            PageStep(q, q', after, next, examined, n, Ids(records), batchSize)
    ensures next.None? ==> EnqueueAll(q, records, now) == (q, 0)
  {
    PageStepHolds(q, after, batchSize, records, now);
    if next.None? { NothingToEnqueue(q, after, batchSize, records, now); }
  }

  lemma NothingToEnqueue(q: Queue, after: Option<Id>, limit: nat, records: seq<(Id, Time)>, now: Time)
    requires Lacking(q, ScanPage(q, after, limit), records) && ScanPage(q, after, limit) == []
    ensures records == [] && EnqueueAll(q, records, now) == (q, 0)
  {
    EmptyOrMember(records);
  }

  lemma PageBound(q: Queue, after: Option<Id>, limit: nat, records: seq<(Id, Time)>)
    requires limit >= 1 && Lacking(q, ScanPage(q, after, limit), records)
    ensures |Ids(records)| <= limit
  {
    PageAdvances(q, after, limit);
    var page := ScanPage(q, after, limit);
    PageDistinct(Beyond(q, after), ById, limit);
    assert Ids(records) <= Elements(page);
    SubsetSize(Ids(records), Elements(page));
  }

  lemma PageKeepsAccounts(q0: Queue, q: Queue, q': Queue, queued: nat, embedded: nat, after: Option<Id>,
                          next: Option<Id>, examined: nat, n: nat, ids: set<Id>, batchSize: nat,
                          clock: nat -> Time)
    requires Accounts(q0, q, queued, embedded, clock) && PageStep(q, q', after, next, examined, n, ids, batchSize)
    ensures Accounts(q0, q', queued + n, embedded, clock)
  {}

  /** When the queue was empty, one batch clears what a page put into it. */
  lemma PageCleared(q: Queue, q1: Queue, q2: Queue, ids: set<Id>, n: nat, r: SweepResult, batchSize: nat,
                    clock: nat -> Time)
    requires |q.pending| == 0 && InStep(q1) && Enqueued(q, q1, ids, n) && |ids| <= batchSize
    requires SweepAccounts(r, q1, q2, clock, DEFAULT_LEASE) && r.failed == 0
    requires SweepComplete(r, q1, q2, batchSize, Some(1), clock, DEFAULT_LEASE)
    ensures |q2.pending| == 0 && NothingHeld(q2, clock)
  {
    assert q1.pending.Keys == ids;
    assert |q1.pending| == |q1.pending.Keys|;
  }

  /** `backfill_embeddings`. A retry cap or a failing provider may stop it early; the figures and the
      queue stay in agreement in every case. */
  method BackfillEmbeddings(repo: VectorRepository, provider: Provider, batchSize: nat, maxBatches: Option<nat>,
                            clock: nat -> Time, token: nat -> Token)
    returns (result: Option<BackfillResult>)
    requires InStep(repo.Contents())
    modifies repo
    ensures result.Some? <==> SweepArguments(batchSize, maxBatches)
    ensures result.None? ==> repo.Contents() == old(repo.Contents())
    ensures result.Some? ==>
      var r := result.value;
      && Accounts(old(repo.Contents()), repo.Contents(), r.queued, r.embedded, clock) && r.pending == |repo.pending|
      && (maxBatches.Some? ==> r.batches <= maxBatches.value) && r.failed <= batchSize
    ensures result.Some? && (maxBatches.Some? ==> result.value.batches < maxBatches.value)
            && AlwaysEmbeds(provider) && NothingHeld(old(repo.Contents()), clock) ==>
      var r := result.value;
      && r.pending == 0 && r.failed == 0 && r.scanned == |repo.memories|
      && r.embedded == |old(repo.pending)| + r.queued
      && forall id | id in repo.memories :: Embedded(repo.Contents(), id)
  {
    if !SweepArguments(batchSize, maxBatches) {
      return None;
    }
    ghost var q0 := repo.Contents();
    var embedded, failed, batches := DrainLeftovers(repo, provider, batchSize, maxBatches, clock, token);
    var scanned, queued := 0, 0;
    if failed > 0 || (maxBatches.Some? && batches >= maxBatches.value) {
      return Some(BackfillResult(scanned, queued, embedded, failed, batches, |repo.pending|));
    }
    scanned, queued, embedded, failed, batches := ScanAll(repo, provider, batchSize, maxBatches, clock, token,
                                                          embedded, batches, q0);
    result := Some(BackfillResult(scanned, queued, embedded, failed, batches, |repo.pending|));
  }

  /** The scanning loop, entered with an id cursor before the first record. */
  method ScanAll(repo: VectorRepository, provider: Provider, batchSize: nat, maxBatches: Option<nat>,
                 clock: nat -> Time, token: nat -> Token, embedded0: nat, batches0: nat, ghost q0: Queue)
    returns (scanned: nat, queued: nat, embedded: nat, failed: nat, batches: nat)
    requires SweepArguments(batchSize, maxBatches) && Accounts(q0, repo.Contents(), 0, embedded0, clock)
    requires !LimitMet(maxBatches, batches0)
    modifies repo
    ensures Accounts(q0, repo.Contents(), queued, embedded, clock)
    ensures KeepsLimits(maxBatches, batches, failed, batchSize)
    ensures !LimitMet(maxBatches, batches) && AlwaysEmbeds(provider) && NothingHeld(q0, clock)
            && |old(repo.pending)| == 0 ==>
              && |repo.pending| == 0 && failed == 0 && scanned == |repo.memories|
              && forall id | id in repo.memories :: Embedded(repo.Contents(), id)
  {
    ghost var good := AlwaysEmbeds(provider) && NothingHeld(q0, clock) && |repo.pending| == 0;
    scanned, queued, embedded, failed, batches := 0, 0, embedded0, 0, batches0;
    var after: Option<Id>, stop := None, false;
    assert Beyond(repo.Contents(), after) == repo.memories.Keys;
    while !stop
      invariant Scanning(q0, repo.Contents(), after, scanned, queued, embedded, failed, clock, good, stop)
      invariant Limited(repo.Contents(), after, maxBatches, batches, failed, batchSize, good, stop)
      decreases !stop, |Beyond(repo.Contents(), after)|
    {
      scanned, queued, embedded, failed, batches, after, stop :=
        ScanRound(repo, provider, batchSize, maxBatches, clock, token, q0, good, scanned, queued, embedded, failed,
                  batches, after);
    }
  }

  /** Between two pages: the accounts so far, and what lies behind the cursor is served. */
  ghost predicate Scanning(q0: Queue, q: Queue, after: Option<Id>, scanned: nat, queued: nat, embedded: nat,
                           failed: nat, clock: nat -> Time, good: bool, stop: bool) {
    && Accounts(q0, q, queued, embedded, clock) && ServedThrough(q, after)
    && scanned + |Beyond(q, after)| == |q0.memories|
    && (good ==> |q.pending| == 0 && failed == 0)
  }

  /** Scanning goes on only while no batch failed and the limit is not met, and ends early for no other
      reason. */
  ghost predicate Limited(q: Queue, after: Option<Id>, maxBatches: Option<nat>, batches: nat, failed: nat,
                          batchSize: nat, good: bool, stop: bool) {
    && KeepsLimits(maxBatches, batches, failed, batchSize)
    && (!stop ==> failed == 0 && !LimitMet(maxBatches, batches))
    && (good && stop ==> Beyond(q, after) == {} || LimitMet(maxBatches, batches))
  }

  /** One page: enqueue what has no vector, then embed it. */
  method ScanRound(repo: VectorRepository, provider: Provider, batchSize: nat, maxBatches: Option<nat>,
                   clock: nat -> Time,
                   token: nat -> Token, ghost q0: Queue, ghost good: bool, scanned0: nat, queued0: nat, embedded0: nat,
                   failed0: nat, batches0: nat, after0: Option<Id>)
    returns (scanned: nat, queued: nat, embedded: nat, failed: nat, batches: nat, after: Option<Id>, stop: bool)
    requires SweepArguments(batchSize, maxBatches)
    requires good ==> AlwaysEmbeds(provider) && NothingHeld(q0, clock)
    requires Scanning(q0, repo.Contents(), after0, scanned0, queued0, embedded0, failed0, clock, good, false)
    requires Limited(repo.Contents(), after0, maxBatches, batches0, failed0, batchSize, good, false)
    modifies repo
    ensures Limited(repo.Contents(), after, maxBatches, batches, failed, batchSize, good, stop)
    ensures Scanning(q0, repo.Contents(), after, scanned, queued, embedded, failed, clock, good, stop)
    ensures stop || |Beyond(repo.Contents(), after)| < |Beyond(old(repo.Contents()), after0)|
  {
    scanned, queued, embedded, failed, batches, after, stop := scanned0, queued0, embedded0, failed0, batches0, after0,
        false;
    ghost var q := repo.Contents();
    var records, next, examined, n := ScanAndEnqueue(repo, batchSize, after, clock(batches));
    ghost var q1 := repo.Contents();
    AfterPage(q0, q, q1, after0, next, scanned0, queued0, embedded0, failed0, clock, good, examined, n,
              Ids(records), batchSize);
    queued := queued + n;
    if next.None? {
      stop := true;
    } else {
      scanned, after := scanned + examined, next;
      if records != [] {
        embedded, failed, batches := EmbedPage(repo, provider, batchSize, maxBatches, clock, token, q0, q, q1, queued,
                                               embedded, batches, after, Ids(records), n, good);
        stop := failed > 0 || (maxBatches.Some? && batches >= maxBatches.value);
      }
    }
  }

  /** A scanned and enqueued page, before its batch. */
  lemma AfterPage(q0: Queue, q: Queue, q1: Queue, after: Option<Id>, next: Option<Id>, scanned: nat, queued: nat,
                  embedded: nat, failed: nat, clock: nat -> Time, good: bool, examined: nat, n: nat, ids: set<Id>,
                  batchSize: nat)
    requires Scanning(q0, q, after, scanned, queued, embedded, failed, clock, good, false)
    requires PageStep(q, q1, after, next, examined, n, ids, batchSize)
    ensures Accounts(q0, q1, queued + n, embedded, clock)
    ensures next.None? ==> Scanning(q0, q1, after, scanned, queued + n, embedded, failed, clock, good, true)
    ensures next.Some? ==>
              && ServedThrough(q1, next) && scanned + examined + |Beyond(q1, next)| == |q0.memories|
              && |Beyond(q1, next)| < |Beyond(q, after)|
    ensures next.None? ==> Beyond(q1, after) == {}
    ensures ids == {} ==> |q1.pending| == |q.pending|
  {
    PageKeepsAccounts(q0, q, q1, queued, embedded, after, next, examined, n, ids, batchSize, clock);
    if ids == {} { assert q1.pending.Keys == q.pending.Keys; assert |q1.pending.Keys| == |q.pending.Keys|; }
  }

  /** The one batch behind a page; no batch has failed before it. */
  method EmbedPage(repo: VectorRepository, provider: Provider, batchSize: nat, maxBatches: Option<nat>,
                   clock: nat -> Time, token: nat -> Token, ghost q0: Queue, ghost q: Queue, ghost q1: Queue,
                   ghost queued: nat, embedded0: nat, batches0: nat, after: Option<Id>, ghost ids: set<Id>,
                   ghost n: nat, ghost good: bool)
    returns (embedded: nat, failed: nat, batches: nat)
    requires SweepArguments(batchSize, None) && q1 == repo.Contents() && Accounts(q0, q1, queued, embedded0, clock)
    requires good ==> AlwaysEmbeds(provider) && |q.pending| == 0 && Enqueued(q, q1, ids, n) && |ids| <= batchSize
    requires !LimitMet(maxBatches, batches0)
    modifies repo
    ensures Accounts(q0, repo.Contents(), queued, embedded, clock)
    ensures ServedThrough(q1, after) ==> ServedThrough(repo.Contents(), after)
    ensures Beyond(repo.Contents(), after) == Beyond(q1, after)
    ensures KeepsLimits(maxBatches, batches, failed, batchSize)
    ensures good ==> |repo.pending| == 0 && failed == 0
  {
    var swept := SweepPending(repo, provider, batchSize, Some(1), DEFAULT_LEASE, clock, token, batches0);
    var sweep := swept.value;
    embedded, failed, batches := embedded0 + sweep.embedded, sweep.failed, batches0 + sweep.batches;
    if good { PageCleared(q, q1, repo.Contents(), ids, n, sweep, batchSize, clock); }
  }
}
