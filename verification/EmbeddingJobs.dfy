/** The queue worker (aoms/embedding_jobs.py) on a repository of tables
    (aoms/repositories/sqlite.py), with the steps the worker takes.

    Every step is tied to the queue statement it performs. */
module EmbeddingJobs {
  import opened Common
  import opened Ordering
  import opened EmbeddingQueue

  // ---- one worker's batch ----

  /** What the provider did with a batch: raise, or answer position by position; an answer may be
      missing, and a vector may be malformed. */
  datatype Reply = Raised | Vectors(answers: seq<Option<bool>>)

  /** A provider may answer differently each time it is asked. */
  type Provider = (nat, seq<Item>) -> Reply

  function ItemIds(items: seq<Item>): set<Id> { set item | item in items :: item.id }

  ghost predicate DistinctIds(items: seq<Item>) {
    forall i, j | 0 <= i < j < |items| :: items[i].id != items[j].id
  }

  /** Items as a claim hands them out: current, owned and for distinct records. */
  ghost predicate Held(q: Queue, items: seq<Item>) {
    && (forall item | item in items :: Current(q, item) && Owns(q, item))
    && DistinctIds(items)
  }

  /** No row is held by a live claim: each is free, or its claim has expired whenever the clock is read. */
  ghost predicate NoLiveLease(q: Queue, clock: nat -> Time, lease: nat) {
    forall id, n: nat | id in q.pending ::
      q.pending[id].lease.None? || q.pending[id].lease.value.at < clock(n) - lease
  }

  function WithVector(items: seq<Item>, vs: seq<Option<bool>>): (r: seq<Answer>)
    requires |items| == |vs|
    ensures |r| <= |items|
  {
    if items == [] then []
    else
      var n := |items| - 1;
      WithVector(items[..n], vs[..n]) + if vs[n].Some? then [Answer(items[n], vs[n].value)] else []
  }

  function WithoutVector(items: seq<Item>, vs: seq<Option<bool>>): (r: seq<Item>)
    requires |items| == |vs|
    ensures |r| + |WithVector(items, vs)| == |items|
  {
    if items == [] then []
    else
      var n := |items| - 1;
      WithoutVector(items[..n], vs[..n]) + if vs[n].None? then [items[n]] else []
  }

  function Answered(answers: seq<Answer>): seq<Item> {
    seq(|answers|, i requires 0 <= i < |answers| => answers[i].item)
  }

  lemma {:induction false} BatchSplits(items: seq<Item>, vs: seq<Option<bool>>)
    requires |items| == |vs|
    ensures forall item ::
        item in items <==> item in Answered(WithVector(items, vs)) || item in WithoutVector(items, vs)
  {
    if items != [] {
      var n := |items| - 1;
      BatchSplits(items[..n], vs[..n]);
      assert items == items[..n] + [items[n]];
      var before := WithVector(items[..n], vs[..n]);
      assert Answered(WithVector(items, vs)) == Answered(before) + if vs[n].Some? then [items[n]] else [];
    }
  }

  lemma {:induction false} AnsweredDistinct(items: seq<Item>, vs: seq<Option<bool>>)
    requires |items| == |vs| && DistinctIds(items)
    ensures DistinctIds(Answered(WithVector(items, vs)))
  {
    if items != [] {
      var n := |items| - 1;
      assert DistinctIds(items[..n]);
      AnsweredDistinct(items[..n], vs[..n]);
      BatchSplits(items[..n], vs[..n]);
      var before := Answered(WithVector(items[..n], vs[..n]));
      forall item | item in before ensures item.id != items[n].id {
        var k :| 0 <= k < n && items[..n][k] == item;
        assert items[k].id != items[n].id;
      }
      assert Answered(WithVector(items, vs)) == before + if vs[n].Some? then [items[n]] else [];
    }
  }

  /** Completing held items removes every one of their rows, unless a vector is malformed. */
  lemma {:induction false} HeldItemsComplete(q: Queue, answers: seq<Answer>)
    requires InStep(q) && Held(q, Answered(answers))
    ensures var done := CompleteAll(q, answers);
            && (done.Some? <==> forall a | a in answers :: a.valid)
            && (done.Some? ==>
                  var (q', n) := done.value;
                  n == |answers| && q'.memories == q.memories
                  && (forall id :: id in q'.pending <==> id in q.pending && id !in ItemIds(Answered(answers)))
                  && (forall id | id in q'.pending :: q'.pending[id] == q.pending[id]))
  {
    if answers != [] {
      var n := |answers| - 1;
      var init, last := answers[..n], answers[n];
      assert Answered(answers)[n] == last.item;
      forall i | 0 <= i < n ensures Answered(init)[i] == Answered(answers)[i] {}
      HeldItemsComplete(q, init);
      assert answers == init + [last];
      if CompleteAll(q, init).Some? {
        assert Answered(answers) == Answered(init) + [last.item];
        assert last.item in Answered(answers);
        assert last.item.id !in ItemIds(Answered(init));
      }
    }
  }

  /** Failing items releases every row they own and leaves the other rows as they were. */
  lemma {:induction false} FailureReleases(q: Queue, items: seq<Item>, error: string)
    ensures var q' := FailAll(q, items, error).0;
            && q'.pending.Keys == q.pending.Keys
            && (forall id | id in q.pending && id !in ItemIds(items) :: q'.pending[id] == q.pending[id])
            && (forall item | item in items && Owns(q, item) :: q'.pending[item.id].lease.None?)
            && (forall id | id in q.pending && q.pending[id].lease.None? :: q'.pending[id].lease.None?)
            && (forall id | id in q.pending && q'.pending[id].lease.Some? ::
                q'.pending[id].lease == q.pending[id].lease)
  {
    if items != [] {
      var n := |items| - 1;
      FailureReleases(q, items[..n], error);
      assert items == items[..n] + [items[n]];
      forall id | id in q.pending && id !in ItemIds(items) ensures id !in ItemIds(items[..n]) && id != items[n].id {
        assert items[n] in items;
      }
    }
  }

  // ---- the repository object ----

  class VectorRepository {
    var memories: map<Id, Time>
    var pending: map<Id, Pending>
    var vectors: map<Id, Time>

    function Contents(): Queue
      reads this
    {
      Queue(memories, pending, vectors)
    }

    method ClaimPending(now: Time, lease: nat, limit: nat, token: Token) returns (items: seq<Item>)
      modifies this`pending
      ensures var ids := ClaimRows(old(Contents()), now, lease, limit);
              && AllQueued(old(Contents()), ids)
              && Contents() == Leased(old(Contents()), ids, token, now)
              && items == Items(old(Contents()), ids, token)
    {
      var ids := ClaimRows(Contents(), now, lease, limit);
      items := Items(Contents(), ids, token);
      pending := map id | id in pending ::
        if id in ids then pending[id].(lease := Some(Lease(token, now))) else pending[id];
    }

    /** The transaction rolls back when a current item brings a malformed vector. */
    method CompletePending(answers: seq<Answer>) returns (count: Option<nat>)
      modifies this
      ensures match CompleteAll(old(Contents()), answers)
              case None => count.None? && Contents() == old(Contents())
              case Some(done) => count == Some(done.1) && Contents() == done.0
    {
      var start := Contents();
      var total := 0;
      for i := 0 to |answers|
        invariant CompleteAll(start, answers[..i]) == Some((Contents(), total))
      {
        var item := answers[i].item;
        assert answers[..i + 1][..i] == answers[..i];
        if item.id in memories && memories[item.id] == item.revision {
          if !answers[i].valid {
            memories, pending, vectors := start.memories, start.pending, start.vectors;
            FailingPrefixFails(start, answers, i + 1);
            return None;
          }
          vectors := vectors[item.id := item.revision];
          if item.id in pending && pending[item.id].revision == item.revision
             && pending[item.id].lease.Some? && pending[item.id].lease.value.token == item.token {
            pending := pending - {item.id};
            total := total + 1;
          }
        }
      }
      assert answers[..|answers|] == answers;
      count := Some(total);
    }

    method FailPending(items: seq<Item>, error: string) returns (count: nat)
      modifies this`pending
      ensures (Contents(), count) == FailAll(old(Contents()), items, error)
    {
      var start := Contents();
      count := 0;
      for i := 0 to |items|
        invariant (Contents(), count) == FailAll(start, items[..i], error)
        invariant memories == start.memories && vectors == start.vectors
      {
        var item := items[i];
        assert items[..i + 1][..i] == items[..i];
        if item.id in pending && pending[item.id].lease.Some? && pending[item.id].lease.value.token == item.token {
          var row := pending[item.id];
          pending := pending[item.id := row.(attempts := row.attempts + 1, lastError := Some(error), lease := None)];
          count := count + 1;
        }
      }
      assert items[..|items|] == items;
    }

    method EnqueueUnembedded(records: seq<(Id, Time)>, now: Time) returns (count: nat)
      modifies this`pending
      ensures (Contents(), count) == EnqueueAll(old(Contents()), records, now)
    {
      var start := Contents();
      count := 0;
      for i := 0 to |records|
        invariant (Contents(), count) == EnqueueAll(start, records[..i], now)
        invariant memories == start.memories && vectors == start.vectors
      {
        var (id, revision) := records[i];
        assert records[..i + 1][..i] == records[..i];
        if id !in pending || pending[id].revision != revision {
          pending := pending[id := Pending(revision, now, 0, None, None)];
          count := count + 1;
        }
      }
      assert records[..|records|] == records;
    }

    /** One page of records by id: those without a current vector, the last id seen, and the size. */
    method ScanRecords(after: Option<Id>, limit: nat)
        returns (records: seq<(Id, Time)>, next: Option<Id>, examined: nat)
      ensures var page := ScanPage(Contents(), after, limit);
              && examined == |page|
              && next == (if page == [] then None else Some(page[|page| - 1]))
              && (forall r :: r in records <==>
                    r.0 in page && r.0 in memories && r.1 == memories[r.0] && !Embedded(Contents(), r.0))
    {
      var page := ScanPage(Contents(), after, limit);
      records := [];
      for i := 0 to |page|
        invariant forall r :: r in records <==>
            r.0 in page[..i] && r.0 in memories && r.1 == memories[r.0] && !Embedded(Contents(), r.0)
      {
        var id := page[i];
        assert page[..i + 1] == page[..i] + [id];
        if !(id in vectors && vectors[id] == memories[id]) {
          records := records + [(id, memories[id])];
        }
      }
      assert page[..|page|] == page;
      examined := |page|;
      next := if page == [] then None else Some(page[|page| - 1]);
    }
  }

  lemma {:induction false} FailingPrefixFails(q: Queue, answers: seq<Answer>, n: nat)
    requires n <= |answers| && CompleteAll(q, answers[..n]).None?
    ensures CompleteAll(q, answers).None?
    decreases |answers|
  {
    if n < |answers| {
      var init := answers[..|answers| - 1];
      assert init[..n] == answers[..n];
      FailingPrefixFails(q, init, n);
    } else {
      assert answers[..n] == answers;
    }
  }

  // ---- scanning ----

  function Beyond(q: Queue, after: Option<Id>): set<Id> {
    set id | id in q.memories && (after.None? || after.value < id)
  }

  /** No rank but the id itself. */
  function ById(id: Id): int { 0 }

  /** WHERE id > after ORDER BY id LIMIT limit. */
  function ScanPage(q: Queue, after: Option<Id>, limit: nat): (page: seq<Id>)
    ensures forall id | id in page :: id in q.memories
  {
    Page(Beyond(q, after), ById, limit)
  }

  /** Moving on to the last id of a page leaves exactly the records that were not on it. */
  lemma PageAdvances(q: Queue, after: Option<Id>, limit: nat)
    requires limit >= 1
    ensures var page := ScanPage(q, after, limit);
            && (page == [] <==> Beyond(q, after) == {})
            && |page| <= limit
            && (page != [] ==>
                  var rest := Beyond(q, Some(page[|page| - 1]));
                  && Beyond(q, after) == rest + Elements(page) && rest !! Elements(page)
                  && |Beyond(q, after)| == |rest| + |page|)
  {
    var s, rank := Beyond(q, after), ById;
    var page := ScanPage(q, after, limit);
    PageDistinct(s, rank, limit);
    PageLength(s, rank, limit);
    if page != [] {
      var last := page[|page| - 1];
      PageUpTo(s, rank, limit);
      BeyondSplits(q, after, page, last);
      PageSplits(s, page, Beyond(q, Some(last)));
    }
  }

  /** A page in id order: nothing on it exceeds its last id, and what is left out does. */
  lemma PageUpTo(s: set<Id>, rank: Id -> int, limit: nat)
    requires Page(s, rank, limit) != [] && forall id :: rank(id) == 0
    ensures var page := Page(s, rank, limit);
            var last := page[|page| - 1];
            && (forall id | id in page :: id <= last)
            && (forall id | id in s && id !in page :: last < id)
  {
    var page := Page(s, rank, limit);
    var last := page[|page| - 1];
    assert last in page;
    forall id | id in page ensures id <= last {
      var i :| 0 <= i < |page| && page[i] == id;
      if i < |page| - 1 { PageOrder(s, rank, limit, i, |page| - 1); }
    }
    forall id | id in s && id !in page ensures last < id {
      PageLeast(s, rank, limit, last, id);
    }
  }

  lemma BeyondSplits(q: Queue, after: Option<Id>, page: seq<Id>, last: Id)
    requires last in page && forall id | id in page :: id in Beyond(q, after) && id <= last
    requires forall id | id in Beyond(q, after) && id !in page :: last < id
    ensures var s, rest := Beyond(q, after), Beyond(q, Some(last));
            && rest <= s && (forall id | id in page :: id !in rest)
            && (forall id | id in s && id !in page :: id in rest)
  {}

  lemma PageSplits(s: set<Id>, page: seq<Id>, rest: set<Id>)
    requires forall id | id in page :: id in s && id !in rest
    requires forall id | id in s && id !in page :: id in rest
    requires rest <= s && |Elements(page)| == |page|
    ensures s == rest + Elements(page) && rest !! Elements(page) && |s| == |rest| + |page|
  {
    assert s == rest + Elements(page);
  }

  // ---- the sweep ----

  /** One batch leaves other rows alone and leaves none of its own rows claimed. */
  ghost predicate BatchDone(q: Queue, q': Queue, ids: set<Id>) {
    && InStep(q') && Progress(q, q')
    && (forall id | id in q.pending && id !in ids :: id in q'.pending && q'.pending[id] == q.pending[id])
    && (forall id | id in q'.pending && id in ids :: q'.pending[id].lease.None?)
  }

  ghost predicate Complete(reply: Reply, n: nat) {
    reply.Vectors? && |reply.answers| == n && forall v | v in reply.answers :: v == Some(true)
  }

  lemma {:induction false} CompleteReplyAnswersAll(items: seq<Item>, vs: seq<Option<bool>>)
    requires |items| == |vs| && forall v | v in vs :: v == Some(true)
    ensures WithoutVector(items, vs) == [] && forall a | a in WithVector(items, vs) :: a.valid
  {
    if items != [] {
      var n := |items| - 1;
      assert vs == vs[..n] + [vs[n]];
      assert vs[n] in vs;
      forall v | v in vs[..n] ensures v == Some(true) { assert v in vs; }
      CompleteReplyAnswersAll(items[..n], vs[..n]);
    }
  }

  lemma FailedBatchDone(q: Queue, items: seq<Item>, error: string)
    requires InStep(q) && Held(q, items)
    ensures BatchDone(q, FailAll(q, items, error).0, ItemIds(items))
    ensures |FailAll(q, items, error).0.pending| == |q.pending|
  {
    FailureReleases(q, items, error);
    FailureKeepsRows(q, items, error);
    var q' := FailAll(q, items, error).0;
    assert |q'.pending.Keys| == |q.pending.Keys|;
  }

  /** Completing the answered part of a batch and failing the rest. */
  lemma AnsweredBatchDone(q: Queue, items: seq<Item>, vs: seq<Option<bool>>, error: string)
    requires InStep(q) && Held(q, items) && |items| == |vs|
    ensures var done := CompleteAll(q, WithVector(items, vs));
            done.Some? ==>
              && BatchDone(q, FailAll(done.value.0, WithoutVector(items, vs), error).0, ItemIds(items))
              && (WithoutVector(items, vs) == [] ==> BatchDone(q, done.value.0, ItemIds(items)))
              && done.value.1 == |WithVector(items, vs)|
              && |q.pending| == |done.value.0.pending| + done.value.1
              && |FailAll(done.value.0, WithoutVector(items, vs), error).0.pending| == |done.value.0.pending|
  {
    var answers, missing := WithVector(items, vs), WithoutVector(items, vs);
    BatchSplits(items, vs);
    AnsweredDistinct(items, vs);
    HeldItemsComplete(q, answers);
    CompletionCountsRemovals(q, answers);
    if CompleteAll(q, answers).Some? {
      var q1 := CompleteAll(q, answers).value.0;
      FailureReleases(q1, missing, error);
      FailureKeepsRows(q1, missing, error);
      var q2 := FailAll(q1, missing, error).0;
      assert |q2.pending.Keys| == |q1.pending.Keys|;
      forall id | id in q2.pending && id in ItemIds(items) ensures q2.pending[id].lease.None? {
        var item :| item in items && item.id == id;
        assert item !in Answered(answers);
        assert item in missing && Owns(q1, item);
      }
    }
  }

  method EmbedBatch(repo: VectorRepository, items: seq<Item>, reply: Reply)
      returns (embedded: nat, failed: nat, stop: bool)
    requires InStep(repo.Contents()) && Held(repo.Contents(), items) && items != []
    modifies repo
    ensures BatchDone(old(repo.Contents()), repo.Contents(), ItemIds(items))
    ensures embedded + failed == |items| && |old(repo.pending)| == |repo.pending| + embedded
    ensures stop <==> failed > 0
    ensures Complete(reply, |items|) ==> !stop
  {
    if reply.Raised? || |reply.answers| != |items| {
      FailedBatchDone(repo.Contents(), items, "provider error");
      var _ := repo.FailPending(items, "provider error");
      return 0, |items|, true;
    }
    var completed, missing := WithVector(items, reply.answers), WithoutVector(items, reply.answers);
    AnsweredBatchDone(repo.Contents(), items, reply.answers, "embedding provider returned no vector");
    if Complete(reply, |items|) {
      CompleteReplyAnswersAll(items, reply.answers);
      AnsweredDistinct(items, reply.answers);
      BatchSplits(items, reply.answers);
      HeldItemsComplete(repo.Contents(), completed);
    }
    var count := repo.CompletePending(completed);
    if count.None? {
      FailedBatchDone(repo.Contents(), items, "malformed vector");
      var _ := repo.FailPending(items, "malformed vector");
      return 0, |items|, true;
    }
    if missing != [] {
      var _ := repo.FailPending(missing, "embedding provider returned no vector");
    }
    return count.value, |missing|, missing != [];
  }

  datatype SweepResult = SweepResult(claimed: nat, embedded: nat, failed: nat, batches: nat)

  ghost predicate AlwaysEmbeds(provider: Provider) {
    forall n, items :: Complete(provider(n, items), |items|)
  }

  /** One pass of the worker's loop: claim, ask, complete or fail. */
  method SweepOnce(repo: VectorRepository, provider: Provider, n: nat, batchSize: nat, lease: nat,
                   clock: nat -> Time, token: Token)
    returns (claimed: nat, embedded: nat, failed: nat, stop: bool)
    requires InStep(repo.Contents()) && batchSize >= 1
    modifies repo
    ensures InStep(repo.Contents()) && Progress(old(repo.Contents()), repo.Contents())
    ensures claimed == embedded + failed <= batchSize && |old(repo.pending)| == |repo.pending| + embedded
    ensures claimed == 0 ==> stop
    ensures !stop ==> failed == 0
    ensures stop && claimed > 0 ==> failed > 0
    ensures NoLiveLease(old(repo.Contents()), clock, lease) ==>
              NoLiveLease(repo.Contents(), clock, lease) && claimed == Least(|old(repo.pending)|, batchSize)
    ensures AlwaysEmbeds(provider) ==> failed == 0 && (stop ==> claimed == 0)
  {
    ghost var before := repo.Contents();
    ClaimHolds(before, clock(n), lease, batchSize, token);
    if NoLiveLease(before, clock, lease) { ClaimTakesAll(before, clock, n, lease, batchSize); }
    var items := repo.ClaimPending(clock(n), lease, batchSize, token);
    claimed := |items|;
    ghost var leased := repo.Contents();
    if items == [] {
      return 0, 0, 0, true;
    }
    embedded, failed, stop := EmbedBatch(repo, items, provider(n, items));
  }

  /** What a sweep's figures say about the queue before and after it. */
  ghost predicate SweepAccounts(r: SweepResult, q: Queue, q': Queue, clock: nat -> Time, lease: nat) {
    && InStep(q') && Progress(q, q')
    && r.claimed == r.embedded + r.failed && |q.pending| == |q'.pending| + r.embedded
    && (r.claimed == 0 <==> r.batches == 0)
    && (NoLiveLease(q, clock, lease) ==> NoLiveLease(q', clock, lease))
  }

  /** A sweep keeps its batch limit and ends with the first batch that fails; when nobody else holds a live
      claim, a sweep without failure ran dry or ran into its limit. */
  ghost predicate SweepComplete(r: SweepResult, q: Queue, q': Queue, batchSize: nat, maxBatches: Option<nat>,
                                clock: nat -> Time, lease: nat) {
    && (maxBatches.Some? ==> r.batches <= maxBatches.value) && r.failed <= batchSize
    && (NoLiveLease(q, clock, lease) && r.failed == 0 && (maxBatches.None? || r.batches < maxBatches.value) ==>
          |q'.pending| == 0)
    && (NoLiveLease(q, clock, lease) && r.batches == 1 ==> r.claimed == Least(|q.pending|, batchSize))
  }

  predicate SweepArguments(batchSize: nat, maxBatches: Option<nat>) {
    batchSize >= 1 && (maxBatches.Some? ==> maxBatches.value >= 1)
  }

  /** `round` counts the provider's batches so far; `clock` and `token` give the claim of each. */
  method SweepPending(repo: VectorRepository, provider: Provider, batchSize: nat, maxBatches: Option<nat>, lease: nat,
                      clock: nat -> Time, token: nat -> Token, round: nat)
    returns (result: Option<SweepResult>)
    requires InStep(repo.Contents())
    modifies repo
    ensures result.Some? <==> SweepArguments(batchSize, maxBatches)
    ensures result.None? ==> repo.Contents() == old(repo.Contents())
    ensures result.Some? ==> SweepAccounts(result.value, old(repo.Contents()), repo.Contents(), clock, lease)
    ensures result.Some? ==>
              SweepComplete(result.value, old(repo.Contents()), repo.Contents(), batchSize, maxBatches, clock, lease)
    ensures result.Some? && AlwaysEmbeds(provider) ==> result.value.failed == 0
  {
    if !SweepArguments(batchSize, maxBatches) {
      return None;
    }
    var r := SweepResult(0, 0, 0, 0);
    var stop := false;
    ghost var q0 := repo.Contents();
    ghost var good := AlwaysEmbeds(provider);
    while !stop && (maxBatches.None? || r.batches < maxBatches.value)
      invariant Sweeping(r, q0, repo.Contents(), batchSize, maxBatches, clock, lease, stop, good)
      decreases !stop, |repo.pending|
    {
      var n := round + r.batches;
      ghost var q := repo.Contents();
      var claimed, embedded, failed, halt := SweepOnce(repo, provider, n, batchSize, lease, clock, token(n));
      NextSweep(r, q0, q, repo.Contents(), batchSize, maxBatches, clock, lease, good, claimed, embedded,
                failed, halt);
      if claimed == 0 {
        stop := true;
      } else {
        stop := halt;
        r := SweepResult(r.claimed + claimed, r.embedded + embedded, r.failed + failed, r.batches + 1);
      }
    }
    result := Some(r);
  }

  /** Between two batches. */
  ghost predicate Sweeping(r: SweepResult, q0: Queue, q: Queue, batchSize: nat, maxBatches: Option<nat>,
                           clock: nat -> Time, lease: nat, stop: bool, good: bool) {
    && SweepAccounts(r, q0, q, clock, lease)
    && (maxBatches.Some? ==> r.batches <= maxBatches.value) && r.failed <= batchSize
    && (!stop || good ==> r.failed == 0)
    && (stop && r.failed == 0 && NoLiveLease(q0, clock, lease) ==> |q.pending| == 0)
    && (NoLiveLease(q0, clock, lease) && r.batches == 1 ==> r.claimed == Least(|q0.pending|, batchSize))
  }

  lemma NextSweep(r: SweepResult, q0: Queue, q: Queue, q': Queue, batchSize: nat, maxBatches: Option<nat>,
                  clock: nat -> Time, lease: nat, good: bool, claimed: nat, embedded: nat, failed: nat, halt: bool)
    requires Sweeping(r, q0, q, batchSize, maxBatches, clock, lease, false, good)
        && (maxBatches.Some? ==> r.batches < maxBatches.value)
    requires batchSize >= 1 && InStep(q') && Progress(q, q')
    requires claimed == embedded + failed <= batchSize && |q.pending| == |q'.pending| + embedded
    requires (!halt ==> failed == 0) && (halt && claimed > 0 ==> failed > 0)
    requires NoLiveLease(q, clock, lease) ==> NoLiveLease(q', clock, lease) && claimed == Least(|q.pending|, batchSize)
    requires good ==> failed == 0
    ensures if claimed == 0 then Sweeping(r, q0, q', batchSize, maxBatches, clock, lease, true, good)
            else Sweeping(SweepResult(r.claimed + claimed, r.embedded + embedded, r.failed + failed, r.batches + 1),
                          q0, q', batchSize, maxBatches, clock, lease, halt, good)
  {
    assert Progress(q0, q');
  }

  lemma ItemIdsAreIds(q: Queue, ids: seq<Id>, token: Token)
    requires AllQueued(q, ids)
    ensures ItemIds(Items(q, ids, token)) == Elements(ids)
  {
    var items := Items(q, ids, token);
    forall id | id in ids ensures id in ItemIds(items) {
      var i :| 0 <= i < |ids| && ids[i] == id;
      assert items[i] in items;
    }
  }

  lemma NotLiveAreClaimable(q: Queue, clock: nat -> Time, n: nat, lease: nat)
    requires InStep(q) && NoLiveLease(q, clock, lease)
    ensures var cutoff := clock(n) - lease;
            Claimable(q, cutoff) == q.pending.Keys && |Claimable(q, cutoff)| == |q.pending|
  {
    assert Claimable(q, clock(n) - lease) == q.pending.Keys;
  }

  lemma ClaimedAreHeld(q: Queue, ids: seq<Id>, token: Token, now: Time)
    requires AllQueued(q, ids) && Distinct(ids)
    requires forall item | item in Items(q, ids, token) ::
        Current(Leased(q, ids, token, now), item) && Owns(Leased(q, ids, token, now), item)
    ensures Held(Leased(q, ids, token, now), Items(q, ids, token))
  {}

  lemma OthersUntouched(q: Queue, ids: seq<Id>, token: Token, now: Time)
    requires AllQueued(q, ids)
    ensures forall id | id in q.pending && id !in ItemIds(Items(q, ids, token)) ::
        Leased(q, ids, token, now).pending[id] == q.pending[id]
  {
    ItemIdsAreIds(q, ids, token);
  }

  lemma ClaimHolds(q: Queue, now: Time, lease: nat, limit: nat, token: Token)
    requires InStep(q) && limit >= 1
    ensures var ids := ClaimRows(q, now, lease, limit);
            AllQueued(q, ids) &&
            var items := Items(q, ids, token);
            var q' := Leased(q, ids, token, now);
            && InStep(q') && Held(q', items) && |items| <= limit
            && q'.pending.Keys == q.pending.Keys && |q'.pending| == |q.pending|
            && (forall id | id in q.pending && id !in ItemIds(items) :: q'.pending[id] == q.pending[id])
  {
    var ids := ClaimRows(q, now, lease, limit);
    ClaimIsExclusive(q, now, lease, limit, token);
    LeasedKeepsRows(q, ids, token, now);
    ClaimedAreHeld(q, ids, token, now);
    OthersUntouched(q, ids, token, now);
  }

  lemma ClaimTakesAll(q: Queue, clock: nat -> Time, n: nat, lease: nat, limit: nat)
    requires InStep(q) && NoLiveLease(q, clock, lease)
    ensures |ClaimRows(q, clock(n), lease, limit)| == Least(|q.pending|, limit)
  {
    ClaimIsExclusive(q, clock(n), lease, limit, 0);
    NotLiveAreClaimable(q, clock, n, lease);
  }
}
