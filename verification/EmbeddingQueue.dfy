/** The leased embedding queue of aoms/repositories/sqlite.py, for one embedding profile. */
module EmbeddingQueue {
  // A durable row per record still to embed, claimed under a token and a lease, completed only for the
  // revision it was queued for.

  import opened Common
  import opened Ordering

  type Time = int
  type Token = nat

  datatype Lease = Lease(token: Token, at: Time)

  /** A row of `embedding_pending`. */
  datatype Pending = Pending(revision: Time, enqueuedAt: Time, attempts: nat, lastError: Option<string>,
                             lease: Option<Lease>)

  /** `memories` and `vectors` map a record to its current and to its embedded revision. */
  datatype Queue = Queue(memories: map<Id, Time>, pending: map<Id, Pending>, vectors: map<Id, Time>)

  /** A claimed row as handed to a worker: the record as it was read with the claim. */
  datatype Item = Item(id: Id, revision: Time, token: Token, attempts: nat)

  /** A worker's answer for one item; a malformed vector makes the whole transaction fail. */
  datatype Answer = Answer(item: Item, valid: bool)

  const EMPTY_QUEUE := Queue(map[], map[], map[])

  // ---- statements ----

  function EnqueueRecord(q: Queue, id: Id, revision: Time, now: Time): (Queue, nat) {
    if id in q.pending && q.pending[id].revision == revision then (q, 0)
    else (q.(pending := q.pending[id := Pending(revision, now, 0, None, None)]), 1)
  }

  function EnqueueAll(q: Queue, records: seq<(Id, Time)>, now: Time): (Queue, nat) {
    if records == [] then (q, 0)
    else
      var last := records[|records| - 1];
      var (q1, n) := EnqueueAll(q, records[..|records| - 1], now);
      var (q2, k) := EnqueueRecord(q1, last.0, last.1, now);
      (q2, n + k)
  }

  /** A canonical write and its queue row in one transaction. */
  function StoreQueued(q: Queue, id: Id, revision: Time, now: Time): Queue {
    EnqueueRecord(q.(memories := q.memories[id := revision]), id, revision, now).0
  }

  function Claimable(q: Queue, cutoff: Time): set<Id> {
    set id | id in q.pending && id in q.memories && (q.pending[id].lease.None? || q.pending[id].lease.value.at < cutoff)
  }

  function EnqueueRank(q: Queue): Id -> int {
    (id: Id) => if id in q.pending then q.pending[id].enqueuedAt else 0
  }

  /** Take the oldest free or expired rows. */
  function ClaimRows(q: Queue, now: Time, lease: nat, limit: nat): seq<Id> {
    Page(Claimable(q, now - lease), EnqueueRank(q), limit)
  }

  function Leased(q: Queue, ids: seq<Id>, token: Token, now: Time): Queue {
    q.(pending := map id | id in q.pending ::
         if id in ids then q.pending[id].(lease := Some(Lease(token, now))) else q.pending[id])
  }

  predicate AllQueued(q: Queue, ids: seq<Id>) {
    forall id | id in ids :: id in q.pending && id in q.memories
  }

  function Items(q: Queue, ids: seq<Id>, token: Token): seq<Item>
    requires AllQueued(q, ids)
  {
    seq(|ids|, i requires 0 <= i < |ids| => Item(ids[i], q.memories[ids[i]], token, q.pending[ids[i]].attempts))
  }

  predicate Current(q: Queue, item: Item) {
    item.id in q.memories && q.memories[item.id] == item.revision
  }

  predicate Owns(q: Queue, item: Item) {
    item.id in q.pending && q.pending[item.id].lease.Some? && q.pending[item.id].lease.value.token == item.token
  }

  predicate Embedded(q: Queue, id: Id) {
    id in q.memories && id in q.vectors && q.vectors[id] == q.memories[id]
  }

  /** Upsert the vector of a current item; delete its row only under its own token and revision. */
  function CompleteOne(q: Queue, item: Item): (Queue, nat) {
    if !Current(q, item) then (q, 0)
    else
      var q1 := q.(vectors := q.vectors[item.id := item.revision]);
      if Owns(q, item) && q.pending[item.id].revision == item.revision
      then (q1.(pending := q1.pending - {item.id}), 1)
      else (q1, 0)
  }

  function CompleteAll(q: Queue, answers: seq<Answer>): Option<(Queue, nat)> {
    if answers == [] then Some((q, 0))
    else
      match CompleteAll(q, answers[..|answers| - 1])
      case None => None
      case Some(done) =>
        var last := answers[|answers| - 1];
        if Current(done.0, last.item) && !last.valid then None
        else
          var (q2, k) := CompleteOne(done.0, last.item);
          Some((q2, done.1 + k))
  }

  function FailOne(q: Queue, item: Item, error: string): (Queue, nat) {
    if Owns(q, item) then
      var row := q.pending[item.id];
      (q.(pending := q.pending[item.id := row.(
          attempts := row.attempts + 1, lastError := Some(error), lease := None)]), 1)
    else (q, 0)
  }

  function FailAll(q: Queue, items: seq<Item>, error: string): (Queue, nat) {
    if items == [] then (q, 0)
    else
      var (q1, n) := FailAll(q, items[..|items| - 1], error);
      var (q2, k) := FailOne(q1, items[|items| - 1], error);
      (q2, n + k)
  }

  // ---- invariants ----

  /** A queue row belongs to a record and carries its current revision. */
  ghost predicate InStep(q: Queue) {
    forall id | id in q.pending :: id in q.memories && q.pending[id].revision == q.memories[id]
  }

  /** Every record has a queue row or a vector of its current revision. */
  ghost predicate Served(q: Queue) {
    forall id | id in q.memories :: id in q.pending || Embedded(q, id)
  }

  ghost predicate Sound(q: Queue) { InStep(q) && Served(q) }

  /** Rows leave the queue only for vectors, and a current vector stays current. */
  ghost predicate Progress(q: Queue, q': Queue) {
    && q'.memories == q.memories && q'.pending.Keys <= q.pending.Keys
    && (forall id | Embedded(q, id) :: Embedded(q', id))
    && (forall id | id in q.pending && id !in q'.pending :: Embedded(q', id))
  }

  lemma CompleteOneCounts(q: Queue, item: Item)
    ensures var (q', n) := CompleteOne(q, item);
            Progress(q, q') && |q'.pending| + n == |q.pending|
            && (forall id | id in q'.pending :: id in q.pending && q'.pending[id] == q.pending[id])
            && (InStep(q) ==> InStep(q')) && (Served(q) ==> Served(q'))
  {
    var (q', n) := CompleteOne(q, item);
    if n == 1 { assert q'.pending.Keys == q.pending.Keys - {item.id}; }
  }

  /** A completion returns exactly the number of rows it removed, rewrites none, loses no work. */
  lemma {:induction false} CompletionCountsRemovals(q: Queue, answers: seq<Answer>)
    ensures var done := CompleteAll(q, answers);
            done.Some? ==>
              var (q', n) := done.value;
              && Progress(q, q') && |q'.pending| + n == |q.pending|
              && (forall id | id in q'.pending :: id in q.pending && q'.pending[id] == q.pending[id])
              && (InStep(q) ==> InStep(q')) && (Served(q) ==> Served(q'))
  {
    if answers != [] {
      CompletionCountsRemovals(q, answers[..|answers| - 1]);
      var before := CompleteAll(q, answers[..|answers| - 1]);
      if before.Some? {
        var last := answers[|answers| - 1].item;
        CompleteOneCounts(before.value.0, last);
      }
    }
  }

  /** A completion never removes a row whose revision is not its record's. */
  lemma {:induction false} StaleRowsSurvive(q: Queue, answers: seq<Answer>, id: Id)
    requires id in q.pending && id in q.memories && q.pending[id].revision != q.memories[id]
    ensures var done := CompleteAll(q, answers);
            done.Some? ==> id in done.value.0.pending && done.value.0.pending[id] == q.pending[id]
                           && done.value.0.memories == q.memories
  {
    if answers != [] { StaleRowsSurvive(q, answers[..|answers| - 1], id); }
  }

  lemma {:induction false} FailureKeepsRows(q: Queue, items: seq<Item>, error: string)
    ensures var q' := FailAll(q, items, error).0;
            && Progress(q, q') && q'.vectors == q.vectors && q'.pending.Keys == q.pending.Keys
            && (forall id | id in q.pending :: q'.pending[id].revision == q.pending[id].revision)
            && (InStep(q) ==> InStep(q')) && (Served(q) ==> Served(q'))
  {
    if items != [] { FailureKeepsRows(q, items[..|items| - 1], error); }
  }

  // ---- what the statements do to one row ----

  /** A row for another revision, or none, becomes a fresh one: unclaimed, untried, enqueued now. A row for
      this revision is left as it is. */
  lemma EnqueueEffects(q: Queue, id: Id, revision: Time, now: Time)
    ensures var (q', n) := EnqueueRecord(q, id, revision, now);
            && q'.memories == q.memories && q'.vectors == q.vectors && q'.pending.Keys == q.pending.Keys + {id}
            && (forall r | r in q.pending && r != id :: q'.pending[r] == q.pending[r])
            && if id in q.pending && q.pending[id].revision == revision then q'.pending[id] == q.pending[id] && n == 0
               else q'.pending[id] == Pending(revision, now, 0, None, None) && n == 1
  {}

  /** A failure under the right token counts the attempt, keeps the error and frees the row. */
  lemma FailureEffects(q: Queue, item: Item, error: string)
    ensures var (q', n) := FailOne(q, item, error);
            var held := item.id in q.pending && q.pending[item.id].lease.Some?
                        && q.pending[item.id].lease.value.token == item.token;
            && q'.memories == q.memories && q'.vectors == q.vectors && q'.pending.Keys == q.pending.Keys
            && (forall r | r in q.pending && r != item.id :: q'.pending[r] == q.pending[r])
            && n == (if held then 1 else 0)
            && (held ==>
                  && var (was, row) := (q.pending[item.id], q'.pending[item.id]);
                     && row.attempts == was.attempts + 1 && row.lastError == Some(error) && row.lease.None?
                     && row.revision == was.revision && row.enqueuedAt == was.enqueuedAt)
            && (!held ==> q' == q)
  {}

  /** A completion stores the vector of a record that still has the item's revision, and removes the row if
      that is held under the item's token and for its revision; for a record that has moved on it does
      nothing. */
  lemma CompletionEffects(q: Queue, item: Item)
    ensures var (q', n) := CompleteOne(q, item);
            var current := item.id in q.memories && q.memories[item.id] == item.revision;
            var held := item.id in q.pending && q.pending[item.id].lease.Some?
                        && q.pending[item.id].lease.value.token == item.token
                        && q.pending[item.id].revision == item.revision;
            && q'.memories == q.memories
            && (if current then q'.vectors == q.vectors[item.id := item.revision] else q' == q)
            && n == (if current && held then 1 else 0)
            && (forall r :: r in q'.pending <==> r in q.pending && !(r == item.id && current && held))
            && (forall r | r in q'.pending :: q'.pending[r] == q.pending[r])
  {}

  function Ids(records: seq<(Id, Time)>): set<Id> { set r | r in records :: r.0 }

  lemma IdsSnoc(init: seq<(Id, Time)>, last: (Id, Time))
    ensures Ids(init + [last]) == Ids(init) + {last.0}
  {
    forall id | id in Ids(init) + {last.0} ensures id in Ids(init + [last]) {
      if id != last.0 {
        var r :| r in init && r.0 == id;
        assert r in init + [last];
      } else {
        assert last in init + [last];
      }
    }
  }

  /** What enqueueing leaves alone, and what it adds: unclaimed rows for exactly these records. */
  ghost predicate Enqueued(q: Queue, q': Queue, ids: set<Id>, n: nat) {
    && q'.memories == q.memories && q'.vectors == q.vectors
    && q'.pending.Keys == q.pending.Keys + ids
    && |q'.pending| == |q.pending| + n
    && (forall id | id in q.pending :: q'.pending[id] == q.pending[id])
    && (forall id | id in q'.pending && id !in q.pending :: q'.pending[id].lease.None?)
  }

  lemma EnqueueOne(q: Queue, id: Id, now: Time)
    requires InStep(q) && id in q.memories
    ensures var (q', n) := EnqueueRecord(q, id, q.memories[id], now); InStep(q') && Enqueued(q, q', {id}, n)
  {
    var q' := EnqueueRecord(q, id, q.memories[id], now).0;
    assert q'.pending.Keys == q.pending.Keys + {id};
    assert |q'.pending| == |q'.pending.Keys| && |q.pending| == |q.pending.Keys|;
  }

  lemma EnqueuedTrans(a: Queue, b: Queue, c: Queue, ids: set<Id>, id: Id, n: nat, k: nat)
    requires Enqueued(a, b, ids, n) && Enqueued(b, c, {id}, k)
    ensures Enqueued(a, c, ids + {id}, n + k)
  {
    assert c.pending.Keys == a.pending.Keys + (ids + {id});
    forall r | r in a.pending ensures c.pending[r] == a.pending[r] {
      assert r in b.pending;
    }
    forall r | r in c.pending && r !in a.pending ensures c.pending[r].lease.None? {
      assert r in b.pending ==> c.pending[r] == b.pending[r];
    }
  }

  /** Enqueueing records at their current revision keeps every row in step. */
  lemma {:induction false} EnqueueKeepsStep(q: Queue, records: seq<(Id, Time)>, now: Time)
    requires InStep(q) && forall r | r in records :: r.0 in q.memories && q.memories[r.0] == r.1
    ensures var (q', n) := EnqueueAll(q, records, now); InStep(q') && Enqueued(q, q', Ids(records), n)
  {
    if records != [] {
      var init := records[..|records| - 1];
      var last := records[|records| - 1];
      assert records == init + [last];
      EnqueueKeepsStep(q, init, now);
      IdsSnoc(init, last);
      var (q1, n) := EnqueueAll(q, init, now);
      EnqueueOne(q1, last.0, now);
      var (q2, k) := EnqueueRecord(q1, last.0, last.1, now);
      EnqueuedTrans(q, q1, q2, Ids(init), last.0, n, k);
    }
  }

  /** Row `a` was enqueued before row `b`, or at the same time under the smaller id. */
  ghost predicate EnqueuedBefore(q: Queue, a: Id, b: Id) {
    && a in q.pending && b in q.pending
    && (q.pending[a].enqueuedAt < q.pending[b].enqueuedAt
        || (q.pending[a].enqueuedAt == q.pending[b].enqueuedAt && a < b))
  }

  /** The row has a record, and is free or its claim is older than the lease allows. */
  ghost predicate CanClaim(q: Queue, now: Time, lease: nat, id: Id) {
    && id in q.pending && id in q.memories
    && (q.pending[id].lease.Some? ==> q.pending[id].lease.value.at + lease < now)
  }

  lemma ClaimOrder(q: Queue, now: Time, lease: nat, limit: nat)
    ensures var ids := ClaimRows(q, now, lease, limit);
            && Distinct(ids) && |ids| == Least(|Claimable(q, now - lease)|, limit)
            && (forall id | id in ids :: CanClaim(q, now, lease, id))
            && (forall i, j | 0 <= i < j < |ids| :: EnqueuedBefore(q, ids[i], ids[j]))
            && (forall a, b | a in ids && CanClaim(q, now, lease, b) && b !in ids :: EnqueuedBefore(q, a, b))
    ensures forall id :: id in Claimable(q, now - lease) <==> CanClaim(q, now, lease, id)
  {
    var free := Claimable(q, now - lease);
    var ids := ClaimRows(q, now, lease, limit);
    PageDistinct(free, EnqueueRank(q), limit);
    PageLength(free, EnqueueRank(q), limit);
    forall i, j | 0 <= i < j < |ids| ensures EnqueuedBefore(q, ids[i], ids[j]) {
      PageOrder(free, EnqueueRank(q), limit, i, j);
      assert ids[i] in ids && ids[j] in ids;
    }
    forall a, b | a in ids && CanClaim(q, now, lease, b) && b !in ids ensures EnqueuedBefore(q, a, b) {
      PageLeast(free, EnqueueRank(q), limit, a, b);
    }
  }

  /** A claim takes each row only when it is free or its lease is over: the earliest enqueued, in that order,
      and as many as there are up to the limit. It marks them with its token and time, touches no other row,
      and hands out the record revision the row is for. */
  lemma ClaimIsExclusive(q: Queue, now: Time, lease: nat, limit: nat, token: Token)
    requires InStep(q)
    ensures var ids := ClaimRows(q, now, lease, limit);
            var q' := Leased(q, ids, token, now);
            && AllQueued(q, ids) && InStep(q') && (Served(q) ==> Served(q'))
            && Distinct(ids) && |ids| == Least(|Claimable(q, now - lease)|, limit)
            && (forall id | id in ids :: CanClaim(q, now, lease, id))
            && (forall i, j | 0 <= i < j < |ids| :: EnqueuedBefore(q, ids[i], ids[j]))
            && (forall a, b | a in ids && CanClaim(q, now, lease, b) && b !in ids :: EnqueuedBefore(q, a, b))
            && (forall id | id in q.pending :: q'.pending[id]
                  == if id in ids then q.pending[id].(lease := Some(Lease(token, now))) else q.pending[id])
            && (forall item | item in Items(q, ids, token) :: Current(q', item) && Owns(q', item))
            && |Items(q, ids, token)| == |ids|
            && (forall i | 0 <= i < |ids| ::
                  var item := Items(q, ids, token)[i];
                  && item.id == ids[i] && item.revision == q.pending[ids[i]].revision && item.token == token
                  && item.attempts == q.pending[ids[i]].attempts)
  {
    ClaimOrder(q, now, lease, limit);
  }

  // ---- enqueueing a page read earlier ----

  predicate Functional(records: seq<(Id, Time)>) {
    forall a, b | a in records && b in records && a.0 == b.0 :: a.1 == b.1
  }

  /** How many rows a page adds; the others it finds or overwrites. */
  function NewRows(q: Queue, records: seq<(Id, Time)>): nat {
    if records == [] then 0
    else
      var init, last := records[..|records| - 1], records[|records| - 1];
      NewRows(q, init) + if last.0 in q.pending || last.0 in Ids(init) then 0 else 1
  }

  /** Rows for `ids`, `n` of them new; no other row changes. */
  ghost predicate RowsFor(q: Queue, q': Queue, ids: set<Id>, n: nat) {
    && q'.memories == q.memories && q'.vectors == q.vectors
    && q'.pending.Keys == q.pending.Keys + ids && |q'.pending| == |q.pending| + n
    && (forall id | id in q.pending && id !in ids :: q'.pending[id] == q.pending[id])
  }

  /** Afterwards every record of the page has a row for the revision the page was read with. */
  ghost predicate PageEnqueued(q: Queue, q': Queue, records: seq<(Id, Time)>) {
    && RowsFor(q, q', Ids(records), NewRows(q, records))
    && (forall r | r in records :: r.0 in q'.pending && q'.pending[r.0].revision == r.1)
  }

  ghost predicate RecordEnqueued(q: Queue, q': Queue, r: (Id, Time)) {
    && RowsFor(q, q', {r.0}, if r.0 in q.pending then 0 else 1)
    && q'.pending[r.0].revision == r.1
  }

  lemma RecordIsEnqueued(q: Queue, r: (Id, Time), now: Time)
    ensures RecordEnqueued(q, EnqueueRecord(q, r.0, r.1, now).0, r)
  {
    var q' := EnqueueRecord(q, r.0, r.1, now).0;
    assert q'.pending.Keys == q.pending.Keys + {r.0};
    assert |q'.pending| == |q'.pending.Keys| && |q.pending| == |q.pending.Keys|;
  }

  lemma NewRowsSnoc(q: Queue, init: seq<(Id, Time)>, last: (Id, Time))
    ensures NewRows(q, init + [last]) == NewRows(q, init) + if last.0 in q.pending || last.0 in Ids(init) then 0 else 1
  {
    assert (init + [last])[..|init|] == init;
  }

  lemma RevisionsSnoc(q1: Queue, q2: Queue, init: seq<(Id, Time)>, last: (Id, Time))
    requires Functional(init + [last]) && RecordEnqueued(q1, q2, last)
    requires forall r | r in init :: r.0 in q1.pending && q1.pending[r.0].revision == r.1
    ensures forall r | r in init + [last] :: r.0 in q2.pending && q2.pending[r.0].revision == r.1
  {
    forall r | r in init + [last] ensures r.0 in q2.pending && q2.pending[r.0].revision == r.1 {
      assert last in init + [last];
      if r.0 != last.0 { assert r in init; }
    }
  }

  lemma RowsForSnoc(q: Queue, q1: Queue, q2: Queue, ids: set<Id>, n: nat, id: Id)
    requires RowsFor(q, q1, ids, n) && RowsFor(q1, q2, {id}, if id in q1.pending then 0 else 1)
    ensures RowsFor(q, q2, ids + {id}, n + if id in q.pending || id in ids then 0 else 1)
  {
    assert q2.pending.Keys == q.pending.Keys + (ids + {id});
  }

  lemma PageEnqueuedSnoc(q: Queue, q1: Queue, q2: Queue, init: seq<(Id, Time)>, last: (Id, Time))
    requires PageEnqueued(q, q1, init) && Functional(init + [last]) && RecordEnqueued(q1, q2, last)
    ensures PageEnqueued(q, q2, init + [last])
  {
    RowsForSnoc(q, q1, q2, Ids(init), NewRows(q, init), last.0);
    IdsSnoc(init, last);
    NewRowsSnoc(q, init, last);
    RevisionsSnoc(q1, q2, init, last);
  }

  lemma {:induction false} PageIsEnqueued(q: Queue, records: seq<(Id, Time)>, now: Time)
    requires Functional(records)
    ensures PageEnqueued(q, EnqueueAll(q, records, now).0, records)
  {
    if records != [] {
      var init, last := records[..|records| - 1], records[|records| - 1];
      assert records == init + [last];
      PageIsEnqueued(q, init, now);
      var q1 := EnqueueAll(q, init, now).0;
      RecordIsEnqueued(q1, last, now);
      PageEnqueuedSnoc(q, q1, EnqueueRecord(q1, last.0, last.1, now).0, init, last);
    }
  }

  // ---- every interleaving of workers ----

  /** Completions and failures carry whatever items a worker holds, however stale or repeated. A scan reads
      some records with their revisions and keeps them as page `p`; enqueueing that page is a later step. */
  datatype Action =
    | Store(id: Id, revision: Time, now: Time)
    | Claim(now: Time, lease: nat, limit: nat, token: Token)
    | Complete(answers: seq<Answer>)
    | Fail(items: seq<Item>, error: string)
    | Scan(p: nat, ids: seq<Id>)
    | Enqueue(p: nat, now: Time)

  /** The queue with two counts, rows ever inserted and the sum of what completions returned, and the pages
      scanned and not yet enqueued. */
  datatype History = History(queue: Queue, inserted: nat, completed: nat, pages: map<nat, seq<(Id, Time)>>)

  const NEW_HISTORY := History(EMPTY_QUEUE, 0, 0, map[])

  function ReadPage(q: Queue, ids: seq<Id>): (page: seq<(Id, Time)>)
    ensures forall r | r in page :: r.0 in q.memories && q.memories[r.0] == r.1
  {
    if ids == [] then []
    else
      var last := ids[|ids| - 1];
      ReadPage(q, ids[..|ids| - 1]) + if last in q.memories then [(last, q.memories[last])] else []
  }

  function Step(h: History, a: Action): History {
    var q := h.queue;
    match a
    case Store(id, revision, now) =>
      h.(queue := StoreQueued(q, id, revision, now), inserted := h.inserted + (if id in q.pending then 0 else 1))
    case Claim(now, lease, limit, token) => h.(queue := Leased(q, ClaimRows(q, now, lease, limit), token, now))
    case Complete(answers) =>
      var done := CompleteAll(q, answers);
      if done.None? then h else h.(queue := done.value.0, completed := h.completed + done.value.1)
    case Fail(items, error) => h.(queue := FailAll(q, items, error).0)
    case Scan(p, ids) => h.(pages := h.pages[p := ReadPage(q, ids)])
    case Enqueue(p, now) =>
      if p !in h.pages then h
      else
        h.(queue := EnqueueAll(q, h.pages[p], now).0, inserted := h.inserted + NewRows(q, h.pages[p]),
           pages := h.pages - {p})
  }

  function Run(h: History, actions: seq<Action>): History
    decreases |actions|
  {
    if actions == [] then h else Run(Step(h, actions[0]), actions[1..])
  }

  ghost predicate PagesFit(h: History) {
    forall p | p in h.pages :: Functional(h.pages[p]) && forall r | r in h.pages[p] :: r.0 in h.queue.memories
  }

  ghost predicate Balanced(h: History) {
    PagesFit(h) && Served(h.queue) && |h.queue.pending| + h.completed == h.inserted
  }

  /** A claim changes leases only. */
  lemma LeasedKeepsRows(q: Queue, ids: seq<Id>, token: Token, now: Time)
    ensures var q' := Leased(q, ids, token, now);
            && q'.memories == q.memories && q'.vectors == q.vectors
            && q'.pending.Keys == q.pending.Keys && |q'.pending| == |q.pending|
            && forall id | id in q.pending :: q'.pending[id].revision == q.pending[id].revision
  {
    var q' := Leased(q, ids, token, now);
    assert |q'.pending| == |q'.pending.Keys| && |q.pending| == |q.pending.Keys|;
  }

  lemma StoreKeepsServed(q: Queue, id: Id, revision: Time, now: Time)
    requires Served(q)
    ensures var q' := StoreQueued(q, id, revision, now);
            Served(q') && |q'.pending| == |q.pending| + (if id in q.pending then 0 else 1)
  {
    var q' := StoreQueued(q, id, revision, now);
    assert q'.pending.Keys == q.pending.Keys + {id};
    assert |q'.pending| == |q'.pending.Keys| && |q.pending| == |q.pending.Keys|;
  }

  lemma StepKeepsBalance(h: History, a: Action)
    requires Balanced(h)
    ensures Balanced(Step(h, a))
  {
    var q := h.queue;
    match a
    case Store(id, revision, now) => StoreKeepsServed(q, id, revision, now);
    case Claim(now, lease, limit, token) => LeasedKeepsRows(q, ClaimRows(q, now, lease, limit), token, now);
    case Complete(answers) => CompletionCountsRemovals(q, answers);
    case Fail(items, error) =>
      FailureKeepsRows(q, items, error);
      assert |FailAll(q, items, error).0.pending.Keys| == |q.pending.Keys|;
    case Scan(p, ids) =>
    case Enqueue(p, now) => if p in h.pages { PageIsEnqueued(q, h.pages[p], now); }
  }

  lemma {:induction false} RunKeepsBalance(h: History, actions: seq<Action>)
    requires Balanced(h)
    ensures Balanced(Run(h, actions))
    decreases |actions|
  {
    if actions != [] {
      StepKeepsBalance(h, actions[0]);
      RunKeepsBalance(Step(h, actions[0]), actions[1..]);
    }
  }

  /** Under any interleaving of stores, claims, expiries, stale completions, failures, scans and stale
      enqueues: no record is left with neither a queue row nor a current vector, and the counts completions
      returned add up to exactly the rows that left the queue. */
  lemma NoWorkLostOrCountedTwice(actions: seq<Action>)
    ensures var h := Run(NEW_HISTORY, actions);
            Served(h.queue) && h.completed == h.inserted - |h.queue.pending|
  {
    RunKeepsBalance(NEW_HISTORY, actions);
  }

  // ---- rows in step with their records ----

  /** Every record of the page is still at the revision it was read with. */
  predicate Fresh(h: History, p: nat)
    requires p in h.pages
  {
    forall r | r in h.pages[p] :: r.0 in h.queue.memories && h.queue.memories[r.0] == r.1
  }

  predicate EnqueuesFresh(h: History, a: Action) { a.Enqueue? && a.p in h.pages ==> Fresh(h, a.p) }

  lemma StepInStepIff(h: History, a: Action)
    requires PagesFit(h) && InStep(h.queue)
    ensures InStep(Step(h, a).queue) <==> EnqueuesFresh(h, a)
  {
    var q := h.queue;
    match a
    case Claim(now, lease, limit, token) => LeasedKeepsRows(q, ClaimRows(q, now, lease, limit), token, now);
    case Complete(answers) => CompletionCountsRemovals(q, answers);
    case Fail(items, error) => FailureKeepsRows(q, items, error);
    case Enqueue(p, now) =>
      if p in h.pages {
        PageIsEnqueued(q, h.pages[p], now);
        var q' := Step(h, a).queue;
        if InStep(q') {
          forall r | r in h.pages[p] ensures q.memories[r.0] == r.1 { assert r.0 in q'.pending; }
        }
      }
    case _ =>
  }

  ghost predicate InStepThroughout(h: History, actions: seq<Action>)
    decreases |actions|
  {
    InStep(h.queue) && (actions == [] || InStepThroughout(Step(h, actions[0]), actions[1..]))
  }

  predicate FreshThroughout(h: History, actions: seq<Action>)
    decreases |actions|
  {
    actions == [] || (EnqueuesFresh(h, actions[0]) && FreshThroughout(Step(h, actions[0]), actions[1..]))
  }

  lemma {:induction false} InStepIff(h: History, actions: seq<Action>)
    requires Balanced(h) && InStep(h.queue)
    ensures InStepThroughout(h, actions) <==> FreshThroughout(h, actions)
    decreases |actions|
  {
    if actions != [] {
      StepInStepIff(h, actions[0]);
      StepKeepsBalance(h, actions[0]);
      if InStep(Step(h, actions[0]).queue) { InStepIff(Step(h, actions[0]), actions[1..]); }
    }
  }

  /** Over a whole run every row stays in step with its record if and only if every enqueued page was fresh. */
  lemma RowsStayInStepIff(actions: seq<Action>)
    ensures InStepThroughout(NEW_HISTORY, actions) <==> FreshThroughout(NEW_HISTORY, actions)
  {
    InStepIff(NEW_HISTORY, actions);
  }

  // ---- what makes a page stale ----

  predicate Stores(a: Action, id: Id) { a.Store? && a.id == id }

  /** The record's revisions never fall. */
  predicate StoresRise(actions: seq<Action>, id: Id, from: Time)
    decreases |actions|
  {
    actions == []
    || if Stores(actions[0], id) then from <= actions[0].revision && StoresRise(actions[1..], id, actions[0].revision)
       else StoresRise(actions[1..], id, from)
  }

  predicate HoldsPage(a: Action, p: nat) { (a.Scan? ==> a.p != p) && (a.Enqueue? ==> a.p != p) }

  lemma StepKeepsRecord(h: History, a: Action, id: Id)
    requires id in h.queue.memories
    ensures var m := Step(h, a).queue.memories;
            id in m && m[id] == if Stores(a, id) then a.revision else h.queue.memories[id]
  {
    var q := h.queue;
    match a
    case Complete(answers) => CompletionCountsRemovals(q, answers);
    case Fail(items, error) => FailureKeepsRows(q, items, error);
    case Enqueue(p, now) => if p in h.pages { EnqueueKeepsRecords(q, h.pages[p], now); }
    case _ =>
  }

  lemma {:induction false} EnqueueKeepsRecords(q: Queue, records: seq<(Id, Time)>, now: Time)
    ensures EnqueueAll(q, records, now).0.memories == q.memories
  {
    if records != [] { EnqueueKeepsRecords(q, records[..|records| - 1], now); }
  }

  lemma {:induction false} RecordUnchangedIff(h: History, actions: seq<Action>, id: Id, from: Time)
    requires id in h.queue.memories && from <= h.queue.memories[id] && StoresRise(actions, id, h.queue.memories[id])
    ensures var m := Run(h, actions).queue.memories;
            id in m && from <= m[id]
            && (m[id] == from <==>
                h.queue.memories[id] == from && forall a | a in actions && Stores(a, id) :: a.revision == from)
    decreases |actions|
  {
    if actions != [] {
      var a, rest := actions[0], actions[1..];
      StepKeepsRecord(h, a, id);
      RecordUnchangedIff(Step(h, a), rest, id, from);
      assert forall b | b in actions :: b == a || b in rest;
    }
  }

  lemma {:induction false} PageWaits(h: History, actions: seq<Action>, p: nat)
    requires p in h.pages && forall a | a in actions :: HoldsPage(a, p)
    ensures var h' := Run(h, actions); p in h'.pages && h'.pages[p] == h.pages[p]
    decreases |actions|
  {
    if actions != [] {
      assert HoldsPage(actions[0], p);
      PageWaits(Step(h, actions[0]), actions[1..], p);
    }
  }

  predicate RowInStep(q: Queue, id: Id) {
    id in q.pending && id in q.memories && q.pending[id].revision == q.memories[id]
  }

  lemma EnqueueStep(h: History, p: nat, now: Time, r: (Id, Time))
    requires p in h.pages && Functional(h.pages[p]) && r in h.pages[p] && r.0 in h.queue.memories
    ensures var q := Step(h, Enqueue(p, now)).queue;
            r.0 in q.pending && (RowInStep(q, r.0) <==> h.queue.memories[r.0] == r.1)
  {
    PageIsEnqueued(h.queue, h.pages[p], now);
  }

  /** A record scanned and later enqueued has a row in step with it if and only if no store between the two
      gave it a new revision. */
  lemma StaleEnqueueBreaksStepIff(h: History, p: nat, ids: seq<Id>, between: seq<Action>, now: Time, r: (Id, Time))
    requires PagesFit(h) && r in ReadPage(h.queue, ids) && StoresRise(between, r.0, r.1)
    requires forall a | a in between :: HoldsPage(a, p)
    ensures var last := Step(Run(Step(h, Scan(p, ids)), between), Enqueue(p, now));
            && r.0 in last.queue.pending
            && (RowInStep(last.queue, r.0) <==> forall a | a in between && Stores(a, r.0) :: a.revision == r.1)
  {
    var scanned := Step(h, Scan(p, ids));
    var waited := Run(scanned, between);
    PageWaits(scanned, between, p);
    RecordUnchangedIff(scanned, between, r.0, r.1);
    EnqueueStep(waited, p, now, r);
  }

  /** The action stores the record, or enqueues a page that holds it. */
  predicate Touches(h: History, a: Action, id: Id) {
    Stores(a, id) || (a.Enqueue? && a.p in h.pages && id in Ids(h.pages[a.p]))
  }

  predicate LeftAlone(h: History, actions: seq<Action>, id: Id)
    decreases |actions|
  {
    actions == [] || (!Touches(h, actions[0], id) && LeftAlone(Step(h, actions[0]), actions[1..], id))
  }

  lemma StaleStep(h: History, a: Action, id: Id)
    requires PagesFit(h) && !Touches(h, a, id)
    requires id in h.queue.pending && id in h.queue.memories && h.queue.pending[id].revision != h.queue.memories[id]
    ensures var q := Step(h, a).queue;
            id in q.pending && q.pending[id].revision == h.queue.pending[id].revision
            && id in q.memories && q.memories[id] == h.queue.memories[id]
  {
    StepKeepsRecord(h, a, id);
    match a
    case Complete(answers) => StaleRowsSurvive(h.queue, answers, id);
    case Fail(items, error) => FailureKeepsRows(h.queue, items, error);
    case Enqueue(p, now) => if p in h.pages { PageIsEnqueued(h.queue, h.pages[p], now); }
    case _ =>
  }

  /** And once out of step, a row outlives every claim, completion, failure and scan, and every store and
      enqueue of other records. */
  lemma {:induction false} StaleRowNeverCompletes(h: History, actions: seq<Action>, id: Id)
    requires Balanced(h) && LeftAlone(h, actions, id)
    requires id in h.queue.pending && id in h.queue.memories && h.queue.pending[id].revision != h.queue.memories[id]
    ensures var q := Run(h, actions).queue;
            id in q.pending && q.pending[id].revision == h.queue.pending[id].revision
            && id in q.memories && q.memories[id] == h.queue.memories[id]
    decreases |actions|
  {
    if actions != [] {
      StaleStep(h, actions[0], id);
      StepKeepsBalance(h, actions[0]);
      StaleRowNeverCompletes(Step(h, actions[0]), actions[1..], id);
    }
  }
}
