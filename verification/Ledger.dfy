/** The contest ledger of aoms/repositories/sqlite.py and aoms/application.py as functions on values. */
module Ledger {
  // The tables are values, the transactions functions from state to state, and the application calls
  // are built on them.

  import opened Common
  import opened Contest

  type Content = string
  type ContestId = nat

  /** Visibility boundary together with the binding stored next to it. */
  datatype Scope = UserGlobal | Workspace(workspace: Agent) | AgentPrivate(agent: Agent)
  datatype ScopeName = GlobalScope | WorkspaceScope | PrivateScope
  datatype Context = Context(agent: Agent, workspace: Agent)

  datatype Verdict = Admit | AdmitSuperseding | SetAside | Split

  datatype Record = Record(
    content: Content,
    scope: Scope,
    author: Agent,
    claimKey: Option<Key>,
    supersedes: Option<Id>,
    disposition: Disposition,
    assertedAt: Option<Time>,
    derivedFrom: seq<Id>,
    createdAt: Time)

  /** A row of `memories`: the stored record and the denormalized `contested` bit. */
  datatype Row = Row(record: Record, contested: bool)

  /** A row of `contest_entries`; the entry is open while `resolution` is None. */
  datatype Entry = Entry(
    recordId: Id,
    claimKey: Key,
    scope: Scope,
    openedBy: Agent,
    incumbents: set<Id>,
    trigger: Trigger,
    occurrences: nat,
    openedAt: Time,
    resolution: Option<Verdict>)

  datatype Receipt = Receipt(
    recordId: Id,
    claimKey: Option<Key>,
    agent: Agent,
    digest: Digest,
    incumbents: set<Id>,
    disposition: Disposition,
    trigger: Option<Trigger>,
    contestId: Option<ContestId>,
    occurrences: nat,
    verdict: Option<Verdict>)

  type Memories = map<Id, Row>

  datatype Store = Store(memories: Memories, contests: map<ContestId, Entry>, receipts: seq<Receipt>)

  const EMPTY_STORE := Store(map[], map[], [])

  /** The configuration every call shares: the hash function and the triggers in force. */
  datatype Env = Env(digest: Content -> Digest, enabled: set<Trigger>)

  // ---- reads ----

  predicate CanAccess(ctx: Context, scope: Scope) {
    match scope
    case UserGlobal => true
    case Workspace(w) => w == ctx.workspace
    case AgentPrivate(a) => a == ctx.agent
  }

  function Bind(name: ScopeName, ctx: Context): Scope {
    match name
    case GlobalScope => UserGlobal
    case WorkspaceScope => Workspace(ctx.workspace)
    case PrivateScope => AgentPrivate(ctx.agent)
  }

  function NameOf(scope: Scope): ScopeName {
    match scope
    case UserGlobal => GlobalScope
    case Workspace(_) => WorkspaceScope
    case AgentPrivate(_) => PrivateScope
  }

  predicate InSlot(row: Row, key: Key, scope: Scope) {
    !row.contested && row.record.claimKey == Some(key) && row.record.scope == scope
  }

  /** Ids some admitted record of the slot declares it supersedes. */
  function Displaced(m: Memories, key: Key, scope: Scope): set<Id> {
    set id | id in m && InSlot(m[id], key, scope) && m[id].record.supersedes.Some? :: m[id].record.supersedes.value
  }

  function SlotOccupants(m: Memories, key: Key, scope: Scope): set<Id> {
    set id | id in m && InSlot(m[id], key, scope) && id !in Displaced(m, key, scope)
  }

  predicate Against(e: Entry, key: Key, scope: Scope, author: Agent) {
    e.claimKey == key && e.scope == scope && e.openedBy == author
  }

  function OpenContests(cs: map<ContestId, Entry>, key: Key, scope: Scope, author: Agent): set<ContestId> {
    set c | c in cs && Against(cs[c], key, scope, author) && cs[c].resolution.None?
  }

  /** ORDER BY opened_at, contest_id. */
  predicate Earlier(cs: map<ContestId, Entry>, a: ContestId, b: ContestId)
    requires a in cs && b in cs
  {
    cs[a].openedAt < cs[b].openedAt || (cs[a].openedAt == cs[b].openedAt && a <= b)
  }

  ghost predicate EarliestOf(cs: map<ContestId, Entry>, s: set<ContestId>, c: ContestId)
    requires s <= cs.Keys
  {
    c in s && forall d | d in s :: Earlier(cs, c, d)
  }

  lemma {:induction false} EarliestExists(cs: map<ContestId, Entry>, s: set<ContestId>) returns (c: ContestId)
    requires s != {} && s <= cs.Keys
    ensures EarliestOf(cs, s, c)
    decreases |s|
  {
    var x :| x in s;
    c := x;
    var rest := s - {x};
    if rest != {} {
      var y := EarliestExists(cs, rest);
      if !Earlier(cs, x, y) { c := y; }
      forall d | d in s ensures Earlier(cs, c, d) {
        assert d == x || d in rest;
      }
    }
  }

  /** The oldest open entry this agent already has against the slot. */
  function OpenContestForSlot(cs: map<ContestId, Entry>, key: Key, scope: Scope, author: Agent): (r: Option<ContestId>)
    ensures r.Some? ==> r.value in OpenContests(cs, key, scope, author)
    ensures r.None? ==> OpenContests(cs, key, scope, author) == {}
  {
    var s := OpenContests(cs, key, scope, author);
    if s == {} then None else
    assert exists c :: EarliestOf(cs, s, c) by { var c := EarliestExists(cs, s); }
    var c :| c in s && forall d | d in s :: Earlier(cs, c, d);
    Some(c)
  }

  predicate Visible(m: Memories, ctx: Context, id: Id) {
    id in m && !m[id].contested && CanAccess(ctx, m[id].record.scope)
  }

  predicate Linked(m: Memories, a: Id, b: Id)
    requires a in m && b in m
  {
    m[a].record.supersedes == Some(b) || m[b].record.supersedes == Some(a)
  }

  const MAX_LINEAGE_DEPTH: nat := 100

  /** The recursive lineage query: visible admitted records at most `depth` declared links away. */
  function Lineage(m: Memories, ctx: Context, root: Id, depth: nat): (r: set<Id>)
    ensures forall x | x in r :: Visible(m, ctx, x)
  {
    if depth == 0 then (if Visible(m, ctx, root) then {root} else {})
    else
      var near := Lineage(m, ctx, root, depth - 1);
      near + set p, x | p in near && x in m && Visible(m, ctx, x) && Linked(m, p, x) :: x
  }

  function DirectSuccessors(m: Memories, ctx: Context, prior: Id): set<Id> {
    var chain := Lineage(m, ctx, prior, MAX_LINEAGE_DEPTH);
    set x | x in chain && m[x].record.supersedes == Some(prior)
  }

  // ---- adjudication ----

  datatype Request = Request(
    id: Id,
    content: Content,
    scope: ScopeName,
    claimKey: Option<Key>,
    supersedes: Option<Id>,
    assertedAt: Option<Time>,
    derivedFrom: seq<Id>)

  /** One write in progress: what was asked, by whom, and whether the id must be new. */
  datatype Write = Write(request: Request, ctx: Context, createOnly: bool) {
    function Scope(): Scope { Bind(request.scope, ctx) }
  }

  function IntentOf(env: Env, r: Request): Intent {
    Intent(env.digest(r.content), r.claimKey, r.supersedes, r.assertedAt, r.derivedFrom)
  }

  function OccupantsFor(env: Env, m: Memories, key: Key, scope: Scope, except: Id): set<Occupant> {
    set id | id in SlotOccupants(m, key, scope) && id != except ::
      Occupant(id, env.digest(m[id].record.content), m[id].record.assertedAt)
  }

  /** The slot read and the gate. */
  function Judge(env: Env, m: Memories, w: Write): Decision {
    if w.request.claimKey.None? then Decision(Admitted, None, {}, NoDetail)
    else
      Decide(IntentOf(env, w.request),
             OccupantsFor(env, m, w.request.claimKey.value, w.Scope(), w.request.id),
             env.enabled)
  }

  /** The second read: which open entry a contested write coalesces into. */
  function Coalesce(cs: map<ContestId, Entry>, w: Write, d: Decision): Option<ContestId> {
    if d.disposition == Contested && w.request.claimKey.Some? then
      OpenContestForSlot(cs, w.request.claimKey.value, w.Scope(), w.ctx.agent)
    else None
  }

  // ---- the write transaction ----

  datatype LedgerWrite = LedgerWrite(
    receipt: Receipt,
    contest: Option<(ContestId, Entry)>,
    coalesced: Option<ContestId>)

  function BuildRecord(w: Write, d: Decision, now: Time): Record {
    Record(w.request.content, w.Scope(), w.ctx.agent, w.request.claimKey, w.request.supersedes,
           d.disposition, w.request.assertedAt, w.request.derivedFrom, now)
  }

  /** The rows that commit with the record; `seen` is the occurrence count read from the entry. */
  function BuildLedger(env: Env, w: Write, d: Decision, into: Option<ContestId>, seen: nat,
                       newContest: ContestId, now: Time): Option<LedgerWrite> {
    if w.request.claimKey.None? then None
    else
      var contested := d.disposition == Contested;
      var opens := contested && into.None?;
      var contestId := if !contested then None else if into.Some? then into else Some(newContest);
      var entry := Entry(w.request.id, w.request.claimKey.value, w.Scope(), w.ctx.agent, d.incumbents,
                         if d.trigger.Some? then d.trigger.value else SlotCollision, 1, now, None);
      var receipt := Receipt(w.request.id, w.request.claimKey, w.ctx.agent, env.digest(w.request.content),
                             d.incumbents, d.disposition, d.trigger, contestId,
                             if contested && into.Some? then seen + 1 else 1, None);
      Some(LedgerWrite(receipt,
                       if opens then Some((newContest, entry)) else None,
                       if contested then into else None))
  }

  function WriteLedgerRows(s: Store, l: LedgerWrite): Store {
    var contests :=
      if l.contest.Some? then s.contests[l.contest.value.0 := l.contest.value.1]
      else if l.coalesced.Some? && l.coalesced.value in s.contests
          && s.contests[l.coalesced.value].resolution.None? then
        var c := l.coalesced.value;
        s.contests[c := s.contests[c].(occurrences := s.contests[c].occurrences + 1)]
      else s.contests;
    Store(s.memories, contests, s.receipts + [l.receipt])
  }

  datatype Outcome =
    | Created
    | Retained(record: Record)
    | ContentConflict
    | IdInUse
    | LedgerKeyTaken

  /** PRIMARY KEY(contest_id) and UNIQUE(record_id) of `contest_entries`. */
  predicate LedgerKeysFree(s: Store, l: LedgerWrite) {
    l.contest.Some? ==>
      && l.contest.value.0 !in s.contests
      && forall c | c in s.contests :: s.contests[c].recordId != l.contest.value.1.recordId
  }

  function Insert(s: Store, id: Id, record: Record, ledger: Option<LedgerWrite>): (Store, Outcome) {
    if ledger.Some? && !LedgerKeysFree(s, ledger.value) then (s, LedgerKeyTaken)
    else
      var s' := s.(memories := s.memories[id := Row(record, record.disposition == Contested)]);
      (if ledger.Some? then WriteLedgerRows(s', ledger.value) else s', Created)
  }

  /** `_store_if_content_unchanged_sync`: the first write of an id wins. */
  function StoreIfContentUnchanged(s: Store, id: Id, record: Record, ledger: Option<LedgerWrite>): (Store, Outcome) {
    if id in s.memories then
      var kept := s.memories[id].record;
      (s, if kept.content == record.content then Retained(kept) else ContentConflict)
    else Insert(s, id, record, ledger)
  }

  /** `_store_many_sync` with `insert_only`: an existing id is never touched. */
  function StoreNew(s: Store, id: Id, record: Record, ledger: Option<LedgerWrite>): (Store, Outcome) {
    if id in s.memories then (s, IdInUse) else Insert(s, id, record, ledger)
  }

  function CommitWrite(env: Env, s: Store, w: Write, d: Decision, into: Option<ContestId>, seen: nat,
                       newContest: ContestId, now: Time): (Store, Outcome) {
    var record := BuildRecord(w, d, now);
    var ledger := BuildLedger(env, w, d, into, seen, newContest, now);
    if w.createOnly then StoreNew(s, w.request.id, record, ledger)
    else StoreIfContentUnchanged(s, w.request.id, record, ledger)
  }

  // ---- the resolution transaction ----

  function ApplyResolution(row: Row, admit: bool, newKey: Option<Key>): Row {
    var disposition := if admit then Admitted else row.record.disposition;
    var key := if newKey.Some? then newKey else row.record.claimKey;
    Row(row.record.(disposition := disposition, claimKey := key), disposition == Contested)
  }

  predicate Admits(v: Verdict) { v == Admit || v == Split }

  datatype ResolveOutcome = Resolved | NoSuchContest | AlreadyResolved | RecordMissing

  /** `_resolve_contest_sync`: state check, record rewrite, entry update and receipt in one step. */
  function CommitResolution(s: Store, c: ContestId, v: Verdict, newKey: Option<Key>, receipt: Receipt)
      : (Store, ResolveOutcome) {
    if c !in s.contests then (s, NoSuchContest)
    else
      var e := s.contests[c];
      var rewrites := Admits(v) || newKey.Some?;
      if e.resolution.Some? then (s, AlreadyResolved)
      else if rewrites && e.recordId !in s.memories then (s, RecordMissing)
      else
        var memories :=
          if rewrites then s.memories[e.recordId := ApplyResolution(s.memories[e.recordId], Admits(v), newKey)]
          else s.memories;
        var e' := e.(resolution := Some(v), claimKey := if newKey.Some? then newKey.value else e.claimKey);
        (Store(memories, s.contests[c := e'], s.receipts + [receipt]), Resolved)
  }

  // ---- application calls, each run with no other writer in between ----

  datatype Refusal = InaccessibleScope | ChangedContent | IdTaken | NotFound | NotHead | LedgerRefused
                   | NeedsIncumbent | NeedsKey | KeyHeld | ContestClosed

  datatype Result =
    | Stored(disposition: Disposition, incumbents: set<Id>)
    | Existing(disposition: Disposition)
    | Verdicted(successor: Option<Id>)
    | Refused(reason: Refusal)

  /** `_remember`. */
  function Remember(env: Env, s: Store, w: Write, newContest: ContestId, now: Time): (Store, Result) {
    var id := w.request.id;
    if id in s.memories then
      var kept := s.memories[id].record;
      (s, if w.createOnly then Refused(IdTaken)
          else if !CanAccess(w.ctx, kept.scope) then Refused(InaccessibleScope)
          else if kept.content != w.request.content then Refused(ChangedContent)
          else Existing(kept.disposition))
    else
      var d := Judge(env, s.memories, w);
      var into := Coalesce(s.contests, w, d);
      var seen := if into.Some? then s.contests[into.value].occurrences else 0;
      var (s', outcome) := CommitWrite(env, s, w, d, into, seen, newContest, now);
      (s', if outcome.Created? then Stored(d.disposition, d.incumbents) else Refused(LedgerRefused))
  }

  datatype SupersedeRequest = SupersedeRequest(
    id: Id,
    content: Content,
    claimKey: Option<Key>,
    assertedAt: Option<Time>,
    derivedFrom: seq<Id>)

  function SuccessorRequest(oldId: Id, prior: Record, r: SupersedeRequest): Request {
    Request(r.id, r.content, NameOf(prior.scope), if r.claimKey.Some? then r.claimKey else prior.claimKey,
            Some(oldId), r.assertedAt, r.derivedFrom)
  }

  function Supersede(env: Env, s: Store, ctx: Context, oldId: Id, r: SupersedeRequest,
                     newContest: ContestId, now: Time): (Store, Result) {
    if oldId !in s.memories then (s, Refused(NotFound))
    else
      var prior := s.memories[oldId].record;
      if !CanAccess(ctx, prior.scope) then (s, Refused(InaccessibleScope))
      else if DirectSuccessors(s.memories, ctx, oldId) != {} then (s, Refused(NotHead))
      else if r.id in s.memories then (s, Refused(IdTaken))
      else Remember(env, s, Write(SuccessorRequest(oldId, prior, r), ctx, true), newContest, now)
  }

  function ResolutionReceipt(env: Env, c: ContestId, e: Entry, contested: Record, resolvedBy: Agent,
                             v: Verdict, newKey: Option<Key>): Receipt {
    Receipt(e.recordId, if newKey.Some? then newKey else contested.claimKey, resolvedBy,
            env.digest(contested.content), e.incumbents, if Admits(v) then Admitted else Contested,
            Some(e.trigger), Some(c), e.occurrences, Some(v))
  }

  /** What an operator passes besides the verdict; the two ids are drawn fresh by the server. */
  datatype Resolution = Resolution(
    verdict: Verdict,
    resolvedBy: Agent,
    incumbent: Option<Id>,
    newKey: Option<Key>,
    successor: Id,
    successorContest: ContestId)

  function ContestedContent(contested: Record, r: Resolution): SupersedeRequest {
    SupersedeRequest(r.successor, contested.content, contested.claimKey, None, [])
  }

  /** `resolve_contest`. */
  function Resolve(env: Env, s: Store, ctx: Context, c: ContestId, r: Resolution, now: Time): (Store, Result) {
    if c !in s.contests || s.contests[c].recordId !in s.memories then (s, Refused(NotFound))
    else
      var e := s.contests[c];
      var contested := s.memories[e.recordId].record;
      if !CanAccess(ctx, contested.scope) then (s, Refused(InaccessibleScope))
      else if r.verdict == AdmitSuperseding && r.incumbent.None? then (s, Refused(NeedsIncumbent))
      else if r.verdict == Split && r.newKey.None? then (s, Refused(NeedsKey))
      else if r.verdict == Split && SlotOccupants(s.memories, r.newKey.value, contested.scope) != {} then
        (s, Refused(KeyHeld))
      else
        var (s', succeeded) :=
          if r.verdict == AdmitSuperseding then
            Supersede(env, s, ctx, r.incumbent.value, ContestedContent(contested, r), r.successorContest, now)
          else (s, Verdicted(None));
        if succeeded.Refused? then (s', succeeded)
        else
          var receipt := ResolutionReceipt(env, c, e, contested, r.resolvedBy, r.verdict, r.newKey);
          var (s'', outcome) := CommitResolution(s', c, r.verdict, r.newKey, receipt);
          (s'', if outcome.Resolved? then Verdicted(if r.verdict == AdmitSuperseding then Some(r.successor) else None)
                else Refused(ContestClosed))
  }
}
