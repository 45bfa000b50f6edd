/** What every transaction on the ledger keeps, whatever the caller read before it. */
module LedgerInvariants {
  import opened Common
  import opened Contest
  import opened Ledger

  // ---- the drift report ----

  predicate HasOwnEntry(s: Store, id: Id) {
    exists c | c in s.contests :: s.contests[c].recordId == id
  }

  predicate HasSlotEntry(s: Store, r: Record) {
    exists c | c in s.contests ::
      Some(s.contests[c].claimKey) == r.claimKey && s.contests[c].scope == r.scope && s.contests[c].openedBy == r.author
  }

  predicate OpenAgainst(s: Store, id: Id) {
    exists c | c in s.contests :: s.contests[c].recordId == id && s.contests[c].resolution.None?
  }

  predicate Covered(s: Store, id: Id)
    requires id in s.memories
  {
    HasOwnEntry(s, id) || HasSlotEntry(s, s.memories[id].record)
  }

  /** `_contested_drift`: every id on which the projection and the ledger disagree. */
  function Drift(s: Store): set<Id> {
    (set id | id in s.memories && s.memories[id].contested != (s.memories[id].record.disposition == Contested))
    + (set id | id in s.memories && !s.memories[id].contested && OpenAgainst(s, id))
    + (set id | id in s.memories && s.memories[id].contested && !Covered(s, id))
  }

  /** The three queries on the rows: a bit that disagrees with its record, an open entry against a record
      that is not contested, and a contested record with neither an entry of its own nor one that its author
      filed against its slot. */
  lemma DriftReports(s: Store, id: Id)
    ensures id in Drift(s)
            <==> && id in s.memories
                 && var row := s.memories[id];
                    || (row.contested <==> row.record.disposition != Contested)
                    || (!row.contested && exists c | c in s.contests ::
                          s.contests[c].recordId == id && s.contests[c].resolution.None?)
                    || (row.contested
                        && (forall c | c in s.contests :: s.contests[c].recordId != id)
                        && (forall c | c in s.contests ::
                              !(Some(s.contests[c].claimKey) == row.record.claimKey
                                && s.contests[c].scope == row.record.scope
                                && s.contests[c].openedBy == row.record.author)))
  {}

  // ---- invariants ----

  /** The contested bit mirrors the disposition, and only a record with a slot is contested. */
  ghost predicate BitsAgree(s: Store) {
    forall id | id in s.memories ::
      && s.memories[id].contested == (s.memories[id].record.disposition == Contested)
      && (s.memories[id].contested ==> s.memories[id].record.claimKey.Some?)
  }

  ghost predicate EntrySound(s: Store, e: Entry) {
    && e.recordId in s.memories
    && var row := s.memories[e.recordId];
       && row.record.claimKey == Some(e.claimKey) && row.record.scope == e.scope && row.record.author == e.openedBy
       && (e.resolution.None? ==> row.contested)
       && e.occurrences >= 1
  }

  /** Foreign key and uniqueness of `contest_entries`, and agreement of each entry with its record. */
  ghost predicate EntriesSound(s: Store) {
    && (forall c | c in s.contests :: EntrySound(s, s.contests[c]))
    && (forall c, d | c in s.contests && d in s.contests && s.contests[c].recordId == s.contests[d].recordId :: c == d)
  }

  ghost predicate Sound(s: Store) { BitsAgree(s) && EntriesSound(s) }

  ghost predicate AllCovered(s: Store) {
    forall id | id in s.memories && s.memories[id].contested :: Covered(s, id)
  }

  lemma SoundAndCoveredMeansNoDrift(s: Store)
    requires Sound(s)
    ensures Drift(s) == {} <==> AllCovered(s)
  {
    if Drift(s) == {} {
      forall id | id in s.memories && s.memories[id].contested ensures Covered(s, id) {
        assert id !in Drift(s);
      }
    }
  }

  /** What a decision the gate returned always satisfies. */
  ghost predicate DecisionFits(w: Write, d: Decision) {
    d.disposition == Contested ==> w.request.claimKey.Some?
  }

  /** The entry chosen for coalescing existed with the write's slot and author. */
  ghost predicate CoalesceFits(s: Store, w: Write, d: Decision, into: Option<ContestId>) {
    into.Some? ==>
      && d.disposition == Contested && w.request.claimKey.Some?
      && into.value in s.contests
      && Against(s.contests[into.value], w.request.claimKey.value, w.Scope(), w.ctx.agent)
  }

  /** Records are never removed, and nothing but slot and disposition of a record ever changes. */
  ghost predicate Keeps(s: Store, s': Store) {
    && (forall id | id in s.memories ::
          && id in s'.memories
          && s'.memories[id].record.(claimKey := None, disposition := Admitted)
             == s.memories[id].record.(claimKey := None, disposition := Admitted))
    && (forall c | c in s.contests ::
          && c in s'.contests
          && s'.contests[c].recordId == s.contests[c].recordId
          && (s.contests[c].resolution.Some? ==> s'.contests[c].resolution == s.contests[c].resolution)
          && s.contests[c].occurrences <= s'.contests[c].occurrences)
    && s.receipts <= s'.receipts
  }

  lemma KeepsTransitive(a: Store, b: Store, c: Store)
    requires Keeps(a, b) && Keeps(b, c)
    ensures Keeps(a, c)
  {
    assert forall id | id in a.memories :: id in b.memories && id in c.memories;
    assert forall k | k in a.contests :: k in b.contests && k in c.contests;
  }

  // ---- conservation ----

  function Keyed(s: Store): set<Id> {
    set id | id in s.memories && s.memories[id].record.claimKey.Some?
  }

  function ResolvedEntries(s: Store): set<ContestId> {
    set c | c in s.contests && s.contests[c].resolution.Some?
  }

  /** One receipt per claim-keyed write and one per resolution, and no other. */
  ghost predicate ReceiptsBalance(s: Store) {
    |s.receipts| == |Keyed(s)| + |ResolvedEntries(s)|
  }

  function Occurrences(s: Store): map<ContestId, nat> {
    map c | c in s.contests :: s.contests[c].occurrences
  }

  predicate StoredContested(r: Receipt) { r.verdict.None? && r.disposition == Contested }

  /** How many writes the log says were stored as contested. */
  function ContestedWrites(receipts: seq<Receipt>): nat {
    if receipts == [] then 0
    else ContestedWrites(receipts[..|receipts| - 1]) + if StoredContested(receipts[|receipts| - 1]) then 1 else 0
  }

  // ---- the write transaction ----

  lemma AddingARowKeepsSound(s: Store, id: Id, row: Row)
    requires Sound(s) && id !in s.memories
    requires row.contested == (row.record.disposition == Contested) && (row.contested ==> row.record.claimKey.Some?)
    ensures Sound(s.(memories := s.memories[id := row]))
  {
    var s' := s.(memories := s.memories[id := row]);
    forall c | c in s'.contests ensures EntrySound(s', s'.contests[c]) {
      assert EntrySound(s, s.contests[c]);
    }
  }

  lemma LedgerRowsKeep(s: Store, l: LedgerWrite)
    requires l.contest.Some? ==> LedgerKeysFree(s, l)
    ensures Keeps(s, WriteLedgerRows(s, l))
  {}

  lemma LedgerRowsKeepSound(s: Store, l: LedgerWrite)
    requires Sound(s)
    requires l.contest.Some? ==> LedgerKeysFree(s, l) && EntrySound(s, l.contest.value.1)
    ensures Sound(WriteLedgerRows(s, l))
  {
    var s' := WriteLedgerRows(s, l);
    forall c | c in s'.contests ensures EntrySound(s', s'.contests[c]) {
      if c in s.contests { assert EntrySound(s, s.contests[c]); }
    }
  }

  function RowOf(w: Write, d: Decision, now: Time): Row { Row(BuildRecord(w, d, now), d.disposition == Contested) }

  /** A commit writes nothing, or the record's row and its ledger rows. */
  lemma CommitIsRowAndLedger(env: Env, s: Store, w: Write, d: Decision, into: Option<ContestId>, seen: nat,
                             newContest: ContestId, now: Time)
    ensures var (s', outcome) := CommitWrite(env, s, w, d, into, seen, newContest, now);
            var s1 := s.(memories := s.memories[w.request.id := RowOf(w, d, now)]);
            var l := BuildLedger(env, w, d, into, seen, newContest, now);
            if outcome.Created? then
              && w.request.id !in s.memories && (l.Some? ==> LedgerKeysFree(s, l.value))
              && s' == if l.Some? then WriteLedgerRows(s1, l.value) else s1
            else s' == s
  {}

  lemma WriteKeepsSound(env: Env, s: Store, w: Write, d: Decision, into: Option<ContestId>, seen: nat,
                        newContest: ContestId, now: Time)
    requires Sound(s) && DecisionFits(w, d)
    ensures var s' := CommitWrite(env, s, w, d, into, seen, newContest, now).0; Sound(s') && Keeps(s, s')
  {
    var (s', outcome) := CommitWrite(env, s, w, d, into, seen, newContest, now);
    CommitIsRowAndLedger(env, s, w, d, into, seen, newContest, now);
    if outcome.Created? {
      var row := RowOf(w, d, now);
      var s1 := s.(memories := s.memories[w.request.id := row]);
      AddingARowKeepsSound(s, w.request.id, row);
      var l := BuildLedger(env, w, d, into, seen, newContest, now);
      if l.Some? {
        LedgerRowsKeepSound(s1, l.value);
        LedgerRowsKeep(s1, l.value);
        KeepsTransitive(s, s1, s');
      }
    }
  }

  /** A write to be counted into an entry finds some entry of its slot and author when it commits. */
  predicate StillCovered(s: Store, w: Write, d: Decision, into: Option<ContestId>, now: Time) {
    w.request.id !in s.memories && d.disposition == Contested && into.Some? ==>
      HasSlotEntry(s, BuildRecord(w, d, now))
  }

  /** Whatever was read before it, and however long ago, a commit leaves every contested record covered if
      and only if it still finds the cover it was to be counted into. */
  lemma WriteKeepsCoveredIff(env: Env, s: Store, w: Write, d: Decision, into: Option<ContestId>, seen: nat,
                             newContest: ContestId, now: Time)
    requires Sound(s) && DecisionFits(w, d) && AllCovered(s)
    ensures AllCovered(CommitWrite(env, s, w, d, into, seen, newContest, now).0) <==> StillCovered(s, w, d, into, now)
  {
    var (s', outcome) := CommitWrite(env, s, w, d, into, seen, newContest, now);
    if outcome.Created? {
      var id := w.request.id;
      forall x | x in s.memories && s.memories[x].contested ensures Covered(s', x) {
        OldRowIsCovered(env, s, w, d, into, seen, newContest, now, x);
      }
      if d.disposition == Contested {
        NewRowIsCoveredIff(env, s, w, d, into, seen, newContest, now);
        assert AllCovered(s') <==> Covered(s', id);
      }
    }
  }

  lemma OldRowIsCovered(env: Env, s: Store, w: Write, d: Decision, into: Option<ContestId>, seen: nat,
                        newContest: ContestId, now: Time, x: Id)
    requires x in s.memories && Covered(s, x)
    ensures var s' := CommitWrite(env, s, w, d, into, seen, newContest, now).0;
            x in s'.memories && s'.memories[x] == s.memories[x] && Covered(s', x)
  {
    var s' := CommitWrite(env, s, w, d, into, seen, newContest, now).0;
    EntriesStay(env, s, w, d, into, seen, newContest, now);
    if HasOwnEntry(s, x) {
      var c :| c in s.contests && s.contests[c].recordId == x;
      assert c in s'.contests && s'.contests[c].recordId == x;
    } else {
      SlotEntryPersists(s, s', s.memories[x].record);
    }
  }

  lemma EntriesStay(env: Env, s: Store, w: Write, d: Decision, into: Option<ContestId>, seen: nat,
                    newContest: ContestId, now: Time)
    ensures var s' := CommitWrite(env, s, w, d, into, seen, newContest, now).0;
            forall c | c in s.contests ::
              c in s'.contests && s'.contests[c].(occurrences := 0) == s.contests[c].(occurrences := 0)
  {}

  /** The new record has an entry of its own if it opened one, and otherwise only what was there before. */
  lemma NewRowIsCoveredIff(env: Env, s: Store, w: Write, d: Decision, into: Option<ContestId>, seen: nat,
                           newContest: ContestId, now: Time)
    requires Sound(s) && DecisionFits(w, d) && d.disposition == Contested
    requires CommitWrite(env, s, w, d, into, seen, newContest, now).1.Created?
    ensures var s' := CommitWrite(env, s, w, d, into, seen, newContest, now).0;
            w.request.id in s'.memories && (Covered(s', w.request.id) <==> StillCovered(s, w, d, into, now))
  {
    var s' := CommitWrite(env, s, w, d, into, seen, newContest, now).0;
    var r := BuildRecord(w, d, now);
    if into.Some? {
      EntriesStay(env, s, w, d, into, seen, newContest, now);
      forall c | c in s'.contests ensures s'.contests[c].recordId != w.request.id {
        assert EntrySound(s, s.contests[c]);
      }
      if HasSlotEntry(s, r) { SlotEntryPersists(s, s', r); }
      if HasSlotEntry(s', r) { SlotEntryPersists(s', s, r); }
    } else {
      assert newContest in s'.contests && s'.contests[newContest].recordId == w.request.id;
    }
  }

  /** The entry chosen for coalescing is such a cover while it keeps its key. */
  lemma CoalescedIsCovered(s: Store, w: Write, d: Decision, into: Option<ContestId>, now: Time)
    requires CoalesceFits(s, w, d, into)
    ensures StillCovered(s, w, d, into, now)
  {
    if into.Some? { assert into.value in s.contests; }
  }

  /** Entries that keep key, scope and author still cover the same records. */
  lemma SlotEntryPersists(s: Store, s': Store, r: Record)
    requires HasSlotEntry(s, r)
    requires forall c | c in s.contests :: c in s'.contests && s'.contests[c].claimKey == s.contests[c].claimKey
               && s'.contests[c].scope == s.contests[c].scope && s'.contests[c].openedBy == s.contests[c].openedBy
    ensures HasSlotEntry(s', r)
  {
    var c :| c in s.contests && Some(s.contests[c].claimKey) == r.claimKey
             && s.contests[c].scope == r.scope && s.contests[c].openedBy == r.author;
    assert c in s'.contests;
  }

  lemma KeyedAfterRow(s: Store, id: Id, row: Row)
    requires id !in s.memories
    ensures |Keyed(s.(memories := s.memories[id := row]))|
            == |Keyed(s)| + if row.record.claimKey.Some? then 1 else 0
  {
    var s' := s.(memories := s.memories[id := row]);
    assert Keyed(s') == if row.record.claimKey.Some? then Keyed(s) + {id} else Keyed(s);
  }

  lemma LedgerRowsResolveNothing(s: Store, l: LedgerWrite)
    requires l.contest.Some? ==> l.contest.value.1.resolution.None? && LedgerKeysFree(s, l)
    ensures ResolvedEntries(WriteLedgerRows(s, l)) == ResolvedEntries(s)
    ensures Keyed(WriteLedgerRows(s, l)) == Keyed(s)
  {}

  lemma WriteKeepsBalance(env: Env, s: Store, w: Write, d: Decision, into: Option<ContestId>, seen: nat,
                          newContest: ContestId, now: Time)
    requires ReceiptsBalance(s)
    ensures ReceiptsBalance(CommitWrite(env, s, w, d, into, seen, newContest, now).0)
  {
    var (s', outcome) := CommitWrite(env, s, w, d, into, seen, newContest, now);
    if outcome.Created? {
      var row := Row(BuildRecord(w, d, now), d.disposition == Contested);
      var s1 := s.(memories := s.memories[w.request.id := row]);
      KeyedAfterRow(s, w.request.id, row);
      assert ResolvedEntries(s1) == ResolvedEntries(s);
      var l := BuildLedger(env, w, d, into, seen, newContest, now);
      if l.Some? { LedgerRowsResolveNothing(s1, l.value); }
    }
  }

  /** The entry a write was to be counted into, if any, is still open. */
  predicate CanCount(s: Store, into: Option<ContestId>) {
    into.Some? ==> into.value in s.contests && s.contests[into.value].resolution.None?
  }

  /** A stored contested write raises the occurrence total by one, or by nothing exactly when the entry it
      was to be counted into is no longer open. */
  lemma WriteCountsOnce(env: Env, s: Store, w: Write, d: Decision, into: Option<ContestId>, seen: nat,
                        newContest: ContestId, now: Time)
    ensures var s' := CommitWrite(env, s, w, d, into, seen, newContest, now).0;
            var counted := ContestedWrites(s'.receipts) - ContestedWrites(s.receipts);
            var total := Sum(Occurrences(s')) - Sum(Occurrences(s));
            0 <= counted <= 1 && total == if CanCount(s, into) then counted else 0
  {
    OccurrencesAfterWrite(env, s, w, d, into, seen, newContest, now);
  }

  /** What the ledger rows of one write add to the counts. */
  function CountsAdded(s: Store, l: LedgerWrite): nat {
    if l.contest.Some? then l.contest.value.1.occurrences
    else if l.coalesced.Some? && l.coalesced.value in s.contests && s.contests[l.coalesced.value].resolution.None?
        then 1
    else 0
  }

  lemma OccurrencesAfterRows(s: Store, l: LedgerWrite)
    requires LedgerKeysFree(s, l)
    ensures Sum(Occurrences(WriteLedgerRows(s, l))) == Sum(Occurrences(s)) + CountsAdded(s, l)
  {
    var s' := WriteLedgerRows(s, l);
    if l.contest.Some? {
      var (c, e) := l.contest.value;
      SumInsert(Occurrences(s), c, e.occurrences);
      assert Occurrences(s') == Occurrences(s)[c := e.occurrences];
    } else if CountsAdded(s, l) == 1 {
      var c := l.coalesced.value;
      SumUpdate(Occurrences(s), c, s.contests[c].occurrences + 1);
      assert Occurrences(s') == Occurrences(s)[c := s.contests[c].occurrences + 1];
    } else {
      assert Occurrences(s') == Occurrences(s);
    }
  }

  lemma OccurrencesAfterWrite(env: Env, s: Store, w: Write, d: Decision, into: Option<ContestId>, seen: nat,
                              newContest: ContestId, now: Time)
    ensures var (s', outcome) := CommitWrite(env, s, w, d, into, seen, newContest, now);
            var counted := outcome.Created? && w.request.claimKey.Some? && d.disposition == Contested;
            && Sum(Occurrences(s')) == Sum(Occurrences(s)) + (if counted && CanCount(s, into) then 1 else 0)
            && ContestedWrites(s'.receipts) == ContestedWrites(s.receipts) + if counted then 1 else 0
  {
    CommitIsRowAndLedger(env, s, w, d, into, seen, newContest, now);
    var l := BuildLedger(env, w, d, into, seen, newContest, now);
    var s1 := s.(memories := s.memories[w.request.id := RowOf(w, d, now)]);
    assert Occurrences(s1) == Occurrences(s);
    if l.Some? && LedgerKeysFree(s, l.value) { OccurrencesAfterRows(s1, l.value); }
  }

  // ---- the resolution transaction ----

  lemma ResolutionKeeps(s: Store, c: ContestId, v: Verdict, newKey: Option<Key>, receipt: Receipt)
    ensures Keeps(s, CommitResolution(s, c, v, newKey, receipt).0)
  {}

  lemma ResolutionKeepsSound(s: Store, c: ContestId, v: Verdict, newKey: Option<Key>, receipt: Receipt)
    requires Sound(s)
    ensures var s' := CommitResolution(s, c, v, newKey, receipt).0; Sound(s') && Keeps(s, s')
  {
    var s' := CommitResolution(s, c, v, newKey, receipt).0;
    ResolutionKeeps(s, c, v, newKey, receipt);
    if s' != s {
      forall d | d in s'.contests ensures EntrySound(s', s'.contests[d]) {
        assert EntrySound(s, s.contests[d]);
        assert d != c ==> s.contests[d].recordId != s.contests[c].recordId;
      }
    }
  }

  lemma ResolutionKeepsCovered(s: Store, c: ContestId, v: Verdict, receipt: Receipt)
    requires Sound(s) && AllCovered(s)
    ensures AllCovered(CommitResolution(s, c, v, None, receipt).0)
  {
    var s' := CommitResolution(s, c, v, None, receipt).0;
    if s' != s {
      forall id | id in s'.memories && s'.memories[id].contested ensures Covered(s', id) {
        assert id in s.memories && s.memories[id].contested;
        assert Covered(s, id);
        if HasOwnEntry(s, id) {
          var d :| d in s.contests && s.contests[d].recordId == id;
          assert d in s'.contests && s'.contests[d].recordId == id;
        } else {
          SlotEntryPersists(s, s', s.memories[id].record);
        }
      }
    }
  }

  lemma ResolutionKeepsBalance(s: Store, c: ContestId, v: Verdict, newKey: Option<Key>, receipt: Receipt)
    requires Sound(s) && ReceiptsBalance(s) && receipt.verdict.Some?
    ensures var s' := CommitResolution(s, c, v, newKey, receipt).0;
            && ReceiptsBalance(s')
            && ContestedWrites(s'.receipts) == ContestedWrites(s.receipts)
            && Sum(Occurrences(s')) == Sum(Occurrences(s))
  {
    var s' := CommitResolution(s, c, v, newKey, receipt).0;
    if s' != s {
      assert EntrySound(s, s.contests[c]);
      assert ResolvedEntries(s') == ResolvedEntries(s) + {c};
      assert Keyed(s') == Keyed(s);
      assert Occurrences(s') == Occurrences(s);
    }
  }

  // ---- whole calls ----

  /** What every call leaves as it found it, whatever it was asked. */
  ghost predicate Healthy(s: Store) { Sound(s) && ReceiptsBalance(s) }

  ghost predicate KeepsHealth(s: Store, s': Store) { Healthy(s) ==> Healthy(s') && Keeps(s, s') }

  lemma HealthTransitive(a: Store, b: Store, c: Store)
    requires KeepsHealth(a, b) && KeepsHealth(b, c)
    ensures KeepsHealth(a, c)
  {
    if Healthy(a) { KeepsTransitive(a, b, c); }
  }

  /** A store of an id leaves every row already there, and every entry and receipt. */
  lemma InsertKeeps(s: Store, id: Id, record: Record, ledger: Option<LedgerWrite>)
    requires id !in s.memories
    ensures Keeps(s, Insert(s, id, record, ledger).0)
  {
    var s1 := s.(memories := s.memories[id := Row(record, record.disposition == Contested)]);
    if ledger.Some? && LedgerKeysFree(s, ledger.value) {
      LedgerRowsKeep(s1, ledger.value);
      KeepsTransitive(s, s1, WriteLedgerRows(s1, ledger.value));
    }
  }

  lemma RememberKeepsHealth(env: Env, s: Store, w: Write, newContest: ContestId, now: Time)
    ensures KeepsHealth(s, Remember(env, s, w, newContest, now).0)
  {
    if Healthy(s) && w.request.id !in s.memories {
      var d := Judge(env, s.memories, w);
      var into := Coalesce(s.contests, w, d);
      var seen := if into.Some? then s.contests[into.value].occurrences else 0;
      WriteKeepsSound(env, s, w, d, into, seen, newContest, now);
      WriteKeepsBalance(env, s, w, d, into, seen, newContest, now);
    }
  }

  lemma SupersedeIsRemember(env: Env, s: Store, ctx: Context, oldId: Id, r: SupersedeRequest, newContest: ContestId,
                            now: Time)
    ensures var s' := Supersede(env, s, ctx, oldId, r, newContest, now).0;
            s' == s || (oldId in s.memories
                        && s' == Remember(
                          env, s, Write(SuccessorRequest(oldId, s.memories[oldId].record, r), ctx, true),
                          newContest, now).0)
  {}

  lemma SupersedeKeepsHealth(env: Env, s: Store, ctx: Context, oldId: Id, r: SupersedeRequest, newContest: ContestId,
                             now: Time)
    ensures KeepsHealth(s, Supersede(env, s, ctx, oldId, r, newContest, now).0)
  {
    SupersedeIsRemember(env, s, ctx, oldId, r, newContest, now);
    if oldId in s.memories {
      RememberKeepsHealth(env, s, Write(SuccessorRequest(oldId, s.memories[oldId].record, r), ctx, true), newContest,
                          now);
    }
  }

  lemma ResolutionKeepsHealth(s: Store, c: ContestId, v: Verdict, newKey: Option<Key>, receipt: Receipt)
    requires receipt.verdict.Some?
    ensures KeepsHealth(s, CommitResolution(s, c, v, newKey, receipt).0)
  {
    if Healthy(s) {
      ResolutionKeepsSound(s, c, v, newKey, receipt);
      ResolutionKeepsBalance(s, c, v, newKey, receipt);
    }
  }
}
