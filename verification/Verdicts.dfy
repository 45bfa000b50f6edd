/** What two operator verdicts really do: admitting as a successor, and splitting a counted entry. */
module Verdicts {
  import opened Common
  import opened Contest
  import opened Ledger
  import opened LedgerInvariants
  import opened AtomicRuns

  /** The occupants the successor of `incumbent` is judged against. */
  function SuccessorSlot(s: Store, key: Key, incumbent: Id): set<Id>
    requires incumbent in s.memories
  {
    SlotOccupants(s.memories, key, s.memories[incumbent].record.scope)
  }

  /** An entry resolved as admit-superseding has its content admitted if and only if the slot was
      free, already said the same, or was held by the named incumbent alone. Otherwise the entry
      is closed although its successor is contested in turn. */
  lemma SuccessorAdmittedIff(env: Env, s: Store, ctx: Context, c: ContestId, r: Resolution, now: Time)
    requires Sound(s) && SlotCollision in env.enabled && r.verdict == AdmitSuperseding
    requires Resolve(env, s, ctx, c, r, now).1.Verdicted?
    ensures var s' := Resolve(env, s, ctx, c, r, now).0;
            && c in s.contests && r.incumbent.Some? && r.incumbent.value in s.memories && r.successor in s'.memories
            && c in s'.contests && s'.contests[c].resolution == Some(AdmitSuperseding)
            && s.contests[c].recordId in s.memories
            && var content := s.memories[s.contests[c].recordId].record.content;
               var slot := SuccessorSlot(s, s.contests[c].claimKey, r.incumbent.value);
               !s'.memories[r.successor].contested
               <==> || slot == {} || slot == {r.incumbent.value}
                    || (forall b | b in slot :: env.digest(s.memories[b].record.content) == env.digest(content))
  {
    var e := s.contests[c];
    assert EntrySound(s, e);
    var contested := s.memories[e.recordId].record;
    SuccessorIsNew(env, s, ctx, c, r, now);
    var inc := r.incumbent.value;
    var w := SuccessorWrite(s, ctx, inc, ContestedContent(contested, r));
    SuccessorStays(env, s, ctx, c, r, now);
    SuccessorJudged(env, s.memories, w, e.claimKey, inc);
    SupersedeStoresVerdict(env, s, ctx, inc, ContestedContent(contested, r), r.successorContest, now);
  }

  lemma SuccessorIsNew(env: Env, s: Store, ctx: Context, c: ContestId, r: Resolution, now: Time)
    requires Sound(s) && r.verdict == AdmitSuperseding && Resolve(env, s, ctx, c, r, now).1.Verdicted?
    ensures c in s.contests && r.incumbent.Some? && s.contests[c].recordId in s.memories
        && r.incumbent.value in s.memories
    ensures r.successor !in s.memories && r.successor != s.contests[c].recordId
  {
    assert EntrySound(s, s.contests[c]);
  }

  /** What the successor's own write stored is what the whole call leaves. */
  lemma SuccessorStays(env: Env, s: Store, ctx: Context, c: ContestId, r: Resolution, now: Time)
    requires Sound(s) && r.verdict == AdmitSuperseding && Resolve(env, s, ctx, c, r, now).1.Verdicted?
    ensures c in s.contests && r.incumbent.Some? && s.contests[c].recordId in s.memories
    ensures var content := ContestedContent(s.memories[s.contests[c].recordId].record, r);
            var (s1, res) := Supersede(env, s, ctx, r.incumbent.value, content, r.successorContest, now);
            var s' := Resolve(env, s, ctx, c, r, now).0;
            && res.Stored? && r.successor in s1.memories && r.successor in s'.memories
            && s'.memories[r.successor] == s1.memories[r.successor]
            && c in s'.contests && s'.contests[c].resolution == Some(AdmitSuperseding)
  {
    SuccessorIsNew(env, s, ctx, c, r, now);
    var content := ContestedContent(s.memories[s.contests[c].recordId].record, r);
    SupersedeStoresVerdict(env, s, ctx, r.incumbent.value, content, r.successorContest, now);
  }

  lemma SupersedeStoresVerdict(env: Env, s: Store, ctx: Context, oldId: Id, r: SupersedeRequest, newContest: ContestId,
                               now: Time)
    requires Supersede(env, s, ctx, oldId, r, newContest, now).1.Stored?
    ensures var s' := Supersede(env, s, ctx, oldId, r, newContest, now).0;
            && oldId in s.memories && CanAccess(ctx, s.memories[oldId].record.scope)
            && r.id !in s.memories && r.id in s'.memories
            && s'.memories[r.id].contested
               == (Judge(env, s.memories, Write(
                    SuccessorRequest(oldId, s.memories[oldId].record, r), ctx, true)).disposition == Contested)
            && forall c | c in s.contests :: c in s'.contests && s'.contests[c].recordId == s.contests[c].recordId
  {}

  /** A write with no asserted time and no sources can only fall to slot collision. */
  lemma SuccessorJudged(env: Env, m: Memories, w: Write, key: Key, incumbent: Id)
    requires SlotCollision in env.enabled
    requires w.request.claimKey == Some(key) && w.request.supersedes == Some(incumbent) && w.request.id !in m
    requires w.request.assertedAt.None? && w.request.derivedFrom == []
    ensures var slot := SlotOccupants(m, key, w.Scope());
            Judge(env, m, w).disposition == Admitted
            <==> || slot == {} || slot == {incumbent}
                 || (forall b | b in slot :: env.digest(m[b].record.content) == env.digest(w.request.content))
  {
    var slot := SlotOccupants(m, key, w.Scope());
    var intent := IntentOf(env, w.request);
    var os := OccupantsFor(env, m, key, w.Scope(), w.request.id);
    forall b | b in slot ensures Occupant(b, env.digest(m[b].record.content), m[b].record.assertedAt) in os {}
    if Undeclared(intent, os) == {} {
      forall b | b in slot ensures b == incumbent {
        assert Occupant(b, env.digest(m[b].record.content), m[b].record.assertedAt) !in Undeclared(intent, os);
      }
    } else {
      var o :| o in Undeclared(intent, os);
      assert o.id in slot && o.id != incumbent;
    }
  }

  // ---- splitting a counted entry ----

  const COLLISION_ONLY: Env := Env((c: Content) => |c|, {SlotCollision})

  function Ask(id: Id, content: Content): Op {
    RememberOp(Write(Request(id, content, GlobalScope, Some(7), None, None, []), Context(0, 0), false), 100 + id, id)
  }

  /** An answer that differs from an occupant it does not declare is contested. */
  lemma UndeclaredAnswerContested(env: Env, m: Memories, w: Write, holder: Id)
    requires SlotCollision in env.enabled && w.request.claimKey.Some? && w.request.supersedes != Some(holder)
    requires holder in SlotOccupants(m, w.request.claimKey.value, w.Scope()) && w.request.id != holder
    requires env.digest(m[holder].record.content) != env.digest(w.request.content)
    ensures Judge(env, m, w).disposition == Contested
  {
    var key, scope := w.request.claimKey.value, w.Scope();
    var o := Occupant(holder, env.digest(m[holder].record.content), m[holder].record.assertedAt);
    assert o in OccupantsFor(env, m, key, scope, w.request.id);
    assert o in Undeclared(IntentOf(env, w.request), OccupantsFor(env, m, key, scope, w.request.id));
  }

  /** Into a slot held by one record that supersedes nothing, a different answer is contested. */
  lemma SecondAnswerContested(env: Env, m: Memories, w: Write, holder: Id)
    requires SlotCollision in env.enabled && w.request.claimKey.Some? && w.request.supersedes.None?
    requires holder in m && InSlot(m[holder], w.request.claimKey.value, w.Scope()) && w.request.id != holder
    requires forall id | id in m && InSlot(m[id], w.request.claimKey.value, w.Scope()) :: m[id].record.supersedes.None?
    requires env.digest(m[holder].record.content) != env.digest(w.request.content)
    ensures Judge(env, m, w).disposition == Contested
  {
    UndeclaredAnswerContested(env, m, w, holder);
  }

  /** Record 1 holds the slot. */
  ghost predicate Answered(s: Store) {
    && 1 in s.memories && InSlot(s.memories[1], 7, UserGlobal)
    && s.memories[1].record.supersedes.None? && s.memories[1].record.content == "a"
  }

  /** Record `id` is contested and its author asked about the same slot. */
  ghost predicate Waiting(s: Store, id: Id) {
    && id in s.memories && s.memories[id].contested
    && var r := s.memories[id].record;
       r.claimKey == Some(7) && r.scope == UserGlobal && r.author == 0 && r.supersedes.None?
  }

  ghost predicate OpenEntry(s: Store, c: ContestId, id: Id, n: nat) {
    && c in s.contests && Against(s.contests[c], 7, UserGlobal, 0) && s.contests[c].recordId == id
    && s.contests[c].resolution.None? && s.contests[c].occurrences == n
  }

  ghost predicate OneAsked(s: Store) { Answered(s) && s.memories.Keys == {1} && s.contests.Keys == {} }

  ghost predicate TwoAsked(s: Store) {
    && Answered(s) && Waiting(s, 2) && s.memories.Keys == {1, 2} && s.memories[2].record.content == "bb"
    && OpenEntry(s, 102, 2, 1) && s.contests.Keys == {102}
  }

  ghost predicate ThreeAsked(s: Store) {
    && Answered(s) && Waiting(s, 2) && Waiting(s, 3) && s.memories.Keys == {1, 2, 3}
    && OpenEntry(s, 102, 2, 2) && s.contests.Keys == {102}
  }

  /** Entry 102 and its record went to key 8. */
  ghost predicate SplitOnce(s: Store) {
    && Answered(s) && Waiting(s, 3) && s.memories.Keys == {1, 2, 3}
    && !s.memories[2].contested && s.memories[2].record.claimKey == Some(8)
    && s.contests.Keys == {102} && s.contests[102].claimKey == 8 && s.contests[102].recordId == 2
  }

  ghost predicate AskedAgain(s: Store) {
    && Answered(s) && Waiting(s, 3) && Waiting(s, 4) && s.memories.Keys == {1, 2, 3, 4}
    && !s.memories[2].contested && s.memories[2].record.claimKey == Some(8)
    && s.contests.Keys == {102, 104} && s.contests[102].claimKey == 8 && s.contests[102].recordId == 2
    && OpenEntry(s, 104, 4, 1)
  }

  lemma FirstAsk(s: Store)
    requires s == EMPTY_STORE
    ensures OneAsked(Apply(COLLISION_ONLY, s, Ask(1, "a")).0)
  {
    assert SlotOccupants(s.memories, 7, UserGlobal) == {};
  }

  lemma SecondAsk(s: Store)
    requires OneAsked(s)
    ensures TwoAsked(Apply(COLLISION_ONLY, s, Ask(2, "bb")).0)
  {
    SecondAnswerContested(COLLISION_ONLY, s.memories, Ask(2, "bb").write, 1);
    assert OpenContests(s.contests, 7, UserGlobal, 0) == {};
  }

  /** The same author's third answer is counted into the entry the second one opened. */
  lemma ThirdAsk(s: Store)
    requires TwoAsked(s)
    ensures ThreeAsked(Apply(COLLISION_ONLY, s, Ask(3, "ccc")).0)
  {
    SecondAnswerContested(COLLISION_ONLY, s.memories, Ask(3, "ccc").write, 1);
    assert OpenContests(s.contests, 7, UserGlobal, 0) == {102};
  }

  lemma FirstSplit(s: Store, receipt: Receipt)
    requires ThreeAsked(s)
    ensures SplitOnce(CommitResolution(s, 102, Split, Some(8), receipt).0)
  {}

  /** After the split the author's next answer opens an entry again, beside the stranded record. */
  lemma FourthAsk(s: Store)
    requires SplitOnce(s)
    ensures AskedAgain(Apply(COLLISION_ONLY, s, Ask(4, "dddd")).0)
  {
    SecondAnswerContested(COLLISION_ONLY, s.memories, Ask(4, "dddd").write, 1);
    assert OpenContests(s.contests, 7, UserGlobal, 0) == {};
  }

  lemma {:induction false} RunOpsAppend(env: Env, s: Store, ops: seq<Op>, op: Op)
    ensures RunOps(env, s, ops + [op]) == Apply(env, RunOps(env, s, ops), op).0
    decreases |ops|
  {
    if ops == [] {
      assert [op][1..] == [];
      assert RunOps(env, Apply(env, s, op).0, []) == Apply(env, s, op).0;
    } else {
      assert (ops + [op])[1..] == ops[1..] + [op];
      RunOpsAppend(env, Apply(env, s, ops[0]).0, ops[1..], op);
    }
  }

  const TWO_ANSWERS: seq<Op> := [] + [Ask(1, "a")] + [Ask(2, "bb")]
  const THREE_ANSWERS: seq<Op> := TWO_ANSWERS + [Ask(3, "ccc")]

  lemma AfterTwoAnswers()
    ensures TwoAsked(RunOps(COLLISION_ONLY, EMPTY_STORE, TWO_ANSWERS))
  {
    FirstAsk(EMPTY_STORE);
    RunOpsAppend(COLLISION_ONLY, EMPTY_STORE, [], Ask(1, "a"));
    SecondAsk(RunOps(COLLISION_ONLY, EMPTY_STORE, [] + [Ask(1, "a")]));
    RunOpsAppend(COLLISION_ONLY, EMPTY_STORE, [] + [Ask(1, "a")], Ask(2, "bb"));
  }

  lemma AfterThreeAnswers()
    ensures ThreeAsked(RunOps(COLLISION_ONLY, EMPTY_STORE, THREE_ANSWERS))
  {
    AfterTwoAnswers();
    ThirdAsk(RunOps(COLLISION_ONLY, EMPTY_STORE, TWO_ANSWERS));
    RunOpsAppend(COLLISION_ONLY, EMPTY_STORE, TWO_ANSWERS, Ask(3, "ccc"));
  }

  lemma RunIsSound(ops: seq<Op>)
    requires forall op | op in ops :: Receipted(op)
    ensures Sound(RunOps(COLLISION_ONLY, EMPTY_STORE, ops))
  {
    EmptyStoreFits();
    RunKeepsInv(COLLISION_ONLY, EMPTY_STORE, ops);
  }

  /** An unsafe move out of a store without drift. */
  lemma UnsafeMoveDrifts(s: Store, c: ContestId, newKey: Key, receipt: Receipt)
    requires Sound(s) && AllCovered(s) && c in s.contests && s.contests[c].resolution.None?
        && !SafeToMove(s, c, Some(newKey))
    ensures Drift(s) == {} && Drift(CommitResolution(s, c, Split, Some(newKey), receipt).0) != {}
  {
    SoundAndCoveredMeansNoDrift(s);
    MoveKeepsDriftEmptyIff(s, c, Split, Some(newKey), receipt);
  }

  lemma ThreeAskedDrifts(s: Store, receipt: Receipt)
    requires ThreeAsked(s) && Sound(s)
    ensures SlotOccupants(s.memories, 8, UserGlobal) == {}
    ensures Drift(s) == {} && Drift(CommitResolution(s, 102, Split, Some(8), receipt).0) != {}
  {
    assert HasOwnEntry(s, 2) && HasSlotEntry(s, s.memories[3].record);
    assert Entryless(s, 3) && Matches(s.contests[102], s.memories[3].record);
    UnsafeMoveDrifts(s, 102, 8, receipt);
  }

  /** Three different answers to one question from one agent, then the operator splits the contest:
      the third answer, counted in the entry that moved, is left without cover and reported. */
  lemma SplittingACountedEntryDrifts(receipt: Receipt)
    ensures var s := RunOps(COLLISION_ONLY, EMPTY_STORE, THREE_ANSWERS);
            && 102 in s.contests && s.contests[102].resolution.None?
            && SlotOccupants(s.memories, 8, UserGlobal) == {}
            && Drift(s) == {}
            && Drift(CommitResolution(s, 102, Split, Some(8), receipt).0) != {}
  {
    AfterThreeAnswers();
    RunIsSound(THREE_ANSWERS);
    ThreeAskedDrifts(RunOps(COLLISION_ONLY, EMPTY_STORE, THREE_ANSWERS), receipt);
  }

  function SplitThenAsk(receipt: Receipt): seq<Op> {
    THREE_ANSWERS + [ResolveOp(102, Split, Some(8), receipt)] + [Ask(4, "dddd")]
  }

  lemma AfterSplitThenAsk(receipt: Receipt)
    ensures AskedAgain(RunOps(COLLISION_ONLY, EMPTY_STORE, SplitThenAsk(receipt)))
  {
    var split := ResolveOp(102, Split, Some(8), receipt);
    AfterThreeAnswers();
    FirstSplit(RunOps(COLLISION_ONLY, EMPTY_STORE, THREE_ANSWERS), receipt);
    RunOpsAppend(COLLISION_ONLY, EMPTY_STORE, THREE_ANSWERS, split);
    FourthAsk(RunOps(COLLISION_ONLY, EMPTY_STORE, THREE_ANSWERS + [split]));
    RunOpsAppend(COLLISION_ONLY, EMPTY_STORE, THREE_ANSWERS + [split], Ask(4, "dddd"));
  }

  lemma AskedAgainDrifts(s: Store, receipt: Receipt)
    requires AskedAgain(s) && Sound(s)
    ensures SlotOccupants(s.memories, 9, UserGlobal) == {}
    ensures Drift(s) == {} && Drift(CommitResolution(s, 104, Split, Some(9), receipt).0) != {}
  {
    assert HasOwnEntry(s, 4) && HasSlotEntry(s, s.memories[3].record);
    assert Entryless(s, 3) && Matches(s.contests[104], s.memories[3].record);
    UnsafeMoveDrifts(s, 104, 9, receipt);
  }

  /** That an entry counts a single write does not make it safe to move: after that split a fourth answer
      opens an entry which counts one write, yet is the only cover of the third. Splitting it strands the
      third answer again. */
  lemma CountingOneWriteIsNotEnough(first: Receipt, second: Receipt)
    requires first.verdict.Some?
    ensures var s := RunOps(COLLISION_ONLY, EMPTY_STORE, SplitThenAsk(first));
            && 104 in s.contests && s.contests[104].resolution.None? && s.contests[104].occurrences == 1
            && SlotOccupants(s.memories, 9, UserGlobal) == {}
            && Drift(s) == {}
            && Drift(CommitResolution(s, 104, Split, Some(9), second).0) != {}
  {
    AfterSplitThenAsk(first);
    RunIsSound(SplitThenAsk(first));
    AskedAgainDrifts(RunOps(COLLISION_ONLY, EMPTY_STORE, SplitThenAsk(first)), second);
  }

  // ---- a refused call that leaves a record behind ----

  function AskTwiceThenSetAside(receipt: Receipt): seq<Op> {
    TWO_ANSWERS + [ResolveOp(102, SetAside, None, receipt)]
  }

  const LATE_ADMISSION := Resolution(AdmitSuperseding, 0, Some(1), None, 5, 105)

  ghost predicate SetAsideOnce(s: Store) {
    && Answered(s) && Waiting(s, 2) && s.memories.Keys == {1, 2}
    && s.contests.Keys == {102} && s.contests[102].recordId == 2 && s.contests[102].resolution == Some(SetAside)
  }

  lemma AfterSetAside(receipt: Receipt)
    ensures SetAsideOnce(RunOps(COLLISION_ONLY, EMPTY_STORE, AskTwiceThenSetAside(receipt)))
  {
    AfterTwoAnswers();
    SetAsideStep(RunOps(COLLISION_ONLY, EMPTY_STORE, TWO_ANSWERS), receipt);
    RunOpsAppend(COLLISION_ONLY, EMPTY_STORE, TWO_ANSWERS, ResolveOp(102, SetAside, None, receipt));
  }

  lemma SetAsideStep(s: Store, receipt: Receipt)
    requires TwoAsked(s)
    ensures SetAsideOnce(CommitResolution(s, 102, SetAside, None, receipt).0)
  {}

  lemma LateAdmissionStores(s: Store)
    requires SetAsideOnce(s) && Sound(s)
    ensures var (s', res) := Resolve(COLLISION_ONLY, s, Context(0, 0), 102, LATE_ADMISSION, 9);
            res == Refused(ContestClosed) && s' != s
  {
    var ctx, req := Context(0, 0), ContestedContent(s.memories[2].record, LATE_ADMISSION);
    assert DirectSuccessors(s.memories, ctx, 1) == {};
    assert CanSupersede(COLLISION_ONLY, s, ctx, 1, req, 105);
    SupersedeStoresIff(COLLISION_ONLY, s, ctx, 1, req, 105, 9);
    RefusedResolutionChangesNothingUnless(COLLISION_ONLY, s, ctx, 102, LATE_ADMISSION, 9);
  }

  /** Two answers, the second set aside; admitting it as a successor afterwards is refused because its
      contest is closed, yet the successor is stored. */
  lemma RefusedResolutionLeavesASuccessor(receipt: Receipt)
    requires receipt.verdict.Some?
    ensures var s := RunOps(COLLISION_ONLY, EMPTY_STORE, AskTwiceThenSetAside(receipt));
            var (s', res) := Resolve(COLLISION_ONLY, s, Context(0, 0), 102, LATE_ADMISSION, 9);
            res == Refused(ContestClosed) && s' != s
  {
    AfterSetAside(receipt);
    RunIsSound(AskTwiceThenSetAside(receipt));
    LateAdmissionStores(RunOps(COLLISION_ONLY, EMPTY_STORE, AskTwiceThenSetAside(receipt)));
  }
}
