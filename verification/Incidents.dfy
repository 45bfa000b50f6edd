/** Short runs on which a promise that holds under a condition fails without it.

    Each starts from the empty store and takes at most five calls; the hash is the length of
    the content, and slot collision is the only rule in force. */
module Incidents {
  import opened Common
  import opened Contest
  import opened Ledger
  import opened LedgerInvariants
  import opened AtomicRuns
  import opened Verdicts
  import I = Interleavings
  import OneAnswer
  import Chains
  import DriftRuns

  // ---- a plain admission ----

  function AdmitSecond(receipt: Receipt): seq<Op> { TWO_ANSWERS + [ResolveOp(102, Admit, None, receipt)] }

  /** Records 1 and 2 both hold the slot. */
  ghost predicate BothHold(s: Store) {
    && Answered(s) && s.memories.Keys == {1, 2} && s.contests.Keys == {102}
    && s.contests[102].resolution.Some? && s.contests[102].recordId == 2
    && InSlot(s.memories[2], 7, UserGlobal) && s.memories[2].record.supersedes.None?
    && s.memories[2].record.content == "bb"
  }

  lemma BothOccupy(s: Store)
    requires BothHold(s)
    ensures SlotOccupants(s.memories, 7, UserGlobal) == {1, 2}
    ensures !OneAnswer.SlotAgrees(COLLISION_ONLY, s.memories, 7, UserGlobal)
  {
    assert 1 in SlotOccupants(s.memories, 7, UserGlobal) && 2 in SlotOccupants(s.memories, 7, UserGlobal);
  }

  lemma AdmitSecondStep(s: Store, receipt: Receipt)
    requires TwoAsked(s)
    ensures BothHold(CommitResolution(s, 102, Admit, None, receipt).0)
  {}

  lemma AfterAdmitSecond(receipt: Receipt)
    ensures BothHold(RunOps(COLLISION_ONLY, EMPTY_STORE, AdmitSecond(receipt)))
  {
    AfterTwoAnswers();
    AdmitSecondStep(RunOps(COLLISION_ONLY, EMPTY_STORE, TWO_ANSWERS), receipt);
    RunOpsAppend(COLLISION_ONLY, EMPTY_STORE, TWO_ANSWERS, ResolveOp(102, Admit, None, receipt));
  }

  /** Two different answers, the second admitted: both hold the slot. */
  lemma AdmissionGivesTwoAnswers(receipt: Receipt)
    ensures var m := RunOps(COLLISION_ONLY, EMPTY_STORE, AdmitSecond(receipt)).memories;
            && SlotOccupants(m, 7, UserGlobal) == {1, 2}
            && !OneAnswer.SlotAgrees(COLLISION_ONLY, m, 7, UserGlobal)
  {
    AfterAdmitSecond(receipt);
    BothOccupy(RunOps(COLLISION_ONLY, EMPTY_STORE, AdmitSecond(receipt)));
  }

  // ---- a successor that is contested again ----

  function AdmitSecondAskThird(receipt: Receipt): seq<Op> { AdmitSecond(receipt) + [Ask(3, "ccc")] }

  const ADMISSION_OVER_FIRST := Resolution(AdmitSuperseding, 0, Some(1), None, 5, 105)

  ghost predicate ThirdWaits(s: Store) {
    && Answered(s) && Waiting(s, 3) && s.memories.Keys == {1, 2, 3} && s.memories[3].record.content == "ccc"
    && InSlot(s.memories[2], 7, UserGlobal) && s.memories[2].record.supersedes.None?
    && OpenEntry(s, 103, 3, 1) && s.contests.Keys == {102, 103}
  }

  lemma ThirdIsContested(s: Store)
    requires BothHold(s)
    ensures ThirdWaits(Apply(COLLISION_ONLY, s, Ask(3, "ccc")).0)
  {
    SecondAnswerContested(COLLISION_ONLY, s.memories, Ask(3, "ccc").write, 1);
    assert OpenContests(s.contests, 7, UserGlobal, 0) == {};
  }

  lemma SuccessorIsWritten(s: Store)
    requires ThirdWaits(s) && Sound(s)
    ensures Resolve(COLLISION_ONLY, s, Context(0, 0), 103, ADMISSION_OVER_FIRST, 9).1 == Verdicted(Some(5))
  {
    var ctx, req := Context(0, 0), ContestedContent(s.memories[3].record, ADMISSION_OVER_FIRST);
    assert DirectSuccessors(s.memories, ctx, 1) == {};
    assert CanSupersede(COLLISION_ONLY, s, ctx, 1, req, 105);
    SupersedeStoresIff(COLLISION_ONLY, s, ctx, 1, req, 105, 9);
  }

  /** Any occupant besides the incumbent that says something else contests the successor. */
  lemma ContestedByOther(env: Env, s: Store, ctx: Context, c: ContestId, r: Resolution, now: Time, other: Id)
    requires Sound(s) && SlotCollision in env.enabled && r.verdict == AdmitSuperseding
    requires Resolve(env, s, ctx, c, r, now).1.Verdicted?
    requires c in s.contests && s.contests[c].recordId in s.memories && r.incumbent.Some?
    requires r.incumbent.value in s.memories && other != r.incumbent.value
    requires other in SuccessorSlot(s, s.contests[c].claimKey, r.incumbent.value)
    requires env.digest(s.memories[other].record.content)
             != env.digest(s.memories[s.contests[c].recordId].record.content)
    ensures var s' := Resolve(env, s, ctx, c, r, now).0;
            && c in s'.contests && s'.contests[c].resolution.Some?
            && r.successor in s'.memories && s'.memories[r.successor].contested
  {
    SuccessorAdmittedIff(env, s, ctx, c, r, now);
  }

  lemma SecondHolds(s: Store)
    requires ThirdWaits(s)
    ensures 2 in SuccessorSlot(s, 7, 1)
  {}

  /** The slot is held by two records. Admitting a third answer as the successor of one of them reports
      success and closes its entry, but the successor is contested by the other. */
  lemma AdmittedSuccessorIsContested(receipt: Receipt)
    requires receipt.verdict.Some?
    ensures var s := RunOps(COLLISION_ONLY, EMPTY_STORE, AdmitSecondAskThird(receipt));
            var (s', res) := Resolve(COLLISION_ONLY, s, Context(0, 0), 103, ADMISSION_OVER_FIRST, 9);
            && res == Verdicted(Some(5)) && 103 in s'.contests && s'.contests[103].resolution.Some?
            && 5 in s'.memories && s'.memories[5].contested
  {
    AfterAdmitSecond(receipt);
    ThirdIsContested(RunOps(COLLISION_ONLY, EMPTY_STORE, AdmitSecond(receipt)));
    RunOpsAppend(COLLISION_ONLY, EMPTY_STORE, AdmitSecond(receipt), Ask(3, "ccc"));
    RunIsSound(AdmitSecondAskThird(receipt));
    var s := RunOps(COLLISION_ONLY, EMPTY_STORE, AdmitSecondAskThird(receipt));
    SuccessorIsWritten(s);
    SecondHolds(s);
    ContestedByOther(COLLISION_ONLY, s, Context(0, 0), 103, ADMISSION_OVER_FIRST, 9, 2);
  }

  // ---- a verdict that forks a chain ----

  function AskElsewhere(id: Id, content: Content): Op {
    RememberOp(Write(Request(id, content, GlobalScope, Some(8), None, None, []), Context(0, 0), false), 100 + id, id)
  }

  function Replace(id: Id, content: Content, key: Option<Key>): Op {
    SupersedeOp(Context(0, 0), 1, SupersedeRequest(id, content, key, None, []), 100 + id, id)
  }

  const FIRST_ANSWER: seq<Op> := [] + [Ask(1, "a")]
  const TWO_SLOTS: seq<Op> := FIRST_ANSWER + [AskElsewhere(2, "bb")]
  const CONTESTED_SUCCESSOR: seq<Op> := TWO_SLOTS + [Replace(3, "ccc", Some(8))]
  const SECOND_SUCCESSOR: seq<Op> := CONTESTED_SUCCESSOR + [Replace(4, "dddd", None)]

  /** Record 1 holds slot 7 and record 2 slot 8. */
  ghost predicate BothSlotsHeld(s: Store) {
    && Answered(s) && 2 in s.memories && InSlot(s.memories[2], 8, UserGlobal)
    && s.memories[2].record.supersedes.None? && s.memories[2].record.content == "bb"
  }

  /** Record 3 supersedes record 1 and waits for a verdict on its claim to slot 8. */
  ghost predicate SuccessorWaits(s: Store) {
    && BothSlotsHeld(s) && 3 in s.memories && s.memories[3].contested && s.memories[3].record.supersedes == Some(1)
    && 103 in s.contests && s.contests[103].recordId == 3 && s.contests[103].resolution.None?
  }

  ghost predicate TwoSlots(s: Store) { BothSlotsHeld(s) && s.memories.Keys == {1, 2} && s.contests.Keys == {} }

  ghost predicate OneSuccessor(s: Store) {
    SuccessorWaits(s) && s.memories.Keys == {1, 2, 3} && s.contests.Keys == {103}
  }

  ghost predicate Superseded(s: Store) {
    && SuccessorWaits(s) && s.memories.Keys == {1, 2, 3, 4}
    && !s.memories[4].contested && s.memories[4].record.supersedes == Some(1)
  }

  lemma SecondSlot(s: Store)
    requires OneAsked(s)
    ensures TwoSlots(Apply(COLLISION_ONLY, s, AskElsewhere(2, "bb")).0)
  {
    assert SlotOccupants(s.memories, 8, UserGlobal) == {};
  }

  lemma FirstReplacementJudged(s: Store)
    requires TwoSlots(s)
    ensures var op := Replace(3, "ccc", Some(8));
            var w := SuccessorWrite(s, op.ctx, 1, op.request);
            && DirectSuccessors(s.memories, op.ctx, 1) == {}
            && Judge(COLLISION_ONLY, s.memories, w).disposition == Contested
            && Coalesce(s.contests, w, Judge(COLLISION_ONLY, s.memories, w)).None?
  {
    var op := Replace(3, "ccc", Some(8));
    assert 2 in SlotOccupants(s.memories, 8, UserGlobal);
    UndeclaredAnswerContested(COLLISION_ONLY, s.memories, SuccessorWrite(s, op.ctx, 1, op.request), 2);
  }

  lemma FirstReplacement(s: Store)
    requires TwoSlots(s)
    ensures OneSuccessor(Apply(COLLISION_ONLY, s, Replace(3, "ccc", Some(8))).0)
  {
    FirstReplacementJudged(s);
  }

  lemma SecondReplacement(s: Store)
    requires OneSuccessor(s)
    ensures Superseded(Apply(COLLISION_ONLY, s, Replace(4, "dddd", None)).0)
  {
    var op := Replace(4, "dddd", None);
    var w := SuccessorWrite(s, op.ctx, 1, op.request);
    assert DirectSuccessors(s.memories, op.ctx, 1) == {};
    assert SlotOccupants(s.memories, 7, UserGlobal) == {1};
    assert Undeclared(IntentOf(COLLISION_ONLY, w.request),
                      OccupantsFor(COLLISION_ONLY, s.memories, 7, UserGlobal, 4)) == {};
  }

  lemma AfterReplacements()
    ensures Superseded(RunOps(COLLISION_ONLY, EMPTY_STORE, SECOND_SUCCESSOR))
  {
    FirstAsk(EMPTY_STORE);
    RunOpsAppend(COLLISION_ONLY, EMPTY_STORE, [], Ask(1, "a"));
    SecondSlot(RunOps(COLLISION_ONLY, EMPTY_STORE, FIRST_ANSWER));
    RunOpsAppend(COLLISION_ONLY, EMPTY_STORE, FIRST_ANSWER, AskElsewhere(2, "bb"));
    FirstReplacement(RunOps(COLLISION_ONLY, EMPTY_STORE, TWO_SLOTS));
    RunOpsAppend(COLLISION_ONLY, EMPTY_STORE, TWO_SLOTS, Replace(3, "ccc", Some(8)));
    SecondReplacement(RunOps(COLLISION_ONLY, EMPTY_STORE, CONTESTED_SUCCESSOR));
    RunOpsAppend(COLLISION_ONLY, EMPTY_STORE, CONTESTED_SUCCESSOR, Replace(4, "dddd", None));
  }

  lemma AdmittingForks(s: Store, receipt: Receipt)
    requires Superseded(s)
    ensures Chains.NoForks(s.memories)
    ensures !Chains.NoForks(CommitResolution(s, 103, Admit, None, receipt).0.memories)
  {
    var m := CommitResolution(s, 103, Admit, None, receipt).0.memories;
    assert Chains.Held(m, 1) && Chains.Follows(m, 3, 1) && Chains.Follows(m, 4, 1);
  }

  /** One record, superseded first by an answer that is contested in another slot and then by one that is
      admitted: admitting the first gives it two admitted successors. All links come from `supersede`. */
  lemma AdmissionForksAChain(receipt: Receipt)
    ensures var s := RunOps(COLLISION_ONLY, EMPTY_STORE, SECOND_SUCCESSOR);
            && 103 in s.contests && s.contests[103].resolution.None? && Chains.NoForks(s.memories)
            && !Chains.NoForks(CommitResolution(s, 103, Admit, None, receipt).0.memories)
    ensures forall op | op in SECOND_SUCCESSOR :: Receipted(op) && Chains.LinksBySupersede(op)
  {
    AfterReplacements();
    AdmittingForks(RunOps(COLLISION_ONLY, EMPTY_STORE, SECOND_SUCCESSOR), receipt);
  }

  // ---- reads that are stale at commit ----

  /** Everything a write reads before it commits. */
  function ReadSteps(p: I.Pid, w: Write, now: Time): seq<I.Action> {
    [I.BeginRemember(p, w), I.Look(p, now), I.ReadSlot(p), I.ReadContest(p)]
  }

  function ReadyOn(env: Env, s: Store, w: Write, now: Time): I.Writer {
    var d := Judge(env, s.memories, w);
    var into := Coalesce(s.contests, w, d);
    I.Ready(w, now, d, into, if into.Some? then s.contests[into.value].occurrences else 0)
  }

  /** The reads of one write, with nothing in between. */
  lemma ReadsInARow(env: Env, world: I.World, p: I.Pid, w: Write, now: Time)
    requires w.request.id !in world.store.memories
    ensures var starting := I.Put(world, p, I.Starting(w));
            I.Step(env, I.Step(env, I.Step(env, starting, I.Look(p, now)), I.ReadSlot(p)), I.ReadContest(p))
            == I.Put(world, p, ReadyOn(env, world.store, w, now))
  {
    var looked := I.Step(env, I.Put(world, p, I.Starting(w)), I.Look(p, now));
    assert looked == I.Put(world, p, I.Looked(w, now));
    var judged := I.Step(env, looked, I.ReadSlot(p));
    assert judged == I.Put(world, p, I.Judged(w, now, Judge(env, world.store.memories, w)));
  }

  lemma Reads(env: Env, world: I.World, p: I.Pid, w: Write, now: Time)
    requires p !in world.writers && w.request.id !in world.store.memories
    ensures I.Run(env, world, ReadSteps(p, w, now)) == I.Put(world, p, ReadyOn(env, world.store, w, now))
  {
    UnrollFour(env, world, I.BeginRemember(p, w), I.Look(p, now), I.ReadSlot(p), I.ReadContest(p));
    ReadsInARow(env, world, p, w, now);
  }

  lemma TwoSteps(env: Env, world: I.World, a: I.Action, b: I.Action)
    ensures I.Run(env, world, [a, b]) == I.Step(env, I.Step(env, world, a), b)
  {
    UnrollOne(env, world, a, [b]);
    UnrollOne(env, I.Step(env, world, a), b, []);
    assert [a, b] == [a] + [b] && [b] == [b] + [];
  }

  // ---- two callers find the slot free ----

  const TWO_CALLERS: seq<I.Action> :=
    ReadSteps(0, Ask(1, "a").write, 1) + (ReadSteps(1, Ask(2, "bb").write, 2) + [I.Commit(0, 101), I.Commit(1, 102)])

  /** Both read the slot before either commits: both are admitted, with different answers. */
  lemma BothFoundTheSlotFree()
    ensures var m := I.Run(COLLISION_ONLY, I.EMPTY_WORLD, TWO_CALLERS).store.memories;
            && SlotOccupants(m, 7, UserGlobal) == {1, 2}
            && !OneAnswer.SlotAgrees(COLLISION_ONLY, m, 7, UserGlobal)
  {
    var env, w1, w2 := COLLISION_ONLY, Ask(1, "a").write, Ask(2, "bb").write;
    var commits := [I.Commit(0, 101), I.Commit(1, 102)];
    RunAppend(env, I.EMPTY_WORLD, ReadSteps(0, w1, 1), ReadSteps(1, w2, 2) + commits);
    Reads(env, I.EMPTY_WORLD, 0, w1, 1);
    var one := I.Put(I.EMPTY_WORLD, 0, ReadyOn(env, EMPTY_STORE, w1, 1));
    RunAppend(env, one, ReadSteps(1, w2, 2), commits);
    Reads(env, one, 1, w2, 2);
    var both := I.Put(one, 1, ReadyOn(env, EMPTY_STORE, w2, 2));
    TwoSteps(env, both, I.Commit(0, 101), I.Commit(1, 102));
    BothCommit(both);
  }

  lemma BothCommit(world: I.World)
    requires world.store == EMPTY_STORE && 0 in world.writers && 1 in world.writers
    requires world.writers[0] == ReadyOn(COLLISION_ONLY, EMPTY_STORE, Ask(1, "a").write, 1)
    requires world.writers[1] == ReadyOn(COLLISION_ONLY, EMPTY_STORE, Ask(2, "bb").write, 2)
    ensures var env := COLLISION_ONLY;
            var m := I.Step(env, I.Step(env, world, I.Commit(0, 101)), I.Commit(1, 102)).store.memories;
            && SlotOccupants(m, 7, UserGlobal) == {1, 2}
            && !OneAnswer.SlotAgrees(env, m, 7, UserGlobal)
  {
    assert SlotOccupants(map[], 7, UserGlobal) == {};
    var env := COLLISION_ONLY;
    var first := I.Step(env, world, I.Commit(0, 101));
    var m := I.Step(env, first, I.Commit(1, 102)).store.memories;
    assert first.writers[1] == world.writers[1];
    assert m.Keys == {1, 2} && InSlot(m[1], 7, UserGlobal) && InSlot(m[2], 7, UserGlobal);
    assert m[1].record.content == "a" && m[2].record.content == "bb";
    assert 1 in SlotOccupants(m, 7, UserGlobal) && 2 in SlotOccupants(m, 7, UserGlobal);
  }

  // ---- two callers find the same head ----

  function ReadSuccessor(p: I.Pid, r: SupersedeRequest, now: Time): seq<I.Action> {
    [I.BeginSupersede(p, Context(0, 0), 1, r)]
    + [I.ReadLineage(p), I.Look(p, now), I.ReadSlot(p), I.ReadContest(p)]
  }

  lemma ReadsSuccessor(env: Env, world: I.World, p: I.Pid, r: SupersedeRequest, now: Time)
    requires p !in world.writers && r.id !in world.store.memories && 1 in world.store.memories
    requires CanAccess(Context(0, 0), world.store.memories[1].record.scope)
    requires DirectSuccessors(world.store.memories, Context(0, 0), 1) == {}
    ensures var w := SuccessorWrite(world.store, Context(0, 0), 1, r);
            I.Run(env, world, ReadSuccessor(p, r, now)) == I.Put(world, p, ReadyOn(env, world.store, w, now))
  {
    var w := SuccessorWrite(world.store, Context(0, 0), 1, r);
    var begin := I.BeginSupersede(p, Context(0, 0), 1, r);
    UnrollOne(env, world, begin, [I.ReadLineage(p), I.Look(p, now), I.ReadSlot(p), I.ReadContest(p)]);
    UnrollFour(env, I.Step(env, world, begin), I.ReadLineage(p), I.Look(p, now), I.ReadSlot(p), I.ReadContest(p));
    FindsHead(env, world, p, r);
    ReadsInARow(env, world, p, w, now);
  }

  lemma FindsHead(env: Env, world: I.World, p: I.Pid, r: SupersedeRequest)
    requires p !in world.writers && 1 in world.store.memories
    requires CanAccess(Context(0, 0), world.store.memories[1].record.scope)
    requires DirectSuccessors(world.store.memories, Context(0, 0), 1) == {}
    ensures I.Step(env, I.Step(env, world, I.BeginSupersede(p, Context(0, 0), 1, r)), I.ReadLineage(p))
            == I.Put(world, p, I.Starting(SuccessorWrite(world.store, Context(0, 0), 1, r)))
  {}

  function Successor(id: Id, content: Content): SupersedeRequest { SupersedeRequest(id, content, None, None, []) }

  const TWO_SUCCESSORS: seq<I.Action> :=
    StepsOf(FIRST_ANSWER)
    + (ReadSuccessor(0, Successor(2, "bb"), 2)
       + (ReadSuccessor(1, Successor(3, "ccc"), 3) + [I.Commit(0, 102), I.Commit(1, 103)]))

  lemma AfterFirstAnswer()
    ensures var s := RunOps(COLLISION_ONLY, EMPTY_STORE, FIRST_ANSWER);
            OneAsked(s) && DirectSuccessors(s.memories, Context(0, 0), 1) == {}
    ensures I.Run(COLLISION_ONLY, I.EMPTY_WORLD, StepsOf(FIRST_ANSWER))
            == Alone(RunOps(COLLISION_ONLY, EMPTY_STORE, FIRST_ANSWER))
  {
    FirstAsk(EMPTY_STORE);
    RunOpsAppend(COLLISION_ONLY, EMPTY_STORE, [], Ask(1, "a"));
    AtomicRunsInterleave(COLLISION_ONLY, EMPTY_STORE, FIRST_ANSWER);
    var s := RunOps(COLLISION_ONLY, EMPTY_STORE, FIRST_ANSWER);
    assert DirectSuccessors(s.memories, Context(0, 0), 1) == {};
  }

  /** Both find the record to be a head before either commits: both successors are admitted. */
  lemma BothFoundTheHead()
    ensures !Chains.NoForks(I.Run(COLLISION_ONLY, I.EMPTY_WORLD, TWO_SUCCESSORS).store.memories)
  {
    var a, b := ReadSuccessor(0, Successor(2, "bb"), 2), ReadSuccessor(1, Successor(3, "ccc"), 3);
    AfterFirstAnswer();
    RunAppend(COLLISION_ONLY, I.EMPTY_WORLD, StepsOf(FIRST_ANSWER), a + (b + [I.Commit(0, 102), I.Commit(1, 103)]));
    TwoSuccessorsFork(RunOps(COLLISION_ONLY, EMPTY_STORE, FIRST_ANSWER));
  }

  lemma TwoSuccessorsFork(s: Store)
    requires OneAsked(s) && DirectSuccessors(s.memories, Context(0, 0), 1) == {}
    ensures var a, b := ReadSuccessor(0, Successor(2, "bb"), 2), ReadSuccessor(1, Successor(3, "ccc"), 3);
            var end := I.Run(COLLISION_ONLY, Alone(s), a + (b + [I.Commit(0, 102), I.Commit(1, 103)]));
            !Chains.NoForks(end.store.memories)
  {
    var env := COLLISION_ONLY;
    var a, b := ReadSuccessor(0, Successor(2, "bb"), 2), ReadSuccessor(1, Successor(3, "ccc"), 3);
    var commits := [I.Commit(0, 102), I.Commit(1, 103)];
    RunAppend(env, Alone(s), a, b + commits);
    ReadsSuccessor(env, Alone(s), 0, Successor(2, "bb"), 2);
    var one := I.Put(Alone(s), 0, ReadyOn(env, s, SuccessorWrite(s, Context(0, 0), 1, Successor(2, "bb")), 2));
    RunAppend(env, one, b, commits);
    ReadsSuccessor(env, one, 1, Successor(3, "ccc"), 3);
    var both := I.Put(one, 1, ReadyOn(env, s, SuccessorWrite(s, Context(0, 0), 1, Successor(3, "ccc")), 3));
    TwoSteps(env, both, I.Commit(0, 102), I.Commit(1, 103));
    BothSupersede(both);
  }

  lemma SoleHolderIsSuperseded(s: Store, r: SupersedeRequest)
    requires OneAsked(s) && r.id != 1 && r.claimKey.None?
    ensures Judge(COLLISION_ONLY, s.memories, SuccessorWrite(s, Context(0, 0), 1, r)).disposition == Admitted
  {
    var w := SuccessorWrite(s, Context(0, 0), 1, r);
    assert SlotOccupants(s.memories, 7, UserGlobal) == {1};
    assert Undeclared(IntentOf(COLLISION_ONLY, w.request),
                      OccupantsFor(COLLISION_ONLY, s.memories, 7, UserGlobal, r.id)) == {};
  }

  lemma BothSupersede(world: I.World)
    requires OneAsked(world.store) && 0 in world.writers && 1 in world.writers
    requires var s, env := world.store, COLLISION_ONLY;
             && world.writers[0] == ReadyOn(env, s, SuccessorWrite(s, Context(0, 0), 1, Successor(2, "bb")), 2)
             && world.writers[1] == ReadyOn(env, s, SuccessorWrite(s, Context(0, 0), 1, Successor(3, "ccc")), 3)
    ensures var env := COLLISION_ONLY;
            !Chains.NoForks(I.Step(env, I.Step(env, world, I.Commit(0, 102)), I.Commit(1, 103)).store.memories)
  {
    var env := COLLISION_ONLY;
    SoleHolderIsSuperseded(world.store, Successor(2, "bb"));
    SoleHolderIsSuperseded(world.store, Successor(3, "ccc"));
    var first := I.Step(env, world, I.Commit(0, 102));
    var m := I.Step(env, first, I.Commit(1, 103)).store.memories;
    assert first.writers[1] == world.writers[1];
    assert Chains.Held(m, 1) && Chains.Follows(m, 2, 1) && Chains.Follows(m, 3, 1);
  }

  // ---- an entry resolved between read and commit ----

  /** After two answers a third caller reads entry 102; the entry is resolved; the caller commits. */
  function ResolvedInBetween(v: Verdict, newKey: Option<Key>, receipt: Receipt): seq<I.Action> {
    StepsOf(TWO_ANSWERS)
    + (ReadSteps(0, Ask(3, "ccc").write, 3) + [I.ResolveCommit(102, v, newKey, receipt), I.Commit(0, 103)])
  }

  /** The third caller has read, and nothing else has happened. */
  ghost predicate ThirdReady(world: I.World) {
    && TwoAsked(world.store) && 0 in world.writers
    && world.writers[0] == ReadyOn(COLLISION_ONLY, world.store, Ask(3, "ccc").write, 3)
  }

  lemma ThirdReads(v: Verdict, newKey: Option<Key>, receipt: Receipt) returns (world: I.World)
    ensures world == I.Put(Alone(RunOps(COLLISION_ONLY, EMPTY_STORE, TWO_ANSWERS)), 0,
                           ReadyOn(COLLISION_ONLY, RunOps(COLLISION_ONLY, EMPTY_STORE, TWO_ANSWERS),
                                   Ask(3, "ccc").write, 3))
    ensures ThirdReady(world)
    ensures I.Run(COLLISION_ONLY, I.EMPTY_WORLD, ResolvedInBetween(v, newKey, receipt))
            == I.Step(COLLISION_ONLY, I.Step(COLLISION_ONLY, world, I.ResolveCommit(102, v, newKey, receipt)),
                      I.Commit(0, 103))
  {
    var env, s := COLLISION_ONLY, RunOps(COLLISION_ONLY, EMPTY_STORE, TWO_ANSWERS);
    var last := [I.ResolveCommit(102, v, newKey, receipt), I.Commit(0, 103)];
    AfterTwoAnswers();
    AtomicRunsInterleave(env, EMPTY_STORE, TWO_ANSWERS);
    RunAppend(env, I.EMPTY_WORLD, StepsOf(TWO_ANSWERS), ReadSteps(0, Ask(3, "ccc").write, 3) + last);
    RunAppend(env, Alone(s), ReadSteps(0, Ask(3, "ccc").write, 3), last);
    Reads(env, Alone(s), 0, Ask(3, "ccc").write, 3);
    world := I.Put(Alone(s), 0, ReadyOn(env, s, Ask(3, "ccc").write, 3));
    TwoSteps(env, world, I.ResolveCommit(102, v, newKey, receipt), I.Commit(0, 103));
  }

  lemma ReadsEntry(world: I.World)
    requires ThirdReady(world)
    ensures var wr := world.writers[0];
            && wr.into == Some(102) && wr.decision.disposition == Contested
            && CoalesceFits(world.store, wr.write, wr.decision, wr.into)
            && wr.write.request.id !in world.store.memories
  {
    SecondAnswerContested(COLLISION_ONLY, world.store.memories, Ask(3, "ccc").write, 1);
    assert OpenContests(world.store.contests, 7, UserGlobal, 0) == {102};
  }

  lemma ThirdFits(world: I.World, s: Store)
    requires s == RunOps(COLLISION_ONLY, EMPTY_STORE, TWO_ANSWERS)
    requires ThirdReady(world) && world == I.Put(Alone(s), 0, world.writers[0])
    ensures I.Inv(world, false) && I.Uncounted(s) == 0
  {
    EmptyStoreFits();
    RunKeepsInv(COLLISION_ONLY, EMPTY_STORE, TWO_ANSWERS);
    ReadsEntry(world);
    assert I.WriterFits(world.store, world.writers[0], false);
  }

  lemma MoveIsSafe(s: Store, receipt: Receipt)
    requires TwoAsked(s) && Sound(s)
    ensures SafeToMove(s, 102, Some(8)) && Drift(CommitResolution(s, 102, Split, Some(8), receipt).0) == {}
  {
    assert HasOwnEntry(s, 2);
    SoundAndCoveredMeansNoDrift(s);
    MoveKeepsDriftEmptyIff(s, 102, Split, Some(8), receipt);
  }

  lemma ResolutionCloses(s: Store, c: ContestId, v: Verdict, newKey: Option<Key>, receipt: Receipt)
    requires Sound(s) && c in s.contests && s.contests[c].resolution.None?
    ensures var s' := CommitResolution(s, c, v, newKey, receipt).0;
            c in s'.contests && s'.contests[c].resolution == Some(v) && s'.memories.Keys == s.memories.Keys
  {
    assert EntrySound(s, s.contests[c]);
  }

  lemma MoveLeavesNoCover(s: Store, c: ContestId, v: Verdict, newKey: Key, receipt: Receipt, r: Record)
    requires Sound(s) && c in s.contests && s.contests[c].resolution.None?
    requires Matches(s.contests[c], r) && !HasSibling(s, c) && newKey != s.contests[c].claimKey
    ensures !HasSlotEntry(CommitResolution(s, c, v, Some(newKey), receipt).0, r)
  {
    var s' := CommitResolution(s, c, v, Some(newKey), receipt).0;
    assert EntrySound(s, s.contests[c]);
    forall d | d in s'.contests ensures !Matches(s'.contests[d], r) {
      assert d != c ==> !SameSlot(s.contests[d], s.contests[c]);
    }
  }

  lemma StepResolves(env: Env, world: I.World, c: ContestId, v: Verdict, newKey: Option<Key>, receipt: Receipt)
    ensures I.Step(env, world, I.ResolveCommit(c, v, newKey, receipt))
            == I.World(CommitResolution(world.store, c, v, newKey, receipt).0, world.writers)
  {}

  lemma UncoveredCommit(env: Env, world: I.World, p: I.Pid, newContest: ContestId)
    requires I.Inv(world, false) && Drift(world.store) == {} && p in world.writers && world.writers[p].Ready?
    requires var (s, wr) := (world.store, world.writers[p]);
             && wr.into.Some? && wr.write.request.id !in s.memories
             && !HasSlotEntry(s, BuildRecord(wr.write, wr.decision, wr.now))
    ensures Drift(I.Step(env, world, I.Commit(p, newContest)).store) != {}
  {
    assert I.WriterFits(world.store, world.writers[p], false);
    DriftRuns.CommitDriftsIff(env, world, p, newContest);
  }

  /** An entry that moves between the read and the commit of a write, leaving no sibling, leaves the write
      without cover. */
  lemma MovedUnderAWrite(env: Env, world: I.World, p: I.Pid, c: ContestId, v: Verdict, newKey: Key, receipt: Receipt,
                         newContest: ContestId)
    requires I.Inv(world, false) && receipt.verdict.Some? && p in world.writers && world.writers[p].Ready?
    requires var (s, wr) := (world.store, world.writers[p]);
             && wr.into == Some(c) && CoalesceFits(s, wr.write, wr.decision, wr.into)
             && s.contests[c].resolution.None? && wr.write.request.id !in s.memories
             && !HasSibling(s, c) && newKey != s.contests[c].claimKey
             && Drift(CommitResolution(s, c, v, Some(newKey), receipt).0) == {}
    ensures var moved := I.Step(env, world, I.ResolveCommit(c, v, Some(newKey), receipt));
            Drift(I.Step(env, moved, I.Commit(p, newContest)).store) != {}
  {
    var s, wr := world.store, world.writers[p];
    var moved := I.World(CommitResolution(s, c, v, Some(newKey), receipt).0, world.writers);
    StepResolves(env, world, c, v, Some(newKey), receipt);
    I.StepKeepsInv(env, world, I.ResolveCommit(c, v, Some(newKey), receipt), false);
    ResolutionCloses(s, c, v, Some(newKey), receipt);
    MoveLeavesNoCover(s, c, v, newKey, receipt, BuildRecord(wr.write, wr.decision, wr.now));
    UncoveredCommit(env, moved, p, newContest);
  }

  lemma StaleCommit(world: I.World, receipt: Receipt)
    requires ThirdReady(world) && I.Inv(world, false) && receipt.verdict.Some?
    ensures var moved := I.Step(COLLISION_ONLY, world, I.ResolveCommit(102, Split, Some(8), receipt));
            Drift(I.Step(COLLISION_ONLY, moved, I.Commit(0, 103)).store) != {}
  {
    MoveIsSafe(world.store, receipt);
    ReadsEntry(world);
    assert !HasSibling(world.store, 102);
    MovedUnderAWrite(COLLISION_ONLY, world, 0, 102, Split, 8, receipt, 103);
  }

  /** The entry moves to a free slot, which is safe when it happens, while a third answer is about to be
      counted into it. The answer commits without cover and is reported. */
  lemma StaleCommitDrifts(receipt: Receipt)
    requires receipt.verdict.Some?
    ensures var s := RunOps(COLLISION_ONLY, EMPTY_STORE, TWO_ANSWERS);
            && 102 in s.contests && s.contests[102].resolution.None? && SafeToMove(s, 102, Some(8))
            && Drift(CommitResolution(s, 102, Split, Some(8), receipt).0) == {}
    ensures Drift(I.Run(COLLISION_ONLY, I.EMPTY_WORLD, ResolvedInBetween(Split, Some(8), receipt)).store) != {}
  {
    var world := ThirdReads(Split, Some(8), receipt);
    ThirdFits(world, RunOps(COLLISION_ONLY, EMPTY_STORE, TWO_ANSWERS));
    MoveIsSafe(world.store, receipt);
    StaleCommit(world, receipt);
  }

  /** An entry resolved between the read and the commit of a write does not count it. */
  lemma ResolvedUnderAWrite(env: Env, world: I.World, p: I.Pid, c: ContestId, v: Verdict, newKey: Option<Key>,
                            receipt: Receipt, newContest: ContestId)
    requires I.Inv(world, false) && receipt.verdict.Some? && p in world.writers && world.writers[p].Ready?
    requires var (s, wr) := (world.store, world.writers[p]);
             && wr.into == Some(c) && c in s.contests && s.contests[c].resolution.None?
             && wr.write.request.id !in s.memories
    ensures var closed := I.Step(env, world, I.ResolveCommit(c, v, newKey, receipt));
            I.Uncounted(I.Step(env, closed, I.Commit(p, newContest)).store) == I.Uncounted(world.store) + 1
  {
    var closed := I.World(CommitResolution(world.store, c, v, newKey, receipt).0, world.writers);
    StepResolves(env, world, c, v, newKey, receipt);
    ResolutionCloses(world.store, c, v, newKey, receipt);
    I.StepKeepsInv(env, world, I.ResolveCommit(c, v, newKey, receipt), false);
    I.StepLosesCount(env, world, I.ResolveCommit(c, v, newKey, receipt));
    I.StepLosesCount(env, closed, I.Commit(p, newContest));
  }

  /** The entry is set aside while a third answer is about to be counted into it: two contested writes are
      stored, one is counted. */
  lemma CountIsDropped(receipt: Receipt)
    requires receipt.verdict.Some?
    ensures var s := I.Run(COLLISION_ONLY, I.EMPTY_WORLD, ResolvedInBetween(SetAside, None, receipt)).store;
            Sum(Occurrences(s)) + 1 == ContestedWrites(s.receipts)
  {
    var world := ThirdReads(SetAside, None, receipt);
    ThirdFits(world, RunOps(COLLISION_ONLY, EMPTY_STORE, TWO_ANSWERS));
    ReadsEntry(world);
    ResolvedUnderAWrite(COLLISION_ONLY, world, 0, 102, SetAside, None, receipt, 103);
  }
}
