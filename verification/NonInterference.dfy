/** Contested writes do not interfere with admitted writes or ordinary reads. */
module NonInterference {
  // Erasing every contested write of a run, and every set-aside, changes nothing either can observe.

  import opened Common
  import opened Contest
  import opened Ledger
  import opened LedgerInvariants
  import opened AtomicRuns
  import I = Interleavings

  /** The store an ordinary read sees: its admitted rows. */
  function AdmittedPart(m: Memories): Memories {
    map id | id in m && !m[id].contested :: m[id]
  }

  // ---- reads see admitted rows only ----

  lemma OccupantsReadAdmitted(m: Memories, key: Key, scope: Scope)
    ensures SlotOccupants(AdmittedPart(m), key, scope) == SlotOccupants(m, key, scope)
  {
    var a := AdmittedPart(m);
    forall x | x in Displaced(m, key, scope) ensures x in Displaced(a, key, scope) {
      var y :| y in m && InSlot(m[y], key, scope) && m[y].record.supersedes == Some(x);
      assert y in a && a[y] == m[y];
    }
    forall x | x in Displaced(a, key, scope) ensures x in Displaced(m, key, scope) {
      var y :| y in a && InSlot(a[y], key, scope) && a[y].record.supersedes == Some(x);
      assert y in m && a[y] == m[y];
    }
    assert Displaced(a, key, scope) == Displaced(m, key, scope);
  }

  lemma {:induction false} LineageReadsAdmitted(m: Memories, ctx: Context, root: Id, depth: nat)
    ensures Lineage(AdmittedPart(m), ctx, root, depth) == Lineage(m, ctx, root, depth)
  {
    var a := AdmittedPart(m);
    assert forall x :: Visible(a, ctx, x) == Visible(m, ctx, x);
    if depth > 0 {
      LineageReadsAdmitted(m, ctx, root, depth - 1);
      var near := Lineage(m, ctx, root, depth - 1);
      var grownA := set p, x | p in near && x in a && Visible(a, ctx, x) && Linked(a, p, x) :: x;
      var grownM := set p, x | p in near && x in m && Visible(m, ctx, x) && Linked(m, p, x) :: x;
      forall x | x in grownM ensures x in grownA {
        var p :| p in near && Visible(m, ctx, x) && Linked(m, p, x);
        assert p in a && x in a && Linked(a, p, x);
      }
      forall x | x in grownA ensures x in grownM {
        var p :| p in near && x in a && Visible(a, ctx, x) && Linked(a, p, x);
        assert p in m && x in m && Linked(m, p, x);
      }
      assert grownA == grownM;
    }
  }

  lemma SuccessorsReadAdmitted(m: Memories, ctx: Context, prior: Id)
    ensures DirectSuccessors(AdmittedPart(m), ctx, prior) == DirectSuccessors(m, ctx, prior)
  {
    LineageReadsAdmitted(m, ctx, prior, MAX_LINEAGE_DEPTH);
  }

  lemma JudgeReadsAdmitted(env: Env, m: Memories, w: Write)
    ensures Judge(env, AdmittedPart(m), w) == Judge(env, m, w)
  {
    if w.request.claimKey.Some? {
      OccupantsReadAdmitted(m, w.request.claimKey.value, w.Scope());
      assert OccupantsFor(env, AdmittedPart(m), w.request.claimKey.value, w.Scope(), w.request.id)
             == OccupantsFor(env, m, w.request.claimKey.value, w.Scope(), w.request.id);
    }
  }

  predicate IsContested(s: Store, id: Id) { id in s.memories && s.memories[id].contested }

  // ---- every interleaving ----

  predicate CommitsContested(world: I.World, a: I.Action) {
    a.Commit? && a.p in world.writers && world.writers[a.p].Ready?
        && world.writers[a.p].decision.disposition == Contested
  }

  predicate CommitsAdmitted(world: I.World, a: I.Action) {
    a.Commit? && a.p in world.writers && world.writers[a.p].Ready?
        && world.writers[a.p].decision.disposition == Admitted
  }

  /** The run without its resolutions, and with every caller whose write is contested giving up instead. */
  function EraseSteps(env: Env, world: I.World, actions: seq<I.Action>): seq<I.Action>
    decreases |actions|
  {
    if actions == [] then []
    else
      var a := actions[0];
      var rest := EraseSteps(env, I.Step(env, world, a), actions[1..]);
      if a.ResolveCommit? then rest
      else if CommitsContested(world, a) then [I.Abandon(a.p)] + rest
      else [a] + rest
  }

  /** What an admitted write was told: its verdict with the incumbents, and how its transaction ended. */
  datatype Told = Told(p: I.Pid, write: Write, decision: Decision, outcome: Outcome)

  function ToldBy(env: Env, world: I.World, a: I.Action): seq<Told> {
    if CommitsAdmitted(world, a) then
      var wr := world.writers[a.p];
      [Told(a.p, wr.write, wr.decision,
            CommitWrite(env, world.store, wr.write, wr.decision, wr.into, wr.seen, a.newContest, wr.now).1)]
    else []
  }

  function AllTold(env: Env, world: I.World, actions: seq<I.Action>): seq<Told>
    decreases |actions|
  {
    if actions == [] then []
    else ToldBy(env, world, actions[0]) + AllTold(env, I.Step(env, world, actions[0]), actions[1..])
  }

  /** The step admits nothing by verdict and names no contested record: it neither finds one under its own
      id nor asks to supersede one. */
  predicate CleanStep(world: I.World, a: I.Action) {
    && I.WellFormed(a)
    && match a
       case BeginSupersede(_, _, oldId, _) => !IsContested(world.store, oldId)
       case Look(p, _) =>
         p in world.writers && world.writers[p].Starting? ==>
           !IsContested(world.store, world.writers[p].write.request.id)
       case Commit(p, _) => CommitsAdmitted(world, a) ==> !IsContested(world.store, world.writers[p].write.request.id)
       case ResolveCommit(_, v, _, _) => !Admits(v)
       case _ => true
  }

  predicate CleanSteps(env: Env, world: I.World, actions: seq<I.Action>)
    decreases |actions|
  {
    actions == [] || (CleanStep(world, actions[0]) && CleanSteps(env, I.Step(env, world, actions[0]), actions[1..]))
  }

  /** Two callers who have come equally far and read the same, but for the entry a contested write found. */
  ghost predicate SameWriter(a: I.Writer, b: I.Writer) {
    || a == b
    || (&& a.Ready? && b.Ready? && a.decision.disposition == Contested
        && a.(into := None, seen := 0) == b.(into := None, seen := 0))
  }

  /** `t` holds the admitted part of `s`, and the same callers. */
  ghost predicate Mirrors(s: I.World, t: I.World) {
    && t.store.memories == AdmittedPart(s.store.memories)
    && t.writers.Keys == s.writers.Keys
    && forall p | p in s.writers :: SameWriter(s.writers[p], t.writers[p])
  }

  lemma ResolutionInvisible(s: Store, c: ContestId, v: Verdict, newKey: Option<Key>, receipt: Receipt)
    requires Sound(s) && !Admits(v)
    ensures AdmittedPart(CommitResolution(s, c, v, newKey, receipt).0.memories) == AdmittedPart(s.memories)
  {
    if c in s.contests { assert EntrySound(s, s.contests[c]); }
  }

  lemma ContestedCommitInvisible(env: Env, s: Store, w: Write, d: Decision, into: Option<ContestId>, seen: nat,
                                 newContest: ContestId, now: Time)
    requires d.disposition == Contested
    ensures AdmittedPart(CommitWrite(env, s, w, d, into, seen, newContest, now).0.memories) == AdmittedPart(s.memories)
  {
    var row := Row(BuildRecord(w, d, now), true);
    assert w.request.id !in s.memories ==> AdmittedPart(s.memories[w.request.id := row]) == AdmittedPart(s.memories);
  }

  lemma ResolutionMirrors(env: Env, s: I.World, t: I.World, a: I.Action)
    requires Sound(s.store) && Mirrors(s, t) && CleanStep(s, a) && a.ResolveCommit?
    ensures Mirrors(I.Step(env, s, a), t)
  {
    ResolutionInvisible(s.store, a.contest, a.verdict, a.newKey, a.receipt);
  }

  lemma ContestedCommitMirrors(env: Env, s: I.World, t: I.World, a: I.Action)
    requires Mirrors(s, t) && CommitsContested(s, a)
    ensures Mirrors(I.Step(env, s, a), I.Step(env, t, I.Abandon(a.p)))
  {
    var wr := s.writers[a.p];
    I.StepCommits(env, s, a.p, a.newContest);
    ContestedCommitInvisible(env, s.store, wr.write, wr.decision, wr.into, wr.seen, a.newContest, wr.now);
  }

  lemma AdmittedCommitEffect(env: Env, s: Store, wr: I.Writer, newContest: ContestId)
    requires wr.Ready? && wr.decision.disposition == Admitted
    ensures var (s', outcome) := CommitWrite(env, s, wr.write, wr.decision, wr.into, wr.seen, newContest, wr.now);
            var id := wr.write.request.id;
            if id in s.memories then s' == s
            else
              s'.memories == s.memories[id := Row(BuildRecord(wr.write, wr.decision, wr.now), false)]
              && outcome == Created
  {}

  lemma AdmittedCommitMirrors(env: Env, s: I.World, t: I.World, a: I.Action)
    requires Mirrors(s, t) && CleanStep(s, a) && CommitsAdmitted(s, a)
    ensures Mirrors(I.Step(env, s, a), I.Step(env, t, a))
    ensures ToldBy(env, s, a) == ToldBy(env, t, a)
  {
    var wr := s.writers[a.p];
    assert t.writers[a.p] == wr;
    I.StepCommits(env, s, a.p, a.newContest);
    I.StepCommits(env, t, a.p, a.newContest);
    AdmittedCommitEffect(env, s.store, wr, a.newContest);
    AdmittedCommitEffect(env, t.store, wr, a.newContest);
  }

  lemma LineageStepMirrors(env: Env, s: I.World, t: I.World, p: I.Pid)
    requires Mirrors(s, t)
    ensures Mirrors(I.Step(env, s, I.ReadLineage(p)), I.Step(env, t, I.ReadLineage(p)))
  {
    if p in s.writers && s.writers[p].ReadPrior? {
      SuccessorsReadAdmitted(s.store.memories, s.writers[p].ctx, s.writers[p].oldId);
    }
  }

  lemma SlotStepMirrors(env: Env, s: I.World, t: I.World, p: I.Pid)
    requires Mirrors(s, t)
    ensures Mirrors(I.Step(env, s, I.ReadSlot(p)), I.Step(env, t, I.ReadSlot(p)))
  {
    if p in s.writers && s.writers[p].Looked? { JudgeReadsAdmitted(env, s.store.memories, s.writers[p].write); }
  }

  lemma ReadStepMirrors(env: Env, s: I.World, t: I.World, a: I.Action)
    requires Mirrors(s, t) && CleanStep(s, a) && !a.ResolveCommit?
    requires !a.Commit? || a.p !in s.writers || !s.writers[a.p].Ready?
    ensures Mirrors(I.Step(env, s, a), I.Step(env, t, a))
    ensures ToldBy(env, s, a) == ToldBy(env, t, a) == []
  {
    match a
    case ReadLineage(p) => LineageStepMirrors(env, s, t, p);
    case ReadSlot(p) => SlotStepMirrors(env, s, t, p);
    case _ =>
  }

  lemma {:induction false} ErasedStepsMirror(env: Env, s: I.World, t: I.World, actions: seq<I.Action>)
    requires I.Inv(s, false) && Mirrors(s, t) && CleanSteps(env, s, actions)
    ensures Mirrors(I.Run(env, s, actions), I.Run(env, t, EraseSteps(env, s, actions)))
    ensures AllTold(env, t, EraseSteps(env, s, actions)) == AllTold(env, s, actions)
    decreases |actions|
  {
    if actions != [] {
      var a := actions[0];
      var s' := I.Step(env, s, a);
      I.StepKeepsInv(env, s, a, false);
      var rest := EraseSteps(env, s', actions[1..]);
      if a.ResolveCommit? {
        ResolutionMirrors(env, s, t, a);
        ErasedStepsMirror(env, s', t, actions[1..]);
      } else {
        var b := if CommitsContested(s, a) then I.Abandon(a.p) else a;
        if CommitsContested(s, a) {
          ContestedCommitMirrors(env, s, t, a);
        } else if CommitsAdmitted(s, a) {
          AdmittedCommitMirrors(env, s, t, a);
        } else {
          ReadStepMirrors(env, s, t, a);
        }
        ErasedStepsMirror(env, s', I.Step(env, t, b), actions[1..]);
        assert ([b] + rest)[1..] == rest;
      }
    }
  }

  /** In every interleaving without an admitting verdict, in which no step names a contested record: letting
      every contested write give up instead of committing, and dropping every set-aside, leaves every other
      write's verdict, incumbents and outcome, the admitted store, every slot, every lineage read and every
      caller still under way exactly as they were. */
  lemma ContestedWritesDoNotInterfere(env: Env, actions: seq<I.Action>, key: Key, scope: Scope, ctx: Context, root: Id,
                                      depth: nat)
    requires CleanSteps(env, I.EMPTY_WORLD, actions)
    ensures var erased := EraseSteps(env, I.EMPTY_WORLD, actions);
            var s, t := I.Run(env, I.EMPTY_WORLD, actions), I.Run(env, I.EMPTY_WORLD, erased);
            && AllTold(env, I.EMPTY_WORLD, erased) == AllTold(env, I.EMPTY_WORLD, actions)
            && Mirrors(s, t)
            && SlotOccupants(t.store.memories, key, scope) == SlotOccupants(s.store.memories, key, scope)
            && Lineage(t.store.memories, ctx, root, depth) == Lineage(s.store.memories, ctx, root, depth)
  {
    ErasedStepsMirror(env, I.EMPTY_WORLD, I.EMPTY_WORLD, actions);
    var m := I.Run(env, I.EMPTY_WORLD, actions).store.memories;
    OccupantsReadAdmitted(m, key, scope);
    LineageReadsAdmitted(m, ctx, root, depth);
  }

  // ---- atomic runs, with what every call returned ----

  /** The op writes a record the gate contests. */
  predicate WritesContested(env: Env, s: Store, op: Op) {
    WriteOf(env, s, op).Some? && Judge(env, s.memories, WriteOf(env, s, op).value).disposition == Contested
  }

  predicate Erased(env: Env, s: Store, op: Op) {
    op.ResolveOp? || WritesContested(env, s, op)
  }

  /** The run without its contested writes and resolutions. */
  function Erase(env: Env, s: Store, ops: seq<Op>): seq<Op>
    decreases |ops|
  {
    if ops == [] then []
    else
      var rest := Erase(env, Apply(env, s, ops[0]).0, ops[1..]);
      if Erased(env, s, ops[0]) then rest else [ops[0]] + rest
  }

  /** What the callers of the kept ops were told in the original run. */
  function KeptResults(env: Env, s: Store, ops: seq<Op>): seq<Result>
    decreases |ops|
  {
    if ops == [] then []
    else
      var rest := KeptResults(env, Apply(env, s, ops[0]).0, ops[1..]);
      if Erased(env, s, ops[0]) then rest else [Apply(env, s, ops[0]).1] + rest
  }

  function Results(env: Env, s: Store, ops: seq<Op>): seq<Result>
    decreases |ops|
  {
    if ops == [] then [] else [Apply(env, s, ops[0]).1] + Results(env, Apply(env, s, ops[0]).0, ops[1..])
  }

  /** The op names a contested record: it reuses its id or asks to supersede it. */
  predicate NamesContested(s: Store, op: Op) {
    match op
    case RememberOp(w, _, _) => IsContested(s, w.request.id)
    case SupersedeOp(_, oldId, r, _, _) => IsContested(s, oldId) || IsContested(s, r.id)
    case ResolveOp(_, _, _, _) => false
  }

  /** Resolutions only set aside, and no op names a contested record. */
  predicate CleanRun(env: Env, s: Store, ops: seq<Op>)
    decreases |ops|
  {
    ops == []
    || (&& Receipted(ops[0])
        && (ops[0].ResolveOp? ==> !Admits(ops[0].verdict))
        && !NamesContested(s, ops[0])
        && CleanRun(env, Apply(env, s, ops[0]).0, ops[1..]))
  }

  // ---- one op at a time ----

  lemma ErasedOpInvisible(env: Env, s: Store, op: Op)
    requires Sound(s) && Erased(env, s, op) && (op.ResolveOp? ==> !Admits(op.verdict))
    ensures AdmittedPart(Apply(env, s, op).0.memories) == AdmittedPart(s.memories)
  {
    if op.ResolveOp? {
      ResolutionInvisible(s, op.contest, op.verdict, op.newKey, op.receipt);
    } else {
      var w := WriteOf(env, s, op).value;
      var d := Judge(env, s.memories, w);
      var into := Coalesce(s.contests, w, d);
      ContestedCommitInvisible(env, s, w, d, into, if into.Some? then s.contests[into.value].occurrences else 0,
                               op.newContest, op.now);
    }
  }

  lemma KeptOpSame(env: Env, s: Store, t: Store, op: Op)
    requires Sound(s) && t.memories == AdmittedPart(s.memories)
    requires !Erased(env, s, op) && !NamesContested(s, op)
    ensures Apply(env, t, op).1 == Apply(env, s, op).1
    ensures Apply(env, t, op).0.memories == AdmittedPart(Apply(env, s, op).0.memories)
  {
    if op.SupersedeOp? { SuccessorsReadAdmitted(s.memories, op.ctx, op.oldId); }
    assert WriteOf(env, t, op) == WriteOf(env, s, op);
    if WriteOf(env, s, op).Some? {
      JudgeReadsAdmitted(env, s.memories, WriteOf(env, s, op).value);
      AdmittedWriteEffect(env, s, op);
      AdmittedWriteEffect(env, t, op);
    }
  }

  lemma AdmittedWriteEffect(env: Env, s: Store, op: Op)
    requires WriteOf(env, s, op).Some? && !WritesContested(env, s, op)
    ensures var w := WriteOf(env, s, op).value;
            var d := Judge(env, s.memories, w);
            Apply(env, s, op).0.memories == s.memories[w.request.id := Row(BuildRecord(w, d, op.now), false)]
            && Apply(env, s, op).1 == Stored(Admitted, d.incumbents)
  {}

  // ---- whole runs ----

  lemma {:induction false} ErasureSimulates(env: Env, s: Store, t: Store, ops: seq<Op>)
    requires AtomicInv(s) && t.memories == AdmittedPart(s.memories) && CleanRun(env, s, ops)
    ensures RunOps(env, t, Erase(env, s, ops)).memories == AdmittedPart(RunOps(env, s, ops).memories)
    ensures Results(env, t, Erase(env, s, ops)) == KeptResults(env, s, ops)
    decreases |ops|
  {
    if ops != [] {
      var op := ops[0];
      var s' := Apply(env, s, op).0;
      ApplyKeepsInv(env, s, op);
      if Erased(env, s, op) {
        ErasedOpInvisible(env, s, op);
        ErasureSimulates(env, s', t, ops[1..]);
      } else {
        KeptOpSame(env, s, t, op);
        ErasureSimulates(env, s', Apply(env, t, op).0, ops[1..]);
        var rest := Erase(env, s', ops[1..]);
        assert Erase(env, s, ops) == [op] + rest;
        assert ([op] + rest)[1..] == rest;
      }
    }
  }

  /** Erasing all contested writes and set-asides leaves the results of every other call, the
      admitted store, every slot and every lineage read exactly as they were. */
  lemma ContestedCallsDoNotInterfere(env: Env, ops: seq<Op>, key: Key, scope: Scope, ctx: Context, root: Id, depth: nat)
    requires CleanRun(env, EMPTY_STORE, ops)
    ensures var s := RunOps(env, EMPTY_STORE, ops);
            var t := RunOps(env, EMPTY_STORE, Erase(env, EMPTY_STORE, ops));
            && Results(env, EMPTY_STORE, Erase(env, EMPTY_STORE, ops)) == KeptResults(env, EMPTY_STORE, ops)
            && t.memories == AdmittedPart(s.memories)
            && SlotOccupants(t.memories, key, scope) == SlotOccupants(s.memories, key, scope)
            && Lineage(t.memories, ctx, root, depth) == Lineage(s.memories, ctx, root, depth)
  {
    EmptyStoreFits();
    ErasureSimulates(env, EMPTY_STORE, EMPTY_STORE, ops);
    OccupantsReadAdmitted(RunOps(env, EMPTY_STORE, ops).memories, key, scope);
    LineageReadsAdmitted(RunOps(env, EMPTY_STORE, ops).memories, ctx, root, depth);
  }
}
