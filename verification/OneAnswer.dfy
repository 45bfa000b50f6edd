/** One current answer per claim slot, and displaced records that stay displaced. */
module OneAnswer {
  import opened Common
  import opened Contest
  import opened Ledger
  import opened LedgerInvariants
  import opened AtomicRuns
  import I = Interleavings

  // ---- displacement is for good ----

  /** Admitted rows are never touched again. */
  ghost predicate AdmittedRowsStay(s: Store, s': Store) {
    forall id | id in s.memories && !s.memories[id].contested :: id in s'.memories && s'.memories[id] == s.memories[id]
  }

  lemma StepKeepsAdmittedRows(env: Env, world: I.World, a: I.Action)
    requires Sound(world.store)
    ensures AdmittedRowsStay(world.store, I.Step(env, world, a).store)
  {}

  lemma {:induction false} RunKeepsAdmittedRows(env: Env, world: I.World, actions: seq<I.Action>)
    requires I.Inv(world, false) && forall a | a in actions :: I.WellFormed(a)
    ensures AdmittedRowsStay(world.store, I.Run(env, world, actions).store)
    decreases |actions|
  {
    if actions != [] {
      var a := actions[0];
      var next := I.Step(env, world, a);
      I.StepKeepsInv(env, world, a, false);
      StepKeepsAdmittedRows(env, world, a);
      RunKeepsAdmittedRows(env, next, actions[1..]);
    }
  }

  /** In every interleaving and under every verdict: an admitted record never changes again, and a
      record some admitted record of a slot supersedes never occupies that slot from then on. */
  lemma DisplacedForGood(env: Env, before: seq<I.Action>, after: seq<I.Action>, key: Key, scope: Scope, id: Id)
    requires forall a | a in before + after :: I.WellFormed(a)
    requires id in Displaced(I.Run(env, I.EMPTY_WORLD, before).store.memories, key, scope)
    ensures var s' := I.Run(env, I.Run(env, I.EMPTY_WORLD, before), after).store;
            id in Displaced(s'.memories, key, scope) && id !in SlotOccupants(s'.memories, key, scope)
  {
    assert forall a | a in before :: a in before + after;
    assert forall a | a in after :: a in before + after;
    I.RunKeepsInv(env, I.EMPTY_WORLD, before, false);
    var world := I.Run(env, I.EMPTY_WORLD, before);
    RunKeepsAdmittedRows(env, world, after);
    var m, m' := world.store.memories, I.Run(env, world, after).store.memories;
    var x :| x in m && InSlot(m[x], key, scope) && m[x].record.supersedes == Some(id);
    assert x in m' && m'[x] == m[x];
  }

  // ---- one answer ----

  ghost predicate SlotAgrees(env: Env, m: Memories, key: Key, scope: Scope) {
    forall a, b | a in SlotOccupants(m, key, scope) && b in SlotOccupants(m, key, scope) ::
      env.digest(m[a].record.content) == env.digest(m[b].record.content)
  }

  /** Any two occupants of any slot have the same digest. */
  ghost predicate OneAnswerPerSlot(env: Env, m: Memories) {
    forall key, scope :: SlotAgrees(env, m, key, scope)
  }

  lemma DisplacedAfterRow(m: Memories, id: Id, row: Row, key: Key, scope: Scope)
    requires id !in m || m[id].contested
    ensures Displaced(m[id := row], key, scope)
            == Displaced(m, key, scope)
               + if InSlot(row, key, scope) && row.record.supersedes.Some? then {row.record.supersedes.value} else {}
  {
    var m' := m[id := row];
    forall x | x in Displaced(m, key, scope) ensures x in Displaced(m', key, scope) {
      var y :| y in m && InSlot(m[y], key, scope) && m[y].record.supersedes == Some(x);
      assert m'[y] == m[y];
    }
    if InSlot(row, key, scope) && row.record.supersedes.Some? {
      assert InSlot(m'[id], key, scope) && m'[id].record.supersedes.value in Displaced(m', key, scope);
    }
  }

  /** Admitting one row leaves every slot at most the occupants it had, plus the row in its own. */
  lemma OccupantsAfterRow(m: Memories, id: Id, row: Row, key: Key, scope: Scope)
    requires id !in m || m[id].contested
    ensures SlotOccupants(m[id := row], key, scope)
            <= SlotOccupants(m, key, scope) + if InSlot(row, key, scope) then {id} else {}
    ensures InSlot(row, key, scope) && row.record.supersedes.Some? ==>
              row.record.supersedes.value !in SlotOccupants(m[id := row], key, scope)
  {
    DisplacedAfterRow(m, id, row, key, scope);
  }

  /** Record `r`, admitted under `id`, brings no second answer: it agrees with every occupant of its slot
      that it does not supersede, or is itself displaced there, possibly by itself. */
  predicate Joins(env: Env, m: Memories, id: Id, r: Record) {
    r.claimKey.Some? ==>
      || (forall b | b in SlotOccupants(m, r.claimKey.value, r.scope) && Some(b) != r.supersedes ::
            env.digest(m[b].record.content) == env.digest(r.content))
      || id in Displaced(m, r.claimKey.value, r.scope)
      || r.supersedes == Some(id)
  }

  lemma RowInSlotAgreesIff(env: Env, m: Memories, id: Id, row: Row, key: Key, scope: Scope)
    requires (id !in m || m[id].contested) && InSlot(row, key, scope) && SlotAgrees(env, m, key, scope)
    ensures SlotAgrees(env, m[id := row], key, scope) <==> Joins(env, m, id, row.record)
  {
    var m' := m[id := row];
    OccupantsAfterRow(m, id, row, key, scope);
    DisplacedAfterRow(m, id, row, key, scope);
    if id in SlotOccupants(m', key, scope) && SlotAgrees(env, m', key, scope) {
      forall b | b in SlotOccupants(m, key, scope) && Some(b) != row.record.supersedes
        ensures env.digest(m[b].record.content) == env.digest(row.record.content)
      {
        assert b in SlotOccupants(m', key, scope);
      }
    }
  }

  /** One more admitted row keeps one answer per slot exactly when it joins; a contested row always does. */
  lemma RowAgreesIff(env: Env, m: Memories, id: Id, row: Row)
    requires (id !in m || m[id].contested) && OneAnswerPerSlot(env, m)
    ensures OneAnswerPerSlot(env, m[id := row]) <==> row.contested || Joins(env, m, id, row.record)
  {
    var m' := m[id := row];
    forall key, scope | !InSlot(row, key, scope) ensures SlotAgrees(env, m', key, scope) {
      assert SlotAgrees(env, m, key, scope);
      OccupantsAfterRow(m, id, row, key, scope);
    }
    if !row.contested && row.record.claimKey.Some? {
      var key, scope := row.record.claimKey.value, row.record.scope;
      assert SlotAgrees(env, m, key, scope);
      RowInSlotAgreesIff(env, m, id, row, key, scope);
      assert OneAnswerPerSlot(env, m') <==> SlotAgrees(env, m', key, scope) by {
        forall k, sc | SlotAgrees(env, m', key, scope) ensures SlotAgrees(env, m', k, sc) {}
      }
    } else {
      assert forall key, scope :: !InSlot(row, key, scope);
    }
  }

  // ---- admitting verdicts ----

  /** What a resolution that admits puts into the slot. */
  predicate ResolutionJoins(env: Env, s: Store, c: ContestId, v: Verdict, newKey: Option<Key>) {
    Admits(v) && c in s.contests && s.contests[c].resolution.None? && s.contests[c].recordId in s.memories ==>
      var id := s.contests[c].recordId;
      Joins(env, s.memories, id, ApplyResolution(s.memories[id], true, newKey).record)
  }

  /** Any admitting verdict, with or without a new claim key, keeps the slot it admits into at one answer
      if and only if the record joins it. */
  lemma AdmissionAgreesIff(env: Env, s: Store, c: ContestId, v: Verdict, newKey: Option<Key>, receipt: Receipt)
    requires Sound(s) && c in s.contests && s.contests[c].resolution.None? && Admits(v)
    requires var key := if newKey.Some? then newKey.value else s.contests[c].claimKey;
             SlotAgrees(env, s.memories, key, s.contests[c].scope)
    ensures var key := if newKey.Some? then newKey.value else s.contests[c].claimKey;
            var id, scope := s.contests[c].recordId, s.contests[c].scope;
            && id in s.memories
            && var r := s.memories[id].record;
               SlotAgrees(env, CommitResolution(s, c, v, newKey, receipt).0.memories, key, scope)
               <==> || (forall b | b in SlotOccupants(s.memories, key, scope) && Some(b) != r.supersedes ::
                          env.digest(s.memories[b].record.content) == env.digest(r.content))
                    || id in Displaced(s.memories, key, scope)
                    || r.supersedes == Some(id)
  {
    var e := s.contests[c];
    assert EntrySound(s, e);
    var key := if newKey.Some? then newKey.value else e.claimKey;
    RowInSlotAgreesIff(env, s.memories, e.recordId, ApplyResolution(s.memories[e.recordId], true, newKey), key,
                       e.scope);
  }

  lemma ResolutionAgreesIff(env: Env, s: Store, c: ContestId, v: Verdict, newKey: Option<Key>, receipt: Receipt)
    requires Sound(s) && OneAnswerPerSlot(env, s.memories)
    ensures OneAnswerPerSlot(env, CommitResolution(s, c, v, newKey, receipt).0.memories)
            <==> ResolutionJoins(env, s, c, v, newKey)
  {
    if c in s.contests && s.contests[c].resolution.None? {
      var id := s.contests[c].recordId;
      assert EntrySound(s, s.contests[c]);
      RowAgreesIff(env, s.memories, id, ApplyResolution(s.memories[id], Admits(v), newKey));
    }
  }

  // ---- writes ----

  /** With slot collision in force, what the gate admits on the slot as it is joins it. */
  lemma FreshAdmissionJoins(env: Env, m: Memories, w: Write, d: Decision, now: Time)
    requires SlotCollision in env.enabled && w.request.id !in m && Judge(env, m, w).disposition == Admitted
    ensures Joins(env, m, w.request.id, BuildRecord(w, d, now))
  {
    if w.request.claimKey.Some? {
      var key, scope := w.request.claimKey.value, w.Scope();
      var slot := OccupantsFor(env, m, key, scope, w.request.id);
      AdmittedWritesFitTheSlot(IntentOf(env, w.request), slot, env.enabled);
      forall b | b in SlotOccupants(m, key, scope) && Some(b) != w.request.supersedes
        ensures env.digest(m[b].record.content) == env.digest(w.request.content)
      {
        var o := Occupant(b, env.digest(m[b].record.content), m[b].record.assertedAt);
        assert o in slot;
        assert b in Incumbents(slot);
      }
    }
  }

  /** A commit puts its record into the slot as decided, however long ago that was. */
  predicate CommitJoins(env: Env, s: Store, w: Write, d: Decision, now: Time) {
    d.disposition == Admitted && w.request.id !in s.memories ==>
      Joins(env, s.memories, w.request.id, BuildRecord(w, d, now))
  }

  lemma CommitAgreesIff(env: Env, s: Store, w: Write, d: Decision, into: Option<ContestId>, seen: nat,
                        newContest: ContestId, now: Time)
    requires OneAnswerPerSlot(env, s.memories)
    ensures OneAnswerPerSlot(env, CommitWrite(env, s, w, d, into, seen, newContest, now).0.memories)
            <==> CommitJoins(env, s, w, d, now)
  {
    if w.request.id !in s.memories {
      RowAgreesIff(env, s.memories, w.request.id, Row(BuildRecord(w, d, now), d.disposition == Contested));
    }
  }

  // ---- every interleaving ----

  predicate ActionJoins(env: Env, world: I.World, a: I.Action) {
    match a
    case Commit(p, _) =>
      p in world.writers && world.writers[p].Ready? ==>
        CommitJoins(env, world.store, world.writers[p].write, world.writers[p].decision, world.writers[p].now)
    case ResolveCommit(c, v, newKey, _) => ResolutionJoins(env, world.store, c, v, newKey)
    case _ => true
  }

  predicate JoinsThroughout(env: Env, world: I.World, actions: seq<I.Action>)
    decreases |actions|
  {
    actions == [] || (ActionJoins(env, world, actions[0])
                      && JoinsThroughout(env, I.Step(env, world, actions[0]), actions[1..]))
  }

  ghost predicate AgreesThroughout(env: Env, world: I.World, actions: seq<I.Action>)
    decreases |actions|
  {
    && OneAnswerPerSlot(env, world.store.memories)
    && (actions == [] || AgreesThroughout(env, I.Step(env, world, actions[0]), actions[1..]))
  }

  lemma StepAgreesIff(env: Env, world: I.World, a: I.Action)
    requires Sound(world.store) && OneAnswerPerSlot(env, world.store.memories)
    ensures OneAnswerPerSlot(env, I.Step(env, world, a).store.memories) <==> ActionJoins(env, world, a)
  {
    match a
    case Commit(p, newContest) =>
      if p in world.writers && world.writers[p].Ready? {
        var wr := world.writers[p];
        I.StepCommits(env, world, p, newContest);
        CommitAgreesIff(env, world.store, wr.write, wr.decision, wr.into, wr.seen, newContest, wr.now);
      }
    case ResolveCommit(c, v, newKey, receipt) => ResolutionAgreesIff(env, world.store, c, v, newKey, receipt);
    case _ =>
  }

  lemma {:induction false} RunAgreesIff(env: Env, world: I.World, actions: seq<I.Action>)
    requires I.Inv(world, false) && OneAnswerPerSlot(env, world.store.memories)
    requires forall a | a in actions :: I.WellFormed(a)
    ensures AgreesThroughout(env, world, actions) <==> JoinsThroughout(env, world, actions)
    decreases |actions|
  {
    if actions != [] {
      var next := I.Step(env, world, actions[0]);
      StepAgreesIff(env, world, actions[0]);
      I.StepKeepsInv(env, world, actions[0], false);
      if OneAnswerPerSlot(env, next.store.memories) { RunAgreesIff(env, next, actions[1..]); }
    }
  }

  /** In every interleaving and for every ruleset: the slots keep one answer each throughout the run if and
      only if every admitted commit and every admitting verdict joins its slot as it is at that moment. */
  lemma InterleavedAgreementIff(env: Env, actions: seq<I.Action>)
    requires forall a | a in actions :: I.WellFormed(a)
    ensures AgreesThroughout(env, I.EMPTY_WORLD, actions) <==> JoinsThroughout(env, I.EMPTY_WORLD, actions)
  {
    RunAgreesIff(env, I.EMPTY_WORLD, actions);
  }

  /** Two callers who both found the slot free are both admitted, and the second does not join: a commit is
      safe when the gate would still admit it. */
  lemma StillAdmittedJoins(env: Env, s: Store, w: Write, d: Decision, now: Time)
    requires SlotCollision in env.enabled && Judge(env, s.memories, w).disposition == Admitted
    ensures CommitJoins(env, s, w, d, now)
  {
    if w.request.id !in s.memories { FreshAdmissionJoins(env, s.memories, w, d, now); }
  }

  // ---- atomic runs ----

  predicate OpJoins(env: Env, s: Store, op: Op) {
    op.ResolveOp? ==> ResolutionJoins(env, s, op.contest, op.verdict, op.newKey)
  }

  predicate RunJoins(env: Env, s: Store, ops: seq<Op>)
    decreases |ops|
  {
    ops == [] || (OpJoins(env, s, ops[0]) && RunJoins(env, Apply(env, s, ops[0]).0, ops[1..]))
  }

  ghost predicate RunAgrees(env: Env, s: Store, ops: seq<Op>)
    decreases |ops|
  {
    OneAnswerPerSlot(env, s.memories) && (ops == [] || RunAgrees(env, Apply(env, s, ops[0]).0, ops[1..]))
  }

  lemma OpAgreesIff(env: Env, s: Store, op: Op)
    requires SlotCollision in env.enabled && Sound(s) && OneAnswerPerSlot(env, s.memories)
    ensures OneAnswerPerSlot(env, Apply(env, s, op).0.memories) <==> OpJoins(env, s, op)
  {
    if op.ResolveOp? {
      ResolutionAgreesIff(env, s, op.contest, op.verdict, op.newKey, op.receipt);
    } else if WriteOf(env, s, op).Some? {
      var w := WriteOf(env, s, op).value;
      var d := Judge(env, s.memories, w);
      var into := Coalesce(s.contests, w, d);
      if d.disposition == Admitted { FreshAdmissionJoins(env, s.memories, w, d, op.now); }
      CommitAgreesIff(env, s, w, d, into, if into.Some? then s.contests[into.value].occurrences else 0, op.newContest,
                      op.now);
    }
  }

  lemma {:induction false} AtomicAgreementHolds(env: Env, s: Store, ops: seq<Op>)
    requires SlotCollision in env.enabled && AtomicInv(s) && OneAnswerPerSlot(env, s.memories)
    requires forall op | op in ops :: Receipted(op)
    ensures RunAgrees(env, s, ops) <==> RunJoins(env, s, ops)
    ensures RunJoins(env, s, ops) ==> OneAnswerPerSlot(env, RunOps(env, s, ops).memories)
    decreases |ops|
  {
    if ops != [] {
      var next := Apply(env, s, ops[0]).0;
      OpAgreesIff(env, s, ops[0]);
      ApplyKeepsInv(env, s, ops[0]);
      if OneAnswerPerSlot(env, next.memories) { AtomicAgreementHolds(env, next, ops[1..]); }
    }
  }

  /** For every ruleset with slot collision, in every atomic run of any calls and verdicts: all occupants of
      every slot agree throughout if and only if every admitting verdict joins its slot. */
  lemma AtomicAgreementIff(env: Env, ops: seq<Op>)
    requires SlotCollision in env.enabled && forall op | op in ops :: Receipted(op)
    ensures RunAgrees(env, EMPTY_STORE, ops) <==> RunJoins(env, EMPTY_STORE, ops)
  {
    EmptyStoreFits();
    AtomicAgreementHolds(env, EMPTY_STORE, ops);
  }

  /** A resolution that admits, admits into a slot nobody holds. */
  predicate AdmitsIntoFreeSlot(s: Store, op: Op) {
    op.ResolveOp? && Admits(op.verdict) ==>
      && op.newKey.Some?
      && (op.contest in s.contests && s.contests[op.contest].recordId in s.memories ==>
            SlotOccupants(s.memories, op.newKey.value, s.memories[s.contests[op.contest].recordId].record.scope) == {})
  }

  predicate AdmitsOnlyIntoFreeSlots(env: Env, s: Store, ops: seq<Op>)
    decreases |ops|
  {
    ops == []
    || (Receipted(ops[0]) && AdmitsIntoFreeSlot(s, ops[0])
        && AdmitsOnlyIntoFreeSlots(env, Apply(env, s, ops[0]).0, ops[1..]))
  }

  lemma {:induction false} FreeSlotsJoin(env: Env, s: Store, ops: seq<Op>)
    requires AdmitsOnlyIntoFreeSlots(env, s, ops)
    ensures RunJoins(env, s, ops) && forall op | op in ops :: Receipted(op)
    decreases |ops|
  {
    if ops != [] { FreeSlotsJoin(env, Apply(env, s, ops[0]).0, ops[1..]); }
  }

  /** For every ruleset with slot collision, in every atomic run of writes, set-asides, successor
      admissions and splits into free slots, all occupants of a slot have the same digest. */
  lemma OneCurrentAnswer(env: Env, ops: seq<Op>, key: Key, scope: Scope)
    requires SlotCollision in env.enabled && AdmitsOnlyIntoFreeSlots(env, EMPTY_STORE, ops)
    ensures SlotAgrees(env, RunOps(env, EMPTY_STORE, ops).memories, key, scope)
  {
    EmptyStoreFits();
    FreeSlotsJoin(env, EMPTY_STORE, ops);
    AtomicAgreementHolds(env, EMPTY_STORE, ops);
  }

  /** A whole `resolve_contest` call other than a plain admission satisfies that condition. */
  lemma ResolveCallAdmitsIntoFreeSlot(env: Env, s: Store, ctx: Context, c: ContestId, r: Resolution, now: Time)
    requires r.verdict != Admit
    ensures AdmitsOnlyIntoFreeSlots(env, s, ResolveOps(env, s, ctx, c, r, now))
  {
    var ops := ResolveOps(env, s, ctx, c, r, now);
    ResolveAsOps(env, s, ctx, c, r, now);
    if |ops| == 2 {
      assert AdmitsOnlyIntoFreeSlots(env, Apply(env, Apply(env, s, ops[0]).0, ops[1]).0, ops[1..][1..]);
      assert AdmitsOnlyIntoFreeSlots(env, Apply(env, s, ops[0]).0, ops[1..]);
    } else if |ops| == 1 {
      assert AdmitsOnlyIntoFreeSlots(env, Apply(env, s, ops[0]).0, ops[1..]);
    }
  }
}
