/** Runs in which no other write falls between the reads of a write and its commit. */
module AtomicRuns {
  // Resolutions are taken transaction by transaction: `ResolveAsOps` shows that a whole
  // `resolve_contest` call is such a run of at most two.

  import opened Common
  import opened Contest
  import opened Ledger
  import opened LedgerInvariants
  import I = Interleavings

  datatype Op =
    | RememberOp(write: Write, newContest: ContestId, now: Time)
    | SupersedeOp(ctx: Context, oldId: Id, request: SupersedeRequest, newContest: ContestId, now: Time)
    | ResolveOp(contest: ContestId, verdict: Verdict, newKey: Option<Key>, receipt: Receipt)

  function Apply(env: Env, s: Store, op: Op): (Store, Result) {
    match op
    case RememberOp(w, c, now) => Remember(env, s, w, c, now)
    case SupersedeOp(ctx, oldId, r, c, now) => Supersede(env, s, ctx, oldId, r, c, now)
    case ResolveOp(c, v, newKey, receipt) =>
      var (s', outcome) := CommitResolution(s, c, v, newKey, receipt);
      (s', if outcome.Resolved? then Verdicted(None) else Refused(ContestClosed))
  }

  function RunOps(env: Env, s: Store, ops: seq<Op>): Store
    decreases |ops|
  {
    if ops == [] then s else RunOps(env, Apply(env, s, ops[0]).0, ops[1..])
  }

  predicate Receipted(op: Op) { op.ResolveOp? ==> op.receipt.verdict.Some? }

  /** The write an op performs once its own checks have passed. */
  function WriteOf(env: Env, s: Store, op: Op): Option<Write> {
    match op
    case RememberOp(w, _, _) => if w.request.id in s.memories then None else Some(w)
    case SupersedeOp(ctx, oldId, r, _, _) =>
      if oldId !in s.memories || !CanAccess(ctx, s.memories[oldId].record.scope)
         || DirectSuccessors(s.memories, ctx, oldId) != {} || r.id in s.memories
      then None
      else Some(Write(SuccessorRequest(oldId, s.memories[oldId].record, r), ctx, true))
    case ResolveOp(_, _, _, _) => None
  }

  /** Reads and commit of one write on the same state. */
  function WriteNow(env: Env, s: Store, w: Write, newContest: ContestId, now: Time): Store {
    var d := Judge(env, s.memories, w);
    var into := Coalesce(s.contests, w, d);
    CommitWrite(env, s, w, d, into, if into.Some? then s.contests[into.value].occurrences else 0, newContest, now).0
  }

  // ---- an atomic run is an interleaving ----

  /** The steps of one call, taken by one caller with nobody in between. */
  function OpSteps(op: Op): seq<I.Action> {
    match op
    case RememberOp(w, c, now) =>
      [I.BeginRemember(0, w), I.Look(0, now), I.ReadSlot(0), I.ReadContest(0), I.Commit(0, c)]
    case SupersedeOp(ctx, oldId, r, c, now) =>
      [I.BeginSupersede(0, ctx, oldId, r), I.ReadLineage(0), I.Look(0, now), I.ReadSlot(0), I.ReadContest(0),
       I.Commit(0, c)]
    case ResolveOp(c, v, newKey, receipt) => [I.ResolveCommit(c, v, newKey, receipt)]
  }

  function StepsOf(ops: seq<Op>): seq<I.Action> {
    if ops == [] then [] else OpSteps(ops[0]) + StepsOf(ops[1..])
  }

  function Alone(s: Store): I.World { I.World(s, map[]) }

  lemma {:induction false} RunAppend(env: Env, world: I.World, a: seq<I.Action>, b: seq<I.Action>)
    ensures I.Run(env, world, a + b) == I.Run(env, I.Run(env, world, a), b)
    decreases |a|
  {
    if a == [] {
      assert a + b == b;
    } else {
      assert (a + b)[1..] == a[1..] + b;
      RunAppend(env, I.Step(env, world, a[0]), a[1..], b);
    }
  }

  /** From the look to the commit. */
  lemma WriteSteps(env: Env, s: Store, w: Write, newContest: ContestId, now: Time)
    ensures var world := I.World(s, map[0 := I.Starting(w)]);
            I.Run(env, world, [I.Look(0, now), I.ReadSlot(0), I.ReadContest(0), I.Commit(0, newContest)])
            == Alone(Remember(env, s, w, newContest, now).0)
  {
    var world := I.World(s, map[0 := I.Starting(w)]);
    var looked := I.Step(env, world, I.Look(0, now));
    var judged := I.Step(env, looked, I.ReadSlot(0));
    var ready := I.Step(env, judged, I.ReadContest(0));
    var done := I.Step(env, ready, I.Commit(0, newContest));
    assert done == Alone(Remember(env, s, w, newContest, now).0);
    UnrollFour(env, world, I.Look(0, now), I.ReadSlot(0), I.ReadContest(0), I.Commit(0, newContest));
  }

  lemma UnrollFour(env: Env, world: I.World, a: I.Action, b: I.Action, c: I.Action, d: I.Action)
    ensures I.Run(env, world, [a, b, c, d]) == I.Step(env, I.Step(env, I.Step(env, I.Step(env, world, a), b), c), d)
  {
    UnrollOne(env, world, a, [b, c, d]);
    UnrollOne(env, I.Step(env, world, a), b, [c, d]);
    UnrollOne(env, I.Step(env, I.Step(env, world, a), b), c, [d]);
    UnrollOne(env, I.Step(env, I.Step(env, I.Step(env, world, a), b), c), d, []);
    assert [a, b, c, d] == [a] + [b, c, d] && [b, c, d] == [b] + [c, d] && [c, d] == [c] + [d] && [d] == [d] + [];
  }

  lemma UnrollOne(env: Env, world: I.World, a: I.Action, rest: seq<I.Action>)
    ensures I.Run(env, world, [a] + rest) == I.Run(env, I.Step(env, world, a), rest)
  {
    assert ([a] + rest)[1..] == rest;
  }

  /** Without a caller under way these steps do nothing. */
  lemma NobodyWrites(env: Env, s: Store, newContest: ContestId, now: Time)
    ensures I.Run(env, Alone(s), [I.Look(0, now), I.ReadSlot(0), I.ReadContest(0), I.Commit(0, newContest)]) == Alone(s)
  {
    UnrollFour(env, Alone(s), I.Look(0, now), I.ReadSlot(0), I.ReadContest(0), I.Commit(0, newContest));
  }

  lemma OpInterleaves(env: Env, s: Store, op: Op)
    ensures I.Run(env, Alone(s), OpSteps(op)) == Alone(Apply(env, s, op).0)
  {
    match op
    case RememberOp(w, c, now) =>
      var tail := [I.Look(0, now), I.ReadSlot(0), I.ReadContest(0), I.Commit(0, c)];
      assert OpSteps(op) == [I.BeginRemember(0, w)] + tail;
      UnrollOne(env, Alone(s), I.BeginRemember(0, w), tail);
      WriteSteps(env, s, w, c, now);
    case SupersedeOp(ctx, oldId, r, c, now) => SupersedeInterleaves(env, s, ctx, oldId, r, c, now);
    case ResolveOp(c, v, newKey, receipt) =>
      assert OpSteps(op) == [I.ResolveCommit(c, v, newKey, receipt)] + [];
      UnrollOne(env, Alone(s), I.ResolveCommit(c, v, newKey, receipt), []);
  }

  lemma SupersedeInterleaves(env: Env, s: Store, ctx: Context, oldId: Id, r: SupersedeRequest, c: ContestId, now: Time)
    ensures I.Run(env, Alone(s), OpSteps(SupersedeOp(ctx, oldId, r, c, now)))
            == Alone(Supersede(env, s, ctx, oldId, r, c, now).0)
  {
    var begin := I.BeginSupersede(0, ctx, oldId, r);
    var tail := [I.Look(0, now), I.ReadSlot(0), I.ReadContest(0), I.Commit(0, c)];
    assert OpSteps(SupersedeOp(ctx, oldId, r, c, now)) == [begin] + ([I.ReadLineage(0)] + tail);
    UnrollOne(env, Alone(s), begin, [I.ReadLineage(0)] + tail);
    var begun := I.Step(env, Alone(s), begin);
    UnrollOne(env, begun, I.ReadLineage(0), tail);
    if oldId in s.memories && CanAccess(ctx, s.memories[oldId].record.scope)
        && DirectSuccessors(s.memories, ctx, oldId) == {} {
      var w := Write(SuccessorRequest(oldId, s.memories[oldId].record, r), ctx, true);
      assert I.Step(env, begun, I.ReadLineage(0)) == I.World(s, map[0 := I.Starting(w)]);
      WriteSteps(env, s, w, c, now);
    } else {
      assert I.Step(env, begun, I.ReadLineage(0)) == Alone(s);
      NobodyWrites(env, s, c, now);
    }
  }

  /** Whatever holds of every interleaving holds of every atomic run. */
  lemma {:induction false} AtomicRunsInterleave(env: Env, s: Store, ops: seq<Op>)
    ensures I.Run(env, Alone(s), StepsOf(ops)) == Alone(RunOps(env, s, ops))
    decreases |ops|
  {
    if ops != [] {
      RunAppend(env, Alone(s), OpSteps(ops[0]), StepsOf(ops[1..]));
      OpInterleaves(env, s, ops[0]);
      AtomicRunsInterleave(env, Apply(env, s, ops[0]).0, ops[1..]);
    }
  }

  // ---- a whole resolve call is a run of ops ----

  function ResolveOps(env: Env, s: Store, ctx: Context, c: ContestId, r: Resolution, now: Time): seq<Op> {
    if c !in s.contests || s.contests[c].recordId !in s.memories then []
    else
      var e := s.contests[c];
      var contested := s.memories[e.recordId].record;
      var receipt := ResolutionReceipt(env, c, e, contested, r.resolvedBy, r.verdict, r.newKey);
      if !CanAccess(ctx, contested.scope) || (r.verdict == AdmitSuperseding && r.incumbent.None?)
         || (r.verdict == Split && r.newKey.None?)
         || (r.verdict == Split && SlotOccupants(s.memories, r.newKey.value, contested.scope) != {})
      then []
      else if r.verdict == AdmitSuperseding then
        var first := SupersedeOp(ctx, r.incumbent.value, ContestedContent(contested, r), r.successorContest, now);
        if Apply(env, s, first).1.Refused? then [first]
        else [first, ResolveOp(c, r.verdict, r.newKey, receipt)]
      else [ResolveOp(c, r.verdict, r.newKey, receipt)]
  }

  lemma ResolveAsOps(env: Env, s: Store, ctx: Context, c: ContestId, r: Resolution, now: Time)
    ensures Resolve(env, s, ctx, c, r, now).0 == RunOps(env, s, ResolveOps(env, s, ctx, c, r, now))
    ensures forall op | op in ResolveOps(env, s, ctx, c, r, now) :: Receipted(op)
  {
    var ops := ResolveOps(env, s, ctx, c, r, now);
    if |ops| == 1 {
      assert RunOps(env, s, ops) == RunOps(env, Apply(env, s, ops[0]).0, []);
    } else if |ops| == 2 {
      var s1 := Apply(env, s, ops[0]).0;
      assert ops[1..] == [ops[1]];
      assert RunOps(env, s, ops) == RunOps(env, s1, [ops[1]]);
      assert RunOps(env, s1, [ops[1]]) == RunOps(env, Apply(env, s1, ops[1]).0, []);
    }
  }

  lemma OpKeepsHealth(env: Env, s: Store, op: Op)
    requires Receipted(op)
    ensures KeepsHealth(s, Apply(env, s, op).0)
  {
    match op
    case RememberOp(w, c, now) => RememberKeepsHealth(env, s, w, c, now);
    case SupersedeOp(ctx, oldId, r, c, now) => SupersedeKeepsHealth(env, s, ctx, oldId, r, c, now);
    case ResolveOp(c, v, newKey, receipt) => ResolutionKeepsHealth(s, c, v, newKey, receipt);
  }

  lemma {:induction false} RunKeepsHealth(env: Env, s: Store, ops: seq<Op>)
    requires forall op | op in ops :: Receipted(op)
    ensures KeepsHealth(s, RunOps(env, s, ops))
    decreases |ops|
  {
    if ops != [] {
      var next := Apply(env, s, ops[0]).0;
      OpKeepsHealth(env, s, ops[0]);
      RunKeepsHealth(env, next, ops[1..]);
      HealthTransitive(s, next, RunOps(env, s, ops));
    }
  }

  lemma ResolveKeepsHealth(env: Env, s: Store, ctx: Context, c: ContestId, r: Resolution, now: Time)
    ensures KeepsHealth(s, Resolve(env, s, ctx, c, r, now).0)
  {
    ResolveAsOps(env, s, ctx, c, r, now);
    RunKeepsHealth(env, s, ResolveOps(env, s, ctx, c, r, now));
  }

  /** The successor's write as `supersede` builds it. */
  function SuccessorWrite(s: Store, ctx: Context, oldId: Id, r: SupersedeRequest): Write
    requires oldId in s.memories
  {
    Write(SuccessorRequest(oldId, s.memories[oldId].record, r), ctx, true)
  }

  /** What a caller can check before `supersede`: the record exists, is accessible and is a head, the
      successor's id is fresh, and so is the id of the entry it would open if the gate contests it. */
  predicate CanSupersede(env: Env, s: Store, ctx: Context, oldId: Id, r: SupersedeRequest, newContest: ContestId) {
    && oldId in s.memories && CanAccess(ctx, s.memories[oldId].record.scope)
    && DirectSuccessors(s.memories, ctx, oldId) == {} && r.id !in s.memories
    && var w := SuccessorWrite(s, ctx, oldId, r);
       var d := Judge(env, s.memories, w);
       d.disposition == Contested && Coalesce(s.contests, w, d).None? ==> newContest !in s.contests
  }

  lemma SupersedeStoresIff(env: Env, s: Store, ctx: Context, oldId: Id, r: SupersedeRequest, newContest: ContestId,
                           now: Time)
    requires Sound(s)
    ensures var (s', res) := Supersede(env, s, ctx, oldId, r, newContest, now);
            && (res.Stored? <==> CanSupersede(env, s, ctx, oldId, r, newContest))
            && (res.Stored? <==> s' != s) && (res.Stored? || res.Refused?)
            && forall c | c in s.contests :: c in s'.contests && s'.contests[c].resolution == s.contests[c].resolution
  {
    forall c | c in s.contests ensures s.contests[c].recordId in s.memories { assert EntrySound(s, s.contests[c]); }
    if CanSupersede(env, s, ctx, oldId, r, newContest) {
      assert r.id in Supersede(env, s, ctx, oldId, r, newContest, now).0.memories;
    }
  }

  /** A refused resolution leaves the store as it was, except in one case: the verdict is to admit as a
      successor, the entry is already closed, and the successor can be written. It is, and only then is the
      entry found to be closed. */
  lemma RefusedResolutionChangesNothingUnless(env: Env, s: Store, ctx: Context, c: ContestId, r: Resolution, now: Time)
    requires Sound(s) && Resolve(env, s, ctx, c, r, now).1.Refused?
    ensures Resolve(env, s, ctx, c, r, now).0 != s
            <==> && r.verdict == AdmitSuperseding && r.incumbent.Some?
                 && c in s.contests && s.contests[c].resolution.Some?
                 && var contested := s.memories[s.contests[c].recordId].record;
                    && CanAccess(ctx, contested.scope)
                    && CanSupersede(env, s, ctx, r.incumbent.value, ContestedContent(contested, r), r.successorContest)
  {
    if c in s.contests {
      assert EntrySound(s, s.contests[c]);
      if r.verdict == AdmitSuperseding && r.incumbent.Some? {
        var contested := s.memories[s.contests[c].recordId].record;
        SupersedeStoresIff(env, s, ctx, r.incumbent.value, ContestedContent(contested, r), r.successorContest, now);
      }
    }
  }

  // ---- conservation ----

  ghost predicate OneOpenPerAuthor(s: Store) {
    forall c, d | c in s.contests && d in s.contests && s.contests[c].resolution.None? && s.contests[d].resolution.None?
                  && SameSlot(s.contests[c], s.contests[d]) :: c == d
  }

  predicate SameSlot(e: Entry, f: Entry) {
    e.claimKey == f.claimKey && e.scope == f.scope && e.openedBy == f.openedBy
  }

  predicate Matches(e: Entry, r: Record) {
    Some(e.claimKey) == r.claimKey && e.scope == r.scope && e.openedBy == r.author
  }

  predicate Entryless(s: Store, id: Id) {
    id in s.memories && s.memories[id].contested && !HasOwnEntry(s, id)
  }

  /** Some contested record has no entry of its own, and `e` has its slot and author. */
  predicate StandsForOthers(s: Store, e: Entry) {
    exists id | id in s.memories :: Entryless(s, id) && Matches(e, s.memories[id].record)
  }

  /** An open entry counting more than one write has another contested record standing behind it. */
  ghost predicate CountsWitnessed(s: Store) {
    forall c | c in s.contests && s.contests[c].resolution.None? && s.contests[c].occurrences > 1 ::
      StandsForOthers(s, s.contests[c])
  }

  ghost predicate AtomicInv(s: Store) {
    && Sound(s) && ReceiptsBalance(s)
    && Sum(Occurrences(s)) == ContestedWrites(s.receipts)
    && OneOpenPerAuthor(s) && CountsWitnessed(s)
  }

  /** What `WriteNow` does to the entries. */
  lemma WriteNowEntries(env: Env, s: Store, w: Write, newContest: ContestId, now: Time)
    requires Sound(s) && w.request.id !in s.memories
    ensures var s' := WriteNow(env, s, w, newContest, now);
            var d := Judge(env, s.memories, w);
            var into := Coalesce(s.contests, w, d);
            || s' == s
            || (&& s'.memories == s.memories[w.request.id := Row(BuildRecord(w, d, now), d.disposition == Contested)]
                && if d.disposition == Admitted then s'.contests == s.contests
                   else if into.Some? then
                     var e := s.contests[into.value];
                     s'.contests == s.contests[into.value := e.(occurrences := e.occurrences + 1)]
                   else
                     && newContest !in s.contests && w.request.claimKey.Some?
                     && newContest in s'.contests
                     && s'.contests == s.contests[newContest := s'.contests[newContest]]
                     && var e := s'.contests[newContest];
                        e.recordId == w.request.id && e.occurrences == 1 && e.resolution.None?
                        && Against(e, w.request.claimKey.value, w.Scope(), w.ctx.agent))
  {}

  lemma WriteNowKeepsOneOpen(env: Env, s: Store, w: Write, newContest: ContestId, now: Time)
    requires Sound(s) && w.request.id !in s.memories && OneOpenPerAuthor(s)
    ensures OneOpenPerAuthor(WriteNow(env, s, w, newContest, now))
  {
    WriteNowEntries(env, s, w, newContest, now);
    var s' := WriteNow(env, s, w, newContest, now);
    var d := Judge(env, s.memories, w);
    if d.disposition == Contested && Coalesce(s.contests, w, d).None? {
      forall k | k in s.contests && s.contests[k].resolution.None?
        ensures !Against(s.contests[k], w.request.claimKey.value, w.Scope(), w.ctx.agent)
      {
        assert k !in OpenContests(s.contests, w.request.claimKey.value, w.Scope(), w.ctx.agent);
      }
    }
    forall c, d | c in s'.contests && d in s'.contests && s'.contests[c].resolution.None?
        && s'.contests[d].resolution.None?
                  && SameSlot(s'.contests[c], s'.contests[d])
      ensures c == d
    {
      if c in s.contests && d in s.contests {
        assert SameSlot(s.contests[c], s.contests[d]);
      }
    }
  }

  lemma WriteNowKeepsWitnesses(env: Env, s: Store, w: Write, newContest: ContestId, now: Time)
    requires Sound(s) && w.request.id !in s.memories && CountsWitnessed(s)
    ensures CountsWitnessed(WriteNow(env, s, w, newContest, now))
  {
    WriteNowEntries(env, s, w, newContest, now);
    var s' := WriteNow(env, s, w, newContest, now);
    var into := Coalesce(s.contests, w, Judge(env, s.memories, w));
    forall c | c in s'.contests && s'.contests[c].resolution.None? && s'.contests[c].occurrences > 1
      ensures StandsForOthers(s', s'.contests[c])
    {
      if into == Some(c) && s' != s {
        assert Entryless(s', w.request.id) by {
          assert forall k | k in s.contests :: EntrySound(s, s.contests[k]);
        }
      } else {
        assert StandsForOthers(s, s.contests[c]);
        var id :| id in s.memories && Entryless(s, id) && Matches(s.contests[c], s.memories[id].record);
        assert Entryless(s', id);
      }
    }
  }

  lemma WriteNowKeepsInv(env: Env, s: Store, w: Write, newContest: ContestId, now: Time)
    requires AtomicInv(s) && w.request.id !in s.memories
    ensures AtomicInv(WriteNow(env, s, w, newContest, now))
  {
    var d := Judge(env, s.memories, w);
    var into := Coalesce(s.contests, w, d);
    var seen := if into.Some? then s.contests[into.value].occurrences else 0;
    WriteKeepsSound(env, s, w, d, into, seen, newContest, now);
    WriteKeepsBalance(env, s, w, d, into, seen, newContest, now);
    WriteCountsOnce(env, s, w, d, into, seen, newContest, now);
    WriteNowKeepsOneOpen(env, s, w, newContest, now);
    WriteNowKeepsWitnesses(env, s, w, newContest, now);
  }

  lemma ResolutionKeepsOneOpen(s: Store, c: ContestId, v: Verdict, newKey: Option<Key>, receipt: Receipt)
    requires OneOpenPerAuthor(s)
    ensures OneOpenPerAuthor(CommitResolution(s, c, v, newKey, receipt).0)
  {
    var s' := CommitResolution(s, c, v, newKey, receipt).0;
    forall k, l | k in s'.contests && l in s'.contests && s'.contests[k].resolution.None?
        && s'.contests[l].resolution.None?
                  && SameSlot(s'.contests[k], s'.contests[l])
      ensures k == l
    {
      assert SameSlot(s.contests[k], s.contests[l]);
    }
  }

  lemma ResolutionKeepsWitnesses(s: Store, c: ContestId, v: Verdict, newKey: Option<Key>, receipt: Receipt)
    requires CountsWitnessed(s)
    ensures CountsWitnessed(CommitResolution(s, c, v, newKey, receipt).0)
  {
    var s' := CommitResolution(s, c, v, newKey, receipt).0;
    forall k | k in s'.contests && s'.contests[k].resolution.None? && s'.contests[k].occurrences > 1
      ensures StandsForOthers(s', s'.contests[k])
    {
      assert StandsForOthers(s, s.contests[k]);
      var id :| id in s.memories && Entryless(s, id) && Matches(s.contests[k], s.memories[id].record);
      EntrylessStays(s, c, v, newKey, receipt, id);
    }
  }

  lemma ResolutionKeepsInv(s: Store, c: ContestId, v: Verdict, newKey: Option<Key>, receipt: Receipt)
    requires AtomicInv(s) && receipt.verdict.Some?
    ensures AtomicInv(CommitResolution(s, c, v, newKey, receipt).0)
  {
    ResolutionKeepsSound(s, c, v, newKey, receipt);
    ResolutionKeepsBalance(s, c, v, newKey, receipt);
    ResolutionKeepsOneOpen(s, c, v, newKey, receipt);
    ResolutionKeepsWitnesses(s, c, v, newKey, receipt);
  }

  /** A record without an entry of its own is out of reach of every resolution. */
  lemma EntrylessStays(s: Store, c: ContestId, v: Verdict, newKey: Option<Key>, receipt: Receipt, id: Id)
    requires Entryless(s, id)
    ensures var s' := CommitResolution(s, c, v, newKey, receipt).0;
            Entryless(s', id) && s'.memories[id] == s.memories[id]
  {}

  lemma ApplyKeepsInv(env: Env, s: Store, op: Op)
    requires AtomicInv(s) && Receipted(op)
    ensures AtomicInv(Apply(env, s, op).0)
  {
    if op.ResolveOp? {
      ResolutionKeepsInv(s, op.contest, op.verdict, op.newKey, op.receipt);
    } else if WriteOf(env, s, op).Some? {
      WriteNowKeepsInv(env, s, WriteOf(env, s, op).value, op.newContest, op.now);
    }
  }

  lemma {:induction false} RunKeepsInv(env: Env, s: Store, ops: seq<Op>)
    requires AtomicInv(s) && forall op | op in ops :: Receipted(op)
    ensures AtomicInv(RunOps(env, s, ops))
    decreases |ops|
  {
    if ops != [] {
      ApplyKeepsInv(env, s, ops[0]);
      RunKeepsInv(env, Apply(env, s, ops[0]).0, ops[1..]);
    }
  }

  lemma EmptyStoreFits()
    ensures AtomicInv(EMPTY_STORE)
  {
    assert Keyed(EMPTY_STORE) == {} && ResolvedEntries(EMPTY_STORE) == {};
    assert Occurrences(EMPTY_STORE) == map[];
  }

  /** In every atomic run, whatever the verdicts and moved keys, the entries count exactly the
      writes stored as contested, each slot and author has at most one open entry, and receipts
      number the claim-keyed records plus the resolved entries. */
  lemma ContestedWritesAreConserved(env: Env, ops: seq<Op>)
    requires forall op | op in ops :: Receipted(op)
    ensures var s := RunOps(env, EMPTY_STORE, ops);
            && Sum(Occurrences(s)) == ContestedWrites(s.receipts)
            && OneOpenPerAuthor(s)
            && |s.receipts| == |Keyed(s)| + |ResolvedEntries(s)|
  {
    EmptyStoreFits();
    RunKeepsInv(env, EMPTY_STORE, ops);
  }

  // ---- moving an entry to another key ----

  /** Some entry besides `c` was filed by the same author against the same slot. */
  predicate HasSibling(s: Store, c: ContestId)
    requires c in s.contests
  {
    exists d | d in s.contests :: d != c && SameSlot(s.contests[d], s.contests[c])
  }

  predicate KeepsKey(s: Store, c: ContestId, newKey: Option<Key>)
    requires c in s.contests
  {
    newKey.None? || newKey.value == s.contests[c].claimKey
  }

  /** What an operator can read off the tables before re-filing entry `c`. */
  predicate SafeToMove(s: Store, c: ContestId, newKey: Option<Key>)
    requires c in s.contests
  {
    KeepsKey(s, c, newKey) || HasSibling(s, c) || !StandsForOthers(s, s.contests[c])
  }

  lemma EntrylessBefore(s: Store, s': Store, id: Id)
    requires Entryless(s', id) && id in s.memories && s.memories[id].contested
    requires forall k | k in s.contests :: k in s'.contests && s'.contests[k].recordId == s.contests[k].recordId
    ensures Entryless(s, id)
  {
    forall k | k in s.contests ensures s.contests[k].recordId != id {
      assert k in s'.contests;
    }
  }

  /** A safe resolution leaves some entry for every contested record that has none of its own. */
  lemma SafeMoveCovers(s: Store, c: ContestId, v: Verdict, newKey: Option<Key>, receipt: Receipt, id: Id)
    requires AllCovered(s) && c in s.contests && SafeToMove(s, c, newKey)
    requires id in s.memories && Entryless(s, id)
    ensures var s' := CommitResolution(s, c, v, newKey, receipt).0; id in s'.memories && Covered(s', id)
  {
    var s' := CommitResolution(s, c, v, newKey, receipt).0;
    EntrylessStays(s, c, v, newKey, receipt, id);
    var r := s.memories[id].record;
    assert Covered(s, id);
    var d :| d in s.contests && Matches(s.contests[d], r);
    assert StandsForOthers(s, s.contests[d]);
    if d == c && !KeepsKey(s, c, newKey) {
      d :| d in s.contests && d != c && SameSlot(s.contests[d], s.contests[c]);
    }
    assert d in s'.contests && Matches(s'.contests[d], r);
  }

  lemma SafeMoveKeepsCovered(s: Store, c: ContestId, v: Verdict, newKey: Option<Key>, receipt: Receipt)
    requires Sound(s) && AllCovered(s) && c in s.contests && SafeToMove(s, c, newKey)
    ensures AllCovered(CommitResolution(s, c, v, newKey, receipt).0)
  {
    var s' := CommitResolution(s, c, v, newKey, receipt).0;
    forall id | id in s'.memories && s'.memories[id].contested ensures Covered(s', id) {
      if !HasOwnEntry(s', id) {
        assert id in s.memories && s.memories[id].contested;
        EntrylessBefore(s, s', id);
        SafeMoveCovers(s, c, v, newKey, receipt, id);
      }
    }
  }

  lemma UnsafeMoveUncovers(s: Store, c: ContestId, v: Verdict, newKey: Option<Key>, receipt: Receipt)
    requires Sound(s) && c in s.contests && s.contests[c].resolution.None? && !SafeToMove(s, c, newKey)
    ensures !AllCovered(CommitResolution(s, c, v, newKey, receipt).0)
  {
    var s' := CommitResolution(s, c, v, newKey, receipt).0;
    assert EntrySound(s, s.contests[c]);
    var id :| id in s.memories && Entryless(s, id) && Matches(s.contests[c], s.memories[id].record);
    EntrylessStays(s, c, v, newKey, receipt, id);
    forall d | d in s'.contests ensures !Matches(s'.contests[d], s.memories[id].record) {
      assert d != c ==> !SameSlot(s.contests[d], s.contests[c]);
    }
    assert !Covered(s', id);
  }

  /** In every store without drift: resolving the open entry `c` keeps the drift report empty if and only
      if `c` keeps its key, has a sibling entry of its slot and author, or stands for no contested record
      but its own. */
  lemma MoveKeepsDriftEmptyIff(s: Store, c: ContestId, v: Verdict, newKey: Option<Key>, receipt: Receipt)
    requires Sound(s) && Drift(s) == {}
    requires c in s.contests && s.contests[c].resolution.None?
    ensures Drift(CommitResolution(s, c, v, newKey, receipt).0) == {} <==> SafeToMove(s, c, newKey)
  {
    var s' := CommitResolution(s, c, v, newKey, receipt).0;
    SoundAndCoveredMeansNoDrift(s);
    ResolutionKeepsSound(s, c, v, newKey, receipt);
    SoundAndCoveredMeansNoDrift(s');
    if SafeToMove(s, c, newKey) {
      SafeMoveKeepsCovered(s, c, v, newKey, receipt);
    } else {
      UnsafeMoveUncovers(s, c, v, newKey, receipt);
    }
  }

  // ---- drift over whole runs ----

  predicate SafeOp(s: Store, op: Op) {
    op.ResolveOp? && op.contest in s.contests && s.contests[op.contest].resolution.None? ==>
      SafeToMove(s, op.contest, op.newKey)
  }

  /** Every resolution along the run was safe when it committed. */
  predicate SafeRun(env: Env, s: Store, ops: seq<Op>)
    decreases |ops|
  {
    ops == [] || (SafeOp(s, ops[0]) && SafeRun(env, Apply(env, s, ops[0]).0, ops[1..]))
  }

  /** The drift report is empty here and after each op of the run. */
  predicate DriftFree(env: Env, s: Store, ops: seq<Op>)
    decreases |ops|
  {
    Drift(s) == {} && (ops == [] || DriftFree(env, Apply(env, s, ops[0]).0, ops[1..]))
  }

  lemma WriteNowKeepsCovered(env: Env, s: Store, w: Write, newContest: ContestId, now: Time)
    requires Sound(s) && w.request.id !in s.memories && AllCovered(s)
    ensures AllCovered(WriteNow(env, s, w, newContest, now))
  {
    var d := Judge(env, s.memories, w);
    var into := Coalesce(s.contests, w, d);
    WriteKeepsCoveredIff(env, s, w, d, into, if into.Some? then s.contests[into.value].occurrences else 0, newContest,
                         now);
    CoalescedIsCovered(s, w, d, into, now);
  }

  /** One op keeps an empty report empty exactly when it is safe. */
  lemma OpKeepsDriftEmptyIff(env: Env, s: Store, op: Op)
    requires AtomicInv(s) && Receipted(op) && Drift(s) == {}
    ensures Drift(Apply(env, s, op).0) == {} <==> SafeOp(s, op)
  {
    ApplyKeepsInv(env, s, op);
    SoundAndCoveredMeansNoDrift(s);
    SoundAndCoveredMeansNoDrift(Apply(env, s, op).0);
    if op.ResolveOp? {
      if op.contest in s.contests && s.contests[op.contest].resolution.None? {
        MoveKeepsDriftEmptyIff(s, op.contest, op.verdict, op.newKey, op.receipt);
      }
    } else if WriteOf(env, s, op).Some? {
      WriteNowKeepsCovered(env, s, WriteOf(env, s, op).value, op.newContest, op.now);
    }
  }

  lemma {:induction false} DriftFreeIff(env: Env, s: Store, ops: seq<Op>)
    requires AtomicInv(s) && Drift(s) == {} && forall op | op in ops :: Receipted(op)
    ensures DriftFree(env, s, ops) <==> SafeRun(env, s, ops)
    decreases |ops|
  {
    if ops != [] {
      OpKeepsDriftEmptyIff(env, s, ops[0]);
      ApplyKeepsInv(env, s, ops[0]);
      var next := Apply(env, s, ops[0]).0;
      if Drift(next) == {} { DriftFreeIff(env, next, ops[1..]); }
    }
  }

  /** The drift report stays empty throughout an atomic run, whatever its verdicts and moved keys, if and
      only if every one of its resolutions was safe. */
  lemma DriftUnderMoves(env: Env, ops: seq<Op>)
    requires forall op | op in ops :: Receipted(op)
    ensures DriftFree(env, EMPTY_STORE, ops) <==> SafeRun(env, EMPTY_STORE, ops)
  {
    EmptyStoreFits();
    assert Drift(EMPTY_STORE) == {};
    DriftFreeIff(env, EMPTY_STORE, ops);
  }

  // ---- what the occurrence count tells ----

  ghost predicate CoversEntryless(s: Store, c: ContestId, id: Id)
    requires c in s.contests && id in s.memories
  {
    Matches(s.contests[c], s.memories[id].record) && (s.contests[c].resolution.Some? || s.contests[c].occurrences > 1)
  }

  /** Every contested record without its own entry has one that is closed or counts it. */
  ghost predicate WitnessesCovered(s: Store) {
    forall id | Entryless(s, id) :: exists c :: c in s.contests && CoversEntryless(s, c, id)
  }

  /** The record a write leaves without an entry of its own is counted by the entry it went into. */
  lemma NewWitnessCovered(env: Env, s: Store, w: Write, newContest: ContestId, now: Time)
    requires Sound(s) && w.request.id !in s.memories
    requires Entryless(WriteNow(env, s, w, newContest, now), w.request.id)
    ensures var s' := WriteNow(env, s, w, newContest, now);
            exists c :: c in s'.contests && CoversEntryless(s', c, w.request.id)
  {
    WriteNowEntries(env, s, w, newContest, now);
    var s' := WriteNow(env, s, w, newContest, now);
    var into := Coalesce(s.contests, w, Judge(env, s.memories, w));
    assert into.Some?;
    assert EntrySound(s, s.contests[into.value]);
    assert CoversEntryless(s', into.value, w.request.id);
  }

  lemma OldWitnessCovered(s: Store, s': Store, id: Id)
    requires WitnessesCovered(s) && id in s.memories && id in s'.memories && s'.memories[id] == s.memories[id]
        && Entryless(s', id)
    requires forall k | k in s.contests ::
        k in s'.contests && s'.contests[k].(occurrences := 0) == s.contests[k].(occurrences := 0)
    requires forall k | k in s.contests :: s.contests[k].occurrences <= s'.contests[k].occurrences
    ensures exists c :: c in s'.contests && CoversEntryless(s', c, id)
  {
    EntrylessBefore(s, s', id);
    var c :| c in s.contests && CoversEntryless(s, c, id);
    assert c in s'.contests && CoversEntryless(s', c, id);
  }

  lemma WriteNowKeepsWitnessesCovered(env: Env, s: Store, w: Write, newContest: ContestId, now: Time)
    requires Sound(s) && w.request.id !in s.memories && WitnessesCovered(s)
    ensures WitnessesCovered(WriteNow(env, s, w, newContest, now))
  {
    WriteNowEntries(env, s, w, newContest, now);
    var s' := WriteNow(env, s, w, newContest, now);
    forall id | Entryless(s', id) ensures exists c :: c in s'.contests && CoversEntryless(s', c, id) {
      if id in s.memories {
        OldWitnessCovered(s, s', id);
      } else {
        NewWitnessCovered(env, s, w, newContest, now);
      }
    }
  }

  lemma SafeResolutionCovers(s: Store, c: ContestId, v: Verdict, newKey: Option<Key>, receipt: Receipt, id: Id)
      returns (d: ContestId)
    requires OneOpenPerAuthor(s) && Entryless(s, id)
    requires exists k :: k in s.contests && CoversEntryless(s, k, id)
    requires c in s.contests && s.contests[c].resolution.None? ==> SafeToMove(s, c, newKey)
    ensures var s' := CommitResolution(s, c, v, newKey, receipt).0;
            id in s'.memories && d in s'.contests && CoversEntryless(s', d, id)
  {
    EntrylessStays(s, c, v, newKey, receipt, id);
    d :| d in s.contests && CoversEntryless(s, d, id);
    if d == c && s.contests[c].resolution.None? && !KeepsKey(s, c, newKey) {
      d :| d in s.contests && d != c && SameSlot(s.contests[d], s.contests[c]);
      assert s.contests[d].resolution.Some?;
    }
  }

  lemma SafeResolutionKeepsWitnessesCovered(s: Store, c: ContestId, v: Verdict, newKey: Option<Key>, receipt: Receipt)
    requires AtomicInv(s) && WitnessesCovered(s)
    requires c in s.contests && s.contests[c].resolution.None? ==> SafeToMove(s, c, newKey)
    ensures WitnessesCovered(CommitResolution(s, c, v, newKey, receipt).0)
  {
    var s' := CommitResolution(s, c, v, newKey, receipt).0;
    forall id | Entryless(s', id) ensures exists d :: d in s'.contests && CoversEntryless(s', d, id) {
      EntrylessBefore(s, s', id);
      var d := SafeResolutionCovers(s, c, v, newKey, receipt, id);
    }
  }

  lemma {:induction false} SafeRunKeepsWitnessesCovered(env: Env, s: Store, ops: seq<Op>)
    requires AtomicInv(s) && WitnessesCovered(s) && SafeRun(env, s, ops) && forall op | op in ops :: Receipted(op)
    ensures AtomicInv(RunOps(env, s, ops)) && WitnessesCovered(RunOps(env, s, ops))
    decreases |ops|
  {
    if ops != [] {
      var op := ops[0];
      ApplyKeepsInv(env, s, op);
      if op.ResolveOp? {
        SafeResolutionKeepsWitnessesCovered(s, op.contest, op.verdict, op.newKey, op.receipt);
      } else if WriteOf(env, s, op).Some? {
        WriteNowKeepsWitnessesCovered(env, s, WriteOf(env, s, op).value, op.newContest, op.now);
      }
      SafeRunKeepsWitnessesCovered(env, Apply(env, s, op).0, ops[1..]);
    }
  }

  /** After a run without an unsafe move the count decides: an open entry without a sibling stands for
      other records if and only if it counts more than one write. */
  lemma CountTellsAfterSafeRun(env: Env, ops: seq<Op>, c: ContestId)
    requires SafeRun(env, EMPTY_STORE, ops) && forall op | op in ops :: Receipted(op)
    ensures var s := RunOps(env, EMPTY_STORE, ops);
            c in s.contests && s.contests[c].resolution.None? && !HasSibling(s, c) ==>
              (StandsForOthers(s, s.contests[c]) <==> s.contests[c].occurrences > 1)
  {
    EmptyStoreFits();
    SafeRunKeepsWitnessesCovered(env, EMPTY_STORE, ops);
    var s := RunOps(env, EMPTY_STORE, ops);
    if c in s.contests && s.contests[c].resolution.None? && !HasSibling(s, c) {
      assert EntrySound(s, s.contests[c]);
      if s.contests[c].occurrences > 1 {
        assert StandsForOthers(s, s.contests[c]);
      }
      if StandsForOthers(s, s.contests[c]) {
        var id :| id in s.memories && Entryless(s, id) && Matches(s.contests[c], s.memories[id].record);
        var d :| d in s.contests && CoversEntryless(s, d, id);
        assert d != c ==> !SameSlot(s.contests[d], s.contests[c]);
      }
    }
  }
}
