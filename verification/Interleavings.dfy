/** Any number of concurrent callers of the contest ledger. */
module Interleavings {
  // Every read and every transaction of `remember`, `supersede` and `resolve_contest` is its own step, so
  // a caller may commit on a slot, an entry or a predecessor it read arbitrarily long ago.

  import opened Common
  import opened Contest
  import opened Ledger
  import opened LedgerInvariants

  type Pid = nat

  /** How far one caller has come, with everything it has read so far. */
  datatype Writer =
    | ReadPrior(ctx: Context, oldId: Id, prior: Record, supersede: SupersedeRequest)
    | Starting(write: Write)
    | Looked(write: Write, now: Time)
    | Judged(write: Write, now: Time, decision: Decision)
    | Ready(write: Write, now: Time, decision: Decision, into: Option<ContestId>, seen: nat)

  datatype World = World(store: Store, writers: map<Pid, Writer>)

  const EMPTY_WORLD := World(EMPTY_STORE, map[])

  /** A caller may give up at any point, having read but written nothing.
      A resolution commits with whatever receipt its caller built from earlier reads; the scope and
      free-key checks it made before are stale by then and bind nothing here. */
  datatype Action =
    | BeginRemember(p: Pid, write: Write)
    | BeginSupersede(p: Pid, ctx: Context, oldId: Id, supersede: SupersedeRequest)
    | ReadLineage(p: Pid)
    | Look(p: Pid, now: Time)
    | ReadSlot(p: Pid)
    | ReadContest(p: Pid)
    | Commit(p: Pid, newContest: ContestId)
    | Abandon(p: Pid)
    | ResolveCommit(contest: ContestId, verdict: Verdict, newKey: Option<Key>, receipt: Receipt)

  function Put(world: World, p: Pid, writer: Writer): World {
    world.(writers := world.writers[p := writer])
  }

  function Drop(world: World, p: Pid): World {
    world.(writers := world.writers - {p})
  }

  function Step(env: Env, world: World, a: Action): World {
    var s := world.store;
    match a
    case BeginRemember(p, write) =>
      if p in world.writers then world else Put(world, p, Starting(write))
    case BeginSupersede(p, ctx, oldId, r) =>
      if p in world.writers || oldId !in s.memories || !CanAccess(ctx, s.memories[oldId].record.scope) then world
      else Put(world, p, ReadPrior(ctx, oldId, s.memories[oldId].record, r))
    case ReadLineage(p) =>
      if p !in world.writers || !world.writers[p].ReadPrior? then world
      else
        var wr := world.writers[p];
        if DirectSuccessors(s.memories, wr.ctx, wr.oldId) != {} then Drop(world, p)
        else Put(world, p, Starting(Write(SuccessorRequest(wr.oldId, wr.prior, wr.supersede), wr.ctx, true)))
    case Look(p, now) =>
      if p !in world.writers || !world.writers[p].Starting? then world
      else if world.writers[p].write.request.id in s.memories then Drop(world, p)
      else Put(world, p, Looked(world.writers[p].write, now))
    case ReadSlot(p) =>
      if p !in world.writers || !world.writers[p].Looked? then world
      else
        var wr := world.writers[p];
        Put(world, p, Judged(wr.write, wr.now, Judge(env, s.memories, wr.write)))
    case ReadContest(p) =>
      if p !in world.writers || !world.writers[p].Judged? then world
      else
        var wr := world.writers[p];
        var into := Coalesce(s.contests, wr.write, wr.decision);
        Put(world, p, Ready(wr.write, wr.now, wr.decision, into,
                            if into.Some? then s.contests[into.value].occurrences else 0))
    case Commit(p, newContest) =>
      if p !in world.writers || !world.writers[p].Ready? then world
      else
        var wr := world.writers[p];
        var s' := CommitWrite(env, s, wr.write, wr.decision, wr.into, wr.seen, newContest, wr.now).0;
        Drop(World(s', world.writers), p)
    case Abandon(p) => Drop(world, p)
    case ResolveCommit(c, v, newKey, receipt) =>
      World(CommitResolution(s, c, v, newKey, receipt).0, world.writers)
  }

  function Run(env: Env, world: World, actions: seq<Action>): World
    decreases |actions|
  {
    if actions == [] then world else Run(env, Step(env, world, actions[0]), actions[1..])
  }

  /** What the server guarantees of each step: a resolution is receipted as one. */
  predicate WellFormed(a: Action) {
    a.ResolveCommit? ==> a.receipt.verdict.Some?
  }

  /** The step moves no entry to another claim key. */
  predicate KeepsKeys(a: Action) {
    a.ResolveCommit? ==> a.newKey.None?
  }

  ghost predicate WriterFits(s: Store, wr: Writer, keysFixed: bool) {
    && (wr.Judged? || wr.Ready? ==> DecisionFits(wr.write, wr.decision))
    && (wr.Ready? && wr.into.Some? ==> wr.into.value in s.contests && wr.decision.disposition == Contested)
    && (wr.Ready? && keysFixed ==> CoalesceFits(s, wr.write, wr.decision, wr.into))
  }

  ghost predicate WritersFit(world: World, keysFixed: bool) {
    forall p | p in world.writers :: WriterFits(world.store, world.writers[p], keysFixed)
  }

  // ---- invariants of every run ----

  /** `keysFixed` asks in addition for what holds only while no key was ever moved. */
  ghost predicate StoreInv(s: Store, keysFixed: bool) {
    && Sound(s)
    && ReceiptsBalance(s)
    && (keysFixed ==> AllCovered(s))
  }

  ghost predicate Inv(world: World, keysFixed: bool) {
    StoreInv(world.store, keysFixed) && WritersFit(world, keysFixed)
  }

  lemma CommitKeepsStoreInv(env: Env, s: Store, wr: Writer, newContest: ContestId, keysFixed: bool)
    requires StoreInv(s, keysFixed) && wr.Ready? && WriterFits(s, wr, keysFixed)
    ensures var s' := CommitWrite(env, s, wr.write, wr.decision, wr.into, wr.seen, newContest, wr.now).0;
            StoreInv(s', keysFixed) && Keeps(s, s')
  {
    WriteKeepsSound(env, s, wr.write, wr.decision, wr.into, wr.seen, newContest, wr.now);
    WriteKeepsBalance(env, s, wr.write, wr.decision, wr.into, wr.seen, newContest, wr.now);
    if keysFixed {
      WriteKeepsCoveredIff(env, s, wr.write, wr.decision, wr.into, wr.seen, newContest, wr.now);
      CoalescedIsCovered(s, wr.write, wr.decision, wr.into, wr.now);
    }
  }

  lemma CommitKeepsInv(env: Env, world: World, p: Pid, newContest: ContestId, keysFixed: bool)
    requires Inv(world, keysFixed) && p in world.writers && world.writers[p].Ready?
    ensures Inv(Step(env, world, Commit(p, newContest)), keysFixed)
    ensures Keeps(world.store, Step(env, world, Commit(p, newContest)).store)
  {
    CommitKeepsWorldStore(env, world, p, newContest, keysFixed);
    CommitKeepsWriters(env, world, p, newContest, keysFixed);
  }

  lemma StepCommits(env: Env, world: World, p: Pid, newContest: ContestId)
    requires p in world.writers && world.writers[p].Ready?
    ensures var wr := world.writers[p];
            Step(env, world, Commit(p, newContest)).store
            == CommitWrite(env, world.store, wr.write, wr.decision, wr.into, wr.seen, newContest, wr.now).0
  {}

  lemma CommitKeepsWorldStore(env: Env, world: World, p: Pid, newContest: ContestId, keysFixed: bool)
    requires Inv(world, keysFixed) && p in world.writers && world.writers[p].Ready?
    ensures StoreInv(Step(env, world, Commit(p, newContest)).store, keysFixed)
    ensures Keeps(world.store, Step(env, world, Commit(p, newContest)).store)
  {
    assert WriterFits(world.store, world.writers[p], keysFixed);
    StepCommits(env, world, p, newContest);
    CommitKeepsStoreInv(env, world.store, world.writers[p], newContest, keysFixed);
  }

  lemma CommitKeepsWriters(env: Env, world: World, p: Pid, newContest: ContestId, keysFixed: bool)
    requires Inv(world, keysFixed) && p in world.writers && world.writers[p].Ready?
    requires Keeps(world.store, Step(env, world, Commit(p, newContest)).store)
    ensures WritersFit(Step(env, world, Commit(p, newContest)), keysFixed)
  {
    var wr := world.writers[p];
    EntriesStay(env, world.store, wr.write, wr.decision, wr.into, wr.seen, newContest, wr.now);
    var next := Step(env, world, Commit(p, newContest));
    forall q | q in next.writers ensures WriterFits(next.store, next.writers[q], keysFixed) {
      assert WriterFits(next.store, world.writers[q], keysFixed);
    }
  }

  lemma ResolveKeepsInv(env: Env, world: World, a: Action, keysFixed: bool)
    requires Inv(world, keysFixed) && a.ResolveCommit? && WellFormed(a) && (keysFixed ==> KeepsKeys(a))
    ensures Inv(Step(env, world, a), keysFixed)
    ensures Keeps(world.store, Step(env, world, a).store)
  {
    ResolveKeepsStoreInv(world.store, a, keysFixed);
    ResolveKeepsWriters(world, a, keysFixed);
  }

  lemma ResolveKeepsWriters(world: World, a: Action, keysFixed: bool)
    requires WritersFit(world, keysFixed) && a.ResolveCommit? && (keysFixed ==> KeepsKeys(a))
    ensures WritersFit(World(CommitResolution(world.store, a.contest, a.verdict, a.newKey, a.receipt).0,
                             world.writers), keysFixed)
  {}

  lemma ResolveKeepsStoreInv(s: Store, a: Action, keysFixed: bool)
    requires StoreInv(s, keysFixed) && a.ResolveCommit? && WellFormed(a) && (keysFixed ==> KeepsKeys(a))
    ensures var s' := CommitResolution(s, a.contest, a.verdict, a.newKey, a.receipt).0;
            StoreInv(s', keysFixed) && Keeps(s, s')
  {
    ResolutionKeepsSound(s, a.contest, a.verdict, a.newKey, a.receipt);
    ResolutionKeepsBalance(s, a.contest, a.verdict, a.newKey, a.receipt);
    if keysFixed { ResolutionKeepsCovered(s, a.contest, a.verdict, a.receipt); }
  }

  lemma StepKeepsInv(env: Env, world: World, a: Action, keysFixed: bool)
    requires Inv(world, keysFixed) && WellFormed(a) && (keysFixed ==> KeepsKeys(a))
    ensures Inv(Step(env, world, a), keysFixed)
    ensures Keeps(world.store, Step(env, world, a).store)
  {
    if a.ResolveCommit? {
      ResolveKeepsInv(env, world, a, keysFixed);
    } else if a.Commit? && a.p in world.writers && world.writers[a.p].Ready? {
      CommitKeepsInv(env, world, a.p, a.newContest, keysFixed);
    } else {
      assert Step(env, world, a).store == world.store;
      forall p | p in Step(env, world, a).writers
          ensures WriterFits(world.store, Step(env, world, a).writers[p], keysFixed) {
        if p in world.writers { assert WriterFits(world.store, world.writers[p], keysFixed); }
      }
    }
  }

  lemma {:induction false} RunKeepsInv(env: Env, world: World, actions: seq<Action>, keysFixed: bool)
    requires Inv(world, keysFixed)
    requires forall a | a in actions :: WellFormed(a) && (keysFixed ==> KeepsKeys(a))
    ensures Inv(Run(env, world, actions), keysFixed)
    ensures Keeps(world.store, Run(env, world, actions).store)
    decreases |actions|
  {
    if actions != [] {
      var next := Step(env, world, actions[0]);
      StepKeepsInv(env, world, actions[0], keysFixed);
      RunKeepsInv(env, next, actions[1..], keysFixed);
      KeepsTransitive(world.store, next.store, Run(env, world, actions).store);
    }
  }

  // ---- main results ----

  /** As long as no resolution moves an entry to another claim key, the drift report stays empty in
      every interleaving. */
  lemma DriftStaysEmpty(env: Env, actions: seq<Action>)
    requires forall a | a in actions :: WellFormed(a) && KeepsKeys(a)
    ensures Drift(Run(env, EMPTY_WORLD, actions).store) == {}
  {
    RunKeepsInv(env, EMPTY_WORLD, actions, true);
    SoundAndCoveredMeansNoDrift(Run(env, EMPTY_WORLD, actions).store);
  }

  /** In every interleaving, whatever the verdicts: receipts number exactly the claim-keyed records
      plus the resolved entries, open entries stand against contested records, the entry
      constraints hold, and nothing stored is ever lost or has its content changed. */
  lemma LedgerBalances(env: Env, before: seq<Action>, after: seq<Action>)
    requires forall a | a in before + after :: WellFormed(a)
    ensures var s := Run(env, EMPTY_WORLD, before).store;
            var s' := Run(env, Run(env, EMPTY_WORLD, before), after).store;
            && Sound(s') && Keeps(s, s')
            && |s'.receipts| == |Keyed(s')| + |ResolvedEntries(s')|
  {
    assert forall a | a in before :: a in before + after;
    assert forall a | a in after :: a in before + after;
    RunKeepsInv(env, EMPTY_WORLD, before, false);
    RunKeepsInv(env, Run(env, EMPTY_WORLD, before), after, false);
  }

  // ---- what the entries count ----

  /** The step stores a contested write that was to be counted into an entry, and the entry was resolved
      after it was read. */
  predicate LosesCount(world: World, a: Action) {
    && a.Commit? && a.p in world.writers && world.writers[a.p].Ready?
    && var (s, wr) := (world.store, world.writers[a.p]);
       && wr.write.request.id !in s.memories
       && wr.into.Some? && wr.into.value in s.contests && s.contests[wr.into.value].resolution.Some?
  }

  function CountsLost(env: Env, world: World, actions: seq<Action>): nat
    decreases |actions|
  {
    if actions == [] then 0
    else (if LosesCount(world, actions[0]) then 1 else 0) + CountsLost(env, Step(env, world, actions[0]), actions[1..])
  }

  predicate NoCountLost(env: Env, world: World, actions: seq<Action>)
    decreases |actions|
  {
    actions == [] || (!LosesCount(world, actions[0]) && NoCountLost(env, Step(env, world, actions[0]), actions[1..]))
  }

  /** Stored contested writes that no entry counts. */
  ghost function Uncounted(s: Store): int { ContestedWrites(s.receipts) - Sum(Occurrences(s)) }

  lemma StepLosesCount(env: Env, world: World, a: Action)
    requires Inv(world, false) && WellFormed(a)
    ensures Uncounted(Step(env, world, a).store) == Uncounted(world.store) + if LosesCount(world, a) then 1 else 0
  {
    if a.ResolveCommit? {
      ResolutionKeepsBalance(world.store, a.contest, a.verdict, a.newKey, a.receipt);
    } else if a.Commit? && a.p in world.writers && world.writers[a.p].Ready? {
      var wr := world.writers[a.p];
      assert WriterFits(world.store, wr, false);
      StepCommits(env, world, a.p, a.newContest);
      OccurrencesAfterWrite(env, world.store, wr.write, wr.decision, wr.into, wr.seen, a.newContest, wr.now);
    }
  }

  lemma {:induction false} RunLosesCounts(env: Env, world: World, actions: seq<Action>)
    requires Inv(world, false) && forall a | a in actions :: WellFormed(a)
    ensures Uncounted(Run(env, world, actions).store) == Uncounted(world.store) + CountsLost(env, world, actions)
    ensures CountsLost(env, world, actions) == 0 <==> NoCountLost(env, world, actions)
    decreases |actions|
  {
    if actions != [] {
      StepLosesCount(env, world, actions[0]);
      StepKeepsInv(env, world, actions[0], false);
      RunLosesCounts(env, Step(env, world, actions[0]), actions[1..]);
    }
  }

  /** In every interleaving, whatever the verdicts and moved keys: what the entries count falls short of the
      writes stored as contested by exactly the commits that found their entry resolved. So the entries
      never count too much, and they count exactly if and only if there was no such commit. */
  lemma CountsFallShortByLost(env: Env, actions: seq<Action>)
    requires forall a | a in actions :: WellFormed(a)
    ensures var s := Run(env, EMPTY_WORLD, actions).store;
            && Sum(Occurrences(s)) + CountsLost(env, EMPTY_WORLD, actions) == ContestedWrites(s.receipts)
            && (Sum(Occurrences(s)) == ContestedWrites(s.receipts) <==> NoCountLost(env, EMPTY_WORLD, actions))
  {
    RunLosesCounts(env, EMPTY_WORLD, actions);
  }

  lemma OccurrencesNeverOvercount(env: Env, actions: seq<Action>)
    requires forall a | a in actions :: WellFormed(a)
    ensures var s := Run(env, EMPTY_WORLD, actions).store;
            Sum(Occurrences(s)) <= ContestedWrites(s.receipts)
  {
    CountsFallShortByLost(env, actions);
  }
}
