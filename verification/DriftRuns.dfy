/** When the drift report stays empty, over every interleaving. */
module DriftRuns {
  // A resolution may move the entry another caller has read and is about to count its write into, so safe
  // resolutions alone do not keep the report empty once reads and commits lie apart.

  import opened Common
  import opened Contest
  import opened Ledger
  import opened LedgerInvariants
  import opened AtomicRuns
  import I = Interleavings

  /** A resolution may move its entry, and a write to be counted into one still finds its cover. */
  predicate SafeStep(world: I.World, a: I.Action) {
    match a
    case Commit(p, _) =>
      p in world.writers && world.writers[p].Ready? ==>
        var wr := world.writers[p];
        StillCovered(world.store, wr.write, wr.decision, wr.into, wr.now)
    case ResolveCommit(c, _, newKey, _) =>
      c in world.store.contests && world.store.contests[c].resolution.None? ==> SafeToMove(world.store, c, newKey)
    case _ => true
  }

  predicate SafeThroughout(env: Env, world: I.World, actions: seq<I.Action>)
    decreases |actions|
  {
    actions == [] || (SafeStep(world, actions[0]) && SafeThroughout(env, I.Step(env, world, actions[0]), actions[1..]))
  }

  /** The drift report is empty here and after each step of the run. */
  predicate DriftFreeThroughout(env: Env, world: I.World, actions: seq<I.Action>)
    decreases |actions|
  {
    && Drift(world.store) == {}
    && (actions == [] || DriftFreeThroughout(env, I.Step(env, world, actions[0]), actions[1..]))
  }

  lemma CommitDriftsIff(env: Env, world: I.World, p: I.Pid, newContest: ContestId)
    requires I.Inv(world, false) && Drift(world.store) == {} && p in world.writers && world.writers[p].Ready?
    ensures Drift(I.Step(env, world, I.Commit(p, newContest)).store) == {}
            <==> SafeStep(world, I.Commit(p, newContest))
  {
    var s, wr := world.store, world.writers[p];
    assert I.WriterFits(s, wr, false);
    I.StepCommits(env, world, p, newContest);
    SoundAndCoveredMeansNoDrift(s);
    WriteKeepsSound(env, s, wr.write, wr.decision, wr.into, wr.seen, newContest, wr.now);
    WriteKeepsCoveredIff(env, s, wr.write, wr.decision, wr.into, wr.seen, newContest, wr.now);
    SoundAndCoveredMeansNoDrift(I.Step(env, world, I.Commit(p, newContest)).store);
  }

  lemma StepDriftsIff(env: Env, world: I.World, a: I.Action)
    requires I.Inv(world, false) && Drift(world.store) == {}
    ensures Drift(I.Step(env, world, a).store) == {} <==> SafeStep(world, a)
  {
    match a
    case Commit(p, newContest) =>
      if p in world.writers && world.writers[p].Ready? { CommitDriftsIff(env, world, p, newContest); }
    case ResolveCommit(c, v, newKey, receipt) =>
      if c in world.store.contests && world.store.contests[c].resolution.None? {
        MoveKeepsDriftEmptyIff(world.store, c, v, newKey, receipt);
      }
    case _ =>
  }

  lemma {:induction false} RunDriftsIff(env: Env, world: I.World, actions: seq<I.Action>)
    requires I.Inv(world, false) && Drift(world.store) == {} && forall a | a in actions :: I.WellFormed(a)
    ensures DriftFreeThroughout(env, world, actions) <==> SafeThroughout(env, world, actions)
    decreases |actions|
  {
    if actions != [] {
      var next := I.Step(env, world, actions[0]);
      StepDriftsIff(env, world, actions[0]);
      I.StepKeepsInv(env, world, actions[0], false);
      if Drift(next.store) == {} { RunDriftsIff(env, next, actions[1..]); }
    }
  }

  /** In every interleaving, whatever the verdicts and moved keys: the drift report stays empty throughout if
      and only if every resolution of an open entry is safe to make and every write to be counted into an
      entry still finds one of its slot and author when it commits. */
  lemma InterleavedDriftIff(env: Env, actions: seq<I.Action>)
    requires forall a | a in actions :: I.WellFormed(a)
    ensures DriftFreeThroughout(env, I.EMPTY_WORLD, actions) <==> SafeThroughout(env, I.EMPTY_WORLD, actions)
  {
    assert Drift(EMPTY_STORE) == {};
    RunDriftsIff(env, I.EMPTY_WORLD, actions);
  }
}
