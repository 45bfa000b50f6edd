/** Supersession chains over runs of the ledger: they never fork, and their versions tile time. */
module Chains {
  import opened Common
  import opened Contest
  import opened Ledger
  import opened LedgerInvariants
  import opened AtomicRuns
  import I = Interleavings
  import Truth

  predicate Held(m: Memories, id: Id) { id in m && !m[id].contested }

  predicate Follows(m: Memories, x: Id, p: Id) {
    Held(m, x) && m[x].record.supersedes == Some(p)
  }

  // ---- what the lineage query tells supersede ----

  lemma {:induction false} LineageGrows(m: Memories, ctx: Context, root: Id, depth: nat, more: nat)
    requires depth <= more
    ensures Lineage(m, ctx, root, depth) <= Lineage(m, ctx, root, more)
    decreases more
  {
    if depth < more { LineageGrows(m, ctx, root, depth, more - 1); }
  }

  /** The depth-bounded, visibility-filtered query finds exactly the visible admitted direct
      successors of a visible record, and nothing at all for a record that is itself contested. */
  lemma DirectSuccessorsExact(m: Memories, ctx: Context, prior: Id)
    ensures DirectSuccessors(m, ctx, prior)
            == if Visible(m, ctx, prior) then
                 set x | x in m && Visible(m, ctx, x) && m[x].record.supersedes == Some(prior)
               else {}
  {
    if Visible(m, ctx, prior) {
      LineageGrows(m, ctx, prior, 1, MAX_LINEAGE_DEPTH);
      var near := Lineage(m, ctx, prior, 0);
      assert near == {prior};
      forall x | x in m && Visible(m, ctx, x) && m[x].record.supersedes == Some(prior)
        ensures x in Lineage(m, ctx, prior, 1)
      {
        assert prior in near && Linked(m, prior, x);
      }
    } else {
      NothingFromHidden(m, ctx, prior, MAX_LINEAGE_DEPTH);
    }
  }

  lemma {:induction false} NothingFromHidden(m: Memories, ctx: Context, root: Id, depth: nat)
    requires !Visible(m, ctx, root)
    ensures Lineage(m, ctx, root, depth) == {}
  {
    if depth > 0 { NothingFromHidden(m, ctx, root, depth - 1); }
  }

  // ---- no forks ----

  ghost predicate NoForks(m: Memories) {
    forall p, x, y | Held(m, p) && Follows(m, x, p) && Follows(m, y, p) :: x == y
  }

  /** Every declared predecessor exists, is another record of the same scope, and is no younger. */
  ghost predicate LinksSound(m: Memories, clock: Time) {
    forall x | x in m ::
      && m[x].record.createdAt <= clock
      && (m[x].record.supersedes.Some? ==>
            var p := m[x].record.supersedes.value;
            p in m && p != x && m[p].record.scope == m[x].record.scope
                && m[p].record.createdAt <= m[x].record.createdAt)
  }

  ghost predicate ChainsSound(m: Memories, clock: Time) { NoForks(m) && LinksSound(m, clock) }

  /** Only `supersede` declares links. */
  predicate LinksBySupersede(op: Op) {
    op.RememberOp? ==> op.write.request.supersedes.None?
  }

  function Clock(op: Op, clock: Time): Time {
    if op.ResolveOp? then clock else op.now
  }

  predicate ClockRuns(ops: seq<Op>, clock: Time)
    decreases |ops|
  {
    ops == [] || (clock <= Clock(ops[0], clock) && ClockRuns(ops[1..], Clock(ops[0], clock)))
  }

  lemma RowKeepsChains(m: Memories, id: Id, row: Row, clock: Time)
    requires ChainsSound(m, clock) && id !in m && clock <= row.record.createdAt
    requires row.record.supersedes.Some? ==>
               var p := row.record.supersedes.value;
               p in m && m[p].record.scope == row.record.scope && (Held(m, p) ==> forall x: Id :: !Follows(m, x, p))
    ensures ChainsSound(m[id := row], row.record.createdAt)
  {
    var m' := m[id := row];
    assert forall x, p: Id | x != id :: Follows(m', x, p) == Follows(m, x, p);
    assert forall x: Id :: !Follows(m', x, id) by {
      forall x: Id | x in m ensures m[x].record.supersedes != Some(id) {}
    }
    forall p: Id, x, y | Held(m', p) && Follows(m', x, p) && Follows(m', y, p) ensures x == y {
      assert p != id && Held(m, p);
    }
  }

  lemma WriteKeepsChains(env: Env, s: Store, op: Op, clock: Time)
    requires Sound(s) && ChainsSound(s.memories, clock) && LinksBySupersede(op) && clock <= Clock(op, clock)
    requires WriteOf(env, s, op).Some?
    ensures ChainsSound(WriteNow(env, s, WriteOf(env, s, op).value, op.newContest, op.now).memories, op.now)
  {
    var m, w := s.memories, WriteOf(env, s, op).value;
    WriteNowEntries(env, s, w, op.newContest, op.now);
    if op.SupersedeOp? && Held(m, op.oldId) {
      HeadHasNoFollower(m, op.ctx, op.oldId, clock);
    }
    var d := Judge(env, m, w);
    var row := Row(BuildRecord(w, d, op.now), d.disposition == Contested);
    assert row.record.supersedes == w.request.supersedes && row.record.scope == w.Scope();
    RowKeepsChains(m, w.request.id, row, clock);
  }

  // ---- one more admitted record ----

  /** Record `r`, admitted under `id`, forks no chain: what it supersedes has no admitted successor yet, and
      at most one admitted record already supersedes it. */
  ghost predicate Extends(m: Memories, id: Id, r: Record) {
    && (r.supersedes.Some? && (Held(m, r.supersedes.value) || r.supersedes.value == id) ==>
          forall x :: !Follows(m, x, r.supersedes.value))
    && (forall x, y | Follows(m, x, id) && Follows(m, y, id) :: x == y)
  }

  lemma RowForksIff(m: Memories, id: Id, row: Row)
    requires !Held(m, id) && NoForks(m)
    ensures NoForks(m[id := row]) <==> row.contested || Extends(m, id, row.record)
  {
    var m' := m[id := row];
    assert forall x: Id :: Held(m', x) <==> Held(m, x) || (x == id && !row.contested);
    assert forall x: Id, p: Id ::
        Follows(m', x, p) <==> Follows(m, x, p) || (x == id && !row.contested && row.record.supersedes == Some(p));
    if !row.contested {
      if NoForks(m') {
        RowThatForks(m, id, row);
      } else {
        var p: Id, x: Id, y: Id :| Held(m', p) && Follows(m', x, p) && Follows(m', y, p) && x != y;
        assert p == id || x == id || y == id;
      }
    }
  }

  lemma RowThatForks(m: Memories, id: Id, row: Row)
    requires !Held(m, id) && !row.contested && NoForks(m[id := row])
    ensures Extends(m, id, row.record)
  {
    var m' := m[id := row];
    assert Held(m', id);
    assert forall x: Id, p: Id | Follows(m, x, p) :: Follows(m', x, p) && x != id;
    if row.record.supersedes.Some? {
      var p := row.record.supersedes.value;
      if Held(m, p) || p == id {
        assert Held(m', p) && Follows(m', id, p);
      }
    }
  }

  /** What a resolution that admits adds to the chains. */
  ghost predicate ResolutionExtends(s: Store, c: ContestId, v: Verdict) {
    Admits(v) && c in s.contests && s.contests[c].resolution.None? && s.contests[c].recordId in s.memories ==>
      Extends(s.memories, s.contests[c].recordId, s.memories[s.contests[c].recordId].record)
  }

  lemma ResolutionForksIff(s: Store, c: ContestId, v: Verdict, newKey: Option<Key>, receipt: Receipt)
    requires Sound(s) && NoForks(s.memories)
    ensures NoForks(CommitResolution(s, c, v, newKey, receipt).0.memories) <==> ResolutionExtends(s, c, v)
  {
    if c in s.contests && s.contests[c].resolution.None? {
      var id := s.contests[c].recordId;
      assert EntrySound(s, s.contests[c]);
      var row := ApplyResolution(s.memories[id], Admits(v), newKey);
      RowForksIff(s.memories, id, row);
      assert Extends(s.memories, id, row.record) <==> Extends(s.memories, id, s.memories[id].record);
    }
  }

  /** An admitting verdict keeps the chains free of forks if and only if no admitted record supersedes what
      its record supersedes, and at most one supersedes the record itself. */
  lemma AdmittingKeepsNoForksIff(s: Store, c: ContestId, v: Verdict, newKey: Option<Key>, receipt: Receipt)
    requires Sound(s) && NoForks(s.memories) && Admits(v)
    requires c in s.contests && s.contests[c].resolution.None?
    ensures var m, id := s.memories, s.contests[c].recordId;
            && id in m
            && var prior := m[id].record.supersedes;
               NoForks(CommitResolution(s, c, v, newKey, receipt).0.memories)
               <==> && (prior.Some? && (Held(m, prior.value) || prior.value == id) ==>
                          forall x :: !Follows(m, x, prior.value))
                    && (forall x, y | Follows(m, x, id) && Follows(m, y, id) :: x == y)
  {
    assert EntrySound(s, s.contests[c]);
    ResolutionForksIff(s, c, v, newKey, receipt);
  }

  // ---- forks in every interleaving ----

  /** A commit adds its record as decided, however long ago its predecessor was found to be a head. */
  ghost predicate CommitExtends(s: Store, w: Write, d: Decision, now: Time) {
    d.disposition == Admitted && w.request.id !in s.memories ==>
      Extends(s.memories, w.request.id, BuildRecord(w, d, now))
  }

  ghost predicate ActionExtends(world: I.World, a: I.Action) {
    match a
    case Commit(p, _) =>
      p in world.writers && world.writers[p].Ready? ==>
        CommitExtends(world.store, world.writers[p].write, world.writers[p].decision, world.writers[p].now)
    case ResolveCommit(c, v, _, _) => ResolutionExtends(world.store, c, v)
    case _ => true
  }

  ghost predicate ExtendsThroughout(env: Env, world: I.World, actions: seq<I.Action>)
    decreases |actions|
  {
    actions == [] || (ActionExtends(world, actions[0])
                      && ExtendsThroughout(env, I.Step(env, world, actions[0]), actions[1..]))
  }

  ghost predicate UnforkedThroughout(env: Env, world: I.World, actions: seq<I.Action>)
    decreases |actions|
  {
    && NoForks(world.store.memories)
    && (actions == [] || UnforkedThroughout(env, I.Step(env, world, actions[0]), actions[1..]))
  }

  lemma StepForksIff(env: Env, world: I.World, a: I.Action)
    requires Sound(world.store) && NoForks(world.store.memories)
    ensures NoForks(I.Step(env, world, a).store.memories) <==> ActionExtends(world, a)
  {
    match a
    case Commit(p, newContest) =>
      if p in world.writers && world.writers[p].Ready? {
        var s, wr := world.store, world.writers[p];
        I.StepCommits(env, world, p, newContest);
        CommitIsRowAndLedger(env, s, wr.write, wr.decision, wr.into, wr.seen, newContest, wr.now);
        if wr.write.request.id !in s.memories {
          RowForksIff(s.memories, wr.write.request.id, RowOf(wr.write, wr.decision, wr.now));
        }
      }
    case ResolveCommit(c, v, newKey, receipt) => ResolutionForksIff(world.store, c, v, newKey, receipt);
    case _ =>
  }

  lemma {:induction false} RunForksIff(env: Env, world: I.World, actions: seq<I.Action>)
    requires I.Inv(world, false) && NoForks(world.store.memories) && forall a | a in actions :: I.WellFormed(a)
    ensures UnforkedThroughout(env, world, actions) <==> ExtendsThroughout(env, world, actions)
    decreases |actions|
  {
    if actions != [] {
      var next := I.Step(env, world, actions[0]);
      StepForksIff(env, world, actions[0]);
      I.StepKeepsInv(env, world, actions[0], false);
      if NoForks(next.store.memories) { RunForksIff(env, next, actions[1..]); }
    }
  }

  /** In every interleaving, whoever declares links and whatever the verdicts: no chain ever forks if and
      only if every admitted commit and every admitting verdict extends the chains as they are by then. */
  lemma InterleavedChainsIff(env: Env, actions: seq<I.Action>)
    requires forall a | a in actions :: I.WellFormed(a)
    ensures UnforkedThroughout(env, I.EMPTY_WORLD, actions) <==> ExtendsThroughout(env, I.EMPTY_WORLD, actions)
  {
    RunForksIff(env, I.EMPTY_WORLD, actions);
  }

  /** Two callers who both found a record to be a head may both supersede it: a commit is safe while its
      predecessor is still a head. */
  lemma StillHeadExtends(s: Store, w: Write, d: Decision, now: Time, clock: Time)
    requires LinksSound(s.memories, clock)
    requires w.request.supersedes.Some? ==>
               var p := w.request.supersedes.value;
               Visible(s.memories, w.ctx, p) && DirectSuccessors(s.memories, w.ctx, p) == {}
    ensures CommitExtends(s, w, d, now)
  {
    var m, id := s.memories, w.request.id;
    if id !in m {
      forall x: Id ensures !Follows(m, x, id) {}
      if w.request.supersedes.Some? {
        var p := w.request.supersedes.value;
        HeadHasNoFollower(m, w.ctx, p, clock);
      }
    }
  }

  lemma HeadHasNoFollower(m: Memories, ctx: Context, p: Id, clock: Time)
    requires LinksSound(m, clock) && Visible(m, ctx, p) && DirectSuccessors(m, ctx, p) == {}
    ensures forall x :: !Follows(m, x, p)
  {
    DirectSuccessorsExact(m, ctx, p);
    var successors := set x | x in m && Visible(m, ctx, x) && m[x].record.supersedes == Some(p);
    assert successors == {};
    forall x: Id ensures !Follows(m, x, p) {
      assert x !in successors;
    }
  }

  // ---- forks in atomic runs ----

  ghost predicate OpExtends(s: Store, op: Op) {
    op.ResolveOp? ==> ResolutionExtends(s, op.contest, op.verdict)
  }

  ghost predicate RunExtends(env: Env, s: Store, ops: seq<Op>)
    decreases |ops|
  {
    ops == [] || (OpExtends(s, ops[0]) && RunExtends(env, Apply(env, s, ops[0]).0, ops[1..]))
  }

  ghost predicate RunUnforked(env: Env, s: Store, ops: seq<Op>)
    decreases |ops|
  {
    NoForks(s.memories) && (ops == [] || RunUnforked(env, Apply(env, s, ops[0]).0, ops[1..]))
  }

  lemma ResolutionKeepsLinks(s: Store, c: ContestId, v: Verdict, newKey: Option<Key>, receipt: Receipt, clock: Time)
    requires LinksSound(s.memories, clock)
    ensures LinksSound(CommitResolution(s, c, v, newKey, receipt).0.memories, clock)
  {}

  lemma OpForksIff(env: Env, s: Store, op: Op, clock: Time)
    requires AtomicInv(s) && ChainsSound(s.memories, clock) && LinksBySupersede(op) && clock <= Clock(op, clock)
    ensures var m' := Apply(env, s, op).0.memories;
            LinksSound(m', Clock(op, clock)) && (NoForks(m') <==> OpExtends(s, op))
  {
    if op.ResolveOp? {
      ResolutionForksIff(s, op.contest, op.verdict, op.newKey, op.receipt);
      ResolutionKeepsLinks(s, op.contest, op.verdict, op.newKey, op.receipt, clock);
    } else if WriteOf(env, s, op).Some? {
      WriteKeepsChains(env, s, op, clock);
    }
  }

  lemma {:induction false} RunKeepsChains(env: Env, s: Store, ops: seq<Op>, clock: Time) returns (end: Time)
    requires AtomicInv(s) && ChainsSound(s.memories, clock) && ClockRuns(ops, clock)
    requires forall op | op in ops :: Receipted(op) && LinksBySupersede(op)
    ensures RunUnforked(env, s, ops) <==> RunExtends(env, s, ops)
    ensures RunExtends(env, s, ops) ==> ChainsSound(RunOps(env, s, ops).memories, end)
    decreases |ops|
  {
    end := clock;
    if ops != [] {
      var op := ops[0];
      var next := Apply(env, s, op).0;
      ApplyKeepsInv(env, s, op);
      OpForksIff(env, s, op, clock);
      if NoForks(next.memories) { end := RunKeepsChains(env, next, ops[1..], Clock(op, clock)); }
    }
  }

  /** In every atomic run in which links come from `supersede` alone, under a clock that does not run back:
      no chain ever forks if and only if every admitting verdict extends the chains. */
  lemma AtomicChainsIff(env: Env, ops: seq<Op>, clock: Time)
    requires ClockRuns(ops, clock) && forall op | op in ops :: Receipted(op) && LinksBySupersede(op)
    ensures RunUnforked(env, EMPTY_STORE, ops) <==> RunExtends(env, EMPTY_STORE, ops)
  {
    EmptyStoreFits();
    var _ := RunKeepsChains(env, EMPTY_STORE, ops, clock);
  }

  // ---- timelines tile ----

  /** `x` is admitted, written by `t`, and no admitted successor of it is. */
  ghost predicate ActiveIn(m: Memories, x: Id, t: Time) {
    && Held(m, x) && m[x].record.createdAt <= t
    && forall q | Follows(m, q, x) :: t < m[q].record.createdAt
  }

  /** A path of admitted records, each superseding the one before. */
  ghost predicate IsPath(m: Memories, path: seq<Id>) {
    && path != []
    && (forall i | 0 <= i < |path| :: Held(m, path[i]))
    && (forall i | 0 < i < |path| :: m[path[i]].record.supersedes == Some(path[i - 1]))
  }

  ghost predicate IsRoot(m: Memories, root: Id) {
    Held(m, root) && forall p | Held(m, p) :: !Follows(m, root, p)
  }

  ghost predicate PathTo(m: Memories, root: Id, x: Id, path: seq<Id>) {
    IsPath(m, path) && path[0] == root && path[|path| - 1] == x
  }

  ghost predicate InChain(m: Memories, root: Id, x: Id) {
    exists path :: PathTo(m, root, x, path)
  }

  lemma {:induction false} PathsAgree(m: Memories, p: seq<Id>, q: seq<Id>, n: nat)
    requires NoForks(m) && IsPath(m, p) && IsPath(m, q) && p[0] == q[0] && n < |p| && n < |q|
    ensures p[n] == q[n]
  {
    if n > 0 {
      PathsAgree(m, p, q, n - 1);
      assert Follows(m, p[n], p[n - 1]) && Follows(m, q[n], p[n - 1]);
    }
  }

  lemma {:induction false} PathsAge(m: Memories, path: seq<Id>, i: nat, j: nat, clock: Time)
    requires LinksSound(m, clock) && IsPath(m, path) && i <= j < |path|
    ensures m[path[i]].record.createdAt <= m[path[j]].record.createdAt
    decreases j
  {
    if i < j {
      PathsAge(m, path, i, j - 1, clock);
      assert m[path[j]].record.supersedes == Some(path[j - 1]);
    }
  }

  /** A path from a root visits no record twice. */
  lemma {:induction false} PathIsSimple(m: Memories, path: seq<Id>, i: nat, j: nat)
    requires IsPath(m, path) && IsRoot(m, path[0]) && i < j < |path|
    ensures path[i] != path[j]
    decreases i
  {
    assert Follows(m, path[j], path[j - 1]);
    if i > 0 { PathIsSimple(m, path, i - 1, j - 1); }
  }

  ghost function HeldIds(m: Memories): set<Id> { set id | Held(m, id) && id in m }

  lemma {:induction false} SimplePathIsShort(m: Memories, path: seq<Id>, ids: set<Id>)
    requires forall i | 0 <= i < |path| :: path[i] in ids
    requires forall i, j | 0 <= i < j < |path| :: path[i] != path[j]
    ensures |path| <= |ids|
    decreases |path|
  {
    if path != [] {
      var last := path[|path| - 1];
      SimplePathIsShort(m, path[..|path| - 1], ids - {last});
    }
  }

  lemma {:induction false} FollowToActive(m: Memories, path: seq<Id>, t: Time) returns (longer: seq<Id>)
    requires IsPath(m, path) && IsRoot(m, path[0]) && m[path[|path| - 1]].record.createdAt <= t
    ensures longer != [] && PathTo(m, path[0], longer[|longer| - 1], longer) && ActiveIn(m, longer[|longer| - 1], t)
    decreases |HeldIds(m)| - |path|
  {
    var x := path[|path| - 1];
    longer := path;
    if !ActiveIn(m, x, t) {
      var q :| Follows(m, q, x) && m[q].record.createdAt <= t;
      var next := path + [q];
      forall i | 0 < i < |next| ensures m[next[i]].record.supersedes == Some(next[i - 1]) {
        if i < |path| { assert next[i] == path[i] && next[i - 1] == path[i - 1]; }
      }
      forall i, j | 0 <= i < j < |next| ensures next[i] != next[j] { PathIsSimple(m, next, i, j); }
      SimplePathIsShort(m, next, HeldIds(m));
      longer := FollowToActive(m, next, t);
    }
  }

  lemma OnlyOneActive(m: Memories, root: Id, x: Id, y: Id, t: Time, clock: Time)
    requires ChainsSound(m, clock) && InChain(m, root, x) && InChain(m, root, y)
    requires ActiveIn(m, x, t) && ActiveIn(m, y, t)
    ensures x == y
  {
    var p :| PathTo(m, root, x, p);
    var q :| PathTo(m, root, y, q);
    if |p| < |q| {
      ShorterPathIsOver(m, p, q, t, clock);
    } else if |q| < |p| {
      ShorterPathIsOver(m, q, p, t, clock);
    } else {
      PathsAgree(m, p, q, |p| - 1);
    }
  }

  /** Of two versions on one chain the earlier is closed by the time the later is written. */
  lemma ShorterPathIsOver(m: Memories, p: seq<Id>, q: seq<Id>, t: Time, clock: Time)
    requires ChainsSound(m, clock) && IsPath(m, p) && IsPath(m, q) && p[0] == q[0] && |p| < |q|
    requires m[q[|q| - 1]].record.createdAt <= t
    ensures !ActiveIn(m, p[|p| - 1], t)
  {
    PathsAgree(m, p, q, |p| - 1);
    PathsAge(m, q, |p|, |q| - 1, clock);
    assert Follows(m, q[|p|], p[|p| - 1]);
  }

  /** After every atomic run in which links come from `supersede` alone and whatever is admitted by verdict
      extends the chains: no admitted record has two admitted successors, and at every instant from the
      creation of a chain's root exactly one version of the chain is active. */
  lemma TimelinesTile(env: Env, ops: seq<Op>, clock: Time, root: Id, t: Time) returns (x: Id)
    requires ClockRuns(ops, clock) && forall op | op in ops :: Receipted(op) && LinksBySupersede(op)
    requires RunExtends(env, EMPTY_STORE, ops)
    requires var m := RunOps(env, EMPTY_STORE, ops).memories; IsRoot(m, root) && m[root].record.createdAt <= t
    ensures var m := RunOps(env, EMPTY_STORE, ops).memories;
            && NoForks(m)
            && InChain(m, root, x) && ActiveIn(m, x, t)
            && (forall y | InChain(m, root, y) && ActiveIn(m, y, t) :: y == x)
  {
    EmptyStoreFits();
    var end := RunKeepsChains(env, EMPTY_STORE, ops, clock);
    var m := RunOps(env, EMPTY_STORE, ops).memories;
    var path := FollowToActive(m, [root], t);
    x := path[|path| - 1];
    forall y | InChain(m, root, y) && ActiveIn(m, y, t) ensures y == x {
      OnlyOneActive(m, root, x, y, t, end);
    }
  }

  // ---- the reconstruction reads the same activity ----

  function NodeOf(id: Id, row: Row): Truth.Node {
    Truth.Node(id, row.record.createdAt, row.record.supersedes)
  }

  /** Given the admitted records in any order, `reconstruct_timeline` marks exactly the active ones. */
  lemma ReconstructionAgrees(m: Memories, records: seq<Truth.Node>, x: Id, t: Time)
    requires Held(m, x)
    requires forall n :: n in records <==> Held(m, n.id) && n == NodeOf(n.id, m[n.id])
    ensures Truth.ActiveAt(records, NodeOf(x, m[x]), t) <==> ActiveIn(m, x, t)
  {
    forall q | Follows(m, q, x) ensures NodeOf(q, m[q]) in records {}
    if Truth.ActiveAt(records, NodeOf(x, m[x]), t) {
      forall q | Follows(m, q, x) ensures t < m[q].record.createdAt {
        assert NodeOf(q, m[q]) in records;
      }
    }
  }
}
