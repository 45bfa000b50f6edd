/** Cycle detection and head selection (aoms/recall.py), and cycle findings (aoms/truth.py). */
module Supersession {
  import opened Common
  import opened Links
  import opened Components

  /** A ranked candidate, as far as chain resolution looks at it. */
  datatype Candidate = Candidate(id: Id, supersedes: Option<Id>)

  /** A later candidate with the same id replaces the earlier one in the lookup. */
  function Records(ranked: seq<Candidate>): LinkMap {
    if ranked == [] then map[]
    else
      var last := ranked[|ranked| - 1];
      Records(ranked[..|ranked| - 1])[last.id := last.supersedes]
  }

  lemma {:induction false} RecordsKeys(ranked: seq<Candidate>)
    ensures forall c | c in ranked :: c.id in Records(ranked)
    ensures forall x | x in Records(ranked) :: exists c :: c in ranked && c.id == x
  {
    if ranked != [] {
      var init, last := ranked[..|ranked| - 1], ranked[|ranked| - 1];
      assert ranked == init + [last];
      RecordsKeys(init);
      forall x | x in Records(ranked) ensures exists c :: c in ranked && c.id == x {
        if x == last.id {
          assert last in ranked;
        } else {
          var c :| c in init && c.id == x;
          assert c in ranked;
        }
      }
    }
  }

  // ---- cycles ----

  /** The order in which the walks start does not matter: any listing of the records will do. */
  predicate DistinctCandidates(ranked: seq<Candidate>) {
    forall i, j | 0 <= i < j < |ranked| :: ranked[i].id != ranked[j].id
  }

  ghost predicate Ranked(ranked: seq<Candidate>, id: Id) { exists c :: c in ranked && c.id == id }

  /** In a ranking without repeated ids: a record is linked to what it supersedes, if that is ranked too. */
  lemma {:induction false} RecordsExact(ranked: seq<Candidate>, i: nat)
    requires DistinctCandidates(ranked) && i < |ranked|
    ensures ranked[i].id in Records(ranked) && Records(ranked)[ranked[i].id] == ranked[i].supersedes
    decreases |ranked|
  {
    var n := |ranked| - 1;
    if i < n { RecordsExact(ranked[..n], i); }
  }

  lemma {:induction false} RecordsAreRanked(ranked: seq<Candidate>)
    ensures forall id :: id in Records(ranked) <==> Ranked(ranked, id)
  {
    if ranked != [] {
      var init, last := ranked[..|ranked| - 1], ranked[|ranked| - 1];
      RecordsAreRanked(init);
      assert ranked == init + [last];
      assert last in ranked;
      forall id | Ranked(init, id) ensures Ranked(ranked, id) {
        var c :| c in init && c.id == id;
        assert c in ranked;
      }
    }
  }

  lemma LinksOfRanking(ranked: seq<Candidate>, i: nat, y: Id)
    requires DistinctCandidates(ranked) && i < |ranked|
    ensures Next(Records(ranked), ranked[i].id) == Some(y)
            <==> ranked[i].supersedes == Some(y) && Ranked(ranked, y)
  {
    RecordsExact(ranked, i);
    RecordsAreRanked(ranked);
  }

  method CycleIds(links: LinkMap, order: seq<Id>) returns (cycleIds: set<Id>)
    requires forall x :: x in order <==> x in links
    ensures forall x :: x in cycleIds <==> x in links && OnCycle(links, x)
  {
    cycleIds := {};
    var completed: set<Id> := {};
    for n := 0 to |order|
      invariant forall x | x in order[..n] :: x in completed
      invariant completed <= links.Keys && Closed(links, completed)
      invariant forall x :: x in cycleIds <==> x in completed && OnCycle(links, x)
    {
      var start := order[n];
      assert start in order;
      if start !in completed {
        var path, entry := Walk(links, completed, start);
        forall i | 0 <= i < |path| ensures OnCycle(links, path[i]) <==> entry.Some? && entry.value <= i {
          WalkFindsCycle(links, completed, path, entry, i);
        }
        WalkSettles(links, completed, path, entry);
        if entry.Some? {
          var cycle := path[entry.value..];
          assert forall x :: x in cycle <==> exists i :: entry.value <= i < |path| && path[i] == x;
          cycleIds := cycleIds + Elements(cycle);
        }
        completed := completed + Elements(path);
      }
    }
    assert order[..|order|] == order;
  }

  // ---- protected components ----

  ghost predicate Protected(links: LinkMap, x: Id) {
    exists y :: OnCycle(links, y) && Connected(links, x, y)
  }

  lemma CycleIsInside(links: LinkMap, x: Id)
    requires OnCycle(links, x)
    ensures x in links && Next(links, x).Some?
  {}

  lemma ProtectedSpreads(links: LinkMap, x: Id, y: Id)
    requires Connected(links, x, y)
    ensures Protected(links, x) <==> Protected(links, y)
  {
    ConnectedSymmetric(links, x, y);
    if Protected(links, x) {
      var c :| OnCycle(links, c) && Connected(links, x, c);
      ConnectedTransitive(links, y, x, c);
    }
    if Protected(links, y) {
      var c :| OnCycle(links, c) && Connected(links, y, c);
      ConnectedTransitive(links, x, y, c);
    }
  }

  lemma LinkedShareProtection(links: LinkMap, x: Id, y: Id)
    requires Adjacent(links, x, y)
    ensures Protected(links, x) <==> Protected(links, y)
  {
    SelfConnected(links, x);
    ConnectedStep(links, x, x, y);
    ProtectedSpreads(links, x, y);
  }

  method ProtectedIds(links: LinkMap, order: seq<Id>, cycleIds: set<Id>) returns (protected: set<Id>)
    requires forall x :: x in order <==> x in links
    requires forall x :: x in cycleIds <==> x in links && OnCycle(links, x)
    ensures forall x :: x in protected <==> x in links && Protected(links, x)
  {
    protected := {};
    var visited: set<Id> := {};
    for n := 0 to |order|
      invariant forall x | x in order[..n] :: x in visited
      invariant visited <= links.Keys
      invariant forall x :: x in protected <==> x in visited && Protected(links, x)
    {
      var start := order[n];
      assert start in order;
      if start !in visited {
        var component := Component(links, start);
        SelfConnected(links, start);
        forall x | x in component ensures x in links && (Protected(links, x) <==> component * cycleIds != {}) {
          ComponentMembers(links, start, component, x);
          ProtectedSpreads(links, start, x);
          ComponentHit(links, start, component, cycleIds);
        }
        visited := visited + component;
        if component * cycleIds != {} {
          protected := protected + component;
        }
      }
    }
    assert order[..|order|] == order;
  }

  lemma ComponentMembers(links: LinkMap, start: Id, component: set<Id>, x: Id)
    requires forall y :: y in component <==> Connected(links, start, y)
    requires x in component
    ensures Connected(links, start, x) && x in links
  {
    var p :| WalkBetween(links, start, x, p);
    if |p| > 1 { assert Adjacent(links, p[|p| - 2], p[|p| - 1]); }
  }

  lemma ComponentHit(links: LinkMap, start: Id, component: set<Id>, cycleIds: set<Id>)
    requires forall y :: y in component <==> Connected(links, start, y)
    requires forall x :: x in cycleIds <==> x in links && OnCycle(links, x)
    ensures Protected(links, start) <==> component * cycleIds != {}
  {
    if Protected(links, start) {
      var c :| OnCycle(links, c) && Connected(links, start, c);
      CycleIsInside(links, c);
      assert c in component * cycleIds;
    }
  }

  // ---- head selection ----

  /** Some unprotected record of the set declares that it supersedes `x`. */
  ghost predicate Suppressed(links: LinkMap, x: Id) {
    !Protected(links, x) && exists r :: Next(links, r) == Some(x)
  }

  function Keep(ranked: seq<Candidate>, suppressed: set<Id>): seq<Candidate> {
    if ranked == [] then []
    else
      var last := ranked[|ranked| - 1];
      Keep(ranked[..|ranked| - 1], suppressed) + if last.id in suppressed then [] else [last]
  }

  lemma {:induction false} KeepMembers(ranked: seq<Candidate>, suppressed: set<Id>)
    ensures forall c :: c in Keep(ranked, suppressed) <==> c in ranked && c.id !in suppressed
  {
    if ranked != [] {
      KeepMembers(ranked[..|ranked| - 1], suppressed);
      assert ranked == ranked[..|ranked| - 1] + [ranked[|ranked| - 1]];
    }
  }

  datatype Resolution = Resolution(packable: seq<Candidate>, suppressed: set<Id>, predecessors: map<Id, Id>)

  method ResolveSupersessionChains(ranked: seq<Candidate>) returns (r: Resolution)
    ensures forall x :: x in r.suppressed <==> x in Records(ranked) && Suppressed(Records(ranked), x)
    ensures r.packable == Keep(ranked, r.suppressed)
    ensures forall x :: x in r.predecessors <==>
              x in Records(ranked) && x !in r.suppressed && !Protected(Records(ranked), x)
                  && Next(Records(ranked), x).Some?
    ensures forall x | x in r.predecessors :: Next(Records(ranked), x) == Some(r.predecessors[x])
  {
    var links: LinkMap, order := map[], [];
    for n := 0 to |ranked|
      invariant links == Records(ranked[..n])
      invariant forall x :: x in order <==> x in links
    {
      assert ranked[..n + 1][..n] == ranked[..n];
      if ranked[n].id !in links { order := order + [ranked[n].id]; }
      links := links[ranked[n].id := ranked[n].supersedes];
    }
    assert ranked[..|ranked|] == ranked;
    var cycleIds := CycleIds(links, order);
    var protected := ProtectedIds(links, order, cycleIds);
    var suppressed := set x | x in links && x !in protected && Next(links, x).Some?
        && Next(links, x).value !in protected ::
      Next(links, x).value;
    forall x ensures x in suppressed <==> x in links && Suppressed(links, x) {
      if x in links && Suppressed(links, x) {
        var s :| Next(links, s) == Some(x);
        LinkedShareProtection(links, s, x);
        assert Next(links, s).value in suppressed;
      }
    }
    var predecessors := map x | x in links && x !in suppressed && x !in protected && Next(links, x).Some? ::
        Next(links, x).value;
    r := Resolution(Keep(ranked, suppressed), suppressed, predecessors);
  }

  // ---- what the selection means ----

  /** `p[i + 1]` supersedes `p[i]`. */
  ghost predicate Upward(links: LinkMap, p: seq<Id>) {
    && p != [] && p[0] in links
    && (forall i | 0 <= i < |p| - 1 :: Next(links, p[i + 1]) == Some(p[i]))
  }

  lemma {:induction false} UpwardFollows(links: LinkMap, p: seq<Id>, i: nat, j: nat)
    requires Upward(links, p) && i <= j < |p|
    ensures Follow(links, p[j], j - i) == Some(p[i])
    decreases j
  {
    if i < j { UpwardFollows(links, p, i, j - 1); }
  }

  lemma UpwardDistinct(links: LinkMap, p: seq<Id>)
    requires Upward(links, p) && !Protected(links, p[0])
    ensures Distinct(p) && (forall x | x in p :: x in links)
  {
    forall i | 0 <= i < |p| ensures p[i] in links {
      if i > 0 { assert Next(links, p[i]) == Some(p[i - 1]); }
    }
    forall i, j | 0 <= i < j < |p| ensures p[i] != p[j] {
      if p[i] == p[j] {
        UpwardFollows(links, p, i, j);
        assert OnCycle(links, p[j]);
        UpwardConnected(links, p, j);
      }
    }
  }

  lemma {:induction false} UpwardConnected(links: LinkMap, p: seq<Id>, j: nat)
    requires Upward(links, p) && j < |p|
    ensures Connected(links, p[0], p[j])
    decreases j
  {
    if j == 0 {
      SelfConnected(links, p[0]);
    } else {
      UpwardConnected(links, p, j - 1);
      assert Next(links, p[j]) == Some(p[j - 1]);
      assert p[j - 1] in links;
      ConnectedStep(links, p[0], p[j - 1], p[j]);
    }
  }

  /** Climbing from an unprotected record always ends at a head. */
  lemma {:induction false} ClimbToHead(links: LinkMap, p: seq<Id>) returns (head: Id, n: nat)
    requires Upward(links, p) && !Protected(links, p[0])
    ensures head in links && !Protected(links, head) && (forall r :: Next(links, r) != Some(head))
    ensures n >= |p| - 1 && Follow(links, head, n) == Some(p[0])
    decreases |links| - |p|
  {
    var top := p[|p| - 1];
    UpwardDistinct(links, p);
    if exists r :: Next(links, r) == Some(top) {
      var r :| Next(links, r) == Some(top);
      var q := p + [r];
      forall i | 0 <= i < |q| - 1 ensures Next(links, q[i + 1]) == Some(q[i]) {
        if i < |p| - 1 { assert q[i] == p[i] && q[i + 1] == p[i + 1]; }
      }
      UpwardDistinct(links, q);
      DistinctIsShort(q, links.Keys);
      head, n := ClimbToHead(links, q);
    } else {
      head, n := top, |p| - 1;
      assert top in p;
      UpwardFollows(links, p, 0, |p| - 1);
      UpwardConnected(links, p, |p| - 1);
      ProtectedSpreads(links, p[0], top);
    }
  }

  /** Every suppressed record is reached, by following `supersedes` at least once, from an
      unprotected record of the set that nothing supersedes: a packable head. */
  lemma SuppressedHasHead(links: LinkMap, x: Id) returns (head: Id, n: nat)
    requires x in links && Suppressed(links, x)
    ensures head in links && !Suppressed(links, head) && !Protected(links, head)
        && (forall r :: Next(links, r) != Some(head))
    ensures n >= 1 && Follow(links, head, n) == Some(x)
  {
    head, n := ClimbToHead(links, [x]);
  }

  /** In a component without a cycle the packable records are exactly the heads; a component with a
      cycle is left whole. */
  lemma PackableAreHeads(ranked: seq<Candidate>, r: Resolution, c: Candidate)
    requires forall x :: x in r.suppressed <==> x in Records(ranked) && Suppressed(Records(ranked), x)
    requires r.packable == Keep(ranked, r.suppressed) && c in ranked
    ensures c in r.packable <==>
              Protected(Records(ranked), c.id) || (forall s :: Next(Records(ranked), s) != Some(c.id))
  {
    KeepMembers(ranked, r.suppressed);
    RecordsKeys(ranked);
  }

  /** Something is always packed. */
  lemma SomethingIsPackable(ranked: seq<Candidate>, r: Resolution)
    requires forall x :: x in r.suppressed <==> x in Records(ranked) && Suppressed(Records(ranked), x)
    requires r.packable == Keep(ranked, r.suppressed) && ranked != []
    ensures r.packable != []
  {
    KeepMembers(ranked, r.suppressed);
    RecordsKeys(ranked);
    var c := ranked[0];
    if c.id in r.suppressed {
      var head, n := SuppressedHasHead(Records(ranked), c.id);
      var h :| h in ranked && h.id == head;
      assert h in r.packable;
    } else {
      assert c in r.packable;
    }
  }

  // ---- resolving twice ----

  function Without(links: LinkMap, suppressed: set<Id>): LinkMap {
    map x | x in links && x !in suppressed :: links[x]
  }

  lemma {:induction false} RecordsOfKept(ranked: seq<Candidate>, suppressed: set<Id>)
    ensures Records(Keep(ranked, suppressed)) == Without(Records(ranked), suppressed)
  {
    if ranked != [] {
      var init, last := ranked[..|ranked| - 1], ranked[|ranked| - 1];
      RecordsOfKept(init, suppressed);
      var kept := Keep(init, suppressed);
      assert (kept + [last])[..|kept|] == kept;
      if last.id in suppressed {
        assert Without(Records(ranked), suppressed) == Without(Records(init), suppressed);
        assert Keep(ranked, suppressed) == kept;
      } else {
        assert Keep(ranked, suppressed) == kept + [last];
        assert Without(Records(ranked), suppressed) == Without(Records(init), suppressed)[last.id := last.supersedes];
      }
    }
  }

  lemma NextInProtected(links: LinkMap, suppressed: set<Id>, x: Id)
    requires forall y :: y in suppressed <==> y in links && Suppressed(links, y)
    requires Protected(links, x)
    ensures Next(Without(links, suppressed), x) == Next(links, x)
    ensures Next(links, x).Some? ==> Protected(links, Next(links, x).value)
  {
    if Next(links, x).Some? { LinkedShareProtection(links, x, Next(links, x).value); }
  }

  /** Two link maps that agree on a set closed under both. */
  ghost predicate AgreeOn(links: LinkMap, rest: LinkMap, s: set<Id>) {
    forall x | x in s :: Next(rest, x) == Next(links, x) && (Next(links, x).Some? ==> Next(links, x).value in s)
  }

  lemma {:induction false} FollowAgrees(links: LinkMap, rest: LinkMap, s: set<Id>, x: Id, n: nat)
    requires AgreeOn(links, rest, s) && x in s
    ensures Follow(rest, x, n) == Follow(links, x, n)
    decreases n
  {
    if n > 0 && Next(links, x).Some? { FollowAgrees(links, rest, s, Next(links, x).value, n - 1); }
  }

  lemma CycleStays(links: LinkMap, suppressed: set<Id>, c: Id)
    requires forall y :: y in suppressed <==> y in links && Suppressed(links, y)
    requires OnCycle(links, c)
    ensures OnCycle(Without(links, suppressed), c)
  {
    CycleIsInside(links, c);
    SelfConnected(links, c);
    var all := set x | x in links && Protected(links, x);
    assert AgreeOn(links, Without(links, suppressed), all) by {
      forall x | x in all { NextInProtected(links, suppressed, x); }
    }
    var n: nat :| n >= 1 && Follow(links, c, n) == Some(c);
    FollowAgrees(links, Without(links, suppressed), all, c, n);
  }

  lemma WalkInProtected(links: LinkMap, suppressed: set<Id>, path: seq<Id>)
    requires forall y :: y in suppressed <==> y in links && Suppressed(links, y)
    requires IsWalk(links, path) && Protected(links, path[0])
    ensures IsWalk(Without(links, suppressed), path)
  {
    var all := set x | x in links && Protected(links, x);
    forall x, y | x in all && Adjacent(links, x, y) ensures y in all { LinkedShareProtection(links, x, y); }
    WalkStays(links, all, path);
    forall i | 0 <= i < |path| - 1 ensures Adjacent(Without(links, suppressed), path[i], path[i + 1]) {
      assert Adjacent(links, path[i], path[i + 1]);
      NextInProtected(links, suppressed, path[i]);
      NextInProtected(links, suppressed, path[i + 1]);
    }
  }

  /** A protected component is still there, cycle and all, after the others were thinned out. */
  lemma StaysProtected(links: LinkMap, suppressed: set<Id>, x: Id)
    requires forall y :: y in suppressed <==> y in links && Suppressed(links, y)
    requires Protected(links, x)
    ensures Protected(Without(links, suppressed), x)
  {
    var c :| OnCycle(links, c) && Connected(links, x, c);
    CycleStays(links, suppressed, c);
    var p :| WalkBetween(links, x, c, p);
    WalkInProtected(links, suppressed, p);
    assert WalkBetween(Without(links, suppressed), x, c, p);
  }

  /** Resolving what was packable suppresses nothing more. */
  lemma ResolvingAgainSuppressesNothing(ranked: seq<Candidate>, r: Resolution, x: Id)
    requires forall y :: y in r.suppressed <==> y in Records(ranked) && Suppressed(Records(ranked), y)
    requires r.packable == Keep(ranked, r.suppressed)
    ensures !Suppressed(Records(r.packable), x)
  {
    var links := Records(ranked);
    var rest := Without(links, r.suppressed);
    RecordsOfKept(ranked, r.suppressed);
    if Suppressed(rest, x) {
      var s :| Next(rest, s) == Some(x);
      assert Next(links, s) == Some(x) && x !in r.suppressed;
      assert Protected(links, x);
      StaysProtected(links, r.suppressed, x);
    }
  }

  // ---- the diagnosis reports each cycle once ----

  /** The records on the cycle through `x`. */
  ghost predicate SameCycle(links: LinkMap, x: Id, y: Id) {
    exists n: nat :: Follow(links, x, n) == Some(y)
  }

  /** `key` is exactly the cycle through one of its members. */
  ghost predicate IsCycle(links: LinkMap, key: set<Id>) {
    exists x :: x in key && OnCycle(links, x) && forall y: Id :: y in key <==> SameCycle(links, x, y)
  }

  lemma TailIsCycle(links: LinkMap, settled: set<Id>, path: seq<Id>, j: nat)
    requires WalkEnds(links, settled, path, Some(j))
    ensures IsCycle(links, Elements(path[j..]))
  {
    var cycle := path[j..];
    var key := Elements(cycle);
    CycleLength(links, path, j, j);
    assert cycle[0] == path[j];
    forall x | x in key && Next(links, x).Some? ensures Next(links, x).value in key {
      var k :| j <= k < |path| && path[k] == x;
      if k < |path| - 1 { assert path[k + 1] == cycle[k + 1 - j]; }
    }
    forall y: Id ensures y in key <==> SameCycle(links, path[j], y) {
      if y in key {
        var k :| j <= k < |path| && path[k] == y;
        TrailFollows(links, path, j, k - j);
      }
      if SameCycle(links, path[j], y) {
        var n: nat :| Follow(links, path[j], n) == Some(y);
        ClosedHolds(links, key, path[j], n);
      }
    }
  }

  /** The cycle walk of `diagnose_chains`: one key per cycle, none missed, none invented. */
  method CycleKeys(links: LinkMap, order: seq<Id>) returns (keys: set<set<Id>>)
    requires forall x :: x in order <==> x in links
    ensures forall key | key in keys :: IsCycle(links, key)
    ensures forall x | OnCycle(links, x) :: exists key :: key in keys && x in key
    ensures forall a, b | a in keys && b in keys && a != b :: a !! b
  {
    keys := {};
    var completed: set<Id> := {};
    for n := 0 to |order|
      invariant forall x | x in order[..n] :: x in completed
      invariant completed <= links.Keys && Closed(links, completed)
      invariant forall key | key in keys :: IsCycle(links, key) && key <= completed
      invariant forall x | x in completed && OnCycle(links, x) :: exists key :: key in keys && x in key
      invariant forall a, b | a in keys && b in keys && a != b :: a !! b
    {
      var start := order[n];
      assert start in order;
      if start !in completed {
        var path, entry := Walk(links, completed, start);
        WalkSettles(links, completed, path, entry);
        ghost var keys0 := keys;
        if entry.Some? {
          TailIsCycle(links, completed, path, entry.value);
          var cycle := Elements(path[entry.value..]);
          assert cycle !! completed && cycle <= Elements(path);
          keys := keys + {cycle};
        }
        forall x | x in completed + Elements(path) && OnCycle(links, x) ensures exists key :: key in keys && x in key {
          if x in completed {
            var key :| key in keys0 && x in key;
            assert key in keys;
          } else {
            var i :| 0 <= i < |path| && path[i] == x;
            WalkFindsCycle(links, completed, path, entry, i);
            assert path[entry.value..][i - entry.value] == x;
            assert Elements(path[entry.value..]) in keys && x in Elements(path[entry.value..]);
          }
        }
        completed := completed + Elements(path);
      }
    }
    assert order[..|order|] == order;
    forall x | OnCycle(links, x) ensures exists key :: key in keys && x in key {
      CycleIsInside(links, x);
    }
  }
}
