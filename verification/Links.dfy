/** Declared `supersedes` links inside a set of records: a partial function on ids,
    and the walk that finds its cycles. */
module Links {
  import opened Common

  type Id = nat

  /** Each record of the set with the predecessor it declares, which may lie outside the set. */
  type LinkMap = map<Id, Option<Id>>

  /** One step along `supersedes`, staying inside the set. */
  function Next(links: LinkMap, x: Id): Option<Id> {
    if x in links && links[x].Some? && links[x].value in links then links[x] else None
  }

  function Follow(links: LinkMap, x: Id, n: nat): Option<Id>
    decreases n
  {
    if n == 0 then Some(x)
    else match Next(links, x) case None => None case Some(y) => Follow(links, y, n - 1)
  }

  /** The record reaches itself by following links. */
  ghost predicate OnCycle(links: LinkMap, x: Id) {
    exists n: nat :: n >= 1 && Follow(links, x, n) == Some(x)
  }

  lemma {:induction false} FollowSplits(links: LinkMap, x: Id, m: nat, n: nat)
    requires Follow(links, x, m).Some?
    ensures Follow(links, x, m + n) == Follow(links, Follow(links, x, m).value, n)
    decreases m
  {
    if m > 0 { FollowSplits(links, Next(links, x).value, m - 1, n); }
  }

  ghost predicate Closed(links: LinkMap, s: set<Id>) {
    forall x | x in s && Next(links, x).Some? :: Next(links, x).value in s
  }

  lemma {:induction false} ClosedHolds(links: LinkMap, s: set<Id>, x: Id, n: nat)
    requires Closed(links, s) && x in s
    ensures Follow(links, x, n).Some? ==> Follow(links, x, n).value in s
    decreases n
  {
    if n > 0 && Next(links, x).Some? { ClosedHolds(links, s, Next(links, x).value, n - 1); }
  }

  /** A record whose links lead into a closed set without it is on no cycle. */
  lemma LeavingMeansNoCycle(links: LinkMap, s: set<Id>, x: Id)
    requires Closed(links, s) && x !in s && (Next(links, x).Some? ==> Next(links, x).value in s)
    ensures !OnCycle(links, x)
  {
    forall n: nat | n >= 1 ensures Follow(links, x, n) != Some(x) {
      if Next(links, x).Some? { ClosedHolds(links, s, Next(links, x).value, n - 1); }
    }
  }

  /** Consecutive records, each declaring the next. */
  ghost predicate IsTrail(links: LinkMap, path: seq<Id>) {
    && (forall i | 0 <= i < |path| :: path[i] in links)
    && (forall i | 0 <= i < |path| - 1 :: Next(links, path[i]) == Some(path[i + 1]))
  }

  lemma {:induction false} TrailFollows(links: LinkMap, path: seq<Id>, i: nat, n: nat)
    requires IsTrail(links, path) && i + n < |path|
    ensures Follow(links, path[i], n) == Some(path[i + n])
    decreases n
  {
    if n > 0 { TrailFollows(links, path, i + 1, n - 1); }
  }

  lemma {:induction false} DistinctIsShort(path: seq<Id>, ids: set<Id>)
    requires Distinct(path) && forall x | x in path :: x in ids
    ensures |path| <= |ids|
    decreases |path|
  {
    if path != [] {
      var last := path[|path| - 1];
      DistinctIsShort(path[..|path| - 1], ids - {last});
    }
  }

  // ---- the walk shared by recall and diagnosis ----

  /** How a walk ended: it ran into its own path at `entry`, or left for settled ground. */
  ghost predicate WalkEnds(links: LinkMap, settled: set<Id>, path: seq<Id>, entry: Option<nat>) {
    && path != [] && IsTrail(links, path) && Distinct(path) && Elements(path) !! settled
    && var next := Next(links, path[|path| - 1]);
       match entry
       case Some(j) => j < |path| && next == Some(path[j])
       case None => next.Some? ==> next.value in settled
  }

  method Walk(links: LinkMap, settled: set<Id>, start: Id) returns (path: seq<Id>, entry: Option<nat>)
    requires start in links && start !in settled
    ensures WalkEnds(links, settled, path, entry) && path[0] == start
  {
    path, entry := [], None;
    var positions: map<Id, nat> := map[];
    var current := Some(start);
    while current.Some? && current.value in links && current.value !in settled
      invariant path == [] ==> current == Some(start)
      invariant IsTrail(links, path) && Distinct(path) && Elements(path) !! settled
      invariant path != [] ==> path[0] == start && current == links[path[|path| - 1]]
      invariant forall x :: x in positions <==> x in path
      invariant forall x | x in positions :: positions[x] < |path| && path[positions[x]] == x
      decreases |links| - |path|
    {
      var x := current.value;
      if x in positions {
        entry := Some(positions[x]);
        break;
      }
      DistinctIsShort(path + [x], links.Keys);
      positions := positions[x := |path|];
      path := path + [x];
      current := links[x];
    }
  }

  /** Exactly the part of the path behind the entry lies on a cycle. */
  lemma WalkFindsCycle(links: LinkMap, settled: set<Id>, path: seq<Id>, entry: Option<nat>, i: nat)
    requires WalkEnds(links, settled, path, entry) && Closed(links, settled) && i < |path|
    ensures OnCycle(links, path[i]) <==> entry.Some? && entry.value <= i
  {
    if entry.Some? && entry.value <= i {
      CycleLength(links, path, entry.value, i);
    } else {
      var ahead := Elements(path[i + 1..]) + settled;
      forall x | x in ahead && Next(links, x).Some? ensures Next(links, x).value in ahead {
        if x !in settled {
          var k :| i < k < |path| && path[k] == x;
          if k < |path| - 1 {
            assert path[k + 1] == path[i + 1..][k - i];
          } else if entry.Some? {
            assert path[entry.value] == path[i + 1..][entry.value - i - 1];
          }
        }
      }
      assert path[i] !in ahead;
      if i < |path| - 1 { assert path[i + 1] == path[i + 1..][0]; }
      LeavingMeansNoCycle(links, ahead, path[i]);
    }
  }

  lemma CycleLength(links: LinkMap, path: seq<Id>, j: nat, i: nat)
    requires path != [] && IsTrail(links, path) && j <= i < |path| && Next(links, path[|path| - 1]) == Some(path[j])
    ensures Follow(links, path[i], |path| - j) == Some(path[i])
    ensures OnCycle(links, path[i])
  {
    var rest := |path| - 1 - i;
    TrailFollows(links, path, i, rest);
    FollowSplits(links, path[i], rest, 1 + (i - j));
    var last := path[|path| - 1];
    assert Follow(links, last, 1 + (i - j)) == Follow(links, path[j], i - j);
    TrailFollows(links, path, j, i - j);
    assert rest + (1 + (i - j)) == |path| - j;
  }

  /** A finished walk may be settled: nothing leads out of it. */
  lemma WalkSettles(links: LinkMap, settled: set<Id>, path: seq<Id>, entry: Option<nat>)
    requires WalkEnds(links, settled, path, entry) && Closed(links, settled)
    ensures Closed(links, settled + Elements(path))
  {
    var all := settled + Elements(path);
    forall x | x in all && Next(links, x).Some? ensures Next(links, x).value in all {
      if x !in settled {
        var k :| 0 <= k < |path| && path[k] == x;
        if k < |path| - 1 { assert path[k + 1] in path; }
      }
    }
  }
}
