/** Weak components of the declared links,
    found by the stack search of aoms/recall.py. */

module Components {
  import opened Common
  import opened Links

  function Neighbours(links: LinkMap, x: Id): set<Id> {
    set y | y in links && (Next(links, x) == Some(y) || Next(links, y) == Some(x))
  }

  predicate Adjacent(links: LinkMap, x: Id, y: Id) {
    x in links && y in links && (Next(links, x) == Some(y) || Next(links, y) == Some(x))
  }

  /** A walk ignoring link direction. */
  ghost predicate IsWalk(links: LinkMap, path: seq<Id>) {
    && path != [] && path[0] in links
    && (forall i | 0 <= i < |path| - 1 :: Adjacent(links, path[i], path[i + 1]))
  }

  ghost predicate WalkBetween(links: LinkMap, x: Id, y: Id, path: seq<Id>) {
    IsWalk(links, path) && path[0] == x && path[|path| - 1] == y
  }

  ghost predicate Connected(links: LinkMap, x: Id, y: Id) {
    exists path :: WalkBetween(links, x, y, path)
  }

  lemma SelfConnected(links: LinkMap, x: Id)
    requires x in links
    ensures Connected(links, x, x)
  {
    assert WalkBetween(links, x, x, [x]);
  }

  lemma ConnectedStep(links: LinkMap, x: Id, y: Id, z: Id)
    requires Connected(links, x, y) && Adjacent(links, y, z)
    ensures Connected(links, x, z)
  {
    var p :| WalkBetween(links, x, y, p);
    var q := p + [z];
    forall i | 0 <= i < |q| - 1 ensures Adjacent(links, q[i], q[i + 1]) {
      if i < |p| - 1 { assert q[i] == p[i] && q[i + 1] == p[i + 1]; }
    }
    assert WalkBetween(links, x, z, q);
  }

  lemma {:induction false} ConnectedAlong(links: LinkMap, x: Id, path: seq<Id>)
    requires IsWalk(links, path) && Connected(links, x, path[0])
    ensures Connected(links, x, path[|path| - 1])
    decreases |path|
  {
    if |path| > 1 {
      ConnectedStep(links, x, path[0], path[1]);
      assert Adjacent(links, path[0], path[1]);
      forall i | 0 <= i < |path[1..]| - 1 ensures Adjacent(links, path[1..][i], path[1..][i + 1]) {
        assert Adjacent(links, path[i + 1], path[i + 2]);
      }
      ConnectedAlong(links, x, path[1..]);
    }
  }

  lemma ConnectedTransitive(links: LinkMap, x: Id, y: Id, z: Id)
    requires Connected(links, x, y) && Connected(links, y, z)
    ensures Connected(links, x, z)
  {
    var p :| WalkBetween(links, y, z, p);
    ConnectedAlong(links, x, p);
  }

  lemma {:induction false} WalkBack(links: LinkMap, path: seq<Id>)
    requires IsWalk(links, path)
    ensures Connected(links, path[|path| - 1], path[0])
    decreases |path|
  {
    var n := |path| - 1;
    if n == 0 {
      SelfConnected(links, path[0]);
    } else {
      var init := path[..n];
      assert Adjacent(links, path[n - 1], path[n]);
      assert IsWalk(links, init);
      WalkBack(links, init);
      SelfConnected(links, path[n]);
      ConnectedStep(links, path[n], path[n], path[n - 1]);
      ConnectedTransitive(links, path[n], path[n - 1], path[0]);
    }
  }

  lemma ConnectedSymmetric(links: LinkMap, x: Id, y: Id)
    requires Connected(links, x, y)
    ensures Connected(links, y, x)
  {
    var p :| WalkBetween(links, x, y, p);
    WalkBack(links, p);
  }

  /** Nothing in the set has a neighbour outside it. */
  ghost predicate NeighbourClosed(links: LinkMap, s: set<Id>) {
    forall x, y | x in s && Adjacent(links, x, y) :: y in s
  }

  lemma {:induction false} WalkStays(links: LinkMap, s: set<Id>, path: seq<Id>)
    requires NeighbourClosed(links, s) && IsWalk(links, path) && path[0] in s
    ensures forall i | 0 <= i < |path| :: path[i] in s
    decreases |path|
  {
    if |path| > 1 {
      var n := |path| - 1;
      assert IsWalk(links, path[..n]);
      WalkStays(links, s, path[..n]);
      assert path[..n][n - 1] in s && Adjacent(links, path[n - 1], path[n]);
    }
  }

  method Enumerate(s: set<Id>) returns (q: seq<Id>)
    ensures forall x :: x in q <==> x in s
  {
    q := [];
    var rest := s;
    while rest != {}
      invariant rest <= s && forall x :: x in q <==> x in s && x !in rest
      decreases rest
    {
      var x :| x in rest;
      rest, q := rest - {x}, q + [x];
    }
  }

  /** The stack search for one component. */
  method Component(links: LinkMap, start: Id) returns (component: set<Id>)
    requires start in links
    ensures forall x :: x in component <==> Connected(links, start, x)
  {
    component := {};
    var pending := [start];
    SelfConnected(links, start);
    while pending != []
      invariant component <= links.Keys
      invariant start in component || start in pending
      invariant forall x | x in component || x in pending :: Connected(links, start, x) && x in links
      invariant forall x, y | x in component && Adjacent(links, x, y) :: y in component || y in pending
      decreases links.Keys - component, |pending|
    {
      var current := pending[|pending| - 1];
      ghost var before := pending;
      pending := pending[..|pending| - 1];
      assert before == pending + [current];
      if current !in component {
        component := component + {current};
        forall y | y in Neighbours(links, current) ensures Connected(links, start, y) {
          ConnectedStep(links, start, current, y);
        }
        var more := Enumerate(Neighbours(links, current) - component);
        pending := pending + more;
      }
    }
    assert NeighbourClosed(links, component);
    forall x | Connected(links, start, x) ensures x in component {
      var p :| WalkBetween(links, start, x, p);
      WalkStays(links, component, p);
    }
  }
}
