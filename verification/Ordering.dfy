/** ORDER BY rank, id LIMIT n over a set of ids:
    the order in which claims and scans take rows. */

module Ordering {
  import opened Common

  type Id = nat

  predicate Ahead(rank: Id -> int, a: Id, b: Id) {
    rank(a) < rank(b) || (rank(a) == rank(b) && a <= b)
  }

  ghost predicate IsFirst(s: set<Id>, rank: Id -> int, x: Id) {
    x in s && forall y | y in s :: Ahead(rank, x, y)
  }

  lemma {:induction false} FirstExists(s: set<Id>, rank: Id -> int) returns (x: Id)
    requires s != {}
    ensures IsFirst(s, rank, x)
    decreases |s|
  {
    var a :| a in s;
    x := a;
    var rest := s - {a};
    if rest != {} {
      var b := FirstExists(rest, rank);
      if !Ahead(rank, a, b) { x := b; }
      forall y | y in s ensures Ahead(rank, x, y) {
        assert y == a || y in rest;
      }
    }
  }

  function First(s: set<Id>, rank: Id -> int): (x: Id)
    requires s != {}
    ensures IsFirst(s, rank, x)
  {
    assert exists x :: IsFirst(s, rank, x) by { var x := FirstExists(s, rank); }
    var x :| x in s && forall y | y in s :: Ahead(rank, x, y);
    x
  }

  /** The first `limit` members in order. */
  function Page(s: set<Id>, rank: Id -> int, limit: nat): (page: seq<Id>)
    ensures forall x | x in page :: x in s
    ensures limit > 0 && s != {} ==> page != []
    decreases limit
  {
    if limit == 0 || s == {} then []
    else
      var x := First(s, rank);
      [x] + Page(s - {x}, rank, limit - 1)
  }

  function Least(a: nat, b: nat): nat { if a < b then a else b }

  /** A page takes as many members as there are, up to the limit. */
  lemma {:induction false} PageLength(s: set<Id>, rank: Id -> int, limit: nat)
    ensures |Page(s, rank, limit)| == Least(|s|, limit)
    decreases limit
  {
    if limit > 0 && s != {} {
      var x := First(s, rank);
      assert x in s && |s - {x}| == |s| - 1;
      PageLength(s - {x}, rank, limit - 1);
    }
  }

  /** A page is strictly in order. */
  lemma {:induction false} PageOrder(s: set<Id>, rank: Id -> int, limit: nat, i: nat, j: nat)
    requires i < j < |Page(s, rank, limit)|
    ensures var page := Page(s, rank, limit); page[i] != page[j] && Ahead(rank, page[i], page[j])
    decreases limit
  {
    var x := First(s, rank);
    var rest := Page(s - {x}, rank, limit - 1);
    if i > 0 {
      PageOrder(s - {x}, rank, limit - 1, i - 1, j - 1);
    } else {
      assert rest[j - 1] in rest;
    }
  }

  /** Whatever a page leaves behind comes after all of it. */
  lemma {:induction false} PageLeast(s: set<Id>, rank: Id -> int, limit: nat, a: Id, b: Id)
    requires a in Page(s, rank, limit) && b in s && b !in Page(s, rank, limit)
    ensures Ahead(rank, a, b)
    decreases limit
  {
    var x := First(s, rank);
    if a != x { PageLeast(s - {x}, rank, limit - 1, a, b); }
  }

  lemma {:induction false} DistinctMembers(page: seq<Id>)
    requires Distinct(page)
    ensures |Elements(page)| == |page|
  {
    if page != [] {
      var rest := page[1..];
      DistinctMembers(rest);
      assert page == [page[0]] + rest;
      assert Elements(page) == {page[0]} + Elements(rest);
    }
  }

  lemma PageDistinct(s: set<Id>, rank: Id -> int, limit: nat)
    ensures Distinct(Page(s, rank, limit))
    ensures |Elements(Page(s, rank, limit))| == Least(|s|, limit)
  {
    var page := Page(s, rank, limit);
    forall i, j | 0 <= i < j < |page| ensures page[i] != page[j] { PageOrder(s, rank, limit, i, j); }
    DistinctMembers(page);
    PageLength(s, rank, limit);
  }
}
