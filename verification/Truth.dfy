/** Timeline reconstruction from declared links (aoms/truth.py):
    validity windows and activity at an instant. */
module Truth {
  import opened Common

  type Id = nat
  type Time = int

  /** What the reconstruction reads of a record. */
  datatype Node = Node(id: Id, createdAt: Time, supersedes: Option<Id>)

  datatype Version = Version(
    node: Node,
    validFrom: Time,
    validUntil: Option<Time>,
    successors: seq<Node>,
    active: bool)

  /** Key (created_at, id). */
  predicate Before(a: Node, b: Node) {
    a.createdAt < b.createdAt || (a.createdAt == b.createdAt && a.id <= b.id)
  }

  ghost predicate Sorted(s: seq<Node>) {
    forall i, j | 0 <= i < j < |s| :: Before(s[i], s[j])
  }

  function Insert(s: seq<Node>, x: Node): seq<Node> {
    if s == [] || Before(x, s[0]) then [x] + s else [s[0]] + Insert(s[1..], x)
  }

  /** `sorted(..., key=(created_at, id))`. */
  function SortByCreation(s: seq<Node>): seq<Node> {
    if s == [] then [] else Insert(SortByCreation(s[..|s| - 1]), s[|s| - 1])
  }

  lemma {:induction false} InsertAdds(s: seq<Node>, x: Node)
    ensures multiset(Insert(s, x)) == multiset(s) + multiset{x}
  {
    if s != [] && !Before(x, s[0]) {
      InsertAdds(s[1..], x);
      assert s == [s[0]] + s[1..];
    }
  }

  lemma {:induction false} InsertSorts(s: seq<Node>, x: Node)
    requires Sorted(s)
    ensures Sorted(Insert(s, x))
  {
    if s != [] && !Before(x, s[0]) {
      InsertSorts(s[1..], x);
      InsertAdds(s[1..], x);
      forall y | y in Insert(s[1..], x) ensures Before(s[0], y) {
        assert y in multiset(Insert(s[1..], x));
        assert y == x || y in s[1..];
      }
    } else {
      assert s == [] || forall j | 0 <= j < |s| :: Before(x, s[j]);
    }
  }

  lemma {:induction false} SortSorts(s: seq<Node>)
    ensures Sorted(SortByCreation(s)) && multiset(SortByCreation(s)) == multiset(s)
    ensures var sorted := SortByCreation(s);
            forall i, j | 0 <= i < j < |sorted| ::
              || sorted[i].createdAt < sorted[j].createdAt
              || (sorted[i].createdAt == sorted[j].createdAt && sorted[i].id <= sorted[j].id)
  {
    if s != [] {
      SortSorts(s[..|s| - 1]);
      InsertSorts(SortByCreation(s[..|s| - 1]), s[|s| - 1]);
      InsertAdds(SortByCreation(s[..|s| - 1]), s[|s| - 1]);
      assert s == s[..|s| - 1] + [s[|s| - 1]];
    }
  }

  lemma SortKeepsMembers(s: seq<Node>)
    ensures Sorted(SortByCreation(s))
    ensures forall x :: x in SortByCreation(s) <==> x in s
  {
    SortSorts(s);
    forall x ensures x in SortByCreation(s) <==> x in s {
      assert x in multiset(SortByCreation(s)) <==> x in multiset(s);
    }
  }

  /** `r` has been written and nothing that supersedes it has, as of `t`. */
  ghost predicate ActiveAt(records: seq<Node>, r: Node, t: Time) {
    && r.createdAt <= t
    && forall q | q in records && q.supersedes == Some(r.id) :: t < q.createdAt
  }

  ghost predicate Superseded(records: seq<Node>, r: Node) {
    exists q :: q in records && q.supersedes == Some(r.id)
  }

  ghost predicate ActiveOnBoundary(records: seq<Node>, r: Node, asOf: Option<Time>) {
    if asOf.Some? then ActiveAt(records, r, asOf.value) else !Superseded(records, r)
  }

  ghost predicate VersionOf(records: seq<Node>, r: Node, asOf: Option<Time>, v: Version) {
    && v.node == r && v.validFrom == r.createdAt
    && (forall q :: q in v.successors <==> q in records && q.supersedes == Some(r.id))
    && Sorted(v.successors)
    && (v.validUntil.None? <==> !Superseded(records, r))
    && (v.validUntil.Some? ==>
          && (exists q :: q in records && q.supersedes == Some(r.id) && q.createdAt == v.validUntil.value)
          && (forall q | q in records && q.supersedes == Some(r.id) :: v.validUntil.value <= q.createdAt))
    && (v.active <==> ActiveOnBoundary(records, r, asOf))
  }

  /** The successor lists, one per id of the sorted records, in sorted order. */
  method GroupSuccessors(sorted: seq<Node>) returns (successors: map<Id, seq<Node>>)
    ensures forall r | r in sorted :: r.id in successors
    ensures forall id | id in successors :: forall q :: q in successors[id] <==> q in sorted && q.supersedes == Some(id)
  {
    var ids := set r | r in sorted :: r.id;
    successors := map id | id in ids :: [];
    for i := 0 to |sorted|
      invariant successors.Keys == ids
      invariant forall id | id in ids :: forall q ::
          q in successors[id] <==> q in sorted[..i] && q.supersedes == Some(id)
    {
      var r := sorted[i];
      if r.supersedes.Some? && r.supersedes.value in ids {
        var p := r.supersedes.value;
        successors := successors[p := successors[p] + [r]];
      }
      assert sorted[..i + 1] == sorted[..i] + [r];
    }
    assert sorted[..|sorted|] == sorted;
  }

  function FirstCreated(direct: seq<Node>): Option<Time> {
    if direct != [] then Some(direct[0].createdAt) else None
  }

  method BuildVersion(ghost records: seq<Node>, r: Node, direct: seq<Node>, asOf: Option<Time>) returns (v: Version)
    requires Sorted(direct) && forall q :: q in direct <==> q in records && q.supersedes == Some(r.id)
    ensures VersionOf(records, r, asOf, v)
  {
    var until := FirstCreated(direct);
    var active := until.None?;
    if asOf.Some? {
      active := r.createdAt <= asOf.value && (until.None? || asOf.value < until.value);
    }
    v := Version(r, r.createdAt, until, direct, active);
  }

  method ReconstructTimeline(records: seq<Node>, asOf: Option<Time>) returns (versions: seq<Version>)
    ensures |versions| == |SortByCreation(records)|
    ensures forall i | 0 <= i < |versions| :: VersionOf(records, SortByCreation(records)[i], asOf, versions[i])
  {
    var sorted := SortByCreation(records);
    SortKeepsMembers(records);
    var successors := GroupSuccessors(sorted);
    versions := [];
    for i := 0 to |sorted|
      invariant |versions| == i
      invariant forall j | 0 <= j < i :: VersionOf(records, sorted[j], asOf, versions[j])
    {
      var r := sorted[i];
      var direct := SortByCreation(successors[r.id]);
      SortKeepsMembers(successors[r.id]);
      assert forall q :: q in direct <==> q in records && q.supersedes == Some(r.id);
      var v := BuildVersion(records, r, direct, asOf);
      versions := versions + [v];
    }
  }

  function CreatedBy(records: seq<Node>, t: Time): seq<Node> {
    if records == [] then []
    else CreatedBy(records[..|records| - 1], t)
         + if records[|records| - 1].createdAt <= t then [records[|records| - 1]] else []
  }

  lemma {:induction false} CreatedByMembers(records: seq<Node>, t: Time)
    ensures forall q :: q in CreatedBy(records, t) <==> q in records && q.createdAt <= t
  {
    if records != [] {
      CreatedByMembers(records[..|records| - 1], t);
      assert records == records[..|records| - 1] + [records[|records| - 1]];
    }
  }

  /** Reading the past from the full record set or from what existed at that instant is the same:
      later records never change what was active. */
  lemma {:induction false} PastReadsAgree(records: seq<Node>, t: Time, r: Node)
    ensures ActiveAt(records, r, t) <==> ActiveAt(CreatedBy(records, t), r, t)
    ensures r.createdAt <= t ==> (ActiveAt(records, r, t) <==> !Superseded(CreatedBy(records, t), r))
  {
    CreatedByMembers(records, t);
  }
}
