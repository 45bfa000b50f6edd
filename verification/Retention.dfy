/** The bounded log of recall receipts (aoms/repositories/sqlite.py), trimmed at every save. */
module Retention {
  import opened Common

  type Id = nat

  datatype Row = Row(created: int, bytes: nat)

  type Rows = map<Id, Row>

  /** Newest first: by creation time, then by id. */
  predicate AtLeastAsNew(rows: Rows, j: Id, k: Id)
    requires j in rows && k in rows
  {
    rows[j].created > rows[k].created || (rows[j].created == rows[k].created && j >= k)
  }

  /** The rows from the newest down to `k`, with their sizes. */
  function Above(rows: Rows, k: Id): map<Id, nat>
    requires k in rows
  {
    map j | j in rows && AtLeastAsNew(rows, j, k) :: rows[j].bytes
  }

  function Position(rows: Rows, k: Id): nat
    requires k in rows
  {
    |Above(rows, k)|
  }

  ghost function RunningBytes(rows: Rows, k: Id): nat
    requires k in rows
  {
    Sum(Above(rows, k))
  }

  ghost predicate Kept(rows: Rows, limit: nat, budget: nat, k: Id) {
    k in rows && Position(rows, k) <= limit && (RunningBytes(rows, k) <= budget || Position(rows, k) == 1)
  }

  /** What the trimming statement leaves. */
  ghost function Pruned(rows: Rows, limit: nat, budget: nat): Rows {
    map k | k in rows && Kept(rows, limit, budget, k) :: rows[k]
  }

  // ---- sums of parts ----

  predicate PartOf(a: map<Id, nat>, b: map<Id, nat>) { forall k | k in a :: k in b && a[k] == b[k] }

  lemma {:induction false} PartIsSmaller(a: map<Id, nat>, b: map<Id, nat>)
    requires PartOf(a, b)
    ensures |a| <= |b| && Sum(a) <= Sum(b)
    decreases |a|
  {
    if a != map[] {
      var k :| k in a;
      PartIsSmaller(a - {k}, b - {k});
      SumRemove(a, k);
      SumRemove(b, k);
      assert |a - {k}| == |a| - 1 && |b - {k}| == |b| - 1;
    }
  }

  // ---- trimming keeps a newest-first prefix ----

  lemma AboveShrinks(rows: Rows, j: Id, k: Id)
    requires j in rows && k in rows && AtLeastAsNew(rows, j, k)
    ensures PartOf(Above(rows, j), Above(rows, k))
    ensures Position(rows, j) <= Position(rows, k) && RunningBytes(rows, j) <= RunningBytes(rows, k)
    ensures j != k ==> Position(rows, k) >= 2
  {
    PartIsSmaller(Above(rows, j), Above(rows, k));
    if j != k {
      var two: map<Id, nat> := map[j := rows[j].bytes, k := rows[k].bytes];
      assert j in two && k in two;
      PartIsSmaller(two, Above(rows, k));
      assert two.Keys == {j, k};
      assert |two| == |two.Keys|;
    }
  }

  lemma KeptIsPrefix(rows: Rows, limit: nat, budget: nat, j: Id, k: Id)
    requires j in rows && k in rows && AtLeastAsNew(rows, j, k) && Kept(rows, limit, budget, k)
    ensures Kept(rows, limit, budget, j)
  {
    AboveShrinks(rows, j, k);
  }

  lemma AboveAfterPruning(rows: Rows, limit: nat, budget: nat, k: Id)
    requires Kept(rows, limit, budget, k)
    ensures Above(Pruned(rows, limit, budget), k) == Above(rows, k)
  {
    forall j | j in Above(rows, k) ensures j in Pruned(rows, limit, budget) {
      KeptIsPrefix(rows, limit, budget, j, k);
    }
  }

  lemma {:induction false} Oldest(rows: Rows) returns (k: Id)
    requires rows != map[]
    ensures k in rows && forall j | j in rows :: AtLeastAsNew(rows, j, k)
    decreases |rows|
  {
    k :| k in rows;
    var rest := rows - {k};
    if rest != map[] {
      assert |rest| == |rows| - 1;
      var o := Oldest(rest);
      forall j | j in rest ensures AtLeastAsNew(rows, j, o) { assert AtLeastAsNew(rest, j, o); }
      if AtLeastAsNew(rows, k, o) { k := o; }
    }
    forall j | j in rows ensures AtLeastAsNew(rows, j, k) {
      assert j in rest || j !in rest;
    }
  }

  lemma {:induction false} Newest(rows: Rows) returns (k: Id)
    requires rows != map[]
    ensures k in rows && forall j | j in rows :: AtLeastAsNew(rows, k, j)
    decreases |rows|
  {
    k :| k in rows;
    var rest := rows - {k};
    if rest != map[] {
      assert |rest| == |rows| - 1;
      var o := Newest(rest);
      forall j | j in rest ensures AtLeastAsNew(rows, o, j) { assert AtLeastAsNew(rest, o, j); }
      if AtLeastAsNew(rows, o, k) { k := o; }
    }
    forall j | j in rows ensures AtLeastAsNew(rows, k, j) {
      assert j in rest || j !in rest;
    }
  }

  function Sizes(rows: Rows): map<Id, nat> { map k | k in rows :: rows[k].bytes }

  lemma AboveOldest(rows: Rows, k: Id)
    requires k in rows && forall j | j in rows :: AtLeastAsNew(rows, j, k)
    ensures Above(rows, k) == Sizes(rows) && |Sizes(rows)| == |rows|
  {
    assert Sizes(rows).Keys == rows.Keys;
    assert |Sizes(rows)| == |Sizes(rows).Keys| && |rows| == |rows.Keys|;
  }

  lemma AboveNewest(rows: Rows, k: Id)
    requires k in rows && forall j | j in rows :: AtLeastAsNew(rows, k, j)
    ensures Position(rows, k) == 1
  {
    assert Above(rows, k) == map[k := rows[k].bytes];
    assert |Above(rows, k)| == |Above(rows, k).Keys|;
    assert Above(rows, k).Keys == {k};
  }

  ghost predicate NewestFirstPrefix(rows: Rows, left: Rows) {
    && (forall k | k in left :: k in rows && left[k] == rows[k])
    && forall j, k | j in rows && k in left && AtLeastAsNew(rows, j, k) :: j in left
  }

  ghost predicate WithinBounds(left: Rows, limit: nat, budget: nat) {
    |left| <= limit && (|left| <= 1 || Sum(Sizes(left)) <= budget)
  }

  /** `k` is the newest receipt not in `left`. */
  predicate NextOlder(rows: Rows, left: Rows, k: Id) {
    k in rows && k !in left && forall j | j in rows && j != k && AtLeastAsNew(rows, j, k) :: j in left
  }

  lemma PruningFits(rows: Rows, limit: nat, budget: nat)
    ensures WithinBounds(Pruned(rows, limit, budget), limit, budget)
  {
    var left := Pruned(rows, limit, budget);
    if left != map[] {
      var o := Oldest(left);
      AboveOldest(left, o);
      AboveAfterPruning(rows, limit, budget, o);
    }
  }

  lemma PruningIsNotEmpty(rows: Rows, limit: nat, budget: nat)
    requires rows != map[] && limit >= 1
    ensures Pruned(rows, limit, budget) != map[]
  {
    var n := Newest(rows);
    AboveNewest(rows, n);
    assert n in Pruned(rows, limit, budget);
  }

  /** What is left is a newest-first prefix, within the count bound, within the byte bound unless it is
      one receipt, never empty when one may be kept, and the next older receipt would break a bound. */
  lemma PruningKeepsTheLongestPrefix(rows: Rows, limit: nat, budget: nat)
    ensures var left := Pruned(rows, limit, budget);
            && NewestFirstPrefix(rows, left) && WithinBounds(left, limit, budget)
            && (rows != map[] && limit >= 1 ==> left != map[])
            && forall k | NextOlder(rows, left, k) :: !WithinBounds(left[k := rows[k]], limit, budget)
  {
    var left := Pruned(rows, limit, budget);
    forall j, k | j in rows && k in left && AtLeastAsNew(rows, j, k) ensures j in left {
      KeptIsPrefix(rows, limit, budget, j, k);
    }
    PruningFits(rows, limit, budget);
    if rows != map[] && limit >= 1 { PruningIsNotEmpty(rows, limit, budget); }
    forall k | NextOlder(rows, left, k) ensures !WithinBounds(left[k := rows[k]], limit, budget) {
      NextBreaksABound(rows, limit, budget, k);
    }
  }

  lemma NextBreaksABound(rows: Rows, limit: nat, budget: nat, k: Id)
    requires NextOlder(rows, Pruned(rows, limit, budget), k)
    ensures !WithinBounds(Pruned(rows, limit, budget)[k := rows[k]], limit, budget)
  {
    NextAbove(rows, limit, budget, k);
    var more := Pruned(rows, limit, budget)[k := rows[k]];
    assert Sizes(more).Keys == more.Keys;
    assert |Sizes(more)| == |Sizes(more).Keys| && |more| == |more.Keys|;
  }

  lemma NextAbove(rows: Rows, limit: nat, budget: nat, k: Id)
    requires NextOlder(rows, Pruned(rows, limit, budget), k)
    ensures Above(rows, k) == Sizes(Pruned(rows, limit, budget)[k := rows[k]])
  {
    var left := Pruned(rows, limit, budget);
    forall j | j in left ensures AtLeastAsNew(rows, j, k) {
      if AtLeastAsNew(rows, k, j) { KeptIsPrefix(rows, limit, budget, k, j); }
    }
  }

  // ---- trimming at every save ----

  datatype Save = Save(id: Id, row: Row)

  function AllSaved(saves: seq<Save>): Rows {
    if saves == [] then map[]
    else AllSaved(saves[..|saves| - 1])[saves[|saves| - 1].id := saves[|saves| - 1].row]
  }

  /** The log after these saves, trimmed at each. */
  ghost function Log(saves: seq<Save>, limit: nat, budget: nat): Rows {
    if saves == [] then map[]
    else
      var last := saves[|saves| - 1];
      Pruned(Log(saves[..|saves| - 1], limit, budget)[last.id := last.row], limit, budget)
  }

  predicate Later(a: Save, b: Save) { b.row.created > a.row.created || (b.row.created == a.row.created && b.id > a.id) }

  /** Distinct receipts, each saved after every older one. */
  predicate NewestLast(saves: seq<Save>) {
    forall i, j | 0 <= i < j < |saves| :: saves[i].id != saves[j].id && Later(saves[i], saves[j])
  }

  predicate NewestOfAll(rows: Rows, s: Save) { s.id !in rows && forall k | k in rows :: Later(Save(k, rows[k]), s) }

  lemma AboveWithNewest(rows: Rows, s: Save, k: Id)
    requires NewestOfAll(rows, s) && k in rows
    ensures var all := rows[s.id := s.row];
            && Above(all, k) == Above(rows, k)[s.id := s.row.bytes]
            && Position(all, k) == Position(rows, k) + 1
            && RunningBytes(all, k) == RunningBytes(rows, k) + s.row.bytes
  {
    var all := rows[s.id := s.row];
    var above := Above(rows, k);
    assert Later(Save(k, rows[k]), s);
    assert forall j | j in rows :: all[j] == rows[j];
    assert Above(all, k) == above[s.id := s.row.bytes];
    SumInsert(above, s.id, s.row.bytes);
    assert above[s.id := s.row.bytes].Keys == above.Keys + {s.id};
    assert |above| == |above.Keys| && |Above(all, k)| == |Above(all, k).Keys|;
  }

  lemma NewestIsFirst(rows: Rows, s: Save)
    requires NewestOfAll(rows, s)
    ensures Above(rows[s.id := s.row], s.id) == map[s.id := s.row.bytes]
  {
    forall k | k in rows ensures !AtLeastAsNew(rows[s.id := s.row], k, s.id) {
      assert Later(Save(k, rows[k]), s);
    }
  }

  // ---- when trimming early is the same as trimming late ----

  lemma SizesOf(rows: Rows)
    ensures |Sizes(rows)| == |rows|
  {
    assert Sizes(rows).Keys == rows.Keys;
    assert |Sizes(rows)| == |Sizes(rows).Keys| && |rows| == |rows.Keys|;
  }

  /** A receipt is kept exactly when those from the newest down to it are within the bounds. */
  lemma KeptIff(rows: Rows, part: Rows, limit: nat, budget: nat, k: Id)
    requires k in rows && k in part && Above(rows, k) == Sizes(part)
    ensures Kept(rows, limit, budget, k) <==> WithinBounds(part, limit, budget)
  {
    SizesOf(part);
    assert part != map[];
  }

  predicate IsNewer(rows: Rows, k: Id, s: Save)
    requires k in rows
  {
    Later(s, Save(k, rows[k]))
  }

  /** `left` holds the newest of `rows`; `s` is one more receipt. The newest receipt missing from `left` would
      not have been kept with `s`, and `s` does not take the room it would have stood in. */
  ghost predicate TrimAgrees(rows: Rows, left: Rows, s: Save, limit: nat, budget: nat) {
    forall k | NextOlder(rows, left, k) ::
      if IsNewer(rows, k, s) then
        !WithinBounds(left[k := rows[k]], limit, budget) && !WithinBounds(left[s.id := s.row], limit, budget)
      else !WithinBounds(left[s.id := s.row][k := rows[k]], limit, budget)
  }

  lemma PrefixAbove(rows: Rows, left: Rows, s: Save, k: Id)
    requires NewestFirstPrefix(rows, left) && s.id !in rows && k in left
    ensures Above(rows[s.id := s.row], k) == Above(left[s.id := s.row], k)
  {}

  /** All of a newest-first prefix is newer than anything missing from it. */
  lemma PrefixIsNewer(rows: Rows, left: Rows, k: Id)
    requires NewestFirstPrefix(rows, left) && k in rows && k !in left
    ensures forall j | j in left :: AtLeastAsNew(rows, j, k) && j != k
  {
    forall j | j in left ensures !AtLeastAsNew(rows, k, j) {}
  }

  lemma NextAboveWith(rows: Rows, left: Rows, s: Save, k: Id)
    requires NewestFirstPrefix(rows, left) && s.id !in rows && NextOlder(rows, left, k)
    ensures var all := rows[s.id := s.row];
            Above(all, k) == Sizes(
              if IsNewer(rows, k, s) then left[k := rows[k]] else left[s.id := s.row][k := rows[k]])
  {
    PrefixIsNewer(rows, left, k);
    var all := rows[s.id := s.row];
    assert forall j | j in rows :: all[j] == rows[j];
  }

  lemma NewIsLast(rows: Rows, left: Rows, s: Save, k: Id)
    requires NewestFirstPrefix(rows, left) && s.id !in rows && NextOlder(rows, left, k) && IsNewer(rows, k, s)
    ensures Above(left[s.id := s.row], s.id) == Sizes(left[s.id := s.row])
    ensures AtLeastAsNew(rows[s.id := s.row], k, s.id)
  {
    PrefixIsNewer(rows, left, k);
  }

  lemma NewKeepsItsPlace(rows: Rows, left: Rows, s: Save)
    requires NewestFirstPrefix(rows, left) && s.id !in rows
    requires forall k | k in rows && k !in left :: !IsNewer(rows, k, s)
    ensures Above(rows[s.id := s.row], s.id) == Above(left[s.id := s.row], s.id)
  {}

  lemma {:induction false} NextOlderExists(rows: Rows, left: Rows) returns (k: Id)
    requires exists j :: j in rows && j !in left
    ensures NextOlder(rows, left, k)
  {
    var missing: Rows := map j | j in rows && j !in left :: rows[j];
    assert missing != map[] by { var j :| j in rows && j !in left; assert j in missing; }
    k := Newest(missing);
    forall j | j in rows && j != k && AtLeastAsNew(rows, j, k) ensures j in left {
      assert j in missing ==> AtLeastAsNew(missing, k, j);
    }
  }

  lemma NextIsNewest(rows: Rows, left: Rows, k: Id, j: Id)
    requires NewestFirstPrefix(rows, left) && NextOlder(rows, left, k) && j in rows && j !in left
    ensures AtLeastAsNew(rows, k, j)
  {
    if !AtLeastAsNew(rows, k, j) { assert AtLeastAsNew(rows, j, k) && j != k; }
  }

  /** Nothing missing from `left` is kept exactly when the newest missing receipt is not. */
  lemma MissingStayOut(rows: Rows, left: Rows, s: Save, limit: nat, budget: nat, k: Id, j: Id)
    requires NewestFirstPrefix(rows, left) && s.id !in rows && NextOlder(rows, left, k) && j in rows && j !in left
    requires Kept(rows[s.id := s.row], limit, budget, j)
    ensures Kept(rows[s.id := s.row], limit, budget, k)
  {
    NextIsNewest(rows, left, k, j);
    KeptIsPrefix(rows[s.id := s.row], limit, budget, k, j);
  }

  ghost predicate SameTrim(rows: Rows, left: Rows, s: Save, limit: nat, budget: nat) {
    Pruned(left[s.id := s.row], limit, budget) == Pruned(rows[s.id := s.row], limit, budget)
  }

  /** Both trims agree when they agree on the new receipt and keep nothing that is missing. */
  lemma SameTrimIff(rows: Rows, left: Rows, s: Save, limit: nat, budget: nat)
    requires NewestFirstPrefix(rows, left) && s.id !in rows
    ensures SameTrim(rows, left, s, limit, budget)
            <==> && (Kept(left[s.id := s.row], limit, budget, s.id) <==> Kept(rows[s.id := s.row], limit, budget, s.id))
                 && forall k | k in rows && k !in left :: !Kept(rows[s.id := s.row], limit, budget, k)
  {
    var some, all := left[s.id := s.row], rows[s.id := s.row];
    forall k | k in left ensures Kept(some, limit, budget, k) <==> Kept(all, limit, budget, k) {
      PrefixAbove(rows, left, s, k);
    }
    SamePrunedIff(some, all, limit, budget);
  }

  lemma SamePrunedIff(some: Rows, all: Rows, limit: nat, budget: nat)
    requires forall k | k in some :: k in all && all[k] == some[k]
    ensures Pruned(some, limit, budget) == Pruned(all, limit, budget)
            <==> forall k | k in all :: Kept(some, limit, budget, k) <==> Kept(all, limit, budget, k)
  {
    if Pruned(some, limit, budget) == Pruned(all, limit, budget) {
      forall k | k in all ensures Kept(some, limit, budget, k) <==> Kept(all, limit, budget, k) {
        assert k in Pruned(some, limit, budget) <==> k in Pruned(all, limit, budget);
      }
    }
  }

  lemma NoneMissing(rows: Rows, left: Rows, s: Save, limit: nat, budget: nat)
    requires NewestFirstPrefix(rows, left) && s.id !in rows && forall k | k in rows :: k in left
    ensures SameTrim(rows, left, s, limit, budget) && TrimAgrees(rows, left, s, limit, budget)
  {
    assert left == rows;
  }

  lemma TrimAgreesIff(rows: Rows, left: Rows, s: Save, limit: nat, budget: nat)
    requires NewestFirstPrefix(rows, left) && s.id !in rows
    ensures SameTrim(rows, left, s, limit, budget) <==> TrimAgrees(rows, left, s, limit, budget)
  {
    if forall k | k in rows :: k in left {
      NoneMissing(rows, left, s, limit, budget);
    } else {
      var k := NextOlderExists(rows, left);
      TrimAgreesAt(rows, left, s, limit, budget, k);
      forall j | NextOlder(rows, left, j) ensures j == k {
        NextIsNewest(rows, left, k, j);
        NextIsNewest(rows, left, j, k);
      }
    }
  }

  lemma TrimAgreesAt(rows: Rows, left: Rows, s: Save, limit: nat, budget: nat, k: Id)
    requires NewestFirstPrefix(rows, left) && s.id !in rows && NextOlder(rows, left, k)
    ensures SameTrim(rows, left, s, limit, budget)
            <==> if IsNewer(rows, k, s) then
                   !WithinBounds(left[k := rows[k]], limit, budget) && !WithinBounds(left[s.id := s.row], limit, budget)
                 else !WithinBounds(left[s.id := s.row][k := rows[k]], limit, budget)
  {
    var some, all := left[s.id := s.row], rows[s.id := s.row];
    SameTrimIff(rows, left, s, limit, budget);
    NextAboveWith(rows, left, s, k);
    KeptIff(all, if IsNewer(rows, k, s) then left[k := rows[k]] else some[k := rows[k]], limit, budget, k);
    forall j | j in rows && j !in left && Kept(all, limit, budget, j) ensures Kept(all, limit, budget, k) {
      MissingStayOut(rows, left, s, limit, budget, k, j);
    }
    if IsNewer(rows, k, s) {
      NewIsLast(rows, left, s, k);
      KeptIff(some, some, limit, budget, s.id);
      if Kept(all, limit, budget, s.id) { KeptIsPrefix(all, limit, budget, k, s.id); }
    } else {
      forall j | j in rows && j !in left ensures !IsNewer(rows, j, s) {
        NextIsNewest(rows, left, k, j);
      }
      NewKeepsItsPlace(rows, left, s);
    }
  }

  /** A save as the table sees it: whatever carried its id goes, from the log as from the full history. */
  ghost predicate SaveAgrees(rows: Rows, s: Save, limit: nat, budget: nat) {
    TrimAgrees(rows - {s.id}, Pruned(rows, limit, budget) - {s.id}, s, limit, budget)
  }

  /** Any save, of a new receipt or over an existing one, in any order of time: trimming before it and
      after it equals trimming once after it, if and only if the save agrees. */
  lemma SaveAgreesIff(rows: Rows, s: Save, limit: nat, budget: nat)
    ensures SaveAgrees(rows, s, limit, budget) <==>
            Pruned(Pruned(rows, limit, budget)[s.id := s.row], limit, budget)
            == Pruned(rows[s.id := s.row], limit, budget)
  {
    var left := Pruned(rows, limit, budget);
    Replaced(rows, s);
    Replaced(left, s);
    assert NewestFirstPrefix(rows - {s.id}, left - {s.id}) by {
      PruningKeepsTheLongestPrefix(rows, limit, budget);
      PrefixWithout(rows, left, s.id);
    }
    TrimAgreesIff(rows - {s.id}, left - {s.id}, s, limit, budget);
  }

  lemma Replaced(rows: Rows, s: Save)
    ensures s.id !in rows - {s.id} && (rows - {s.id})[s.id := s.row] == rows[s.id := s.row]
  {}

  lemma PrefixWithout(rows: Rows, left: Rows, id: Id)
    requires NewestFirstPrefix(rows, left)
    ensures NewestFirstPrefix(rows - {id}, left - {id})
  {
    forall j, k | j in rows - {id} && k in left - {id} && AtLeastAsNew(rows - {id}, j, k) ensures j in left - {id} {
      assert AtLeastAsNew(rows, j, k);
    }
  }

  lemma MoreBreaksToo(left: Rows, more: Rows, limit: nat, budget: nat)
    requires !WithinBounds(left, limit, budget) && forall k | k in left :: k in more && more[k] == left[k]
    ensures !WithinBounds(more, limit, budget)
  {
    PartIsSmaller(Sizes(left), Sizes(more));
    SizesOf(left);
    SizesOf(more);
  }

  /** For a receipt saved for the first time this comes to: no trimmed receipt is newer, or the trimmed log
      has no room left for it. */
  lemma FreshSaveAgreesIff(rows: Rows, s: Save, limit: nat, budget: nat)
    requires s.id !in rows
    ensures var left := Pruned(rows, limit, budget);
            SaveAgrees(rows, s, limit, budget)
            <==> || (forall k | k in rows && k !in left :: !IsNewer(rows, k, s))
                 || !WithinBounds(left[s.id := s.row], limit, budget)
  {
    assert rows - {s.id} == rows && Pruned(rows, limit, budget) - {s.id} == Pruned(rows, limit, budget);
    FreshTrimAgreesIff(rows, Pruned(rows, limit, budget), s, limit, budget) by {
      PruningKeepsTheLongestPrefix(rows, limit, budget);
    }
  }

  lemma FreshTrimAgreesIff(rows: Rows, left: Rows, s: Save, limit: nat, budget: nat)
    requires NewestFirstPrefix(rows, left) && s.id !in rows
    requires forall k | NextOlder(rows, left, k) :: !WithinBounds(left[k := rows[k]], limit, budget)
    ensures TrimAgrees(rows, left, s, limit, budget)
            <==> || (forall k | k in rows && k !in left :: !IsNewer(rows, k, s))
                 || !WithinBounds(left[s.id := s.row], limit, budget)
  {
    forall k | NextOlder(rows, left, k) ensures !WithinBounds(left[s.id := s.row][k := rows[k]], limit, budget) {
      MoreBreaksToo(left[k := rows[k]], left[s.id := s.row][k := rows[k]], limit, budget);
    }
    if j :| j in rows && j !in left && IsNewer(rows, j, s) {
      var k := NextOlderExists(rows, left);
      NextIsNewest(rows, left, k, j);
      assert IsNewer(rows, k, s);
    }
  }

  /** Trimming before a newer receipt arrives loses nothing that trimming after it would keep. */
  lemma PruneEarly(rows: Rows, s: Save, limit: nat, budget: nat)
    requires NewestOfAll(rows, s)
    ensures Pruned(Pruned(rows, limit, budget)[s.id := s.row], limit, budget)
        == Pruned(rows[s.id := s.row], limit, budget)
  {
    SaveAgreesIff(rows, s, limit, budget);
    FreshSaveAgreesIff(rows, s, limit, budget);
    forall k | k in rows ensures !IsNewer(rows, k, s) { assert Later(Save(k, rows[k]), s); }
  }

  // ---- whole histories ----

  /** After this and every earlier save the log is what one trim of the full history leaves. */
  ghost predicate AgreesThroughout(saves: seq<Save>, limit: nat, budget: nat) {
    && Log(saves, limit, budget) == Pruned(AllSaved(saves), limit, budget)
    && (saves != [] ==> AgreesThroughout(saves[..|saves| - 1], limit, budget))
  }

  ghost predicate EverySaveAgrees(saves: seq<Save>, limit: nat, budget: nat) {
    saves != [] ==>
      && EverySaveAgrees(saves[..|saves| - 1], limit, budget)
      && SaveAgrees(AllSaved(saves[..|saves| - 1]), saves[|saves| - 1], limit, budget)
  }

  /** In whatever order receipts are saved and saved again: trimming at every save equals trimming the full
      history once, throughout, if and only if every save agrees. */
  lemma {:induction false} IncrementalEqualsBatchIff(saves: seq<Save>, limit: nat, budget: nat)
    ensures AgreesThroughout(saves, limit, budget) <==> EverySaveAgrees(saves, limit, budget)
  {
    if saves == [] {
      assert Pruned(map[], limit, budget) == map[];
    } else {
      var init, last := saves[..|saves| - 1], saves[|saves| - 1];
      IncrementalEqualsBatchIff(init, limit, budget);
      SaveAgreesIff(AllSaved(init), last, limit, budget);
    }
  }

  lemma {:induction false} SavedIsOlder(saves: seq<Save>, s: Save)
    requires forall i | 0 <= i < |saves| :: saves[i].id != s.id && Later(saves[i], s)
    ensures NewestOfAll(AllSaved(saves), s)
  {
    if saves != [] { SavedIsOlder(saves[..|saves| - 1], s); }
  }

  /** For receipts saved newest last, trimming at every save leaves exactly what trimming the full
      history once would. */
  lemma {:induction false} IncrementalEqualsBatch(saves: seq<Save>, limit: nat, budget: nat)
    requires NewestLast(saves)
    ensures Log(saves, limit, budget) == Pruned(AllSaved(saves), limit, budget)
  {
    if saves != [] {
      var init, last := saves[..|saves| - 1], saves[|saves| - 1];
      IncrementalEqualsBatch(init, limit, budget);
      SavedIsOlder(init, last);
      PruneEarly(AllSaved(init), last, limit, budget);
    }
  }

  const OUTSIZED := Save(1, Row(2, 10))
  const NEWEST := Save(2, Row(3, 1))
  const OLDEST := Save(3, Row(1, 1))

  lemma TwoSaved()
    ensures AllSaved([OUTSIZED]) == map[1 := OUTSIZED.row]
    ensures AllSaved([OUTSIZED, NEWEST]) == map[1 := OUTSIZED.row, 2 := NEWEST.row]
  {
    assert [OUTSIZED, NEWEST][..1] == [OUTSIZED] && [OUTSIZED][..0] == [];
  }

  lemma OutsizedIsOver()
    ensures Pruned(map[1 := OUTSIZED.row, 2 := NEWEST.row], 9, 5) == map[2 := NEWEST.row]
  {
    var one: Rows := map[1 := OUTSIZED.row];
    OnlyOne(one, 1);
    AboveWithNewest(one, NEWEST, 1);
    KeptFirst(one, NEWEST, 9, 5);
    assert one[2 := NEWEST.row] == map[1 := OUTSIZED.row, 2 := NEWEST.row];
  }

  lemma NewestDropsOutsized()
    ensures Log([OUTSIZED, NEWEST], 9, 5) == map[2 := NEWEST.row]
  {
    IncrementalEqualsBatch([OUTSIZED, NEWEST], 9, 5);
    TwoSaved();
    OutsizedIsOver();
  }

  lemma KeptFirst(rows: Rows, s: Save, limit: nat, budget: nat)
    requires NewestOfAll(rows, s) && limit >= 1
    ensures Kept(rows[s.id := s.row], limit, budget, s.id)
  {
    NewestIsFirst(rows, s);
    assert |map[s.id := s.row.bytes].Keys| == 1;
  }

  lemma OldestFitsBehindNewest()
    ensures Kept(map[2 := NEWEST.row, 3 := OLDEST.row], 9, 5, 3)
  {
    var rows: Rows := map[3 := OLDEST.row];
    OnlyOne(rows, 3);
    AboveWithNewest(rows, NEWEST, 3);
    assert rows[2 := NEWEST.row] == map[2 := NEWEST.row, 3 := OLDEST.row];
  }

  lemma OldestMissesInFull()
    ensures !Kept(map[1 := OUTSIZED.row, 2 := NEWEST.row, 3 := OLDEST.row], 9, 5, 3)
  {
    var rows: Rows := map[3 := OLDEST.row];
    OnlyOne(rows, 3);
    AboveWithNewest(rows, OUTSIZED, 3);
    AboveWithNewest(rows[1 := OUTSIZED.row], NEWEST, 3);
    assert rows[1 := OUTSIZED.row][2 := NEWEST.row] == map[1 := OUTSIZED.row, 2 := NEWEST.row, 3 := OLDEST.row];
  }

  /** The order of saving matters: a receipt older than one already trimmed may stay although the full
      history, trimmed once, would drop it. */
  lemma OutOfOrderSaveDiffers()
    ensures var saves := [OUTSIZED, NEWEST, OLDEST];
            !NewestLast(saves) && 3 in Log(saves, 9, 5) && 3 !in Pruned(AllSaved(saves), 9, 5)
  {
    var saves := [OUTSIZED, NEWEST, OLDEST];
    assert saves[..2] == [OUTSIZED, NEWEST] && [OUTSIZED, NEWEST][..1] == [OUTSIZED] && [OUTSIZED][..0] == [];
    assert !Later(saves[1], saves[2]);
    NewestDropsOutsized();
    var small: Rows := map[2 := NEWEST.row];
    assert small[3 := OLDEST.row] == map[2 := NEWEST.row, 3 := OLDEST.row];
    OldestFitsBehindNewest();
    TwoSaved();
    assert AllSaved(saves) == map[1 := OUTSIZED.row, 2 := NEWEST.row][3 := OLDEST.row];
    assert map[1 := OUTSIZED.row, 2 := NEWEST.row][3 := OLDEST.row]
        == map[1 := OUTSIZED.row, 2 := NEWEST.row, 3 := OLDEST.row];
    OldestMissesInFull();
  }

  lemma OnlyOne(rows: Rows, k: Id)
    requires rows.Keys == {k}
    ensures Position(rows, k) == 1 && RunningBytes(rows, k) == rows[k].bytes
  {
    assert Above(rows, k) == map[k := rows[k].bytes];
    SumInsert(map[], k, rows[k].bytes);
    assert |Above(rows, k).Keys| == 1;
  }

  // ---- the trimming statement ----

  method NewestOf(rows: Rows) returns (k: Id)
    requires rows != map[]
    ensures k in rows && forall j | j in rows :: AtLeastAsNew(rows, k, j)
  {
    k :| k in rows;
    var left := rows.Keys - {k};
    while left != {}
      invariant left <= rows.Keys && k in rows
      invariant forall j | j in rows && j !in left :: AtLeastAsNew(rows, k, j)
      decreases left
    {
      var j :| j in left;
      if rows[j].created > rows[k].created || (rows[j].created == rows[k].created && j > k) {
        k := j;
      }
      left := left - {j};
    }
  }

  /** Number the receipts newest first, add up their sizes, keep those within both bounds and the first. */
  method KeepNewest(rows: Rows, limit: nat, budget: nat) returns (kept: Rows)
    ensures kept == Pruned(rows, limit, budget) && kept.Keys <= rows.Keys
  {
    var rest := rows;
    kept := map[];
    var position: nat, running: nat := 0, 0;
    while rest != map[]
      invariant Numbered(rows, rest, position, running)
      invariant kept == KeptOf(rows, rest, limit, budget)
      decreases |rest|
    {
      var k := NewestOf(rest);
      NextInOrder(rows, rest, k, position, running);
      KeptOfNext(rows, rest, k, limit, budget);
      position, running := position + 1, running + rows[k].bytes;
      if position <= limit && (running <= budget || position == 1) {
        kept := kept[k := rows[k]];
      }
      assert |rest - {k}| == |rest| - 1;
      rest := rest - {k};
    }
  }

  // ---- the log object ----

  class ReceiptLog {
    var rows: Rows
    const limit: nat
    const budget: nat

    constructor (limit: nat, budget: nat)
      ensures rows == map[] && this.limit == limit && this.budget == budget
    {
      rows := map[];
      this.limit, this.budget := limit, budget;
    }

    method EnforceReceiptRetention() returns (deleted: nat)
      modifies this`rows
      ensures rows == Pruned(old(rows), limit, budget) && deleted == |old(rows)| - |rows|
    {
      var kept := KeepNewest(rows, limit, budget);
      SubsetSize(kept.Keys, rows.Keys);
      deleted := |rows| - |kept|;
      rows := kept;
    }

    /** An insert that replaces a receipt of the same id, then the trim. */
    method SaveRecallReceipt(id: Id, row: Row)
      modifies this`rows
      ensures rows == Pruned(old(rows)[id := row], limit, budget)
    {
      rows := rows[id := row];
      var _ := EnforceReceiptRetention();
    }
  }

  /** The receipts outside `rest` are the newest ones, numbered and added up. */
  ghost predicate Numbered(rows: Rows, rest: Rows, position: nat, running: nat) {
    && (forall k | k in rest :: k in rows && rest[k] == rows[k])
    && (forall j, k | j in rows && j !in rest && k in rest :: AtLeastAsNew(rows, j, k))
    && position == |Sizes(Taken(rows, rest))| && running == Sum(Sizes(Taken(rows, rest)))
  }

  /** The kept ones among those numbered so far. */
  ghost function KeptOf(rows: Rows, rest: Rows, limit: nat, budget: nat): Rows {
    map k | k in rows && k !in rest && Kept(rows, limit, budget, k) :: rows[k]
  }

  lemma KeptOfNext(rows: Rows, rest: Rows, k: Id, limit: nat, budget: nat)
    requires k in rows && k in rest
    ensures var kept := KeptOf(rows, rest, limit, budget);
            KeptOf(rows, rest - {k}, limit, budget) == if Kept(rows, limit, budget, k) then kept[k := rows[k]] else kept
  {}

  function Taken(rows: Rows, rest: Rows): Rows { map k | k in rows && k !in rest :: rows[k] }

  lemma NextInOrder(rows: Rows, rest: Rows, k: Id, position: nat, running: nat)
    requires Numbered(rows, rest, position, running) && k in rest && forall j | j in rest :: AtLeastAsNew(rest, k, j)
    ensures Position(rows, k) == position + 1 && RunningBytes(rows, k) == running + rows[k].bytes
    ensures Numbered(rows, rest - {k}, position + 1, running + rows[k].bytes)
  {
    var taken := Sizes(Taken(rows, rest));
    OneMoreTaken(rows, rest, k);
    SumInsert(taken, k, rows[k].bytes);
  }

  lemma OneMoreTaken(rows: Rows, rest: Rows, k: Id)
    requires (forall j | j in rest :: j in rows && rest[j] == rows[j]) && k in rest
    requires forall j | j in rest :: AtLeastAsNew(rest, k, j)
    requires forall j | j in rows && j !in rest :: AtLeastAsNew(rows, j, k)
    ensures var taken := Sizes(Taken(rows, rest));
            && k !in taken && Above(rows, k) == taken[k := rows[k].bytes]
            && Sizes(Taken(rows, rest - {k})) == taken[k := rows[k].bytes]
    ensures forall j | j in rest && j != k :: AtLeastAsNew(rows, k, j)
  {
    forall j | j in rest && j != k ensures !AtLeastAsNew(rows, j, k) && AtLeastAsNew(rows, k, j) {
      assert AtLeastAsNew(rest, k, j);
    }
  }
}
