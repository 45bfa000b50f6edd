/** Which record wins a tier-wide key (scripts/recover_blobs_v2.py selection_key and _scan_tier). */
module Selection {
  import opened Common

  type Key = string

  /** A missing time stands for minus infinity. */
  datatype Stamp = Stamp(time: Option<real>, priority: nat)

  /** A keyed data object; its position among these is its sequence number. */
  datatype Entry = Entry(file: nat, key: Key, stamp: Stamp, bytes: nat)

  /** The first timestamp field that parsed; earlier fields have the higher priority. */
  function SelectionKey(parsed: seq<Option<real>>): Stamp {
    if parsed == [] then Stamp(None, 0)
    else if parsed[0].Some? then Stamp(parsed[0], |parsed|)
    else SelectionKey(parsed[1..])
  }

  predicate Newer(a: Stamp, b: Stamp) {
    if a.time.None? then b.time.None? && a.priority > b.priority
    else b.time.None? || a.time.value > b.time.value || (a.time.value == b.time.value && a.priority > b.priority)
  }

  /** Whether `e` takes its key over from the winners `m` of `entries`. */
  predicate Wins(entries: seq<Entry>, m: map<Key, nat>, e: Entry)
    requires e.key in m ==> m[e.key] < |entries|
  {
    e.key !in m || Newer(e.stamp, entries[m[e.key]].stamp)
  }

  predicate PointsInto(m: map<Key, nat>, entries: seq<Entry>) { forall k | k in m :: m[k] < |entries| }

  /** The sequence number kept for each key after seeing these entries. */
  function Best(entries: seq<Entry>): (m: map<Key, nat>)
    ensures PointsInto(m, entries)
    ensures forall k | k in m :: entries[m[k]].key == k
  {
    if entries == [] then map[]
    else
      var n := |entries| - 1;
      var m := Best(entries[..n]);
      if Wins(entries[..n], m, entries[n]) then m[entries[n].key := n] else m
  }

  lemma BestSnoc(entries: seq<Entry>, e: Entry)
    ensures var m := Best(entries);
            Best(entries + [e]) == if Wins(entries, m, e) then m[e.key := |entries|] else m
  {
    assert (entries + [e])[..|entries|] == entries;
  }

  /** The stamp of a record is the first of its fields that parsed, and an earlier field gives the higher
      priority; a record without any has neither. */
  lemma {:induction false} StampIsFirstParsed(parsed: seq<Option<real>>, i: nat)
    requires i < |parsed| && parsed[i].Some? && forall j | 0 <= j < i :: parsed[j].None?
    ensures SelectionKey(parsed) == Stamp(parsed[i], |parsed| - i)
    decreases i
  {
    if i > 0 { StampIsFirstParsed(parsed[1..], i - 1); }
  }

  lemma {:induction false} NothingParsed(parsed: seq<Option<real>>)
    requires forall j | 0 <= j < |parsed| :: parsed[j].None?
    ensures SelectionKey(parsed) == Stamp(None, 0)
  {
    if parsed != [] { NothingParsed(parsed[1..]); }
  }

  /** `w` has a time if `o` has one, and none earlier; at the same time it has no lower priority. */
  ghost predicate AsNew(w: Stamp, o: Stamp) {
    && (o.time.Some? ==> w.time.Some? && w.time.value >= o.time.value)
    && (w.time == o.time ==> w.priority >= o.priority)
  }

  ghost predicate FirstNewest(entries: seq<Entry>, m: map<Key, nat>, i: nat)
    requires i < |entries|
  {
    && entries[i].key in m && m[entries[i].key] < |entries|
    && var w := m[entries[i].key];
       && entries[w].key == entries[i].key
       && AsNew(entries[w].stamp, entries[i].stamp)
       && (entries[w].stamp == entries[i].stamp ==> w <= i)
  }

  lemma FirstNewestKept(entries: seq<Entry>, e: Entry, i: nat)
    requires i < |entries| && FirstNewest(entries, Best(entries), i)
    ensures FirstNewest(entries + [e], Best(entries + [e]), i)
  {
    var m := Best(entries);
    BestSnoc(entries, e);
    var all := entries + [e];
    var w := m[entries[i].key];
    assert all[i] == entries[i] && all[w] == entries[w] && all[|entries|] == e;
  }

  /** Every key seen has a winner: it is timed if any holder of the key is, no holder has a later time, at
      its own time none has a higher priority, and of those that tie with it in both it is the first. */
  lemma {:induction false} BestIsFirstMaximum(entries: seq<Entry>, i: nat)
    requires i < |entries|
    ensures FirstNewest(entries, Best(entries), i)
    decreases |entries|
  {
    var n := |entries| - 1;
    var init, e := entries[..n], entries[n];
    assert entries == init + [e];
    if i < n {
      BestIsFirstMaximum(init, i);
      FirstNewestKept(init, e, i);
    }
  }

  // ---- winners' bytes, file by file ----

  /** The winners with a sequence number below `n` that lie in file `f`. */
  function Part(entries: seq<Entry>, best: map<Key, nat>, n: nat, f: nat): map<Key, nat>
    requires PointsInto(best, entries)
  {
    map k | k in best && best[k] < n && entries[best[k]].file == f :: entries[best[k]].bytes
  }

  function Winners(entries: seq<Entry>, f: nat): map<Key, nat> { Part(entries, Best(entries), |entries|, f) }

  ghost function WinnerBytes(entries: seq<Entry>, f: nat): nat { PartBytes(entries, Best(entries), f) }

  function Weight(e: Entry, f: nat): nat { if e.file == f then e.bytes else 0 }

  /** Handing one key to a new last entry changes the part of a file at that key alone. */
  lemma PartTakesOver(entries: seq<Entry>, m: map<Key, nat>, e: Entry, f: nat)
    requires PointsInto(m, entries)
    ensures var all, m' := entries + [e], m[e.key := |entries|];
            var rest := Part(entries, m, |entries|, f) - {e.key};
            && PointsInto(m', all)
            && Part(all, m', |all|, f) == if e.file == f then rest[e.key := e.bytes] else rest
  {
    var all, m' := entries + [e], m[e.key := |entries|];
    forall k | k in m && k != e.key ensures m'[k] == m[k] && all[m[k]] == entries[m[k]] {}
    assert all[|entries|] == e;
  }

  lemma PartStays(entries: seq<Entry>, m: map<Key, nat>, e: Entry, f: nat)
    requires PointsInto(m, entries)
    ensures Part(entries + [e], m, |entries| + 1, f) == Part(entries, m, |entries|, f)
  {}

  /** What file `f` gives back when `e` takes its key over. */
  function Given(entries: seq<Entry>, m: map<Key, nat>, e: Entry, f: nat): nat
    requires PointsInto(m, entries)
  {
    if e.key in m then Weight(entries[m[e.key]], f) else 0
  }

  ghost function PartBytes(entries: seq<Entry>, m: map<Key, nat>, f: nat): nat
    requires PointsInto(m, entries)
  {
    Sum(Part(entries, m, |entries|, f))
  }

  lemma PartBytesStep(entries: seq<Entry>, m: map<Key, nat>, e: Entry, f: nat)
    requires PointsInto(m, entries)
    ensures var m' := if Wins(entries, m, e) then m[e.key := |entries|] else m;
            && PointsInto(m', entries + [e])
            && Given(entries, m, e, f) <= PartBytes(entries, m, f)
            && PartBytes(entries + [e], m', f)
               == if Wins(entries, m, e) then PartBytes(entries, m, f) - Given(entries, m, e, f) + Weight(e, f)
                  else PartBytes(entries, m, f)
  {
    var part := Part(entries, m, |entries|, f);
    PartStays(entries, m, e, f);
    PartTakesOver(entries, m, e, f);
    TakeOverSum(part, e.key, Weight(e, f), e.file == f);
  }

  /** A new holder of a key adds its bytes to its file; the winner it displaces, if any, gives its own
      bytes back to the file it lies in. */
  lemma WinnerBytesStep(entries: seq<Entry>, e: Entry, f: nat)
    ensures var m := Best(entries);
            && Given(entries, m, e, f) <= WinnerBytes(entries, f)
            && WinnerBytes(entries + [e], f)
               == if Wins(entries, m, e) then WinnerBytes(entries, f) - Given(entries, m, e, f) + Weight(e, f)
                  else WinnerBytes(entries, f)
  {
    BestSnoc(entries, e);
    PartBytesStep(entries, Best(entries), e, f);
  }

  lemma TakeOverSum(part: map<Key, nat>, k: Key, bytes: nat, put: bool)
    requires !put ==> bytes == 0
    ensures var rest := part - {k};
            var was := if k in part then part[k] else 0;
            was <= Sum(part) && Sum(if put then rest[k := bytes] else rest) == Sum(part) - was + bytes
  {
    var rest := part - {k};
    if k in part { SumRemove(part, k); } else { assert rest == part; }
    if put { SumInsert(rest, k, bytes); }
  }
}
