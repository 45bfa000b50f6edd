/** The two passes over one tier (scripts/recover_blobs_v2.py _scan_tier and _emit_tier). */
module Recovery {
  import opened Common
  import opened Scanner
  import opened Selection

  datatype Mode = ById | ByContent

  /** What a decoded text is to the recovery: its id and content keys, and what its timestamp fields
      parsed to, in order of preference. */
  datatype Value =
    | NotObject
    | Schema
    | Data(id: Option<Key>, content: Key, parsed: seq<Option<real>>)

  datatype Item = Item(raw: Bytes, value: Value)

  function KeyOf(mode: Mode, v: Value): Option<Key> {
    if !v.Data? then None else if mode == ById then v.id else Some(v.content)
  }

  // ---- the tier as one stream of items, each with the number of its file ----

  datatype Tagged = Tagged(file: nat, item: Item)

  function Tag(f: nat, items: seq<Item>): seq<Tagged> {
    if items == [] then [] else Tag(f, items[..|items| - 1]) + [Tagged(f, items[|items| - 1])]
  }

  function Stream(files: seq<seq<Item>>): seq<Tagged> {
    if files == [] then []
    else
      var n := |files| - 1;
      Stream(files[..n]) + Tag(n, files[n])
  }

  function EntryOf(mode: Mode, t: Tagged): seq<Entry> {
    var key := KeyOf(mode, t.item.value);
    if key.Some? then [Entry(t.file, key.value, SelectionKey(t.item.value.parsed), |t.item.raw| + 1)] else []
  }

  /** The keyed data objects in input order; a position here is a sequence number. */
  function Entries(mode: Mode, s: seq<Tagged>): seq<Entry> {
    if s == [] then [] else Entries(mode, s[..|s| - 1]) + EntryOf(mode, s[|s| - 1])
  }

  /** What a report counts. */
  datatype Kind = SchemaLine | DataObject | IdObject

  predicate Is(k: Kind, v: Value) {
    match k
    case SchemaLine => v.Schema?
    case DataObject => v.Data?
    case IdObject => v.Data? && v.id.Some?
  }

  /** How many items of file `f` are of kind `k`. */
  function Count(s: seq<Tagged>, f: nat, k: Kind): nat {
    if s == [] then 0
    else
      var t := s[|s| - 1];
      Count(s[..|s| - 1], f, k) + if t.file == f && Is(k, t.item.value) then 1 else 0
  }

  predicate CountedAs(t: Tagged, f: nat, k: Kind) {
    t.file == f &&
    match k
    case SchemaLine => t.item.value.Schema?
    case DataObject => t.item.value.Data?
    case IdObject => t.item.value.Data? && t.item.value.id.Some?
  }

  /** The positions of the items of file `f` that a kind counts. */
  function Counting(s: seq<Tagged>, f: nat, k: Kind): set<nat> {
    set i: nat | i < |s| && CountedAs(s[i], f, k)
  }

  lemma CountingSnoc(init: seq<Tagged>, t: Tagged, f: nat, k: Kind)
    ensures Counting(init + [t], f, k) == Counting(init, f, k) + if CountedAs(t, f, k) then {|init|} else {}
  {}

  /** A count is exact: one for every such item and no other. */
  lemma {:induction false} CountExact(s: seq<Tagged>, f: nat, k: Kind)
    ensures Count(s, f, k) == |Counting(s, f, k)|
  {
    if s == [] {
      assert Counting(s, f, k) == {};
    } else {
      var n := |s| - 1;
      CountExact(s[..n], f, k);
      CountingSnoc(s[..n], s[n], f, k);
      assert s[..n] + [s[n]] == s && n !in Counting(s[..n], f, k);
    }
  }

  function SchemaBytes(s: seq<Tagged>, f: nat): nat {
    if s == [] then 0
    else
      var t := s[|s| - 1];
      SchemaBytes(s[..|s| - 1], f) + if t.file == f && t.item.value.Schema? then |t.item.raw| + 1 else 0
  }

  lemma StreamSnoc(mode: Mode, s: seq<Tagged>, t: Tagged)
    ensures Entries(mode, s + [t]) == Entries(mode, s) + EntryOf(mode, t)
    ensures forall f: nat, k: Kind :: Count(s + [t], f, k) == Count(s, f, k)
              + if t.file == f && Is(k, t.item.value) then 1 else 0
    ensures forall f: nat ::
              SchemaBytes(s + [t], f) == SchemaBytes(s, f)
              + if t.file == f && t.item.value.Schema? then |t.item.raw| + 1 else 0
  {
    assert (s + [t])[..|s|] == s;
  }

  // ---- pass 1: select ----

  datatype Winner = Winner(stamp: Stamp, sequence: nat, file: nat, bytes: nat)

  datatype Report = Report(objects: nat, idObjects: nat, missingIds: int, schemaLines: nat, projected: nat,
                           selected: nat, duplicates: int)

  const EMPTY_REPORT := Report(0, 0, 0, 0, 0, 0, 0)

  ghost predicate WinnersMatch(winners: map<Key, Winner>, entries: seq<Entry>) {
    && winners.Keys == Best(entries).Keys
    && forall k | k in winners ::
         var e := entries[Best(entries)[k]];
         winners[k] == Winner(e.stamp, Best(entries)[k], e.file, e.bytes)
  }

  ghost function Projected(mode: Mode, s: seq<Tagged>, f: nat): nat {
    SchemaBytes(s, f) + WinnerBytes(Entries(mode, s), f)
  }

  /** The counters of file `f` after reading these items. */
  ghost predicate Counted(r: Report, s: seq<Tagged>, f: nat) {
    && r.objects == Count(s, f, DataObject) && r.idObjects == Count(s, f, IdObject)
    && r.missingIds == r.objects - r.idObjects
    && r.schemaLines == Count(s, f, SchemaLine)
  }

  ghost predicate CountsMatch(reports: seq<Report>, s: seq<Tagged>) {
    forall f | 0 <= f < |reports| :: Counted(reports[f], s, f)
  }

  ghost predicate ReportsMatch(reports: seq<Report>, mode: Mode, s: seq<Tagged>) {
    && CountsMatch(reports, s)
    && (forall f | 0 <= f < |reports| :: reports[f].projected == Projected(mode, s, f))
    && (forall t | t in s :: t.file < |reports|)
  }

  lemma Unkeyed(mode: Mode, s: seq<Tagged>, t: Tagged)
    requires KeyOf(mode, t.item.value).None?
    ensures Entries(mode, s + [t]) == Entries(mode, s)
    ensures forall f: nat :: Projected(mode, s + [t], f) == Projected(mode, s, f) + SchemaWeight(t, f)
  {
    StreamSnoc(mode, s, t);
    assert Entries(mode, s) + [] == Entries(mode, s);
  }

  lemma ProjectedKeyed(mode: Mode, s: seq<Tagged>, t: Tagged, e: Entry, f: nat)
    requires EntryOf(mode, t) == [e]
    ensures var entries := Entries(mode, s);
            var m := Best(entries);
            && Entries(mode, s + [t]) == entries + [e]
            && Given(entries, m, e, f) <= Projected(mode, s, f)
            && Projected(mode, s + [t], f)
               == Projected(mode, s, f) + if Wins(entries, m, e) then Weight(e, f) - Given(entries, m, e, f) else 0
  {
    StreamSnoc(mode, s, t);
    WinnerBytesStep(Entries(mode, s), e, f);
  }

  lemma {:induction false} EntryFiles(mode: Mode, s: seq<Tagged>, n: nat)
    requires forall t | t in s :: t.file < n
    ensures forall e | e in Entries(mode, s) :: e.file < n
  {
    if s != [] {
      var init := s[..|s| - 1];
      assert s[|s| - 1] in s;
      forall t | t in init ensures t.file < n { assert t in s; }
      EntryFiles(mode, init, n);
    }
  }

  /** A keyed object against the winners so far. The displaced winner's file gives its bytes back. */
  method Select(ghost entries: seq<Entry>, winners0: map<Key, Winner>, reports0: seq<Report>, sequence: nat,
                fileIndex: nat, key: Key, stamp: Stamp, recordBytes: nat)
    returns (winners: map<Key, Winner>, reports: seq<Report>)
    requires sequence == |entries| && fileIndex < |reports0| && WinnersMatch(winners0, entries)
    requires forall e | e in entries :: e.file < |reports0|
    requires forall f | 0 <= f < |reports0| ::
               Given(entries, Best(entries), Entry(fileIndex, key, stamp, recordBytes), f) <= reports0[f].projected
    ensures var e := Entry(fileIndex, key, stamp, recordBytes);
            && WinnersMatch(winners, entries + [e])
            && |reports| == |reports0|
            && forall f | 0 <= f < |reports| ::
                 && reports[f] == reports0[f].(projected := reports[f].projected)
                 && reports[f].projected == reports0[f].projected
                    + if Wins(entries, Best(entries), e) then Weight(e, f) - Given(entries, Best(entries), e, f) else 0
  {
    ghost var e := Entry(fileIndex, key, stamp, recordBytes);
    winners, reports := winners0, reports0;
    BestSnoc(entries, e);
    if key !in winners || Newer(stamp, winners[key].stamp) {
      if key in winners {
        var previous := winners[key];
        assert entries[Best(entries)[key]] in entries;
        var losing := reports[previous.file];
        reports := reports[previous.file := losing.(projected := losing.projected - previous.bytes)];
      }
      winners := winners[key := Winner(stamp, sequence, fileIndex, recordBytes)];
      var report := reports[fileIndex];
      reports := reports[fileIndex := report.(projected := report.projected + recordBytes)];
    }
  }

  function SchemaWeight(t: Tagged, f: nat): nat {
    if t.file == f && t.item.value.Schema? then |t.item.raw| + 1 else 0
  }

  /** The counters of one object. */
  method CountItem(ghost s: seq<Tagged>, fileIndex: nat, item: Item, reports0: seq<Report>)
      returns (reports: seq<Report>)
    requires fileIndex < |reports0| && CountsMatch(reports0, s)
    ensures |reports| == |reports0| && CountsMatch(reports, s + [Tagged(fileIndex, item)])
    ensures forall f | 0 <= f < |reports| ::
              reports[f].projected == reports0[f].projected + SchemaWeight(Tagged(fileIndex, item), f)
  {
    reports := reports0;
    StreamSnoc(ById, s, Tagged(fileIndex, item));
    var value := item.value;
    var report := reports[fileIndex];
    if value.Schema? {
      report := report.(schemaLines := report.schemaLines + 1, projected := report.projected + |item.raw| + 1);
    } else if value.Data? {
      report := report.(objects := report.objects + 1);
      if value.id.None? {
        report := report.(missingIds := report.missingIds + 1);
      } else {
        report := report.(idObjects := report.idObjects + 1);
      }
    }
    reports := reports[fileIndex := report];
  }

  /** One object of pass 1. */
  method ScanItem(mode: Mode, ghost s: seq<Tagged>, fileIndex: nat, item: Item, winners0: map<Key, Winner>,
                  reports0: seq<Report>, sequence0: nat)
    returns (winners: map<Key, Winner>, reports: seq<Report>, sequence: nat)
    requires fileIndex < |reports0| && sequence0 == |Entries(mode, s)|
    requires WinnersMatch(winners0, Entries(mode, s)) && ReportsMatch(reports0, mode, s)
    ensures var s' := s + [Tagged(fileIndex, item)];
            && |reports| == |reports0| && sequence == |Entries(mode, s')|
            && WinnersMatch(winners, Entries(mode, s')) && ReportsMatch(reports, mode, s')
  {
    winners, sequence := winners0, sequence0;
    ghost var t := Tagged(fileIndex, item);
    reports := CountItem(s, fileIndex, item, reports0);
    if KeyOf(mode, item.value).None? {
      Unkeyed(mode, s, t);
      return;
    }
    var key := KeyOf(mode, item.value).value;
    var stamp := SelectionKey(item.value.parsed);
    ghost var counted := reports;
    ghost var e := Entry(fileIndex, key, stamp, |item.raw| + 1);
    forall f: nat { ProjectedKeyed(mode, s, t, e, f); }
    EntryFiles(mode, s, |reports|);
    winners, reports := Select(Entries(mode, s), winners, reports, sequence, fileIndex, key, stamp, |item.raw| + 1);
    sequence := sequence + 1;
  }

  // ---- pass 1 over the whole tier ----

  ghost predicate TierScanned(mode: Mode, files: seq<seq<Item>>, winners: map<Key, Winner>, reports: seq<Report>) {
    var entries := Entries(mode, Stream(files));
    && |reports| == |files|
    && WinnersMatch(winners, entries) && ReportsMatch(reports, mode, Stream(files))
    && forall f | 0 <= f < |files| ::
         && reports[f].selected == |Selection.Winners(entries, f)|
         && reports[f].duplicates == if mode == ById then reports[f].idObjects - reports[f].selected else 0
  }

  /** The counting loop over the winners: how many lie in each file. */
  method CountByFile(ghost entries: seq<Entry>, winners: map<Key, Winner>, n: nat) returns (selected: seq<nat>)
    requires WinnersMatch(winners, entries) && forall e | e in entries :: e.file < n
    ensures |selected| == n && forall f | 0 <= f < n :: selected[f] == |Selection.Winners(entries, f)|
  {
    selected := seq(n, _ => 0);
    var left := winners.Keys;
    forall f: nat ensures Among(entries, winners.Keys - left, f) == {} {}
    while left != {}
      invariant left <= winners.Keys && |selected| == n
      invariant forall f | 0 <= f < n :: selected[f] == |Among(entries, winners.Keys - left, f)|
    {
      var k :| k in left;
      ghost var done := winners.Keys - left;
      var file := winners[k].file;
      assert entries[Best(entries)[k]] in entries;
      selected := selected[file := selected[file] + 1];
      left := left - {k};
      assert winners.Keys - left == done + {k};
      forall f | 0 <= f < n { AmongOneMore(entries, done, k, f); }
    }
    forall f: nat ensures |Among(entries, winners.Keys, f)| == |Selection.Winners(entries, f)| {
      assert Among(entries, winners.Keys, f) == Selection.Winners(entries, f).Keys;
      assert |Selection.Winners(entries, f).Keys| == |Selection.Winners(entries, f)|;
    }
    assert winners.Keys - left == winners.Keys;
  }

  ghost function Among(entries: seq<Entry>, keys: set<Key>, f: nat): set<Key> {
    set k | k in keys && k in Best(entries) && entries[Best(entries)[k]].file == f
  }

  lemma AmongOneMore(entries: seq<Entry>, keys: set<Key>, k: Key, f: nat)
    requires k !in keys && k in Best(entries)
    ensures |Among(entries, keys + {k}, f)| == |Among(entries, keys, f)|
            + if entries[Best(entries)[k]].file == f then 1 else 0
  {
    if entries[Best(entries)[k]].file == f {
      assert Among(entries, keys + {k}, f) == Among(entries, keys, f) + {k};
    } else {
      assert Among(entries, keys + {k}, f) == Among(entries, keys, f);
    }
  }

  lemma TagSnoc(f: nat, items: seq<Item>, i: nat)
    requires i < |items|
    ensures Tag(f, items[..i + 1]) == Tag(f, items[..i]) + [Tagged(f, items[i])]
  {
    assert items[..i + 1][..i] == items[..i];
  }

  lemma StreamPrefix(files: seq<seq<Item>>, n: nat)
    requires n < |files|
    ensures Stream(files[..n + 1]) == Stream(files[..n]) + Tag(n, files[n])
  {
    assert files[..n + 1][..n] == files[..n];
  }

  ghost predicate Scanned(mode: Mode, s: seq<Tagged>, n: nat, winners: map<Key, Winner>, reports: seq<Report>,
                          sequence: nat) {
    && |reports| == n && sequence == |Entries(mode, s)|
    && WinnersMatch(winners, Entries(mode, s)) && ReportsMatch(reports, mode, s)
  }

  /** One file of pass 1. */
  method ScanFile(mode: Mode, ghost before: seq<Tagged>, fileIndex: nat, items: seq<Item>, winners0: map<Key, Winner>,
                  reports0: seq<Report>, sequence0: nat)
    returns (winners: map<Key, Winner>, reports: seq<Report>, sequence: nat)
    requires fileIndex < |reports0| && Scanned(mode, before, |reports0|, winners0, reports0, sequence0)
    ensures Scanned(mode, before + Tag(fileIndex, items), |reports0|, winners, reports, sequence)
  {
    winners, reports, sequence := winners0, reports0, sequence0;
    assert before + Tag(fileIndex, items[..0]) == before;
    for i := 0 to |items|
      invariant Scanned(mode, before + Tag(fileIndex, items[..i]), |reports0|, winners, reports, sequence)
    {
      ghost var s := before + Tag(fileIndex, items[..i]);
      TagSnoc(fileIndex, items, i);
      assert s + [Tagged(fileIndex, items[i])] == before + Tag(fileIndex, items[..i + 1]);
      winners, reports, sequence := ScanItem(mode, s, fileIndex, items[i], winners, reports, sequence);
    }
    assert items[..|items|] == items;
  }

  method FinishReports(mode: Mode, ghost files: seq<seq<Item>>, winners: map<Key, Winner>, reports0: seq<Report>,
                       sequence: nat)
    returns (reports: seq<Report>)
    requires Scanned(mode, Stream(files), |files|, winners, reports0, sequence)
    ensures TierScanned(mode, files, winners, reports)
  {
    EntryFiles(mode, Stream(files), |files|);
    var selected := CountByFile(Entries(mode, Stream(files)), winners, |reports0|);
    reports := seq(|reports0|, f requires 0 <= f < |reports0| => Finished(mode, reports0[f], selected[f]));
    FinishedMatch(mode, Stream(files), reports0, reports, selected);
  }

  function Finished(mode: Mode, r: Report, selected: nat): Report {
    r.(selected := selected, duplicates := if mode == ById then r.idObjects - selected else 0)
  }

  lemma FinishedMatch(mode: Mode, s: seq<Tagged>, reports0: seq<Report>, reports: seq<Report>, selected: seq<nat>)
    requires ReportsMatch(reports0, mode, s) && |selected| == |reports| == |reports0|
    requires forall f | 0 <= f < |reports| :: reports[f] == Finished(mode, reports0[f], selected[f])
    ensures ReportsMatch(reports, mode, s)
  {}

  /** After pass 1 every key's winner is the first among its newest holders in the whole tier, and each
      file's report counts its items, its winners and the bytes they will take. */
  method ScanTier(mode: Mode, files: seq<seq<Item>>) returns (winners: map<Key, Winner>, reports: seq<Report>)
    ensures TierScanned(mode, files, winners, reports)
  {
    reports := seq(|files|, _ => EMPTY_REPORT);
    winners := map[];
    var sequence := 0;
    for fileIndex := 0 to |files|
      invariant Scanned(mode, Stream(files[..fileIndex]), |files|, winners, reports, sequence)
    {
      StreamPrefix(files, fileIndex);
      winners, reports, sequence :=
        ScanFile(mode, Stream(files[..fileIndex]), fileIndex, files[fileIndex], winners, reports, sequence);
    }
    assert files[..|files|] == files;
    reports := FinishReports(mode, files, winners, reports, sequence);
  }
}
