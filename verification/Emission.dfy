/** Pass 2 of the recovery: schema objects and winners in source order, newline-terminated. */
module Emission {
  import opened Common
  import opened Scanner
  import opened Selection
  import opened Recovery

  /** Whether the item with `sequence` keyed objects before it is written. */
  predicate Emits(mode: Mode, best: map<Key, nat>, item: Item, sequence: nat) {
    var key := KeyOf(mode, item.value);
    item.value.Schema? || (key.Some? && key.value in best && best[key.value] == sequence)
  }

  /** What file `f` receives: its schema objects and winners, in source order. */
  function Kept(mode: Mode, best: map<Key, nat>, s: seq<Tagged>, f: nat): seq<Item> {
    if s == [] then []
    else
      var init, t := s[..|s| - 1], s[|s| - 1];
      Kept(mode, best, init, f)
      + if t.file == f && Emits(mode, best, t.item, |Entries(mode, init)|) then [t.item] else []
  }

  function Text(items: seq<Item>): Bytes {
    if items == [] then [] else Text(items[..|items| - 1]) + (items[|items| - 1].raw + [LF])
  }

  function DataItems(items: seq<Item>): nat {
    if items == [] then 0 else DataItems(items[..|items| - 1]) + if items[|items| - 1].value.Data? then 1 else 0
  }

  function SchemaItems(items: seq<Item>): nat {
    if items == [] then 0 else SchemaItems(items[..|items| - 1]) + if items[|items| - 1].value.Schema? then 1 else 0
  }

  // ---- prefixes of the stream ----

  lemma {:induction false} EntriesPrefix(mode: Mode, p: seq<Tagged>, s: seq<Tagged>)
    requires p <= s
    ensures Entries(mode, p) <= Entries(mode, s)
    decreases |s|
  {
    if |p| == |s| {
      assert p == s;
    } else {
      EntriesPrefix(mode, p, s[..|s| - 1]);
    }
  }

  /** A keyed item of the stream is the entry at its sequence number. */
  lemma KeyedEntry(mode: Mode, p: seq<Tagged>, t: Tagged, s: seq<Tagged>)
    requires p + [t] <= s && KeyOf(mode, t.item.value).Some?
    ensures var c := |Entries(mode, p)|;
            && c < |Entries(mode, s)| && EntryOf(mode, t) == [Entries(mode, s)[c]]
            && |Entries(mode, p + [t])| == c + 1
  {
    StreamSnoc(mode, p, t);
    EntriesPrefix(mode, p + [t], s);
    assert Entries(mode, p + [t])[|Entries(mode, p)|] == EntryOf(mode, t)[0];
  }

  lemma {:induction false} StreamReaches(files: seq<seq<Item>>, n: nat, i: nat)
    requires n < |files| && i <= |files[n]|
    ensures Stream(files[..n]) + Tag(n, files[n][..i]) <= Stream(files)
    decreases |files|
  {
    TagPrefix(n, files[n], i);
    if n < |files| - 1 {
      var init := files[..|files| - 1];
      StreamReaches(init, n, i);
      assert init[..n] == files[..n];
    } else {
      assert files[..n] == files[..|files| - 1];
    }
  }

  lemma {:induction false} TagPrefix(f: nat, items: seq<Item>, i: nat)
    requires i <= |items|
    ensures Tag(f, items[..i]) <= Tag(f, items)
    decreases |items|
  {
    if i == |items| {
      assert items[..i] == items;
    } else {
      var init := items[..|items| - 1];
      assert init[..i] == items[..i];
      TagPrefix(f, init, i);
    }
  }

  // ---- what is written, counted ----

  ghost predicate IsSelection(best: map<Key, nat>, entries: seq<Entry>) {
    PointsInto(best, entries) && forall k | k in best :: entries[best[k]].key == k
  }

  lemma PartGrows(entries: seq<Entry>, best: map<Key, nat>, c: nat, f: nat)
    requires IsSelection(best, entries) && c < |entries|
    ensures var e := entries[c];
            var part := Part(entries, best, c, f);
            var part' := Part(entries, best, c + 1, f);
            if e.file == f && e.key in best && best[e.key] == c
            then part' == part[e.key := e.bytes] && |part'| == |part| + 1 && Sum(part') == Sum(part) + e.bytes
            else part' == part
  {
    var e := entries[c];
    var part, part' := Part(entries, best, c, f), Part(entries, best, c + 1, f);
    if e.file == f && e.key in best && best[e.key] == c {
      assert part' == part[e.key := e.bytes];
      assert part'.Keys == part.Keys + {e.key} && e.key !in part.Keys;
      assert |part'| == |part'.Keys| && |part| == |part.Keys|;
      SumInsert(part, e.key, e.bytes);
    } else {
      assert part' == part;
    }
  }

  ghost predicate Accounted(mode: Mode, best: map<Key, nat>, entries: seq<Entry>, s: seq<Tagged>, f: nat)
    requires IsSelection(best, entries)
  {
    var kept := Kept(mode, best, s, f);
    var part := Part(entries, best, |Entries(mode, s)|, f);
    && |Text(kept)| == SchemaBytes(s, f) + Sum(part)
    && DataItems(kept) == |part|
    && SchemaItems(kept) == Count(s, f, SchemaLine)
    && |kept| == DataItems(kept) + SchemaItems(kept)
  }

  lemma KeptText(mode: Mode, best: map<Key, nat>, p: seq<Tagged>, t: Tagged, f: nat)
    ensures var kept, kept' := Kept(mode, best, p, f), Kept(mode, best, p + [t], f);
            if t.file == f && Emits(mode, best, t.item, |Entries(mode, p)|) then
              && |Text(kept')| == |Text(kept)| + |t.item.raw| + 1 && |kept'| == |kept| + 1
              && DataItems(kept') == DataItems(kept) + (if t.item.value.Data? then 1 else 0)
              && SchemaItems(kept') == SchemaItems(kept) + (if t.item.value.Schema? then 1 else 0)
            else kept' == kept
  {}

  lemma AccountedUnkeyed(mode: Mode, best: map<Key, nat>, entries: seq<Entry>, p: seq<Tagged>, t: Tagged, f: nat)
    requires IsSelection(best, entries) && Accounted(mode, best, entries, p, f) && KeyOf(mode, t.item.value).None?
    ensures Accounted(mode, best, entries, p + [t], f)
  {
    KeptText(mode, best, p, t, f);
    StreamSnoc(mode, p, t);
    assert Entries(mode, p) + [] == Entries(mode, p);
  }

  lemma AccountedKeyed(mode: Mode, best: map<Key, nat>, entries: seq<Entry>, p: seq<Tagged>, t: Tagged, f: nat)
    requires IsSelection(best, entries) && Accounted(mode, best, entries, p, f)
    requires |Entries(mode, p)| < |entries| && EntryOf(mode, t) == [entries[|Entries(mode, p)|]]
    ensures Accounted(mode, best, entries, p + [t], f)
  {
    var c := |Entries(mode, p)|;
    var part, part' := Part(entries, best, c, f), Part(entries, best, c + 1, f);
    PartGrows(entries, best, c, f);
    KeptText(mode, best, p, t, f);
    StreamSnoc(mode, p, t);
    assert |Entries(mode, p + [t])| == c + 1;
    var e := entries[c];
    assert Emits(mode, best, t.item, c) <==> e.key in best && best[e.key] == c;
    assert e.file == t.file && e.bytes == |t.item.raw| + 1;
  }

  lemma AccountedStep(mode: Mode, best: map<Key, nat>, p: seq<Tagged>, t: Tagged, s: seq<Tagged>, f: nat)
    requires p + [t] <= s && IsSelection(best, Entries(mode, s)) && Accounted(mode, best, Entries(mode, s), p, f)
    ensures Accounted(mode, best, Entries(mode, s), p + [t], f)
  {
    if KeyOf(mode, t.item.value).Some? {
      KeyedEntry(mode, p, t, s);
      AccountedKeyed(mode, best, Entries(mode, s), p, t, f);
    } else {
      AccountedUnkeyed(mode, best, Entries(mode, s), p, t, f);
    }
  }

  /** For any selection of one position per key: the bytes, data objects and schema objects written
      for a file are those of its selected entries and its schema objects. */
  lemma {:induction false} KeptIsAccounted(mode: Mode, best: map<Key, nat>, p: seq<Tagged>, s: seq<Tagged>, f: nat)
    requires p <= s && IsSelection(best, Entries(mode, s))
    ensures Accounted(mode, best, Entries(mode, s), p, f)
    decreases |p|
  {
    if p == [] {
      assert Part(Entries(mode, s), best, 0, f) == map[];
    } else {
      var init, t := p[..|p| - 1], p[|p| - 1];
      assert init + [t] == p;
      KeptIsAccounted(mode, best, init, s, f);
      AccountedStep(mode, best, init, t, s, f);
    }
  }

  // ---- pass 2 ----

  /** The selected position of every key of the tier. */
  ghost function Selected(mode: Mode, files: seq<seq<Item>>): map<Key, nat> { Best(Entries(mode, Stream(files))) }

  lemma {:induction false} OtherFiles(mode: Mode, best: map<Key, nat>, s: seq<Tagged>, f: nat)
    requires forall t | t in s :: t.file != f
    ensures Kept(mode, best, s, f) == []
  {
    if s != [] {
      var init := s[..|s| - 1];
      assert s[|s| - 1] in s;
      forall t | t in init ensures t.file != f { assert t in s; }
      OtherFiles(mode, best, init, f);
    }
  }

  lemma {:induction false} StreamFiles(files: seq<seq<Item>>)
    ensures forall t | t in Stream(files) :: t.file < |files|
  {
    if files != [] {
      var n := |files| - 1;
      StreamFiles(files[..n]);
      TagFiles(n, files[n]);
    }
  }

  lemma {:induction false} TagFiles(f: nat, items: seq<Item>)
    ensures forall t | t in Tag(f, items) :: t.file == f
  {
    if items != [] { TagFiles(f, items[..|items| - 1]); }
  }

  /** One object of pass 2: is it written, and what is the next sequence number? */
  method EmitItem(mode: Mode, ghost p: seq<Tagged>, ghost all: seq<Tagged>, fileIndex: nat, item: Item,
                  winners: map<Key, Winner>, sequence0: nat)
    returns (written: bool, sequence: nat)
    requires p + [Tagged(fileIndex, item)] <= all && WinnersMatch(winners, Entries(mode, all))
        && sequence0 == |Entries(mode, p)|
    ensures written == Emits(mode, Best(Entries(mode, all)), item, sequence0)
    ensures sequence == |Entries(mode, p + [Tagged(fileIndex, item)])|
  {
    written, sequence := false, sequence0;
    ghost var t := Tagged(fileIndex, item);
    StreamSnoc(mode, p, t);
    if item.value.Schema? {
      written := true;
    } else if KeyOf(mode, item.value).Some? {
      var key := KeyOf(mode, item.value).value;
      KeyedEntry(mode, p, t, all);
      if key in winners && winners[key].sequence == sequence && winners[key].file == fileIndex {
        written := true;
      }
      sequence := sequence + 1;
    }
  }

  /** One file of pass 2. */
  method EmitFile(mode: Mode, ghost files: seq<seq<Item>>, fileIndex: nat, items: seq<Item>, winners: map<Key, Winner>,
                  sequence0: nat)
    returns (output: Bytes, outputLines: nat, emitted: nat, sequence: nat)
    requires fileIndex < |files| && items == files[fileIndex]
    requires WinnersMatch(winners, Entries(mode, Stream(files)))
    requires sequence0 == |Entries(mode, Stream(files[..fileIndex]))|
    ensures var p := Stream(files[..fileIndex]) + Tag(fileIndex, items);
            var kept := Kept(mode, Selected(mode, files), p, fileIndex);
            && sequence == |Entries(mode, p)|
            && output == Text(kept) && outputLines == |kept| && emitted == DataItems(kept)
  {
    ghost var all, best, before := Stream(files), Selected(mode, files), Stream(files[..fileIndex]);
    output, outputLines, emitted, sequence := [], 0, 0, sequence0;
    assert before + Tag(fileIndex, items[..0]) == before;
    StreamFiles(files[..fileIndex]);
    OtherFiles(mode, best, before, fileIndex);
    for i := 0 to |items|
      invariant EmitState(mode, best, before + Tag(fileIndex, items[..i]), fileIndex, output, outputLines, emitted,
                          sequence)
    {
      ghost var p := before + Tag(fileIndex, items[..i]);
      NextInStream(files, fileIndex, i);
      output, outputLines, emitted, sequence := EmitOne(mode, p, all, fileIndex, items[i], winners, output,
                                                        outputLines, emitted, sequence);
    }
    assert items[..|items|] == items;
  }

  lemma NextInStream(files: seq<seq<Item>>, f: nat, i: nat)
    requires f < |files| && i < |files[f]|
    ensures var before := Stream(files[..f]);
            before + Tag(f, files[f][..i]) + [Tagged(f, files[f][i])]
            == before + Tag(f, files[f][..i + 1]) <= Stream(files)
  {
    TagSnoc(f, files[f], i);
    StreamReaches(files, f, i + 1);
  }

  /** One object, written or not. */
  method EmitOne(mode: Mode, ghost p: seq<Tagged>, ghost all: seq<Tagged>, fileIndex: nat, item: Item,
                 winners: map<Key, Winner>, output0: Bytes, lines0: nat, emitted0: nat, sequence0: nat)
    returns (output: Bytes, outputLines: nat, emitted: nat, sequence: nat)
    requires p + [Tagged(fileIndex, item)] <= all && WinnersMatch(winners, Entries(mode, all))
    requires EmitState(mode, Best(Entries(mode, all)), p, fileIndex, output0, lines0, emitted0, sequence0)
    ensures EmitState(mode, Best(Entries(mode, all)), p + [Tagged(fileIndex, item)], fileIndex, output, outputLines,
                      emitted, sequence)
  {
    EmitNext(mode, Best(Entries(mode, all)), p, fileIndex, item);
    output, outputLines, emitted := output0, lines0, emitted0;
    var written;
    written, sequence := EmitItem(mode, p, all, fileIndex, item, winners, sequence0);
    if written {
      output, outputLines := output + (item.raw + [LF]), outputLines + 1;
      if item.value.Data? {
        emitted := emitted + 1;
      }
    }
  }

  ghost predicate EmitState(mode: Mode, best: map<Key, nat>, p: seq<Tagged>, f: nat, output: Bytes, lines: nat,
                            emitted: nat, sequence: nat) {
    var kept := Kept(mode, best, p, f);
    sequence == |Entries(mode, p)| && output == Text(kept) && lines == |kept| && emitted == DataItems(kept)
  }

  lemma EmitNext(mode: Mode, best: map<Key, nat>, p: seq<Tagged>, f: nat, item: Item)
    ensures var kept, kept' := Kept(mode, best, p, f), Kept(mode, best, p + [Tagged(f, item)], f);
            if Emits(mode, best, item, |Entries(mode, p)|) then
              Text(kept') == Text(kept) + (item.raw + [LF]) && |kept'| == |kept| + 1
              && DataItems(kept') == DataItems(kept) + if item.value.Data? then 1 else 0
            else kept' == kept
  {}

  // ---- the whole tier ----

  lemma {:induction false} LaterItems(mode: Mode, best: map<Key, nat>, p: seq<Tagged>, s: seq<Tagged>, f: nat)
    requires p <= s && forall t | t in s[|p|..] :: t.file != f
    ensures Kept(mode, best, p, f) == Kept(mode, best, s, f)
    decreases |s|
  {
    if |p| == |s| {
      assert p == s;
    } else {
      var init, t := s[..|s| - 1], s[|s| - 1];
      assert t in s[|p|..];
      forall u | u in init[|p|..] ensures u.file != f { assert u in s[|p|..]; }
      LaterItems(mode, best, p, init, f);
    }
  }

  lemma OtherTail(mode: Mode, best: map<Key, nat>, p: seq<Tagged>, tail: seq<Tagged>, f: nat)
    requires forall t | t in tail :: t.file != f
    ensures Kept(mode, best, p, f) == Kept(mode, best, p + tail, f)
  {
    assert (p + tail)[|p|..] == tail;
    LaterItems(mode, best, p, p + tail, f);
  }

  lemma {:induction false} FileIsDone(mode: Mode, best: map<Key, nat>, files: seq<seq<Item>>, n: nat)
    requires n < |files|
    ensures Kept(mode, best, Stream(files[..n + 1]), n) == Kept(mode, best, Stream(files), n)
    decreases |files|
  {
    var m := |files| - 1;
    if n == m {
      assert files[..n + 1] == files;
    } else {
      FileIsDone(mode, best, files[..m], n);
      assert files[..m][..n + 1] == files[..n + 1];
      LaterFile(mode, best, files, n);
    }
  }

  lemma LaterFile(mode: Mode, best: map<Key, nat>, files: seq<seq<Item>>, n: nat)
    requires n < |files| - 1
    ensures Kept(mode, best, Stream(files[..|files| - 1]), n) == Kept(mode, best, Stream(files), n)
  {
    var m := |files| - 1;
    TagFiles(m, files[m]);
    OtherTail(mode, best, Stream(files[..m]), Tag(m, files[m]), n);
  }

  ghost predicate FileEmitted(mode: Mode, files: seq<seq<Item>>, f: nat, output: Bytes) {
    output == Text(Kept(mode, Selected(mode, files), Stream(files), f))
  }

  /** What pass 1 counted for a file is what pass 2 writes to it. */
  lemma EmissionMatchesScan(mode: Mode, files: seq<seq<Item>>, winners: map<Key, Winner>, reports: seq<Report>, f: nat)
    requires TierScanned(mode, files, winners, reports) && f < |files|
    ensures var kept := Kept(mode, Selected(mode, files), Stream(files), f);
            && |Text(kept)| == reports[f].projected
            && DataItems(kept) == reports[f].selected
            && SchemaItems(kept) == reports[f].schemaLines
            && |kept| == reports[f].selected + reports[f].schemaLines
  {
    KeptIsAccounted(mode, Selected(mode, files), Stream(files), Stream(files), f);
  }

  ghost function KeyedBefore(mode: Mode, files: seq<seq<Item>>, n: nat): nat
    requires n <= |files|
  {
    |Entries(mode, Stream(files[..n]))|
  }

  ghost predicate Written(mode: Mode, files: seq<seq<Item>>, reports: seq<Report>, f: nat, output: Bytes)
    requires f < |reports|
  {
    FileEmitted(mode, files, f, output) && |output| == reports[f].projected
  }

  ghost predicate AllWritten(mode: Mode, files: seq<seq<Item>>, reports: seq<Report>, outputs: seq<Bytes>) {
    |outputs| <= |reports| && forall f | 0 <= f < |outputs| :: Written(mode, files, reports, f, outputs[f])
  }

  lemma WrittenSnoc(mode: Mode, files: seq<seq<Item>>, reports: seq<Report>, outputs: seq<Bytes>, output: Bytes)
    requires AllWritten(mode, files, reports, outputs) && |outputs| < |reports|
        && Written(mode, files, reports, |outputs|, output)
    ensures AllWritten(mode, files, reports, outputs + [output])
  {}

  /** One file of pass 2, with the check that closes it. */
  method EmitChecked(mode: Mode, files: seq<seq<Item>>, winners: map<Key, Winner>, reports: seq<Report>,
                     fileIndex: nat, sequence0: nat)
    returns (output: Bytes, mismatch: bool, sequence: nat)
    requires TierScanned(mode, files, winners, reports) && fileIndex < |files|
    requires sequence0 == KeyedBefore(mode, files, fileIndex)
    ensures !mismatch && sequence == KeyedBefore(mode, files, fileIndex + 1)
    ensures Written(mode, files, reports, fileIndex, output)
  {
    var outputLines, emitted;
    output, outputLines, emitted, sequence := EmitFile(mode, files, fileIndex, files[fileIndex], winners, sequence0);
    StreamPrefix(files, fileIndex);
    FileIsDone(mode, Selected(mode, files), files, fileIndex);
    EmissionMatchesScan(mode, files, winners, reports, fileIndex);
    mismatch := emitted != reports[fileIndex].selected;
  }

  /** On unchanged input the second pass never stops at an emit mismatch, writes the kept items of each
      file in source order, and as many bytes as the first pass projected. */
  method EmitTier(mode: Mode, files: seq<seq<Item>>, winners: map<Key, Winner>, reports: seq<Report>)
    returns (outputs: seq<Bytes>, mismatch: bool)
    requires TierScanned(mode, files, winners, reports)
    ensures !mismatch && |outputs| == |files| && AllWritten(mode, files, reports, outputs)
  {
    outputs, mismatch := [], false;
    var sequence, fileIndex := 0, 0;
    while fileIndex < |files| && !mismatch
      invariant fileIndex == |outputs| <= |files| && !mismatch
      invariant sequence == KeyedBefore(mode, files, fileIndex)
      invariant AllWritten(mode, files, reports, outputs)
      decreases |files| - fileIndex
    {
      var output;
      output, mismatch, sequence := EmitChecked(mode, files, winners, reports, fileIndex, sequence);
      WrittenSnoc(mode, files, reports, outputs, output);
      outputs := outputs + [output];
      fileIndex := fileIndex + 1;
    }
  }

  // ---- every key exactly once ----

  predicate EmittedAt(mode: Mode, best: map<Key, nat>, s: seq<Tagged>, j: nat)
    requires j < |s|
  {
    Emits(mode, best, s[j].item, |Entries(mode, s[..j])|)
  }

  lemma KeyedPosition(mode: Mode, s: seq<Tagged>, j: nat)
    requires j < |s| && KeyOf(mode, s[j].item.value).Some?
    ensures var c := |Entries(mode, s[..j])|;
            && c < |Entries(mode, s)| && EntryOf(mode, s[j]) == [Entries(mode, s)[c]]
            && |Entries(mode, s[..j + 1])| == c + 1
  {
    assert s[..j] + [s[j]] == s[..j + 1];
    KeyedEntry(mode, s[..j], s[j], s);
  }

  lemma {:induction false} PositionOf(mode: Mode, s: seq<Tagged>, c: nat) returns (j: nat)
    requires c < |Entries(mode, s)|
    ensures j < |s| && KeyOf(mode, s[j].item.value).Some? && |Entries(mode, s[..j])| == c
    decreases |s|
  {
    var init := s[..|s| - 1];
    if c < |Entries(mode, init)| {
      j := PositionOf(mode, init, c);
      assert init[..j] == s[..j];
    } else {
      j := |s| - 1;
    }
  }

  predicate Rising(at: seq<nat>, n: nat) {
    (forall k, l | 0 <= k < l < |at| :: at[k] < at[l]) && forall k | 0 <= k < |at| :: at[k] < n
  }

  predicate Receives(mode: Mode, best: map<Key, nat>, s: seq<Tagged>, f: nat, j: nat) {
    j < |s| && s[j].file == f && EmittedAt(mode, best, s, j)
  }

  /** The items at these positions. */
  ghost predicate ItemsAt(s: seq<Tagged>, at: seq<nat>, items: seq<Item>)
    requires Rising(at, |s|)
  {
    |at| == |items| && forall k | 0 <= k < |at| :: items[k] == s[at[k]].item
  }

  /** `at` lists, in order, the positions whose items file `f` receives, and no other. */
  ghost predicate KeptAt(mode: Mode, best: map<Key, nat>, s: seq<Tagged>, f: nat, at: seq<nat>) {
    && Rising(at, |s|) && ItemsAt(s, at, Kept(mode, best, s, f))
    && forall j: nat :: j in at <==> Receives(mode, best, s, f, j)
  }

  lemma EmittedBefore(mode: Mode, best: map<Key, nat>, init: seq<Tagged>, t: Tagged)
    ensures forall j | 0 <= j < |init| :: EmittedAt(mode, best, init + [t], j) == EmittedAt(mode, best, init, j)
    ensures EmittedAt(mode, best, init + [t], |init|) == Emits(mode, best, t.item, |Entries(mode, init)|)
  {
    forall j | 0 <= j <= |init| ensures (init + [t])[..j] == init[..j] {}
    assert init[..|init|] == init;
  }

  lemma KeptSnoc(mode: Mode, best: map<Key, nat>, init: seq<Tagged>, t: Tagged, f: nat)
    ensures Kept(mode, best, init + [t], f)
            == Kept(mode, best, init, f)
               + if t.file == f && Emits(mode, best, t.item, |Entries(mode, init)|) then [t.item] else []
  {
    assert (init + [t])[..|init|] == init;
  }

  lemma ItemsAtMore(init: seq<Tagged>, t: Tagged, at: seq<nat>, items: seq<Item>)
    requires Rising(at, |init|) && ItemsAt(init, at, items)
    ensures Rising(at, |init| + 1) && Rising(at + [|init|], |init| + 1)
    ensures ItemsAt(init + [t], at, items) && ItemsAt(init + [t], at + [|init|], items + [t.item])
  {}

  lemma ReceivesMore(mode: Mode, best: map<Key, nat>, init: seq<Tagged>, t: Tagged, f: nat, j: nat)
    ensures Receives(mode, best, init + [t], f, j)
            <==> || Receives(mode, best, init, f, j)
                 || (j == |init| && t.file == f && Emits(mode, best, t.item, |Entries(mode, init)|))
  {
    EmittedBefore(mode, best, init, t);
  }

  lemma OneMoreAt(mode: Mode, best: map<Key, nat>, init: seq<Tagged>, t: Tagged, f: nat, at: seq<nat>)
    requires KeptAt(mode, best, init, f, at)
    ensures var takes := t.file == f && Emits(mode, best, t.item, |Entries(mode, init)|);
            KeptAt(mode, best, init + [t], f, if takes then at + [|init|] else at)
  {
    KeptSnoc(mode, best, init, t, f);
    ItemsAtMore(init, t, at, Kept(mode, best, init, f));
    forall j: nat { ReceivesMore(mode, best, init, t, f, j); }
    assert Kept(mode, best, init, f) + [] == Kept(mode, best, init, f);
  }

  /** A file receives exactly its schema objects and winners, each once and in source order. */
  lemma {:induction false} KeptInOrder(mode: Mode, best: map<Key, nat>, s: seq<Tagged>, f: nat) returns (at: seq<nat>)
    ensures KeptAt(mode, best, s, f, at)
  {
    at := [];
    if s != [] {
      var init, t := s[..|s| - 1], s[|s| - 1];
      at := KeptInOrder(mode, best, init, f);
      OneMoreAt(mode, best, init, t, f, at);
      assert init + [t] == s;
      if t.file == f && Emits(mode, best, t.item, |Entries(mode, init)|) { at := at + [|init|]; }
    }
  }

  /** Two data records with the same id or, when content decides, the same content. */
  predicate SameRecord(mode: Mode, a: Value, b: Value) {
    a.Data? && b.Data? && if mode == ById then a.id.Some? && a.id == b.id else a.content == b.content
  }

  /** What is written without being the winner of a key, and what never is. */
  lemma UnkeyedItems(mode: Mode, s: seq<Tagged>, j: nat)
    requires j < |s|
    ensures var v := s[j].item.value;
            && (v.Schema? ==> EmittedAt(mode, Best(Entries(mode, s)), s, j))
            && (v.NotObject? || (v.Data? && v.id.None? && mode == ById) ==>
                  !EmittedAt(mode, Best(Entries(mode, s)), s, j))
  {}

  /** Of the data records that share an id or a content exactly one is written: it is timed if any of
      them is, none has a later time, at its own time none has a higher field priority, and of those that tie
      with it in both it comes first. */
  lemma KeyEmittedOnce(mode: Mode, s: seq<Tagged>, i: nat) returns (j: nat)
    requires i < |s| && s[i].item.value.Data? && (mode == ById ==> s[i].item.value.id.Some?)
    ensures var best, v := Best(Entries(mode, s)), s[i].item.value;
            && j < |s| && SameRecord(mode, s[j].item.value, v) && EmittedAt(mode, best, s, j)
            && (forall k: nat | k < |s| && SameRecord(mode, s[k].item.value, v) ::
                  EmittedAt(mode, best, s, k) ==> k == j)
            && var won, held := SelectionKey(s[j].item.value.parsed), SelectionKey(s[i].item.value.parsed);
               && (held.time.Some? ==> won.time.Some? && won.time.value >= held.time.value)
               && (won.time == held.time ==> won.priority >= held.priority)
               && (won == held ==> j <= i)
  {
    var entries := Entries(mode, s);
    var best := Best(entries);
    KeyedPosition(mode, s, i);
    var c := |Entries(mode, s[..i])|;
    BestIsFirstMaximum(entries, c);
    var w := best[entries[c].key];
    j := PositionOf(mode, s, w);
    KeyedPosition(mode, s, j);
    if i < j { PositionsRise(mode, s, i, j); }
    forall k: nat | k < |s| && KeyOf(mode, s[k].item.value) == KeyOf(mode, s[i].item.value)
        && EmittedAt(mode, best, s, k)
      ensures k == j
    {
      if k < j { PositionsRise(mode, s, k, j); } else if j < k { PositionsRise(mode, s, j, k); }
    }
  }

  /** Sequence numbers rise from one keyed object to the next. */
  lemma PositionsRise(mode: Mode, s: seq<Tagged>, i: nat, j: nat)
    requires i < j < |s| && KeyOf(mode, s[i].item.value).Some?
    ensures |Entries(mode, s[..i])| < |Entries(mode, s[..j])|
  {
    KeyedPosition(mode, s, i);
    EntriesPrefix(mode, s[..i + 1], s[..j]);
  }
}
