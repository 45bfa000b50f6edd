/** Recovering one tier end to end: scan, select, emit, check (scripts/recover_blobs_v2.py). */
module RecoverTier {
  import opened Common
  import opened Scanner
  import opened ScannerProperties
  import opened Selection
  import opened Recovery
  import opened Emission
  import opened OutputCheck

  // ---- what is asked of the JSON decoder ----

  predicate EscapesNewline(raw: Bytes) { exists i :: 0 <= i < |raw| - 1 && raw[i] == BACKSLASH && raw[i + 1] == LF }

  function WithNewline(raw: Bytes): Bytes { raw + [LF] }

  /** Of the texts the scanner cuts out, a newline behind one does not matter, and no accepted one has a
      backslash right before a newline (section 7 of RFC 8259 gives no such escape). Of other bytes nothing
      is asked: `json.loads` reads some of them as UTF-16 or UTF-32, but accepts none in those encodings that
      both begins and ends with a one-byte brace. */
  ghost predicate JsonDecoder(decode: Decoder) {
    && (forall raw: Bytes | Balanced(raw) :: decode(WithNewline(raw)) == decode(raw))
    && (forall raw: Bytes | Balanced(raw) && decode(raw).Some? :: !EscapesNewline(raw))
  }

  function Accepts(decode: Decoder): Parser { (raw: Bytes) => decode(raw).Some? }

  // ---- objects hold no newline ----

  lemma {:induction false} NewlinesAreEscaped(s: Bytes)
    requires RunCore(OPENED, s).Some?
    ensures RunCore(OPENED, s).value.escaped ==> RunCore(OPENED, s).value.inString && s != [] && s[|s| - 1] == BACKSLASH
    ensures forall i | 0 <= i < |s| && s[i] == LF :: i > 0 && s[i - 1] == BACKSLASH
  {
    if s != [] {
      var n := |s| - 1;
      var init := s[..n];
      NewlinesAreEscaped(init);
      forall i | 0 <= i < |s| && s[i] == LF ensures i > 0 && s[i - 1] == BACKSLASH {
        if i < n {
          assert init[i] == LF;
        }
      }
    }
  }

  lemma ObjectIsOneLine(raw: Bytes)
    requires Balanced(raw) && !EscapesNewline(raw)
    ensures LF !in raw
  {
    var n := |raw| - 1;
    var inner := raw[1..n];
    NewlinesAreEscaped(inner);
    forall i | 0 <= i < |raw| ensures raw[i] != LF {
      if 0 < i < n {
        assert inner[i - 1] == raw[i];
        assert i > 1 ==> inner[i - 2] == raw[i - 1];
      }
    }
  }

  // ---- items of a file ----

  function ItemsOf(decode: Decoder, events: seq<Event>): seq<Item> {
    if events == [] then []
    else
      var e := events[|events| - 1];
      ItemsOf(decode, events[..|events| - 1])
      + if e.Object? && decode(e.raw).Some? then [Item(e.raw, decode(e.raw).value)] else []
  }

  function FileItems(decode: Decoder, file: Bytes): seq<Item> { ItemsOf(decode, Scan(file, Accepts(decode))) }

  ghost predicate Readable(decode: Decoder, item: Item) {
    Balanced(item.raw) && LF !in item.raw && decode(item.raw) == Some(item.value)
  }

  lemma {:induction false} ItemsAreReadable(decode: Decoder, file: Bytes, events: seq<Event>)
    requires JsonDecoder(decode) && ObjectsVerbatim(file, Accepts(decode), events)
    ensures forall item | item in ItemsOf(decode, events) :: Readable(decode, item)
  {
    if events != [] {
      var init, e := events[..|events| - 1], events[|events| - 1];
      assert e in events;
      forall d | d in init ensures d in events {}
      ItemsAreReadable(decode, file, init);
      if e.Object? { ObjectIsOneLine(e.raw); }
    }
  }

  lemma FileItemsAreReadable(decode: Decoder, file: Bytes)
    requires JsonDecoder(decode)
    ensures forall item | item in FileItems(decode, file) :: Readable(decode, item)
  {
    ScanCoversFile(file, Accepts(decode));
    ItemsAreReadable(decode, file, Scan(file, Accepts(decode)));
  }

  // ---- the written lines ----

  lemma {:induction false} LineLengthOf(raw: Bytes, rest: Bytes)
    requires LF !in raw
    ensures LineLength(raw + [LF] + rest) == |raw| + 1
  {
    if raw == [] {
      assert raw + [LF] + rest == [LF] + rest;
    } else {
      assert (raw + [LF] + rest)[1..] == raw[1..] + [LF] + rest;
      LineLengthOf(raw[1..], rest);
    }
  }

  lemma {:induction false} LinesAppend(a: Bytes, b: Bytes)
    requires a == [] || Terminated(a)
    ensures Lines(a + b) == Lines(a) + Lines(b)
    decreases |a|
  {
    if a == [] {
      assert a + b == b;
    } else {
      var n := LineLength(a);
      LineLengthAppend(a, b);
      assert (a + b)[..n] == a[..n] && (a + b)[n..] == a[n..] + b;
      LinesAppend(a[n..], b);
    }
  }

  lemma {:induction false} LineLengthAppend(a: Bytes, b: Bytes)
    requires Terminated(a)
    ensures LineLength(a + b) == LineLength(a)
    decreases |a|
  {
    if a[0] != LF {
      assert (a + b)[1..] == a[1..] + b;
      LineLengthAppend(a[1..], b);
    }
  }

  function LinesOf(items: seq<Item>): seq<Bytes> {
    if items == [] then [] else LinesOf(items[..|items| - 1]) + [WithNewline(items[|items| - 1].raw)]
  }

  lemma {:induction false} WrittenLines(decode: Decoder, items: seq<Item>)
    requires forall item | item in items :: Readable(decode, item)
    ensures Text(items) == [] || Terminated(Text(items))
    ensures Lines(Text(items)) == LinesOf(items)
  {
    if items != [] {
      var init, last := items[..|items| - 1], items[|items| - 1];
      assert last in items;
      forall item | item in init ensures item in items {}
      WrittenLines(decode, init);
      LinesAppend(Text(init), last.raw + [LF]);
      LineLengthOf(last.raw, []);
      assert last.raw + [LF] + [] == last.raw + [LF];
      assert (last.raw + [LF])[..|last.raw| + 1] == last.raw + [LF];
      assert Lines(last.raw + [LF]) == [WithNewline(last.raw)];
    }
  }

  // ---- keys of the written items ----

  function ItemKey(mode: Mode, item: Item): seq<Key> {
    if KeyOf(mode, item.value).Some? then [KeyOf(mode, item.value).value] else []
  }

  function KeysOf(mode: Mode, items: seq<Item>): seq<Key> {
    if items == [] then [] else KeysOf(mode, items[..|items| - 1]) + ItemKey(mode, items[|items| - 1])
  }

  /** The written items are all schema objects or keyed. */
  ghost predicate Writable(mode: Mode, decode: Decoder, items: seq<Item>) {
    forall item | item in items :: Readable(decode, item) && (item.value.Schema? || KeyOf(mode, item.value).Some?)
  }

  lemma {:induction false} ReadBack(mode: Mode, decode: Decoder, items: seq<Item>)
    requires JsonDecoder(decode) && Writable(mode, decode, items)
    ensures forall line | line in LinesOf(items) :: CleanLine(mode, decode, line)
    ensures LineKeys(mode, decode, LinesOf(items)) == KeysOf(mode, items)
    ensures |KeysOf(mode, items)| == DataItems(items)
    ensures SchemaLines(decode, LinesOf(items)) == SchemaItems(items)
  {
    if items != [] {
      var init, last := items[..|items| - 1], items[|items| - 1];
      assert last in items;
      forall item | item in init ensures item in items {}
      ReadBack(mode, decode, init);
      assert LinesOf(items)[..|items| - 1] == LinesOf(init) by {
        assert |LinesOf(init)| == |init| by { LinesOfLength(init); }
      }
      assert decode(WithNewline(last.raw)) == decode(last.raw);
      LinesOfLength(items);
    }
  }

  lemma {:induction false} LinesOfLength(items: seq<Item>)
    ensures |LinesOf(items)| == |items|
  {
    if items != [] { LinesOfLength(items[..|items| - 1]); }
  }

  lemma {:induction false} KeptIsWritable(mode: Mode, decode: Decoder, best: map<Key, nat>, s: seq<Tagged>, f: nat)
    requires forall t | t in s :: Readable(decode, t.item)
    ensures Writable(mode, decode, Kept(mode, best, s, f))
  {
    if s != [] {
      var init, t := s[..|s| - 1], s[|s| - 1];
      assert t in s;
      forall u | u in init ensures u in s {}
      KeptIsWritable(mode, decode, best, init, f);
    }
  }

  // ---- no key twice ----

  /** The keys kept from `p` were selected at rising positions among its entries, from `low` on. */
  ghost predicate KeysWithin(keys: seq<Key>, best: map<Key, nat>, low: nat, high: nat) {
    Distinct(keys) && forall k | k in keys :: k in best && low <= best[k] < high
  }

  lemma KeysWithinSnoc(mode: Mode, best: map<Key, nat>, items: seq<Item>, item: Item, low: nat, c: nat, next: nat)
    requires KeysWithin(KeysOf(mode, items), best, low, c) && low <= c <= next
    requires Emits(mode, best, item, c) && (KeyOf(mode, item.value).Some? ==> next == c + 1)
    ensures KeysWithin(KeysOf(mode, items + [item]), best, low, next)
  {
    assert (items + [item])[..|items|] == items;
    var keys := KeysOf(mode, items);
    if KeyOf(mode, item.value).Some? {
      DistinctSnoc(keys, KeyOf(mode, item.value).value);
    } else {
      assert keys + [] == keys;
    }
  }

  lemma {:induction false} KeptKeys(mode: Mode, best: map<Key, nat>, q: seq<Tagged>, p: seq<Tagged>, f: nat)
    requires q <= p && forall t | t in q :: t.file != f
    ensures |Entries(mode, q)| <= |Entries(mode, p)|
    ensures KeysWithin(KeysOf(mode, Kept(mode, best, p, f)), best, |Entries(mode, q)|, |Entries(mode, p)|)
    decreases |p|
  {
    if |p| == |q| {
      assert p == q;
      OtherFiles(mode, best, q, f);
    } else {
      var init, t := p[..|p| - 1], p[|p| - 1];
      KeptKeys(mode, best, q, init, f);
      if t.file == f && Emits(mode, best, t.item, |Entries(mode, init)|) {
        KeysWithinSnoc(mode, best, Kept(mode, best, init, f), t.item, |Entries(mode, q)|, |Entries(mode, init)|,
                       |Entries(mode, p)|);
      } else {
        assert Kept(mode, best, p, f) == Kept(mode, best, init, f);
      }
    }
  }

  lemma KeysWithinAppend(a: seq<Key>, b: seq<Key>, best: map<Key, nat>, low: nat, mid: nat, high: nat)
    requires KeysWithin(a, best, low, mid) && KeysWithin(b, best, mid, high) && low <= mid <= high
    ensures KeysWithin(a + b, best, low, high)
  {
    forall i, j | 0 <= i < j < |a + b| ensures (a + b)[i] != (a + b)[j] {
      if i < |a| <= j {
        assert a[i] in a && b[j - |a|] in b;
      }
    }
  }

  lemma {:induction false} TierKeysWithin(mode: Mode, decode: Decoder, files: seq<seq<Item>>, outputs: seq<Bytes>,
                                          n: nat)
    requires JsonDecoder(decode) && |outputs| == |files| && n <= |files|
    requires forall t | t in Stream(files) :: Readable(decode, t.item)
    requires forall f | 0 <= f < |files| :: FileEmitted(mode, files, f, outputs[f])
    ensures KeysWithin(TierKeys(mode, decode, outputs[..n]), Selected(mode, files), 0,
                       |Entries(mode, Stream(files[..n]))|)
  {
    if n > 0 {
      TierKeysWithin(mode, decode, files, outputs, n - 1);
      assert outputs[..n][..n - 1] == outputs[..n - 1];
      KeysOfFile(mode, decode, files, outputs, n - 1);
      KeysWithinAppend(TierKeys(mode, decode, outputs[..n - 1]), FileKeys(mode, decode, outputs[n - 1]),
                       Selected(mode, files), 0,
                       |Entries(mode, Stream(files[..n - 1]))|, |Entries(mode, Stream(files[..n]))|);
    }
  }

  /** One output file, read back line by line. */
  lemma ReadBackFile(mode: Mode, decode: Decoder, files: seq<seq<Item>>, outputs: seq<Bytes>, f: nat)
    requires JsonDecoder(decode) && |outputs| == |files| && f < |files|
    requires forall t | t in Stream(files) :: Readable(decode, t.item)
    requires FileEmitted(mode, files, f, outputs[f])
    ensures var kept := Kept(mode, Selected(mode, files), Stream(files), f);
            && Lines(outputs[f]) == LinesOf(kept) && Writable(mode, decode, kept)
            && FileKeys(mode, decode, outputs[f]) == KeysOf(mode, kept)
  {
    var kept := Kept(mode, Selected(mode, files), Stream(files), f);
    KeptIsWritable(mode, decode, Selected(mode, files), Stream(files), f);
    WrittenLines(decode, kept);
    ReadBack(mode, decode, kept);
  }

  lemma KeysOfFile(mode: Mode, decode: Decoder, files: seq<seq<Item>>, outputs: seq<Bytes>, f: nat)
    requires JsonDecoder(decode) && |outputs| == |files| && f < |files|
    requires forall t | t in Stream(files) :: Readable(decode, t.item)
    requires FileEmitted(mode, files, f, outputs[f])
    ensures var low, high := |Entries(mode, Stream(files[..f]))|, |Entries(mode, Stream(files[..f + 1]))|;
            low <= high && KeysWithin(FileKeys(mode, decode, outputs[f]), Selected(mode, files), low, high)
  {
    ReadBackFile(mode, decode, files, outputs, f);
    FileIsDone(mode, Selected(mode, files), files, f);
    StreamPrefix(files, f);
    StreamFiles(files[..f]);
    KeptKeys(mode, Selected(mode, files), Stream(files[..f]), Stream(files[..f + 1]), f);
  }

  /** Whatever the input, the emitted tier is clean: every line decodes to a schema object or a keyed
      data object, the counts are those of the reports, and no key appears twice in the tier. */
  lemma EmittedTierIsClean(mode: Mode, decode: Decoder, files: seq<seq<Item>>, winners: map<Key, Winner>,
                           reports: seq<Report>, outputs: seq<Bytes>)
    requires JsonDecoder(decode) && |outputs| == |files| && TierScanned(mode, files, winners, reports)
    requires forall t | t in Stream(files) :: Readable(decode, t.item)
    requires forall f | 0 <= f < |files| :: FileEmitted(mode, files, f, outputs[f])
    ensures CleanTier(mode, decode, outputs, reports)
  {
    TierKeysWithin(mode, decode, files, outputs, |files|);
    assert outputs[..|files|] == outputs;
    forall f | 0 <= f < |files| ensures CleanFile(mode, decode, outputs[f], reports[f]) {
      ReadBackFile(mode, decode, files, outputs, f);
      var kept := Kept(mode, Selected(mode, files), Stream(files), f);
      ReadBack(mode, decode, kept);
      EmissionMatchesScan(mode, files, winners, reports, f);
    }
  }

  // ---- the run ----

  lemma {:induction false} StreamIsReadable(decode: Decoder, files: seq<seq<Item>>)
    requires forall f | 0 <= f < |files| :: forall item | item in files[f] :: Readable(decode, item)
    ensures forall t | t in Stream(files) :: Readable(decode, t.item)
  {
    if files != [] {
      var n := |files| - 1;
      StreamIsReadable(decode, files[..n]);
      TagIsReadable(decode, n, files[n]);
    }
  }

  lemma {:induction false} TagIsReadable(decode: Decoder, f: nat, items: seq<Item>)
    requires forall item | item in items :: Readable(decode, item)
    ensures forall t | t in Tag(f, items) :: Readable(decode, t.item)
  {
    if items != [] { TagIsReadable(decode, f, items[..|items| - 1]); }
  }

  /** Reading one file, in chunks: its top-level objects with their decoded values. */
  method ReadItems(decode: Decoder, chunks: seq<Bytes>) returns (items: seq<Item>)
    ensures items == FileItems(decode, Flatten(chunks))
  {
    var events := IterJsonObjects(chunks, Accepts(decode));
    items := [];
    for i := 0 to |events|
      invariant items == ItemsOf(decode, events[..i])
    {
      assert events[..i + 1][..i] == events[..i];
      if events[i].Object? && decode(events[i].raw).Some? {
        items := items + [Item(events[i].raw, decode(events[i].raw).value)];
      }
    }
    assert events[..|events|] == events;
  }

  method ReadTier(decode: Decoder, inputs: seq<seq<Bytes>>) returns (files: seq<seq<Item>>)
    ensures |files| == |inputs| && forall f | 0 <= f < |files| :: files[f] == FileItems(decode, Flatten(inputs[f]))
  {
    files := [];
    for f := 0 to |inputs|
      invariant |files| == f && forall g | 0 <= g < f :: files[g] == FileItems(decode, Flatten(inputs[g]))
    {
      var items := ReadItems(decode, inputs[f]);
      files := files + [items];
    }
  }

  /** For every input and both key modes: the run ends without an emit mismatch, the check finds
      nothing, and each file takes exactly the bytes that were projected for it. */
  method RecoverOneTier(mode: Mode, decode: Decoder, inputs: seq<seq<Bytes>>)
    returns (outputs: seq<Bytes>, reports: seq<Report>, mismatch: bool, failures: seq<Failure>)
    requires JsonDecoder(decode)
    ensures !mismatch && failures == [] && |outputs| == |reports| == |inputs|
    ensures CleanTier(mode, decode, outputs, reports)
    ensures forall f | 0 <= f < |outputs| :: |outputs[f]| == reports[f].projected
  {
    var first := ReadTier(decode, inputs);
    var winners;
    winners, reports := ScanTier(mode, first);
    var second := ReadTier(decode, inputs);
    assert second == first;
    outputs, mismatch := EmitTier(mode, second, winners, reports);
    forall f | 0 <= f < |first| ensures forall item | item in first[f] :: Readable(decode, item) {
      FileItemsAreReadable(decode, Flatten(inputs[f]));
    }
    StreamIsReadable(decode, first);
    EmittedTierIsClean(mode, decode, first, winners, reports, outputs);
    failures := VerifyOutputs(mode, decode, outputs, reports);
  }
}
