/** Splitting long notes into chunks (aoms/importers/markdown.py).

    Chunks stay within the target and lose nothing but whitespace. */
module Chunking {

  type Text = string

  /** Python's whitespace: what `strip` removes and `\s` matches. */
  predicate Space(c: char) {
    var n := c as int;
    || 9 <= n <= 13 || 28 <= n <= 32 || n == 0x85 || n == 0xA0 || n == 0x1680 || 0x2000 <= n <= 0x200A
    || n == 0x2028 || n == 0x2029 || n == 0x202F || n == 0x205F || n == 0x3000
  }

  predicate Blank(s: Text) { forall c | c in s :: Space(c) }

  // ---- what must survive ----

  /** The non-whitespace characters, in order. */
  function Ink(s: Text): Text {
    if s == [] then [] else Ink(s[..|s| - 1]) + if Space(s[|s| - 1]) then [] else [s[|s| - 1]]
  }

  function Flat(parts: seq<Text>): Text {
    if parts == [] then [] else Flat(parts[..|parts| - 1]) + parts[|parts| - 1]
  }

  function InkOf(parts: seq<Text>): Text { Ink(Flat(parts)) }

  lemma {:induction false} InkConcat(a: Text, b: Text)
    ensures Ink(a + b) == Ink(a) + Ink(b)
    decreases |b|
  {
    if b == [] {
      assert a + b == a;
    } else {
      assert (a + b)[..|a + b| - 1] == a + b[..|b| - 1];
      InkConcat(a, b[..|b| - 1]);
    }
  }

  lemma {:induction false} BlankHasNoInk(s: Text)
    requires Blank(s)
    ensures Ink(s) == []
  {
    if s != [] {
      var init := s[..|s| - 1];
      assert s[|s| - 1] in s;
      forall c | c in init ensures c in s {}
      BlankHasNoInk(init);
    }
  }

  lemma AroundBlank(a: Text, gap: Text, b: Text)
    requires Blank(gap)
    ensures Ink(a + gap + b) == Ink(a) + Ink(b)
  {
    assert Ink(a + gap) == Ink(a) by {
      BlankHasNoInk(gap);
      InkConcat(a, gap);
    }
    InkConcat(a + gap, b);
  }

  lemma InkOfSnoc(parts: seq<Text>, part: Text)
    ensures InkOf(parts + [part]) == InkOf(parts) + Ink(part)
  {
    assert (parts + [part])[..|parts|] == parts;
    InkConcat(Flat(parts), part);
  }

  lemma {:induction false} InkOfConcat(a: seq<Text>, b: seq<Text>)
    ensures InkOf(a + b) == InkOf(a) + InkOf(b)
    decreases |b|
  {
    if b == [] {
      assert a + b == a;
    } else {
      var init, last := b[..|b| - 1], b[|b| - 1];
      InkOfConcat(a, init);
      InkOfSnoc(a + init, last);
      InkOfSnoc(init, last);
      assert a + init + [last] == a + b && init + [last] == b;
    }
  }

  // ---- strip ----

  function StripLeft(s: Text): Text { if s != [] && Space(s[0]) then StripLeft(s[1..]) else s }
  function StripRight(s: Text): Text { if s != [] && Space(s[|s| - 1]) then StripRight(s[..|s| - 1]) else s }
  function Strip(s: Text): Text { StripRight(StripLeft(s)) }

  lemma {:induction false} StripLeftKeepsInk(s: Text)
    ensures Ink(StripLeft(s)) == Ink(s) && |StripLeft(s)| <= |s|
  {
    if s != [] && Space(s[0]) {
      StripLeftKeepsInk(s[1..]);
      assert s == [s[0]] + s[1..];
      InkConcat([s[0]], s[1..]);
      BlankHasNoInk([s[0]]);
    }
  }

  lemma {:induction false} StripRightKeepsInk(s: Text)
    ensures Ink(StripRight(s)) == Ink(s) && |StripRight(s)| <= |s|
  {
    if s != [] && Space(s[|s| - 1]) { StripRightKeepsInk(s[..|s| - 1]); }
  }

  lemma StripKeepsInk(s: Text)
    ensures Ink(Strip(s)) == Ink(s) && |Strip(s)| <= |s|
  {
    StripLeftKeepsInk(s);
    StripRightKeepsInk(StripLeft(s));
  }

  predicate Trimmed(s: Text) { s != "" ==> !Space(s[0]) && !Space(s[|s| - 1]) }

  lemma {:induction false} StripLeftEnds(s: Text)
    ensures StripLeft(s) != "" ==> !Space(StripLeft(s)[0])
  {
    if s != [] && Space(s[0]) { StripLeftEnds(s[1..]); }
  }

  lemma {:induction false} StripRightEnds(s: Text)
    ensures StripRight(s) <= s
    ensures StripRight(s) != "" ==> !Space(StripRight(s)[|StripRight(s)| - 1])
  {
    if s != [] && Space(s[|s| - 1]) { StripRightEnds(s[..|s| - 1]); }
  }

  lemma StripTrims(s: Text)
    ensures Trimmed(Strip(s))
  {
    StripLeftEnds(s);
    StripRightEnds(StripLeft(s));
  }

  /** Only whitespace goes, and only from the ends. */
  lemma {:induction false} StripLeftExact(s: Text) returns (a: Text)
    ensures s == a + StripLeft(s) && Blank(a)
  {
    a := "";
    if s != [] && Space(s[0]) {
      var rest := StripLeftExact(s[1..]);
      a := [s[0]] + rest;
    }
  }

  lemma {:induction false} StripRightExact(s: Text) returns (b: Text)
    ensures s == StripRight(s) + b && Blank(b)
  {
    b := "";
    if s != [] && Space(s[|s| - 1]) {
      var rest := StripRightExact(s[..|s| - 1]);
      b := rest + [s[|s| - 1]];
    }
  }

  lemma StripExact(s: Text) returns (a: Text, b: Text)
    ensures s == a + Strip(s) + b && Blank(a) && Blank(b) && Trimmed(Strip(s))
  {
    a := StripLeftExact(s);
    b := StripRightExact(StripLeft(s));
    StripTrims(s);
  }

  // ---- paragraphs: the parts between runs that match newline, blanks, newline ----

  function SpaceRun(s: Text, i: nat): (e: nat)
    requires i <= |s|
    ensures i <= e <= |s| && forall k | i <= k < e :: Space(s[k])
    decreases |s| - i
  {
    if i < |s| && Space(s[i]) then SpaceRun(s, i + 1) else i
  }

  /** Past the last newline in `s[lo..hi]`, or `lo` when there is none. */
  function PastLastNewline(s: Text, lo: nat, hi: nat): (e: nat)
    requires lo <= hi <= |s|
    ensures lo <= e <= hi
  {
    if lo == hi then lo else if s[hi - 1] == '\n' then hi else PastLastNewline(s, lo, hi - 1)
  }

  /** Where the longest gap starting at the newline `i` ends; `i + 1` when no gap starts there. */
  function GapEnd(s: Text, i: nat): (e: nat)
    requires i < |s|
    ensures i < e <= |s| && forall k | i < k < e :: Space(s[k])
  {
    PastLastNewline(s, i + 1, SpaceRun(s, i + 1))
  }

  predicate GapAt(s: Text, i: nat)
    requires i < |s|
  {
    s[i] == '\n' && GapEnd(s, i) > i + 1
  }

  function FirstGap(s: Text, i: nat): (g: nat)
    requires i <= |s|
    ensures i <= g <= |s| && (g < |s| ==> GapAt(s, g)) && forall k | i <= k < g :: !GapAt(s, k)
    decreases |s| - i
  {
    if i == |s| || GapAt(s, i) then i else FirstGap(s, i + 1)
  }

  function Paragraphs(s: Text): seq<Text>
    decreases |s|
  {
    var g := FirstGap(s, 0);
    if g == |s| then [s] else [s[..g]] + Paragraphs(s[GapEnd(s, g)..])
  }

  lemma {:induction false} ParagraphsKeepInk(s: Text)
    ensures InkOf(Paragraphs(s)) == Ink(s)
    decreases |s|
  {
    var g := FirstGap(s, 0);
    if g == |s| {
      InkOfOne(s);
    } else {
      var e := GapEnd(s, g);
      ParagraphsKeepInk(s[e..]);
      InkOfOne(s[..g]);
      InkOfConcat([s[..g]], Paragraphs(s[e..]));
      GapInk(s, g, e);
    }
  }

  lemma InkOfOne(s: Text)
    ensures InkOf([s]) == Ink(s)
  {
    InkOfSnoc([], s);
    assert [] + [s] == [s];
  }

  lemma GapInk(s: Text, g: nat, e: nat)
    requires g <= e <= |s| && Blank(s[g..e])
    ensures Ink(s) == Ink(s[..g]) + Ink(s[e..])
  {
    assert s == s[..g] + s[g..e] + s[e..];
    AroundBlank(s[..g], s[g..e], s[e..]);
  }

  // ---- what separates paragraphs ----

  /** A newline, whitespace, and a newline. */
  predicate BlankLine(gap: Text) { |gap| >= 2 && gap[0] == '\n' && gap[|gap| - 1] == '\n' && Blank(gap) }

  /** A blank line stands between the newlines at `i` and `j`. */
  predicate BlankLineAt(s: Text, i: nat, j: nat) {
    i < j < |s| && s[i] == '\n' && s[j] == '\n' && forall k | i < k < j :: Space(s[k])
  }

  ghost predicate HasBlankLine(s: Text) { exists i: nat, j: nat :: BlankLineAt(s, i, j) }

  /** After whitespace at most, a newline: the text before it would have run on into this one. */
  predicate RunsOn(s: Text, k: nat) { k < |s| && s[k] == '\n' && forall i | 0 <= i < k :: Space(s[i]) }

  lemma {:induction false} SpaceRunEnds(s: Text, i: nat)
    requires i <= |s|
    ensures SpaceRun(s, i) < |s| ==> !Space(s[SpaceRun(s, i)])
    decreases |s| - i
  {
    if i < |s| && Space(s[i]) { SpaceRunEnds(s, i + 1); }
  }

  lemma {:induction false} PastLastNewlineExact(s: Text, lo: nat, hi: nat)
    requires lo <= hi <= |s|
    ensures var e := PastLastNewline(s, lo, hi);
            (e > lo ==> s[e - 1] == '\n') && forall k | e <= k < hi :: s[k] != '\n'
  {
    if lo < hi && s[hi - 1] != '\n' { PastLastNewlineExact(s, lo, hi - 1); }
  }

  /** A gap starts exactly where a blank line does, ends with a newline and takes in all that follow it. */
  lemma GapExact(s: Text, i: nat)
    requires i < |s|
    ensures forall j | BlankLineAt(s, i, j) :: GapAt(s, i)
    ensures GapAt(s, i) ==> BlankLine(s[i..GapEnd(s, i)]) && forall k :: !RunsOn(s[GapEnd(s, i)..], k)
  {
    var hi := SpaceRun(s, i + 1);
    var e := GapEnd(s, i);
    SpaceRunEnds(s, i + 1);
    PastLastNewlineExact(s, i + 1, hi);
    forall j | BlankLineAt(s, i, j) ensures GapAt(s, i) {
      assert j < hi;
    }
    if GapAt(s, i) {
      forall c | c in s[i..e] ensures Space(c) {
        var k :| 0 <= k < e - i && s[i..e][k] == c;
        assert s[i + k] == c;
      }
      forall k ensures !RunsOn(s[e..], k) {}
    }
  }

  /** The parts with the gaps between them. */
  function Woven(parts: seq<Text>, gaps: seq<Text>): Text
    requires |parts| == |gaps| + 1
  {
    if gaps == [] then parts[0] else parts[0] + gaps[0] + Woven(parts[1..], gaps[1..])
  }

  /** A text is cut only at blank lines, at each of them, and a gap takes in all the blank lines it can. */
  ghost predicate CutAtBlankLines(s: Text, parts: seq<Text>, gaps: seq<Text>) {
    && |parts| == |gaps| + 1 && s == Woven(parts, gaps)
    && (forall g | g in gaps :: BlankLine(g))
    && (forall p | p in parts :: !HasBlankLine(p))
    && (forall i, k | 0 < i < |parts| :: !RunsOn(parts[i], k))
  }

  lemma NoGapNoBlankLine(s: Text, g: nat)
    requires g <= |s| && forall k | 0 <= k < g :: !GapAt(s, k)
    ensures !HasBlankLine(s[..g])
  {
    forall i: nat, j: nat ensures !BlankLineAt(s[..g], i, j) {
      if i < j < g {
        assert BlankLineAt(s[..g], i, j) ==> BlankLineAt(s, i, j);
        GapExact(s, i);
      }
    }
  }

  lemma StartRunsOn(s: Text, g: nat)
    requires g <= |s| && forall k :: !RunsOn(s, k)
    ensures forall k :: !RunsOn(s[..g], k)
  {
    forall k ensures !RunsOn(s[..g], k) { assert !RunsOn(s, k); }
  }

  lemma WovenCons(part: Text, gap: Text, parts: seq<Text>, gaps: seq<Text>)
    requires |parts| == |gaps| + 1
    ensures Woven([part] + parts, [gap] + gaps) == part + gap + Woven(parts, gaps)
  {
    assert ([part] + parts)[1..] == parts && ([gap] + gaps)[1..] == gaps;
  }

  lemma CutOnce(s: Text, g: nat, e: nat, parts: seq<Text>, gaps: seq<Text>)
    requires g <= e <= |s| && BlankLine(s[g..e]) && !HasBlankLine(s[..g])
    requires CutAtBlankLines(s[e..], parts, gaps) && forall k :: !RunsOn(parts[0], k)
    ensures CutAtBlankLines(s, [s[..g]] + parts, [s[g..e]] + gaps)
  {
    WovenCons(s[..g], s[g..e], parts, gaps);
    assert s == s[..g] + s[g..e] + s[e..];
    var all := [s[..g]] + parts;
    forall i, k | 0 < i < |all| ensures !RunsOn(all[i], k) {
      assert all[i] == parts[i - 1];
    }
  }

  lemma OnlyOne(s: Text)
    requires !HasBlankLine(s)
    ensures CutAtBlankLines(s, [s], [])
  {}

  lemma {:induction false} ParagraphsExact(s: Text) returns (gaps: seq<Text>)
    ensures CutAtBlankLines(s, Paragraphs(s), gaps)
    ensures (forall k :: !RunsOn(s, k)) ==> forall k :: !RunsOn(Paragraphs(s)[0], k)
    decreases |s|
  {
    var g := FirstGap(s, 0);
    NoGapNoBlankLine(s, g);
    if g == |s| {
      assert s[..g] == s;
      OnlyOne(s);
      gaps := [];
    } else {
      var e := GapEnd(s, g);
      GapExact(s, g);
      var more := ParagraphsExact(s[e..]);
      CutOnce(s, g, e, Paragraphs(s[e..]), more);
      gaps := [s[g..e]] + more;
      if forall k :: !RunsOn(s, k) { StartRunsOn(s, g); }
    }
  }

  // ---- cutting one text down to size ----

  ghost predicate Bounded(chunks: seq<Text>, target: nat) { forall c | c in chunks :: |c| <= target }

  /** No two neighbouring chunks would have fitted into one. */
  predicate Tight(chunks: seq<Text>, target: nat) {
    forall i | 0 <= i < |chunks| - 1 :: |chunks[i]| + |chunks[i + 1]| + 2 > target
  }

  /** Chunks so far and the pending one, all tight; the pending one is empty only at the start. */
  predicate Greedy(chunks: seq<Text>, pending: Text, target: nat) {
    if pending == "" then chunks == [] else Tight(chunks + [pending], target)
  }

  predicate Steady(chunks: seq<Text>, pending: Text, target: nat) {
    Trimmed(pending) && Greedy(chunks, pending, target)
  }

  /** What the loop over the slices of a paragraph keeps of the two ways to count. */
  ghost predicate SlicesPacked(chunks: seq<Text>, pending: Text, before: seq<Text>, pieces: seq<Text>, n: nat,
                               target: nat)
    requires n <= |pieces|
  {
    Packing(chunks, pending, before + pieces[..n], target)
  }

  lemma SlicePacked(chunks: seq<Text>, pending: Text, before: seq<Text>, pieces: seq<Text>, n: nat, target: nat)
    requires n < |pieces| && Packing(chunks, pending, before + pieces[..n] + [pieces[n]], target)
    ensures SlicesPacked(chunks, pending, before, pieces, n + 1, target)
  {
    assert before + pieces[..n] + [pieces[n]] == before + pieces[..n + 1];
  }

  lemma SlicesPackedEnds(chunks: seq<Text>, pending: Text, before: seq<Text>, pieces: seq<Text>, target: nat)
    ensures SlicesPacked(chunks, pending, before, pieces, 0, target) <==> Packing(chunks, pending, before, target)
    ensures SlicesPacked(chunks, pending, before, pieces, |pieces|, target)
            <==> Packing(chunks, pending, before + pieces, target)
  {
    assert before + pieces[..0] == before && pieces[..|pieces|] == pieces;
  }

  predicate Whole(piece: Text, target: nat) { piece != "" && |piece| <= target && Trimmed(piece) }

  lemma GrowPending(chunks: seq<Text>, pending: Text, more: Text, target: nat)
    requires Greedy(chunks, pending, target) && pending != "" && |more| >= |pending|
    ensures Greedy(chunks, more, target)
  {
    var was, now := chunks + [pending], chunks + [more];
    forall i | 0 <= i < |now| - 1 ensures |now[i]| + |now[i + 1]| + 2 > target {
      assert |was[i]| + |was[i + 1]| + 2 > target;
    }
  }

  // ---- how pieces share chunks ----

  /** A paragraph cut into slices of the target size. */
  function SlicesOf(paragraph: Text, target: nat): seq<Text>
    requires target >= 1
  {
    if |paragraph| <= target then [paragraph] else [paragraph[..target]] + SlicesOf(paragraph[target..], target)
  }

  lemma {:induction false} SlicesExact(paragraph: Text, target: nat)
    requires target >= 1
    ensures var slices := SlicesOf(paragraph, target);
            && slices != [] && (forall i | 0 <= i < |slices| - 1 :: |slices[i]| == target)
            && |slices[|slices| - 1]| <= target && (paragraph != "" ==> forall p | p in slices :: p != "")
    ensures Concat(SlicesOf(paragraph, target)) == paragraph
  {
    if |paragraph| > target {
      var rest := SlicesOf(paragraph[target..], target);
      SlicesExact(paragraph[target..], target);
      ConcatCons(paragraph[..target], rest);
      assert paragraph[..target] + paragraph[target..] == paragraph;
    } else {
      ConcatOne(paragraph);
    }
  }

  function Concat(parts: seq<Text>): Text { if parts == [] then "" else parts[0] + Concat(parts[1..]) }

  lemma ConcatCons(part: Text, parts: seq<Text>)
    ensures Concat([part] + parts) == part + Concat(parts)
  {
    assert ([part] + parts)[1..] == parts;
  }

  lemma ConcatOne(part: Text)
    ensures Concat([part]) == part
  {}

  /** The non-blank parts, trimmed and cut into slices. */
  function PiecesOf(parts: seq<Text>, target: nat): seq<Text>
    requires target >= 1
  {
    if parts == [] then []
    else
      PiecesOf(parts[..|parts| - 1], target) + OwnPieces(parts[|parts| - 1], target)
  }

  function OwnPieces(part: Text, target: nat): seq<Text>
    requires target >= 1
  {
    if Strip(part) == "" then [] else SlicesOf(Strip(part), target)
  }

  /** Pieces in one chunk, a blank line between each and the next, trimmed. */
  function Joined(group: seq<Text>): Text
    requires group != []
  {
    var n := |group| - 1;
    if n == 0 then group[0] else Strip(Joined(group[..n]) + "\n\n" + group[n])
  }

  /** A piece that is not all whitespace, or as long as a piece can be. */
  predicate Solid(piece: Text, target: nat) { piece != "" && (Blank(piece) ==> |piece| >= target) }

  function All(groups: seq<seq<Text>>): seq<Text> {
    if groups == [] then [] else All(groups[..|groups| - 1]) + groups[|groups| - 1]
  }

  /** Each chunk joins the next few pieces. */
  ghost predicate JoinsEach(chunks: seq<Text>, groups: seq<seq<Text>>) {
    |groups| == |chunks| && forall k | 0 <= k < |chunks| :: groups[k] != [] && chunks[k] == Joined(groups[k])
  }

  /** The piece behind those of a chunk would not have fitted into it. */
  ghost predicate FilledUp(chunks: seq<Text>, groups: seq<seq<Text>>, target: nat)
    requires JoinsEach(chunks, groups)
  {
    forall k, l | 0 <= k < |chunks| && l == k + 1 < |chunks| :: |chunks[k]| + |groups[l][0]| + 2 > target
  }

  ghost predicate LaidOut(chunks: seq<Text>, groups: seq<seq<Text>>, pieces: seq<Text>, target: nat) {
    JoinsEach(chunks, groups) && FilledUp(chunks, groups, target) && All(groups) == pieces
  }

  /** All pieces in order, in as few joins as the target allows. */
  ghost predicate Packs(chunks: seq<Text>, pieces: seq<Text>, target: nat) {
    exists groups :: LaidOut(chunks, groups, pieces, target)
  }

  /** The same with the last chunk still pending. */
  ghost predicate Packing(chunks: seq<Text>, pending: Text, pieces: seq<Text>, target: nat) {
    if pending == "" then chunks == [] && pieces == []
    else Solid(pending, target) && Packs(chunks + [pending], pieces, target)
  }

  lemma AllSnoc(groups: seq<seq<Text>>, group: seq<Text>)
    ensures All(groups + [group]) == All(groups) + group
  {
    assert (groups + [group])[..|groups|] == groups;
  }

  lemma FirstPiece(piece: Text, target: nat)
    ensures Packs([piece], [piece], target)
  {
    AllSnoc([], [piece]);
    assert [] + [[piece]] == [[piece]];
    assert LaidOut([piece], [[piece]], [piece], target);
  }

  /** A piece that does not fit starts a chunk. */
  lemma NewGroup(chunks: seq<Text>, pending: Text, pieces: seq<Text>, piece: Text, target: nat)
    requires Packs(chunks + [pending], pieces, target) && |pending| + |piece| + 2 > target
    ensures Packs(chunks + [pending] + [piece], pieces + [piece], target)
  {
    var groups :| LaidOut(chunks + [pending], groups, pieces, target);
    AllSnoc(groups, [piece]);
    assert LaidOut(chunks + [pending] + [piece], groups + [[piece]], pieces + [piece], target);
  }

  lemma JoinedSnoc(group: seq<Text>, piece: Text)
    requires group != []
    ensures Joined(group + [piece]) == Strip(Joined(group) + "\n\n" + piece)
  {
    assert (group + [piece])[..|group|] == group;
  }

  lemma LastGrows(chunks: seq<Text>, init: seq<seq<Text>>, pending: Text, last: seq<Text>, piece: Text, target: nat)
    requires JoinsEach(chunks + [pending], init + [last]) && FilledUp(chunks + [pending], init + [last], target)
    ensures var more := Strip(pending + "\n\n" + piece);
            && JoinsEach(chunks + [more], init + [last + [piece]])
            && FilledUp(chunks + [more], init + [last + [piece]], target)
  {
    var n := |chunks|;
    var was, now := init + [last], init + [last + [piece]];
    assert was[n] == last && (chunks + [pending])[n] == pending;
    JoinedSnoc(last, piece);
    forall k | 0 <= k < n ensures now[k] == was[k] {}
    assert now[n][0] == was[n][0];
    var more := Strip(pending + "\n\n" + piece);
    assert JoinsEach(chunks + [more], now);
    forall k, l | 0 <= k < n + 1 && l == k + 1 < n + 1
      ensures |(chunks + [more])[k]| + |now[l][0]| + 2 > target
    {
      assert |(chunks + [pending])[k]| + |was[l][0]| + 2 > target;
    }
  }

  /** One that fits joins the pending chunk. */
  lemma SameGroup(chunks: seq<Text>, pending: Text, pieces: seq<Text>, piece: Text, target: nat)
    requires Packs(chunks + [pending], pieces, target)
    ensures Packs(chunks + [Strip(pending + "\n\n" + piece)], pieces + [piece], target)
  {
    var groups :| LaidOut(chunks + [pending], groups, pieces, target);
    var n := |groups| - 1;
    var init, last := groups[..n], groups[n];
    assert init + [last] == groups;
    LastGrows(chunks, init, pending, last, piece, target);
    AllSnoc(init, last);
    AllSnoc(init, last + [piece]);
    assert All(init) + (last + [piece]) == pieces + [piece];
    assert LaidOut(chunks + [Strip(pending + "\n\n" + piece)], init + [last + [piece]], pieces + [piece], target);
  }

  lemma JoinIsSolid(pending: Text, piece: Text, target: nat)
    requires Solid(pending, target) && Solid(piece, target) && |pending| + |piece| + 2 <= target
    ensures Solid(Strip(pending + "\n\n" + piece), target)
  {
    var joined := pending + "\n\n" + piece;
    var c :| c in pending && !Space(c);
    assert c in joined;
    StripIsEmptyForBlank(joined);
    StripTrims(joined);
    var t := Strip(joined);
    assert t[0] in t && !Space(t[0]);
  }

  /** The step every piece takes. */
  lemma PieceIsPacked(chunks: seq<Text>, pending: Text, pieces: seq<Text>, piece: Text, target: nat)
    requires Packing(chunks, pending, pieces, target) && Solid(piece, target)
    ensures pending == "" ==> Packing(chunks, piece, pieces + [piece], target)
    ensures pending != "" && |pending| + |piece| + 2 > target ==>
              Packing(chunks + [pending], piece, pieces + [piece], target)
    ensures pending != "" && |pending| + |piece| + 2 <= target ==>
              Packing(chunks, Strip(pending + "\n\n" + piece), pieces + [piece], target)
  {
    if pending == "" {
      FirstPiece(piece, target);
      assert chunks + [piece] == [piece] && pieces + [piece] == [piece];
    } else if |pending| + |piece| + 2 > target {
      NewGroup(chunks, pending, pieces, piece, target);
    } else {
      SameGroup(chunks, pending, pieces, piece, target);
      JoinIsSolid(pending, piece, target);
    }
  }

  lemma {:induction false} SlicesAreSolid(paragraph: Text, target: nat)
    requires target >= 1 && paragraph != "" && !Space(paragraph[|paragraph| - 1])
    ensures forall p | p in SlicesOf(paragraph, target) :: Solid(p, target)
  {
    if |paragraph| > target {
      SlicesAreSolid(paragraph[target..], target);
    } else {
      assert paragraph[|paragraph| - 1] in paragraph;
    }
  }

  /** Trimmed pieces stand in their chunk as they are, a blank line between each and the next. */
  lemma JoinedVerbatim(group: seq<Text>, piece: Text)
    requires group != [] && piece != "" && Trimmed(piece) && Joined(group) != "" && Trimmed(Joined(group))
    ensures Joined(group + [piece]) == Joined(group) + "\n\n" + piece
    ensures Trimmed(Joined(group + [piece]))
  {
    JoinedSnoc(group, piece);
    StripTrimmed(Joined(group) + "\n\n" + piece);
  }

  lemma StripTrimmed(s: Text)
    requires s != "" && !Space(s[0]) && !Space(s[|s| - 1])
    ensures Strip(s) == s
  {}

  lemma NextSlice(paragraph: Text, target: nat, index: nat, end: nat)
    requires target >= 1 && index < |paragraph|
    requires end == if index + target <= |paragraph| then index + target else |paragraph|
    ensures SlicesOf(paragraph[index..], target)
            == [paragraph[index..end]] + if end == |paragraph| then [] else SlicesOf(paragraph[end..], target)
  {
    var left := paragraph[index..];
    if |left| > target {
      assert left[..target] == paragraph[index..end] && left[target..] == paragraph[end..];
    } else {
      assert left == paragraph[index..end];
    }
  }

  /** The slices of a paragraph up to `index`. */
  ghost predicate SlicedTo(paragraph: Text, target: nat, index: nat, pieces: seq<Text>)
    requires target >= 1
  {
    && index <= |paragraph|
    && pieces + (if index == |paragraph| then [] else SlicesOf(paragraph[index..], target))
       == SlicesOf(paragraph, target)
  }

  lemma SliceAdded(paragraph: Text, target: nat, index: nat, end: nat, pieces: seq<Text>)
    requires target >= 1 && index < |paragraph| && SlicedTo(paragraph, target, index, pieces)
    requires end == if index + target <= |paragraph| then index + target else |paragraph|
    ensures SlicedTo(paragraph, target, end, pieces + [paragraph[index..end]])
  {
    NextSlice(paragraph, target, index, end);
    PiecesRegroup(pieces, [paragraph[index..end]],
                  if end == |paragraph| then [] else SlicesOf(paragraph[end..], target));
  }

  lemma PiecesRegroup(a: seq<Text>, b: seq<Text>, c: seq<Text>)
    ensures (a + b) + c == a + (b + c)
  {}

  lemma SliceInk(paragraph: Text, index: nat, end: nat, pieces: seq<Text>)
    requires index <= end <= |paragraph| && InkOf(pieces) == Ink(paragraph[..index])
    ensures InkOf(pieces + [paragraph[index..end]]) == Ink(paragraph[..end])
  {
    InkOfSnoc(pieces, paragraph[index..end]);
    InkConcat(paragraph[..index], paragraph[index..end]);
    assert paragraph[..index] + paragraph[index..end] == paragraph[..end];
  }

  /** Slices of the target size. */
  method Slices(paragraph: Text, target: nat) returns (pieces: seq<Text>)
    requires target >= 1
    ensures Bounded(pieces, target) && InkOf(pieces) == Ink(paragraph) && pieces == SlicesOf(paragraph, target)
  {
    if |paragraph| <= target {
      InkOfSnoc([], paragraph);
      assert [] + [paragraph] == [paragraph];
      return [paragraph];
    }
    pieces := [];
    var index := 0;
    assert paragraph[0..] == paragraph && pieces + SlicesOf(paragraph, target) == SlicesOf(paragraph, target);
    while index < |paragraph|
      invariant index <= |paragraph| && Bounded(pieces, target)
      invariant InkOf(pieces) == Ink(paragraph[..index]) && SlicedTo(paragraph, target, index, pieces)
    {
      var end := if index + target <= |paragraph| then index + target else |paragraph|;
      SliceInk(paragraph, index, end, pieces);
      SliceAdded(paragraph, target, index, end, pieces);
      pieces := pieces + [paragraph[index..end]];
      index := end;
    }
    assert paragraph[..index] == paragraph && pieces + [] == pieces;
  }

  /** A pending chunk and a piece joined, trimmed again. */
  method JoinPiece(pending0: Text, piece: Text) returns (pending: Text)
    requires pending0 != ""
    ensures |pending| <= |pending0| + |piece| + 2 && Ink(pending) == Ink(pending0 + BREAK + piece)
    ensures piece != "" && Trimmed(pending0) && Trimmed(piece) ==> |pending| >= |pending0|
    ensures Trimmed(pending) && pending == Strip(pending0 + "\n\n" + piece)
  {
    var joined := pending0 + BREAK + piece;
    StripKeepsInk(joined);
    StripTrims(joined);
    pending := Strip(joined);
    if piece != "" && Trimmed(pending0) && Trimmed(piece) {
      assert joined[0] == pending0[0] && joined[|joined| - 1] == piece[|piece| - 1];
      assert pending == joined;
    }
  }

  /** One piece against the pending chunk. */
  method AddPiece(chunks0: seq<Text>, pending0: Text, piece: Text, target: nat, ghost pieces: seq<Text>)
      returns (chunks: seq<Text>, pending: Text)
    requires Bounded(chunks0, target) && |pending0| <= target && |piece| <= target
    ensures Bounded(chunks, target) && |pending| <= target
    ensures InkOf(chunks + [pending]) == InkOf(chunks0 + [pending0]) + Ink(piece)
    ensures Whole(piece, target) && Steady(chunks0, pending0, target) ==> Steady(chunks, pending, target)
    ensures Packing(chunks0, pending0, pieces, target) && Solid(piece, target) ==>
              Packing(chunks, pending, pieces + [piece], target)
  {
    chunks, pending := chunks0, pending0;
    if Packing(chunks0, pending0, pieces, target) && Solid(piece, target) {
      PieceIsPacked(chunks0, pending0, pieces, piece, target);
    }
    NextPieceInk(chunks0, pending0, piece);
    if Whole(piece, target) && Steady(chunks0, pending0, target) { NextPieceSteady(chunks0, pending0, piece, target); }
    if pending != "" && |pending| + |piece| + 2 > target {
      chunks := chunks + [pending];
      pending := "";
    }
    if pending != "" {
      pending := JoinPiece(pending, piece);
      SameInkLast(chunks, pending, pending0 + BREAK + piece);
    } else {
      pending := piece;
    }
  }

  lemma SameInkLast(chunks: seq<Text>, a: Text, b: Text)
    requires Ink(a) == Ink(b)
    ensures InkOf(chunks + [a]) == InkOf(chunks + [b])
  {
    InkOfSnoc(chunks, a);
    InkOfSnoc(chunks, b);
  }

  lemma NextPieceSteady(chunks: seq<Text>, pending: Text, piece: Text, target: nat)
    requires Whole(piece, target) && Steady(chunks, pending, target)
    ensures pending == "" ==> Steady(chunks, piece, target)
    ensures pending != "" && |pending| + |piece| + 2 > target ==> Steady(chunks + [pending], piece, target)
    ensures forall more: Text | pending != "" && Trimmed(more) && |more| >= |pending| :: Steady(chunks, more, target)
  {
    if pending != "" {
      forall more: Text | Trimmed(more) && |more| >= |pending| ensures Steady(chunks, more, target) {
        GrowPending(chunks, pending, more, target);
      }
    }
  }

  const BREAK := "\n\n"

  lemma JoinedInk(a: Text, b: Text)
    ensures Ink(a + BREAK + b) == Ink(a) + Ink(b)
  {
    AroundBlank(a, BREAK, b);
  }

  lemma FlushInk(chunks: seq<Text>, pending: Text)
    ensures InkOf(chunks + [""]) == InkOf(chunks)
    ensures InkOf(chunks + [pending]) == InkOf(chunks) + Ink(pending)
    ensures pending == "" ==> InkOf(chunks + [pending]) == InkOf(chunks)
  {
    InkOfSnoc(chunks, "");
    InkOfSnoc(chunks, pending);
  }

  /** One part between gaps, trimmed; a blank one adds nothing. */
  method AddPart(chunks0: seq<Text>, pending0: Text, part: Text, target: nat, ghost pieces: seq<Text>)
      returns (chunks: seq<Text>, pending: Text)
    requires target >= 1 && Bounded(chunks0, target) && |pending0| <= target
    ensures Bounded(chunks, target) && |pending| <= target
    ensures InkOf(chunks + [pending]) == InkOf(chunks0 + [pending0]) + Ink(part)
    ensures |Strip(part)| <= target && Steady(chunks0, pending0, target) ==> Steady(chunks, pending, target)
    ensures Packing(chunks0, pending0, pieces, target) ==>
              Packing(chunks, pending, pieces + OwnPieces(part, target), target)
  {
    chunks, pending := chunks0, pending0;
    var paragraph := Strip(part);
    StripKeepsInk(part);
    StripTrims(part);
    if paragraph != "" {
      chunks, pending := AddParagraph(chunks, pending, paragraph, target, pieces);
    } else {
      assert pieces + OwnPieces(part, target) == pieces;
    }
  }

  predicate PartsFit(parts: seq<Text>, n: nat, target: nat)
    requires n <= |parts|
  {
    forall i | 0 <= i < n :: |Strip(parts[i])| <= target
  }

  /** A text of any length: every chunk within the target, no non-whitespace character lost or moved;
      and when every paragraph fits, no two neighbouring chunks would have fitted into one. */
  method SplitOversize(text: Text, target: nat) returns (chunks: seq<Text>)
    requires target >= 1
    ensures Bounded(chunks, target) && InkOf(chunks) == Ink(text)
    ensures PartsFit(Paragraphs(text), |Paragraphs(text)|, target) ==> Tight(chunks, target)
    ensures Packs(chunks, PiecesOf(Paragraphs(text), target), target)
  {
    var parts := Paragraphs(text);
    ParagraphsKeepInk(text);
    chunks := [];
    var pending := "";
    FlushInk([], "");
    for i := 0 to |parts|
      invariant Bounded(chunks, target) && |pending| <= target
      invariant InkOf(chunks + [pending]) == InkOf(parts[..i])
      invariant PartsFit(parts, i, target) ==> Steady(chunks, pending, target)
      invariant Packing(chunks, pending, PiecesOf(parts[..i], target), target)
    {
      NextPart(parts, i);
      NextPieces(parts, i, target);
      chunks, pending := AddPart(chunks, pending, parts[i], target, PiecesOf(parts[..i], target));
    }
    assert parts[..|parts|] == parts;
    FlushInk(chunks, pending);
    NothingPacked(target);
    if pending != "" {
      chunks := chunks + [pending];
    }
  }

  lemma NextPieces(parts: seq<Text>, i: nat, target: nat)
    requires i < |parts| && target >= 1
    ensures PiecesOf(parts[..i + 1], target) == PiecesOf(parts[..i], target) + OwnPieces(parts[i], target)
  {
    assert parts[..i + 1][..i] == parts[..i];
  }

  lemma NothingPacked(target: nat)
    ensures Packs([], [], target)
  {
    assert LaidOut([], [], [], target);
  }

  lemma NextPart(parts: seq<Text>, i: nat)
    requires i < |parts|
    ensures InkOf(parts[..i + 1]) == InkOf(parts[..i]) + Ink(parts[i])
  {
    InkOfSnoc(parts[..i], parts[i]);
    assert parts[..i] + [parts[i]] == parts[..i + 1];
  }

  ghost predicate PiecesAdded(chunks0: seq<Text>, pending0: Text, pieces: seq<Text>, n: nat, chunks: seq<Text>,
                              pending: Text, target: nat)
    requires n <= |pieces|
  {
    && Bounded(chunks, target) && |pending| <= target
    && InkOf(chunks + [pending]) == InkOf(chunks0 + [pending0]) + InkOf(pieces[..n])
  }

  lemma PieceAdded(chunks0: seq<Text>, pending0: Text, pieces: seq<Text>, n: nat, chunks: seq<Text>, pending: Text,
                   target: nat, chunks': seq<Text>, pending': Text)
    requires n < |pieces| && PiecesAdded(chunks0, pending0, pieces, n, chunks, pending, target)
    requires Bounded(chunks', target) && |pending'| <= target
        && InkOf(chunks' + [pending']) == InkOf(chunks + [pending]) + Ink(pieces[n])
    ensures PiecesAdded(chunks0, pending0, pieces, n + 1, chunks', pending', target)
  {
    NextPart(pieces, n);
    TextRegroup(InkOf(chunks0 + [pending0]), InkOf(pieces[..n]), Ink(pieces[n]));
  }

  lemma TextRegroup(a: Text, b: Text, c: Text)
    ensures (a + b) + c == a + (b + c)
  {}

  /** A paragraph about to be added: it is trimmed, and so far the pieces are packed. */
  ghost predicate Ready(chunks: seq<Text>, pending: Text, paragraph: Text, target: nat, before: seq<Text>) {
    paragraph != "" && Trimmed(paragraph) && Packing(chunks, pending, before, target)
  }

  /** What the paragraph is added to, and the pieces that were packed before it. */
  datatype Start = Start(chunks: seq<Text>, pending: Text, paragraph: Text, target: nat, before: seq<Text>)

  /** After the first `n` slices of the paragraph. */
  ghost predicate SlicesTaken(s: Start, pieces: seq<Text>, n: nat, chunks: seq<Text>, pending: Text)
    requires n <= |pieces|
  {
    && PiecesAdded(s.chunks, s.pending, pieces, n, chunks, pending, s.target)
    && (Whole(s.paragraph, s.target) && Steady(s.chunks, s.pending, s.target) ==> Steady(chunks, pending, s.target))
    && (Ready(s.chunks, s.pending, s.paragraph, s.target, s.before) ==>
          SlicesPacked(chunks, pending, s.before, pieces, n, s.target))
  }

  lemma NoneSliced(s: Start)
    requires s.target >= 1 && Bounded(s.chunks, s.target) && |s.pending| <= s.target
    ensures SlicesTaken(s, SlicesOf(s.paragraph, s.target), 0, s.chunks, s.pending)
  {
    var pieces := SlicesOf(s.paragraph, s.target);
    SlicesPackedEnds(s.chunks, s.pending, s.before, pieces, s.target);
    assert InkOf(pieces[..0]) == "";
  }

  lemma AllSliced(s: Start, pieces: seq<Text>, chunks: seq<Text>, pending: Text)
    requires s.target >= 1 && pieces == SlicesOf(s.paragraph, s.target) && InkOf(pieces) == Ink(s.paragraph)
    requires SlicesTaken(s, pieces, |pieces|, chunks, pending)
    ensures Bounded(chunks, s.target) && |pending| <= s.target
    ensures InkOf(chunks + [pending]) == InkOf(s.chunks + [s.pending]) + Ink(s.paragraph)
    ensures Whole(s.paragraph, s.target) && Steady(s.chunks, s.pending, s.target) ==> Steady(chunks, pending, s.target)
    ensures Ready(s.chunks, s.pending, s.paragraph, s.target, s.before) ==>
              Packing(chunks, pending, s.before + pieces, s.target)
  {
    assert pieces[..|pieces|] == pieces;
    SlicesPackedEnds(chunks, pending, s.before, pieces, s.target);
  }

  lemma SliceFits(s: Start, pieces: seq<Text>, i: nat)
    requires s.target >= 1 && pieces == SlicesOf(s.paragraph, s.target) && i < |pieces|
    ensures Whole(s.paragraph, s.target) ==> Whole(pieces[i], s.target)
    ensures s.paragraph != "" && Trimmed(s.paragraph) ==> Solid(pieces[i], s.target)
  {
    assert pieces[i] in pieces;
    if s.paragraph != "" && Trimmed(s.paragraph) { SlicesAreSolid(s.paragraph, s.target); }
  }

  /** The next slice of a paragraph. */
  method AddSlice(ghost s: Start, pieces: seq<Text>, i: nat, was: seq<Text>, last: Text, target: nat)
      returns (chunks: seq<Text>, pending: Text)
    requires target == s.target >= 1 && pieces == SlicesOf(s.paragraph, target)
    requires i < |pieces| && |pieces[i]| <= target && SlicesTaken(s, pieces, i, was, last)
    ensures SlicesTaken(s, pieces, i + 1, chunks, pending)
  {
    SliceFits(s, pieces, i);
    chunks, pending := AddPiece(was, last, pieces[i], target, s.before + pieces[..i]);
    PieceAdded(s.chunks, s.pending, pieces, i, was, last, target, chunks, pending);
    if Ready(s.chunks, s.pending, s.paragraph, target, s.before) {
      SlicePacked(chunks, pending, s.before, pieces, i, target);
    }
  }

  method AddParagraph(chunks0: seq<Text>, pending0: Text, paragraph: Text, target: nat, ghost before: seq<Text>)
      returns (chunks: seq<Text>, pending: Text)
    requires target >= 1 && Bounded(chunks0, target) && |pending0| <= target
    ensures Bounded(chunks, target) && |pending| <= target
    ensures InkOf(chunks + [pending]) == InkOf(chunks0 + [pending0]) + Ink(paragraph)
    ensures Whole(paragraph, target) && Steady(chunks0, pending0, target) ==> Steady(chunks, pending, target)
    ensures Ready(chunks0, pending0, paragraph, target, before) ==>
              Packing(chunks, pending, before + SlicesOf(paragraph, target), target)
  {
    var pieces := Slices(paragraph, target);
    ghost var s := Start(chunks0, pending0, paragraph, target, before);
    NoneSliced(s);
    chunks, pending := chunks0, pending0;
    for i := 0 to |pieces|
      invariant SlicesTaken(s, pieces, i, chunks, pending)
    {
      assert pieces[i] in pieces;
      chunks, pending := AddSlice(s, pieces, i, chunks, pending, target);
    }
    AllSliced(s, pieces, chunks, pending);
  }

  // ---- sections ----

  /** Heading positions, in order. */
  predicate Cuts(body: Text, cuts: seq<nat>) {
    (forall i | 0 <= i < |cuts| :: cuts[i] <= |body|) && forall i, j | 0 <= i < j < |cuts| :: cuts[i] <= cuts[j]
  }

  function SectionAt(body: Text, cuts: seq<nat>, i: nat): Text
    requires Cuts(body, cuts) && i < |cuts|
  {
    Strip(body[cuts[i]..if i + 1 < |cuts| then cuts[i + 1] else |body|])
  }

  /** What precedes the first heading, unless blank, then one section per heading. */
  function SectionsUpTo(body: Text, cuts: seq<nat>, n: nat): seq<Text>
    requires Cuts(body, cuts) && cuts != [] && n <= |cuts|
  {
    if n == 0 then
      var lead := Strip(body[..cuts[0]]);
      if lead != "" then [lead] else []
    else SectionsUpTo(body, cuts, n - 1) + [SectionAt(body, cuts, n - 1)]
  }

  function EndOf(body: Text, cuts: seq<nat>, n: nat): nat
    requires n <= |cuts|
  {
    if n < |cuts| then cuts[n] else |body|
  }

  lemma SplitInk(body: Text, start: nat, end: nat)
    requires start <= end <= |body|
    ensures Ink(body[..end]) == Ink(body[..start]) + Ink(Strip(body[start..end]))
  {
    StripKeepsInk(body[start..end]);
    InkConcat(body[..start], body[start..end]);
    assert body[..start] + body[start..end] == body[..end];
  }

  lemma {:induction false} SectionsKeepInk(body: Text, cuts: seq<nat>, n: nat)
    requires Cuts(body, cuts) && cuts != [] && n <= |cuts|
    ensures InkOf(SectionsUpTo(body, cuts, n)) == Ink(body[..EndOf(body, cuts, n)])
  {
    if n == 0 {
      StripKeepsInk(body[..cuts[0]]);
      InkOfOne(Strip(body[..cuts[0]]));
    } else {
      SectionsKeepInk(body, cuts, n - 1);
      SplitInk(body, cuts[n - 1], EndOf(body, cuts, n));
      InkOfSnoc(SectionsUpTo(body, cuts, n - 1), SectionAt(body, cuts, n - 1));
    }
  }

  method Sections(body: Text, cuts: seq<nat>) returns (sections: seq<Text>)
    requires Cuts(body, cuts) && cuts != []
    ensures sections == SectionsUpTo(body, cuts, |cuts|) && InkOf(sections) == Ink(body)
  {
    sections := [];
    var lead := Strip(body[..cuts[0]]);
    if lead != "" {
      sections := sections + [lead];
    }
    for index := 0 to |cuts|
      invariant sections == SectionsUpTo(body, cuts, index)
    {
      var end := if index + 1 < |cuts| then cuts[index + 1] else |body|;
      sections := sections + [Strip(body[cuts[index]..end])];
    }
    SectionsKeepInk(body, cuts, |cuts|);
    assert body[..|body|] == body;
  }

  // ---- how sections share chunks ----

  /** Sections one after another in one chunk, or an oversized one with the chunks it was cut into. */
  datatype Run = Shared(sections: seq<Text>) | Split(section: Text, chunks: seq<Text>)

  /** Sections with a blank line between each and the next. */
  function WithBreaks(sections: seq<Text>): Text {
    if sections == [] then ""
    else
      var n := |sections| - 1;
      var before := WithBreaks(sections[..n]);
      if before == "" then sections[n] else before + "\n\n" + sections[n]
  }

  function ChunksOf(r: Run): seq<Text> {
    match r
    case Shared(sections) => if WithBreaks(sections) == "" then [] else [WithBreaks(sections)]
    case Split(_, chunks) => chunks
  }

  function SectionsOf(r: Run): seq<Text> { if r.Shared? then r.sections else [r.section] }

  function AllChunks(runs: seq<Run>): seq<Text> {
    if runs == [] then [] else AllChunks(runs[..|runs| - 1]) + ChunksOf(runs[|runs| - 1])
  }

  function AllSections(runs: seq<Run>): seq<Text> {
    if runs == [] then [] else AllSections(runs[..|runs| - 1]) + SectionsOf(runs[|runs| - 1])
  }

  /** Only an oversized section is cut, into its own pieces. */
  ghost predicate RunRight(r: Run, target: nat) {
    if r.Shared? then r.sections != [] && forall s | s in r.sections :: |s| <= target
    else target >= 1 && |r.section| > target && Packs(r.chunks, PiecesOf(Paragraphs(r.section), target), target)
  }

  /** A shared chunk ends before another only where the next section did not fit. */
  predicate EndsBefore(r: Run, next: Text, target: nat) {
    r.Shared? ==> WithBreaks(r.sections) != "" && |WithBreaks(r.sections)| + |next| + 2 > target
  }

  ghost predicate RunsRight(runs: seq<Run>, target: nat) {
    && (forall r | r in runs :: RunRight(r, target))
    && (forall k, l | 0 <= k < |runs| && l == k + 1 < |runs| && runs[l].Shared? && runs[l].sections != [] ::
          EndsBefore(runs[k], runs[l].sections[0], target))
  }

  /** All sections in order: those that fit share chunks as long as they can, the others are cut up alone. */
  ghost predicate Gathers(chunks: seq<Text>, sections: seq<Text>, target: nat) {
    exists runs :: RunsRight(runs, target) && AllChunks(runs) == chunks && AllSections(runs) == sections
  }

  /** The same with the last chunk still pending: it holds the sections `open`. */
  ghost predicate GatheredWith(chunks: seq<Text>, pending: Text, sections: seq<Text>, target: nat, runs: seq<Run>,
                               open: seq<Text>) {
    && RunsRight(runs, target) && AllChunks(runs) == chunks && AllSections(runs) + open == sections
    && WithBreaks(open) == pending && (forall s | s in open :: |s| <= target)
    && (runs != [] && runs[|runs| - 1].Shared? ==> open != [] && EndsBefore(runs[|runs| - 1], open[0], target))
  }

  ghost predicate Gathering(chunks: seq<Text>, pending: Text, sections: seq<Text>, target: nat) {
    exists runs, open :: GatheredWith(chunks, pending, sections, target, runs, open)
  }

  lemma RunsSnoc(runs: seq<Run>, r: Run)
    ensures AllChunks(runs + [r]) == AllChunks(runs) + ChunksOf(r)
    ensures AllSections(runs + [r]) == AllSections(runs) + SectionsOf(r)
  {
    assert (runs + [r])[..|runs|] == runs;
  }

  lemma RunAdded(runs: seq<Run>, r: Run, target: nat)
    requires RunsRight(runs, target) && RunRight(r, target)
    requires runs != [] && r.Shared? ==> EndsBefore(runs[|runs| - 1], r.sections[0], target)
    ensures RunsRight(runs + [r], target)
  {}

  lemma WithBreaksSnoc(sections: seq<Text>, section: Text)
    ensures WithBreaks(sections + [section])
            == if WithBreaks(sections) == "" then section else WithBreaks(sections) + "\n\n" + section
  {
    assert (sections + [section])[..|sections|] == sections;
  }

  /** The pending chunk is closed. */
  lemma Closed(chunks: seq<Text>, pending: Text, sections: seq<Text>, target: nat, runs: seq<Run>, open: seq<Text>)
      returns (more: seq<Run>)
    requires GatheredWith(chunks, pending, sections, target, runs, open)
    ensures RunsRight(more, target) && AllSections(more) == sections
    ensures AllChunks(more) == chunks + if pending == "" then [] else [pending]
    ensures open != [] ==> more == runs + [Shared(open)]
  {
    more := runs;
    if open != [] {
      RunsSnoc(runs, Shared(open));
      RunAdded(runs, Shared(open), target);
      more := runs + [Shared(open)];
    }
  }

  lemma SectionFits(chunks: seq<Text>, pending: Text, sections: seq<Text>, section: Text, target: nat)
    requires Gathering(chunks, pending, sections, target) && |section| <= target
    ensures pending == "" ==> Gathering(chunks, section, sections + [section], target)
    ensures pending != "" ==> Gathering(chunks, pending + "\n\n" + section, sections + [section], target)
  {
    var runs, open :| GatheredWith(chunks, pending, sections, target, runs, open);
    OpenGrows(chunks, pending, sections, section, target, runs, open);
    WithBreaksSnoc(open, section);
  }

  lemma OpenGrows(chunks: seq<Text>, pending: Text, sections: seq<Text>, section: Text, target: nat, runs: seq<Run>,
                  open: seq<Text>)
    requires GatheredWith(chunks, pending, sections, target, runs, open) && |section| <= target
    ensures GatheredWith(chunks, WithBreaks(open + [section]), sections + [section], target, runs, open + [section])
  {
    PiecesRegroup(AllSections(runs), open, [section]);
    if open != [] { assert (open + [section])[0] == open[0]; }
  }

  lemma SectionStartsChunk(chunks: seq<Text>, pending: Text, sections: seq<Text>, section: Text, target: nat)
    requires Gathering(chunks, pending, sections, target) && |section| <= target
    requires pending != "" && |pending| + |section| + 2 > target
    ensures Gathering(chunks + [pending], section, sections + [section], target)
  {
    var runs, open :| GatheredWith(chunks, pending, sections, target, runs, open);
    var more := Closed(chunks, pending, sections, target, runs, open);
    assert open != [];
    StartsOpen(chunks + [pending], sections, section, target, more);
  }

  lemma StartsOpen(chunks: seq<Text>, sections: seq<Text>, section: Text, target: nat, runs: seq<Run>)
    requires RunsRight(runs, target) && AllChunks(runs) == chunks && AllSections(runs) == sections
    requires runs != [] && EndsBefore(runs[|runs| - 1], section, target) && |section| <= target
    ensures GatheredWith(chunks, section, sections + [section], target, runs, [section])
  {
    WithBreaksSnoc([], section);
    assert [] + [section] == [section];
  }

  lemma SectionIsCut(chunks: seq<Text>, pending: Text, sections: seq<Text>, section: Text, cut: seq<Text>, target: nat)
    requires Gathering(chunks, pending, sections, target) && target >= 1 && |section| > target
    requires Packs(cut, PiecesOf(Paragraphs(section), target), target)
    ensures Gathering(chunks + (if pending == "" then [] else [pending]) + cut, "", sections + [section], target)
  {
    var runs, open :| GatheredWith(chunks, pending, sections, target, runs, open);
    var more := Closed(chunks, pending, sections, target, runs, open);
    CutAdded(chunks + if pending == "" then [] else [pending], sections, section, cut, target, more);
  }

  lemma CutAdded(chunks: seq<Text>, sections: seq<Text>, section: Text, cut: seq<Text>, target: nat, runs: seq<Run>)
    requires RunsRight(runs, target) && AllChunks(runs) == chunks && AllSections(runs) == sections
    requires RunRight(Split(section, cut), target)
    ensures GatheredWith(chunks + cut, "", sections + [section], target, runs + [Split(section, cut)], [])
  {
    RunsSnoc(runs, Split(section, cut));
    RunAdded(runs, Split(section, cut), target);
    assert sections + [section] + [] == sections + [section];
  }

  lemma GatheringEnds(chunks: seq<Text>, pending: Text, sections: seq<Text>, target: nat)
    requires Gathering(chunks, pending, sections, target)
    ensures pending == "" ==> Gathers(chunks, sections, target)
    ensures pending != "" ==> Gathers(chunks + [pending], sections, target)
  {
    var runs, open :| GatheredWith(chunks, pending, sections, target, runs, open);
    var more := Closed(chunks, pending, sections, target, runs, open);
    assert chunks + [] == chunks;
  }

  lemma NothingGathered(target: nat)
    ensures Gathering([], "", [], target)
  {
    assert GatheredWith([], "", [], target, [], []);
  }

  /** A small section shares the pending chunk when it fits, and starts the next one when not. */
  method AddSmallSection(chunks0: seq<Text>, pending0: Text, section: Text, target: nat, ghost before: seq<Text>)
      returns (chunks: seq<Text>, pending: Text)
    requires |section| <= target && Bounded(chunks0, target) && |pending0| <= target
    ensures Bounded(chunks, target) && |pending| <= target
    ensures InkOf(chunks + [pending]) == InkOf(chunks0 + [pending0]) + Ink(section)
    ensures section != "" && Greedy(chunks0, pending0, target) ==> Greedy(chunks, pending, target)
    ensures Gathering(chunks0, pending0, before, target) ==> Gathering(chunks, pending, before + [section], target)
  {
    if Gathering(chunks0, pending0, before, target) {
      SectionFits(chunks0, pending0, before, section, target);
      if pending0 != "" && |pending0| + |section| + 2 > target {
        SectionStartsChunk(chunks0, pending0, before, section, target);
      }
    }
    NextPieceInk(chunks0, pending0, section);
    if section != "" && Greedy(chunks0, pending0, target) { SmallSectionGreedy(chunks0, pending0, section, target); }
    chunks, pending := chunks0, pending0;
    if pending == "" {
      pending := section;
    } else if |pending| + |section| + 2 <= target {
      pending := pending + BREAK + section;
    } else {
      chunks := chunks + [pending];
      pending := section;
    }
  }

  lemma NextPieceInk(chunks: seq<Text>, pending: Text, section: Text)
    ensures var ink := InkOf(chunks + [pending]) + Ink(section);
            && (pending == "" ==> InkOf(chunks + [section]) == ink)
            && InkOf(chunks + [pending + BREAK + section]) == ink
            && InkOf(chunks + [pending] + [section]) == ink
  {
    FlushInk(chunks, pending);
    FlushInk(chunks, section);
    InkOfSnoc(chunks + [pending], section);
    JoinedLast(chunks, pending, section);
  }

  lemma JoinedLast(chunks: seq<Text>, pending: Text, section: Text)
    ensures InkOf(chunks + [pending + BREAK + section]) == InkOf(chunks) + Ink(pending) + Ink(section)
  {
    LastInk(chunks, pending + BREAK + section, Ink(pending), Ink(section)) by { JoinedInk(pending, section); }
  }

  lemma LastInk(chunks: seq<Text>, last: Text, a: Text, b: Text)
    requires Ink(last) == a + b
    ensures InkOf(chunks + [last]) == InkOf(chunks) + a + b
  {
    InkOfSnoc(chunks, last);
  }

  lemma SmallSectionGreedy(chunks: seq<Text>, pending: Text, section: Text, target: nat)
    requires section != "" && Greedy(chunks, pending, target)
    ensures pending == "" ==> Greedy(chunks, section, target)
    ensures pending != "" ==> Greedy(chunks, pending + BREAK + section, target)
    ensures pending != "" && |pending| + |section| + 2 > target ==> Greedy(chunks + [pending], section, target)
  {
    if pending != "" {
      GrowPending(chunks, pending, pending + BREAK + section, target);
    }
  }

  /** One section against the pending chunk: an oversized one is cut up. */
  method AddSection(chunks0: seq<Text>, pending0: Text, section: Text, target: nat, ghost before: seq<Text>)
      returns (chunks: seq<Text>, pending: Text)
    requires target >= 1 && Bounded(chunks0, target) && |pending0| <= target
    ensures Bounded(chunks, target) && |pending| <= target
    ensures InkOf(chunks + [pending]) == InkOf(chunks0 + [pending0]) + Ink(section)
    ensures section != "" && |section| <= target && Greedy(chunks0, pending0, target)
        ==> Greedy(chunks, pending, target)
    ensures Gathering(chunks0, pending0, before, target) ==> Gathering(chunks, pending, before + [section], target)
  {
    chunks, pending := chunks0, pending0;
    if |section| > target {
      FlushInk(chunks, pending);
      if pending != "" {
        chunks := chunks + [pending];
        pending := "";
      }
      var more := SplitOversize(section, target);
      InkOfConcat(chunks, more);
      if Gathering(chunks0, pending0, before, target) {
        SectionIsCut(chunks0, pending0, before, section, more, target);
        assert chunks == chunks0 + if pending0 == "" then [] else [pending0];
      }
      chunks := chunks + more;
      FlushInk(chunks, pending);
    } else {
      chunks, pending := AddSmallSection(chunks, pending, section, target, before);
    }
  }

  predicate SectionsFit(sections: seq<Text>, n: nat, target: nat)
    requires n <= |sections|
  {
    forall i | 0 <= i < n :: sections[i] != "" && |sections[i]| <= target
  }

  /** After the first `n` sections. */
  ghost predicate SectionsTaken(sections: seq<Text>, n: nat, chunks: seq<Text>, pending: Text, target: nat)
    requires n <= |sections|
  {
    && Bounded(chunks, target) && |pending| <= target
    && InkOf(chunks + [pending]) == InkOf(sections[..n])
    && (SectionsFit(sections, n, target) ==> Greedy(chunks, pending, target))
    && Gathering(chunks, pending, sections[..n], target)
  }

  lemma NextPrefix(parts: seq<Text>, i: nat)
    requires i < |parts|
    ensures parts[..i + 1] == parts[..i] + [parts[i]]
  {}

  method TakeSection(sections: seq<Text>, i: nat, chunks0: seq<Text>, pending0: Text, target: nat)
      returns (chunks: seq<Text>, pending: Text)
    requires target >= 1 && i < |sections| && SectionsTaken(sections, i, chunks0, pending0, target)
    ensures SectionsTaken(sections, i + 1, chunks, pending, target)
  {
    NextPart(sections, i);
    NextPrefix(sections, i);
    chunks, pending := AddSection(chunks0, pending0, sections[i], target, sections[..i]);
  }

  lemma NoneTaken(sections: seq<Text>, target: nat)
    ensures SectionsTaken(sections, 0, [], "", target)
  {
    FlushInk([], "");
    NothingGathered(target);
  }

  lemma AllTaken(sections: seq<Text>, chunks: seq<Text>, pending: Text, target: nat)
    requires SectionsTaken(sections, |sections|, chunks, pending, target)
    ensures var all := chunks + if pending == "" then [] else [pending];
            && Bounded(all, target) && InkOf(all) == InkOf(sections) && Gathers(all, sections, target)
            && (SectionsFit(sections, |sections|, target) ==> Tight(all, target))
  {
    assert sections[..|sections|] == sections && chunks + [] == chunks;
    FlushInk(chunks, pending);
    GatheringEnds(chunks, pending, sections, target);
  }

  /** Sections that fit share chunks as long as they can. */
  method GatherSections(sections: seq<Text>, target: nat) returns (chunks: seq<Text>)
    requires target >= 1
    ensures Bounded(chunks, target) && InkOf(chunks) == InkOf(sections)
    ensures SectionsFit(sections, |sections|, target) ==> Tight(chunks, target)
    ensures Gathers(chunks, sections, target)
  {
    chunks := [];
    var pending := "";
    NoneTaken(sections, target);
    for i := 0 to |sections|
      invariant SectionsTaken(sections, i, chunks, pending, target)
    {
      chunks, pending := TakeSection(sections, i, chunks, pending, target);
    }
    AllTaken(sections, chunks, pending, target);
    assert chunks + [] == chunks;
    if pending != "" {
      chunks := chunks + [pending];
    }
  }

  /** The chunks that are not blank. */
  function Inked(chunks: seq<Text>): seq<Text> {
    if chunks == [] then []
    else Inked(chunks[..|chunks| - 1]) + if Blank(chunks[|chunks| - 1]) then [] else [chunks[|chunks| - 1]]
  }

  /** The closing filter: blank chunks go, and with them no ink. */
  method DropBlank(all: seq<Text>, ghost target: nat) returns (chunks: seq<Text>)
    requires Bounded(all, target)
    ensures Bounded(chunks, target) && InkOf(chunks) == InkOf(all) && forall c | c in chunks :: !Blank(c)
    ensures chunks == Inked(all)
  {
    chunks := [];
    for i := 0 to |all|
      invariant Bounded(chunks, target) && InkOf(chunks) == InkOf(all[..i])
      invariant (forall c | c in chunks :: !Blank(c)) && chunks == Inked(all[..i])
    {
      assert all[i] in all && all[..i + 1][..i] == all[..i];
      NextPart(all, i);
      StripIsEmptyForBlank(all[i]);
      if Strip(all[i]) != "" {
        InkOfSnoc(chunks, all[i]);
        chunks := chunks + [all[i]];
      } else {
        BlankHasNoInk(all[i]);
      }
    }
    assert all[..|all|] == all;
  }

  /** Whatever the body, the headings and the target: every chunk is within the target, and the chunks'
      non-whitespace characters, in order, are exactly the body's. With headings, no chunk is blank. */
  method Chunks(body: Text, cuts: seq<nat>, target: nat) returns (chunks: seq<Text>)
    requires target >= 1 && Cuts(body, cuts)
    ensures Bounded(chunks, target) && InkOf(chunks) == Ink(body)
    ensures cuts != [] ==> forall c | c in chunks :: !Blank(c)
    ensures cuts == [] && PartsFit(Paragraphs(body), |Paragraphs(body)|, target) ==> Tight(chunks, target)
    ensures cuts == [] ==> Packs(chunks, PiecesOf(Paragraphs(body), target), target)
    ensures cuts != [] ==> exists all :: Gathers(all, SectionsUpTo(body, cuts, |cuts|), target) && chunks == Inked(all)
  {
    if cuts == [] {
      chunks := SplitOversize(body, target);
      return;
    }
    var sections := Sections(body, cuts);
    var all := GatherSections(sections, target);
    chunks := DropBlank(all, target);
  }

  lemma StripIsEmptyForBlank(s: Text)
    ensures Strip(s) == "" <==> Blank(s)
  {
    StripKeepsInk(s);
    if Blank(s) {
      StripEnds(s);
      BlankHasNoInk(s);
    }
    InkOfBlankOnly(s);
  }

  /** A stripped text that is not empty starts and ends with ink. */
  lemma StripEnds(s: Text)
    ensures Strip(s) != "" ==> Ink(Strip(s)) != ""
  {
    StripTrims(s);
    var t := Strip(s);
    if t != "" { assert Ink(t) == Ink(t[..|t| - 1]) + [t[|t| - 1]]; }
  }

  lemma {:induction false} InkOfBlankOnly(s: Text)
    ensures Ink(s) == "" ==> Blank(s)
  {
    if s != [] { InkOfBlankOnly(s[..|s| - 1]); }
  }
}
