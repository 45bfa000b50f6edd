/** What the scanner recovers from a damaged file, and that every file is one of those described here. */
module ScannerRecovery {
  import opened Common
  import opened Scanner
  import opened ScannerProperties

  // ---- damaged files ----

  /** What begins at an opening brace: an object, a balanced text the decoder refuses, or a line torn off
      before its object closed. */
  datatype Chunk = Whole(raw: Bytes) | Refused(raw: Bytes) | Torn(raw: Bytes)

  /** Any bytes without an opening brace, and what follows them. */
  datatype Part = Part(gap: Bytes, chunk: Chunk)

  predicate NoBrace(gap: Bytes) { OPEN !in gap }

  /** An opened text that is still open. */
  predicate StillOpen(s: Bytes) { s != [] && s[0] == OPEN && RunCore(OPENED, s[1..]).Some? }

  /** A line that ends while its object is open. */
  predicate TornLine(raw: Bytes) {
    |raw| >= 2 && StillOpen(raw[..|raw| - 1]) && !RunCore(OPENED, raw[1..|raw| - 1]).value.escaped
    && raw[|raw| - 1] == LF
  }

  predicate ChunkFits(isJson: Parser, c: Chunk) {
    match c
    case Whole(raw) => Balanced(raw) && isJson(raw)
    case Refused(raw) => Balanced(raw) && !isJson(raw)
    case Torn(raw) => TornLine(raw)
  }

  predicate PartsFit(isJson: Parser, parts: seq<Part>) {
    forall p | p in parts :: NoBrace(p.gap) && ChunkFits(isJson, p.chunk)
  }

  function FileOf(parts: seq<Part>): Bytes {
    if parts == [] then []
    else
      var last := parts[|parts| - 1];
      FileOf(parts[..|parts| - 1]) + (last.gap + last.chunk.raw)
  }

  /** How many blanks a gap begins with. */
  function Lead(gap: Bytes): (n: nat)
    ensures n <= |gap|
  {
    if gap != [] && Blank(gap[0]) then 1 + Lead(gap[1..]) else 0
  }

  predicate SpaceTabOrLineEnd(b: byte) { b == 0x20 || b == 0x09 || b == 0x0D || b == 0x0A }

  /** A stretch is blank up to the first byte that is no space, tab, CR or LF. */
  lemma {:induction false} LeadExact(gap: Bytes)
    ensures forall i | 0 <= i < Lead(gap) :: SpaceTabOrLineEnd(gap[i])
    ensures Lead(gap) < |gap| ==> !SpaceTabOrLineEnd(gap[Lead(gap)])
  {
    if gap != [] && Blank(gap[0]) {
      LeadExact(gap[1..]);
      forall i | 0 <= i < Lead(gap) ensures SpaceTabOrLineEnd(gap[i]) {
        if i > 0 { assert gap[i] == gap[1..][i - 1]; }
      }
    }
  }

  /** A stretch that is not all blank is reported from its first byte that is not, up to the next brace or
      the end of the file. */
  function GapEvents(at: nat, gap: Bytes): seq<Event> {
    if Lead(gap) == |gap| then [] else [Bad(at + Lead(gap), at + |gap|, NonJsonBytes)]
  }

  function ChunkEvent(at: nat, c: Chunk): Event {
    match c
    case Whole(raw) => Object(at, at + |raw|, raw)
    case Refused(raw) => Bad(at, at + |raw|, InvalidJson)
    case Torn(raw) => Bad(at, at + |raw|, UnclosedAtNewline)
  }

  /** What a file of these parts must give. */
  function Told(parts: seq<Part>): seq<Event> {
    if parts == [] then []
    else
      var init, last := parts[..|parts| - 1], parts[|parts| - 1];
      Told(init) + PartEvents(|FileOf(init)|, last)
  }

  function PartEvents(at: nat, p: Part): seq<Event> {
    GapEvents(at, p.gap) + [ChunkEvent(at + |p.gap|, p.chunk)]
  }

  /** The file consists of these parts, a last stretch, and possibly an object that never closes. */
  ghost predicate Decomposed(file: Bytes, isJson: Parser, parts: seq<Part>, gap: Bytes, open: Bytes) {
    && file == FileOf(parts) + (gap + open)
    && PartsFit(isJson, parts) && NoBrace(gap) && (open == [] || StillOpen(open))
  }

  // ---- the scan, byte by byte ----

  function JunkAt(at: nat, gap: Bytes): Option<nat> { if Lead(gap) == |gap| then None else Some(at + Lead(gap)) }

  lemma {:induction false} LeadSnoc(gap: Bytes, b: byte)
    ensures Lead(gap + [b])
            == if Lead(gap) < |gap| then Lead(gap) else if Blank(b) then |gap| + 1 else |gap|
  {
    if gap == [] {
      assert gap + [b] == [b] && [b][1..] == [];
    } else {
      assert (gap + [b])[1..] == gap[1..] + [b];
      LeadSnoc(gap[1..], b);
    }
  }

  /** The scanner's state behind `parts`, a stretch and a text still open that starts at `at + |gap|`. */
  function StateAfter(at: nat, gap: Bytes, open: Bytes): State
    requires open == [] || StillOpen(open)
  {
    if open == [] then Outside(JunkAt(at, gap)) else Inside(at + |gap|, RunCore(OPENED, open[1..]).value)
  }

  function EventsAfter(told: seq<Event>, at: nat, gap: Bytes, open: Bytes): seq<Event> {
    if open == [] then told else told + GapEvents(at, gap)
  }

  /** The scan of a file, `told` up to `at` and ending in a stretch and a text still open, stands where it
      should. */
  ghost predicate Scanned(file: Bytes, isJson: Parser, told: seq<Event>, at: nat, gap: Bytes, open: Bytes) {
    && (open == [] || StillOpen(open)) && |file| == at + |gap| + |open|
    && ScanTo(file, isJson, |file|) == (StateAfter(at, gap, open), EventsAfter(told, at, gap, open))
  }

  lemma NextByte(file: Bytes, isJson: Parser, b: byte, st: State, events: seq<Event>, st': State, more: seq<Event>)
    requires ScanTo(file, isJson, |file|) == (st, events)
    requires st.Inside? ==> st.start <= |file|
    requires Step(file + [b], isJson, st, |file|) == (st', more)
    ensures ScanTo(file + [b], isJson, |file + [b]|) == (st', events + more)
  {
    ScanPrefix(file, [b], isJson, |file|);
  }

  /** A byte of a stretch. */
  lemma GapByte(file: Bytes, isJson: Parser, told: seq<Event>, at: nat, gap: Bytes, b: byte)
    requires Scanned(file, isJson, told, at, gap, []) && b != OPEN
    ensures Scanned(file + [b], isJson, told, at, gap + [b], [])
  {
    LeadSnoc(gap, b);
    NextByte(file, isJson, b, Outside(JunkAt(at, gap)), told, Outside(JunkAt(at, gap + [b])), []);
    NothingMore(told);
  }

  lemma StretchEvents(at: nat, gap: Bytes)
    ensures Junk(JunkAt(at, gap), at + |gap|) == GapEvents(at, gap)
  {}

  /** Whatever stood before it, a brace opens a candidate, and the stretch before it ends there. */
  lemma BraceOpens(file: Bytes, isJson: Parser, told: seq<Event>, at: nat, gap: Bytes)
    requires Scanned(file, isJson, told, at, gap, [])
    ensures Scanned(file + [OPEN], isJson, told, at, gap, [OPEN])
  {
    StretchEvents(at, gap);
    NextByte(file, isJson, OPEN, Outside(JunkAt(at, gap)), told, Inside(at + |gap|, OPENED), GapEvents(at, gap));
    assert [OPEN][1..] == [];
  }

  lemma OpenStays(file: Bytes, isJson: Parser, told: seq<Event>, at: nat, gap: Bytes, open: Bytes, b: byte)
    requires Scanned(file, isJson, told, at, gap, open) && open != [] && StillOpen(open + [b])
    ensures Scanned(file + [b], isJson, told, at, gap, open + [b])
  {
    CoreSnoc(open, b);
    NextByte(file, isJson, b, StateAfter(at, gap, open), EventsAfter(told, at, gap, open),
             StateAfter(at, gap, open + [b]), []);
    NothingMore(EventsAfter(told, at, gap, open));
  }

  lemma CoreSnoc(open: Bytes, b: byte)
    requires StillOpen(open)
    ensures RunCore(OPENED, (open + [b])[1..])
            == var m := CoreStep(RunCore(OPENED, open[1..]).value, b); if m.Goes? then Some(m.core) else None
  {
    var s := (open + [b])[1..];
    assert s == open[1..] + [b] && s[..|s| - 1] == open[1..];
  }

  lemma LastByte(isJson: Parser, c: Chunk)
    requires ChunkFits(isJson, c)
    ensures var open := c.raw[..|c.raw| - 1];
            && StillOpen(open) && c.raw == open + [c.raw[|c.raw| - 1]]
            && CoreStep(RunCore(OPENED, open[1..]).value, c.raw[|c.raw| - 1]) == if c.Torn? then Breaks else Closes
  {
    assert c.raw[..|c.raw| - 1][1..] == c.raw[1..|c.raw| - 1];
  }

  lemma StepEnds(file: Bytes, isJson: Parser, at: nat, core: Core, c: Chunk)
    requires c.raw != [] && at + |c.raw| == |file| && file[at..] == c.raw
    requires CoreStep(core, c.raw[|c.raw| - 1]) == if c.Torn? then Breaks else Closes
    requires c.Whole? ==> isJson(c.raw)
    requires c.Refused? ==> !isJson(c.raw)
    ensures Step(file, isJson, Inside(at, core), |file| - 1) == (Outside(None), [ChunkEvent(at, c)])
  {
    assert file[at..][|c.raw| - 1] == c.raw[|c.raw| - 1];
    assert file[at..|file|] == file[at..];
  }

  /** The byte that ends a text. */
  lemma ChunkEnds(file: Bytes, isJson: Parser, told: seq<Event>, at: nat, gap: Bytes, open: Bytes, b: byte, c: Chunk)
    requires Scanned(file, isJson, told, at, gap, open) && open != []
    requires c.raw == open + [b] && (c.Whole? ==> isJson(c.raw)) && (c.Refused? ==> !isJson(c.raw))
    requires CoreStep(RunCore(OPENED, open[1..]).value, b) == if c.Torn? then Breaks else Closes
    requires (file + [b])[at + |gap|..] == c.raw
    ensures Scanned(file + [b], isJson, told + PartEvents(at, Part(gap, c)), |file| + 1, [], [])
  {
    var core, e := RunCore(OPENED, open[1..]).value, ChunkEvent(at + |gap|, c);
    StepEnds(file + [b], isJson, at + |gap|, core, c);
    NextByte(file, isJson, b, Inside(at + |gap|, core), told + GapEvents(at, gap), Outside(None), [e]);
    EventsRegroup(told, GapEvents(at, gap), [e]);
  }

  lemma EventsRegroup(a: seq<Event>, b: seq<Event>, c: seq<Event>)
    ensures (a + b) + c == a + (b + c)
  {}

  lemma TailIs(head: Bytes, gap: Bytes, open: Bytes, b: byte)
    ensures var file := head + (gap + open) + [b];
            |head| + |gap| <= |file| && file[|head| + |gap|..] == open + [b]
  {}

  lemma FileSnoc(init: seq<Part>, last: Part)
    ensures FileOf(init + [last]) == FileOf(init) + (last.gap + last.chunk.raw)
  {
    assert (init + [last])[..|init|] == init;
  }

  lemma ToldSnoc(init: seq<Part>, last: Part)
    ensures Told(init + [last]) == Told(init) + PartEvents(|FileOf(init)|, last)
  {
    assert (init + [last])[..|init|] == init;
  }

  lemma Regrouped(a: Bytes, b: Bytes, c: Bytes, d: Bytes)
    ensures a + (b + c) + d == a + (b + (c + d))
  {}

  lemma Apart(s: Bytes)
    requires s != []
    ensures s == s[..|s| - 1] + [s[|s| - 1]]
  {}

  lemma {:induction false} ScanOf(parts: seq<Part>, gap: Bytes, open: Bytes, isJson: Parser)
    requires PartsFit(isJson, parts) && NoBrace(gap) && (open == [] || StillOpen(open))
    ensures Scanned(FileOf(parts) + (gap + open), isJson, Told(parts), |FileOf(parts)|, gap, open)
    decreases |FileOf(parts)| + |gap| + |open|
  {
    var head, told := FileOf(parts), Told(parts);
    if |open| > 1 {
      var init, b := open[..|open| - 1], open[|open| - 1];
      Apart(open);
      StillOpenBefore(init, b);
      ScanOf(parts, gap, init, isJson);
      Regrouped(head, gap, init, [b]);
      OpenStays(head + (gap + init), isJson, told, |head|, gap, init, b);
    } else if open != [] {
      assert open == [] + [OPEN];
      ScanOf(parts, gap, [], isJson);
      Regrouped(head, gap, [], [OPEN]);
      BraceOpens(head + (gap + []), isJson, told, |head|, gap);
    } else if gap != [] {
      var init, b := gap[..|gap| - 1], gap[|gap| - 1];
      Apart(gap);
      assert b in gap;
      ScanOf(parts, init, [], isJson);
      Regrouped(head, init, [], [b]);
      assert init + ([] + [b]) == gap + open;
      GapByte(head + (init + []), isJson, told, |head|, init, b);
    } else if parts != [] {
      ScanOfParts(parts, isJson);
      assert head + ([] + []) == head && gap == [] && open == [];
    }
  }

  lemma StillOpenBefore(init: Bytes, b: byte)
    requires init != [] && StillOpen(init + [b])
    ensures StillOpen(init)
  {
    assert (init + [b])[1..] == init[1..] + [b];
    assert (init[1..] + [b])[..|init| - 1] == init[1..];
  }

  lemma {:induction false} ScanOfParts(parts: seq<Part>, isJson: Parser)
    requires parts != [] && PartsFit(isJson, parts)
    ensures Scanned(FileOf(parts), isJson, Told(parts), |FileOf(parts)|, [], [])
    decreases |FileOf(parts)|, 0
  {
    var init, last := parts[..|parts| - 1], parts[|parts| - 1];
    var gap, c := last.gap, last.chunk;
    var open, b := c.raw[..|c.raw| - 1], c.raw[|c.raw| - 1];
    assert parts == init + [last] && last in parts;
    forall p | p in init ensures p in parts {}
    FileSnoc(init, last);
    LastByte(isJson, c);
    ScanOf(init, gap, open, isJson);
    Regrouped(FileOf(init), gap, open, [b]);
    TailIs(FileOf(init), gap, open, b);
    ToldSnoc(init, last);
    ChunkEnds(FileOf(init) + (gap + open), isJson, Told(init), |FileOf(init)|, gap, open, b, c);
  }

  /** What the end of a file adds: an object that never closes. */
  function OpenEvents(at: nat, open: Bytes): seq<Event> {
    if open == [] then [] else [Bad(at, at + |open|, TruncatedAtEof)]
  }

  /** Every object of a damaged file is recovered. Between opening braces there may be any bytes; behind a
      brace an object, a text the decoder refuses, or a line torn off anywhere; and the file may end inside an
      object. The scan gives exactly the objects, in order, and one span of its own reason for each stretch,
      refused text, torn line and truncated end. */
  lemma RecoversEveryObject(file: Bytes, isJson: Parser, parts: seq<Part>, gap: Bytes, open: Bytes, at: nat)
    requires Decomposed(file, isJson, parts, gap, open) && at == |FileOf(parts)|
    ensures Scan(file, isJson) == Told(parts) + GapEvents(at, gap) + OpenEvents(at + |gap|, open)
  {
    ScanOfFile(file, isJson, parts, gap, open);
    ScanEnds(file, isJson, Told(parts), at, gap, open);
  }

  lemma ScanOfFile(file: Bytes, isJson: Parser, parts: seq<Part>, gap: Bytes, open: Bytes)
    requires Decomposed(file, isJson, parts, gap, open)
    ensures Scanned(file, isJson, Told(parts), |FileOf(parts)|, gap, open)
  {
    ScanOf(parts, gap, open, isJson);
  }

  lemma ScanEnds(file: Bytes, isJson: Parser, told: seq<Event>, at: nat, gap: Bytes, open: Bytes)
    requires Scanned(file, isJson, told, at, gap, open)
    ensures Scan(file, isJson) == told + GapEvents(at, gap) + OpenEvents(at + |gap|, open)
  {
    EofEvents(at, gap, open);
    ScanIs(file, isJson, StateAfter(at, gap, open), EventsAfter(told, at, gap, open));
    NothingMore(told + GapEvents(at, gap));
  }

  lemma NothingMore(events: seq<Event>)
    ensures events + [] == events
  {}

  lemma ScanIs(file: Bytes, isJson: Parser, st: State, events: seq<Event>)
    requires ScanTo(file, isJson, |file|) == (st, events)
    ensures Scan(file, isJson) == events + AtEof(st, |file|)
  {}

  lemma EofEvents(at: nat, gap: Bytes, open: Bytes)
    requires open == [] || StillOpen(open)
    ensures AtEof(StateAfter(at, gap, open), at + |gap| + |open|)
            == if open == [] then GapEvents(at, gap) else OpenEvents(at + |gap|, open)
  {}

  // ---- every file is such a file ----

  lemma {:induction false} EscapesAreInStrings(s: Bytes)
    requires RunCore(OPENED, s).Some?
    ensures RunCore(OPENED, s).value.escaped ==> RunCore(OPENED, s).value.inString
  {
    if s != [] { EscapesAreInStrings(s[..|s| - 1]); }
  }

  /** One more byte behind a text that is still open. */
  lemma OpenGrows(open: Bytes, b: byte)
    requires StillOpen(open)
    ensures match CoreStep(RunCore(OPENED, open[1..]).value, b)
            case Goes(_) => StillOpen(open + [b])
            case Closes => Balanced(open + [b])
            case Breaks => TornLine(open + [b])
  {
    var raw := open + [b];
    EscapesAreInStrings(open[1..]);
    assert raw[1..] == open[1..] + [b] && raw[1..|raw| - 1] == open[1..] && raw[..|raw| - 1] == open;
    assert (open[1..] + [b])[..|open| - 1] == open[1..];
  }

  lemma GapGrows(file: Bytes, isJson: Parser, parts: seq<Part>, gap: Bytes, b: byte)
    requires Decomposed(file, isJson, parts, gap, []) && b != OPEN
    ensures Decomposed(file + [b], isJson, parts, gap + [b], [])
  {
    assert gap + [] == gap && gap + [b] + [] == gap + [b];
    Regrouped(FileOf(parts), gap, [], [b]);
  }

  lemma PartEnds(file: Bytes, isJson: Parser, parts: seq<Part>, gap: Bytes, open: Bytes, b: byte, c: Chunk)
    requires Decomposed(file, isJson, parts, gap, open) && ChunkFits(isJson, c) && c.raw == open + [b]
    ensures Decomposed(file + [b], isJson, parts + [Part(gap, c)], [], [])
  {
    FileSnoc(parts, Part(gap, c));
    Regrouped(FileOf(parts), gap, open, [b]);
    assert FileOf(parts + [Part(gap, c)]) + ([] + []) == FileOf(parts + [Part(gap, c)]);
  }

  /** Every file at all consists of such parts. */
  lemma {:induction false} EveryFileIsParts(file: Bytes, isJson: Parser)
      returns (parts: seq<Part>, gap: Bytes, open: Bytes)
    ensures Decomposed(file, isJson, parts, gap, open)
  {
    parts, gap, open := [], [], [];
    if file != [] {
      var init, b := file[..|file| - 1], file[|file| - 1];
      parts, gap, open := EveryFileIsParts(init, isJson);
      assert file == init + [b];
      parts, gap, open := OneByteMore(init, isJson, parts, gap, open, b);
    }
  }

  lemma OneByteMore(file: Bytes, isJson: Parser, parts0: seq<Part>, gap0: Bytes, open0: Bytes, b: byte)
      returns (parts: seq<Part>, gap: Bytes, open: Bytes)
    requires Decomposed(file, isJson, parts0, gap0, open0)
    ensures Decomposed(file + [b], isJson, parts, gap, open)
  {
    parts, gap, open := parts0, gap0, open0;
    if open == [] && b != OPEN {
      GapGrows(file, isJson, parts, gap, b);
      gap := gap + [b];
    } else if open == [] {
      assert [b][1..] == [] && [] + [b] == [b];
      Regrouped(FileOf(parts), gap, [], [b]);
      open := [b];
    } else {
      OpenGrows(open, b);
      Regrouped(FileOf(parts), gap, open, [b]);
      var raw := open + [b];
      var move := CoreStep(RunCore(OPENED, open[1..]).value, b);
      if move.Goes? {
        open := raw;
      } else {
        var c := if move.Breaks? then Torn(raw) else if isJson(raw) then Whole(raw) else Refused(raw);
        PartEnds(file, isJson, parts, gap, open, b, c);
        parts, gap, open := parts + [Part(gap, c)], [], [];
      }
    }
  }

  /** An object cut off anywhere but right behind an escaping backslash, and a newline after it, is a torn
      line: it costs no object but itself. */
  lemma CutObjectIsTorn(raw: Bytes, n: nat)
    requires Balanced(raw) && 1 <= n < |raw|
    ensures RunCore(OPENED, raw[1..n]).Some?
    ensures !RunCore(OPENED, raw[1..n]).value.escaped ==> TornLine(raw[..n] + [LF])
  {
    PrefixKeepsOpen(raw[1..|raw| - 1], n - 1);
    assert raw[1..|raw| - 1][..n - 1] == raw[1..n];
    var line := raw[..n] + [LF];
    assert line[..|line| - 1] == raw[..n] && raw[..n][1..] == raw[1..n] && line[1..|line| - 1] == raw[1..n];
  }

  lemma {:induction false} PrefixKeepsOpen(s: Bytes, n: nat)
    requires n <= |s| && RunCore(OPENED, s).Some?
    ensures RunCore(OPENED, s[..n]).Some?
  {
    if n < |s| {
      assert s[..|s| - 1][..n] == s[..n];
      PrefixKeepsOpen(s[..|s| - 1], n);
    } else {
      assert s[..n] == s;
    }
  }
}
