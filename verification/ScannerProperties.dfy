/** What a scan means: an exact cover of the file, and the inverse of writing objects out. */
module ScannerProperties {
  import opened Common
  import opened Scanner

  // ---- cover ----

  predicate Ordered(events: seq<Event>, limit: nat) {
    && (forall i | 0 <= i < |events| :: events[i].start < events[i].end <= limit)
    && (forall i, j | 0 <= i < j < |events| :: events[i].end <= events[j].start)
  }

  function Last(events: seq<Event>): nat {
    if events == [] then 0 else events[|events| - 1].end
  }

  predicate InSpan(events: seq<Event>, p: nat) {
    exists i | 0 <= i < |events| :: events[i].start <= p < events[i].end
  }

  /** Where the unreported part of the file begins: at the open candidate or junk, or here. */
  function Frontier(st: State, n: nat): nat {
    match st
    case Outside(junk) => if junk.Some? then junk.value else n
    case Inside(start, _) => start
  }

  /** Up to the frontier, every byte is in a reported span or blank. */
  ghost predicate CoveredTo(file: Bytes, events: seq<Event>, limit: nat) {
    && Ordered(events, limit) && Last(events) <= limit <= |file|
    && (forall p | 0 <= p < limit && !InSpan(events, p) :: Blank(file[p]))
  }

  ghost predicate ObjectsVerbatim(file: Bytes, isJson: Parser, events: seq<Event>) {
    forall e | e in events && e.Object? ::
      && e.start <= e.end <= |file| && e.raw == file[e.start..e.end] && isJson(e.raw) && Balanced(e.raw)
  }

  lemma CoverGrows(file: Bytes, events: seq<Event>, limit: nat, e: Event)
    requires CoveredTo(file, events, limit) && e.start == limit && e.start < e.end <= |file|
    ensures CoveredTo(file, events + [e], e.end)
  {
    var more := events + [e];
    assert more[|events|] == e;
    forall p: nat | InSpan(events, p) ensures InSpan(more, p) {
      var i :| 0 <= i < |events| && events[i].start <= p < events[i].end;
      assert more[i] == events[i];
    }
    assert forall p: nat | limit <= p < e.end :: InSpan(more, p);
  }

  lemma CoverBlank(file: Bytes, events: seq<Event>, limit: nat)
    requires CoveredTo(file, events, limit) && limit < |file| && Blank(file[limit])
    ensures CoveredTo(file, events, limit + 1)
  {}

  /** The reported spans and the open one cover the first `n` bytes. */
  ghost predicate Covers(file: Bytes, st: State, events: seq<Event>, n: nat)
    requires n <= |file|
  {
    && Frontier(st, n) <= n && CoveredTo(file, events, Frontier(st, n))
    && (st.Inside? || st.junk.Some? ==> Frontier(st, n) < n)
  }

  /** An open candidate starts with a brace and has kept open since. */
  ghost predicate OpenSince(file: Bytes, st: State, n: nat)
    requires n <= |file|
  {
    st.Inside? ==> st.start < n && file[st.start] == OPEN && RunCore(OPENED, file[st.start + 1..n]) == Some(st.core)
  }

  lemma CoverStep(file: Bytes, isJson: Parser, st: State, events: seq<Event>, pos: nat)
    requires pos < |file| && Covers(file, st, events, pos)
    ensures var (st', more) := Step(file, isJson, st, pos); Covers(file, st', events + more, pos + 1)
  {
    var (st', more) := Step(file, isJson, st, pos);
    if more == [] {
      assert events + more == events;
      if st'.Outside? && st'.junk.None? { CoverBlank(file, events, pos); }
    } else {
      OneEvent(file, isJson, st, pos);
      CoverGrows(file, events, Frontier(st, pos), more[0]);
    }
  }

  /** A reported span begins where the open candidate or the junk began, and ends at the frontier left behind. */
  lemma OneEvent(file: Bytes, isJson: Parser, st: State, pos: nat)
    requires pos < |file| && (st.Inside? ==> st.start <= pos) && Step(file, isJson, st, pos).1 != []
    ensures var (st', more) := Step(file, isJson, st, pos);
            more == [more[0]] && more[0].start == Frontier(st, pos) && more[0].end == Frontier(st', pos + 1)
  {}

  lemma OpenStep(file: Bytes, isJson: Parser, st: State, pos: nat)
    requires pos < |file| && OpenSince(file, st, pos)
    ensures var (st', more) := Step(file, isJson, st, pos);
            OpenSince(file, st', pos + 1) && ObjectsVerbatim(file, isJson, more)
  {
    var (st', more) := Step(file, isJson, st, pos);
    if st.Inside? {
      var inner := file[st.start + 1..pos + 1];
      assert inner[..|inner| - 1] == file[st.start + 1..pos] && inner[|inner| - 1] == file[pos];
      var raw := file[st.start..pos + 1];
      assert raw[1..|raw| - 1] == file[st.start + 1..pos];
    } else {
      assert file[pos + 1..pos + 1] == [];
    }
  }

  /** At every position of the scan. */
  lemma ScanCovers(file: Bytes, isJson: Parser, n: nat)
    requires n <= |file|
    ensures Covers(file, ScanTo(file, isJson, n).0, ScanTo(file, isJson, n).1, n)
  {
    var st: State, events: seq<Event> := Outside(None), [];
    for pos := 0 to n
      invariant ScanTo(file, isJson, pos) == (st, events)
      invariant Covers(file, st, events, pos)
    {
      var step := Step(file, isJson, st, pos);
      CoverStep(file, isJson, st, events, pos);
      st, events := step.0, events + step.1;
    }
  }

  lemma {:induction false} ScanOpens(file: Bytes, isJson: Parser, n: nat)
    requires n <= |file|
    ensures OpenSince(file, ScanTo(file, isJson, n).0, n)
    ensures ObjectsVerbatim(file, isJson, ScanTo(file, isJson, n).1)
  {
    if n > 0 {
      ScanOpens(file, isJson, n - 1);
      var r := ScanTo(file, isJson, n - 1);
      OpenStep(file, isJson, r.0, n - 1);
    }
  }

  /** Objects and bad spans come in file order without overlap, each object carries exactly the
      file's bytes at its span, and every byte outside all spans is blank. */
  lemma ScanCoversFile(file: Bytes, isJson: Parser)
    ensures Ordered(Scan(file, isJson), |file|)
    ensures forall p | 0 <= p < |file| && !InSpan(Scan(file, isJson), p) :: Blank(file[p])
    ensures ObjectsVerbatim(file, isJson, Scan(file, isJson))
  {
    var n := |file|;
    ScanCovers(file, isJson, n);
    ScanOpens(file, isJson, n);
    var (st, events) := ScanTo(file, isJson, n);
    var tail := AtEof(st, n);
    if tail != [] {
      CoverGrows(file, events, Frontier(st, n), tail[0]);
      assert tail == [tail[0]];
    } else {
      assert events + tail == events;
    }
  }

  // ---- splitting back ----

  /** An object text and the blank bytes behind it. */
  datatype Piece = Piece(raw: Bytes, gap: Bytes)

  predicate AllBlank(gap: Bytes) { forall b | b in gap :: Blank(b) }

  function Join(pieces: seq<Piece>): Bytes {
    if pieces == [] then []
    else
      var last := pieces[|pieces| - 1];
      Join(pieces[..|pieces| - 1]) + (last.raw + last.gap)
  }

  /** The events a file written from these pieces must give. */
  function Expected(pieces: seq<Piece>): seq<Event> {
    if pieces == [] then []
    else
      var init, last := pieces[..|pieces| - 1], pieces[|pieces| - 1];
      Expected(init) + [Object(|Join(init)|, |Join(init)| + |last.raw|, last.raw)]
  }

  predicate ObjectText(isJson: Parser, raw: Bytes) { Balanced(raw) && isJson(raw) }

  lemma {:induction false} ScanInside(file: Bytes, isJson: Parser, start: nat, k: nat, events: seq<Event>)
    requires start + 1 + k <= |file| && ScanTo(file, isJson, start + 1) == (Inside(start, OPENED), events)
    requires RunCore(OPENED, file[start + 1..start + 1 + k]).Some?
    ensures ScanTo(file, isJson, start + 1 + k)
        == (Inside(start, RunCore(OPENED, file[start + 1..start + 1 + k]).value), events)
    decreases k
  {
    if k > 0 {
      var s := file[start + 1..start + 1 + k];
      assert s[..k - 1] == file[start + 1..start + k] && s[k - 1] == file[start + k];
      ScanInside(file, isJson, start, k - 1, events);
      assert events + [] == events;
    }
  }

  lemma SliceOfSlice(file: Bytes, at: nat, n: nat, raw: Bytes)
    requires 2 <= n && at + n <= |file| && file[at..at + n] == raw
    ensures file[at + 1..at + n - 1] == raw[1..n - 1] && file[at + n - 1] == raw[n - 1]
  {
    var mid := file[at + 1..at + n - 1];
    forall i | 0 <= i < n - 2 ensures mid[i] == raw[1 + i] {}
    assert mid == raw[1..n - 1];
  }

  lemma ScanObject(file: Bytes, isJson: Parser, at: nat, raw: Bytes, events: seq<Event>)
    requires at + |raw| <= |file| && file[at..at + |raw|] == raw && ObjectText(isJson, raw)
    requires ScanTo(file, isJson, at) == (Outside(None), events)
    ensures ScanTo(file, isJson, at + |raw|) == (Outside(None), events + [Object(at, at + |raw|, raw)])
  {
    var n := |raw|;
    assert file[at] == raw[0];
    assert ScanTo(file, isJson, at + 1) == (Inside(at, OPENED), events + []);
    assert events + [] == events;
    SliceOfSlice(file, at, n, raw);
    ScanInside(file, isJson, at, n - 2, events);
  }

  lemma {:induction false} ScanBlank(file: Bytes, isJson: Parser, at: nat, k: nat, events: seq<Event>)
    requires at + k <= |file| && AllBlank(file[at..at + k]) && ScanTo(file, isJson, at) == (Outside(None), events)
    ensures ScanTo(file, isJson, at + k) == (Outside(None), events)
    decreases k
  {
    if k > 0 {
      var gap := file[at..at + k];
      assert gap[..k - 1] == file[at..at + k - 1] && gap[k - 1] == file[at + k - 1];
      assert gap[k - 1] in gap;
      forall b | b in file[at..at + k - 1] ensures Blank(b) { assert b in gap[..k - 1]; }
      ScanBlank(file, isJson, at, k - 1, events);
      assert events + [] == events;
    }
  }

  lemma {:induction false} ScanPrefix(file: Bytes, rest: Bytes, isJson: Parser, n: nat)
    requires n <= |file|
    ensures ScanTo(file + rest, isJson, n) == ScanTo(file, isJson, n)
  {
    if n > 0 {
      ScanPrefix(file, rest, isJson, n - 1);
      var st := ScanTo(file, isJson, n - 1).0;
      if st.Inside? { assert (file + rest)[st.start..n] == file[st.start..n]; }
    }
  }

  lemma JoinSnoc(init: seq<Piece>, last: Piece)
    ensures Join(init + [last]) == Join(init) + (last.raw + last.gap)
    ensures Expected(init + [last]) == Expected(init) + [Object(|Join(init)|, |Join(init)| + |last.raw|, last.raw)]
  {
    assert (init + [last])[..|init|] == init;
  }

  lemma Within(head: Bytes, raw: Bytes, gap: Bytes)
    ensures var file := head + (raw + gap);
            var at, n := |head|, |head| + |raw|;
            file[at..n] == raw && file[n..n + |gap|] == gap && n + |gap| == |file|
  {}

  lemma ScanAppended(head: Bytes, raw: Bytes, gap: Bytes, isJson: Parser, events: seq<Event>)
    requires ObjectText(isJson, raw) && ScanTo(head, isJson, |head|) == (Outside(None), events)
    ensures ScanTo(head + (raw + gap), isJson, |head| + |raw|)
        == (Outside(None), events + [Object(|head|, |head| + |raw|, raw)])
  {
    ScanPrefix(head, raw + gap, isJson, |head|);
    Within(head, raw, gap);
    ScanObject(head + (raw + gap), isJson, |head|, raw, events);
  }

  lemma ScanPiece(head: Bytes, raw: Bytes, gap: Bytes, isJson: Parser, events: seq<Event>)
    requires ObjectText(isJson, raw) && AllBlank(gap) && ScanTo(head, isJson, |head|) == (Outside(None), events)
    ensures var file := head + (raw + gap);
            ScanTo(file, isJson, |file|) == (Outside(None), events + [Object(|head|, |head| + |raw|, raw)])
  {
    ScanAppended(head, raw, gap, isJson, events);
    Within(head, raw, gap);
    ScanBlank(head + (raw + gap), isJson, |head| + |raw|, |gap|, events + [Object(|head|, |head| + |raw|, raw)]);
  }

  lemma ScanOneMore(init: seq<Piece>, last: Piece, isJson: Parser)
    requires ObjectText(isJson, last.raw) && AllBlank(last.gap)
    requires ScanTo(Join(init), isJson, |Join(init)|) == (Outside(None), Expected(init))
    ensures var pieces := init + [last];
            ScanTo(Join(pieces), isJson, |Join(pieces)|) == (Outside(None), Expected(pieces))
  {
    JoinSnoc(init, last);
    ScanPiece(Join(init), last.raw, last.gap, isJson, Expected(init));
  }

  /** Any objects written one after the other, with only blank bytes behind each, are split back into
      exactly those objects, and nothing is reported as bad. */
  lemma {:induction false} ScanSplitsBack(pieces: seq<Piece>, isJson: Parser)
    requires forall p | p in pieces :: ObjectText(isJson, p.raw) && AllBlank(p.gap)
    ensures ScanTo(Join(pieces), isJson, |Join(pieces)|) == (Outside(None), Expected(pieces))
    ensures Scan(Join(pieces), isJson) == Expected(pieces)
  {
    if pieces != [] {
      var init, last := pieces[..|pieces| - 1], pieces[|pieces| - 1];
      assert last in pieces;
      forall p | p in init ensures ObjectText(isJson, p.raw) && AllBlank(p.gap) { assert p in pieces; }
      ScanSplitsBack(init, isJson);
      ScanOneMore(init, last, isJson);
      assert init + [last] == pieces;
    }
    assert Expected(pieces) + [] == Expected(pieces);
  }

  // ---- the emitter undoes the scanner ----

  /** The objects of a scan, each with a newline behind it, as the emitter writes them. */
  function Emitted(events: seq<Event>): seq<Piece> {
    if events == [] then []
    else
      var last := events[|events| - 1];
      Emitted(events[..|events| - 1]) + if last.Object? then [Piece(last.raw, [LF])] else []
  }

  function Raws(events: seq<Event>): seq<Bytes> {
    if events == [] then []
    else
      var last := events[|events| - 1];
      Raws(events[..|events| - 1]) + if last.Object? then [last.raw] else []
  }

  lemma {:induction false} EmittedPieces(file: Bytes, isJson: Parser, events: seq<Event>)
    requires ObjectsVerbatim(file, isJson, events)
    ensures forall p | p in Emitted(events) :: ObjectText(isJson, p.raw) && AllBlank(p.gap)
  {
    if events != [] {
      var init, last := events[..|events| - 1], events[|events| - 1];
      assert last in events;
      forall e | e in init ensures e in events {}
      EmittedPieces(file, isJson, init);
    }
  }

  lemma {:induction false} RawsOfEmitted(events: seq<Event>)
    ensures Raws(Expected(Emitted(events))) == Raws(events)
    ensures forall e | e in Expected(Emitted(events)) :: e.Object?
  {
    if events != [] {
      var init, last := events[..|events| - 1], events[|events| - 1];
      RawsOfEmitted(init);
      if last.Object? {
        var p := Emitted(init) + [Piece(last.raw, [LF])];
        assert p[..|p| - 1] == Emitted(init);
        var e := Expected(p);
        assert e[..|e| - 1] == Expected(Emitted(init));
        assert Emitted(events) == p;
      } else {
        assert Emitted(events) == Emitted(init) && Raws(events) == Raws(init);
      }
    }
  }

  /** Scanning the newline-terminated objects of any scan of any file gives those objects again, in
      order, with no bad span. */
  lemma RescanGivesTheSameObjects(file: Bytes, isJson: Parser)
    ensures var clean := Join(Emitted(Scan(file, isJson)));
            && Raws(Scan(clean, isJson)) == Raws(Scan(file, isJson))
            && forall e | e in Scan(clean, isJson) :: e.Object?
  {
    var events := Scan(file, isJson);
    ScanCoversFile(file, isJson);
    EmittedPieces(file, isJson, events);
    ScanSplitsBack(Emitted(events), isJson);
    RawsOfEmitted(events);
  }
}
