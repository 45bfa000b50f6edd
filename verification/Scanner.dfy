/** The byte scanner of scripts/recover_blobs_v2.py: balanced top-level objects out of damaged files. */
module Scanner {
  import opened Common

  newtype byte = b: int | 0 <= b < 256
  type Bytes = seq<byte>

  const OPEN: byte := 0x7B
  const CLOSE: byte := 0x7D
  const QUOTE: byte := 0x22
  const BACKSLASH: byte := 0x5C
  const LF: byte := 0x0A

  predicate Blank(b: byte) { b == 0x20 || b == 0x09 || b == 0x0D || b == LF }

  // ---- the machine inside one candidate object ----

  datatype Core = Core(depth: nat, inString: bool, escaped: bool)

  datatype Move = Goes(core: Core) | Closes | Breaks

  const OPENED := Core(1, false, false)

  function CoreStep(c: Core, b: byte): Move {
    if c.inString then
      if c.escaped then Goes(c.(escaped := false))
      else if b == BACKSLASH then Goes(c.(escaped := true))
      else if b == QUOTE then Goes(c.(inString := false))
      else if b == LF then Breaks
      else Goes(c)
    else if b == QUOTE then Goes(c.(inString := true))
    else if b == OPEN then Goes(c.(depth := c.depth + 1))
    else if b == CLOSE then (if c.depth <= 1 then Closes else Goes(c.(depth := c.depth - 1)))
    else if b == LF then Breaks
    else Goes(c)
  }

  function RunCore(c: Core, s: Bytes): Option<Core> {
    if s == [] then Some(c)
    else
      match RunCore(c, s[..|s| - 1])
      case None => None
      case Some(d) =>
        var m := CoreStep(d, s[|s| - 1]);
        if m.Goes? then Some(m.core) else None
  }

  /** One object text: it opens, keeps open, and closes with its last byte. */
  predicate Balanced(raw: Bytes) {
    && |raw| >= 2 && raw[0] == OPEN
    && var inner := RunCore(OPENED, raw[1..|raw| - 1]);
       inner.Some? && CoreStep(inner.value, raw[|raw| - 1]) == Closes
  }

  // ---- the whole-file scan ----

  datatype Reason = NonJsonBytes | UnclosedAtNewline | InvalidJson | TruncatedAtEof

  datatype Event =
    | Object(start: nat, end: nat, raw: Bytes)
    | Bad(start: nat, end: nat, reason: Reason)

  datatype State =
    | Outside(junk: Option<nat>)
    | Inside(start: nat, core: Core)

  /** Whether `json.loads` accepts a text. */
  type Parser = Bytes -> bool

  function Junk(junk: Option<nat>, end: nat): seq<Event> {
    if junk.Some? then [Bad(junk.value, end, NonJsonBytes)] else []
  }

  function Step(file: Bytes, isJson: Parser, st: State, pos: nat): (State, seq<Event>)
    requires pos < |file| && (st.Inside? ==> st.start <= pos)
  {
    var b := file[pos];
    match st
    case Outside(junk) =>
      if b == OPEN then (Inside(pos, OPENED), Junk(junk, pos))
      else if !Blank(b) && junk.None? then (Outside(Some(pos)), [])
      else (st, [])
    case Inside(start, core) =>
      match CoreStep(core, b)
      case Goes(next) => (Inside(start, next), [])
      case Breaks => (Outside(None), [Bad(start, pos + 1, UnclosedAtNewline)])
      case Closes =>
        var raw := file[start..pos + 1];
        (Outside(None), [if isJson(raw) then Object(start, pos + 1, raw) else Bad(start, pos + 1, InvalidJson)])
  }

  function ScanTo(file: Bytes, isJson: Parser, n: nat): (r: (State, seq<Event>))
    requires n <= |file|
    ensures r.0.Inside? ==> r.0.start < n
  {
    if n == 0 then (Outside(None), [])
    else
      var (st, events) := ScanTo(file, isJson, n - 1);
      var (st', more) := Step(file, isJson, st, n - 1);
      (st', events + more)
  }

  function AtEof(st: State, n: nat): seq<Event> {
    match st
    case Outside(junk) => Junk(junk, n)
    case Inside(start, _) => [Bad(start, n, TruncatedAtEof)]
  }

  function Scan(file: Bytes, isJson: Parser): seq<Event> {
    var (st, events) := ScanTo(file, isJson, |file|);
    events + AtEof(st, |file|)
  }

  // ---- the chunked scan ----

  function Flatten(chunks: seq<Bytes>): Bytes {
    if chunks == [] then [] else Flatten(chunks[..|chunks| - 1]) + chunks[|chunks| - 1]
  }

  lemma {:induction false} FlattenPrefix(chunks: seq<Bytes>, n: nat)
    requires n <= |chunks|
    ensures |Flatten(chunks[..n])| <= |Flatten(chunks)|
    ensures Flatten(chunks[..n]) == Flatten(chunks)[..|Flatten(chunks[..n])|]
    decreases |chunks|
  {
    if n == |chunks| {
      assert chunks[..n] == chunks;
    } else {
      var init := chunks[..|chunks| - 1];
      assert init[..n] == chunks[..n];
      FlattenPrefix(init, n);
    }
  }

  /** Where chunk `n` lies in the file. */
  lemma ChunkAt(chunks: seq<Bytes>, n: nat)
    requires n < |chunks|
    ensures var at := |Flatten(chunks[..n])|;
            && at + |chunks[n]| == |Flatten(chunks[..n + 1])| <= |Flatten(chunks)|
            && Flatten(chunks)[at..at + |chunks[n]|] == chunks[n]
  {
    FlattenPrefix(chunks, n + 1);
    assert chunks[..n + 1][..n] == chunks[..n];
  }

  function StateOf(depth: nat, inString: bool, escaped: bool, candidate: Option<nat>, junk: Option<nat>): State {
    if candidate.Some? then Inside(candidate.value, Core(depth, inString, escaped)) else Outside(junk)
  }

  /** The scanner's variables against the whole-file scan up to `pos`. `parts` and `segment` hold the
      open candidate's bytes read so far. */
  ghost predicate InStep(file: Bytes, isJson: Parser, pos: nat, chunk: Bytes, index: nat, parts: seq<Bytes>, depth: nat,
                         inString: bool, escaped: bool, candidate: Option<nat>, segment: Option<nat>,
                         junk: Option<nat>, events: seq<Event>) {
    && pos <= |file| && index <= |chunk|
    && ScanTo(file, isJson, pos) == (StateOf(depth, inString, escaped, candidate, junk), events)
    && (depth > 0 <==> candidate.Some?) && (candidate.Some? <==> segment.Some?)
    && (depth > 0 ==> junk.None?)
    && (if candidate.Some? then
          candidate.value < pos && segment.value <= index && file[candidate.value..pos]
          == Flatten(parts) + chunk[segment.value..index]
        else parts == [])
  }

  /** A byte while no candidate is open. */
  method OutsideByte(ghost file: Bytes, isJson: Parser, chunk: Bytes, position: nat, index: nat, inString0: bool,
                     escaped0: bool, junk0: Option<nat>, events0: seq<Event>)
    returns (depth: nat, inString: bool, escaped: bool, candidate: Option<nat>, segment: Option<nat>,
             junk: Option<nat>, events: seq<Event>)
    requires index < |chunk| && position < |file| && file[position] == chunk[index]
    requires InStep(file, isJson, position, chunk, index, [], 0, inString0, escaped0, None, None, junk0, events0)
    ensures InStep(file, isJson, position + 1, chunk, index + 1, [], depth, inString, escaped, candidate, segment,
                   junk, events)
  {
    depth, inString, escaped, candidate, segment, junk, events := 0, inString0, escaped0, None, None, junk0, events0;
    assert events + [] == events;
    if chunk[index] == OPEN {
      if junk.Some? {
        events := events + [Bad(junk.value, position, NonJsonBytes)];
        junk := None;
      }
      depth, inString, escaped, candidate, segment := 1, false, false, Some(position), Some(index);
      assert file[position..position + 1] == [chunk[index]] == chunk[index..index + 1];
    } else if !Blank(chunk[index]) && junk.None? {
      junk := Some(position);
    }
  }

  /** A byte inside an open candidate. */
  method CandidateByte(ghost file: Bytes, isJson: Parser, chunk: Bytes, position: nat, index: nat, parts0: seq<Bytes>,
                       depth0: nat, inString0: bool, escaped0: bool, start: nat, from: nat, events0: seq<Event>)
    returns (parts: seq<Bytes>, depth: nat, inString: bool, escaped: bool, events: seq<Event>)
    requires index < |chunk| && position < |file| && file[position] == chunk[index] && depth0 > 0
    requires InStep(file, isJson, position, chunk, index, parts0, depth0, inString0, escaped0, Some(start), Some(from),
                    None, events0)
    ensures depth > 0 ==> InStep(file, isJson, position + 1, chunk, index + 1, parts, depth, inString, escaped,
                                 Some(start), Some(from), None, events)
    ensures depth == 0 ==> InStep(file, isJson, position + 1, chunk, index + 1, parts, 0, inString, escaped, None,
                                  None, None, events)
  {
    parts, depth, inString, escaped, events := parts0, depth0, inString0, escaped0, events0;
    var b := chunk[index];
    ghost var move := CoreStep(Core(depth, inString, escaped), b);
    assert events + [] == events;
    assert file[start..position + 1] == file[start..position] + [b];
    assert chunk[from..index + 1] == chunk[from..index] + [b];
    if inString {
      if escaped {
        escaped := false;
      } else if b == BACKSLASH {
        escaped := true;
      } else if b == QUOTE {
        inString := false;
      } else if b == LF {
        events := events + [Bad(start, position + 1, UnclosedAtNewline)];
        parts, depth, inString, escaped := [], 0, false, false;
      }
    } else if b == QUOTE {
      inString := true;
    } else if b == OPEN {
      depth := depth + 1;
    } else if b == CLOSE {
      depth := depth - 1;
      if depth == 0 {
        var raw := Flatten(parts) + chunk[from..index + 1];
        assert raw == file[start..position + 1];
        if isJson(raw) {
          events := events + [Object(start, position + 1, raw)];
        } else {
          events := events + [Bad(start, position + 1, InvalidJson)];
        }
        parts := [];
      }
    } else if b == LF {
      events := events + [Bad(start, position + 1, UnclosedAtNewline)];
      parts, depth := [], 0;
    }
  }

  /** One pass over one chunk. */
  method ScanChunk(ghost file: Bytes, isJson: Parser, chunk: Bytes, absolute: nat, parts0: seq<Bytes>, depth0: nat,
                   inString0: bool, escaped0: bool, candidate0: Option<nat>, segment0: Option<nat>, junk0: Option<nat>,
                   events0: seq<Event>)
    returns (parts: seq<Bytes>, depth: nat, inString: bool, escaped: bool, candidate: Option<nat>, segment: Option<nat>,
             junk: Option<nat>, events: seq<Event>)
    requires absolute + |chunk| <= |file| && file[absolute..absolute + |chunk|] == chunk
    requires InStep(file, isJson, absolute, chunk, 0, parts0, depth0, inString0, escaped0, candidate0, segment0, junk0,
                    events0)
    ensures InStep(file, isJson, absolute + |chunk|, chunk, |chunk|, parts, depth, inString, escaped, candidate,
                   segment, junk, events)
  {
    parts, depth, inString, escaped := parts0, depth0, inString0, escaped0;
    candidate, segment, junk, events := candidate0, segment0, junk0, events0;
    for index := 0 to |chunk|
      invariant InStep(file, isJson, absolute + index, chunk, index, parts, depth, inString, escaped, candidate,
                       segment, junk, events)
    {
      var position := absolute + index;
      assert file[absolute..absolute + |chunk|][index] == file[position];
      if depth == 0 {
        depth, inString, escaped, candidate, segment, junk, events :=
          OutsideByte(file, isJson, chunk, position, index, inString, escaped, junk, events);
      } else {
        parts, depth, inString, escaped, events :=
          CandidateByte(file, isJson, chunk, position, index, parts, depth, inString, escaped, candidate.value,
                        segment.value, events);
        if depth == 0 {
          candidate, segment := None, None;
        }
      }
    }
  }

  /** However the file is cut into chunks, the scanner reports exactly what the whole-file scan does,
      and every object's bytes are the file's bytes at its span. */
  method IterJsonObjects(chunks: seq<Bytes>, isJson: Parser) returns (events: seq<Event>)
    ensures events == Scan(Flatten(chunks), isJson)
  {
    ghost var file := Flatten(chunks);
    var parts: seq<Bytes>, depth, inString, escaped := [], 0, false, false;
    var candidate: Option<nat>, segment: Option<nat>, junk: Option<nat> := None, None, None;
    var absolute := 0;
    events := [];
    for n := 0 to |chunks|
      invariant absolute == |Flatten(chunks[..n])|
      invariant InStep(file, isJson, absolute, [], 0, parts, depth, inString, escaped, candidate, segment, junk, events)
    {
      var chunk := chunks[n];
      ChunkAt(chunks, n);
      parts, depth, inString, escaped, candidate, segment, junk, events :=
        ScanChunk(file, isJson, chunk, absolute, parts, depth, inString, escaped, candidate, segment, junk, events);
      if depth > 0 && segment.Some? {
        assert chunk[segment.value..|chunk|] == chunk[segment.value..];
        parts := parts + [chunk[segment.value..]];
        segment := Some(0);
      }
      absolute := absolute + |chunk|;
    }
    assert chunks[..|chunks|] == chunks;
    if depth > 0 && candidate.Some? {
      events := events + [Bad(candidate.value, absolute, TruncatedAtEof)];
    }
    if junk.Some? {
      events := events + [Bad(junk.value, absolute, NonJsonBytes)];
    }
  }
}
