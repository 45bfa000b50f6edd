/** The independent check of the recovered files
    (scripts/recover_blobs_v2.py verify_outputs). */
module OutputCheck {
  import opened Common
  import opened Scanner
  import opened Selection
  import opened Recovery

  /** `json.loads` with what the recovery reads off the result. */
  type Decoder = Bytes -> Option<Value>

  // ---- physical lines ----

  function LineLength(s: Bytes): (n: nat)
    ensures n <= |s| && (s != [] ==> n > 0)
  {
    if s == [] then 0 else if s[0] == LF then 1 else 1 + LineLength(s[1..])
  }

  /** The physical lines, each with its newline; the last one may lack it. */
  function Lines(s: Bytes): seq<Bytes> {
    if s == [] then [] else [s[..LineLength(s)]] + Lines(s[LineLength(s)..])
  }

  predicate Terminated(line: Bytes) { line != [] && line[|line| - 1] == LF }

  // ---- what a clean output is ----

  predicate CleanLine(mode: Mode, decode: Decoder, line: Bytes) {
    && Terminated(line) && decode(line).Some?
    && (decode(line).value.Schema? || KeyOf(mode, decode(line).value).Some?)
  }

  function LineKey(mode: Mode, decode: Decoder, line: Bytes): seq<Key> {
    if decode(line).Some? && KeyOf(mode, decode(line).value).Some? then [KeyOf(mode, decode(line).value).value] else []
  }

  /** The keys of the data lines, in order. */
  function LineKeys(mode: Mode, decode: Decoder, lines: seq<Bytes>): seq<Key> {
    if lines == [] then [] else LineKeys(mode, decode, lines[..|lines| - 1]) + LineKey(mode, decode, lines[|lines| - 1])
  }

  predicate IsSchemaLine(decode: Decoder, line: Bytes) { decode(line).Some? && decode(line).value.Schema? }

  function SchemaLines(decode: Decoder, lines: seq<Bytes>): nat {
    if lines == [] then 0
    else SchemaLines(decode, lines[..|lines| - 1]) + if IsSchemaLine(decode, lines[|lines| - 1]) then 1 else 0
  }

  function FileKeys(mode: Mode, decode: Decoder, output: Bytes): seq<Key> { LineKeys(mode, decode, Lines(output)) }

  function TierKeys(mode: Mode, decode: Decoder, outputs: seq<Bytes>): seq<Key> {
    if outputs == [] then []
    else TierKeys(mode, decode, outputs[..|outputs| - 1]) + FileKeys(mode, decode, outputs[|outputs| - 1])
  }

  /** Every line is a schema object or a keyed data object, and both kinds number what was reported. */
  predicate CleanFile(mode: Mode, decode: Decoder, output: Bytes, report: Report) {
    && (forall line | line in Lines(output) :: CleanLine(mode, decode, line))
    && |FileKeys(mode, decode, output)| == report.selected
    && SchemaLines(decode, Lines(output)) == report.schemaLines
  }

  predicate CleanTier(mode: Mode, decode: Decoder, outputs: seq<Bytes>, reports: seq<Report>)
    requires |outputs| == |reports|
  {
    && (forall f | 0 <= f < |outputs| :: CleanFile(mode, decode, outputs[f], reports[f]))
    && Distinct(TierKeys(mode, decode, outputs))
  }

  // ---- what clean means, line by line ----

  /** Lines end at their newlines and nowhere else; only the last may lack one. */
  ghost predicate PhysicalLines(s: Bytes, lines: seq<Bytes>) {
    && Flatten(lines) == s
    && (forall i | 0 <= i < |lines| :: lines[i] != [] && LF !in lines[i][..|lines[i]| - 1])
    && (forall i | 0 <= i < |lines| - 1 :: lines[i][|lines[i]| - 1] == LF)
  }

  lemma LineInFront(s: Bytes, n: nat, lines: seq<Bytes>)
    requires 0 < n <= |s| && PhysicalLines(s[n..], lines)
    requires LF !in s[..n - 1] && (n < |s| ==> s[n - 1] == LF)
    ensures PhysicalLines(s, [s[..n]] + lines)
  {
    var all := [s[..n]] + lines;
    FlattenCons(s[..n], lines);
    assert s[..n] + s[n..] == s;
    assert s[..n][..n - 1] == s[..n - 1];
    forall i | 0 < i < |all| ensures all[i] == lines[i - 1] {}
    if lines != [] && n == |s| {
      FlattenNotEmpty(lines);
    }
  }

  lemma {:induction false} FlattenNotEmpty(lines: seq<Bytes>)
    requires lines != [] && forall i | 0 <= i < |lines| :: lines[i] != []
    ensures Flatten(lines) != []
  {
    assert lines[|lines| - 1] != [];
  }

  lemma {:induction false} LinesExact(s: Bytes)
    ensures PhysicalLines(s, Lines(s))
    decreases |s|
  {
    if s != [] {
      LineLengthExact(s);
      LinesExact(s[LineLength(s)..]);
      LineInFront(s, LineLength(s), Lines(s[LineLength(s)..]));
    }
  }

  lemma {:induction false} LineLengthExact(s: Bytes)
    ensures s != [] ==> LF !in s[..LineLength(s) - 1]
    ensures LineLength(s) < |s| ==> LineLength(s) > 0 && s[LineLength(s) - 1] == LF
  {
    if s != [] && s[0] != LF {
      var n := LineLength(s[1..]);
      LineLengthExact(s[1..]);
      if n > 0 { assert s[..n] == [s[0]] + s[1..][..n - 1]; }
    }
  }

  lemma BytesRegroup(a: Bytes, b: Bytes, c: Bytes)
    ensures (a + b) + c == a + (b + c)
  {}

  lemma {:induction false} FlattenCons(line: Bytes, lines: seq<Bytes>)
    ensures Flatten([line] + lines) == line + Flatten(lines)
  {
    if lines == [] {
      assert [line] + lines == [line] && [line][..0] == [];
    } else {
      var n := |lines| - 1;
      FlattenCons(line, lines[..n]);
      assert ([line] + lines)[..n + 1] == [line] + lines[..n];
      BytesRegroup(line, Flatten(lines[..n]), lines[n]);
    }
  }

  /** A line with a record that has a key: any data object when content decides, one with an id otherwise. */
  predicate KeyedLine(mode: Mode, decode: Decoder, line: Bytes) {
    decode(line).Some? && decode(line).value.Data? && (mode == ById ==> decode(line).value.id.Some?)
  }

  predicate SameKey(mode: Mode, decode: Decoder, a: Bytes, b: Bytes) {
    && KeyedLine(mode, decode, a) && KeyedLine(mode, decode, b)
    && if mode == ById then decode(a).value.id == decode(b).value.id
       else decode(a).value.content == decode(b).value.content
  }

  lemma CleanLineMeans(mode: Mode, decode: Decoder, line: Bytes)
    ensures CleanLine(mode, decode, line)
            <==> && line != [] && line[|line| - 1] == LF && decode(line).Some?
                 && (decode(line).value.Schema? || KeyedLine(mode, decode, line))
  {}

  function KeyedAt(mode: Mode, decode: Decoder, lines: seq<Bytes>): set<nat> {
    set i: nat | i < |lines| && KeyedLine(mode, decode, lines[i])
  }

  function SchemaAt(decode: Decoder, lines: seq<Bytes>): set<nat> {
    set i: nat | i < |lines| && decode(lines[i]).Some? && decode(lines[i]).value.Schema?
  }

  lemma KeyedSnoc(mode: Mode, decode: Decoder, init: seq<Bytes>, last: Bytes)
    ensures KeyedAt(mode, decode, init + [last])
            == KeyedAt(mode, decode, init) + if KeyedLine(mode, decode, last) then {|init|} else {}
    ensures |init| !in KeyedAt(mode, decode, init)
  {}

  lemma SchemaSnoc(decode: Decoder, init: seq<Bytes>, last: Bytes)
    ensures SchemaAt(decode, init + [last])
            == SchemaAt(decode, init) + if IsSchemaLine(decode, last) then {|init|} else {}
    ensures |init| !in SchemaAt(decode, init)
  {}

  /** The two figures count just the lines with a keyed record and those with a schema object. */
  lemma {:induction false} LineCountsExact(mode: Mode, decode: Decoder, lines: seq<Bytes>)
    ensures |LineKeys(mode, decode, lines)| == |KeyedAt(mode, decode, lines)|
    ensures SchemaLines(decode, lines) == |SchemaAt(decode, lines)|
  {
    if lines != [] {
      var init, last := lines[..|lines| - 1], lines[|lines| - 1];
      LineCountsExact(mode, decode, init);
      KeyedSnoc(mode, decode, init, last);
      SchemaSnoc(decode, init, last);
      assert init + [last] == lines;
    } else {
      assert KeyedAt(mode, decode, lines) == {} && SchemaAt(decode, lines) == {};
    }
  }

  lemma DistinctParts(a: seq<Key>, b: seq<Key>)
    requires Distinct(a + b)
    ensures Distinct(a) && Distinct(b) && forall k :: !(k in a && k in b)
  {
    var all := a + b;
    forall i, j | 0 <= i < j < |a| ensures a[i] != a[j] { assert all[i] != all[j]; }
    forall i, j | 0 <= i < j < |b| ensures b[i] != b[j] { assert all[|a| + i] != all[|a| + j]; }
    forall i, j | 0 <= i < |a| && 0 <= j < |b| ensures a[i] != b[j] { assert all[i] != all[|a| + j]; }
  }

  lemma DistinctAppend(a: seq<Key>, b: seq<Key>)
    ensures Distinct(a + b) <==> Distinct(a) && Distinct(b) && forall k :: !(k in a && k in b)
  {
    if Distinct(a + b) {
      DistinctParts(a, b);
    } else if Distinct(a) && Distinct(b) {
      var all := a + b;
      var i, j :| 0 <= i < j < |all| && all[i] == all[j];
      assert all[i] in a && all[i] in b;
    }
  }

  lemma {:induction false} KeysOfLines(mode: Mode, decode: Decoder, lines: seq<Bytes>, k: Key)
    ensures k in LineKeys(mode, decode, lines) <==> exists i: nat :: i < |lines| && k in LineKey(mode, decode, lines[i])
  {
    if lines != [] {
      var n := |lines| - 1;
      KeysOfLines(mode, decode, lines[..n], k);
      if i: nat :| i < n && k in LineKey(mode, decode, lines[..n][i]) {
        assert lines[i] == lines[..n][i];
      }
      if i: nat :| i < |lines| && k in LineKey(mode, decode, lines[i]) {
        assert i == n || lines[..n][i] == lines[i];
      }
    }
  }

  ghost predicate NoRepeats(mode: Mode, decode: Decoder, lines: seq<Bytes>) {
    forall i, j | 0 <= i < j < |lines| :: !SameKey(mode, decode, lines[i], lines[j])
  }

  lemma KeyShared(mode: Mode, decode: Decoder, a: Bytes, b: Bytes)
    ensures SameKey(mode, decode, a, b)
            <==> exists k :: k in LineKey(mode, decode, a) && k in LineKey(mode, decode, b)
  {
    if SameKey(mode, decode, a, b) {
      var k := KeyOf(mode, decode(a).value).value;
      assert k in LineKey(mode, decode, a) && k in LineKey(mode, decode, b);
    }
  }

  lemma NoRepeatsSnoc(mode: Mode, decode: Decoder, init: seq<Bytes>, last: Bytes)
    ensures NoRepeats(mode, decode, init + [last])
            <==> NoRepeats(mode, decode, init) && forall i | 0 <= i < |init| :: !SameKey(mode, decode, init[i], last)
  {
    var lines := init + [last];
    if NoRepeats(mode, decode, lines) {
      forall i, j | 0 <= i < j < |init| ensures !SameKey(mode, decode, init[i], init[j]) {
        assert !SameKey(mode, decode, lines[i], lines[j]);
      }
      forall i | 0 <= i < |init| ensures !SameKey(mode, decode, init[i], last) {
        assert !SameKey(mode, decode, lines[i], lines[|init|]);
      }
    }
  }

  lemma LastIsNew(mode: Mode, decode: Decoder, init: seq<Bytes>, last: Bytes)
    ensures (forall k :: !(k in LineKeys(mode, decode, init) && k in LineKey(mode, decode, last)))
            <==> forall i | 0 <= i < |init| :: !SameKey(mode, decode, init[i], last)
  {
    forall k { KeysOfLines(mode, decode, init, k); }
    forall i | 0 <= i < |init| { KeyShared(mode, decode, init[i], last); }
  }

  /** Keys are distinct exactly when no two lines hold records with the same id or content. */
  lemma {:induction false} DistinctLines(mode: Mode, decode: Decoder, lines: seq<Bytes>)
    ensures Distinct(LineKeys(mode, decode, lines)) <==> NoRepeats(mode, decode, lines)
  {
    if lines != [] {
      var init, last := lines[..|lines| - 1], lines[|lines| - 1];
      DistinctLines(mode, decode, init);
      DistinctAppend(LineKeys(mode, decode, init), LineKey(mode, decode, last));
      LastIsNew(mode, decode, init, last);
      NoRepeatsSnoc(mode, decode, init, last);
      assert init + [last] == lines;
    }
  }

  function AllLinesOf(outputs: seq<Bytes>): seq<Bytes> {
    if outputs == [] then [] else AllLinesOf(outputs[..|outputs| - 1]) + Lines(outputs[|outputs| - 1])
  }

  lemma {:induction false} LineKeysAppend(mode: Mode, decode: Decoder, a: seq<Bytes>, b: seq<Bytes>)
    ensures LineKeys(mode, decode, a + b) == LineKeys(mode, decode, a) + LineKeys(mode, decode, b)
    decreases |b|
  {
    if b == [] {
      assert a + b == a;
    } else {
      var init, last := b[..|b| - 1], b[|b| - 1];
      LineKeysAppend(mode, decode, a, init);
      assert (a + b)[..|a + b| - 1] == a + init && (a + b)[|a + b| - 1] == last;
    }
  }

  lemma {:induction false} TierKeysAreLineKeys(mode: Mode, decode: Decoder, outputs: seq<Bytes>)
    ensures TierKeys(mode, decode, outputs) == LineKeys(mode, decode, AllLinesOf(outputs))
  {
    if outputs != [] {
      var init := outputs[..|outputs| - 1];
      TierKeysAreLineKeys(mode, decode, init);
      LineKeysAppend(mode, decode, AllLinesOf(init), Lines(outputs[|outputs| - 1]));
    }
  }

  /** Every line is newline-terminated and decodes to a schema object or a record with a key, and the two kinds
      number what the report says. */
  ghost predicate LooksClean(mode: Mode, decode: Decoder, output: Bytes, report: Report) {
    && (forall line | line in Lines(output) ::
          && line != [] && line[|line| - 1] == LF && decode(line).Some?
          && (decode(line).value.Schema? || KeyedLine(mode, decode, line)))
    && |KeyedAt(mode, decode, Lines(output))| == report.selected
    && |SchemaAt(decode, Lines(output))| == report.schemaLines
  }

  lemma CleanFileMeans(mode: Mode, decode: Decoder, output: Bytes, report: Report)
    ensures CleanFile(mode, decode, output, report) <==> LooksClean(mode, decode, output, report)
  {
    LineCountsExact(mode, decode, Lines(output));
    forall line | line in Lines(output) { CleanLineMeans(mode, decode, line); }
  }

  /** A tier is clean if every file looks so and no two lines of the tier hold the same record. */
  lemma CleanTierMeans(mode: Mode, decode: Decoder, outputs: seq<Bytes>, reports: seq<Report>)
    requires |outputs| == |reports|
    ensures CleanTier(mode, decode, outputs, reports)
            <==> && (forall f | 0 <= f < |outputs| :: LooksClean(mode, decode, outputs[f], reports[f]))
                 && NoRepeats(mode, decode, AllLinesOf(outputs))
  {
    TierKeysAreLineKeys(mode, decode, outputs);
    DistinctLines(mode, decode, AllLinesOf(outputs));
    forall f | 0 <= f < |outputs| { CleanFileMeans(mode, decode, outputs[f], reports[f]); }
  }

  // ---- the check ----

  datatype Failure =
    | NotTerminated(file: nat, line: nat)
    | InvalidLine(file: nat, line: nat)
    | NotAnObject(file: nat, line: nat)
    | NoId(file: nat, line: nat)
    | Duplicate(file: nat, line: nat, key: Key)
    | DataCount(file: nat, found: nat)
    | SchemaCount(file: nat, found: nat)
    | StrayLines(file: nat)

  lemma DistinctSnoc(keys: seq<Key>, k: Key)
    ensures Distinct(keys + [k]) <==> Distinct(keys) && k !in keys
    ensures Elements(keys + [k]) == Elements(keys) + {k}
  {
    var more := keys + [k];
    assert forall i | 0 <= i < |keys| :: more[i] == keys[i];
    if Distinct(more) {
      forall i | 0 <= i < |keys| ensures keys[i] != k { assert more[i] != more[|keys|]; }
    }
  }

  /** One line. `before` holds the keys of all earlier lines of the tier. */
  method VerifyLine(mode: Mode, decode: Decoder, file: nat, number: nat, line: Bytes, ghost before: seq<Key>,
                    keys0: set<Key>)
    returns (failures: seq<Failure>, keys: set<Key>, data: nat, schema: nat)
    requires keys0 == Elements(before)
    ensures keys == Elements(before + LineKey(mode, decode, line))
    ensures data == |LineKey(mode, decode, line)| && schema == if IsSchemaLine(decode, line) then 1 else 0
    ensures failures == [] ==>
              CleanLine(mode, decode, line)
              && (Distinct(before) ==> Distinct(before + LineKey(mode, decode, line)))
    ensures failures != [] ==> !CleanLine(mode, decode, line) || !Distinct(before + LineKey(mode, decode, line))
    ensures data + schema <= 1 && (CleanLine(mode, decode, line) ==> data + schema == 1)
  {
    failures, keys, data, schema := [], keys0, 0, 0;
    assert before + [] == before;
    if !Terminated(line) {
      failures := failures + [NotTerminated(file, number)];
    }
    var value := decode(line);
    if value.None? {
      failures := failures + [InvalidLine(file, number)];
    } else if value.value.NotObject? {
      failures := failures + [NotAnObject(file, number)];
    } else if value.value.Schema? {
      schema := 1;
    } else if mode == ById && value.value.id.None? {
      failures := failures + [NoId(file, number)];
    } else {
      data := 1;
      var key := KeyOf(mode, value.value).value;
      DistinctSnoc(before, key);
      if key in keys {
        failures := failures + [Duplicate(file, number, key)];
      }
      keys := keys + {key};
    }
  }

  lemma LinesSnoc(mode: Mode, decode: Decoder, lines: seq<Bytes>, n: nat)
    requires n < |lines|
    ensures LineKeys(mode, decode, lines[..n + 1]) == LineKeys(mode, decode, lines[..n])
        + LineKey(mode, decode, lines[n])
    ensures SchemaLines(decode, lines[..n + 1]) == SchemaLines(decode, lines[..n])
        + if IsSchemaLine(decode, lines[n]) then 1 else 0
  {
    assert lines[..n + 1][..n] == lines[..n];
  }

  lemma DistinctPrefix(a: seq<Key>, b: seq<Key>)
    requires Distinct(a + b)
    ensures Distinct(a)
  {
    forall i, j | 0 <= i < j < |a| ensures a[i] != a[j] { assert (a + b)[i] != (a + b)[j]; }
  }

  ghost predicate LinesSoFar(mode: Mode, decode: Decoder, lines: seq<Bytes>, n: nat, before: seq<Key>,
                             failures: seq<Failure>, keys: set<Key>, data: nat, schema: nat)
    requires n <= |lines|
  {
    var now := before + LineKeys(mode, decode, lines[..n]);
    && keys == Elements(now) && data == |LineKeys(mode, decode, lines[..n])|
        && schema == SchemaLines(decode, lines[..n])
    && data + schema <= n
    && (failures == [] ==> (forall i | 0 <= i < n :: CleanLine(mode, decode, lines[i])) && data + schema == n
                           && (Distinct(before) ==> Distinct(now)))
    && (failures != [] ==> (exists i :: 0 <= i < n && !CleanLine(mode, decode, lines[i])) || !Distinct(now))
  }

  lemma NextLine(mode: Mode, decode: Decoder, lines: seq<Bytes>, n: nat, before: seq<Key>, failures: seq<Failure>,
                 keys: set<Key>, data: nat, schema: nat, more: seq<Failure>, keys': set<Key>, d: nat, s: nat)
    requires n < |lines| && LinesSoFar(mode, decode, lines, n, before, failures, keys, data, schema)
    requires var now := before + LineKeys(mode, decode, lines[..n]);
             var line := lines[n];
             && keys' == Elements(now + LineKey(mode, decode, line))
             && d == |LineKey(mode, decode, line)| && s == (if IsSchemaLine(decode, line) then 1 else 0)
             && (more == [] ==>
                   CleanLine(mode, decode, line)
                   && (Distinct(now) ==> Distinct(now + LineKey(mode, decode, line))))
             && (more != [] ==> !CleanLine(mode, decode, line) || !Distinct(now + LineKey(mode, decode, line)))
             && d + s <= 1 && (CleanLine(mode, decode, line) ==> d + s == 1)
    ensures LinesSoFar(mode, decode, lines, n + 1, before, failures + more, keys', data + d, schema + s)
  {
    LinesSnoc(mode, decode, lines, n);
    var now := before + LineKeys(mode, decode, lines[..n]);
    var next := before + LineKeys(mode, decode, lines[..n + 1]);
    assert now + LineKey(mode, decode, lines[n]) == next;
    if failures != [] && !Distinct(now) {
      if Distinct(next) { DistinctPrefix(now, LineKey(mode, decode, lines[n])); }
    }
  }

  lemma NoLinesYet(mode: Mode, decode: Decoder, lines: seq<Bytes>, before: seq<Key>)
    ensures LinesSoFar(mode, decode, lines, 0, before, [], Elements(before), 0, 0)
  {
    assert before + [] == before;
  }

  /** The lines of one output file. */
  method VerifyLines(mode: Mode, decode: Decoder, file: nat, lines: seq<Bytes>, ghost before: seq<Key>, keys0: set<Key>)
    returns (failures: seq<Failure>, keys: set<Key>, data: nat, schema: nat)
    requires keys0 == Elements(before)
    ensures LinesSoFar(mode, decode, lines, |lines|, before, failures, keys, data, schema)
  {
    failures, keys, data, schema := [], keys0, 0, 0;
    NoLinesYet(mode, decode, lines, before);
    for n := 0 to |lines|
      invariant LinesSoFar(mode, decode, lines, n, before, failures, keys, data, schema)
    {
      var more, keys', d, s := VerifyLine(mode, decode, file, n + 1, lines[n],
                                          before + LineKeys(mode, decode, lines[..n]), keys);
      NextLine(mode, decode, lines, n, before, failures, keys, data, schema, more, keys', d, s);
      failures, keys, data, schema := failures + more, keys', data + d, schema + s;
    }
  }

  /** What the line checks of one file amount to. */
  ghost predicate LinesDone(mode: Mode, decode: Decoder, lines: seq<Bytes>, before: seq<Key>, failures: seq<Failure>,
                            data: nat, schema: nat) {
    var clean := forall line | line in lines :: CleanLine(mode, decode, line);
    var now := before + LineKeys(mode, decode, lines);
    && data == |LineKeys(mode, decode, lines)| && schema == SchemaLines(decode, lines)
    && (failures == [] ==> clean && data + schema == |lines| && (Distinct(before) ==> Distinct(now)))
    && (failures != [] ==> !clean || !Distinct(now))
  }

  lemma AllLines(mode: Mode, decode: Decoder, lines: seq<Bytes>, before: seq<Key>, failures: seq<Failure>,
                 keys: set<Key>, data: nat, schema: nat)
    requires LinesSoFar(mode, decode, lines, |lines|, before, failures, keys, data, schema)
    ensures LinesDone(mode, decode, lines, before, failures, data, schema)
    ensures keys == Elements(before + LineKeys(mode, decode, lines))
  {
    assert lines[..|lines|] == lines;
    if i :| 0 <= i < |lines| && !CleanLine(mode, decode, lines[i]) {
      assert lines[i] in lines;
    }
  }

  /** Once every line is clean, the lines are data and schema lines together. */
  lemma {:induction false} CleanLinesAdd(mode: Mode, decode: Decoder, lines: seq<Bytes>)
    requires forall line | line in lines :: CleanLine(mode, decode, line)
    ensures |LineKeys(mode, decode, lines)| + SchemaLines(decode, lines) == |lines|
  {
    if lines != [] {
      var init := lines[..|lines| - 1];
      assert lines[|lines| - 1] in lines;
      forall line | line in init ensures line in lines {}
      CleanLinesAdd(mode, decode, init);
    }
  }

  /** One output file against its report. */
  method VerifyFile(mode: Mode, decode: Decoder, file: nat, output: Bytes, report: Report, ghost before: seq<Key>,
                    keys0: set<Key>)
    returns (failures: seq<Failure>, keys: set<Key>)
    requires keys0 == Elements(before)
    ensures keys == Elements(before + FileKeys(mode, decode, output))
    ensures failures == [] ==> CleanFile(mode, decode, output, report)
                               && (Distinct(before) ==> Distinct(before + FileKeys(mode, decode, output)))
    ensures failures != [] ==>
              !CleanFile(mode, decode, output, report) || !Distinct(before + FileKeys(mode, decode, output))
  {
    var lines := Lines(output);
    var data, schema;
    failures, keys, data, schema := VerifyLines(mode, decode, file, lines, before, keys0);
    AllLines(mode, decode, lines, before, failures, keys, data, schema);
    if forall line | line in lines :: CleanLine(mode, decode, line) { CleanLinesAdd(mode, decode, lines); }
    if data != report.selected {
      failures := failures + [DataCount(file, data)];
    }
    if schema != report.schemaLines {
      failures := failures + [SchemaCount(file, schema)];
    }
    if |lines| != data + schema {
      failures := failures + [StrayLines(file)];
    }
  }

  lemma TierKeysSnoc(mode: Mode, decode: Decoder, outputs: seq<Bytes>, n: nat)
    requires n < |outputs|
    ensures TierKeys(mode, decode, outputs[..n + 1]) == TierKeys(mode, decode, outputs[..n])
        + FileKeys(mode, decode, outputs[n])
  {
    assert outputs[..n + 1][..n] == outputs[..n];
  }

  predicate CleanFiles(mode: Mode, decode: Decoder, outputs: seq<Bytes>, reports: seq<Report>, n: nat)
    requires n <= |outputs| == |reports|
  {
    forall f | 0 <= f < n :: CleanFile(mode, decode, outputs[f], reports[f])
  }

  lemma DirtyFile(mode: Mode, decode: Decoder, outputs: seq<Bytes>, n: nat)
    requires n < |outputs|
    ensures var keys := TierKeys(mode, decode, outputs[..n]);
            && TierKeys(mode, decode, outputs[..n + 1]) == keys + FileKeys(mode, decode, outputs[n])
            && (Distinct(keys + FileKeys(mode, decode, outputs[n])) ==> Distinct(keys))
  {
    TierKeysSnoc(mode, decode, outputs, n);
    var keys := TierKeys(mode, decode, outputs[..n]);
    if Distinct(keys + FileKeys(mode, decode, outputs[n])) { DistinctPrefix(keys, FileKeys(mode, decode, outputs[n])); }
  }

  ghost predicate FilesSoFar(mode: Mode, decode: Decoder, outputs: seq<Bytes>, reports: seq<Report>, n: nat,
                             failures: seq<Failure>, keys: set<Key>)
    requires n <= |outputs| == |reports|
  {
    && keys == Elements(TierKeys(mode, decode, outputs[..n]))
    && (failures == [] <==>
        CleanFiles(mode, decode, outputs, reports, n) && Distinct(TierKeys(mode, decode, outputs[..n])))
  }

  lemma NextFile(mode: Mode, decode: Decoder, outputs: seq<Bytes>, reports: seq<Report>, n: nat,
                 failures: seq<Failure>, keys: set<Key>, more: seq<Failure>, keys': set<Key>)
    requires n < |outputs| == |reports| && FilesSoFar(mode, decode, outputs, reports, n, failures, keys)
    requires var before := TierKeys(mode, decode, outputs[..n]);
             var now := before + FileKeys(mode, decode, outputs[n]);
             && keys' == Elements(now)
             && (more == [] ==> CleanFile(mode, decode, outputs[n], reports[n]) && (Distinct(before) ==> Distinct(now)))
             && (more != [] ==> !CleanFile(mode, decode, outputs[n], reports[n]) || !Distinct(now))
    ensures FilesSoFar(mode, decode, outputs, reports, n + 1, failures + more, keys')
  {
    DirtyFile(mode, decode, outputs, n);
  }

  /** The check reports no failure exactly when every file is clean and no key appears twice in the tier. */
  method VerifyOutputs(mode: Mode, decode: Decoder, outputs: seq<Bytes>, reports: seq<Report>)
      returns (failures: seq<Failure>)
    requires |outputs| == |reports|
    ensures failures == [] <==> CleanTier(mode, decode, outputs, reports)
  {
    failures := [];
    var keys: set<Key> := {};
    for n := 0 to |outputs|
      invariant FilesSoFar(mode, decode, outputs, reports, n, failures, keys)
    {
      var more, keys' := VerifyFile(mode, decode, n, outputs[n], reports[n], TierKeys(mode, decode, outputs[..n]),
                                    keys);
      NextFile(mode, decode, outputs, reports, n, failures, keys, more, keys');
      failures, keys := failures + more, keys';
    }
    assert outputs[..|outputs|] == outputs;
  }
}
