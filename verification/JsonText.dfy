/** Compact JSON texts (RFC 8259) and the scanner: concatenated objects come apart again. */
module JsonText {
  import opened Common
  import opened Scanner
  import opened ScannerProperties

  // ---- grammar ----

  /** One character of a string, as section 7 of RFC 8259 allows it to be written. */
  datatype Letter =
    | Plain(b: byte)
    | Short(b: byte)
    | Unicode(hex: Bytes)

  datatype Json =
    | Token(text: Bytes)
    | Text(letters: seq<Letter>)
    | Array(items: seq<Json>)
    | Dict(fields: seq<Field>)
  datatype Field = Field(name: seq<Letter>, value: Json)

  const COMMA: byte := 0x2C
  const COLON: byte := 0x3A
  const UNICODE_MARK: byte := 0x75

  predicate IsHex(b: byte) { 0x30 <= b <= 0x39 || 0x41 <= b <= 0x46 || 0x61 <= b <= 0x66 }

  predicate LegalLetter(l: Letter) {
    match l
    case Plain(b) => b >= 0x20 && b != QUOTE && b != BACKSLASH
    case Short(b) => b in [QUOTE, BACKSLASH, 0x2F, 0x62, 0x66, 0x6E, 0x72, 0x74]
    case Unicode(hex) => |hex| == 4 && forall h | h in hex :: IsHex(h)
  }

  predicate LegalString(s: seq<Letter>) { forall l | l in s :: LegalLetter(l) }

  /** Letters, digits, sign and point: what `true`, `false`, `null` and numbers are made of. */
  predicate LegalToken(text: Bytes) {
    text != [] && forall b | b in text ::
      0x30 <= b <= 0x39 || 0x61 <= b <= 0x7A || b == 0x45 || b == 0x2B || b == 0x2D || b == 0x2E
  }

  predicate Legal(v: Json) {
    match v
    case Token(text) => LegalToken(text)
    case Text(letters) => LegalString(letters)
    case Array(items) => forall i | 0 <= i < |items| :: Legal(items[i])
    case Dict(fields) => forall i | 0 <= i < |fields| :: LegalString(fields[i].name) && Legal(fields[i].value)
  }

  function WriteLetter(l: Letter): Bytes {
    match l
    case Plain(b) => [b]
    case Short(b) => [BACKSLASH, b]
    case Unicode(hex) => [BACKSLASH, UNICODE_MARK] + hex
  }

  function WriteLetters(s: seq<Letter>): Bytes {
    if s == [] then [] else WriteLetters(s[..|s| - 1]) + WriteLetter(s[|s| - 1])
  }

  function WriteString(s: seq<Letter>): Bytes { [QUOTE] + WriteLetters(s) + [QUOTE] }

  function Write(v: Json): Bytes
    decreases v, 1
  {
    match v
    case Token(text) => text
    case Text(letters) => WriteString(letters)
    case Array(items) => [0x5B] + WriteItems(items) + [0x5D]
    case Dict(fields) => [OPEN] + WriteFields(fields) + [CLOSE]
  }

  function WriteItems(items: seq<Json>): Bytes
    decreases items, 0
  {
    if items == [] then []
    else
      var n := |items| - 1;
      WriteItems(items[..n]) + (if n == 0 then [] else [COMMA]) + Write(items[n])
  }

  function WriteFields(fields: seq<Field>): Bytes
    decreases fields, 0
  {
    if fields == [] then []
    else
      var n := |fields| - 1;
      WriteFields(fields[..n]) + (if n == 0 then [] else [COMMA]) + WriteString(fields[n].name) + [COLON]
          + Write(fields[n].value)
  }

  // ---- what each piece does to the scanner ----

  lemma {:induction false} RunConcat(c: Core, a: Bytes, b: Bytes)
    ensures RunCore(c, a + b) == match RunCore(c, a) case None => None case Some(d) => RunCore(d, b)
    decreases |b|
  {
    if b == [] {
      assert a + b == a;
    } else {
      var n := |b| - 1;
      assert (a + b)[..|a + b| - 1] == a + b[..n];
      RunConcat(c, a, b[..n]);
    }
  }

  /** Read between two values at any depth, the text leaves the scanner where it was. */
  ghost predicate Neutral(s: Bytes) {
    forall depth: nat | depth >= 1 :: RunCore(Core(depth, false, false), s) == Some(Core(depth, false, false))
  }

  lemma NeutralConcat(a: Bytes, b: Bytes)
    requires Neutral(a) && Neutral(b)
    ensures Neutral(a + b)
  {
    forall depth: nat | depth >= 1
      ensures RunCore(Core(depth, false, false), a + b) == Some(Core(depth, false, false)) {
      RunConcat(Core(depth, false, false), a, b);
    }
  }

  lemma RunOne(c: Core, b: byte)
    ensures RunCore(c, [b]) == if CoreStep(c, b).Goes? then Some(CoreStep(c, b).core) else None
  {
    assert [b][..0] == [];
  }

  lemma {:induction false} OrdinaryIsNeutral(s: Bytes)
    requires forall b | b in s :: b != QUOTE && b != OPEN && b != CLOSE && b != LF
    ensures Neutral(s)
  {
    if s != [] {
      var n := |s| - 1;
      assert s == s[..n] + [s[n]];
      assert s[n] in s;
      forall b | b in s[..n] ensures b != QUOTE && b != OPEN && b != CLOSE && b != LF { assert b in s; }
      OrdinaryIsNeutral(s[..n]);
      forall depth: nat | depth >= 1 { RunOne(Core(depth, false, false), s[n]); }
      NeutralConcat(s[..n], [s[n]]);
    }
  }

  lemma {:induction false} HexInString(hex: Bytes, depth: nat)
    requires forall h | h in hex :: IsHex(h)
    ensures RunCore(Core(depth, true, false), hex) == Some(Core(depth, true, false))
  {
    if hex != [] {
      var n := |hex| - 1;
      assert hex[n] in hex;
      forall h | h in hex[..n] ensures IsHex(h) { assert h in hex; }
      HexInString(hex[..n], depth);
    }
  }

  lemma LetterInString(l: Letter, depth: nat)
    requires LegalLetter(l)
    ensures RunCore(Core(depth, true, false), WriteLetter(l)) == Some(Core(depth, true, false))
  {
    var c := Core(depth, true, false);
    match l {
      case Plain(b) => RunOne(c, b);
      case Short(b) =>
        RunOne(c, BACKSLASH);
        RunOne(Core(depth, true, true), b);
        RunConcat(c, [BACKSLASH], [b]);
        assert [BACKSLASH] + [b] == [BACKSLASH, b];
      case Unicode(hex) =>
        RunOne(c, BACKSLASH);
        RunOne(Core(depth, true, true), UNICODE_MARK);
        RunConcat(c, [BACKSLASH], [UNICODE_MARK]);
        assert [BACKSLASH] + [UNICODE_MARK] == [BACKSLASH, UNICODE_MARK];
        HexInString(hex, depth);
        RunConcat(c, [BACKSLASH, UNICODE_MARK], hex);
    }
  }

  lemma {:induction false} LettersInString(s: seq<Letter>, depth: nat)
    requires LegalString(s)
    ensures RunCore(Core(depth, true, false), WriteLetters(s)) == Some(Core(depth, true, false))
  {
    if s != [] {
      var n := |s| - 1;
      assert s[n] in s;
      forall l | l in s[..n] ensures LegalLetter(l) { assert l in s; }
      LettersInString(s[..n], depth);
      LetterInString(s[n], depth);
      RunConcat(Core(depth, true, false), WriteLetters(s[..n]), WriteLetter(s[n]));
    }
  }

  lemma StringIsNeutral(s: seq<Letter>)
    requires LegalString(s)
    ensures Neutral(WriteString(s))
  {
    forall depth: nat | depth >= 1
      ensures RunCore(Core(depth, false, false), WriteString(s)) == Some(Core(depth, false, false))
    {
      var c := Core(depth, false, false);
      RunOne(c, QUOTE);
      LettersInString(s, depth);
      RunConcat(c, [QUOTE], WriteLetters(s));
      RunOne(Core(depth, true, false), QUOTE);
      RunConcat(c, [QUOTE] + WriteLetters(s), [QUOTE]);
    }
  }

  lemma {:induction false} ValueIsNeutral(v: Json)
    requires Legal(v)
    ensures Neutral(Write(v))
    decreases v, 1
  {
    match v {
      case Token(text) => OrdinaryIsNeutral(text);
      case Text(letters) => StringIsNeutral(letters);
      case Array(items) =>
        ItemsAreNeutral(items);
        OrdinaryIsNeutral([0x5B]);
        OrdinaryIsNeutral([0x5D]);
        NeutralConcat([0x5B], WriteItems(items));
        NeutralConcat([0x5B] + WriteItems(items), [0x5D]);
      case Dict(fields) =>
        FieldsAreNeutral(fields);
        BracesAreNeutral(WriteFields(fields));
    }
  }

  lemma BracesAreNeutral(s: Bytes)
    requires Neutral(s)
    ensures Neutral([OPEN] + s + [CLOSE])
  {
    forall depth: nat | depth >= 1
      ensures RunCore(Core(depth, false, false), [OPEN] + s + [CLOSE]) == Some(Core(depth, false, false))
    {
      var c := Core(depth, false, false);
      RunOne(c, OPEN);
      RunConcat(c, [OPEN], s);
      RunOne(Core(depth + 1, false, false), CLOSE);
      RunConcat(c, [OPEN] + s, [CLOSE]);
    }
  }

  lemma JoinedIsNeutral(a: Bytes, mark: Bytes, b: Bytes)
    requires Neutral(a) && Neutral(b) && mark in [[], [COMMA], [COLON]]
    ensures Neutral(a + mark + b)
  {
    OrdinaryIsNeutral(mark);
    NeutralConcat(a, mark);
    NeutralConcat(a + mark, b);
  }

  lemma {:induction false} ItemsAreNeutral(items: seq<Json>)
    requires forall i | 0 <= i < |items| :: Legal(items[i])
    ensures Neutral(WriteItems(items))
    decreases items, 0
  {
    if items == [] {
      OrdinaryIsNeutral([]);
    } else {
      var n := |items| - 1;
      var init, last := items[..n], items[n];
      ItemsAreNeutral(init);
      ValueIsNeutral(last);
      var head, comma, tail := WriteItems(init), if n == 0 then [] else [COMMA], Write(last);
      JoinedIsNeutral(head, comma, tail);
      assert WriteItems(items) == head + comma + tail;
    }
  }

  lemma {:induction false} FieldsAreNeutral(fields: seq<Field>)
    requires forall i | 0 <= i < |fields| :: LegalString(fields[i].name) && Legal(fields[i].value)
    ensures Neutral(WriteFields(fields))
    decreases fields, 0
  {
    if fields == [] {
      OrdinaryIsNeutral([]);
    } else {
      var n := |fields| - 1;
      FieldsAreNeutral(fields[..n]);
      FieldIsNeutral(WriteFields(fields[..n]), if n == 0 then [] else [COMMA], fields[n].name,
                     Write(fields[n].value)) by {
        ValueIsNeutral(fields[n].value);
      }
    }
  }

  lemma FieldIsNeutral(head: Bytes, comma: Bytes, name: seq<Letter>, value: Bytes)
    requires Neutral(head) && comma in [[], [COMMA]] && LegalString(name) && Neutral(value)
    ensures Neutral(head + comma + WriteString(name) + [COLON] + value)
  {
    StringIsNeutral(name);
    JoinedIsNeutral(head, comma, WriteString(name));
    JoinedIsNeutral(head + comma + WriteString(name), [COLON], value);
  }

  /** Every compact JSON object is one balanced object text. */
  lemma ObjectIsBalanced(fields: seq<Field>)
    requires Legal(Dict(fields))
    ensures Balanced(Write(Dict(fields)))
  {
    FieldsAreNeutral(fields);
    var raw := Write(Dict(fields));
    assert raw[1..|raw| - 1] == WriteFields(fields);
  }

  function Pieces(objects: seq<(seq<Field>, Bytes)>): seq<Piece> {
    if objects == [] then []
    else
      var last := objects[|objects| - 1];
      Pieces(objects[..|objects| - 1]) + [Piece(Write(Dict(last.0)), last.1)]
  }

  lemma {:induction false} PiecesOk(objects: seq<(seq<Field>, Bytes)>, isJson: Parser)
    requires forall o | o in objects :: Legal(Dict(o.0)) && isJson(Write(Dict(o.0))) && AllBlank(o.1)
    ensures forall p | p in Pieces(objects) :: ObjectText(isJson, p.raw) && AllBlank(p.gap)
  {
    if objects != [] {
      var init, last := objects[..|objects| - 1], objects[|objects| - 1];
      assert last in objects;
      forall o | o in init ensures o in objects {}
      PiecesOk(init, isJson);
      ObjectIsBalanced(last.0);
    }
  }

  /** Any compact JSON objects written one after the other, with or without blanks between them, are
      split back into exactly those objects by every parser that accepts them. */
  lemma ConcatenatedObjectsComeApart(objects: seq<(seq<Field>, Bytes)>, isJson: Parser)
    requires forall o | o in objects :: Legal(Dict(o.0)) && isJson(Write(Dict(o.0))) && AllBlank(o.1)
    ensures Scan(Join(Pieces(objects)), isJson) == Expected(Pieces(objects))
  {
    PiecesOk(objects, isJson);
    ScanSplitsBack(Pieces(objects), isJson);
  }
}
