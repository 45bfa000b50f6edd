/** Packing ranked records into a token budget (aoms/recall.py BudgetPacker). */
module Packer {
  import opened Common
  import opened Fences
  import Bisection

  datatype Tokenizer = Tokenizer(count: string -> nat, encode: string -> seq<nat>, decode: seq<nat> -> string)

  datatype Ranked = Ranked(source: Source, content: string)

  /** `rank` is the position of the packed record among the ranked ones. */
  datatype Packed = Packed(rank: nat, block: string, tokenCost: int, excerpt: string, truncated: bool)

  const SEPARATOR := "\n\n"

  function Join(blocks: seq<string>): string {
    if blocks == [] then ""
    else if |blocks| == 1 then blocks[0]
    else Join(blocks[..|blocks| - 1]) + SEPARATOR + blocks[|blocks| - 1]
  }

  function Blocks(packed: seq<Packed>): seq<string> {
    seq(|packed|, i requires 0 <= i < |packed| => packed[i].block)
  }

  function Context(packed: seq<Packed>): string { Join(Blocks(packed)) }

  function Excerpt(s: string): string { if |s| <= 240 then s else s[..240] }

  /** The context is the first block, and each further one behind a blank line. */
  lemma ContextIs(packed: seq<Packed>, p: Packed)
    ensures Context([]) == ""
    ensures Context(packed + [p]) == (if packed == [] then p.block else Context(packed) + "\n\n" + p.block)
  {
    BlocksSnoc(packed, p);
    var blocks := Blocks(packed) + [p.block];
    assert blocks[..|blocks| - 1] == Blocks(packed);
  }

  lemma ExcerptIs(s: string)
    ensures Excerpt(s) <= s && |Excerpt(s)| == if |s| < 240 then |s| else 240
  {}

  // ---- truncation ----

  function CutTo(tok: Tokenizer, item: Ranked, n: nat): string
    requires n <= |tok.encode(item.content)|
  {
    tok.decode(tok.encode(item.content)[..n])
  }

  function Cut(item: Ranked, excerpt: string): string { CutBlock(item.source, item.content, excerpt) }

  predicate Fits(tok: Tokenizer, budget: nat, item: Ranked, n: nat) {
    n <= |tok.encode(item.content)| && tok.count(Cut(item, CutTo(tok, item, n))) <= budget
  }

  /** A cut that fits while the next longer one does not. */
  predicate EdgeAt(tok: Tokenizer, budget: nat, item: Ranked, n: nat) {
    Fits(tok, budget, item, n) && !Fits(tok, budget, item, n + 1)
  }

  /** What the truncation yields: an edge, or the empty excerpt when not even the empty cut fits. */
  ghost predicate GoodCut(tok: Tokenizer, budget: nat, item: Ranked, excerpt: string) {
    && tok.count(Cut(item, excerpt)) <= budget
    && ((exists n: nat :: EdgeAt(tok, budget, item, n) && excerpt == CutTo(tok, item, n))
        || (excerpt == "" && !Fits(tok, budget, item, 0)))
  }

  /** The cut to `n` tokens, with its block. */
  function CutAt(tok: Tokenizer, item: Ranked, width: nat, n: nat): Bisection.Cut {
    var encoded := tok.encode(item.content);
    var excerpt := if n <= |encoded| then tok.decode(encoded[..n]) else "";
    Bisection.Cut(Render(Dump(Shown(item.source, excerpt, true)), width), excerpt)
  }

  lemma FoundIsGood(tok: Tokenizer, budget: nat, item: Ranked, best: Bisection.Cut)
    requires var at := (n: nat) => CutAt(tok, item, CutFence(item.source, item.content), n);
             Bisection.Found(tok.count, budget, |tok.encode(item.content)|, at, Bisection.Cut(Cut(item, ""), ""), best)
    ensures best.block == Cut(item, best.excerpt) && GoodCut(tok, budget, item, best.excerpt)
  {
    var at := (n: nat) => CutAt(tok, item, CutFence(item.source, item.content), n);
    var size := |tok.encode(item.content)|;
    assert forall n: nat :: Bisection.Fits(tok.count, budget, size, at, n) <==> Fits(tok, budget, item, n);
    if n: nat :| Bisection.EdgeAt(tok.count, budget, size, at, n) && best == at(n) {
      assert EdgeAt(tok, budget, item, n);
    }
  }

  /** A record too long to pack whole, cut by binary search to a prefix of its tokens. */
  method TruncateFirstRecord(tok: Tokenizer, item: Ranked, budget: nat) returns (cut: Option<Bisection.Cut>)
    ensures cut.None? <==> tok.count(Cut(item, "")) > budget
    ensures cut.Some? ==>
              cut.value.block == Cut(item, cut.value.excerpt) && GoodCut(tok, budget, item, cut.value.excerpt)
  {
    var size := |tok.encode(item.content)|;
    var width := FenceLength(Dump(Measured(item.source, item.content)));
    var empty := Bisection.Cut(Render(Dump(Shown(item.source, "", true)), width), "");
    if tok.count(empty.block) > budget {
      return None;
    }
    var best := Bisection.Search(tok.count, budget, size, (n: nat) => CutAt(tok, item, width, n), empty);
    FoundIsGood(tok, budget, item, best);
    return Some(best);
  }

  /** Longer cuts never count less. */
  ghost predicate CountsGrow(tok: Tokenizer, item: Ranked) {
    forall m, n | 0 <= m <= n <= |tok.encode(item.content)| ::
      tok.count(Cut(item, CutTo(tok, item, m))) <= tok.count(Cut(item, CutTo(tok, item, n)))
  }

  /** With counts that grow, an edge is the longest prefix that fits. */
  lemma EdgeIsLongest(tok: Tokenizer, budget: nat, item: Ranked, n: nat)
    requires CountsGrow(tok, item) && EdgeAt(tok, budget, item, n)
    ensures forall m: nat :: Fits(tok, budget, item, m) <==> m <= n
  {
    forall m: nat ensures Fits(tok, budget, item, m) <==> m <= n {
      if m <= n {
        assert tok.count(Cut(item, CutTo(tok, item, m))) <= tok.count(Cut(item, CutTo(tok, item, n)));
      } else if m <= |tok.encode(item.content)| {
        assert tok.count(Cut(item, CutTo(tok, item, n + 1))) <= tok.count(Cut(item, CutTo(tok, item, m)));
      }
    }
  }

  /** With counts that grow, and a decoder that gives the empty text for no tokens, the truncation keeps
      the longest prefix of tokens that fits. */
  lemma CutIsLongest(tok: Tokenizer, budget: nat, item: Ranked, excerpt: string)
    requires CountsGrow(tok, item) && tok.decode([]) == "" && GoodCut(tok, budget, item, excerpt)
    ensures exists n: nat :: Fits(tok, budget, item, n) && excerpt == CutTo(tok, item, n)
                             && forall m: nat :: Fits(tok, budget, item, m) <==> m <= n
  {
    assert tok.encode(item.content)[..0] == [];
    assert CutTo(tok, item, 0) == "";
    if Fits(tok, budget, item, 0) {
      var n: nat :| EdgeAt(tok, budget, item, n) && excerpt == CutTo(tok, item, n);
      EdgeIsLongest(tok, budget, item, n);
    }
  }

  // ---- what a packing is ----

  ghost function Full(item: Ranked): string { FullBlock(item.source, item.content) }

  /** Token costs are the growth of the exact count, block by block. */
  ghost predicate CostsExact(tok: Tokenizer, packed: seq<Packed>) {
    forall k | 0 <= k < |packed| ::
      packed[k].tokenCost == tok.count(Context(packed[..k + 1])) - tok.count(Context(packed[..k]))
  }

  /** A complete block is the record's own; a cut one stands only where the complete one did not fit. */
  ghost predicate BlockRight(tok: Tokenizer, budget: nat, item: Ranked, p: Packed) {
    if p.truncated then
      tok.count(Full(item)) > budget
      && exists excerpt: string :: p.block == Cut(item, excerpt) && GoodCut(tok, budget, item, excerpt)
          && p.excerpt == Excerpt(excerpt)
    else p.block == Full(item) && p.excerpt == Excerpt(item.content)
  }

  ghost predicate Placed(tok: Tokenizer, budget: nat, ranked: seq<Ranked>, p: Packed) {
    p.rank < |ranked| && BlockRight(tok, budget, ranked[p.rank], p)
  }

  ghost predicate AllPlaced(tok: Tokenizer, budget: nat, ranked: seq<Ranked>, packed: seq<Packed>) {
    forall p | p in packed :: Placed(tok, budget, ranked, p)
  }

  /** In ranking order, and only the first one possibly cut. */
  predicate InOrder(packed: seq<Packed>) {
    && (forall j, k | 0 <= j < k < |packed| :: packed[j].rank < packed[k].rank)
    && (forall k | 0 < k < |packed| :: !packed[k].truncated)
  }

  ghost predicate BlocksRight(tok: Tokenizer, budget: nat, ranked: seq<Ranked>, packed: seq<Packed>) {
    AllPlaced(tok, budget, ranked, packed) && InOrder(packed)
  }

  predicate IsPacked(packed: seq<Packed>, i: nat) { exists k :: 0 <= k < |packed| && packed[k].rank == i }

  /** The blocks packed before rank `i`. */
  predicate SplitsAt(packed: seq<Packed>, i: nat, k: nat) {
    && k <= |packed|
    && (forall j | 0 <= j < k :: packed[j].rank < i)
    && (forall j | k <= j < |packed| :: i < packed[j].rank)
  }

  /** A record was left out only because its complete block did not fit behind those already packed,
      and with nothing packed not even its empty wrapper did. */
  ghost predicate LeftOutRightly(tok: Tokenizer, budget: nat, ranked: seq<Ranked>, packed: seq<Packed>, i: nat)
    requires i < |ranked|
  {
    forall k: nat | SplitsAt(packed, i, k) :: NoRoom(tok, budget, Blocks(packed[..k]), ranked[i])
  }

  ghost predicate NoRoom(tok: Tokenizer, budget: nat, blocks: seq<string>, item: Ranked) {
    && tok.count(Join(blocks + [Full(item)])) > budget
    && (blocks == [] ==> tok.count(Cut(item, "")) > budget)
  }

  ghost predicate Packing(tok: Tokenizer, budget: nat, ranked: seq<Ranked>, packed: seq<Packed>,
                          rejected: set<string>) {
    && CostsExact(tok, packed) && BlocksRight(tok, budget, ranked, packed)
    && tok.count(Context(packed)) <= budget
    && rejected == RejectedIds(ranked, packed)
    && forall i: nat | i < |ranked| && !IsPacked(packed, i) :: LeftOutRightly(tok, budget, ranked, packed, i)
  }

  ghost function RejectedIds(ranked: seq<Ranked>, packed: seq<Packed>): set<string> {
    set i: nat | i < |ranked| && !IsPacked(packed, i) :: ranked[i].source.id
  }

  // ---- one more record ----

  lemma BlocksSnoc(packed: seq<Packed>, p: Packed)
    ensures Blocks(packed + [p]) == Blocks(packed) + [p.block]
    ensures (packed + [p])[..|packed|] == packed && (packed + [p])[..|packed| + 1] == packed + [p]
  {}

  lemma CostsSnoc(tok: Tokenizer, packed: seq<Packed>, p: Packed)
    requires CostsExact(tok, packed)
    requires p.tokenCost == tok.count(Join(Blocks(packed) + [p.block])) - tok.count(Context(packed))
    ensures CostsExact(tok, packed + [p])
  {
    BlocksSnoc(packed, p);
    var all := packed + [p];
    forall k | 0 <= k < |all|
      ensures all[k].tokenCost == tok.count(Context(all[..k + 1])) - tok.count(Context(all[..k])) {
      if k < |packed| {
        assert all[..k + 1] == packed[..k + 1] && all[..k] == packed[..k];
      }
    }
  }

  lemma PlacedAmong(tok: Tokenizer, budget: nat, ranked: seq<Ranked>, item: Ranked, q: Packed)
    requires Placed(tok, budget, ranked, q)
    ensures Placed(tok, budget, ranked + [item], q)
  {
    assert (ranked + [item])[q.rank] == ranked[q.rank];
  }

  lemma PlacedLast(tok: Tokenizer, budget: nat, ranked: seq<Ranked>, item: Ranked, p: Packed)
    requires p.rank == |ranked| && BlockRight(tok, budget, item, p)
    ensures Placed(tok, budget, ranked + [item], p)
  {
    assert (ranked + [item])[p.rank] == item;
  }

  lemma OrderSnoc(packed: seq<Packed>, p: Packed)
    requires InOrder(packed) && (forall q | q in packed :: q.rank < p.rank) && (p.truncated ==> packed == [])
    ensures InOrder(packed + [p])
  {}

  lemma RightSnoc(tok: Tokenizer, budget: nat, ranked: seq<Ranked>, packed: seq<Packed>, item: Ranked, p: Packed)
    requires BlocksRight(tok, budget, ranked, packed) && p.rank == |ranked|
    requires BlockRight(tok, budget, item, p) && (p.truncated ==> packed == [])
    ensures BlocksRight(tok, budget, ranked + [item], packed + [p])
  {
    OrderSnoc(packed, p);
    forall q | q in packed + [p] ensures Placed(tok, budget, ranked + [item], q) {
      if q in packed { PlacedAmong(tok, budget, ranked, item, q); } else { PlacedLast(tok, budget, ranked, item, q); }
    }
  }

  lemma LeftOutSnoc(tok: Tokenizer, budget: nat, ranked: seq<Ranked>, packed: seq<Packed>, item: Ranked, p: Packed,
                    i: nat)
    requires p.rank == |ranked| && i < |ranked| && LeftOutRightly(tok, budget, ranked, packed, i)
    ensures LeftOutRightly(tok, budget, ranked + [item], packed + [p], i)
  {
    forall k: nat | SplitsAt(packed + [p], i, k)
      ensures NoRoom(tok, budget, Blocks((packed + [p])[..k]), (ranked + [item])[i])
    {
      SplitBefore(packed, p, i, k);
    }
  }

  lemma PackOne(tok: Tokenizer, budget: nat, ranked: seq<Ranked>, packed: seq<Packed>, rejected: set<string>,
                item: Ranked, p: Packed)
    requires Packing(tok, budget, ranked, packed, rejected) && p.rank == |ranked|
    requires tok.count(Join(Blocks(packed) + [p.block])) <= budget
    requires p.tokenCost == tok.count(Join(Blocks(packed) + [p.block])) - tok.count(Context(packed))
    requires BlockRight(tok, budget, item, p) && (p.truncated ==> packed == [])
    ensures Packing(tok, budget, ranked + [item], packed + [p], rejected)
  {
    BlocksSnoc(packed, p);
    CostsSnoc(tok, packed, p);
    RightSnoc(tok, budget, ranked, packed, item, p);
    PackedNow(ranked, packed, item, p);
    forall i: nat | i < |ranked + [item]| && !IsPacked(packed + [p], i)
      ensures LeftOutRightly(tok, budget, ranked + [item], packed + [p], i)
    {
      LeftOutSnoc(tok, budget, ranked, packed, item, p, i);
    }
  }

  lemma SplitBefore(packed: seq<Packed>, p: Packed, i: nat, k: nat)
    requires i < p.rank && SplitsAt(packed + [p], i, k)
    ensures SplitsAt(packed, i, k) && (packed + [p])[..k] == packed[..k]
  {
    var all := packed + [p];
    assert all[|packed|] == p;
    assert forall j | 0 <= j < |packed| :: all[j] == packed[j];
  }

  lemma PackedNow(ranked: seq<Ranked>, packed: seq<Packed>, item: Ranked, p: Packed)
    requires p.rank == |ranked| && forall q | q in packed :: q.rank < |ranked|
    ensures forall i: nat | i < |ranked| :: IsPacked(packed + [p], i) <==> IsPacked(packed, i)
    ensures IsPacked(packed + [p], |ranked|)
    ensures RejectedIds(ranked + [item], packed + [p]) == RejectedIds(ranked, packed)
  {
    var all, more := packed + [p], ranked + [item];
    assert all[|packed|] == p;
    forall i: nat | i < |ranked| ensures IsPacked(all, i) <==> IsPacked(packed, i) {
      if IsPacked(packed, i) {
        var k :| 0 <= k < |packed| && packed[k].rank == i;
        assert all[k].rank == i;
      }
    }
    assert forall i: nat | i < |ranked| :: more[i] == ranked[i];
  }

  lemma RejectSnoc(ranked: seq<Ranked>, packed: seq<Packed>, item: Ranked)
    requires forall p | p in packed :: p.rank < |ranked|
    ensures !IsPacked(packed, |ranked|)
    ensures RejectedIds(ranked + [item], packed) == RejectedIds(ranked, packed) + {item.source.id}
  {
    var more := ranked + [item];
    assert forall i: nat | i < |ranked| :: more[i] == ranked[i];
    assert more[|ranked|] == item && !IsPacked(packed, |ranked|);
  }

  lemma SplitLast(packed: seq<Packed>, i: nat, k: nat)
    requires forall p | p in packed :: p.rank < i
    ensures SplitsAt(packed, i, k) ==> k == |packed|
  {
    if k < |packed| { assert packed[k] in packed; }
  }

  lemma LeftOutLast(tok: Tokenizer, budget: nat, ranked: seq<Ranked>, packed: seq<Packed>, item: Ranked)
    requires forall p | p in packed :: p.rank < |ranked|
    requires NoRoom(tok, budget, Blocks(packed), item)
    ensures LeftOutRightly(tok, budget, ranked + [item], packed, |ranked|)
  {
    forall k: nat | SplitsAt(packed, |ranked|, k)
      ensures NoRoom(tok, budget, Blocks(packed[..k]), (ranked + [item])[|ranked|])
    {
      SplitLast(packed, |ranked|, k);
      assert packed[..|packed|] == packed;
    }
  }

  lemma RejectOne(tok: Tokenizer, budget: nat, ranked: seq<Ranked>, packed: seq<Packed>, rejected: set<string>,
                  item: Ranked)
    requires Packing(tok, budget, ranked, packed, rejected) && NoRoom(tok, budget, Blocks(packed), item)
    ensures Packing(tok, budget, ranked + [item], packed, rejected + {item.source.id})
  {
    RejectSnoc(ranked, packed, item);
    LeftOutLast(tok, budget, ranked, packed, item);
    forall i: nat | i < |ranked| && !IsPacked(packed, i)
        ensures LeftOutRightly(tok, budget, ranked + [item], packed, i) {}
    assert BlocksRight(tok, budget, ranked + [item], packed) by {
      forall q | q in packed ensures Placed(tok, budget, ranked + [item], q) {
        PlacedAmong(tok, budget, ranked, item, q);
      }
    }
  }

  // ---- the packer ----

  /** One ranked record. `count0` is the exact count of everything packed so far. */
  method PackItem(tok: Tokenizer, budget: nat, ghost ranked: seq<Ranked>, item: Ranked, rank: nat, packed0: seq<Packed>,
                  rejected0: set<string>, count0: nat)
    returns (packed: seq<Packed>, rejected: set<string>, count: nat)
    requires rank == |ranked| && Packing(tok, budget, ranked, packed0, rejected0)
        && count0 == tok.count(Context(packed0))
    requires tok.count("") == 0
    ensures Packing(tok, budget, ranked + [item], packed, rejected) && count == tok.count(Context(packed))
  {
    packed, rejected, count := packed0, rejected0, count0;
    var full := FullBlock(item.source, item.content);
    var proposed := tok.count(Join(Blocks(packed) + [full]));
    if proposed <= budget {
      var p := Packed(rank, full, proposed - count, Excerpt(item.content), false);
      PackOne(tok, budget, ranked, packed, rejected, item, p);
      BlocksSnoc(packed, p);
      packed, count := packed + [p], proposed;
      return;
    }
    if packed == [] {
      assert Join(Blocks(packed) + [full]) == full;
      var cut := TruncateFirstRecord(tok, item, budget);
      if cut.Some? {
        var block := cut.value.block;
        var p := Packed(rank, block, tok.count(block), Excerpt(cut.value.excerpt), true);
        assert Join(Blocks(packed) + [block]) == block && Context(packed) == "";
        PackOne(tok, budget, ranked, packed, rejected, item, p);
        BlocksSnoc(packed, p);
        packed, count := packed + [p], tok.count(block);
        return;
      }
    }
    RejectOne(tok, budget, ranked, packed, rejected, item);
    rejected := rejected + {item.source.id};
  }

  /** For every tokenizer that counts nothing for the empty text: the closing assertion cannot fail, and
      the result is a packing of the whole ranking. */
  method Pack(tok: Tokenizer, budget: nat, ranked: seq<Ranked>)
    returns (context: string, packed: seq<Packed>, rejected: set<string>, exceeded: bool)
    requires tok.count("") == 0
    ensures !exceeded && context == Context(packed) && tok.count(context) <= budget
    ensures Packing(tok, budget, ranked, packed, rejected)
  {
    packed, rejected := [], {};
    var count := 0;
    for rank := 0 to |ranked|
      invariant Packing(tok, budget, ranked[..rank], packed, rejected) && count == tok.count(Context(packed))
    {
      packed, rejected, count := PackItem(tok, budget, ranked[..rank], ranked[rank], rank, packed, rejected, count);
      assert ranked[..rank] + [ranked[rank]] == ranked[..rank + 1];
    }
    assert ranked[..|ranked|] == ranked;
    context := Join(Blocks(packed));
    exceeded := tok.count(context) > budget;
  }

  // ---- what a packing means ----

  function TotalCost(packed: seq<Packed>): int {
    if packed == [] then 0 else TotalCost(packed[..|packed| - 1]) + packed[|packed| - 1].tokenCost
  }

  /** The costs recorded block by block add up to the count of the whole context. */
  lemma {:induction false} CostsAddUp(tok: Tokenizer, packed: seq<Packed>)
    requires tok.count("") == 0 && CostsExact(tok, packed)
    ensures TotalCost(packed) == tok.count(Context(packed))
  {
    if packed != [] {
      var n := |packed| - 1;
      var init := packed[..n];
      forall k | 0 <= k < n
        ensures init[k].tokenCost == tok.count(Context(init[..k + 1])) - tok.count(Context(init[..k]))
      {
        assert init[..k + 1] == packed[..k + 1] && init[..k] == packed[..k];
        assert packed[k].tokenCost == tok.count(Context(packed[..k + 1])) - tok.count(Context(packed[..k]));
      }
      CostsAddUp(tok, init);
      assert packed[..n + 1] == packed;
      assert packed[n].tokenCost == tok.count(Context(packed[..n + 1])) - tok.count(Context(packed[..n]));
    }
  }

  /** A token prefix decodes to a prefix of the content, up to characters other than backticks. */
  ghost predicate DecodesPrefixes(tok: Tokenizer, item: Ranked) {
    forall n: nat | n <= |tok.encode(item.content)| :: PrefixWithTail(item.content, CutTo(tok, item, n))
  }

  ghost predicate PrefixWithTail(content: string, excerpt: string) {
    exists k: nat :: k <= |content| && k <= |excerpt| && excerpt[..k] == content[..k] && NoTick(excerpt[k..])
  }

  lemma PrefixRunsNoLonger(content: string, excerpt: string)
    requires PrefixWithTail(content, excerpt)
    ensures MaxRun(excerpt) <= MaxRun(content)
  {
    var k: nat :| k <= |content| && k <= |excerpt| && excerpt[..k] == content[..k] && NoTick(excerpt[k..]);
    assert excerpt == content[..k] + excerpt[k..];
    AppendPlain(content[..k], excerpt[k..]);
    PrefixRuns(content, k);
  }

  /** The block encloses `text` in its fence: the shown fields of the record, with the content or with the part
      of it the block was cut to. */
  ghost predicate Encloses(p: Packed, item: Ranked, text: string) {
    && Fenced(p.block, text)
    && exists shown: string ::
         && text == Dump(Shown(item.source, shown, p.truncated)) && p.excerpt == Excerpt(shown)
         && (!p.truncated ==> shown == item.content)
  }

  lemma FullIsFenced(item: Ranked)
    ensures Fenced(Full(item), Dump(Shown(item.source, item.content, false)))
  {
    FullFenceHolds(item.source, item.content);
    var payload := Dump(Shown(item.source, item.content, false));
    RenderFences(payload, Fence(payload));
  }

  lemma CutIsFenced(item: Ranked, excerpt: string)
    requires MaxRun(excerpt) <= MaxRun(item.content)
    ensures Fenced(Cut(item, excerpt), Dump(Shown(item.source, excerpt, true)))
  {
    CutFenceHolds(item.source, item.content, excerpt);
    RenderFences(Dump(Shown(item.source, excerpt, true)), CutFence(item.source, item.content));
  }

  lemma GoodCutRuns(tok: Tokenizer, budget: nat, item: Ranked, excerpt: string)
    requires DecodesPrefixes(tok, item) && GoodCut(tok, budget, item, excerpt)
    ensures MaxRun(excerpt) <= MaxRun(item.content)
  {
    if excerpt != "" {
      var n: nat :| EdgeAt(tok, budget, item, n) && excerpt == CutTo(tok, item, n);
      PrefixRunsNoLonger(item.content, excerpt);
    }
  }

  lemma BlockIsFenced(tok: Tokenizer, budget: nat, item: Ranked, p: Packed) returns (text: string)
    requires BlockRight(tok, budget, item, p) && (p.truncated ==> DecodesPrefixes(tok, item))
    ensures Encloses(p, item, text)
  {
    if p.truncated {
      var excerpt: string :| p.block == Cut(item, excerpt) && GoodCut(tok, budget, item, excerpt)
                             && p.excerpt == Excerpt(excerpt);
      GoodCutRuns(tok, budget, item, excerpt);
      CutIsFenced(item, excerpt);
      text := Dump(Shown(item.source, excerpt, true));
    } else {
      FullIsFenced(item);
      text := Dump(Shown(item.source, item.content, false));
    }
  }

  /** Nothing inside a complete block can close its fence, whatever the tokenizer; nor inside a cut one, if
      prefixes of its tokens decode to prefixes of its content. */
  lemma PackedBlocksAreFenced(tok: Tokenizer, budget: nat, ranked: seq<Ranked>, packed: seq<Packed>)
    requires BlocksRight(tok, budget, ranked, packed)
    ensures forall k | 0 <= k < |packed| ::
              && packed[k].rank < |ranked|
              && (!packed[k].truncated || DecodesPrefixes(tok, ranked[packed[k].rank]) ==>
                    exists text :: Encloses(packed[k], ranked[packed[k].rank], text))
  {
    forall k | 0 <= k < |packed|
      ensures packed[k].rank < |ranked|
      ensures !packed[k].truncated || DecodesPrefixes(tok, ranked[packed[k].rank]) ==>
                exists text :: Encloses(packed[k], ranked[packed[k].rank], text)
    {
      assert Placed(tok, budget, ranked, packed[k]);
      if !packed[k].truncated || DecodesPrefixes(tok, ranked[packed[k].rank]) {
        var text := BlockIsFenced(tok, budget, ranked[packed[k].rank], packed[k]);
      }
    }
  }
}
