/** The kernel heap as a list of blocks: first fit, splitting and coalescing. */
module HeapBlocks {
  import opened Wrappers

  /** HEAP_START, HEAP_SIZE, and the size of a header, which is also the alignment. */
  const START := 0x0130_0000
  const SIZE := 0x1000_0000 - 0x0130_0000
  const HEADER := 16

  /** The first block is given the whole heap size after its header. */
  const LIMIT := START + HEADER + SIZE

  lemma {:induction false} Consts()
    ensures START == 0x0130_0000 && SIZE == 0x0ED0_0000 && HEADER == 16 && LIMIT == 0x1000_0010
  {
  }

  datatype Block = Block(addr: int, size: int, free: bool)

  function Payload(b: Block): int { b.addr + HEADER }

  function End(b: Block): int { b.addr + HEADER + b.size }

  // ----- shape -----

  predicate BlockOk(b: Block) {
    b.addr % HEADER == 0 && b.size % HEADER == 0 && START <= b.addr && 0 <= b.size && End(b) <= LIMIT
  }

  /** Blocks in address order, none reaching into the next. */
  predicate Ordered(bs: seq<Block>) {
    && (forall i | 0 <= i < |bs| :: BlockOk(bs[i]))
    && forall i | 0 <= i < |bs| - 1 :: Follows(bs[i], bs[i + 1])
  }

  predicate Follows(a: Block, b: Block) { End(a) <= b.addr }

  /** No two neighbours are both free. */
  predicate NoTwins(bs: seq<Block>) {
    forall i | 0 <= i < |bs| - 1 :: Alternate(bs[i], bs[i + 1])
  }

  predicate Alternate(a: Block, b: Block) { !(a.free && b.free) }

  predicate Shape(bs: seq<Block>) {
    bs != [] && bs[0].addr == START && Ordered(bs) && NoTwins(bs)
  }

  lemma {:induction false} OrderedApart(bs: seq<Block>, i: nat, j: nat)
    requires Ordered(bs) && i < j < |bs|
    ensures End(bs[i]) <= bs[j].addr
    decreases j
  {
    assert Follows(bs[j - 1], bs[j]) && BlockOk(bs[j - 1]);
    if i < j - 1 {
      OrderedApart(bs, i, j - 1);
    }
  }

  /** No two blocks share a byte, headers included; so no two allocations do. */
  lemma {:induction false} BlocksDisjoint(bs: seq<Block>, i: nat, j: nat)
    requires Ordered(bs) && i < |bs| && j < |bs| && i != j
    ensures End(bs[i]) <= bs[j].addr || End(bs[j]) <= bs[i].addr
    ensures bs[i].addr != bs[j].addr
  {
    assert BlockOk(bs[i]) && BlockOk(bs[j]);
    if i < j { OrderedApart(bs, i, j); } else { OrderedApart(bs, j, i); }
  }

  lemma {:induction false} OrderedConcat(a: seq<Block>, b: seq<Block>)
    ensures Ordered(a + b) <==> Ordered(a) && Ordered(b) && (a != [] && b != [] ==> Follows(a[|a| - 1], b[0]))
  {
    var c := a + b;
    hide BlockOk, Follows;
    if Ordered(c) {
      forall i | 0 <= i < |a| ensures BlockOk(a[i]) { assert c[i] == a[i]; }
      forall i | 0 <= i < |b| ensures BlockOk(b[i]) { assert c[|a| + i] == b[i]; }
      forall i | 0 <= i < |a| - 1 ensures Follows(a[i], a[i + 1]) { assert Follows(c[i], c[i + 1]); }
      forall i | 0 <= i < |b| - 1 ensures Follows(b[i], b[i + 1]) { assert Follows(c[|a| + i], c[|a| + i + 1]); }
      if a != [] && b != [] { assert Follows(c[|a| - 1], c[|a| - 1 + 1]); }
    }
  }

  lemma {:induction false} NoTwinsConcat(a: seq<Block>, b: seq<Block>)
    ensures NoTwins(a + b) <==> NoTwins(a) && NoTwins(b) && (a != [] && b != [] ==> Alternate(a[|a| - 1], b[0]))
  {
    var c := a + b;
    hide Alternate;
    if NoTwins(c) {
      forall i | 0 <= i < |a| - 1 ensures Alternate(a[i], a[i + 1]) { assert Alternate(c[i], c[i + 1]); }
      forall i | 0 <= i < |b| - 1 ensures Alternate(b[i], b[i + 1]) { assert Alternate(c[|a| + i], c[|a| + i + 1]); }
      if a != [] && b != [] { assert Alternate(c[|a| - 1], c[|a| - 1 + 1]); }
    }
  }

  // ----- sums -----

  function UsedSize(bs: seq<Block>): int {
    if bs == [] then 0 else (if bs[0].free then 0 else bs[0].size) + UsedSize(bs[1..])
  }

  /** Payload and header bytes of all the blocks. */
  function Weight(bs: seq<Block>): int {
    if bs == [] then 0 else bs[0].size + HEADER + Weight(bs[1..])
  }

  /** The blocks in use. */
  function Used(bs: seq<Block>): set<Block> {
    set b | b in bs && !b.free
  }

  lemma {:induction false} SumsConcat(a: seq<Block>, b: seq<Block>)
    ensures UsedSize(a + b) == UsedSize(a) + UsedSize(b)
    ensures Weight(a + b) == Weight(a) + Weight(b)
    decreases |a|
  {
    if a == [] {
      assert a + b == b;
    } else {
      assert (a + b)[0] == a[0] && (a + b)[1..] == a[1..] + b;
      SumsConcat(a[1..], b);
    }
  }

  lemma {:induction false} SumsOne(b: Block)
    ensures UsedSize([b]) == (if b.free then 0 else b.size) && Weight([b]) == b.size + HEADER
  {
    assert [b][1..] == [];
  }

  lemma {:induction false} SumsTwo(a: Block, b: Block)
    ensures UsedSize([a, b]) == (if a.free then 0 else a.size) + (if b.free then 0 else b.size)
    ensures Weight([a, b]) == a.size + b.size + 2 * HEADER
  {
    assert [a, b] == [a] + [b];
    SumsConcat([a], [b]);
    SumsOne(a);
    SumsOne(b);
  }

  lemma {:induction false} UsedConcat(a: seq<Block>, b: seq<Block>)
    ensures Used(a + b) == Used(a) + Used(b)
  {
  }

  /** The blocks, with their headers, fit the heap; so no sum of sizes wraps. */
  lemma {:induction false} WeightBound(bs: seq<Block>)
    requires Ordered(bs) && bs != []
    ensures 0 <= UsedSize(bs) && UsedSize(bs) + HEADER <= Weight(bs) <= End(bs[|bs| - 1]) - bs[0].addr <= LIMIT - START
    decreases |bs|
  {
    assert BlockOk(bs[0]) && BlockOk(bs[|bs| - 1]);
    if |bs| > 1 {
      var rest := bs[1..];
      assert [bs[0]] + rest == bs;
      OrderedConcat([bs[0]], rest);
      WeightBound(rest);
    }
  }

  // ----- allocation -----

  /** The request rounded up to the alignment, in 32 bits. */
  function Rounded(size: int): int
    requires 0 <= size < 0x1_0000_0000
  {
    var x := (size + HEADER - 1) % 0x1_0000_0000;
    x - x % HEADER
  }

  /** Rounding keeps the request exactly up to 2^32 - 16; above it wraps to nothing. */
  lemma {:induction false} RoundedCovers(size: int)
    requires 0 <= size < 0x1_0000_0000
    ensures Rounded(size) % HEADER == 0 && 0 <= Rounded(size) < 0x1_0000_0000
    ensures Rounded(size) >= size <==> size <= 0x1_0000_0000 - 16
    ensures size > 0x1_0000_0000 - 16 ==> Rounded(size) == 0
    ensures 1 <= size <= 0x1_0000_0000 - 16 ==> HEADER <= Rounded(size) < size + HEADER
  {
  }

  predicate Fits(b: Block, n: int) { b.free && b.size >= n }

  /** The first free block that is big enough. */
  function FirstFit(bs: seq<Block>, n: int): (r: Option<nat>)
    ensures r.Some? ==> r.value < |bs| && Fits(bs[r.value], n) && forall j | 0 <= j < r.value :: !Fits(bs[j], n)
    ensures r.None? ==> forall b | b in bs :: !Fits(b, n)
  {
    if bs == [] then None
    else if Fits(bs[0], n) then Some(0)
    else match FirstFit(bs[1..], n) case None => None case Some(i) => Some(i + 1)
  }

  predicate Splits(b: Block, n: int) { b.size >= n + n + HEADER }

  /** What becomes of the block taken for n bytes: when it splits, n more bytes are given up
      between the two parts' sizes, and stay behind the new free block as a gap. */
  function Taken(b: Block, n: int): seq<Block> {
    if Splits(b, n) then
      [Block(b.addr, n, false), Block(b.addr + HEADER + n, b.size - n - (n + HEADER), true)]
    else [b.(free := false)]
  }

  function Allocated(bs: seq<Block>, i: nat, n: int): seq<Block>
    requires i < |bs|
  {
    bs[..i] + Taken(bs[i], n) + bs[i + 1..]
  }

  lemma {:induction false} Around(bs: seq<Block>, i: nat)
    requires i < |bs|
    ensures bs == bs[..i] + [bs[i]] + bs[i + 1..]
  {
  }

  lemma {:induction false} TakenShape(b: Block, n: int)
    requires BlockOk(b) && Fits(b, n) && n >= 0 && n % HEADER == 0
    ensures var t := Taken(b, n);
            && Ordered(t) && NoTwins(t) && t[0].addr == b.addr && !t[0].free && End(t[|t| - 1]) <= End(b)
            && t[0].size >= n
  {
    var t := Taken(b, n);
    if Splits(b, n) {
      Aligned(b.addr, n, b.size);
      assert BlockOk(t[0]) && BlockOk(t[1]) && Follows(t[0], t[1]) && Alternate(t[0], t[1]);
      hide BlockOk, Follows, Alternate, Splits;
    } else {
      assert BlockOk(t[0]);
    }
  }

  lemma {:induction false} Aligned(a: int, n: int, size: int)
    requires a % HEADER == 0 && n % HEADER == 0 && size % HEADER == 0
    ensures (a + HEADER + n) % HEADER == 0 && (size - n - (n + HEADER)) % HEADER == 0
  {
    var i, j, k := a / HEADER, n / HEADER, size / HEADER;
    assert a == HEADER * i && n == HEADER * j && size == HEADER * k;
    assert a + HEADER + n == HEADER * (i + 1 + j);
    assert size - n - (n + HEADER) == HEADER * (k - j - j - 1);
  }

  /** Putting other blocks in the place of one. */
  lemma {:induction false} ReplaceOrdered(bs: seq<Block>, i: nat, t: seq<Block>)
    requires Ordered(bs) && i < |bs| && Ordered(t) && t != []
    requires t[0].addr == bs[i].addr && End(t[|t| - 1]) <= End(bs[i])
    ensures Ordered(bs[..i] + t + bs[i + 1..])
    ensures (bs[..i] + t + bs[i + 1..])[0].addr == bs[0].addr
  {
    Around(bs, i);
    var a, c := bs[..i], bs[i + 1..];
    OrderedConcat(a + [bs[i]], c);
    OrderedConcat(a, [bs[i]]);
    OrderedConcat(a, t);
    OrderedConcat(a + t, c);
    hide Ordered;
  }

  /** Allocation keeps the shape: in particular no two neighbours become free. */
  lemma {:induction false} AllocatedShape(bs: seq<Block>, i: nat, n: int)
    requires Shape(bs) && i < |bs| && Fits(bs[i], n) && n >= 0 && n % HEADER == 0
    ensures Shape(Allocated(bs, i, n))
  {
    var a, t, c := bs[..i], Taken(bs[i], n), bs[i + 1..];
    assert BlockOk(bs[i]);
    TakenShape(bs[i], n);
    ReplaceOrdered(bs, i, t);
    Around(bs, i);
    NoTwinsConcat(a + [bs[i]], c);
    NoTwinsConcat(a, [bs[i]]);
    NoTwinsConcat(a, t);
    NoTwinsConcat(a + t, c);
    hide Ordered, NoTwins, BlockOk;
  }

  /** Exactly one block more is in use; `HeapUsed` grows by its size; and the heap loses the
      rounded request once more when the block splits. */
  lemma {:induction false} AllocatedSums(bs: seq<Block>, i: nat, n: int)
    requires Ordered(bs) && i < |bs| && Fits(bs[i], n) && n >= 0
    ensures var t := Taken(bs[i], n)[0];
            && t.addr == bs[i].addr && t.size >= n && !t.free
            && Used(Allocated(bs, i, n)) == Used(bs) + {t} && t !in Used(bs)
            && UsedSize(Allocated(bs, i, n)) == UsedSize(bs) + t.size
    ensures Weight(Allocated(bs, i, n)) == Weight(bs) - (if Splits(bs[i], n) then n else 0)
  {
    var a, t, c := bs[..i], Taken(bs[i], n), bs[i + 1..];
    NotUsedYet(bs, i, t[0]);
    Around(bs, i);
    SumsConcat(a + [bs[i]], c);
    SumsConcat(a, [bs[i]]);
    SumsConcat(a + t, c);
    SumsConcat(a, t);
    SumsOne(bs[i]);
    UsedConcat(a + [bs[i]], c);
    UsedConcat(a, [bs[i]]);
    UsedConcat(a + t, c);
    UsedConcat(a, t);
    TakenSums(bs[i], n);
    hide Taken, UsedSize, Weight, Used, Ordered;
  }

  /** 16 bytes from the fresh heap cost 32, besides the new header. */
  lemma {:induction false} SplitLoses()
    ensures var bs := [Block(START, SIZE, true)];
            && Allocated(bs, 0, 16) == [Block(START, 16, false), Block(START + 32, SIZE - 48, true)]
            && Weight(Allocated(bs, 0, 16)) == Weight(bs) - 16
  {
    var bs := [Block(START, SIZE, true)];
    assert bs[..0] == [] && bs[1..] == [];
    SumsTwo(Block(START, 16, false), Block(START + 32, SIZE - 48, true));
    SumsOne(bs[0]);
  }

  /** The list after an allocation, in numbers. Up to 2^32 - 16 the request is rounded up to a
      multiple of 16. The first free block of that size splits when another such part and a
      header would fit as well. */
  lemma {:induction false} AllocatedIs(bs: seq<Block>, size: int)
    requires 0 <= size <= 0x1_0000_0000 - 16
    ensures var n := (size + 15) / 16 * 16;
            var r := FirstFit(bs, n);
            && Rounded(size) == n
            && (r.Some? ==>
                  && r.value < |bs| && bs[r.value].free && bs[r.value].size >= n
                  && (forall j | 0 <= j < r.value :: !bs[j].free || bs[j].size < n)
                  && var b := bs[r.value];
                     Allocated(bs, r.value, n) == bs[..r.value] +
                       (if b.size >= 2 * n + 16 then
                          [Block(b.addr, n, false), Block(b.addr + 16 + n, b.size - 2 * n - 16, true)]
                        else [Block(b.addr, b.size, false)]) + bs[r.value + 1..])
            && (r.None? ==> forall b | b in bs :: !b.free || b.size < n)
  {
    var n := (size + 15) / 16 * 16;
    var r := FirstFit(bs, n);
    hide FirstFit;
    if r.Some? {
      forall j | 0 <= j < r.value
        ensures !bs[j].free || bs[j].size < n
      {
        assert !Fits(bs[j], n);
      }
    } else {
      forall b | b in bs
        ensures !b.free || b.size < n
      {
        assert !Fits(b, n);
      }
    }
  }

  lemma {:induction false} NotUsedYet(bs: seq<Block>, i: nat, t: Block)
    requires Ordered(bs) && i < |bs| && bs[i].free && t.addr == bs[i].addr && !t.free
    ensures t !in Used(bs)
  {
    if t in Used(bs) {
      var j :| 0 <= j < |bs| && bs[j] == t;
      BlocksDisjoint(bs, i, j);
    }
  }

  lemma {:induction false} TakenSums(b: Block, n: int)
    requires Fits(b, n) && n >= 0
    ensures var t := Taken(b, n);
            && t[0].addr == b.addr && t[0].size >= n && !t[0].free
            && Used(t) == {t[0]} && Used([b]) == {} && UsedSize(t) == t[0].size
            && Weight(t) == b.size + HEADER - (if Splits(b, n) then n else 0)
  {
    var t := Taken(b, n);
    if Splits(b, n) {
      SumsTwo(t[0], t[1]);
    } else {
      SumsOne(t[0]);
    }
    hide UsedSize, Weight;
  }

  // ----- freeing -----

  function Merge(a: Block, b: Block): Block {
    a.(size := a.size + b.size + HEADER)
  }

  /** One pass over the whole list: a free block swallows its free neighbours. */
  function Coalesced(bs: seq<Block>): seq<Block>
    decreases |bs|
  {
    if |bs| < 2 then bs
    else if bs[0].free && bs[1].free then Coalesced([Merge(bs[0], bs[1])] + bs[2..])
    else [bs[0]] + Coalesced(bs[1..])
  }

  lemma {:induction false} MergeOrdered(bs: seq<Block>)
    requires Ordered(bs) && |bs| >= 2 && bs[0].free && bs[1].free
    ensures Ordered([Merge(bs[0], bs[1])] + bs[2..])
  {
    var m, c := Merge(bs[0], bs[1]), bs[2..];
    assert bs == [bs[0]] + ([bs[1]] + c);
    OrderedConcat([bs[0]], [bs[1]] + c);
    OrderedConcat([bs[1]], c);
    OrderedConcat([m], c);
    assert BlockOk([bs[0]][0]) && BlockOk([bs[1]][0]) && Follows(bs[0], bs[1]);
    assert Ordered([m]);
  }

  /** Coalescing leaves the blocks in use alone, joins all free neighbours and loses no byte. */
  lemma {:induction false} CoalescedShape(bs: seq<Block>)
    requires Ordered(bs) && bs != []
    ensures var cs := Coalesced(bs);
            && cs != [] && cs[0].addr == bs[0].addr && (!bs[0].free ==> cs[0] == bs[0]) && (bs[0].free ==> cs[0].free)
            && Ordered(cs) && NoTwins(cs)
            && Used(cs) == Used(bs) && UsedSize(cs) == UsedSize(bs) && Weight(cs) == Weight(bs)
    decreases |bs|
  {
    hide *;
    if |bs| < 2 {
      CoalescedNone(bs);
    } else if bs[0].free && bs[1].free {
      var merged := [Merge(bs[0], bs[1])] + bs[2..];
      MergeOrdered(bs);
      MergeSums(bs);
      CoalescedShape(merged);
    } else {
      var rest := bs[1..];
      assert bs == [bs[0]] + rest;
      OrderedConcat([bs[0]], rest);
      CoalescedShape(rest);
      var cs := Coalesced(rest);
      CoalescedKeep(bs);
      OrderedConcat([bs[0]], cs);
      NoTwinsConcat([bs[0]], cs);
      FollowsSame(bs[0], bs[1], cs[0]);
      SumsConcat([bs[0]], rest);
      SumsConcat([bs[0]], cs);
      UsedConcat([bs[0]], rest);
      UsedConcat([bs[0]], cs);
    }
  }

  lemma {:induction false} CoalescedNone(bs: seq<Block>)
    requires |bs| < 2
    ensures Coalesced(bs) == bs && NoTwins(bs)
  {
  }

  lemma {:induction false} CoalescedKeep(bs: seq<Block>)
    requires |bs| >= 2 && !(bs[0].free && bs[1].free)
    ensures Coalesced(bs) == [bs[0]] + Coalesced(bs[1..])
    ensures NoTwins([bs[0]])
  {
  }

  lemma {:induction false} FollowsSame(a: Block, b: Block, c: Block)
    requires c.addr == b.addr && (!b.free ==> c == b)
    ensures Follows(a, b) ==> Follows(a, c)
    ensures !(a.free && b.free) ==> Alternate(a, c)
  {
  }

  lemma {:induction false} MergeSums(bs: seq<Block>)
    requires |bs| >= 2 && bs[0].free && bs[1].free
    ensures var merged := [Merge(bs[0], bs[1])] + bs[2..];
            && merged[0].addr == bs[0].addr && merged[0].free
            && Used(merged) == Used(bs) && UsedSize(merged) == UsedSize(bs) && Weight(merged) == Weight(bs)
            && Coalesced(bs) == Coalesced(merged)
  {
    var m, c := Merge(bs[0], bs[1]), bs[2..];
    assert bs == [bs[0], bs[1]] + c;
    SumsConcat([bs[0], bs[1]], c);
    SumsConcat([m], c);
    SumsTwo(bs[0], bs[1]);
    SumsOne(m);
    UsedConcat([bs[0], bs[1]], c);
    UsedConcat([m], c);
    hide UsedSize, Weight;
  }

  function Freed(bs: seq<Block>, i: nat): seq<Block>
    requires i < |bs|
  {
    Coalesced(bs[i := bs[i].(free := true)])
  }

  /** Freeing takes one block out of use, keeps all others and the sum of the sizes, and restores
      the shape. */
  lemma {:induction false} FreedShape(bs: seq<Block>, i: nat)
    requires Shape(bs) && i < |bs| && !bs[i].free
    ensures Shape(Freed(bs, i))
    ensures Used(Freed(bs, i)) == Used(bs) - {bs[i]} && bs[i] in Used(bs)
    ensures UsedSize(Freed(bs, i)) == UsedSize(bs) - bs[i].size && Weight(Freed(bs, i)) == Weight(bs)
  {
    hide *;
    ShapeOf(bs);
    var b := bs[i].(free := true);
    var fs := bs[i := b];
    Marked(bs, i);
    CoalescedShape(fs);
    FreedOf(bs, i);
    ShapeOf(Freed(bs, i));
  }

  lemma {:induction false} ShapeOf(bs: seq<Block>)
    ensures Shape(bs) <==> bs != [] && bs[0].addr == START && Ordered(bs) && NoTwins(bs)
  {
  }

  lemma {:induction false} FreedOf(bs: seq<Block>, i: nat)
    requires i < |bs|
    ensures Freed(bs, i) == Coalesced(bs[i := bs[i].(free := true)])
  {
  }

  lemma {:induction false} Marked(bs: seq<Block>, i: nat)
    requires Ordered(bs) && i < |bs| && !bs[i].free
    ensures var fs := bs[i := bs[i].(free := true)];
            && fs[0].addr == bs[0].addr && Ordered(fs)
            && Used(fs) == Used(bs) - {bs[i]} && bs[i] in Used(bs)
            && UsedSize(fs) == UsedSize(bs) - bs[i].size && Weight(fs) == Weight(bs)
  {
    var b := bs[i].(free := true);
    var fs := bs[i := b];
    var a, c := bs[..i], bs[i + 1..];
    assert fs == a + [b] + c;
    MarkedOrdered(bs, i);
    MarkedUsed(bs, i);
    Around(bs, i);
    hide Used, Ordered;
    SumsConcat(a + [bs[i]], c);
    SumsConcat(a, [bs[i]]);
    SumsConcat(a + [b], c);
    SumsConcat(a, [b]);
    SumsOne(bs[i]);
    SumsOne(b);
    hide UsedSize, Weight;
  }

  lemma {:induction false} MarkedOrdered(bs: seq<Block>, i: nat)
    requires Ordered(bs) && i < |bs|
    ensures Ordered(bs[i := bs[i].(free := true)])
  {
    var fs := bs[i := bs[i].(free := true)];
    forall j | 0 <= j < |fs|
      ensures BlockOk(fs[j])
    {
      assert BlockOk(bs[j]);
    }
    forall j | 0 <= j < |fs| - 1
      ensures Follows(fs[j], fs[j + 1])
    {
      assert Follows(bs[j], bs[j + 1]);
    }
  }

  lemma {:induction false} MarkedUsed(bs: seq<Block>, i: nat)
    requires Ordered(bs) && i < |bs| && !bs[i].free
    ensures Used(bs[i := bs[i].(free := true)]) == Used(bs) - {bs[i]} && bs[i] in Used(bs)
  {
    var fs := bs[i := bs[i].(free := true)];
    forall b | b in Used(bs) && b != bs[i]
      ensures b in Used(fs)
    {
      var j :| 0 <= j < |bs| && bs[j] == b;
      assert fs[j] == b;
    }
    forall b | b in Used(fs)
      ensures b in Used(bs) && b != bs[i]
    {
      var j :| 0 <= j < |fs| && fs[j] == b;
      assert j != i && bs[j] == b;
      BlocksDisjoint(bs, i, j);
    }
  }

  // ----- what coalescing leaves, in numbers -----

  /** The free block at place i and its free neighbours, as one. */
  function JoinedAt(bs: seq<Block>, i: nat): Block
    requires i < |bs|
  {
    var left, right := i > 0 && bs[i - 1].free, i + 1 < |bs| && bs[i + 1].free;
    Block(if left then bs[i - 1].addr else bs[i].addr,
          bs[i].size + (if left then bs[i - 1].size + 16 else 0) + (if right then bs[i + 1].size + 16 else 0),
          true)
  }

  lemma {:induction false} JoinedAtIs(bs: seq<Block>, i: nat)
    requires i < |bs|
    ensures var left, right := i > 0 && bs[i - 1].free, i + 1 < |bs| && bs[i + 1].free;
            && JoinedAt(bs, i).addr == (if left then bs[i - 1].addr else bs[i].addr) && JoinedAt(bs, i).free
            && JoinedAt(bs, i).size == bs[i].size + (if left then bs[i - 1].size + 16 else 0)
                                     + (if right then bs[i + 1].size + 16 else 0)
  {
  }

  lemma {:induction false} NoTwinsAt(bs: seq<Block>, i: nat)
    requires NoTwins(bs) && i + 1 < |bs|
    ensures !(bs[i].free && bs[i + 1].free)
  {
    assert Alternate(bs[i], bs[i + 1]);
  }

  lemma {:induction false} NoTwinsPart(bs: seq<Block>, i: nat, j: nat)
    requires NoTwins(bs) && i <= j <= |bs|
    ensures NoTwins(bs[i..j])
  {
    var part := bs[i..j];
    hide Alternate;
    forall k | 0 <= k < |part| - 1
      ensures Alternate(part[k], part[k + 1])
    {
      assert Alternate(bs[i + k], bs[i + k + 1]);
    }
  }

  /** Blocks that meet no free neighbour stay as they are. */
  lemma {:induction false} CoalescedAfter(a: seq<Block>, t: seq<Block>)
    requires NoTwins(a) && (a != [] && t != [] ==> !(a[|a| - 1].free && t[0].free))
    ensures Coalesced(a + t) == a + Coalesced(t)
    decreases |a|
  {
    hide *;
    if a == [] {
      assert a + t == t && a + Coalesced(t) == Coalesced(t);
    } else if |a| == 1 && t == [] {
      assert a + t == a;
      CoalescedNone(a);
      CoalescedNone(t);
    } else {
      var bs := a + t;
      var rest := a[1..];
      assert bs[1..] == rest + t;
      if |a| > 1 {
        NoTwinsAt(a, 0);
      }
      CoalescedKeep(bs);
      NoTwinsPart(a, 1, |a|);
      assert a[1..|a|] == rest;
      assert rest != [] ==> rest[|rest| - 1] == a[|a| - 1];
      CoalescedAfter(rest, t);
      assert a == [a[0]] + rest;
      assert [a[0]] + (rest + Coalesced(t)) == a + Coalesced(t);
    }
  }

  /** A free block takes the next one in. */
  lemma {:induction false} CoalescedJoin(x: Block, y: Block, t: seq<Block>)
    requires x.free && y.free
    ensures Coalesced([x, y] + t) == Coalesced([Block(x.addr, x.size + y.size + 16, true)] + t)
  {
    var bs := [x, y] + t;
    assert bs[2..] == t;
    hide Coalesced;
    CoalescedFirst(bs);
  }

  lemma {:induction false} CoalescedFirst(bs: seq<Block>)
    requires |bs| >= 2 && bs[0].free && bs[1].free
    ensures Coalesced(bs) == Coalesced([Merge(bs[0], bs[1])] + bs[2..])
  {
  }

  lemma {:induction false} CoalescedSame(b: Block, c: seq<Block>)
    requires NoTwins(c) && (c != [] ==> !(b.free && c[0].free))
    ensures Coalesced([b] + c) == [b] + c
  {
    hide *;
    CoalescedNone([b]);
    CoalescedAfter([b], c);
    CoalescedAfter(c, []);
    CoalescedNone([]);
    assert c + [] == c;
  }

  /** Freeing joins the block with the neighbours that are free, each with its header, and leaves
      all other blocks where they are. */
  lemma {:induction false} FreedIs(bs: seq<Block>, i: nat)
    requires NoTwins(bs) && i < |bs| && !bs[i].free
    ensures var from := if i > 0 && bs[i - 1].free then i - 1 else i;
            var to := if i + 1 < |bs| && bs[i + 1].free then i + 2 else i + 1;
            Freed(bs, i) == bs[..from] + [JoinedAt(bs, i)] + bs[to..]
  {
    hide *;
    FreedOf(bs, i);
    JoinedAtIs(bs, i);
    var from := if i > 0 && bs[i - 1].free then i - 1 else i;
    var to := if i + 1 < |bs| && bs[i + 1].free then i + 2 else i + 1;
    var fs := bs[i := bs[i].(free := true)];
    var a, w, c := bs[..from], fs[from..to], bs[to..];
    ThreeParts(bs, i, bs[i].(free := true), from, to);
    WindowApart(bs, i, from, to);
    CoalescedAfter(a, w + c);
    WindowJoins(bs, i);
    CoalescedSame(JoinedAt(bs, i), c);
    Regroup(a, JoinedAt(bs, i), c);
  }

  lemma {:induction false} Regroup(a: seq<Block>, b: Block, c: seq<Block>)
    ensures a + ([b] + c) == a + [b] + c
  {
  }

  lemma {:induction false} ThreeParts(bs: seq<Block>, i: nat, b: Block, from: nat, to: nat)
    requires from <= i < to <= |bs|
    ensures var fs := bs[i := b];
            && fs == bs[..from] + (fs[from..to] + bs[to..])
            && (fs[from..to] + bs[to..])[0] == fs[from]
  {
  }

  /** The blocks around a window that ends in blocks in use. */
  lemma {:induction false} WindowApart(bs: seq<Block>, i: nat, from: nat, to: nat)
    requires NoTwins(bs) && i < |bs|
    requires from == if i > 0 && bs[i - 1].free then i - 1 else i
    requires to == if i + 1 < |bs| && bs[i + 1].free then i + 2 else i + 1
    ensures NoTwins(bs[..from]) && (from > 0 ==> !bs[..from][from - 1].free)
    ensures to <= |bs| && NoTwins(bs[to..]) && (to < |bs| ==> !bs[to..][0].free)
  {
    hide *;
    NoTwinsPart(bs, 0, from);
    NoTwinsPart(bs, to, |bs|);
    assert bs[0..from] == bs[..from] && bs[to..|bs|] == bs[to..];
    if 0 < from < i {
      NoTwinsAt(bs, from - 1);
    }
    if i + 1 < to < |bs| {
      NoTwinsAt(bs, to - 1);
    }
  }

  /** The block and its free neighbours become one block in front of the others. */
  lemma {:induction false} WindowJoins(bs: seq<Block>, i: nat)
    requires i < |bs|
    ensures var from := if i > 0 && bs[i - 1].free then i - 1 else i;
            var to := if i + 1 < |bs| && bs[i + 1].free then i + 2 else i + 1;
            var fs := bs[i := bs[i].(free := true)];
            Coalesced(fs[from..to] + bs[to..]) == Coalesced([JoinedAt(bs, i)] + bs[to..])
  {
    hide *;
    JoinedAtIs(bs, i);
    var from := if i > 0 && bs[i - 1].free then i - 1 else i;
    var to := if i + 1 < |bs| && bs[i + 1].free then i + 2 else i + 1;
    var fs := bs[i := bs[i].(free := true)];
    var b, c := fs[i], bs[to..];
    if to == i + 2 {
      var y := bs[i + 1];
      if from < i {
        CoalescedJoin(bs[i - 1], b, [y] + c);
        var x := Block(bs[i - 1].addr, bs[i - 1].size + b.size + 16, true);
        assert fs[from..to] + c == [bs[i - 1], b] + ([y] + c);
        assert [x] + ([y] + c) == [x, y] + c;
        CoalescedJoin(x, y, c);
      } else {
        assert fs[from..to] + c == [b, y] + c;
        CoalescedJoin(b, y, c);
      }
    } else if from < i {
      assert fs[from..to] + c == [bs[i - 1], b] + c;
      CoalescedJoin(bs[i - 1], b, c);
    } else {
      assert fs[from..to] == [b];
    }
  }
}
