/** The kernel heap in memory: block headers linked through the very bytes the heap hands out. */
module Heap {
  import opened Wrappers
  import opened Sequences
  import opened Words
  import opened Ram
  import opened HeapBlocks

  // ----- headers -----

  /** A header: size, payload pointer, next header, and the free byte; three bytes of padding. */
  predicate HeaderAt(m: Memory, b: Block, next: int) {
    && Mapped(m, b.addr, HEADER)
    && Fetch(m, b.addr, 4) == b.size
    && Fetch(m, b.addr + 4, 4) == Payload(b)
    && Fetch(m, b.addr + 8, 4) == next
    && m[b.addr + 12] == (if b.free then 1 else 0)
  }

  function NextAddr(bs: seq<Block>, i: nat): int {
    if i + 1 < |bs| then bs[i + 1].addr else 0
  }

  predicate LinkAt(m: Memory, bs: seq<Block>, i: nat)
    requires i < |bs|
  {
    HeaderAt(m, bs[i], NextAddr(bs, i))
  }

  /** The list in memory is exactly this one, and all of the heap is memory. */
  ghost predicate Linked(m: Memory, bs: seq<Block>) {
    && (forall a | START <= a < LIMIT :: a in m)
    && forall i | 0 <= i < |bs| :: LinkAt(m, bs, i)
  }

  predicate InHeader(b: Block, a: int) { b.addr <= a < b.addr + HEADER }

  predicate InPayload(b: Block, a: int) { b.addr + HEADER <= a < End(b) }

  /** Only the bytes of these two headers differ. */
  ghost predicate Outside(m: Memory, m': Memory, b: Block, c: Block) {
    m'.Keys == m.Keys && forall a | a in m && !InHeader(b, a) && !InHeader(c, a) :: m'[a] == m[a]
  }

  lemma {:induction false} OutsideRefl(m: Memory, b: Block, c: Block)
    ensures Outside(m, m, b, c)
  {
  }

  lemma {:induction false} HeaderSame(m: Memory, m': Memory, b: Block, next: int)
    requires HeaderAt(m, b, next) && Mapped(m', b.addr, HEADER)
    requires forall a | b.addr <= a < b.addr + HEADER :: m'[a] == m[a]
    ensures HeaderAt(m', b, next)
  {
    FetchSame(m, m', b.addr, 4);
    FetchSame(m, m', b.addr + 4, 4);
    FetchSame(m, m', b.addr + 8, 4);
    hide Fetch;
  }

  // ----- writing one field -----

  lemma {:induction false} MappedPart(m: Memory, a: int, n: nat, off: nat, k: nat)
    requires Mapped(m, a, n) && off + k <= n
    ensures Mapped(m, a + off, k)
  {
  }

  lemma {:induction false} MappedKeys(m: Memory, m': Memory, a: int, n: nat)
    requires Mapped(m, a, n) && m'.Keys == m.Keys
    ensures Mapped(m', a, n)
  {
  }

  lemma {:induction false} FieldsMapped(m: Memory, a: int)
    requires Mapped(m, a, HEADER)
    ensures Mapped(m, a, 4) && Mapped(m, a + 4, 4) && Mapped(m, a + 8, 4) && a + 12 in m
  {
  }

  lemma {:induction false} PutField(m: Memory, b: Block, off: nat, v: int)
    requires Mapped(m, b.addr, HEADER) && (off == 0 || off == 4 || off == 8) && 0 <= v < 0x1_0000_0000
    ensures Mapped(m, b.addr + off, 4)
    ensures var m' := Put(m, b.addr + off, 4, v);
            && Mapped(m', b.addr, HEADER) && Fetch(m', b.addr + off, 4) == v
            && (off != 0 ==> Fetch(m', b.addr, 4) == Fetch(m, b.addr, 4))
            && (off != 4 ==> Fetch(m', b.addr + 4, 4) == Fetch(m, b.addr + 4, 4))
            && (off != 8 ==> Fetch(m', b.addr + 8, 4) == Fetch(m, b.addr + 8, 4))
            && m'[b.addr + 12] == m[b.addr + 12]
            && m'.Keys == m.Keys && forall a | a in m && !InHeader(b, a) :: m'[a] == m[a]
  {
    hide Fetch, Put, Mapped;
    var a := b.addr;
    FieldsMapped(m, a);
    var m' := Put(m, a + off, 4, v);
    MappedKeys(m, m', a, HEADER);
    FieldsMapped(m', a);
    FetchPut(m, a + off, 4, v);
    Pow256Values();
    if off != 0 { FetchPutApart(m, a + off, 4, v, a, 4); }
    if off != 4 { FetchPutApart(m, a + off, 4, v, a + 4, 4); }
    if off != 8 { FetchPutApart(m, a + off, 4, v, a + 8, 4); }
  }

  lemma {:induction false} PutFlag(m: Memory, b: Block, v: byte)
    requires Mapped(m, b.addr, HEADER)
    ensures var m' := m[b.addr + 12 := v];
            && Mapped(m', b.addr, HEADER)
            && Fetch(m', b.addr, 4) == Fetch(m, b.addr, 4) && Fetch(m', b.addr + 4, 4) == Fetch(m, b.addr + 4, 4)
            && Fetch(m', b.addr + 8, 4) == Fetch(m, b.addr + 8, 4) && m'[b.addr + 12] == v
            && m'.Keys == m.Keys && forall a | a in m && !InHeader(b, a) :: m'[a] == m[a]
  {
    var m' := m[b.addr + 12 := v];
    FetchSame(m, m', b.addr, 4);
    FetchSame(m, m', b.addr + 4, 4);
    FetchSame(m, m', b.addr + 8, 4);
    hide Fetch;
  }

  // ----- the list after a change -----

  lemma {:induction false} LinkFacts(m: Memory, bs: seq<Block>, i: nat)
    requires Linked(m, bs) && Ordered(bs) && i < |bs|
    ensures HeaderAt(m, bs[i], NextAddr(bs, i)) && BlockOk(bs[i])
    ensures START <= bs[i].addr && bs[i].addr + HEADER <= LIMIT && 0 <= bs[i].size <= SIZE
    ensures 0 <= NextAddr(bs, i) < LIMIT && (NextAddr(bs, i) == 0 <==> i + 1 == |bs|)
  {
    assert LinkAt(m, bs, i);
    assert BlockOk(bs[i]);
    if i + 1 < |bs| {
      assert BlockOk(bs[i + 1]);
    }
    hide Fetch, Linked, Ordered;
  }

  /** Blocks whose headers lie apart from the changed ones are linked as before. */
  lemma {:induction false} LinkKept(m: Memory, m': Memory, bs: seq<Block>, i: nat, b: Block, c: Block)
    requires Linked(m, bs) && i < |bs| && Outside(m, m', b, c)
    requires bs[i].addr + HEADER <= b.addr || b.addr + HEADER <= bs[i].addr
    requires bs[i].addr + HEADER <= c.addr || c.addr + HEADER <= bs[i].addr
    ensures HeaderAt(m', bs[i], NextAddr(bs, i))
  {
    assert LinkAt(m, bs, i);
    hide Fetch;
    HeaderSame(m, m', bs[i], NextAddr(bs, i));
  }

  /** One block changed in its own header. */
  lemma {:induction false} LinkedUpdate(m: Memory, m': Memory, bs: seq<Block>, k: nat, b: Block)
    requires Linked(m, bs) && Ordered(bs) && k < |bs| && b.addr == bs[k].addr
    requires Outside(m, m', b, b) && HeaderAt(m', b, NextAddr(bs, k))
    ensures Linked(m', bs[k := b])
  {
    var bs' := bs[k := b];
    hide HeaderAt, Ordered;
    forall i | 0 <= i < |bs'|
      ensures LinkAt(m', bs', i)
    {
      assert NextAddr(bs', i) == NextAddr(bs, i);
      if i != k {
        Apart(bs, i, k);
        LinkKept(m, m', bs, i, b, b);
      }
    }
  }

  lemma {:induction false} Apart(bs: seq<Block>, i: nat, j: nat)
    requires Ordered(bs) && i < |bs| && j < |bs| && i != j
    ensures bs[i].addr + HEADER <= bs[j].addr || End(bs[j]) <= bs[i].addr
    ensures bs[i].addr + HEADER <= bs[j].addr || bs[j].addr + HEADER <= bs[i].addr
  {
    assert BlockOk(bs[i]) && BlockOk(bs[j]);
    BlocksDisjoint(bs, i, j);
  }

  /** One block became two, the second inside the payload of the first. */
  lemma {:induction false} LinkedSplit(m: Memory, m': Memory, bs: seq<Block>, k: nat, b: Block, c: Block)
    requires Linked(m, bs) && Ordered(bs) && k < |bs| && b.addr == bs[k].addr
    requires End(b) <= c.addr && b.size >= 0 && c.addr + HEADER <= End(bs[k])
    requires Outside(m, m', b, c) && HeaderAt(m', b, c.addr) && HeaderAt(m', c, NextAddr(bs, k))
    ensures Linked(m', bs[..k] + [b, c] + bs[k + 1..])
  {
    var bs' := bs[..k] + [b, c] + bs[k + 1..];
    hide HeaderAt, Ordered;
    forall i | 0 <= i < |bs'|
      ensures LinkAt(m', bs', i)
    {
      SplitIndex(bs, k, b, c, i);
      if i < k {
        Apart(bs, i, k);
        LinkKept(m, m', bs, i, b, c);
      } else if i > k + 1 {
        Apart(bs, i - 1, k);
        LinkKept(m, m', bs, i - 1, b, c);
      }
    }
  }

  lemma {:induction false} SplitIndex(bs: seq<Block>, k: nat, b: Block, c: Block, i: nat)
    requires k < |bs| && b.addr == bs[k].addr && i <= |bs|
    ensures var bs' := bs[..k] + [b, c] + bs[k + 1..];
            && bs'[i] == (if i < k then bs[i] else if i == k then b else if i == k + 1 then c else bs[i - 1])
            && NextAddr(bs', i) == (if i < k then NextAddr(bs, i) else if i == k then c.addr else NextAddr(bs, i - 1))
  {
  }

  /** One block swallowed its neighbour. */
  lemma {:induction false} LinkedMerge(m: Memory, m': Memory, bs: seq<Block>, k: nat, b: Block)
    requires Linked(m, bs) && Ordered(bs) && k + 1 < |bs| && b.addr == bs[k].addr
    requires Outside(m, m', b, b) && HeaderAt(m', b, NextAddr(bs, k + 1))
    ensures Linked(m', bs[..k] + [b] + bs[k + 2..])
  {
    var bs' := bs[..k] + [b] + bs[k + 2..];
    hide HeaderAt, Ordered;
    forall i | 0 <= i < |bs'|
      ensures LinkAt(m', bs', i)
    {
      MergeIndex(bs, k, b, i);
      if i < k {
        Apart(bs, i, k);
        LinkKept(m, m', bs, i, b, b);
      } else if i > k {
        Apart(bs, i + 1, k);
        LinkKept(m, m', bs, i + 1, b, b);
      }
    }
  }

  lemma {:induction false} MergeIndex(bs: seq<Block>, k: nat, b: Block, i: nat)
    requires k + 1 < |bs| && b.addr == bs[k].addr && i < |bs| - 1
    ensures var bs' := bs[..k] + [b] + bs[k + 2..];
            && bs'[i] == (if i < k then bs[i] else if i == k then b else bs[i + 1])
            && NextAddr(bs', i) == (if i < k then NextAddr(bs, i) else NextAddr(bs, i + 1))
  {
  }

  // ----- what one call does -----

  predicate InHeaders(bs: seq<Block>, a: int) { exists b :: b in bs && InHeader(b, a) }

  /** Bytes outside the headers of the blocks before and after a call are as they were. */
  ghost predicate OnlyHeaders(m: Memory, m': Memory, bs: seq<Block>, bs': seq<Block>) {
    m'.Keys == m.Keys && forall a | a in m && !InHeaders(bs, a) && !InHeaders(bs', a) :: m'[a] == m[a]
  }

  datatype HeapState = HeapState(mem: Memory, blocks: seq<Block>, used: int)

  /** The heap is in order: the list in memory is the list of blocks, and HeapUsed is their sum. */
  ghost predicate Inv(s: HeapState) {
    Shape(s.blocks) && Linked(s.mem, s.blocks) && s.used == UsedSize(s.blocks)
  }

  /** HeapAlloc: the first block that fits is taken, or nothing changes. */
  ghost predicate Alloc(s: HeapState, size: u32, ptr: int, s': HeapState) {
    var n := Rounded(size);
    var r := FirstFit(s.blocks, n);
    if r.None? then ptr == 0 && s' == s
    else
      && ptr == Payload(s.blocks[r.value])
      && s'.blocks == Allocated(s.blocks, r.value, n)
      && s'.used == UsedSize(s'.blocks)
      && Linked(s'.mem, s'.blocks) && OnlyHeaders(s.mem, s'.mem, s.blocks, s'.blocks)
  }

  /** The pointers that HeapFreePtr looks at. */
  predicate Considered(ptr: int) { START <= ptr <= START + SIZE }

  /** HeapFreePtr of a block's payload, or of a pointer outside the heap. */
  ghost predicate Free(s: HeapState, ptr: int, s': HeapState) {
    if !Considered(ptr) then s' == s
    else exists i :: 0 <= i < |s.blocks| && ptr == Payload(s.blocks[i]) && FreeAt(s, i, s')
  }

  ghost predicate FreeAt(s: HeapState, i: nat, s': HeapState)
    requires i < |s.blocks|
  {
    if s.blocks[i].free then s' == s
    else
      && s'.blocks == Freed(s.blocks, i)
      && s'.used == UsedSize(s'.blocks)
      && Linked(s'.mem, s'.blocks) && OnlyHeaders(s.mem, s'.mem, s.blocks, s'.blocks)
  }

  // ----- facts the loops use -----

  lemma {:induction false} FlagHeader(m: Memory, b: Block, next: int, free: bool)
    requires HeaderAt(m, b, next)
    ensures b.addr + 12 in m
    ensures var m', c := m[b.addr + 12 := if free then 1 else 0], b.(free := free);
            HeaderAt(m', c, next) && Outside(m, m', c, c)
  {
    hide *;
    HeaderFields(m, b, next);
    FieldsOf(m, b, next);
    PutFlag(m, b, if free then 1 else 0);
    FieldsMapped(m, b.addr);
    var m', c := m[b.addr + 12 := if free then 1 else 0], b.(free := free);
    FieldsMapped(m', b.addr);
    FieldsOf(m', c, next);
    PayloadIs(b);
    PayloadIs(c);
    OutsideOwn(m, m', b, c);
  }

  lemma {:induction false} FieldsOf(m: Memory, b: Block, next: int)
    requires Mapped(m, b.addr, HEADER)
    ensures Mapped(m, b.addr, 4) && Mapped(m, b.addr + 4, 4) && Mapped(m, b.addr + 8, 4) && b.addr + 12 in m
    ensures HeaderAt(m, b, next)
       <==> Fetch(m, b.addr, 4) == b.size && Fetch(m, b.addr + 4, 4) == Payload(b) && Fetch(m, b.addr + 8, 4) == next
            && m[b.addr + 12] == (if b.free then 1 else 0)
  {
    hide Fetch;
  }

  lemma {:induction false} OutsideOwn(m: Memory, m': Memory, b: Block, c: Block)
    requires m'.Keys == m.Keys && c.addr == b.addr && forall a | a in m && !InHeader(b, a) :: m'[a] == m[a]
    ensures Outside(m, m', c, c)
  {
  }

  lemma {:induction false} InvFacts(s: HeapState)
    requires Inv(s)
    ensures Linked(s.mem, s.blocks) && Ordered(s.blocks) && s.blocks != [] && s.blocks[0].addr == START
    ensures s.used == UsedSize(s.blocks)
  {
    hide Linked, UsedSize;
  }

  lemma {:induction false} NextIs(bs: seq<Block>, i: nat)
    ensures NextAddr(bs, i) == if i + 1 < |bs| then bs[i + 1].addr else 0
  {
  }

  lemma {:induction false} FirstFitIs(bs: seq<Block>, n: int, i: nat)
    requires i <= |bs| && (i < |bs| ==> Fits(bs[i], n)) && forall j | 0 <= j < i :: !Fits(bs[j], n)
    ensures FirstFit(bs, n) == if i < |bs| then Some(i) else None
  {
    var r := FirstFit(bs, n);
    if i < |bs| { assert bs[i] in bs; }
  }

  lemma {:induction false} HeaderFields(m: Memory, b: Block, next: int)
    requires HeaderAt(m, b, next)
    ensures Mapped(m, b.addr, HEADER) && Mapped(m, b.addr, 4) && Mapped(m, b.addr + 4, 4) && Mapped(m, b.addr + 8, 4)
    ensures b.addr + 12 in m && (m[b.addr + 12] != 0 <==> b.free)
    ensures Fetch32(m, b.addr) == b.size && Fetch32(m, b.addr + 4) == Payload(b) && Fetch32(m, b.addr + 8) == next
  {
    hide Fetch;
  }

  lemma {:induction false} OneBlock()
    ensures Shape([Block(START, SIZE, true)]) && UsedSize([Block(START, SIZE, true)]) == 0
  {
    var bs := [Block(START, SIZE, true)];
    assert BlockOk(bs[0]);
    assert bs[1..] == [];
  }

  /** Rounding up a 16-byte aligned address in 32 bits. */
  lemma {:induction false} RoundUp(a: int, n: int)
    requires a % HEADER == 0 && n % HEADER == 0 && 0 <= a && 0 <= n && a + n + HEADER < 0x1_0000_0000
    ensures var x := Add32(a, Add32(n, HEADER - 1)); x - x % HEADER == a + n
  {
    var i, j := a / HEADER, n / HEADER;
    assert a == HEADER * i && n == HEADER * j;
    var x := Add32(a, Add32(n, HEADER - 1));
    assert x == HEADER * (i + j) + 15;
  }

  lemma {:induction false} AllocatedOf(bs: seq<Block>, i: nat, n: int)
    requires i < |bs|
    ensures var b := bs[i];
            Allocated(bs, i, n)
            == if Splits(b, n) then bs[..i] + [Block(b.addr, n, false), Second(b, n)] + bs[i + 1..]
               else bs[i := b.(free := false)]
  {
    if !Splits(bs[i], n) {
      assert bs[..i] + [bs[i].(free := false)] + bs[i + 1..] == bs[i := bs[i].(free := false)];
    }
  }

  // ----- splitting -----

  /** The block that a split leaves behind. */
  function Second(b: Block, n: int): Block {
    Block(b.addr + HEADER + n, b.size - n - (n + HEADER), true)
  }

  function Parted(bs: seq<Block>, i: nat, n: int): seq<Block>
    requires i < |bs|
  {
    bs[..i] + [bs[i].(size := n), Second(bs[i], n)] + bs[i + 1..]
  }

  lemma {:induction false} PartedOrdered(bs: seq<Block>, i: nat, n: int)
    requires Ordered(bs) && i < |bs| && Splits(bs[i], n) && n >= 0 && n % HEADER == 0
    ensures Ordered(Parted(bs, i, n))
    ensures Parted(bs, i, n) == bs[..i] + [bs[i].(size := n), Second(bs[i], n)] + bs[i + 1..]
  {
    var t := [bs[i].(size := n), Second(bs[i], n)];
    assert BlockOk(bs[i]);
    Aligned(bs[i].addr, n, bs[i].size);
    assert BlockOk(t[0]) && BlockOk(t[1]) && Follows(t[0], t[1]);
    ReplaceOrdered(bs, i, t);
  }

  lemma {:induction false} SecondFacts(m: Memory, bs: seq<Block>, i: nat, n: int)
    requires Linked(m, bs) && Ordered(bs) && i < |bs| && Splits(bs[i], n) && n >= 0
    ensures var b, c := bs[i], Second(bs[i], n);
            && 0 <= b.addr && End(b.(size := n)) <= c.addr && b.addr + HEADER <= c.addr && c.addr + HEADER <= End(b)
            && 0 <= n <= SIZE && c.addr + HEADER <= LIMIT && Mapped(m, c.addr, HEADER) && Mapped(m, b.addr, HEADER)
            && Sub32(Sub32(b.size, n), n + HEADER) == c.size
            && c == Block(b.addr + HEADER + n, c.size, true) && HEADER == 16 && c.addr + HEADER < 0x1_0000_0000
  {
    hide *;
    Consts();
    LinkFacts(m, bs, i);
    SecondIs(bs[i], n);
    SecondSize(bs[i].size, n);
    HeapMapped(m, bs, bs[i].addr, HEADER);
    HeapMapped(m, bs, bs[i].addr + HEADER + n, HEADER);
  }

  lemma {:induction false} SecondIs(b: Block, n: int)
    requires Splits(b, n) && BlockOk(b)
    ensures End(b) <= LIMIT
    ensures Second(b, n) == Block(b.addr + HEADER + n, b.size - n - (n + HEADER), true) && b.size >= n + n + HEADER
    ensures End(b) == b.addr + HEADER + b.size && End(b.(size := n)) == b.addr + HEADER + n
    ensures Block(b.addr + HEADER + n, b.size - n - (n + HEADER), true)
         == Block(b.addr + HEADER + n, Second(b, n).size, true)
  {
  }

  lemma {:induction false} SecondSize(size: int, n: int)
    requires 0 <= n && n + n + HEADER <= size <= SIZE
    ensures Sub32(Sub32(size, n), n + HEADER) == size - n - (n + HEADER)
  {
  }

  lemma {:induction false} HeapMapped(m: Memory, bs: seq<Block>, a: int, n: nat)
    requires Linked(m, bs) && START <= a && a + n <= LIMIT
    ensures Mapped(m, a, n)
  {
    hide LinkAt;
  }

  lemma {:induction false} HeaderKept(m: Memory, m': Memory, b: Block, next: int, c: Block)
    requires HeaderAt(m, b, next) && Outside(m, m', c, c)
    requires b.addr + HEADER <= c.addr || c.addr + HEADER <= b.addr
    ensures HeaderAt(m', b, next)
  {
    hide Fetch;
    HeaderSame(m, m', b, next);
  }

  lemma {:induction false} OutsideBoth(m: Memory, m1: Memory, m2: Memory, b: Block, c: Block, b': Block)
    requires Outside(m, m1, c, c) && Outside(m1, m2, b, b) && b'.addr == b.addr
    ensures Outside(m, m2, b, c) && Outside(m, m2, b', c)
  {
  }

  lemma {:induction false} TakeFacts(m: Memory, bs: seq<Block>, i: nat, n: int)
    requires Linked(m, bs) && Ordered(bs) && i < |bs| && Fits(bs[i], n) && n >= 0 && n % HEADER == 0
    ensures var b := bs[i];
            && HEADER == 16 && 0 <= b.addr && Mapped(m, b.addr, 4) && Mapped(m, b.addr + 4, 4)
            && Fetch32(m, b.addr) == b.size && Fetch32(m, b.addr + 4) == b.addr + HEADER
            && (var x := Add32(b.addr + HEADER, Add32(n, HEADER - 1)); x - x % HEADER == b.addr + HEADER + n)
            && Add32(Sub32(b.addr + HEADER + n, b.addr + HEADER), HEADER) == n + HEADER
            && Add32(n, n + HEADER) == n + n + HEADER
            && b.addr + HEADER + n < 0x1_0000_0000
            && (Splits(b, n) <==> b.size >= n + n + HEADER)
  {
    LinkFacts(m, bs, i);
    HeaderFields(m, bs[i], NextAddr(bs, i));
    assert n <= bs[i].size && bs[i].addr % HEADER == 0 && (Splits(bs[i], n) <==> bs[i].size >= n + n + HEADER);
    hide *;
    Consts();
    TakeSums(bs[i].addr, n);
  }

  lemma {:induction false} TakeSums(a: int, n: int)
    requires START <= a <= LIMIT && 0 <= n <= SIZE && a % HEADER == 0 && n % HEADER == 0
    ensures var x := Add32(a + HEADER, Add32(n, HEADER - 1)); x - x % HEADER == a + HEADER + n
    ensures Add32(Sub32(a + HEADER + n, a + HEADER), HEADER) == n + HEADER && Add32(n, n + HEADER) == n + n + HEADER
  {
    hide *;
    Consts();
    NextAligned(a);
    RoundUp(a + HEADER, n);
    WordSums(a, n);
  }

  lemma {:induction false} NextAligned(a: int)
    requires a % HEADER == 0
    ensures (a + HEADER) % HEADER == 0
  {
  }

  lemma {:induction false} WordSums(a: int, n: int)
    requires 0 <= n && 0 <= a && n + n + HEADER < 0x1_0000_0000
    ensures Add32(Sub32(a + HEADER + n, a + HEADER), HEADER) == n + HEADER && Add32(n, n + HEADER) == n + n + HEADER
  {
  }

  lemma {:induction false} FlagIndex(bs: seq<Block>, i: nat, n: int, bs1: seq<Block>)
    requires i < |bs| && bs1 == if Splits(bs[i], n) then Parted(bs, i, n) else bs
    ensures i < |bs1| && bs1[i].addr == bs[i].addr && bs1[i := bs1[i].(free := false)] == Allocated(bs, i, n)
  {
    AllocatedOf(bs, i, n);
    if Splits(bs[i], n) {
      var t := [Block(bs[i].addr, n, false), Second(bs[i], n)];
      assert bs1[i := bs1[i].(free := false)] == bs[..i] + t + bs[i + 1..];
    }
  }

  lemma {:induction false} TakenFacts(m: Memory, m1: Memory, m2: Memory, bs: seq<Block>, i: nat, n: int)
    requires Ordered(bs) && i < |bs| && Fits(bs[i], n) && n >= 0 && n % HEADER == 0 && Shape(bs)
    requires Outside(m, m1, bs[i], Second(bs[i], n)) && (Splits(bs[i], n) || m1 == m)
    requires var bs' := Allocated(bs, i, n);
             i < |bs'| && Linked(m2, bs') && Outside(m1, m2, bs'[i], bs'[i])
    ensures var bs' := Allocated(bs, i, n);
            && OnlyHeaders(m, m2, bs, bs')
            && bs'[i].addr == bs[i].addr && Mapped(m2, bs[i].addr, 4) && Fetch32(m2, bs[i].addr) == bs'[i].size
            && Add32(UsedSize(bs), bs'[i].size) == UsedSize(bs')
  {
    hide *;
    var bs' := Allocated(bs, i, n);
    TakenIndex(bs, i, n);
    AllocatedShape(bs, i, n);
    AllocatedSums(bs, i, n);
    ShapeOf(bs');
    ShapeOf(bs);
    WeightBound(bs');
    WeightBound(bs);
    LinkFacts(m2, bs', i);
    HeaderFields(m2, bs'[i], NextAddr(bs', i));
    TakenOutside(m, m1, m2, bs, i, n);
    Consts();
    AddsUp(UsedSize(bs), bs'[i].size);
  }

  lemma {:induction false} AddsUp(a: int, b: int)
    requires 0 <= a && 0 <= b && a + b < 0x1_0000_0000
    ensures Add32(a, b) == a + b
  {
  }

  lemma {:induction false} TakenIndex(bs: seq<Block>, i: nat, n: int)
    requires i < |bs|
    ensures i < |Allocated(bs, i, n)| && Allocated(bs, i, n)[i] == Taken(bs[i], n)[0]
    ensures Allocated(bs, i, n)[i].addr == bs[i].addr
    ensures Splits(bs[i], n) ==> Second(bs[i], n) in Allocated(bs, i, n)
  {
    if Splits(bs[i], n) {
      assert Allocated(bs, i, n)[i + 1] == Second(bs[i], n);
    }
  }

  lemma {:induction false} TakenOutside(m: Memory, m1: Memory, m2: Memory, bs: seq<Block>, i: nat, n: int)
    requires i < |bs| && Outside(m, m1, bs[i], Second(bs[i], n)) && (Splits(bs[i], n) || m1 == m)
    requires i < |Allocated(bs, i, n)| && Outside(m1, m2, Allocated(bs, i, n)[i], Allocated(bs, i, n)[i])
    ensures OnlyHeaders(m, m2, bs, Allocated(bs, i, n))
  {
    TakenIndex(bs, i, n);
    var bs' := Allocated(bs, i, n);
    hide Allocated, Splits, Second;
    forall a | a in m && !InHeaders(bs, a) && !InHeaders(bs', a)
      ensures m2[a] == m[a]
    {
      assert !InHeader(bs[i], a) && !InHeader(bs'[i], a);
    }
  }

  /** The request rounded up as the code rounds it. */
  function Aligned32(size: u32): (n: u32)
    ensures n == Rounded(size)
  {
    var x := Add32(size, HEADER - 1);
    x - x % HEADER
  }

  lemma {:induction false} FitsIs(b: Block, n: int)
    ensures Fits(b, n) <==> b.free && b.size >= n
  {
  }

  lemma {:induction false} AllocInv(s: HeapState, i: nat, n: int)
    requires Inv(s) && i < |s.blocks| && Fits(s.blocks[i], n) && n >= 0 && n % HEADER == 0
    ensures Shape(Allocated(s.blocks, i, n))
  {
    hide Shape, Linked, UsedSize, Fits;
    assert Shape(s.blocks);
    AllocatedShape(s.blocks, i, n);
  }

  lemma {:induction false} AllocSome(s: HeapState, size: u32, i: nat, ptr: int, s': HeapState)
    requires i < |s.blocks| && FirstFit(s.blocks, Rounded(size)) == Some(i) && ptr == Payload(s.blocks[i])
    requires s'.blocks == Allocated(s.blocks, i, Rounded(size)) && s'.used == UsedSize(s'.blocks)
    requires Linked(s'.mem, s'.blocks) && OnlyHeaders(s.mem, s'.mem, s.blocks, s'.blocks)
    ensures Alloc(s, size, ptr, s')
  {
    hide Linked, OnlyHeaders, FirstFit, Allocated, UsedSize, Rounded;
  }

  lemma {:induction false} AllocNone(s: HeapState, size: u32)
    requires FirstFit(s.blocks, Rounded(size)).None?
    ensures Alloc(s, size, 0, s)
  {
    hide FirstFit, Rounded;
  }

  // ----- coalescing -----

  /** All headers of bs' stand where headers of bs stood, and nothing else has changed. */
  ghost predicate Covered(m: Memory, m': Memory, bs: seq<Block>, bs': seq<Block>) {
    && m'.Keys == m.Keys
    && (forall a | a in m && !InHeaders(bs, a) :: m'[a] == m[a])
    && forall a | InHeaders(bs', a) :: InHeaders(bs, a)
  }

  lemma {:induction false} CoverRefl(m: Memory, bs: seq<Block>)
    ensures Covered(m, m, bs, bs)
  {
  }

  lemma {:induction false} CoverHeaders(m: Memory, m': Memory, bs: seq<Block>, bs': seq<Block>)
    requires Covered(m, m', bs, bs')
    ensures OnlyHeaders(m, m', bs, bs)
  {
  }

  function Joined(bs: seq<Block>, k: nat): seq<Block>
    requires k + 1 < |bs|
  {
    bs[..k] + [Merge(bs[k], bs[k + 1])] + bs[k + 2..]
  }

  lemma {:induction false} CoverMerge(m: Memory, m1: Memory, m2: Memory, bs: seq<Block>, bs1: seq<Block>, k: nat)
    requires Covered(m, m1, bs, bs1) && k + 1 < |bs1| && Outside(m1, m2, bs1[k], bs1[k])
    ensures Covered(m, m2, bs, Joined(bs1, k))
  {
    forall a | a in m && !InHeaders(bs, a)
      ensures m2[a] == m[a]
    {
      if InHeader(bs1[k], a) {
        assert InHeaders(bs1, a);
      }
    }
    forall a | InHeaders(Joined(bs1, k), a)
      ensures InHeaders(bs, a)
    {
      var b :| b in Joined(bs1, k) && InHeader(b, a);
      if b == Merge(bs1[k], bs1[k + 1]) {
        assert InHeader(bs1[k], a);
      }
      assert InHeaders(bs1, a);
    }
  }

  lemma {:induction false} CoalescedStep(bs: seq<Block>, k: nat)
    requires k + 1 < |bs|
    ensures bs[k].free && bs[k + 1].free ==>
              bs[..k] + Coalesced(bs[k..]) == Joined(bs, k)[..k] + Coalesced(Joined(bs, k)[k..])
    ensures !(bs[k].free && bs[k + 1].free) ==> bs[..k] + Coalesced(bs[k..]) == bs[..k + 1] + Coalesced(bs[k + 1..])
  {
    var t := bs[k..];
    assert t[0] == bs[k] && t[1] == bs[k + 1];
    if bs[k].free && bs[k + 1].free {
      assert Joined(bs, k)[..k] == bs[..k];
      assert Joined(bs, k)[k..] == [Merge(t[0], t[1])] + t[2..];
    } else {
      assert t[1..] == bs[k + 1..];
      assert bs[..k + 1] == bs[..k] + [bs[k]];
      Assoc(bs[..k], [bs[k]], Coalesced(bs[k + 1..]));
    }
  }

  lemma {:induction false} CoalescedEnd(bs: seq<Block>, k: nat)
    requires k + 1 == |bs|
    ensures bs[..k] + Coalesced(bs[k..]) == bs
  {
    assert Coalesced(bs[k..]) == bs[k..];
  }

  lemma {:induction false} JoinedIndex(bs: seq<Block>, k: nat)
    requires k + 1 < |bs| && Ordered(bs) && bs[k].free && bs[k + 1].free
    ensures |Joined(bs, k)| == |bs| - 1 && Joined(bs, k)[k].addr == bs[k].addr && Joined(bs, k)[0].addr == bs[0].addr
    ensures Joined(bs, k) == bs[..k] + [Merge(bs[k], bs[k + 1])] + bs[k + 2..]
    ensures Ordered(Joined(bs, k))
  {
    var t := bs[k..];
    var c := [Merge(t[0], t[1])] + t[2..];
    assert bs == bs[..k] + t && Joined(bs, k) == bs[..k] + c;
    assert t[0] == bs[k] && t[1] == bs[k + 1];
    OrderedConcat(bs[..k], t);
    MergeOrdered(t);
    OrderedConcat(bs[..k], c);
    hide Ordered;
  }

  lemma {:induction false} OutsideMerge(m: Memory, m': Memory, a: Block, b: Block)
    requires Outside(m, m', a, a)
    ensures Outside(m, m', Merge(a, b), Merge(a, b)) && Merge(a, b).addr == a.addr
  {
  }

  lemma {:induction false} MergeIs(a: Block, b: Block)
    ensures Merge(a, b) == a.(size := a.size + b.size + HEADER)
  {
  }

  /** No 32-bit sum of sizes wraps. */
  lemma {:induction false} MergedBounds(bs: seq<Block>, k: nat)
    requires Ordered(bs) && k + 1 < |bs|
    ensures Add32(bs[k].size, Add32(bs[k + 1].size, HEADER)) == bs[k].size + bs[k + 1].size + HEADER
  {
    assert BlockOk(bs[k]) && BlockOk(bs[k + 1]);
  }

  lemma {:induction false} ConsideredIs(ptr: int)
    ensures Considered(ptr) <==> START <= ptr <= START + SIZE
  {
  }

  lemma {:induction false} PayloadIs(b: Block)
    ensures Payload(b) == b.addr + HEADER
  {
  }

  lemma {:induction false} FreeNone(s: HeapState, ptr: int)
    requires !Considered(ptr)
    ensures Free(s, ptr, s)
  {
  }

  lemma {:induction false} FreeAgain(s: HeapState, i: nat)
    requires i < |s.blocks| && s.blocks[i].free
    ensures Free(s, Payload(s.blocks[i]), s)
  {
    assert FreeAt(s, i, s);
    hide Linked, OnlyHeaders;
  }

  lemma {:induction false} FreeSome(s: HeapState, i: nat, s': HeapState)
    requires i < |s.blocks| && !s.blocks[i].free && Considered(Payload(s.blocks[i]))
    requires s'.blocks == Freed(s.blocks, i) && s'.used == UsedSize(s'.blocks)
    requires Linked(s'.mem, s'.blocks) && OnlyHeaders(s.mem, s'.mem, s.blocks, s'.blocks)
    ensures Free(s, Payload(s.blocks[i]), s')
  {
    assert FreeAt(s, i, s');
    hide Linked, OnlyHeaders, Freed, UsedSize;
  }

  /** Subtracting a block's size from HeapUsed. */
  lemma {:induction false} FreedInv(s: HeapState, i: nat)
    requires Inv(s) && i < |s.blocks| && !s.blocks[i].free
    ensures Shape(Freed(s.blocks, i)) && Sub32(s.used, s.blocks[i].size) == UsedSize(Freed(s.blocks, i))
  {
    assert Shape(s.blocks) && s.used == UsedSize(s.blocks);
    hide *;
    FreedShape(s.blocks, i);
    ShapeOf(s.blocks);
    ShapeOf(Freed(s.blocks, i));
    WeightBound(s.blocks);
    WeightBound(Freed(s.blocks, i));
    Consts();
    SubDown(s.used, s.blocks[i].size);
  }

  lemma {:induction false} SubDown(a: int, b: int)
    requires 0 <= a - b < 0x1_0000_0000
    ensures Sub32(a, b) == a - b
  {
  }

  lemma {:induction false} MarkedShape(bs: seq<Block>, i: nat)
    requires Ordered(bs) && i < |bs| && !bs[i].free
    ensures var fs := bs[i := bs[i].(free := true)];
            Ordered(fs) && fs[0].addr == bs[0].addr && Freed(bs, i) == Coalesced(fs)
  {
    Marked(bs, i);
    hide Ordered;
  }

  lemma {:induction false} FreedHeaders(s: HeapState, m1: Memory, m2: Memory, i: nat, bs': seq<Block>)
    requires i < |s.blocks|
    requires var fs := s.blocks[i := s.blocks[i].(free := true)];
             Outside(s.mem, m1, fs[i], fs[i]) && OnlyHeaders(m1, m2, fs, fs)
    ensures OnlyHeaders(s.mem, m2, s.blocks, bs')
  {
    var fs := s.blocks[i := s.blocks[i].(free := true)];
    forall a | a in s.mem && !InHeaders(s.blocks, a)
      ensures m2[a] == s.mem[a]
    {
      assert !InHeader(s.blocks[i], a);
    }
  }

  // ----- the allocator -----

  class KernelHeap {
    var mem: Memory
    /** HeapFree: the first header. */
    var first: u32
    /** HeapUsed. */
    var used: u32
    ghost var blocks: seq<Block>

    ghost function State(): (s: HeapState)
      reads this
      ensures s.mem == mem && s.blocks == blocks && s.used == used
    {
      HeapState(mem, blocks, used)
    }

    ghost predicate Valid()
      reads this
    {
      first == START && Inv(State())
    }

    /** HeapInit: one free block with the whole heap size. */
    constructor (m: Memory)
      requires forall a | START <= a < LIMIT :: a in m
      ensures Valid() && blocks == [Block(START, SIZE, true)] && mem.Keys == m.Keys && used == 0
      ensures forall a | a in m && !InHeader(blocks[0], a) :: mem[a] == m[a]
    {
      first := START;
      used := 0;
      mem := m;
      blocks := [Block(START, SIZE, true)];
      new;
      NewHeader(START, SIZE, 0);
      OneBlock();
      hide HeaderAt;
      assert LinkAt(mem, blocks, 0);
    }

    /** One 32-bit field of the header at an address. */
    method PutWord(a: u32, off: nat, v: u32)
      requires Mapped(mem, a, HEADER) && (off == 0 || off == 4 || off == 8)
      modifies this`mem
      ensures Mapped(mem, a, HEADER) && Mapped(mem, a + off, 4) && Mapped(old(mem), a + off, 4)
      ensures mem == Put(old(mem), a + off, 4, v)
    {
      MappedPart(mem, a, HEADER, off, 4);
      mem := Put(mem, a + off, 4, v);
      hide Put;
    }

    method NewHeader(a: u32, size: u32, next: u32)
      requires Mapped(mem, a, HEADER) && a + HEADER < 0x1_0000_0000
      modifies this`mem
      ensures HeaderAt(mem, Block(a, size, true), next)
      ensures Outside(old(mem), mem, Block(a, size, true), Block(a, size, true))
    {
      hide *;
      ghost var b, was := Block(a, size, true), mem;
      Consts();
      PutField(mem, b, 0, size);
      PutWord(a, 0, size);
      PutField(mem, b, 4, a + HEADER);
      PutWord(a, 4, a + HEADER);
      PutFlag(mem, b, 1);
      FieldsMapped(mem, a);
      mem := mem[a + 12 := 1];
      PutField(mem, b, 8, next);
      PutWord(a, 8, next);
      PayloadIs(b);
      FieldsOf(mem, b, next);
      OutsideOwn(was, mem, b, b);
    }

    /** The flag of a block in the list. */
    method SetFlag(a: u32, ghost i: nat, free: bool)
      requires Linked(mem, blocks) && Ordered(blocks) && i < |blocks| && a == blocks[i].addr
      modifies this`mem, this`blocks
      ensures blocks == old(blocks)[i := old(blocks)[i].(free := free)]
      ensures Linked(mem, blocks) && Outside(old(mem), mem, blocks[i], blocks[i])
    {
      hide *;
      ghost var b := blocks[i].(free := free);
      LinkFacts(mem, blocks, i);
      FlagHeader(mem, blocks[i], NextAddr(blocks, i), free);
      ghost var m := mem;
      mem := mem[a + 12 := if free then 1 else 0];
      LinkedUpdate(m, mem, blocks, i, b);
      blocks := blocks[i := b];
    }

    /** Size and successor of a block in the list. */
    method SetExtent(a: u32, size: u32, next: u32, ghost b: Block, ghost next0: int)
      requires HeaderAt(mem, b, next0) && b.addr == a
      modifies this`mem
      ensures HeaderAt(mem, b.(size := size), next) && Outside(old(mem), mem, b, b)
    {
      hide *;
      ghost var c, was := b.(size := size), mem;
      HeaderFields(mem, b, next0);
      FieldsOf(mem, b, next0);
      PutField(mem, b, 8, next);
      PutWord(a, 8, next);
      PutField(mem, b, 0, size);
      PutWord(a, 0, size);
      PayloadIs(b);
      PayloadIs(c);
      FieldsOf(mem, c, next);
      OutsideOwn(was, mem, b, b);
    }

    /** HeapSanityCheck never panics. */
    method HeapSanityCheck() returns (corrupt: bool)
      requires Valid()
      ensures !corrupt
    {
      hide *;
      ValidFacts();
      Consts();
      var curr := first;
      ghost var i := 0;
      corrupt := false;
      while curr != 0
        invariant i <= |blocks| && !corrupt
        invariant curr == if i < |blocks| then blocks[i].addr else 0
        decreases |blocks| - i
      {
        LinkFacts(mem, blocks, i);
        HeaderFields(mem, blocks[i], NextAddr(blocks, i));
        NextIs(blocks, i);
        Consts();
        if curr < START || curr > START + SIZE {
          corrupt := true;
        }
        curr := Fetch32(mem, curr + 8);
        i := i + 1;
      }
    }

    lemma {:induction false} ValidFacts()
      requires Valid()
      ensures Inv(State()) && Shape(blocks)
      ensures Linked(mem, blocks) && Ordered(blocks) && blocks != [] && blocks[0].addr == START && first == START
      ensures used == UsedSize(blocks)
    {
      InvFacts(State());
      hide Inv, Linked, Ordered, UsedSize;
    }

    /** The second half of a block becomes a block of its own. */
    method SplitOff(curr: u32, n: u32, over: u32, new_addr: u32, ghost i: nat)
      requires Linked(mem, blocks) && Ordered(blocks) && i < |blocks| && curr == blocks[i].addr
      requires Splits(blocks[i], n) && n % HEADER == 0 && new_addr == curr + HEADER + n && over == n + HEADER
      modifies this`mem, this`blocks
      ensures blocks == Parted(old(blocks), i, n)
      ensures Linked(mem, blocks) && Ordered(blocks)
      ensures Outside(old(mem), mem, old(blocks)[i], Second(old(blocks)[i], n))
    {
      hide *;
      ghost var m, bs, b := mem, blocks, blocks[i];
      ghost var c := Second(b, n);
      LinkFacts(m, bs, i);
      HeaderFields(m, b, NextAddr(bs, i));
      SecondFacts(m, bs, i, n);
      NewHeader(new_addr, Sub32(Sub32(Fetch32(mem, curr), n), over), Fetch32(mem, curr + 8));
      ghost var m1 := mem;
      HeaderKept(m, m1, b, NextAddr(bs, i), c);
      SetExtent(curr, n, new_addr, b, NextAddr(bs, i));
      HeaderKept(m1, mem, c, NextAddr(bs, i), b);
      OutsideBoth(m, m1, mem, b, c, b.(size := n));
      LinkedSplit(m, mem, bs, i, b.(size := n), c);
      PartedOrdered(bs, i, n);
      blocks := Parted(bs, i, n);
    }

    /** Splits the block found, or takes it whole. */
    method Take(curr: u32, n: u32, ghost i: nat)
      requires Valid() && 0 <= n && i < |blocks| && curr == blocks[i].addr && Fits(blocks[i], n) && n % HEADER == 0
      modifies this
      ensures first == old(first) && blocks == Allocated(old(blocks), i, n)
      ensures Linked(mem, blocks) && OnlyHeaders(old(mem), mem, old(blocks), blocks)
      ensures used == UsedSize(blocks)
    {
      hide *;
      ValidFacts();
      ghost var m, bs, b := mem, blocks, blocks[i];
      TakeFacts(m, bs, i, n);
      AllocatedOf(bs, i, n);
      OutsideRefl(m, b, Second(b, n));
      var addr := Fetch32(mem, curr + 4);
      var x := Add32(addr, Add32(n, HEADER - 1));
      var new_addr := x - x % HEADER;
      var over := Add32(Sub32(new_addr, addr), HEADER);
      if Fetch32(mem, curr) >= Add32(n, over) {
        SplitOff(curr, n, over, new_addr, i);
      }
      ghost var m1, bs1 := mem, blocks;
      FlagIndex(bs, i, n, bs1);
      SetFlag(curr, i, false);
      TakenFacts(m, m1, mem, bs, i, n);
      used := Add32(used, Fetch32(mem, curr));
    }

    /** HeapAlloc: the pointer to the payload, 0 when no free block is big enough. */
    method HeapAlloc(size: u32) returns (ptr: u32)
      requires Valid()
      modifies this
      ensures Valid() && Alloc(old(State()), size, ptr, State())
    {
      hide *;
      ValidFacts();
      Consts();
      RoundedCovers(size);
      ghost var s := State();
      var n := Aligned32(size);
      var curr := first;
      ghost var i := 0;
      while curr != 0
        invariant Valid() && first == START && Linked(mem, blocks) && Ordered(blocks)
        invariant i <= |blocks| && State() == s && (curr == 0 <==> i == |blocks|)
        invariant curr == if i < |blocks| then blocks[i].addr else 0
        invariant forall j | 0 <= j < i :: !Fits(blocks[j], n)
        decreases |blocks| - i
      {
        LinkFacts(mem, blocks, i);
        HeaderFields(mem, blocks[i], NextAddr(blocks, i));
        NextIs(blocks, i);
        FitsIs(blocks[i], n);
        if mem[curr + 12] != 0 && Fetch32(mem, curr) >= n {
          FirstFitIs(blocks, n, i);
          ptr := Fetch32(mem, curr + 4);
          AllocInv(s, i, n);
          Take(curr, n, i);
          AllocSome(s, size, i, ptr, State());
          ValidOf();
          var corrupt := HeapSanityCheck();
          return;
        }
        curr := Fetch32(mem, curr + 8);
        i := i + 1;
      }
      FirstFitIs(blocks, n, |blocks|);
      AllocNone(s, size);
      var corrupt := HeapSanityCheck();
      return 0;
    }

    lemma {:induction false} ValidOf()
      requires Shape(blocks) && Linked(mem, blocks) && used == UsedSize(blocks) && first == START
      ensures Valid()
    {
    }

    /** The loop of HeapFreePtr over the whole list. */
    method Coalesce()
      requires Linked(mem, blocks) && Ordered(blocks) && blocks != [] && blocks[0].addr == START && first == START
      modifies this`mem, this`blocks
      ensures blocks == Coalesced(old(blocks)) && Linked(mem, blocks)
      ensures OnlyHeaders(old(mem), mem, old(blocks), old(blocks))
    {
      hide *;
      Consts();
      ghost var m, bs, k := mem, blocks, 0;
      var curr := first;
      CoverRefl(m, bs);
      assert blocks[..0] + Coalesced(blocks[0..]) == Coalesced(bs) by { assert blocks[0..] == bs; }
      LinkFacts(mem, blocks, 0);
      HeaderFields(mem, blocks[0], NextAddr(blocks, 0));
      while curr != 0 && Fetch32(mem, curr + 8) != 0
        invariant Linked(mem, blocks) && Ordered(blocks) && k < |blocks| && blocks[0].addr == START
        invariant NextAddr(blocks, k) == 0 <==> k + 1 == |blocks|
        invariant curr == blocks[k].addr && START <= curr && curr + HEADER <= LIMIT
        invariant Mapped(mem, curr + 8, 4) && Fetch32(mem, curr + 8) == NextAddr(blocks, k)
        invariant Covered(m, mem, bs, blocks)
        invariant blocks[..k] + Coalesced(blocks[k..]) == Coalesced(bs)
        decreases |blocks| - k
      {
        LinkFacts(mem, blocks, k);
        HeaderFields(mem, blocks[k], NextAddr(blocks, k));
        NextIs(blocks, k);
        LinkFacts(mem, blocks, k + 1);
        HeaderFields(mem, blocks[k + 1], NextAddr(blocks, k + 1));
        CoalescedStep(blocks, k);
        var next := Fetch32(mem, curr + 8);
        if mem[curr + 12] != 0 && mem[next + 12] != 0 {
          MergedBounds(blocks, k);
          ghost var m1, bs1 := mem, blocks;
          SetExtent(curr, Add32(Fetch32(mem, curr), Add32(Fetch32(mem, next), HEADER)), Fetch32(mem, next + 8),
                    blocks[k], NextAddr(blocks, k));
          MergeIs(bs1[k], bs1[k + 1]);
          OutsideMerge(m1, mem, bs1[k], bs1[k + 1]);
          LinkedMerge(m1, mem, bs1, k, Merge(bs1[k], bs1[k + 1]));
          CoverMerge(m, m1, mem, bs, bs1, k);
          blocks := Joined(bs1, k);
          JoinedIndex(bs1, k);
        } else {
          k := k + 1;
          curr := Fetch32(mem, curr + 8);
        }
        LinkFacts(mem, blocks, k);
        HeaderFields(mem, blocks[k], NextAddr(blocks, k));
      }
      NextIs(blocks, k);
      CoalescedEnd(blocks, k);
      CoverHeaders(m, mem, bs, blocks);
    }

    /** HeapFreePtr: frees a block in use; nothing happens for a pointer outside the heap or a
        block that is free already. */
    method HeapFreePtr(ptr: u32)
      requires Valid() && (Considered(ptr) ==> exists i :: 0 <= i < |blocks| && ptr == Payload(blocks[i]))
      modifies this
      ensures Valid() && Free(old(State()), ptr, State())
    {
      hide *;
      ValidFacts();
      Consts();
      ghost var s := State();
      ConsideredIs(ptr);
      if ptr == 0 {
        FreeNone(s, ptr);
        return;
      }
      if ptr < START || ptr > START + SIZE {
        FreeNone(s, ptr);
        return;
      }
      ghost var i :| 0 <= i < |blocks| && ptr == Payload(blocks[i]);
      LinkFacts(mem, blocks, i);
      HeaderFields(mem, blocks[i], NextAddr(blocks, i));
      PayloadIs(blocks[i]);
      var block := ptr - HEADER;
      if mem[block + 12] != 0 {
        FreeAgain(s, i);
        return;
      }
      FreedInv(s, i);
      used := Sub32(used, Fetch32(mem, block));
      SetFlag(block, i, true);
      ghost var m1, bs1 := mem, blocks;
      MarkedShape(s.blocks, i);
      Coalesce();
      FreedHeaders(s, m1, mem, i, blocks);
      FreeSome(s, i, State());
      ValidOf();
      var corrupt := HeapSanityCheck();
    }
  }
}
