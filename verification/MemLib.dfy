/** Copying, clearing and reallocating heap memory. */
module MemLib {
  import opened Sequences
  import opened Words
  import opened Ram
  import opened HeapBlocks
  import opened Heap
  import opened HeapRun

  // ----- bytes in memory -----

  function BytesAt(m: Memory, a: int, n: nat): (s: seq<byte>)
    requires Mapped(m, a, n)
    ensures |s| == n
    decreases n
  {
    if n == 0 then [] else [m[a]] + BytesAt(m, a + 1, n - 1)
  }

  lemma {:induction false} BytesSame(m: Memory, m': Memory, a: int, n: nat)
    requires Mapped(m, a, n) && Mapped(m', a, n) && forall k | a <= k < a + n :: m'[k] == m[k]
    ensures BytesAt(m', a, n) == BytesAt(m, a, n)
    decreases n
  {
    if n > 0 {
      BytesSame(m, m', a + 1, n - 1);
    }
  }

  lemma {:induction false} BytesPlus(m: Memory, a: int, n: nat, k: nat)
    requires Mapped(m, a, n + k)
    ensures Mapped(m, a, n) && Mapped(m, a + n, k)
    ensures BytesAt(m, a, n + k) == BytesAt(m, a, n) + BytesAt(m, a + n, k)
    decreases n
  {
    if n > 0 {
      BytesPlus(m, a + 1, n - 1, k);
      Assoc([m[a]], BytesAt(m, a + 1, n - 1), BytesAt(m, a + n, k));
    } else {
      assert [] + BytesAt(m, a, k) == BytesAt(m, a, k);
    }
  }

  lemma {:induction false} FetchBytes(m: Memory, a: int, n: nat)
    requires Mapped(m, a, n)
    ensures Fetch(m, a, n) == LeValue(BytesAt(m, a, n))
    decreases n
  {
    if n > 0 {
      FetchBytes(m, a + 1, n - 1);
      assert BytesAt(m, a, n)[1..] == BytesAt(m, a + 1, n - 1);
    }
  }

  // ----- what the heap leaves alone -----

  ghost predicate SamePayload(m: Memory, m': Memory, d: Block) {
    forall a | InPayload(d, a) :: a in m && a in m' && m'[a] == m[a]
  }

  /** All these blocks hold the same bytes. */
  ghost predicate Kept(m: Memory, m': Memory, ds: set<Block>) {
    forall d | d in ds :: SamePayload(m, m', d)
  }

  lemma {:induction false} KeptTrans(a: Memory, b: Memory, c: Memory, ds: set<Block>, es: set<Block>)
    requires Kept(a, b, ds) && Kept(b, c, es)
    ensures Kept(a, c, ds * es)
  {
  }

  lemma {:induction false} KeptLess(a: Memory, b: Memory, ds: set<Block>, es: set<Block>)
    requires Kept(a, b, ds) && es <= ds
    ensures Kept(a, b, es)
  {
    hide SamePayload;
  }

  lemma {:induction false} AllocKeeps(s: HeapState, size: u32, ptr: int, s': HeapState)
    requires Inv(s) && Alloc(s, size, ptr, s')
    ensures Kept(s.mem, s'.mem, Used(s.blocks))
  {
    var act := AllocOf(size, ptr);
    assert Step(s, act, s');
    hide Step, Alloc, Inv, InPayload, Used;
    forall d, a | d in Used(s.blocks) && InPayload(d, a)
      ensures a in s.mem && a in s'.mem && s'.mem[a] == s.mem[a]
    {
      StepPayload(s, act, s', d, a);
    }
  }

  /** Freeing a block that is in use takes just that block away. */
  lemma {:induction false} FreeTakes(s: HeapState, ptr: int, s': HeapState, b: Block)
    requires Inv(s) && Free(s, ptr, s') && b in Used(s.blocks) && ptr == Payload(b) && Considered(ptr)
    ensures Used(s'.blocks) == Used(s.blocks) - {b}
    ensures Kept(s.mem, s'.mem, Used(s'.blocks))
  {
    hide *;
    InvFacts(s);
    ShapeFacts(s);
    UsedIn(s.blocks, b);
    var i := FreedBlock(s, ptr, s', b);
    FreedShape(s.blocks, i);
    FreeKeeps(s, ptr, s', b);
  }

  lemma {:induction false} FreedBlock(s: HeapState, ptr: int, s': HeapState, b: Block) returns (i: nat)
    requires Ordered(s.blocks) && Free(s, ptr, s') && b in s.blocks && !b.free && ptr == Payload(b) && Considered(ptr)
    ensures i < |s.blocks| && s.blocks[i] == b && s'.blocks == Freed(s.blocks, i)
  {
    i :| 0 <= i < |s.blocks| && ptr == Payload(s.blocks[i]) && FreeAt(s, i, s');
    var j :| 0 <= j < |s.blocks| && s.blocks[j] == b;
    hide Linked, OnlyHeaders, Freed, UsedSize, Ordered;
    if i != j {
      BlocksDisjoint(s.blocks, i, j);
    }
  }

  lemma {:induction false} FreeKeeps(s: HeapState, ptr: int, s': HeapState, b: Block)
    requires Inv(s) && Free(s, ptr, s') && ptr == Payload(b) && Used(s'.blocks) == Used(s.blocks) - {b}
    requires Ordered(s.blocks) && b in Used(s.blocks)
    ensures Kept(s.mem, s'.mem, Used(s'.blocks))
  {
    var act := FreeOf(ptr);
    assert Step(s, act, s');
    forall d | d in Used(s'.blocks)
      ensures Payload(d) != Payload(b)
    {
      var i :| 0 <= i < |s.blocks| && s.blocks[i] == b;
      var j :| 0 <= j < |s.blocks| && s.blocks[j] == d;
      BlocksDisjoint(s.blocks, i, j);
    }
    hide Step, Free, Inv, InPayload, Used, Ordered, Payload;
    forall d, a | d in Used(s'.blocks) && InPayload(d, a)
      ensures a in s.mem && a in s'.mem && s'.mem[a] == s.mem[a]
    {
      StepPayload(s, act, s', d, a);
    }
  }

  /** A used block's payload is memory. */
  lemma {:induction false} PayloadMapped(s: HeapState, b: Block)
    requires Inv(s) && b in Used(s.blocks)
    ensures Mapped(s.mem, Payload(b), b.size) && b.size >= 0 && START + HEADER <= Payload(b)
    ensures Payload(b) + b.size <= LIMIT
  {
    hide *;
    InvFacts(s);
    UsedIn(s.blocks, b);
    var i :| 0 <= i < |s.blocks| && s.blocks[i] == b;
    BlockBounds(s.blocks, i);
    HeapMapped(s.mem, s.blocks, Payload(b), b.size);
  }

  lemma {:induction false} BlockBounds(bs: seq<Block>, i: nat)
    requires Ordered(bs) && i < |bs|
    ensures var b := bs[i];
            b.size >= 0 && START <= Payload(b) && START + HEADER <= Payload(b) && Payload(b) + b.size <= LIMIT
  {
    assert BlockOk(bs[i]);
  }

  // ----- copying and clearing -----

  /** The bytes [a, a + n) lie in the payload of a block in use. */
  ghost predicate Within(bs: seq<Block>, b: Block, a: int, n: nat) {
    b in Used(bs) && Payload(b) <= a && a + n <= End(b)
  }

  lemma {:induction false} WithinOwned(bs: seq<Block>, b: Block, a: int, n: nat, k: nat)
    requires Within(bs, b, a, n) && k < n
    ensures Owned(bs, a + k)
  {
    assert InPayload(b, a + k);
  }

  method StoreByte(heap: KernelHeap, a: int, v: byte)
    requires heap.Valid() && Owned(heap.blocks, a)
    modifies heap`mem
    ensures heap.Valid() && a in old(heap.mem) && heap.mem == old(heap.mem)[a := v]
  {
    heap.ValidFacts();
    WriteKeeps(heap.State(), a, v);
    hide Owned, Shape, Linked, UsedSize;
    heap.mem := heap.mem[a := v];
  }

  /** MemCpy from outside the heap: one byte after the other, from the front. */
  method MemCpyFrom(heap: KernelHeap, dst: u32, src: seq<byte>, ghost b: Block)
    requires heap.Valid() && Within(heap.blocks, b, dst, |src|)
    modifies heap`mem
    ensures heap.Valid() && Mapped(heap.mem, dst, |src|) && BytesAt(heap.mem, dst, |src|) == src
    ensures heap.mem.Keys == old(heap.mem).Keys
    ensures forall a | a in heap.mem && !(dst <= a < dst + |src|) :: heap.mem[a] == old(heap.mem)[a]
  {
    hide Within, Owned, Inv;
    ghost var m := heap.mem;
    WithinMapped(heap, b, dst, |src|);
    var i := 0;
    while i < |src|
      invariant 0 <= i <= |src| && heap.Valid() && heap.mem.Keys == m.Keys
      invariant Mapped(heap.mem, dst, |src|)
      invariant forall a | a in m && !(dst <= a < dst + i) :: heap.mem[a] == m[a]
      invariant forall k | 0 <= k < i :: heap.mem[dst + k] == src[k]
    {
      WithinOwned(heap.blocks, b, dst, |src|, i);
      StoreByte(heap, dst + i, src[i]);
      i := i + 1;
    }
    BytesAre(heap.mem, dst, src);
  }

  /** MemCpy between two places that do not overlap. */
  method MemCpy(heap: KernelHeap, dst: u32, src: u32, n: nat, ghost b: Block)
    requires heap.Valid() && Within(heap.blocks, b, dst, n)
    requires Mapped(heap.mem, src, n) && (src + n <= dst || dst + n <= src)
    modifies heap`mem
    ensures heap.Valid() && Mapped(heap.mem, dst, n) && BytesAt(heap.mem, dst, n) == BytesAt(old(heap.mem), src, n)
    ensures heap.mem.Keys == old(heap.mem).Keys
    ensures forall a | a in heap.mem && !(dst <= a < dst + n) :: heap.mem[a] == old(heap.mem)[a]
  {
    hide Within, Owned, Inv, BytesAt;
    ghost var m := heap.mem;
    WithinMapped(heap, b, dst, n);
    ghost var bytes := BytesAt(m, src, n);
    for i := 0 to n
      invariant heap.Valid() && heap.mem.Keys == m.Keys
      invariant forall a | a in m && !(dst <= a < dst + i) :: heap.mem[a] == m[a]
      invariant forall k | 0 <= k < i :: heap.mem[dst + k] == bytes[k]
    {
      WithinOwned(heap.blocks, b, dst, n, i);
      ByteAt(m, src, n, i);
      StoreByte(heap, dst + i, heap.mem[src + i]);
    }
    BytesAre(heap.mem, dst, bytes);
  }

  lemma {:induction false} ByteAt(m: Memory, a: int, n: nat, k: nat)
    requires Mapped(m, a, n) && k < n
    ensures BytesAt(m, a, n)[k] == m[a + k]
    decreases n
  {
    if k > 0 {
      ByteAt(m, a + 1, n - 1, k - 1);
    }
  }

  /** MCAlloc: fresh memory, all zero. */
  method MCAlloc(heap: KernelHeap, elem: u32, count: u32) returns (ptr: u32, ghost b: Block)
    requires heap.Valid() && 1 <= elem * count <= 0x1_0000_0000 - 16
    requires FirstFit(heap.blocks, Rounded(elem * count)).Some?
    modifies heap
    ensures heap.Valid() && ptr == Payload(b) && Within(heap.blocks, b, ptr, elem * count)
    ensures Used(heap.blocks) == Used(old(heap.blocks)) + {b} && b !in Used(old(heap.blocks))
    ensures Kept(old(heap.mem), heap.mem, Used(old(heap.blocks)))
    ensures AllConsidered(old(heap.blocks)) ==> AllConsidered(heap.blocks)
    ensures Mapped(heap.mem, ptr, elem * count) && BytesAt(heap.mem, ptr, elem * count) == Zeros(elem * count)
    ensures heap.blocks == Allocated(old(heap.blocks), FirstFit(old(heap.blocks), Rounded(elem * count)).value,
                                     Rounded(elem * count))
  {
    hide *;
    var size: nat := elem * count;
    ghost var m0, bs0 := heap.mem, heap.blocks;
    ptr, b := MAlloc(heap, size);
    ghost var m1, bs1 := heap.mem, heap.blocks;
    heap.ValidFacts();
    ghost var s := heap.State();
    MemCpyFrom(heap, ptr, Zeros(size), b);
    OthersKept(s, heap.mem, b, ptr, size);
    KeptTrans(m0, m1, heap.mem, Used(bs0), Used(bs1) - {b});
    KeptLess(m0, heap.mem, Used(bs0) * (Used(bs1) - {b}), Used(bs0));
  }

  lemma {:induction false} BytesAre(m: Memory, a: int, s: seq<byte>)
    requires Mapped(m, a, |s|) && forall k | 0 <= k < |s| :: m[a + k] == s[k]
    ensures BytesAt(m, a, |s|) == s
    decreases |s|
  {
    if s != [] {
      forall k | 0 <= k < |s| - 1
        ensures m[a + 1 + k] == s[1..][k]
      {
        assert m[a + (k + 1)] == s[k + 1];
      }
      assert m[a + 0] == s[0];
      BytesAre(m, a + 1, s[1..]);
    }
  }

  lemma {:induction false} WithinMapped(heap: KernelHeap, b: Block, a: int, n: nat)
    requires heap.Valid() && Within(heap.blocks, b, a, n)
    ensures Mapped(heap.mem, a, n)
  {
    PayloadMapped(heap.State(), b);
    hide Inv;
  }

  /** Writes to one block leave the others alone. */
  lemma {:induction false} OthersKept(s: HeapState, m': Memory, b: Block, a: int, n: nat)
    requires Inv(s) && Within(s.blocks, b, a, n) && m'.Keys == s.mem.Keys
    requires forall k | k in m' && !(a <= k < a + n) :: m'[k] == s.mem[k]
    ensures Kept(s.mem, m', Used(s.blocks) - {b})
  {
    InvFacts(s);
    hide Inv, Linked, UsedSize, Ordered;
    forall d, k | d in Used(s.blocks) - {b} && InPayload(d, k)
      ensures k in s.mem && m'[k] == s.mem[k]
    {
      UsedApart(s.blocks, b, d);
      PayloadMapped(s, d);
      assert k in s.mem;
    }
  }

  lemma {:induction false} UsedApart(bs: seq<Block>, b: Block, d: Block)
    requires Ordered(bs) && b in Used(bs) && d in Used(bs) && b != d
    ensures End(b) <= d.addr || End(d) <= b.addr
  {
    var i :| 0 <= i < |bs| && bs[i] == b;
    var j :| 0 <= j < |bs| && bs[j] == d;
    BlocksDisjoint(bs, i, j);
  }

  // ----- allocating -----

  /** HeapAlloc where it succeeds: a new block beside all others. */
  method MAlloc(heap: KernelHeap, size: u32) returns (ptr: u32, ghost b: Block)
    requires heap.Valid() && 1 <= size <= 0x1_0000_0000 - 16 && FirstFit(heap.blocks, Rounded(size)).Some?
    modifies heap
    ensures heap.Valid() && ptr == Payload(b) && b.size >= size && ptr != 0
    ensures Used(heap.blocks) == Used(old(heap.blocks)) + {b} && b !in Used(old(heap.blocks))
    ensures Kept(old(heap.mem), heap.mem, Used(old(heap.blocks)))
    ensures Within(heap.blocks, b, ptr, size)
    ensures AllConsidered(old(heap.blocks)) ==> AllConsidered(heap.blocks)
    ensures heap.blocks == Allocated(old(heap.blocks), FirstFit(old(heap.blocks), Rounded(size)).value, Rounded(size))
  {
    hide *;
    heap.ValidFacts();
    ghost var s := heap.State();
    RoundedCovers(size);
    ptr := heap.HeapAlloc(size);
    heap.ValidFacts();
    ghost var s' := heap.State();
    b := AllocGives(s, size, ptr, s');
    AllocCases(s, size, ptr, s');
    AllocKeeps(s, size, ptr, s');
    NewUsed(s, size, ptr, s', b);
    if AllConsidered(s.blocks) {
      AllocConsidered(s, size, ptr, s');
    }
  }

  lemma {:induction false} AllocConsidered(s: HeapState, size: u32, ptr: int, s': HeapState)
    requires Inv(s) && Alloc(s, size, ptr, s') && 1 <= size <= 0x1_0000_0000 - 16 && AllConsidered(s.blocks)
    ensures AllConsidered(s'.blocks)
  {
    assert Step(s, AllocOf(size, ptr), s');
    hide Inv, Alloc, Step, AllConsidered;
    StepConsidered(s, AllocOf(size, ptr), s');
  }

  lemma {:induction false} NewUsed(s: HeapState, size: u32, ptr: int, s': HeapState, b: Block)
    requires Inv(s) && Inv(s') && Alloc(s, size, ptr, s') && ptr != 0 && Payload(b) == ptr && b.size >= size
    requires Used(s'.blocks) == Used(s.blocks) + {b}
    ensures b !in Used(s.blocks) && Within(s'.blocks, b, ptr, size)
  {
    InvFacts(s);
    AllocCases(s, size, ptr, s');
    var i := FirstFit(s.blocks, Rounded(size)).value;
    hide Inv, Alloc, FirstFit, Linked, Rounded, OnlyHeaders, Ordered, UsedSize, Allocated;
    if b in Used(s.blocks) {
      var j :| 0 <= j < |s.blocks| && s.blocks[j] == b;
      BlocksDisjoint(s.blocks, i, j);
    }
  }

  method MFree(heap: KernelHeap, ptr: u32, ghost b: Block)
    requires heap.Valid() && b in Used(heap.blocks) && ptr == Payload(b) && AllConsidered(heap.blocks)
    modifies heap
    ensures heap.Valid() && Used(heap.blocks) == Used(old(heap.blocks)) - {b}
    ensures Kept(old(heap.mem), heap.mem, Used(heap.blocks)) && AllConsidered(heap.blocks)
  {
    hide *;
    heap.ValidFacts();
    ghost var s := heap.State();
    UsedIn(s.blocks, b);
    ConsideredOf(s.blocks, b);
    ghost var i :| 0 <= i < |s.blocks| && s.blocks[i] == b;
    heap.HeapFreePtr(ptr);
    heap.ValidFacts();
    FreeTakes(s, ptr, heap.State(), b);
    FreeConsidered(s, ptr, heap.State());
  }

  lemma {:induction false} ConsideredOf(bs: seq<Block>, b: Block)
    requires AllConsidered(bs) && b in bs
    ensures Considered(Payload(b))
  {
  }

  lemma {:induction false} FreeConsidered(s: HeapState, ptr: int, s': HeapState)
    requires Inv(s) && Free(s, ptr, s') && AllConsidered(s.blocks)
    ensures AllConsidered(s'.blocks)
  {
    assert Step(s, FreeOf(ptr), s');
    hide Inv, Free, Step, AllConsidered;
    StepConsidered(s, FreeOf(ptr), s');
  }

  /** MReAlloc: a new block with the old bytes in front; the old block is gone, the rest stays. */
  method MReAlloc(heap: KernelHeap, ptr: u32, olds: u32, news: u32, ghost b: Block) returns (p: u32, ghost c: Block)
    requires heap.Valid() && AllConsidered(heap.blocks)
    requires 1 <= news <= 0x1_0000_0000 - 16 && FirstFit(heap.blocks, Rounded(news)).Some?
    requires Within(heap.blocks, b, ptr, olds) && ptr == Payload(b)
    modifies heap
    ensures heap.Valid() && AllConsidered(heap.blocks) && p == Payload(c) && Within(heap.blocks, c, p, news)
    ensures Used(heap.blocks) == Used(old(heap.blocks)) - {b} + {c} && c !in Used(old(heap.blocks))
    ensures Kept(old(heap.mem), heap.mem, Used(old(heap.blocks)) - {b})
    ensures var n := if olds < news then olds else news;
            && Mapped(old(heap.mem), ptr, n) && Mapped(heap.mem, p, n)
            && BytesAt(heap.mem, p, n) == BytesAt(old(heap.mem), ptr, n)
  {
    hide *;
    ghost var m0, bs0 := heap.mem, heap.blocks;
    WithinIs(bs0, b, ptr, olds);
    p, c := MAlloc(heap, news);
    ghost var m1, bs1 := heap.mem, heap.blocks;
    var n := if olds < news then olds else news;
    WithinIs(bs0, b, ptr, n);
    WithinIs(bs1, b, ptr, n);
    WithinIs(bs1, c, p, n);
    WithinIs(bs1, c, p, news);
    WithinMapped(heap, b, ptr, n);
    KeptBytes(m0, m1, bs0, b, ptr, n);
    ghost var s := heap.State();
    heap.ValidFacts();
    UsedApart(bs1, b, c);
    PayloadIs(b);
    PayloadIs(c);
    Consts();
    MemCpy(heap, p, ptr, n, c);
    ghost var m2 := heap.mem;
    OthersKept(s, m2, c, p, n);
    MFree(heap, ptr, b);
    ghost var m3 := heap.mem;
    WithinIs(heap.blocks, c, p, n);
    WithinIs(heap.blocks, c, p, news);
    KeptTrans(m0, m1, m2, Used(bs0), Used(bs1) - {c});
    KeptTrans(m0, m2, m3, Used(bs0) * (Used(bs1) - {c}), Used(heap.blocks));
    KeptLess(m0, m3, Used(bs0) * (Used(bs1) - {c}) * Used(heap.blocks), Used(bs0) - {b});
    KeptBytes(m2, m3, heap.blocks, c, p, n);
  }

  lemma {:induction false} WithinIs(bs: seq<Block>, b: Block, a: int, n: nat)
    ensures Within(bs, b, a, n) <==> b in Used(bs) && Payload(b) <= a && a + n <= End(b)
    ensures End(b) == Payload(b) + b.size
  {
  }

  lemma {:induction false} KeptBytes(m: Memory, m': Memory, bs: seq<Block>, b: Block, a: int, n: nat)
    requires Kept(m, m', Used(bs)) && Within(bs, b, a, n) && (Mapped(m, a, n) || Mapped(m', a, n))
    ensures Mapped(m, a, n) && Mapped(m', a, n) && BytesAt(m', a, n) == BytesAt(m, a, n)
  {
    assert SamePayload(m, m', b);
    assert forall k | a <= k < a + n :: InPayload(b, k);
    BytesSame(m, m', a, n);
    hide BytesAt;
  }
}
