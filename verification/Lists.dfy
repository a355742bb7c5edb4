/** Growable lists in heap memory. */
module Lists {
  import opened Wrappers
  import opened Words
  import opened Ram
  import opened HeapBlocks
  import opened Heap
  import opened HeapRun
  import opened MemLib

  /** How many elements ListInit makes room for, whatever it writes to `length`. */
  const ROOM := 8

  /** The elements of a list: count pieces of the given size, one behind the other. */
  function Elements(m: Memory, a: int, elem: nat, count: nat): (s: seq<seq<byte>>)
    requires Mapped(m, a, count * elem)
    ensures |s| == count
    decreases count
  {
    if count == 0 then []
    else
      Snoc(count, elem);
      Elements(m, a, elem, count - 1) + [BytesAt(m, a + (count - 1) * elem, elem)]
  }

  lemma {:induction false} Snoc(count: nat, elem: nat)
    requires count > 0
    ensures (count - 1) * elem >= 0 && count * elem == (count - 1) * elem + elem
  {
    MulMono(count - 1, 0, elem);
  }

  /** Equal bytes are equal elements, wherever they lie. */
  lemma {:induction false} ElementsSame(m: Memory, a: int, m': Memory, a': int, elem: nat, count: nat)
    requires Mapped(m, a, count * elem) && Mapped(m', a', count * elem)
    requires BytesAt(m, a, count * elem) == BytesAt(m', a', count * elem)
    ensures Elements(m, a, elem, count) == Elements(m', a', elem, count)
    decreases count
  {
    if count > 0 {
      Snoc(count, elem);
      var n := (count - 1) * elem;
      BytesPlus(m, a, n, elem);
      BytesPlus(m', a', n, elem);
      TwoParts(BytesAt(m, a, n), BytesAt(m, a + n, elem), BytesAt(m', a', n), BytesAt(m', a' + n, elem));
      hide BytesAt;
      ElementsSame(m, a, m', a', elem, count - 1);
    }
  }

  lemma {:induction false} TwoParts(a: seq<byte>, b: seq<byte>, c: seq<byte>, d: seq<byte>)
    requires a + b == c + d && |a| == |c|
    ensures a == c && b == d
  {
    assert a == (a + b)[..|a|] && c == (c + d)[..|c|];
    assert b == (a + b)[|a|..] && d == (c + d)[|c|..];
  }

  lemma {:induction false} ElementsOf(m: Memory, a: int, elem: nat, count: nat)
    requires Mapped(m, a, (count + 1) * elem)
    ensures count * elem >= 0 && (count + 1) * elem == count * elem + elem
    ensures Mapped(m, a, count * elem) && Mapped(m, a + count * elem, elem)
    ensures Elements(m, a, elem, count + 1) == Elements(m, a, elem, count) + [BytesAt(m, a + count * elem, elem)]
  {
    Snoc(count + 1, elem);
    MappedPart(m, a, (count + 1) * elem, count * elem, elem);
    MappedPart(m, a, (count + 1) * elem, 0, count * elem);
    hide BytesAt;
  }

  lemma {:induction false} RoundedEight(elem: int)
    requires 1 <= elem < 0x1000_0000
    ensures Rounded(ROOM * elem) == ROOM * elem + (if elem % 2 == 0 then 0 else 8)
  {
    var k := elem / 2;
    if elem % 2 == 0 {
      assert ROOM * elem + HEADER - 1 == HEADER * k + 15;
    } else {
      assert ROOM * elem + HEADER - 1 == HEADER * (k + 1) + 7;
    }
  }

  // ----- the block that ListInit gets -----

  /** What HeapAlloc gives for n bytes: all of the first block that fits, unless that splits. */
  function Granted(bs: seq<Block>, n: int): int
    requires FirstFit(bs, n).Some?
  {
    var b := bs[FirstFit(bs, n).value];
    if Splits(b, n) then n else b.size
  }

  /** Less than a header more than twice the request, and so at most twice the rounded one. */
  lemma {:induction false} GrantedBounds(bs: seq<Block>, n: int)
    requires Ordered(bs) && n >= 0 && n % HEADER == 0 && FirstFit(bs, n).Some?
    ensures n <= Granted(bs, n) <= 2 * n && Granted(bs, n) <= SIZE
  {
    var b := bs[FirstFit(bs, n).value];
    assert BlockOk(b);
    Consts();
    if !Splits(b, n) {
      Whole16(n, b.size);
    }
  }

  lemma {:induction false} Whole16(n: int, size: int)
    requires n % 16 == 0 && size % 16 == 0 && size < n + n + 16
    ensures size <= 2 * n
  {
    var i, j := n / 16, size / 16;
    assert n == 16 * i && size == 16 * j;
  }

  /** The fresh heap splits for every request of up to half its size. */
  lemma {:induction false} GrantedFresh(n: int)
    requires 0 <= n && n + n + HEADER <= SIZE
    ensures var bs := [Block(START, SIZE, true)]; FirstFit(bs, n) == Some(0) && Granted(bs, n) == n
  {
    FirstFitIs([Block(START, SIZE, true)], n, 0);
  }

  lemma {:induction false} TakenGranted(bs: seq<Block>, n: int, own: Block)
    requires Ordered(bs) && FirstFit(bs, n).Some? && n >= 0 && own !in Used(bs)
    requires Used(Allocated(bs, FirstFit(bs, n).value, n)) == Used(bs) + {own}
    ensures own.size == Granted(bs, n)
  {
    var i := FirstFit(bs, n).value;
    AllocatedSums(bs, i, n);
    var t := Taken(bs[i], n)[0];
    hide Used, Ordered, Allocated, FirstFit, UsedSize, Weight;
    assert t in Used(bs) + {own};
  }

  /** A list of elements of this size never leaves its first block, in this heap: `length` says
      that elem elements fit before the list has to grow. */
  predicate SafeOn(bs: seq<Block>, elem: int)
    requires 1 <= elem && ROOM * elem <= 0x1_0000_0000 - 16
  {
    FirstFit(bs, Rounded(ROOM * elem)).Some? ==> elem * elem <= Granted(bs, Rounded(ROOM * elem))
  }

  /** Of the sizes that any heap serves, lists are safe on every heap for those up to 8 bytes alone. */
  lemma {:induction false} SafeEverywhere(elem: int)
    requires 1 <= elem && 8 * elem <= SIZE
    ensures (forall bs | Shape(bs) :: SafeOn(bs, elem)) <==> elem <= 8
  {
    Consts();
    RoundedEight(elem);
    var n := Rounded(ROOM * elem);
    if elem <= ROOM {
      forall bs | Shape(bs)
        ensures SafeOn(bs, elem)
      {
        if FirstFit(bs, n).Some? {
          GrantedBounds(bs, n);
          MulMono(ROOM, elem, elem);
        }
        hide *;
        SafeOnIs(bs, elem);
      }
    } else {
      OneBlock();
      FreshUnsafe(elem);
    }
  }

  lemma {:induction false} SafeOnIs(bs: seq<Block>, elem: int)
    requires 1 <= elem && ROOM * elem <= 0x1_0000_0000 - 16
    ensures SafeOn(bs, elem)
       <==> (FirstFit(bs, Rounded(ROOM * elem)).Some? ==> elem * elem <= Granted(bs, Rounded(ROOM * elem)))
  {
  }

  /** On the fresh heap larger elements outgrow the block. */
  lemma {:induction false} FreshUnsafe(elem: int)
    requires 8 < elem && 8 * elem <= SIZE
    ensures !SafeOn([Block(START, SIZE, true)], elem)
  {
    Consts();
    var bs, n := [Block(START, SIZE, true)], Rounded(ROOM * elem);
    RoundedEight(elem);
    FirstFitIs(bs, n, 0);
    MulMono(elem, ROOM + 1, elem);
    if n + n + HEADER > SIZE {
      MulMono(elem, 0x10_0000, elem);
    }
    hide FirstFit, Rounded;
  }

  /** A block taken whole may hold more than eight: with 400 bytes at the front of the heap the
      compiler's list holds ten variables of 40 bytes; and 256 bytes are enough for elements of 16. */
  lemma {:induction false} WholeBlocks(rest: seq<Block>)
    ensures Granted([Block(START, 400, true)] + rest, Rounded(ROOM * 40)) == 10 * 40
    ensures SafeOn([Block(START, 256, true)] + rest, 16)
  {
    RoundedEight(40);
    RoundedEight(16);
    FirstFitIs([Block(START, 400, true)] + rest, 320, 0);
    FirstFitIs([Block(START, 256, true)] + rest, 128, 0);
  }

  /** Every one of n bytes from a on lies in the block's payload. */
  ghost predicate AllInside(b: Block, a: int, n: nat) {
    forall k | a <= k < a + n :: InPayload(b, k)
  }

  lemma {:induction false} InsideEnds(b: Block, a: int, n: nat)
    requires n >= 1 && Payload(b) <= a
    ensures AllInside(b, a, n) <==> a + n <= End(b)
  {
    if AllInside(b, a, n) {
      assert InPayload(b, a + n - 1);
    }
  }

  // ----- writes to memory -----

  /** Bytes written one behind the other. */
  function Written(m: Memory, a: int, x: seq<byte>): (r: Memory)
    requires Mapped(m, a, |x|)
    ensures r.Keys == m.Keys
    ensures forall k | k in m :: r[k] == if a <= k < a + |x| then x[k - a] else m[k]
    decreases |x|
  {
    if x == [] then m else Written(m[a := x[0]], a + 1, x[1..])
  }

  lemma {:induction false} WrittenAll(m: Memory, m': Memory, a: int, x: seq<byte>)
    requires Mapped(m, a, |x|) && m'.Keys == m.Keys
    requires forall k | k in m :: m'[k] == if a <= k < a + |x| then x[k - a] else m[k]
    ensures m' == Written(m, a, x)
  {
  }

  /** Written to the payload of a block in use, they leave the heap in order. */
  lemma {:induction false} WrittenKeeps(s: HeapState, b: Block, a: int, x: seq<byte>)
    requires Inv(s) && Within(s.blocks, b, a, |x|)
    ensures Mapped(s.mem, a, |x|)
    ensures Inv(s.(mem := Written(s.mem, a, x)))
    ensures Mapped(Written(s.mem, a, x), a, |x|) && BytesAt(Written(s.mem, a, x), a, |x|) == x
    decreases |x|
  {
    hide *;
    WithinIs(s.blocks, b, a, |x|);
    PayloadMapped(s, b);
    MappedPart(s.mem, Payload(b), b.size, a - Payload(b), |x|);
    if x != [] {
      WithinIs(s.blocks, b, a + 1, |x| - 1);
      WithinOwned(s.blocks, b, a, |x|, 0);
      WriteKeeps(s, a, x[0]);
      WrittenOne(s.mem, a, x);
      WrittenKeeps(s.(mem := s.mem[a := x[0]]), b, a + 1, x[1..]);
    } else {
      WrittenNone(s.mem, a);
    }
    WrittenBytes(s.mem, a, x);
  }

  lemma {:induction false} WrittenNone(m: Memory, a: int)
    requires Mapped(m, a, 0)
    ensures Written(m, a, []) == m
  {
  }

  lemma {:induction false} WrittenOne(m: Memory, a: int, x: seq<byte>)
    requires Mapped(m, a, |x|) && x != []
    ensures a in m && Mapped(m[a := x[0]], a + 1, |x[1..]|)
    ensures Written(m, a, x) == Written(m[a := x[0]], a + 1, x[1..])
  {
  }

  lemma {:induction false} WrittenBytes(m: Memory, a: int, x: seq<byte>)
    requires Mapped(m, a, |x|)
    ensures Mapped(Written(m, a, x), a, |x|) && BytesAt(Written(m, a, x), a, |x|) == x
  {
    var w := Written(m, a, x);
    MappedKeys(m, w, a, |x|);
    hide Written, BytesAt;
    BytesAre(w, a, x);
  }

  lemma {:induction false} Doubled(length: int, elem: int)
    requires 1 <= elem <= length && length * elem < 0x1000_0000
    ensures (length * 2) * elem == 2 * (length * elem)
    ensures 1 <= length * elem <= (length * 2) * elem && length <= length * elem
  {
    MulMono(elem, 1, length);
    MulMono(length, 1, elem);
  }

  class GrowableList {
    const heap: KernelHeap
    var arr: u32
    var elem: u32
    var count: u32
    var length: u32
    ghost var own: Block
    /** Elements moved by regrowing. */
    ghost var moved: nat

    /** The list owns a block that holds its elements: room for eight at first, for the whole
        length from the first regrowth on. Regrowing has cost fewer moves than twice the number
        of elements appended. */
    ghost predicate Valid()
      reads this, heap
    {
      && heap.Valid() && AllConsidered(heap.blocks)
      && 1 <= elem <= length && count <= length
      && own in Used(heap.blocks) && arr == Payload(own) && count * elem <= own.size
      && (if length == elem then ROOM * elem else length * elem) <= own.size
      && moved == length - elem && (moved == 0 || length <= 2 * count)
    }

    lemma {:induction false} Extent()
      requires Valid()
      ensures Within(heap.blocks, own, arr, count * elem) && Mapped(heap.mem, arr, count * elem)
      ensures 0 <= count * elem <= own.size <= LIMIT - START
    {
      MulMono(count, 0, elem);
      WithinIs(heap.blocks, own, arr, count * elem);
      PayloadMapped(heap.State(), own);
      heap.ValidFacts();
      hide Inv, AllConsidered, Used, Linked, Ordered, Shape, Mapped, UsedSize;
      MappedPart(heap.mem, arr, own.size, 0, count * elem);
    }

    ghost function Contents(): (s: seq<seq<byte>>)
      reads this, heap
      requires Valid()
    {
      Extent();
      Elements(heap.mem, arr, elem, count)
    }

    /** ListInit: room for eight elements, and a length of as many elements as one has bytes. */
    constructor (heap: KernelHeap, elem: u32)
      requires heap.Valid() && AllConsidered(heap.blocks) && 1 <= elem && elem * 8 <= 0x1_0000_0000 - 16
      requires FirstFit(heap.blocks, Rounded(elem * 8)).Some?
      modifies heap
      ensures this.heap == heap && Valid() && Contents() == [] && this.elem == elem == length && count == 0
      ensures own !in Used(old(heap.blocks)) && Used(heap.blocks) == Used(old(heap.blocks)) + {own}
      ensures own.size == Granted(old(heap.blocks), Rounded(elem * 8))
      ensures heap.blocks == Allocated(old(heap.blocks), FirstFit(old(heap.blocks), Rounded(elem * 8)).value,
                                       Rounded(elem * 8))
      ensures Kept(old(heap.mem), heap.mem, Used(old(heap.blocks)))
    {
      this.heap := heap;
      ghost var bs := heap.blocks;
      heap.ValidFacts();
      var ptr, b := MCAlloc(heap, elem, ROOM);
      arr := ptr;
      this.elem := elem;
      count := 0;
      length := elem;
      own := b;
      moved := 0;
      new;
      hide Inv, AllConsidered, Used, Linked, Ordered, Shape, UsedSize, Kept, BytesAt, Rounded, FirstFit, Allocated;
      RoundedCovers(elem * ROOM);
      TakenGranted(bs, Rounded(elem * ROOM), b);
      WithinIs(heap.blocks, b, arr, elem * ROOM);
    }

    lemma {:induction false} GrowBounds()
      requires Valid() && count == length
      ensures heap.Valid() && AllConsidered(heap.blocks) && arr == Payload(own)
      ensures Within(heap.blocks, own, arr, length * elem)
      ensures (length * 2) * elem == 2 * (length * elem)
      ensures 1 <= length * elem <= (length * 2) * elem <= 0x1_0000_0000 - 16
      ensures length * 2 < 0x1_0000_0000
    {
      hide *;
      Extent();
      HeapValid();
      Fields();
      Consts();
      Doubled(length, elem);
    }

    lemma {:induction false} Fields()
      requires Valid()
      ensures 1 <= elem <= length && count <= length && arr == Payload(own) && own in Used(heap.blocks)
      ensures (if length == elem then ROOM * elem else length * elem) <= own.size
    {
      hide Inv, AllConsidered, Used;
    }

    /** The heap has a block for twice the length, should the list be full. */
    ghost predicate CanGrow()
      reads this, heap
      requires Valid()
    {
      count == length ==>
        (GrowBounds(); FirstFit(heap.blocks, Rounded((length * 2) * elem)).Some?)
    }

    /** The next element fits the block, or the list grows first. */
    ghost predicate StaysInside()
      reads this
    {
      count == length || (count + 1) * elem <= own.size
    }

    /** That is exactly when no byte of it is written outside the list's own block. */
    lemma {:induction false} InsideExactly()
      requires Valid() && count < length
      ensures StaysInside() <==> AllInside(own, arr + count * elem, elem)
    {
      hide *;
      Extent();
      Fields();
      InsideIs();
      Snoc(count + 1, elem);
      WithinIs(heap.blocks, own, arr, count * elem);
      InsideEnds(own, arr + count * elem, elem);
    }

    lemma {:induction false} InsideIs()
      ensures StaysInside() <==> count == length || (count + 1) * elem <= own.size
    {
    }

    /** Elements of up to 8 bytes always do, and all others from the first regrowth on. */
    lemma {:induction false} InsideAlways()
      requires Valid() && (elem <= 8 || elem < length)
      ensures StaysInside()
    {
      Fields();
      hide Inv, AllConsidered, Used;
      if count < length {
        MulMono(length, count + 1, elem);
        if length == elem {
          MulMono(ROOM, elem, elem);
        }
      }
    }

    /** A full list moves to a block of twice its length. */
    method Grow()
      requires Valid() && count == length && CanGrow()
      modifies this, heap
      ensures Valid() && Contents() == old(Contents()) && elem == old(elem) && count == old(count) < length
      ensures elem < length == 2 * old(length)
      ensures own !in Used(old(heap.blocks)) && Used(heap.blocks) == Used(old(heap.blocks)) - {old(own)} + {own}
      ensures Kept(old(heap.mem), heap.mem, Used(old(heap.blocks)) - {old(own)})
    {
      hide Inv, AllConsidered, Used, Elements, BytesAt, FirstFit, Rounded, Kept, Mapped;
      Extent();
      GrowBounds();
      ghost var m, a := heap.mem, arr;
      ghost var c;
      arr, c := MReAlloc(heap, arr, length * elem, (length * 2) * elem, own);
      WithinIs(heap.blocks, c, arr, (length * 2) * elem);
      own := c;
      moved := moved + length;
      length := length * 2;
      ElementsSame(m, a, heap.mem, arr, elem, count);
    }

    /** ListAppend. An element that does not fit the block is written all the same, over whatever
        lies behind it. */
    method ListAppend(x: seq<byte>)
      requires Valid() && |x| == elem
      requires CanGrow() && (StaysInside() || Mapped(heap.mem, arr + count * elem, elem))
      modifies this, heap
      ensures elem == old(elem) && count == old(count) + 1
      ensures length == if old(count == length) then 2 * old(length) else old(length)
      ensures old(count < length) ==> own == old(own) && arr == old(arr) && length == old(length)
                                      && heap.blocks == old(heap.blocks)
      ensures old(StaysInside()) ==>
                && Valid() && Contents() == old(Contents()) + [x]
                && Used(heap.blocks) == Used(old(heap.blocks)) - {old(own)} + {own}
                && (own == old(own) || own !in Used(old(heap.blocks)))
                && Kept(old(heap.mem), heap.mem, Used(old(heap.blocks)) - {old(own)})
      ensures !old(StaysInside()) ==> heap.mem == Written(old(heap.mem), old(arr) + old(count) * old(elem), x)
    {
      hide Inv, AllConsidered, Elements, BytesAt, FirstFit, Rounded, Kept, Mapped, Used;
      ghost var m0, used0, own0 := heap.mem, Used(heap.blocks), own;
      if count == length {
        Grow();
        InsideAlways();
      }
      ghost var m1, used1 := heap.mem, Used(heap.blocks);
      ghost var inside := StaysInside();
      Store(x);
      if inside && own != own0 {
        KeptLess(m1, heap.mem, used1 - {own}, used0 - {own0});
        KeptTrans(m0, m1, heap.mem, used0 - {own0}, used0 - {own0});
        assert (used0 - {own0}) * (used0 - {own0}) == used0 - {own0};
      }
    }

    lemma {:induction false} StoreBounds()
      requires Valid() && count < length && StaysInside()
      ensures (count + 1) * elem == count * elem + elem && 0 <= count * elem && (count + 1) * elem <= own.size
      ensures Within(heap.blocks, own, arr + count * elem, elem) && arr + count * elem < 0x1_0000_0000
      ensures Mapped(heap.mem, arr, (count + 1) * elem) && Mapped(heap.mem, arr + count * elem, elem)
    {
      Extent();
      Snoc(count + 1, elem);
      WithinIs(heap.blocks, own, arr, count * elem);
      WithinIs(heap.blocks, own, arr + count * elem, elem);
      PayloadMapped(heap.State(), own);
      MappedPart(heap.mem, arr, own.size, 0, (count + 1) * elem);
      MappedPart(heap.mem, arr, own.size, count * elem, elem);
      hide Mapped, Within, Used, Inv, AllConsidered;
    }

    /** Copies an element behind the last one. */
    method Store(x: seq<byte>)
      requires Valid() && |x| == elem && count < length
      requires StaysInside() || Mapped(heap.mem, arr + count * elem, elem)
      modifies this`count, heap`mem
      ensures count == old(count) + 1
      ensures Mapped(old(heap.mem), arr + old(count) * elem, elem)
      ensures heap.mem == Written(old(heap.mem), arr + old(count) * elem, x)
      ensures old(StaysInside()) ==> Valid() && Contents() == old(Contents()) + [x]
                                     && Kept(old(heap.mem), heap.mem, Used(heap.blocks) - {own})
    {
      hide Inv, AllConsidered, Elements, BytesAt, Kept, Mapped, Within, Used, Written, StaysInside;
      ghost var m, s, inside := heap.mem, heap.State(), StaysInside();
      if inside {
        StoreBounds();
        HeapValid();
        ContentsAre();
      }
      Copy(arr + count * elem, x);
      if inside {
        WrittenKeeps(s, own, arr + count * elem, x);
        OthersKept(s, heap.mem, own, arr + count * elem, elem);
        MappedKeys(m, heap.mem, arr, (count + 1) * elem);
        ElementsOf(heap.mem, arr, elem, count);
        BytesSame(m, heap.mem, arr, count * elem);
        ElementsSame(m, arr, heap.mem, arr, elem, count);
      }
      count := count + 1;
    }

    /** MemCpy to anywhere in memory. */
    method Copy(at: int, x: seq<byte>)
      requires Mapped(heap.mem, at, |x|)
      modifies heap`mem
      ensures heap.mem == Written(old(heap.mem), at, x)
    {
      ghost var m := heap.mem;
      for i := 0 to |x|
        invariant heap.mem.Keys == m.Keys
        invariant forall k | k in m :: heap.mem[k] == if at <= k < at + i then x[k - at] else m[k]
      {
        heap.mem := heap.mem[at + i := x[i]];
      }
      WrittenAll(m, heap.mem, at, x);
    }

    lemma {:induction false} HeapValid()
      requires Valid()
      ensures heap.Valid() && AllConsidered(heap.blocks) && own in Used(heap.blocks)
    {
      hide Inv, AllConsidered, Used;
    }

    lemma {:induction false} ContentsAre()
      requires Valid()
      ensures Mapped(heap.mem, arr, count * elem) && Contents() == Elements(heap.mem, arr, elem, count)
    {
      Extent();
      hide Elements, Inv, AllConsidered, Mapped;
    }

    lemma {:induction false} CanGrowIf()
      requires Valid()
      ensures count == length ==> 0 <= (length * 2) * elem < 0x1_0000_0000
      ensures CanGrow() <==> (count == length ==> FirstFit(heap.blocks, Rounded((length * 2) * elem)).Some?)
    {
      if count == length {
        GrowBounds();
      }
      hide Elements, Inv, AllConsidered, Mapped, FirstFit, Rounded;
    }

    /** Whatever else happens to the heap, a list whose block is left alone is the same list. */
    twostate lemma {:induction false} Undisturbed()
      requires old(Valid()) && heap.Valid() && AllConsidered(heap.blocks) && own in Used(heap.blocks)
      requires unchanged(this) && Kept(old(heap.mem), heap.mem, {own})
      ensures Valid() && Contents() == old(Contents())
    {
      hide Inv, AllConsidered, Elements, BytesAt, Mapped, Used;
      Extent();
      assert Within(old(heap.blocks), own, arr, count * elem) by { hide Kept; }
      OwnBytes(old(heap.mem), heap.mem, own, arr, count * elem);
      ElementsSame(old(heap.mem), arr, heap.mem, arr, elem, count);
    }
  }

  lemma {:induction false} OwnBytes(m: Memory, m': Memory, b: Block, a: int, n: nat)
    requires Kept(m, m', {b}) && Payload(b) <= a && a + n <= End(b) && Mapped(m', a, n)
    ensures Mapped(m, a, n) && BytesAt(m', a, n) == BytesAt(m, a, n)
  {
    assert SamePayload(m, m', b);
    assert forall k | a <= k < a + n :: InPayload(b, k);
    BytesSame(m, m', a, n);
    hide BytesAt;
  }

  /** One element of a list. */
  lemma {:induction false} ElementAt(m: Memory, a: int, elem: nat, count: nat, i: nat)
    requires Mapped(m, a, count * elem) && i < count
    ensures 0 <= i * elem && Mapped(m, a + i * elem, elem)
    ensures Elements(m, a, elem, count)[i] == BytesAt(m, a + i * elem, elem)
    decreases count
  {
    Snoc(count, elem);
    MappedPart(m, a, count * elem, 0, (count - 1) * elem);
    MappedPart(m, a, count * elem, (count - 1) * elem, elem);
    hide BytesAt, Mapped;
    if i < count - 1 {
      ElementAt(m, a, elem, count - 1, i);
    }
  }

  // ----- the compiler's variables -----

  /** The free block behind the list's first one on the fresh heap. */
  function Behind(): Block { Block(START + HEADER + 320, SIZE - 656, true) }

  lemma {:induction false} FirstList()
    ensures var bs := [Block(START, SIZE, true)];
            && Rounded(40 * ROOM) == 320 && FirstFit(bs, 320) == Some(0) && Granted(bs, 320) == 320
            && Allocated(bs, 0, 320) == [Block(START, 320, false), Behind()]
            && AllConsidered(bs)
  {
    RoundedEight(40);
    GrantedFresh(320);
    AllocatedOf([Block(START, SIZE, true)], 0, 320);
  }

  lemma {:induction false} SecondSize32(m: Memory, bs: seq<Block>)
    requires Linked(m, bs) && |bs| == 2
    ensures Mapped(m, bs[1].addr, 4) && Fetch(m, bs[1].addr, 4) == bs[1].size
  {
    assert LinkAt(m, bs, 1);
    hide Fetch;
  }

  lemma {:induction false} BrokenLink(m: Memory, bs: seq<Block>, x: seq<byte>)
    requires Mapped(m, START + HEADER + 320, 40) && |x| == 40 && LeValue(x[..4]) != SIZE - 656
    requires |bs| == 2 && bs[1] == Behind()
    ensures !Linked(Written(m, START + HEADER + 320, x), bs)
  {
    var a := START + HEADER + 320;
    var w := Written(m, a, x);
    WrittenBytes(m, a, x);
    BytesPlus(w, a, 4, 36);
    FetchBytes(w, a, 4);
    assert BytesAt(w, a, 4) == x[..4];
    hide Written, BytesAt, Fetch;
    if Linked(w, bs) {
      SecondSize32(w, bs);
      assert false;
    }
  }

  /** A list of eight variables on the fresh heap, its block full. */
  method EightVariables(m: Memory, x: seq<byte>) returns (heap: KernelHeap, list: GrowableList)
    requires (forall a | START <= a < LIMIT :: a in m) && |x| == 40
    ensures fresh(heap) && fresh(list) && list.heap == heap && list.Valid() && list.elem == 40 == list.length
    ensures list.count == 8 && list.own.size == 320 && heap.blocks == [Block(START, 320, false), Behind()]
    ensures list.own in Used(heap.blocks)
  {
    heap := new KernelHeap(m);
    hide *;
    FirstList();
    RoomIs();
    list := new GrowableList(heap, 40);
    for i := 0 to 8
      invariant fresh(heap) && fresh(list) && list.heap == heap && list.Valid() && list.elem == 40 == list.length
      invariant list.count == i && list.own.size == 320 && heap.blocks == [Block(START, 320, false), Behind()]
      invariant list.own in Used(heap.blocks)
    {
      list.InsideIs();
      list.CanGrowIf();
      list.ListAppend(x);
      list.Fields();
    }
  }

  lemma {:induction false} EightFacts(heap: KernelHeap, list: GrowableList)
    requires list.Valid() && list.heap == heap && list.elem == 40 == list.length && list.count == 8
    requires list.own.size == 320 && heap.blocks == [Block(START, 320, false), Behind()]
    ensures list.CanGrow() && !list.StaysInside() && list.arr + 320 == START + HEADER + 320
    ensures Mapped(heap.mem, START + HEADER + 320, 40)
  {
    hide *;
    Consts();
    list.Fields();
    FirstUsed(list.own);
    PayloadIs(list.own);
    list.HeapValid();
    heap.ValidFacts();
    HeapMapped(heap.mem, heap.blocks, START + HEADER + 320, 40);
    list.InsideIs();
    list.CanGrowIf();
  }

  /** On the fresh heap the ninth variable overwrites the header behind the list, and the heap is no
      longer in order, unless its first four bytes happen to be that header's size. */
  method NinthVariable(m: Memory, x: seq<byte>) returns (heap: KernelHeap, list: GrowableList)
    requires (forall a | START <= a < LIMIT :: a in m) && |x| == 40 && LeValue(x[..4]) != SIZE - 656
    ensures fresh(heap) && fresh(list) && list.heap == heap && list.elem == 40 && list.count == 9 < list.length
    ensures !Linked(heap.mem, heap.blocks) && !heap.Valid()
  {
    hide *;
    heap, list := EightVariables(m, x);
    EightFacts(heap, list);
    ghost var was := heap.mem;
    list.ListAppend(x);
    BrokenLink(was, heap.blocks, x);
    NeedsLinks(heap);
  }

  lemma {:induction false} NeedsLinks(heap: KernelHeap)
    requires !Linked(heap.mem, heap.blocks)
    ensures !heap.Valid()
  {
    hide Linked;
  }

  lemma {:induction false} RoomIs()
    ensures ROOM == 8
  {
  }

  lemma {:induction false} FirstUsed(b: Block)
    requires b in Used([Block(START, 320, false), Behind()])
    ensures b == Block(START, 320, false)
  {
  }
}
