/** The compiler's string constants: every text is kept once, in heap memory. */
module StringPool {
  import opened Words
  import opened Ram
  import opened HeapBlocks
  import opened Heap
  import opened HeapRun
  import opened MemLib
  import opened Lists

  /** A block holds a text and its NUL. */
  ghost predicate Holds(m: Memory, b: Block, text: seq<byte>) {
    && 0 !in text && |text| + 1 <= b.size && Mapped(m, Payload(b), |text| + 1)
    && BytesAt(m, Payload(b), |text| + 1) == text + [0]
  }

  /** The list of pointers, the blocks they point to and the texts in them, all different. */
  ghost predicate Stored(m: Memory, used: set<Block>, own: Block, pointers: seq<seq<byte>>, homes: seq<Block>,
                         texts: seq<seq<byte>>) {
    && |pointers| == |homes| == |texts|
    && (forall i | 0 <= i < |homes| :: StoredAt(m, used, own, pointers[i], homes[i], texts[i]))
    && (forall i, j | 0 <= i < j < |texts| :: texts[i] != texts[j])
    && (forall i, j | 0 <= i < j < |homes| :: homes[i] != homes[j])
  }

  ghost predicate StoredAt(m: Memory, used: set<Block>, own: Block, pointer: seq<byte>, home: Block, text: seq<byte>) {
    && home in used && home != own && 0 <= Payload(home) < 0x1_0000_0000
    && pointer == LeBytes(Payload(home), 4) && Holds(m, home, text)
  }

  lemma {:induction false} HoldsKept(m: Memory, m': Memory, ds: set<Block>, b: Block, text: seq<byte>)
    requires Holds(m, b, text) && Kept(m, m', ds) && b in ds && Mapped(m', Payload(b), |text| + 1)
    ensures Holds(m', b, text)
  {
    KeptLess(m, m', ds, {b});
    hide BytesAt, Mapped, Kept;
    OwnBytes(m, m', b, Payload(b), |text| + 1);
  }

  /** Whatever happens elsewhere, stored texts stay. */
  lemma {:induction false} StoredKept(s: HeapState, m: Memory, used: set<Block>, own: Block, own': Block,
                                      kept: set<Block>, pointers: seq<seq<byte>>, homes: seq<Block>,
                                      texts: seq<seq<byte>>)
    requires Stored(m, used, own, pointers, homes, texts) && Inv(s)
    requires forall h | h in homes :: h in Used(s.blocks) && h != own' && h in kept
    requires Kept(m, s.mem, kept)
    ensures Stored(s.mem, Used(s.blocks), own', pointers, homes, texts)
  {
    hide Inv, Used, Kept, LeBytes;
    forall i | 0 <= i < |homes|
      ensures StoredAt(s.mem, Used(s.blocks), own', pointers[i], homes[i], texts[i])
    {
      assert StoredAt(m, used, own, pointers[i], homes[i], texts[i]);
      PayloadMapped(s, homes[i]);
      TextKept(s.mem, m, kept, homes[i], texts[i]);
    }
  }

  lemma {:induction false} TextKept(m': Memory, m: Memory, ds: set<Block>, b: Block, text: seq<byte>)
    requires Holds(m, b, text) && Kept(m, m', ds) && b in ds && Mapped(m', Payload(b), b.size) && b.size >= 0
    ensures Holds(m', b, text)
  {
    MappedPart(m', Payload(b), b.size, 0, |text| + 1);
    hide Mapped, Kept;
    HoldsKept(m, m', ds, b, text);
  }

  lemma {:induction false} StoredMore(m: Memory, used: set<Block>, own: Block, pointers: seq<seq<byte>>,
                                      homes: seq<Block>, texts: seq<seq<byte>>, pointer: seq<byte>, home: Block,
                                      text: seq<byte>)
    requires Stored(m, used, own, pointers, homes, texts) && StoredAt(m, used, own, pointer, home, text)
    requires home !in homes && text !in texts
    ensures Stored(m, used, own, pointers + [pointer], homes + [home], texts + [text])
  {
    hide StoredAt;
  }

  lemma {:induction false} DifferentTexts(m: Memory, used: set<Block>, own: Block, pointers: seq<seq<byte>>,
                                          homes: seq<Block>, texts: seq<seq<byte>>, i: nat, j: nat)
    requires Stored(m, used, own, pointers, homes, texts) && i < |texts| && j < |texts| && i != j
    ensures |homes| == |texts| && texts[i] != texts[j] && homes[i] != homes[j]
  {
    hide StoredAt;
    if i < j { assert texts[i] != texts[j]; } else { assert texts[j] != texts[i]; }
  }

  lemma {:induction false} UsedPayloads(bs: seq<Block>, b: Block, c: Block)
    requires Ordered(bs) && b in Used(bs) && c in Used(bs) && b != c
    ensures Payload(b) != Payload(c)
  {
    var i :| 0 <= i < |bs| && bs[i] == b;
    var j :| 0 <= j < |bs| && bs[j] == c;
    BlocksDisjoint(bs, i, j);
  }

  /** Pointers are equal exactly for equal texts. */
  lemma {:induction false} PointersTellTexts(m: Memory, bs: seq<Block>, own: Block, pointers: seq<seq<byte>>,
                                             homes: seq<Block>, texts: seq<seq<byte>>, i: nat, j: nat)
    requires Stored(m, Used(bs), own, pointers, homes, texts) && Ordered(bs) && i < |texts| && j < |texts|
    ensures |homes| == |pointers| == |texts|
    ensures Payload(homes[i]) == Payload(homes[j]) <==> texts[i] == texts[j]
    ensures pointers[i] == pointers[j] <==> texts[i] == texts[j]
  {
    StoredFacts(m, Used(bs), own, pointers, homes, texts, i);
    StoredFacts(m, Used(bs), own, pointers, homes, texts, j);
    Le32RoundTrip(Payload(homes[i]));
    Le32RoundTrip(Payload(homes[j]));
    if i != j {
      DifferentTexts(m, Used(bs), own, pointers, homes, texts, i, j);
      hide Stored, Used, Holds, LeBytes, LeValue;
      UsedPayloads(bs, homes[i], homes[j]);
    }
  }

  /** StrCmp of a stored text with another: zero exactly for the same text. */
  method StrCmp(heap: KernelHeap, p: u32, ghost b: Block, ghost stored: seq<byte>, text: seq<byte>) returns (d: int)
    requires Holds(heap.mem, b, stored) && p == Payload(b) && 0 !in text
    ensures d == 0 <==> stored == text
  {
    ghost var bytes := stored + [0];
    hide BytesAt;
    var i := 0;
    while true
      invariant 0 <= i <= |stored| && i <= |text| && stored[..i] == text[..i]
      decreases |text| - i
    {
      ByteAt(heap.mem, p, |stored| + 1, i);
      var a := heap.mem[p + i];
      assert a == bytes[i];
      var c := if i < |text| then text[i] else 0;
      if a == 0 || a != c {
        if i < |stored| {
          assert stored[i] in stored && stored[i] != 0;
        }
        if i < |text| {
          assert text[i] in text && text[i] != 0;
        }
        return (a as int) - (c as int);
      }
      assert stored[..i + 1] == text[..i + 1];
      i := i + 1;
    }
  }

  lemma {:induction false} StoredFacts(m: Memory, used: set<Block>, own: Block, pointers: seq<seq<byte>>,
                                       homes: seq<Block>, texts: seq<seq<byte>>, k: nat)
    requires Stored(m, used, own, pointers, homes, texts) && k < |pointers|
    ensures |pointers| == |homes| == |texts| && homes[k] in used && Holds(m, homes[k], texts[k])
    ensures 0 <= Payload(homes[k]) < 0x1_0000_0000 && pointers[k] == LeBytes(Payload(homes[k]), 4)
  {
    assert StoredAt(m, used, own, pointers[k], homes[k], texts[k]);
    hide Holds, LeBytes;
  }

  lemma {:induction false} StoredLengths(m: Memory, used: set<Block>, own: Block, pointers: seq<seq<byte>>,
                                         homes: seq<Block>, texts: seq<seq<byte>>)
    requires Stored(m, used, own, pointers, homes, texts)
    ensures |pointers| == |homes| == |texts|
  {
    hide StoredAt;
  }

  lemma {:induction false} FetchIs(m: Memory, a: int)
    requires Mapped(m, a, 4)
    ensures Fetch32(m, a) == Fetch(m, a, 4)
  {
    hide Fetch;
  }

  lemma {:induction false} HoldsOf(m: Memory, b: Block, text: seq<byte>)
    requires 0 !in text && |text| + 1 <= b.size && Mapped(m, Payload(b), |text + [0]|)
    requires BytesAt(m, Payload(b), |text + [0]|) == text + [0]
    ensures Holds(m, b, text)
  {
    hide BytesAt;
  }

  lemma {:induction false} StoredAtOf(m: Memory, used: set<Block>, own: Block, ptr: u32, b: Block, text: seq<byte>)
    requires b in used && b != own && ptr == Payload(b) && Holds(m, b, text)
    ensures StoredAt(m, used, own, LeBytes(ptr, 4), b, text)
  {
    hide Holds, LeBytes;
  }

  /** The homes of stored texts survive a new text and a regrown list. */
  lemma {:induction false} HomesStay(m: Memory, used0: set<Block>, own0: Block, pointers: seq<seq<byte>>,
                                     homes: seq<Block>, texts: seq<seq<byte>>, used: set<Block>, own: Block, b: Block)
    requires Stored(m, used0, own0, pointers, homes, texts) && own0 in used0 && b !in used0
    requires used == used0 + {b} - {own0} + {own} && (own == own0 || own !in used0 + {b})
    ensures forall h | h in homes :: h in used && h != own && h in used0 - {own0}
    ensures b in used && b != own && b != own0 && b !in homes
  {
    forall h | h in homes
      ensures h in used0 && h != own0
    {
      var i :| 0 <= i < |homes| && homes[i] == h;
      assert StoredAt(m, used0, own0, pointers[i], homes[i], texts[i]);
    }
    hide Stored;
  }

  // ----- any sequence of uses -----

  /** A pool at some moment: the heap, the list's block and contents, and what is stored where. */
  datatype Pool = Pool(mem: Memory, blocks: seq<Block>, own: Block, pointers: seq<seq<byte>>, homes: seq<Block>,
                       texts: seq<seq<byte>>)

  ghost predicate PoolOk(p: Pool) {
    Ordered(p.blocks) && Stored(p.mem, Used(p.blocks), p.own, p.pointers, p.homes, p.texts)
  }

  /** A text is added and its pointer returned, or something else happens to the heap. */
  datatype Event = Added(text: seq<byte>, ptr: int) | Other

  /** The pool holds this text behind this pointer. */
  predicate Answers(p: Pool, text: seq<byte>, ptr: int) {
    |p.homes| == |p.texts| && exists i :: 0 <= i < |p.texts| && p.texts[i] == text && ptr == Payload(p.homes[i])
  }

  ghost predicate PoolStep(p: Pool, event: Event, p': Pool) {
    && PoolOk(p') && p.texts <= p'.texts && p.homes <= p'.homes
    && match event
       case Added(text, ptr) => Answers(p', text, ptr)
       case Other => p'.texts == p.texts && p'.homes == p.homes
  }

  ghost predicate PoolRun(pools: seq<Pool>, events: seq<Event>) {
    && |pools| == |events| + 1 && PoolOk(pools[0])
    && forall i | 0 <= i < |events| :: PoolStep(pools[i], events[i], pools[i + 1])
  }

  lemma {:induction false} PoolRunStep(pools: seq<Pool>, events: seq<Event>, i: nat)
    requires PoolRun(pools, events) && i < |events|
    ensures |pools| == |events| + 1 && PoolOk(pools[i + 1])
    ensures pools[i].texts <= pools[i + 1].texts && pools[i].homes <= pools[i + 1].homes
    ensures events[i].Added? ==> Answers(pools[i + 1], events[i].text, events[i].ptr)
  {
    assert PoolStep(pools[i], events[i], pools[i + 1]);
    hide PoolOk, Answers;
  }

  /** What the pool answered once it answers ever after. */
  lemma {:induction false} PoolRunAnswers(pools: seq<Pool>, events: seq<Event>, i: nat, k: nat)
    requires PoolRun(pools, events) && i < k <= |events| && events[i].Added?
    ensures |pools| == |events| + 1 && PoolOk(pools[k]) && Answers(pools[k], events[i].text, events[i].ptr)
    decreases k
  {
    PoolRunStep(pools, events, k - 1);
    hide *;
    if i < k - 1 {
      PoolRunAnswers(pools, events, i, k - 1);
      PoolLengths(pools[k]);
      AnswersMore(pools[k - 1], pools[k], events[i].text, events[i].ptr);
    }
  }

  lemma {:induction false} AnswersMore(p: Pool, p': Pool, text: seq<byte>, ptr: int)
    requires Answers(p, text, ptr) && p.texts <= p'.texts && p.homes <= p'.homes
    requires |p'.homes| == |p'.texts|
    ensures Answers(p', text, ptr)
  {
    var j :| 0 <= j < |p.texts| && p.texts[j] == text && ptr == Payload(p.homes[j]);
    assert p'.texts[j] == p.texts[j] && p'.homes[j] == p.homes[j];
  }

  lemma {:induction false} PoolLengths(p: Pool)
    requires PoolOk(p)
    ensures |p.pointers| == |p.homes| == |p.texts| && Ordered(p.blocks)
    ensures Stored(p.mem, Used(p.blocks), p.own, p.pointers, p.homes, p.texts)
  {
    StoredLengths(p.mem, Used(p.blocks), p.own, p.pointers, p.homes, p.texts);
    hide Stored, Ordered;
  }

  /** Over every sequence of uses, with anything in between that leaves the pool's blocks alone:
      two calls return the same pointer if and only if their texts are equal. */
  lemma {:induction false} PoolInterns(pools: seq<Pool>, events: seq<Event>, i: nat, j: nat)
    requires PoolRun(pools, events) && i < |events| && j < |events| && events[i].Added? && events[j].Added?
    ensures events[i].ptr == events[j].ptr <==> events[i].text == events[j].text
  {
    PoolRunAnswers(pools, events, i, |events|);
    PoolRunAnswers(pools, events, j, |events|);
    var p := pools[|events|];
    PoolLengths(p);
    hide PoolRun, PoolOk, Stored, Ordered, Used;
    var a :| 0 <= a < |p.texts| && p.texts[a] == events[i].text && events[i].ptr == Payload(p.homes[a]);
    var b :| 0 <= b < |p.texts| && p.texts[b] == events[j].text && events[j].ptr == Payload(p.homes[b]);
    PointersTellTexts(p.mem, p.blocks, p.own, p.pointers, p.homes, p.texts, a, b);
  }

  lemma {:induction false} HomesApart(m: Memory, used: set<Block>, own: Block, pointers: seq<seq<byte>>,
                                      homes: seq<Block>, texts: seq<seq<byte>>)
    requires Stored(m, used, own, pointers, homes, texts)
    ensures forall h | h in homes :: h != own
  {
    forall h | h in homes
      ensures h != own
    {
      var i :| 0 <= i < |homes| && homes[i] == h;
      assert StoredAt(m, used, own, pointers[i], homes[i], texts[i]);
    }
  }

  lemma {:induction false} OtherStep(p: Pool, p': Pool)
    requires PoolOk(p') && p'.texts == p.texts && p'.homes == p.homes
    ensures PoolStep(p, Other, p')
  {
    hide PoolOk;
  }

  lemma {:induction false} AddedStep(p: Pool, text: seq<byte>, ptr: int, i: nat, p': Pool)
    requires PoolOk(p') && p.texts <= p'.texts && p.homes <= p'.homes
    requires i < |p'.texts| && p'.texts[i] == text && i < |p'.homes| && ptr == Payload(p'.homes[i])
    ensures PoolStep(p, Added(text, ptr), p')
  {
    PoolLengths(p');
    hide PoolOk;
  }

  class StringPool {
    const heap: KernelHeap
    const list: GrowableList
    ghost var texts: seq<seq<byte>>
    ghost var homes: seq<Block>

    ghost predicate Valid()
      reads this, heap, list
    {
      && list.heap == heap && list.Valid() && list.elem == 4
      && Stored(heap.mem, Used(heap.blocks), list.own, list.Contents(), homes, texts)
    }

    ghost function View(): (p: Pool)
      reads this, heap, list
      requires Valid()
      ensures p.mem == heap.mem && p.blocks == heap.blocks && p.own == list.own && p.pointers == list.Contents()
      ensures p.homes == homes && p.texts == texts
    {
      Pool(heap.mem, heap.blocks, list.own, list.Contents(), homes, texts)
    }

    lemma {:induction false} ViewOk()
      requires Valid()
      ensures PoolOk(View())
    {
      ValidFacts();
      heap.ValidFacts();
      hide Stored, Ordered, Used, Inv, Linked, Shape, UsedSize, AllConsidered, Elements;
    }

    /** Whatever else happens to the heap, a pool whose blocks are left alone is the same pool. */
    twostate lemma {:induction false} Undisturbed()
      requires old(Valid()) && heap.Valid() && AllConsidered(heap.blocks) && unchanged(this) && unchanged(list)
      requires list.own in Used(heap.blocks) && forall h | h in homes :: h in Used(heap.blocks)
      requires Kept(old(heap.mem), heap.mem, {list.own} + set h | h in homes)
      ensures Valid() && PoolStep(old(View()), Other, View())
    {
      hide *;
      OldFacts();
      var m, used, own, pointers := old(heap.mem), old(Used(heap.blocks)), list.own, old(list.Contents());
      var kept := {list.own} + set h | h in homes;
      KeptLess(m, heap.mem, kept, {list.own});
      list.Undisturbed();
      heap.ValidFacts();
      HomesApart(m, used, own, pointers, homes, texts);
      StoredKept(heap.State(), m, used, own, own, kept, pointers, homes, texts);
      ValidOf();
      ViewOk();
      OtherStep(old(View()), View());
    }

    twostate lemma {:induction false} OldFacts()
      requires old(Valid())
      ensures list.heap == heap && old(list.elem) == 4 && old(list.Valid())
      ensures Stored(old(heap.mem), old(Used(heap.blocks)), old(list.own), old(list.Contents()), old(homes), old(texts))
    {
      hide Stored, Inv, AllConsidered, Used, Elements;
    }

    constructor (heap: KernelHeap)
      requires heap.Valid() && AllConsidered(heap.blocks) && FirstFit(heap.blocks, Rounded(32)).Some?
      modifies heap
      ensures this.heap == heap && Valid() && texts == [] && fresh(list)
    {
      this.heap := heap;
      list := new GrowableList(heap, 4);
      texts, homes := [], [];
    }

    /** The heap has room for a text, and for a longer list if the list is full. */
    ghost predicate HasRoom(size: u32)
      reads this, heap, list
      requires Valid()
    {
      var r := FirstFit(heap.blocks, Rounded(size));
      r.Some? &&
      (list.count == list.length ==>
         (list.GrowBounds();
          FirstFit(Allocated(heap.blocks, r.value, Rounded(size)), Rounded((list.length * 2) * list.elem)).Some?))
    }

    /** CompilerRoDataAdd: the pointer of the text's only copy; a new text gets a new one, and the
        pointers handed out before stay good. */
    method Add(text: seq<byte>) returns (ptr: u32, ghost i: nat)
      requires Valid() && 0 !in text && |text| + 1 <= 0x1_0000_0000 - 16 && HasRoom(|text| + 1)
      modifies this, heap, list
      ensures Valid() && i < |texts| && texts[i] == text && ptr == Payload(homes[i])
      ensures old(texts) <= texts && old(homes) <= homes
      ensures texts == if text in old(texts) then old(texts) else old(texts) + [text]
      ensures PoolStep(old(View()), Added(text, ptr), View())
    {
      ptr, i := Find(text);
      hide *;
      ViewOk();
      ViewLengths();
      AddedStep(old(View()), text, ptr, i, View());
    }

    lemma {:induction false} ViewLengths()
      requires Valid()
      ensures |homes| == |texts|
    {
      ValidFacts();
      StoredLengths(heap.mem, Used(heap.blocks), list.own, list.Contents(), homes, texts);
      hide Stored, Inv, AllConsidered, Used, Elements;
    }

    /** The search, and the copy of a text that is not found. */
    method Find(text: seq<byte>) returns (ptr: u32, ghost i: nat)
      requires Valid() && 0 !in text && |text| + 1 <= 0x1_0000_0000 - 16 && HasRoom(|text| + 1)
      modifies this, heap, list
      ensures Valid() && i < |texts| && texts[i] == text && ptr == Payload(homes[i])
      ensures old(texts) <= texts && old(homes) <= homes
      ensures texts == if text in old(texts) then old(texts) else old(texts) + [text]
    {
      hide Inv, AllConsidered, Elements, BytesAt, Mapped, Kept, Used, Stored, FirstFit, Rounded, LeBytes;
      i := 0;
      var k := 0;
      StoredLengths(heap.mem, Used(heap.blocks), list.own, list.Contents(), homes, texts);
      while k < list.count
        invariant 0 <= k <= list.count == |texts|
        invariant forall j | 0 <= j < k :: texts[j] != text
        modifies {}
      {
        StoredFacts(heap.mem, Used(heap.blocks), list.own, list.Contents(), homes, texts, k);
        var p := ReadPointer(k);
        var d := StrCmp(heap, p, homes[k], texts[k], text);
        if d == 0 {
          return p, k;
        }
        k := k + 1;
      }
      ptr, i := AddNew(text);
    }

    /** The k-th pointer of the list. */
    method ReadPointer(k: nat) returns (p: u32)
      requires Valid() && k < list.count
      ensures k < |homes| && p == Payload(homes[k])
    {
      hide *;
      ValidFacts();
      list.Extent();
      list.ContentsAre();
      ElementAt(heap.mem, list.arr, 4, list.count, k);
      StoredFacts(heap.mem, Used(heap.blocks), list.own, list.Contents(), homes, texts, k);
      FetchBytes(heap.mem, list.arr + k * 4, 4);
      Le32RoundTrip(Payload(homes[k]));
      p := Fetch32(heap.mem, list.arr + k * 4);
      FetchIs(heap.mem, list.arr + k * 4);
    }

    lemma {:induction false} ValidFacts()
      requires Valid()
      ensures list.heap == heap && list.Valid() && list.elem == 4
      ensures heap.Valid() && AllConsidered(heap.blocks) && list.own in Used(heap.blocks)
      ensures Stored(heap.mem, Used(heap.blocks), list.own, list.Contents(), homes, texts)
    {
      hide Stored, Inv, AllConsidered, Used, Elements;
    }

    lemma {:induction false} RoomFacts(size: u32)
      requires Valid() && HasRoom(size)
      ensures list.count == list.length ==> 0 <= (list.length * 2) * list.elem < 0x1_0000_0000
      ensures FirstFit(heap.blocks, Rounded(size)).Some?
      ensures list.count == list.length ==>
                FirstFit(Allocated(heap.blocks, FirstFit(heap.blocks, Rounded(size)).value, Rounded(size)),
                         Rounded((list.length * 2) * list.elem)).Some?
    {
      if list.count == list.length {
        list.GrowBounds();
      }
      hide Stored, Inv, AllConsidered, Used, Elements, FirstFit, Rounded;
    }

    lemma {:induction false} ValidOf()
      requires list.heap == heap && list.Valid() && list.elem == 4
      requires Stored(heap.mem, Used(heap.blocks), list.own, list.Contents(), homes, texts)
      ensures Valid()
    {
    }

    /** A text that is not in the pool: its copy, and its pointer at the end of the list. */
    method AddNew(text: seq<byte>) returns (ptr: u32, ghost i: nat)
      requires Valid() && 0 !in text && text !in texts && |text| + 1 <= 0x1_0000_0000 - 16 && HasRoom(|text| + 1)
      modifies this, heap, list
      ensures Valid() && i == |old(texts)| && texts == old(texts) + [text]
      ensures old(homes) <= homes && i < |homes| && ptr == Payload(homes[i])
    {
      hide *;
      ValidFacts();
      RoomFacts(|text| + 1);
      ghost var m0, used0, own0, pointers0 := heap.mem, Used(heap.blocks), list.own, list.Contents();
      var size := |text| + 1;
      ghost var b;
      ptr, b := MAlloc(heap, size);
      heap.ValidFacts();
      ghost var s1 := heap.State();
      ghost var used1 := Used(heap.blocks);
      MemCpyFrom(heap, ptr, text + [0], b);
      ghost var m2 := heap.mem;
      WithinIs(heap.blocks, b, ptr, size);
      HoldsOf(m2, b, text);
      OthersKept(s1, m2, b, ptr, size);
      KeptTrans(m0, s1.mem, m2, used0, used1 - {b});
      assert used0 * (used1 - {b}) == used0;
      KeptLess(m0, m2, used0, {own0});
      list.Undisturbed();
      list.CanGrowIf();
      RoomIs();
      list.InsideAlways();
      list.ListAppend(LeBytes(ptr, 4));
      list.HeapValid();
      heap.ValidFacts();
      ghost var s3 := heap.State();
      KeptTrans(m0, m2, s3.mem, used0, used1 - {own0});
      assert used0 * (used1 - {own0}) == used0 - {own0};
      HomesStay(m0, used0, own0, pointers0, homes, texts, Used(heap.blocks), list.own, b);
      StoredKept(s3, m0, used0, own0, list.own, used0 - {own0}, pointers0, homes, texts);
      PayloadMapped(s3, b);
      TextKept(s3.mem, m2, used1 - {own0}, b, text);
      PayloadIs(b);
      StoredAtOf(s3.mem, Used(heap.blocks), list.own, ptr, b, text);
      StoredMore(s3.mem, Used(heap.blocks), list.own, pointers0, homes, texts, LeBytes(ptr, 4), b, text);
      StoredLengths(m0, used0, own0, pointers0, homes, texts);
      i := |texts|;
      homes, texts := homes + [b], texts + [text];
      ValidOf();
    }
  }
}
