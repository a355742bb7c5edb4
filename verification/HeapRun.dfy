/** Everything that can happen to the heap: allocations, frees and writes of its clients, in any order. */
module HeapRun {
  import opened Words
  import opened Ram
  import opened HeapBlocks
  import opened Heap

  datatype Action = AllocOf(size: u32, ptr: int) | FreeOf(ptr: int) | WriteOf(a: int, v: byte)

  /** A client may write to the payload of a block in use. */
  ghost predicate Owned(bs: seq<Block>, a: int) {
    exists b :: b in Used(bs) && InPayload(b, a)
  }

  ghost predicate Step(s: HeapState, act: Action, s': HeapState) {
    match act
    case AllocOf(size, ptr) => Alloc(s, size, ptr, s')
    case FreeOf(ptr) => Free(s, ptr, s')
    case WriteOf(a, v) => Owned(s.blocks, a) && s' == s.(mem := s.mem[a := v])
  }

  /** The heap as HeapInit leaves it. */
  ghost predicate Fresh(s: HeapState) {
    s.blocks == [Block(START, SIZE, true)] && s.used == 0 && Linked(s.mem, s.blocks)
  }

  ghost predicate Run(states: seq<HeapState>, acts: seq<Action>) {
    && |states| == |acts| + 1 && Fresh(states[0])
    && forall i | 0 <= i < |acts| :: Step(states[i], acts[i], states[i + 1])
  }

  // ----- one step -----

  lemma {:induction false} InvMake(s: HeapState)
    requires Shape(s.blocks) && Linked(s.mem, s.blocks) && s.used == UsedSize(s.blocks)
    ensures Inv(s)
  {
  }

  lemma {:induction false} AllocCases(s: HeapState, size: u32, ptr: int, s': HeapState)
    requires Alloc(s, size, ptr, s')
    ensures var n, r := Rounded(size), FirstFit(s.blocks, Rounded(size));
            if r.None? then ptr == 0 && s' == s && forall b | b in s.blocks :: !Fits(b, n)
            else r.value < |s.blocks| && Fits(s.blocks[r.value], n) && ptr == Payload(s.blocks[r.value])
                 && s'.blocks == Allocated(s.blocks, r.value, n) && s'.used == UsedSize(s'.blocks)
                 && Linked(s'.mem, s'.blocks) && OnlyHeaders(s.mem, s'.mem, s.blocks, s'.blocks)
  {
    hide Linked, OnlyHeaders, Allocated, UsedSize, Rounded, Fits;
  }

  lemma {:induction false} FreeCases(s: HeapState, ptr: int, s': HeapState) returns (i: nat)
    requires Free(s, ptr, s') && s' != s
    ensures i < |s.blocks| && ptr == Payload(s.blocks[i]) && !s.blocks[i].free && Considered(ptr)
    ensures s'.blocks == Freed(s.blocks, i) && s'.used == UsedSize(s'.blocks)
    ensures Linked(s'.mem, s'.blocks) && OnlyHeaders(s.mem, s'.mem, s.blocks, s'.blocks)
  {
    i :| 0 <= i < |s.blocks| && ptr == Payload(s.blocks[i]) && FreeAt(s, i, s');
    hide Linked, OnlyHeaders, Freed, UsedSize;
  }

  /** No header of an ordered list reaches into the payload of one of its blocks. */
  lemma {:induction false} PayloadNoHeader(bs: seq<Block>, b: Block, a: int)
    requires Ordered(bs) && b in bs && InPayload(b, a)
    ensures !InHeaders(bs, a) && START <= a < LIMIT
  {
    var i :| 0 <= i < |bs| && bs[i] == b;
    assert BlockOk(bs[i]);
    if InHeaders(bs, a) {
      var c :| c in bs && InHeader(c, a);
      var j :| 0 <= j < |bs| && bs[j] == c;
      assert BlockOk(bs[j]);
      if i != j {
        BlocksDisjoint(bs, i, j);
      }
      assert false;
    }
  }

  lemma {:induction false} WriteKeeps(s: HeapState, a: int, v: byte)
    requires Inv(s) && Owned(s.blocks, a)
    ensures Inv(s.(mem := s.mem[a := v])) && a in s.mem
  {
    var b :| b in Used(s.blocks) && InPayload(b, a);
    InvFacts(s);
    PayloadNoHeader(s.blocks, b, a);
    var m' := s.mem[a := v];
    hide HeaderAt, Ordered, UsedSize;
    forall i | 0 <= i < |s.blocks|
      ensures LinkAt(m', s.blocks, i)
    {
      LinkFacts(s.mem, s.blocks, i);
      WriteApart(s.mem, s.blocks[i], NextAddr(s.blocks, i), a, v) by { assert !InHeader(s.blocks[i], a); }
    }
  }

  lemma {:induction false} WriteApart(m: Memory, b: Block, next: int, a: int, v: byte)
    requires HeaderAt(m, b, next) && !InHeader(b, a) && a in m
    ensures HeaderAt(m[a := v], b, next)
  {
    hide Fetch;
    HeaderSame(m, m[a := v], b, next);
  }

  /** Every step keeps the heap in order: a list sorted by address, 16-byte aligned, without
      overlaps, inside the heap, linked in memory, no two neighbours free, and HeapUsed its sum. */
  lemma {:induction false} StepInv(s: HeapState, act: Action, s': HeapState)
    requires Inv(s) && Step(s, act, s')
    ensures Inv(s')
  {
    hide *;
    InvFacts(s);
    ActionCases(s, act, s');
    if act.AllocOf? {
      AllocCases(s, act.size, act.ptr, s');
      RoundedCovers(act.size);
      if s' != s {
        AllocInv(s, FirstFit(s.blocks, Rounded(act.size)).value, Rounded(act.size));
        InvMake(s');
      }
    } else if act.FreeOf? {
      if s' != s {
        var i := FreeCases(s, act.ptr, s');
        FreedInv(s, i);
        InvMake(s');
      }
    } else {
      WriteKeeps(s, act.a, act.v);
    }
  }

  lemma {:induction false} ActionCases(s: HeapState, act: Action, s': HeapState)
    requires Step(s, act, s')
    ensures act.AllocOf? ==> Alloc(s, act.size, act.ptr, s')
    ensures act.FreeOf? ==> Free(s, act.ptr, s')
    ensures act.WriteOf? ==> Owned(s.blocks, act.a) && s' == s.(mem := s.mem[act.a := act.v])
  {
    hide Alloc, Free, Owned;
  }

  /** A block in use stays in use, with its place and size, until its own pointer is freed. */
  lemma {:induction false} StepUsed(s: HeapState, act: Action, s': HeapState, b: Block)
    requires Inv(s) && Step(s, act, s') && b in Used(s.blocks)
    requires act != FreeOf(Payload(b))
    ensures b in Used(s'.blocks)
  {
    hide *;
    InvFacts(s);
    ShapeFacts(s);
    ActionCases(s, act, s');
    if s' != s {
      if act.AllocOf? {
        AllocCases(s, act.size, act.ptr, s');
        RoundedCovers(act.size);
        AllocatedSums(s.blocks, FirstFit(s.blocks, Rounded(act.size)).value, Rounded(act.size));
      } else if act.FreeOf? {
        var i := FreeCases(s, act.ptr, s');
        FreedShape(s.blocks, i);
      }
    }
  }

  lemma {:induction false} ShapeFacts(s: HeapState)
    requires Inv(s)
    ensures Shape(s.blocks)
  {
    hide Shape, Linked, UsedSize;
  }

  lemma {:induction false} UsedIn(bs: seq<Block>, b: Block)
    ensures b in Used(bs) <==> b in bs && !b.free
  {
  }

  /** Allocating and freeing change no byte of a block that is in use before and after. */
  lemma {:induction false} StepPayload(s: HeapState, act: Action, s': HeapState, b: Block, a: int)
    requires Inv(s) && Step(s, act, s') && b in Used(s.blocks) && InPayload(b, a)
    requires act != FreeOf(Payload(b)) && (act.WriteOf? ==> act.a != a)
    ensures a in s.mem && a in s'.mem && s'.mem[a] == s.mem[a]
  {
    hide *;
    StepUsed(s, act, s', b);
    StepInv(s, act, s');
    InvFacts(s);
    InvFacts(s');
    UsedIn(s.blocks, b);
    UsedIn(s'.blocks, b);
    PayloadNoHeader(s.blocks, b, a);
    PayloadNoHeader(s'.blocks, b, a);
    InMemory(s.mem, s.blocks, a);
    ActionCases(s, act, s');
    if s' != s {
      if act.AllocOf? {
        AllocCases(s, act.size, act.ptr, s');
        SameByte(s.mem, s'.mem, s.blocks, s'.blocks, a);
      } else if act.FreeOf? {
        var i := FreeCases(s, act.ptr, s');
        SameByte(s.mem, s'.mem, s.blocks, s'.blocks, a);
      }
    }
  }

  lemma {:induction false} InMemory(m: Memory, bs: seq<Block>, a: int)
    requires Linked(m, bs) && START <= a < LIMIT
    ensures a in m
  {
    hide LinkAt;
  }

  lemma {:induction false} SameByte(m: Memory, m': Memory, bs: seq<Block>, bs': seq<Block>, a: int)
    requires OnlyHeaders(m, m', bs, bs') && a in m && !InHeaders(bs, a) && !InHeaders(bs', a)
    ensures a in m' && m'[a] == m[a]
  {
    hide InHeaders;
  }

  /** What an allocation gives: nothing exactly when no free block is big enough; otherwise a new
      block, as big as the request, inside the heap and apart from every block in use. */
  lemma {:induction false} AllocGives(s: HeapState, size: u32, ptr: int, s': HeapState) returns (b: Block)
    requires Inv(s) && Alloc(s, size, ptr, s')
    ensures ptr == 0 <==> forall c | c in s.blocks :: !Fits(c, Rounded(size))
    ensures ptr != 0 ==>
              && Payload(b) == ptr == b.addr + 16 && b.size >= Rounded(size) && ptr % 16 == 0
              && Used(s'.blocks) == Used(s.blocks) + {b}
              && START + HEADER <= ptr && End(b) <= LIMIT
              && forall c | c in Used(s.blocks) :: End(c) <= b.addr || End(b) <= c.addr
  {
    hide *;
    b := Block(0, 0, false);
    InvFacts(s);
    Consts();
    ShapeFacts(s);
    AllocCases(s, size, ptr, s');
    RoundedCovers(size);
    var r := FirstFit(s.blocks, Rounded(size));
    if r.Some? {
      StepInvAlloc(s, size, ptr, s');
      InvFacts(s');
      AllocatedSums(s.blocks, r.value, Rounded(size));
      TakenIndex(s.blocks, r.value, Rounded(size));
      b := s'.blocks[r.value];
      assert s.blocks[r.value] in s.blocks;
      BlockFacts(s'.blocks, r.value);
      PayloadIs(b);
      PayloadIs(s.blocks[r.value]);
      forall c | c in Used(s.blocks)
        ensures End(c) <= b.addr || End(b) <= c.addr
      {
        UsedIn(s'.blocks, c);
        var j :| 0 <= j < |s'.blocks| && s'.blocks[j] == c;
        BlocksDisjoint(s'.blocks, r.value, j);
      }
    }
  }

  lemma {:induction false} StepInvAlloc(s: HeapState, size: u32, ptr: int, s': HeapState)
    requires Inv(s) && Alloc(s, size, ptr, s')
    ensures Inv(s')
  {
    assert Step(s, AllocOf(size, ptr), s');
    hide Inv, Alloc, Step;
    StepInv(s, AllocOf(size, ptr), s');
  }

  lemma {:induction false} BlockFacts(bs: seq<Block>, i: nat)
    requires Ordered(bs) && i < |bs|
    ensures var b := bs[i];
            && START <= b.addr && End(b) <= LIMIT && Payload(b) == b.addr + HEADER
            && Payload(b) % HEADER == 0 && START + HEADER <= Payload(b) && Payload(b) != 0
  {
    assert BlockOk(bs[i]);
    assert (bs[i].addr + 16) % 16 == 0;
  }

  // ----- whole runs -----

  lemma {:induction false} RunStep(states: seq<HeapState>, acts: seq<Action>, i: nat)
    requires Run(states, acts) && i < |acts|
    ensures |states| == |acts| + 1 && Step(states[i], acts[i], states[i + 1])
  {
    hide Step;
  }

  /** Over every run the heap stays in order. */
  lemma {:induction false} RunInv(states: seq<HeapState>, acts: seq<Action>, i: nat)
    requires Run(states, acts) && i <= |acts|
    ensures i < |states| && Inv(states[i])
    decreases i
  {
    if i == 0 {
      OneBlock();
      InvMake(states[0]);
    } else {
      RunInv(states, acts, i - 1);
      RunStep(states, acts, i - 1);
      hide *;
      StepInv(states[i - 1], acts[i - 1], states[i]);
    }
  }

  /** Between its allocation and its free, over any run in between, a block's bytes are what its
      clients wrote: the heap never changes one. */
  lemma {:induction false} RunPayload(states: seq<HeapState>, acts: seq<Action>, i: nat, k: nat, b: Block, a: int)
    requires Run(states, acts) && i <= k <= |acts| && |states| == |acts| + 1
    requires b in Used(states[i].blocks) && InPayload(b, a)
    requires forall j | i <= j < k :: acts[j] != FreeOf(Payload(b)) && !(acts[j].WriteOf? && acts[j].a == a)
    ensures b in Used(states[k].blocks) && a in states[i].mem && a in states[k].mem
    ensures states[k].mem[a] == states[i].mem[a]
    decreases k
  {
    hide *;
    RunInv(states, acts, k);
    if i == k {
      InvFacts(states[k]);
      UsedIn(states[k].blocks, b);
      PayloadNoHeader(states[k].blocks, b, a);
      InMemory(states[k].mem, states[k].blocks, a);
    } else {
      RunPayload(states, acts, i, k - 1, b, a);
      RunInv(states, acts, k - 1);
      RunStep(states, acts, k - 1);
      StepUsed(states[k - 1], acts[k - 1], states[k], b);
      StepPayload(states[k - 1], acts[k - 1], states[k], b, a);
    }
  }

  /** Any two blocks in use at the same time are disjoint. */
  lemma {:induction false} RunDisjoint(states: seq<HeapState>, acts: seq<Action>, i: nat, b: Block, c: Block)
    requires Run(states, acts) && i <= |acts| && |states| == |acts| + 1
    requires b in Used(states[i].blocks) && c in Used(states[i].blocks) && b != c
    ensures End(b) <= c.addr || End(c) <= b.addr
  {
    hide *;
    RunInv(states, acts, i);
    var bs := states[i].blocks;
    InvFacts(states[i]);
    UsedIn(bs, b);
    UsedIn(bs, c);
    var j :| 0 <= j < |bs| && bs[j] == b;
    var k :| 0 <= k < |bs| && bs[k] == c;
    BlocksDisjoint(bs, j, k);
  }

  // ----- accounting -----

  /** What a step takes from the heap for good: the rounded request, once more, on a split. */
  function Loss(s: HeapState, act: Action): int {
    if act.AllocOf? && FirstFit(s.blocks, Rounded(act.size)).Some? &&
       Splits(s.blocks[FirstFit(s.blocks, Rounded(act.size)).value], Rounded(act.size))
    then Rounded(act.size) else 0
  }

  function Losses(states: seq<HeapState>, acts: seq<Action>): int
    requires |states| == |acts| + 1
  {
    if acts == [] then 0
    else Losses(states[..|acts|], acts[..|acts| - 1]) + Loss(states[|acts| - 1], acts[|acts| - 1])
  }

  lemma {:induction false} StepWeight(s: HeapState, act: Action, s': HeapState)
    requires Inv(s) && Step(s, act, s')
    ensures Weight(s'.blocks) == Weight(s.blocks) - Loss(s, act)
  {
    hide *;
    InvFacts(s);
    ShapeFacts(s);
    ActionCases(s, act, s');
    LossIs(s, act);
    if act.AllocOf? {
      AllocCases(s, act.size, act.ptr, s');
      RoundedCovers(act.size);
      var r := FirstFit(s.blocks, Rounded(act.size));
      if r.Some? {
        AllocatedSums(s.blocks, r.value, Rounded(act.size));
      }
    } else if act.FreeOf? && s' != s {
      var i := FreeCases(s, act.ptr, s');
      FreedShape(s.blocks, i);
    }
  }

  lemma {:induction false} LossIs(s: HeapState, act: Action)
    ensures !act.AllocOf? ==> Loss(s, act) == 0
    ensures act.AllocOf? ==>
              var n := Rounded(act.size);
              var r := FirstFit(s.blocks, n);
              Loss(s, act) == if r.Some? && Splits(s.blocks[r.value], n) then n else 0
  {
    hide Splits, Rounded, FirstFit;
  }

  /** Over every run the bytes of all blocks and the losses of the splits add up to the heap, and
      HeapUsed is the sum of the blocks in use. */
  lemma {:induction false} RunAccounts(states: seq<HeapState>, acts: seq<Action>)
    requires Run(states, acts) && |states| == |acts| + 1
    ensures Weight(states[|acts|].blocks) + Losses(states, acts) == SIZE + HEADER
    ensures states[|acts|].used == UsedSize(states[|acts|].blocks)
    decreases |acts|
  {
    var n := |acts|;
    RunInv(states, acts, n);
    InvFacts(states[n]);
    if n == 0 {
      SumsOne(Block(START, SIZE, true));
    } else {
      RunPrefix(states, acts);
      RunAccounts(states[..n], acts[..n - 1]);
      RunInv(states, acts, n - 1);
      RunStep(states, acts, n - 1);
      hide Inv, Step, Loss, Weight, UsedSize, Run;
      StepWeight(states[n - 1], acts[n - 1], states[n]);
    }
  }

  lemma {:induction false} RunPrefix(states: seq<HeapState>, acts: seq<Action>)
    requires Run(states, acts) && acts != [] && |states| == |acts| + 1
    ensures Run(states[..|acts|], acts[..|acts| - 1])
  {
    hide Step, Fresh;
  }

  // ----- which pointers can be freed -----

  /** HeapFreePtr looks at every pointer of the list. */
  predicate AllConsidered(bs: seq<Block>) {
    forall b | b in bs :: Considered(Payload(b))
  }

  /** Of all blocks that fit the heap only one at its very end is out of HeapFreePtr's sight. */
  lemma {:induction false} ConsideredExactly(b: Block)
    requires BlockOk(b)
    ensures Considered(Payload(b)) <==> b.addr != START + SIZE
  {
    var i := b.addr / HEADER;
    assert b.addr == HEADER * i;
  }

  /** As long as no request rounds to nothing, every pointer the heap gave can be freed. */
  lemma {:induction false} RunConsidered(states: seq<HeapState>, acts: seq<Action>, i: nat)
    requires Run(states, acts) && i <= |acts| && |states| == |acts| + 1
    requires forall j | 0 <= j < i :: acts[j].AllocOf? ==> 1 <= acts[j].size <= 0x1_0000_0000 - 16
    ensures AllConsidered(states[i].blocks)
    decreases i
  {
    if i > 0 {
      RunConsidered(states, acts, i - 1);
      RunInv(states, acts, i - 1);
      RunStep(states, acts, i - 1);
      hide *;
      StepConsidered(states[i - 1], acts[i - 1], states[i]);
    }
  }

  lemma {:induction false} StepConsidered(s: HeapState, act: Action, s': HeapState)
    requires Inv(s) && Step(s, act, s') && AllConsidered(s.blocks)
    requires act.AllocOf? ==> 1 <= act.size <= 0x1_0000_0000 - 16
    ensures AllConsidered(s'.blocks)
  {
    hide *;
    InvFacts(s);
    ActionCases(s, act, s');
    if s' != s {
      if act.AllocOf? {
        AllocCases(s, act.size, act.ptr, s');
        RoundedCovers(act.size);
        var r := FirstFit(s.blocks, Rounded(act.size));
        AllocatedConsidered(s.blocks, r.value, Rounded(act.size));
      } else if act.FreeOf? {
        var i := FreeCases(s, act.ptr, s');
        FreedConsidered(s.blocks, i);
      }
    }
  }

  lemma {:induction false} AllocatedConsidered(bs: seq<Block>, i: nat, n: int)
    requires Ordered(bs) && AllConsidered(bs) && i < |bs| && n >= HEADER
    ensures AllConsidered(Allocated(bs, i, n))
  {
    var b := bs[i];
    assert BlockOk(b) && Considered(Payload(b));
    AllocatedOf(bs, i, n);
    hide Ordered, Allocated;
    forall c | c in Allocated(bs, i, n)
      ensures Considered(Payload(c))
    {
    }
  }

  lemma {:induction false} FreedConsidered(bs: seq<Block>, i: nat)
    requires AllConsidered(bs) && i < |bs|
    ensures AllConsidered(Freed(bs, i))
  {
    var fs := bs[i := bs[i].(free := true)];
    assert Considered(Payload(bs[i]));
    forall c | c in fs
      ensures Considered(Payload(c))
    {
      var j :| 0 <= j < |fs| && fs[j] == c;
      assert j != i ==> c == bs[j] && bs[j] in bs;
    }
    CoalescedConsidered(fs);
  }

  lemma {:induction false} CoalescedConsidered(bs: seq<Block>)
    requires AllConsidered(bs)
    ensures AllConsidered(Coalesced(bs))
    decreases |bs|
  {
    if |bs| >= 2 {
      if bs[0].free && bs[1].free {
        var merged := [Merge(bs[0], bs[1])] + bs[2..];
        assert Considered(Payload(bs[0]));
        CoalescedConsidered(merged);
      } else {
        CoalescedConsidered(bs[1..]);
      }
    }
  }

  // ----- requests of no size -----

  /** k blocks of no size from the start of the heap on, in use. */
  function Emptied(k: nat): (bs: seq<Block>)
    ensures |bs| == k && forall j | 0 <= j < k :: bs[j] == Block(START + HEADER * j, 0, false)
  {
    if k == 0 then [] else Emptied(k - 1) + [Block(START + HEADER * (k - 1), 0, false)]
  }

  /** Behind them all that is left, free. */
  function Shrunk(k: nat): seq<Block> {
    Emptied(k) + [Block(START + HEADER * k, SIZE - HEADER * k, true)]
  }

  /** How many of them the heap holds. */
  const DEPTH: nat := SIZE / HEADER

  lemma {:induction false} DepthIs()
    ensures DEPTH == 0xED_0000 && HEADER * DEPTH == SIZE && HEADER == 16
  {
  }

  /** A request of no size takes 16 bytes off the front of the free block. */
  lemma {:induction false} ShrinkStep(s: HeapState, k: nat, ptr: int, s': HeapState)
    requires s.blocks == Shrunk(k) && k <= DEPTH && Alloc(s, 0, ptr, s')
    ensures ptr == START + HEADER * (k + 1)
    ensures k < DEPTH ==> s'.blocks == Shrunk(k + 1)
  {
    RoundedCovers(0);
    DepthIs();
    assert Rounded(0) == 0;
    var bs := s.blocks;
    assert bs[k] == Block(START + HEADER * k, SIZE - HEADER * k, true);
    forall j | 0 <= j < k
      ensures !Fits(bs[j], 0)
    {
      assert bs[j] == Emptied(k)[j];
    }
    FirstFitIs(bs, 0, k);
    hide Linked, OnlyHeaders, FirstFit, UsedSize, Rounded;
    AllocCases(s, 0, ptr, s');
    if k < DEPTH {
      assert bs[..k] == Emptied(k) && bs[k + 1..] == [];
      AllocatedOf(bs, k, 0);
      assert Splits(bs[k], 0);
    }
  }

  /** After k requests of no size. */
  lemma {:induction false} RunShrinks(states: seq<HeapState>, acts: seq<Action>, k: nat)
    requires Run(states, acts) && k <= |acts| && k <= DEPTH && |states| == |acts| + 1
    requires forall j | 0 <= j < k :: acts[j].AllocOf? && acts[j].size == 0
    ensures states[k].blocks == Shrunk(k)
    decreases k
  {
    if k > 0 {
      RunShrinks(states, acts, k - 1);
      RunStep(states, acts, k - 1);
      var act := acts[k - 1];
      ActionCases(states[k - 1], act, states[k]);
      hide *;
      ShrinkStep(states[k - 1], k - 1, act.ptr, states[k]);
    }
  }

  /** The pointer that follows SIZE / 16 of them lies behind the heap: freeing it does nothing. */
  lemma {:induction false} RunLosesPointer(states: seq<HeapState>, acts: seq<Action>)
    requires Run(states, acts) && |acts| > DEPTH && |states| == |acts| + 1
    requires forall j | 0 <= j <= DEPTH :: acts[j].AllocOf? && acts[j].size == 0
    ensures acts[DEPTH].ptr == START + SIZE + HEADER && !Considered(acts[DEPTH].ptr)
    ensures forall s, s' :: Free(s, acts[DEPTH].ptr, s') ==> s' == s
  {
    RunShrinks(states, acts, DEPTH);
    RunStep(states, acts, DEPTH);
    var act := acts[DEPTH];
    ActionCases(states[DEPTH], act, states[DEPTH + 1]);
    ShrinkStep(states[DEPTH], DEPTH, act.ptr, states[DEPTH + 1]);
    DepthIs();
    hide Run, Step, Alloc, Linked, OnlyHeaders, Shrunk;
  }

  /** Such a run exists: the allocator itself makes it, on every memory. */
  method LosePointer(m: Memory) returns (heap: KernelHeap, ptr: u32)
    requires forall a | START <= a < LIMIT :: a in m
    ensures fresh(heap) && heap.Valid() && ptr == START + SIZE + HEADER
    ensures exists b :: b in Used(heap.blocks) && Payload(b) == ptr
  {
    heap := new KernelHeap(m);
    hide *;
    FirstShrunk();
    DepthIs();
    for k := 0 to DEPTH
      invariant heap.Valid() && fresh(heap) && heap.blocks == Shrunk(k)
    {
      ghost var s := heap.State();
      ptr := heap.HeapAlloc(0);
      ShrinkStep(s, k, ptr, heap.State());
    }
    heap.ValidFacts();
    ghost var s := heap.State();
    ptr := heap.HeapAlloc(0);
    heap.ValidFacts();
    ShrinkStep(s, DEPTH, ptr, heap.State());
    ghost var b := AllocGives(s, 0, ptr, heap.State());
    Consts();
    assert b in Used(heap.blocks);
  }

  lemma {:induction false} FirstShrunk()
    ensures Shrunk(0) == [Block(START, SIZE, true)]
  {
  }
}
