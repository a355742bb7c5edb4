/** Ring buffers, pseudo terminals on top of them, and the terminal's history window. */
module Pipes {
  import opened Wrappers
  import opened Sequences
  import opened Words

  // ----- a ring -----

  /** The index i places after the tail. */
  function Slot(tail: nat, i: nat, size: nat): (k: nat)
    requires size > 0 && tail < size && i <= size
    ensures k < size
    ensures k == (tail + i) % size
  {
    if tail + i < size then RoundNone(tail + i, size); tail + i
    else RoundOnce(tail + i, size); tail + i - size
  }

  lemma {:induction false} RoundNone(x: int, size: int)
    requires 0 <= x < size
    ensures x % size == x
  {
    ModUnique(x, size, 0, x);
  }

  lemma {:induction false} RoundOnce(x: int, size: int)
    requires 0 < size && size <= x < 2 * size
    ensures x % size == x - size
  {
    ModUnique(x, size, 1, x - size);
  }

  /** The elements of a ring, from the tail on. */
  function Window<T>(a: seq<T>, tail: nat, count: nat): (s: seq<T>)
    requires count <= |a| && (|a| > 0 ==> tail < |a|)
    ensures |s| == count
    ensures forall i | 0 <= i < count :: s[i] == a[Slot(tail, i, |a|)]
    decreases count
  {
    if count == 0 then [] else Window(a, tail, count - 1) + [a[Slot(tail, count - 1, |a|)]]
  }

  lemma {:induction false} SlotsDiffer(tail: nat, i: nat, j: nat, size: nat)
    requires size > 0 && tail < size && i < j <= size && j - i < size
    ensures Slot(tail, i, size) != Slot(tail, j, size)
  {
  }

  lemma {:induction false} SlotNext(tail: nat, i: nat, size: nat)
    requires size > 0 && tail < size && i < size
    ensures Slot(tail, 1, size) < size && Slot(Slot(tail, 1, size), i, size) == Slot(tail, i + 1, size)
    ensures Slot(tail, i + 1, size) == (Slot(tail, i, size) + 1) % size
  {
    var k := Slot(tail, i, size);
    if k + 1 == size { RoundOnce(k + 1, size); } else { RoundNone(k + 1, size); }
  }

  /** Writing behind the window appends; dropping its first element moves the tail. */
  lemma {:induction false} WindowPush<T>(a: seq<T>, tail: nat, count: nat, x: T)
    requires 0 < |a| && tail < |a| && count < |a|
    ensures Window(a[Slot(tail, count, |a|) := x], tail, count + 1) == Window(a, tail, count) + [x]
  {
    var b := a[Slot(tail, count, |a|) := x];
    forall i | 0 <= i < count
      ensures Window(b, tail, count + 1)[i] == Window(a, tail, count)[i]
    {
      SlotsDiffer(tail, i, count, |a|);
    }
  }

  lemma {:induction false} WindowPop<T>(a: seq<T>, tail: nat, count: nat)
    requires 0 < |a| && tail < |a| && 0 < count <= |a|
    ensures Window(a, tail, count) == [a[tail]] + Window(a, Slot(tail, 1, |a|), count - 1)
  {
    var w, v := Window(a, tail, count), Window(a, Slot(tail, 1, |a|), count - 1);
    forall i | 0 <= i < count
      ensures w[i] == ([a[tail]] + v)[i]
    {
      if i > 0 {
        SlotNext(tail, i - 1, |a|);
      }
    }
  }

  class Fifo<T(0)> {
    const arr: array<T>
    var head: nat
    var tail: nat
    var count: nat
    /** Everything ever accepted, and everything ever handed out. */
    ghost var accepted: seq<T>
    ghost var taken: seq<T>

    /** What was handed out and what is waiting make up what was accepted. */
    ghost predicate Valid()
      reads this, arr
    {
      && count <= arr.Length && (arr.Length > 0 ==> tail < arr.Length && head == Slot(tail, count, arr.Length))
      && accepted == taken + Contents()
    }

    ghost function Contents(): seq<T>
      reads this, arr
      requires count <= arr.Length && (arr.Length > 0 ==> tail < arr.Length)
    {
      Window(arr[..], tail, count)
    }

    constructor (size: nat)
      ensures Valid() && fresh(arr) && arr.Length == size && Contents() == [] && accepted == [] && taken == []
    {
      arr := new T[size];
      head, tail, count := 0, 0, 0;
      accepted, taken := [], [];
      new;
      if size > 0 {
        assert Slot(0, 0, size) == 0;
      }
    }

    method Write(x: T) returns (ok: bool)
      requires Valid()
      modifies this, arr
      ensures Valid() && ok == (|old(Contents())| < arr.Length) && taken == old(taken)
      ensures Contents() == if ok then old(Contents()) + [x] else old(Contents())
      ensures accepted == if ok then old(accepted) + [x] else old(accepted)
    {
      if count >= arr.Length {
        return false;
      }
      hide Window, Slot;
      WindowPush(arr[..], tail, count, x);
      SlotNext(tail, count, arr.Length);
      arr[head] := x;
      head := (head + 1) % arr.Length;
      count := count + 1;
      Assoc(taken, old(Contents()), [x]);
      accepted := accepted + [x];
      return true;
    }

    method Read() returns (r: Option<T>)
      requires Valid()
      modifies this
      ensures Valid() && (r.Some? <==> old(Contents()) != []) && accepted == old(accepted)
      ensures r.Some? ==> old(Contents()) == [r.value] + Contents() && taken == old(taken) + [r.value]
      ensures r.None? ==> Contents() == old(Contents()) && taken == old(taken)
    {
      hide Window, Slot;
      if count == 0 {
        return None;
      }
      Assoc(taken, [arr[tail]], Window(arr[..], Slot(tail, 1, arr.Length), count - 1));
      WindowPop(arr[..], tail, count);
      SlotNext(tail, count - 1, arr.Length);
      SlotOne(tail, arr.Length);
      r := Some(arr[tail]);
      tail := (tail + 1) % arr.Length;
      count := count - 1;
      taken := taken + [r.value];
    }
  }

  lemma {:induction false} SlotOne(tail: nat, size: nat)
    requires size > 0 && tail < size
    ensures Slot(tail, 1, size) == (tail + 1) % size
    ensures Slot(tail, 0, size) == tail
  {
  }

  // ----- pseudo terminals -----

  /** One descriptor, seen from outside: what waits, what was ever accepted, what was ever taken. */
  datatype Pipe = Pipe(waiting: seq<byte>, accepted: seq<byte>, taken: seq<byte>)

  datatype Use = Wrote(content: seq<byte>) | Took(count: nat)

  /** A use of a descriptor whose ring has the given size. */
  function After(p: Pipe, use: Use, size: nat): Pipe
    requires |p.waiting| <= size
  {
    match use
    case Wrote(content) =>
      var fit := content[..Min(|content|, size - |p.waiting|)];
      p.(waiting := p.waiting + fit, accepted := p.accepted + fit)
    case Took(count) =>
      var n := Min(count, |p.waiting|);
      p.(waiting := p.waiting[n..], taken := p.taken + p.waiting[..n])
  }

  /** Any interleaving of writes and reads, from an empty ring. */
  function Played(uses: seq<Use>, size: nat): (p: Pipe)
    ensures |p.waiting| <= size
  {
    if uses == [] then Pipe([], [], [])
    else After(Played(uses[..|uses| - 1], size), uses[|uses| - 1], size)
  }

  /** What has been read is always what was accepted first, and the rest of it waits in order. */
  lemma {:induction false} ReadIsPrefix(uses: seq<Use>, size: nat)
    ensures var p := Played(uses, size);
            p.accepted == p.taken + p.waiting && p.taken <= p.accepted
    decreases |uses|
  {
    if uses != [] {
      var before, use := Played(uses[..|uses| - 1], size), uses[|uses| - 1];
      ReadIsPrefix(uses[..|uses| - 1], size);
      match use {
        case Wrote(content) =>
          var fit := content[..Min(|content|, size - |before.waiting|)];
          Assoc(before.taken, before.waiting, fit);
        case Took(count) =>
          var n := Min(count, |before.waiting|);
          assert before.waiting == before.waiting[..n] + before.waiting[n..];
          Assoc(before.taken, before.waiting[..n], before.waiting[n..]);
      }
    }
  }

  /** Input, output and error of a terminal; one ring each. */
  class Pty {
    const input: Fifo<byte>
    const output: Fifo<byte>
    const error: Fifo<byte>

    ghost predicate Valid()
      reads this, input, output, error, input.arr, output.arr, error.arr
    {
      && input.Valid() && output.Valid() && error.Valid()
      && input != output && input != error && output != error
      && input.arr != output.arr && input.arr != error.arr && output.arr != error.arr
    }

    constructor (size: nat)
      ensures Valid() && fresh(input) && fresh(output) && fresh(error)
      ensures fresh(input.arr) && fresh(output.arr) && fresh(error.arr)
      ensures input.arr.Length == output.arr.Length == error.arr.Length == size
      ensures input.accepted == [] && output.accepted == [] && error.accepted == []
    {
      input := new Fifo(size);
      output := new Fifo(size);
      error := new Fifo(size);
    }

    /** The descriptors 0, 1 and 2. */
    function Of(pd: nat): Fifo<byte>
      requires pd <= 2
    {
      if pd == 0 then input else if pd == 1 then output else error
    }

    /** A descriptor as its users see it. */
    ghost function Seen(pd: nat): (p: Pipe)
      requires pd <= 2 && Valid()
      reads this, input, output, error, input.arr, output.arr, error.arr
      ensures |p.waiting| <= Of(pd).arr.Length
    {
      Pipe(Of(pd).Contents(), Of(pd).accepted, Of(pd).taken)
    }

    /** PTYWrite: as many bytes as there is room for. */
    method Write(pd: nat, content: seq<byte>) returns (n: nat)
      requires Valid() && pd <= 2
      modifies Of(pd), Of(pd).arr
      ensures Valid()
      ensures n == Min(|content|, Of(pd).arr.Length - |old(Of(pd).Contents())|)
      ensures Of(pd).Contents() == old(Of(pd).Contents()) + content[..n]
      ensures Of(pd).accepted == old(Of(pd).accepted) + content[..n] && Of(pd).taken == old(Of(pd).taken)
      ensures Seen(pd) == After(old(Seen(pd)), Wrote(content), Of(pd).arr.Length)
      ensures forall q: nat | q <= 2 && q != pd :: Seen(q) == old(Seen(q))
      ensures if pd == 0 then input.accepted == old(input.accepted) + content[..n]
              else unchanged(input) && unchanged(input.arr)
      ensures if pd == 1 then output.accepted == old(output.accepted) + content[..n]
              else unchanged(output) && unchanged(output.arr)
      ensures if pd == 2 then error.accepted == old(error.accepted) + content[..n]
              else unchanged(error) && unchanged(error.arr)
    {
      hide Window, Slot;
      var fifo := Of(pd);
      n := WriteAll(fifo, content);
    }

    /** PTYRead: as many bytes as are waiting. */
    method Read(pd: nat, count: nat) returns (content: seq<byte>)
      requires Valid() && pd <= 2
      modifies Of(pd)
      ensures Valid()
      ensures |content| == Min(count, |old(Of(pd).Contents())|)
      ensures old(Of(pd).Contents()) == content + Of(pd).Contents()
      ensures Of(pd).taken == old(Of(pd).taken) + content && Of(pd).accepted == old(Of(pd).accepted)
      ensures Seen(pd) == After(old(Seen(pd)), Took(count), Of(pd).arr.Length)
      ensures forall q: nat | q <= 2 && q != pd :: Seen(q) == old(Seen(q))
      ensures if pd == 0 then input.taken == old(input.taken) + content else unchanged(input)
      ensures if pd == 1 then output.taken == old(output.taken) + content else unchanged(output)
      ensures if pd == 2 then error.taken == old(error.taken) + content else unchanged(error)
      ensures unchanged(input.arr) && unchanged(output.arr) && unchanged(error.arr)
    {
      hide Window, Slot;
      var fifo := Of(pd);
      content := ReadAll(fifo, count);
      assert old(fifo.Contents())[..|content|] == content && old(fifo.Contents())[|content|..] == fifo.Contents();
    }
  }

  /** What is written to one descriptor is not read from another. */
  method Echo(size: nat, content: seq<byte>, count: nat) returns (typed: seq<byte>, shown: seq<byte>)
    ensures typed == [] && shown == content[..Min(Min(|content|, size), count)]
  {
    var pty := new Pty(size);
    hide Window, Slot, After;
    var n := pty.Write(1, content);
    typed := pty.Read(0, count);
    shown := pty.Read(1, count);
    assert content[..n] == shown + pty.output.Contents();
  }

  method WriteAll(fifo: Fifo<byte>, content: seq<byte>) returns (n: nat)
    requires fifo.Valid()
    modifies fifo, fifo.arr
    ensures fifo.Valid() && n == Min(|content|, fifo.arr.Length - |old(fifo.Contents())|)
    ensures fifo.Contents() == old(fifo.Contents()) + content[..n]
    ensures fifo.accepted == old(fifo.accepted) + content[..n] && fifo.taken == old(fifo.taken)
  {
    hide Window, Slot;
    n := 0;
    while n < |content|
      invariant 0 <= n <= |content| && fifo.Valid() && fifo.taken == old(fifo.taken)
      invariant fifo.Contents() == old(fifo.Contents()) + content[..n]
      invariant fifo.accepted == old(fifo.accepted) + content[..n]
    {
      assert content[..n + 1] == content[..n] + [content[n]];
      Assoc(old(fifo.Contents()), content[..n], [content[n]]);
      Assoc(old(fifo.accepted), content[..n], [content[n]]);
      var ok := fifo.Write(content[n]);
      if !ok {
        break;
      }
      n := n + 1;
    }
  }

  method ReadAll(fifo: Fifo<byte>, count: nat) returns (content: seq<byte>)
    requires fifo.Valid()
    modifies fifo
    ensures fifo.Valid() && |content| == Min(count, |old(fifo.Contents())|)
    ensures old(fifo.Contents()) == content + fifo.Contents()
    ensures fifo.taken == old(fifo.taken) + content && fifo.accepted == old(fifo.accepted)
  {
    hide Window, Slot;
    content := [];
    while |content| < count
      invariant |content| <= count && fifo.Valid() && fifo.accepted == old(fifo.accepted)
      invariant old(fifo.Contents()) == content + fifo.Contents()
      invariant fifo.taken == old(fifo.taken) + content
    {
      var r := fifo.Read();
      if r.None? {
        break;
      }
      Assoc(content, [r.value], fifo.Contents());
      Assoc(old(fifo.taken), content, [r.value]);
      content := content + [r.value];
    }
  }

  // ----- the terminal's history -----

  const HISTORY := 2048

  /** The last n elements. */
  function Last<T>(s: seq<T>, n: nat): seq<T> {
    if |s| <= n then s else s[|s| - n..]
  }

  /** A window over a stream: the oldest byte falls out when a new one does not fit. */
  lemma {:induction false} LastSnoc<T>(s: seq<T>, n: nat, x: T)
    requires n > 0
    ensures Last(s + [x], n) == if |s| < n then Last(s, n) + [x] else Last(s, n)[1..] + [x]
  {
  }

  lemma {:induction false} LastLength<T>(s: seq<T>, n: nat)
    ensures |Last(s, n)| == Min(|s|, n)
  {
  }

  class Tty {
    const pty: Pty
    const last: array<byte>
    var last_index: nat
    /** Every byte ever written to the terminal. */
    ghost var written: seq<byte>

    /** The history is the end of all that was written. */
    ghost predicate Valid()
      reads this, last
    {
      last.Length == HISTORY && last_index == |Last(written, HISTORY)| && last[..last_index] == Last(written, HISTORY)
    }

    /** The history shares no memory with the rings. */
    ghost predicate Apart()
      reads this, pty
    {
      last != pty.input.arr && last != pty.output.arr && last != pty.error.arr
    }

    constructor (pty: Pty)
      ensures Valid() && Apart() && written == [] && this.pty == pty && fresh(last) && last.Length == 2048
    {
      this.pty := pty;
      last := new byte[HISTORY];
      last_index := 0;
      written := [];
    }

    /** The overlapping copy of the history one place down, from the front. */
    method Shift()
      requires last.Length == HISTORY
      modifies last
      ensures last[..] == old(last[..])[1..] + [old(last[HISTORY - 1])]
    {
      for i := 0 to HISTORY - 1
        invariant forall k | 0 <= k < i :: last[k] == old(last[k + 1])
        invariant forall k | i <= k < HISTORY :: last[k] == old(last[k])
      {
        last[i] := last[i + 1];
      }
    }

    method RememberByte(b: byte)
      requires Valid()
      modifies this, last
      ensures Valid() && written == old(written) + [b]
    {
      LastSnoc(written, HISTORY, b);
      LastLength(written, HISTORY);
      hide Last;
      ghost var before := last[..];
      if last_index < HISTORY {
        last[last_index] := b;
        assert last[..last_index + 1] == before[..last_index] + [b];
        last_index := last_index + 1;
      } else {
        Shift();
        last[HISTORY - 1] := b;
        assert last[..HISTORY] == before[1..] + [b];
        assert before == before[..HISTORY];
      }
      written := written + [b];
    }

    method Remember(content: seq<byte>)
      requires Valid()
      modifies this, last
      ensures Valid() && written == old(written) + content
    {
      hide Last;
      assert old(written) + content[..0] == old(written);
      for i := 0 to |content|
        invariant Valid() && written == old(written) + content[..i]
      {
        assert content[..i + 1] == content[..i] + [content[i]];
        Assoc(old(written), content[..i], [content[i]]);
        RememberByte(content[i]);
      }
      assert content[..|content|] == content;
    }

    /** TTYWrite: the history takes everything, the ring what fits. */
    method Write(pd: nat, content: seq<byte>) returns (n: nat)
      requires Valid() && pty.Valid() && Apart() && pd <= 2
      modifies this, last, pty.Of(pd), pty.Of(pd).arr
      ensures Valid() && pty.Valid()
      ensures written == old(written) + content
      ensures var all := old(written) + content;
              last[..last_index] == if |all| <= 2048 then all else all[|all| - 2048..]
      ensures n == Min(|content|, pty.Of(pd).arr.Length - |old(pty.Of(pd).Contents())|)
      ensures pty.Of(pd).accepted == old(pty.Of(pd).accepted) + content[..n]
      ensures forall q: nat | q <= 2 && q != pd :: pty.Seen(q) == old(pty.Seen(q))
      ensures if pd == 0 then pty.input.accepted == old(pty.input.accepted) + content[..n]
              else unchanged(pty.input) && unchanged(pty.input.arr)
      ensures if pd == 1 then pty.output.accepted == old(pty.output.accepted) + content[..n]
              else unchanged(pty.output) && unchanged(pty.output.arr)
      ensures if pd == 2 then pty.error.accepted == old(pty.error.accepted) + content[..n]
              else unchanged(pty.error) && unchanged(pty.error.arr)
    {
      hide Window, Slot;
      Remember(content);
      n := pty.Write(pd, content);
    }
  }
}
