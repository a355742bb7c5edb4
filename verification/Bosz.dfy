/** The BosZ run-length format: chunks of 253 bytes, tokens for runs and for raw bytes. */
module Bosz {
  import opened Sequences
  import opened Words

  const CHUNK := 253
  const MAGIC: byte := 0x8D
  const RAW: byte := 0xFF

  // ----- one chunk: specification -----

  function RawToken(raw: seq<byte>): seq<byte>
    requires |raw| <= CHUNK
  {
    [RAW, |raw|] + raw
  }

  function RunToken(count: int, b: byte): seq<byte>
    requires 0 <= count <= CHUNK
  {
    [count, b]
  }

  function Flush(raw: seq<byte>): seq<byte>
    requires |raw| <= CHUNK
  {
    if raw == [] then [] else RawToken(raw)
  }

  /** What is still to be written: a run of `count` bytes `prev` has been seen, the single bytes in
      front of it are waiting in `raw`, and `rest` follows. */
  function Pending(prev: byte, count: int, raw: seq<byte>, rest: seq<byte>): seq<byte>
    requires count >= 1 && |raw| + count + |rest| <= CHUNK
    decreases |rest|
  {
    if rest == [] then
      if count > 1 then RunToken(count, prev) else if raw == [] then [] else RawToken(raw + [prev])
    else if rest[0] == prev then Flush(raw) + Pending(prev, count + 1, [], rest[1..])
    else if count > 1 then RunToken(count, prev) + Pending(rest[0], 1, raw, rest[1..])
    else Pending(rest[0], 1, raw + [prev], rest[1..])
  }

  function ChunkCode(c: seq<byte>): seq<byte>
    requires |c| <= CHUNK
  {
    if c == [] then [] else Pending(c[0], 1, [], c[1..])
  }

  /** A chunk loses its last byte when it stands alone behind a run, or alone altogether. */
  predicate EndsAlone(c: seq<byte>) {
    var n := |c|;
    n == 1 || (n >= 3 && c[n - 1] != c[n - 2] && c[n - 2] == c[n - 3])
  }

  function Restored(c: seq<byte>): seq<byte> {
    if EndsAlone(c) then c[..|c| - 1] else c
  }

  // ----- decoding: specification -----

  /** Overrun: more raw bytes than the decoder's buffer holds. Truncated: the file ends inside. */
  datatype Decoded = Bytes(data: seq<byte>) | BadFormat | Overrun | Truncated

  function Prepend(a: seq<byte>, r: Decoded): Decoded {
    if r.Bytes? then Bytes(a + r.data) else r
  }

  function Repeat(b: byte, n: nat): (s: seq<byte>)
    ensures |s| == n && forall i | 0 <= i < n :: s[i] == b
  {
    if n == 0 then [] else [b] + Repeat(b, n - 1)
  }

  function Tokens(s: seq<byte>): Decoded
    decreases |s|
  {
    if s == [] then Truncated
    else if s[0] == 0 then Bytes([])
    else if |s| < 2 then Truncated
    else if s[0] == RAW then
      if s[1] > CHUNK then Overrun
      else if |s| < 2 + s[1] then Truncated
      else Prepend(s[2..2 + s[1]], Tokens(s[2 + s[1]..]))
    else Prepend(Repeat(s[1], s[0]), Tokens(s[2..]))
  }

  function File(s: seq<byte>): Decoded {
    if s == [] || s[0] != MAGIC then BadFormat else Tokens(s[1..])
  }

  // ----- one token -----

  lemma {:induction false} PrependTwice(a: seq<byte>, b: seq<byte>, r: Decoded)
    ensures Prepend(a, Prepend(b, r)) == Prepend(a + b, r)
    ensures Prepend([], r) == r
  {
    if r.Bytes? {
      Assoc(a, b, r.data);
      assert [] + r.data == r.data;
    }
  }

  lemma {:induction false} DecodeRun(count: int, b: byte, more: seq<byte>)
    requires 1 <= count <= CHUNK
    ensures Tokens(RunToken(count, b) + more) == Prepend(Repeat(b, count), Tokens(more))
  {
    var s := RunToken(count, b) + more;
    assert s[0] == count && s[1] == b && s[2..] == more;
    hide Repeat;
  }

  lemma {:induction false} DecodeRaw(raw: seq<byte>, more: seq<byte>)
    requires |raw| <= CHUNK
    ensures Tokens(RawToken(raw) + more) == Prepend(raw, Tokens(more))
  {
    var s := RawToken(raw) + more;
    assert s[0] == RAW && s[1] == |raw|;
    assert s[2..2 + |raw|] == raw && s[2 + |raw|..] == more;
  }

  lemma {:induction false} DecodeFlush(raw: seq<byte>, more: seq<byte>)
    requires |raw| <= CHUNK
    ensures Tokens(Flush(raw) + more) == Prepend(raw, Tokens(more))
  {
    if raw == [] {
      assert [] + more == more;
      PrependTwice([], [], Tokens(more));
    } else {
      DecodeRaw(raw, more);
    }
    hide Tokens;
  }

  // ----- one chunk: round trip -----

  /** The last byte is lost in this state: it stands alone and nothing waits in front of it. */
  predicate Loses(prev: byte, count: int, raw: seq<byte>, rest: seq<byte>)
    requires count >= 1
    decreases |rest|
  {
    if rest == [] then count == 1 && raw == []
    else if rest[0] == prev then Loses(prev, count + 1, [], rest[1..])
    else if count > 1 then Loses(rest[0], 1, raw, rest[1..])
    else Loses(rest[0], 1, raw + [prev], rest[1..])
  }

  function ButLast(s: seq<byte>, lose: bool): seq<byte>
    requires lose ==> s != []
  {
    if lose then s[..|s| - 1] else s
  }

  /** All that has been seen but not written yet. */
  function Seen(prev: byte, count: int, raw: seq<byte>, rest: seq<byte>): (s: seq<byte>)
    requires count >= 1
    ensures |s| == |raw| + count + |rest|
  {
    raw + Repeat(prev, count) + rest
  }

  lemma {:induction false} ButLastTail(a: seq<byte>, b: seq<byte>, lose: bool)
    requires b != []
    ensures ButLast(a + b, lose) == a + ButLast(b, lose)
  {
    if lose {
      assert (a + b)[..|a + b| - 1] == a + b[..|b| - 1];
    }
  }

  lemma {:induction false} RepeatMore(b: byte, n: nat, rest: seq<byte>)
    requires rest != [] && rest[0] == b
    ensures Repeat(b, n) + rest == Repeat(b, n + 1) + rest[1..]
    ensures Repeat(b, 1) == [b]
  {
    var x, y := Repeat(b, n) + rest, Repeat(b, n + 1) + rest[1..];
    assert |x| == |y|;
    forall i | 0 <= i < |x| ensures x[i] == y[i] { }
  }

  /** A run is open, or single bytes wait; decoding gives back all that was seen, but for the last
      byte where it stands alone. */
  lemma {:induction false} PendingDecodes(prev: byte, count: int, raw: seq<byte>, rest: seq<byte>, more: seq<byte>)
    requires count >= 1 && |raw| + count + |rest| <= CHUNK && (count > 1 ==> raw == [])
    ensures Tokens(Pending(prev, count, raw, rest) + more)
         == Prepend(ButLast(Seen(prev, count, raw, rest), Loses(prev, count, raw, rest)), Tokens(more))
    decreases |rest|
  {
    hide Tokens, Repeat, RunToken, RawToken, Flush;
    if rest == [] {
      PendingEnd(prev, count, raw, more);
    } else if rest[0] == prev {
      PendingDecodes(prev, count + 1, [], rest[1..], more);
      PendingSame(prev, count, raw, rest, more);
    } else if count > 1 {
      PendingDecodes(rest[0], 1, [], rest[1..], more);
      PendingRun(prev, count, rest, more);
    } else {
      PendingDecodes(rest[0], 1, raw + [prev], rest[1..], more);
      SeenSingle(prev, raw, rest);
    }
  }

  lemma {:induction false} PendingEnd(prev: byte, count: int, raw: seq<byte>, more: seq<byte>)
    requires count >= 1 && |raw| + count <= CHUNK && (count > 1 ==> raw == [])
    ensures Tokens(Pending(prev, count, raw, []) + more)
         == Prepend(ButLast(Seen(prev, count, raw, []), Loses(prev, count, raw, [])), Tokens(more))
  {
    hide Tokens, RunToken, RawToken, Repeat;
    assert Seen(prev, count, raw, []) == raw + Repeat(prev, count);
    RepeatMore(prev, 0, [prev]);
    if count > 1 {
      DecodeRun(count, prev, more);
      assert [] + Repeat(prev, count) == Repeat(prev, count);
    } else if raw == [] {
      assert [] + more == more;
      assert [prev][..0] == [] && [] + [prev] == [prev];
      PrependTwice([], [], Tokens(more));
    } else {
      DecodeRaw(raw + [prev], more);
    }
  }

  lemma {:induction false} PendingSame(prev: byte, count: int, raw: seq<byte>, rest: seq<byte>, more: seq<byte>)
    requires count >= 1 && |raw| + count + |rest| <= CHUNK && (count > 1 ==> raw == []) && rest != [] && rest[0] == prev
    requires Tokens(Pending(prev, count + 1, [], rest[1..]) + more)
          == Prepend(ButLast(Seen(prev, count + 1, [], rest[1..]), Loses(prev, count + 1, [], rest[1..])), Tokens(more))
    ensures Tokens(Pending(prev, count, raw, rest) + more)
         == Prepend(ButLast(Seen(prev, count, raw, rest), Loses(prev, count, raw, rest)), Tokens(more))
  {
    var next := Pending(prev, count + 1, [], rest[1..]);
    var seen, lose := Seen(prev, count + 1, [], rest[1..]), Loses(prev, count + 1, [], rest[1..]);
    assert Pending(prev, count, raw, rest) == Flush(raw) + next;
    assert Loses(prev, count, raw, rest) == lose;
    hide Tokens, Repeat, Flush, Pending, Loses;
    assert Seen(prev, count, raw, rest) == raw + seen by {
      RepeatMore(prev, count, rest);
      assert [] + Repeat(prev, count + 1) == Repeat(prev, count + 1);
      Assoc(raw, Repeat(prev, count), rest);
    }
    hide Seen;
    Assoc(Flush(raw), next, more);
    DecodeFlush(raw, next + more);
    PrependTwice(raw, ButLast(seen, lose), Tokens(more));
    ButLastTail(raw, seen, lose);
  }

  lemma {:induction false} PendingRun(prev: byte, count: int, rest: seq<byte>, more: seq<byte>)
    requires count > 1 && count + |rest| <= CHUNK && rest != [] && rest[0] != prev
    requires Tokens(Pending(rest[0], 1, [], rest[1..]) + more)
          == Prepend(ButLast(Seen(rest[0], 1, [], rest[1..]), Loses(rest[0], 1, [], rest[1..])), Tokens(more))
    ensures Tokens(Pending(prev, count, [], rest) + more)
         == Prepend(ButLast(Seen(prev, count, [], rest), Loses(prev, count, [], rest)), Tokens(more))
  {
    var next := Pending(rest[0], 1, [], rest[1..]);
    var seen, lose := Seen(rest[0], 1, [], rest[1..]), Loses(rest[0], 1, [], rest[1..]);
    var run := Repeat(prev, count);
    assert Pending(prev, count, [], rest) == RunToken(count, prev) + next;
    assert Loses(prev, count, [], rest) == lose;
    hide Tokens, Repeat, RunToken, Pending, Loses;
    assert Seen(prev, count, [], rest) == run + seen by {
      RepeatMore(rest[0], 0, rest);
      assert seen == rest;
      assert [] + run == run;
    }
    hide Seen;
    Assoc(RunToken(count, prev), next, more);
    DecodeRun(count, prev, next + more);
    PrependTwice(run, ButLast(seen, lose), Tokens(more));
    ButLastTail(run, seen, lose);
  }

  lemma {:induction false} SeenSingle(prev: byte, raw: seq<byte>, rest: seq<byte>)
    requires rest != []
    ensures Seen(prev, 1, raw, rest) == Seen(rest[0], 1, raw + [prev], rest[1..])
  {
    RepeatMore(prev, 0, [prev]);
    RepeatMore(rest[0], 0, rest);
  }

  /** Losing in terms of the bytes. */
  lemma {:induction false} LosesExactly(prev: byte, count: int, raw: seq<byte>, rest: seq<byte>)
    requires count >= 1 && (count > 1 ==> raw == [])
    requires raw != [] ==> raw[|raw| - 1] != prev
    ensures Loses(prev, count, raw, rest)
       <==> if rest == [] then count == 1 && raw == []
            else EndsAlone(Seen(prev, count, raw, rest))
    decreases |rest|
  {
    hide Repeat;
    if rest != [] {
      if rest[0] == prev {
        LosesExactly(prev, count + 1, [], rest[1..]);
      } else if count > 1 {
        LosesExactly(rest[0], 1, [], rest[1..]);
      } else {
        LosesExactly(rest[0], 1, raw + [prev], rest[1..]);
      }
      hide Loses;
    }
  }

  /** A chunk comes back, all of it or all but its last byte. */
  lemma {:induction false} ChunkDecodes(c: seq<byte>, more: seq<byte>)
    requires 1 <= |c| <= CHUNK
    ensures Tokens(ChunkCode(c) + more) == Prepend(Restored(c), Tokens(more))
  {
    PendingDecodes(c[0], 1, [], c[1..], more);
    LosesExactly(c[0], 1, [], c[1..]);
    assert Seen(c[0], 1, [], c[1..]) == c by {
      RepeatMore(c[0], 0, c);
    }
    hide Tokens, Pending, Seen;
  }

  // ----- files -----

  /** The file without magic byte and terminator. */
  function Body(x: seq<byte>): seq<byte>
    decreases |x|
  {
    if x == [] then []
    else if |x| <= CHUNK then ChunkCode(x)
    else ChunkCode(x[..CHUNK]) + Body(x[CHUNK..])
  }

  function Compressed(x: seq<byte>): seq<byte> {
    [MAGIC] + Body(x) + [0, 0]
  }

  /** What a file becomes: every chunk that ends alone is one byte shorter. */
  function AllRestored(x: seq<byte>): seq<byte>
    decreases |x|
  {
    if x == [] then []
    else if |x| <= CHUNK then Restored(x)
    else Restored(x[..CHUNK]) + AllRestored(x[CHUNK..])
  }

  predicate NoneAlone(x: seq<byte>)
    decreases |x|
  {
    x == [] || (if |x| <= CHUNK then !EndsAlone(x) else !EndsAlone(x[..CHUNK]) && NoneAlone(x[CHUNK..]))
  }

  lemma {:induction false} BodyDecodes(x: seq<byte>, more: seq<byte>)
    ensures Tokens(Body(x) + more) == Prepend(AllRestored(x), Tokens(more))
    decreases |x|
  {
    hide Tokens, ChunkCode, Restored;
    if x == [] {
      assert [] + more == more;
      PrependTwice([], [], Tokens(more));
    } else if |x| <= CHUNK {
      ChunkDecodes(x, more);
    } else {
      var c, t := x[..CHUNK], x[CHUNK..];
      BodyDecodes(t, more);
      ChunkDecodes(c, Body(t) + more);
      Assoc(ChunkCode(c), Body(t), more);
      PrependTwice(Restored(c), AllRestored(t), Tokens(more));
    }
  }

  /** Decompressing a compressed file gives the restored chunks: no token starts with the
      terminator's zero. */
  lemma {:induction false} RoundTrip(x: seq<byte>)
    ensures File(Compressed(x)) == Bytes(AllRestored(x))
  {
    var s := Compressed(x);
    assert s[0] == MAGIC && s[1..] == Body(x) + [0, 0];
    BodyDecodes(x, [0, 0]);
    assert Tokens([0, 0]) == Bytes([]);
    hide Body, Tokens;
    assert AllRestored(x) + [] == AllRestored(x);
  }

  /** The file comes back whole exactly when none of its chunks ends with a byte that stands alone. */
  lemma {:induction false} LosslessExactly(x: seq<byte>)
    ensures AllRestored(x) == x <==> NoneAlone(x)
    ensures |AllRestored(x)| <= |x|
    decreases |x|
  {
    if |x| > CHUNK {
      var c, t := x[..CHUNK], x[CHUNK..];
      LosslessExactly(t);
      assert x == c + t;
      RestoredLength(c);
      hide Restored;
      if NoneAlone(x) {
        assert AllRestored(x) == c + t;
      } else {
        assert |AllRestored(x)| == |Restored(c)| + |AllRestored(t)|;
        if !EndsAlone(c) {
          if AllRestored(x) == x {
            TailEqual(c, AllRestored(t), t);
          }
        }
      }
    } else if x != [] {
      RestoredLength(x);
    }
  }

  /** A file of one byte comes back empty, and "aab" as "aa". */
  lemma {:induction false} LossWitnesses(a: byte, b: byte)
    ensures AllRestored([a]) == []
    ensures a != b ==> AllRestored([a, a, b]) == [a, a]
  {
    assert [a, a, b][..2] == [a, a];
  }

  lemma {:induction false} TailEqual(a: seq<byte>, b: seq<byte>, c: seq<byte>)
    requires a + b == a + c
    ensures b == c
  {
    assert b == (a + b)[|a|..] && c == (a + c)[|a|..];
  }

  lemma {:induction false} RestoredLength(c: seq<byte>)
    requires c != []
    ensures Restored(c) == c <==> !EndsAlone(c)
    ensures |Restored(c)| == if EndsAlone(c) then |c| - 1 else |c|
  {
  }

  // ----- the format, byte by byte -----

  /** No byte is like the one before it. */
  predicate Changing(s: seq<byte>) {
    forall i | 0 <= i < |s| - 1 :: s[i] != s[i + 1]
  }

  /** Magic byte in front, two zeros behind. */
  lemma {:induction false} Framed(x: seq<byte>)
    ensures |Compressed(x)| >= 3 && Compressed(x)[0] == 0x8D && Compressed(x)[|Compressed(x)| - 2..] == [0, 0]
    ensures |x| <= 253 ==> Compressed(x) == [0x8D] + ChunkCode(x) + [0, 0]
    ensures Compressed([]) == [0x8D, 0, 0]
  {
    assert ChunkCode([]) == [];
    hide ChunkCode;
  }

  /** Files are cut into chunks of 253 bytes. */
  lemma {:induction false} Chunked(c: seq<byte>, x: seq<byte>)
    requires |c| == 253 && x != []
    ensures var y, z := Compressed(c), Compressed(x);
            Compressed(c + x) == y[..|y| - 2] + z[1..]
  {
    assert (c + x)[..253] == c && (c + x)[253..] == x;
    var y, z := Compressed(c), Compressed(x);
    assert y[..|y| - 2] == [0x8D] + ChunkCode(c);
    assert z[1..] == Body(x) + [0, 0];
    hide ChunkCode;
    assert Compressed(c + x) == [0x8D] + (ChunkCode(c) + Body(x)) + [0, 0];
  }

  /** A run at the front of a chunk: its length and its byte. */
  lemma {:induction false} RunFront(b: byte, n: nat, rest: seq<byte>)
    requires 2 <= n && n + |rest| <= 253 && (rest != [] ==> rest[0] != b)
    ensures ChunkCode(Repeat(b, n) + rest) == [n, b] + ChunkCode(rest)
  {
    var c := Repeat(b, n) + rest;
    assert c[1..] == Repeat(b, n - 1) + rest;
    hide Repeat;
    PendingRepeat(b, 1, n - 1, rest);
  }

  lemma {:induction false} PendingRepeat(b: byte, count: nat, k: nat, rest: seq<byte>)
    requires count >= 1 && count + k >= 2 && count + k + |rest| <= 253 && (rest != [] ==> rest[0] != b)
    ensures Pending(b, count, [], Repeat(b, k) + rest) == [count + k, b] + ChunkCode(rest)
    decreases k
  {
    var s := Repeat(b, k) + rest;
    if k == 0 {
      assert s == rest;
    } else {
      assert s[0] == b && s[1..] == Repeat(b, k - 1) + rest;
      PendingRepeat(b, count + 1, k - 1, rest);
      var p := Pending(b, count + 1, [], s[1..]);
      assert [] + p == p;
    }
  }

  /** Changing bytes in front of a run: 0xFF, their number, and the bytes. */
  lemma {:induction false} RawFront(raw: seq<byte>, t: seq<byte>)
    requires raw != [] && |t| >= 2 && |raw| + |t| <= 253 && Changing(raw) && raw[|raw| - 1] != t[0] && t[0] == t[1]
    ensures ChunkCode(raw + t) == [0xFF, |raw|] + raw + ChunkCode(t)
  {
    assert (raw + t)[1..] == raw[1..] + t;
    assert [] + [raw[0]] + raw[1..] == raw;
    PendingChanging(raw[0], [], raw[1..], t);
  }

  lemma {:induction false} PendingChanging(prev: byte, raw: seq<byte>, more: seq<byte>, t: seq<byte>)
    requires |t| >= 2 && |raw| + 1 + |more| + |t| <= 253 && Changing([prev] + more)
    requires ([prev] + more)[|more|] != t[0] && t[0] == t[1]
    ensures var all := raw + [prev] + more;
            Pending(prev, 1, raw, more + t) == [0xFF, |all|] + all + ChunkCode(t)
    decreases more
  {
    var all, s, line := raw + [prev] + more, more + t, [prev] + more;
    if more == [] {
      assert s == t && all == raw + [prev];
      assert t[1..][0] == t[0];
      var p := Pending(t[0], 2, [], t[2..]);
      assert t[1..][1..] == t[2..];
      assert [] + p == p;
    } else {
      assert line[0] != line[1];
      assert s[0] == more[0] && s[1..] == more[1..] + t;
      assert [more[0]] + more[1..] == more == line[1..];
      ChangingTail(line);
      assert raw + [prev] + [more[0]] + more[1..] == all;
      PendingChanging(more[0], raw + [prev], more[1..], t);
      hide ChunkCode;
    }
  }

  lemma {:induction false} ChangingTail(s: seq<byte>)
    requires Changing(s) && s != []
    ensures Changing(s[1..])
  {
    forall i | 0 <= i < |s[1..]| - 1
      ensures s[1..][i] != s[1..][i + 1]
    {
      assert s[i + 1] != s[i + 1 + 1];
    }
  }

  /** Two or more changing bytes that end a chunk. */
  lemma {:induction false} RawAlone(raw: seq<byte>)
    requires 2 <= |raw| <= 253 && Changing(raw)
    ensures ChunkCode(raw) == [0xFF, |raw|] + raw
  {
    assert [] + [raw[0]] + raw[1..] == raw;
    PendingRaw(raw[0], [], raw[1..]);
  }

  lemma {:induction false} PendingRaw(prev: byte, raw: seq<byte>, more: seq<byte>)
    requires 2 <= |raw| + 1 + |more| <= 253 && Changing([prev] + more)
    ensures var all := raw + [prev] + more; Pending(prev, 1, raw, more) == [0xFF, |all|] + all
    decreases more
  {
    var all, line := raw + [prev] + more, [prev] + more;
    if more == [] {
      assert all == raw + [prev];
    } else {
      assert line[0] != line[1];
      assert [more[0]] + more[1..] == more == line[1..];
      ChangingTail(line);
      assert raw + [prev] + [more[0]] + more[1..] == all;
      PendingRaw(more[0], raw + [prev], more[1..]);
    }
  }

  /** What the decoder says of a file that the encoder does not write. */
  lemma {:induction false} OddFiles(n: byte, b: byte, more: seq<byte>)
    ensures File([]) == BadFormat && (b != 0x8D ==> File([b] + more) == BadFormat)
    ensures File([0x8D]) == Truncated && File([0x8D, 0] + more) == Bytes([])
    ensures 1 <= n < 255 ==> File([0x8D, n]) == Truncated && File([0x8D, n, b, 0] + more) == Bytes(Repeat(b, n))
    ensures n > 253 ==> File([0x8D, 0xFF, n] + more) == Overrun
    ensures 1 <= n <= 253 ==> File([0x8D, 0xFF, n]) == Truncated
  {
    hide Repeat;
    assert ([0x8D, 0] + more)[1..] == [0] + more;
    var s := [0x8D, n, b, 0] + more;
    assert s[1..] == [n, b] + ([0] + more) && s[1..][2..] == [0] + more;
    assert Repeat(b, n) + [] == Repeat(b, n);
    assert ([0x8D, 0xFF, n] + more)[1..] == [0xFF, n] + more;
  }

  // ----- size -----

  /** An open run has four thirds of a byte to spare for the single bytes behind it. */
  lemma {:induction false} PendingSize(prev: byte, count: int, raw: seq<byte>, rest: seq<byte>)
    requires count >= 1 && |raw| + count + |rest| <= CHUNK && (count > 1 ==> raw == [])
    ensures 3 * |Pending(prev, count, raw, rest)| <= 5 * (|raw| + count + |rest|) + (if count > 1 then -2 else 2)
    decreases |rest|
  {
    if rest != [] {
      if rest[0] == prev {
        PendingSize(prev, count + 1, [], rest[1..]);
      } else if count > 1 {
        PendingSize(rest[0], 1, [], rest[1..]);
      } else {
        PendingSize(rest[0], 1, raw + [prev], rest[1..]);
      }
    }
  }

  /** Compression never costs more than two thirds of a chunk and a little. */
  lemma {:induction false} ChunkSize(c: seq<byte>)
    requires |c| <= CHUNK
    ensures 3 * |ChunkCode(c)| <= 5 * |c| + 2
  {
    if c != [] {
      PendingSize(c[0], 1, [], c[1..]);
      hide Pending;
    }
  }

  lemma {:induction false} FileSize(x: seq<byte>)
    ensures 3 * |Compressed(x)| <= 5 * |x| + 2 * ((|x| + CHUNK - 1) / CHUNK) + 9
  {
    BodySize(x);
  }

  lemma {:induction false} BodySize(x: seq<byte>)
    ensures 3 * |Body(x)| <= 5 * |x| + 2 * ((|x| + CHUNK - 1) / CHUNK)
    decreases |x|
  {
    hide ChunkCode;
    if x != [] {
      if |x| <= CHUNK {
        ChunkSize(x);
      } else {
        ChunkSize(x[..CHUNK]);
        BodySize(x[CHUNK..]);
      }
    }
  }

  // ----- the programs -----

  /** A file being written. */
  class Output {
    var data: seq<byte>

    constructor ()
      ensures data == []
    {
      data := [];
    }

    method Put(b: byte)
      modifies this
      ensures data == old(data) + [b]
    {
      data := data + [b];
    }

    method Write(s: seq<byte>)
      modifies this
      ensures data == old(data) + s
    {
      data := data + s;
    }
  }

  method WriteRaw(out: Output, raw: seq<byte>)
    requires |raw| <= CHUNK
    modifies out
    ensures out.data == old(out.data) + RawToken(raw)
  {
    out.Put(RAW);
    out.Put(|raw|);
    out.Write(raw);
    assert out.data == old(out.data) + RawToken(raw);
  }

  method WriteRun(out: Output, count: byte, prev: byte)
    requires count <= CHUNK
    modifies out
    ensures out.data == old(out.data) + RunToken(count, prev)
  {
    out.Put(count);
    out.Put(prev);
    assert out.data == old(out.data) + RunToken(count, prev);
  }

  /** The raw flag, the bytes that wait, and the length of the open run. */
  predicate Scanning(raw: bool, rawbuf: seq<byte>, count: int) {
    count >= 1 && (raw <==> rawbuf != []) && (count > 1 ==> rawbuf == [])
  }

  /** The loop over one buffer. The raw buffer never overflows, and is never full inside the loop. */
  method CompressChunk(buffer: seq<byte>, out: Output)
    requires 1 <= |buffer| <= CHUNK
    modifies out
    ensures out.data == old(out.data) + ChunkCode(buffer)
  {
    hide RawToken, RunToken;
    ghost var goal := out.data + ChunkCode(buffer);
    var raw, prev, count, rawbuf := false, buffer[0], 1, [];
    for i := 1 to |buffer|
      invariant Scanning(raw, rawbuf, count) && |rawbuf| + count + |buffer[i..]| <= CHUNK
      invariant goal == out.data + Pending(prev, count, rawbuf, buffer[i..])
    {
      ghost var rest, now := buffer[i..], out.data;
      assert rest[1..] == buffer[i + 1..];
      if buffer[i] == prev && count < 0xFD {
        Assoc(now, Flush(rawbuf), Pending(prev, count + 1, [], rest[1..]));
        if raw {
          WriteRaw(out, rawbuf);
          raw, rawbuf := false, [];
        }
        count := count + 1;
      } else {
        if count > 1 {
          Assoc(now, RunToken(count, prev), Pending(buffer[i], 1, rawbuf, rest[1..]));
          WriteRun(out, count, prev);
        } else {
          raw := true;
          rawbuf := rawbuf + [prev];
          if |rawbuf| >= 253 {
            assert false;
          }
        }
        prev := buffer[i];
        count := 1;
      }
    }
    if count > 1 {
      WriteRun(out, count, prev);
    } else {
      rawbuf := rawbuf + [prev];
    }
    if raw && |rawbuf| > 0 {
      WriteRaw(out, rawbuf);
    }
  }

  /** Compress: one buffer of at most 253 bytes after the other. */
  method Compress(input: seq<byte>) returns (out: Output)
    ensures fresh(out) && out.data == Compressed(input)
  {
    hide ChunkCode;
    out := new Output();
    out.Put(MAGIC);
    var pos := 0;
    ghost var body := Body(input);
    assert input[0..] == input;
    while true
      invariant 0 <= pos <= |input|
      invariant [MAGIC] + body == out.data + Body(input[pos..])
      decreases |input| - pos
    {
      var bytes_read := if |input| - pos < CHUNK then |input| - pos else CHUNK;
      if bytes_read == 0 {
        break;
      }
      var buffer := input[pos..pos + bytes_read];
      ghost var rest := input[pos..];
      assert rest[..bytes_read] == buffer && rest[bytes_read..] == input[pos + bytes_read..];
      BodyStep(rest, bytes_read);
      Assoc(out.data, ChunkCode(buffer), Body(input[pos + bytes_read..]));
      CompressChunk(buffer, out);
      pos := pos + bytes_read;
    }
    out.Put(0);
    out.Put(0);
  }

  lemma {:induction false} BodyStep(x: seq<byte>, n: nat)
    requires x != [] && n == if |x| < CHUNK then |x| else CHUNK
    ensures Body(x) == ChunkCode(x[..n]) + Body(x[n..])
  {
    hide ChunkCode;
    if |x| <= CHUNK {
      assert x[..n] == x && x[n..] == [];
      assert ChunkCode(x) + [] == ChunkCode(x);
    }
  }

  /** DeCompress. */
  method DeCompress(input: seq<byte>) returns (r: Decoded)
    ensures r == File(input)
  {
    if input == [] || input[0] != MAGIC {
      return BadFormat;
    }
    hide *;
    r := ReadTokens(input);
  }

  /** The tokens behind the magic byte, up to the zero byte. */
  method ReadTokens(input: seq<byte>) returns (r: Decoded)
    requires input != []
    ensures r == Tokens(input[1..])
  {
    hide *;
    var pos, out := 1, [];
    ghost var goal := Tokens(input[1..]);
    PrependTwice([], [], goal);
    while pos < |input|
      invariant 1 <= pos <= |input| && goal == Prepend(out, Tokens(input[pos..]))
      decreases |input| - pos
    {
      ghost var rest := input[pos..];
      TokensOf(rest);
      PrependBad(out, Tokens(rest));
      var count := input[pos];
      if count == 0 {
        PrependNothing(out);
        return Bytes(out);
      }
      if pos + 1 >= |input| {
        return Truncated;
      }
      if count == RAW {
        var raw_size := input[pos + 1];
        if raw_size > CHUNK {
          return Overrun;
        }
        if pos + 2 + raw_size > |input| {
          return Truncated;
        }
        var raw_data := input[pos + 2..pos + 2 + raw_size];
        SliceOf(input, pos, 2, 2 + raw_size);
        PrependTwice(out, raw_data, Tokens(input[pos + 2 + raw_size..]));
        out, pos := out + raw_data, pos + 2 + raw_size;
      } else {
        var value := input[pos + 1];
        SliceOf(input, pos, 2, 2);
        PrependTwice(out, Repeat(value, count), Tokens(input[pos + 2..]));
        out := PutTimes(out, value, count);
        pos := pos + 2;
      }
    }
    PrependBad(out, Truncated);
    NoTokens(input[pos..]);
    return Truncated;
  }

  lemma {:induction false} NoTokens(s: seq<byte>)
    ensures s == [] ==> Tokens(s) == Truncated
  {
  }

  lemma {:induction false} SliceOf(s: seq<byte>, pos: nat, a: nat, b: nat)
    requires a <= b && pos + b <= |s|
    ensures s[pos..][a..b] == s[pos + a..pos + b] && s[pos..][b..] == s[pos + b..]
  {
  }

  lemma {:induction false} TokensOf(s: seq<byte>)
    requires s != []
    ensures RAW == 0xFF && CHUNK == 253
    ensures s[0] == 0 ==> Tokens(s) == Bytes([])
    ensures s[0] != 0 && |s| < 2 ==> Tokens(s) == Truncated
    ensures s[0] == RAW && |s| >= 2 ==>
              Tokens(s) == if s[1] > CHUNK then Overrun
                           else if |s| < 2 + s[1] then Truncated
                           else Prepend(s[2..2 + s[1]], Tokens(s[2 + s[1]..]))
    ensures s[0] != 0 && s[0] != RAW && |s| >= 2 ==> Tokens(s) == Prepend(Repeat(s[1], s[0]), Tokens(s[2..]))
  {
    hide Prepend, Repeat;
  }

  method PutTimes(out: seq<byte>, value: byte, count: nat) returns (r: seq<byte>)
    ensures r == out + Repeat(value, count)
  {
    r := out;
    for i := 0 to count
      invariant r == out + Repeat(value, i)
    {
      r := r + [value];
      RepeatSnoc(value, i);
    }
  }

  lemma {:induction false} RepeatSnoc(b: byte, n: nat)
    ensures Repeat(b, n + 1) == Repeat(b, n) + [b]
  {
    var x, y := Repeat(b, n + 1), Repeat(b, n) + [b];
    assert |x| == |y|;
    forall i | 0 <= i < |x| ensures x[i] == y[i] { }
  }

  lemma {:induction false} PrependNothing(a: seq<byte>)
    ensures Prepend(a, Bytes([])) == Bytes(a)
  {
    assert a + [] == a;
  }

  lemma {:induction false} PrependBad(a: seq<byte>, r: Decoded)
    ensures !r.Bytes? ==> Prepend(a, r) == r
  {
  }
}
