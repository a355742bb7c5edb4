/** The read-only file system: the image writer of the build, and the kernel's reader. */
module Romfs {
  import opened Wrappers
  import opened Sequences
  import opened Words

  /** Sizes of the packed header and of a packed node. */
  const SUPER := 11
  const NAME := 20
  const NODE := 24

  /** "-romfs-". */
  const MAGIC: seq<byte> := [0x2D, 0x72, 0x6F, 0x6D, 0x66, 0x73, 0x2D]
  const SLASH: byte := 0x2F

  datatype File = File(name: seq<byte>, data: seq<byte>)

  // ----- the image -----

  /** Python repeats a string no times when the count is negative. */
  function Padded(name: seq<byte>): seq<byte> {
    name + (if |name| <= NAME then Zeros(NAME - |name|) else [])
  }

  function NodeBytes(f: File): seq<byte> {
    Padded(f.name) + LeBytes(|f.data|, 4) + f.data
  }

  function Nodes(files: seq<File>): seq<byte> {
    if files == [] then [] else NodeBytes(files[0]) + Nodes(files[1..])
  }

  function Image(files: seq<File>): seq<byte> {
    MAGIC + LeBytes(|files|, 4) + Nodes(files)
  }

  /** Names that fit with their terminator. */
  predicate Plain(f: File) {
    1 <= |f.name| < NAME && 0 !in f.name && |f.data| < 0x1_0000_0000
  }

  predicate AllPlain(files: seq<File>) {
    (forall f | f in files :: Plain(f)) && |files| < 0x1_0000_0000
  }

  // ----- the files by name -----

  /** Leading slashes do not count. */
  function Strip(name: seq<byte>): (r: seq<byte>)
    ensures r != [] ==> r[0] != 0x2F
  {
    if name != [] && name[0] == SLASH then Strip(name[1..]) else name
  }

  function Lookup(files: seq<File>, name: seq<byte>): (r: Option<nat>)
    ensures r.Some? ==> r.value < |files| && files[r.value].name == name
                        && forall j | 0 <= j < r.value :: files[j].name != name
    ensures r.None? ==> forall f | f in files :: f.name != name
  {
    if files == [] then None
    else if files[0].name == name then Some(0)
    else match Lookup(files[1..], name) case None => None case Some(i) => Some(i + 1)
  }

  /** The part of a file that a read gets. */
  function Slice(data: seq<byte>, offset: nat, count: nat): seq<byte> {
    if offset >= |data| then [] else data[offset..offset + Min(count, |data| - offset)]
  }

  function ReadResult(files: seq<File>, name: seq<byte>, offset: nat, count: nat): seq<byte> {
    match Lookup(files, Strip(name))
    case None => []
    case Some(i) => Slice(files[i].data, offset, count)
  }

  /** With distinct names a file is found under its own name, slashes in front or not. */
  lemma {:induction false} LookupFinds(files: seq<File>, i: nat, slashes: nat)
    requires i < |files| && forall j, k | 0 <= j < k < |files| :: files[j].name != files[k].name
    requires files[i].name != [] && files[i].name[0] != 0x2F
    ensures Lookup(files, Strip(Slashes(slashes) + files[i].name)) == Some(i)
  {
    StripSlashes(slashes, files[i].name);
    var r := Lookup(files, files[i].name);
    assert files[i] in files;
  }

  function Slashes(n: nat): seq<byte> {
    if n == 0 then [] else [0x2F] + Slashes(n - 1)
  }

  lemma {:induction false} StripSlashes(n: nat, name: seq<byte>)
    requires name != [] && name[0] != 0x2F
    ensures Strip(Slashes(n) + name) == name
    decreases n
  {
    if n == 0 {
      assert [] + name == name;
    } else {
      assert (Slashes(n) + name)[1..] == Slashes(n - 1) + name;
      StripSlashes(n - 1, name);
    }
  }

  // ----- reading a file piece by piece -----

  function Pieces(data: seq<byte>, offset: nat, counts: seq<nat>): seq<byte>
    decreases |counts|
  {
    if counts == [] then []
    else
      var s := Slice(data, offset, counts[0]);
      s + Pieces(data, offset + |s|, counts[1..])
  }

  function Sum(counts: seq<nat>): nat {
    if counts == [] then 0 else counts[0] + Sum(counts[1..])
  }

  /** Reads of any sizes, each starting where the one before stopped, give the file from the
      first offset on, as far as the sizes reach. */
  lemma {:induction false} PiecesReassemble(data: seq<byte>, offset: nat, counts: seq<nat>)
    requires offset <= |data|
    ensures Pieces(data, offset, counts) == data[offset..Min(|data|, offset + Sum(counts))]
    decreases |counts|
  {
    hide *;
    PiecesOf(data, offset, counts);
    if counts != [] {
      var next := Min(|data|, offset + counts[0]);
      var end := Min(|data|, offset + Sum(counts));
      MinFacts(|data|, offset, counts[0], Sum(counts[1..]));
      SliceIs(data, offset, counts[0]);
      PiecesReassemble(data, next, counts[1..]);
      Join(data, offset, next, end);
    } else {
      MinFacts(|data|, offset, 0, 0);
    }
  }

  lemma {:induction false} PiecesOf(data: seq<byte>, offset: nat, counts: seq<nat>)
    ensures counts == [] ==> Pieces(data, offset, counts) == [] && Sum(counts) == 0
    ensures counts != [] ==>
              var s := Slice(data, offset, counts[0]);
              && Pieces(data, offset, counts) == s + Pieces(data, offset + |s|, counts[1..])
              && Sum(counts) == counts[0] + Sum(counts[1..])
  {
    hide Slice;
  }

  lemma {:induction false} MinFacts(n: nat, a: nat, b: nat, c: nat)
    requires a <= n
    ensures a <= Min(n, a + b) <= Min(n, a + (b + c)) <= n && Min(n, a) == a
    ensures Min(n, Min(n, a + b) + c) == Min(n, a + (b + c))
  {
  }

  lemma {:induction false} SliceIs(data: seq<byte>, offset: nat, count: nat)
    requires offset <= |data|
    ensures Slice(data, offset, count) == data[offset..Min(|data|, offset + count)]
  {
  }

  lemma {:induction false} Join(data: seq<byte>, i: nat, j: nat, k: nat)
    requires i <= j <= k <= |data|
    ensures data[i..j] + data[j..k] == data[i..k]
  {
  }

  // ----- a node in the image -----

  /** From this offset on the image holds these files. */
  predicate Stored(image: seq<byte>, node: int, files: seq<File>) {
    0 <= node <= |image| && image[node..] == Nodes(files)
  }

  lemma {:induction false} StoredFacts(image: seq<byte>, node: int, files: seq<File>)
    requires Stored(image, node, files) && files != [] && Plain(files[0])
    ensures var f := files[0];
            var end := node + NODE + |f.data|;
            && end <= |image|
            && image[node..node + |f.name|] == f.name && image[node + |f.name|] == 0
            && LeValue(image[node + NAME..node + NODE]) == |f.data|
            && image[node + NODE..end] == f.data
            && Stored(image, end, files[1..])
  {
    hide LeBytes, LeValue, Zeros;
    var f := files[0];
    Le32RoundTrip(|f.data|);
    var rest := image[node..];
    var pad, size, tail := Padded(f.name), LeBytes(|f.data|, 4), Nodes(files[1..]);
    assert rest == pad + size + f.data + tail;
    assert rest[..NAME] == pad;
    assert rest[NAME..NODE] == size;
    assert rest[NODE..NODE + |f.data|] == f.data;
    assert rest[NODE + |f.data|..] == tail;
    SubSlice(image, node, 0, |f.name|);
    SubSlice(image, node, NAME, NODE);
    SubSlice(image, node, NODE, NODE + |f.data|);
    assert rest[..|f.name|] == pad[..|f.name|] == f.name;
    assert rest[|f.name|] == pad[|f.name|] == 0;
  }

  lemma {:induction false} SubSlice(s: seq<byte>, at: nat, i: nat, j: nat)
    requires i <= j && at + j <= |s|
    ensures s[at..][i..j] == s[at + i..at + j] && s[at..][j..] == s[at + j..]
  {
  }

  // ----- the image, byte by byte -----

  /** Where the node of a file starts. */
  function Offset(files: seq<File>, i: nat): nat
    requires i <= |files|
  {
    if i == 0 then 11 else Offset(files, i - 1) + 24 + |files[i - 1].data|
  }

  lemma {:induction false} OffsetStep(files: seq<File>, i: nat)
    requires i <= |files|
    ensures i == 0 ==> Offset(files, i) == 11
    ensures i > 0 ==> Offset(files, i) == Offset(files, i - 1) + 24 + |files[i - 1].data|
  {
  }

  lemma {:induction false} OffsetStored(files: seq<File>, i: nat)
    requires AllPlain(files) && i <= |files|
    ensures Stored(Image(files), Offset(files, i), files[i..])
    decreases i
  {
    hide *;
    OffsetStep(files, i);
    HeaderFacts(files);
    if i > 0 {
      OffsetStored(files, i - 1);
      PlainAt(files, i - 1);
      StoredFacts(Image(files), Offset(files, i - 1), files[i - 1..]);
      Sizes();
    }
  }

  function LowFirst(a: int, b: int, c: int, d: int): int {
    a + 0x100 * b + 0x1_0000 * c + 0x100_0000 * d
  }

  /** "-romfs-", the number of files with its low byte first, and the nodes up to the end. */
  lemma {:induction false} ImageHeader(files: seq<File>)
    requires AllPlain(files)
    ensures var image := Image(files);
            && |image| == Offset(files, |files|) >= 11
            && image[..7] == [0x2D, 0x72, 0x6F, 0x6D, 0x66, 0x73, 0x2D]
            && LowFirst(image[7], image[8], image[9], image[10]) == |files|
  {
    var image := Image(files);
    OffsetStored(files, |files|);
    HeaderFacts(files);
    FourBytes(image[7..11]);
    assert files[|files|..] == [];
    hide AllPlain, LeBytes, LeValue, Offset;
    assert image[..7] == MAGIC;
  }

  lemma {:induction false} FourBytes(s: seq<byte>)
    requires |s| == 4
    ensures LeValue(s) == LowFirst(s[0], s[1], s[2], s[3])
  {
    assert s[1..][1..] == s[2..] && s[2..][1..] == s[3..] && s[3..][1..] == [];
    assert LeValue([]) == 0 && LeValue(s[3..]) == s[3];
    assert LeValue(s[2..]) == s[2] as int + 0x100 * LeValue(s[3..]);
    assert LeValue(s[1..]) == s[1] as int + 0x100 * LeValue(s[2..]);
  }

  /** A node: the name filled up with zeros to 20 bytes, the size with its low byte first, the data. */
  lemma {:induction false} ImageNode(files: seq<File>, i: nat, k: nat)
    requires AllPlain(files) && i < |files|
    ensures var image, f, at := Image(files), files[i], Offset(files, i);
            && at + 24 + |f.data| == Offset(files, i + 1) <= |image|
            && (k < 20 ==> image[at + k] == if k < |f.name| then f.name[k] else 0)
            && LowFirst(image[at + 20], image[at + 21], image[at + 22], image[at + 23]) == |f.data|
            && (k < |f.data| ==> image[at + 24 + k] == f.data[k])
  {
    hide *;
    var image, f, at := Image(files), files[i], Offset(files, i);
    OffsetStored(files, i);
    OffsetStep(files, i + 1);
    PlainAt(files, i);
    StoredFacts(image, at, files[i..]);
    NameField(image, at, files[i..]);
    Sizes();
    FourBytes(image[at + 20..at + 24]);
    if k < 20 {
      PaddedAt(f.name, k);
      assert image[at..at + 20][k] == image[at + k];
    }
    if k < |f.data| {
      assert image[at + 24..at + 24 + |f.data|][k] == image[at + 24 + k];
    }
  }

  lemma {:induction false} NameField(image: seq<byte>, node: int, files: seq<File>)
    requires Stored(image, node, files) && files != [] && Plain(files[0])
    ensures node + 20 <= |image| && image[node..node + 20] == Padded(files[0].name)
  {
    hide LeBytes, Zeros;
    var f := files[0];
    var rest := image[node..];
    var pad, tail := Padded(f.name), LeBytes(|f.data|, 4) + f.data + Nodes(files[1..]);
    assert rest == pad + tail;
    assert rest[..20] == pad;
    SubSlice(image, node, 0, 20);
  }

  lemma {:induction false} PaddedAt(name: seq<byte>, k: nat)
    requires |name| < NAME && k < 20
    ensures |Padded(name)| == 20 && Padded(name)[k] == if k < |name| then name[k] else 0
  {
    hide Zeros;
  }

  // ----- the writer -----

  /** mkbosyrom, given the files in the order of the directory walk. */
  method WriteImage(files: seq<File>) returns (out: seq<byte>)
    ensures out == Image(files)
  {
    var buf, count := [], 0;
    assert files[0..] == files;
    while count < |files|
      invariant 0 <= count <= |files|
      invariant Nodes(files) == buf + Nodes(files[count..])
    {
      hide LeBytes, Padded;
      var f := files[count];
      assert files[count..][1..] == files[count + 1..];
      Assoc(buf, NodeBytes(f), Nodes(files[count + 1..]));
      Assoc(buf + Padded(f.name), LeBytes(|f.data|, 4), f.data);
      Assoc(buf, Padded(f.name), LeBytes(|f.data|, 4) + f.data);
      Assoc(Padded(f.name), LeBytes(|f.data|, 4), f.data);
      buf := buf + Padded(f.name);
      buf := buf + LeBytes(|f.data|, 4);
      buf := buf + f.data;
      count := count + 1;
    }
    out := MAGIC + LeBytes(count, 4) + buf;
  }

  // ----- the reader -----

  /** StrCmp of the string at an offset with a name that has no NUL inside: zero exactly for
      equal strings. */
  method StrCmpAt(image: seq<byte>, at: nat, ghost stored: seq<byte>, name: seq<byte>) returns (d: int)
    requires at + |stored| < |image| && image[at..at + |stored|] == stored && image[at + |stored|] == 0
    requires 0 !in stored && 0 !in name
    ensures d == 0 <==> stored == name
  {
    var i := 0;
    while true
      invariant 0 <= i <= |stored| && i <= |name| && stored[..i] == name[..i]
      decreases |name| - i
    {
      var a := image[at + i];
      assert a == if i < |stored| then stored[i] else 0;
      var b := if i < |name| then name[i] else 0;
      if a == 0 || a != b {
        if i < |stored| {
          assert stored[i] in stored && stored[i] != 0;
        }
        if i < |name| {
          assert name[i] in name && name[i] != 0;
        }
        return (a as int) - (b as int);
      }
      assert stored[..i + 1] == name[..i + 1];
      i := i + 1;
    }
  }

  /** Skips the slashes in front of a name. */
  method SkipSlashes(name: seq<byte>) returns (r: seq<byte>)
    ensures r == Strip(name)
  {
    r := name;
    while r != [] && r[0] == SLASH
      invariant Strip(name) == Strip(r)
      decreases |r|
    {
      r := r[1..];
    }
  }

  lemma {:induction false} StripNoNul(name: seq<byte>)
    requires 0 !in name
    ensures 0 !in Strip(name)
    decreases |name|
  {
    if name != [] && name[0] == SLASH {
      StripNoNul(name[1..]);
    }
  }

  /** The node walk that reading and stat share: the index of the first file of that name, and
      where its node stands. */
  method FindNode(image: seq<byte>, name: seq<byte>, ghost files: seq<File>) returns (i: nat, node: nat)
    requires AllPlain(files) && image == Image(files) && 0 !in name
    ensures Lookup(files, name) == if i < |files| then Some(i) else None
    ensures i < |files| ==> Stored(image, node, files[i..])
  {
    hide *;
    HeaderFacts(files);
    var count := LeValue(image[7..11]);
    i, node := 0, 11;
    while i < count
      invariant 0 <= i <= |files| && Stored(image, node, files[i..])
      invariant Lookup(files, name) == Shifted(i, Lookup(files[i..], name))
    {
      ghost var rest := files[i..];
      PlainAt(files, i);
      StoredFacts(image, node, rest);
      Sizes();
      LookupStep(files, i, name);
      var d := StrCmpAt(image, node, rest[0].name, name);
      if d == 0 {
        return;
      }
      node := node + 24 + LeValue(image[node + 20..node + 24]);
      i := i + 1;
    }
    LookupNone(files[i..], name);
  }

  function Shifted(n: nat, r: Option<nat>): Option<nat> {
    match r case None => None case Some(i) => Some(n + i)
  }

  lemma {:induction false} Sizes()
    ensures SUPER == 11 && NAME == 20 && NODE == 24
  {
  }

  lemma {:induction false} PlainAt(files: seq<File>, i: nat)
    requires AllPlain(files) && i < |files|
    ensures Plain(files[i..][0]) && files[i..] != [] && files[i..][1..] == files[i + 1..]
    ensures 0 !in files[i..][0].name && |files[i..][0].name| < NAME
  {
    assert files[i] in files;
  }

  lemma {:induction false} LookupStep(files: seq<File>, i: nat, name: seq<byte>)
    requires i < |files|
    ensures var r := files[i..];
            && (r[0].name == name ==> Shifted(i, Lookup(r, name)) == Some(i))
            && (r[0].name != name ==> Shifted(i, Lookup(r, name)) == Shifted(i + 1, Lookup(files[i + 1..], name)))
  {
    assert files[i..][1..] == files[i + 1..];
  }

  lemma {:induction false} LookupNone(files: seq<File>, name: seq<byte>)
    ensures files == [] ==> Shifted(0, Lookup(files, name)) == None && Lookup(files, name) == None
    ensures forall n: nat :: files == [] ==> Shifted(n, Lookup(files, name)) == None
  {
  }

  lemma {:induction false} HeaderFacts(files: seq<File>)
    requires AllPlain(files)
    ensures var image := Image(files);
            && |image| >= 11 && LeValue(image[7..11]) == |files| && Stored(image, 11, files[0..])
    ensures Lookup(files, []) == Lookup(files[0..], []) && files[0..] == files
    ensures forall r: Option<nat> :: Shifted(0, r) == r
  {
    var image := Image(files);
    Le32RoundTrip(|files|);
    hide LeBytes, LeValue;
    assert image[7..11] == LeBytes(|files|, 4);
    assert image[11..] == Nodes(files);
    assert files[0..] == files;
  }

  /** ROFSReadV: the bytes copied to the caller's buffer; their number is what it returns. */
  method ReadV(image: seq<byte>, name: seq<byte>, offset: u32, count: u32, ghost files: seq<File>)
    returns (buf: seq<byte>)
    requires AllPlain(files) && image == Image(files) && 0 !in name
    ensures buf == ReadResult(files, name, offset, count)
  {
    hide *;
    StripNoNul(name);
    var bare := SkipSlashes(name);
    var i, node := FindNode(image, bare, files);
    HeaderFacts(files);
    ReadResultOf(files, name, offset, count);
    if i < LeValue(image[7..11]) {
      PlainAt(files, i);
      StoredFacts(image, node, files[i..]);
      Sizes();
      var size := LeValue(image[node + 20..node + 24]);
      SliceOf(files[i].data, offset, count, image, node + 24, node + 24 + size);
      if offset >= size {
        return [];
      }
      var n := if count < size - offset then count else size - offset;
      return image[node + 24 + offset..node + 24 + offset + n];
    }
    return [];
  }

  lemma {:induction false} ReadResultOf(files: seq<File>, name: seq<byte>, offset: nat, count: nat)
    ensures var r := Lookup(files, Strip(name));
            ReadResult(files, name, offset, count) == if r.None? then [] else Slice(files[r.value].data, offset, count)
  {
    hide Lookup, Strip, Slice;
  }

  lemma {:induction false} SliceSlice(s: seq<byte>, from: nat, to: nat, i: nat, j: nat)
    requires from <= to <= |s| && i <= j <= to - from
    ensures s[from..to][i..j] == s[from + i..from + j]
  {
    var a, b := s[from..to][i..j], s[from + i..from + j];
    assert |a| == |b| && forall k | 0 <= k < |a| :: a[k] == b[k];
  }

  lemma {:induction false} SliceOf(data: seq<byte>, offset: nat, count: nat, image: seq<byte>, from: nat, to: nat)
    requires from <= to <= |image| && image[from..to] == data
    ensures offset >= |data| ==> Slice(data, offset, count) == []
    ensures offset < |data| ==>
              var n := if count < |data| - offset then count else |data| - offset;
              Slice(data, offset, count) == image[from + offset..from + offset + n]
  {
    if offset < |data| {
      var n := if count < |data| - offset then count else |data| - offset;
      SliceSlice(image, from, to, offset, offset + n);
    }
  }

  datatype Stat = Stat(ino: nat, size: nat)

  /** ROFSStatV: index and size; nothing is written for an unknown name. */
  method StatV(image: seq<byte>, name: seq<byte>, ghost files: seq<File>) returns (stat: Option<Stat>)
    requires AllPlain(files) && image == Image(files) && 0 !in name
    ensures var r := Lookup(files, Strip(name));
            stat == if r.None? then None else Some(Stat(r.value, |files[r.value].data|))
  {
    hide *;
    StripNoNul(name);
    var bare := SkipSlashes(name);
    var i, node := FindNode(image, bare, files);
    HeaderFacts(files);
    if i < LeValue(image[7..11]) {
      PlainAt(files, i);
      StoredFacts(image, node, files[i..]);
      Sizes();
      return Some(Stat(i, LeValue(image[node + 20..node + 24])));
    }
    return None;
  }
}
