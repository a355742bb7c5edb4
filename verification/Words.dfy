/** Machine words: bytes, 32-bit words, two's complement and little-endian byte strings. */
module Words {

  type byte = x: int | 0 <= x < 0x100
  type u32 = x: int | 0 <= x < 0x1_0000_0000

  /** What is left of an integer in a 32-bit register. */
  function Wrap(x: int): u32 {
    x % 0x1_0000_0000
  }

  function Min(a: int, b: int): int { if a < b then a else b }
  function Max(a: int, b: int): int { if a > b then a else b }

  function Zeros(n: nat): (s: seq<byte>)
    ensures |s| == n && forall i | 0 <= i < n :: s[i] == 0
  {
    if n == 0 then [] else [0] + Zeros(n - 1)
  }

  function Add32(a: int, b: int): u32 { Wrap(a + b) }
  function Sub32(a: int, b: int): u32 { Wrap(a - b) }
  function Mul32(a: int, b: int): u32 { Wrap(a * b) }

  /** The two's-complement reading of a word. */
  function Signed(x: u32): int {
    if x < 0x8000_0000 then x else x - 0x1_0000_0000
  }

  function BitAnd(a: u32, b: u32): u32 {
    ((a as bv32) & (b as bv32)) as int
  }

  function BitOr(a: u32, b: u32): u32 {
    ((a as bv32) | (b as bv32)) as int
  }

  function BitXor(a: u32, b: u32): u32 {
    ((a as bv32) ^ (b as bv32)) as int
  }

  /** Sums and differences that stay in the word. */
  lemma {:induction false} NoWrap(a: int, b: int)
    ensures 0 <= a < 0x1_0000_0000 ==> Wrap(a) == a
    ensures 0 <= a + b < 0x1_0000_0000 ==> Add32(a, b) == a + b
    ensures 0 <= a - b < 0x1_0000_0000 ==> Sub32(a, b) == a - b
  {
  }

  lemma {:induction false} XorSelf(a: u32)
    ensures BitXor(a, a) == 0
  {
    var v := a as bv32;
    assert v ^ v == 0;
  }

  /** 256 to the power n. */
  function Pow256(n: nat): (p: nat)
    ensures p >= 1
  {
    if n == 0 then 1 else 256 * Pow256(n - 1)
  }

  lemma {:induction false} Pow256Values()
    ensures Pow256(1) == 0x100 && Pow256(2) == 0x1_0000 && Pow256(4) == 0x1_0000_0000
  {
    assert Pow256(0) == 1;
    assert Pow256(1) == 256 * Pow256(0);
    assert Pow256(2) == 256 * Pow256(1);
    assert Pow256(3) == 256 * Pow256(2);
    assert Pow256(4) == 256 * Pow256(3);
  }

  /** The n low bytes of x, least significant first. */
  function LeBytes(x: nat, n: nat): (s: seq<byte>)
    ensures |s| == n
  {
    if n == 0 then [] else [x % 256] + LeBytes(x / 256, n - 1)
  }

  function LeValue(s: seq<byte>): nat {
    if s == [] then 0 else s[0] + 256 * LeValue(s[1..])
  }

  /** Dividing a residue's base: the step both little-endian round trips take. */
  lemma {:induction false} ModStep(x: nat, p: nat)
    requires p >= 1
    ensures x % 256 + 256 * ((x / 256) % p) == x % (256 * p)
  {
    var q, r := x / 256, x % 256;
    var s, t := q / p, q % p;
    assert x == 256 * q + r;
    assert q == s * p + t by { assert q == p * s + t; assert p * s == s * p; }
    assert x == s * (256 * p) + (256 * t + r) by {
      assert 256 * q == 256 * (s * p) + 256 * t;
      assert s * (256 * p) == 256 * (s * p);
    }
    assert 0 <= 256 * t + r < 256 * p;
    ModUnique(x, 256 * p, s, 256 * t + r);
  }

  lemma {:induction false} ModUnique(x: int, d: int, q: int, r: int)
    requires d > 0 && 0 <= r < d && x == q * d + r
    ensures x % d == r && x / d == q
  {
    var k := x / d - q;
    assert x == d * (x / d) + x % d;
    assert k * d == r - x % d by { assert d * (x / d) == (k + q) * d; }
    if k >= 1 {
      MulMono(k, 1, d);
      assert false;
    }
    if k <= -1 {
      MulMono(-1, k, d);
      assert false;
    }
  }

  lemma {:induction false} DivBound(a: nat, b: nat)
    requires b >= 1
    ensures 0 <= a / b <= a && 0 <= a % b < b
  {
    assert a == b * (a / b) + a % b;
    if a / b > a {
      MulMono(b, 1, a / b);
      assert false;
    }
  }

  function Div32(a: u32, b: u32): u32
    requires b >= 1
  {
    DivBound(a, b);
    a / b
  }

  function Mod32(a: u32, b: u32): u32
    requires b >= 1
  {
    DivBound(a, b);
    a % b
  }

  lemma {:induction false} MulMono(a: int, b: int, d: int)
    requires a >= b && d >= 0
    ensures a * d >= b * d
  {
    assert (a - b) * d >= 0;
  }

  lemma {:induction false} LeRoundTrip(x: nat, n: nat)
    ensures LeValue(LeBytes(x, n)) == x % Pow256(n)
  {
    if n > 0 {
      LeRoundTrip(x / 256, n - 1);
      assert LeBytes(x, n)[1..] == LeBytes(x / 256, n - 1);
      ModStep(x, Pow256(n - 1));
    }
  }

  lemma {:induction false} Le32RoundTrip(x: u32)
    ensures LeValue(LeBytes(x, 4)) == x
  {
    LeRoundTrip(x, 4);
    Pow256Values();
  }

  lemma {:induction false} LeValueBound(s: seq<byte>)
    ensures LeValue(s) < Pow256(|s|)
  {
    if s != [] {
      LeValueBound(s[1..]);
    }
  }
}
