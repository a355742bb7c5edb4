/** Byte memory: little-endian reads and writes, and which of them meet. */
module Ram {
  import opened Words

  type Memory = map<int, byte>

  predicate Mapped(m: Memory, a: int, n: nat) {
    0 <= a && a + n <= 0x1_0000_0000 && forall k | a <= k < a + n :: k in m
  }

  function Fetch(m: Memory, a: int, n: nat): nat
    requires Mapped(m, a, n)
    decreases n
  {
    if n == 0 then 0 else m[a] + 256 * Fetch(m, a + 1, n - 1)
  }

  function Put(m: Memory, a: int, n: nat, v: nat): (r: Memory)
    requires Mapped(m, a, n)
    ensures r.Keys == m.Keys
    ensures forall k | k in m && !(a <= k < a + n) :: r[k] == m[k]
    decreases n
  {
    if n == 0 then m else Put(m[a := v % 256], a + 1, n - 1, v / 256)
  }

  lemma {:induction false} FetchBound(m: Memory, a: int, n: nat)
    requires Mapped(m, a, n)
    ensures Fetch(m, a, n) < Pow256(n)
    decreases n
  {
    if n > 0 {
      FetchBound(m, a + 1, n - 1);
    }
  }

  /** Reads see only the bytes they cover. */
  lemma {:induction false} FetchSame(m: Memory, m': Memory, a: int, n: nat)
    requires Mapped(m, a, n) && Mapped(m', a, n)
    requires forall k | a <= k < a + n :: m[k] == m'[k]
    ensures Fetch(m, a, n) == Fetch(m', a, n)
    decreases n
  {
    if n > 0 {
      FetchSame(m, m', a + 1, n - 1);
    }
  }

  lemma {:induction false} FetchPut(m: Memory, a: int, n: nat, v: nat)
    requires Mapped(m, a, n)
    ensures Mapped(Put(m, a, n, v), a, n)
    ensures Fetch(Put(m, a, n, v), a, n) == v % Pow256(n)
    decreases n
  {
    if n > 0 {
      FetchPut(m[a := v % 256], a + 1, n - 1, v / 256);
      ModStep(v, Pow256(n - 1));
    }
  }

  /** A write leaves every read apart from it as it was. */
  lemma {:induction false} FetchPutApart(m: Memory, a: int, n: nat, v: nat, b: int, k: nat)
    requires Mapped(m, a, n) && Mapped(m, b, k) && (a + n <= b || b + k <= a)
    ensures Mapped(Put(m, a, n, v), b, k) && Fetch(Put(m, a, n, v), b, k) == Fetch(m, b, k)
  {
    hide Fetch, Put;
    FetchSame(Put(m, a, n, v), m, b, k);
  }

  function Fetch32(m: Memory, a: int): u32
    requires Mapped(m, a, 4)
  {
    FetchBound(m, a, 4);
    Pow256Values();
    Fetch(m, a, 4)
  }
}
