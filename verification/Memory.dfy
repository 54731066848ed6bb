/** Byte-addressed memory with 64-bit little-endian words, and powers of two. */
module Memory {
  import opened Bytes
  import opened Words

  type Mem = map<nat, Byte>

  function Pow256(n: nat): nat {
    if n == 0 then 1 else 256 * Pow256(n - 1)
  }

  ghost predicate Mapped(m: Mem, a: nat, n: nat) {
    forall x :: a <= x < a + n ==> x in m
  }

  /** The little-endian number in the `n` bytes at `a`. */
  function Load(m: Mem, a: nat, n: nat): nat
    requires Mapped(m, a, n)
    decreases n
  {
    if n == 0 then 0 else m[a] + 256 * Load(m, a + 1, n - 1)
  }

  /** Memory with the low `n` bytes of `v` at `a`. */
  function Store(m: Mem, a: nat, n: nat, v: nat): (r: Mem)
    ensures forall x :: x in m ==> x in r
    ensures Mapped(r, a, n)
    ensures forall x :: x in m && !(a <= x < a + n) ==> r[x] == m[x]
    decreases n
  {
    if n == 0 then m else Store(m[a := v % 256], a + 1, n - 1, v / 256)
  }

  lemma {:induction false} LoadSame(m: Mem, m': Mem, a: nat, n: nat)
    requires Mapped(m, a, n) && Mapped(m', a, n)
    requires forall x :: a <= x < a + n ==> m[x] == m'[x]
    ensures Load(m, a, n) == Load(m', a, n)
    decreases n
  {
    if n > 0 { LoadSame(m, m', a + 1, n - 1); }
  }

  /** What is stored is what is loaded. */
  lemma {:induction false} LoadStore(m: Mem, a: nat, n: nat, v: nat)
    requires v < Pow256(n)
    ensures Load(Store(m, a, n, v), a, n) == v
    decreases n
  {
    if n > 0 {
      var m1 := m[a := v % 256];
      var r := Store(m1, a + 1, n - 1, v / 256);
      LoadStore(m1, a + 1, n - 1, v / 256);
      assert r[a] == v % 256;
    }
  }

  const WORD := 8

  ghost predicate Distinct(list: seq<nat>) {
    forall i, j :: 0 <= i < j < |list| ==> list[i] != list[j]
  }

  lemma WordRange()
    ensures Pow256(8) == TWO_64
  {
    assert Pow256(2) == 0x1_0000;
    assert Pow256(4) == 0x1_0000_0000;
    assert Pow256(6) == 0x1_0000_0000_0000;
  }

  /** Powers of two. */
  predicate IsPow2(n: nat) {
    n > 0 && (n == 1 || (n % 2 == 0 && IsPow2(n / 2)))
  }

  /** A smaller power of two divides a larger one. */
  lemma {:induction false} Pow2Divides(a: nat, b: nat)
    requires IsPow2(a) && IsPow2(b) && a <= b
    ensures b % a == 0
    decreases b
  {
    if a > 1 {
      Pow2Divides(a / 2, b / 2);
      var k := b / 2 / (a / 2);
      assert b / 2 == a / 2 * k;
      assert b == a * k;
      MultipleMod(a, k);
    }
  }

  lemma MultipleMod(a: nat, k: nat)
    requires a > 0
    ensures a * k % a == 0
  {
    assert a * k == a * k + 0;
    ModUnique(a * k, a, k, 0);
  }

  lemma ModUnique(x: nat, a: nat, q: nat, r: nat)
    requires a > 0 && x == a * q + r && r < a
    ensures x % a == r && x / a == q
  {
    var q', r' := x / a, x % a;
    assert x == a * q' + r';
    if q' > q { MulMonotone(a, q + 1, q'); }
    if q > q' { MulMonotone(a, q' + 1, q); }
  }

  lemma MulMonotone(a: nat, x: nat, y: nat)
    requires x <= y
    ensures a * x <= a * y
  {
    assert a * y == a * x + a * (y - x);
  }

  /** Alignment to a multiple is alignment. */
  lemma AlignedTo(p: nat, a: nat, b: nat)
    requires a > 0 && b > 0 && b % a == 0 && p % b == 0
    ensures p % a == 0
  {
    var k, j := b / a, p / b;
    assert b == a * k;
    assert p == b * j;
    assert p == a * (k * j) by { assert a * k * j == a * (k * j); }
    MultipleMod(a, k * j);
  }
}
