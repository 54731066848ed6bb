/** `align_up`: rounding an address up with a bit mask. */
module Alignment {
  import opened Memory
  import opened Words

  /** The bitwise `&` of two numbers. */
  function And(a: nat, b: nat): nat {
    if a == 0 || b == 0 then 0 else 2 * And(a / 2, b / 2) + a % 2 * (b % 2)
  }

  /** The 64-bit complement. */
  function Not(a: nat): nat
    requires a < TWO_64
  {
    TWO_64 - 1 - a
  }

  /** `(addr + align - 1) & !(align - 1)`, with the sum wrapping at 64 bits. */
  function AlignUp(addr: nat, align: nat): nat
    requires addr < TWO_64 && 0 < align < TWO_64
  {
    And((addr + align - 1) % TWO_64, Not(align - 1))
  }

  ghost predicate LeastMultiple(r: nat, addr: nat, align: nat)
    requires align > 0
  {
    r % align == 0 && addr <= r && forall m: nat :: m % align == 0 && addr <= m ==> r <= m
  }

  lemma {:induction false} AllOnes(x: nat, n: nat)
    requires IsPow2(n) && x < n
    ensures And(x, n - 1) == x
    decreases n
  {
    if n > 1 && x > 0 {
      assert (n - 1) / 2 == n / 2 - 1 && (n - 1) % 2 == 1;
      AllOnes(x / 2, n / 2);
      assert And(x, n - 1) == 2 * And(x / 2, (n - 1) / 2) + x % 2 * ((n - 1) % 2);
    }
  }

  lemma HalfMod(x: nat, a: nat)
    requires a >= 2 && a % 2 == 0
    ensures x % a == 2 * ((x / 2) % (a / 2)) + x % 2
  {
    var h := a / 2;
    var q, r := x / 2 / h, x / 2 % h;
    assert x / 2 == h * q + r;
    assert x == 2 * (h * q + r) + x % 2;
    assert 2 * (h * q) == a * q;
    ModUnique(x, a, q, 2 * r + x % 2);
  }

  /** The mask of a power of two clears the remainder. */
  lemma {:induction false} MaskClears(x: nat, n: nat, a: nat)
    requires IsPow2(n) && IsPow2(a) && a <= n && x < n
    ensures And(x, n - a) == x - x % a
    decreases a
  {
    if a == 1 {
      AllOnes(x, n);
    } else {
      assert (n - a) / 2 == n / 2 - a / 2 && (n - a) % 2 == 0;
      MaskClears(x / 2, n / 2, a / 2);
      HalfMod(x, a);
      if x > 0 && n > a {
        assert And(x, n - a) == 2 * And(x / 2, n / 2 - a / 2) + x % 2 * 0;
      }
    }
  }

  lemma Doubled(n: nat)
    requires IsPow2(n)
    ensures IsPow2(2 * n)
  {
    assert 2 * n % 2 == 0 && 2 * n / 2 == n;
  }

  lemma Scaled16(n: nat)
    requires IsPow2(n)
    ensures IsPow2(16 * n)
  {
    hide IsPow2;
    Doubled(n);
    Doubled(2 * n);
    Doubled(4 * n);
    Doubled(8 * n);
  }

  lemma Scaled65536(n: nat)
    requires IsPow2(n)
    ensures IsPow2(0x1_0000 * n)
  {
    hide IsPow2;
    Scaled16(n);
    Scaled16(0x10 * n);
    Scaled16(0x100 * n);
    Scaled16(0x1000 * n);
  }

  lemma WordPow2()
    ensures IsPow2(TWO_64)
  {
    assert IsPow2(1);
    Scaled65536(1);
    hide IsPow2;
    Scaled65536(0x1_0000);
    Scaled65536(0x1_0000_0000);
    Scaled65536(0x1_0000_0000_0000);
  }

  /** A multiple between `addr` and `addr + align - 1` is the least one. */
  lemma LeastWithin(r: nat, addr: nat, align: nat)
    requires align > 0 && r % align == 0 && addr <= r < addr + align
    ensures LeastMultiple(r, addr, align)
  {
    forall m: nat | m % align == 0 && addr <= m ensures r <= m {
      if m < r {
        assert r == align * (r / align) && m == align * (m / align);
        if m / align + 1 <= r / align {
          MulMonotone(align, m / align + 1, r / align);
        } else {
          MulMonotone(align, r / align, m / align);
        }
      }
    }
  }

  lemma RoundDown(x: nat, align: nat)
    requires align > 0
    ensures (x - x % align) % align == 0
  {
    assert x == align * (x / align) + x % align;
    MultipleMod(align, x / align);
  }

  lemma AlignUpMask(addr: nat, align: nat)
    requires addr < TWO_64 && 0 < align < TWO_64 && IsPow2(align)
    ensures var sum := (addr + align - 1) % TWO_64;
      AlignUp(addr, align) == sum - sum % align
  {
    hide IsPow2, And;
    WordPow2();
    MaskClears((addr + align - 1) % TWO_64, TWO_64, align);
  }

  /**
   * The mask form is the least multiple at or above the address exactly when the sum fits in
   * 64 bits; when it does not, the result is zero.
   */
  lemma AlignUpExact(addr: nat, align: nat)
    requires addr < TWO_64 && 0 < align < TWO_64 && IsPow2(align)
    ensures addr + align - 1 < TWO_64 <==> LeastMultiple(AlignUp(addr, align), addr, align)
    ensures addr + align - 1 >= TWO_64 ==> AlignUp(addr, align) == 0
  {
    hide IsPow2, AlignUp;
    AlignUpMask(addr, align);
    var sum := addr + align - 1;
    if sum < TWO_64 {
      RoundDown(sum, align);
      LeastWithin(AlignUp(addr, align), addr, align);
    } else {
      ModUnique(sum, TWO_64, 1, sum - TWO_64);
      ModUnique(sum - TWO_64, align, 0, sum - TWO_64);
    }
  }
}
