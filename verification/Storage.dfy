/**
 The vector that holds the slots of a function. It starts with room for six in place, and moves to
 storage of the next power of two whenever it is full; a reference into it is good until it moves.
 */
module Storage {
  import opened Memory

  const INLINE: nat := 6

  /** The least power of two at or above `k`, from the power `p` on. */
  function PowerFrom(p: nat, k: nat): (r: nat)
    requires p > 0
    ensures r >= k && r >= p
    decreases if p < k then k - p else 0
  {
    if p >= k then p else PowerFrom(2 * p, k)
  }

  function NextPower(k: nat): (r: nat)
    ensures r >= k
  {
    PowerFrom(1, k)
  }

  /** The room of a vector that has taken `k` slots; since it only grows, its room names its storage. */
  function Capacity(k: nat): (r: nat)
    ensures r >= k
  {
    if k <= INLINE then INLINE else NextPower(k)
  }

  lemma {:induction false} PowerLeast(p: nat, k: nat)
    requires IsPow2(p)
    ensures IsPow2(PowerFrom(p, k))
    ensures forall q: nat :: IsPow2(q) && q >= k && q >= p ==> PowerFrom(p, k) <= q
    decreases if p < k then k - p else 0
  {
    if p < k {
      assert 2 * p % 2 == 0 && 2 * p / 2 == p;
      PowerLeast(2 * p, k);
      forall q: nat | IsPow2(q) && q >= k && q >= p ensures PowerFrom(p, k) <= q {
        PowerDoubles(p, q);
      }
    }
  }

  /** Nothing lies between a power of two and its double. */
  lemma {:induction false} PowerDoubles(p: nat, q: nat)
    requires IsPow2(p) && IsPow2(q) && p < q
    ensures 2 * p <= q
    decreases q
  {
    if p > 1 { PowerDoubles(p / 2, q / 2); }
  }

  /** The room is the least that the growth rule allows. */
  lemma CapacityLeast(k: nat)
    requires k > INLINE
    ensures IsPow2(Capacity(k)) && forall q: nat :: IsPow2(q) && q >= k ==> Capacity(k) <= q
  {
    assert IsPow2(1);
    PowerLeast(1, k);
  }

  lemma CapacityMonotone(j: nat, k: nat)
    requires j <= k
    ensures Capacity(j) <= Capacity(k)
  {
    if j > INLINE {
      CapacityLeast(j);
      CapacityLeast(k);
    }
  }

  /** A push moves the vector exactly when it is full. */
  lemma PushMoves(n: nat)
    ensures Capacity(n + 1) == if n == Capacity(n) then NextPower(n + 1) else Capacity(n)
  {
    if n > INLINE && n < Capacity(n) {
      CapacityLeast(n);
      CapacityLeast(n + 1);
    }
  }

  /** The slot declared as number `i` still lies where it was when `n` slots have been declared. */
  predicate Unmoved(i: nat, n: nat) {
    Capacity(i + 1) == Capacity(n)
  }

  /** A slot stays put while the first six last; later ones stay until their storage is full. */
  lemma UnmovedExact(i: nat, n: nat)
    requires i < n
    ensures Unmoved(i, n) <==> n <= INLINE || (i >= INLINE && n <= Capacity(i + 1))
  {
    if i >= INLINE {
      CapacityLeast(i + 1);
      CapacityLeast(n);
      CapacityMonotone(i + 1, n);
    } else if n > INLINE {
      CapacityLeast(n);
    }
  }
}
