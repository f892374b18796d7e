/** The size and alignment a client's allocation gets. Models client_allocation_shape
    of dext/amdgpu/amdgpu_client_lifecycle.h. */
module ClientShapes {
  import opened Words

  const TOP_BIT: nat := 0x8000_0000_0000_0000

  function Larger(a: nat, b: nat): nat {
    if a < b then b else a
  }

  /** A power of two that is no smaller than n. */
  predicate PowerAbove(p: nat, n: nat) {
    PowerOfTwo(p) && n <= p
  }

  /** Among powers of two nothing lies strictly between one and its double. */
  lemma {:induction false} NoPowerBetween(p: nat, q: nat)
    requires PowerOfTwo(p) && PowerOfTwo(q) && p < q
    ensures 2 * p <= q
  {
    if p > 1 {
      NoPowerBetween(p / 2, q / 2);
    }
  }

  lemma TopBitIsPower()
    ensures PowerOfTwo(TOP_BIT)
  {
    LimitIsPower();
    assert TOP_BIT == (U64_MAX + 1) / 2;
  }

  /** The doubling loop: it ends at the least power that is enough, and never leaves 64 bits. */
  method NextPower(minimum: nat, wanted: nat) returns (next: nat)
    requires PowerOfTwo(minimum) && minimum <= wanted <= TOP_BIT
    ensures PowerAbove(next, wanted) && next <= TOP_BIT
    ensures forall p: nat :: PowerAbove(p, wanted) ==> next <= p
  {
    TopBitIsPower();
    next := minimum;
    while next < wanted
      invariant PowerOfTwo(next) && next <= TOP_BIT
      invariant forall p: nat :: PowerAbove(p, wanted) ==> next <= p
      decreases wanted - next
    {
      NoPowerBetween(next, TOP_BIT);
      forall p: nat | PowerAbove(p, wanted)
        ensures 2 * next <= p
      {
        NoPowerBetween(next, p);
      }
      next := 2 * next;
    }
  }

  /** client_allocation_shape: the least power of two that meets both alignments, and the least multiple
      of it that holds the size; nothing on the way wraps around 64 bits. */
  method AllocationShape(size: nat, requested: nat, minimum: nat) returns (ok: bool, alignment: nat, rounded: nat)
    requires size <= U64_MAX && requested <= U64_MAX && minimum <= U64_MAX
    ensures ok ==>
      && PowerAbove(alignment, Larger(requested, minimum)) && alignment <= TOP_BIT
      && (forall p: nat :: PowerAbove(p, Larger(requested, minimum)) ==> alignment <= p)
      && rounded % alignment == 0 && size <= rounded <= U64_MAX && (forall m: nat :: m % alignment == 0 && m >= size ==> m >= rounded)
    ensures !ok <==>
      || size == 0 || !PowerOfTwo(minimum) || Larger(requested, minimum) > TOP_BIT
      || exists p: nat :: && PowerAbove(p, Larger(requested, minimum)) && size > U64_MAX - (p - 1)
                          && forall q: nat :: PowerAbove(q, Larger(requested, minimum)) ==> p <= q
  {
    alignment, rounded := 0, 0;
    if size == 0 || minimum == 0 || !PowerOfTwo(minimum) {
      return false, alignment, rounded;
    }
    alignment := if requested < minimum then minimum else requested;
    var wanted := alignment;
    if alignment > TOP_BIT {
      return false, alignment, rounded;
    }
    if !PowerOfTwo(alignment) {
      alignment := NextPower(minimum, alignment);
    } else {
      forall p: nat | PowerAbove(p, wanted)
        ensures alignment <= p
      {
      }
    }
    assert PowerAbove(alignment, wanted);
    if size > U64_MAX - (alignment - 1) {
      return false, alignment, rounded;
    }
    rounded := RoundUp(size, alignment);
    RoundUpIsLeastMultiple(size, alignment);
    ok := true;
  }
}
