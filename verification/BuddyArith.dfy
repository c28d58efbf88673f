/** Powers of two, block sizes, alignment and the exclusive-or that finds a buddy. */
module BuddyArith {
  import opened Sizes

  const MIN_BLOCK_SIZE := 128

  function BlockSize(order: nat): (r: nat)
    ensures r >= MIN_BLOCK_SIZE
  {
    MIN_BLOCK_SIZE * Pow2(order)
  }

  lemma NextSize(k: nat)
    ensures BlockSize(k + 1) == 2 * BlockSize(k)
  {}

  /** Bitwise exclusive or on binary numerals. */
  function Xor(a: nat, b: nat): nat {
    if a == 0 && b == 0 then 0
    else 2 * Xor(a / 2, b / 2) + (if a % 2 == b % 2 then 0 else 1)
  }

  predicate Bit(a: nat, i: nat) {
    if i == 0 then a % 2 == 1 else Bit(a / 2, i - 1)
  }

  /** `Xor` is the bit-by-bit exclusive or that the machine computes. */
  lemma {:induction false} XorBits(a: nat, b: nat, i: nat)
    ensures Bit(Xor(a, b), i) <==> Bit(a, i) != Bit(b, i)
  {
    if a == 0 && b == 0 {
      ZeroBits(i);
    } else if i > 0 {
      XorBits(a / 2, b / 2, i - 1);
      assert Xor(a, b) / 2 == Xor(a / 2, b / 2);
    }
  }

  lemma ZeroBits(i: nat)
    ensures !Bit(0, i)
  {}

  predicate Aligned(x: int, order: nat) {
    x >= 0 && x % BlockSize(order) == 0
  }

  /** The block that forms, together with the block at `x`, one block of the next order. */
  function BuddyOf(x: nat, order: nat): nat {
    Xor(x, BlockSize(order))
  }

  lemma RemainderAtMost(x: nat, d: nat)
    requires d > 0
    ensures x % d <= x
  {
    if x < d {
      DivUnique(x, d, 0);
    }
  }

  /** The base of the block of the given order that contains `x`. */
  function Base(x: nat, order: nat): (r: nat)
    ensures r <= x
  {
    RemainderAtMost(x, BlockSize(order));
    x - x % BlockSize(order)
  }

  lemma MulMono(a: int, b: int, d: nat)
    requires a <= b
    ensures a * d <= b * d
  {}

  lemma MulOrder(a: int, b: int, d: nat)
    requires a * d < b * d
    ensures a < b
  {
    if b <= a {
      MulMono(b, a, d);
    }
  }

  lemma DivUnique(x: int, d: int, q: int)
    requires d > 0 && q * d <= x < q * d + d
    ensures x / d == q && x % d == x - q * d
  {
    var r := x - (x / d) * d;
    assert 0 <= r < d;
    MulOrder(q, x / d + 1, d);
    MulOrder(x / d, q + 1, d);
  }

  /** An aligned address is a whole multiple of the block size. */
  lemma AlignedQuotient(x: int, order: nat) returns (q: nat)
    requires Aligned(x, order)
    ensures x == q * BlockSize(order) && q == x / BlockSize(order)
  {
    q := x / BlockSize(order);
  }

  lemma MultipleAligned(q: nat, order: nat)
    ensures q * BlockSize(order) >= 0 && Aligned(q * BlockSize(order), order)
    ensures q * BlockSize(order) / BlockSize(order) == q
  {
    DivUnique(q * BlockSize(order), BlockSize(order), q);
  }

  lemma {:induction false} AlignedDown(x: int, k: nat, j: nat)
    requires Aligned(x, k) && j <= k
    ensures Aligned(x, j)
    decreases k
  {
    if j < k {
      var q := AlignedQuotient(x, k);
      assert x == (2 * q) * BlockSize(k - 1);
      MultipleAligned(2 * q, k - 1);
      AlignedDown(x, k - 1, j);
    }
  }

  lemma {:induction false} BlockSizeMonotone(j: nat, k: nat)
    requires j <= k
    ensures BlockSize(j) <= BlockSize(k)
    ensures j < k ==> 2 * BlockSize(j) <= BlockSize(k)
    decreases k
  {
    if j < k {
      BlockSizeMonotone(j, k - 1);
    }
  }

  /** Two multiples of `d`: one that starts before the other ends starts no later. */
  lemma MultiplesOrder(x: int, y: int, d: nat)
    requires d > 0 && x % d == 0 && y % d == 0 && x < y + d
    ensures x <= y
  {
    var qx, qy := x / d, y / d;
    MulOrder(qx, qy + 1, d);
    MulMono(qx, qy, d);
  }

  /** Aligned blocks that overlap are nested: the smaller lies inside the larger. */
  lemma Nested(u: nat, j: nat, t: nat, k: nat)
    requires Aligned(u, j) && Aligned(t, k) && k <= j
    requires u < t + BlockSize(k) && t < u + BlockSize(j)
    ensures u <= t && t + BlockSize(k) <= u + BlockSize(j)
  {
    AlignedDown(u, j, k);
    AlignedEnd(u, j, k);
    AlignedEnd(t, k, k);
    MultiplesOrder(u, t, BlockSize(k));
    MultiplesOrder(t + BlockSize(k), u + BlockSize(j), BlockSize(k));
  }

  lemma AlignedEnd(u: nat, j: nat, k: nat)
    requires Aligned(u, j) && k <= j
    ensures Aligned(u + BlockSize(j), k)
  {
    var q := AlignedQuotient(u, j);
    assert u + BlockSize(j) == (q + 1) * BlockSize(j);
    MultipleAligned(q + 1, j);
    AlignedDown(u + BlockSize(j), j, k);
  }

  lemma {:induction false} XorZero(a: nat)
    ensures Xor(a, 0) == a
  {
    if a != 0 {
      XorZero(a / 2);
    }
  }

  lemma {:induction false} XorPow2(a: nat, n: nat)
    ensures Xor(a, Pow2(n)) == (if (a / Pow2(n)) % 2 == 0 then a + Pow2(n) else a - Pow2(n))
  {
    if n == 0 {
      XorZero(a / 2);
    } else {
      XorPow2(a / 2, n - 1);
      XorEven(a, Pow2(n - 1));
      HalveQuotient(a, Pow2(n - 1));
    }
  }

  lemma XorEven(a: nat, d: nat)
    requires d > 0
    ensures Xor(a, 2 * d) == 2 * Xor(a / 2, d) + a % 2
  {
    assert (2 * d) / 2 == d && (2 * d) % 2 == 0;
  }

  lemma HalveQuotient(a: nat, d: nat)
    requires d > 0
    ensures a / (2 * d) == (a / 2) / d
  {
    var q := (a / 2) / d;
    assert q * d <= a / 2 < (q + 1) * d;
    assert q * (2 * d) == 2 * (q * d);
    assert (q + 1) * (2 * d) == 2 * ((q + 1) * d);
    DivUnique(a, 2 * d, q);
  }

  lemma {:induction false} BlockSizeIsPow2(k: nat)
    ensures BlockSize(k) == Pow2(k + 7)
  {
    if k > 0 {
      BlockSizeIsPow2(k - 1);
    } else {
      assert Pow2(7) == 2 * Pow2(6) && Pow2(6) == 2 * Pow2(5) && Pow2(5) == 2 * Pow2(4);
      assert Pow2(4) == 2 * Pow2(3) && Pow2(3) == 8;
    }
  }

  /** The exclusive-or trick: flipping the size bit adds or subtracts one block by parity. */
  lemma XorIsBuddy(x: nat, k: nat)
    ensures BuddyOf(x, k) == (if (x / BlockSize(k)) % 2 == 0 then x + BlockSize(k) else x - BlockSize(k))
  {
    BlockSizeIsPow2(k);
    XorPow2(x, k + 7);
  }

  lemma HalvesXor(p: nat, k: nat, q: nat)
    requires (2 * q) * BlockSize(k) == p
    ensures BuddyOf(p, k) == p + BlockSize(k) && BuddyOf(p + BlockSize(k), k) == p
  {
    hide BlockSize, BuddyOf;
    XorIsBuddy(p, k);
    XorIsBuddy(p + BlockSize(k), k);
    DivUnique(p, BlockSize(k), 2 * q);
    DivUnique(p + BlockSize(k), BlockSize(k), 2 * q + 1);
  }

  /** The two halves of an aligned block are each other's buddies. */
  lemma HalvesAreBuddies(p: nat, k: nat)
    requires Aligned(p, k + 1)
    ensures var u := p + BlockSize(k);
            && Aligned(p, k) && Aligned(u, k)
            && BuddyOf(p, k) == u && BuddyOf(u, k) == p
            && Base(p, k + 1) == p && Base(u, k + 1) == p
  {
    hide BuddyOf;
    var q := AlignedQuotient(p, k + 1);
    var s := BlockSize(k);
    assert p == (2 * q) * s && p + s == (2 * q + 1) * s;
    MultipleAligned(2 * q, k);
    MultipleAligned(2 * q + 1, k);
    NextSize(k);
    DivUnique(p + s, 2 * s, q);
    HalvesXor(p, k, q);
  }

  lemma ParentBlock(x: nat, k: nat) returns (p: nat)
    requires Aligned(x, k)
    ensures Aligned(p, k + 1) && (x == p || x == p + BlockSize(k))
  {
    var q := AlignedQuotient(x, k);
    MultipleAligned(q / 2, k + 1);
    p := (q / 2) * BlockSize(k + 1);
    assert q == 2 * (q / 2) || q == 2 * (q / 2) + 1;
    assert (2 * (q / 2)) * BlockSize(k) == p;
  }

  /** Everything the allocator uses about a buddy. */
  lemma BuddyFacts(x: nat, k: nat)
    requires Aligned(x, k)
    ensures var b := BuddyOf(x, k);
            && Aligned(b, k) && BuddyOf(b, k) == x
            && (b == x + BlockSize(k) || x == b + BlockSize(k))
            && Base(x, k + 1) == (if b < x then b else x)
            && Aligned(Base(x, k + 1), k + 1)
  {
    var p := ParentBlock(x, k);
    HalvesAreBuddies(p, k);
  }

  lemma BaseFacts(x: nat, k: nat)
    ensures Aligned(Base(x, k), k) && Base(x, k) <= x < Base(x, k) + BlockSize(k)
    ensures Aligned(x, k) ==> Base(x, k) == x
  {
    var d := BlockSize(k);
    assert Base(x, k) == (x / d) * d;
    MultipleAligned(x / d, k);
  }

  /** Any two addresses in one aligned block have the same base. */
  lemma BaseUnique(x: nat, u: nat, k: nat)
    requires Aligned(u, k) && u <= x < u + BlockSize(k)
    ensures Base(x, k) == u
  {
    var q := AlignedQuotient(u, k);
    DivUnique(x, BlockSize(k), q);
  }

  /** The base at the next order is the lower of the base and its buddy. */
  lemma BaseStep(x: nat, k: nat)
    ensures var b := BuddyOf(Base(x, k), k);
            && Base(x, k + 1) == (if b < Base(x, k) then b else Base(x, k))
  {
    BaseFacts(x, k);
    BuddyFacts(Base(x, k), k);
    BaseUnique(x, Base(Base(x, k), k + 1), k + 1);
  }

  lemma TopsEnd(x: nat, top: nat, tops: nat)
    requires Aligned(x, top) && x < tops * BlockSize(top)
    ensures x + BlockSize(top) <= tops * BlockSize(top)
  {
    MultipleAligned(tops, top);
    AlignedEnd(x, top, top);
    MultiplesOrder(x + BlockSize(top), tops * BlockSize(top), BlockSize(top));
  }

  /** Blocks and buddies below the top order never leave an arena of whole top-order blocks. */
  lemma InsideArena(x: nat, k: nat, top: nat, tops: nat)
    requires Aligned(x, k) && k <= top && x < tops * BlockSize(top)
    ensures x + BlockSize(k) <= tops * BlockSize(top)
    ensures k < top ==> BuddyOf(x, k) + BlockSize(k) <= tops * BlockSize(top)
  {
    var t := Base(x, top);
    BaseFacts(x, top);
    TopsEnd(t, top, tops);
    Nested(t, top, x, k);
    if k < top {
      BuddyFacts(x, k);
      Nested(t, top, Base(x, k + 1), k + 1);
    }
  }
}
