/** Machine sizes and powers of two. */
module Sizes {

  const MAX_ALLOC_SIZE := 100_000_000
  const SIZE_T := 0x1_0000_0000_0000_0000

  /** Two to the power `n`. */
  function Pow2(n: nat): (r: nat)
    ensures r >= 1
  {
    if n == 0 then 1 else 2 * Pow2(n - 1)
  }

  /** The product of two sizes as the machine computes it. */
  function Product(num: nat, size: nat): (r: nat)
    ensures num * size < SIZE_T <==> r == num * size
    ensures r < SIZE_T && exists k: nat :: num * size == r + k * SIZE_T
  {
    assert num * size == (num * size) % SIZE_T + (num * size) / SIZE_T * SIZE_T;
    (num * size) % SIZE_T
  }

  function Zeros(n: nat): (z: seq<bv8>)
    ensures |z| == n && forall i :: 0 <= i < n ==> z[i] == 0
  {
    seq(n, _ => 0)
  }

  lemma ZerosStart(v: seq<bv8>)
    ensures Zeros(0) + v[0..] == v
  {}

  lemma ZerosStep(v: seq<bv8>, i: nat)
    requires i < |v|
    ensures (Zeros(i) + v[i..])[i := 0] == Zeros(i + 1) + v[i + 1..]
  {}
}
