/**
 * What each elementary step of the buddy allocator keeps, stated on values: header maps, list
 * heads, tilings and memory contents before and after the step.
 */
module BuddySteps {
  import opened Sizes
  import opened BuddyArith
  import opened Tilings
  import opened FreeLists

  /** Address `x` lies in the usable bytes of a live block. */
  ghost predicate InPayload(h: nat, L: map<nat, nat>, x: int) {
    exists t :: t in L && t + h <= x < t + BlockSize(L[t])
  }

  /** Two memories agree on the usable bytes of every live block. */
  ghost predicate Same(h: nat, L: map<nat, nat>, a: seq<bv8>, b: seq<bv8>) {
    |a| == |b| && forall x :: 0 <= x < |a| && InPayload(h, L, x) ==> a[x] == b[x]
  }

  /** Every usable byte of a block of `L` is a usable byte of a block of `K`. */
  ghost predicate PayloadWithin(h: nat, L: map<nat, nat>, K: map<nat, nat>) {
    forall x :: InPayload(h, L, x) ==> InPayload(h, K, x)
  }

  lemma SubmapWithin(h: nat, L: map<nat, nat>, K: map<nat, nat>)
    requires forall t :: t in L ==> t in K && K[t] == L[t]
    ensures PayloadWithin(h, L, K)
  {}

  lemma SameChain(h: nat, L: map<nat, nat>, J: map<nat, nat>, K: map<nat, nat>, a: seq<bv8>, b: seq<bv8>, c: seq<bv8>)
    requires PayloadWithin(h, L, J) && PayloadWithin(h, L, K) && Same(h, J, a, b) && Same(h, K, b, c)
    ensures Same(h, L, a, c)
  {}

  lemma WithinSelf(h: nat, L: map<nat, nat>)
    ensures PayloadWithin(h, L, L)
  {}

  lemma WithinLess(h: nat, L: map<nat, nat>, m: nat)
    ensures PayloadWithin(h, L - {m}, L)
  {
    SubmapWithin(h, L - {m}, L);
  }

  lemma ClaimLess(h: nat, L: map<nat, nat>, m: nat, k: nat)
    ensures PayloadWithin(h, L - {m}, L[m := k])
  {
    SubmapWithin(h, L - {m}, L[m := k]);
  }

  lemma SplitMarked(T: Tiling, m: nat)
    requires m in T && T[m].order > 0
    ensures Split(Mark(T, m, false), m) == Split(T, m)
    ensures m in Split(T, m) && Split(T, m)[m] == Tile(T[m].order - 1, false)
  {}

  lemma SameSelf(h: nat, L: map<nat, nat>, a: seq<bv8>)
    ensures Same(h, L, a, a)
  {}

  lemma FreeNotLive(T: Tiling, m: nat)
    requires m in T && T[m].free
    ensures m !in Live(T) && Live(T) - {m} == Live(T)
  {}

  lemma ClaimWithin(h: nat, T: Tiling, b: nat)
    requires b in T
    ensures PayloadWithin(h, Live(T), Live(Mark(T, b, false)))
  {
    forall t | t in Live(T)
      ensures t in Live(Mark(T, b, false)) && Live(Mark(T, b, false))[t] == Live(T)[t]
    {}
  }

  /** A tile's header never overlaps the usable bytes of a live tile. */
  lemma HeaderOutside(g: Geometry, T: Tiling, m: nat, x: int)
    requires g.Ok() && Packed(g, T) && m in T && m <= x < m + g.header
    ensures !InPayload(g.header, Live(T), x)
  {
    forall t | t in Live(T)
      ensures !(t + g.header <= x < t + BlockSize(Live(T)[t]))
    {
      assert t in T && Live(T)[t] == T[t].order;
      assert t < m ==> End(T, t) <= m;
      assert m < t ==> End(T, m) <= t;
    }
  }

  /** The order that `size_to_order` is meant to compute: the least that fits, capped at the top. */
  predicate IsOrderFor(g: Geometry, size: nat, k: nat) {
    && k <= g.maxOrder
    && (BlockSize(k) >= size + g.header || k == g.maxOrder)
    && forall j :: 0 <= j < k ==> BlockSize(j) < size + g.header
  }

  ghost predicate HeadersOk(T: Tiling, hdr: Headers) {
    forall t {:trigger HeaderOk(T, hdr, t)} :: t in T ==> HeaderOk(T, hdr, t)
  }

  ghost predicate HeadersOkBut(T: Tiling, hdr: Headers, m: nat) {
    forall t {:trigger HeaderOk(T, hdr, t)} :: t in T && t != m ==> HeaderOk(T, hdr, t)
  }

  /** Lists below the top order are empty, apart from `ord`, and unlisted tiles have no links. */
  ghost predicate LowDropped(g: Geometry, T: Tiling, hdr: Headers, heads: seq<int>, ord: int) {
    && |heads| == g.maxOrder + 1
    && (forall k :: 0 <= k < g.maxOrder && k != ord ==> heads[k] == NULL)
    && (forall t :: t in T && T[t].free && T[t].order < g.maxOrder ==>
             t in hdr && hdr[t].next == NULL && hdr[t].prev == NULL)
  }

  lemma MergeLive(g: Geometry, T: Tiling, m: nat, k: nat)
    requires m in T && T[m] == Tile(k, false) && Aligned(m, k) && BuddyFree(T, m, k)
    ensures var M := Merge(Mark(T, BuddyOf(m, k), false), m);
            && Live(M) == (Live(T) - {m})[Base(m, k + 1) := k + 1]
            && forall t :: t in M && M[t].free ==> t in T && T[t] == M[t]
  {
    BuddyFacts(m, k);
    hide BlockSize, Aligned, BuddyOf, Base;
  }

  lemma AbsorbTiling(g: Geometry, T: Tiling, m: nat, k: nat)
    requires Tiled(g, T) && Coalesced(g, T) && m in T && T[m] == Tile(k, false) && k < g.maxOrder && BuddyFree(T, m, k)
    ensures var M := Merge(Mark(T, BuddyOf(m, k), false), m);
            && Tiled(g, M) && Coalesced(g, M) && Live(M) == (Live(T) - {m})[Base(m, k + 1) := k + 1]
            && Base(m, k + 1) in M && M[Base(m, k + 1)] == Tile(k + 1, false)
  {
    assert TileOk(g, m, T[m]);
    BuddyIsTile(g, T, m);
    MarkTiled(g, T, BuddyOf(m, k), false);
    MergeTiled(g, Mark(T, BuddyOf(m, k), false), m);
    MergeLive(g, T, m, k);
    FewerFreeCoalesced(g, T, Merge(Mark(T, BuddyOf(m, k), false), m));
  }

  /** The headers after a merge step: the buddy is unlinked and the lower block gets the size of both. */
  function AbsorbHeaders(hdr: Headers, m: nat, k: nat): Headers
    requires m in hdr && Linkable(hdr, BuddyOf(m, k))
  {
    var b := BuddyOf(m, k);
    var r := if b < m then b else m;
    var h := UnlinkHeaders(hdr, b);
    if r in h then h[r := h[r].(size := BlockSize(k + 1))] else h
  }

  lemma AbsorbHeadersEffect(g: Geometry, T: Tiling, hdr: Headers, heads: seq<int>, root: map<nat, nat>, m: nat, k: nat)
    requires Packed(g, T) && ListsOk(T, hdr, heads, root)
    requires m in T && T[m] == Tile(k, false) && k < |heads| && BuddyFree(T, m, k)
    ensures m in hdr && Linkable(hdr, BuddyOf(m, k))
    ensures var b, r, h := BuddyOf(m, k), BuddyArith.Base(m, k + 1), AbsorbHeaders(hdr, m, k);
            && b != m && r == (if b < m then b else m) && r in h && h.Keys == hdr.Keys
            && h[r] == hdr[r].(size := BlockSize(k + 1), next := NULL, prev := NULL)
            && (forall t :: t in T && t != b && t != m ==>
                  t in h && h[t].size == hdr[t].size && h[t].isFree == hdr[t].isFree && h[t].isMmap == hdr[t].isMmap)
            && (forall t :: t in T && t != b && t != m ==> UnlinkHeaders(hdr, b)[t] == h[t])
  {
    var b := BuddyOf(m, k);
    assert TileOk(g, m, T[m]);
    BuddyFacts(m, k);
    assert Linked(T, hdr, root, m) && Linked(T, hdr, root, b);
    UnlinkEffect(T, hdr, heads, root, b);
    forall t | t in T
      ensures t in hdr
    {
      assert Linked(T, hdr, root, t);
    }
    if hdr[b].next != NULL {
      assert Linked(T, hdr, root, hdr[b].next);
    }
    if hdr[b].prev != NULL {
      assert Linked(T, hdr, root, hdr[b].prev);
    }
  }

  lemma AbsorbHeadersOk(g: Geometry, T: Tiling, hdr: Headers, heads: seq<int>, root: map<nat, nat>, m: nat, k: nat)
    requires Packed(g, T) && ListsOk(T, hdr, heads, root) && HeadersOkBut(T, hdr, m)
    requires m in T && T[m] == Tile(k, false) && k < |heads| && BuddyFree(T, m, k)
    requires m in hdr && Linkable(hdr, BuddyOf(m, k)) && !hdr[m].isMmap
    ensures var b, r, h := BuddyOf(m, k), BuddyArith.Base(m, k + 1), AbsorbHeaders(hdr, m, k);
            && HeadersOkBut(Merge(Mark(T, b, false), m), h, r)
            && r in h && h[r].size == BlockSize(k + 1) && !h[r].isMmap
  {
    AbsorbHeadersEffect(g, T, hdr, heads, root, m, k);
    var b, r, h := BuddyOf(m, k), BuddyArith.Base(m, k + 1), AbsorbHeaders(hdr, m, k);
    var M := Merge(Mark(T, b, false), m);
    assert HeaderOk(T, hdr, b);
    hide AbsorbHeaders;
    forall t | t in M && t != r
      ensures HeaderOk(M, h, t)
    {
      assert HeaderOk(T, hdr, t);
    }
  }

  lemma AbsorbListsOk(g: Geometry, T: Tiling, hdr: Headers, heads: seq<int>, root: map<nat, nat>, m: nat, k: nat)
    requires Packed(g, T) && ListsOk(T, hdr, heads, root)
    requires m in T && T[m] == Tile(k, false) && k < |heads| && BuddyFree(T, m, k)
    requires m in hdr && Linkable(hdr, BuddyOf(m, k))
    ensures var b := BuddyOf(m, k);
            ListsOk(Merge(Mark(T, b, false), m), AbsorbHeaders(hdr, m, k), UnlinkHeads(hdr, heads, k, b),
                     UnlinkRoot(hdr, root, b))
  {
    AbsorbHeadersEffect(g, T, hdr, heads, root, m, k);
    var b, r, h := BuddyOf(m, k), BuddyArith.Base(m, k + 1), AbsorbHeaders(hdr, m, k);
    UnlinkKeeps(T, hdr, heads, root, k, b);
    var N, h1, hs, rt := Mark(T, b, false), UnlinkHeaders(hdr, b), UnlinkHeads(hdr, heads, k, b),
                         UnlinkRoot(hdr, root, b);
    var M := Merge(N, m);
    forall t | t in N
      ensures Linked(N, h1, rt, t)
    {}
    hide AbsorbHeaders, UnlinkHeaders, UnlinkHeads, UnlinkRoot;
    LiveChange(N, h1, hs, rt, M, h);
  }

  lemma AbsorbComplete(g: Geometry, T: Tiling, hdr: Headers, heads: seq<int>, root: map<nat, nat>, m: nat, k: nat,
                       j: nat)
    requires Packed(g, T) && ListsOk(T, hdr, heads, root)
    requires m in T && T[m] == Tile(k, false) && k < |heads| && BuddyFree(T, m, k)
    requires Linkable(hdr, BuddyOf(m, k)) && j < |heads| && CompleteAt(T, heads, root, j)
    ensures var b := BuddyOf(m, k);
            CompleteAt(Merge(Mark(T, b, false), m), UnlinkHeads(hdr, heads, k, b), UnlinkRoot(hdr, root, b), j)
  {
    var b := BuddyOf(m, k);
    UnlinkComplete(T, hdr, heads, root, k, b, j);
    assert TileOk(g, m, T[m]);
    MergeLive(g, T, m, k);
    BuddyFacts(m, k);
  }

  lemma AbsorbLow(g: Geometry, T: Tiling, hdr: Headers, heads: seq<int>, root: map<nat, nat>, m: nat, k: nat)
    requires Packed(g, T) && ListsOk(T, hdr, heads, root) && LowDropped(g, T, hdr, heads, -1)
    requires m in T && T[m] == Tile(k, false) && k < g.maxOrder && BuddyFree(T, m, k)
    requires m in hdr && Linkable(hdr, BuddyOf(m, k))
    ensures var b := BuddyOf(m, k);
            LowDropped(g, Merge(Mark(T, b, false), m), AbsorbHeaders(hdr, m, k), UnlinkHeads(hdr, heads, k, b), -1)
  {
    hide AbsorbHeaders, UnlinkHeaders, BlockSize, ListsOk, Linkable;
    AbsorbHeadersEffect(g, T, hdr, heads, root, m, k);
    var b := BuddyOf(m, k);
    UnlinkEffect(T, hdr, heads, root, b);
    assert TileOk(g, m, T[m]);
    MergeLive(g, T, m, k);
    BuddyFacts(m, k);
    assert hdr[b].next == NULL && hdr[b].prev == NULL;
  }

  predicate SameFlags(a: Headers, b: Headers) {
    forall t :: t in a ==> t in b && b[t].isFree == a[t].isFree
  }

  /** A merge step marks no header as free and none as used. */
  lemma AbsorbFlags(hdr: Headers, m: nat, k: nat)
    requires m in hdr && Linkable(hdr, BuddyOf(m, k))
    ensures SameFlags(hdr, AbsorbHeaders(hdr, m, k))
  {
    hide BuddyOf;
  }

  /** No tile starts in the middle of another. */
  lemma InsideTile(g: Geometry, T: Tiling, m: nat, p: nat)
    requires Tiled(g, T) && m in T && m <= p < m + BlockSize(T[m].order)
    ensures p in T <==> p == m
  {}

  /** Everything a merge step keeps. */
  lemma AbsorbKeeps(g: Geometry, T: Tiling, hdr: Headers, heads: seq<int>, root: map<nat, nat>, m: nat, k: nat)
    requires Tiled(g, T) && Coalesced(g, T) && ListsOk(T, hdr, heads, root) && HeadersOkBut(T, hdr, m)
             && |heads| == g.maxOrder + 1
    requires m in T && T[m] == Tile(k, false) && k < g.maxOrder && BuddyFree(T, m, k) && m in hdr && !hdr[m].isMmap
    ensures Linkable(hdr, BuddyOf(m, k)) && BuddyOf(m, k) in T && T[BuddyOf(m, k)] == Tile(k, true)
    ensures var b, r, h := BuddyOf(m, k), BuddyArith.Base(m, k + 1), AbsorbHeaders(hdr, m, k);
            var M, hs, rt := Merge(Mark(T, b, false), m), UnlinkHeads(hdr, heads, k, b), UnlinkRoot(hdr, root, b);
            && r == (if b < m then b else m) && r in hdr
            && Tiled(g, M) && Coalesced(g, M) && ListsOk(M, h, hs, rt) && HeadersOkBut(M, h, r)
            && r in M && M[r] == Tile(k + 1, false) && r in h && h[r].size == BlockSize(k + 1) && !h[r].isMmap
            && Live(M) == (Live(T) - {m})[r := k + 1] && r !in Live(T) - {m}
            && (forall j :: 0 <= j < |heads| && CompleteAt(T, heads, root, j) ==> CompleteAt(M, hs, rt, j))
            && (LowDropped(g, T, hdr, heads, -1) ==> LowDropped(g, M, h, hs, -1))
  {
    AbsorbHeadersEffect(g, T, hdr, heads, root, m, k);
    AbsorbHeadersOk(g, T, hdr, heads, root, m, k);
    AbsorbListsOk(g, T, hdr, heads, root, m, k);
    AbsorbTiling(g, T, m, k);
    forall j | 0 <= j < |heads| && CompleteAt(T, heads, root, j)
      ensures var b := BuddyOf(m, k);
              CompleteAt(Merge(Mark(T, b, false), m), UnlinkHeads(hdr, heads, k, b), UnlinkRoot(hdr, root, b), j)
    {
      AbsorbComplete(g, T, hdr, heads, root, m, k, j);
    }
    if LowDropped(g, T, hdr, heads, -1) {
      AbsorbLow(g, T, hdr, heads, root, m, k);
    }
  }

  // ---------- Taking, releasing and cutting blocks ----------

  lemma TakeKeeps(g: Geometry, T: Tiling, hdr: Headers, heads: seq<int>, root: map<nat, nat>, m: nat)
    requires Tiled(g, T) && Coalesced(g, T) && ListsOk(T, hdr, heads, root) && HeadersOkBut(T, hdr, m) && m in T
    ensures Linkable(hdr, m)
    ensures var M, h := Mark(T, m, false), UnlinkHeaders(hdr, m);
            && Tiled(g, M) && Coalesced(g, M) && HeadersOkBut(M, h, m) && Live(M) == Live(T)[m := T[m].order]
            && m in h && h[m].isMmap == hdr[m].isMmap && h[m].size == hdr[m].size && h[m].next == NULL
                     && h[m].prev == NULL
  {
    hide UnlinkHeaders, Tiled, Coalesced, Linked, HeadOk, ListsOk;
    UnlinkEffect(T, hdr, heads, root, m);
    var M, h := Mark(T, m, false), UnlinkHeaders(hdr, m);
    MarkTiled(g, T, m, false);
    FewerFreeCoalesced(g, T, M);
    forall t | t in M && t != m
      ensures HeaderOk(M, h, t)
    {
      assert HeaderOk(T, hdr, t);
    }
  }

  /** Taking a block keeps complete lists complete, unless it drops a head it does not own. */
  lemma TakeComplete(g: Geometry, T: Tiling, hdr: Headers, heads: seq<int>, root: map<nat, nat>, m: nat, k: nat, j: nat)
    requires ListsOk(T, hdr, heads, root) && m in T && T[m].order == k && k < |heads| && j < |heads|
    requires CompleteAt(T, heads, root, j) && (T[m].free || j != k) && m in hdr
    ensures CompleteAt(Mark(T, m, false), UnlinkHeads(hdr, heads, k, m), UnlinkRoot(hdr, root, m), j)
  {
    assert Linked(T, hdr, root, m);
    if T[m].free {
      UnlinkComplete(T, hdr, heads, root, k, m, j);
    }
  }

  /** Under the literal split, taking a block empties its list again. */
  lemma TakeLow(g: Geometry, T: Tiling, hdr: Headers, heads: seq<int>, root: map<nat, nat>, m: nat, k: nat)
    requires ListsOk(T, hdr, heads, root) && m in T && T[m].order == k && k <= g.maxOrder && Linkable(hdr, m)
    requires LowDropped(g, T, hdr, heads, k)
    ensures LowDropped(g, Mark(T, m, false), UnlinkHeaders(hdr, m), UnlinkHeads(hdr, heads, k, m), -1)
  {
    UnlinkEffect(T, hdr, heads, root, m);
    assert Linked(T, hdr, root, m);
  }

  lemma LowAny(g: Geometry, T: Tiling, hdr: Headers, heads: seq<int>, ord: nat)
    ensures LowDropped(g, T, hdr, heads, -1) ==> LowDropped(g, T, hdr, heads, ord)
  {}

  /** Everything that taking a block off its list keeps. */
  lemma TakeAll(g: Geometry, T: Tiling, hdr: Headers, heads: seq<int>, root: map<nat, nat>, m: nat, k: nat)
    requires Tiled(g, T) && Coalesced(g, T) && ListsOk(T, hdr, heads, root) && HeadersOk(T, hdr)
             && |heads| == g.maxOrder + 1
    requires m in T && T[m].order == k && k <= g.maxOrder
    ensures Linkable(hdr, m)
    ensures var M, h, hs, rt := Mark(T, m, false), UnlinkHeaders(hdr, m), UnlinkHeads(hdr, heads, k, m),
             UnlinkRoot(hdr, root, m);
            && Tiled(g, M) && Coalesced(g, M) && HeadersOkBut(M, h, m) && Live(M) == Live(T)[m := k]
            && m in M && M[m] == Tile(k, false)
            && m in h && !h[m].isMmap && h[m].size == BlockSize(k) && h[m].next == NULL && h[m].prev == NULL
            && (forall j :: 0 <= j < |heads| && CompleteAt(T, heads, root, j) && (T[m].free || j != k) ==>
                     CompleteAt(M, hs, rt, j))
            && (LowDropped(g, T, hdr, heads, k) ==> LowDropped(g, M, h, hs, -1))
  {
    hide Tiled, Coalesced, ListsOk, UnlinkHeaders, UnlinkRoot, LowDropped, Live, BlockSize;
    assert HeaderOk(T, hdr, m);
    TakeKeeps(g, T, hdr, heads, root, m);
    forall j | 0 <= j < |heads| && CompleteAt(T, heads, root, j) && (T[m].free || j != k)
      ensures CompleteAt(Mark(T, m, false), UnlinkHeads(hdr, heads, k, m), UnlinkRoot(hdr, root, m), j)
    {
      TakeComplete(g, T, hdr, heads, root, m, k, j);
    }
    if LowDropped(g, T, hdr, heads, k) {
      TakeLow(g, T, hdr, heads, root, m, k);
    }
  }

  /** A claimed block whose header says so is an ordinary live block. */
  lemma SettleHeader(T: Tiling, hdr: Headers, heads: seq<int>, root: map<nat, nat>, m: nat, v: Header)
    requires ListsOk(T, hdr, heads, root) && HeadersOkBut(T, hdr, m) && m in T && !T[m].free
    requires v == Header(BlockSize(T[m].order), false, false, NULL, NULL)
    ensures ListsOk(T, hdr[m := v], heads, root) && HeadersOk(T, hdr[m := v])
  {
    ClaimedHeader(T, hdr, heads, root, m, v);
    forall t | t in T
      ensures HeaderOk(T, hdr[m := v], t)
    {
      if t != m {
        assert HeaderOk(T, hdr, t);
      }
    }
  }

  lemma SettleLow(g: Geometry, T: Tiling, hdr: Headers, heads: seq<int>, m: nat, v: Header)
    requires LowDropped(g, T, hdr, heads, -1) && m in T && !T[m].free
    ensures LowDropped(g, T, hdr[m := v], heads, -1)
  {}

  /** Releasing a claimed block whose buddy is not free keeps every invariant. */
  lemma ReleaseKeeps(g: Geometry, T: Tiling, hdr: Headers, heads: seq<int>, root: map<nat, nat>, m: nat, k: nat,
                     p: int, n: int)
    requires Tiled(g, T) && Coalesced(g, T) && ListsOk(T, hdr, heads, root) && HeadersOkBut(T, hdr, m)
             && |heads| == g.maxOrder + 1
    requires m in T && T[m] == Tile(k, false) && m in hdr && hdr[m].size == BlockSize(k) && !hdr[m].isMmap
             && k <= g.maxOrder
    requires k < g.maxOrder ==> !BuddyFree(T, m, k)
    requires Slot(T, hdr, heads, root, k, m, p, n)
    ensures (p == NULL || p in hdr) && (n == NULL || n in hdr)
    ensures var M, h := Mark(T, m, true), LinkHeaders(hdr, m, p, n);
            Tiled(g, M) && Coalesced(g, M) && HeadersOk(M, h) && Live(M) == Live(T) - {m}
  {
    SlotNext(T, hdr, heads, root, k, m, p, n);
    var M, h := Mark(T, m, true), LinkHeaders(hdr, m, p, n);
    MarkTiled(g, T, m, true);
    ReleaseCoalesced(g, T, m);
    ReleaseHeaders(T, hdr, heads, root, m, k, p, n);
  }

  lemma ReleaseComplete(g: Geometry, T: Tiling, hdr: Headers, heads: seq<int>, root: map<nat, nat>, m: nat, k: nat,
                        p: int, n: int)
    requires ListsOk(T, hdr, heads, root) && k < |heads| && m in T && T[m] == Tile(k, false)
             && Slot(T, hdr, heads, root, k, m, p, n)
    requires p == NULL || p in root
    ensures forall j :: 0 <= j < |heads| && CompleteAt(T, heads, root, j)
              ==> CompleteAt(Mark(T, m, true), LinkHeads(heads, k, m, p), LinkRoot(root, m, p, n), j)
  {
    forall j | 0 <= j < |heads| && CompleteAt(T, heads, root, j)
      ensures CompleteAt(Mark(T, m, true), LinkHeads(heads, k, m, p), LinkRoot(root, m, p, n), j)
    {
      LinkComplete(T, hdr, heads, root, k, m, p, n, j);
    }
  }

  /** The headers of the two halves of `m` once the block is cut. */
  function CutHeaders(hdr: Headers, m: nat, k: nat): Headers
    requires m in hdr
  {
    hdr[m := hdr[m].(size := BlockSize(k), isFree := false)]
       [m + BlockSize(k) := Header(BlockSize(k), true, false, NULL, NULL)]
  }

  /** The claimed block `m` of `T` cut at `b`: `S` with the upper half free, `M` with both halves claimed. */
  predicate IsCut(T: Tiling, hdr: Headers, m: nat, k: nat, b: nat, S: Tiling, M: Tiling, h: Headers) {
    && m in T && T[m] == Tile(k + 1, false) && m in hdr && b == m + BlockSize(k)
    && S == Split(T, m) && M == Mark(S, b, false) && h == CutHeaders(hdr, m, k)
  }

  /** Names the parts of a cut. */
  lemma NameCut(T: Tiling, hdr: Headers, m: nat, k: nat) returns (S: Tiling, M: Tiling, h: Headers)
    requires m in T && T[m] == Tile(k + 1, false) && m in hdr
    ensures IsCut(T, hdr, m, k, m + BlockSize(k), S, M, h)
  {
    S, h := Split(T, m), CutHeaders(hdr, m, k);
    M := Mark(S, m + BlockSize(k), false);
  }

  /** Cutting a claimed block leaves two claimed halves, the upper one ready to be released. */
  lemma CutKeeps(g: Geometry, T: Tiling, hdr: Headers, heads: seq<int>, root: map<nat, nat>, m: nat, k: nat, b: nat,
                 S: Tiling, M: Tiling, h: Headers)
    requires IsCut(T, hdr, m, k, b, S, M, h) && !hdr[m].isMmap
    requires Tiled(g, T) && Coalesced(g, T) && ListsOk(T, hdr, heads, root) && HeadersOkBut(T, hdr, m)
    ensures b !in T && b in M && M[b] == Tile(k, false) && m in M && M[m] == Tile(k, false)
    ensures Tiled(g, M) && Packed(g, M) && Coalesced(g, M) && ListsOk(M, h, heads, root) && HeadersOkBut(M, h, b)
    ensures b in h && h[b].size == BlockSize(k) && !h[b].isMmap
    ensures BuddyOf(b, k) == m && Mark(M, b, true) == S
    ensures Live(M) == Live(T)[m := k][b := k] && Live(S) == Live(T)[m := k]
  {
    hide Tiled, Coalesced, ListsOk, HeadersOkBut, BlockSize, CutHeaders, Live, Linked;
    AlignedTile(g, T, m);
    HalvesAreBuddies(m, k);
    SplitTiled(g, T, m);
    SplitCoalesced(g, T, m);
    CutLists(T, hdr, heads, root, m, k);
    CutTags(T, hdr, m, k);
    CutLive(T, m, k);
    MarkTiled(g, S, b, false);
    FewerFreeCoalesced(g, S, M);
    TiledPacked(g, M);
  }

  lemma TiledPacked(g: Geometry, T: Tiling)
    ensures Tiled(g, T) ==> Packed(g, T)
  {}

  lemma AlignedTile(g: Geometry, T: Tiling, m: nat)
    requires Tiled(g, T) && m in T
    ensures TileOk(g, m, T[m])
  {}

  lemma CutTags(T: Tiling, hdr: Headers, m: nat, k: nat)
    requires HeadersOkBut(T, hdr, m) && m in T && T[m] == Tile(k + 1, false) && m in hdr && !hdr[m].isMmap
    requires m + BlockSize(k) !in T
    ensures var b, h := m + BlockSize(k), CutHeaders(hdr, m, k);
            && HeadersOkBut(Mark(Split(T, m), b, false), h, b)
            && b in h && h[b].size == BlockSize(k) && !h[b].isMmap
  {
    assert BlockSize(k) > 0;
    var b, h := m + BlockSize(k), CutHeaders(hdr, m, k);
    var M := Mark(Split(T, m), b, false);
    forall t | t in M && t != b
      ensures HeaderOk(M, h, t)
    {
      if t != m {
        assert HeaderOk(T, hdr, t);
      }
    }
  }

  lemma CutLive(T: Tiling, m: nat, k: nat)
    requires m in T && T[m] == Tile(k + 1, false) && m + BlockSize(k) !in T
    ensures var b := m + BlockSize(k);
            && Live(Mark(Split(T, m), b, false)) == Live(T)[m := k][b := k] && Live(Split(T, m)) == Live(T)[m := k]
            && Mark(Mark(Split(T, m), b, false), b, true) == Split(T, m)
  {
    assert BlockSize(k) > 0;
  }

  lemma CutComplete(T: Tiling, heads: seq<int>, root: map<nat, nat>, m: nat, k: nat)
    requires m in T && T[m] == Tile(k + 1, false) && m + BlockSize(k) !in T
    ensures forall j :: 0 <= j < |heads| && CompleteAt(T, heads, root, j)
              ==> CompleteAt(Mark(Split(T, m), m + BlockSize(k), false), heads, root, j)
  {
    assert BlockSize(k) > 0;
    hide BlockSize;
  }

  /** Cutting puts the upper half on an empty list, so only that list holds anything. */
  lemma CutLow(g: Geometry, T: Tiling, hdr: Headers, heads: seq<int>, root: map<nat, nat>, m: nat, k: nat, p: int,
               n: int)
    requires LowDropped(g, T, hdr, heads, -1)
    requires m in T && T[m] == Tile(k + 1, false) && m in hdr && m + BlockSize(k) !in T && k < g.maxOrder
    requires var b := m + BlockSize(k);
             Slot(Mark(Split(T, m), b, false), CutHeaders(hdr, m, k), heads, root, k, b, p, n)
    ensures var b := m + BlockSize(k);
            p == NULL && n == NULL
            && LowDropped(g, Split(T, m), LinkHeaders(CutHeaders(hdr, m, k), b, p, n), LinkHeads(heads, k, b, p), k)
  {
    assert BlockSize(k) > 0;
    hide BlockSize;
    assert heads[k] == NULL;
    if p != NULL {
      assert false;
    }
  }

  lemma CutLists(T: Tiling, hdr: Headers, heads: seq<int>, root: map<nat, nat>, m: nat, k: nat)
    requires ListsOk(T, hdr, heads, root) && m in T && T[m] == Tile(k + 1, false) && m in hdr && m + BlockSize(k) !in T
    ensures ListsOk(Mark(Split(T, m), m + BlockSize(k), false), CutHeaders(hdr, m, k), heads, root)
  {
    forall t | t in T
      ensures t in hdr && (!T[t].free ==> hdr[t].next == NULL && hdr[t].prev == NULL)
    {
      assert Linked(T, hdr, root, t);
    }
    assert BlockSize(k) > 0;
    hide BlockSize;
    LiveChange(T, hdr, heads, root, Mark(Split(T, m), m + BlockSize(k), false), CutHeaders(hdr, m, k));
  }

  /** Everything that cutting a claimed block keeps, once its upper half sits in its slot. */
  lemma CutReleaseKeeps(g: Geometry, T: Tiling, hdr: Headers, heads: seq<int>, root: map<nat, nat>, m: nat, k: nat,
                        b: nat, S: Tiling, M: Tiling, h: Headers, p: int, n: int)
    requires IsCut(T, hdr, m, k, b, S, M, h) && !hdr[m].isMmap && k < g.maxOrder && |heads| == g.maxOrder + 1
    requires Slot(M, h, heads, root, k, b, p, n)
    requires Tiled(g, T) && Coalesced(g, T) && ListsOk(T, hdr, heads, root) && HeadersOkBut(T, hdr, m)
    ensures b in h && (p == NULL || (p in h && p in root)) && (n == NULL || n in h)
    ensures b in M && Mark(M, b, true) == S && Tiled(g, S) && Coalesced(g, S) && Live(S) == Live(T)[m := k]
    ensures HeadersOk(S, LinkHeaders(h, b, p, n))
    ensures var hs, rt := LinkHeads(heads, k, b, p), LinkRoot(root, b, p, n);
            forall j :: 0 <= j < |heads| && CompleteAt(T, heads, root, j) ==> CompleteAt(S, hs, rt, j)
    ensures LowDropped(g, T, hdr, heads, -1) ==>
              LowDropped(g, S, LinkHeaders(h, b, p, n), LinkHeads(heads, k, b, p), k)
  {
    hide Tiled, Coalesced, ListsOk, HeadersOkBut, HeadersOk, BlockSize, CutHeaders, Live, LowDropped;
    hide LinkHeaders, LinkHeads, LinkRoot, CompleteAt, Split, Mark, BuddyOf, Packed;
    CutKeeps(g, T, hdr, heads, root, m, k, b, S, M, h);
    SplitTiled(g, T, m);
    SplitCoalesced(g, T, m);
    CutComplete(T, heads, root, m, k);
    ReleaseKeeps(g, M, h, heads, root, b, k, p, n);
    ReleaseComplete(g, M, h, heads, root, b, k, p, n);
    if LowDropped(g, T, hdr, heads, -1) {
      CutLow(g, T, hdr, heads, root, m, k, p, n);
    }
  }

  lemma CutWithin(h: nat, T: Tiling, m: nat, k: nat)
    requires m in T && T[m] == Tile(k + 1, false)
    ensures var b := m + BlockSize(k);
            b !in T ==> PayloadWithin(h, Live(T) - {m}, Live(Mark(Split(T, m), b, false)))
  {
    if m + BlockSize(k) !in T {
      SubmapWithin(h, Live(T) - {m}, Live(Mark(Split(T, m), m + BlockSize(k), false)));
    }
  }

  /** `m` is the lowest free block of the smallest order, from `k` up, that has a free block. */
  ghost predicate BestFit(T: Tiling, m: int, k: nat) {
    && m in T && T[m].free && k <= T[m].order
    && forall t :: t in T && T[t].free && T[t].order >= k ==>
         T[m].order < T[t].order || (T[m].order == T[t].order && m <= t)
  }

  lemma OrderUnique(g: Geometry, size: nat, k: nat)
    requires IsOrderFor(g, size, k)
    ensures forall j :: IsOrderFor(g, size, j) ==> j == k
  {}

  lemma EmptyMeansNone(g: Geometry, T: Tiling, hdr: Headers, heads: seq<int>, root: map<nat, nat>, target: nat,
                       ord: nat)
    requires Tiled(g, T) && ListsOk(T, hdr, heads, root) && |heads| == g.maxOrder + 1
    requires AllComplete(T, heads, root)
    requires target <= ord <= g.maxOrder + 1 && forall j :: target <= j < ord ==> heads[j] == NULL
    requires ord <= g.maxOrder ==> heads[ord] != NULL
    ensures ord > g.maxOrder ==> forall t :: t in T && T[t].free ==> T[t].order < target
    ensures ord <= g.maxOrder ==> BestFit(T, heads[ord], target)
  {
    forall t | t in T && T[t].free && T[t].order >= target
      ensures ord <= T[t].order <= g.maxOrder && heads[T[t].order] != NULL && heads[T[t].order] <= t
    {
      AlignedTile(g, T, t);
      assert CompleteAt(T, heads, root, T[t].order);
      HeadIsLowest(T, hdr, heads, root, t);
    }
    if ord <= g.maxOrder {
      HeadTile(T, hdr, heads, root, ord);
    }
  }

  lemma LiveHeader(T: Tiling, hdr: Headers, m: nat)
    requires HeadersOk(T, hdr) && m in T
    ensures m in hdr && hdr[m] == Header(BlockSize(T[m].order), T[m].free, false, hdr[m].next, hdr[m].prev)
    ensures HeadersOkBut(T, hdr, m)
  {
    assert HeaderOk(T, hdr, m);
  }

  /** Every live block starts a top-order block. */
  ghost predicate TopLive(g: Geometry, L: map<nat, nat>) {
    forall t :: t in L ==> Aligned(t, g.maxOrder)
  }

  lemma TopLiveApart(g: Geometry, L: map<nat, nat>, p: nat)
    requires TopLive(g, L) && p in L && forall s :: s in L ==> L[s] <= g.maxOrder
    ensures NoLive(L - {p}, p, p + g.Top())
  {
    forall s | s in L - {p}
      ensures s + BlockSize(L[s]) <= p || p + g.Top() <= s
    {
      BlockSizeMonotone(L[s], g.maxOrder);
      AlignedEnd(s, g.maxOrder, g.maxOrder);
      AlignedEnd(p, g.maxOrder, g.maxOrder);
      if s < p {
        MultiplesOrder(s + g.Top(), p, g.Top());
      } else {
        MultiplesOrder(p + g.Top(), s, g.Top());
      }
    }
  }

  /** When live blocks only start top-order blocks, a freed one coalesces up to the top. */
  lemma ReleasedTop(g: Geometry, M: Tiling, m: nat, p: nat, L: map<nat, nat>)
    requires Tiled(g, M) && Coalesced(g, M) && m in M && M[m].free
    requires TopLive(g, L) && p in L && L[p] <= g.maxOrder && Live(M) == L - {p} && m <= p < End(M, m)
    ensures M[m].order == g.maxOrder
  {
    forall s | s in L
      ensures L[s] <= g.maxOrder
    {
      if s != p {
        assert s in Live(M);
        LiveMember(M, s);
      }
    }
    TopLiveApart(g, L, p);
    AlignedTile(g, M, m);
    TopsEnd(p, g.maxOrder, g.tops);
    var u := FreeRegion(g, M, p, g.maxOrder);
    assert u == m;
    if M[m].order < g.maxOrder {
      BlockSizeMonotone(M[m].order, g.maxOrder);
    }
  }

  /** When live blocks only start top-order blocks, a freed one stays a tile at its own base. */
  lemma ReleasedInPlace(g: Geometry, M: Tiling, m: nat, p: nat, L: map<nat, nat>)
    requires Tiled(g, M) && Coalesced(g, M) && m in M && M[m].free
    requires TopLive(g, L) && p in L && L[p] <= g.maxOrder && Live(M) == L - {p} && m <= p < End(M, m)
    ensures m == p
  {
    ReleasedTop(g, M, m, p, L);
    AlignedTile(g, M, m);
    MultiplesOrder(p, m, g.Top());
  }

  /** When live blocks only start top-order blocks, every other top-order block is one free tile. */
  lemma TopBaseFree(g: Geometry, T: Tiling, m: nat)
    requires Tiled(g, T) && Coalesced(g, T) && TopLive(g, Live(T))
    requires Aligned(m, g.maxOrder) && m < g.Total() && m !in Live(T)
    ensures m in T && T[m] == Tile(g.maxOrder, true)
  {
    var L := Live(T)[m := 0];
    forall s | s in L
      ensures L[s] <= g.maxOrder && Aligned(s, g.maxOrder)
    {
      if s != m {
        LiveMember(T, s);
        AlignedTile(g, T, s);
      }
    }
    TopLiveApart(g, L, m);
    assert L - {m} == Live(T);
    TopsEnd(m, g.maxOrder, g.tops);
    var u := FreeRegion(g, T, m, g.maxOrder);
    AlignedTile(g, T, u);
    BlockSizeMonotone(T[u].order, g.maxOrder);
    SizeDeterminesOrder(T[u].order, g.maxOrder);
  }

  lemma ReleaseLow(g: Geometry, T: Tiling, hdr: Headers, heads: seq<int>, root: map<nat, nat>, m: nat, p: int, n: int)
    requires ListsOk(T, hdr, heads, root) && LowDropped(g, T, hdr, heads, -1)
    requires m in T && T[m] == Tile(g.maxOrder, false) && m in hdr && Slot(T, hdr, heads, root, g.maxOrder, m, p, n)
    ensures (p == NULL || p in hdr) && (n == NULL || n in hdr)
    ensures LowDropped(g, Mark(T, m, true), LinkHeaders(hdr, m, p, n), LinkHeads(heads, g.maxOrder, m, p), -1)
  {
    SlotNext(T, hdr, heads, root, g.maxOrder, m, p, n);
  }

  lemma ClaimedLinks(T: Tiling, hdr: Headers, heads: seq<int>, root: map<nat, nat>, m: nat)
    requires ListsOk(T, hdr, heads, root) && m in T && !T[m].free
    ensures m in hdr && hdr[m].next == NULL && hdr[m].prev == NULL
  {
    assert Linked(T, hdr, root, m);
  }

  lemma ClaimedFlag(T: Tiling, hdr: Headers, m: nat, v: Header)
    requires HeadersOkBut(T, hdr, m)
    ensures HeadersOkBut(T, hdr[m := v], m)
  {
    forall t | t in T && t != m
      ensures HeaderOk(T, hdr[m := v], t)
    {
      assert HeaderOk(T, hdr, t);
    }
  }

  /** The header at a tile other than the claimed one decides whether it is a free buddy. */
  lemma HeaderOfOther(T: Tiling, hdr: Headers, m: nat, b: nat)
    requires HeadersOkBut(T, hdr, m) && b in T && b != m
    ensures b in hdr && forall k :: hdr[b].isFree && hdr[b].size == BlockSize(k) <==> T[b] == Tile(k, true)
  {
    assert HeaderOk(T, hdr, b);
    forall k | BlockSize(T[b].order) == BlockSize(k)
      ensures k == T[b].order
    {
      SizeDeterminesOrder(T[b].order, k);
    }
  }

  lemma GrowContains(m: nat, p: nat, k: nat)
    requires Aligned(m, k) && m <= p < m + BlockSize(k)
    ensures var r := BuddyArith.Base(m, k + 1); r <= p < r + BlockSize(k + 1)
  {
    BuddyFacts(m, k);
    assert BlockSize(k + 1) == 2 * BlockSize(k);
  }

  // ---------- Initialization ----------

  /** A tiling that has gained one claimed tile, ready to be inserted. */
  lemma GainKeeps(g: Geometry, T: Tiling, hdr: Headers, heads: seq<int>, root: map<nat, nat>, m: nat, k: nat)
    requires ListsOk(T, hdr, heads, root) && m !in T && HeadersOk(T, hdr)
    requires Packed(g, T[m := Tile(k, true)])
    ensures var M, h := T[m := Tile(k, false)], hdr[m := Header(BlockSize(k), true, false, NULL, NULL)];
            && Packed(g, M) && ListsOk(M, h, heads, root) && HeadersOkBut(M, h, m)
            && Mark(M, m, true) == T[m := Tile(k, true)]
            && forall j :: 0 <= j < |heads| && CompleteAt(T, heads, root, j) ==> CompleteAt(M, heads, root, j)
  {
    hide BlockSize;
    var M, h := T[m := Tile(k, false)], hdr[m := Header(BlockSize(k), true, false, NULL, NULL)];
    MarkTiled(g, T[m := Tile(k, true)], m, false);
    assert Mark(T[m := Tile(k, true)], m, false) == M;
    forall t | t in T
      ensures t in hdr && (!T[t].free ==> hdr[t].next == NULL && hdr[t].prev == NULL) && HeaderOk(M, h, t)
    {
      assert Linked(T, hdr, root, t) && HeaderOk(T, hdr, t);
    }
    LiveChange(T, hdr, heads, root, M, h);
  }

  lemma StartEmpty(g: Geometry, hdr: Headers, heads: seq<int>, root: map<nat, nat>)
    requires |heads| == g.maxOrder + 1 && forall k :: 0 <= k <= g.maxOrder ==> heads[k] == NULL
    ensures FreshBelow(g, 0) == map[] && 0 % g.Top() == 0 && Aligned(0, g.maxOrder)
    ensures ListsOk(map[], hdr, heads, root) && HeadersOk(map[], hdr) && LowDropped(g, map[], hdr, heads, -1)
    ensures forall k {:trigger CompleteAt(map[], heads, root, k)} :: 0 <= k < |heads| ==>
             CompleteAt(map[], heads, root, k)
  {}

  lemma NoneLive(g: Geometry, a: seq<bv8>, b: seq<bv8>)
    requires |a| == |b|
    ensures TopLive(g, map[]) && Live(map[]) == map[] && Same(g.header, map[], a, b)
  {}

  lemma GainLow(g: Geometry, T: Tiling, hdr: Headers, heads: seq<int>, m: nat)
    requires LowDropped(g, T, hdr, heads, -1) && m !in T
    ensures LowDropped(g, T[m := Tile(g.maxOrder, false)], hdr[m := Header(g.Top(), true, false, NULL, NULL)],
             heads, -1)
  {}

  lemma MulStep(i: nat, n: nat, d: nat)
    requires i < n
    ensures (i + 1) * d == i * d + d <= n * d
  {
    MulMono(i + 1, n, d);
  }

  lemma ReleaseHeaders(T: Tiling, hdr: Headers, heads: seq<int>, root: map<nat, nat>, m: nat, k: nat, p: int, n: int)
    requires HeadersOkBut(T, hdr, m) && m in T && T[m] == Tile(k, false) && m in hdr
             && hdr[m].size == BlockSize(k) && !hdr[m].isMmap
    requires (p == NULL || p in hdr) && (n == NULL || n in hdr)
    ensures HeadersOk(Mark(T, m, true), LinkHeaders(hdr, m, p, n))
  {
    hide LinkHeaders;
    LinkTags(hdr, m, p, n);
    var M, h := Mark(T, m, true), LinkHeaders(hdr, m, p, n);
    forall t | t in M
      ensures HeaderOk(M, h, t)
    {
      if t != m {
        assert HeaderOk(T, hdr, t);
      }
    }
  }

  // ---------- The blocks a user sees ----------

  /** The usable bytes of the live block at `m`. */
  function Usable(h: nat, L: map<nat, nat>, m: nat, bytes: seq<bv8>): seq<bv8>
    requires m in L
  {
    if m + h <= m + BlockSize(L[m]) <= |bytes| then bytes[m + h..m + BlockSize(L[m])] else []
  }

  /** The contents of all live arena blocks, by header offset. */
  function ArenaBlocks(h: nat, L: map<nat, nat>, bytes: seq<bv8>): map<nat, seq<bv8>> {
    map m | m in L :: Usable(h, L, m, bytes)
  }

  lemma UsableSize(g: Geometry, T: Tiling, m: nat, bytes: seq<bv8>)
    requires g.Ok() && Packed(g, T) && m in Live(T) && |bytes| == g.Total()
    ensures |Usable(g.header, Live(T), m, bytes)| + g.header == BlockSize(Live(T)[m])
    ensures m + BlockSize(Live(T)[m]) <= g.Total()
    ensures Usable(g.header, Live(T), m, bytes) == bytes[m + g.header..m + BlockSize(Live(T)[m])]
  {
    LiveMember(T, m);
    assert TileOk(g, m, T[m]);
  }

  lemma SameUsable(h: nat, L: map<nat, nat>, K: map<nat, nat>, m: nat, a: seq<bv8>, b: seq<bv8>)
    requires Same(h, L, a, b) && m in L && m in K && K[m] == L[m]
    ensures Usable(h, L, m, a) == Usable(h, K, m, b)
  {
    forall x | m + h <= x < m + BlockSize(L[m]) <= |a|
      ensures a[x] == b[x]
    {
      assert InPayload(h, L, x);
    }
  }

  /** If the bytes of all blocks of `L` survive, so do the blocks. */
  lemma SameBlocks(h: nat, L: map<nat, nat>, a: seq<bv8>, b: seq<bv8>)
    requires Same(h, L, a, b)
    ensures ArenaBlocks(h, L, a) == ArenaBlocks(h, L, b)
  {
    forall m | m in L
      ensures Usable(h, L, m, a) == Usable(h, L, m, b)
    {
      SameUsable(h, L, L, m, a, b);
    }
  }

  lemma MappedBlocks(g: Geometry, T: Tiling, bytes: seq<bv8>, maps: map<nat, seq<bv8>>, addr: nat, v: seq<bv8>)
    requires Packed(g, T) && addr >= g.Total() && addr !in maps
    ensures var A := ArenaBlocks(g.header, Live(T), bytes);
            addr !in A + maps && A + maps[addr := v] == (A + maps)[addr := v]
  {
    LiveMember(T, addr);
  }

  /** Replacing block `m` of `L` by block `r`, while the other blocks survive. */
  lemma MovedBlocks(h: nat, L: map<nat, nat>, m: nat, r: nat, k: nat, a: seq<bv8>, b: seq<bv8>,
                    maps: map<nat, seq<bv8>>)
    requires Same(h, L - {m}, a, b) && r !in L - {m} && r !in maps && m !in maps
    ensures var K := (L - {m})[r := k];
            ArenaBlocks(h, K, b) + maps == (ArenaBlocks(h, L, a) + maps - {m})[r := Usable(h, K, r, b)]
  {
    hide Usable, Same;
    var rest: map<nat, nat> := L - {m};
    var K := rest[r := k];
    forall t | t in rest
      ensures Usable(h, K, t, b) == Usable(h, L, t, a)
    {
      SameUsable(h, rest, K, t, a, b);
      SameUsable(h, rest, L, t, a, a);
    }
    BesideMaps(ArenaBlocks(h, L, a), ArenaBlocks(h, K, b), maps, m, r, Usable(h, K, r, b));
  }

  lemma BesideMaps(A: map<nat, seq<bv8>>, B: map<nat, seq<bv8>>, maps: map<nat, seq<bv8>>, m: nat, r: nat, u: seq<bv8>)
    requires B == (A - {m})[r := u] && r !in maps && m !in maps
    ensures B + maps == (A + maps - {m})[r := u]
  {}

  lemma GainedBlocks(h: nat, L: map<nat, nat>, r: nat, k: nat, a: seq<bv8>, b: seq<bv8>, maps: map<nat, seq<bv8>>)
    requires Same(h, L, a, b) && r !in L && r !in maps
    ensures ArenaBlocks(h, L[r := k], b) + maps == (ArenaBlocks(h, L, a) + maps)[r := Usable(h, L[r := k], r, b)]
    ensures r !in ArenaBlocks(h, L, a) + maps
  {
    assert L - {r} == L;
    MovedBlocks(h, L, r, r, k, a, b, maps);
    assert ArenaBlocks(h, L, a) + maps - {r} == ArenaBlocks(h, L, a) + maps;
  }

  lemma LostBlocks(h: nat, L: map<nat, nat>, m: nat, a: seq<bv8>, b: seq<bv8>, maps: map<nat, seq<bv8>>)
    requires Same(h, L - {m}, a, b) && m !in maps
    ensures ArenaBlocks(h, L - {m}, b) + maps == ArenaBlocks(h, L, a) + maps - {m}
  {
    forall t | t in L - {m}
      ensures Usable(h, L - {m}, t, b) == Usable(h, L, t, a)
    {
      SameUsable(h, L - {m}, L - {m}, t, a, b);
    }
  }

  // ---------- Writes by users ----------

  /** The headers that survive a write to the bytes from `lo` to `hi`. */
  function Scribbled(h: nat, hdr: Headers, lo: nat, hi: nat): Headers {
    map t | t in hdr && (t + h <= lo || hi <= t) :: hdr[t]
  }

  /** Writing inside the usable bytes of a live block destroys no header that matters. */
  lemma ScribbleKeeps(g: Geometry, T: Tiling, hdr: Headers, heads: seq<int>, root: map<nat, nat>, m: nat, lo: nat,
                      hi: nat)
    requires g.Ok() && Packed(g, T) && ListsOk(T, hdr, heads, root) && HeadersOk(T, hdr) && m in T && !T[m].free
    requires m + g.header <= lo && hi <= End(T, m)
    ensures var s := Scribbled(g.header, hdr, lo, hi);
            && ListsOk(T, s, heads, root) && HeadersOk(T, s)
            && (LowDropped(g, T, hdr, heads, -1) ==> LowDropped(g, T, s, heads, -1))
  {
    var s := Scribbled(g.header, hdr, lo, hi);
    forall t | t in T
      ensures t in hdr && t in s && s[t] == hdr[t] && HeaderOk(T, s, t)
      ensures !T[t].free ==> s[t].next == NULL && s[t].prev == NULL
    {
      assert Linked(T, hdr, root, t) && HeaderOk(T, hdr, t);
      assert TileOk(g, t, T[t]);
      assert t < m ==> End(T, t) <= m;
      assert m < t ==> End(T, m) <= t;
    }
    LiveChange(T, hdr, heads, root, T, s);
  }

  /** Bytes changed only inside block `m` leave the other blocks alone. */
  lemma WriteElsewhere(g: Geometry, T: Tiling, m: nat, a: seq<bv8>, b: seq<bv8>)
    requires g.Ok() && Packed(g, T) && m in T && |a| == |b|
    requires forall x :: 0 <= x < |a| && !(m <= x < End(T, m)) ==> b[x] == a[x]
    ensures Same(g.header, Live(T) - {m}, a, b)
  {
    forall x | 0 <= x < |a| && InPayload(g.header, Live(T) - {m}, x)
      ensures a[x] == b[x]
    {
      var t :| t in Live(T) - {m} && t + g.header <= x < t + BlockSize(Live(T)[t]);
      LiveMember(T, t);
      assert t < m ==> End(T, t) <= m;
      assert m < t ==> End(T, m) <= t;
    }
  }

  // ---------- Sizes ----------

  lemma RoundUp(n: nat, page: nat)
    requires page > 0
    ensures var r := (n + page - 1) / page * page; n <= r < n + page && r % page == 0
  {
    var q := (n + page - 1) / page;
    assert q * page + (n + page - 1) % page == n + page - 1;
    DivUnique(q * page, page, q);
  }

  /**
   * `size_to_order` chooses a fitting order exactly when the request and a header fit into a
   * top-order block, and then the least one.
   */
  lemma OrderFits(g: Geometry, size: nat, k: nat)
    requires IsOrderFor(g, size, k)
    ensures BlockSize(k) >= size + g.header <==> size + g.header <= g.Top()
    ensures forall j :: 0 <= j <= g.maxOrder && BlockSize(j) >= size + g.header ==> k <= j
  {
    BlockSizeMonotone(k, g.maxOrder);
  }

  /** In the gap below the threshold, for every arena, the order found is the top one and does not fit. */
  lemma GapUnfit(g: Geometry, size: nat)
    requires g.Ok() && size < g.Top() < size + g.header
    ensures IsOrderFor(g, size, g.maxOrder) && BlockSize(g.maxOrder) < size + g.header
  {
    forall j | 0 <= j < g.maxOrder
      ensures BlockSize(j) < size + g.header
    {
      BlockSizeMonotone(j, g.maxOrder);
    }
  }

  /**
   * With the constants of the program and any header that it admits, the largest request below the
   * threshold gets the top order, and does not fit unless the header is a single byte.
   */
  lemma GapExample(header: nat)
    requires 0 < header <= 64
    ensures var g := Geometry(10, 32, header);
            && g.Top() == 128 * 1024 && IsOrderFor(g, g.Top() - 1, 10)
            && (BlockSize(10) < g.Top() - 1 + header <==> header > 1)
  {
    var g := Geometry(10, 32, header);
    BlockSizeIsPow2(10);
    assert Pow2(4) == 16;
    assert Pow2(8) == 16 * Pow2(4);
    assert Pow2(12) == 16 * Pow2(8);
    assert Pow2(16) == 16 * Pow2(12);
    forall j | 0 <= j < 10
      ensures BlockSize(j) < g.Top() - 1 + header
    {
      BlockSizeMonotone(j, 10);
    }
  }

  lemma TopLiveGain(g: Geometry, L: map<nat, nat>, m: nat, k: nat)
    requires TopLive(g, L) && Aligned(m, g.maxOrder)
    ensures TopLive(g, L[m := k])
  {}

  lemma LowHeads(g: Geometry, T: Tiling, hdr: Headers, heads: seq<int>, k: nat)
    requires LowDropped(g, T, hdr, heads, -1) && k <= g.maxOrder && heads[k] != NULL
    ensures k == g.maxOrder
  {}

  // ---------- Growing in place ----------

  /** From order `lo` up to order `hi`, every buddy met on the way up from `m` is free. */
  ghost predicate FreePath(T: Tiling, m: nat, lo: nat, hi: nat) {
    forall i {:trigger BuddyArith.Base(m, i)} :: lo <= i < hi ==> BuddyFree(T, BuddyArith.Base(m, i), i)
  }

  /** A merge step uses up the first buddy of the path and leaves the others. */
  lemma FreePathStep(g: Geometry, T: Tiling, m: nat, r: nat, lo: nat, hi: nat)
    requires FreePath(T, m, lo, hi) && lo < hi && r == BuddyArith.Base(m, lo) && r in T
             && T[r] == Tile(lo, false) && Aligned(r, lo)
    ensures BuddyFree(T, r, lo)
    ensures FreePath(Merge(Mark(T, BuddyOf(r, lo), false), r), m, lo + 1, hi)
  {
    assert BuddyFree(T, BuddyArith.Base(m, lo), lo);
    BuddyFacts(r, lo);
    var M := Merge(Mark(T, BuddyOf(r, lo), false), r);
    forall i | lo + 1 <= i < hi
      ensures BuddyFree(M, BuddyArith.Base(m, i), i)
    {
      assert BuddyFree(T, BuddyArith.Base(m, i), i);
    }
  }

  /** The claimed block keeps covering the bytes of the block that grows. */
  lemma GrowWithin(h: nat, L: map<nat, nat>, m: nat, r: nat, k: nat)
    requires m in L && r <= m && m + BlockSize(L[m]) <= r + BlockSize(k) && r !in L - {m}
    ensures PayloadWithin(h, L, (L - {m})[r := k])
  {
    var K := (L - {m})[r := k];
    forall x | InPayload(h, L, x)
      ensures InPayload(h, K, x)
    {
      var t :| t in L && t + h <= x < t + BlockSize(L[t]);
      var w := if t == m then r else t;
      assert w in K && w + h <= x < w + BlockSize(K[w]);
    }
  }

  lemma BaseWithin(m: nat, k: nat, j: nat)
    requires Aligned(m, k) && k <= j
    ensures BuddyArith.Base(m, j) <= m && m + BlockSize(k) <= BuddyArith.Base(m, j) + BlockSize(j)
  {
    BaseFacts(m, j);
    Nested(BuddyArith.Base(m, j), j, m, k);
  }

  lemma TopLiveGrow(g: Geometry, L: map<nat, nat>, m: nat, k: nat)
    requires TopLive(g, L) && m in L && k <= g.maxOrder
    ensures TopLive(g, (L - {m})[BuddyArith.Base(m, k) := k])
  {
    AlignedDown(m, g.maxOrder, k);
    BaseFacts(m, k);
  }

  lemma BaseOfBase(m: nat, k: nat)
    ensures BuddyArith.Base(BuddyArith.Base(m, k), k + 1) == BuddyArith.Base(m, k + 1)
  {
    BaseFacts(m, k);
    BuddyFacts(BuddyArith.Base(m, k), k);
    BaseStep(m, k);
  }

  lemma TopLiveLoss(g: Geometry, L: map<nat, nat>, m: nat)
    requires TopLive(g, L)
    ensures TopLive(g, L - {m})
  {}

  lemma UnmappedBlocks(g: Geometry, T: Tiling, bytes: seq<bv8>, maps: map<nat, seq<bv8>>, m: nat)
    requires Packed(g, T) && m >= g.Total()
    ensures var A := ArenaBlocks(g.header, Live(T), bytes);
            A + (maps - {m}) == A + maps - {m}
  {
    LiveMember(T, m);
  }

  lemma BlockIsLive(h: nat, L: map<nat, nat>, bytes: seq<bv8>, maps: map<nat, seq<bv8>>, m: nat)
    requires m in ArenaBlocks(h, L, bytes) + maps && m !in maps
    ensures m in L && (ArenaBlocks(h, L, bytes) + maps)[m] == Usable(h, L, m, bytes)
  {}

  /** `c` is `b` after the `n` bytes at `src` have been copied to `dst`. */
  predicate Copied(dst: nat, src: nat, n: int, b: seq<bv8>, c: seq<bv8>)
    requires src + n <= |b|
  {
    |c| == |b| && forall x {:trigger c[x]} :: 0 <= x < |b| ==>
             c[x] == if dst <= x < dst + n then b[x - dst + src] else b[x]
  }

  lemma CopiedInPlace(at: nat, n: int, b: seq<bv8>)
    requires at + n <= |b|
    ensures Copied(at, at, n, b, b)
  {}

  /** The old contents of `m` are found at the start of the block `r` that has grown out of it. */
  lemma GrowContents(g: Geometry, T: Tiling, L: map<nat, nat>, m: nat, r: nat, k: nat, a: seq<bv8>, b: seq<bv8>,
                     c: seq<bv8>)
    requires g.Ok() && Packed(g, T) && |a| == g.Total() && m in L && r <= m
             && m + BlockSize(L[m]) <= r + BlockSize(k) <= g.Total()
    requires r !in L - {m} && Live(T) == (L - {m})[r := k]
    requires Same(g.header, L, a, b) && |b| == |a|
             && Copied(r + g.header, m + g.header, BlockSize(L[m]) - g.header, b, c)
    ensures Same(g.header, L - {m}, a, c)
    ensures var u, v := Usable(g.header, L, m, a), Usable(g.header, Live(T), r, c);
            |u| <= |v| && v[..|u|] == u && |u| + g.header == BlockSize(L[m]) && |v| + g.header == BlockSize(k)
  {
    hide Same, PayloadWithin, Live, Packed, InPayload, BlockSize, Usable;
    GrowSame(g, T, L, m, r, k, a, b, c);
    SameUsable(g.header, L, L, m, a, b);
    GrowUsable(g, L, Live(T), m, r, b, c);
  }

  lemma GrowUsable(g: Geometry, L: map<nat, nat>, K: map<nat, nat>, m: nat, r: nat, b: seq<bv8>, c: seq<bv8>)
    requires g.Ok() && |b| == g.Total() && m in L && r in K && r <= m
             && m + BlockSize(L[m]) <= r + BlockSize(K[r]) <= g.Total()
    requires Copied(r + g.header, m + g.header, BlockSize(L[m]) - g.header, b, c)
    ensures var u, v := Usable(g.header, L, m, b), Usable(g.header, K, r, c);
            |u| <= |v| && v[..|u|] == u && |u| + g.header == BlockSize(L[m]) && |v| + g.header == BlockSize(K[r])
  {
    var u, v := Usable(g.header, L, m, b), Usable(g.header, K, r, c);
    forall i | 0 <= i < |u|
      ensures v[i] == u[i]
    {
      assert v[i] == c[r + g.header + i];
    }
  }

  lemma GrowSame(g: Geometry, T: Tiling, L: map<nat, nat>, m: nat, r: nat, k: nat, a: seq<bv8>, b: seq<bv8>,
                 c: seq<bv8>)
    requires g.Ok() && Packed(g, T) && |a| == g.Total() && m in L && r <= m
             && m + BlockSize(L[m]) <= r + BlockSize(k) <= g.Total()
    requires r !in L - {m} && Live(T) == (L - {m})[r := k]
    requires Same(g.header, L, a, b) && |b| == |a|
             && Copied(r + g.header, m + g.header, BlockSize(L[m]) - g.header, b, c)
    ensures Same(g.header, L - {m}, a, c)
  {
    LiveMember(T, r);
    assert Live(T) - {r} == L - {m};
    WriteElsewhere(g, T, r, b, c);
    WithinLess(g.header, L, m);
    WithinSelf(g.header, L - {m});
    SameChain(g.header, L - {m}, L, L - {m}, a, b, c);
  }

  lemma EmptyPath(T: Tiling, m: nat, k: nat)
    ensures FreePath(T, m, k, k)
  {}

  lemma LongerPath(T: Tiling, m: nat, lo: nat, hi: nat)
    requires FreePath(T, m, lo, hi) && BuddyFree(T, BuddyArith.Base(m, hi), hi)
    ensures FreePath(T, m, lo, hi + 1)
  {}

  lemma LeastOrder(g: Geometry, size: nat, k: nat)
    requires k <= g.maxOrder && k > 0 && BlockSize(k) >= size + g.header && BlockSize(k - 1) < size + g.header
    ensures IsOrderFor(g, size, k) && forall j :: IsOrderFor(g, size, j) ==> j == k
  {
    forall j | 0 <= j < k
      ensures BlockSize(j) < size + g.header
    {
      BlockSizeMonotone(j, k - 1);
    }
  }

  /** Some order serves the request and the buddies on the way up to it are all free. */
  ghost predicate CanGrow(g: Geometry, T: Tiling, m: nat, size: nat)
    requires m in T
  {
    exists k: nat :: IsOrderFor(g, size, k) && BlockSize(k) >= size + g.header && FreePath(T, m, T[m].order, k)
  }

  /** Where the simulation stops without success, no sufficient path of free buddies exists. */
  lemma NoPath(g: Geometry, T: Tiling, m: nat, ord: nat, size: nat)
    requires m in T && T[m].order <= ord <= g.maxOrder && BlockSize(ord) < size + g.header
    requires ord < g.maxOrder ==> !BuddyFree(T, BuddyArith.Base(m, ord), ord)
    ensures !CanGrow(g, T, m, size)
  {
    forall k: nat | IsOrderFor(g, size, k) && BlockSize(k) >= size + g.header
      ensures !FreePath(T, m, T[m].order, k)
    {
      if k <= ord {
        BlockSizeMonotone(k, ord);
      } else {
        assert BuddyArith.Base(m, ord) >= 0;
      }
    }
  }

  // ---------- Moving contents ----------

  /**
   * Block `m` of `A` has become block `r` of `B`: the contents are kept up to the smaller of the
   * old size and the request, and every other block is as it was.
   */
  predicate Moved(A: map<nat, seq<bv8>>, B: map<nat, seq<bv8>>, m: nat, r: nat, size: nat) {
    && m in A && r in B && (r == m || r !in A) && B == (A - {m})[r := B[r]]
    && var n := if |A[m]| < size then |A[m]| else size;
       n <= |B[r]| && B[r][..n] == A[m][..n]
  }

  /** Bytes changed only inside live block `n` change that block's contents only. */
  lemma WriteBlocks(g: Geometry, T: Tiling, n: nat, a: seq<bv8>, b: seq<bv8>, maps: map<nat, seq<bv8>>)
    requires g.Ok() && Packed(g, T) && n in Live(T) && |a| == |b| && n !in maps
    requires forall x :: 0 <= x < |a| && !(n <= x < n + BlockSize(Live(T)[n])) ==> b[x] == a[x]
    ensures var L := Live(T);
            ArenaBlocks(g.header, L, b) + maps == (ArenaBlocks(g.header, L, a) + maps)[n := Usable(g.header, L, n, b)]
  {
    LiveMember(T, n);
    WriteElsewhere(g, T, n, a, b);
    var L: map<nat, nat> := Live(T);
    var rest: map<nat, nat> := L - {n};
    assert rest[n := L[n]] == L;
    MovedBlocks(g.header, L, n, n, L[n], a, b, maps);
    assert (ArenaBlocks(g.header, L, a) + maps - {n})[n := Usable(g.header, L, n, b)]
        == (ArenaBlocks(g.header, L, a) + maps)[n := Usable(g.header, L, n, b)];
  }

  lemma CopiedUsable(g: Geometry, T: Tiling, n: nat, m: nat, a: seq<bv8>, b: seq<bv8>)
    requires g.Ok() && Packed(g, T) && n in Live(T) && m in Live(T) && |a| == g.Total()
    requires m + BlockSize(Live(T)[m]) <= |a| && Live(T)[m] <= Live(T)[n]
    requires Copied(n + g.header, m + g.header, BlockSize(Live(T)[m]) - g.header, a, b)
    ensures var L := Live(T);
            var u, v := Usable(g.header, L, m, a), Usable(g.header, L, n, a);
            && |u| <= |v| && Usable(g.header, L, n, b) == u + v[|u|..]
            && forall x :: 0 <= x < |a| && !(n <= x < n + BlockSize(L[n])) ==> b[x] == a[x]
  {
    UsableSize(g, T, n, a);
    UsableSize(g, T, n, b);
    UsableSize(g, T, m, a);
    BlockSizeMonotone(Live(T)[m], Live(T)[n]);
  }

  lemma RemapBlocks(A: map<nat, seq<bv8>>, maps: map<nat, seq<bv8>>, n: nat, v: seq<bv8>)
    ensures A + maps[n := v] == (A + maps)[n := v]
  {}

  /** Copying block `m` to the start of block `n` changes what block `n` holds, and nothing else. */
  lemma CopiedBlocks(g: Geometry, T: Tiling, n: nat, m: nat, a: seq<bv8>, b: seq<bv8>, maps: map<nat, seq<bv8>>)
    requires g.Ok() && Packed(g, T) && n in Live(T) && m in Live(T) && |a| == g.Total() && n !in maps
    requires m + BlockSize(Live(T)[m]) <= |a| && Live(T)[m] <= Live(T)[n]
    requires Copied(n + g.header, m + g.header, BlockSize(Live(T)[m]) - g.header, a, b)
    ensures var L := Live(T);
            var u, v := Usable(g.header, L, m, a), Usable(g.header, L, n, a);
            |u| <= |v| && ArenaBlocks(g.header, L, b) + maps == (ArenaBlocks(g.header, L, a) + maps)[n := u + v[|u|..]]
  {
    hide Usable, Packed, Live, BlockSize, ArenaBlocks;
    CopiedUsable(g, T, n, m, a, b);
    WriteBlocks(g, T, n, a, b, maps);
  }

  /** What a live arena block is: a used tile, a header with its size, and that many bytes less the header. */
  lemma ArenaBlock(g: Geometry, T: Tiling, hdr: Headers, bytes: seq<bv8>, maps: map<nat, seq<bv8>>, m: nat)
    requires g.Ok() && Packed(g, T) && HeadersOk(T, hdr) && |bytes| == g.Total()
    requires m in ArenaBlocks(g.header, Live(T), bytes) + maps && m !in maps
    ensures m in Live(T) && m in T && T[m] == Tile(Live(T)[m], false)
    ensures m in hdr && hdr[m].size == BlockSize(Live(T)[m])
    ensures var u := Usable(g.header, Live(T), m, bytes);
            && (ArenaBlocks(g.header, Live(T), bytes) + maps)[m] == u && |u| + g.header == BlockSize(Live(T)[m])
            && m + BlockSize(Live(T)[m]) <= g.Total()
  {
    hide Packed, HeadersOk, BlockSize, Usable;
    BlockIsLive(g.header, Live(T), bytes, maps, m);
    UsableSize(g, T, m, bytes);
    LiveMember(T, m);
    LiveHeader(T, hdr, m);
  }

  lemma SizeOrder(j: nat, k: nat)
    requires BlockSize(j) <= BlockSize(k)
    ensures j <= k
  {
    if k < j {
      BlockSizeMonotone(k, j);
    }
  }

  lemma TopLiveGrowAny(g: Geometry, L: map<nat, nat>, m: nat)
    requires TopLive(g, L) && m in L
    ensures forall k: nat {:trigger BuddyArith.Base(m, k)} :: k <= g.maxOrder ==>
             TopLive(g, (L - {m})[BuddyArith.Base(m, k) := k])
  {
    forall k: nat | k <= g.maxOrder
      ensures TopLive(g, (L - {m})[BuddyArith.Base(m, k) := k])
    {
      TopLiveGrow(g, L, m, k);
    }
  }

  lemma BlockAtMostTop(g: Geometry, T: Tiling, m: nat, bytes: seq<bv8>)
    requires g.Ok() && Packed(g, T) && m in Live(T) && |bytes| == g.Total()
    ensures |Usable(g.header, Live(T), m, bytes)| + g.header <= g.Top()
  {
    UsableSize(g, T, m, bytes);
    LiveMember(T, m);
    assert TileOk(g, m, T[m]);
    BlockSizeMonotone(T[m].order, g.maxOrder);
  }

  lemma MovedInPlace(A: map<nat, seq<bv8>>, m: nat, size: nat)
    requires m in A && |A[m]| >= size
    ensures Moved(A, A, m, m, size)
  {
    assert (A - {m})[m := A[m]] == A;
  }

  lemma MovedByGrowth(A: map<nat, seq<bv8>>, m: nat, r: nat, v: seq<bv8>, size: nat)
    requires m in A && (r == m || r !in A) && |A[m]| < size && |A[m]| <= |v| && v[..|A[m]|] == A[m]
    ensures Moved(A, (A - {m})[r := v], m, r, size)
  {}

  lemma MovedByCopy(A: map<nat, seq<bv8>>, m: nat, n: nat, v: seq<bv8>, size: nat)
    requires m in A && n !in A && |A[m]| < size && |A[m]| <= |v|
    ensures var w := A[m] + v[|A[m]|..];
            |w| == |v| && Moved(A, A[n := v][n := w] - {m}, m, n, size) && (A[n := v][n := w] - {m})[n] == w
  {
    var w := A[m] + v[|A[m]|..];
    assert A[n := v][n := w] - {m} == (A - {m})[n := w];
    MovedByGrowth(A, m, n, w, size);
  }

  lemma NotABlock(g: Geometry, L: map<nat, nat>, m: nat, r: nat, bytes: seq<bv8>, maps: map<nat, seq<bv8>>)
    requires r !in L - {m} && r < g.Total() && forall a :: a in maps ==> a >= g.Total()
    ensures r == m || r !in ArenaBlocks(g.header, L, bytes) + maps
  {}

  lemma StoredUsable(g: Geometry, T: Tiling, m: nat, i: nat, v: bv8, a: seq<bv8>, b: seq<bv8>)
    requires g.Ok() && Packed(g, T) && m in Live(T) && |a| == g.Total()
    requires i < |Usable(g.header, Live(T), m, a)| && m + g.header + i < |a| && b == a[m + g.header + i := v]
    ensures Usable(g.header, Live(T), m, b) == Usable(g.header, Live(T), m, a)[i := v]
  {
    UsableSize(g, T, m, a);
    UsableSize(g, T, m, b);
  }

  // ---------- Counting ----------

  /** The tiles found by walking the list of order `k` from its head. */
  ghost function ListedOf(T: Tiling, heads: seq<int>, root: map<nat, nat>, k: nat): set<nat>
    requires k < |heads|
  {
    set t | t in T && T[t] == Tile(k, true) && Listed(T, heads, root, t)
  }

  /** All listed tiles of the orders below `n`. */
  ghost function ListedBelow(T: Tiling, heads: seq<int>, root: map<nat, nat>, n: nat): set<nat>
    requires n <= |heads|
  {
    set t | t in T && T[t].order < n && Listed(T, heads, root, t)
  }

  ghost function CountBelow(T: Tiling, heads: seq<int>, root: map<nat, nat>, n: nat): nat
    requires n <= |heads|
  {
    if n == 0 then 0 else CountBelow(T, heads, root, n - 1) + |ListedOf(T, heads, root, n - 1)|
  }

  lemma {:induction false} CountBelowIsCount(T: Tiling, heads: seq<int>, root: map<nat, nat>, n: nat)
    requires n <= |heads|
    ensures CountBelow(T, heads, root, n) == |ListedBelow(T, heads, root, n)|
    decreases n
  {
    if n == 0 {
      assert ListedBelow(T, heads, root, 0) == {};
    } else {
      CountBelowIsCount(T, heads, root, n - 1);
      var a, b := ListedBelow(T, heads, root, n - 1), ListedOf(T, heads, root, n - 1);
      assert ListedBelow(T, heads, root, n) == a + b && a !! b;
    }
  }

  /** The free tiles. */
  function FreeTiles(T: Tiling): set<nat> {
    set t | t in T && T[t].free
  }

  /** On complete lists, counting entries counts free tiles. */
  lemma ListedIsFree(g: Geometry, T: Tiling, heads: seq<int>, root: map<nat, nat>)
    requires Packed(g, T) && |heads| == g.maxOrder + 1
    requires AllComplete(T, heads, root)
    ensures ListedBelow(T, heads, root, |heads|) == FreeTiles(T)
  {
    forall t | t in T && T[t].free
      ensures T[t].order < |heads| && Listed(T, heads, root, t)
    {
      assert TileOk(g, t, T[t]);
      assert CompleteAt(T, heads, root, T[t].order);
    }
  }

  /** The usable bytes of the first `n` orders' listed tiles. */
  ghost function BytesBelow(h: nat, T: Tiling, heads: seq<int>, root: map<nat, nat>, n: nat): int
    requires n <= |heads|
  {
    if n == 0 then 0
    else BytesBelow(h, T, heads, root, n - 1) + |ListedOf(T, heads, root, n - 1)| * (BlockSize(n - 1) - h)
  }

  /** The usable bytes of a set of tiles. */
  ghost function UsableSum(h: nat, T: Tiling, s: set<nat>): int
    requires s <= T.Keys
    decreases |s|
  {
    if s == {} then 0
    else
      var t :| t in s;
      UsableSum(h, T, s - {t}) + BlockSize(T[t].order) - h
  }

  lemma {:induction false} UsableWithout(h: nat, T: Tiling, s: set<nat>, t: nat)
    requires s <= T.Keys && t in s
    ensures UsableSum(h, T, s) == UsableSum(h, T, s - {t}) + BlockSize(T[t].order) - h
    decreases |s|
  {
    hide BlockSize;
    var u :| u in s && UsableSum(h, T, s) == UsableSum(h, T, s - {u}) + BlockSize(T[u].order) - h;
    if u != t {
      UsableWithout(h, T, s - {u}, t);
      UsableWithout(h, T, s - {t}, u);
      assert s - {u} - {t} == s - {t} - {u};
    }
  }

  /** Adding tiles of one order adds their number times the usable bytes of one. */
  lemma {:induction false} UsablePlus(h: nat, T: Tiling, s: set<nat>, b: set<nat>, k: nat)
    requires s <= T.Keys && b <= T.Keys && s !! b && forall t :: t in b ==> T[t].order == k
    ensures UsableSum(h, T, s + b) == UsableSum(h, T, s) + |b| * (BlockSize(k) - h)
    decreases |b|
  {
    hide BlockSize, UsableSum;
    if b == {} {
      assert s + b == s;
    } else {
      var t :| t in b;
      UsableWithout(h, T, s + b, t);
      assert s + b - {t} == s + (b - {t});
      UsablePlus(h, T, s, b - {t}, k);
      OneMoreTimes(|b - {t}|, |b|, BlockSize(k) - h);
    }
  }

  lemma OneMoreTimes(m: int, n: int, d: int)
    requires n == m + 1
    ensures n * d == m * d + d
  {}

  /** Summing order by order is summing over the listed tiles. */
  lemma {:induction false} BytesBelowIsSum(h: nat, T: Tiling, heads: seq<int>, root: map<nat, nat>, n: nat)
    requires n <= |heads|
    ensures ListedBelow(T, heads, root, n) <= T.Keys
    ensures BytesBelow(h, T, heads, root, n) == UsableSum(h, T, ListedBelow(T, heads, root, n))
    decreases n
  {
    hide BlockSize;
    if n == 0 {
      assert ListedBelow(T, heads, root, 0) == {};
    } else {
      BytesBelowIsSum(h, T, heads, root, n - 1);
      var a, b := ListedBelow(T, heads, root, n - 1), ListedOf(T, heads, root, n - 1);
      assert ListedBelow(T, heads, root, n) == a + b && a !! b;
      UsablePlus(h, T, a, b, n - 1);
    }
  }

  lemma HeadListed(T: Tiling, hdr: Headers, heads: seq<int>, root: map<nat, nat>, k: nat)
    requires ListsOk(T, hdr, heads, root) && k < |heads| && heads[k] != NULL
    ensures heads[k] >= 0 && heads[k] in ListedOf(T, heads, root, k)
    ensures forall t :: t in ListedOf(T, heads, root, k) ==> heads[k] <= t
  {
    HeadTile(T, hdr, heads, root, k);
    assert HeadOk(T, hdr, heads, k);
    assert Linked(T, hdr, root, heads[k]);
    forall t | t in ListedOf(T, heads, root, k)
      ensures heads[k] <= t
    {
      assert Linked(T, hdr, root, t);
    }
  }

  lemma NoneListed(T: Tiling, heads: seq<int>, root: map<nat, nat>, k: nat)
    requires k < |heads| && heads[k] == NULL
    ensures ListedOf(T, heads, root, k) == {}
  {}

  /** The walk misses nothing: no listed tile lies between a tile and its successor. */
  lemma NextListed(g: Geometry, T: Tiling, hdr: Headers, heads: seq<int>, root: map<nat, nat>, k: nat, m: nat)
    requires Packed(g, T) && ListsOk(T, hdr, heads, root) && k < |heads| && m in ListedOf(T, heads, root, k)
    ensures m in hdr && m < g.Total()
    ensures hdr[m].next != NULL ==> hdr[m].next > m && hdr[m].next in ListedOf(T, heads, root, k)
    ensures forall t :: t in ListedOf(T, heads, root, k) && t > m ==> hdr[m].next != NULL && hdr[m].next <= t
  {
    assert TileOk(g, m, T[m]);
    assert Linked(T, hdr, root, m);
    if hdr[m].next != NULL {
      assert Linked(T, hdr, root, hdr[m].next);
    }
    forall t | t in ListedOf(T, heads, root, k) && t > m
      ensures hdr[m].next != NULL && hdr[m].next <= t
    {
      NextIsLeast(T, hdr, heads, root, m, t);
    }
  }

  /** The top list is empty exactly when no top-order block is free. */
  lemma TopListed(g: Geometry, T: Tiling, hdr: Headers, heads: seq<int>, root: map<nat, nat>)
    requires ListsOk(T, hdr, heads, root) && |heads| == g.maxOrder + 1 && CompleteAt(T, heads, root, g.maxOrder)
    ensures heads[g.maxOrder] != NULL <==> exists t :: t in T && T[t] == Tile(g.maxOrder, true)
  {
    if heads[g.maxOrder] != NULL {
      HeadTile(T, hdr, heads, root, g.maxOrder);
    } else {
      forall t | t in T
        ensures T[t] != Tile(g.maxOrder, true)
      {
        if T[t] == Tile(g.maxOrder, true) {
          HeadIsLowest(T, hdr, heads, root, t);
        }
      }
    }
  }

  /** The head of the top list is the lowest free top-order block. */
  lemma TopIsBest(g: Geometry, T: Tiling, hdr: Headers, heads: seq<int>, root: map<nat, nat>)
    requires Tiled(g, T) && ListsOk(T, hdr, heads, root) && |heads| == g.maxOrder + 1
    requires CompleteAt(T, heads, root, g.maxOrder) && heads[g.maxOrder] != NULL
    ensures BestFit(T, heads[g.maxOrder], g.maxOrder)
  {
    hide Packed, Tiled, ListsOk, CompleteAt;
    HeadTile(T, hdr, heads, root, g.maxOrder);
    forall t | t in T && T[t].free && T[t].order >= g.maxOrder
      ensures T[t].order == g.maxOrder && heads[g.maxOrder] <= t
    {
      AlignedTile(g, T, t);
      HeadIsLowest(T, hdr, heads, root, t);
    }
  }

  lemma {:induction false} OrderExists(g: Geometry, size: nat, k: nat)
    requires k <= g.maxOrder && forall j :: 0 <= j < k ==> BlockSize(j) < size + g.header
    ensures exists o: nat :: IsOrderFor(g, size, o)
    decreases g.maxOrder - k
  {
    if BlockSize(k) < size + g.header && k < g.maxOrder {
      OrderExists(g, size, k + 1);
    } else {
      assert IsOrderFor(g, size, k);
    }
  }

  /** A fresh arena serves any request. */
  lemma FreshServes(g: Geometry, size: nat)
    requires g.Ok()
    ensures 0 in Fresh(g) && Fresh(g)[0] == Tile(g.maxOrder, true)
    ensures exists o: nat :: IsOrderFor(g, size, o) && o <= g.maxOrder
  {
    FreshTiled(g);
    FirstTile(g, Fresh(g));
    OrderExists(g, size, 0);
  }
}
