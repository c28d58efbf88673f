/**
 * The arena as a set of aligned blocks.  A tiling records, for the offset of every block header
 * reached from the heap base, the order of the block and whether it is free.
 */
module Tilings {
  import opened BuddyArith

  /** The constants of the allocator: top order, number of top-order blocks, header size. */
  datatype Geometry = Geometry(maxOrder: nat, tops: nat, header: nat) {
    predicate Ok() {
      tops > 0 && 0 < header <= 64
    }

    function Total(): nat {
      tops * BlockSize(maxOrder)
    }

    function Top(): nat {
      BlockSize(maxOrder)
    }
  }

  datatype Tile = Tile(order: nat, free: bool)

  type Tiling = map<nat, Tile>

  function End(T: Tiling, t: nat): nat
    requires t in T
  {
    t + BlockSize(T[t].order)
  }

  predicate TileOk(g: Geometry, t: nat, tile: Tile) {
    tile.order <= g.maxOrder && Aligned(t, tile.order) && t + BlockSize(tile.order) <= g.Total()
  }

  /** Every tile is an aligned block of the arena, and no two tiles overlap. */
  ghost predicate Packed(g: Geometry, T: Tiling) {
    && (forall t :: t in T ==> TileOk(g, t, T[t]))
    && (forall t, u :: t in T && u in T && t < u ==> End(T, t) <= u)
  }

  ghost predicate Covered(T: Tiling, x: int) {
    exists t :: t in T && t <= x < End(T, t)
  }

  /** The tiles partition the arena. */
  ghost predicate Tiled(g: Geometry, T: Tiling) {
    Packed(g, T) && forall x :: 0 <= x < g.Total() ==> Covered(T, x)
  }

  /** The live (allocated) blocks with their orders. */
  function Live(T: Tiling): map<nat, nat> {
    map t | t in T && !T[t].free :: T[t].order
  }

  /** The buddy of the block at `x` is a free tile of the same order. */
  predicate BuddyFree(T: Tiling, x: nat, order: nat) {
    var b := BuddyOf(x, order);
    b in T && T[b] == Tile(order, true)
  }

  predicate Lonely(g: Geometry, T: Tiling, t: nat)
    requires t in T
  {
    T[t].free && T[t].order < g.maxOrder ==> !BuddyFree(T, t, T[t].order)
  }

  /** No two buddies below the top order are both free. */
  ghost predicate Coalesced(g: Geometry, T: Tiling) {
    forall t {:trigger Lonely(g, T, t)} :: t in T ==> Lonely(g, T, t)
  }

  // ---------- The key buddy lemma ----------

  lemma CoverOf(T: Tiling, x: nat) returns (u: nat)
    requires Covered(T, x)
    ensures u in T && u <= x < End(T, u)
  {
    u :| u in T && u <= x < End(T, u);
  }

  /** A tile that meets an aligned block of the arena either contains it or lies inside it. */
  lemma TileNesting(g: Geometry, T: Tiling, u: nat, x: nat, k: nat)
    requires Packed(g, T) && u in T && Aligned(x, k)
    requires u < x + BlockSize(k) && x < End(T, u)
    ensures T[u].order >= k ==> u <= x && x + BlockSize(k) <= End(T, u)
    ensures T[u].order <= k ==> x <= u && End(T, u) <= x + BlockSize(k)
    ensures T[u].order == k ==> u == x
  {
    if T[u].order >= k {
      Nested(u, T[u].order, x, k);
    }
    if T[u].order <= k {
      Nested(x, k, u, T[u].order);
    }
  }

  /**
   * The buddy of a block below the top order is inside the arena, and once the block holds a
   * tile, it is itself the start of a tile of at most the same order: following buddies never
   * leaves the arena and never reads a header that is not there.
   */
  lemma BlockBuddyIsTile(g: Geometry, T: Tiling, m: nat, x: nat, k: nat)
    requires Tiled(g, T) && m in T && T[m].order <= k < g.maxOrder && Aligned(x, k) && x <= m < x + BlockSize(k)
    ensures var b := BuddyOf(x, k);
            && b + BlockSize(k) <= g.Total() && b in T && T[b].order <= k && b != x && b != m
  {
    BuddyFacts(x, k);
    InsideArena(x, k, g.maxOrder, g.tops);
    var b := BuddyOf(x, k);
    assert Covered(T, b);
    var u := CoverOf(T, b);
    if T[u].order > k {
      assert BlockSize(k + 1) == 2 * BlockSize(k);
      TileNesting(g, T, u, Base(x, k + 1), k + 1);
      TileNesting(g, T, m, x, k);
      assert false;
    } else {
      TileNesting(g, T, u, b, k);
    }
  }

  /** The key buddy lemma, for a tile. */
  lemma BuddyIsTile(g: Geometry, T: Tiling, t: nat)
    requires Tiled(g, T) && t in T && T[t].order < g.maxOrder
    ensures var b := BuddyOf(t, T[t].order);
            && b < g.Total() && b in T && T[b].order <= T[t].order && b != t
  {
    assert TileOk(g, t, T[t]);
    BlockBuddyIsTile(g, T, t, t, T[t].order);
  }

  // ---------- The three ways a tiling changes ----------

  /** The block at `t` and its buddy become one live block of the next order. */
  function Merge(T: Tiling, t: nat): Tiling
    requires t in T
  {
    var k := T[t].order;
    (map u | u in T && u != t && u != BuddyOf(t, k) :: T[u])[Base(t, k + 1) := Tile(k + 1, false)]
  }

  /** The block at `t` becomes a live lower half and a free upper half. */
  function Split(T: Tiling, t: nat): Tiling
    requires t in T && T[t].order > 0
  {
    var k := T[t].order - 1;
    T[t := Tile(k, false)][t + BlockSize(k) := Tile(k, true)]
  }

  function Mark(T: Tiling, t: nat, free: bool): Tiling
    requires t in T
  {
    T[t := T[t].(free := free)]
  }

  lemma MarkTiled(g: Geometry, T: Tiling, t: nat, free: bool)
    requires t in T
    ensures Packed(g, T) ==> Packed(g, Mark(T, t, free))
    ensures Tiled(g, T) ==> Tiled(g, Mark(T, t, free))
  {
    if Tiled(g, T) {
      var M := Mark(T, t, free);
      forall x | 0 <= x < g.Total()
        ensures Covered(M, x)
      {
        assert Covered(T, x);
        var u := CoverOf(T, x);
        assert u in M && u <= x < End(M, u);
      }
    }
  }

  /** The block at `t` and its buddy are tiles of one order, below the top. */
  predicate Mergeable(g: Geometry, T: Tiling, t: nat) {
    && t in T && T[t].order < g.maxOrder
    && BuddyOf(t, T[t].order) in T && T[BuddyOf(t, T[t].order)].order == T[t].order
  }

  lemma MergePacked(g: Geometry, T: Tiling, t: nat)
    requires Packed(g, T) && Mergeable(g, T, t)
    ensures Packed(g, Merge(T, t))
  {
    hide Aligned, BlockSize, BuddyOf, Base;
    var k := T[t].order;
    BuddyFacts(t, k);
    var b, p, M := BuddyOf(t, k), Base(t, k + 1), Merge(T, t);
    NextSize(k);
    assert TileOk(g, t, T[t]) && TileOk(g, b, T[b]);
    forall u, v | u in M && v in M && u < v
      ensures End(M, u) <= v
    {
      assert u != p ==> u in T && M[u] == T[u] && u != t && u != b;
      assert v != p ==> v in T && v != t && v != b;
    }
  }

  lemma MergeCovers(g: Geometry, T: Tiling, t: nat, x: nat)
    requires Packed(g, T) && Mergeable(g, T, t) && Covered(T, x)
    ensures Covered(Merge(T, t), x)
  {
    var k, M := T[t].order, Merge(T, t);
    BuddyFacts(t, k);
    assert BlockSize(k + 1) == 2 * BlockSize(k);
    var u := CoverOf(T, x);
    var w := if u == t || u == BuddyOf(t, k) then Base(t, k + 1) else u;
    assert u != w || w == Base(t, k + 1) || M[w] == T[u];
    assert w in M && w <= x < End(M, w);
  }

  lemma MergeTiled(g: Geometry, T: Tiling, t: nat)
    requires Tiled(g, T) && Mergeable(g, T, t)
    ensures Tiled(g, Merge(T, t))
  {
    MergePacked(g, T, t);
    forall x | 0 <= x < g.Total()
      ensures Covered(Merge(T, t), x)
    {
      assert Covered(T, x);
      MergeCovers(g, T, t, x);
    }
  }

  lemma SplitPacked(g: Geometry, T: Tiling, t: nat)
    requires Packed(g, T) && t in T && T[t].order > 0
    ensures Packed(g, Split(T, t)) && t + BlockSize(T[t].order - 1) !in T
  {
    hide Aligned, BlockSize, BuddyOf, Base;
    var k := T[t].order - 1;
    assert TileOk(g, t, T[t]);
    HalvesAreBuddies(t, k);
    NextSize(k);
    var M, b := Split(T, t), t + BlockSize(k);
    forall u, v | u in M && v in M && u < v
      ensures End(M, u) <= v
    {
      assert u != t && u != b ==> u in T && M[u] == T[u];
      assert v != t && v != b ==> v in T && M[v] == T[v];
    }
  }

  lemma SplitCovers(T: Tiling, t: nat, x: nat)
    requires t in T && T[t].order > 0 && t + BlockSize(T[t].order - 1) !in T && Covered(T, x)
    ensures Covered(Split(T, t), x)
  {
    var k := T[t].order - 1;
    assert BlockSize(k + 1) == 2 * BlockSize(k);
    hide BlockSize;
    var u := CoverOf(T, x);
    var w := if u == t && x >= t + BlockSize(k) then t + BlockSize(k) else u;
    assert w in Split(T, t) && w <= x < End(Split(T, t), w);
  }

  lemma SplitTiled(g: Geometry, T: Tiling, t: nat)
    requires Tiled(g, T) && t in T && T[t].order > 0
    ensures Tiled(g, Split(T, t)) && t + BlockSize(T[t].order - 1) !in T
  {
    SplitPacked(g, T, t);
    forall x | 0 <= x < g.Total()
      ensures Covered(Split(T, t), x)
    {
      assert Covered(T, x);
      SplitCovers(T, t, x);
    }
  }

  // ---------- Coalescing ----------

  /** Losing free tiles keeps a tiling coalesced. */
  lemma FewerFreeCoalesced(g: Geometry, T: Tiling, M: Tiling)
    requires Coalesced(g, T)
    requires forall t :: t in M && M[t].free ==> t in T && T[t] == M[t]
    ensures Coalesced(g, M)
  {
    forall t | t in M
      ensures Lonely(g, M, t)
    {
      if M[t].free {
        assert Lonely(g, T, t);
      }
    }
  }

  lemma SplitCoalesced(g: Geometry, T: Tiling, t: nat)
    requires Tiled(g, T) && Coalesced(g, T) && t in T && T[t].order > 0
    ensures Coalesced(g, Split(T, t))
  {
    hide Aligned, BlockSize, BuddyOf, Base, Covered;
    var k := T[t].order - 1;
    HalvesAreBuddies(t, k);
    var M, b := Split(T, t), t + BlockSize(k);
    forall u | u in M
      ensures Lonely(g, M, u)
    {
      if u != b && M[u].free {
        assert Lonely(g, T, u);
        BuddyFacts(u, M[u].order);
      }
    }
  }

  /** A block may be marked free exactly when its buddy is not a free tile of its order. */
  lemma ReleaseCoalesced(g: Geometry, T: Tiling, t: nat)
    requires Packed(g, T) && Coalesced(g, T) && t in T
    requires T[t].order < g.maxOrder ==> !BuddyFree(T, t, T[t].order)
    ensures Coalesced(g, Mark(T, t, true))
  {
    var M := Mark(T, t, true);
    BuddyFacts(t, T[t].order);
    forall u | u in M
      ensures Lonely(g, M, u)
    {
      if M[u].free && u != t {
        assert Lonely(g, T, u);
        BuddyFacts(u, M[u].order);
      }
    }
  }

  // ---------- Canonical form ----------

  /** No live block of `L` meets the addresses from `lo` to `hi`. */
  ghost predicate NoLive(L: map<nat, nat>, lo: int, hi: int) {
    forall s :: s in L ==> s + BlockSize(L[s]) <= lo || hi <= s
  }

  /** In a coalesced tiling, a block without live tiles lies inside a single free tile. */
  lemma {:induction false} FreeRegion(g: Geometry, T: Tiling, x: nat, k: nat) returns (u: nat)
    requires Tiled(g, T) && Coalesced(g, T)
    requires Aligned(x, k) && k <= g.maxOrder && x + BlockSize(k) <= g.Total()
    requires NoLive(Live(T), x, x + BlockSize(k))
    ensures u in T && T[u].free && u <= x && x + BlockSize(k) <= End(T, u)
    decreases k
  {
    hide Live, NoLive;
    assert Covered(T, x);
    if k == 0 {
      u := CoverOf(T, x);
      TileNesting(g, T, u, x, 0);
      NotLiveHere(T, u, x, BlockSize(0));
    } else {
      HalvesAreBuddies(x, k - 1);
      var y := x + BlockSize(k - 1);
      assert BlockSize(k) == 2 * BlockSize(k - 1);
      NoLiveSub(Live(T), x, x + BlockSize(k), x, y);
      NoLiveSub(Live(T), x, x + BlockSize(k), y, x + BlockSize(k));
      u := FreeRegion(g, T, x, k - 1);
      var v := FreeRegion(g, T, y, k - 1);
      OneFreeTile(g, T, x, k, u, v);
    }
  }

  /** Free tiles over both halves of a block are one tile over the whole block. */
  lemma OneFreeTile(g: Geometry, T: Tiling, x: nat, k: nat, u: nat, v: nat)
    requires Packed(g, T) && Coalesced(g, T) && Aligned(x, k) && 0 < k <= g.maxOrder
    requires u in T && v in T && T[u].free && T[v].free
    requires u <= x && x + BlockSize(k - 1) <= End(T, u)
    requires v <= x + BlockSize(k - 1) && x + 2 * BlockSize(k - 1) <= End(T, v)
    ensures x + BlockSize(k) <= End(T, u)
  {
    hide Live;
    assert BlockSize(k) == 2 * BlockSize(k - 1);
    if u != v {
      HalvesAreBuddies(x, k - 1);
      HalvesFull(g, T, x, k, u);
      HalvesFull(g, T, x, k, v);
      BuddiesBothFree(g, T, x, k - 1);
    }
  }

  lemma NoLiveSub(L: map<nat, nat>, lo: int, hi: int, a: int, b: int)
    requires NoLive(L, lo, hi) && lo <= a <= b <= hi
    ensures NoLive(L, a, b)
  {}

  lemma NotLiveHere(T: Tiling, u: nat, x: nat, n: nat)
    requires u in T && n > 0 && NoLive(Live(T), x, x + n) && u < x + n && x < End(T, u)
    ensures T[u].free
  {
    assert !T[u].free ==> u in Live(T);
  }

  /** A tile containing exactly one half of an aligned block is that half. */
  lemma HalvesFull(g: Geometry, T: Tiling, x: nat, k: nat, u: nat)
    requires Packed(g, T) && u in T && k > 0 && Aligned(x, k)
    requires var y := x + BlockSize(k - 1);
             || (u <= x && y <= End(T, u))
             || (u <= y && y + BlockSize(k - 1) <= End(T, u))
    ensures (u <= x && x + BlockSize(k) <= End(T, u))
            || (T[u].order == k - 1 && (u == x || u == x + BlockSize(k - 1)))
  {
    var y := x + BlockSize(k - 1);
    assert BlockSize(k) == 2 * BlockSize(k - 1);
    HalvesAreBuddies(x, k - 1);
    TileNesting(g, T, u, x, k);
    if T[u].order < k {
      BlockSizeMonotone(T[u].order, k - 1);
    }
  }

  lemma BuddiesBothFree(g: Geometry, T: Tiling, x: nat, k: nat)
    requires Coalesced(g, T) && Aligned(x, k + 1) && k < g.maxOrder
    ensures !(x in T && T[x] == Tile(k, true) && BuddyFree(T, x, k))
  {
    if x in T {
      assert Lonely(g, T, x);
    }
  }

  lemma LiveApart(g: Geometry, T: Tiling, t: nat)
    requires Packed(g, T) && t in T && T[t].free
    ensures NoLive(Live(T), t, End(T, t))
  {}

  lemma FreeTileDetermined(g: Geometry, A: Tiling, B: Tiling, t: nat)
    requires Tiled(g, A) && Tiled(g, B) && Coalesced(g, A) && Coalesced(g, B)
    requires Live(A) == Live(B) && t in A && A[t].free
    ensures t in B && B[t] == A[t]
  {
    LiveApart(g, A, t);
    var u := FreeRegion(g, B, t, A[t].order);
    LiveApart(g, B, u);
    var v := FreeRegion(g, A, u, B[u].order);
    assert v == t;
    assert u == t;
    SizeDeterminesOrder(A[t].order, B[t].order);
  }

  lemma SizeDeterminesOrder(j: nat, k: nat)
    requires BlockSize(j) == BlockSize(k)
    ensures j == k
  {
    if j < k {
      BlockSizeMonotone(j, k);
    } else if k < j {
      BlockSizeMonotone(k, j);
    }
  }

  /**
   * History independence: the live blocks determine the whole tiling.  Whatever sequence of
   * calls produced them, the free blocks are the same.
   */
  lemma CanonicalTiling(g: Geometry, A: Tiling, B: Tiling)
    requires Tiled(g, A) && Tiled(g, B) && Coalesced(g, A) && Coalesced(g, B)
    requires Live(A) == Live(B)
    ensures A == B
  {
    forall t | t in A || t in B
      ensures t in A && t in B && A[t] == B[t]
    {
      if t in A && A[t].free {
        FreeTileDetermined(g, A, B, t);
      } else if t in B && B[t].free {
        FreeTileDetermined(g, B, A, t);
      } else {
        LiveMember(A, t);
        LiveMember(B, t);
      }
    }
  }

  lemma LiveMember(T: Tiling, t: nat)
    ensures t in Live(T) <==> t in T && !T[t].free
    ensures t in Live(T) ==> Live(T)[t] == T[t].order
  {}

  /** The first `n` bytes of the arena as `buddy_init` leaves them: free top-order tiles. */
  function FreshBelow(g: Geometry, n: nat): Tiling {
    map i | 0 <= i < n && Aligned(i, g.maxOrder) :: Tile(g.maxOrder, true)
  }

  /** The arena as `buddy_init` leaves it: every top-order block is one free tile. */
  function Fresh(g: Geometry): Tiling {
    FreshBelow(g, g.Total())
  }

  lemma FreshPacked(g: Geometry, n: nat)
    requires n <= g.Total()
    ensures Packed(g, FreshBelow(g, n)) && Coalesced(g, FreshBelow(g, n)) && Live(FreshBelow(g, n)) == map[]
  {
    var F := FreshBelow(g, n);
    forall t | t in F
      ensures TileOk(g, t, F[t]) && Lonely(g, F, t)
    {
      TopsEnd(t, g.maxOrder, g.tops);
    }
    forall t, u | t in F && u in F && t < u
      ensures End(F, t) <= u
    {
      AlignedEnd(t, g.maxOrder, g.maxOrder);
      MultiplesOrder(t + g.Top(), u, g.Top());
    }
  }

  /** One more top-order block. */
  lemma FreshStep(g: Geometry, n: nat)
    requires Aligned(n, g.maxOrder) && n + g.Top() <= g.Total()
    ensures n !in FreshBelow(g, n)
    ensures FreshBelow(g, n + g.Top()) == FreshBelow(g, n)[n := Tile(g.maxOrder, true)]
  {
    forall i | n < i < n + g.Top()
      ensures !Aligned(i, g.maxOrder)
    {
      if Aligned(i, g.maxOrder) {
        AlignedEnd(n, g.maxOrder, g.maxOrder);
        MultiplesOrder(n + g.Top(), i, g.Top());
      }
    }
  }

  lemma FreshTiled(g: Geometry)
    ensures Tiled(g, Fresh(g)) && Coalesced(g, Fresh(g)) && Live(Fresh(g)) == map[]
  {
    var F := Fresh(g);
    FreshPacked(g, g.Total());
    forall x | 0 <= x < g.Total()
      ensures Covered(F, x)
    {
      BaseFacts(x, g.maxOrder);
      var t := Base(x, g.maxOrder);
      assert t in F && t <= x < End(F, t);
    }
  }

  /** With nothing live, the tiling is the initial one, whatever happened before. */
  lemma NothingLive(g: Geometry, T: Tiling)
    requires Tiled(g, T) && Coalesced(g, T) && Live(T) == map[]
    ensures T == Fresh(g)
  {
    FreshTiled(g);
    CanonicalTiling(g, T, Fresh(g));
  }

  /** Tiles follow each other without gaps: a tile ends where the next begins, or at the end. */
  lemma NextTile(g: Geometry, T: Tiling, t: nat)
    requires Tiled(g, T) && t in T
    ensures End(T, t) == g.Total() || End(T, t) in T
    ensures End(T, t) <= g.Total()
    ensures forall u :: u in T && u < End(T, t) ==> u <= t
  {
    assert TileOk(g, t, T[t]);
    if End(T, t) < g.Total() {
      assert Covered(T, End(T, t));
      var u := CoverOf(T, End(T, t));
    }
  }

  lemma FirstTile(g: Geometry, T: Tiling)
    requires g.Ok() && Tiled(g, T)
    ensures 0 in T
  {
    MulMono(1, g.tops, BlockSize(g.maxOrder));
    assert Covered(T, 0);
    var u := CoverOf(T, 0);
  }

  /**
   * Usable bytes of live blocks are pairwise disjoint, and none of them lies under the header of
   * any tile.
   */
  lemma PayloadsApart(g: Geometry, T: Tiling, t: nat, u: nat)
    requires g.Ok() && Packed(g, T) && t in T && !T[t].free && u in T && u != t
    ensures End(T, t) <= u + g.header || End(T, u) <= t + g.header
    ensures End(T, t) <= u || u + g.header <= t + g.header
  {
    assert t < u || u < t;
  }

  // ---------- Bounded occupancy ----------

  /** If live blocks start top-order blocks only, there are at most as many as top-order blocks. */
  lemma FewLive(g: Geometry, L: map<nat, nat>)
    requires forall t :: t in L ==> Aligned(t, g.maxOrder) && t < g.Total()
    ensures |L| <= g.tops
  {
    var quotients := set t | t in L.Keys :: t / g.Top();
    forall t | t in L
      ensures t == (t / g.Top()) * g.Top() && 0 <= t / g.Top() < g.tops
    {
      var q := AlignedQuotient(t, g.maxOrder);
      MulOrder(q, g.tops, g.Top());
    }
    SameSize(L.Keys, quotients, g.Top());
    BoundedSet(quotients, g.tops);
  }

  lemma {:induction false} SameSize(a: set<nat>, b: set<nat>, d: nat)
    requires d > 0 && (forall t :: t in a ==> t == (t / d) * d)
    requires b == set t | t in a :: t / d
    ensures |a| == |b|
    decreases |a|
  {
    if a != {} {
      var t :| t in a;
      var a' := a - {t};
      var b' := b - {t / d};
      forall u | u in a'
        ensures u / d in b'
      {
        assert u == (u / d) * d && t == (t / d) * d;
      }
      forall x | x in b'
        ensures exists u :: u in a' && u / d == x
      {
        var u :| u in a && u / d == x;
        assert u in a';
      }
      assert b' == set u | u in a' :: u / d;
      SameSize(a', b', d);
    }
  }

  lemma {:induction false} BoundedSet(b: set<nat>, n: nat)
    requires forall q :: q in b ==> q < n
    ensures |b| <= n
    decreases n
  {
    if n == 0 {
      assert b == {};
    } else {
      BoundedSet(b - {n - 1}, n - 1);
    }
  }
}
