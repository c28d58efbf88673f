/**
 * What follows for the whole heap between calls: the metadata is a function of the live blocks,
 * and once everything is freed the heap is as it was after initialization.
 */
module BuddyTheorems {
  import opened BuddyArith
  import opened Tilings
  import opened FreeLists
  import opened BuddySteps
  import opened Buddy
  import opened BuddyClient
  import opened Sizes

  /** On a complete list, the link of a tile leads to the next free tile of its order. */
  lemma NextDetermined(T: Tiling, a: Headers, b: Headers, heads: seq<int>, heads': seq<int>, root: map<nat, nat>,
                       root': map<nat, nat>, t: nat)
    requires ListsOk(T, a, heads, root) && ListsOk(T, b, heads', root') && |heads| == |heads'|
    requires AllComplete(T, heads, root) && AllComplete(T, heads', root')
    requires t in T && T[t].free && T[t].order < |heads|
    ensures t in a && t in b && a[t].next == b[t].next
  {
    var k := T[t].order;
    assert CompleteAt(T, heads, root, k) && CompleteAt(T, heads', root', k);
    assert Linked(T, a, root, t) && Linked(T, b, root', t);
    if a[t].next != NULL {
      NextIsLeast(T, b, heads', root', t, a[t].next);
    }
    if b[t].next != NULL {
      NextIsLeast(T, a, heads, root, t, b[t].next);
    }
  }

  lemma PrevDetermined(T: Tiling, a: Headers, b: Headers, heads: seq<int>, heads': seq<int>, root: map<nat, nat>,
                       root': map<nat, nat>, t: nat)
    requires ListsOk(T, a, heads, root) && ListsOk(T, b, heads', root') && |heads| == |heads'|
    requires AllComplete(T, heads, root) && AllComplete(T, heads', root')
    requires t in T && T[t].free && T[t].order < |heads|
    ensures t in a && t in b && a[t].prev == b[t].prev
  {
    assert Linked(T, a, root, t) && Linked(T, b, root', t);
    if a[t].prev != NULL {
      NextDetermined(T, a, b, heads, heads', root, root', a[t].prev);
      assert Linked(T, b, root', a[t].prev);
    }
    if b[t].prev != NULL {
      NextDetermined(T, a, b, heads, heads', root, root', b[t].prev);
      assert Linked(T, a, root, b[t].prev);
    }
  }

  lemma HeadsDetermined(T: Tiling, a: Headers, b: Headers, heads: seq<int>, heads': seq<int>, root: map<nat, nat>,
                        root': map<nat, nat>, k: nat)
    requires ListsOk(T, a, heads, root) && ListsOk(T, b, heads', root') && |heads| == |heads'|
    requires AllComplete(T, heads, root) && AllComplete(T, heads', root') && k < |heads|
    ensures heads[k] == heads'[k]
  {
    assert CompleteAt(T, heads, root, k) && CompleteAt(T, heads', root', k);
    if heads[k] != NULL {
      HeadTile(T, a, heads, root, k);
      HeadIsLowest(T, b, heads', root', heads[k]);
    }
    if heads'[k] != NULL {
      HeadTile(T, b, heads', root', k);
      HeadIsLowest(T, a, heads, root, heads'[k]);
    }
  }

  /**
   * History independence of the whole metadata: with complete lists, two heaps with the same live
   * blocks have the same tiles, the same headers at the tiles and the same list heads.
   */
  lemma SameLiveSameHeap(g: Geometry, T: Tiling, T': Tiling, a: Headers, b: Headers,
                         heads: seq<int>, heads': seq<int>, root: map<nat, nat>, root': map<nat, nat>)
    requires Tiled(g, T) && Coalesced(g, T) && HeadersOk(T, a) && ListsOk(T, a, heads, root)
             && AllComplete(T, heads, root)
    requires Tiled(g, T') && Coalesced(g, T') && HeadersOk(T', b) && ListsOk(T', b, heads', root')
             && AllComplete(T', heads', root')
    requires |heads| == |heads'| == g.maxOrder + 1
    requires Live(T) == Live(T')
    ensures T == T' && heads == heads'
    ensures forall t :: t in T ==> t in a && t in b && a[t] == b[t]
  {
    CanonicalTiling(g, T, T');
    forall t | t in T
      ensures t in a && t in b && a[t] == b[t]
    {
      AlignedTile(g, T, t);
      LiveHeader(T, a, t);
      LiveHeader(T, b, t);
      assert Linked(T, a, root, t) && Linked(T, b, root', t);
      if T[t].free {
        NextDetermined(T, a, b, heads, heads', root, root', t);
        PrevDetermined(T, a, b, heads, heads', root, root', t);
      }
    }
    forall k | 0 <= k < |heads|
      ensures heads[k] == heads'[k]
    {
      HeadsDetermined(T, a, b, heads, heads', root, root', k);
    }
  }

  /** The header of top-order tile `t` as `buddy_init` leaves it. */
  function InitialHeader(g: Geometry, t: nat): Header {
    Header(g.Top(), true, false,
           if t + g.Top() < g.Total() then t + g.Top() else NULL,
           if t >= g.Top() then t - g.Top() else NULL)
  }

  lemma TopNeighbours(g: Geometry, t: nat)
    requires t in Fresh(g)
    ensures t + g.Top() <= g.Total() && (t + g.Top() < g.Total() ==> t + g.Top() in Fresh(g))
    ensures forall u :: u in Fresh(g) && u > t ==> u >= t + g.Top()
  {
    TopsEnd(t, g.maxOrder, g.tops);
    AlignedEnd(t, g.maxOrder, g.maxOrder);
    forall u | u in Fresh(g) && u > t
      ensures u >= t + g.Top()
    {
      MultiplesOrder(t + g.Top(), u, g.Top());
    }
  }

  lemma InitialLinks(g: Geometry, hdr: Headers, heads: seq<int>, root: map<nat, nat>, t: nat)
    requires g.Ok() && ListsOk(Fresh(g), hdr, heads, root) && |heads| == g.maxOrder + 1
    requires CompleteAt(Fresh(g), heads, root, g.maxOrder) && t in Fresh(g)
    ensures t in hdr && hdr[t].next == InitialHeader(g, t).next
    ensures t + g.Top() < g.Total() ==> t + g.Top() in hdr && hdr[t + g.Top()].prev == t
  {
    var F := Fresh(g);
    TopNeighbours(g, t);
    assert Linked(F, hdr, root, t);
    if t + g.Top() < g.Total() {
      NextIsLeast(F, hdr, heads, root, t, t + g.Top());
    }
  }

  /**
   * Once nothing in the arena is live, in whatever order the blocks were freed, the tiles, their
   * headers and all list heads are those that `buddy_init` sets up: one ascending list of all
   * top-order blocks, and every other list empty.
   */
  lemma AllFreedIsInitial(a: Allocator)
    requires a.Valid() && a.initialized && Live(a.T) == map[]
    ensures a.T == Fresh(a.g)
    ensures forall t :: t in a.T ==> t in a.hdr && a.hdr[t] == InitialHeader(a.g, t)
    ensures a.heads[a.g.maxOrder] == 0 && forall k :: 0 <= k < a.g.maxOrder ==> a.heads[k] == NULL
  {
    var g := a.g;
    NothingLive(g, a.T);
    FirstTile(g, a.T);
    forall t | t in a.T
      ensures t in a.hdr && a.hdr[t] == InitialHeader(g, t)
    {
      LiveHeader(a.T, a.hdr, t);
      InitialLinks(g, a.hdr, a.heads, a.root, t);
      if t >= g.Top() {
        PreviousTop(g, t);
        InitialLinks(g, a.hdr, a.heads, a.root, t - g.Top());
      } else {
        FirstTopOnly(g, t);
        assert Linked(a.T, a.hdr, a.root, t);
      }
    }
    HeadIsLowest(a.T, a.hdr, a.heads, a.root, 0);
    HeadTile(a.T, a.hdr, a.heads, a.root, g.maxOrder);
    forall k | 0 <= k < g.maxOrder
      ensures a.heads[k] == NULL
    {
      assert HeadOk(a.T, a.hdr, a.heads, k);
    }
  }

  lemma PreviousTop(g: Geometry, t: nat)
    requires t in Fresh(g) && t >= g.Top()
    ensures t - g.Top() in Fresh(g) && t - g.Top() + g.Top() < g.Total()
  {
    var q := AlignedQuotient(t, g.maxOrder);
    MulOrder(0, q, g.Top());
    assert t - g.Top() == (q - 1) * g.Top();
    MultipleAligned(q - 1, g.maxOrder);
  }

  lemma FirstTopOnly(g: Geometry, t: nat)
    requires t in Fresh(g) && t < g.Top()
    ensures t == 0
  {
    DivUnique(t, g.Top(), 0);
  }

  /**
   * The price of the literal split: between calls every list below the top order is empty, every
   * live block starts a top-order block, and so at most `tops` blocks are live at once.
   */
  lemma LiteralOccupancy(a: Allocator)
    requires a.Valid() && a.Exact() && !a.repaired
    ensures forall k :: 0 <= k < a.g.maxOrder ==> a.heads[k] == NULL
    ensures forall t :: t in Live(a.T) ==> Aligned(t, a.g.maxOrder)
    ensures |Live(a.T)| <= a.g.tops
  {
    if a.initialized {
      forall t | t in Live(a.T)
        ensures t < a.g.Total()
      {
        LiveMember(a.T, t);
        AlignedTile(a.g, a.T, t);
      }
    } else {
      assert Live(a.T) == map[];
    }
    FewLive(a.g, Live(a.T));
  }

  /** The bases of the first `n` top-order blocks. */
  function Bases(g: Geometry, n: nat): set<nat> {
    if n == 0 then {} else Bases(g, n - 1) + {(n - 1) * g.Top()}
  }

  lemma {:induction false} BasesAre(g: Geometry, n: nat)
    requires g.Ok()
    ensures |Bases(g, n)| == n && n * g.Top() >= 0
    ensures forall t: nat :: t in Bases(g, n) <==> Aligned(t, g.maxOrder) && t < n * g.Top()
    decreases n
  {
    hide Aligned;
    if n > 0 {
      BasesAre(g, n - 1);
      var b := (n - 1) * g.Top();
      MultipleAligned(n - 1, g.maxOrder);
      assert n * g.Top() == b + g.Top();
      forall t: nat | Aligned(t, g.maxOrder) && t < n * g.Top()
        ensures t < b || t == b
      {
        NextBase(g, t, b);
      }
    }
  }

  lemma NextBase(g: Geometry, t: nat, b: nat)
    requires Aligned(t, g.maxOrder) && Aligned(b, g.maxOrder) && t < b + g.Top()
    ensures t <= b
  {
    MultiplesOrder(t, b, g.Top());
  }

  /**
   * As written, a request below the threshold is refused exactly when the base of every top-order
   * block is live, that is, when the client holds `tops` arena blocks, whatever their sizes.
   */
  lemma LiteralRefusal(a: Allocator, size: nat)
    requires a.Valid() && a.initialized && a.Exact() && !a.repaired
    ensures !a.CanServe(size) <==>
              forall t: nat :: Aligned(t, a.g.maxOrder) && t < a.g.Total() ==> t in Live(a.T)
    ensures !a.CanServe(size) <==> |Live(a.T)| == a.g.tops
  {
    hide Packed, ListsOk, HeadersOk, CompleteAt, LowDropped, Live, Coalesced, Tiled;
    var g := a.g;
    forall t: nat | Aligned(t, g.maxOrder) && t < g.Total() && t !in Live(a.T)
      ensures a.CanServe(size)
    {
      TopBaseFree(g, a.T, t);
    }
    forall t: nat | t in a.T && a.T[t] == Tile(g.maxOrder, true)
      ensures Aligned(t, g.maxOrder) && t < g.Total() && t !in Live(a.T)
    {
      AlignedTile(g, a.T, t);
      LiveMember(a.T, t);
    }
    forall t | t in Live(a.T)
      ensures Aligned(t, g.maxOrder) && t < g.Total()
    {
      LiveMember(a.T, t);
      AlignedTile(g, a.T, t);
    }
    BasesAre(g, g.tops);
    AllOrFewer(Live(a.T).Keys, Bases(g, g.tops));
  }

  lemma AllOrFewer(s: set<nat>, all: set<nat>)
    requires s <= all
    ensures |s| == |all| <==> s == all
  {
    SubsetSize(all - s, all);
    assert all == s + (all - s);
    assert |all| == |s| + |all - s|;
  }

  /**
   * As written, the guard of `sfree` notices every second free: an address that was handed out and
   * is not live now has an intact header that is marked free, until it is handed out again.
   */
  lemma LiteralNotices(a: Allocator, p: int)
    requires a.Valid() && a.initialized && a.Exact() && !a.repaired
    requires p >= a.g.header && Aligned(p - a.g.header, a.g.maxOrder) && p - a.g.header < a.g.Total()
    ensures a.Noticed(p) <==> p - a.g.header !in Live(a.T)
  {
    var m: nat := p - a.g.header;
    LiveMember(a.T, m);
    if m !in Live(a.T) {
      TopBaseFree(a.g, a.T, m);
    }
    LiveHeader(a.T, a.hdr, m);
  }

  // ---------- Whole runs ----------

  predicate Touches(op: Op, m: nat) {
    !op.Malloc? && !op.Calloc? && op.m == m
  }

  /** Every block of `before` that no operation names is still there, with the same bytes. */
  ghost predicate Untouched(before: map<nat, seq<bv8>>, after: map<nat, seq<bv8>>, ops: seq<Op>) {
    forall m :: m in before && (forall i :: 0 <= i < |ops| ==> !Touches(ops[i], m)) ==>
      m in after && after[m] == before[m]
  }

  lemma UntouchedStep(a: map<nat, seq<bv8>>, b: map<nat, seq<bv8>>, c: map<nat, seq<bv8>>, ops: seq<Op>, op: Op)
    requires Untouched(a, b, ops) && Untouched(b, c, [op])
    ensures Untouched(a, c, ops + [op])
  {
    forall m | m in a && (forall i :: 0 <= i < |ops + [op]| ==> !Touches((ops + [op])[i], m))
      ensures m in c && c[m] == a[m]
    {
      assert !Touches((ops + [op])[|ops|], m);
      assert forall i :: 0 <= i < |ops| ==> (ops + [op])[i] == ops[i];
    }
  }

  /** A run: each view follows from the one before by its operation and its answer. */
  ghost predicate Follows(c: Config, ops: seq<Op>, views: seq<View>, answers: seq<int>)
    requires c.page > 0
  {
    && |views| == |ops| + 1 && |answers| == |ops|
    && forall i :: 0 <= i < |ops| ==> Does(c, ops[i], views[i], views[i + 1], answers[i])
  }

  lemma StartsFollow(c: Config, v: View)
    requires c.page > 0
    ensures Follows(c, [], [v], [])
  {}

  lemma FollowsMore(c: Config, ops: seq<Op>, views: seq<View>, answers: seq<int>, op: Op, w: View, p: int)
    requires c.page > 0 && Follows(c, ops, views, answers) && Does(c, op, views[|ops|], w, p)
    ensures Follows(c, ops + [op], views + [w], answers + [p])
  {
    hide Does;
  }

  /**
   * Any run does, operation by operation, what `Does` says.  The invariants hold throughout, a block
   * that no operation names keeps its bytes, and a run that ends with nothing live has put the arena
   * back into its initial state.
   */
  method Run(a: Allocator, ops: seq<Op>, held: set<nat>)
    returns (live: set<nat>, answers: seq<int>, ghost views: seq<View>)
    requires a.Valid() && a.Exact() && a.Blocks().Keys == held
    modifies a, a.mem
    ensures a.Valid() && a.Exact() && a.Blocks().Keys == live && a.page > 0
    ensures |views| == |ops| + 1 && views[0] == old(a.Seen()) && views[|ops|] == a.Seen()
    ensures Follows(a.Config(), ops, views, answers)
    ensures Untouched(old(a.Blocks()), a.Blocks(), ops)
    ensures live == {} && a.initialized ==>
              && a.T == Fresh(a.g)
              && (forall t :: t in a.T ==> t in a.hdr && a.hdr[t] == InitialHeader(a.g, t))
              && a.heads[a.g.maxOrder] == 0 && forall k :: 0 <= k < a.g.maxOrder ==> a.heads[k] == NULL
  {
    hide Allocator.Valid, Allocator.Exact, Allocator.Blocks, Does, Follows, Untouched;
    PageOk(a);
    live, answers, views := held, [], [a.Seen()];
    var i := 0;
    StartsFollow(a.Config(), a.Seen());
    assert ops[..0] == [];
    UntouchedSelf(a.Blocks());
    while i < |ops|
      invariant 0 <= i <= |ops| && a.Valid() && a.Exact() && a.Blocks().Keys == live
      invariant |views| == i + 1 && views[0] == old(a.Seen()) && views[i] == a.Seen()
      invariant Follows(a.Config(), ops[..i], views, answers)
      invariant Untouched(old(a.Blocks()), a.Blocks(), ops[..i])
    {
      ghost var v := a.Seen();
      var p;
      p, live := Perform(a, ops[i], live);
      DoesNotTouch(a.Config(), ops[i], v, a.Seen(), p);
      UntouchedStep(old(a.Blocks()), v.blocks, a.Blocks(), ops[..i], ops[i]);
      FollowsMore(a.Config(), ops[..i], views, answers, ops[i], a.Seen(), p);
      assert ops[..i + 1] == ops[..i] + [ops[i]];
      answers, views := answers + [p], views + [a.Seen()];
      i := i + 1;
    }
    assert ops[..i] == ops;
    if live == {} && a.initialized {
      NoBlocksNoLive(a);
      AllFreedIsInitial(a);
    }
  }

  lemma PageOk(a: Allocator)
    requires a.Valid()
    ensures a.page > 0 && a.g.Ok()
  {}

  lemma UntouchedSelf(b: map<nat, seq<bv8>>)
    ensures Untouched(b, b, [])
  {}

  /** No operation changes a byte of a block that it does not name. */
  lemma DoesNotTouch(c: Config, op: Op, v: View, w: View, p: int)
    requires c.page > 0 && Does(c, op, v, w, p)
    ensures Untouched(v.blocks, w.blocks, [op])
  {
    hide Refused, CanGrow, Fitting, Chosen, IsOrderFor;
    assert [op][0] == op;
  }

  lemma NoBlocksNoLive(a: Allocator)
    requires a.Blocks().Keys == {}
    ensures Live(a.T) == map[]
  {
    forall t | t in Live(a.T)
      ensures t in a.Blocks()
    {}
  }

  /** Arena blocks lie in the arena and mapped blocks above it. */
  lemma Places(a: Allocator)
    requires a.Valid()
    ensures forall m :: m in a.Blocks() ==> (m in a.maps <==> m >= a.g.Total())
    ensures forall m :: m in a.Blocks() && m !in a.maps ==> a.initialized && m in a.T
    ensures forall addr :: a.FreshMap(addr) <==> Unused(a.Config(), a.Seen(), addr)
  {
    hide Packed, ListsOk, HeadersOk, CompleteAt, Coalesced, Live, Usable;
    forall m | m in a.Blocks() && m !in a.maps
      ensures a.initialized && m in a.T && m < a.g.Total()
    {
      BlockIsLive(a.g.header, Live(a.T), a.mem[..], a.maps, m);
      LiveMember(a.T, m);
      if a.initialized {
        AlignedTile(a.g, a.T, m);
      }
    }
  }

  /** A block that grew in place has the order that fits, and starts at the base of that order. */
  lemma GrownOrder(a: Allocator, m: nat, r: nat, size: nat)
    requires a.Valid() && r in a.Blocks() && r !in a.maps && r in a.T && r == BuddyArith.Base(m, a.T[r].order)
    requires size < a.g.Top() && Fitting(a.g, a.page, size, |a.Blocks()[r]|)
    ensures exists k: nat ::
              IsOrderFor(a.g, size, k) && r == BuddyArith.Base(m, k) && |a.Blocks()[r]| + a.g.header == BlockSize(k)
  {
    hide Packed, ListsOk, HeadersOk, CompleteAt, Coalesced, Live, Usable, IsOrderFor, BlockSize, BuddyArith.Base;
    Places(a);
    BlockIsLive(a.g.header, Live(a.T), a.mem[..], a.maps, r);
    UsableSize(a.g, a.T, r, a.mem[..]);
    LiveMember(a.T, r);
    var k: nat :| IsOrderFor(a.g, size, k) && |a.Blocks()[r]| + a.g.header == BlockSize(k);
    SizeDeterminesOrder(k, a.T[r].order);
  }

  lemma GrowsBelowTop(g: Geometry, T: Tiling, m: nat, size: nat)
    requires m in T && CanGrow(g, T, m, size) && g.Ok()
    ensures size < g.Top()
  {
    var k: nat :| IsOrderFor(g, size, k) && BlockSize(k) >= size + g.header && FreePath(T, m, T[m].order, k);
    OrderFits(g, size, k);
  }

  /** What `srealloc` of a live block ensures, put together. */
  method Resize(a: Allocator, m: nat, size: nat, addr: int) returns (p: int)
    requires a.Valid() && a.Exact() && m in a.Blocks() && a.FreshMap(addr)
    modifies a, a.mem
    ensures a.Valid() && a.Exact() && a.page > 0 && Reallocs(a.Config(), old(a.Seen()), a.Seen(), m, size, addr, p)
  {
    hide Allocator.Valid, Allocator.Exact, Allocator.Blocks, IsOrderFor, CanGrow, Fitting, Chosen, Refused, Moved;
    hide BuddyArith.Base;
    PageOk(a);
    Places(a);
    ghost var T := a.Tiles();
    if m in T && CanGrow(a.g, T, m, size) {
      GrowsBelowTop(a.g, T, m, size);
    }
    p := a.Srealloc(m + a.g.header, size, addr);
    Places(a);
    if p != NULL && m < a.g.Total() && m in T && |old(a.Blocks())[m]| < size && CanGrow(a.g, T, m, size) {
      GrownOrder(a, m, p - a.g.header, size);
    }
    MovedKeeps(old(a.Blocks()), a.Blocks(), m, p - a.g.header, size);
  }

  lemma MovedKeeps(A: map<nat, seq<bv8>>, B: map<nat, seq<bv8>>, m: nat, r: int, size: nat)
    ensures r >= 0 && Moved(A, B, m, r, size) ==> r in B
  {}

  /** What `smalloc` ensures, put together. */
  method Take(a: Allocator, size: nat, addr: int) returns (p: int)
    requires a.Valid() && a.Exact() && a.FreshMap(addr)
    modifies a, a.mem
    ensures a.Valid() && a.Exact() && a.page > 0 && Mallocs(a.Config(), old(a.Seen()), a.Seen(), size, addr, p)
    ensures p != NULL ==> p >= a.g.header && a.Blocks().Keys == old(a.Blocks().Keys) + {(p - a.g.header) as nat}
    ensures p == NULL ==> a.Blocks().Keys == old(a.Blocks().Keys)
  {
    hide Allocator.Valid, Allocator.Exact, Allocator.Blocks, IsOrderFor, Fitting, Chosen, Refused;
    PageOk(a);
    p := a.Smalloc(size, addr);
    Places(a);
  }

  /** What `scalloc` ensures, put together. */
  method TakeZeroed(a: Allocator, num: nat, size: nat, addr: int) returns (p: int)
    requires a.Valid() && a.Exact() && a.FreshMap(addr) && !InGap(a.g, Product(num, size))
    modifies a, a.mem
    ensures a.Valid() && a.Exact() && a.page > 0
    ensures Mallocs(a.Config(), old(a.Seen()), a.Seen(), Product(num, size), addr, p)
    ensures p != NULL ==> p >= a.g.header && a.Blocks().Keys == old(a.Blocks().Keys) + {(p - a.g.header) as nat}
    ensures p != NULL ==> Zeros(Product(num, size)) <= a.Blocks()[p - a.g.header]
    ensures p == NULL ==> a.Blocks().Keys == old(a.Blocks().Keys)
  {
    hide Allocator.Valid, Allocator.Exact, Allocator.Blocks, IsOrderFor, Fitting, Chosen, Refused;
    PageOk(a);
    var excess;
    p, excess := a.Scalloc(num, size, addr);
    Places(a);
  }

  /** One operation of a run, its answer, and what the client then holds. */
  method Perform(a: Allocator, op: Op, live: set<nat>) returns (p: int, live': set<nat>)
    requires a.Valid() && a.Exact() && a.Blocks().Keys == live
    modifies a, a.mem
    ensures a.Valid() && a.Exact() && a.page > 0 && a.Blocks().Keys == live'
    ensures Does(a.Config(), op, old(a.Seen()), a.Seen(), p)
  {
    hide Allocator.Valid, Allocator.Exact, Allocator.Blocks, IsOrderFor, CanGrow, Fitting, Chosen, Refused, Reallocs;
    hide Mallocs;
    PageOk(a);
    Places(a);
    p, live' := NULL, live;
    match op
    case Malloc(size, addr) =>
      if a.FreshMap(addr) {
        p := Take(a, size, addr);
        if p != NULL {
          live' := live + {(p - a.g.header) as nat};
        }
      }
    case Calloc(num, size, addr) =>
      var total := Product(num, size);
      if a.FreshMap(addr) && !InGap(a.g, total) {
        p := TakeZeroed(a, num, size, addr);
        if p != NULL {
          live' := live + {(p - a.g.header) as nat};
        }
      }
    case Free(m) =>
      if m in live || a.Noticed(m + a.g.header) {
        a.Sfree(m + a.g.header);
        live' := live - {m};
      }
    case Realloc(m, size, addr) =>
      if m in live && a.FreshMap(addr) {
        p := Resize(a, m, size, addr);
        ReallocsKeys(a.Config(), old(a.Seen()), a.Seen(), m, size, addr, p);
        if p != NULL {
          live' := live - {m} + {(p - a.g.header) as nat};
        }
      }
    case Write(m, i, b) =>
      if m in live {
        var n := a.SizeOf(m);
        if i < n {
          a.Store(m + a.g.header, i, b);
        }
      }
  }

  lemma ReallocsKeys(c: Config, v: View, w: View, m: nat, size: nat, addr: int, p: int)
    requires c.page > 0 && m in v.blocks && c.g.header > 0 && Reallocs(c, v, w, m, size, addr, p)
    ensures p == NULL ==> w.blocks.Keys == v.blocks.Keys
    ensures p != NULL ==> p >= c.g.header && w.blocks.Keys == v.blocks.Keys - {m} + {(p - c.g.header) as nat}
  {
    hide Refused, CanGrow, Fitting, Chosen, IsOrderFor, BuddyArith.Base, BlockSize;
  }

  /** A live unit at the base of a top-order block has a free unit beside it. */
  lemma OtherUnitFree(a: Allocator, m: nat)
    requires a.Valid() && a.initialized && a.Exact() && !a.repaired && a.g.maxOrder > 0
    requires m in a.T && a.T[m] == Tile(0, false)
    ensures exists t :: t in a.T && a.T[t] == Tile(0, true)
  {
    var g, u := a.g, BuddyOf(m, 0);
    BuddyIsTile(g, a.T, m);
    AlignedTile(g, a.T, m);
    BuddyFacts(m, 0);
    BlockSizeMonotone(0, g.maxOrder);
    LiveMember(a.T, m);
    LiveMember(a.T, u);
    if u in Live(a.T) {
      NextBase(g, u, m);
      NextBase(g, m, u);
    }
  }

  lemma {:induction false} SubsetSize(a: set<nat>, b: set<nat>)
    requires a <= b
    ensures |a| <= |b|
    decreases |a|
  {
    if a != {} {
      var x :| x in a;
      SubsetSize(a - {x}, b - {x});
    }
  }

  lemma LiveIsBlocks(a: Allocator)
    requires a.maps == map[]
    ensures |Live(a.T)| == |a.Blocks()|
  {
    assert Live(a.T).Keys == a.Blocks().Keys;
  }

  /** As written, a one-byte request succeeds as long as fewer than `tops` blocks are live. */
  method OneUnit(a: Allocator) returns (p: int)
    requires a.Valid() && a.initialized && a.Exact() && !a.repaired && a.maps == map[]
    requires |a.Blocks()| < a.g.tops && a.g.maxOrder > 0
    modifies a, a.mem
    ensures a.Valid() && a.initialized && a.Exact() && a.maps == map[] && |a.Blocks()| == old(|a.Blocks()|) + 1
    ensures p >= a.g.header && p - a.g.header in a.T && a.T[p - a.g.header] == Tile(0, false)
  {
    hide Tiled, Packed, Coalesced, ListsOk, HeadersOk, CompleteAt, LowDropped, Live, TopLive, Aligned, ArenaBlocks;
    hide BestFit;
    BlockSizeMonotone(0, a.g.maxOrder);
    OrderUnique(a.g, 1, 0);
    LiteralRefusal(a, 1);
    LiveIsBlocks(a);
    p := a.ArenaAlloc(1);
  }

  /** A new, initialized allocator with the split as written, and nothing live. */
  method NewLiteral(g: Geometry, page: nat) returns (a: Allocator)
    requires g.Ok() && page > 0
    ensures fresh(a) && fresh(a.mem) && a.g == g && !a.repaired
    ensures a.Valid() && a.initialized && a.Exact() && a.maps == map[] && a.Blocks() == map[]
  {
    hide Packed, ListsOk, HeadersOk, CompleteAt, LowDropped, Live, Coalesced, Tiled, TopLive;
    a := new Allocator(g, page, false);
    NoBlocksNoLive(a);
    assert a.maps == map[];
    a.BuddyInit();
  }

  /**
   * The split as written loses memory, in every arena with more than one order: after `tops`
   * one-byte requests the next is refused, although a free block of the right order exists.
   */
  method LiteralLosesMemory(g: Geometry, page: nat) returns (a: Allocator, last: int, refused: int)
    requires g.Ok() && g.maxOrder > 0 && page > 0
    ensures fresh(a) && a.Valid() && a.g == g && !a.repaired && |a.Blocks()| == g.tops
    ensures last != NULL && refused == NULL
    ensures IsOrderFor(g, 1, 0) && exists t :: t in a.T && a.T[t] == Tile(0, true)
  {
    hide Allocator.Valid, Allocator.Exact, Allocator.Blocks, Allocator.CanServe, Live;
    BlockSizeMonotone(0, g.maxOrder);
    a := NewLiteral(g, page);
    last := NULL;
    var i := 0;
    while i < g.tops
      invariant fresh(a) && fresh(a.mem) && a.g == g && !a.repaired && a.maps == map[]
      invariant a.Valid() && a.initialized && a.Exact()
      invariant 0 <= i <= g.tops && |a.Blocks()| == i
      invariant i > 0 ==> last >= g.header && last - g.header in a.T && a.T[last - g.header] == Tile(0, false)
    {
      last := OneUnit(a);
      i := i + 1;
    }
    LiteralRefusal(a, 1);
    LiveIsBlocks(a);
    OtherUnitFree(a, last - g.header);
    refused := a.ArenaAlloc(1);
  }

  /** In an arena of one top-order block of two units, a live unit leaves the other one free. */
  lemma OtherHalfFree(g: Geometry, T: Tiling, m: nat)
    requires g == Geometry(1, 1, 64) && Tiled(g, T) && m in T && T[m] == Tile(0, false) && |Live(T)| <= 1
    ensures exists t :: t in T && T[t] == Tile(0, true)
  {
    BuddyIsTile(g, T, m);
    var u := BuddyOf(m, 0);
    if !T[u].free {
      var two := {m, u};
      assert two <= Live(T).Keys;
      SubsetSize(two, Live(T).Keys);
    }
  }

  lemma FewBlocks(a: Allocator, m: nat)
    requires a.Blocks().Keys == {m}
    ensures |Live(a.T)| <= 1
  {
    assert forall t :: t in Live(a.T) ==> t in a.Blocks();
    SubsetSize(Live(a.T).Keys, {m});
  }

  /** With the repaired split, fills an arena of one top-order block with two live halves. */
  method TwoHalves() returns (a: Allocator, lower: nat, upper: nat)
    ensures fresh(a) && fresh(a.mem) && a.repaired && a.g == Geometry(1, 1, 64)
    ensures a.Valid() && a.initialized && a.maps == map[]
    ensures lower < upper && a.Blocks().Keys == {lower, upper}
  {
    hide Tiled, Packed, Coalesced, ListsOk, HeadersOk, CompleteAt, LowDropped, Live, TopLive, FreshBelow;
    hide Aligned, BestFit;
    var g := Geometry(1, 1, 64);
    assert BlockSize(1) == 256 && BlockSize(0) == 128;
    a := new Allocator(g, 4096, true);
    assert a.maps == map[];
    a.BuddyInit();
    FreshServes(g, 1);
    assert IsOrderFor(g, 1, 0) && 0 in a.T;
    OrderUnique(g, 1, 0);
    assert a.Blocks() == map[];
    var p := a.ArenaAlloc(1);
    FewBlocks(a, p - 64);
    OtherHalfFree(g, a.T, p - 64);
    var q := a.ArenaAlloc(1);
    lower, upper := p - 64, q - 64;
    if q < p {
      lower, upper := upper, lower;
    }
  }

  /**
   * With the repaired split the guard of `sfree` would miss some second frees: of two half blocks
   * freed one after the other, the upper one merges into the lower, and its header still says that
   * it is in use.
   */
  method UpperFreeUnnoticed() returns (a: Allocator, upper: nat)
    ensures fresh(a) && a.Valid() && a.repaired && a.Blocks() == map[]
    ensures upper in a.hdr && !a.Noticed(upper + a.g.header)
  {
    hide Tiled, Packed, Coalesced, ListsOk, HeadersOk, CompleteAt, LowDropped, Live, TopLive, FreshBelow;
    hide Aligned, ArenaBlocks;
    var lower;
    a, lower, upper := TwoHalves();
    a.Sfree(lower + 64);
    a.Sfree(upper + 64);
    NoBlocksNoLive(a);
    AllFreedIsInitial(a);
    assert a.g.Total() == a.g.Top();
    if upper in a.T {
      TopNeighbours(a.g, upper);
    }
  }
}
