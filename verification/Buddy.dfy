/**
 * The buddy allocator of part 3: block headers kept inside the arena, free lists threaded
 * through them, and user bytes between them.
 */
module Buddy {
  import opened BuddyArith
  import opened Tilings
  import opened FreeLists
  import opened BuddySteps
  import C = BuddyClient
  import opened Sizes

  class Allocator {
    const g: Geometry
    const page: nat
    const repaired: bool
    const mem: array<bv8>
    var initialized: bool
    var hdr: Headers
    var heads: seq<int>
    var maps: map<nat, seq<bv8>>
    ghost var T: Tiling
    ghost var root: map<nat, nat>

    predicate Shaped()
      reads this
    {
      g.Ok() && page > 0 && mem.Length == g.Total() && |heads| == g.maxOrder + 1
    }

    /** The part of the invariant that holds even inside list operations. */
    ghost predicate Base()
      reads this
    {
      Shaped() && Packed(g, T) && ListsOk(T, hdr, heads, root)
    }

    /** Writes one header; the bytes under it become garbage. */
    method PutHeader(m: nat, v: Header)
      requires Shaped() && Packed(g, T) && m in T
      modifies this`hdr, mem
      ensures hdr == old(hdr)[m := v]
      ensures Same(g.header, Live(T), old(mem[..]), mem[..])
    {
      hdr := hdr[m := v];
      assert TileOk(g, m, T[m]);
      var i := m;
      while i < m + g.header
        invariant m <= i <= m + g.header
        modifies mem
        invariant forall x :: 0 <= x < mem.Length && !(m <= x < m + g.header) ==> mem[x] == old(mem[x])
      {
        mem[i] := *;
        i := i + 1;
      }
      forall x | 0 <= x < mem.Length && InPayload(g.header, Live(T), x)
        ensures old(mem[..])[x] == mem[..][x]
      {
        if m <= x < m + g.header {
          HeaderOutside(g, T, m, x);
        }
      }
    }

    /** The walk of `fl_insert` to the last entry below `m`, with `m` itself already rewritten. */
    method FindSlot(order: nat, m: nat, ghost was: Headers) returns (cur: nat)
      requires ListsOk(T, was, heads, root) && order < |heads| && m in T && T[m] == Tile(order, false) && m in was
      requires hdr == Unlinked(was, m) && heads[order] != NULL && heads[order] < m
      ensures cur in was && cur in root && cur in T && T[cur].free && cur < m
      ensures var n := was[cur].next;
              Slot(T, was, heads, root, order, m, cur, n) && (n == NULL || (n in was && n in T && n > m))
    {
      hide ListsOk;
      HeadIsOk(T, was, heads, root, order);
      cur := heads[order];
      LinkedTile(T, was, heads, root, cur);
      while hdr[cur].next != NULL && hdr[cur].next < m
        invariant cur in T && T[cur] == Tile(order, true) && cur < m && cur in was
        invariant cur in root && root[cur] == heads[order] && Linked(T, was, root, cur)
        decreases m - cur
      {
        LinkedTile(T, was, heads, root, hdr[cur].next);
        cur := hdr[cur].next;
      }
      if was[cur].next != NULL {
        LinkedTile(T, was, heads, root, was[cur].next);
      }
    }

    method FlInsert(order: nat, m: nat) returns (ghost p: int, ghost n: int)
      requires Base() && order <= g.maxOrder && m in T && T[m] == Tile(order, false)
      modifies this`hdr, this`heads, this`T, this`root, mem
      ensures Base() && T == Mark(old(T), m, true)
      ensures old(m in hdr && (p == NULL || p in hdr) && (n == NULL || n in hdr) && (p == NULL || p in root))
      ensures old(Slot(T, hdr, heads, root, order, m, p, n))
      ensures hdr == LinkHeaders(old(hdr), m, p, n)
      ensures heads == LinkHeads(old(heads), order, m, p)
      ensures root == LinkRoot(old(root), m, p, n)
      ensures Same(g.header, Live(old(T)), old(mem[..]), mem[..])
    {
      hide Packed, ListsOk, Live, LinkRoot, Mark, InPayload, LinkHeaders, Linked;
      LinkedHeader(T, hdr, heads, root, m);
      FrontSlot(T, hdr, heads, root, order, m);
      var head: int := heads[order];
      PutHeader(m, hdr[m].(isFree := true, next := NULL, prev := NULL));
      assert hdr == Unlinked(old(hdr), m);
      if head == NULL || m < head {
        p, n := NULL, head;
        FrontWrites(old(hdr), m, n);
        PutHeader(m, hdr[m].(next := head));
        if head != NULL {
          PutHeader(head, hdr[head].(prev := m));
        }
        heads := heads[order := m];
      } else {
        var cur := FindSlot(order, m, old(hdr));
        p, n := cur, old(hdr)[cur].next;
        BetweenWrites(old(hdr), m, cur, n);
        PutHeader(m, hdr[m].(next := hdr[cur].next, prev := cur));
        if hdr[cur].next != NULL {
          PutHeader(hdr[cur].next, hdr[hdr[cur].next].(prev := m));
        }
        PutHeader(cur, hdr[cur].(next := m));
      }
      LinkKeeps(T, old(hdr), old(heads), root, order, m, p, n);
      MarkTiled(g, T, m, true);
      root := LinkRoot(root, m, p, n);
      T := Mark(T, m, true);
    }

    method FlRemove(order: nat, m: nat)
      requires Base() && order <= g.maxOrder && m in T && T[m].order == order
      modifies this`hdr, this`heads, this`T, this`root, mem
      ensures Base() && T == Mark(old(T), m, false)
      ensures old(Linkable(hdr, m))
      ensures hdr == UnlinkHeaders(old(hdr), m)
      ensures heads == UnlinkHeads(old(hdr), old(heads), order, m)
      ensures root == UnlinkRoot(old(hdr), old(root), m)
      ensures Same(g.header, Live(old(T)), old(mem[..]), mem[..])
    {
      assert Linked(T, hdr, root, m);
      UnlinkEffect(T, hdr, heads, root, m);
      assert hdr[m].prev != NULL ==> Linked(T, hdr, root, hdr[m].prev);
      assert hdr[m].next != NULL ==> Linked(T, hdr, root, hdr[m].next);
      hide Packed, ListsOk;
      if hdr[m].prev != NULL {
        PutHeader(hdr[m].prev, hdr[hdr[m].prev].(next := hdr[m].next));
      } else {
        heads := heads[order := hdr[m].next];
      }
      if hdr[m].next != NULL {
        PutHeader(hdr[m].next, hdr[hdr[m].next].(prev := hdr[m].prev));
      }
      PutHeader(m, hdr[m].(prev := NULL, next := NULL));
      assert hdr == UnlinkHeaders(old(hdr), m);
      if T[m].free {
        UnlinkKeeps(T, old(hdr), old(heads), root, order, m);
      } else {
        DropHead(T, old(hdr), old(heads), root, order);
        assert hdr == old(hdr) && heads == old(heads)[order := NULL];
        assert Mark(T, m, false) == T;
      }
      MarkTiled(g, T, m, false);
      root := UnlinkRoot(old(hdr), root, m);
      T := Mark(T, m, false);
    }

    /** Block `m` of order `k` is in the hands of the running call. */
    ghost predicate Claim(m: nat, k: nat)
      reads this
    {
      && Base() && Tiled(g, T) && Coalesced(g, T) && HeadersOkBut(T, hdr, m)
      && m in T && T[m] == Tile(k, false) && m in hdr && hdr[m].size == BlockSize(k) && !hdr[m].isMmap
    }

    /**
     * One step of either merge loop: takes the free buddy off its list and gives the lower of
     * the two blocks the size of both.
     */
    method AbsorbBuddy(m: nat, order: nat) returns (merged: nat)
      requires Claim(m, order) && order < g.maxOrder && BuddyFree(T, m, order)
      modifies this`hdr, this`heads, this`T, this`root, mem
      ensures Claim(merged, order + 1) && merged == BuddyArith.Base(m, order + 1)
      ensures T == Merge(Mark(old(T), BuddyOf(m, order), false), m)
      ensures Live(T) == (old(Live(T)) - {m})[merged := order + 1] && merged !in old(Live(T)) - {m}
      ensures forall j :: 0 <= j < |heads| && old(CompleteAt(T, heads, root, j)) ==> CompleteAt(T, heads, root, j)
      ensures old(LowDropped(g, T, hdr, heads, -1)) ==> LowDropped(g, T, hdr, heads, -1)
      ensures Same(g.header, Live(old(T)), old(mem[..]), mem[..])
      ensures SameFlags(old(hdr), hdr)
    {
      hide ListsOk, HeadersOkBut, CompleteAt, LowDropped, Packed, Coalesced, Tiled, Live, BlockSize, Linkable;
      hide UnlinkHeads, UnlinkRoot, UnlinkHeaders, Same, PayloadWithin, BuddyFree, Merge, BuddyOf;
      hide BuddyArith.Base, SameFlags;
      var buddy := BuddyOf(m, order);
      AbsorbKeeps(g, T, hdr, heads, root, m, order);
      ClaimWithin(g.header, T, buddy);
      WithinSelf(g.header, Live(T));
      FlRemove(order, buddy);
      ghost var mid := mem[..];
      merged := if buddy < m then buddy else m;
      PutHeader(merged, hdr[merged].(size := BlockSize(order + 1)));
      assert hdr == AbsorbHeaders(old(hdr), m, order);
      AbsorbFlags(old(hdr), m, order);
      SameChain(g.header, Live(old(T)), Live(old(T)), Live(T), old(mem[..]), mid, mem[..]);
      T := Merge(T, m);
    }

    /** The least order that fits, or the top order when none does. */
    method SizeToOrder(usableSize: nat) returns (order: nat)
      requires Shaped()
      ensures IsOrderFor(g, usableSize, order)
    {
      var totalNeeded := usableSize + g.header;
      order := 0;
      var bsz := MIN_BLOCK_SIZE;
      while bsz < totalNeeded && order < g.maxOrder
        invariant order <= g.maxOrder && bsz == BlockSize(order)
        invariant forall j :: 0 <= j < order ==> BlockSize(j) < totalNeeded
      {
        order := order + 1;
        bsz := 2 * bsz;
      }
    }

    /** Recovers the order of a block from the size in its header. */
    method GetOrder(m: nat, ghost k: nat) returns (order: nat)
      requires m in hdr && hdr[m].size == BlockSize(k) && k <= g.maxOrder
      ensures order == k
    {
      order := 0;
      var s := MIN_BLOCK_SIZE;
      while s < hdr[m].size && order < g.maxOrder
        invariant order <= k && s == BlockSize(order)
      {
        assert order < k;
        order := order + 1;
        s := 2 * s;
      }
      if order < k {
        BlockSizeMonotone(order, k);
      }
    }

    /** Writes the headers of the two halves of a claimed block. */
    method WriteHalves(m: nat, order: nat) returns (buddy: nat)
      requires Base() && Tiled(g, T) && Coalesced(g, T) && HeadersOkBut(T, hdr, m)
      requires m in T && 0 < order <= g.maxOrder && T[m] == Tile(order, false) && m in hdr && !hdr[m].isMmap
      modifies this`hdr, this`T, mem
      ensures Base() && buddy !in old(T) && buddy in T && T[buddy] == Tile(order - 1, false)
      ensures IsCut(old(T), old(hdr), m, order - 1, buddy, Split(old(T), m), T, hdr)
      ensures Same(g.header, old(Live(T)) - {m}, old(mem[..]), mem[..])
      ensures PayloadWithin(g.header, old(Live(T)) - {m}, Live(T))
    {
      hide Packed, ListsOk, HeadersOkBut, Coalesced, Tiled, Split, Live, Same, PayloadWithin, BlockSize;
      hide Linked, HeaderOk;
      var newSize := BlockSize(order - 1);
      ghost var S, M, h := NameCut(T, hdr, m, order - 1);
      CutKeeps(g, T, hdr, heads, root, m, order - 1, m + newSize, S, M, h);
      CutWithin(g.header, T, m, order - 1);
      WithinSelf(g.header, Live(T));
      WithinLess(g.header, Live(T), m);
      PutHeader(m, hdr[m].(size := newSize, isFree := false));
      ghost var mem1 := mem[..];
      buddy := m + newSize;
      T := M;
      PutHeader(buddy, Header(newSize, true, false, NULL, NULL));
      SameChain(g.header, old(Live(T)) - {m}, old(Live(T)), Live(T), old(mem[..]), mem1, mem[..]);
    }

    /** Cuts a claimed block in half: keeps the lower half, inserts the upper half as free. */
    method CutInHalf(m: nat, order: nat)
      requires Base() && Tiled(g, T) && Coalesced(g, T) && HeadersOkBut(T, hdr, m)
      requires m in T && 0 < order <= g.maxOrder && T[m] == Tile(order, false) && m in hdr && !hdr[m].isMmap
      modifies this`hdr, this`heads, this`T, this`root, mem
      ensures Base() && Tiled(g, T) && Coalesced(g, T) && HeadersOk(T, hdr)
      ensures T == Split(old(T), m) && Live(T) == old(Live(T))[m := order - 1]
      ensures forall j :: 0 <= j < |heads| && old(CompleteAt(T, heads, root, j)) ==> CompleteAt(T, heads, root, j)
      ensures old(LowDropped(g, T, hdr, heads, -1)) ==> LowDropped(g, T, hdr, heads, order - 1)
      ensures Same(g.header, old(Live(T)) - {m}, old(mem[..]), mem[..])
    {
      hide Packed, ListsOk, HeadersOk, HeadersOkBut, Coalesced, CompleteAt, LowDropped, Tiled, Split, Live, Same;
      hide PayloadWithin, BlockSize, Linked, HeaderOk, LinkHeaders, LinkHeads, LinkRoot, Slot, CutHeaders, Linkable;
      var buddy := WriteHalves(m, order);
      ghost var M, h, L, mem1 := T, hdr, Live(T), mem[..];
      WithinSelf(g.header, old(Live(T)) - {m});
      ghost var p, n := FlInsert(order - 1, buddy);
      CutReleaseKeeps(g, old(T), old(hdr), old(heads), old(root), m, order - 1, buddy, Split(old(T), m), M, h, p, n);
      SameChain(g.header, old(Live(T)) - {m}, old(Live(T)) - {m}, L, old(mem[..]), mem1, mem[..]);
    }

    /** The state in which every list operation of a call leaves the heap. */
    ghost predicate Settled()
      reads this
    {
      Base() && Tiled(g, T) && Coalesced(g, T) && HeadersOk(T, hdr)
    }

    /** Takes block `m` off list `order` for good: the end of `buddy_alloc`. */
    method TakeBlock(order: nat, m: nat)
      requires Settled() && order <= g.maxOrder && m in T && T[m].order == order
      modifies this`hdr, this`heads, this`T, this`root, mem
      ensures Settled() && T == Mark(old(T), m, false) && Live(T) == old(Live(T))[m := order]
      ensures m in T && T[m] == Tile(order, false)
      ensures forall j :: 0 <= j < |heads| && old(CompleteAt(T, heads, root, j)) && (old(T)[m].free || j != order)
                ==> CompleteAt(T, heads, root, j)
      ensures old(LowDropped(g, T, hdr, heads, order)) ==> LowDropped(g, T, hdr, heads, -1)
      ensures Same(g.header, old(Live(T)) - {m}, old(mem[..]), mem[..])
    {
      hide Packed, ListsOk, HeadersOk, HeadersOkBut, Coalesced, CompleteAt, LowDropped, Tiled, Live, Same;
      hide PayloadWithin, BlockSize, UnlinkHeaders, UnlinkHeads, UnlinkRoot, Linkable;
      TakeAll(g, T, hdr, heads, root, m, order);
      ghost var L := Live(T);
      WithinLess(g.header, L, m);
      FlRemove(order, m);
      ghost var mem1 := mem[..];
      ClaimLess(g.header, L, m, order);
      SettleHeader(T, hdr, heads, root, m, hdr[m].(isFree := false));
      if LowDropped(g, T, hdr, heads, -1) {
        SettleLow(g, T, hdr, heads, m, hdr[m].(isFree := false));
      }
      PutHeader(m, hdr[m].(isFree := false));
      SameChain(g.header, L - {m}, L, Live(T), old(mem[..]), mem1, mem[..]);
    }

    /** The literal split: always calls `fl_remove` first, even when `m` is on no list. */
    method SplitBlock(m: nat, order: nat) returns (lower: nat)
      requires Settled() && 0 < order <= g.maxOrder && m in T && T[m].order == order
      modifies this`hdr, this`heads, this`T, this`root, mem
      ensures Settled() && lower == m && m in T && T[m] == Tile(order - 1, false)
      ensures T == Split(old(T), m) && Live(T) == old(Live(T))[m := order - 1]
      ensures forall j :: 0 <= j < |heads| && old(CompleteAt(T, heads, root, j)) && (old(T)[m].free || j != order)
                ==> CompleteAt(T, heads, root, j)
      ensures old(LowDropped(g, T, hdr, heads, order)) ==> LowDropped(g, T, hdr, heads, order - 1)
      ensures Same(g.header, old(Live(T)) - {m}, old(mem[..]), mem[..])
    {
      hide Packed, ListsOk, HeadersOk, HeadersOkBut, Coalesced, CompleteAt, LowDropped, Tiled, Live, Same, Split;
      hide PayloadWithin, BlockSize, UnlinkHeaders, UnlinkHeads, UnlinkRoot, Linkable;
      TakeAll(g, T, hdr, heads, root, m, order);
      SplitMarked(T, m);
      ghost var L := Live(T);
      WithinLess(g.header, L, m);
      FlRemove(order, m);
      ghost var mem1 := mem[..];
      ClaimLess(g.header, L, m, order);
      CutInHalf(m, order);
      assert L[m := order] - {m} == L - {m};
      WithinSelf(g.header, L - {m});
      SameChain(g.header, L - {m}, L, L - {m}, old(mem[..]), mem1, mem[..]);
      lower := m;
    }

    /** The state between two public calls. */
    ghost predicate Ready()
      reads this
    {
      Settled() && CompleteAt(T, heads, root, g.maxOrder)
    }

    /** Every free tile is on the list of its order. */
    ghost predicate Full()
      reads this
    {
      AllComplete(T, heads, root)
    }

    /** The smallest order from `target` up whose list is not empty, or one past the top. */
    method FirstNonEmpty(target: nat) returns (ord: nat)
      requires Shaped() && target <= g.maxOrder
      ensures target <= ord <= g.maxOrder + 1
      ensures forall j :: target <= j < ord ==> heads[j] == NULL
      ensures ord <= g.maxOrder ==> heads[ord] != NULL
    {
      ord := target;
      while ord <= g.maxOrder && heads[ord] == NULL
        invariant target <= ord <= g.maxOrder + 1
        invariant forall j :: target <= j < ord ==> heads[j] == NULL
      {
        ord := ord + 1;
      }
    }

    /** The literal `buddy_alloc`. */
    method BuddyAlloc(usableSize: nat) returns (m: int)
      requires Ready()
      modifies this`hdr, this`heads, this`T, this`root, mem
      ensures Ready()
      ensures m == NULL ==>
               T == old(T) && hdr == old(hdr) && heads == old(heads) && root == old(root) && mem[..] == old(mem[..])
      ensures m != NULL ==>
                && m >= 0 && m in T && !T[m].free && IsOrderFor(g, usableSize, T[m].order)
                && m !in old(Live(T)) && Live(T) == old(Live(T))[m as nat := T[m].order]
      ensures Same(g.header, old(Live(T)), old(mem[..]), mem[..])
      ensures old(LowDropped(g, T, hdr, heads, -1)) ==>
                LowDropped(g, T, hdr, heads, -1) && (m != NULL ==> Aligned(m, g.maxOrder))
      ensures old(LowDropped(g, T, hdr, heads, -1)) ==> m == old(heads)[g.maxOrder]
    {
      hide Packed, ListsOk, HeadersOk, HeadersOkBut, Coalesced, CompleteAt, LowDropped, Tiled, Live, Same;
      hide BlockSize, Split;
      var target := SizeToOrder(usableSize);
      var ord := FirstNonEmpty(target);
      if ord > g.maxOrder {
        SameSelf(g.header, Live(T), mem[..]);
        return NULL;
      }
      m := heads[ord];
      HeadTile(T, hdr, heads, root, ord);
      ghost var L := Live(T);
      FreeNotLive(T, m);
      SameSelf(g.header, L, mem[..]);
      WithinSelf(g.header, L);
      LowAny(g, T, hdr, heads, ord);
      AlignedTile(g, T, m);
      ghost var m0 := m;
      if LowDropped(g, T, hdr, heads, -1) {
        LowHeads(g, T, hdr, heads, ord);
        assert Aligned(m0, g.maxOrder);
      }
      while ord > target
        invariant target <= ord <= g.maxOrder && Ready() && m == m0 && m in T && T[m].order == ord
        invariant m !in L && Live(T) - {m as nat} == L
        invariant ord == g.maxOrder ==> T[m].free
        invariant Same(g.header, L, old(mem[..]), mem[..])
        invariant old(LowDropped(g, T, hdr, heads, -1)) ==> LowDropped(g, T, hdr, heads, ord)
      {
        ghost var before := mem[..];
        m := SplitBlock(m, ord);
        SameChain(g.header, L, L, L, old(mem[..]), before, mem[..]);
        ord := ord - 1;
      }
      ghost var before := mem[..];
      TakeBlock(target, m);
      SameChain(g.header, L, L, L, old(mem[..]), before, mem[..]);
    }

    /**
     * The repaired `buddy_alloc` (not the code of the repository): takes the block off its list
     * once, then only splits.
     */
    method BuddyAllocRepaired(usableSize: nat) returns (m: int)
      requires Ready()
      modifies this`hdr, this`heads, this`T, this`root, mem
      ensures Ready() && (old(Full()) ==> Full())
      ensures m == NULL ==>
               T == old(T) && hdr == old(hdr) && heads == old(heads) && root == old(root) && mem[..] == old(mem[..])
      ensures m == NULL && old(Full()) ==> forall t, k :: t in T && T[t].free && IsOrderFor(g, usableSize, k) ==>
               T[t].order < k
      ensures m != NULL ==>
                && m >= 0 && m in T && !T[m].free && IsOrderFor(g, usableSize, T[m].order)
                && m !in old(Live(T)) && Live(T) == old(Live(T))[m as nat := T[m].order]
      ensures m != NULL ==> m in old(T) && old(T)[m].free && T[m].order <= old(T)[m].order
      ensures m != NULL && old(Full()) ==> BestFit(old(T), m, T[m].order)
      ensures Same(g.header, old(Live(T)), old(mem[..]), mem[..])
    {
      hide Packed, ListsOk, HeadersOk, HeadersOkBut, Coalesced, CompleteAt, LowDropped, Tiled, Live, Same;
      hide BlockSize, Split, BestFit;
      var target := SizeToOrder(usableSize);
      OrderUnique(g, usableSize, target);
      var ord := FirstNonEmpty(target);
      if Full() {
        EmptyMeansNone(g, T, hdr, heads, root, target, ord);
      }
      if ord > g.maxOrder {
        SameSelf(g.header, Live(T), mem[..]);
        return NULL;
      }
      m := heads[ord];
      HeadTile(T, hdr, heads, root, ord);
      ghost var L := Live(T);
      FreeNotLive(T, m);
      SameSelf(g.header, L, mem[..]);
      WithinSelf(g.header, L);
      TakeBlock(ord, m);
      while ord > target
        invariant target <= ord <= g.maxOrder && Ready() && m >= 0 && m in T && T[m] == Tile(ord, false)
        invariant m !in L && Live(T) == L[m as nat := ord]
        invariant old(Full()) ==> Full()
        invariant Same(g.header, L, old(mem[..]), mem[..])
      {
        ghost var before := mem[..];
        LiveHeader(T, hdr, m);
        SplitMarked(T, m);
        CutInHalf(m, ord);
        assert L[m as nat := ord] - {m as nat} == L;
        SameChain(g.header, L, L, L, old(mem[..]), before, mem[..]);
        ord := ord - 1;
      }
    }

    /** Puts a claimed block back as a free tile of its order: the end of `buddy_free_and_merge`. */
    method ReleaseBlock(order: nat, m: nat, ghost p: nat, ghost L: map<nat, nat>)
      requires Claim(m, order) && order <= g.maxOrder && (order < g.maxOrder ==> !BuddyFree(T, m, order))
      requires L - {p} == Live(T) - {m} && p in L && L[p] <= g.maxOrder && m <= p < m + BlockSize(order)
      modifies this`hdr, this`heads, this`T, this`root, mem
      ensures Settled() && Live(T) == L - {p} && m in T && T[m] == Tile(order, true)
      ensures forall j :: 0 <= j < |heads| && old(CompleteAt(T, heads, root, j)) ==> CompleteAt(T, heads, root, j)
      ensures old(LowDropped(g, T, hdr, heads, -1)) && TopLive(g, L) ==> LowDropped(g, T, hdr, heads, -1)
      ensures Same(g.header, old(Live(T)), old(mem[..]), mem[..])
      ensures m in hdr && hdr[m].isFree && forall t :: t in old(hdr) && t != m ==>
               t in hdr && hdr[t].isFree == old(hdr[t].isFree)
    {
      hide Packed, ListsOk, HeadersOk, Coalesced, CompleteAt, LowDropped, Tiled, Live, Same, BlockSize;
      hide BuddyFree, TopLive;
      hide LinkHeads, LinkRoot, Slot;
      ClaimedLinks(T, hdr, heads, root, m);
      ClaimedHeader(T, hdr, heads, root, m, hdr[m].(isFree := true));
      ClaimedFlag(T, hdr, m, hdr[m].(isFree := true));
      PutHeader(m, hdr[m].(isFree := true));
      ghost var T1, hdr1, heads1, root1, mem1 := T, hdr, heads, root, mem[..];
      WithinSelf(g.header, Live(T));
      ghost var q, n := FlInsert(order, m);
      ReleaseKeeps(g, T1, hdr1, heads1, root1, m, order, q, n);
      ReleaseComplete(g, T1, hdr1, heads1, root1, m, order, q, n);
      LinkTags(hdr1, m, q, n);
      SameChain(g.header, old(Live(T)), old(Live(T)), old(Live(T)), old(mem[..]), mem1, mem[..]);
      if old(LowDropped(g, T, hdr, heads, -1)) && TopLive(g, L) {
        ReleasedTop(g, T, m, p, L);
        SettleLow(g, T1, old(hdr), heads1, m, hdr1[m]);
        ReleaseLow(g, T1, hdr1, heads1, root1, m, q, n);
      }
    }

    /** Frees block `p`, merging it with its buddy as long as the buddy is free. */
    method BuddyFreeAndMerge(p: nat)
      requires Ready() && p in T && !T[p].free
      modifies this`hdr, this`heads, this`T, this`root, mem
      ensures Ready() && (old(Full()) ==> Full())
      ensures Live(T) == old(Live(T)) - {p}
      ensures old(LowDropped(g, T, hdr, heads, -1)) && TopLive(g, old(Live(T))) ==> LowDropped(g, T, hdr, heads, -1)
      ensures Same(g.header, old(Live(T)) - {p}, old(mem[..]), mem[..])
      ensures p in hdr && (hdr[p].isFree <==> p in T)
      ensures TopLive(g, old(Live(T))) ==> p in T
    {
      hide Packed, ListsOk, HeadersOk, Coalesced, CompleteAt, LowDropped, Tiled, Live, Same, BlockSize, TopLive;
      var m: nat := p;
      LiveHeader(T, hdr, p);
      AlignedTile(g, T, p);
      LiveMember(T, p);
      ghost var L := Live(T);
      var order := GetOrder(m, T[m].order);
      assert (L - {p})[p := order] == L;
      SameSelf(g.header, L - {p}, mem[..]);
      WithinSelf(g.header, L - {p});
      while order < g.maxOrder
        invariant order <= g.maxOrder && Claim(m, order) && CompleteAt(T, heads, root, g.maxOrder)
        invariant old(Full()) ==> Full()
        invariant p in hdr && !hdr[p].isFree
        invariant m !in L - {p} && Live(T) == (L - {p})[m := order] && m <= p < m + BlockSize(order)
        invariant old(LowDropped(g, T, hdr, heads, -1)) ==> LowDropped(g, T, hdr, heads, -1)
        invariant Same(g.header, L - {p}, old(mem[..]), mem[..])
      {
        var buddy := BuddyOf(m, order);
        BuddyIsTile(g, T, m);
        HeaderOfOther(T, hdr, m, buddy);
        if buddy >= g.Total() {
          break;
        }
        if !hdr[buddy].isFree || hdr[buddy].size != BlockSize(order) {
          break;
        }
        ghost var before, K := mem[..], Live(T);
        ClaimLess(g.header, L - {p}, m, order);
        assert L - {p} - {m} == L - {p};
        AlignedTile(g, T, m);
        GrowContains(m, p, order);
        m := AbsorbBuddy(m, order);
        SameChain(g.header, L - {p}, L - {p}, K, old(mem[..]), before, mem[..]);
        order := order + 1;
      }
      ClaimLess(g.header, L - {p}, m, order);
      assert L - {p} - {m} == L - {p};
      ghost var before, K := mem[..], Live(T);
      ReleaseBlock(order, m, p, L);
      InsideTile(g, T, m, p);
      if TopLive(g, L) {
        ReleasedInPlace(g, T, m, p, L);
      }
      SameChain(g.header, L - {p}, L - {p}, K, old(mem[..]), before, mem[..]);
    }

    // ---------- Initialization ----------

    /** The invariant between public calls. */
    ghost predicate Valid()
      reads this
    {
      && Shaped()
      && (forall a :: a in maps ==> a >= g.Total() && |maps[a]| >= g.Top())
      && if initialized then Ready() else T == map[] && forall k :: 0 <= k <= g.maxOrder ==> heads[k] == NULL
    }

    /** What the chosen split adds: complete lists, or the bare shape that the literal code leaves. */
    ghost predicate Exact()
      reads this
    {
      if repaired then Full() else LowDropped(g, T, hdr, heads, -1) && TopLive(g, Live(T))
    }

    constructor (g: Geometry, page: nat, repaired: bool)
      requires g.Ok() && page > 0
      ensures Valid() && Exact() && !initialized && Blocks() == map[]
      ensures this.g == g && this.page == page && this.repaired == repaired && fresh(mem)
    {
      this.g, this.page, this.repaired := g, page, repaired;
      mem := new bv8[g.Total()];
      initialized := false;
      hdr, maps := map[], map[];
      heads := seq(g.maxOrder + 1, _ => NULL);
      T, root := map[], map[];
    }

    /** Lays out the arena as free top-order blocks, once. */
    method BuddyInit()
      requires Valid()
      modifies this`initialized, this`hdr, this`heads, this`T, this`root, mem
      ensures Valid() && initialized
      ensures old(initialized) ==>
                T == old(T) && hdr == old(hdr) && heads == old(heads) && root == old(root) && mem[..] == old(mem[..])
      ensures !old(initialized) ==> T == Fresh(g) && Exact()
      ensures Live(T) == old(Live(T)) && Same(g.header, Live(T), old(mem[..]), mem[..])
    {
      hide Packed, ListsOk, HeadersOk, CompleteAt, LowDropped, Live, BlockSize, FreshBelow, Tiled, Coalesced;
      hide TopLive, Same;
      if initialized {
        SameSelf(g.header, Live(T), mem[..]);
        return;
      }
      initialized := true;
      StartEmpty(g, hdr, heads, root);
      var i := 0;
      while i < g.tops
        invariant initialized && 0 <= i <= g.tops && Shaped() && i * g.Top() <= g.Total()
                 && Aligned(i * g.Top(), g.maxOrder)
        invariant T == FreshBelow(g, i * g.Top()) && ListsOk(T, hdr, heads, root) && HeadersOk(T, hdr)
        invariant Full() && LowDropped(g, T, hdr, heads, -1)
      {
        MulStep(i, g.tops, g.Top());
        MultipleAligned(i + 1, g.maxOrder);
        InitBlock(i * g.Top());
        i := i + 1;
      }
      FreshTiled(g);
      TiledPacked(g, T);
      NoneLive(g, old(mem[..]), mem[..]);
      assert CompleteAt(T, heads, root, g.maxOrder);
    }

    /** The body of the loop of `buddy_init`. */
    method InitBlock(m: nat)
      requires Shaped() && Aligned(m, g.maxOrder) && m + g.Top() <= g.Total()
      requires T == FreshBelow(g, m) && ListsOk(T, hdr, heads, root) && HeadersOk(T, hdr)
      requires Full() && LowDropped(g, T, hdr, heads, -1)
      modifies this`hdr, this`heads, this`T, this`root, mem
      ensures Shaped() && T == FreshBelow(g, m + g.Top()) && ListsOk(T, hdr, heads, root) && HeadersOk(T, hdr)
      ensures Full() && LowDropped(g, T, hdr, heads, -1)
    {
      hide Packed, ListsOk, HeadersOk, CompleteAt, LowDropped, Live, Same, BlockSize, LinkHeads, LinkRoot;
      hide Slot, FreshBelow, Aligned;
      FreshStep(g, m);
      FreshPacked(g, m + g.Top());
      GainKeeps(g, T, hdr, heads, root, m, g.maxOrder);
      GainLow(g, T, hdr, heads, m);
      T := T[m := Tile(g.maxOrder, false)];
      PutHeader(m, Header(g.Top(), true, false, NULL, NULL));
      ghost var T1, hdr1, heads1, root1 := T, hdr, heads, root;
      ghost var p, n := FlInsert(g.maxOrder, m);
      ReleaseHeaders(T1, hdr1, heads1, root1, m, g.maxOrder, p, n);
      ReleaseComplete(g, T1, hdr1, heads1, root1, m, g.maxOrder, p, n);
      ReleaseLow(g, T1, hdr1, heads1, root1, m, p, n);
    }

    // ---------- Public interface ----------

    /** The live blocks and their contents, by header address: all that a user can observe. */
    ghost function Blocks(): map<nat, seq<bv8>>
      reads this, mem
    {
      ArenaBlocks(g.header, Live(T), mem[..]) + maps
    }

    /** A user pointer is null or points just past the header of a live block. */
    ghost predicate Pointer(p: int)
      reads this, mem
    {
      p == NULL || (p >= g.header && p - g.header in Blocks())
    }

    /** What the kernel may answer to `mmap`: failure, or an address in use by no one. */
    predicate FreshMap(addr: int)
      reads this
    {
      addr == NULL || (addr >= g.Total() && addr !in maps)
    }

    /** `n` usable bytes serve a request of `size`, except in the gap below the threshold. */
    predicate Serves(size: nat, n: nat) {
      n >= size <==> size + g.header <= g.Top() || size >= g.Top()
    }

    /** The tiling, before initialization the one that initialization will set up. */
    ghost function Tiles(): Tiling
      reads this
    {
      if initialized then T else Fresh(g)
    }

    ghost function Seen(): C.View
      reads this, mem
    {
      C.View(Tiles(), Blocks())
    }

    ghost predicate Refuses(size: nat, addr: int)
      reads this
    {
      C.Refused(g, repaired, Tiles(), size, addr)
    }

    function Config(): C.Config {
      C.Config(g, page, repaired)
    }

    /** A fresh zeroed region, rounded up to whole pages. */
    method MmapAlloc(size: nat, addr: nat)
      requires Valid() && FreshMap(addr) && size >= g.Top()
      modifies this`maps
      ensures Valid() && old(maps) == maps - {addr} && addr in maps
      ensures |maps[addr]| >= size && (|maps[addr]| + g.header) % page == 0 && |maps[addr]| < size + page
      ensures forall i :: 0 <= i < |maps[addr]| ==> maps[addr][i] == 0
      ensures Blocks() == old(Blocks())[addr := maps[addr]] && addr !in old(Blocks())
    {
      var total := g.header + size;
      var rounded := (total + page - 1) / page * page;
      RoundUp(total, page);
      MappedBlocks(g, T, mem[..], maps, addr, seq(rounded - g.header, _ => 0));
      maps := maps[addr := seq(rounded - g.header, _ => 0)];
    }

    method Smalloc(size: nat, addr: int) returns (p: int)
      requires Valid() && FreshMap(addr)
      modifies this`initialized, this`maps, this`hdr, this`heads, this`T, this`root, mem
      ensures Valid() && (old(Exact()) ==> Exact())
      ensures old(Exact()) ==> (p == NULL <==> size == 0 || size > MAX_ALLOC_SIZE || old(Refuses(size, addr)))
      ensures size == 0 || size > MAX_ALLOC_SIZE ==> p == NULL
      ensures p == NULL ==> Seen() == old(Seen())
      ensures p != NULL ==>
                && initialized && p >= g.header && p - g.header in Blocks() && p - g.header !in old(Blocks())
                && Blocks() == old(Blocks())[(p - g.header) as nat := Blocks()[p - g.header]]
                && Serves(size, |Blocks()[p - g.header]|)
                && (if size < g.Top() then p - g.header in T && IsOrderFor(g, size, T[p - g.header].order)
                    else p - g.header in maps && |maps[p - g.header]| < size + page)
                && (|Blocks()[p - g.header]| >= size || |Blocks()[p - g.header]| + g.header == g.Top())
      ensures p != NULL ==>
                && C.Fitting(g, page, size, |Blocks()[p - g.header]|)
                && (p - g.header in maps <==> size >= g.Top()) && (p - g.header in maps ==> p - g.header == addr)
                && (p - g.header in maps ==> maps[p - g.header] == Zeros(|maps[p - g.header]|))
      ensures p != NULL && size < g.Top() && old(Exact()) ==> C.Chosen(g, repaired, old(Tiles()), size, p - g.header)
    {
      hide Packed, ListsOk, HeadersOk, CompleteAt, LowDropped, Live, Same, BlockSize, Tiled, Coalesced;
      hide TopLive, ArenaBlocks, Usable;
      if size == 0 || size > MAX_ALLOC_SIZE {
        return NULL;
      }
      BuddyInit();
      SameBlocks(g.header, Live(T), old(mem[..]), mem[..]);
      FreshServes(g, size);
      if size >= g.Top() {
        if addr == NULL {
          return NULL;
        }
        MmapAlloc(size, addr);
        assert maps[addr] == Zeros(|maps[addr]|);
        return addr + g.header;
      }
      p := ArenaAlloc(size);
    }

    ghost predicate CanServe(size: nat)
      reads this
    {
      C.ServedFrom(g, repaired, T, size)
    }

    method ArenaAlloc(size: nat) returns (p: int)
      requires Valid() && initialized && size < g.Top()
      modifies this`hdr, this`heads, this`T, this`root, mem
      ensures Valid() && initialized && (old(Exact()) ==> Exact())
      ensures old(Exact()) ==> (p != NULL <==> old(CanServe(size)))
      ensures old(Exact()) && p != NULL ==>
                && p - g.header in T
                && BestFit(old(T), p - g.header, if repaired then T[p - g.header].order else g.maxOrder)
      ensures p == NULL ==> Blocks() == old(Blocks()) && T == old(T)
      ensures p != NULL ==>
                && p >= g.header && p - g.header in Blocks() && p - g.header !in old(Blocks())
                && p - g.header in T && !T[p - g.header].free && IsOrderFor(g, size, T[p - g.header].order)
                && Blocks() == old(Blocks())[(p - g.header) as nat := Blocks()[p - g.header]]
                && Serves(size, |Blocks()[p - g.header]|)
                && (|Blocks()[p - g.header]| >= size || |Blocks()[p - g.header]| + g.header == g.Top())
      ensures p != NULL ==> C.Fitting(g, page, size, |Blocks()[p - g.header]|)
      ensures p != NULL && old(Exact()) ==> C.Chosen(g, repaired, old(T), size, p - g.header)
    {
      hide Packed, ListsOk, HeadersOk, CompleteAt, LowDropped, Live, Same, BlockSize, Tiled, Coalesced;
      hide TopLive, ArenaBlocks, Usable, BestFit;
      var m: int;
      ghost var L, before := Live(T), mem[..];
      TopListed(g, T, hdr, heads, root);
      if heads[g.maxOrder] != NULL {
        TopIsBest(g, T, hdr, heads, root);
      }
      if repaired {
        m := BuddyAllocRepaired(size);
      } else {
        m := BuddyAlloc(size);
      }
      if m == NULL {
        SameBlocks(g.header, L, before, mem[..]);
        return NULL;
      }
      LiveMember(T, m);
      UsableSize(g, T, m, mem[..]);
      GainedBlocks(g.header, L, m, T[m].order, before, mem[..], maps);
      OrderFits(g, size, T[m].order);
      if TopLive(g, L) && Aligned(m, g.maxOrder) {
        TopLiveGain(g, L, m, T[m].order);
      }
      p := m + g.header;
    }

    /** An arena address whose header is marked free: `sfree` ignores it. */
    predicate Noticed(p: int)
      reads this
    {
      p >= g.header && p - g.header !in maps && p - g.header in hdr && hdr[p - g.header].isFree
    }

    /**
     * `sfree`: frees a live block, and does nothing for null or for a header that is marked free.
     * As written, the header of a freed arena block is always marked free; with the repaired split
     * exactly if the block did not merge into a lower one, and so still starts a tile.
     */
    method Sfree(p: int)
      requires Valid() && (Pointer(p) || Noticed(p))
      modifies this`maps, this`hdr, this`heads, this`T, this`root, mem
      ensures Valid() && (old(Exact()) ==> Exact())
      ensures p == NULL || old(Noticed(p)) ==>
                && hdr == old(hdr) && heads == old(heads) && T == old(T) && mem[..] == old(mem[..])
                && Blocks() == old(Blocks())
      ensures p != NULL ==> Blocks() == old(Blocks()) - {(p - g.header) as nat}
      ensures maps == old(maps) - {p - g.header}
      ensures p != NULL && p - g.header !in old(maps) && !old(Noticed(p)) ==>
                p - g.header in hdr && (Noticed(p) <==> p - g.header in T)
      ensures p != NULL && p - g.header !in old(maps) && old(Exact()) && !repaired ==> Noticed(p)
    {
      hide Packed, ListsOk, HeadersOk, CompleteAt, LowDropped, Live, Same, BlockSize, Tiled, Coalesced;
      hide TopLive, ArenaBlocks, Usable;
      if p == NULL {
        return;
      }
      var m: nat := p - g.header;
      ghost var L, before := Live(T), mem[..];
      if m in maps {
        UnmappedBlocks(g, T, mem[..], maps, m);
        maps := maps - {m};
        return;
      }
      if Pointer(p) {
        BlockIsLive(g.header, L, mem[..], maps, m);
        LiveMember(T, m);
        LiveHeader(T, hdr, m);
      }
      if hdr[m].isFree {
        return;
      }
      if TopLive(g, L) {
        TopLiveLoss(g, L, m);
      }
      BuddyFreeAndMerge(m);
      LostBlocks(g.header, L, m, before, mem[..], maps);
    }

    /** Copies bytes inside the arena, as if through a temporary buffer, into live block `m`. */
    method MemMove(dst: nat, src: nat, n: nat, ghost m: nat)
      requires Ready() && m in T && !T[m].free && m + g.header <= dst && dst + n <= End(T, m) && src + n <= g.Total()
      modifies this`hdr, mem
      ensures Ready() && (old(LowDropped(g, T, hdr, heads, -1)) ==> LowDropped(g, T, hdr, heads, -1))
      ensures Copied(dst, src, n, old(mem[..]), mem[..])
    {
      AlignedTile(g, T, m);
      ScribbleKeeps(g, T, hdr, heads, root, m, dst, dst + n);
      hdr := Scribbled(g.header, hdr, dst, dst + n);
      forall i | 0 <= i < n {
        mem[dst + i] := mem[src + i];
      }
    }

    /** The real merge loop of `srealloc`: absorbs every buddy from order `orig` up to `ord`. */
    method GrowMerge(m: nat, orig: nat, ord: nat) returns (merged: nat)
      requires Ready() && m in T && T[m] == Tile(orig, false) && orig < ord <= g.maxOrder && FreePath(T, m, orig, ord)
      modifies this`hdr, this`heads, this`T, this`root, mem
      ensures Ready() && (old(Full()) ==> Full())
      ensures old(LowDropped(g, T, hdr, heads, -1)) ==> LowDropped(g, T, hdr, heads, -1)
      ensures merged == BuddyArith.Base(m, ord) && merged in T && T[merged] == Tile(ord, false)
      ensures Live(T) == (old(Live(T)) - {m})[merged := ord] && merged !in old(Live(T)) - {m}
      ensures Same(g.header, old(Live(T)), old(mem[..]), mem[..])
    {
      hide Packed, ListsOk, HeadersOk, CompleteAt, LowDropped, Live, Same, BlockSize, Tiled, Coalesced;
      hide TopLive, BuddyArith.Base, Merge, FreePath, BuddyFree, Aligned;
      ghost var L := Live(T);
      LiveMember(T, m);
      LiveHeader(T, hdr, m);
      AlignedTile(g, T, m);
      BaseFacts(m, orig);
      ClaimedLinks(T, hdr, heads, root, m);
      ClaimedHeader(T, hdr, heads, root, m, hdr[m].(isFree := true));
      ClaimedFlag(T, hdr, m, hdr[m].(isFree := true));
      if LowDropped(g, T, hdr, heads, -1) {
        SettleLow(g, T, hdr, heads, m, hdr[m].(isFree := true));
      }
      PutHeader(m, hdr[m].(isFree := true));
      WithinSelf(g.header, L);
      merged := m;
      var mergeOrd := orig;
      assert L == (L - {m})[m := orig];
      while mergeOrd < ord
        invariant orig <= mergeOrd <= ord && Claim(merged, mergeOrd) && CompleteAt(T, heads, root, g.maxOrder)
        invariant merged == BuddyArith.Base(m, mergeOrd) && FreePath(T, m, mergeOrd, ord)
        invariant old(Full()) ==> Full()
        invariant old(LowDropped(g, T, hdr, heads, -1)) ==> LowDropped(g, T, hdr, heads, -1)
        invariant Live(T) == (L - {m})[merged := mergeOrd] && merged !in L - {m}
        invariant Same(g.header, L, old(mem[..]), mem[..])
      {
        ghost var before, K := mem[..], Live(T);
        BaseWithin(m, orig, mergeOrd);
        GrowWithin(g.header, L, m, merged, mergeOrd);
        AlignedTile(g, T, merged);
        FreePathStep(g, T, m, merged, mergeOrd, ord);
        BaseOfBase(m, mergeOrd);
        merged := AbsorbBuddy(merged, mergeOrd);
        SameChain(g.header, L, L, K, old(mem[..]), before, mem[..]);
        mergeOrd := mergeOrd + 1;
      }
      BaseWithin(m, orig, ord);
      GrowWithin(g.header, L, m, merged, ord);
      ClaimedLinks(T, hdr, heads, root, merged);
      SettleHeader(T, hdr, heads, root, merged, hdr[merged].(isFree := false));
      if LowDropped(g, T, hdr, heads, -1) {
        SettleLow(g, T, hdr, heads, merged, hdr[merged].(isFree := false));
      }
      ghost var before, K := mem[..], Live(T);
      PutHeader(merged, hdr[merged].(isFree := false));
      SameChain(g.header, L, L, K, old(mem[..]), before, mem[..]);
    }

    /** Case (b) of `srealloc`: simulates the merges first, and performs them only if they suffice. */
    method TryGrow(m: nat, size: nat) returns (r: int)
      requires Ready() && m in T && !T[m].free && BlockSize(T[m].order) < size + g.header
      modifies this`hdr, this`heads, this`T, this`root, mem
      ensures Ready() && (old(Full()) ==> Full())
      ensures old(LowDropped(g, T, hdr, heads, -1)) ==> LowDropped(g, T, hdr, heads, -1)
      ensures r == NULL ==>
               T == old(T) && hdr == old(hdr) && heads == old(heads) && root == old(root) && mem[..] == old(mem[..])
      ensures r == NULL <==> !CanGrow(g, old(T), m, size)
      ensures r != NULL ==>
                && r >= 0 && r in T && !T[r].free && IsOrderFor(g, size, T[r].order)
                         && BlockSize(T[r].order) >= size + g.header
                && r == BuddyArith.Base(m, T[r].order) && FreePath(old(T), m, old(T)[m].order, T[r].order)
                && Live(T) == (old(Live(T)) - {m})[r as nat := T[r].order] && r !in old(Live(T)) - {m}
      ensures m in old(Live(T))
      ensures Same(g.header, old(Live(T)) - {m}, old(mem[..]), mem[..])
      ensures r != NULL ==> r in Live(T)
      ensures r != NULL ==>
                var u, v := old(Usable(g.header, Live(T), m, mem[..])), Usable(g.header, Live(T), r, mem[..]);
                |u| <= |v| && v[..|u|] == u
    {
      hide Packed, ListsOk, HeadersOk, CompleteAt, LowDropped, Live, Same, BlockSize, Tiled, Coalesced;
      hide TopLive, BuddyArith.Base, FreePath, Aligned, Usable;
      ghost var L := Live(T);
      LiveMember(T, m);
      LiveHeader(T, hdr, m);
      AlignedTile(g, T, m);
      var origOrder := GetOrder(m, T[m].order);
      var cur: nat, ord := m, origOrder;
      BaseFacts(m, ord);
      EmptyPath(T, m, ord);
      while ord < g.maxOrder
        invariant origOrder <= ord <= g.maxOrder && cur == BuddyArith.Base(m, ord)
        invariant FreePath(T, m, origOrder, ord)
        invariant BlockSize(ord) < size + g.header
        invariant T == old(T) && hdr == old(hdr) && heads == old(heads) && root == old(root) && mem[..] == old(mem[..])
      {
        var buddy := BuddyOf(cur, ord);
        BaseFacts(m, ord);
        BlockBuddyIsTile(g, T, m, cur, ord);
        HeaderOfOther(T, hdr, m, buddy);
        if buddy >= g.Total() {
          break;
        }
        if !hdr[buddy].isFree || hdr[buddy].size != BlockSize(ord) {
          break;
        }
        LongerPath(T, m, origOrder, ord);
        BaseStep(m, ord);
        if buddy < cur {
          cur := buddy;
        }
        ord := ord + 1;
        if BlockSize(ord) - g.header >= size {
          r := GrowAndCopy(m, origOrder, ord);
          LeastOrder(g, size, ord);
          return;
        }
      }
      NoPath(g, T, m, ord, size);
      SameSelf(g.header, L - {m}, mem[..]);
      return NULL;
    }

    /** Performs the merges and moves the contents down if the base has changed. */
    method GrowAndCopy(m: nat, orig: nat, ord: nat) returns (merged: nat)
      requires Ready() && m in T && T[m] == Tile(orig, false) && orig < ord <= g.maxOrder && FreePath(T, m, orig, ord)
      modifies this`hdr, this`heads, this`T, this`root, mem
      ensures Ready() && (old(Full()) ==> Full())
      ensures old(LowDropped(g, T, hdr, heads, -1)) ==> LowDropped(g, T, hdr, heads, -1)
      ensures merged == BuddyArith.Base(m, ord) && merged in T && T[merged] == Tile(ord, false) && merged in Live(T)
      ensures Live(T) == (old(Live(T)) - {m})[merged := ord] && merged !in old(Live(T)) - {m} && m in old(Live(T))
      ensures Same(g.header, old(Live(T)) - {m}, old(mem[..]), mem[..])
      ensures var u, v := old(Usable(g.header, Live(T), m, mem[..])), Usable(g.header, Live(T), merged, mem[..]);
              |u| <= |v| && v[..|u|] == u
    {
      hide Packed, ListsOk, HeadersOk, CompleteAt, LowDropped, Live, Same, BlockSize, Tiled, Coalesced;
      hide TopLive, BuddyArith.Base, FreePath, BuddyFree, Aligned, Usable, Copied;
      ghost var L, before := Live(T), mem[..];
      LiveMember(T, m);
      AlignedTile(g, T, m);
      BaseWithin(m, orig, ord);
      merged := GrowMerge(m, orig, ord);
      ghost var middle := mem[..];
      var usable := BlockSize(orig) - g.header;
      AlignedTile(g, T, merged);
      CopiedInPlace(m + g.header, usable, middle);
      if merged != m {
        MemMove(merged + g.header, m + g.header, usable, merged);
      }
      LiveMember(T, merged);
      GrowContents(g, T, L, m, merged, ord, before, middle, mem[..]);
    }

    /** Copies all of arena block `m` to the start of arena block `n`. */
    method CopyInArena(n: nat, m: nat)
      requires Valid() && initialized && m != n && m in Blocks() && n in Blocks() && m !in maps && n !in maps
      requires |Blocks()[m]| <= |Blocks()[n]|
      modifies this`hdr, mem
      ensures Valid() && (old(Exact()) ==> Exact())
      ensures Blocks() == old(Blocks())[n := old(Blocks()[m]) + old(Blocks()[n])[|old(Blocks()[m])|..]]
    {
      hide Packed, ListsOk, HeadersOk, CompleteAt, LowDropped, Live, Same, BlockSize, Tiled, Coalesced;
      hide TopLive, Usable, Copied, ArenaBlocks;
      ghost var L, before := Live(T), mem[..];
      ArenaBlock(g, T, hdr, before, maps, m);
      ArenaBlock(g, T, hdr, before, maps, n);
      SizeOrder(L[m], L[n]);
      var count := hdr[m].size - g.header;
      MemMove(n + g.header, m + g.header, count, n);
      CopiedBlocks(g, T, n, m, before, mem[..], maps);
    }

    /** Copies all of block `m` to the start of block `n`. */
    method CopyPayload(n: nat, m: nat)
      requires Valid() && initialized && m != n && m in Blocks() && n in Blocks() && (m in maps ==> n in maps)
      requires |Blocks()[m]| <= |Blocks()[n]|
      modifies this`maps, this`hdr, mem
      ensures Valid() && (old(Exact()) ==> Exact())
      ensures Blocks() == old(Blocks())[n := old(Blocks()[m]) + old(Blocks()[n])[|old(Blocks()[m])|..]]
      ensures maps.Keys == old(maps.Keys) && T == old(T)
    {
      hide Packed, ListsOk, HeadersOk, CompleteAt, LowDropped, Live, Same, BlockSize, Tiled, Coalesced;
      hide TopLive, Usable, Copied, ArenaBlocks;
      if n !in maps {
        CopyInArena(n, m);
        return;
      }
      ghost var L, before := Live(T), mem[..];
      var data: seq<bv8>;
      if m in maps {
        data := maps[m];
      } else {
        BlockIsLive(g.header, L, before, maps, m);
        UsableSize(g, T, m, before);
        LiveMember(T, m);
        LiveHeader(T, hdr, m);
        data := mem[m + g.header..m + hdr[m].size];
      }
      RemapBlocks(ArenaBlocks(g.header, L, before), maps, n, data + maps[n][|data|..]);
      maps := maps[n := data + maps[n][|data|..]];
    }

    /** Case (c) of `srealloc`, and its mapped case: another block, the contents, then the old block. */
    method MoveTo(m: nat, size: nat, addr: int) returns (p: int)
      requires Valid() && FreshMap(addr) && m in Blocks() && |Blocks()[m]| < size <= MAX_ALLOC_SIZE
      modifies this`initialized, this`maps, this`hdr, this`heads, this`T, this`root, mem
      ensures Valid() && (old(Exact()) ==> Exact())
      ensures old(Exact()) ==> (p == NULL <==> old(Refuses(size, addr)))
      ensures p == NULL ==> Seen() == old(Seen())
      ensures p != NULL ==>
                && p >= g.header && p - g.header in Blocks() && Moved(old(Blocks()), Blocks(), m, p - g.header, size)
                && Serves(size, |Blocks()[p - g.header]|) && p - g.header !in old(Blocks())
                && C.Fitting(g, page, size, |Blocks()[p - g.header]|)
                && (p - g.header in maps <==> size >= g.Top()) && (p - g.header in maps ==> p - g.header == addr)
      ensures p != NULL && size < g.Top() && old(Exact()) ==> C.Chosen(g, repaired, old(Tiles()), size, p - g.header)
    {
      hide Packed, ListsOk, HeadersOk, CompleteAt, LowDropped, Live, Same, BlockSize, Tiled, Coalesced;
      hide TopLive, ArenaBlocks, Usable, Moved;
      if m !in maps {
        BlockIsLive(g.header, Live(T), mem[..], maps, m);
        BlockAtMostTop(g, T, m, mem[..]);
      }
      ghost var A := Blocks();
      p := Smalloc(size, addr);
      if p == NULL {
        return;
      }
      var n: nat := p - g.header;
      MovedByCopy(A, m, n, Blocks()[n], size);
      CopyPayload(n, m);
      Sfree(m + g.header);
    }

    /** Block `m` is too small for `size` and cannot grow in place. */
    ghost predicate NeedsMove(m: nat, size: nat)
      reads this, mem
    {
      m in Blocks() && |Blocks()[m]| < size && (m in maps || m !in T || !CanGrow(g, T, m, size))
    }

    /** Cases (b) and (c) of `srealloc`: an arena block that is too small grows in place, or moves. */
    method GrowOrMove(m: nat, size: nat, addr: int) returns (p: int)
      requires Valid() && FreshMap(addr) && m in Blocks() && m !in maps && |Blocks()[m]| < size <= MAX_ALLOC_SIZE
      modifies this`initialized, this`maps, this`hdr, this`heads, this`T, this`root, mem
      ensures Valid() && (old(Exact()) ==> Exact())
      ensures p == NULL ==> Seen() == old(Seen())
      ensures old(Exact()) ==> (p == NULL <==> old(NeedsMove(m, size) && Refuses(size, addr)))
      ensures p != NULL ==>
                && p >= g.header && p - g.header in Blocks() && Moved(old(Blocks()), Blocks(), m, p - g.header, size)
                && Serves(size, |Blocks()[p - g.header]|)
      ensures p != NULL && !old(NeedsMove(m, size)) ==>
                p - g.header in T && p - g.header == BuddyArith.Base(m, T[p - g.header].order)
      ensures p != NULL && old(NeedsMove(m, size)) ==>
                && p - g.header !in old(Blocks())
                && (size < g.Top() && old(Exact()) ==> C.Chosen(g, repaired, old(Tiles()), size, p - g.header))
      ensures p != NULL ==>
                && C.Fitting(g, page, size, |Blocks()[p - g.header]|)
                && (p - g.header in maps <==> size >= g.Top()) && (p - g.header in maps ==> p - g.header == addr)
    {
      hide Packed, ListsOk, HeadersOk, CompleteAt, LowDropped, Live, Same, BlockSize, Tiled, Coalesced;
      hide TopLive, Usable, ArenaBlocks, Moved, CanGrow;
      ghost var L, before := Live(T), mem[..];
      BlockIsLive(g.header, L, before, maps, m);
      LiveMember(T, m);
      UsableSize(g, T, m, before);
      if TopLive(g, L) {
        TopLiveGrowAny(g, L, m);
      }
      var r := TryGrow(m, size);
      if r != NULL {
        UsableSize(g, T, r, mem[..]);
        OrderFits(g, size, T[r].order);
        NotABlock(g, L, m, r, before, maps);
        MovedBlocks(g.header, L, m, r, T[r].order, before, mem[..], maps);
        MovedByGrowth(old(Blocks()), m, r, Usable(g.header, Live(T), r, mem[..]), size);
        return r + g.header;
      }
      p := MoveTo(m, size, addr);
    }

    /**
     * `srealloc`.  A block that is large enough stays; an arena block grows in place when the
     * buddies on the way to a sufficient order are free; otherwise it moves to a new block.
     */
    method Srealloc(oldp: int, size: nat, addr: int) returns (p: int)
      requires Valid() && Pointer(oldp) && FreshMap(addr)
      modifies this`initialized, this`maps, this`hdr, this`heads, this`T, this`root, mem
      ensures Valid() && (old(Exact()) ==> Exact())
      ensures size == 0 || size > MAX_ALLOC_SIZE ==> p == NULL
      ensures old(Exact()) ==>
                (p == NULL <==>
                  || size == 0 || size > MAX_ALLOC_SIZE
                  || old(Refuses(size, addr) && (oldp == NULL || NeedsMove(oldp - g.header, size))))
      ensures p == NULL ==> Seen() == old(Seen())
      ensures p != NULL ==> p >= g.header && p - g.header in Blocks()
      ensures p != NULL && oldp == NULL ==>
                && p - g.header !in old(Blocks())
                && Blocks() == old(Blocks())[(p - g.header) as nat := Blocks()[p - g.header]]
                && Serves(size, |Blocks()[p - g.header]|)
      ensures p != NULL && oldp != NULL ==>
                var m: nat, r: nat := oldp - g.header, p - g.header;
                && Moved(old(Blocks()), Blocks(), m, r, size)
                && (if |old(Blocks())[m]| >= size then r == m && Seen() == old(Seen())
                    else Serves(size, |Blocks()[r]|)
                         && (if old(NeedsMove(m, size)) then r !in old(Blocks())
                                  else r in T && r == BuddyArith.Base(m, T[r].order)))
      ensures p != NULL && (oldp == NULL || |old(Blocks())[oldp - g.header]| < size) ==>
                && C.Fitting(g, page, size, |Blocks()[p - g.header]|)
                && (p - g.header in maps <==> size >= g.Top()) && (p - g.header in maps ==> p - g.header == addr)
      ensures p != NULL && old(Exact()) && size < g.Top() && (oldp == NULL || old(NeedsMove(oldp - g.header, size))) ==>
                C.Chosen(g, repaired, old(Tiles()), size, p - g.header)
    {
      hide Packed, ListsOk, HeadersOk, CompleteAt, LowDropped, Live, Same, BlockSize, Tiled, Coalesced;
      hide TopLive, Usable, ArenaBlocks, Moved, CanGrow;
      if size == 0 || size > MAX_ALLOC_SIZE {
        return NULL;
      }
      if oldp == NULL {
        p := Smalloc(size, addr);
        return;
      }
      var m: nat := oldp - g.header;
      if m in maps {
        if |maps[m]| >= size {
          MovedInPlace(Blocks(), m, size);
          return oldp;
        }
        p := MoveTo(m, size, addr);
        return;
      }
      BlockIsLive(g.header, Live(T), mem[..], maps, m);
      LiveMember(T, m);
      LiveHeader(T, hdr, m);
      UsableSize(g, T, m, mem[..]);
      var usable := hdr[m].size - g.header;
      if usable >= size {
        MovedInPlace(Blocks(), m, size);
        return oldp;
      }
      p := GrowOrMove(m, size, addr);
    }

    // ---------- What users do with their blocks ----------

    /** A user stores one byte into a live block. */
    method Store(p: int, i: nat, b: bv8)
      requires Valid() && p != NULL && Pointer(p) && i < |Blocks()[p - g.header]|
      modifies this`maps, this`hdr, mem
      ensures Valid() && (old(Exact()) ==> Exact())
      ensures var m: nat := p - g.header;
              Blocks() == old(Blocks())[m := old(Blocks())[m][i := b]]
      ensures maps.Keys == old(maps.Keys) && T == old(T)
    {
      hide Packed, ListsOk, HeadersOk, CompleteAt, LowDropped, Live, Same, BlockSize, Tiled, Coalesced;
      hide TopLive, Usable, ArenaBlocks;
      var m: nat := p - g.header;
      ghost var L, before := Live(T), mem[..];
      if m in maps {
        RemapBlocks(ArenaBlocks(g.header, L, before), maps, m, maps[m][i := b]);
        maps := maps[m := maps[m][i := b]];
        return;
      }
      BlockIsLive(g.header, L, before, maps, m);
      UsableSize(g, T, m, before);
      LiveMember(T, m);
      var x := m + g.header + i;
      ScribbleKeeps(g, T, hdr, heads, root, m, x, x + 1);
      hdr := Scribbled(g.header, hdr, x, x + 1);
      mem[x] := b;
      StoredUsable(g, T, m, i, b, before, mem[..]);
      WriteBlocks(g, T, m, before, mem[..], maps);
    }

    /**
     * `scalloc`, with the product as the machine computes it.  In the gap below the threshold the
     * block is smaller than what the code clears; `excess` is the number of bytes beyond the block.
     * Those are counted here and not written.
     */
    method Scalloc(num: nat, size: nat, addr: int) returns (p: int, excess: nat)
      requires Valid() && FreshMap(addr)
      modifies this`initialized, this`maps, this`hdr, this`heads, this`T, this`root, mem
      ensures Valid() && (old(Exact()) ==> Exact())
      ensures p == NULL ==> Seen() == old(Seen()) && excess == 0
      ensures old(Exact()) ==>
                var total := Product(num, size);
                (p == NULL <==> total == 0 || total > MAX_ALLOC_SIZE || old(Refuses(total, addr)))
      ensures p != NULL ==>
                var total := Product(num, size);
                && p >= g.header && p - g.header in Blocks() && p - g.header !in old(Blocks())
                && Blocks() == old(Blocks())[(p - g.header) as nat := Blocks()[p - g.header]]
                && excess <= total <= |Blocks()[p - g.header]| + excess
                && Zeros(total - excess) <= Blocks()[p - g.header]
                && (excess > 0 <==> g.Top() < total + g.header && total < g.Top())
                && (excess > 0 ==> total - excess == |Blocks()[p - g.header]|)
      ensures p != NULL ==>
                var total := Product(num, size);
                && C.Fitting(g, page, total, |Blocks()[p - g.header]|)
                && (p - g.header in maps <==> total >= g.Top()) && (p - g.header in maps ==> p - g.header == addr)
      ensures p != NULL && Product(num, size) < g.Top() && old(Exact()) ==>
                C.Chosen(g, repaired, old(Tiles()), Product(num, size), p - g.header)
    {
      hide Valid, Exact, Blocks, Refuses, IsOrderFor, C.Fitting, C.Chosen;
      excess := 0;
      if num == 0 || size == 0 {
        return NULL, 0;
      }
      var total := Product(num, size);
      if total > MAX_ALLOC_SIZE {
        return NULL, 0;
      }
      p := Smalloc(total, addr);
      if p == NULL {
        return;
      }
      ghost var A, m: nat := Blocks(), p - g.header;
      var room := SizeOf(p - g.header);
      if total > room {
        excess := total - room;
      }
      var i := 0;
      ZerosStart(A[m]);
      while i < total - excess
        invariant 0 <= i <= total - excess && Valid() && (old(Exact()) ==> Exact())
        invariant Blocks() == A[m := Zeros(i) + A[m][i..]]
        invariant m in maps <==> total >= g.Top()
      {
        ZerosStep(A[m], i);
        Store(p, i, 0);
        i := i + 1;
      }
    }

    /** The number of usable bytes of a live block. */
    method SizeOf(m: nat) returns (n: nat)
      requires Valid() && m in Blocks()
      ensures n == |Blocks()[m]|
    {
      if m in maps {
        return |maps[m]|;
      }
      BlockIsLive(g.header, Live(T), mem[..], maps, m);
      UsableSize(g, T, m, mem[..]);
      LiveMember(T, m);
      LiveHeader(T, hdr, m);
      n := hdr[m].size - g.header;
    }

    // ---------- Statistics ----------

    /** Walks the arena from header to header. */
    method CountAllBuddy() returns (blocks: nat, bytes: int)
      requires Valid()
      ensures !initialized ==> blocks == 0 && bytes == 0
      ensures initialized ==> blocks == |T| && bytes + blocks * g.header == g.Total()
    {
      hide ListsOk, HeadersOk, CompleteAt, BlockSize, Tiled, Packed, Coalesced;
      blocks, bytes := 0, 0;
      if !initialized {
        return;
      }
      var ptr: nat := 0;
      FirstTile(g, T);
      ghost var seen := {};
      while ptr < g.Total()
        invariant ptr in T || ptr == g.Total()
        invariant ptr <= g.Total() && bytes + blocks * g.header == ptr
        invariant blocks == |seen| && forall t :: t in seen <==> t in T && t < ptr
        decreases g.Total() - ptr
      {
        LiveHeader(T, hdr, ptr);
        NextTile(g, T, ptr);
        if hdr[ptr].size == 0 {
          break;
        }
        blocks := blocks + 1;
        bytes := bytes + (hdr[ptr].size - g.header);
        seen := seen + {ptr};
        ptr := ptr + hdr[ptr].size;
      }
      forall t | t in T
        ensures t < g.Total()
      {
        NextTile(g, T, t);
      }
      assert seen == T.Keys;
    }

    /** Counts the entries of one free list. */
    method CountList(ord: nat) returns (count: nat)
      requires Base() && ord <= g.maxOrder
      ensures count == |ListedOf(T, heads, root, ord)|
    {
      hide Packed, ListsOk;
      ghost var all, seen := ListedOf(T, heads, root, ord), {};
      count := 0;
      var m: int := heads[ord];
      if m != NULL {
        HeadListed(T, hdr, heads, root, ord);
      } else {
        NoneListed(T, heads, root, ord);
      }
      while m != NULL
        invariant m != NULL ==> m in all && m >= 0
        invariant count == |seen| && seen == set t | t in all && (m == NULL || t < m)
        decreases if m == NULL then 0 else g.Total() + 1 - m
      {
        NextListed(g, T, hdr, heads, root, ord, m);
        count := count + 1;
        seen := seen + {m as nat};
        m := hdr[m].next;
      }
      assert seen == all;
    }

    /** `_num_free_blocks`: the entries of all lists; with complete lists, the free tiles. */
    method NumFreeBlocks() returns (count: nat)
      requires Base()
      ensures count == |ListedBelow(T, heads, root, |heads|)|
      ensures Full() ==> count == |FreeTiles(T)|
    {
      hide Packed, ListsOk, CompleteAt;
      count := 0;
      var ord := 0;
      while ord <= g.maxOrder
        invariant 0 <= ord <= g.maxOrder + 1 && count == CountBelow(T, heads, root, ord)
      {
        var n := CountList(ord);
        count := count + n;
        ord := ord + 1;
      }
      CountBelowIsCount(T, heads, root, |heads|);
      if Full() {
        ListedIsFree(g, T, heads, root);
      }
    }

    /** `_num_free_bytes`: the usable bytes of all list entries; with complete lists, of all free tiles. */
    method NumFreeBytes() returns (bytes: int)
      requires Base() && HeadersOk(T, hdr)
      ensures bytes == UsableSum(g.header, T, ListedBelow(T, heads, root, |heads|))
      ensures Full() ==> bytes == UsableSum(g.header, T, FreeTiles(T))
    {
      hide Packed, ListsOk, HeadersOk, BlockSize, CompleteAt, UsableSum;
      bytes := 0;
      var ord := 0;
      while ord <= g.maxOrder
        invariant 0 <= ord <= g.maxOrder + 1 && bytes == BytesBelow(g.header, T, heads, root, ord)
      {
        var n := ListBytes(ord);
        bytes := bytes + n;
        ord := ord + 1;
      }
      BytesBelowIsSum(g.header, T, heads, root, |heads|);
      if Full() {
        ListedIsFree(g, T, heads, root);
      }
    }

    /** The inner loop of `_num_free_bytes`. */
    method ListBytes(ord: nat) returns (bytes: int)
      requires Base() && HeadersOk(T, hdr) && ord <= g.maxOrder
      ensures bytes == |ListedOf(T, heads, root, ord)| * (BlockSize(ord) - g.header)
    {
      hide Packed, ListsOk, HeadersOk, BlockSize;
      ghost var all, seen := ListedOf(T, heads, root, ord), {};
      bytes := 0;
      var m: int := heads[ord];
      if m != NULL {
        HeadListed(T, hdr, heads, root, ord);
      } else {
        NoneListed(T, heads, root, ord);
      }
      while m != NULL
        invariant m != NULL ==> m in all && m >= 0
        invariant bytes == |seen| * (BlockSize(ord) - g.header) && seen == set t | t in all && (m == NULL || t < m)
        decreases if m == NULL then 0 else g.Total() + 1 - m
      {
        NextListed(g, T, hdr, heads, root, ord, m);
        LiveHeader(T, hdr, m);
        ghost var more := seen + {m as nat};
        assert |more| == |seen| + 1;
        bytes := bytes + (hdr[m].size - g.header);
        seen := more;
        m := hdr[m].next;
      }
      assert seen == all;
    }
  }
}
