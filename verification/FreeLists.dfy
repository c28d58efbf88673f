/**
 * The address-sorted free lists threaded through the block headers.
 *
 * The free tiles of each order are partitioned into ascending chains; `root` records, for every
 * free tile, the first tile of its chain.  A list head is null or the first tile of one chain.
 * A tile is listed when its chain is the one the head of its order points to.
 */
module FreeLists {
  import opened BuddyArith
  import opened Tilings

  const NULL := -1

  datatype Header = Header(size: nat, isFree: bool, isMmap: bool, next: int, prev: int)

  type Headers = map<nat, Header>

  /** The header of tile `t` says what the tiling says. */
  predicate HeaderOk(T: Tiling, hdr: Headers, t: nat)
    requires t in T
  {
    && t in hdr
    && hdr[t].size == BlockSize(T[t].order)
    && hdr[t].isFree == T[t].free
    && !hdr[t].isMmap
  }

  predicate NextOk(T: Tiling, hdr: Headers, t: nat, n: int)
    requires t in T
  {
    n > t && n in T && T[n] == T[t] && n in hdr && hdr[n].prev == t
  }

  predicate PrevOk(T: Tiling, hdr: Headers, root: map<nat, nat>, t: nat, p: int)
    requires t in T && t in root
  {
    0 <= p < t && p in T && T[p] == T[t] && p in hdr && hdr[p].next == t
    && p in root && root[p] == root[t]
  }

  /** The links of one tile: a live tile has none, a free tile sits in an ascending chain. */
  predicate Linked(T: Tiling, hdr: Headers, root: map<nat, nat>, t: nat)
    requires t in T
  {
    && t in hdr
    && if !T[t].free then hdr[t].next == NULL && hdr[t].prev == NULL
       else
         && t in root && root[t] <= t
         && (hdr[t].next != NULL ==> NextOk(T, hdr, t, hdr[t].next))
         && (if hdr[t].prev == NULL then root[t] == t else PrevOk(T, hdr, root, t, hdr[t].prev))
  }

  predicate HeadOk(T: Tiling, hdr: Headers, heads: seq<int>, k: nat)
    requires k < |heads|
  {
    var m: int := heads[k];
    m != NULL ==> m in T && T[m] == Tile(k, true) && m in hdr && hdr[m].prev == NULL
  }

  /** The invariant of all free lists together. */
  ghost predicate ListsOk(T: Tiling, hdr: Headers, heads: seq<int>, root: map<nat, nat>) {
    && (forall t {:trigger Linked(T, hdr, root, t)} :: t in T ==> Linked(T, hdr, root, t))
    && (forall k {:trigger HeadOk(T, hdr, heads, k)} :: 0 <= k < |heads| ==> HeadOk(T, hdr, heads, k))
  }

  predicate Listed(T: Tiling, heads: seq<int>, root: map<nat, nat>, t: nat)
    requires t in T && T[t].order < |heads|
  {
    T[t].free && t in root && root[t] == heads[T[t].order]
  }

  /** Every free tile of order `k` is on the list of order `k`. */
  ghost predicate CompleteAt(T: Tiling, heads: seq<int>, root: map<nat, nat>, k: nat)
    requires k < |heads|
  {
    forall t :: t in T && T[t] == Tile(k, true) ==> t in root && root[t] == heads[k]
  }

  // ---------- Unlinking ----------

  function Reroot(root: map<nat, nat>, m: nat, n: nat): map<nat, nat> {
    map t | t in root :: if root[t] == m then n else root[t]
  }

  predicate Linkable(hdr: Headers, m: nat) {
    m in hdr && (hdr[m].prev == NULL || hdr[m].prev in hdr) && (hdr[m].next == NULL || hdr[m].next in hdr)
  }

  /** The headers after `fl_remove(_, m)`. */
  function UnlinkHeaders(hdr: Headers, m: nat): Headers
    requires Linkable(hdr, m)
  {
    var h0 := if hdr[m].prev != NULL then hdr[hdr[m].prev := hdr[hdr[m].prev].(next := hdr[m].next)] else hdr;
    var h1 := if h0[m].next != NULL && h0[m].next in h0
              then h0[h0[m].next := h0[h0[m].next].(prev := h0[m].prev)] else h0;
    h1[m := h1[m].(next := NULL, prev := NULL)]
  }

  /** The list heads after `fl_remove(k, m)`. */
  function UnlinkHeads(hdr: Headers, heads: seq<int>, k: nat, m: nat): seq<int>
    requires m in hdr && k < |heads|
  {
    if hdr[m].prev == NULL then heads[k := hdr[m].next] else heads
  }

  function UnlinkRoot(hdr: Headers, root: map<nat, nat>, m: nat): map<nat, nat>
    requires m in hdr
  {
    if hdr[m].prev == NULL && hdr[m].next >= 0 then Reroot(root, m, hdr[m].next) else root
  }

  /** What unlinking changes, header by header. */
  lemma UnlinkEffect(T: Tiling, hdr: Headers, heads: seq<int>, root: map<nat, nat>, m: nat)
    requires ListsOk(T, hdr, heads, root) && m in T
    ensures Linkable(hdr, m)
    ensures var h := UnlinkHeaders(hdr, m);
            && h.Keys == hdr.Keys
            && (forall t :: t in hdr ==>
                  && h[t].size == hdr[t].size && h[t].isFree == hdr[t].isFree && h[t].isMmap == hdr[t].isMmap
                  && h[t].next == (if t == m then NULL else if t == hdr[m].prev then hdr[m].next else hdr[t].next)
                  && h[t].prev == (if t == m then NULL else if t == hdr[m].next then hdr[m].prev else hdr[t].prev))
  {
    assert Linked(T, hdr, root, m);
  }

  /** Unlinking a free tile leaves a well-formed set of lists in which the tile is claimed. */
  lemma UnlinkKeeps(T: Tiling, hdr: Headers, heads: seq<int>, root: map<nat, nat>, k: nat, m: nat)
    requires ListsOk(T, hdr, heads, root) && k < |heads| && m in T && T[m] == Tile(k, true)
    requires Linkable(hdr, m)
    ensures ListsOk(Mark(T, m, false), UnlinkHeaders(hdr, m), UnlinkHeads(hdr, heads, k, m), UnlinkRoot(hdr, root, m))
  {
    UnlinkEffect(T, hdr, heads, root, m);
    var M, h, hs, r := Mark(T, m, false), UnlinkHeaders(hdr, m), UnlinkHeads(hdr, heads, k, m),
                        UnlinkRoot(hdr, root, m);
    assert Linked(T, hdr, root, m);
    hide UnlinkHeaders;
    forall t | t in M
      ensures Linked(M, h, r, t)
    {
      UnlinkKeepsLinks(T, hdr, heads, root, h, m, t);
    }
    forall j | 0 <= j < |hs|
      ensures HeadOk(M, h, hs, j)
    {
      assert HeadOk(T, hdr, heads, j);
      if hdr[m].next != NULL {
        assert Linked(T, hdr, root, hdr[m].next);
      }
    }
  }

  lemma UnlinkKeepsLinks(T: Tiling, hdr: Headers, heads: seq<int>, root: map<nat, nat>, h: Headers, m: nat, t: nat)
    requires ListsOk(T, hdr, heads, root) && m in T && T[m].free && t in T && m in hdr
    requires h.Keys == hdr.Keys
    requires forall u :: u in hdr ==>
        && h[u].next == (if u == m then NULL else if u == hdr[m].prev then hdr[m].next else hdr[u].next)
        && h[u].prev == (if u == m then NULL else if u == hdr[m].next then hdr[m].prev else hdr[u].prev)
    ensures Linked(Mark(T, m, false), h, UnlinkRoot(hdr, root, m), t)
  {
    assert Linked(T, hdr, root, m) && Linked(T, hdr, root, t);
    if t != m && T[t].free {
      var n, p := hdr[m].next, hdr[m].prev;
      if p == NULL && root[t] == m {
        NextIsLeast(T, hdr, heads, root, m, t);
      }
      if n != NULL {
        assert Linked(T, hdr, root, n);
      }
      if p != NULL {
        assert Linked(T, hdr, root, p);
      }
      if hdr[t].next != NULL {
        assert Linked(T, hdr, root, hdr[t].next);
      }
      if hdr[t].prev != NULL {
        assert Linked(T, hdr, root, hdr[t].prev);
      }
    }
  }

  /** Unlinking a free tile keeps every complete list complete. */
  lemma UnlinkComplete(T: Tiling, hdr: Headers, heads: seq<int>, root: map<nat, nat>, k: nat, m: nat, j: nat)
    requires ListsOk(T, hdr, heads, root) && k < |heads| && j < |heads| && m in T && T[m] == Tile(k, true)
    requires m in hdr && CompleteAt(T, heads, root, j)
    ensures CompleteAt(Mark(T, m, false), UnlinkHeads(hdr, heads, k, m), UnlinkRoot(hdr, root, m), j)
  {
    assert Linked(T, hdr, root, m);
    var M := Mark(T, m, false);
    forall t | t in M && M[t] == Tile(j, true)
      ensures t in root && UnlinkRoot(hdr, root, m)[t] == UnlinkHeads(hdr, heads, k, m)[j]
    {
      assert Linked(T, hdr, root, t);
      RootIsFree(T, hdr, heads, root, t);
      if j == k && hdr[m].prev == NULL && hdr[m].next == NULL {
        OnlyChild(T, hdr, heads, root, m, t);
      }
    }
  }

  /** The root of a free tile is a free tile of the same order that starts its chain. */
  lemma {:induction false} RootIsFree(T: Tiling, hdr: Headers, heads: seq<int>, root: map<nat, nat>, t: nat)
    requires ListsOk(T, hdr, heads, root) && t in T && T[t].free
    ensures t in root && root[t] in T && T[root[t]] == T[t] && root[t] in root && root[root[t]] == root[t]
    ensures root[t] in hdr && hdr[root[t]].prev == NULL
    decreases t
  {
    assert Linked(T, hdr, root, t);
    if hdr[t].prev != NULL {
      RootIsFree(T, hdr, heads, root, hdr[t].prev);
    }
  }

  /** Within one chain, the next tile of `m` is the least one above `m`. */
  lemma {:induction false} NextIsLeast(T: Tiling, hdr: Headers, heads: seq<int>, root: map<nat, nat>, m: nat, t: nat)
    requires ListsOk(T, hdr, heads, root) && m in T && T[m].free && t in T && T[t].free
    requires m in root && t in root && root[m] == root[t] && m < t
    ensures m in hdr && m < hdr[m].next <= t
    decreases t
  {
    assert Linked(T, hdr, root, m) && Linked(T, hdr, root, t);
    var p := hdr[t].prev;
    assert p != NULL;
    assert Linked(T, hdr, root, p);
    if p > m {
      NextIsLeast(T, hdr, heads, root, m, p);
    } else if p < m {
      NextIsLeast(T, hdr, heads, root, p, m);
    }
  }

  lemma OnlyChild(T: Tiling, hdr: Headers, heads: seq<int>, root: map<nat, nat>, m: nat, t: nat)
    requires ListsOk(T, hdr, heads, root) && m in T && T[m].free && t in T && T[t].free
    requires m in hdr && hdr[m].prev == NULL && hdr[m].next == NULL
    requires m in root && t in root && root[t] == root[m]
    ensures t == m
  {
    assert Linked(T, hdr, root, m) && Linked(T, hdr, root, t);
    if t > m {
      NextIsLeast(T, hdr, heads, root, m, t);
    }
  }

  // ---------- Linking ----------

  /** The headers after linking the claimed tile `m` between `p` and `n`. */
  function LinkHeaders(hdr: Headers, m: nat, p: int, n: int): Headers
    requires m in hdr && (p == NULL || p in hdr) && (n == NULL || n in hdr)
  {
    var h0 := hdr[m := hdr[m].(isFree := true, next := n, prev := p)];
    var h1 := if n != NULL then h0[n := h0[n].(prev := m)] else h0;
    if p != NULL then h1[p := h1[p].(next := m)] else h1
  }

  /** What `fl_insert` writes first: `m` is free and linked to nothing. */
  function Unlinked(hdr: Headers, m: nat): Headers
    requires m in hdr
  {
    hdr[m := hdr[m].(isFree := true, next := NULL, prev := NULL)]
  }

  /** The writes that put `m` in front of `n`. */
  lemma FrontWrites(hdr: Headers, m: nat, n: int)
    requires m in hdr && (n == NULL || n in hdr) && n != m
    ensures var h1 := Unlinked(hdr, m)[m := Unlinked(hdr, m)[m].(next := n)];
            && (n == NULL ==> h1 == LinkHeaders(hdr, m, NULL, n))
            && (n != NULL ==> n in h1 && h1[n := h1[n].(prev := m)] == LinkHeaders(hdr, m, NULL, n))
  {}

  /** The writes that put `m` between `p` and `n`. */
  lemma BetweenWrites(hdr: Headers, m: nat, p: nat, n: int)
    requires m in hdr && p in hdr && (n == NULL || n in hdr) && n != m && p != m && p != n
    ensures var h1 := Unlinked(hdr, m)[m := Unlinked(hdr, m)[m].(next := n, prev := p)];
            && p in h1
            && (n == NULL ==> h1[p := h1[p].(next := m)] == LinkHeaders(hdr, m, p, n))
            && (n != NULL ==>
                  && n in h1
                  && var h2 := h1[n := h1[n].(prev := m)];
                  p in h2 && h2[p := h2[p].(next := m)] == LinkHeaders(hdr, m, p, n))
  {}

  function LinkHeads(heads: seq<int>, k: nat, m: nat, p: int): seq<int>
    requires k < |heads|
  {
    if p == NULL then heads[k := m] else heads
  }

  function LinkRoot(root: map<nat, nat>, m: nat, p: int, n: int): map<nat, nat>
    requires p == NULL || p in root
  {
    if p != NULL then root[m := root[p]]
    else if n >= 0 then Reroot(root, n, m)[m := m]
    else root[m := m]
  }

  /** Linking changes links and the free flag of `m`, no other flag or size. */
  lemma LinkTags(hdr: Headers, m: nat, p: int, n: int)
    requires m in hdr && (p == NULL || p in hdr) && (n == NULL || n in hdr)
    ensures var h := LinkHeaders(hdr, m, p, n);
            && h.Keys == hdr.Keys
            && forall t :: t in hdr ==>
                 h[t].size == hdr[t].size && h[t].isFree == (t == m || hdr[t].isFree) && h[t].isMmap == hdr[t].isMmap
  {}

  /** `p` and `n` are neighbours on the list of order `k` and `m` belongs between them. */
  predicate Slot(T: Tiling, hdr: Headers, heads: seq<int>, root: map<nat, nat>, k: nat, m: nat, p: int, n: int)
    requires k < |heads|
  {
    && (n == NULL || n > m)
    && if p == NULL then n == heads[k]
       else p < m && p in T && T[p] == Tile(k, true) && p in hdr && hdr[p].next == n
            && p in root && root[p] == heads[k]
  }

  lemma SlotNext(T: Tiling, hdr: Headers, heads: seq<int>, root: map<nat, nat>, k: nat, m: nat, p: int, n: int)
    requires ListsOk(T, hdr, heads, root) && k < |heads| && Slot(T, hdr, heads, root, k, m, p, n)
    ensures n != NULL ==> n in T && T[n] == Tile(k, true) && n in hdr && hdr[n].prev == p && n in root
    ensures n != NULL ==> root[n] == heads[k]
  {
    assert HeadOk(T, hdr, heads, k);
    if p != NULL {
      assert Linked(T, hdr, root, p);
    }
    if n != NULL {
      assert Linked(T, hdr, root, n);
    }
  }

  /** Linking a claimed tile into its slot leaves well-formed lists in which it is free. */
  lemma LinkKeeps(T: Tiling, hdr: Headers, heads: seq<int>, root: map<nat, nat>, k: nat, m: nat, p: int, n: int)
    requires ListsOk(T, hdr, heads, root) && k < |heads| && m in T && T[m] == Tile(k, false)
    requires Slot(T, hdr, heads, root, k, m, p, n)
    ensures m in hdr && (p == NULL || p in hdr) && (n == NULL || n in hdr)
    ensures ListsOk(Mark(T, m, true), LinkHeaders(hdr, m, p, n), LinkHeads(heads, k, m, p), LinkRoot(root, m, p, n))
  {
    assert Linked(T, hdr, root, m);
    SlotNext(T, hdr, heads, root, k, m, p, n);
    var M, h, hs, r := Mark(T, m, true), LinkHeaders(hdr, m, p, n), LinkHeads(heads, k, m, p), LinkRoot(root, m, p, n);
    forall t | t in M
      ensures Linked(M, h, r, t)
    {
      LinkKeepsLinks(T, hdr, heads, root, k, m, p, n, t);
    }
    forall j | 0 <= j < |hs|
      ensures HeadOk(M, h, hs, j)
    {
      assert HeadOk(T, hdr, heads, j);
    }
  }

  lemma LinkKeepsLinks(T: Tiling, hdr: Headers, heads: seq<int>, root: map<nat, nat>, k: nat, m: nat, p: int, n: int,
                       t: nat)
    requires ListsOk(T, hdr, heads, root) && k < |heads| && m in T && T[m] == Tile(k, false) && t in T
    requires Slot(T, hdr, heads, root, k, m, p, n)
    requires m in hdr && (p == NULL || p in hdr) && (n == NULL || n in hdr)
    ensures Linked(Mark(T, m, true), LinkHeaders(hdr, m, p, n), LinkRoot(root, m, p, n), t)
  {
    assert Linked(T, hdr, root, m) && Linked(T, hdr, root, t);
    SlotNext(T, hdr, heads, root, k, m, p, n);
    assert HeadOk(T, hdr, heads, k);
    if p != NULL {
      assert Linked(T, hdr, root, p);
    }
    if n != NULL {
      assert Linked(T, hdr, root, n);
    }
    if t != m && T[t].free {
      if hdr[t].next != NULL {
        assert Linked(T, hdr, root, hdr[t].next);
      }
      if hdr[t].prev != NULL {
        assert Linked(T, hdr, root, hdr[t].prev);
      }
    }
  }

  lemma LinkComplete(T: Tiling, hdr: Headers, heads: seq<int>, root: map<nat, nat>, k: nat, m: nat, p: int, n: int,
                     j: nat)
    requires ListsOk(T, hdr, heads, root) && k < |heads| && j < |heads| && m in T && T[m] == Tile(k, false)
    requires Slot(T, hdr, heads, root, k, m, p, n) && CompleteAt(T, heads, root, j)
    ensures CompleteAt(Mark(T, m, true), LinkHeads(heads, k, m, p), LinkRoot(root, m, p, n), j)
  {
    var M := Mark(T, m, true);
    SlotNext(T, hdr, heads, root, k, m, p, n);
    forall t | t in M && M[t] == Tile(j, true) && t != m
      ensures t in root && LinkRoot(root, m, p, n)[t] == LinkHeads(heads, k, m, p)[j]
    {
      RootIsFree(T, hdr, heads, root, t);
      if n != NULL {
        RootIsFree(T, hdr, heads, root, n);
      }
    }
  }

  /** Setting a head to null keeps the chains: its tiles are merely no longer listed. */
  lemma DropHead(T: Tiling, hdr: Headers, heads: seq<int>, root: map<nat, nat>, k: nat)
    requires ListsOk(T, hdr, heads, root) && k < |heads|
    ensures ListsOk(T, hdr, heads[k := NULL], root)
  {
    var hs := heads[k := NULL];
    forall j | 0 <= j < |hs|
      ensures HeadOk(T, hdr, hs, j)
    {
      assert HeadOk(T, hdr, heads, j);
    }
  }

  /** Changing only live tiles and headers that are not free keeps the lists. */
  lemma LiveChange(T: Tiling, hdr: Headers, heads: seq<int>, root: map<nat, nat>, M: Tiling, h: Headers)
    requires ListsOk(T, hdr, heads, root)
    requires forall t :: t in M && M[t].free ==> t in T && T[t] == M[t] && t in h && t in hdr && h[t] == hdr[t]
    requires forall t :: t in T && T[t].free ==> t in M && M[t] == T[t]
    requires forall t :: t in M && !M[t].free ==> t in h && h[t].next == NULL && h[t].prev == NULL
    ensures ListsOk(M, h, heads, root)
  {
    forall t | t in M
      ensures Linked(M, h, root, t)
    {
      if M[t].free {
        assert Linked(T, hdr, root, t);
        if hdr[t].next != NULL {
          assert Linked(T, hdr, root, hdr[t].next);
        }
        if hdr[t].prev != NULL {
          assert Linked(T, hdr, root, hdr[t].prev);
        }
      }
    }
    forall k | 0 <= k < |heads|
      ensures HeadOk(M, h, heads, k)
    {
      assert HeadOk(T, hdr, heads, k);
    }
  }

  lemma ClaimedHeader(T: Tiling, hdr: Headers, heads: seq<int>, root: map<nat, nat>, m: nat, v: Header)
    requires ListsOk(T, hdr, heads, root) && m in T && !T[m].free && v.next == NULL && v.prev == NULL
    ensures ListsOk(T, hdr[m := v], heads, root)
  {
    forall t | t in T
      ensures t in hdr && (!T[t].free ==> hdr[t].next == NULL && hdr[t].prev == NULL)
    {
      assert Linked(T, hdr, root, t);
    }
    LiveChange(T, hdr, heads, root, T, hdr[m := v]);
  }

  lemma HeadTile(T: Tiling, hdr: Headers, heads: seq<int>, root: map<nat, nat>, k: nat)
    requires ListsOk(T, hdr, heads, root) && k < |heads| && heads[k] != NULL
    ensures heads[k] >= 0 && var m: nat := heads[k]; m in T && T[m] == Tile(k, true)
  {
    assert HeadOk(T, hdr, heads, k);
  }

  lemma HeadIsOk(T: Tiling, hdr: Headers, heads: seq<int>, root: map<nat, nat>, k: nat)
    requires ListsOk(T, hdr, heads, root) && k < |heads|
    ensures HeadOk(T, hdr, heads, k)
  {}

  lemma LinkedHeader(T: Tiling, hdr: Headers, heads: seq<int>, root: map<nat, nat>, t: nat)
    requires ListsOk(T, hdr, heads, root) && t in T
    ensures t in hdr
  {
    assert Linked(T, hdr, root, t);
  }

  /** Below the head of a list, the slot is in front of it. */
  lemma FrontSlot(T: Tiling, hdr: Headers, heads: seq<int>, root: map<nat, nat>, k: nat, m: nat)
    requires ListsOk(T, hdr, heads, root) && k < |heads| && m in T && !T[m].free
    ensures var n := heads[k];
            && n != m && (n == NULL || (n in hdr && n in T))
            && (n == NULL || m < n ==> Slot(T, hdr, heads, root, k, m, NULL, n))
  {
    assert HeadOk(T, hdr, heads, k);
    assert heads[k] != NULL ==> Linked(T, hdr, root, heads[k]);
  }

  lemma LinkedTile(T: Tiling, hdr: Headers, heads: seq<int>, root: map<nat, nat>, t: nat)
    requires ListsOk(T, hdr, heads, root) && t in T
    ensures Linked(T, hdr, root, t)
  {}

  /** Every free tile is on the list of its order. */
  ghost predicate AllComplete(T: Tiling, heads: seq<int>, root: map<nat, nat>) {
    forall k {:trigger CompleteAt(T, heads, root, k)} :: 0 <= k < |heads| ==> CompleteAt(T, heads, root, k)
  }

  /** The head of a complete list is the lowest free tile of its order. */
  lemma HeadIsLowest(T: Tiling, hdr: Headers, heads: seq<int>, root: map<nat, nat>, t: nat)
    requires ListsOk(T, hdr, heads, root) && t in T && T[t].free && T[t].order < |heads|
    requires CompleteAt(T, heads, root, T[t].order)
    ensures heads[T[t].order] != NULL && heads[T[t].order] <= t
  {
    assert Linked(T, hdr, root, t);
  }
}
