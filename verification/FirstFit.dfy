/**
 * The first-fit allocator: one doubly linked list of headers in address order, searched from the
 * front, and grown at the program break.  The break only moves up, and other users may move it too.
 */
module FirstFit {

  import opened Sizes

  const NULL := -1

  /** The header found at an address. */
  datatype Node = Node(size: nat, isFree: bool, next: int, prev: int)

  /** The answer of `sbrk`: it refuses, or grants memory `gap` bytes above this heap's last end. */
  datatype Grant = Refused | Granted(gap: nat)

  type Blocks = map<int, seq<bv8>>

  function At(order: seq<int>, i: int): int {
    if 0 <= i < |order| then order[i] else NULL
  }

  /** Every listed address holds a header. */
  ghost predicate Known(nodes: map<int, Node>, order: seq<int>) {
    forall i :: 0 <= i < |order| ==> order[i] in nodes && 0 <= order[i]
  }

  /** The header at position `i` is linked to its neighbours, both ways. */
  ghost predicate LinkAt(nodes: map<int, Node>, order: seq<int>, i: nat)
    requires i < |order| && order[i] in nodes
  {
    nodes[order[i]].next == At(order, i + 1) && nodes[order[i]].prev == At(order, i - 1)
  }

  /** The headers reached from `head` are those of `order`, in that order, and there are no others. */
  ghost predicate Linked(nodes: map<int, Node>, head: int, order: seq<int>) {
    && (forall a :: a in nodes ==> a in order)
    && Known(nodes, order)
    && head == At(order, 0)
    && (forall i :: 0 <= i < |order| ==> LinkAt(nodes, order, i))
  }

  ghost predicate Apart(nodes: map<int, Node>, order: seq<int>, meta: nat) {
    && Known(nodes, order)
    && (forall i, j :: 0 <= i < j < |order| ==> order[i] + meta + nodes[order[i]].size <= order[j])
  }

  ghost predicate Below(nodes: map<int, Node>, meta: nat, brk: nat) {
    forall a :: a in nodes ==> 0 <= a && a + meta + nodes[a].size <= brk
  }

  predicate Fits(n: Node, size: nat) {
    n.isFree && n.size >= size
  }

  ghost predicate NoFit(nodes: map<int, Node>, size: nat) {
    forall a :: a in nodes ==> !Fits(nodes[a], size)
  }

  /** `m` is the free block of sufficient size with the lowest address. */
  ghost predicate LowestFit(nodes: map<int, Node>, size: nat, m: int) {
    && m in nodes && Fits(nodes[m], size)
    && forall a :: a in nodes && Fits(nodes[a], size) ==> m <= a
  }

  /** No block disappears and no block changes its size. */
  ghost predicate SizesKept(before: map<int, Node>, after: map<int, Node>) {
    forall a :: a in before ==> a in after && after[a].size == before[a].size
  }

  /** The live blocks, by header address, with all their usable bytes. */
  ghost function BlocksOf(nodes: map<int, Node>, mem: seq<bv8>, meta: nat): Blocks
    requires Below(nodes, meta, |mem|)
  {
    map a | a in nodes && !nodes[a].isFree :: mem[a + meta..a + meta + nodes[a].size]
  }

  /** Any two blocks, headers included, occupy disjoint addresses. */
  lemma Disjoint(nodes: map<int, Node>, head: int, order: seq<int>, meta: nat, a: int, b: int)
    requires Linked(nodes, head, order) && Apart(nodes, order, meta) && a in nodes && b in nodes && a != b
    ensures a + meta + nodes[a].size <= b || b + meta + nodes[b].size <= a
  {
    var i :| 0 <= i < |order| && order[i] == a;
    var j :| 0 <= j < |order| && order[j] == b;
  }

  /** In an address-ordered list the first fit is the lowest one. */
  lemma FirstIsLowest(nodes: map<int, Node>, head: int, order: seq<int>, meta: nat, size: nat, k: nat)
    requires Linked(nodes, head, order) && Apart(nodes, order, meta) && k < |order|
    requires Fits(nodes[order[k]], size) && forall i :: 0 <= i < k ==> !Fits(nodes[order[i]], size)
    ensures LowestFit(nodes, size, order[k])
  {
    forall a | a in nodes && Fits(nodes[a], size)
      ensures order[k] <= a
    {
      var j :| 0 <= j < |order| && order[j] == a;
    }
  }

  // ---------- Changes to the header table ----------

  /** The header table after `alloc_new_block` put a block of `size` bytes at `m`. */
  function Appended(nodes: map<int, Node>, tail: int, m: int, size: nat): map<int, Node>
    requires tail == NULL || tail in nodes
  {
    var added := nodes[m := Node(size, false, NULL, tail)];
    if tail == NULL then added else added[tail := nodes[tail].(next := m)]
  }

  /** `after` has the blocks of `before`, unchanged but for links, and one more, in use, at `m`. */
  ghost predicate OneMore(before: map<int, Node>, after: map<int, Node>, m: int) {
    && m !in before && m in after && !after[m].isFree
    && (forall a :: a in before ==>
          a in after && after[a].size == before[a].size && after[a].isFree == before[a].isFree)
    && (forall a :: a in after ==> a == m || a in before)
  }

  /** The writes of `alloc_new_block`, to an empty and to a non-empty list. */
  lemma AppendWrites(nodes: map<int, Node>, tail: int, m: int, size: nat)
    requires (tail == NULL || tail in nodes) && m !in nodes
    ensures var after := Appended(nodes, tail, m, size);
            && OneMore(nodes, after, m) && after[m].size == size
            && var n1 := nodes[m := Node(size, false, NULL, NULL)];
            && (tail == NULL ==> n1 == after)
            && (tail != NULL ==>
                  && tail in n1
                  && var n2 := n1[tail := n1[tail].(next := m)];
                  n2[m := n2[m].(prev := tail)] == after)
  {}

  lemma AppendLinked(nodes: map<int, Node>, head: int, order: seq<int>, meta: nat, brk: nat, m: int, size: nat)
    requires Linked(nodes, head, order) && Apart(nodes, order, meta) && Below(nodes, meta, brk) && brk <= m && meta > 0
    ensures m !in nodes
    ensures var tail := At(order, |order| - 1);
            && (head == NULL <==> tail == NULL) && (tail == NULL || tail in nodes)
            && Linked(Appended(nodes, tail, m, size), if head == NULL then m else head, order + [m])
  {
    var tail := At(order, |order| - 1);
    var after := Appended(nodes, tail, m, size);
    var longer := order + [m];
    assert forall i :: 0 <= i < |order| ==> longer[i] == order[i];
    forall i | 0 <= i < |longer|
      ensures LinkAt(after, longer, i)
    {
      if i < |order| {
        assert LinkAt(nodes, order, i);
      }
    }
  }

  lemma AppendApart(before: map<int, Node>, after: map<int, Node>, order: seq<int>, meta: nat, brk: nat, m: int)
    requires Apart(before, order, meta) && Below(before, meta, brk) && brk <= m && 0 <= m
    requires OneMore(before, after, m)
    ensures Apart(after, order + [m], meta) && Below(after, meta, m + meta + after[m].size)
  {
    var longer := order + [m];
    assert forall i :: 0 <= i < |order| ==> longer[i] == order[i];
  }

  lemma AppendBytes(nodes: map<int, Node>, head: int, order: seq<int>, m: int, size: nat)
    requires Linked(nodes, head, order) && m !in nodes && 0 <= m
    ensures var after := Appended(nodes, At(order, |order| - 1), m, size);
            && Known(after, order + [m])
            && Bytes(after, order + [m], false) == Bytes(nodes, order, false) + size
            && |after| == |nodes| + 1
  {
    hide Bytes;
    var after := Appended(nodes, At(order, |order| - 1), m, size);
    var longer := order + [m];
    assert forall i :: 0 <= i < |order| ==> longer[i] == order[i];
    assert after.Keys == nodes.Keys + {m};
    assert |after.Keys| == |nodes.Keys| + 1;
    BytesKept(nodes, after, order);
    BytesLast(after, order, m);
  }

  lemma BytesLast(nodes: map<int, Node>, order: seq<int>, m: int)
    requires Known(nodes, order) && m in nodes && Known(nodes, order + [m])
    ensures Bytes(nodes, order + [m], false) == Bytes(nodes, order, false) + nodes[m].size
  {
    assert (order + [m])[..|order|] == order;
  }

  lemma AppendBlocks(before: map<int, Node>, after: map<int, Node>, mem: seq<bv8>, mem': seq<bv8>, meta: nat, m: int)
    requires OneMore(before, after, m) && mem <= mem'
    requires Below(before, meta, |mem|) && Below(after, meta, |mem'|)
    ensures m !in BlocksOf(before, mem, meta)
    ensures BlocksOf(after, mem', meta) == BlocksOf(before, mem, meta)[m := mem'[m + meta..m + meta + after[m].size]]
  {
    var b, b' := BlocksOf(before, mem, meta), BlocksOf(after, mem', meta);
    var longer := b[m := mem'[m + meta..m + meta + after[m].size]];
    forall a | a in longer
      ensures a in b' && b'[a] == longer[a]
    {
      if a != m {
        SamePrefix(mem, mem', a + meta, a + meta + before[a].size);
      }
    }
    assert forall a :: a in b' ==> a in longer;
  }

  lemma SamePrefix(s: seq<bv8>, t: seq<bv8>, lo: nat, hi: nat)
    requires s <= t && lo <= hi <= |s|
    ensures s[lo..hi] == t[lo..hi]
  {}

  // ---------- The statistics ----------

  /** The sizes of the listed blocks added up, of all of them or of the free ones only. */
  ghost function Bytes(nodes: map<int, Node>, order: seq<int>, freeOnly: bool): nat
    requires Known(nodes, order)
  {
    if order == [] then 0
    else
      var n := nodes[order[|order| - 1]];
      Bytes(nodes, order[..|order| - 1], freeOnly) + (if n.isFree || !freeOnly then n.size else 0)
  }

  lemma {:induction false} BytesKept(n0: map<int, Node>, n1: map<int, Node>, order: seq<int>)
    requires Known(n0, order) && Known(n1, order)
    requires forall i :: 0 <= i < |order| ==> n0[order[i]].size == n1[order[i]].size
    ensures Bytes(n0, order, false) == Bytes(n1, order, false)
  {
    if order != [] {
      BytesKept(n0, n1, order[..|order| - 1]);
    }
  }

  /** What holds of the headers, of the break and of the addresses other users took below it. */
  ghost predicate WellFormed(nodes: map<int, Node>, head: int, order: seq<int>, meta: nat, brk: nat, holes: nat) {
    && meta > 0
    && Linked(nodes, head, order) && Apart(nodes, order, meta) && Below(nodes, meta, brk)
    && brk == holes + Bytes(nodes, order, false) + meta * |nodes|
  }

  lemma AppendKeeps(nodes: map<int, Node>, head: int, order: seq<int>, meta: nat, brk: nat, holes: nat,
                    gap: nat, m: int, size: nat)
    requires WellFormed(nodes, head, order, meta, brk, holes) && m == brk + gap
    ensures m !in nodes
    ensures var tail := At(order, |order| - 1);
            && (head == NULL <==> tail == NULL) && (tail == NULL || tail in nodes)
            && var after := Appended(nodes, tail, m, size);
            && WellFormed(after, if head == NULL then m else head, order + [m], meta, m + meta + size, holes + gap)
            && OneMore(nodes, after, m) && after[m].size == size
  {
    hide Linked, Apart, Below, Bytes, Known, At, Appended, OneMore;
    AppendLinked(nodes, head, order, meta, brk, m, size);
    var tail := At(order, |order| - 1);
    var after := Appended(nodes, tail, m, size);
    AppendWrites(nodes, tail, m, size);
    AppendApart(nodes, after, order, meta, brk, m);
    AppendBytes(nodes, head, order, m, size);
    OneMoreHeader(meta, |nodes|, |after|);
  }

  lemma OneMoreHeader(meta: nat, n: nat, more: nat)
    requires more == n + 1
    ensures meta * more == meta * n + meta
  {}

  /** Changing only `isFree` of one header keeps the list, the sizes and the break. */
  lemma FlagKeeps(nodes: map<int, Node>, head: int, order: seq<int>, meta: nat, brk: nat, holes: nat, m: int,
                  free: bool)
    requires WellFormed(nodes, head, order, meta, brk, holes) && m in nodes
    ensures WellFormed(nodes[m := nodes[m].(isFree := free)], head, order, meta, brk, holes)
  {
    var after := nodes[m := nodes[m].(isFree := free)];
    forall i | 0 <= i < |order|
      ensures LinkAt(after, order, i)
    {
      assert LinkAt(nodes, order, i);
    }
    BytesKept(nodes, after, order);
    assert after.Keys == nodes.Keys;
    assert |after| == |after.Keys| && |nodes| == |nodes.Keys|;
  }

  lemma FlagBlocks(nodes: map<int, Node>, mem: seq<bv8>, meta: nat, m: int)
    requires Below(nodes, meta, |mem|) && m in nodes
    ensures var freed, taken := nodes[m := nodes[m].(isFree := true)], nodes[m := nodes[m].(isFree := false)];
            && Below(freed, meta, |mem|) && BlocksOf(freed, mem, meta) == BlocksOf(nodes, mem, meta) - {m}
            && Below(taken, meta, |mem|)
            && BlocksOf(taken, mem, meta) == BlocksOf(nodes, mem, meta)[m := mem[m + meta..m + meta + nodes[m].size]]
  {}

  lemma BelowBreak(nodes: map<int, Node>, head: int, order: seq<int>, meta: nat, brk: nat, holes: nat)
    requires WellFormed(nodes, head, order, meta, brk, holes)
    ensures Below(nodes, meta, brk)
  {}

  /** The live blocks are those of before and one more, with at least `size` bytes. */
  ghost predicate Obtained(before: Blocks, after: Blocks, m: int, size: nat) {
    m in after && |after[m]| >= size && m !in before && after == before[m := after[m]]
  }

  /** What a client and the statistics can see of the heap. */
  datatype View = View(nodes: map<int, Node>, brk: nat, live: Blocks)

  /**
   * Where `smalloc` puts a block of `size` bytes: into the lowest free block that fits, or, when
   * none does, into a new block of exactly that size above the old end.  No block changes its size.
   */
  ghost predicate Placed(meta: nat, v: View, w: View, size: nat, grant: Grant, m: int) {
    && SizesKept(v.nodes, w.nodes)
    && (if NoFit(v.nodes, size)
        then && grant.Granted? && m == v.brk + grant.gap && w.brk == m + meta + size
             && m !in v.nodes && w.nodes.Keys == v.nodes.Keys + {m} && w.nodes[m].size == size
        else LowestFit(v.nodes, size, m) && w.nodes.Keys == v.nodes.Keys && w.brk == v.brk)
  }

  lemma TakenIsObtained(nodes: map<int, Node>, head: int, order: seq<int>, mem: seq<bv8>, meta: nat, holes: nat,
                        m: int, size: nat)
    requires WellFormed(nodes, head, order, meta, |mem|, holes) && LowestFit(nodes, size, m)
    ensures !NoFit(nodes, size) && 0 <= m
    ensures var after := nodes[m := nodes[m].(isFree := false)];
            && Below(after, meta, |mem|) && SizesKept(nodes, after) && after.Keys == nodes.Keys
            && Obtained(BlocksOf(nodes, mem, meta), BlocksOf(after, mem, meta), m, size)
  {
    FlagBlocks(nodes, mem, meta, m);
  }

  lemma OneMoreKeys(before: map<int, Node>, after: map<int, Node>, m: int)
    requires OneMore(before, after, m)
    ensures m !in before && after.Keys == before.Keys + {m} && SizesKept(before, after)
  {
    assert forall a :: a in after.Keys <==> a in before.Keys + {m};
  }

  lemma NewIsObtained(before: map<int, Node>, after: map<int, Node>, mem: seq<bv8>, mem': seq<bv8>, meta: nat,
                      m: int, size: nat)
    requires OneMore(before, after, m) && after[m].size == size && mem <= mem'
    requires Below(before, meta, |mem|) && Below(after, meta, |mem'|)
    ensures Obtained(BlocksOf(before, mem, meta), BlocksOf(after, mem', meta), m, size) && SizesKept(before, after)
  {
    AppendBlocks(before, after, mem, mem', meta, m);
  }

  /** Memory after writing `bytes` from address `at` on. */
  function Splice(mem: seq<bv8>, at: nat, bytes: seq<bv8>): (r: seq<bv8>)
    requires at + |bytes| <= |mem|
    ensures |r| == |mem|
  {
    mem[..at] + bytes + mem[at + |bytes|..]
  }

  lemma SpliceOutside(mem: seq<bv8>, at: nat, bytes: seq<bv8>, lo: nat, hi: nat)
    requires at + |bytes| <= |mem| && lo <= hi <= |mem| && (hi <= at || at + |bytes| <= lo)
    ensures Splice(mem, at, bytes)[lo..hi] == mem[lo..hi]
  {}

  lemma SpliceInside(mem: seq<bv8>, at: nat, bytes: seq<bv8>, hi: nat)
    requires at + |bytes| <= hi <= |mem|
    ensures Splice(mem, at, bytes)[at..hi] == bytes + mem[at..hi][|bytes|..]
  {}

  /** A header's block lies below the break, and is live exactly if it is not marked free. */
  lemma BlockAt(nodes: map<int, Node>, head: int, order: seq<int>, mem: seq<bv8>, meta: nat, holes: nat, m: int)
    requires WellFormed(nodes, head, order, meta, |mem|, holes)
    ensures Below(nodes, meta, |mem|) && NULL - meta !in nodes
    ensures m in BlocksOf(nodes, mem, meta) <==> m in nodes && !nodes[m].isFree
    ensures m in nodes ==> 0 <= m && m + meta + nodes[m].size <= |mem|
    ensures m in BlocksOf(nodes, mem, meta) ==>
              && BlocksOf(nodes, mem, meta)[m] == mem[m + meta..m + meta + nodes[m].size]
              && |BlocksOf(nodes, mem, meta)[m]| == nodes[m].size
  {}

  /** Writing inside one live block leaves every other live block as it was. */
  lemma SpliceBlocks(nodes: map<int, Node>, head: int, order: seq<int>, mem: seq<bv8>, meta: nat, holes: nat,
                     m: int, bytes: seq<bv8>)
    requires WellFormed(nodes, head, order, meta, |mem|, holes) && Below(nodes, meta, |mem|)
    requires m in nodes && !nodes[m].isFree && 0 <= m && |bytes| <= nodes[m].size && m + meta + |bytes| <= |mem|
    requires m in BlocksOf(nodes, mem, meta) && |BlocksOf(nodes, mem, meta)[m]| == nodes[m].size
    ensures BlocksOf(nodes, Splice(mem, m + meta, bytes), meta)
         == BlocksOf(nodes, mem, meta)[m := bytes + BlocksOf(nodes, mem, meta)[m][|bytes|..]]
  {
    hide Splice, WellFormed, Below, BlocksOf;
    var mem' := Splice(mem, m + meta, bytes);
    var b, b' := BlocksOf(nodes, mem, meta), BlocksOf(nodes, mem', meta);
    BlockAt(nodes, head, order, mem, meta, holes, m);
    BlockAt(nodes, head, order, mem', meta, holes, m);
    SpliceInside(mem, m + meta, bytes, m + meta + nodes[m].size);
    forall a
      ensures a in b' <==> a in b
      ensures a in b && a != m ==> b'[a] == b[a]
    {
      BlockAt(nodes, head, order, mem, meta, holes, a);
      BlockAt(nodes, head, order, mem', meta, holes, a);
      if a in b && a != m {
        WellFormedDisjoint(nodes, head, order, meta, |mem|, holes, a, m);
        SpliceOutside(mem, m + meta, bytes, a + meta, a + meta + nodes[a].size);
      }
    }
  }

  lemma WellFormedDisjoint(nodes: map<int, Node>, head: int, order: seq<int>, meta: nat, brk: nat, holes: nat,
                           a: int, b: int)
    requires WellFormed(nodes, head, order, meta, brk, holes) && a in nodes && b in nodes && a != b
    ensures a + meta + nodes[a].size <= b || b + meta + nodes[b].size <= a
  {
    Disjoint(nodes, head, order, meta, a, b);
  }

  /** Obtain a block, copy another one's bytes to its start, drop that one. */
  lemma MovedBlocks(live0: Blocks, live1: Blocks, m: int, m': int, size: nat, live2: Blocks)
    requires m in live0 && |live0[m]| < size && Obtained(live0, live1, m', size)
    requires live2 == live1[m' := live0[m] + live1[m'][|live0[m]|..]]
    ensures m != m' && live2 - {m} == (live0 - {m})[m' := live2[m']]
    ensures |live2[m']| >= size && live2[m'][..|live0[m]|] == live0[m]
  {}

  lemma ObtainedKeeps(live0: Blocks, live1: Blocks, m: int, size: nat, a: int)
    requires Obtained(live0, live1, m, size) && a in live0
    ensures a in live1 && live1[a] == live0[a] && m in live1 && |live1[m]| >= size && m !in live0 && a != m
  {}

  /** The free ones among the listed blocks. */
  ghost function FreeIn(nodes: map<int, Node>, order: seq<int>): set<int> {
    set a | a in order && a in nodes && nodes[a].isFree
  }

  lemma EmptyTotals(nodes: map<int, Node>, order: seq<int>)
    ensures Known(nodes, order[..0]) && |FreeIn(nodes, order[..0])| == 0 && Bytes(nodes, order[..0], true) == 0
  {
    assert FreeIn(nodes, order[..0]) == {};
  }

  lemma FreeStep(nodes: map<int, Node>, head: int, order: seq<int>, meta: nat, brk: nat, holes: nat, k: nat)
    requires WellFormed(nodes, head, order, meta, brk, holes) && k < |order|
    ensures Known(nodes, order[..k]) && Known(nodes, order[..k + 1]) && order[k] in nodes
    ensures var n := nodes[order[k]];
            && |FreeIn(nodes, order[..k + 1])| == |FreeIn(nodes, order[..k])| + (if n.isFree then 1 else 0)
            && Bytes(nodes, order[..k + 1], true) == Bytes(nodes, order[..k], true) + (if n.isFree then n.size else 0)
  {
    var a := order[k];
    assert order[..k + 1][..k] == order[..k] && order[..k + 1] == order[..k] + [a];
    assert a !in order[..k];
    assert FreeIn(nodes, order[..k + 1]) == FreeIn(nodes, order[..k]) + (if nodes[a].isFree then {a} else {});
  }

  lemma AllListed(nodes: map<int, Node>, head: int, order: seq<int>)
    requires Linked(nodes, head, order)
    ensures FreeIn(nodes, order) == set a | a in nodes && nodes[a].isFree
  {
    assert forall a :: a in nodes && nodes[a].isFree ==> a in order;
  }

  /** The list has as many entries as there are headers. */
  lemma CountListed(nodes: map<int, Node>, head: int, order: seq<int>, meta: nat, brk: nat, holes: nat)
    requires WellFormed(nodes, head, order, meta, brk, holes)
    ensures |order| == |nodes|
  {
    DistinctCount(order);
    var listed := set a | a in order;
    forall a
      ensures a in nodes.Keys <==> a in listed
    {
      assert a in nodes ==> a in order;
    }
    assert nodes.Keys == listed;
  }

  lemma {:induction false} DistinctCount(order: seq<int>)
    requires forall i, j :: 0 <= i < j < |order| ==> order[i] != order[j]
    ensures |set a | a in order| == |order|
  {
    if order != [] {
      var n := |order| - 1;
      DistinctCount(order[..n]);
      assert (set a | a in order) == (set a | a in order[..n]) + {order[n]};
    }
  }

  class Heap {
    const meta: nat
    var head: int
    var nodes: map<int, Node>
    var mem: seq<bv8>
    ghost var order: seq<int>
    ghost var holes: nat

    ghost predicate Valid()
      reads this
    {
      WellFormed(nodes, head, order, meta, |mem|, holes)
    }

    ghost function Live(): Blocks
      reads this
      requires Valid()
    {
      BlocksOf(nodes, mem, meta)
    }

    ghost function Seen(): View
      reads this
      requires Valid()
    {
      View(nodes, |mem|, Live())
    }

    constructor (meta: nat)
      requires meta > 0
      ensures Valid() && this.meta == meta && nodes == map[] && |mem| == 0
    {
      this.meta := meta;
      head, nodes, mem := NULL, map[], [];
      order, holes := [], 0;
    }

    /** `find_free` */
    method FindFree(size: nat) returns (m: int)
      requires Valid()
      ensures m == NULL ==> NoFit(nodes, size)
      ensures m != NULL ==> LowestFit(nodes, size, m)
    {
      m := head;
      ghost var k := 0;
      while m != NULL
        invariant 0 <= k <= |order| && m == At(order, k)
        invariant forall i :: 0 <= i < k ==> !Fits(nodes[order[i]], size)
        decreases |order| - k
      {
        if nodes[m].isFree && nodes[m].size >= size {
          FirstIsLowest(nodes, head, order, meta, size, k);
          return;
        }
        assert LinkAt(nodes, order, k);
        m := nodes[m].next;
        k := k + 1;
      }
    }

    /** The walk of `alloc_new_block` to the last header. */
    method FindTail(ghost listed: map<int, Node>, ghost brk: nat) returns (tail: int)
      requires head != NULL && WellFormed(listed, head, order, meta, brk, holes)
      requires forall a :: a in listed ==> a in nodes && nodes[a] == listed[a]
      ensures tail == At(order, |order| - 1)
    {
      tail := head;
      ghost var k := 0;
      assert LinkAt(listed, order, 0);
      while nodes[tail].next != NULL
        invariant 0 <= k < |order| && tail == order[k] && LinkAt(listed, order, k)
        decreases |order| - k
      {
        tail := nodes[tail].next;
        k := k + 1;
      }
    }

    /** `alloc_new_block`: one more block, above all others; nothing else changes. */
    method AllocNewBlock(size: nat, grant: Grant) returns (m: int)
      requires Valid()
      modifies this
      ensures Valid() && (m == NULL <==> grant.Refused?)
      ensures m == NULL ==> unchanged(this)
      ensures m != NULL ==>
                && m == |old(mem)| + grant.gap && OneMore(old(nodes), nodes, m) && nodes[m].size == size
                && |mem| == m + meta + size && order == old(order) + [m] && old(mem) <= mem
    {
      hide WellFormed, BlocksOf, OneMore, At, Appended;
      if grant.Refused? {
        return NULL;
      }
      m := |mem| + grant.gap;
      ghost var nodes0, mem0, tail0 := nodes, mem, At(order, |order| - 1);
      AppendKeeps(nodes, head, order, meta, |mem|, holes, grant.gap, m, size);
      ghost var after := Appended(nodes, tail0, m, size);
      AppendWrites(nodes, tail0, m, size);
      mem := mem + seq(grant.gap + meta + size, _ => 0);
      BelowBreak(nodes, head, order, meta, |mem0|, holes);
      BelowBreak(after, if head == NULL then m else head, order + [m], meta, |mem|, holes + grant.gap);
      nodes := nodes[m := Node(size, false, NULL, NULL)];
      if head == NULL {
        head := m;
      } else {
        var tail := FindTail(nodes0, |mem0|);
        nodes := nodes[tail := nodes[tail].(next := m)];
        nodes := nodes[m := nodes[m].(prev := tail)];
      }
      order, holes := order + [m], holes + grant.gap;
      assert nodes == after;
    }

    /**
     * `smalloc`: a block in use at `p - meta`, with at least `size` bytes.  It is the free block of
     * sufficient size at the lowest address, and only when there is none the heap grows.
     */
    method Smalloc(size: nat, grant: Grant) returns (p: int)
      requires Valid()
      modifies this
      ensures Valid() && old(mem) <= mem && (p == NULL ==> unchanged(this) && Seen() == old(Seen()))
      ensures p == NULL <==> size == 0 || size > MAX_ALLOC_SIZE || (NoFit(old(nodes), size) && grant.Refused?)
      ensures p != NULL ==>
                Obtained(old(Live()), Live(), p - meta, size)
                         && Placed(meta, old(Seen()), Seen(), size, grant, p - meta)
    {
      hide WellFormed, BlocksOf, OneMore, LowestFit, NoFit, SizesKept, Obtained;
      if size == 0 || size > MAX_ALLOC_SIZE {
        return NULL;
      }
      var m := FindFree(size);
      if m != NULL {
        FlagKeeps(nodes, head, order, meta, |mem|, holes, m, false);
        TakenIsObtained(nodes, head, order, mem, meta, holes, m, size);
        nodes := nodes[m := nodes[m].(isFree := false)];
        return m + meta;
      }
      m := AllocNewBlock(size, grant);
      if m == NULL {
        return NULL;
      }
      BelowBreak(old(nodes), old(head), old(order), meta, |old(mem)|, old(holes));
      BelowBreak(nodes, head, order, meta, |mem|, holes);
      NewIsObtained(old(nodes), nodes, old(mem), mem, meta, m, size);
      OneMoreKeys(old(nodes), nodes, m);
      return m + meta;
    }

    /** `memmove` and `memset` into one block in use. */
    method Write(m: int, bytes: seq<bv8>)
      requires Valid() && m in Live() && |bytes| <= |Live()[m]|
      modifies `mem
      ensures Valid() && Live() == old(Live())[m := bytes + old(Live())[m][|bytes|..]]
      ensures |mem| == |old(mem)|
    {
      hide WellFormed, BlocksOf, Splice, Below;
      BlockAt(nodes, head, order, mem, meta, holes, m);
      SpliceBlocks(nodes, head, order, mem, meta, holes, m, bytes);
      mem := Splice(mem, m + meta, bytes);
    }

    /** `scalloc`: the product may wrap, and then the block is only as large as the wrapped size. */
    method Scalloc(num: nat, size: nat, grant: Grant) returns (p: int)
      requires Valid()
      modifies this
      ensures Valid() && (p == NULL ==> unchanged(this) && Seen() == old(Seen()))
      ensures p == NULL <==> Product(num, size) == 0 || Product(num, size) > MAX_ALLOC_SIZE
                             || (NoFit(old(nodes), Product(num, size)) && grant.Refused?)
      ensures p != NULL ==>
                && Obtained(old(Live()), Live(), p - meta, Product(num, size))
                && Placed(meta, old(Seen()), Seen(), Product(num, size), grant, p - meta)
                && Zeros(Product(num, size)) <= Live()[p - meta]
                && (num * size < SIZE_T ==> |Live()[p - meta]| >= num * size)
    {
      hide WellFormed, BlocksOf, NoFit, SizesKept;
      if num == 0 || size == 0 {
        return NULL;
      }
      var total := Product(num, size);
      if total > MAX_ALLOC_SIZE {
        return NULL;
      }
      p := Smalloc(total, grant);
      if p == NULL {
        return;
      }
      Write(p - meta, Zeros(total));
    }

    /** `sfree`: freeing a block that is already free changes nothing. */
    method Sfree(p: int)
      requires Valid() && (p == NULL || p - meta in nodes)
      modifies `nodes
      ensures Valid() && Live() == old(Live()) - {p - meta}
      ensures SizesKept(old(nodes), nodes) && nodes.Keys == old(nodes).Keys
      ensures p != NULL && p - meta in old(nodes) ==>
                nodes == old(nodes)[p - meta := old(nodes)[p - meta].(isFree := true)]
      ensures p == NULL || old(nodes)[p - meta].isFree ==> nodes == old(nodes)
      ensures p != NULL ==> nodes[p - meta].isFree
    {
      hide WellFormed, BlocksOf, Below;
      BlockAt(nodes, head, order, mem, meta, holes, p - meta);
      if p == NULL {
        return;
      }
      var m := p - meta;
      if nodes[m].isFree {
        return;
      }
      FlagKeeps(nodes, head, order, meta, |mem|, holes, m, true);
      FlagBlocks(nodes, mem, meta, m);
      nodes := nodes[m := nodes[m].(isFree := true)];
    }

    /**
     * `srealloc` of a block in use.  A block that is large enough stays; otherwise the bytes move
     * to another block and the old one is freed.  On null nothing changes, and no call changes a
     * byte of any other live block.
     */
    method Srealloc(oldp: int, size: nat, grant: Grant) returns (p: int)
      requires Valid() && (oldp == NULL || oldp - meta in Live())
      modifies this
      ensures Valid() && SizesKept(old(nodes), nodes) && (p == NULL ==> unchanged(this) && Seen() == old(Seen()))
      ensures p == NULL <==> size == 0 || size > MAX_ALLOC_SIZE
                             || (!(oldp != NULL && |old(Live())[oldp - meta]| >= size)
                                 && NoFit(old(nodes), size) && grant.Refused?)
      ensures p != NULL && (oldp == NULL || |old(Live())[oldp - meta]| < size) ==>
                Placed(meta, old(Seen()), Seen(), size, grant, p - meta)
      ensures p != NULL && oldp == NULL ==> Obtained(old(Live()), Live(), p - meta, size)
      ensures p != NULL && oldp != NULL ==>
                var was := old(Live())[oldp - meta];
                if |was| >= size then p == oldp && unchanged(this) && Seen() == old(Seen())
                else
                  && p != oldp && p - meta !in old(Live()) && p - meta in Live()
                  && Live() == (old(Live()) - {oldp - meta})[p - meta := Live()[p - meta]]
                  && |Live()[p - meta]| >= size && Live()[p - meta][..|was|] == was
    {
      hide WellFormed, BlocksOf, NoFit, Obtained, OneMore, LowestFit;
      if size == 0 || size > MAX_ALLOC_SIZE {
        return NULL;
      }
      if oldp == NULL {
        p := Smalloc(size, grant);
        return;
      }
      var m := oldp - meta;
      BlockAt(nodes, head, order, mem, meta, holes, m);
      if nodes[m].size >= size {
        return oldp;
      }
      ghost var live0 := Live();
      p := Smalloc(size, grant);
      if p == NULL {
        return;
      }
      ghost var live1 := Live();
      ObtainedKeeps(live0, live1, p - meta, size, m);
      BlockAt(nodes, head, order, mem, meta, holes, m);
      Write(p - meta, mem[m + meta..m + meta + nodes[m].size]);
      MovedBlocks(live0, live1, m, p - meta, size, Live());
      Sfree(oldp);
    }

    method InUse(m: int) returns (used: bool)
      requires Valid()
      ensures used <==> m in Live()
      ensures used ==> m >= 0 && m in nodes && |Live()[m]| == nodes[m].size
    {
      BlockAt(nodes, head, order, mem, meta, holes, m);
      used := m in nodes && !nodes[m].isFree;
    }

    // ---------- The statistics ----------

    /** `_num_free_blocks` and `_num_free_bytes` */
    method CountFree() returns (blocks: nat, bytes: nat)
      requires Valid()
      ensures blocks == |set a | a in nodes && nodes[a].isFree| && bytes == Bytes(nodes, order, true)
    {
      hide Apart, Below, FreeIn, Bytes;
      EmptyTotals(nodes, order);
      blocks, bytes := 0, 0;
      var m := head;
      ghost var k := 0;
      while m != NULL
        invariant 0 <= k <= |order| && m == At(order, k) && Known(nodes, order[..k])
        invariant blocks == |FreeIn(nodes, order[..k])| && bytes == Bytes(nodes, order[..k], true)
        decreases |order| - k
      {
        assert LinkAt(nodes, order, k);
        FreeStep(nodes, head, order, meta, |mem|, holes, k);
        if nodes[m].isFree {
          blocks, bytes := blocks + 1, bytes + nodes[m].size;
        }
        m := nodes[m].next;
        k := k + 1;
      }
      assert order[..k] == order;
      AllListed(nodes, head, order);
    }

    /** `_num_allocated_blocks` and `_num_allocated_bytes`: the whole heap is accounted for. */
    method CountAll() returns (blocks: nat, bytes: nat)
      requires Valid()
      ensures blocks == |nodes| && |mem| == holes + bytes + meta * blocks
    {
      blocks, bytes := 0, 0;
      var m := head;
      ghost var k := 0;
      while m != NULL
        invariant 0 <= k <= |order| && m == At(order, k) && Known(nodes, order[..k])
        invariant blocks == k && bytes == Bytes(nodes, order[..k], false)
        decreases |order| - k
      {
        assert LinkAt(nodes, order, k);
        assert order[..k + 1][..k] == order[..k];
        blocks, bytes := blocks + 1, bytes + nodes[m].size;
        m := nodes[m].next;
        k := k + 1;
      }
      assert order[..k] == order;
      CountListed(nodes, head, order, meta, |mem|, holes);
    }
  }

  // ---------- Whole runs ----------

  /** One client operation; blocks are named by their header addresses. */
  datatype Op =
    | Malloc(size: nat, grant: Grant)
    | Calloc(num: nat, size: nat, grant: Grant)
    | Free(m: int)
    | Realloc(m: int, size: nat, grant: Grant)
    | Store(m: int, bytes: seq<bv8>)

  predicate Touches(op: Op, m: int) {
    (op.Free? || op.Realloc? || op.Store?) && op.m == m
  }

  /** `smalloc(size)` with answer `p` may lead from `v` to `w`. */
  ghost predicate Mallocs(meta: nat, v: View, w: View, size: nat, grant: Grant, p: int) {
    if size == 0 || size > MAX_ALLOC_SIZE || (NoFit(v.nodes, size) && grant.Refused?) then p == NULL && w == v
    else p != NULL && Placed(meta, v, w, size, grant, p - meta) && Obtained(v.live, w.live, p - meta, size)
  }

  /**
   * One operation of a client, with its answer: what it does to the heap and to the live blocks.
   * Operations on blocks that are not in use do nothing.
   */
  ghost predicate Does(meta: nat, op: Op, v: View, w: View, p: int) {
    match op
    case Malloc(size, grant) => Mallocs(meta, v, w, size, grant, p)
    case Calloc(num, size, grant) =>
      && Mallocs(meta, v, w, Product(num, size), grant, p)
      && (p != NULL ==> p - meta in w.live && Zeros(Product(num, size)) <= w.live[p - meta])
    case Free(m) =>
      && w.live == v.live - {m} && w.brk == v.brk
      && w.nodes == if m in v.live && m in v.nodes then v.nodes[m := v.nodes[m].(isFree := true)] else v.nodes
    case Realloc(m, size, grant) =>
      if m !in v.live then w == v
      else if size == 0 || size > MAX_ALLOC_SIZE then p == NULL && w == v
      else if |v.live[m]| >= size then p == m + meta && w == v
      else if NoFit(v.nodes, size) && grant.Refused? then p == NULL && w == v
      else
        && p != NULL && Placed(meta, v, w, size, grant, p - meta)
        && p - meta !in v.live && p - meta in w.live && w.live == (v.live - {m})[p - meta := w.live[p - meta]]
        && |w.live[p - meta]| >= size && v.live[m] <= w.live[p - meta]
    case Store(m, bytes) =>
      if m in v.live && |bytes| <= |v.live[m]|
      then w == v.(live := v.live[m := bytes + v.live[m][|bytes|..]]) else w == v
  }

  method Perform(h: Heap, op: Op) returns (p: int)
    requires h.Valid()
    modifies h
    ensures h.Valid() && Does(h.meta, op, old(h.Seen()), h.Seen(), p)
  {
    hide WellFormed, BlocksOf, NoFit, OneMore, LowestFit, Placed;
    p := NULL;
    match op
    case Malloc(size, grant) => p := h.Smalloc(size, grant);
    case Calloc(num, size, grant) => p := h.Scalloc(num, size, grant);
    case Free(m) =>
      var used := h.InUse(m);
      assert m !in h.Live() ==> h.Live() - {m} == h.Live();
      if used {
        h.Sfree(m + h.meta);
      }
    case Realloc(m, size, grant) =>
      var used := h.InUse(m);
      if used {
        p := h.Srealloc(m + h.meta, size, grant);
      }
    case Store(m, bytes) =>
      var used := h.InUse(m);
      if used && |bytes| <= h.nodes[m].size {
        h.Write(m, bytes);
      }
  }

  /** No operation changes a size, or a byte of a block that it does not name. */
  lemma DoesKeep(meta: nat, op: Op, v: View, w: View, p: int)
    requires Does(meta, op, v, w, p)
    ensures SizesKept(v.nodes, w.nodes)
    ensures forall m :: m in v.live && !Touches(op, m) ==> m in w.live && w.live[m] == v.live[m]
  {
    hide NoFit, LowestFit;
  }

  /** A run: each view follows from the one before by its operation and its answer. */
  ghost predicate Follows(meta: nat, ops: seq<Op>, views: seq<View>, answers: seq<int>) {
    && |views| == |ops| + 1 && |answers| == |ops|
    && forall i :: 0 <= i < |ops| ==> Does(meta, ops[i], views[i], views[i + 1], answers[i])
  }

  /**
   * Any run does, operation by operation, what `Does` says.  The list stays well formed, no block
   * changes its size, and a block that the client leaves alone keeps its bytes.
   */
  method Run(h: Heap, ops: seq<Op>) returns (answers: seq<int>, ghost views: seq<View>)
    requires h.Valid()
    modifies h
    ensures h.Valid() && Follows(h.meta, ops, views, answers)
    ensures views[0] == old(h.Seen()) && views[|ops|] == h.Seen()
    ensures SizesKept(old(h.nodes), h.nodes)
    ensures forall m :: m in old(h.Live()) && (forall i :: 0 <= i < |ops| ==> !Touches(ops[i], m)) ==>
              m in h.Live() && h.Live()[m] == old(h.Live())[m]
  {
    hide WellFormed, BlocksOf, Does, Follows;
    answers, views := [], [h.Seen()];
    var i := 0;
    StartsFollow(h.meta, h.Seen());
    assert ops[..0] == [];
    while i < |ops|
      invariant 0 <= i <= |ops| && h.Valid() && SizesKept(old(h.nodes), h.nodes)
      invariant Follows(h.meta, ops[..i], views, answers) && |views| == i + 1
      invariant views[0] == old(h.Seen()) && views[i] == h.Seen()
      invariant forall m :: m in old(h.Live()) && (forall j :: 0 <= j < i ==> !Touches(ops[j], m)) ==>
                  m in h.Live() && h.Live()[m] == old(h.Live())[m]
    {
      ghost var v := h.Seen();
      var p := Perform(h, ops[i]);
      DoesKeep(h.meta, ops[i], v, h.Seen(), p);
      FollowsMore(h.meta, ops[..i], views, answers, ops[i], h.Seen(), p);
      assert ops[..i + 1] == ops[..i] + [ops[i]];
      answers, views := answers + [p], views + [h.Seen()];
      i := i + 1;
    }
    assert ops[..i] == ops;
    FollowsLength(h.meta, ops, views, answers);
  }

  lemma StartsFollow(meta: nat, v: View)
    ensures Follows(meta, [], [v], [])
  {}

  lemma FollowsMore(meta: nat, ops: seq<Op>, views: seq<View>, answers: seq<int>, op: Op, w: View, p: int)
    requires Follows(meta, ops, views, answers) && Does(meta, op, views[|ops|], w, p)
    ensures Follows(meta, ops + [op], views + [w], answers + [p])
  {
    hide Does;
  }

  lemma FollowsLength(meta: nat, ops: seq<Op>, views: seq<View>, answers: seq<int>)
    requires Follows(meta, ops, views, answers)
    ensures |views| == |ops| + 1
  {}
}
