/**
 * What the buddy allocator promises its clients, as relations between what can be seen before and
 * after a call: the tiling, and the live blocks with their bytes.
 */
module BuddyClient {
  import opened BuddyArith
  import opened Tilings
  import opened BuddySteps
  import opened Sizes

  const NO_BLOCK := -1

  datatype Config = Config(g: Geometry, page: nat, repaired: bool)

  /** The tiling, and the live blocks by header address.  Mapped blocks lie above the arena. */
  datatype View = View(tiles: Tiling, blocks: map<nat, seq<bv8>>)

  /** `n` is the number of usable bytes of a block for `size`: of the least order, or in whole pages. */
  ghost predicate Fitting(g: Geometry, page: nat, size: nat, n: nat)
    requires page > 0
  {
    if size < g.Top() then exists k: nat :: IsOrderFor(g, size, k) && n + g.header == BlockSize(k)
    else size <= n < size + page && (n + g.header) % page == 0
  }

  /**
   * When a request below the threshold can be met: with the split as written only from a free
   * top-order block, with the repaired one from any free block of sufficient order.
   */
  ghost predicate ServedFrom(g: Geometry, repaired: bool, T: Tiling, size: nat) {
    if repaired then exists t, k: nat :: t in T && T[t].free && IsOrderFor(g, size, k) && k <= T[t].order
    else exists t :: t in T && T[t] == Tile(g.maxOrder, true)
  }

  /** `r` is the lowest free block of the smallest order from which the split takes blocks for `size`. */
  ghost predicate Chosen(g: Geometry, repaired: bool, T: Tiling, size: nat, r: int) {
    exists k: nat :: IsOrderFor(g, size, k) && BestFit(T, r, if repaired then k else g.maxOrder)
  }

  /** An admissible request is refused: no mapping, or nothing in the arena to serve it from. */
  ghost predicate Refused(g: Geometry, repaired: bool, T: Tiling, size: nat, addr: int) {
    if size >= g.Top() then addr == NO_BLOCK else !ServedFrom(g, repaired, T, size)
  }

  /** The block at `r` is one that a request for `size` gets: its place and its number of bytes. */
  ghost predicate Obtained(c: Config, T: Tiling, w: View, size: nat, addr: int, r: int)
    requires c.page > 0
  {
    && r in w.blocks && Fitting(c.g, c.page, size, |w.blocks[r]|)
    && (if size < c.g.Top() then r < c.g.Total() && Chosen(c.g, c.repaired, T, size, r) else r == addr)
  }

  /** What a client may do; blocks are named by their header addresses. */
  datatype Op =
    | Malloc(size: nat, addr: int)
    | Calloc(num: nat, size: nat, addr: int)
    | Free(m: nat)
    | Realloc(m: nat, size: nat, addr: int)
    | Write(m: nat, i: nat, b: bv8)

  /** `smalloc(size)`, or `scalloc` before it clears, with answer `p`. */
  ghost predicate Mallocs(c: Config, v: View, w: View, size: nat, addr: int, p: int)
    requires c.page > 0
  {
    if size == 0 || size > MAX_ALLOC_SIZE || Refused(c.g, c.repaired, v.tiles, size, addr) then p == NO_BLOCK && w == v
    else
      var r := p - c.g.header;
      && r >= 0 && r !in v.blocks && Obtained(c, v.tiles, w, size, addr, r)
      && w.blocks == v.blocks[r as nat := w.blocks[r]]
  }

  /** `srealloc` of live block `m`, with answer `p`. */
  ghost predicate Reallocs(c: Config, v: View, w: View, m: nat, size: nat, addr: int, p: int)
    requires c.page > 0 && m in v.blocks
  {
    var r := p - c.g.header;
    if size == 0 || size > MAX_ALLOC_SIZE then p == NO_BLOCK && w == v
    else if |v.blocks[m]| >= size then r == m && w == v
    else if m < c.g.Total() && m in v.tiles && CanGrow(c.g, v.tiles, m, size) then
      && r >= 0 && Moved(v.blocks, w.blocks, m, r, size)
      && exists k: nat ::
           IsOrderFor(c.g, size, k) && r == BuddyArith.Base(m, k) && |w.blocks[r]| + c.g.header == BlockSize(k)
    else if Refused(c.g, c.repaired, v.tiles, size, addr) then p == NO_BLOCK && w == v
    else
      && r >= 0 && r !in v.blocks && Moved(v.blocks, w.blocks, m, r, size)
      && Obtained(c, v.tiles, w, size, addr, r)
  }

  /** The address that the kernel would give to a mapping is in use by no one. */
  predicate Unused(c: Config, v: View, addr: int) {
    addr == NO_BLOCK || (addr >= c.g.Total() && addr !in v.blocks)
  }

  /** Products for which the code clears bytes beyond the block. */
  predicate InGap(g: Geometry, total: nat) {
    g.Top() < total + g.header && total < g.Top()
  }

  /**
   * One operation of a client, with its answer.  Operations on blocks that are not live do nothing;
   * nor do those that the model leaves out, a mapping at a used address or a product in the gap.
   */
  ghost predicate Does(c: Config, op: Op, v: View, w: View, p: int)
    requires c.page > 0
  {
    match op
    case Malloc(size, addr) => if Unused(c, v, addr) then Mallocs(c, v, w, size, addr, p) else w == v
    case Calloc(num, size, addr) =>
      var total := Product(num, size);
      if Unused(c, v, addr) && !InGap(c.g, total)
      then && Mallocs(c, v, w, total, addr, p)
           && (p != NO_BLOCK ==> p - c.g.header in w.blocks && Zeros(total) <= w.blocks[p - c.g.header])
      else w == v
    case Free(m) => if m in v.blocks then w.blocks == v.blocks - {m} else w == v
    case Realloc(m, size, addr) =>
      if m in v.blocks && Unused(c, v, addr) then Reallocs(c, v, w, m, size, addr, p) else w == v
    case Write(m, i, b) =>
      if m in v.blocks && i < |v.blocks[m]|
      then w == v.(blocks := v.blocks[m := v.blocks[m][i := b]]) else w == v
  }

  /** A block for `size` serves it, except in the gap, where it is the largest there is. */
  lemma FittingServes(g: Geometry, page: nat, size: nat, n: nat)
    requires page > 0 && Fitting(g, page, size, n)
    ensures n >= size <==> size + g.header <= g.Top() || size >= g.Top()
    ensures n >= size || n + g.header == g.Top()
  {
    if size < g.Top() {
      var k: nat :| IsOrderFor(g, size, k) && n + g.header == BlockSize(k);
      OrderFits(g, size, k);
    }
  }
}
