/** The K&R buffer allocator of armci/src-gemini/bufalloc.c on values: one arena, a free
    list in address order closed into a ring by the sentinel `base`, and a roving pointer. */
module BufPool {
  import opened Lists

  /** sizeof(Header) and the unit of allocation, 1 << LOG_ALIGN. */
  const UNIT := 64

  /** `free` and `used` are block addresses, the free ones ascending; `size` is in units and
      counts the header. The arena is `units` long from lo; `base` lies outside it. */
  datatype Pool = Pool(lo: int, units: int, base: int, free: seq<int>, used: seq<int>,
                       size: map<int, int>, freep: int)
  {
    function Hi(): int { lo + UNIT * units }

    function Size(a: int): int { if a in size then size[a] else 0 }

    function End(a: int): int { a + UNIT * Size(a) }

    /** The free list as it is linked: the sentinel, then the blocks. */
    function Ring(): seq<int> { [base] + free }
  }

  // ---------- invariant ----------

  ghost predicate Bounds(p: Pool) {
    && 0 < p.lo && 0 < p.base && 1 <= p.units
    && (p.base + UNIT <= p.lo || p.Hi() < p.base)
    && (forall a :: a in p.size ==> p.size[a] >= 1 && p.lo <= a && a + UNIT * p.size[a] <= p.Hi())
  }

  ghost predicate Apart(p: Pool) {
    forall a, b :: a in p.size && b in p.size && a < b ==> a + UNIT * p.size[a] <= b
  }

  /** Blocks run up to one another from the start of the arena to its end. */
  ghost predicate Chain(p: Pool) {
    && p.lo in p.size
    && forall a {:trigger p.End(a)} :: a in p.size && p.End(a) != p.Hi() ==> p.End(a) in p.size
  }

  ghost predicate Lists_(p: Pool) {
    && Sorted(p.free) && NoDup(p.used)
    && (forall a :: a in p.free ==> a !in p.used)
    && (forall a :: a in p.size <==> a in p.free || a in p.used)
    && (p.freep == p.base || p.freep in p.free)
  }

  /** No free block ends where another begins. */
  ghost predicate Coalesced(p: Pool) {
    forall a {:trigger p.End(a)} :: a in p.free ==> p.End(a) !in p.free
  }

  ghost predicate Ok(p: Pool) {
    Bounds(p) && Apart(p) && Chain(p) && Lists_(p) && Coalesced(p)
  }

  // ---------- armci_buf_alloc ----------

  /** ((nbytes + sizeof(Header) - 1) >> LOG_ALIGN) + 1 */
  function Units(nbytes: nat): int { (nbytes + UNIT - 1) / UNIT + 1 }

  /** The i-th node the search visits, having set out from ring position k: positions
      k + 1, ..., |ring| - 1, 0, ..., k. */
  function Visit(ring: seq<int>, k: nat, i: nat): int
    requires k < |ring| && i < |ring|
  {
    ring[VisitAt(ring, k, i)]
  }

  function VisitAt(ring: seq<int>, k: nat, i: nat): (at: nat)
    requires k < |ring| && i < |ring|
    ensures at < |ring|
  {
    if k + 1 + i < |ring| then k + 1 + i else k + 1 + i - |ring|
  }

  /** Nodes the search passes before it stands on a block of at least n units; |ring| if
      it comes back to its start without one. */
  function StepsToFit(p: Pool, k: nat, n: int, j: nat): (r: nat)
    requires k < |p.Ring()| && j <= |p.Ring()|
    ensures j <= r <= |p.Ring()|
    decreases |p.Ring()| - j
  {
    if j == |p.Ring()| || p.Size(Visit(p.Ring(), k, j)) >= n then j
    else StepsToFit(p, k, n, j + 1)
  }

  function IndexOf(s: seq<int>, a: int): nat
    requires a in s
    ensures IndexOf(s, a) < |s| && s[IndexOf(s, a)] == a
  {
    if s[0] == a then 0 else IndexOf(s[1..], a) + 1
  }

  /** Takes n units from the tail of the i-th free block, or all of it. */
  function Take(p: Pool, i: nat, n: int): (Pool, int)
    requires i < |p.free|
  {
    var a := p.free[i];
    if p.Size(a) == n then
      (p.(free := p.free[..i] + p.free[i + 1..], used := [a] + p.used), a)
    else
      var b := a + UNIT * (p.Size(a) - n);
      (p.(used := [b] + p.used, size := p.size[a := p.Size(a) - n][b := n]), b)
  }

  /** The new pool and the address handed out, 0 for NULL. */
  function Alloc(p: Pool, nbytes: nat): (Pool, int)
    requires p.freep in p.Ring()
  {
    var n := Units(nbytes);
    var k := IndexOf(p.Ring(), p.freep);
    var j := StepsToFit(p, k, n, 0);
    if j == |p.Ring()| then (p, 0)
    else
      var at := VisitAt(p.Ring(), k, j);
      if at == 0 then (p, 0)
      else
        var (q, b) := Take(p, at - 1, n);
        (q.(freep := p.Ring()[at - 1]), b + UNIT)
  }

  // ---------- armci_buf_free ----------

  /** Number of free blocks below b: the ring position of b's predecessor. */
  function Place(s: seq<int>, b: int): (i: nat)
    ensures i <= |s|
  {
    if s == [] || b < s[0] then 0 else 1 + Place(s[1..], b)
  }

  /** Free block i absorbs the one after it. */
  function Merge(p: Pool, i: nat): Pool
    requires i + 1 < |p.free|
  {
    var a, b := p.free[i], p.free[i + 1];
    p.(free := p.free[..i + 1] + p.free[i + 2..], size := (p.size - {b})[a := p.Size(a) + p.Size(b)])
  }

  function MergeIfAdjacent(p: Pool, i: int): Pool {
    if 0 <= i && i + 1 < |p.free| && p.End(p.free[i]) == p.free[i + 1] then Merge(p, i) else p
  }

  /** Block b among the free blocks at its place. */
  function Placed(p: Pool, b: int): Pool {
    var i := Place(p.free, b);
    p.(free := p.free[..i] + [b] + p.free[i..])
  }

  /** Puts block b back among the free blocks at its place and joins it to the block above
      and then to the block below; the roving pointer is left at its predecessor. */
  function Join(p: Pool, b: int): Pool {
    var i := Place(p.free, b);
    var p2 := MergeIfAdjacent(Placed(p, b), i);
    MergeIfAdjacent(p2, i - 1).(freep := if i == 0 then p.base else p.free[i - 1])
  }

  /** False is a fatal error in the original, which checks that the block is in use. */
  function Free(p: Pool, ap: int): (Pool, bool) {
    if ap == 0 then (p, true)
    else if ap - UNIT !in p.used then (p, false)
    else (Join(p.(used := Remove(p.used, ap - UNIT)), ap - UNIT), true)
  }

  /** The pool before armci_init_buf_alloc frees the whole arena, and after. */
  function Whole(lo: int, units: int, base: int): Pool {
    Pool(lo, units, base, [], [lo], map[lo := units], base)
  }

  function InitPool(lo: int, units: int, base: int): Pool {
    Free(Whole(lo, units, base), lo + UNIT).0
  }
}
