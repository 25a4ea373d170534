/** What the calls of armci/src-gemini/bufalloc.c give their caller, in bytes: room for the request, the next
    fit round the ring, and a freed block's bytes back. */
module BufMeaning {
  import opened Arith
  import opened Lists
  import opened BufPool
  import opened BufProofs

  // ---------- allocation ----------

  /** Whole units behind the header that hold nbytes, and no unit more. */
  lemma UnitsHold(nbytes: nat)
    ensures Units(nbytes) >= 1 && UNIT * (Units(nbytes) - 1) >= nbytes && UNIT * (Units(nbytes) - 1) < nbytes + UNIT
  {}

  lemma HoldsIff(nbytes: nat, size: int)
    ensures size >= Units(nbytes) <==> UNIT * (size - 1) >= nbytes
  {
    UnitsHold(nbytes);
  }

  /** The address returned is that of a block newly in use whose bytes, from there to its end, hold the
      request, lie in the arena, and exceed it by less than one unit. */
  lemma AllocRoom(p: Pool, nbytes: nat)
    requires Ok(p)
    ensures p.freep in p.Ring()
    ensures var (q, r) := Alloc(p, nbytes);
      r != 0 ==>
        && r - UNIT in q.used && r - UNIT in q.size && r - UNIT !in p.used
        && p.lo <= r - UNIT && r + nbytes <= q.End(r - UNIT) <= q.Hi() && r + nbytes + UNIT > q.End(r - UNIT)
  {
    AllocNullIff(p, nbytes);
    if Alloc(p, nbytes).1 != 0 {
      var at := AllocAt(p, nbytes);
      TakeKeeps(p, at, Units(nbytes));
      TakeNew(p, at, Units(nbytes));
      UnitsHold(nbytes);
      hide Ok, Alloc, Units, Chain, Coalesced, Apart;
      var (q, b) := Take(p, at, Units(nbytes));
      BlockRoom(q, b, Units(nbytes), nbytes);
      hide Take;
    }
  }

  lemma BlockRoom(q: Pool, b: int, n: int, nbytes: nat)
    requires Bounds(q) && b in q.size && q.size[b] == n
    requires UNIT * (n - 1) >= nbytes && UNIT * (n - 1) < nbytes + UNIT
    ensures b + UNIT + nbytes <= q.End(b) <= q.Hi() && b + UNIT + nbytes + UNIT > q.End(b)
  {}

  lemma TakeNew(p: Pool, i: nat, n: int)
    requires Ok(p) && i < |p.free| && 1 <= n <= p.Size(p.free[i])
    ensures var (q, b) := Take(p, i, n);
      b !in p.used && b in q.used && b in q.size && q.size[b] == n && q.End(b) == p.End(p.free[i])
  {
    hide Chain, Coalesced;
    assert p.free[i] in p.free && p.free[i] in p.size;
  }

  /** NULL is returned exactly when every free block ends before a header and the request would. */
  lemma AllocNullInBytes(p: Pool, nbytes: nat)
    requires Ok(p)
    ensures p.freep in p.Ring()
    ensures Alloc(p, nbytes).1 == 0 <==> forall a :: a in p.free ==> a + UNIT + nbytes > p.End(a)
  {
    AllocNullIff(p, nbytes);
    FreeSized(p);
    hide Ok, Alloc, Units;
    forall a | a in p.free
      ensures p.size[a] < Units(nbytes) <==> a + UNIT + nbytes > p.End(a)
    {
      HoldsIff(nbytes, p.size[a]);
    }
  }

  lemma FreeSized(p: Pool)
    requires Ok(p)
    ensures forall a :: a in p.free ==> a in p.size
  {}

  /** The k-th node round the ring: the sentinel, the free blocks by address, the sentinel again. */
  function Node(p: Pool, k: nat): int { if k % (|p.free| + 1) == 0 then p.base else p.free[k % (|p.free| + 1) - 1] }

  /** The node i places after the one behind position k. */
  function Behind(p: Pool, k: nat, i: nat): int { Node(p, k + 1 + i) }

  lemma NodeOfVisit(p: Pool, k: nat, d: nat)
    requires k < |p.Ring()| && d < |p.Ring()|
    ensures Behind(p, k, d) == Visit(p.Ring(), k, d) && (k + 1 + d) % |p.Ring()| == VisitAt(p.Ring(), k, d)
  {
    var n, x := |p.Ring()|, k + 1 + d;
    if x < n { ModUnique(x, n, 0, x); } else { ModUnique(x, n, 1, x - n); }
  }

  /** Next fit: the block handed out is the end of the first free block behind the roving pointer, round the
      ring, that a header and the request fit; the pointer moves to the node before that block. */
  lemma AllocNextFit(p: Pool, nbytes: nat) returns (k: nat, d: nat)
    requires Ok(p) && p.freep in p.Ring() && Alloc(p, nbytes).1 != 0
    ensures k <= |p.free| && d <= |p.free| && Node(p, k) == p.freep
    ensures var a, (q, r) := Behind(p, k, d), Alloc(p, nbytes);
      && a in p.free && a + UNIT + nbytes <= p.End(a) && q.End(r - UNIT) == p.End(a) && a <= r - UNIT
      && q.freep == Node(p, k + d)
    ensures forall i :: 0 <= i < d ==> Behind(p, k, i) + UNIT + nbytes > p.End(Behind(p, k, i))
  {
    FoundOnRing(p, nbytes);
    hide Ok, Alloc, Units, StepsToFit, IndexOf, Node, Behind, Visit;
    k := IndexOf(p.Ring(), p.freep);
    d := StepsToFit(p, k, Units(nbytes), 0);
    StepsSpec(p, k, Units(nbytes), 0);
    FitAt(p, nbytes, k, d);
    forall i | 0 <= i < d
      ensures Behind(p, k, i) + UNIT + nbytes > p.End(Behind(p, k, i))
    {
      NodeOfVisit(p, k, i);
      HoldsIff(nbytes, p.Size(Visit(p.Ring(), k, i)));
    }
    NodeAt(p, k);
  }

  lemma FoundOnRing(p: Pool, nbytes: nat)
    requires p.freep in p.Ring() && Alloc(p, nbytes).1 != 0
    ensures StepsToFit(p, IndexOf(p.Ring(), p.freep), Units(nbytes), 0) < |p.Ring()|
  {
    hide StepsToFit, IndexOf, Units, Take;
  }

  lemma NodeAt(p: Pool, k: nat)
    requires k < |p.Ring()|
    ensures Node(p, k) == p.Ring()[k]
  {
    ModUnique(k, |p.free| + 1, 0, k);
  }

  lemma OkParts(p: Pool)
    requires Ok(p)
    ensures Bounds(p) && Lists_(p)
  {}

  lemma FitAt(p: Pool, nbytes: nat, k: nat, d: nat)
    requires Ok(p) && p.freep in p.Ring() && k == IndexOf(p.Ring(), p.freep)
    requires d == StepsToFit(p, k, Units(nbytes), 0) < |p.Ring()| && p.Size(Visit(p.Ring(), k, d)) >= Units(nbytes)
    ensures var a, (q, r) := Behind(p, k, d), Alloc(p, nbytes);
      && a in p.free && a + UNIT + nbytes <= p.End(a) && q.End(r - UNIT) == p.End(a) && a <= r - UNIT
      && q.freep == Node(p, k + d)
  {
    hide Ok, Units, StepsToFit, IndexOf, Alloc, VisitAt, Node, Behind, Visit;
    FitTaken(p, nbytes, k, d);
    NodeOfFit(p, k, d);
    hide *;
  }

  lemma NodeOfFit(p: Pool, k: nat, d: nat)
    requires k < |p.Ring()| && d < |p.Ring()| && VisitAt(p.Ring(), k, d) > 0
    ensures var at := VisitAt(p.Ring(), k, d);
      Behind(p, k, d) == p.free[at - 1] && Node(p, k + d) == if at - 1 == 0 then p.base else p.free[at - 2]
  {
    NodeOfVisit(p, k, d);
    RingTail(p, VisitAt(p.Ring(), k, d));
    hide VisitAt, Node, Behind;
    NodeBefore(p, k + d, VisitAt(p.Ring(), k, d));
  }

  lemma RingTail(p: Pool, at: nat)
    requires at < |p.Ring()|
    ensures p.Ring()[at] == (if at == 0 then p.base else p.free[at - 1]) && |p.Ring()| == |p.free| + 1
  {}

  lemma FitTaken(p: Pool, nbytes: nat, k: nat, d: nat)
    requires Ok(p) && p.freep in p.Ring() && k == IndexOf(p.Ring(), p.freep)
    requires d == StepsToFit(p, k, Units(nbytes), 0) < |p.Ring()| && p.Size(Visit(p.Ring(), k, d)) >= Units(nbytes)
    ensures var at, (q, r) := VisitAt(p.Ring(), k, d), Alloc(p, nbytes);
      && at > 0
      && var a := p.free[at - 1];
         && a in p.free && a + UNIT + nbytes <= p.End(a) && q.End(r - UNIT) == p.End(a) && a <= r - UNIT
         && q.freep == if at - 1 == 0 then p.base else p.free[at - 2]
  {
    hide Ok, Bounds, Lists_, Units, StepsToFit, IndexOf, Alloc, Take, VisitAt, Visit;
    OkParts(p);
    AllocTaken(p, nbytes, k, d);
    var at := VisitAt(p.Ring(), k, d);
    TakenEnd(p, at - 1, Units(nbytes), nbytes, if at - 1 == 0 then p.base else p.free[at - 2]);
  }

  lemma TakenEnd(p: Pool, i: nat, n: int, nbytes: nat, f: int)
    requires Ok(p) && i < |p.free| && n == Units(nbytes) && 1 <= n <= p.Size(p.free[i])
    ensures var (q, b) := Take(p, i, n);
      && p.free[i] in p.free && p.free[i] + UNIT + nbytes <= p.End(p.free[i])
      && q.(freep := f).End(b) == p.End(p.free[i]) && p.free[i] <= b
  {
    TakeNew(p, i, n);
    TakeAbove(p, i, n);
    HoldsIff(nbytes, p.Size(p.free[i]));
    hide Ok, Take, Units;
  }

  lemma NodeBefore(p: Pool, x: nat, at: nat)
    requires at == (x + 1) % (|p.free| + 1) > 0
    ensures Node(p, x) == if at - 1 == 0 then p.base else p.free[at - 2]
  {
    var n, q := |p.free| + 1, (x + 1) / (|p.free| + 1);
    assert x + 1 == n * q + at;
    ModUnique(x, n, q, at - 1);
  }

  // ---------- freeing ----------

  lemma MergeKeepsOthers(p: Pool, i: int, x: int)
    requires x !in p.free && x in p.size
    ensures var q := MergeIfAdjacent(p, i); x in q.size && q.size[x] == p.size[x] && x !in q.free
  {
    var q := MergeIfAdjacent(p, i);
    assert forall y :: y in q.free ==> y in p.free;
  }

  /** Freeing a block in use takes it off the used list, leaves every other block in use as it is, and puts
      each of its bytes into a free block. */
  lemma FreeFrees(p: Pool, ap: int, x: int)
    requires Ok(p) && ap != 0 && ap - UNIT in p.used && ap - UNIT in p.size
    ensures var (q, ok) := Free(p, ap);
      && ok && q.used == Remove(p.used, ap - UNIT)
      && (forall u :: u in p.used && u != ap - UNIT ==> u in q.used && u in q.size && u in p.size && q.size[u] == p.size[u])
      && (ap - UNIT <= x < p.End(ap - UNIT) ==> exists a :: a in q.free && Owns(q, a, x))
  {
    var b := ap - UNIT;
    var q := Free(p, ap).0;
    FreeKeeps(p, ap);
    UsedKept(p, b);
    OkParts(p);
    if b <= x < p.End(b) {
      InArena(p, q, b, x);
      var a := Owner(q, q.lo, x);
      OwnerIsFree(p, q, b, a, x);
    }
  }

  /** The roving pointer is left at the free block just below the one freed, or at the sentinel if there is none. */
  lemma FreeLeavesPointer(p: Pool, ap: int)
    requires Ok(p) && ap != 0 && ap - UNIT in p.used && ap - UNIT in p.size
    ensures var f := Free(p, ap).0.freep;
      if exists a :: a in p.free && a < ap - UNIT
      then f in p.free && f < ap - UNIT && forall a :: a in p.free && a < ap - UNIT ==> a <= f
      else f == p.base
  {
    hide Ok, Free, Place;
    FreeSorted(p, ap - UNIT);
    FreePointer(p, ap);
    PlaceSpec(p.free, ap - UNIT);
    GreatestBelow(p.free, ap - UNIT, Place(p.free, ap - UNIT));
  }

  lemma GreatestBelow(s: seq<int>, b: int, i: nat)
    requires i <= |s| && (forall k :: 0 <= k < i ==> s[k] < b) && (forall k :: i <= k < |s| ==> b < s[k]) && Sorted(s)
    ensures i == 0 ==> forall a :: a in s ==> a > b
    ensures i > 0 ==> s[i - 1] in s && s[i - 1] < b && forall a :: a in s && a < b ==> a <= s[i - 1]
  {}

  lemma FreePointer(p: Pool, ap: int)
    requires ap != 0 && ap - UNIT in p.used
    ensures var i := Place(p.free, ap - UNIT); Free(p, ap).0.freep == if i == 0 then p.base else p.free[i - 1]
  {
    hide Place, Placed, MergeIfAdjacent, Remove;
  }

  lemma FreeSorted(p: Pool, b: int)
    requires Ok(p) && b in p.used
    ensures Sorted(p.free) && b !in p.free
  {}

  lemma UsedKept(p: Pool, b: int)
    requires Ok(p) && b in p.used && b in p.size
    ensures var q := Join(p.(used := Remove(p.used, b)), b);
      && q.used == Remove(p.used, b) && q.lo == p.lo && q.units == p.units
      && (forall u :: u in p.used && u != b ==> u in q.used && u in q.size && u in p.size && q.size[u] == p.size[u])
  {
    hide Chain, Coalesced, Apart;
    RemoveSpec(p.used, b);
    var p1 := Placed(p.(used := Remove(p.used, b)), b);
    var i: int := Place(p.free, b);
    var p2 := MergeIfAdjacent(p1, i);
    forall u | u in p.used && u != b
      ensures u in p.size && u !in p1.free
    {}
    hide MergeIfAdjacent, Placed, Place, Bounds;
    forall u | u in p.used && u != b
      ensures var q := MergeIfAdjacent(p2, i - 1); u in q.size && u in p.size && q.size[u] == p.size[u]
    {
      PlacedSize(p.(used := Remove(p.used, b)), b);
      MergeKeepsOthers(p1, i, u);
      MergeKeepsOthers(p2, i - 1, u);
    }
    MergeFields(p1, i);
    MergeFields(p2, i - 1);
    PlacedSize(p.(used := Remove(p.used, b)), b);
  }

  lemma PlacedSize(p: Pool, b: int)
    ensures Placed(p, b) == p.(free := Placed(p, b).free)
  {}

  lemma MergeFields(p: Pool, i: int)
    ensures var q := MergeIfAdjacent(p, i); q.used == p.used && q.lo == p.lo && q.units == p.units
  {}

  lemma InArena(p: Pool, q: Pool, b: int, x: int)
    requires Ok(p) && Ok(q) && b in p.size && q.lo == p.lo && q.units == p.units && b <= x < p.End(b)
    ensures q.lo in q.size && q.lo <= x < q.Hi()
  {}

  lemma OwnerIsFree(p: Pool, q: Pool, b: int, a: int, x: int)
    requires Ok(p) && Ok(q) && b in p.used && b in p.size && b <= x < p.End(b) && Owns(q, a, x)
    requires q.used == Remove(p.used, b)
    requires forall u :: u in p.used && u != b ==> u in q.size && u in p.size && q.size[u] == p.size[u]
    ensures a in q.free
  {
    hide Chain, Coalesced;
    RemoveSpec(p.used, b);
    if a in q.used {
      assert a in p.used && a != b && Owns(p, a, x);
      OwnerUnique(p, a, b, x);
    }
  }
}
