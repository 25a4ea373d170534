/** armci/src-gemini/bufalloc.c as it works: headers linked into a ring and a used list,
    edited in place, proved against BufPool. */
module BufAllocator {
  import opened Lists
  import opened BufPool
  import opened BufProofs
  import opened BufHeaders

  class Buffers {
    const base: int
    var hdr: Headers
    var freep: int
    var usedp: int
    ghost var pool: Pool

    ghost predicate Valid()
      reads this
    {
      Ok(pool) && pool.base == base && freep == pool.freep && Holds(hdr, usedp, pool)
    }

    /** armci_init_buf_alloc of a buffer at `buffer`, len bytes long; a shorter buffer than
        one header is a fatal error. */
    constructor (base: int, len: int, buffer: int)
      requires len >= UNIT && buffer > 0 && base > 0
      requires base + UNIT <= buffer || buffer + UNIT * (len / UNIT) < base
      ensures Valid() && pool == InitPool(buffer, len / UNIT, base)
    {
      var nu := len / UNIT;
      this.base := base;
      hdr := map[base := Header(VALID1, base, 0, VALID2), buffer := Header(VALID1, 0, nu, VALID2)];
      freep := base;
      usedp := buffer;
      pool := Whole(buffer, nu, base);
      new;
      var ok := Free(buffer + UNIT);
    }

    // ---------- armci_buf_alloc ----------

    method Alloc(nbytes: nat) returns (r: int)
      requires Valid()
      modifies this
      ensures Valid() && old(pool).freep in old(pool).Ring() && (pool, r) == BufPool.Alloc(old(pool), nbytes)
    {
      hide Ok, Holds, Ringed, BufPool.Alloc, StepsToFit, IndexOf, Take;
      FreepNode(pool);
      var n := (nbytes + UNIT - 1) / UNIT + 1;
      AllocCases(pool, nbytes);
      ghost var k := IndexOf(pool.Ring(), pool.freep);
      NodeAt(hdr, usedp, pool, k);
      var prev := freep;
      var p := hdr[prev].ptr;
      ghost var j, at := 0, k;
      while true
        invariant 0 <= j < |pool.Ring()| && k < |pool.Ring()| && 0 <= at < |pool.Ring()| && prev == pool.Ring()[at]
        invariant VisitAt(pool.Ring(), k, j) == if at + 1 < |pool.Ring()| then at + 1 else 0
        invariant p == Visit(pool.Ring(), k, j)
        invariant hdr == old(hdr) && freep == old(freep) && pool == old(pool) && usedp == old(usedp)
        invariant StepsToFit(pool, k, n, 0) == StepsToFit(pool, k, n, j)
        decreases |pool.Ring()| - j
      {
        at := VisitAt(pool.Ring(), k, j);
        NodeAt(hdr, usedp, pool, at);
        SearchStep(pool, k, n, j);
        if hdr[p].size >= n {
          AllocKeeps(pool, nbytes);
          r := TakeFrom(prev, p, n, at - 1, nbytes);
          return;
        }
        if p == freep { return 0; }
        prev, p := p, hdr[p].ptr;
        j := j + 1;
      }
    }

    /** Takes n units from block p, the i-th free one and next after prev. */
    method TakeFrom(prev: int, p: int, n: int, ghost i: nat, ghost nbytes: nat) returns (r: int)
      requires Valid() && i < |pool.free| && p == pool.free[i] && prev == pool.Ring()[i]
      requires 1 <= n <= pool.Size(p)
      requires Ok(Take(pool, i, n).0.(freep := prev))
      modifies this
      ensures Valid() && pool == Take(old(pool), i, n).0.(freep := prev) && r == Take(old(pool), i, n).1 + UNIT
    {
      hide Ok, Ringed, Linked, Bounds;
      NodeAt(hdr, usedp, pool, i + 1);
      var b := p;
      if hdr[p].size == n {
        TakeWholeHolds(hdr, pool, usedp, i);
        hdr := hdr[prev := hdr[prev].(ptr := hdr[p].ptr)];
        hdr := hdr[p := hdr[p].(ptr := usedp)];
      } else {
        TakeTailHolds(hdr, pool, usedp, i, n);
        hdr := hdr[p := hdr[p].(size := hdr[p].size - n)];
        b := p + UNIT * hdr[p].size;
        hdr := hdr[b := Header(VALID1, usedp, n, VALID2)];
      }
      usedp := b;
      freep := prev;
      pool := Take(pool, i, n).0.(freep := prev);
      return b + UNIT;
    }

    // ---------- armci_buf_free ----------

    /** addtofree and armci_buf_free, which have the same body; false is a fatal error. */
    method Free(ap: int) returns (ok: bool)
      requires Valid()
      modifies this
      ensures Valid() && (pool, ok) == BufPool.Free(old(pool), ap)
    {
      hide Ok, Ringed, Linked;
      if ap == 0 { return true; }
      var bp := ap - UNIT;
      if bp !in hdr || hdr[bp].valid1 != VALID1 || hdr[bp].valid2 != VALID2 {
        UsedSigned(hdr, usedp, pool);
        return false;
      }
      ok := Extract(bp);
      if !ok { return; }
      UsedLimbo(pool, bp);
      ghost var p0 := pool.(used := Remove(pool.used, bp));
      FreepNode(pool);
      var p := Search(bp, p0);
      FreeKeeps(pool, ap);
      hide Join, Holds, Place;
      pool := p0;
      Rejoin(bp, p);
    }

    /** Takes bp out of the used list, if it is on it. */
    method Extract(bp: int) returns (found: bool)
      requires Ok(pool) && Holds(hdr, usedp, pool)
      modifies this`hdr, this`usedp
      ensures found == (bp in pool.used)
      ensures !found ==> hdr == old(hdr) && usedp == old(usedp)
      ensures found ==> Holds(hdr, usedp, pool.(used := Remove(pool.used, bp)))
    {
      hide Ok, Ringed, Sized;
      var up, cur := 0, usedp;
      ghost var i, s := 0, pool.used;
      while true
        invariant 0 <= i <= |s| && cur == (if i < |s| then s[i] else 0) && up == (if i == 0 then 0 else s[i - 1]) && (i > 0 ==> up != 0)
        invariant hdr == old(hdr) && usedp == old(usedp) && bp !in s[..i]
        decreases |s| - i
      {
        UsedNode(hdr, usedp, s, i);
        if cur == 0 { return false; }
        if cur == bp {
          ExtractHolds(hdr, pool, usedp, i);
          if up == 0 { usedp := hdr[bp].ptr; } else { hdr := hdr[up := hdr[up].(ptr := hdr[bp].ptr)]; }
          return true;
        }
        up, cur := cur, hdr[cur].ptr;
        i := i + 1;
      }
    }

    /** From wherever freep stands, the search stops, and at the place of bp. */
    method Search(bp: int, ghost q: Pool) returns (p: int)
      requires Holds(hdr, usedp, q) && Limbo(q, bp) && freep in q.Ring()
      ensures p == q.Ring()[Place(q.free, bp)]
    {
      hide Limbo, Holds, Ringed, Place, IndexOf;
      p := freep;
      ghost var at, goal := IndexOf(q.Ring(), freep), Place(q.free, bp);
      SearchNode(hdr, usedp, q, bp, at);
      while !(bp > p && bp < hdr[p].ptr)
        invariant 0 <= at < |q.Ring()| && p == q.Ring()[at] && p in hdr && hdr[p].ptr == Succ(q, at)
        invariant Stops(p, hdr[p].ptr, bp) <==> at == goal
        decreases if at <= goal then goal - at else goal + |q.Ring()| - at
      {
        if p >= hdr[p].ptr && (bp > p || bp < hdr[p].ptr) { break; }
        p := hdr[p].ptr;
        at := if at + 1 < |q.Ring()| then at + 1 else 0;
        SearchNode(hdr, usedp, q, bp, at);
      }
    }

    /** Joins bp to its neighbours and threads it in after p. */
    method Rejoin(bp: int, p: int)
      requires Limbo(pool, bp) && pool.base == base && Holds(hdr, usedp, pool)
      requires p == pool.Ring()[Place(pool.free, bp)]
      modifies this
      ensures pool == Join(old(pool), bp) && Holds(hdr, usedp, pool) && freep == pool.freep
    {
      hide Limbo, Holds, Place, MergeIfAdjacent;
      ghost var p0, i: int := pool, Place(pool.free, bp);
      UpperHolds(hdr, p0, usedp, bp, i, p);
      LowerHolds(UpperHeaders(hdr, p, bp), p0, usedp, bp, i, p);
      var u := hdr[p].ptr;
      if bp + UNIT * hdr[bp].size == u {
        hdr := hdr[bp := hdr[bp].(size := hdr[bp].size + hdr[u].size, ptr := hdr[u].ptr)];
      } else {
        hdr := hdr[bp := hdr[bp].(ptr := u)];
      }
      if p + UNIT * hdr[p].size == bp {
        hdr := hdr[p := hdr[p].(size := hdr[p].size + hdr[bp].size, ptr := hdr[bp].ptr)];
      } else {
        hdr := hdr[p := hdr[p].(ptr := bp)];
      }
      HoldsFreep(hdr, usedp, MergeIfAdjacent(MergeIfAdjacent(Placed(p0, bp), i), i - 1), p);
      freep := p;
      pool := Join(pool, bp);
    }
  }

  // ---------- searching ----------

  lemma FreepNode(p: Pool)
    requires Ok(p)
    ensures p.freep in p.Ring()
  {
    FreepOnRing(p);
  }

  lemma NodeAt(hdr: Headers, usedp: int, p: Pool, i: nat)
    requires Holds(hdr, usedp, p) && Ok(p) && i < |p.Ring()|
    ensures p.Ring()[i] in hdr && hdr[p.Ring()[i]].ptr == Succ(p, i)
    ensures hdr[p.Ring()[i]].size == p.Size(p.Ring()[i])
  {
    hide Apart, Chain, Coalesced;
    RingNode(hdr, p, i);
    NodeSize(hdr, p, i);
  }

  lemma UsedNode(hdr: Headers, usedp: int, s: seq<int>, i: nat)
    requires Linked(hdr, usedp, s) && i <= |s|
    ensures i < |s| ==> s[i] != 0 && s[i] in hdr && hdr[s[i]].ptr == After(s, i)
    ensures i == 0 ==> usedp == (if i < |s| then s[i] else 0)
  {
    if i < |s| { var r := After(s, i); assert hdr[s[i]].ptr == r; }
  }

  lemma UsedSigned(hdr: Headers, usedp: int, p: Pool)
    requires Holds(hdr, usedp, p) && Ok(p)
    ensures forall a :: a in p.used ==> a in hdr && hdr[a].valid1 == VALID1 && hdr[a].valid2 == VALID2
  {}

  /** One step of the search in armci_buf_alloc: it is back at its start exactly at its
      last visit. */
  lemma SearchStep(p: Pool, k: nat, n: int, j: nat)
    requires Ok(p) && k < |p.Ring()| && j < |p.Ring()|
    ensures StepsToFit(p, k, n, j) == if p.Size(Visit(p.Ring(), k, j)) >= n then j else StepsToFit(p, k, n, j + 1)
    ensures StepsToFit(p, k, n, |p.Ring()|) == |p.Ring()|
    ensures Visit(p.Ring(), k, j) == p.Ring()[k] <==> j + 1 == |p.Ring()|
    ensures j + 1 < |p.Ring()| ==> Succ(p, VisitAt(p.Ring(), k, j)) == Visit(p.Ring(), k, j + 1)
  {
    hide Chain, Coalesced, Apart;
    RingNoDup(p);
  }

  /** armci_buf_alloc on values, by where the search ends. */
  lemma AllocCases(p: Pool, nbytes: nat)
    requires Ok(p) && p.freep in p.Ring()
    ensures var k := IndexOf(p.Ring(), p.freep);
      var j := StepsToFit(p, k, Units(nbytes), 0);
      && Succ(p, k) == Visit(p.Ring(), k, 0)
      && (j == |p.Ring()| ==> BufPool.Alloc(p, nbytes) == (p, 0))
      && (j < |p.Ring()| ==>
            var at := VisitAt(p.Ring(), k, j);
            && at > 0 && 1 <= Units(nbytes) <= p.Size(p.free[at - 1])
            && var (q, b) := Take(p, at - 1, Units(nbytes));
               BufPool.Alloc(p, nbytes) == (q.(freep := p.Ring()[at - 1]), b + UNIT))
  {
    hide Chain, Coalesced, Apart, StepsToFit, Take, IndexOf, VisitAt, Bounds, Lists_, Units;
    var k := IndexOf(p.Ring(), p.freep);
    var j := StepsToFit(p, k, Units(nbytes), 0);
    StepsSpec(p, k, Units(nbytes), 0);
    VisitFirst(p, k);
    if j < |p.Ring()| { AllocTaken(p, nbytes, k, j); FitIsFree(p, VisitAt(p.Ring(), k, j), Units(nbytes)); }
  }

  lemma VisitFirst(p: Pool, k: nat)
    requires k < |p.Ring()|
    ensures Succ(p, k) == Visit(p.Ring(), k, 0)
  {}

  lemma SearchNode(hdr: Headers, usedp: int, q: Pool, b: int, i: nat)
    requires Holds(hdr, usedp, q) && Limbo(q, b) && i < |q.Ring()|
    ensures Place(q.free, b) < |q.Ring()|
    ensures q.Ring()[i] in hdr && hdr[q.Ring()[i]].ptr == Succ(q, i)
    ensures Stops(q.Ring()[i], Succ(q, i), b) <==> i == Place(q.free, b)
  {
    hide Chain, Coalesced, Apart;
    RingNode(hdr, q, i);
    StopsAtPlaceOnly(q, b, i);
  }
}
