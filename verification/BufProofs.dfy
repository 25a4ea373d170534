/** What the buffer allocator keeps and promises. */
module BufProofs {
  import opened Lists
  import opened BufPool

  // ---------- the address search ----------

  lemma {:induction false} PlaceSpec(s: seq<int>, b: int)
    requires Sorted(s) && b !in s
    ensures var i := Place(s, b);
      (forall k :: 0 <= k < i ==> s[k] < b) && (forall k :: i <= k < |s| ==> b < s[k])
  {
    if s != [] && b > s[0] {
      assert forall x :: x in s[1..] ==> x in s;
      PlaceSpec(s[1..], b);
      var i := Place(s[1..], b);
      assert forall k :: 1 <= k < i + 1 ==> s[k] == s[1..][k - 1];
      assert forall k :: i + 1 <= k < |s| ==> s[k] == s[1..][k - 1];
    } else if s != [] {
      assert s[0] in s;
    }
  }

  /** The condition on which the search in armci_buf_free stops at p, q following it: b lies
      between the two, or p is the last in address order and b beyond either end. */
  predicate Stops(p: int, q: int, b: int) {
    (b > p && b < q) || (p >= q && (b > p || b < q))
  }

  /** The node after ring position i. */
  function Succ(p: Pool, i: nat): int
    requires i < |p.Ring()|
  {
    if i + 1 < |p.Ring()| then p.Ring()[i + 1] else p.base
  }

  /** Wherever the sentinel lies, there is exactly one place at which the search stops. */
  lemma StopsAtPlaceOnly(p: Pool, b: int, i: nat)
    requires Bounds(p) && Sorted(p.free) && i < |p.Ring()| && b !in p.free && p.lo <= b < p.Hi()
    requires forall a :: a in p.free ==> p.lo <= a < p.Hi()
    ensures Stops(p.Ring()[i], Succ(p, i), b) <==> i == Place(p.free, b)
  {
    PlaceSpec(p.free, b);
    assert forall k :: 0 <= k < |p.free| ==> p.free[k] in p.free;
    assert i > 0 ==> p.Ring()[i] == p.free[i - 1];
    assert i + 1 < |p.Ring()| ==> p.Ring()[i + 1] == p.free[i];
  }

  /** The ring ascends everywhere but at one place w. */
  lemma OneDescent(p: Pool) returns (w: nat)
    requires Ok(p)
    ensures w < |p.Ring()|
    ensures forall i {:trigger Succ(p, i)} :: 0 <= i < |p.Ring()| ==> (p.Ring()[i] >= Succ(p, i) <==> i == w)
  {
    var n := |p.free|;
    w := if p.base < p.lo || n == 0 then n else 0;
    forall i | 0 <= i < |p.Ring()|
      ensures p.Ring()[i] >= Succ(p, i) <==> i == w
    {
      RingNeighbours(p, i);
    }
  }

  lemma RingNeighbours(p: Pool, i: nat)
    requires Ok(p) && i < |p.Ring()|
    ensures 0 < i ==> p.Ring()[i] == p.free[i - 1] && p.lo <= p.free[i - 1] < p.Hi()
    ensures i < |p.free| ==> Succ(p, i) == p.free[i] && p.lo <= p.free[i] < p.Hi()
    ensures 0 < i < |p.free| ==> p.free[i - 1] < p.free[i]
  {
    hide Chain, Coalesced, Apart;
    assert 0 < i ==> p.free[i - 1] in p.free && p.free[i - 1] in p.size;
    assert i < |p.free| ==> p.free[i] in p.free && p.free[i] in p.size;
  }

  // ---------- allocation ----------

  lemma {:induction false} StepsSpec(p: Pool, k: nat, n: int, j: nat)
    requires k < |p.Ring()| && j <= |p.Ring()|
    ensures var r := StepsToFit(p, k, n, j);
      && (forall i :: j <= i < r ==> p.Size(Visit(p.Ring(), k, i)) < n)
      && (r < |p.Ring()| ==> p.Size(Visit(p.Ring(), k, r)) >= n)
    decreases |p.Ring()| - j
  {
    if j < |p.Ring()| && p.Size(Visit(p.Ring(), k, j)) < n { StepsSpec(p, k, n, j + 1); }
  }

  lemma BaseIsNoBlock(p: Pool)
    requires Bounds(p)
    ensures p.Size(p.base) == 0
  {}

  /** The search visits every node. */
  lemma VisitsAll(ring: seq<int>, k: nat, i: nat) returns (d: nat)
    requires k < |ring| && i < |ring|
    ensures d < |ring| && Visit(ring, k, d) == ring[i]
  {
    d := if i > k then i - k - 1 else i + |ring| - k - 1;
  }

  /** NULL comes back exactly when no free block is long enough, wherever the roving
      pointer stands. */
  lemma AllocNullIff(p: Pool, nbytes: nat)
    requires Ok(p)
    ensures p.freep in p.Ring()
    ensures Alloc(p, nbytes).1 == 0 <==> forall a :: a in p.free ==> p.size[a] < Units(nbytes)
    ensures Alloc(p, nbytes).1 == 0 ==> Alloc(p, nbytes).0 == p
  {
    hide Chain, Coalesced, Apart;
    FreepOnRing(p);
    var n := Units(nbytes);
    var k := IndexOf(p.Ring(), p.freep);
    var j := StepsToFit(p, k, n, 0);
    StepsSpec(p, k, n, 0);
    hide StepsToFit;
    BaseIsNoBlock(p);
    if j == |p.Ring()| {
      forall a | a in p.free
        ensures p.size[a] < n
      {
        var i := IndexOf(p.free, a) + 1;
        assert p.Ring()[i] == a;
        var d := VisitsAll(p.Ring(), k, i);
        assert p.Size(Visit(p.Ring(), k, d)) < n;
      }
    } else {
      var at := VisitAt(p.Ring(), k, j);
      FitIsFree(p, at, n);
      AllocTaken(p, nbytes, k, j);
    }
  }

  /** A node of at least n units is a free block, not the sentinel. */
  lemma FitIsFree(p: Pool, at: nat, n: int)
    requires Bounds(p) && Lists_(p) && at < |p.Ring()| && n >= 1 && p.Size(p.Ring()[at]) >= n
    ensures at > 0 && p.Ring()[at] == p.free[at - 1] && p.free[at - 1] in p.free && p.size[p.free[at - 1]] >= n
    ensures p.free[at - 1] >= p.lo > 0
  {
    BaseIsNoBlock(p);
    assert p.free[at - 1] in p.free;
  }

  lemma AllocTaken(p: Pool, nbytes: nat, k: nat, j: nat)
    requires p.freep in p.Ring() && k == IndexOf(p.Ring(), p.freep)
    requires j == StepsToFit(p, k, Units(nbytes), 0) < |p.Ring()|
    requires Bounds(p) && Lists_(p) && p.Size(Visit(p.Ring(), k, j)) >= Units(nbytes)
    ensures var at := VisitAt(p.Ring(), k, j);
      && at > 0 && 1 <= Units(nbytes) <= p.Size(p.free[at - 1])
      && var (q, b) := Take(p, at - 1, Units(nbytes));
         && Alloc(p, nbytes) == (q.(freep := if at - 1 == 0 then p.base else p.free[at - 2]), b + UNIT)
         && b >= p.lo > 0
  {
    hide Take, StepsToFit, IndexOf, Units, VisitAt;
    var at := VisitAt(p.Ring(), k, j);
    UnitsPositive(nbytes);
    FitIsFree(p, at, Units(nbytes));
    TakeAbove(p, at - 1, Units(nbytes));
    hide Bounds, Lists_;
  }

  lemma UnitsPositive(nbytes: nat)
    ensures Units(nbytes) >= 1
  {}

  lemma TakeAbove(p: Pool, i: nat, n: int)
    requires i < |p.free| && n <= p.Size(p.free[i])
    ensures Take(p, i, n).1 >= p.free[i]
  {}

  lemma FreepOnRing(p: Pool)
    requires Lists_(p)
    ensures p.freep in p.Ring()
  {
    if p.freep in p.free {
      var i := IndexOf(p.free, p.freep);
      assert p.Ring()[i + 1] == p.freep;
    } else {
      assert p.Ring()[0] == p.base;
    }
  }

  lemma TakeKeeps(p: Pool, i: nat, n: int)
    requires Ok(p) && i < |p.free| && 1 <= n <= p.Size(p.free[i])
    ensures var (q, b) := Take(p, i, n);
      && Bounds(q) && Apart(q) && Chain(q) && Coalesced(q)
      && b in q.used && q.size[b] == n && p.lo <= b
  {
    var a := p.free[i];
    assert a in p.free && a in p.size;
    var (q, b) := Take(p, i, n);
    if p.Size(a) == n {
      assert forall x :: x in q.free ==> x in p.free;
      assert forall x :: q.End(x) == p.End(x);
    } else {
      TakeTail(p, q, a, b, n);
    }
  }

  /** Cutting n units off the end of free block a. */
  lemma TakeTail(p: Pool, q: Pool, a: int, b: int, n: int)
    requires Ok(p) && a in p.free && a in p.size && 1 <= n < p.size[a] && b == a + UNIT * (p.size[a] - n)
    requires q.lo == p.lo && q.units == p.units && q.base == p.base && q.free == p.free
    requires q.size == p.size[a := p.size[a] - n][b := n]
    ensures Bounds(q) && Apart(q) && Chain(q) && Coalesced(q) && b !in p.size
  {
    assert b !in p.size;
    TailChain(p, q, a, b, n);
    TailApart(p, q, a, b, n);
    TailCoalesced(p, q, a, b, n);
  }

  lemma TailChain(p: Pool, q: Pool, a: int, b: int, n: int)
    requires Bounds(p) && Chain(p) && a in p.size && 1 <= n < p.size[a] && b == a + UNIT * (p.size[a] - n) && b !in p.size
    requires q.lo == p.lo && q.units == p.units && q.base == p.base && q.size == p.size[a := p.size[a] - n][b := n]
    ensures Bounds(q) && Chain(q)
  {
    assert q.End(a) == b && q.End(b) == p.End(a);
    forall x | x in q.size && q.End(x) != q.Hi()
      ensures q.End(x) in q.size
    {
      if x != a && x != b { assert q.End(x) == p.End(x); }
    }
  }

  lemma TailCoalesced(p: Pool, q: Pool, a: int, b: int, n: int)
    requires Coalesced(p) && (forall x :: x in p.free ==> x in p.size) && a in p.free && 1 <= n < p.size[a]
    requires b == a + UNIT * (p.size[a] - n) && b !in p.size
    requires q.free == p.free && q.size == p.size[a := p.size[a] - n][b := n]
    ensures Coalesced(q)
  {
    assert q.End(a) == b;
    forall x | x in q.free
      ensures q.End(x) !in q.free
    {
      if x != a { assert q.End(x) == p.End(x); }
    }
  }

  lemma TailApart(p: Pool, q: Pool, a: int, b: int, n: int)
    requires Apart(p) && a in p.size && 1 <= n < p.size[a] && b == a + UNIT * (p.size[a] - n)
    requires q.size == p.size[a := p.size[a] - n][b := n]
    ensures Apart(q)
  {
    forall x, y | x in q.size && y in q.size && x < y
      ensures x + UNIT * q.size[x] <= y
    {
      var x', y' := if x == b then a else x, if y == b then a else y;
      assert x' in p.size && y' in p.size;
    }
  }

  lemma TakeLists(p: Pool, i: nat, n: int)
    requires Ok(p) && i < |p.free| && 1 <= n <= p.Size(p.free[i])
    ensures var q := Take(p, i, n).0;
      && Sorted(q.free) && NoDup(q.used)
      && (forall a :: a in q.free ==> a !in q.used)
      && (forall a :: a in q.size <==> a in q.free || a in q.used)
      && (forall k :: 0 <= k < i ==> p.free[k] in q.free)
  {
    hide Chain, Coalesced;
    var a := p.free[i];
    assert a in p.free && a in p.size;
    var (q, b) := Take(p, i, n);
    assert forall k :: 0 <= k < |p.free| ==> p.free[k] in p.free;
    if p.Size(a) == n {
      NoDupCons(a, p.used);
      DropOne(p.free, i);
    } else {
      assert b !in p.size;
      NoDupCons(b, p.used);
    }
  }

  lemma DropOne(s: seq<int>, i: nat)
    requires Sorted(s) && i < |s|
    ensures var t := s[..i] + s[i + 1..];
      Sorted(t) && (forall x :: x in t <==> x in s && x != s[i]) && forall k :: 0 <= k < i ==> s[k] in t
  {
    var t := s[..i] + s[i + 1..];
    forall x | x in s && x != s[i]
      ensures x in t
    {
      var k :| 0 <= k < |s| && s[k] == x;
      assert t[if k < i then k else k - 1] == x;
    }
    assert forall k :: 0 <= k < i ==> t[k] == s[k];
  }

  lemma AllocKeeps(p: Pool, nbytes: nat)
    requires Ok(p)
    ensures p.freep in p.Ring() && Ok(Alloc(p, nbytes).0)
  {
    AllocNullIff(p, nbytes);
    if Alloc(p, nbytes).1 != 0 {
      var at := AllocAt(p, nbytes);
      TakeKeeps(p, at, Units(nbytes));
      TakeLists(p, at, Units(nbytes));
      hide Take, Ok;
      var q := Take(p, at, Units(nbytes)).0;
      AllocFreep(p, q, Alloc(p, nbytes).0, at, Units(nbytes));
    }
  }

  lemma AllocFreep(p: Pool, q: Pool, r: Pool, at: nat, n: int)
    requires Ok(p) && at < |p.free| && 1 <= n <= p.Size(p.free[at]) && q == Take(p, at, n).0
    requires r == q.(freep := if at == 0 then p.base else p.free[at - 1])
    requires Bounds(q) && Apart(q) && Chain(q) && Coalesced(q) && Sorted(q.free) && NoDup(q.used)
    requires (forall a :: a in q.free ==> a !in q.used) && (forall a :: a in q.size <==> a in q.free || a in q.used)
    requires forall k :: 0 <= k < at ==> p.free[k] in q.free
    ensures Ok(r)
  {
    assert forall x :: r.End(x) == q.End(x);
  }

  /** The free block that a successful allocation cuts. */
  lemma AllocAt(p: Pool, nbytes: nat) returns (at: nat)
    requires Ok(p) && p.freep in p.Ring() && Alloc(p, nbytes).1 != 0
    ensures at < |p.free| && 1 <= Units(nbytes) <= p.Size(p.free[at])
    ensures var (q, b) := Take(p, at, Units(nbytes));
      Alloc(p, nbytes) == (q.(freep := if at == 0 then p.base else p.free[at - 1]), b + UNIT)
  {
    hide Chain, Coalesced, Apart, Take, Bounds, Lists_, Units, StepsToFit, IndexOf, VisitAt, Visit;
    var k := IndexOf(p.Ring(), p.freep);
    var j := StepsToFit(p, k, Units(nbytes), 0);
    StepsSpec(p, k, Units(nbytes), 0);
    AllocTaken(p, nbytes, k, j);
    at := VisitAt(p.Ring(), k, j) - 1;
  }

  // ---------- freeing ----------

  /** The lists when block b has left the used list and is not yet free. */
  ghost predicate Limbo(p: Pool, b: int) {
    && Bounds(p) && Apart(p) && Chain(p) && Coalesced(p) && Sorted(p.free) && NoDup(p.used)
    && b in p.size && b !in p.free && b !in p.used
    && (forall a :: a in p.free ==> a !in p.used)
    && (forall a :: a in p.size <==> a in p.free || a in p.used || a == b)
  }

  /** Everything but coalescing and the roving pointer. */
  ghost predicate Loose(p: Pool) {
    && Bounds(p) && Apart(p) && Chain(p) && Sorted(p.free) && NoDup(p.used)
    && (forall a :: a in p.free ==> a !in p.used)
    && (forall a :: a in p.size <==> a in p.free || a in p.used)
  }

  /** Free blocks k and k + 1 do not touch. */
  ghost predicate Gap(p: Pool, k: int) {
    0 <= k && k + 1 < |p.free| ==> p.End(p.free[k]) != p.free[k + 1]
  }

  lemma InsertLoose(p: Pool, b: int)
    requires Limbo(p, b)
    ensures var i := Place(p.free, b);
      var q := p.(free := p.free[..i] + [b] + p.free[i..]);
      Loose(q) && (forall k :: k != i && k != i - 1 ==> Gap(q, k))
  {
    hide Apart, Chain, Bounds, Insert, Sorted, NoDup, Gap, Coalesced;
    var i := Place(p.free, b);
    var q := p.(free := p.free[..i] + [b] + p.free[i..]);
    PlaceSpec(p.free, b);
    InsertAt(p.free, i, b);
    InsertSpec(p.free, b);
    SameSizes(p, q);
    forall k | k != i && k != i as int - 1
      ensures Gap(q, k)
    {
      OldGap(p, q, b, i, k);
    }
  }

  lemma SameSizes(p: Pool, q: Pool)
    requires Bounds(p) && Apart(p) && Chain(p) && q.size == p.size && q.lo == p.lo && q.units == p.units && q.base == p.base
    ensures Bounds(q) && Apart(q) && Chain(q)
  {
    hide Apart;
    forall x
      ensures q.End(x) == p.End(x)
    {}
    SameSizeApart(p, q);
  }

  lemma OldGap(p: Pool, q: Pool, b: int, i: nat, k: int)
    requires Coalesced(p) && i <= |p.free| && q.free == p.free[..i] + [b] + p.free[i..] && q.size == p.size
    requires k != i && k != i - 1
    ensures Gap(q, k)
  {
    if 0 <= k && k + 1 < |q.free| {
      var j := if k < i then k else k - 1;
      assert q.free[k] == p.free[j] && q.free[k + 1] == p.free[j + 1];
      assert p.free[j] in p.free && p.free[j + 1] in p.free;
      assert q.End(p.free[j]) == p.End(p.free[j]);
    }
  }

  lemma MergeLoose(p: Pool, i: nat)
    requires Loose(p) && i + 1 < |p.free| && p.End(p.free[i]) == p.free[i + 1]
    ensures Loose(Merge(p, i))
  {
    var a, b := p.free[i], p.free[i + 1];
    var q := Merge(p, i);
    assert a in p.free && b in p.free;
    assert a in p.size && b in p.size && a < b && p.size[b] >= 1;
    assert q.free == p.free[..i + 1] + p.free[i + 1 + 1..];
    DropOne(p.free, i + 1);
    MergeApart(p, q, a, b);
    MergeChain(p, q, a, b);
    hide Apart, Bounds, Chain, Sorted, NoDup;
  }

  lemma MergeChain(p: Pool, q: Pool, a: int, b: int)
    requires Bounds(p) && Chain(p) && a in p.size && b in p.size && a < b && p.End(a) == b
    requires q.lo == p.lo && q.units == p.units && q.base == p.base && q.size == (p.size - {b})[a := p.size[a] + p.size[b]]
    requires Apart(p)
    ensures Bounds(q) && Chain(q)
  {
    assert q.End(a) == p.End(b) && q.Hi() == p.Hi();
    forall x | x in q.size && q.End(x) != q.Hi()
      ensures q.End(x) in q.size
    {
      if x != a { EndsBefore(p, x, a, b); }
    }
  }

  /** No block but a ends where b begins. */
  lemma EndsBefore(p: Pool, x: int, a: int, b: int)
    requires Bounds(p) && Apart(p) && a in p.size && b in p.size && a < b && p.End(a) == b
    requires x in p.size && x != a && x != b
    ensures p.End(x) != b
  {}

  lemma MergeIfLoose(p: Pool, i: int)
    requires Loose(p)
    ensures var q := MergeIfAdjacent(p, i); Loose(q) && q.base == p.base && q.used == p.used
  {
    hide Loose;
    if MergeIfAdjacent(p, i) != p { MergeLoose(p, i); }
  }

  lemma MergeApart(p: Pool, q: Pool, a: int, b: int)
    requires Apart(p) && a in p.size && b in p.size && a < b && p.End(a) == b
    requires q.size == (p.size - {b})[a := p.size[a] + p.size[b]]
    requires forall x :: x in p.size ==> p.size[x] >= 1
    ensures Apart(q)
  {
    forall x, y | x in q.size && y in q.size && x < y
      ensures x + UNIT * q.size[x] <= y
    {
      assert x == a ==> b + UNIT * p.size[b] <= y;
    }
  }

  lemma MergeGaps(p: Pool, i: nat, k: int)
    requires Loose(p) && i + 1 < |p.free| && p.End(p.free[i]) == p.free[i + 1]
    requires Gap(p, if k < i then k else k + 1)
    ensures Gap(Merge(p, i), k)
  {
    hide Apart, Chain;
    var q := Merge(p, i);
    if 0 <= k && k + 1 < |q.free| {
      assert q.free[k] == p.free[if k <= i then k else k + 1] && q.free[k + 1] == p.free[if k < i then k + 1 else k + 2];
      assert p.free[k] in p.free && (k + 2 < |p.free| ==> p.free[k + 1] in p.free && p.free[k + 2] in p.free);
      assert p.free[i] in p.free && p.free[i + 1] in p.free;
    }
  }

  lemma GapsCoalesced(p: Pool)
    requires Loose(p) && forall k :: Gap(p, k)
    ensures Coalesced(p)
  {
    hide Chain;
    forall a | a in p.free
      ensures p.End(a) !in p.free
    {
      var k := IndexOf(p.free, a);
      forall j | 0 <= j < |p.free|
        ensures p.free[j] != p.End(a)
      {
        assert p.free[j] in p.free && Gap(p, k);
        assert j > k + 1 ==> p.free[k + 1] in p.free && p.free[k + 1] in p.size;
      }
    }
  }

  /** After the two joins of position i no free blocks touch. */
  lemma JoinsCoalesce(p: Pool, i: nat)
    requires Loose(p) && i < |p.free| && forall k :: k != i && k != i - 1 ==> Gap(p, k)
    ensures var q := MergeIfAdjacent(MergeIfAdjacent(p, i), i - 1);
      Loose(q) && Coalesced(q) && (i > 0 ==> p.free[i - 1] in q.free)
      && q.used == p.used && q.base == p.base && q.lo == p.lo && q.units == p.units
  {
    hide Loose, Coalesced, Gap;
    var p2 := MergeIfAdjacent(p, i);
    GapMeans(p, i);
    if p2 != p {
      MergeLoose(p, i);
      forall k | k != i - 1
        ensures Gap(p2, k)
      {
        MergeGaps(p, i, k);
      }
    }
    var q := MergeIfAdjacent(p2, i - 1);
    GapMeans(p2, i - 1);
    if q != p2 {
      MergeLoose(p2, i - 1);
      forall k
        ensures Gap(q, k)
      {
        MergeGaps(p2, i - 1, k);
      }
    }
    GapsCoalesced(q);
    if i > 0 { assert q.free[i - 1] == p.free[i - 1]; }
  }

  lemma GapMeans(p: Pool, k: int)
    ensures Gap(p, k) <==> MergeIfAdjacent(p, k) == p || !(0 <= k && k + 1 < |p.free| && p.End(p.free[k]) == p.free[k + 1])
  {
    if 0 <= k && k + 1 < |p.free| && p.End(p.free[k]) == p.free[k + 1] {
      assert |Merge(p, k).free| == |p.free| - 1;
    }
  }

  lemma JoinKeeps(p: Pool, b: int)
    requires Limbo(p, b)
    ensures Ok(Join(p, b))
  {
    hide Limbo, Loose, Coalesced, Gap, MergeIfAdjacent, Place, Ok;
    var i: int := Place(p.free, b);
    var p1 := p.(free := p.free[..i] + [b] + p.free[i..]);
    InsertLoose(p, b);
    JoinsCoalesce(p1, i);
    assert i > 0 ==> p1.free[i - 1] == p.free[i - 1];
    var q := MergeIfAdjacent(MergeIfAdjacent(p1, i), i - 1);
    RovingOk(q, if i == 0 then p.base else p.free[i - 1]);
  }

  lemma RovingOk(q: Pool, f: int)
    requires Loose(q) && Coalesced(q) && (f == q.base || f in q.free)
    ensures Ok(q.(freep := f))
  {
    var r := q.(freep := f);
    forall x
      ensures r.End(x) == q.End(x)
    {}
    SameSizeApart(q, r);
  }

  lemma UsedLimbo(p: Pool, b: int)
    requires Ok(p) && b in p.used
    ensures Limbo(p.(used := Remove(p.used, b)), b)
  {
    hide Apart;
    var q := p.(used := Remove(p.used, b));
    RemoveSpec(p.used, b);
    forall x
      ensures q.End(x) == p.End(x)
    {}
    assert Apart(q) by { SameSizeApart(p, q); }
  }

  lemma SameSizeApart(p: Pool, q: Pool)
    requires Apart(p) && q.size == p.size
    ensures Apart(q)
  {}

  lemma FreeKeeps(p: Pool, ap: int)
    requires Ok(p)
    ensures Ok(Free(p, ap).0)
  {
    if ap != 0 && ap - UNIT in p.used {
      UsedLimbo(p, ap - UNIT);
      hide Ok, Limbo;
      JoinKeeps(p.(used := Remove(p.used, ap - UNIT)), ap - UNIT);
    }
  }

  lemma InitKeeps(lo: int, units: int, base: int)
    requires lo > 0 && base > 0 && units >= 1 && (base + UNIT <= lo || lo + UNIT * units < base)
    ensures Ok(InitPool(lo, units, base))
    ensures var p := InitPool(lo, units, base); p.free == [lo] && p.used == [] && p.size == map[lo := units]
  {
    FreeKeeps(Whole(lo, units, base), lo + UNIT);
  }

  /** Freeing what was just allocated restores the free list, every extent and the used list. */
  lemma FreeUndoesAlloc(p: Pool, nbytes: nat)
    requires Ok(p)
    ensures p.freep in p.Ring()
    ensures Alloc(p, nbytes).1 != 0 ==>
      var (q, ap) := Alloc(p, nbytes);
      var (r, ok) := Free(q, ap);
      ok && r.free == p.free && r.size == p.size && r.used == p.used
  {
    AllocNullIff(p, nbytes);
    if Alloc(p, nbytes).1 != 0 {
      var at := AllocAt(p, nbytes);
      TakeKeeps(p, at, Units(nbytes));
      hide Ok, Alloc;
      Rejoin(p, at, Units(nbytes));
    }
  }

  /** Joining a block just taken from free block `at`, in either way of taking it. */
  lemma Rejoin(p: Pool, at: nat, n: int)
    requires Ok(p) && at < |p.free| && 1 <= n <= p.Size(p.free[at])
    ensures var (q0, b) := Take(p, at, n);
      var q := q0.(freep := if at == 0 then p.base else p.free[at - 1]);
      var (r, ok) := Free(q, b + UNIT);
      b >= p.lo > 0 && b + UNIT != 0 && ok && r.free == p.free && r.size == p.size && r.used == p.used
  {
    hide Ok, Join, Free, Bounds, Apart, Chain, Coalesced, Take;
    TakeKeeps(p, at, n);
    TakeIs(p, at, n);
    OkBounds(p);
    var (q0, b) := Take(p, at, n);
    var q := q0.(freep := if at == 0 then p.base else p.free[at - 1]);
    FreeFirst(q, b, p.used);
    if p.Size(p.free[at]) == n { RejoinWhole(p, q, at); } else { RejoinTail(p, q, at, n); }
  }

  lemma OkBounds(p: Pool)
    requires Ok(p)
    ensures p.lo > 0
  {}

  lemma TakeIs(p: Pool, i: nat, n: int)
    requires i < |p.free|
    ensures var (q, b) := Take(p, i, n);
      && q.used == [b] + p.used && q.base == p.base
      && (if p.Size(p.free[i]) == n then b == p.free[i] && q.free == p.free[..i] + p.free[i + 1..] && q.size == p.size
          else
            && b == p.free[i] + UNIT * (p.Size(p.free[i]) - n) && q.free == p.free
            && q.size == p.size[p.free[i] := p.Size(p.free[i]) - n][b := n])
  {}

  /** Freeing the block at the head of the used list. */
  lemma FreeFirst(q: Pool, b: int, used: seq<int>)
    requires q.used == [b] + used && b > 0
    ensures Free(q, b + UNIT) == (Join(q.(used := used), b), true)
  {
    hide Join;
    assert Remove(q.used, b) == used;
  }

  lemma PlaceIs(s: seq<int>, b: int, i: nat)
    requires Sorted(s) && i <= |s| && (forall k :: 0 <= k < i ==> s[k] < b) && (i < |s| ==> b < s[i])
    ensures Place(s, b) == i
  {
    forall k | 0 <= k < |s|
      ensures s[k] != b
    {
      assert i < k < |s| ==> s[i] < s[k];
    }
    PlaceSpec(s, b);
    var r := Place(s, b);
    assert r < |s| ==> (s[r] < b <==> r < i);
    assert i < |s| ==> (s[i] < b <==> i < r);
  }

  lemma RejoinWhole(p: Pool, q: Pool, at: nat)
    requires Ok(p) && at < |p.free|
    requires q.free == p.free[..at] + p.free[at + 1..] && q.size == p.size && q.base == p.base
    ensures var r := Join(q.(used := p.used), p.free[at]); r.free == p.free && r.size == p.size && r.used == p.used
  {
    hide Apart, Chain, Bounds, Place;
    var a := p.free[at];
    assert at > 0 ==> q.free[at - 1] == p.free[at - 1];
    assert Sorted(q.free) by { DropOne(p.free, at); }
    PlaceIs(q.free, a, at);
    assert q.free[..at] + [a] + q.free[at..] == p.free;
    var p1 := q.(used := p.used, free := p.free);
    assert at + 1 < |p.free| ==> p.free[at] in p.free && p.free[at + 1] in p.free;
    assert at > 0 ==> p.free[at - 1] in p.free && p.free[at] in p.free;
    assert at + 1 < |p.free| ==> p.End(p.free[at]) != p.free[at + 1];
    assert at > 0 ==> p.End(p.free[at - 1]) != p.free[at];
    assert MergeIfAdjacent(p1, at) == p1 && MergeIfAdjacent(p1, at - 1) == p1;
  }

  lemma RejoinTail(p: Pool, q: Pool, at: nat, n: int)
    requires Ok(p) && at < |p.free| && 1 <= n < p.Size(p.free[at])
    requires var a := p.free[at];
      q.free == p.free && q.size == p.size[a := p.Size(a) - n][a + UNIT * (p.Size(a) - n) := n] && q.base == p.base
    ensures var a := p.free[at];
      var r := Join(q.(used := p.used), a + UNIT * (p.Size(a) - n)); r.free == p.free && r.size == p.size && r.used == p.used
  {
    hide Chain, Place;
    var a := p.free[at];
    var b := a + UNIT * (p.Size(a) - n);
    TailFacts(p, at, n);
    PlaceIs(p.free, b, at + 1);
    hide Apart, Lists_, Coalesced, Bounds, Ok, Sorted;
    var l := p.free[..at + 1] + [b] + p.free[at + 1..];
    var p1 := q.(used := p.used, free := l);
    TailJoins(p, p1, at, n, a, b);
  }

  /** Of the two joins only that with the block the tail was cut from finds a neighbour. */
  lemma TailJoins(p: Pool, p1: Pool, at: nat, n: int, a: int, b: int)
    requires at < |p.free| && a == p.free[at] && a in p.size && 1 <= n < p.size[a] && b == a + UNIT * (p.size[a] - n) && b !in p.size
    requires p1.free == p.free[..at + 1] + [b] + p.free[at + 1..] && p1.size == p.size[a := p.size[a] - n][b := n]
    requires at + 1 < |p.free| ==> p.End(a) != p.free[at + 1]
    ensures MergeIfAdjacent(p1, at + 1) == p1
    ensures MergeIfAdjacent(p1, at).free == p.free && MergeIfAdjacent(p1, at).size == p.size
    ensures MergeIfAdjacent(p1, at).used == p1.used
  {
    var l := p1.free;
    assert l[at] == a && l[at + 1] == b && (at + 2 < |l| ==> l[at + 2] == p.free[at + 1]);
    assert p1.End(a) == b && p1.End(b) == p.End(a);
    assert l[..at + 1] == p.free[..at + 1] && l[at + 2..] == p.free[at + 1..];
    assert Merge(p1, at).size == p.size;
  }

  lemma TailFacts(p: Pool, at: nat, n: int)
    requires Ok(p) && at < |p.free| && 1 <= n < p.Size(p.free[at])
    ensures var a := p.free[at];
      var b := a + UNIT * (p.Size(a) - n);
      && a in p.size && a < b && b !in p.size && Sorted(p.free)
      && (forall k :: 0 <= k <= at ==> p.free[k] < b)
      && (at + 1 < |p.free| ==> b < p.free[at + 1] && p.End(a) != p.free[at + 1])
  {
    hide Chain;
    var a := p.free[at];
    assert a in p.free;
    assert at + 1 < |p.free| ==> p.free[at + 1] in p.free && p.free[at + 1] in p.size && a < p.free[at + 1];
  }

  // ---------- runs ----------

  datatype Op = OpAlloc(nbytes: nat) | OpFree(ap: int)

  function Apply(p: Pool, op: Op): Pool
    requires Ok(p)
  {
    match op
    case OpAlloc(n) => AllocNullIff(p, n); Alloc(p, n).0
    case OpFree(ap) => Free(p, ap).0
  }

  function Run(p: Pool, ops: seq<Op>): (q: Pool)
    requires Ok(p)
    ensures Ok(q) && q.lo == p.lo && q.units == p.units
  {
    if ops == [] then p
    else
      var q := Run(p, ops[..|ops| - 1]);
      ApplyKeeps(q, ops[|ops| - 1]);
      Apply(q, ops[|ops| - 1])
  }

  lemma ApplyKeeps(p: Pool, op: Op)
    requires Ok(p)
    ensures Ok(Apply(p, op)) && Apply(p, op).lo == p.lo && Apply(p, op).units == p.units
  {
    hide Ok;
    match op
    case OpAlloc(n) => AllocKeeps(p, n);
    case OpFree(ap) => FreeKeeps(p, ap);
  }

  predicate Owns(p: Pool, a: int, x: int) {
    a in p.size && a <= x < p.End(a)
  }

  /** Exactly one block covers byte x. */
  ghost predicate OneOwner(p: Pool, x: int) {
    (exists a :: Owns(p, a, x)) && (forall a, b :: Owns(p, a, x) && Owns(p, b, x) ==> a == b)
  }

  lemma {:induction false} Owner(p: Pool, a: int, x: int) returns (b: int)
    requires Ok(p) && a in p.size && a <= x < p.Hi()
    ensures Owns(p, b, x)
    decreases p.Hi() - a
  {
    if x < p.End(a) { b := a; } else { b := Owner(p, p.End(a), x); }
  }

  /** After any calls from a fresh arena, every byte of it belongs to exactly one block, free
      or used but not both, and no two free blocks touch. */
  lemma ArenaTiled(lo: int, units: int, base: int, ops: seq<Op>, x: int)
    requires lo > 0 && base > 0 && units >= 1 && (base + UNIT <= lo || lo + UNIT * units < base)
    requires lo <= x < lo + UNIT * units
    ensures Ok(InitPool(lo, units, base))
    ensures var p := Run(InitPool(lo, units, base), ops);
      && OneOwner(p, x)
      && (forall a :: a in p.size ==> (a in p.free <==> a !in p.used))
      && (forall a :: a in p.free ==> p.End(a) !in p.free)
  {
    InitKeeps(lo, units, base);
    var p0 := InitPool(lo, units, base);
    assert p0.lo == lo && p0.units == units;
    OwnedOnce(Run(p0, ops), x);
  }

  lemma OwnedOnce(p: Pool, x: int)
    requires Ok(p) && p.lo <= x < p.Hi()
    ensures OneOwner(p, x)
    ensures forall a :: a in p.size ==> (a in p.free <==> a !in p.used)
    ensures forall a :: a in p.free ==> p.End(a) !in p.free
  {
    var a := Owner(p, p.lo, x);
    forall a, b | Owns(p, a, x) && Owns(p, b, x)
      ensures a == b
    {
      OwnerUnique(p, a, b, x);
    }
  }

  lemma OwnerUnique(p: Pool, a: int, b: int, x: int)
    requires Apart(p) && Owns(p, a, x) && Owns(p, b, x)
    ensures a == b
  {}
}
