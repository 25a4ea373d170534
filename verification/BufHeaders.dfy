/** The block headers of armci/src-gemini/bufalloc.c: how they thread the ring and the used
    list, and what editing a few of them does to either. */
module BufHeaders {
  import opened Lists
  import opened BufPool
  import opened BufProofs

  const VALID1 := 0xaaaaaaaa
  const VALID2 := 0x55555555

  datatype Header = Header(valid1: int, ptr: int, size: int, valid2: int)

  type Headers = map<int, Header>

  // ---------- what the headers say ----------

  function Around(s: seq<int>, i: nat): int
    requires i < |s|
  {
    if i + 1 < |s| then s[i + 1] else s[0]
  }

  /** Every node of s points to the next, the last to the first. */
  ghost predicate Ringed(hdr: Headers, s: seq<int>) {
    forall i {:trigger Around(s, i)} :: 0 <= i < |s| ==> s[i] in hdr && hdr[s[i]].ptr == Around(s, i)
  }

  predicate SamePtr(h: Headers, h': Headers, x: int) {
    x in h && x in h' && h'[x].ptr == h[x].ptr
  }

  function After(s: seq<int>, i: nat): int { if i + 1 < |s| then s[i + 1] else 0 }

  /** The used list from `head` threads s. */
  ghost predicate Linked(hdr: Headers, head: int, s: seq<int>) {
    && head == (if s == [] then 0 else s[0])
    && forall i {:trigger After(s, i)} :: 0 <= i < |s| ==> s[i] in hdr && s[i] != 0 && hdr[s[i]].ptr == After(s, i)
  }

  /** Blocks carry their lengths and intact tokens; the sentinel has length 0. */
  ghost predicate Sized(hdr: Headers, p: Pool) {
    && p.base in hdr && hdr[p.base].size == 0
    && forall a :: a in p.size ==> a in hdr && hdr[a].size == p.size[a] && hdr[a].valid1 == VALID1 && hdr[a].valid2 == VALID2
  }

  ghost predicate Holds(hdr: Headers, usedp: int, p: Pool) {
    Ringed(hdr, p.Ring()) && Linked(hdr, usedp, p.used) && Sized(hdr, p)
  }

  // ---------- reading ----------

  lemma RingNode(hdr: Headers, p: Pool, i: nat)
    requires Ringed(hdr, p.Ring()) && i < |p.Ring()|
    ensures p.Ring()[i] in hdr && hdr[p.Ring()[i]].ptr == Succ(p, i)
  {
    assert Around(p.Ring(), i) == Succ(p, i);
  }

  lemma NodeSize(hdr: Headers, p: Pool, i: nat)
    requires Bounds(p) && (forall a :: a in p.free ==> a in p.size) && Sized(hdr, p) && i < |p.Ring()|
    ensures p.Ring()[i] in hdr && hdr[p.Ring()[i]].size == p.Size(p.Ring()[i])
  {
    BaseIsNoBlock(p);
    assert i > 0 ==> p.Ring()[i] == p.free[i - 1] && p.free[i - 1] in p.free;
  }

  lemma RingAt(h: Headers, s: seq<int>, i: nat)
    requires Ringed(h, s) && i < |s|
    ensures s[i] in h && h[s[i]].ptr == Around(s, i)
    ensures forall x :: x in s ==> x in h
  {
    forall x | x in s
      ensures x in h
    {
      var k :| 0 <= k < |s| && s[k] == x;
      var r := Around(s, k);
      assert h[s[k]].ptr == r;
    }
  }

  lemma LinkedIn(h: Headers, head: int, s: seq<int>)
    requires Linked(h, head, s)
    ensures forall x :: x in s ==> x in h
  {
    forall x | x in s
      ensures x in h
    {
      var k :| 0 <= k < |s| && s[k] == x;
      var r := After(s, k);
      assert h[s[k]].ptr == r;
    }
  }

  lemma RingNoDup(p: Pool)
    requires Bounds(p) && Sorted(p.free) && forall a :: a in p.free ==> a in p.size
    ensures NoDup(p.Ring())
    ensures forall x :: x in p.Ring() <==> x == p.base || x in p.free
  {
    forall i, j | 0 <= i < j < |p.Ring()|
      ensures p.Ring()[i] != p.Ring()[j]
    {
      assert i > 0 ==> p.Ring()[i] == p.free[i - 1] && p.free[i - 1] in p.free;
      assert p.Ring()[j] == p.free[j - 1] && p.free[j - 1] in p.free;
    }
  }

  // ---------- editing ----------

  lemma RingInsert(h: Headers, h': Headers, s: seq<int>, i: nat, b: int)
    requires Ringed(h, s) && NoDup(s) && i < |s| && b !in s
    requires forall x :: x in s && x != s[i] ==> SamePtr(h, h', x)
    requires s[i] in h' && h'[s[i]].ptr == b && b in h' && h'[b].ptr == Around(s, i)
    ensures Ringed(h', s[..i + 1] + [b] + s[i + 1..])
  {
    var t := s[..i + 1] + [b] + s[i + 1..];
    forall k | 0 <= k < |t|
      ensures t[k] in h' && h'[t[k]].ptr == Around(t, k)
    {
      if k != i + 1 {
        var j := if k <= i then k else k - 1;
        var r := Around(s, j);
        assert t[k] == s[j] && s[j] in s && h[s[j]].ptr == r;
      }
    }
  }

  lemma RingDrop(h: Headers, h': Headers, s: seq<int>, i: nat)
    requires Ringed(h, s) && NoDup(s) && 0 < i < |s|
    requires forall x :: x in s && x != s[i] && x != s[i - 1] ==> SamePtr(h, h', x)
    requires s[i - 1] in h' && h'[s[i - 1]].ptr == Around(s, i)
    ensures Ringed(h', s[..i] + s[i + 1..])
  {
    var t := s[..i] + s[i + 1..];
    forall k | 0 <= k < |t|
      ensures t[k] in h' && h'[t[k]].ptr == Around(t, k)
    {
      var j := if k < i then k else k + 1;
      var r := Around(s, j);
      assert t[k] == s[j] && s[j] in s && h[s[j]].ptr == r;
    }
  }

  lemma RingFrame(h: Headers, h': Headers, s: seq<int>)
    requires Ringed(h, s) && forall x :: x in s ==> SamePtr(h, h', x)
    ensures Ringed(h', s)
  {
    forall k | 0 <= k < |s|
      ensures s[k] in h' && h'[s[k]].ptr == Around(s, k)
    {
      var r := Around(s, k);
      assert h[s[k]].ptr == r && SamePtr(h, h', s[k]);
    }
  }

  lemma LinkedFrame(h: Headers, h': Headers, head: int, s: seq<int>)
    requires Linked(h, head, s) && forall x :: x in s ==> SamePtr(h, h', x)
    ensures Linked(h', head, s)
  {
    forall k | 0 <= k < |s|
      ensures s[k] in h' && s[k] != 0 && h'[s[k]].ptr == After(s, k)
    {
      var r := After(s, k);
      assert s[k] in s && h[s[k]].ptr == r;
    }
  }

  lemma LinkedPush(h: Headers, h': Headers, head: int, s: seq<int>, b: int)
    requires Linked(h, head, s) && forall x :: x in s ==> SamePtr(h, h', x)
    requires b in h' && b != 0 && h'[b].ptr == head
    ensures Linked(h', b, [b] + s)
  {
    var t := [b] + s;
    forall k | 0 <= k < |t|
      ensures t[k] in h' && t[k] != 0 && h'[t[k]].ptr == After(t, k)
    {
      if k > 0 {
        var r := After(s, k - 1);
        assert t[k] == s[k - 1] && s[k - 1] in s && h[s[k - 1]].ptr == r;
      }
    }
  }

  /** Taking node i out of the used list by its predecessor, or by the head. */
  lemma LinkedDrop(h: Headers, h': Headers, head: int, head': int, s: seq<int>, i: nat)
    requires Linked(h, head, s) && NoDup(s) && i < |s|
    requires forall x :: x in s && (i == 0 || x != s[i - 1]) ==> SamePtr(h, h', x)
    requires if i == 0 then head' == After(s, 0) else head' == head && s[i - 1] in h' && h'[s[i - 1]].ptr == After(s, i)
    ensures Linked(h', head', s[..i] + s[i + 1..])
  {
    var t := s[..i] + s[i + 1..];
    forall k | 0 <= k < |t|
      ensures t[k] in h' && t[k] != 0 && h'[t[k]].ptr == After(t, k)
    {
      var j := if k < i then k else k + 1;
      var r := After(s, j);
      assert t[k] == s[j] && s[j] in s && h[s[j]].ptr == r;
    }
  }

  // ---------- the pool's own steps ----------

  /** Free block i swallowing the next: its header takes over length and pointer. */
  lemma MergeHolds(h: Headers, p: Pool, usedp: int, i: nat)
    requires Holds(h, usedp, p) && Loose(p) && i + 1 < |p.free|
    requires p.free[i] in h && p.free[i + 1] in h
    ensures var a, b := p.free[i], p.free[i + 1];
      Holds(h[a := h[a].(size := h[a].size + h[b].size, ptr := h[b].ptr)], usedp, Merge(p, i))
  {
    hide Apart, Chain, Ringed, Linked, NoDup;
    var a, b := p.free[i], p.free[i + 1];
    var h' := h[a := h[a].(size := h[a].size + h[b].size, ptr := h[b].ptr)];
    assert a in p.free && b in p.free;
    var s, q := p.Ring(), Merge(p, i);
    RingNoDup(p);
    assert s[i + 1] == a && s[i + 2] == b;
    RingAt(h, s, i + 2);
    LinkedIn(h, usedp, p.used);
    RingDrop(h, h', s, i + 2);
    assert q.Ring() == s[..i + 2] + s[i + 3..];
    LinkedFrame(h, h', usedp, p.used);
  }

  lemma MergeIfHolds(h: Headers, p: Pool, usedp: int, i: int)
    requires Holds(h, usedp, p) && Loose(p)
    ensures 0 <= i && i + 1 < |p.free| ==> p.free[i] in h && p.free[i + 1] in h
    ensures 0 <= i && i + 1 < |p.free| && p.End(p.free[i]) == p.free[i + 1] ==>
      var a, b := p.free[i], p.free[i + 1];
      Holds(h[a := h[a].(size := h[a].size + h[b].size, ptr := h[b].ptr)], usedp, MergeIfAdjacent(p, i))
  {
    if 0 <= i && i + 1 < |p.free| {
      assert p.free[i] in p.free && p.free[i + 1] in p.free;
      hide Loose, Merge, Holds;
      if p.End(p.free[i]) == p.free[i + 1] { MergeHolds(h, p, usedp, i); }
    }
  }

  /** Headers that differ in pointers alone. */
  predicate PtrsOnly(h: Headers, h': Headers) {
    forall x :: x in h ==> x in h' && h'[x] == h[x].(ptr := h'[x].ptr)
  }

  lemma SizedFrame(h: Headers, h': Headers, p: Pool, q: Pool)
    requires Sized(h, p) && PtrsOnly(h, h') && q.base == p.base && q.size == p.size
    ensures Sized(h', q)
  {}

  /** Threading block b into the ring after position i. */
  lemma InsertHolds(h: Headers, p: Pool, usedp: int, i: nat, b: int)
    requires Holds(h, usedp, p) && Limbo(p, b) && i < |p.Ring()|
    ensures p.Ring()[i] in h && b in h && b != p.Ring()[i]
    ensures var a := p.Ring()[i];
      Holds(h[b := h[b].(ptr := h[a].ptr)][a := h[a].(ptr := b)], usedp, p.(free := p.free[..i] + [b] + p.free[i..]))
  {
    var s := p.Ring();
    var q := p.(free := p.free[..i] + [b] + p.free[i..]);
    LimboNodes(p, b);
    assert b in h;
    hide Ringed, Linked, NoDup, Limbo, Sized;
    RingAt(h, s, i);
    LinkedIn(h, usedp, p.used);
    assert s[i] in s;
    var h' := h[b := h[b].(ptr := h[s[i]].ptr)][s[i] := h[s[i]].(ptr := b)];
    RingInsert(h, h', s, i, b);
    RingOfInsert(p, i, b);
    LinkedFrame(h, h', usedp, p.used);
    SizedFrame(h, h', p, q);
  }

  lemma RingOfInsert(p: Pool, i: nat, b: int)
    requires i < |p.Ring()|
    ensures p.(free := p.free[..i] + [b] + p.free[i..]).Ring() == p.Ring()[..i + 1] + [b] + p.Ring()[i + 1..]
  {}

  lemma LimboNodes(p: Pool, b: int)
    requires Limbo(p, b)
    ensures b in p.size && b !in p.Ring() && b !in p.used && NoDup(p.Ring())
    ensures forall x :: x in p.Ring() ==> x !in p.used
  {
    hide Apart, Chain, Coalesced;
    RingNoDup(p);
  }

  /** Taking the whole of free block i. */
  lemma TakeWholeHolds(h: Headers, p: Pool, usedp: int, i: nat)
    requires Holds(h, usedp, p) && Ok(p) && i < |p.free|
    ensures p.Ring()[i] in h && p.free[i] in h
    ensures var prev, a := p.Ring()[i], p.free[i];
      var q := p.(free := p.free[..i] + p.free[i + 1..], used := [a] + p.used);
      Holds(h[prev := h[prev].(ptr := h[a].ptr)][a := h[a].(ptr := usedp)], a, q)
  {
    hide Ringed, Linked, NoDup, Ok, Sized;
    var s := p.Ring();
    var prev, a := s[i], s[i + 1];
    TakenNodes(p, i);
    RingAt(h, s, i + 1);
    RingAt(h, s, i);
    LinkedIn(h, usedp, p.used);
    var h' := h[prev := h[prev].(ptr := h[a].ptr)][a := h[a].(ptr := usedp)];
    RingDrop(h, h', s, i + 1);
    assert [p.base] + (p.free[..i] + p.free[i + 1..]) == s[..i + 1] + s[i + 2..];
    LinkedPush(h, h', usedp, p.used, a);
    SizedFrame(h, h', p, p.(free := p.free[..i] + p.free[i + 1..], used := [a] + p.used));
  }

  lemma TakenNodes(p: Pool, i: nat)
    requires Ok(p) && i < |p.free|
    ensures var prev, a := p.Ring()[i], p.Ring()[i + 1];
      && a == p.free[i] && a > 0 && a != prev && a !in p.used && prev !in p.used
    ensures NoDup(p.Ring())
  {
    hide Apart, Chain, Coalesced;
    assert p.free[i] in p.free;
    assert i > 0 ==> p.Ring()[i] == p.free[i - 1] && p.free[i - 1] in p.free;
    RingNoDup(p);
  }

  /** Taking n units off the end of free block i, under a header of its own. */
  lemma TakeTailHolds(h: Headers, p: Pool, usedp: int, i: nat, n: int)
    requires Holds(h, usedp, p) && Ok(p) && i < |p.free| && 1 <= n < p.Size(p.free[i])
    ensures p.free[i] in h && h[p.free[i]].size == p.Size(p.free[i])
    ensures var a, b := p.free[i], p.free[i] + UNIT * (p.Size(p.free[i]) - n);
      var q := p.(used := [b] + p.used, size := p.size[a := p.Size(a) - n][b := n]);
      Holds(h[a := h[a].(size := h[a].size - n)][b := Header(VALID1, usedp, n, VALID2)], b, q)
  {
    TailFacts(p, i, n);
    hide Apart, Chain, Coalesced;
    var a, b := p.free[i], p.free[i] + UNIT * (p.Size(p.free[i]) - n);
    assert a in p.free;
    assert b != p.base;
    RingNoDup(p);
    RingAt(h, p.Ring(), 0);
    LinkedIn(h, usedp, p.used);
    hide Ringed, Linked, NoDup;
    var h' := h[a := h[a].(size := h[a].size - n)][b := Header(VALID1, usedp, n, VALID2)];
    RingFrame(h, h', p.Ring());
    LinkedPush(h, h', usedp, p.used, b);
  }

  /** Node i leaving the used list. */
  lemma ExtractHolds(h: Headers, p: Pool, usedp: int, i: nat)
    requires Holds(h, usedp, p) && Ok(p) && i < |p.used|
    ensures p.used[i] in h && (i > 0 ==> p.used[i - 1] in h)
    ensures var n := h[p.used[i]].ptr;
      var q := p.(used := Remove(p.used, p.used[i]));
      Holds(if i == 0 then h else h[p.used[i - 1] := h[p.used[i - 1]].(ptr := n)], if i == 0 then n else usedp, q)
  {
    var s := p.used;
    LimboNodesUsed(p);
    LinkedIn(h, usedp, s);
    RingAt(h, p.Ring(), 0);
    assert s[i] in s && (i > 0 ==> s[i - 1] in s);
    var n := h[s[i]].ptr;
    assert n == After(s, i);
    RemoveAt(s, i, s[i]);
    hide Ringed, Linked, Ok, Sized, Remove;
    var h' := if i == 0 then h else h[s[i - 1] := h[s[i - 1]].(ptr := n)];
    var head := if i == 0 then n else usedp;
    LinkedDrop(h, h', usedp, head, s, i);
    RingFrame(h, h', p.Ring());
    SizedFrame(h, h', p, p.(used := Remove(s, s[i])));
  }

  lemma LimboNodesUsed(p: Pool)
    requires Ok(p)
    ensures NoDup(p.used) && forall x :: x in p.Ring() ==> x !in p.used
  {
    hide Apart, Chain, Coalesced;
    RingNoDup(p);
  }

  // ---------- rejoining ----------

  /** What the two tests of adjacency in armci_buf_free see: h is threaded through the block
      at its place, and the sentinel never touches the arena. */
  lemma UpperTest(h: Headers, usedp: int, p: Pool, b: int, i: nat)
    requires Limbo(p, b) && i == Place(p.free, b) && Holds(h, usedp, p)
    ensures b in h
    ensures var q := Placed(p, b);
      && i < |q.free| == |p.free| + 1 && q.free[i] == b && i < |p.Ring()|
      && (b + UNIT * h[b].size == Succ(p, i) <==> i + 1 < |q.free| && q.End(b) == q.free[i + 1])
      && (i + 1 < |q.free| ==> q.free[i + 1] == Succ(p, i))
  {
    hide Apart, Chain, Coalesced, Place, Ringed, Linked;
    var q := Placed(p, b);
    assert q.free[i] == b && (i < |p.free| ==> q.free[i + 1] == p.free[i] && Succ(p, i) == p.free[i]);
  }

  /** p is the node before the freed block and p2 the pool after the upper join. */
  lemma LowerTest(h: Headers, usedp: int, p: Pool, p2: Pool, b: int, i: nat)
    requires Limbo(p, b) && i == Place(p.free, b) && Holds(h, usedp, p2) && p2.base == p.base
    requires p2 == MergeIfAdjacent(Placed(p, b), i)
    ensures p.Ring()[i] in h
    ensures i < |p2.free| && p2.free[i] == b && (i > 0 ==> p.Ring()[i] == p2.free[i - 1])
    ensures var a := p.Ring()[i];
      a + UNIT * h[a].size == b <==> i > 0 && p2.End(a) == b
  {
    hide Apart, Chain, Coalesced, Place, Ringed, Linked;
    var q := Placed(p, b);
    assert i > 0 ==> p.Ring()[i] == p.free[i - 1] && p.free[i - 1] in p.free && q.free[i - 1] == p.free[i - 1];
    assert q.free[i] == b;
  }

  /** The upper join, as far as it goes before the block is threaded in. */
  function UpperHeaders(h: Headers, a: int, b: int): Headers
    requires a in h && b in h
  {
    var u := h[a].ptr;
    if b + UNIT * h[b].size == u && u in h then h[b := h[b].(size := h[b].size + h[u].size, ptr := h[u].ptr)]
    else h[b := h[b].(ptr := u)]
  }

  lemma UpperHolds(h: Headers, p: Pool, usedp: int, b: int, i: nat, a: int)
    requires Limbo(p, b) && i == Place(p.free, b) && Holds(h, usedp, p) && a == p.Ring()[i]
    ensures a in h && b in h && a != b && h[a].ptr in h
    ensures Holds(UpperHeaders(h, a, b)[a := h[a].(ptr := b)], usedp, MergeIfAdjacent(Placed(p, b), i))
  {
    hide Limbo, Loose, Holds, Place, Merge, Placed;
    PlacedLoose(p, b);
    ThreadHolds(h, p, usedp, b, i, a);
    UpperTest(h, usedp, p, b, i);
    UpperIsNotLower(p, b, i);
    var threaded := h[b := h[b].(ptr := h[a].ptr)][a := h[a].(ptr := b)];
    MergeIfHolds(threaded, Placed(p, b), usedp, i);
    var u := h[a].ptr;
    if b + UNIT * h[b].size == u { UpperSame(h, a, b, u); }
  }

  lemma PlacedLoose(p: Pool, b: int)
    requires Limbo(p, b)
    ensures Loose(Placed(p, b))
  {
    InsertLoose(p, b);
  }

  lemma PlacedBase(p: Pool, b: int)
    ensures Placed(p, b).base == p.base
  {}

  lemma ThreadHolds(h: Headers, p: Pool, usedp: int, b: int, i: nat, a: int)
    requires Limbo(p, b) && i == Place(p.free, b) && Holds(h, usedp, p) && a == p.Ring()[i]
    ensures a in h && b in h && a != b && h[a].ptr == Succ(p, i) && h[a].ptr in h
    ensures Holds(h[b := h[b].(ptr := h[a].ptr)][a := h[a].(ptr := b)], usedp, Placed(p, b))
  {
    hide Limbo, Ringed, Linked, Sized, Place;
    RingNode(h, p, i);
    RingNode(h, p, if i + 1 < |p.Ring()| then i + 1 else 0);
    InsertHolds(h, p, usedp, i, b);
  }

  lemma UpperSame(h: Headers, a: int, b: int, u: int)
    requires a in h && b in h && u in h && u == h[a].ptr && b + UNIT * h[b].size == u && u != a && u != b && a != b
    ensures var threaded := h[b := h[b].(ptr := u)][a := h[a].(ptr := b)];
      UpperHeaders(h, a, b)[a := h[a].(ptr := b)]
        == threaded[b := threaded[b].(size := threaded[b].size + threaded[u].size, ptr := threaded[u].ptr)]
  {}

  lemma UpperIsNotLower(p: Pool, b: int, i: nat)
    requires Limbo(p, b) && i == Place(p.free, b)
    ensures i < |p.free| ==> Succ(p, i) != p.Ring()[i] && Succ(p, i) != b
  {
    hide Apart, Chain, Coalesced;
    RingNoDup(p);
    assert i < |p.free| ==> p.Ring()[i + 1] == p.free[i] && p.free[i] in p.free;
  }

  /** The lower join, of a block that h[a.ptr := b] has threaded in. */
  lemma LowerHolds(h: Headers, p: Pool, usedp: int, b: int, i: nat, a: int)
    requires Limbo(p, b) && i == Place(p.free, b) && a == p.Ring()[i] && a in h && b in h && b != a
    requires Holds(h[a := h[a].(ptr := b)], usedp, MergeIfAdjacent(Placed(p, b), i))
    ensures Holds(if a + UNIT * h[a].size == b then h[a := h[a].(size := h[a].size + h[b].size, ptr := h[b].ptr)] else h[a := h[a].(ptr := b)],
      usedp, MergeIfAdjacent(MergeIfAdjacent(Placed(p, b), i), i - 1))
  {
    hide Limbo, Loose, Holds, Place, Placed, Merge, MergeIfAdjacent;
    PlacedLoose(p, b);
    var q := Placed(p, b);
    MergeIfLoose(q, i);
    var p2 := MergeIfAdjacent(q, i);
    var upper := h[a := h[a].(ptr := b)];
    PlacedBase(p, b);
    LowerTest(upper, usedp, p, p2, b, i);
    MergeIfHolds(upper, p2, usedp, i - 1);
    if a + UNIT * h[a].size == b {
      assert upper[a := upper[a].(size := upper[a].size + upper[b].size, ptr := upper[b].ptr)]
          == h[a := h[a].(size := h[a].size + h[b].size, ptr := h[b].ptr)];
    } else {
      MergeIfNot(p2, i - 1);
    }
  }

  lemma MergeIfNot(p: Pool, i: int)
    requires !(0 <= i && i + 1 < |p.free| && p.End(p.free[i]) == p.free[i + 1])
    ensures MergeIfAdjacent(p, i) == p
  {}

  lemma HoldsFreep(h: Headers, usedp: int, p: Pool, f: int)
    requires Holds(h, usedp, p)
    ensures Holds(h, usedp, p.(freep := f))
  {
    assert p.(freep := f).Ring() == p.Ring();
  }
}
