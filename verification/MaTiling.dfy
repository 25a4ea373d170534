/** Every MA operation keeps the segment exactly tiled and the free list sorted and
    coalesced. */
module MaTiling {
  import opened Arith
  import opened MaLayout
  import opened Lists
  import opened MaState
  import T = MaTable

  // ---------- allocation ----------

  lemma {:induction false} FindFitSpec(cfg: Config, s: State, t: int, n: int, i: nat)
    requires cfg.Valid() && ValidIndex(t) && i <= |s.free|
    ensures var k := FindFit(cfg, s, t, n, i);
      && (forall j :: i <= j < k ==> BallocAfter(cfg, s.numalign, t, n, s.free[j]).nbytes > s.Size(s.free[j]))
      && (k < |s.free| ==> BallocAfter(cfg, s.numalign, t, n, s.free[k]).nbytes <= s.Size(s.free[k]))
    decreases |s.free| - i
  {
    if i < |s.free| && BallocAfter(cfg, s.numalign, t, n, s.free[i]).nbytes > s.Size(s.free[i]) {
      FindFitSpec(cfg, s, t, n, i + 1);
    }
  }

  /** s' differs from s in heap blocks only; the stack part of the invariant carries over. */
  ghost predicate SameStack(s: State, s': State) {
    && s'.stack == s.stack && s'.sp == s.sp && s'.eos == s.eos
    && (forall a :: a >= s.sp ==> (a in s'.size <==> a in s.size) && (a in s'.desc <==> a in s.desc))
    && (forall a :: a >= s.sp && a in s.size ==> s'.size[a] == s.size[a])
    && (forall a :: a in s'.size && a >= s'.hp ==> a >= s.sp)
  }

  lemma StackKept(o: int, s: State, s': State)
    requires Blocks(o, s) && StackChain(s) && SameStack(s, s')
    ensures StackChain(s')
  {
    forall i | 0 <= i < |s.stack|
      ensures s'.stack[i] in s'.desc && s'.End(s'.stack[i]) == Start(s'.stack, i + 1, s'.eos)
    {
      assert s.stack[i] in s.desc && s.stack[i] in s.size;
      assert s.End(s.stack[i]) == Start(s.stack, i + 1, s.eos);
    }
  }

  lemma StackAboveHeap(s: State, a: int)
    requires StackChain(s) && a in s.size && a >= s.hp
    ensures a >= s.sp && a in s.desc
  {
    var k :| 0 <= k < |s.stack| && s.stack[k] == a;
  }

  lemma SizedAboveHeap(s: State)
    requires StackChain(s)
    ensures forall x :: x in s.size && x >= s.hp ==> x >= s.sp && x in s.desc
  {
    forall x | x in s.size && x >= s.hp
      ensures x >= s.sp && x in s.desc
    {
      StackAboveHeap(s, x);
    }
  }

  /** Block a leaves the free list and is put in use with `need` bytes, the rest of it
      becoming free block a + need. */
  ghost predicate SplitStep(s: State, s': State, a: int, need: int, d: Desc) {
    && s'.segment == s.segment && s'.hp == s.hp && SameStack(s, s')
    && s'.size == s.size[a := need][a + need := s.Size(a) - need] && s'.desc == s.desc[a := d]
  }

  lemma SplitBlocks(o: int, s: State, s': State, a: int, need: int, d: Desc)
    requires Blocks(o, s) && s.FreeAt(a) && s.HeapAt(a) && o <= need && o <= s.Size(a) - need
    requires SplitStep(s, s', a, need, d)
    ensures Blocks(o, s')
  {
    SplitApart(s, s', a, need);
    hide Apart;
  }

  lemma SplitApart(s: State, s': State, a: int, need: int)
    requires Apart(s) && a in s.size && 0 < need < s.size[a]
    requires s'.size == s.size[a := need][a + need := s.size[a] - need]
    ensures Apart(s')
  {
    forall x, y | x in s'.size && y in s'.size && x < y
      ensures x + s'.size[x] <= y
    {
      var x', y' := if x == a + need then a else x, if y == a + need then a else y;
      assert x' in s.size && y' in s.size;
    }
  }

  lemma SplitHeap(o: int, s: State, s': State, a: int, need: int, d: Desc)
    requires Blocks(o, s) && HeapChain(s) && Coalesced(s)
    requires s.FreeAt(a) && s.HeapAt(a) && 0 < need < s.Size(a)
    requires SplitStep(s, s', a, need, d)
    ensures HeapChain(s') && Coalesced(s')
  {
    var b := a + need;
    assert s'.End(b) == s.End(a);
    forall x | s'.HeapAt(x) || s'.FreeAt(x)
      ensures s'.HeapAt(x) && s'.End(x) != s'.hp ==> s'.HeapAt(s'.End(x))
      ensures s'.HeapAt(x) && s'.End(x) == s'.hp ==> s'.UsedAt(x)
      ensures s'.FreeAt(x) ==> !s'.FreeAt(s'.End(x))
    {
      if x != a && x != b { assert s'.End(x) == s.End(x); }
    }
  }

  /** Block a leaves the free list whole. */
  ghost predicate TakeStep(s: State, s': State, a: int, d: Desc) {
    && s'.segment == s.segment && s'.hp == s.hp && SameStack(s, s')
    && s'.size == s.size && s'.desc == s.desc[a := d]
  }

  lemma TakeHeap(s: State, s': State, a: int, d: Desc)
    requires HeapChain(s) && Coalesced(s) && s.FreeAt(a)
    requires TakeStep(s, s', a, d)
    ensures HeapChain(s') && Coalesced(s')
  {
    forall x | s'.HeapAt(x) || s'.FreeAt(x)
      ensures s'.HeapAt(x) && s'.End(x) != s'.hp ==> s'.HeapAt(s'.End(x))
      ensures s'.HeapAt(x) && s'.End(x) == s'.hp ==> s'.UsedAt(x)
      ensures s'.FreeAt(x) ==> !s'.FreeAt(s'.End(x))
    {
      assert s'.End(x) == s.End(x);
    }
  }

  /** A block in use is added at ma_hp. */
  ghost predicate ExtendStep(s: State, s': State, nbytes: int, d: Desc) {
    && s'.segment == s.segment && s'.hp == s.hp + nbytes && SameStack(s, s')
    && s'.size == s.size[s.hp := nbytes] && s'.desc == s.desc[s.hp := d]
  }

  lemma ExtendHeap(o: int, s: State, s': State, nbytes: int, d: Desc)
    requires Blocks(o, s) && HeapChain(s) && Coalesced(s) && s.hp !in s.size && nbytes > 0
    requires forall a :: a in s.size && a >= s.hp ==> a >= s.sp && a in s.desc
    requires s'.hp <= s.sp
    requires ExtendStep(s, s', nbytes, d)
    ensures HeapChain(s') && Coalesced(s')
  {
    forall x | s'.HeapAt(x) || s'.FreeAt(x)
      ensures s'.HeapAt(x) && s'.End(x) != s'.hp ==> s'.HeapAt(s'.End(x))
      ensures s'.HeapAt(x) && s'.End(x) == s'.hp ==> s'.UsedAt(x)
      ensures s'.FreeAt(x) ==> !s'.FreeAt(s'.End(x))
    {
      if x != s.hp { assert s'.End(x) == s.End(x); }
    }
  }

  lemma ExtendBlocks(o: int, s: State, s': State, nbytes: int, d: Desc)
    requires Blocks(o, s) && s.segment > 0 && nbytes >= o && s'.hp <= s.sp
    requires forall a :: a in s.size && a >= s.hp ==> a >= s.sp && a in s.desc
    requires ExtendStep(s, s', nbytes, d)
    ensures Blocks(o, s')
  {}

  lemma UsedEntered(s: State, s': State, a: int)
    requires UsedList(s) && s'.used == [a] + s.used && !s.UsedAt(a)
    requires forall x :: s'.UsedAt(x) <==> s.UsedAt(x) || x == a
    ensures UsedList(s')
  {
    NoDupCons(a, s.used);
  }

  lemma ReplaceSorted(s: seq<int>, i: nat, v: int)
    requires Sorted(s) && i < |s| && s[i] < v && (i + 1 < |s| ==> v < s[i + 1])
    ensures Sorted(s[i := v]) && forall x :: x in s[i := v] <==> x == v || (x in s && x != s[i])
  {
    var t := s[i := v];
    assert t[i] == v;
    forall x | x in s && x != s[i]
      ensures x in t
    {
      var k :| 0 <= k < |s| && s[k] == x;
      assert t[k] == x;
    }
  }

  lemma DropSorted(s: seq<int>, i: nat)
    requires Sorted(s) && i < |s|
    ensures var t := s[..i] + s[i + 1..]; Sorted(t) && forall x :: x in t <==> x in s && x != s[i]
  {
    var t := s[..i] + s[i + 1..];
    forall x | x in s && x != s[i]
      ensures x in t
    {
      var k :| 0 <= k < |s| && s[k] == x;
      assert t[if k < i then k else k - 1] == x;
    }
  }

  lemma SplitFree(o: int, s: State, s': State, i: nat, need: int, d: Desc)
    requires Blocks(o, s) && FreeList(s) && i < |s.free| && 0 < need < s.Size(s.free[i])
    requires SplitStep(s, s', s.free[i], need, d) && s'.free == s.free[i := s.free[i] + need]
    ensures FreeList(s')
  {
    var a := s.free[i];
    var b := a + need;
    assert a in s.free;
    assert b !in s.size && b !in s.desc;
    if i + 1 < |s.free| { assert s.free[i + 1] in s.free; }
    ReplaceSorted(s.free, i, b);
    forall x
      ensures x in s'.free <==> s'.FreeAt(x)
    {
      assert x in s.free <==> s.FreeAt(x);
    }
  }

  lemma TakeFree(s: State, s': State, i: nat, d: Desc)
    requires FreeList(s) && i < |s.free|
    requires TakeStep(s, s', s.free[i], d) && s'.free == s.free[..i] + s.free[i + 1..]
    ensures FreeList(s')
  {
    DropSorted(s.free, i);
  }

  lemma CarveKeepsTiling(o: int, m: int, s: State, i: nat, need: int, d: Desc)
    requires Tiled(o, s) && i < |s.free| && o <= need <= s.Size(s.free[i]) && m >= o > 0
    ensures Tiled(o, Enter(Carve(m, s, i, need), s.free[i], d))
  {
    hide StackChain, HeapChain, UsedList, Blocks, Coalesced;
    var a := s.free[i];
    assert a in s.free;
    FreeIsHeap(s, a);
    SizedAboveHeap(s);
    if s.Size(a) - need >= m {
      CarveSplit(o, s, i, need, d);
    } else {
      CarveWhole(o, s, i, d);
    }
  }

  lemma CarveWhole(o: int, s: State, i: nat, d: Desc)
    requires Tiled(o, s) && i < |s.free| && s.FreeAt(s.free[i]) && s.HeapAt(s.free[i])
    requires forall x :: x in s.size && x >= s.hp ==> x >= s.sp && x in s.desc
    ensures Tiled(o, Enter(s.(free := s.free[..i] + s.free[i + 1..]), s.free[i], d))
  {
    hide StackChain, HeapChain, UsedList, FreeList, Coalesced;
    var a := s.free[i];
    var s' := Enter(s.(free := s.free[..i] + s.free[i + 1..]), a, d);
    StackKept(o, s, s');
    UsedEntered(s, s', a);
    TakeHeap(s, s', a, d);
    TakeFree(s, s', i, d);
  }

  lemma SplitSameStack(o: int, s: State, s': State, a: int, need: int)
    requires Blocks(o, s) && s.HeapAt(a) && 0 < need < s.Size(a)
    requires s'.stack == s.stack && s'.sp == s.sp && s'.eos == s.eos && s'.hp == s.hp
    requires s'.size == s.size[a := need][a + need := s.Size(a) - need]
    requires s'.desc - {a} == s.desc - {a}
    requires forall x :: x in s.size && x >= s.hp ==> x >= s.sp && x in s.desc
    ensures SameStack(s, s')
  {
    assert forall x :: x >= s.sp ==> (x in s'.desc <==> x in s'.desc - {a}) && (x in s.desc <==> x in s.desc - {a});
  }

  lemma CarveSplit(o: int, s: State, i: nat, need: int, d: Desc)
    requires Tiled(o, s) && i < |s.free| && o <= need && o <= s.Size(s.free[i]) - need
    requires s.FreeAt(s.free[i]) && s.HeapAt(s.free[i]) && o > 0
    requires forall x :: x in s.size && x >= s.hp ==> x >= s.sp && x in s.desc
    ensures Tiled(o, Enter(Carve(o, s, i, need), s.free[i], d))
  {
    hide StackChain, HeapChain, UsedList, FreeList, Blocks, Coalesced;
    var a := s.free[i];
    var s' := Enter(Carve(o, s, i, need), a, d);
    SplitSameStack(o, s, s', a, need);
    StackKept(o, s, s');
    UsedEntered(s, s', a);
    SplitBlocks(o, s, s', a, need, d);
    SplitHeap(o, s, s', a, need, d);
    SplitFree(o, s, s', i, need, d);
  }

  lemma ExtendSameStack(o: int, s: State, s': State, nbytes: int, d: Desc)
    requires Blocks(o, s) && nbytes > 0 && s'.hp == s.hp + nbytes <= s.sp
    requires forall x :: x in s.size && x >= s.hp ==> x >= s.sp && x in s.desc
    requires s'.stack == s.stack && s'.sp == s.sp && s'.eos == s.eos
    requires s'.size == s.size[s.hp := nbytes] && s'.desc == s.desc[s.hp := d]
    ensures SameStack(s, s') && s.hp !in s.size && s.hp !in s.desc
    ensures forall x :: s'.UsedAt(x) <==> s.UsedAt(x) || x == s.hp
    ensures forall x :: s'.FreeAt(x) <==> s.FreeAt(x)
  {}

  lemma ExtendKeepsTiling(o: int, s: State, nbytes: int, d: Desc)
    requires Tiled(o, s) && s.segment > 0 && nbytes >= o > 0 && s.hp + nbytes <= s.sp
    ensures Tiled(o, Enter(Extend(s, nbytes), s.hp, d))
  {
    hide StackChain, HeapChain, UsedList, Coalesced, Blocks;
    var s' := Enter(Extend(s, nbytes), s.hp, d);
    SizedAboveHeap(s);
    ExtendSameStack(o, s, s', nbytes, d);
    ExtendBlocks(o, s, s', nbytes, d);
    StackKept(o, s, s');
    UsedEntered(s, s', s.hp);
    ExtendHeap(o, s, s', nbytes, d);
  }

  lemma FreeIsHeap(s: State, a: int)
    requires StackChain(s) && s.FreeAt(a)
    ensures s.HeapAt(a)
  {
    if a >= s.hp { StackAboveHeap(s, a); }
  }

  /** Only the free list, the contents of descriptors and the table may differ. */
  ghost predicate SameBlocks(s: State, s': State) {
    && s'.size == s.size && s'.desc.Keys == s.desc.Keys && s'.used == s.used
    && s'.segment == s.segment && s'.hp == s.hp && SameStack(s, s')
  }

  lemma SameBlocksKept(o: int, s: State, s': State)
    requires Blocks(o, s) && SameBlocks(s, s')
    ensures Blocks(o, s')
    ensures UsedList(s) ==> UsedList(s')
    ensures HeapChain(s) ==> HeapChain(s')
    ensures StackChain(s) ==> StackChain(s')
    ensures Coalesced(s) ==> Coalesced(s')
    ensures forall x :: s'.FreeAt(x) <==> s.FreeAt(x)
  {
    forall x
      ensures s'.End(x) == s.End(x) && (s'.HeapAt(x) <==> s.HeapAt(x))
      ensures (s'.UsedAt(x) <==> s.UsedAt(x)) && (s'.FreeAt(x) <==> s.FreeAt(x))
    {
      assert x in s'.desc <==> x in s'.desc.Keys;
    }
    if StackChain(s) { StackKept(o, s, s'); }
  }

  lemma TableIrrelevant(o: int, s: State, t: T.Table, d: map<int, Desc>)
    requires Tiled(o, s) && d.Keys == s.desc.Keys
    ensures Tiled(o, s.(table := t, desc := d))
  {
    var s' := s.(table := t, desc := d);
    assert forall x :: x in d <==> x in d.Keys;
    SameBlocksKept(o, s, s');
  }

  /** The state after the space for a block is found and entered. */
  lemma SpaceKeepsTiling(cfg: Config, s: State, t: TypeIndex, n: nat)
    requires cfg.Valid() && Tiled(cfg.Overhead(), s) && s.segment > 0
    ensures var f := FindSpace(cfg, s, t, n);
      f.Space? ==> Tiled(cfg.Overhead(), Enter(f.state, f.address, Desc(f.client, t, n)))
  {
    var i := FindFit(cfg, s, t, n, 0);
    FindFitSpec(cfg, s, t, n, 0);
    var a := if i < |s.free| then s.free[i] else s.hp;
    var r := BallocAfter(cfg, s.numalign, t, n, a);
    BallocAfterLayout(cfg, s.numalign, t, n, a);
    LengthNonneg(n, cfg.size[t]);
    MinBlockBounds(cfg);
    if i < |s.free| {
      CarveKeepsTiling(cfg.Overhead(), cfg.MinBlock(), s, i, r.nbytes, Desc(r.client, t, n));
    } else if s.hp + r.nbytes <= s.sp {
      ExtendKeepsTiling(cfg.Overhead(), s, r.nbytes, Desc(r.client, t, n));
    }
  }

  lemma AllocateKeepsTiling(cfg: Config, s: State, d: int, n: int, growOk: bool)
    requires cfg.Valid() && Tiled(cfg.Overhead(), s) && T.Ok(s.table) && (s.ready ==> s.segment > 0)
    ensures Tiled(cfg.Overhead(), AllocateHeap(cfg, s, d, n, growOk).0)
  {
    hide Tiled, FindSpace, T.Allocate, T.Ok;
    if s.ready && ValidType(d) && n >= 0 {
      var t := d - MT_BASE;
      var f := FindSpace(cfg, s, t, n);
      if f.Space? {
        SpaceKeepsTiling(cfg, s, t, n);
        var e := Enter(f.state, f.address, Desc(f.client, t, n));
        TableIrrelevant(cfg.Overhead(), e, T.Allocate(s.table, f.address, growOk).0, e.desc);
      }
    }
  }

  // ---------- reclaiming ----------

  /** Heap blocks run up to one another, whichever is last. */
  ghost predicate LooseChain(s: State) {
    && (s.segment == s.hp || s.HeapAt(s.segment))
    && (forall x {:trigger s.End(x)} :: s.HeapAt(x) && s.End(x) != s.hp ==> s.HeapAt(s.End(x)))
  }

  /** Tiled but for block a, which has left the used list and is not yet on the free list. */
  ghost predicate Limbo(o: int, s: State, a: int) {
    && Blocks(o, s) && UsedList(s) && StackChain(s) && LooseChain(s)
    && s.FreeAt(a) && s.HeapAt(a) && Sorted(s.free)
    && (forall x :: x in s.free <==> s.FreeAt(x) && x != a)
    && (forall x {:trigger s.End(x)} :: s.FreeAt(x) && x != a && s.End(x) != a ==> !s.FreeAt(s.End(x)))
  }

  /** m is the rightmost heap block in use. */
  ghost predicate Rightmost(s: State, m: int) {
    s.UsedAt(m) && forall x :: s.UsedAt(x) ==> x <= m
  }

  ghost predicate TruncateStep(s: State, s': State, m: int) {
    && s'.segment == s.segment && s'.hp == s.End(m) && s'.desc == s.desc && SameStack(s, s')
    && (forall x :: x in s'.size <==> x in s.size && (x <= m || x in s.desc))
    && (forall x :: x in s'.size ==> s'.size[x] == s.size[x])
  }

  lemma TruncateBlocks(o: int, s: State, s': State, m: int)
    requires Blocks(o, s) && Rightmost(s, m) && TruncateStep(s, s', m)
    requires forall x :: x in s.desc && x >= s.hp ==> x >= s.sp
    ensures Blocks(o, s')
  {
    assert m in s.size;
  }

  lemma TruncateHeap(o: int, s: State, s': State, m: int)
    requires Blocks(o, s) && LooseChain(s) && Rightmost(s, m) && TruncateStep(s, s', m)
    requires forall x :: x in s.desc && x >= s.hp ==> x >= s.sp
    ensures HeapChain(s')
    ensures forall x :: s'.UsedAt(x) <==> s.UsedAt(x)
    ensures forall x :: s'.FreeAt(x) <==> s.FreeAt(x) && x <= m
  {
    assert m in s.size;
    assert s.segment <= m && s.segment != s.hp;
    assert s'.HeapAt(s.segment);
    forall x | s'.HeapAt(x)
      ensures s'.End(x) != s'.hp ==> s'.HeapAt(s'.End(x))
      ensures s'.End(x) == s'.hp ==> s'.UsedAt(x)
    {
      assert s'.End(x) == s.End(x) && x <= m;
    }
  }

  lemma IsTruncateStep(o: int, s: State, m: int)
    requires Blocks(o, s) && Rightmost(s, m)
    requires forall x :: x in s.size && x >= s.hp ==> x >= s.sp && x in s.desc
    ensures TruncateStep(s, Truncate(s, m), m)
    ensures forall x :: x in s.desc ==> Truncate(s, m).Size(x) == s.Size(x)
  {
    var t := Truncate(s, m);
    assert m in s.size;
    forall x | x in s.desc
      ensures x in t.size && t.size[x] == s.size[x]
    {
      assert x in s.size;
    }
    forall x | x in t.size && x >= t.hp
      ensures x >= s.sp
    {
      assert x > m && x in s.desc;
      assert s.UsedAt(x) ==> x <= m;
    }
  }

  lemma TruncateKeeps(o: int, s: State, a: int, m: int)
    requires Limbo(o, s, a) && Rightmost(s, m)
    ensures var t := Truncate(s, m);
      && Blocks(o, t) && HeapChain(t) && UsedList(t) && StackChain(t) && (a > m ==> Coalesced(t))
  {
    var t := Truncate(s, m);
    SizedAboveHeap(s);
    IsTruncateStep(o, s, m);
    TruncateBlocks(o, s, t, m);
    TruncateHeap(o, s, t, m);
    StackKept(o, s, t);
    if a > m { TruncateCoalesced(o, s, t, a, m); }
  }

  lemma TruncateFree(o: int, s: State, a: int, m: int)
    requires Limbo(o, s, a) && Rightmost(s, m)
    ensures var t := Truncate(s, m);
      && Sorted(t.free) && (t.FreeAt(a) <==> a < m)
      && (forall x :: x in t.free <==> t.FreeAt(x) && x != a)
  {
    SizedAboveHeap(s);
    IsTruncateStep(o, s, m);
    UpToSpec(s.free, m);
    assert a != m;
  }

  lemma TruncateCoalesced(o: int, s: State, s': State, a: int, m: int)
    requires Limbo(o, s, a) && Rightmost(s, m) && TruncateStep(s, s', m) && a > m
    requires forall x :: s'.FreeAt(x) <==> s.FreeAt(x) && x <= m
    ensures Coalesced(s')
  {
    forall x | s'.FreeAt(x)
      ensures !s'.FreeAt(s'.End(x))
    {
      assert s'.End(x) == s.End(x) && s.FreeAt(x);
      assert m in s.size;
    }
  }

  // ---------- coalescing ----------

  /** Adjacent free blocks a and b become one. */
  ghost predicate MergeStep(s: State, s': State, a: int, b: int) {
    && s.FreeAt(a) && s.FreeAt(b) && s.HeapAt(a) && s.HeapAt(b) && s.End(a) == b
    && s'.segment == s.segment && s'.hp == s.hp && s'.desc == s.desc && SameStack(s, s')
    && s'.size == (s.size - {b})[a := s.Size(a) + s.Size(b)]
  }

  lemma MergeBlocks(o: int, s: State, s': State, a: int, b: int)
    requires Blocks(o, s) && MergeStep(s, s', a, b)
    ensures Blocks(o, s')
  {}

  lemma MergeHeap(o: int, s: State, s': State, a: int, b: int)
    requires Blocks(o, s) && HeapChain(s) && MergeStep(s, s', a, b)
    ensures HeapChain(s')
  {
    assert s'.End(a) == s.End(b);
    forall x | s'.HeapAt(x)
      ensures s'.End(x) != s'.hp ==> s'.HeapAt(s'.End(x))
      ensures s'.End(x) == s'.hp ==> s'.UsedAt(x)
    {
      if x != a {
        assert s'.End(x) == s.End(x);
      }
    }
  }

  lemma MergeKeeps(o: int, s: State, i: nat)
    requires Chained(o, s) && i + 1 < |s.free| && s.End(s.free[i]) == s.free[i + 1]
    ensures Chained(o, Merge(s, i))
  {
    var a, b := s.free[i], s.free[i + 1];
    var s' := Merge(s, i);
    assert a in s.free && b in s.free;
    FreeIsHeap(s, a);
    FreeIsHeap(s, b);
    hide Blocks, HeapChain, StackChain, UsedList, FreeList;
    MergeBlocks(o, s, s', a, b);
    MergeHeap(o, s, s', a, b);
    StackKept(o, s, s');
    MergeLists(s, i);
  }

  lemma MergeLists(s: State, i: nat)
    requires UsedList(s) && FreeList(s) && i + 1 < |s.free| && s.free[i] in s.size && s.free[i + 1] in s.size
    ensures UsedList(Merge(s, i)) && FreeList(Merge(s, i))
  {
    var s' := Merge(s, i);
    assert s'.free == s.free[..i + 1] + s.free[i + 1 + 1..];
    DropSorted(s.free, i + 1);
    assert s.free[i] in s.free && s.free[i + 1] in s.free;
  }

  /** Neighbours before position i do not touch. */
  ghost predicate Gapped(s: State, i: nat) {
    forall k :: 0 <= k < i && k + 1 < |s.free| ==> s.End(s.free[k]) != s.free[k + 1]
  }

  lemma GappedIsCoalesced(o: int, s: State)
    requires Blocks(o, s) && FreeList(s) && Gapped(s, |s.free|)
    ensures Coalesced(s)
  {
    forall x | s.FreeAt(x)
      ensures !s.FreeAt(s.End(x))
    {
      assert x in s.free;
      var k :| 0 <= k < |s.free| && s.free[k] == x;
      forall j | 0 <= j < |s.free|
        ensures s.free[j] != s.End(x)
      {
        if j > k + 1 {
          assert s.free[k + 1] in s.free;
          assert s.free[k + 1] in s.size;
        }
      }
      assert s.End(x) !in s.free;
    }
  }

  /** What reclaiming never changes. */
  ghost predicate Kept(s: State, r: State) {
    && r.desc == s.desc && r.used == s.used && r.stack == s.stack && r.table == s.table
    && r.ready == s.ready && r.segment == s.segment && r.partition == s.partition && r.eos == s.eos
    && r.sp == s.sp && r.numalign == s.numalign
    && forall x :: x in s.desc ==> r.Size(x) == s.Size(x)
  }

  lemma MergeGapped(s: State, i: nat)
    requires i + 1 < |s.free| && FreeList(s) && Gapped(s, i)
    ensures Gapped(Merge(s, i), i) && Kept(s, Merge(s, i))
  {
    var t := Merge(s, i);
    forall k | 0 <= k < i && k + 1 < |t.free|
      ensures t.End(t.free[k]) != t.free[k + 1]
    {
      assert t.free[k] == s.free[k] && t.free[k + 1] == s.free[k + 1];
      assert t.End(t.free[k]) == s.End(s.free[k]);
    }
    assert s.free[i] in s.free && s.free[i + 1] in s.free;
    assert s.FreeAt(s.free[i]) && s.FreeAt(s.free[i + 1]);
  }

  lemma {:induction false} CoalesceKeeps(o: int, s: State, i: nat)
    requires Chained(o, s) && Gapped(s, i)
    ensures Tiled(o, Coalesce(s, i)) && Kept(s, Coalesce(s, i))
    decreases |s.free| - i
  {
    if i + 1 >= |s.free| {
      GappedIsCoalesced(o, s);
    } else if s.End(s.free[i]) == s.free[i + 1] {
      MergeKeeps(o, s, i);
      MergeGapped(s, i);
      CoalesceKeeps(o, Merge(s, i), i);
    } else {
      CoalesceKeeps(o, s, i + 1);
    }
  }

  // ---------- block_free_heap ----------

  /** Every heap block is forgotten. */
  ghost predicate EmptyStep(s: State, s': State) {
    && s'.segment == s.segment == s'.hp && s'.desc == s.desc && SameStack(s, s') && s'.free == [] && s'.used == s.used
    && (forall x :: x in s'.size <==> x in s.size && x in s.desc)
    && (forall x :: x in s'.size ==> s'.size[x] == s.size[x])
  }

  lemma EmptyHeap(o: int, s: State, s': State)
    requires Blocks(o, s) && UsedList(s) && s.used == [] && EmptyStep(s, s')
    requires forall x :: x in s.desc ==> x >= s.sp
    ensures Blocks(o, s') && UsedList(s') && FreeList(s') && HeapChain(s') && Coalesced(s')
  {}

  /** With no heap block left in use the heap region is empty. */
  lemma ReclaimLast(o: int, s: State, a: int)
    requires Limbo(o, s, a) && s.used == []
    ensures Tiled(o, Reclaim(s, a)) && Kept(s, Reclaim(s, a))
  {
    var r := Reclaim(s, a);
    SizedAboveHeap(s);
    forall x | x in s.desc
      ensures x >= s.sp
    {
      assert s.UsedAt(x) ==> x in s.used;
    }
    StackKept(o, s, r);
    EmptyHeap(o, s, r);
  }

  lemma UsedPositive(o: int, s: State)
    requires Bounds(o, s) && UsedList(s)
    ensures s.used != [] ==> s.used[0] > 0
  {
    if s.used != [] {
      var x := s.used[0];
      assert x in s.used && s.UsedAt(x) && x in s.size;
    }
  }

  lemma ReclaimKeepsTiling(o: int, s: State, a: int)
    requires Limbo(o, s, a)
    ensures Tiled(o, Reclaim(s, a)) && Kept(s, Reclaim(s, a))
  {
    hide Bounds, Apart, HeapChain, LooseChain, Coalesced, StackChain, Coalesce;
    var m := MaxFrom(s.used, 0);
    MaxFromSpec(s.used, 0);
    if m != 0 {
      assert m in s.used && Rightmost(s, m);
      TruncateKeeps(o, s, a, m);
      TruncateFree(o, s, a, m);
      SizedAboveHeap(s);
      IsTruncateStep(o, s, m);
      var t := Truncate(s, m);
      if a < m {
        InsertSpec(t.free, a);
        var t' := t.(free := Insert(t.free, a));
        SameBlocksKept(o, t, t');
        CoalesceKeeps(o, t', 0);
      }
    } else {
      UsedPositive(o, s);
      ReclaimLast(o, s, a);
    }
  }

  // ---------- MA_free_heap, MA_free_heap_piece ----------

  lemma UnlistLimbo(o: int, s: State, a: int)
    requires Tiled(o, s) && a in s.used
    ensures Limbo(o, Unlist(s, a), a)
  {
    var u := Unlist(s, a);
    RemoveSpec(s.used, a);
    assert s.UsedAt(a);
    forall x
      ensures u.End(x) == s.End(x) && (u.HeapAt(x) <==> s.HeapAt(x))
      ensures (u.UsedAt(x) <==> s.UsedAt(x) && x != a) && (u.FreeAt(x) <==> s.FreeAt(x) || x == a)
    {}
    StackKept(o, s, u);
  }

  /** A used block is cut in two and its upper part is on no list. */
  ghost predicate CutStep(s: State, s': State, a: int, need: int) {
    && s'.segment == s.segment && s'.hp == s.hp && s'.desc == s.desc && SameStack(s, s')
    && s'.size == s.size[a := need][a + need := s.Size(a) - need] && s'.free == s.free && s'.used == s.used
  }

  lemma CutBlocks(o: int, s: State, s': State, a: int, need: int)
    requires Blocks(o, s) && s.UsedAt(a) && o <= need && o <= s.Size(a) - need
    requires CutStep(s, s', a, need)
    ensures Blocks(o, s') && a + need !in s.size && a + need !in s.desc && a + need < s.hp
  {
    assert a in s.size;
    SplitApart(s, s', a, need);
    CutInside(o, s, a, need);
    hide Apart;
  }

  lemma CutInside(o: int, s: State, a: int, need: int)
    requires Blocks(o, s) && a in s.size && a < s.hp && 0 < need < s.size[a]
    ensures a + need !in s.size && a + need !in s.desc && a + need < s.hp
  {}

  lemma CutChain(o: int, s: State, s': State, a: int, need: int)
    requires Blocks(o, s) && HeapChain(s) && Coalesced(s) && s.UsedAt(a) && 0 < need < s.Size(a) && a + need !in s.size
    requires CutStep(s, s', a, need)
    ensures LooseChain(s')
    ensures forall x {:trigger s'.End(x)} :: s'.FreeAt(x) && x != a + need && s'.End(x) != a + need ==> !s'.FreeAt(s'.End(x))
  {
    var b := a + need;
    assert s'.End(b) == s.End(a);
    forall x | s'.HeapAt(x) && s'.End(x) != s'.hp
      ensures s'.HeapAt(s'.End(x))
    {
      if x != a && x != b { assert s'.End(x) == s.End(x); }
    }
    forall x | s'.FreeAt(x) && x != b && s'.End(x) != b
      ensures !s'.FreeAt(s'.End(x))
    {
      assert s'.End(x) == s.End(x) && s.FreeAt(x);
    }
  }

  lemma CutFacts(o: int, s: State, a: int, need: int)
    requires Blocks(o, s) && StackChain(s) && s.UsedAt(a) && 0 < need < s.Size(a)
    ensures CutStep(s, SplitUsed(s, a, need), a, need)
  {
    SizedAboveHeap(s);
    assert s.HeapAt(a);
    hide Blocks, StackChain;
    SplitSameStack(o, s, SplitUsed(s, a, need), a, need);
  }

  lemma CutLimbo(o: int, s: State, a: int, need: int)
    requires Tiled(o, s) && s.UsedAt(a) && o <= need && o <= s.Size(a) - need
    ensures Limbo(o, SplitUsed(s, a, need), a + need)
  {
    var u := SplitUsed(s, a, need);
    assert o > 0 by { assert Bounds(o, s); }
    CutFacts(o, s, a, need);
    hide Blocks, UsedList, FreeList, HeapChain, StackChain, Coalesced, LooseChain;
    CutBlocks(o, s, u, a, need);
    CutChain(o, s, u, a, need);
    StackKept(o, s, u);
    CutLists(s, u, a, need);
  }

  lemma CutLists(s: State, s': State, a: int, need: int)
    requires UsedList(s) && FreeList(s) && s.UsedAt(a) && 0 < need
    requires CutStep(s, s', a, need) && a + need !in s.size && a + need !in s.desc
    ensures UsedList(s') && Sorted(s'.free) && s'.FreeAt(a + need)
    ensures forall x :: x in s'.free <==> s'.FreeAt(x) && x != a + need
  {
    forall x
      ensures (s'.UsedAt(x) <==> s.UsedAt(x)) && (s'.FreeAt(x) <==> s.FreeAt(x) || x == a + need)
    {}
  }

  lemma FreeHeapKeepsTiling(o: int, s: State, h: int)
    requires Tiled(o, s)
    ensures Tiled(o, FreeHeap(s, h).0)
    ensures HeapHandle(s, h) ==>
      var a := T.Lookup(s.table, h);
      && Kept(Unlist(s, a), FreeHeap(s, h).0.(table := s.table))
      && FreeHeap(s, h).0.table == T.Deallocate(s.table, h)
  {
    if HeapHandle(s, h) {
      var a := T.Lookup(s.table, h);
      UnlistLimbo(o, s, a);
      var r := Reclaim(Unlist(s, a), a);
      ReclaimKeepsTiling(o, Unlist(s, a), a);
      TableIrrelevant(o, r, T.Deallocate(r.table, h), r.desc);
    }
  }

  lemma NeedBounds(cfg: Config, s: State, a: int, keep: int)
    requires cfg.Valid() && a in s.desc && keep >= 0
    ensures NeedOf(cfg, s, a, keep) >= cfg.Overhead() && cfg.MinBlock() >= cfg.Overhead() > 0
  {
    BallocAfterLayout(cfg, s.numalign, s.desc[a].dtype, keep, a);
    LengthNonneg(keep, cfg.size[s.desc[a].dtype]);
    MinBlockBounds(cfg);
  }

  lemma ShrinkKeepsTiling(o: int, m: int, s: State, a: int, need: int)
    requires Tiled(o, s) && s.UsedAt(a) && o <= need && o <= m
    ensures Tiled(o, Shrink(m, s, a, need))
    ensures Splits(m, s, a, need) ==> Kept(SplitUsed(s, a, need), Shrink(m, s, a, need))
  {
    hide Tiled, Limbo, Kept, Reclaim;
    if Splits(m, s, a, need) {
      CutLimbo(o, s, a, need);
      ReclaimKeepsTiling(o, SplitUsed(s, a, need), a + need);
    }
  }

  lemma FreePieceKeepsTiling(cfg: Config, s: State, h: int, n: int)
    requires cfg.Valid() && Tiled(cfg.Overhead(), s)
    ensures Tiled(cfg.Overhead(), FreePiece(cfg, s, h, n).0)
  {
    hide Blocks, HeapChain, FreeList, Coalesced, StackChain, Reclaim;
    var o := cfg.Overhead();
    if HeapHandle(s, h) && n >= 0 {
      var a := T.Lookup(s.table, h);
      if n >= s.desc[a].nelem {
        FreeHeapKeepsTiling(o, s, h);
      } else {
        var keep := s.desc[a].nelem - n;
        NeedBounds(cfg, s, a, keep);
        assert s.UsedAt(a);
        var r := Shrink(cfg.MinBlock(), s, a, NeedOf(cfg, s, a, keep));
        ShrinkKeepsTiling(o, cfg.MinBlock(), s, a, NeedOf(cfg, s, a, keep));
        var d := s.desc[a := s.desc[a].(nelem := keep)];
        assert d.Keys == s.desc.Keys;
        TableIrrelevant(o, r, r.table, d);
      }
    }
  }

  // ---------- the stack ----------

  /** The heap part of the state is untouched. */
  ghost predicate SameHeap(s: State, s': State) {
    && s'.segment == s.segment && s'.hp == s.hp && s'.free == s.free && s'.used == s.used && s'.eos == s.eos
    && (forall x :: x < s.hp ==> (x in s'.size <==> x in s.size) && (x in s'.desc <==> x in s.desc))
    && (forall x :: x < s.hp && x in s.size ==> s'.size[x] == s.size[x])
    && (forall x :: x in s'.size && x >= s.hp ==> x in s'.desc)
  }

  lemma HeapKept(o: int, s: State, s': State)
    requires Blocks(o, s) && UsedList(s) && FreeList(s) && HeapChain(s) && Coalesced(s) && SameHeap(s, s')
    requires forall x :: x in s.size && x >= s.hp ==> x in s.desc
    requires forall x :: x in s'.desc ==> x in s'.size
    ensures UsedList(s') && FreeList(s') && HeapChain(s') && Coalesced(s')
  {
    forall x
      ensures (s'.HeapAt(x) <==> s.HeapAt(x)) && (s'.UsedAt(x) <==> s.UsedAt(x)) && (s'.FreeAt(x) <==> s.FreeAt(x))
    {}
    forall x | s.HeapAt(x)
      ensures s'.End(x) == s.End(x)
    {}
  }

  lemma {:induction false} PushKeepsTiling(o: int, s: State, nbytes: int, d: Desc)
    requires Tiled(o, s) && o <= nbytes <= s.sp - s.hp
    ensures Tiled(o, Pushed(s, nbytes, d))
  {
    hide HeapChain, UsedList, FreeList, Coalesced, StackChain;
    var s' := Pushed(s, nbytes, d);
    SizedAboveHeap(s);
    PushedBlocks(o, s, s', nbytes, d);
    HeapKept(o, s, s');
    PushedStack(s, s', nbytes, d);
  }

  lemma PushedBlocks(o: int, s: State, s': State, nbytes: int, d: Desc)
    requires Blocks(o, s) && o <= nbytes <= s.sp - s.hp
    requires s'.segment == s.segment && s'.hp == s.hp && s'.eos == s.eos && s'.sp == s.sp - nbytes
    requires s'.size == s.size[s'.sp := nbytes] && s'.desc == s.desc[s'.sp := d]
    requires forall x :: x in s.size && x >= s.hp ==> x >= s.sp && x in s.desc
    ensures Blocks(o, s') && s'.sp !in s.size
  {}

  lemma PushedStack(s: State, s': State, nbytes: int, d: Desc)
    requires StackChain(s) && nbytes > 0 && s.sp - nbytes !in s.size
    requires var a := s.sp - nbytes;
      && s'.sp == a && s'.stack == [a] + s.stack && s'.hp == s.hp && s'.eos == s.eos
      && s'.size == s.size[a := nbytes] && s'.desc == s.desc[a := d]
    ensures StackChain(s')
  {
    var a := s.sp - nbytes;
    forall i | 0 <= i < |s'.stack|
      ensures s'.stack[i] in s'.desc && s'.stack[i] >= a && s'.End(s'.stack[i]) == Start(s'.stack, i + 1, s'.eos)
    {
      if i > 0 {
        assert s'.stack[i] == s.stack[i - 1];
        assert s.End(s.stack[i - 1]) == Start(s.stack, i, s.eos);
      }
    }
    assert forall x :: x in s'.stack <==> x == a || x in s.stack;
  }

  /** What is left after removing the stack blocks up to the i-th. */
  ghost predicate PoppedTo(s: State, s': State, i: nat) {
    && i < |s.stack| && s'.stack == s.stack[i + 1..] && s'.sp == s.End(s.stack[i]) && SameHeap(s, s')
    && (forall x :: x >= s.hp ==> (x in s'.size <==> x in s.size && x in s'.stack) && (x in s'.desc <==> x in s.desc && x in s'.stack))
    && (forall x :: x in s'.size ==> s'.size[x] == s.size[x])
  }

  lemma StackOrder(o: int, s: State, i: nat)
    requires Blocks(o, s) && StackChain(s) && i < |s.stack|
    ensures s.stack[i] in s.size && s.stack[i] < s.End(s.stack[i]) <= s.eos
    decreases |s.stack| - i
  {
    assert s.stack[i] in s.desc;
    if i + 1 < |s.stack| { StackOrder(o, s, i + 1); }
  }

  lemma PopToBlocks(o: int, s: State, s': State, i: nat)
    requires Blocks(o, s) && StackChain(s) && PoppedTo(s, s', i)
    ensures Blocks(o, s')
  {
    StackOrder(o, s, i);
    assert s.stack[i] in s.desc && s.stack[i] >= s.sp;
    assert forall x :: x in s'.size ==> x in s.size;
    assert forall x :: x in s'.desc ==> x in s.desc;
  }

  lemma PopToStack(o: int, s: State, s': State, i: nat)
    requires Blocks(o, s) && StackChain(s) && PoppedTo(s, s', i)
    ensures StackChain(s')
  {
    StackAt(s, i);
    assert s.sp >= s.hp && forall a :: a in s.desc ==> a in s.size;
    hide Blocks, StackChain;
    forall k | 0 <= k < |s'.stack|
      ensures ChainAt(s', k)
    {
      PoppedOne(s, s', i, k);
    }
    ChainFrom(s');
  }

  /** StackChain, one block at a time. */
  ghost predicate ChainAt(s: State, k: nat)
    requires k < |s.stack|
  {
    s.stack[k] in s.desc && s.stack[k] >= s.sp && s.End(s.stack[k]) == Start(s.stack, k + 1, s.eos)
  }

  lemma ChainFrom(s: State)
    requires s.sp == Start(s.stack, 0, s.eos) && Sorted(s.stack) && forall a :: a in s.size && a >= s.hp ==> a in s.stack
    requires forall k :: 0 <= k < |s.stack| ==> ChainAt(s, k)
    ensures StackChain(s)
  {
    forall k | 0 <= k < |s.stack|
      ensures s.stack[k] in s.desc && s.stack[k] >= s.sp && s.End(s.stack[k]) == Start(s.stack, k + 1, s.eos)
    {
      assert ChainAt(s, k);
    }
  }

  lemma StackAt(s: State, j: nat)
    requires StackChain(s) && j < |s.stack|
    ensures s.stack[j] in s.desc && s.stack[j] >= s.sp && s.End(s.stack[j]) == Start(s.stack, j + 1, s.eos)
    ensures Sorted(s.stack)
  {
    var e := s.End(s.stack[j]);
  }

  lemma PoppedOne(s: State, s': State, i: nat, k: nat)
    requires StackChain(s) && PoppedTo(s, s', i) && k < |s'.stack| && s.sp >= s.hp
    requires forall a :: a in s.desc ==> a in s.size
    ensures s'.stack[k] in s'.desc && s'.stack[k] >= s'.sp
    ensures s'.End(s'.stack[k]) == Start(s'.stack, k + 1, s'.eos)
  {
    var j := i + 1 + k;
    StackAt(s, i);
    StackAt(s, j);
    hide StackChain;
    var x := s.stack[j];
    assert s'.stack[k] == x && x in s'.stack;
    assert s.stack[i + 1] <= x;
  }

  lemma PopToKeepsTiling(o: int, s: State, s': State, i: nat)
    requires Tiled(o, s) && PoppedTo(s, s', i)
    ensures Tiled(o, s')
  {
    hide HeapChain, UsedList, FreeList, Coalesced, StackChain;
    SizedAboveHeap(s);
    PopToBlocks(o, s, s', i);
    PopToStack(o, s, s', i);
    HeapKept(o, s, s');
  }
}
