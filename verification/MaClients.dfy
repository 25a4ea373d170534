/** Client spaces: inside their blocks, apart from one another, and never moved. */
module MaClients {
  import opened Arith
  import opened MaLayout
  import opened Lists
  import opened MaState
  import opened MaTiling
  import opened MaRuns
  import T = MaTable

  // ---------- what a call may do to descriptors and lengths ----------

  /** Blocks in use afterwards were in use before with the same descriptor and length,
      except those in `except`. */
  ghost predicate SurvivorsKept(s: State, s': State, except: set<int>) {
    forall x :: x in s'.desc && x !in except ==> x in s.desc && s'.desc[x] == s.desc[x] && s'.Size(x) == s.Size(x)
  }

  /** No block in use before and after has moved its client space, changed its element
      type or grown. */
  ghost predicate StayPut(s: State, s': State) {
    forall x :: x in s.desc && x in s'.desc ==>
      s'.desc[x].client == s.desc[x].client && s'.desc[x].dtype == s.desc[x].dtype && s'.desc[x].nelem <= s.desc[x].nelem
  }

  ghost predicate LaidOutAt(cfg: Config, s: State, a: int)
    requires cfg.Valid()
  {
    a in s.desc && Contains(cfg, a, s.Size(a), s.desc[a].client, s.desc[a].dtype, s.desc[a].nelem)
  }

  lemma SurvivorsLaidOut(cfg: Config, s: State, s': State, except: set<int>)
    requires cfg.Valid() && LaidOut(cfg, s) && SurvivorsKept(s, s', except)
    requires forall a :: a in except ==> LaidOutAt(cfg, s', a)
    ensures LaidOut(cfg, s')
  {}

  lemma AllocateSurvivors(cfg: Config, s: State, t: TypeIndex, n: nat, growOk: bool)
    requires cfg.Valid() && Inv(cfg, s) && s.ready && FindSpace(cfg, s, t, n).Space?
    ensures var s', f := AllocateHeap(cfg, s, t + MT_BASE, n, growOk).0, FindSpace(cfg, s, t, n);
      && SurvivorsKept(s, s', {f.address}) && s'.desc[f.address] == Desc(f.client, t, n)
      && Contains(cfg, f.address, s'.Size(f.address), f.client, t, n)
      && f.client == ClientAfter(cfg, s.numalign, t, f.address)
  {
    SpaceIsNew(cfg, s, t, n);
    SpaceFits(cfg, s, t, n);
    var f := FindSpace(cfg, s, t, n);
    hide Inv, FindSpace, BallocAfter;
    BallocAfterLayout(cfg, s.numalign, t, n, f.address);
    LengthNonneg(n, cfg.size[t]);
    BlockLength(cfg, s.numalign, t, n, f.address);
  }

  /** The space found is as long as the block needs. */
  lemma SpaceFits(cfg: Config, s: State, t: TypeIndex, n: nat)
    requires cfg.Valid() && Inv(cfg, s) && FindSpace(cfg, s, t, n).Space?
    ensures var f, r := FindSpace(cfg, s, t, n), BallocAfter(cfg, s.numalign, t, n, FindSpace(cfg, s, t, n).address);
      f.client == r.client && f.state.Size(f.address) >= r.nbytes
  {
    hide BallocAfter, Inv, FindFit;
    FindFitSpec(cfg, s, t, n, 0);
    MinBlockBounds(cfg);
    BallocAfterLayout(cfg, s.numalign, t, n, FindSpace(cfg, s, t, n).address);
    LengthNonneg(n, cfg.size[t]);
  }

  lemma FreeSurvivors(cfg: Config, s: State, h: int)
    requires cfg.Valid() && Inv(cfg, s)
    ensures SurvivorsKept(s, FreeHeap(s, h).0, {})
  {
    hide Tiled, Reclaim;
    FreeHeapKeepsTiling(cfg.Overhead(), s, h);
  }

  lemma PushSurvivors(cfg: Config, s: State, t: TypeIndex, n: nat, growOk: bool)
    requires cfg.Valid() && Inv(cfg, s) && s.ready
    requires BallocBefore(cfg, s.numalign, t, n, s.sp).nbytes <= s.sp - s.hp
    ensures var s', r := PushStack(cfg, s, t + MT_BASE, n, growOk).0, BallocBefore(cfg, s.numalign, t, n, s.sp);
      && SurvivorsKept(s, s', {s.sp - r.nbytes}) && s'.desc[s.sp - r.nbytes] == Desc(r.client, t, n)
      && Contains(cfg, s.sp - r.nbytes, s'.Size(s.sp - r.nbytes), r.client, t, n)
  {
    hide Tiled;
    PushedKeeps(cfg, s, t, n, growOk);
    BallocBeforeLayout(cfg, s.numalign, t, n, s.sp);
  }

  // ---------- partial frees ----------

  /** Block a after a partial free that keeps `keep` elements, when the free cuts it. */
  function KeptTrial(cfg: Config, s: State, a: int, keep: int): Trial
    requires cfg.Valid() && a in s.desc
  {
    BallocAfter(cfg, s.numalign, s.desc[a].dtype, keep, a)
  }

  /** Length of gap2 in a block at a of n elements of t. */
  function Gap2(cfg: Config, a: int, r: Trial, t: TypeIndex, n: int): int
    requires cfg.Valid()
  {
    a + r.nbytes - (r.client + n * cfg.size[t] + cfg.guardSize)
  }

  /** `MA_free_heap_piece` recomputes the block with the present power-of-two request but
      leaves its client space where it was. This is the test a caller could make first: the
      client space lies above the recomputed one by no more than gap2 of the recomputed block. */
  predicate PieceFits(cfg: Config, s: State, h: int, n: int)
    requires cfg.Valid() && UsedList(s)
  {
    HeapHandle(s, h) ==>
      var a := T.Lookup(s.table, h);
      0 <= n < s.desc[a].nelem ==>
        var keep := s.desc[a].nelem - n;
        var r := KeptTrial(cfg, s, a, keep);
        Splits(cfg.MinBlock(), s, a, r.nbytes) ==>
          s.desc[a].client - r.client <= Gap2(cfg, a, r, s.desc[a].dtype, keep)
  }

  lemma PieceSurvivors(cfg: Config, s: State, h: int, n: int)
    requires cfg.Valid() && Inv(cfg, s) && HeapHandle(s, h) && 0 <= n < s.desc[T.Lookup(s.table, h)].nelem
    ensures var s', a := FreePiece(cfg, s, h, n).0, T.Lookup(s.table, h);
      && SurvivorsKept(s, s', {a}) && a in s'.desc && s'.desc[a] == s.desc[a].(nelem := s.desc[a].nelem - n)
      && var need := KeptTrial(cfg, s, a, s.desc[a].nelem - n).nbytes;
         s'.Size(a) == if Splits(cfg.MinBlock(), s, a, need) then need else s.Size(a)
  {
    hide Blocks, HeapChain, FreeList, Coalesced, StackChain, Reclaim;
    var a := T.Lookup(s.table, h);
    var keep := s.desc[a].nelem - n;
    assert s.UsedAt(a);
    NeedBounds(cfg, s, a, keep);
    ShrinkKeepsTiling(cfg.Overhead(), cfg.MinBlock(), s, a, NeedOf(cfg, s, a, keep));
    var need := NeedOf(cfg, s, a, keep);
    if Splits(cfg.MinBlock(), s, a, need) { CutNew(cfg.Overhead(), s, a, need); }
  }

  lemma CutNew(o: int, s: State, a: int, need: int)
    requires Tiled(o, s) && s.UsedAt(a) && 0 < need < s.Size(a)
    ensures a + need !in s.size && a + need !in s.desc
  {
    assert a in s.size;
  }

  /** A partial free keeps every block's layout exactly when the kept elements fit. */
  lemma PieceKeepsLayoutIff(cfg: Config, s: State, h: int, n: int)
    requires cfg.Valid() && Inv(cfg, s) && LaidOut(cfg, s)
    ensures LaidOut(cfg, FreePiece(cfg, s, h, n).0) <==> PieceFits(cfg, s, h, n)
  {
    hide Blocks, FreeList, HeapChain, StackChain, Coalesced, Reclaim;
    if HeapHandle(s, h) && n >= 0 {
      var a := T.Lookup(s.table, h);
      UsedHasDesc(cfg, s, a);
      assert UsedList(s);
      if n >= s.desc[a].nelem {
        FreeSurvivors(cfg, s, h);
        SurvivorsLaidOut(cfg, s, FreeHeap(s, h).0, {});
      } else {
        PieceSurvivors(cfg, s, h, n);
        var s' := FreePiece(cfg, s, h, n).0;
        var keep, size := s.desc[a].nelem - n, cfg.size[s.desc[a].dtype];
        LengthNonneg(keep, size);
        MulMonotone(keep, s.desc[a].nelem, size);
        var fits := Contains(cfg, a, s'.Size(a), s'.desc[a].client, s'.desc[a].dtype, s'.desc[a].nelem);
        assert fits <==> PieceFits(cfg, s, h, n);
        if fits { SurvivorsLaidOut(cfg, s, s', {a}); }
      }
    }
  }

  lemma UsedHasDesc(cfg: Config, s: State, a: int)
    requires cfg.Valid() && Inv(cfg, s) && a in s.used
    ensures a in s.desc
  {}

  /** A client space no higher than the one recomputed now always fits. */
  lemma PieceFitsWhenNotAbove(cfg: Config, s: State, h: int, n: int)
    requires cfg.Valid() && Inv(cfg, s)
    requires HeapHandle(s, h) ==>
      var a := T.Lookup(s.table, h); s.desc[a].client <= ClientAfter(cfg, s.numalign, s.desc[a].dtype, a)
    ensures PieceFits(cfg, s, h, n)
  {
    if HeapHandle(s, h) {
      var a := T.Lookup(s.table, h);
      if 0 <= n < s.desc[a].nelem {
        BlockLength(cfg, s.numalign, s.desc[a].dtype, s.desc[a].nelem - n, a);
        BallocAfterLayout(cfg, s.numalign, s.desc[a].dtype, s.desc[a].nelem - n, a);
      }
    }
  }

  // ---------- every call ----------

  ghost predicate PieceOk(cfg: Config, s: State, op: Op)
    requires cfg.Valid() && Inv(cfg, s)
  {
    op.OpFreePiece? ==> PieceFits(cfg, s, op.h, op.n)
  }

  lemma AllocateLayout(cfg: Config, s: State, d: int, n: int, growOk: bool)
    requires cfg.Valid() && Inv(cfg, s)
    ensures var s' := AllocateHeap(cfg, s, d, n, growOk).0;
      StayPut(s, s') && (LaidOut(cfg, s) ==> LaidOut(cfg, s'))
  {
    hide Tiled;
    if s.ready && ValidType(d) && n >= 0 && FindSpace(cfg, s, d - MT_BASE, n).Space? {
      var s', f := AllocateHeap(cfg, s, d, n, growOk).0, FindSpace(cfg, s, d - MT_BASE, n);
      SpaceIsNew(cfg, s, d - MT_BASE, n);
      AllocateSurvivors(cfg, s, d - MT_BASE, n, growOk);
      if LaidOut(cfg, s) { SurvivorsLaidOut(cfg, s, s', {f.address}); }
    }
  }

  lemma FreeLayout(cfg: Config, s: State, h: int)
    requires cfg.Valid() && Inv(cfg, s)
    ensures var s' := FreeHeap(s, h).0; StayPut(s, s') && (LaidOut(cfg, s) ==> LaidOut(cfg, s'))
  {
    hide Tiled, Reclaim;
    FreeSurvivors(cfg, s, h);
    if LaidOut(cfg, s) { SurvivorsLaidOut(cfg, s, FreeHeap(s, h).0, {}); }
  }

  lemma PieceLayout(cfg: Config, s: State, h: int, n: int)
    requires cfg.Valid() && Inv(cfg, s)
    ensures StayPut(s, FreePiece(cfg, s, h, n).0)
  {
    hide Blocks, FreeList, HeapChain, StackChain, Coalesced, Reclaim;
    if HeapHandle(s, h) && n >= 0 {
      UsedHasDesc(cfg, s, T.Lookup(s.table, h));
      if n >= s.desc[T.Lookup(s.table, h)].nelem { FreeLayout(cfg, s, h); } else { PieceSurvivors(cfg, s, h, n); }
    }
  }

  lemma PushLayout(cfg: Config, s: State, d: int, n: int, growOk: bool)
    requires cfg.Valid() && Inv(cfg, s)
    ensures var s' := PushStack(cfg, s, d, n, growOk).0;
      StayPut(s, s') && (LaidOut(cfg, s) ==> LaidOut(cfg, s'))
  {
    hide Tiled;
    if s.ready && ValidType(d) && n >= 0 {
      var r := BallocBefore(cfg, s.numalign, d - MT_BASE, n, s.sp);
      if r.nbytes <= s.sp - s.hp {
        PushedKeeps(cfg, s, d - MT_BASE, n, growOk);
        PushSurvivors(cfg, s, d - MT_BASE, n, growOk);
        if LaidOut(cfg, s) { SurvivorsLaidOut(cfg, s, PushStack(cfg, s, d, n, growOk).0, {s.sp - r.nbytes}); }
      }
    }
  }

  lemma PopLayout(cfg: Config, s: State, h: int)
    requires cfg.Valid() && Inv(cfg, s)
    ensures var s' := PopStack(s, h).0; SurvivorsKept(s, s', {}) && StayPut(s, s') && (LaidOut(cfg, s) ==> LaidOut(cfg, s'))
  {}

  lemma ChopLayout(cfg: Config, s: State, h: int)
    requires cfg.Valid() && Inv(cfg, s)
    ensures var s' := ChopStack(s, h).0; SurvivorsKept(s, s', {}) && StayPut(s, s') && (LaidOut(cfg, s) ==> LaidOut(cfg, s'))
  {
    assert forall x :: x in s.desc ==> x in s.size;
  }

  /** Every call keeps the layout of every block in use, if partial frees fit. */
  lemma LayoutKeeps(cfg: Config, s: State, op: Op)
    requires cfg.Valid() && Inv(cfg, s)
    ensures StayPut(s, Apply(cfg, s, op))
    ensures LaidOut(cfg, s) && PieceOk(cfg, s, op) ==> LaidOut(cfg, Apply(cfg, s, op))
  {
    hide Inv, AllocateHeap, FreeHeap, FreePiece, PushStack, PopStack, ChopStack, PieceFits, StayPut, LaidOut;
    match op
    case OpInit(d, ns, nh, seg) => InitLayout(cfg, s, d, ns, nh, seg);
    case OpNumalign(v) => NumalignLayout(cfg, s, v);
    case OpAllocate(d, n, g) => AllocateLayout(cfg, s, d, n, g);
    case OpFree(h) => FreeLayout(cfg, s, h);
    case OpFreePiece(h, n) => PieceLayout(cfg, s, h, n); if LaidOut(cfg, s) { PieceKeepsLayoutIff(cfg, s, h, n); }
    case OpPush(d, n, g) => PushLayout(cfg, s, d, n, g);
    case OpPop(h) => PopLayout(cfg, s, h);
    case OpChop(h) => ChopLayout(cfg, s, h);
  }

  lemma InitLayout(cfg: Config, s: State, d: int, ns: int, nh: int, seg: nat)
    requires cfg.Valid() && Inv(cfg, s)
    ensures var s' := Init(cfg, s, d, ns, nh, seg).0; StayPut(s, s') && (LaidOut(cfg, s) ==> LaidOut(cfg, s'))
  {}

  lemma NumalignLayout(cfg: Config, s: State, v: int)
    requires cfg.Valid()
    ensures var s' := SetNumalign(s, v).0; StayPut(s, s') && (LaidOut(cfg, s) ==> LaidOut(cfg, s'))
  {}

  /** In a laid-out state no byte lies in the parts of two blocks. */
  lemma ClientSpacesDisjoint(cfg: Config, s: State, a: int, b: int)
    requires cfg.Valid() && Inv(cfg, s) && LaidOut(cfg, s) && a in s.desc && b in s.desc && a != b
    ensures var da, db := s.desc[a], s.desc[b];
      || da.client + da.nelem * cfg.size[da.dtype] + cfg.guardSize <= b
      || db.client + db.nelem * cfg.size[db.dtype] + cfg.guardSize <= a
  {
    assert a in s.size && b in s.size;
  }

  // ---------- runs ----------

  /** Every partial free of the run fits. */
  ghost predicate PiecesFit(cfg: Config, ops: seq<Op>)
    requires cfg.Valid()
  {
    forall i :: 0 <= i < |ops| ==> PieceOk(cfg, Run(cfg, ops[..i]), ops[i])
  }

  lemma PiecesFitPrefix(cfg: Config, ops: seq<Op>)
    requires cfg.Valid() && PiecesFit(cfg, ops) && ops != []
    ensures PiecesFit(cfg, ops[..|ops| - 1])
  {
    hide PieceOk, Run;
    var p := ops[..|ops| - 1];
    forall i | 0 <= i < |p|
      ensures PieceOk(cfg, Run(cfg, p[..i]), p[i])
    {
      assert p[..i] == ops[..i];
    }
  }

  /** Over any run whose partial frees fit, every block in use holds its AD, guards and
      client space, and these overlap no other block's. */
  lemma {:induction false} RunLaidOut(cfg: Config, ops: seq<Op>)
    requires cfg.Valid() && PiecesFit(cfg, ops)
    ensures LaidOut(cfg, Run(cfg, ops))
    ensures var s := Run(cfg, ops);
      forall a, b :: a in s.desc && b in s.desc && a < b ==>
        s.desc[a].client + s.desc[a].nelem * cfg.size[s.desc[a].dtype] + cfg.guardSize <= b < s.desc[b].client
  {
    if ops != [] {
      var n := |ops| - 1;
      PiecesFitPrefix(cfg, ops);
      assert PieceOk(cfg, Run(cfg, ops[..n]), ops[n]);
      hide PieceOk, PiecesFit, Inv, LaidOut, Apply;
      RunLaidOut(cfg, ops[..n]);
      LayoutKeeps(cfg, Run(cfg, ops[..n]), ops[n]);
    }
    LaidOutApart(cfg, Run(cfg, ops));
  }

  /** Blocks laid out one by one share nothing. */
  lemma LaidOutApart(cfg: Config, s: State)
    requires cfg.Valid() && Inv(cfg, s) && LaidOut(cfg, s)
    ensures forall a, b :: a in s.desc && b in s.desc && a < b ==>
      s.desc[a].client + s.desc[a].nelem * cfg.size[s.desc[a].dtype] + cfg.guardSize <= b < s.desc[b].client
  {
    hide HeapChain, StackChain, UsedList, FreeList, Coalesced, HandlesSound;
    assert Apart(s) && forall a :: a in s.desc ==> a in s.size;
  }

  /** Every element size is a power of two. */
  ghost predicate PowerSizes(cfg: Config)
    requires cfg.Valid()
  {
    forall t :: 0 <= t < MT_NUMTYPES ==> exists k: nat :: cfg.size[t] == Pow2(k)
  }

  /** MA_set_numalign only ever raises the request. */
  ghost predicate NeverLowered(cfg: Config, ops: seq<Op>)
    requires cfg.Valid()
  {
    forall i :: 0 <= i < |ops| && ops[i].OpNumalign? && 0 <= ops[i].value <= 30 ==>
      Run(cfg, ops[..i]).numalign <= ops[i].value
  }

  /** No heap client space lies above where it would be put now. */
  ghost predicate NotAbove(cfg: Config, s: State)
    requires cfg.Valid()
  {
    forall a :: s.UsedAt(a) ==> s.desc[a].client <= ClientAfter(cfg, s.numalign, s.desc[a].dtype, a)
  }

  lemma NotAboveKeeps(cfg: Config, s: State, op: Op)
    requires cfg.Valid() && Inv(cfg, s) && PowerSizes(cfg) && NotAbove(cfg, s)
    requires op.OpNumalign? && 0 <= op.value <= 30 ==> s.numalign <= op.value
    ensures NotAbove(cfg, Apply(cfg, s, op))
  {
    var s' := Apply(cfg, s, op);
    if op.OpNumalign? {
      hide Inv;
      if 0 <= op.value <= 30 {
        forall a | s'.UsedAt(a)
          ensures s'.desc[a].client <= ClientAfter(cfg, s'.numalign, s'.desc[a].dtype, a)
        {
          assert s.UsedAt(a);
          var k: nat :| cfg.size[s.desc[a].dtype] == Pow2(k);
          ClientMonotoneInNumalign(cfg, s.numalign, op.value, s.desc[a].dtype, k, a);
        }
      }
    } else {
      NotAboveSame(cfg, s, op);
    }
  }

  /** A call moves ma_hp or ma_sp, not both, unless it is MA_init. */
  lemma OnePointerMoves(cfg: Config, s: State, op: Op)
    requires cfg.Valid() && Inv(cfg, s)
    ensures var s' := Apply(cfg, s, op); s'.sp == s.sp || s'.hp == s.hp || s'.desc == map[]
    ensures !op.OpNumalign? ==> Apply(cfg, s, op).numalign == s.numalign
  {
    hide Blocks, FreeList, HeapChain, StackChain, Coalesced, Reclaim;
    match op
    case OpFree(h) => FreeHeapKeepsTiling(cfg.Overhead(), s, h);
    case OpFreePiece(h, n) =>
      if HeapHandle(s, h) && n >= 0 {
        var a := T.Lookup(s.table, h);
        assert s.UsedAt(a);
        if n >= s.desc[a].nelem {
          FreeHeapKeepsTiling(cfg.Overhead(), s, h);
        } else {
          NeedBounds(cfg, s, a, s.desc[a].nelem - n);
          ShrinkKeepsTiling(cfg.Overhead(), cfg.MinBlock(), s, a, NeedOf(cfg, s, a, s.desc[a].nelem - n));
        }
      }
    case _ =>
  }

  lemma HeapStaysHeap(cfg: Config, s: State, s': State, a: int)
    requires cfg.Valid() && Inv(cfg, s) && Inv(cfg, s') && s'.UsedAt(a) && a in s.desc
    requires s'.sp == s.sp || s'.hp == s.hp
    ensures s.UsedAt(a)
  {
    SizedAboveHeap(s);
    assert a in s.size;
  }

  /** Blocks in use after a call were in use before, or were just allocated on the heap at
      their recomputed place, or were pushed. */
  lemma NewHeapBlock(cfg: Config, s: State, op: Op, a: int)
    requires cfg.Valid() && Inv(cfg, s) && !op.OpNumalign?
    requires var s' := Apply(cfg, s, op); s'.UsedAt(a) && a !in s.desc
    ensures var s' := Apply(cfg, s, op); s'.desc[a].client == ClientAfter(cfg, s.numalign, s'.desc[a].dtype, a)
  {
    hide Blocks, FreeList, HeapChain, StackChain, Coalesced, Reclaim, FindSpace;
    match op
    case OpAllocate(d, n, g) =>
      assert s.ready && ValidType(d) && n >= 0 && FindSpace(cfg, s, d - MT_BASE, n).Space?;
      AllocateSurvivors(cfg, s, d - MT_BASE, n, g);
    case OpFree(h) => FreeSurvivors(cfg, s, h);
    case OpFreePiece(h, n) =>
      if HeapHandle(s, h) && n >= 0 {
        UsedHasDesc(cfg, s, T.Lookup(s.table, h));
        if n >= s.desc[T.Lookup(s.table, h)].nelem { FreeSurvivors(cfg, s, h); } else { PieceSurvivors(cfg, s, h, n); }
      }
    case OpPush(d, n, g) => PushedAboveHeap(cfg, s, d, n, g);
    case _ =>
  }

  lemma PushedAboveHeap(cfg: Config, s: State, d: int, n: int, g: bool)
    requires cfg.Valid() && Inv(cfg, s)
    ensures var s' := PushStack(cfg, s, d, n, g).0; forall a :: s'.UsedAt(a) ==> a in s.desc
  {
    hide Tiled;
    if s.ready && ValidType(d) && n >= 0 && BallocBefore(cfg, s.numalign, d - MT_BASE, n, s.sp).nbytes <= s.sp - s.hp {
      PushedKeeps(cfg, s, d - MT_BASE, n, g);
    }
  }

  lemma NotAboveSame(cfg: Config, s: State, op: Op)
    requires cfg.Valid() && Inv(cfg, s) && NotAbove(cfg, s) && !op.OpNumalign?
    ensures NotAbove(cfg, Apply(cfg, s, op))
  {
    var s' := Apply(cfg, s, op);
    ApplyKeeps(cfg, s, op);
    LayoutKeeps(cfg, s, op);
    OnePointerMoves(cfg, s, op);
    hide Inv, Apply;
    forall a | s'.UsedAt(a)
      ensures s'.desc[a].client <= ClientAfter(cfg, s'.numalign, s'.desc[a].dtype, a)
    {
      if a in s.desc { HeapStaysHeap(cfg, s, s', a); } else { NewHeapBlock(cfg, s, op, a); }
    }
  }

  /** With power-of-two element sizes and a request that is never lowered, every partial
      free fits, so every reachable state is laid out. */
  lemma {:induction false} RunLaidOutIfNeverLowered(cfg: Config, ops: seq<Op>)
    requires cfg.Valid() && PowerSizes(cfg) && NeverLowered(cfg, ops)
    ensures NotAbove(cfg, Run(cfg, ops)) && LaidOut(cfg, Run(cfg, ops))
  {
    if ops != [] {
      var n := |ops| - 1;
      hide Inv, PieceFits, LaidOut, NotAbove, Apply, StayPut;
      NeverLoweredPrefix(cfg, ops, n);
      RunLaidOutIfNeverLowered(cfg, ops[..n]);
      var s := Run(cfg, ops[..n]);
      if ops[n].OpFreePiece? { NotAboveFits(cfg, s, ops[n].h, ops[n].n); }
      LayoutKeeps(cfg, s, ops[n]);
      NotAboveKeeps(cfg, s, ops[n]);
    }
  }

  /** ... and so every partial free of such a run does fit. */
  lemma NeverLoweredFits(cfg: Config, ops: seq<Op>)
    requires cfg.Valid() && PowerSizes(cfg) && NeverLowered(cfg, ops)
    ensures PiecesFit(cfg, ops)
  {
    forall i | 0 <= i < |ops|
      ensures PieceOk(cfg, Run(cfg, ops[..i]), ops[i])
    {
      NeverLoweredPrefix(cfg, ops, i);
      RunLaidOutIfNeverLowered(cfg, ops[..i]);
      var s := Run(cfg, ops[..i]);
      hide Inv, Run, NeverLowered, PieceFits, LaidOut;
      if ops[i].OpFreePiece? { NotAboveFits(cfg, s, ops[i].h, ops[i].n); }
    }
  }

  lemma NeverLoweredPrefix(cfg: Config, ops: seq<Op>, i: nat)
    requires cfg.Valid() && NeverLowered(cfg, ops) && i <= |ops|
    ensures NeverLowered(cfg, ops[..i])
  {
    hide Run;
    assert forall k :: 0 <= k <= i ==> ops[..i][..k] == ops[..k];
  }

  lemma NotAboveFits(cfg: Config, s: State, h: int, n: int)
    requires cfg.Valid() && Inv(cfg, s) && NotAbove(cfg, s)
    ensures PieceFits(cfg, s, h, n)
  {
    if HeapHandle(s, h) { assert s.UsedAt(T.Lookup(s.table, h)); }
    hide ClientAfter;
    PieceFitsWhenNotAbove(cfg, s, h, n);
  }
}
