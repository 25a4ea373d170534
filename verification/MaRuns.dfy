/** The MA allocator over every run on values: any sequence of calls, accepted or rejected, from
    the state before MA_init. Lengths and lists are taken as each call leaves them before it writes
    guards; MaPieces and MaSafety say when the guards leave them alone. */
module MaRuns {
  import opened Arith
  import opened MaLayout
  import opened Lists
  import opened MaState
  import opened MaTiling
  import opened MaHandles
  import T = MaTable

  /** One call. `segment` and `growOk` are the answers of the system allocator. */
  datatype Op =
    | OpInit(d: int, nominalStack: int, nominalHeap: int, segment: nat)
    | OpNumalign(value: int)
    | OpAllocate(d: int, n: int, growOk: bool)
    | OpFree(h: int)
    | OpFreePiece(h: int, n: int)
    | OpPush(d: int, n: int, growOk: bool)
    | OpPop(h: int)
    | OpChop(h: int)

  /** What holds in every reachable state. */
  ghost predicate Inv(cfg: Config, s: State)
    requires cfg.Valid()
  {
    && Tiled(cfg.Overhead(), s) && HandlesSound(s)
    && (if s.ready then s.segment > 0 else s.size == map[])
  }

  function Apply(cfg: Config, s: State, op: Op): State
    requires cfg.Valid() && Inv(cfg, s)
  {
    match op
    case OpInit(d, ns, nh, seg) => Init(cfg, s, d, ns, nh, seg).0
    case OpNumalign(v) => SetNumalign(s, v).0
    case OpAllocate(d, n, g) => AllocateHeap(cfg, s, d, n, g).0
    case OpFree(h) => FreeHeap(s, h).0
    case OpFreePiece(h, n) => FreePiece(cfg, s, h, n).0
    case OpPush(d, n, g) => PushStack(cfg, s, d, n, g).0
    case OpPop(h) => PopStack(s, h).0
    case OpChop(h) => ChopStack(s, h).0
  }

  /** The handle table, if it had to grow in this call, did. */
  predicate GrewIn(op: Op) {
    match op
    case OpAllocate(_, _, growOk) => growOk
    case OpPush(_, _, growOk) => growOk
    case _ => true
  }

  predicate AlwaysGrew(ops: seq<Op>) {
    forall i :: 0 <= i < |ops| ==> GrewIn(ops[i])
  }

  // ---------- one lemma per call: the invariant ----------

  /** Before MA_init no handle is live, so only MA_init and MA_set_numalign do anything. */
  lemma NothingBeforeInit(cfg: Config, s: State, h: int)
    requires cfg.Valid() && Inv(cfg, s) && !s.ready
    ensures !T.Live(s.table, h)
  {
    assert T.Live(s.table, h) ==> T.Lookup(s.table, h) in s.desc;
    assert forall a :: a in s.desc ==> a in s.size;
  }

  lemma InitKeeps(cfg: Config, s: State, d: int, ns: int, nh: int, seg: nat)
    requires cfg.Valid() && Inv(cfg, s)
    ensures Inv(cfg, Init(cfg, s, d, ns, nh, seg).0)
    ensures HandlesComplete(s) ==> HandlesComplete(Init(cfg, s, d, ns, nh, seg).0)
  {
    if !s.ready && ValidType(d) && seg != 0 {
      var t := d - MT_BASE;
      RegionNonneg(cfg, t, nh, DEFAULT_TOTAL_HEAP);
      RegionNonneg(cfg, t, ns, DEFAULT_TOTAL_STACK);
    }
  }

  lemma RegionNonneg(cfg: Config, t: TypeIndex, nominal: int, default: nat)
    requires cfg.Valid()
    ensures RegionBytes(cfg, t, nominal, default) >= 0
    ensures nominal >= 0 ==> RegionBytes(cfg, t, nominal, default) >= nominal * cfg.size[t] + cfg.MaxOverhead(t)
  {
    var v := if nominal < 0 then default else nominal * cfg.size[t] + cfg.MaxOverhead(t);
    if nominal >= 0 { LengthNonneg(nominal, cfg.size[t]); }
    RoundIsRoundUp(cfg, v);
    RoundUpIsLeast(v, cfg.Alignment());
  }

  lemma AllocateKeeps(cfg: Config, s: State, d: int, n: int, growOk: bool)
    requires cfg.Valid() && Inv(cfg, s)
    ensures Inv(cfg, AllocateHeap(cfg, s, d, n, growOk).0)
    ensures growOk && HandlesComplete(s) ==> HandlesComplete(AllocateHeap(cfg, s, d, n, growOk).0)
  {
    hide Tiled;
    AllocateKeepsTiling(cfg, s, d, n, growOk);
    var r := AllocateHeap(cfg, s, d, n, growOk).0;
    if s.ready && ValidType(d) && n >= 0 && FindSpace(cfg, s, d - MT_BASE, n).Space? {
      SpaceIsNew(cfg, s, d - MT_BASE, n);
      StoreSound(s, r, FindSpace(cfg, s, d - MT_BASE, n).address, growOk);
    }
  }

  /** A new block's address is not in use, and finding space disturbs no descriptor. */
  lemma SpaceIsNew(cfg: Config, s: State, t: TypeIndex, n: nat)
    requires cfg.Valid() && Tiled(cfg.Overhead(), s) && FindSpace(cfg, s, t, n).Space?
    ensures var f := FindSpace(cfg, s, t, n);
      && f.address !in s.desc && f.state.desc == s.desc && f.state.ready == s.ready && f.state.segment == s.segment
      && f.state.numalign == s.numalign && f.state.stack == s.stack
      && (forall x :: x in s.desc ==> f.state.Size(x) == s.Size(x))
  {
    var i := FindFit(cfg, s, t, n, 0);
    FindFitSpec(cfg, s, t, n, 0);
    SizedAboveHeap(s);
    if i < |s.free| {
      var a := s.free[i];
      assert a in s.free && s.FreeAt(a) && a in s.size;
      var r := BallocAfter(cfg, s.numalign, t, n, a);
      BallocAfterLayout(cfg, s.numalign, t, n, a);
      LengthNonneg(n, cfg.size[t]);
      MinBlockBounds(cfg);
      if s.Size(a) - r.nbytes >= cfg.MinBlock() {
        assert a + r.nbytes !in s.size;
      }
    } else {
      var r := BallocAfter(cfg, s.numalign, t, n, s.hp);
      BallocAfterLayout(cfg, s.numalign, t, n, s.hp);
      LengthNonneg(n, cfg.size[t]);
      assert s.hp !in s.size;
    }
  }

  lemma FreeKeeps(cfg: Config, s: State, h: int)
    requires cfg.Valid() && Inv(cfg, s)
    ensures Inv(cfg, FreeHeap(s, h).0)
    ensures HandlesComplete(s) ==> HandlesComplete(FreeHeap(s, h).0)
  {
    if !s.ready { NothingBeforeInit(cfg, s, h); }
    hide Tiled, Reclaim;
    FreeHeapKeepsTiling(cfg.Overhead(), s, h);
    if HeapHandle(s, h) { ReleaseSound(s, FreeHeap(s, h).0, h); }
  }

  lemma FreePieceKeeps(cfg: Config, s: State, h: int, n: int)
    requires cfg.Valid() && Inv(cfg, s)
    ensures Inv(cfg, FreePiece(cfg, s, h, n).0)
    ensures HandlesComplete(s) ==> HandlesComplete(FreePiece(cfg, s, h, n).0)
  {
    hide Blocks, Reclaim, FreeList, HeapChain, StackChain, Coalesced, NeedOf, HandlesComplete, HandlesSound;
    if !s.ready { NothingBeforeInit(cfg, s, h); }
    FreePieceKeepsTiling(cfg, s, h, n);
    var r := FreePiece(cfg, s, h, n).0;
    if HeapHandle(s, h) && n >= 0 {
      var a := T.Lookup(s.table, h);
      if n >= s.desc[a].nelem {
        FreeKeeps(cfg, s, h);
      } else {
        var keep := s.desc[a].nelem - n;
        NeedBounds(cfg, s, a, keep);
        assert s.UsedAt(a);
        ShrinkKeepsTiling(cfg.Overhead(), cfg.MinBlock(), s, a, NeedOf(cfg, s, a, keep));
        assert r.desc.Keys == s.desc.Keys;
        SameKeysSound(s, r);
      }
    }
  }

  lemma PushKeeps(cfg: Config, s: State, d: int, n: int, growOk: bool)
    requires cfg.Valid() && Inv(cfg, s)
    ensures Inv(cfg, PushStack(cfg, s, d, n, growOk).0)
    ensures growOk && HandlesComplete(s) ==> HandlesComplete(PushStack(cfg, s, d, n, growOk).0)
  {
    hide Inv, HandlesComplete, BallocBefore;
    if s.ready && ValidType(d) && n >= 0 {
      var t := d - MT_BASE;
      var r := BallocBefore(cfg, s.numalign, t, n, s.sp);
      if r.nbytes <= s.sp - s.hp {
        PushedKeeps(cfg, s, t, n, growOk);
      }
    }
  }

  lemma PushedKeeps(cfg: Config, s: State, t: TypeIndex, n: nat, growOk: bool)
    requires cfg.Valid() && Inv(cfg, s) && s.ready
    requires BallocBefore(cfg, s.numalign, t, n, s.sp).nbytes <= s.sp - s.hp
    ensures Inv(cfg, PushStack(cfg, s, t + MT_BASE, n, growOk).0)
    ensures growOk && HandlesComplete(s) ==> HandlesComplete(PushStack(cfg, s, t + MT_BASE, n, growOk).0)
    ensures var a := s.sp - BallocBefore(cfg, s.numalign, t, n, s.sp).nbytes; a !in s.size && a !in s.desc && a >= s.hp
  {
    hide HeapChain, UsedList, FreeList, Coalesced;
    var r := BallocBefore(cfg, s.numalign, t, n, s.sp);
    BallocBeforeLayout(cfg, s.numalign, t, n, s.sp);
    LengthNonneg(n, cfg.size[t]);
    var a := s.sp - r.nbytes;
    var p := Pushed(s, r.nbytes, Desc(r.client, t, n));
    SizedAboveHeap(s);
    PushedBlocks(cfg.Overhead(), s, p, r.nbytes, Desc(r.client, t, n));
    PushKeepsTiling(cfg.Overhead(), s, r.nbytes, Desc(r.client, t, n));
    var s' := PushStack(cfg, s, t + MT_BASE, n, growOk).0;
    assert s' == p.(table := T.Allocate(s.table, a, growOk).0);
    TableIrrelevant(cfg.Overhead(), p, s'.table, p.desc);
    StoreSound(s, s', a, growOk);
  }

  /** Popping to the i-th stack block, as PoppedTo describes it. */
  lemma PopIsPoppedTo(o: int, s: State, h: int)
    requires Tiled(o, s) && StackHandle(s, h) && T.Lookup(s.table, h) == s.sp
    ensures |s.stack| > 0 && s.stack[0] == s.sp && PoppedTo(s, PopStack(s, h).0, 0)
  {
    var k :| 0 <= k < |s.stack| && s.stack[k] == s.sp;
    assert s.stack[0] == s.sp;
    assert s.sp in s.desc;
    assert forall x :: x in s.stack[1..] ==> x != s.sp;
    assert forall x :: x in s.stack <==> x == s.sp || x in s.stack[1..];
  }

  lemma ChopIsPoppedTo(o: int, s: State, h: int, i: nat)
    requires Tiled(o, s) && StackHandle(s, h) && i < |s.stack| && T.Lookup(s.table, h) == s.stack[i]
    ensures PoppedTo(s, ChopStack(s, h).0, i)
    ensures forall x :: x in ChopStack(s, h).0.desc <==> x in s.desc && !(x in s.stack && x <= s.stack[i])
  {
    var r := ChopStack(s, h).0;
    SizedAboveHeap(s);
    AboveIsSuffix(s.stack, i);
    AboveSpec(s.stack, s.stack[i]);
    forall x | x in s.stack
      ensures x >= s.hp && x in s.desc
    {
      var k :| 0 <= k < |s.stack| && s.stack[k] == x;
    }
  }

  lemma PopKeeps(cfg: Config, s: State, h: int)
    requires cfg.Valid() && Inv(cfg, s)
    ensures Inv(cfg, PopStack(s, h).0)
    ensures HandlesComplete(s) ==> HandlesComplete(PopStack(s, h).0)
  {
    if !s.ready { NothingBeforeInit(cfg, s, h); }
    if StackHandle(s, h) && T.Lookup(s.table, h) == s.sp {
      PopIsPoppedTo(cfg.Overhead(), s, h);
      hide Tiled, PoppedTo;
      PopToKeepsTiling(cfg.Overhead(), s, PopStack(s, h).0, 0);
      ReleaseSound(s, PopStack(s, h).0, h);
    }
  }

  lemma ChopKeeps(cfg: Config, s: State, h: int)
    requires cfg.Valid() && Inv(cfg, s)
    ensures Inv(cfg, ChopStack(s, h).0)
    ensures HandlesComplete(s) ==> HandlesComplete(ChopStack(s, h).0)
  {
    if !s.ready { NothingBeforeInit(cfg, s, h); }
    if StackHandle(s, h) {
      var a := T.Lookup(s.table, h);
      var i :| 0 <= i < |s.stack| && s.stack[i] == a;
      ChopIsPoppedTo(cfg.Overhead(), s, h, i);
      hide Tiled, PoppedTo;
      PopToKeepsTiling(cfg.Overhead(), s, ChopStack(s, h).0, i);
      ChopSound(s, ChopStack(s, h).0, a);
    }
  }

  lemma ApplyKeeps(cfg: Config, s: State, op: Op)
    requires cfg.Valid() && Inv(cfg, s)
    ensures Inv(cfg, Apply(cfg, s, op))
    ensures HandlesComplete(s) && GrewIn(op) ==> HandlesComplete(Apply(cfg, s, op))
  {
    hide Inv, HandlesComplete, Init, AllocateHeap, FreeHeap, FreePiece, PushStack, PopStack, ChopStack;
    match op
    case OpInit(d, ns, nh, seg) => InitKeeps(cfg, s, d, ns, nh, seg);
    case OpNumalign(v) => NumalignKeeps(cfg, s, v);
    case OpAllocate(d, n, g) => AllocateKeeps(cfg, s, d, n, g);
    case OpFree(h) => FreeKeeps(cfg, s, h);
    case OpFreePiece(h, n) => FreePieceKeeps(cfg, s, h, n);
    case OpPush(d, n, g) => PushKeeps(cfg, s, d, n, g);
    case OpPop(h) => PopKeeps(cfg, s, h);
    case OpChop(h) => ChopKeeps(cfg, s, h);
  }

  lemma NumalignKeeps(cfg: Config, s: State, v: int)
    requires cfg.Valid() && Inv(cfg, s)
    ensures Inv(cfg, SetNumalign(s, v).0)
    ensures HandlesComplete(s) ==> HandlesComplete(SetNumalign(s, v).0)
  {
    SameBlocksKept(cfg.Overhead(), s, SetNumalign(s, v).0);
  }

  /** The state after any sequence of calls. */
  function Run(cfg: Config, ops: seq<Op>): (s: State)
    requires cfg.Valid()
    ensures Inv(cfg, s)
  {
    if ops == [] then InitialInv(cfg); INITIAL
    else
      var n := |ops| - 1;
      ApplyKeeps(cfg, Run(cfg, ops[..n]), ops[n]);
      Apply(cfg, Run(cfg, ops[..n]), ops[n])
  }

  lemma RunStep(cfg: Config, ops: seq<Op>, k: nat)
    requires cfg.Valid() && k < |ops|
    ensures Run(cfg, ops[..k + 1]) == Apply(cfg, Run(cfg, ops[..k]), ops[k])
  {
    hide Inv;
    assert ops[..k + 1][..k] == ops[..k];
  }

  lemma InitialInv(cfg: Config)
    requires cfg.Valid()
    ensures Inv(cfg, INITIAL)
  {}

  // ---------- ownership of bytes ----------

  /** Block a covers byte x. */
  predicate Owns(s: State, a: int, x: int) {
    a in s.size && a <= x < s.End(a)
  }

  lemma {:induction false} HeapOwner(o: int, s: State, a: int, x: int) returns (b: int)
    requires Tiled(o, s) && s.HeapAt(a) && a <= x < s.hp
    ensures s.HeapAt(b) && Owns(s, b, x)
    decreases s.hp - a
  {
    if x < s.End(a) {
      b := a;
    } else {
      assert s.HeapAt(s.End(a));
      b := HeapOwner(o, s, s.End(a), x);
    }
  }

  lemma {:induction false} StackOwner(o: int, s: State, i: nat, x: int) returns (b: int)
    requires Tiled(o, s) && i < |s.stack| && s.stack[i] <= x < s.eos
    ensures b in s.stack && Owns(s, b, x)
    decreases |s.stack| - i
  {
    assert s.stack[i] in s.desc && s.End(s.stack[i]) == Start(s.stack, i + 1, s.eos);
    if x < s.End(s.stack[i]) {
      b := s.stack[i];
    } else {
      b := StackOwner(o, s, i + 1, x);
    }
  }

  /** On values every byte of the heap region belongs to exactly one heap block, every byte of the stack
      region to exactly one stack block, and no byte between ma_hp and ma_sp to any block. */
  lemma OwnedOnValues(cfg: Config, ops: seq<Op>, x: int)
    requires cfg.Valid()
    ensures var s := Run(cfg, ops);
      && (s.segment <= x < s.hp <==> exists a :: s.HeapAt(a) && Owns(s, a, x))
      && (s.sp <= x < s.eos <==> exists a :: a in s.stack && Owns(s, a, x))
      && (forall a, b :: Owns(s, a, x) && Owns(s, b, x) ==> a == b)
      && s.segment <= s.hp <= s.sp <= s.eos
  {
    hide Tiled;
    OwnedOnce(cfg.Overhead(), Run(cfg, ops), x);
  }

  lemma OwnedOnce(o: int, s: State, x: int)
    requires Tiled(o, s)
    ensures s.segment <= x < s.hp <==> exists a :: s.HeapAt(a) && Owns(s, a, x)
    ensures s.sp <= x < s.eos <==> exists a :: a in s.stack && Owns(s, a, x)
    ensures forall a, b :: Owns(s, a, x) && Owns(s, b, x) ==> a == b
    ensures s.segment <= s.hp <= s.sp <= s.eos
  {
    if s.segment <= x < s.hp { var a := HeapOwner(o, s, s.segment, x); }
    if s.sp <= x < s.eos { var a := StackOwner(o, s, 0, x); }
    hide HeapChain, UsedList, FreeList, Coalesced;
    forall a | a in s.stack && Owns(s, a, x)
      ensures s.sp <= x < s.eos
    {
      StackRange(o, s, a, x);
    }
    hide StackChain;
  }

  lemma StackRange(o: int, s: State, a: int, x: int)
    requires Tiled(o, s) && a in s.stack && Owns(s, a, x)
    ensures s.sp <= x < s.eos
  {
    var i :| 0 <= i < |s.stack| && s.stack[i] == a;
    StackOrder(o, s, i);
  }

  lemma FreeEndsInUse(o: int, s: State, i: nat)
    requires Tiled(o, s) && i < |s.free|
    ensures s.UsedAt(s.End(s.free[i])) && s.free[i] in s.size
  {
    assert s.free[i] in s.free;
    FreeIsHeap(s, s.free[i]);
  }

  /** On values the free list ascends, and each free block is followed by a block in use: so no free block
      touches the next, and the rightmost heap block is in use. */
  lemma FreeListOnValues(cfg: Config, ops: seq<Op>, i: nat)
    requires cfg.Valid() && i < |Run(cfg, ops).free|
    ensures var s := Run(cfg, ops);
      && s.UsedAt(s.End(s.free[i]))
      && forall j :: i < j < |s.free| ==> s.End(s.free[i]) < s.free[j]
  {
    var s := Run(cfg, ops);
    hide Tiled;
    FreeEndsInUse(cfg.Overhead(), s, i);
    forall j | i < j < |s.free|
      ensures s.End(s.free[i]) < s.free[j]
    {
      FreeGap(cfg.Overhead(), s, i, j);
    }
  }

  lemma FreeGap(o: int, s: State, i: nat, j: nat)
    requires Tiled(o, s) && i < j < |s.free|
    ensures s.End(s.free[i]) < s.free[j]
  {
    hide HeapChain, StackChain, Coalesced;
    FreeEndsInUse(o, s, i);
    FreeEndsInUse(o, s, j);
    assert s.free[j] in s.free;
  }

  // ---------- handles ----------

  /** On values, as long as the handle table could always grow, every block in use has exactly one
      live handle, every live handle names a block in use, and inverse lookup returns it. */
  lemma {:induction false} HandlesOnValues(cfg: Config, ops: seq<Op>)
    requires cfg.Valid() && AlwaysGrew(ops)
    ensures var s := Run(cfg, ops);
      && HandlesComplete(s)
      && (forall a :: a in s.desc <==> HasHandle(s.table, a))
      && (forall h :: T.Live(s.table, h) ==> T.LookupAssoc(s.table, T.Lookup(s.table, h)) == h)
  {
    if ops != [] {
      var n := |ops| - 1;
      HandlesOnValues(cfg, ops[..n]);
      ApplyKeeps(cfg, Run(cfg, ops[..n]), ops[n]);
    }
    var s := Run(cfg, ops);
    forall h | T.Live(s.table, h)
      ensures T.LookupAssoc(s.table, T.Lookup(s.table, h)) == h
    {
      T.AssocUndoesLookup(s.table, h);
    }
  }
}
