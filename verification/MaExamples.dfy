/** Runs of MA that show where it does less than its comments say. */
module MaExamples {
  import opened Arith
  import opened MaLayout
  import opened Lists
  import opened MaState
  import opened MaTiling
  import opened MaRuns
  import opened MaClients
  import opened MaInquire
  import opened MaMemory
  import opened MaPieces
  import T = MaTable

  /** A 64-bit machine: 80-byte ADs, 4-byte guards, ALIGNMENT 8, every element a double. */
  const DOUBLES := Config(80, 4, 3, 64, seq(MT_NUMTYPES, _ => 0), seq(MT_NUMTYPES, _ => 8))

  /** MA_init of 1011 doubles for heap and stack each, 20 doubles allocated on a 2^10 boundary, and the
      request dropped to 0 ... */
  const LOWERING := [OpInit(1000, 1011, 1011, 4096), OpNumalign(10), OpAllocate(1000, 20, true), OpNumalign(0)]

  /** ... after which 10 of the 20 are freed. */
  const PIECE := OpFreePiece(0, 10)

  /** MA_init of no heap and 100 doubles of stack, two allocations past the partition, the first freed. */
  const OVERGROWING := [OpInit(1000, 100, 0, 4096), OpAllocate(1000, 88, true), OpAllocate(1000, 12, true), OpFree(0)]

  // ---------- arithmetic of the configuration ----------

  lemma Doubles()
    ensures DOUBLES.Valid() && DOUBLES.Alignment() == 8 && DOUBLES.MaxOverhead(0) == 102
    ensures DOUBLES.size[0] == 8 && DOUBLES.base[0] == 0
  {
    assert Pow2(3) == 8;
  }

  lemma RoundOf(v: int, w: int)
    requires v <= w < v + 8 && w % 8 == 0
    ensures DOUBLES.Round(v) == w
  {
    Doubles();
    RoundIsLeast(DOUBLES, v);
    if DOUBLES.Round(v) < w { MultiplesApart(DOUBLES.Round(v), w, 8); }
  }

  /** Without a power-of-two request n doubles need 8 * n + 96 bytes. */
  lemma DoublesTrial(n: nat, a: int)
    requires a % 8 == 0
    ensures DOUBLES.Valid() && BallocAfter(DOUBLES, 0, 0, n, a) == Trial(a + 88, 8 * n + 96)
  {
    Doubles();
    FixedRemIsMod(-a - 84, 8);
    assert ClientAfter(DOUBLES, 0, 0, a) == a + 88;
    hide ClientAfter, FixedRem;
    assert a - (a + 88) - n * 8 - 4 == -92 - n * 8;
    FixedRemIsMod(-92 - n * 8, 8);
    assert (-92 - n * 8) % 8 == 4;
  }

  lemma AlignedTrial()
    ensures DOUBLES.Valid() && BallocAfter(DOUBLES, 10, 0, 20, 4096) == Trial(5120, 1192)
  {
    Doubles();
    FixedRemIsMod(-4180, 8);
    assert FirstClientAfter(DOUBLES, 0, 4096) == 4184;
    MaskIsMod(4184, 10);
    assert Pow2(10) == 1024 by { assert Pow2(5) == 32; }
    assert ShiftUp(4184, 10, 8) == 5120;
    hide FirstClientAfter, ShiftUp, AndLow, Pow2;
    FixedRemIsMod(-1188, 8);
  }

  // ---------- the handle table ----------

  lemma FirstHandle(x: int)
    ensures T.Allocate(T.EMPTY_TABLE, x, true) == (T.Table(T.Unuseds(32)[0 := T.Allocated(x)], 1, 1), 0)
  {
    var g := T.Grown(T.EMPTY_TABLE);
    assert g.slots == T.Unuseds(32);
    assert g == T.Table(T.Unuseds(32), 0, 0);
    assert T.SearchFrom(g.slots, 0, 32) == 0;
  }

  lemma SecondHandle(x: int, y: int)
    ensures var t := T.Table(T.Unuseds(32)[0 := T.Allocated(x)], 1, 1);
      T.Ok(t) && T.Allocate(t, y, true) == (T.Table(t.slots[1 := T.Allocated(y)], 2, 2), 1)
  {
    FirstHandle(x);
    T.AllocateCorrect(T.EMPTY_TABLE, x, true);
  }

  // ---------- calls ----------

  lemma InitIs(stack: nat, heap: nat, h: int, k: int)
    requires DOUBLES.Valid() && DOUBLES.Round(8 * heap + 102) == h && DOUBLES.Round(8 * stack + 102) == k
    ensures Run(DOUBLES, [OpInit(1000, stack, heap, 4096)]) ==
      State(true, 4096, 4096 + h, 4096 + h + k, 4096, 4096 + h + k, [], [], [], map[], map[], 0, T.EMPTY_TABLE)
  {
    InitFrom(stack, heap, h, k);
    hide Inv, Init;
    var op := OpInit(1000, stack, heap, 4096);
    assert [op][..0] == [];
  }

  lemma InitFrom(stack: nat, heap: nat, h: int, k: int)
    requires DOUBLES.Valid() && DOUBLES.Round(8 * heap + 102) == h && DOUBLES.Round(8 * stack + 102) == k
    ensures Init(DOUBLES, INITIAL, 1000, stack, heap, 4096).0 ==
      State(true, 4096, 4096 + h, 4096 + h + k, 4096, 4096 + h + k, [], [], [], map[], map[], 0, T.EMPTY_TABLE)
  {
    Doubles();
    assert RegionBytes(DOUBLES, 0, heap, DEFAULT_TOTAL_HEAP) == h;
    assert RegionBytes(DOUBLES, 0, stack, DEFAULT_TOTAL_STACK) == k;
    hide RegionBytes;
  }

  /** With nothing free a block is added at ma_hp. */
  lemma AllocateIs(s: State, n: nat, r: Trial)
    requires DOUBLES.Valid() && T.Ok(s.table) && s.ready && s.free == []
    requires BallocAfter(DOUBLES, s.numalign, 0, n, s.hp) == r && s.hp + r.nbytes <= s.sp
    ensures AllocateHeap(DOUBLES, s, 1000, n, true).0 == s.(hp := s.hp + r.nbytes, used := [s.hp] + s.used,
      size := s.size[s.hp := r.nbytes], desc := s.desc[s.hp := Desc(r.client, 0, n)],
      table := T.Allocate(s.table, s.hp, true).0)
  {
    hide BallocAfter, T.Allocate;
  }

  // ---------- a partial free after the request is lowered ----------

  lemma LoweringStart()
    ensures DOUBLES.Valid()
    ensures Run(DOUBLES, LOWERING[..2]) == State(true, 4096, 12288, 20480, 4096, 20480, [], [], [], map[], map[], 10, T.EMPTY_TABLE)
  {
    Doubles();
    RoundOf(8190, 8192);
    InitIs(1011, 1011, 8192, 8192);
    hide Inv, Init;
    assert LOWERING[..1] == [OpInit(1000, 1011, 1011, 4096)];
    RunStep(DOUBLES, LOWERING, 1);
  }

  lemma LoweringAllocates()
    ensures DOUBLES.Valid() && var s := Run(DOUBLES, LOWERING);
      && s.numalign == 0 && HeapHandle(s, 0) && T.Lookup(s.table, 0) == 4096
      && s.desc == map[4096 := Desc(5120, 0, 20)] && s.Size(4096) == 1192
  {
    LoweringStart();
    AlignedTrial();
    FirstHandle(4096);
    hide Inv, BallocAfter, AllocateHeap, T.Allocate;
    var s := Run(DOUBLES, LOWERING[..2]);
    AllocateIs(s, 20, Trial(5120, 1192));
    RunStep(DOUBLES, LOWERING, 2);
    RunStep(DOUBLES, LOWERING, 3);
    assert LOWERING[..4] == LOWERING;
  }

  lemma InvHasLists(cfg: Config, s: State)
    requires cfg.Valid() && Inv(cfg, s)
    ensures UsedList(s) && T.Ok(s.table)
  {}

  lemma LoweredPiece(s: State)
    requires DOUBLES.Valid() && UsedList(s) && s.numalign == 0 && HeapHandle(s, 0) && T.Lookup(s.table, 0) == 4096
    requires s.desc == map[4096 := Desc(5120, 0, 20)] && s.Size(4096) == 1192
    ensures LaidOut(DOUBLES, s) && !PieceFits(DOUBLES, s, 0, 10)
  {
    Doubles();
    DoublesTrial(10, 4096);
    RoundOf(96, 96);
    hide BallocAfter, UsedList;
  }

  /** The run up to the partial free leaves every client space in its block; the partial free leaves
      the one block's client space beyond its end. */
  lemma LoweringBreaksLayout()
    ensures DOUBLES.Valid() && LaidOut(DOUBLES, Run(DOUBLES, LOWERING))
    ensures !LaidOut(DOUBLES, Run(DOUBLES, LOWERING + [PIECE]))
  {
    LoweringAllocates();
    hide Inv, BallocAfter, LaidOut, FreePiece, PieceFits, HeapHandle, T.Lookup;
    var s := Run(DOUBLES, LOWERING);
    InvHasLists(DOUBLES, s);
    LoweredPiece(s);
    PieceKeepsLayoutIff(DOUBLES, s, 0, 10);
    RunStep(DOUBLES, LOWERING + [PIECE], 4);
    assert (LOWERING + [PIECE])[..4] == LOWERING;
    assert (LOWERING + [PIECE])[..5] == LOWERING + [PIECE];
  }

  // ---------- a guard on the piece just freed ----------

  /** A block of one double, one of 100 doubles on a 2^7 boundary, one of one double, and the request
      dropped to 0 ... */
  const HITTING := [OpInit(1000, 1011, 1011, 4096), OpAllocate(1000, 1, true), OpNumalign(7),
                    OpAllocate(1000, 100, true), OpAllocate(1000, 1, true), OpNumalign(0)]

  /** ... after which 50 of the 100 are freed. */
  const HALF := OpFreePiece(1, 50)

  /** Blocks of the addresses given have been allocated, the last at the head of the used list. */
  ghost predicate Grown(s: State, hp: int, used: seq<int>, numalign: nat) {
    s.ready && s.segment == 4096 && s.hp == hp && s.sp == 20480 && s.free == [] && s.used == used && s.numalign == numalign
  }

  lemma SecondTrial()
    ensures DOUBLES.Valid() && BallocAfter(DOUBLES, 7, 0, 100, 4200) == Trial(4352, 960)
  {
    Doubles();
    FixedRemIsMod(-4284, 8);
    assert FirstClientAfter(DOUBLES, 0, 4200) == 4288;
    MaskIsMod(4288, 7);
    assert Pow2(7) == 128;
    assert ShiftUp(4288, 7, 8) == 4352;
    hide FirstClientAfter, ShiftUp, AndLow, Pow2;
    FixedRemIsMod(-956, 8);
  }

  lemma ThirdTrial()
    ensures DOUBLES.Valid() && BallocAfter(DOUBLES, 7, 0, 1, 5160) == Trial(5248, 104)
  {
    Doubles();
    FixedRemIsMod(-5244, 8);
    assert FirstClientAfter(DOUBLES, 0, 5160) == 5248;
    MaskIsMod(5248, 7);
    assert Pow2(7) == 128;
    assert ShiftUp(5248, 7, 8) == 5248;
    hide FirstClientAfter, ShiftUp, AndLow, Pow2;
    FixedRemIsMod(-100, 8);
  }

  lemma HittingFirst()
    ensures DOUBLES.Valid() && var s := Run(DOUBLES, HITTING[..3]);
      && Grown(s, 4200, [4096], 7) && s.size == map[4096 := 104] && s.desc == map[4096 := Desc(4184, 0, 1)]
      && s.table == T.Table(T.Unuseds(32)[0 := T.Allocated(4096)], 1, 1)
  {
    Doubles();
    RoundOf(8190, 8192);
    InitIs(1011, 1011, 8192, 8192);
    assert HITTING[..1] == [OpInit(1000, 1011, 1011, 4096)];
    DoublesTrial(1, 4096);
    FirstHandle(4096);
    hide Inv, BallocAfter, AllocateHeap, T.Allocate, Apply;
    var s := Run(DOUBLES, HITTING[..1]);
    AllocateIs(s, 1, Trial(4184, 104));
    RunStep(DOUBLES, HITTING, 1);
    InvHasLists(DOUBLES, s);
    ApplyAllocate(s, 1);
    RunStep(DOUBLES, HITTING, 2);
    ApplyNumalign(Run(DOUBLES, HITTING[..2]), 7);
  }

  lemma HittingSecond()
    ensures DOUBLES.Valid() && var s := Run(DOUBLES, HITTING[..4]);
      && Grown(s, 5160, [4200, 4096], 7) && s.size == map[4096 := 104, 4200 := 960]
      && s.desc == map[4096 := Desc(4184, 0, 1), 4200 := Desc(4352, 0, 100)]
      && s.table == T.Table(T.Unuseds(32)[0 := T.Allocated(4096)][1 := T.Allocated(4200)], 2, 2)
  {
    HittingFirst();
    hide Inv, Apply;
    var s := Run(DOUBLES, HITTING[..3]);
    InvHasLists(DOUBLES, s);
    SecondTrial();
    SecondHandle(4096, 4200);
    hide BallocAfter, AllocateHeap, T.Allocate, T.Ok;
    AllocateIs(s, 100, Trial(4352, 960));
    RunStep(DOUBLES, HITTING, 3);
    ApplyAllocate(s, 100);
  }

  /** The state before the partial free. */
  ghost predicate Hit(s: State) {
    && Grown(s, 5264, [5160, 4200, 4096], 0) && HeapHandle(s, 1) && T.Lookup(s.table, 1) == 4200
    && s.size == map[4096 := 104, 4200 := 960, 5160 := 104]
    && s.desc == map[4096 := Desc(4184, 0, 1), 4200 := Desc(4352, 0, 100), 5160 := Desc(5248, 0, 1)]
  }

  lemma HittingThird()
    ensures DOUBLES.Valid() && Hit(Run(DOUBLES, HITTING))
  {
    HittingSecond();
    hide Inv, Apply;
    var s := Run(DOUBLES, HITTING[..4]);
    InvHasLists(DOUBLES, s);
    ThirdTrial();
    T.AllocateCorrect(s.table, 5160, true);
    assert T.Live(s.table, 1) && T.Lookup(s.table, 1) == 4200;
    hide BallocAfter, AllocateHeap, T.Allocate, T.Ok;
    AllocateIs(s, 1, Trial(5248, 104));
    RunStep(DOUBLES, HITTING, 4);
    ApplyAllocate(s, 1);
    RunStep(DOUBLES, HITTING, 5);
    assert HITTING[..6] == HITTING;
    ApplyNumalign(Run(DOUBLES, HITTING[..5]), 0);
  }

  lemma ApplyNumalign(s: State, v: int)
    requires DOUBLES.Valid() && Inv(DOUBLES, s)
    ensures Apply(DOUBLES, s, OpNumalign(v)) == SetNumalign(s, v).0
  {}

  lemma HitPiece(s: State)
    requires DOUBLES.Valid() && UsedList(s) && Hit(s)
    ensures !PieceFits(DOUBLES, s, 1, 50) && !PieceSpares(DOUBLES, s, 1, 50)
    ensures var f := FreePiece(DOUBLES, s, 1, 50).0;
      f.free == [4696] && 4696 in f.size && f.size[4696] == 464 && 4200 in f.desc && f.desc[4200] == Desc(4352, 0, 50)
  {
    Doubles();
    DoublesTrial(50, 4200);
    RoundOf(96, 96);
    hide BallocAfter, UsedList;
    assert UsedAbove(s, 4200) by { assert 5160 in s.used; }
    var u := SplitUsed(s, 4200, 496);
    assert MaxFrom(u.used, 0) == 5160 by {
      assert u.used[1..] == [4200, 4096] && u.used[1..][1..] == [4096] && u.used[1..][1..][1..] == [];
    }
    var t := Truncate(u, 5160);
    assert t.free == [] && Insert(t.free, 4696) == [4696];
    assert Reclaim(u, 4696) == t.(free := [4696]);
  }

  /** After this run the guard behind the 50 elements kept lies on the descriptor of the free block at 4696,
      56 bytes into it, where a 64-bit machine keeps the length: whatever memory was, it no longer holds the
      lengths of the state. */
  lemma GuardHitsPiece()
    ensures DOUBLES.Valid() && var s, f := Run(DOUBLES, HITTING), Run(DOUBLES, HITTING + [HALF]);
      && UsedList(s) && !PieceFits(DOUBLES, s, 1, 50) && !PieceSpares(DOUBLES, s, 1, 50)
      && f.free == [4696] && f.Size(4696) == 464 && 4200 in f.desc && Guard2At(DOUBLES, f.desc[4200]) == 4696 + 56
      && forall m :: !Sizes(PutGuard(DOUBLES, m, Guard2At(DOUBLES, f.desc[4200]), GUARD2), f)
  {
    HittingThird();
    hide Inv, FreePiece, PieceFits, PieceSpares, Hit, UsedList;
    var s := Run(DOUBLES, HITTING);
    InvHasLists(DOUBLES, s);
    HitPiece(s);
    RunStep(DOUBLES, HITTING + [HALF], 6);
    assert (HITTING + [HALF])[..6] == HITTING;
    assert (HITTING + [HALF])[..7] == HITTING + [HALF];
    Doubles();
    var f := FreePiece(DOUBLES, s, 1, 50).0;
    forall m
      ensures !Sizes(PutGuard(DOUBLES, m, 4752, GUARD2), f)
    {
      GuardDestroys(m, f);
    }
  }

  lemma GuardDestroys(m: Memory, f: State)
    requires 4696 in f.size
    ensures !Sizes(PutGuard(DOUBLES, m, 4752, GUARD2), f)
  {
    assert 4696 !in PutGuard(DOUBLES, m, 4752, GUARD2).ads;
  }

  // ---------- a free block that reaches past the partition ----------

  lemma OvergrowingStart()
    ensures DOUBLES.Valid()
    ensures Run(DOUBLES, OVERGROWING[..1]) == State(true, 4096, 4200, 5104, 4096, 5104, [], [], [], map[], map[], 0, T.EMPTY_TABLE)
  {
    Doubles();
    RoundOf(102, 104);
    RoundOf(902, 904);
    InitIs(100, 0, 104, 904);
    assert OVERGROWING[..1] == [OpInit(1000, 100, 0, 4096)];
  }

  /** The two blocks in use. */
  ghost predicate TwoBlocks(s: State) {
    && s.ready && s.segment == 4096 && s.partition == 4200 && s.hp == 5088 && s.sp == s.eos == 5104
    && s.free == [] && s.used == [4896, 4096] && s.stack == [] && s.numalign == 0
    && s.size == map[4096 := 800, 4896 := 192] && s.desc == map[4096 := Desc(4184, 0, 88), 4896 := Desc(4984, 0, 12)]
    && T.Live(s.table, 0) && T.Lookup(s.table, 0) == 4096
  }

  /** ... of which the first alone. */
  ghost predicate OneBlock(s: State) {
    && s.ready && s.segment == 4096 && s.partition == 4200 && s.hp == 4896 && s.sp == s.eos == 5104
    && s.free == [] && s.used == [4096] && s.stack == [] && s.numalign == 0
    && s.size == map[4096 := 800] && s.desc == map[4096 := Desc(4184, 0, 88)]
    && s.table == T.Table(T.Unuseds(32)[0 := T.Allocated(4096)], 1, 1)
  }

  lemma OvergrowingFirst()
    ensures DOUBLES.Valid() && OneBlock(Run(DOUBLES, OVERGROWING[..2]))
  {
    OvergrowingStart();
    hide Inv, Apply;
    var s := Run(DOUBLES, OVERGROWING[..1]);
    AllocateFirst(s);
    RunStep(DOUBLES, OVERGROWING, 1);
    ApplyAllocate(s, 88);
  }

  lemma OvergrowingAllocates()
    ensures DOUBLES.Valid() && TwoBlocks(Run(DOUBLES, OVERGROWING[..3]))
  {
    OvergrowingFirst();
    hide Inv, Apply;
    var s := Run(DOUBLES, OVERGROWING[..2]);
    InvHasLists(DOUBLES, s);
    AllocateSecond(s);
    RunStep(DOUBLES, OVERGROWING, 2);
    ApplyAllocate(s, 12);
  }

  lemma ApplyAllocate(s: State, n: nat)
    requires DOUBLES.Valid() && Inv(DOUBLES, s) && T.Ok(s.table)
    ensures Apply(DOUBLES, s, OpAllocate(1000, n, true)) == AllocateHeap(DOUBLES, s, 1000, n, true).0
  {}

  lemma AllocateFirst(s: State)
    requires DOUBLES.Valid() && s == State(true, 4096, 4200, 5104, 4096, 5104, [], [], [], map[], map[], 0, T.EMPTY_TABLE)
    ensures OneBlock(AllocateHeap(DOUBLES, s, 1000, 88, true).0)
  {
    DoublesTrial(88, 4096);
    FirstHandle(4096);
    hide BallocAfter, AllocateHeap, T.Allocate;
    AllocateIs(s, 88, Trial(4184, 800));
  }

  lemma AllocateSecond(s: State)
    requires DOUBLES.Valid() && OneBlock(s) && T.Ok(s.table)
    ensures TwoBlocks(AllocateHeap(DOUBLES, s, 1000, 12, true).0)
  {
    DoublesTrial(12, 4896);
    SecondHandle(4096, 4896);
    hide BallocAfter, AllocateHeap, T.Allocate, T.Ok;
    AllocateIs(s, 12, Trial(4984, 192));
  }

  /** The lower block has been freed. */
  ghost predicate LowerFreed(s: State) {
    && s.ready && s.partition == 4200 && s.hp == 5088 && s.sp == 5104
    && s.free == [4096] && s.Size(4096) == 800 && s.numalign == 0
  }

  lemma FreeLower(s: State)
    requires TwoBlocks(s)
    ensures LowerFreed(FreeHeap(s, 0).0)
  {
    var u := Unlist(s, 4096);
    assert Remove([4096], 4096) == [];
    assert u.used == [4896];
    assert MaxFrom(u.used, 0) == 4896;
    var t := Truncate(u, 4896);
    assert t.free == [] && t.hp == 5088 && t.Size(4096) == 800;
    assert Insert(t.free, 4096) == [4096];
    assert Reclaim(u, 4096) == t.(free := [4096]);
  }

  /** After this run the inquiry answers less than 10 although 10 doubles find space. */
  lemma NoPartitionNotLargest()
    ensures DOUBLES.Valid() && var s := Run(DOUBLES, OVERGROWING);
      InquireHeap(DOUBLES, s, NoPartition, 1000) < 10 && FindSpace(DOUBLES, s, 0, 10).Space?
  {
    OvergrowingAllocates();
    hide Inv, BallocAfter, FreeHeap, TwoBlocks;
    FreeLower(Run(DOUBLES, OVERGROWING[..3]));
    RunStep(DOUBLES, OVERGROWING, 3);
    assert OVERGROWING[..4] == OVERGROWING;
    var s := Run(DOUBLES, OVERGROWING);
    Doubles();
    DoublesTrial(10, 4096);
    DoublesTrial(10, 5088);
    InquireIsExact(DOUBLES, s, 0, 5104, 10);
    assert FindFit(DOUBLES, s, 0, 10, 0) == 0;
  }

  // ---------- a misaligned push ----------

  /** A 32-bit machine: 56-byte ADs, 4-byte guards, ALIGNMENT 4, every element a long double of 12
      bytes, and base arrays above the segment. */
  const LONGDOUBLES := Config(56, 4, 2, 32, seq(MT_NUMTYPES, _ => 65536), seq(MT_NUMTYPES, _ => 12))

  /** One long double laid out downward from 8192: the unsigned remainder is 4 where the offset from
      ma_base is a multiple of 12, so the client space is 4 bytes off. */
  lemma LongDoubleMisaligned()
    ensures LONGDOUBLES.Valid() && BallocBefore(LONGDOUBLES, 0, 0, 1, 8192).client == 8172
    ensures !AlignedBefore(LONGDOUBLES, 0, 0, 1, 8192)
  {
    assert Pow2(2) == 4;
    TwoTo32();
    hide Pow2;
    ModUnique(-57360, 4294967296, -1, 4294909936);
  }
}
