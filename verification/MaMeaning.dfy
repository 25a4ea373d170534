/** What the calls of ma/ma.c promise their caller, said without the functions they are computed with: the
    boundary a client space is put on, what an allocation gives and a free gives back, the default regions,
    and what an inquiry answers. */
module MaMeaning {
  import opened Arith
  import opened MaLayout
  import opened Lists
  import opened MaState
  import opened MaTiling
  import opened MaHandles
  import opened MaRuns
  import opened MaClients
  import opened MaInquire
  import opened MaMemory
  import opened MaSteps
  import T = MaTable

  // ---------- the power-of-two request ----------

  lemma NearestUnique(c: int, p: int, q: int, m: int)
    requires m > 0 && p % m == 0 && q % m == 0 && c <= p < c + m && c <= q < c + m
    ensures p == q
  {
    if p < q { MultiplesApart(p, q, m); }
    if q < p { MultiplesApart(q, p, m); }
  }

  /** Upward: with c0 the client space without a request and p the least multiple of 2^numalign from there on,
      the client space is p if that keeps its distance from c0 a multiple of the element size, and c0 otherwise. */
  lemma AfterHonours(cfg: Config, numalign: nat, t: int, nelem: int, address: int, p: int)
    requires cfg.Valid() && ValidIndex(t)
    requires var c0 := BallocAfter(cfg, 0, t, nelem, address).client; p % Pow2(numalign) == 0 && c0 <= p < c0 + Pow2(numalign)
    ensures var c0 := BallocAfter(cfg, 0, t, nelem, address).client;
      BallocAfter(cfg, numalign, t, nelem, address).client == if (p - c0) % cfg.size[t] == 0 then p else c0
  {
    var c0, m := FirstClientAfter(cfg, t, address), Pow2(numalign);
    MaskIsMod(c0, numalign);
    hide FirstClientAfter, AndLow, Pow2;
    SubtractRem(c0, m);
    ModOfMultiple(m, 1);
    ModSum(c0 - c0 % m, m, m);
    ModOfMultiple(cfg.size[t], 0);
    if c0 % m == 0 { NearestUnique(c0, p, c0, m); } else { NearestUnique(c0, p, c0 + (m - c0 % m), m); }
    if numalign == 0 { assert m == 1 by { PowOfZero(); } }
  }

  lemma PowOfZero()
    ensures Pow2(0) == 1
  {}

  /** Downward the same with the greatest multiple up to c0. */
  lemma BeforeHonours(cfg: Config, numalign: nat, t: int, nelem: int, address: int, p: int)
    requires cfg.Valid() && ValidIndex(t)
    requires var c0 := BallocBefore(cfg, 0, t, nelem, address).client; p % Pow2(numalign) == 0 && p <= c0 < p + Pow2(numalign)
    ensures var c0 := BallocBefore(cfg, 0, t, nelem, address).client;
      BallocBefore(cfg, numalign, t, nelem, address).client == if (c0 - p) % cfg.size[t] == 0 then p else c0
  {
    ClientShifts(cfg, numalign, t, nelem, address);
    hide BallocBefore;
    ShiftsDown(BallocBefore(cfg, 0, t, nelem, address).client, numalign, cfg.size[t], p);
  }

  function ShiftDown(first: int, numalign: nat, size: int): int
    requires size > 0
  {
    var diff := AndLow(first, numalign);
    if numalign > 0 && diff != 0 && diff % size == 0 then first - diff else first
  }

  lemma ClientShifts(cfg: Config, numalign: nat, t: int, nelem: int, address: int)
    requires cfg.Valid() && ValidIndex(t)
    ensures BallocBefore(cfg, numalign, t, nelem, address).client ==
      ShiftDown(BallocBefore(cfg, 0, t, nelem, address).client, numalign, cfg.size[t])
  {
    hide AndLow, Pow2;
  }

  lemma ShiftsDown(first: int, numalign: nat, size: int, p: int)
    requires size > 0 && p % Pow2(numalign) == 0 && p <= first < p + Pow2(numalign)
    ensures ShiftDown(first, numalign, size) == if (first - p) % size == 0 then p else first
  {
    var m := Pow2(numalign);
    MaskIsMod(first, numalign);
    hide AndLow, Pow2;
    SubtractRem(first, m);
    ModOfMultiple(size, 0);
    NearestUnique(first - m + 1, p, first - first % m, m);
    if numalign == 0 { assert m == 1 by { PowOfZero(); } }
  }

  /** Either way the result is on the boundary when the element size is a power of two that divides c0. */
  lemma OnBoundary(c: int, c0: int, p: int, k: nat, j: nat)
    requires p % Pow2(j) == 0 && c0 % Pow2(k) == 0
    requires c == if (p - c0) % Pow2(k) == 0 then p else c0
    ensures c % Pow2(j) == 0
  {
    hide Pow2;
    if k <= j {
      Pow2Divides(k, j);
      ModTransitive(p, Pow2(j), Pow2(k));
      ModSum(p, c0, Pow2(k));
    } else {
      Pow2Divides(j, k);
      ModTransitive(c0, Pow2(k), Pow2(j));
    }
  }

  /** A new heap block of elements whose size is a power of two that divides ma_base has its client space on the
      boundary that MA_set_numalign asked for. */
  lemma AllocateHonours(cfg: Config, s: State, t: TypeIndex, n: nat, growOk: bool, k: nat)
    requires cfg.Valid() && Inv(cfg, s) && s.ready && FindSpace(cfg, s, t, n).Space?
    requires cfg.size[t] == Pow2(k) && cfg.base[t] % cfg.size[t] == 0
    ensures var s', a := AllocateHeap(cfg, s, t + MT_BASE, n, growOk).0, FindSpace(cfg, s, t, n).address;
      a in s'.desc && s'.desc[a].client % Pow2(s.numalign) == 0
  {
    AllocateSurvivors(cfg, s, t, n, growOk);
    var a := FindSpace(cfg, s, t, n).address;
    AllocateEnters(cfg, s, t, n, growOk);
    hide Inv, FindSpace, AllocateHeap;
    AfterOnBoundary(cfg, s.numalign, t, n, a, k);
    BlockLength(cfg, s.numalign, t, n, a);
  }

  lemma AllocateEnters(cfg: Config, s: State, t: TypeIndex, n: nat, growOk: bool)
    requires cfg.Valid() && Inv(cfg, s) && s.ready && FindSpace(cfg, s, t, n).Space?
    ensures FindSpace(cfg, s, t, n).address in AllocateHeap(cfg, s, t + MT_BASE, n, growOk).0.desc
  {
    hide FindSpace, T.Allocate;
  }

  lemma AfterOnBoundary(cfg: Config, numalign: nat, t: int, n: int, a: int, k: nat)
    requires cfg.Valid() && ValidIndex(t) && cfg.size[t] == Pow2(k) && cfg.base[t] % cfg.size[t] == 0
    ensures BallocAfter(cfg, numalign, t, n, a).client % Pow2(numalign) == 0
  {
    var c0 := BallocAfter(cfg, 0, t, n, a).client;
    var p := RoundUp(c0, Pow2(numalign));
    RoundUpIsLeast(c0, Pow2(numalign));
    AfterHonours(cfg, numalign, t, n, a, p);
    FirstAligned(cfg, t, n, a);
    hide BallocAfter, RoundUp;
    OnBoundary(BallocAfter(cfg, numalign, t, n, a).client, c0, p, k, numalign);
  }

  lemma FirstAligned(cfg: Config, t: int, n: int, a: int)
    requires cfg.Valid() && ValidIndex(t) && cfg.base[t] % cfg.size[t] == 0
    ensures BallocAfter(cfg, 0, t, n, a).client % cfg.size[t] == 0
  {
    FirstClientAligned(cfg, t, a);
    ModSum(FirstClientAfter(cfg, t, a) - cfg.base[t], cfg.base[t], cfg.size[t]);
    hide FirstClientAfter;
  }

  /** ... and so has a block pushed, if the element size divides the word as well. */
  lemma PushHonours(cfg: Config, s: State, t: TypeIndex, n: nat, growOk: bool, k: nat)
    requires cfg.Valid() && Inv(cfg, s) && s.ready && BallocBefore(cfg, s.numalign, t, n, s.sp).nbytes <= s.sp - s.hp
    requires cfg.size[t] == Pow2(k) && cfg.base[t] % cfg.size[t] == 0 && cfg.Word() % cfg.size[t] == 0
    ensures var s' := PushStack(cfg, s, t + MT_BASE, n, growOk).0;
      s'.sp in s'.desc && s'.desc[s'.sp].client % Pow2(s.numalign) == 0
  {
    BeforeOnBoundary(cfg, s.numalign, t, n, s.sp, k);
    hide Inv, BallocBefore, Pow2, T.Allocate;
    assert T.Ok(s.table) by { InvTableOk(cfg, s); }
  }

  lemma InvTableOk(cfg: Config, s: State)
    requires cfg.Valid() && Inv(cfg, s)
    ensures T.Ok(s.table)
  {}

  lemma BeforeOnBoundary(cfg: Config, numalign: nat, t: int, n: int, address: int, k: nat)
    requires cfg.Valid() && ValidIndex(t) && cfg.size[t] == Pow2(k) && cfg.base[t] % cfg.size[t] == 0
    requires cfg.Word() % cfg.size[t] == 0
    ensures BallocBefore(cfg, numalign, t, n, address).client % Pow2(numalign) == 0
  {
    var c0, m := BallocBefore(cfg, 0, t, n, address).client, Pow2(numalign);
    SubtractRem(c0, m);
    BallocBeforeAlignedWhen(cfg, 0, t, n, address);
    ModSum(c0 - cfg.base[t], cfg.base[t], cfg.size[t]);
    BeforeHonours(cfg, numalign, t, n, address, c0 - c0 % m);
    hide BallocBefore, AlignedBefore, Pow2;
    NegatedMultiple(c0 - (c0 - c0 % m), cfg.size[t]);
    OnBoundary(BallocBefore(cfg, numalign, t, n, address).client, c0, c0 - c0 % m, k, numalign);
  }

  // ---------- what a call gives and takes ----------

  /** MA_init with nonpositive wishes: a region of at least the default, 524288 bytes, on each side of the
      partition; with nonnegative ones room for the elements and for one block's overhead. */
  lemma InitRegions(cfg: Config, s: State, d: int, nominalStack: int, nominalHeap: int, segment: nat)
    requires cfg.Valid() && !s.ready && ValidType(d) && segment > 0
    ensures var (s', ok) := Init(cfg, s, d, nominalStack, nominalHeap, segment);
      && ok && s'.ready && s'.segment == s'.hp == segment && s'.eos == s'.sp
      && (s'.partition - segment) % cfg.Alignment() == 0 && (s'.eos - s'.partition) % cfg.Alignment() == 0
      && (nominalHeap < 0 ==> 524288 <= s'.partition - segment < 524288 + cfg.Alignment())
      && (nominalStack < 0 ==> 524288 <= s'.eos - s'.partition < 524288 + cfg.Alignment())
      && (nominalHeap >= 0 ==> s'.partition - segment >= nominalHeap * cfg.size[d - MT_BASE] + cfg.adSize + 2 * cfg.guardSize)
      && (nominalStack >= 0 ==> s'.eos - s'.partition >= nominalStack * cfg.size[d - MT_BASE] + cfg.adSize + 2 * cfg.guardSize)
  {
    var t := d - MT_BASE;
    RoundIsLeast(cfg, if nominalHeap < 0 then DEFAULT_TOTAL_HEAP else nominalHeap * cfg.size[t] + cfg.MaxOverhead(t));
    RoundIsLeast(cfg, if nominalStack < 0 then DEFAULT_TOTAL_STACK else nominalStack * cfg.size[t] + cfg.MaxOverhead(t));
    hide Config.Round;
  }

  /** MA_set_numalign takes 0 to 30 and nothing else. */
  lemma NumalignEffect(s: State, value: int)
    ensures var (s', ok) := SetNumalign(s, value);
      ok == (0 <= value <= 30) && s'.numalign == (if ok then value else s.numalign) && s'.(numalign := s.numalign) == s
  {}

  /** The shortest block that splitting leaves: room for one ALIGNMENT of client space. */
  lemma MinBlockMeans(cfg: Config, v: int)
    requires cfg.Valid() && v % cfg.Alignment() == 0
    ensures v >= cfg.MinBlock() <==> v >= cfg.Alignment() + cfg.adSize + 2 * cfg.guardSize
  {
    RoundIsLeast(cfg, cfg.Alignment() + cfg.Overhead());
  }

  /** A request that finds space yields a new live handle of a new block of n elements of the type asked for, whose
      client space lies inside it; every other block and handle stays. */
  lemma AllocateEffect(cfg: Config, s: State, d: int, n: nat)
    requires cfg.Valid() && Inv(cfg, s) && s.ready && ValidType(d) && FindSpace(cfg, s, d - MT_BASE, n).Space?
    ensures var (s', h) := AllocateHeap(cfg, s, d, n, true);
      && T.Live(s'.table, h) && !T.Live(s.table, h)
      && var a := T.Lookup(s'.table, h);
         && a !in s.desc && a in s'.desc && s'.desc[a].nelem == n && s'.desc[a].dtype == d - MT_BASE
         && s'.desc == s.desc[a := s'.desc[a]] && s'.used == [a] + s.used && s'.stack == s.stack
         && Contains(cfg, a, s'.Size(a), s'.desc[a].client, d - MT_BASE, n)
         && (forall k :: T.Live(s.table, k) ==> T.Live(s'.table, k) && T.Lookup(s'.table, k) == T.Lookup(s.table, k))
  {
    InvTableOk(cfg, s);
    SpaceIsNew(cfg, s, d - MT_BASE, n);
    AllocateSurvivors(cfg, s, d - MT_BASE, n, true);
    SpaceUsed(cfg, s, d - MT_BASE, n);
    var f := FindSpace(cfg, s, d - MT_BASE, n);
    T.AllocateCorrect(s.table, f.address, true);
    hide Inv, FindSpace, T.Allocate, T.Ok, Contains;
  }

  lemma SpaceUsed(cfg: Config, s: State, t: TypeIndex, n: nat)
    requires cfg.Valid() && FindSpace(cfg, s, t, n).Space?
    ensures FindSpace(cfg, s, t, n).state.used == s.used
  {
    hide BallocAfter;
  }

  /** First fit: of the free blocks in address order the first that holds the new block is taken. What it does not
      need stays free behind it if that is at least the shortest block, and otherwise goes with it. */
  lemma TakesFirstFit(cfg: Config, s: State, d: int, n: nat, i: nat)
    requires cfg.Valid() && T.Ok(s.table) && s.ready && ValidType(d) && i < |s.free|
    requires BallocAfter(cfg, s.numalign, d - MT_BASE, n, s.free[i]).nbytes <= s.Size(s.free[i])
    requires forall k :: 0 <= k < i ==> BallocAfter(cfg, s.numalign, d - MT_BASE, n, s.free[k]).nbytes > s.Size(s.free[k])
    ensures var (s', h), a := AllocateHeap(cfg, s, d, n, true), s.free[i];
      var need := BallocAfter(cfg, s.numalign, d - MT_BASE, n, a).nbytes;
      && T.Live(s'.table, h) && T.Lookup(s'.table, h) == a && (s'.hp, s'.sp) == (s.hp, s.sp)
      && if s.Size(a) - need >= cfg.MinBlock()
         then s'.free == s.free[i := a + need] && s'.size == s.size[a := need][a + need := s.Size(a) - need]
         else s'.free == s.free[..i] + s.free[i + 1..] && s'.size == s.size
  {
    hide FindSpace, BallocAfter, T.Live, T.Lookup, T.Ok, Config.MinBlock, AllocateHeap, Carve;
    SpaceOfFit(cfg, s, d - MT_BASE, n, i);
    EntersSpace(cfg, s, d, n);
    CarveMeans(cfg.MinBlock(), s, i, BallocAfter(cfg, s.numalign, d - MT_BASE, n, s.free[i]).nbytes);
  }

  lemma CarveMeans(m: int, s: State, i: nat, need: int)
    requires i < |s.free|
    ensures var c, a := Carve(m, s, i, need), s.free[i];
      && (c.hp, c.sp) == (s.hp, s.sp)
      && if s.Size(a) - need >= m then c.free == s.free[i := a + need] && c.size == s.size[a := need][a + need := s.Size(a) - need]
         else c.free == s.free[..i] + s.free[i + 1..] && c.size == s.size
  {}

  lemma EntersSpace(cfg: Config, s: State, d: int, n: nat)
    requires cfg.Valid() && T.Ok(s.table) && s.ready && ValidType(d) && FindSpace(cfg, s, d - MT_BASE, n).Space?
    ensures var (s', h), f := AllocateHeap(cfg, s, d, n, true), FindSpace(cfg, s, d - MT_BASE, n);
      && T.Live(s'.table, h) && T.Lookup(s'.table, h) == f.address
      && (s'.hp, s'.sp, s'.free, s'.size) == (f.state.hp, f.state.sp, f.state.free, f.state.size)
  {
    T.AllocateCorrect(s.table, FindSpace(cfg, s, d - MT_BASE, n).address, true);
    hide FindSpace, T.Allocate, T.Ok;
  }

  lemma SpaceOfFit(cfg: Config, s: State, t: TypeIndex, n: nat, i: nat)
    requires cfg.Valid() && i < |s.free|
    requires BallocAfter(cfg, s.numalign, t, n, s.free[i]).nbytes <= s.Size(s.free[i])
    requires forall k :: 0 <= k < i ==> BallocAfter(cfg, s.numalign, t, n, s.free[k]).nbytes > s.Size(s.free[k])
    ensures var r := BallocAfter(cfg, s.numalign, t, n, s.free[i]);
      FindSpace(cfg, s, t, n) == Space(Carve(cfg.MinBlock(), s, i, r.nbytes), s.free[i], r.client)
  {
    FitFound(cfg, s, t, n, 0, i);
    hide FindFit, BallocAfter, Carve, Config.MinBlock;
  }

  lemma {:induction false} FitFound(cfg: Config, s: State, t: TypeIndex, n: nat, k: nat, i: nat)
    requires cfg.Valid() && k <= i <= |s.free|
    requires i < |s.free| ==> BallocAfter(cfg, s.numalign, t, n, s.free[i]).nbytes <= s.Size(s.free[i])
    requires forall j :: k <= j < i ==> BallocAfter(cfg, s.numalign, t, n, s.free[j]).nbytes > s.Size(s.free[j])
    ensures FindFit(cfg, s, t, n, k) == i
    decreases i - k
  {
    hide BallocAfter;
    if k < i { FitFound(cfg, s, t, n, k + 1, i); }
  }

  /** With no such block the heap grows at ma_hp, unless that would pass ma_sp. */
  lemma ExtendsLast(cfg: Config, s: State, d: int, n: nat)
    requires cfg.Valid() && T.Ok(s.table) && s.ready && ValidType(d)
    requires forall k :: 0 <= k < |s.free| ==> BallocAfter(cfg, s.numalign, d - MT_BASE, n, s.free[k]).nbytes > s.Size(s.free[k])
    ensures var (s', h), need := AllocateHeap(cfg, s, d, n, true), BallocAfter(cfg, s.numalign, d - MT_BASE, n, s.hp).nbytes;
      if s.hp + need > s.sp then h == T.HANDLE_NONE && s' == s
      else
        && T.Live(s'.table, h) && T.Lookup(s'.table, h) == s.hp && s'.hp == s.hp + need && s'.sp == s.sp
        && s'.free == s.free && s'.size == s.size[s.hp := need]
  {
    FitFound(cfg, s, d - MT_BASE, n, 0, |s.free|);
    T.AllocateCorrect(s.table, s.hp, true);
    hide FindFit, BallocAfter, T.Allocate, T.Ok, Config.MinBlock;
  }

  /** MA_push_stack succeeds exactly when the block fits between ma_hp and ma_sp; then a new live handle names a
      new top block of n elements. */
  lemma PushEffect(cfg: Config, s: State, d: int, n: nat)
    requires cfg.Valid() && Inv(cfg, s) && s.ready && ValidType(d)
    ensures var (s', h), need := PushStack(cfg, s, d, n, true), BallocBefore(cfg, s.numalign, d - MT_BASE, n, s.sp).nbytes;
      if s.sp - s.hp < need then h == T.HANDLE_NONE && s' == s else PushedAs(s, s', h, need, d - MT_BASE, n)
  {
    InvTableOk(cfg, s);
    hide Inv, BallocBefore, T.Allocate, T.Ok, PushStack, PushedAs;
    PushResult(cfg, s, d, n, true);
    var r := BallocBefore(cfg, s.numalign, d - MT_BASE, n, s.sp);
    if s.sp - s.hp >= r.nbytes {
      PushedKeeps(cfg, s, d - MT_BASE, n, true);
      PushedEnters(s, r.nbytes, Desc(r.client, d - MT_BASE, n));
    }
  }

  /** The new state and handle after `need` bytes for n elements of t were put on the stack. */
  ghost predicate PushedAs(s: State, s': State, h: int, need: int, t: TypeIndex, n: nat) {
    && T.Live(s'.table, h) && !T.Live(s.table, h) && T.Lookup(s'.table, h) == s'.sp == s.sp - need
    && s'.sp !in s.desc && s'.sp in s'.desc && s'.desc[s'.sp].nelem == n && s'.desc[s'.sp].dtype == t
    && s'.desc == s.desc[s'.sp := s'.desc[s'.sp]] && s'.stack == [s'.sp] + s.stack
    && (forall k :: T.Live(s.table, k) ==> T.Live(s'.table, k) && T.Lookup(s'.table, k) == T.Lookup(s.table, k))
  }

  lemma PushedEnters(s: State, need: int, d: Desc)
    requires T.Ok(s.table) && s.sp - need !in s.desc && d.nelem >= 0 && 0 <= d.dtype < MT_NUMTYPES
    ensures var (table, h) := T.Allocate(s.table, s.sp - need, true);
      PushedAs(s, Pushed(s, need, d).(table := table), h, need, d.dtype, d.nelem)
  {
    T.AllocateCorrect(s.table, s.sp - need, true);
    hide T.Allocate, T.Ok;
  }

  /** MA_free_heap of a live heap handle ends the handle and the block; no block in use has its bytes afterwards,
      and every other block and handle stays. Any other handle is refused. */
  lemma FreeEffect(cfg: Config, s: State, h: int, x: int)
    requires cfg.Valid() && Inv(cfg, s)
    ensures var (s', ok) := FreeHeap(s, h);
      && ok == (T.Live(s.table, h) && T.Lookup(s.table, h) in s.used)
      && (!ok ==> s' == s)
      && (ok ==>
            var a := T.Lookup(s.table, h);
            && !T.Live(s'.table, h) && s'.desc == s.desc - {a} && a in s.desc
            && (forall b :: b in s'.desc ==> s'.Size(b) == s.Size(b))
            && (a <= x < s.End(a) ==> forall b :: b in s'.desc ==> !Owns(s', b, x))
            && (forall k :: k != h && T.Live(s.table, k) ==> T.Live(s'.table, k) && T.Lookup(s'.table, k) == T.Lookup(s.table, k)))
  {
    if HeapHandle(s, h) {
      var a := T.Lookup(s.table, h);
      UsedHasDesc(cfg, s, a);
      InvTiled(cfg, s);
      FreeHeapKeepsTiling(cfg.Overhead(), s, h);
      InvTableOk(cfg, s);
      T.DeallocateCorrect(s.table, h);
      BlocksOf(cfg, s);
      DescInSize(cfg, s);
      hide Inv, Tiled, FreeHeap, T.Ok, T.Deallocate;
      var s' := FreeHeap(s, h).0;
      forall b | b in s'.desc && a <= x < s.End(a)
        ensures !Owns(s', b, x)
      {
        assert b in s.desc && b != a && s'.Size(b) == s.Size(b);
      }
    }
  }

  /** MA_pop_stack takes the handle of the top block and no other; then handle and block are gone and the rest of
      the stack stays. */
  lemma PopEffect(cfg: Config, s: State, h: int)
    requires cfg.Valid() && Inv(cfg, s)
    ensures var (s', ok) := PopStack(s, h);
      && ok == (T.Live(s.table, h) && s.stack != [] && T.Lookup(s.table, h) == s.stack[0])
      && (!ok ==> s' == s)
      && (ok ==>
            && s.stack[0] == s.sp && s'.sp == s.End(s.sp) && s'.stack == s.stack[1..] && s'.hp == s.hp && s'.used == s.used
            && s'.desc == s.desc - {s.sp} && !T.Live(s'.table, h)
            && (forall k :: k != h && T.Live(s.table, k) ==> T.Live(s'.table, k) && T.Lookup(s'.table, k) == T.Lookup(s.table, k)))
  {
    TopOfStack(cfg, s);
    InvTableOk(cfg, s);
    hide Inv, T.Ok;
    if T.Live(s.table, h) { T.DeallocateCorrect(s.table, h); }
    hide T.Deallocate;
  }

  /** ma_sp is the top of the stack; while the stack is empty it is the end of the segment and no block. */
  lemma TopOfStack(cfg: Config, s: State)
    requires cfg.Valid() && Inv(cfg, s)
    ensures s.stack != [] ==> s.stack[0] == s.sp && Remove(s.stack, s.sp) == s.stack[1..]
    ensures forall i :: 0 <= i < |s.stack| ==> s.stack[i] >= s.sp && (s.stack[i] == s.sp ==> i == 0)
  {}

  lemma InvTiled(cfg: Config, s: State)
    requires cfg.Valid() && Inv(cfg, s)
    ensures Tiled(cfg.Overhead(), s)
  {}

  /** A partial free keeps the first elements. The block gives up what it no longer needs if that is at least the
      shortest block, to no other block in use; otherwise it keeps its length. */
  lemma PieceEffect(cfg: Config, s: State, h: int, n: int, x: int)
    requires cfg.Valid() && Inv(cfg, s) && T.Live(s.table, h) && T.Lookup(s.table, h) in s.used
    requires T.Lookup(s.table, h) in s.desc && 0 <= n < s.desc[T.Lookup(s.table, h)].nelem
    ensures UsedList(s)
    ensures var (s', ok), a := FreePiece(cfg, s, h, n), T.Lookup(s.table, h);
      var keep := s.desc[a].nelem - n;
      var need := BallocAfter(cfg, s.numalign, s.desc[a].dtype, keep, a).nbytes;
      && ok && s'.desc == s.desc[a := s.desc[a].(nelem := keep)]
      && s'.Size(a) == (if s.Size(a) - need >= cfg.MinBlock() then need else s.Size(a))
      && (forall b :: b in s.desc && b != a ==> s'.Size(b) == s.Size(b))
      && (a + s'.Size(a) <= x < s.End(a) ==> forall b :: b in s'.desc ==> !Owns(s', b, x))
  {
    hide Inv, FreePiece, BallocAfter, UsedList;
    UsedListOf(cfg, s);
    PieceDesc(cfg, s, h, n);
    PieceLengths(cfg, s, h, n);
    PieceGiven(cfg, s, FreePiece(cfg, s, h, n).0, T.Lookup(s.table, h), x);
  }

  lemma PieceLengths(cfg: Config, s: State, h: int, n: int)
    requires cfg.Valid() && Inv(cfg, s) && UsedList(s) && HeapHandle(s, h) && T.Lookup(s.table, h) in s.desc
    requires 0 <= n < s.desc[T.Lookup(s.table, h)].nelem
    ensures var s', a := FreePiece(cfg, s, h, n).0, T.Lookup(s.table, h);
      var need := BallocAfter(cfg, s.numalign, s.desc[a].dtype, s.desc[a].nelem - n, a).nbytes;
      && s'.Size(a) == (if s.Size(a) - need >= cfg.MinBlock() then need else s.Size(a))
      && SurvivorsKept(s, s', {a}) && s'.Size(a) >= 0
  {
    hide Inv, FreePiece, BallocAfter, UsedList, Config.MinBlock;
    PieceSurvivors(cfg, s, h, n);
    FreePieceKeeps(cfg, s, h, n);
    SizeNonneg(cfg, FreePiece(cfg, s, h, n).0, T.Lookup(s.table, h));
    MinBlockBounds(cfg);
  }

  lemma SizeNonneg(cfg: Config, s: State, a: int)
    requires cfg.Valid() && Inv(cfg, s)
    ensures s.Size(a) >= 0
  {
    BlocksOf(cfg, s);
    hide Inv;
  }

  /** No block in use of s' owns a byte of block a that a has given up. */
  lemma PieceGiven(cfg: Config, s: State, s': State, a: int, x: int)
    requires cfg.Valid() && Inv(cfg, s) && a in s.desc && SurvivorsKept(s, s', {a}) && s'.Size(a) >= 0
    ensures a + s'.Size(a) <= x < s.End(a) ==> forall b :: b in s'.desc ==> !Owns(s', b, x)
  {
    BlocksOf(cfg, s);
    DescInSize(cfg, s);
    hide Inv;
    forall b | b in s'.desc && a + s'.Size(a) <= x < s.End(a)
      ensures !Owns(s', b, x)
    {
      assert b in s.desc || b == a;
    }
  }

  lemma PieceDesc(cfg: Config, s: State, h: int, n: int)
    requires cfg.Valid() && UsedList(s) && HeapHandle(s, h) && T.Lookup(s.table, h) in s.desc
    requires 0 <= n < s.desc[T.Lookup(s.table, h)].nelem
    ensures var (s', ok), a := FreePiece(cfg, s, h, n), T.Lookup(s.table, h);
      ok && s'.desc == s.desc[a := s.desc[a].(nelem := s.desc[a].nelem - n)]
  {
    hide Shrink, UsedList, BallocAfter;
  }

  // ---------- inquiries ----------

  /** What the answer of an inquiry means: m elements fit in the gap from ma_hp up to the limit, which is the
      partition, the lower of partition and ma_sp, or ma_sp, or in the part below the partition of a free block
      that starts below it. */
  lemma InquiryMeans(cfg: Config, s: State, kind: Kind, d: int, m: int)
    requires cfg.Valid() && s.ready && ValidType(d) && m > 0
    ensures m <= InquireHeap(cfg, s, kind, d) <==>
      var limit := match kind
        case HonourPartition => s.partition
        case CheckStack => if s.sp < s.partition then s.sp else s.partition
        case NoPartition => s.sp;
      || (s.hp < limit && s.hp + BallocAfter(cfg, s.numalign, d - MT_BASE, m, s.hp).nbytes <= limit)
      || exists k :: 0 <= k < |s.free| && BelowPartition(cfg, s, d - MT_BASE, m, s.free[k])
  {
    hide BallocAfter, Inquire;
    InquireIsExact(cfg, s, d - MT_BASE, Limit(s, kind), m);
    forall k | 0 <= k < |s.free|
      ensures FragFits(cfg, s, d - MT_BASE, m, s.free[k]) <==> BelowPartition(cfg, s, d - MT_BASE, m, s.free[k])
    {}
    hide BelowPartition, FragFits;
  }

  /** m elements laid out from a end within free block a and at or below the partition. */
  predicate BelowPartition(cfg: Config, s: State, t: TypeIndex, m: int, a: int)
    requires cfg.Valid()
  {
    && a < s.partition && a + BallocAfter(cfg, s.numalign, t, m, a).nbytes <= s.partition
    && a + BallocAfter(cfg, s.numalign, t, m, a).nbytes <= s.End(a)
  }

  /** MA_inquire_heap_check_stack, like the inquiry that disregards the partition, promises only what can be had. */
  lemma CheckStackSound(cfg: Config, s: State, kind: Kind, d: int, m: nat)
    requires cfg.Valid() && Inv(cfg, s) && s.ready && ValidType(d) && kind != HonourPartition
    requires 0 < m <= InquireHeap(cfg, s, kind, d)
    ensures FindSpace(cfg, s, d - MT_BASE, m).Space?
  {
    hide Inv, Inquire, FindSpace;
    InquirySound(cfg, s, d - MT_BASE, Limit(s, kind), m);
  }

  /** ... and so does MA_inquire_heap as long as the stack has not grown past the partition. */
  lemma InquireHeapSound(cfg: Config, s: State, d: int, m: nat)
    requires cfg.Valid() && Inv(cfg, s) && s.ready && ValidType(d) && s.partition <= s.sp
    requires 0 < m <= InquireHeap(cfg, s, HonourPartition, d)
    ensures FindSpace(cfg, s, d - MT_BASE, m).Space?
  {
    hide Inv, Inquire, FindSpace;
    InquirySound(cfg, s, d - MT_BASE, s.partition, m);
  }

  // ---------- guards ----------

  /** One byte stored anywhere leaves a block's seal, which every call on its handle looks for, exactly when it hits
      neither the descriptor nor the guard words right before and right behind the client space. */
  lemma StoreSealedIff(cfg: Config, m: Memory, a: int, d: Desc, x: int, v: int)
    requires cfg.Valid() && ValidIndex(d.dtype) && Sealed(cfg, m, a, d)
    ensures var end := d.client + d.nelem * cfg.size[d.dtype];
      Sealed(cfg, PutByte(cfg, m, x, v), a, d) <==>
        !(a <= x < a + cfg.adSize) && !(d.client - cfg.guardSize <= x < d.client) && !(end <= x < end + cfg.guardSize)
  {
    hide Checksum;
  }

  // ---------- checksums ----------

  /** A descriptor of which one of the four fields has changed by less than the range of a word has another
      checksum; link and checksum field do not count. */
  lemma ChecksumDetects(cfg: Config, ad: Ad, v: int)
    requires cfg.Valid()
    ensures 0 < v - ad.dtype < cfg.Word() ==> Checksum(cfg, ad.(dtype := v)) != Checksum(cfg, ad)
    ensures 0 < v - ad.nelem < cfg.Word() ==> Checksum(cfg, ad.(nelem := v)) != Checksum(cfg, ad)
    ensures 0 < v - ad.client < cfg.Word() ==> Checksum(cfg, ad.(client := v)) != Checksum(cfg, ad)
    ensures 0 < v - ad.nbytes < cfg.Word() ==> Checksum(cfg, ad.(nbytes := v)) != Checksum(cfg, ad)
    ensures Checksum(cfg, ad.(next := v)) == Checksum(cfg, ad) == Checksum(cfg, ad.(checksum := v))
  {
    var w, sum := cfg.Word(), ad.dtype + ad.nelem + ad.client + ad.nbytes;
    Differs(sum, v - ad.dtype, w);
    Differs(sum, v - ad.nelem, w);
    Differs(sum, v - ad.client, w);
    Differs(sum, v - ad.nbytes, w);
    assert sum + (v - ad.dtype) == v + ad.nelem + ad.client + ad.nbytes;
    hide Pow2;
  }

  lemma Differs(v: int, e: int, m: int)
    requires m > 0
    ensures 0 < e < m ==> (v + e) % m != v % m
  {
    SameRemainder(v + e, v, m);
    if 0 < e < m { ModUnique(e, m, 0, e); }
  }
}
