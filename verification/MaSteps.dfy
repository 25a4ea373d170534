/** How each step of the imperative allocator changes memory: what a step leaves alone, and
    how the lists, lengths, descriptors and guards of the new state come out of it. */
module MaSteps {
  import opened Arith
  import opened MaLayout
  import opened Lists
  import opened MaState
  import opened MaTiling
  import opened MaRuns
  import opened MaClients
  import opened MaMemory
  import T = MaTable

  ghost function Elems(s: seq<int>): set<int> { set x | x in s }

  lemma EmptyBacked(cfg: Config, m: Memory, s: State)
    requires cfg.Valid() && s.size == map[] && s.desc == map[]
    ensures Sizes(m, s) && Descs(cfg, m, s)
  {}

  function ClientLength(cfg: Config, s: State, a: int): int
    requires cfg.Valid()
  {
    if a in s.desc then s.desc[a].nelem * cfg.size[s.desc[a].dtype] else 0
  }

  /** A store inside one client space disturbs nothing else. */
  lemma ClientStoreKeeps(cfg: Config, m: Memory, s: State, a: int, offset: nat, v: int, hfree: int, hused: int,
          sused: int)
    requires cfg.Valid() && Inv(cfg, s) && LaidOut(cfg, s) && Sizes(m, s) && Descs(cfg, m, s) && a in s.desc
    requires offset < ClientLength(cfg, s, a)
    requires Linked(m.ads, hfree, s.free) && Linked(m.ads, hused, s.used) && Linked(m.ads, sused, s.stack)
    ensures var m' := PutByte(cfg, m, s.desc[a].client + offset, v);
      && Sizes(m', s) && Descs(cfg, m', s)
      && Linked(m'.ads, hfree, s.free) && Linked(m'.ads, hused, s.used) && Linked(m'.ads, sused, s.stack)
      && (forall b :: b in s.desc && b != a ==> BytesKept(m, m', s.desc[b].client, Guard2At(cfg, s.desc[b])))
  {
    hide Inv, LaidOut, Linked, Sizes, Descs, Tiled, Contains;
    ListMembersInv(cfg, s);
    var x := s.desc[a].client + offset;
    var m' := PutByte(cfg, m, x, v);
    UsedInSize(cfg, s, a);
    StoreElsewhere(cfg, m, s, a, x, v);
    hide PutByte;
    LinkedElsewhere(m.ads, m'.ads, hfree, s.free);
    LinkedElsewhere(m.ads, m'.ads, hused, s.used);
    LinkedElsewhere(m.ads, m'.ads, sused, s.stack);
  }

  lemma StoreElsewhere(cfg: Config, m: Memory, s: State, a: int, x: int, v: int)
    requires cfg.Valid() && Inv(cfg, s) && LaidOut(cfg, s) && Sizes(m, s) && Descs(cfg, m, s) && a in s.desc
    requires a in s.size
    requires s.desc[a].client <= x < Guard2At(cfg, s.desc[a])
    ensures var m' := PutByte(cfg, m, x, v);
      && (forall b :: b in s.size ==> b in m'.ads && m'.ads[b] == m.ads[b])
      && Sizes(m', s) && Descs(cfg, m', s)
      && (forall b :: b in s.desc && b != a ==> BytesKept(m, m', s.desc[b].client, Guard2At(cfg, s.desc[b])))
  {
    DescInSize(cfg, s);
    BlocksOf(cfg, s);
    hide Inv, BytesKept;
    var m' := PutByte(cfg, m, x, v);
    forall b | b in s.size
      ensures b in m'.ads && m'.ads[b] == m.ads[b]
    {
      StoreAd(cfg, m, s, a, x, v, b);
    }
    hide PutByte;
    forall b | b in s.desc
      ensures Sealed(cfg, m', b, s.desc[b]) && (b != a ==> BytesKept(m, m', s.desc[b].client, Guard2At(cfg, s.desc[b])))
    {
      StoreSealed(cfg, m, s, a, x, v, b);
    }
  }

  lemma DescInSize(cfg: Config, s: State)
    requires cfg.Valid() && Inv(cfg, s)
    ensures forall b :: b in s.desc ==> b in s.size
  {
    hide HeapChain, StackChain, FreeList, UsedList, Coalesced, HandlesSound, Apart;
  }

  lemma BlocksOf(cfg: Config, s: State)
    requires cfg.Valid() && Inv(cfg, s)
    ensures Blocks(cfg.Overhead(), s)
  {
    hide Blocks, HeapChain, StackChain, FreeList, UsedList, Coalesced, HandlesSound;
  }

  /** A store in block a's client space leaves the descriptor of block b. */
  lemma StoreAd(cfg: Config, m: Memory, s: State, a: int, x: int, v: int, b: int)
    requires cfg.Valid() && Blocks(cfg.Overhead(), s) && LaidOut(cfg, s) && Sizes(m, s) && a in s.desc && a in s.size
    requires b in s.size
    requires s.desc[a].client <= x < Guard2At(cfg, s.desc[a])
    ensures var m' := PutByte(cfg, m, x, v); b in m'.ads && m'.ads[b] == m.ads[b]
  {
    assert b != a ==> b + s.size[b] <= a || a + s.size[a] <= b;
  }

  /** ... its guards, and its bytes if it is another block. */
  lemma StoreSealed(cfg: Config, m: Memory, s: State, a: int, x: int, v: int, b: int)
    requires cfg.Valid() && Blocks(cfg.Overhead(), s) && LaidOut(cfg, s) && Sizes(m, s) && Descs(cfg, m, s)
    requires a in s.desc && a in s.size && b in s.desc && b in s.size
    requires s.desc[a].client <= x < Guard2At(cfg, s.desc[a])
    ensures var m' := PutByte(cfg, m, x, v);
      Sealed(cfg, m', b, s.desc[b]) && (b != a ==> BytesKept(m, m', s.desc[b].client, Guard2At(cfg, s.desc[b])))
  {
    StoreAd(cfg, m, s, a, x, v, b);
    assert Sealed(cfg, m, b, s.desc[b]);
    assert b != a ==> b + s.size[b] <= a || a + s.size[a] <= b;
  }

  /** MA_init on values, when it goes ahead. */
  lemma InitResult(cfg: Config, s: State, d: int, nominalStack: int, nominalHeap: int, segment: nat)
    requires cfg.Valid()
    ensures s.ready || !ValidType(d) || segment == 0 ==> MaState.Init(cfg, s, d, nominalStack, nominalHeap, segment) == (s, false)
    ensures !s.ready && ValidType(d) && segment != 0 ==>
      var heap := RegionBytes(cfg, d - MT_BASE, nominalHeap, DEFAULT_TOTAL_HEAP);
      var total := heap + RegionBytes(cfg, d - MT_BASE, nominalStack, DEFAULT_TOTAL_STACK);
      MaState.Init(cfg, s, d, nominalStack, nominalHeap, segment) ==
        (State(true, segment, segment + heap, segment + total, segment, segment + total,
               [], [], [], map[], map[], s.numalign, s.table), true)
  {}

  /** MA_push_stack on values, case by case. */
  lemma PushResult(cfg: Config, s: State, d: int, n: int, growOk: bool)
    requires cfg.Valid() && T.Ok(s.table)
    ensures !s.ready || !ValidType(d) || n < 0 ==> MaState.PushStack(cfg, s, d, n, growOk) == (s, T.HANDLE_NONE)
    ensures s.ready && ValidType(d) && n >= 0 ==>
      var r := BallocBefore(cfg, s.numalign, d - MT_BASE, n, s.sp);
      MaState.PushStack(cfg, s, d, n, growOk) ==
        if s.sp - s.hp < r.nbytes then (s, T.HANDLE_NONE)
        else
          var e := T.Allocate(s.table, s.sp - r.nbytes, growOk);
          (Pushed(s, r.nbytes, Desc(r.client, d - MT_BASE, n)).(table := e.0), e.1)
  {}

  lemma PushedFields(s: State, nbytes: int, d: Desc)
    ensures var p := Pushed(s, nbytes, d);
      && p.sp == s.sp - nbytes && p.stack == [p.sp] + s.stack && p.free == s.free && p.used == s.used
      && p.hp == s.hp && p.size == s.size[p.sp := nbytes] && p.desc == s.desc[p.sp := d]
      && (p.ready, p.numalign, p.segment, p.partition, p.eos, p.table) == (s.ready, s.numalign, s.segment, s.partition, s.eos, s.table)
  {}

  lemma PushRoom(cfg: Config, s: State, t: TypeIndex, n: nat, r: Trial)
    requires cfg.Valid() && Inv(cfg, s) && s.ready && r == BallocBefore(cfg, s.numalign, t, n, s.sp)
    requires r.nbytes <= s.sp - s.hp
    ensures RoomFor(cfg, s, Pushed(s, r.nbytes, Desc(r.client, t, n)), s.sp - r.nbytes, s.sp, Desc(r.client, t, n))
    ensures r.nbytes >= cfg.Overhead() && s.sp - r.nbytes !in s.size
  {
    hide HeapChain, FreeList, UsedList, Coalesced, StackChain, HandlesSound;
    var d := Desc(r.client, t, n);
    BallocBeforeLayout(cfg, s.numalign, t, n, s.sp);
    LengthNonneg(n, cfg.size[t]);
    PushKeepsTiling(cfg.Overhead(), s, r.nbytes, d);
    PushedKeeps(cfg, s, t, n, true);
    SizedAboveHeap(s);
    assert forall x :: x in s.desc ==> x in s.size;
  }

  /** A descriptor below the stack overlaps no block's. */
  lemma PushAdElsewhere(cfg: Config, m: Memory, s: State, a: int, ad: Ad)
    requires cfg.Valid() && Blocks(cfg.Overhead(), s) && Sizes(m, s)
    requires cfg.Overhead() <= ad.nbytes <= s.sp - s.hp && a == s.sp - ad.nbytes
    requires forall x :: x in s.size && x >= s.hp ==> x >= s.sp
    ensures var m' := PutAd(cfg, m, a, ad);
      a in m'.ads && m'.ads[a] == ad && forall x :: x in s.size ==> x in m'.ads && m'.ads[x] == m.ads[x]
  {
    hide Apart;
  }

  lemma PushMemory(cfg: Config, m: Memory, s: State, p: State, a: int, ad: Ad, head: int)
    requires cfg.Valid() && Inv(cfg, s) && Sizes(m, s) && Linked(m.ads, head, s.free)
    requires cfg.Overhead() <= ad.nbytes <= s.sp - s.hp && a == s.sp - ad.nbytes && p.size == s.size[a := ad.nbytes]
    requires p.free == s.free
    ensures var m' := PutAd(cfg, m, a, ad);
      && Sizes(m', p) && Linked(m'.ads, head, p.free) && a in m'.ads && m'.ads[a] == ad && Frame(cfg, m, m', s, a, s.sp)
  {
    hide HeapChain, UsedList, Coalesced, StackChain, FreeList, Frame, Linked, HandlesSound;
    SizedAboveHeap(s);
    TiledFree(cfg.Overhead(), s);
    var m' := PutAd(cfg, m, a, ad);
    PushAdElsewhere(cfg, m, s, a, ad);
    hide Inv, Blocks, PutAd;
    LinkedElsewhere(m.ads, m'.ads, head, s.free);
    PutAdFrame(cfg, m, s, a, ad);
    FrameWiden(cfg, m, m', s, a, a + cfg.adSize, a, s.sp);
  }

  /** Memory after blocks left the stack list. */
  lemma PoppedMemory(cfg: Config, m0: Memory, m1: Memory, s: State, s': State, hfree: int, hused: int)
    requires cfg.Valid() && Inv(cfg, s) && LinksOnly(m0, m1, Elems(s.stack)) && Sizes(m0, s) && Descs(cfg, m0, s)
    requires Linked(m0.ads, hfree, s.free) && Linked(m0.ads, hused, s.used)
    requires SurvivorsKept(s, s', {}) && (forall x :: x in s'.size ==> x in s.size && s'.size[x] == s.size[x])
    requires s'.free == s.free && s'.used == s.used
    ensures Sizes(m1, s') && Descs(cfg, m1, s') && ClientBytesKept(cfg, m0, m1, s, s')
    ensures Linked(m1.ads, hfree, s'.free) && Linked(m1.ads, hused, s'.used)
  {
    ListMembersInv(cfg, s);
    hide Inv;
    LinksSizes(m0, m1, Elems(s.stack), s, s');
    LinksDescs(cfg, m0, m1, Elems(s.stack), s);
    assert forall x :: x in m0.ads <==> x in m1.ads.Keys;
    assert forall x :: x in s.free || x in s.used ==> x in m0.ads && x !in Elems(s.stack);
    ListKept(m0, m1, hfree, s.free);
    ListKept(m0, m1, hused, s.used);
  }

  lemma PopNext(cfg: Config, s: State, h: int)
    requires cfg.Valid() && Inv(cfg, s) && Located(s, h, StackTop)
    ensures var p := MaState.PopStack(s, h).0;
      && MaState.PopStack(s, h).1 && (forall x :: x in p.size ==> x in s.size && p.size[x] == s.size[x])
      && p == s.(sp := s.sp + s.Size(s.sp), stack := Remove(s.stack, s.sp), size := p.size,
                desc := p.desc, table := T.Deallocate(s.table, h))
  {}

  lemma ChopNext(cfg: Config, s: State, h: int)
    requires cfg.Valid() && Inv(cfg, s) && Located(s, h, Stack)
    ensures var p, a := MaState.ChopStack(s, h).0, T.Lookup(s.table, h);
      && MaState.ChopStack(s, h).1 && (forall x :: x in p.size ==> x in s.size && p.size[x] == s.size[x])
      && p == s.(sp := s.End(a), stack := Above(s.stack, a), size := p.size,
                desc := p.desc, table := FreeHandles(s.table, s.stack, a))
  {}

  lemma OwnGuard(cfg: Config, m: Memory, a: int, g: int)
    requires a in m.ads && a + cfg.adSize <= g
    ensures a in PutGuard(cfg, m, g, GUARD1).ads && PutGuard(cfg, m, g, GUARD1).ads[a] == m.ads[a]
  {}

  lemma ShrunkAd(cfg: Config, m: Memory, m': Memory, s: State, ad: int, need: int)
    requires Shrunk(cfg, m, m', s, ad, need)
    ensures ad in m.ads && ad in m'.ads
    ensures m'.ads[ad] == m.ads[ad].(nbytes := if Splits(cfg.MinBlock(), s, ad, need) then need else s.Size(ad))
  {}

  /** The state a partial free reaches. */
  lemma PieceFacts(cfg: Config, s: State, h: int, n: int)
    requires cfg.Valid() && Inv(cfg, s) && LaidOut(cfg, s) && HeapHandle(s, h)
    requires var a := T.Lookup(s.table, h); a in s.desc && UsedList(s) && 0 <= n < s.desc[a].nelem
    ensures var a := T.Lookup(s.table, h);
      var keep := s.desc[a].nelem - n;
      var need := KeptTrial(cfg, s, a, keep).nbytes;
      var c := Shrink(cfg.MinBlock(), s, a, need);
      var f := FreePiece(cfg, s, h, n).0;
      && need >= cfg.Overhead() && a in s.used && a + cfg.adSize <= s.desc[a].client - cfg.guardSize
      && FreePiece(cfg, s, h, n).1 && Inv(cfg, f)
      && f == c.(desc := s.desc[a := s.desc[a].(nelem := keep)]) && f.used == s.used && f.stack == s.stack
      && (f.ready, f.numalign, f.segment, f.partition, f.eos, f.sp, f.table) ==
         (s.ready, s.numalign, s.segment, s.partition, s.eos, s.sp, s.table)
      && (PieceFits(cfg, s, h, n) ==> LaidOut(cfg, f))
      && a in f.size && f.size[a] == (if Splits(cfg.MinBlock(), s, a, need) then need else s.Size(a))
      && (forall x :: x in s.desc && x != a ==> f.Size(x) == s.Size(x))
  {
    hide Blocks, HeapChain, FreeList, Coalesced, StackChain, Reclaim, PieceFits;
    var a := T.Lookup(s.table, h);
    var keep := s.desc[a].nelem - n;
    assert s.UsedAt(a);
    NeedBounds(cfg, s, a, keep);
    ShrinkKeepsTiling(cfg.Overhead(), cfg.MinBlock(), s, a, KeptTrial(cfg, s, a, keep).nbytes);
    PieceSurvivors(cfg, s, h, n);
    FreePieceKeeps(cfg, s, h, n);
    PieceKeepsLayoutIff(cfg, s, h, n);
    PieceSizes(cfg, s, FreePiece(cfg, s, h, n).0, a);
  }

  lemma PieceSizes(cfg: Config, s: State, f: State, a: int)
    requires cfg.Valid() && Inv(cfg, f) && SurvivorsKept(s, f, {a}) && a in f.desc && f.desc.Keys == s.desc.Keys
    ensures a in f.size && forall x :: x in s.desc && x != a ==> f.Size(x) == s.Size(x)
  {
    assert forall x :: x in s.desc <==> x in f.desc.Keys;
  }

  lemma UsedInSize(cfg: Config, s: State, a: int)
    requires cfg.Valid() && Inv(cfg, s) && a in s.desc
    ensures a in s.size
  {}

  lemma DescsAt(cfg: Config, m: Memory, s: State, a: int)
    requires cfg.Valid() && Descs(cfg, m, s) && a in s.desc
    ensures Sealed(cfg, m, a, s.desc[a])
  {}

  lemma ShrunkFrame(cfg: Config, m: Memory, m': Memory, s: State, ad: int, need: int)
    requires Shrunk(cfg, m, m', s, ad, need)
    ensures Frame(cfg, m, m', s, ad, s.End(ad))
  {}

  lemma SealedAd(cfg: Config, m: Memory, a: int, d: Desc)
    requires cfg.Valid() && Sealed(cfg, m, a, d)
    ensures a in m.ads && m.ads[a].dtype == d.dtype && m.ads[a].nelem == d.nelem && m.ads[a].client == d.client
  {}

  /** The client bytes that are kept are not written. */
  lemma PieceBytes(cfg: Config, m0: Memory, m1: Memory, m2: Memory, m3: Memory, s: State, f: State, a: int, need: int)
    requires cfg.Valid() && Shrunk(cfg, m0, m1, s, a, need) && m2.data == m1.data && a in s.desc && a in f.desc
    requires a in f.size
    requires f.desc == s.desc[a := f.desc[a]]
    requires f.size[a] == (if Splits(cfg.MinBlock(), s, a, need) then need else s.Size(a))
    requires Contains(cfg, a, f.size[a], f.desc[a].client, f.desc[a].dtype, f.desc[a].nelem)
    requires var d := f.desc[a];
      m3 == PutGuard(cfg, PutGuard(cfg, m2, d.client - cfg.guardSize, GUARD1), Guard2At(cfg, d), GUARD2)
    requires forall x :: x in s.desc && x != a ==> BytesKept(m0, m3, s.desc[x].client, Guard2At(cfg, s.desc[x]))
    ensures ClientBytesKept(cfg, m0, m3, s, f)
  {
    hide Frame, Splits;
    var d := f.desc[a];
    var m2' := PutGuard(cfg, m2, d.client - cfg.guardSize, GUARD1);
    forall x | d.client <= x < Guard2At(cfg, d) && x in m0.data
      ensures x in m3.data && m3.data[x] == m0.data[x]
    {
      assert x in m1.data && m1.data[x] == m0.data[x];
      assert x in m2'.data && m2'.data[x] == m2.data[x];
    }
    assert BytesKept(m0, m3, d.client, Guard2At(cfg, d));
  }

  lemma UsedListOf(cfg: Config, s: State)
    requires cfg.Valid() && Inv(cfg, s)
    ensures UsedList(s) && forall a :: a in s.used ==> a in s.desc
  {}

  /** Memory after used block ad is cut to `need` bytes and the rest reclaimed. */
  ghost predicate Shrunk(cfg: Config, m: Memory, m': Memory, s: State, ad: int, need: int) {
    var cut := Splits(cfg.MinBlock(), s, ad, need);
    && ad in m.ads && ad in m'.ads && m'.ads[ad] == m.ads[ad].(nbytes := if cut then need else s.Size(ad))
    && Frame(cfg, m, m', s, ad, s.End(ad))
    && (forall x :: x in m.data && (!cut || x < ad + need || ad + need + cfg.adSize <= x) ==> x in m'.data && m'.data[x] == m.data[x])
  }

  lemma ShrunkRefl(cfg: Config, m: Memory, s: State, ad: int, need: int)
    requires ad in m.ads && m.ads[ad].nbytes == s.Size(ad)
    ensures !Splits(cfg.MinBlock(), s, ad, need) ==> Shrunk(cfg, m, m, s, ad, need)
  {}

  lemma ShrinkFacts(cfg: Config, s: State, ad: int, need: int)
    requires cfg.Valid() && Inv(cfg, s) && ad in s.used && cfg.Overhead() <= need
    ensures var m := cfg.MinBlock();
      && ad in s.size && ad in s.desc && s.UsedAt(ad) && s.HeapAt(ad) && s.segment > 0 && m >= cfg.Overhead() > 0
      && Blocks(cfg.Overhead(), s) && Sorted(s.free) && (forall x :: x in s.free ==> s.FreeAt(x))
      && Shrink(m, s, ad, need) == (if Splits(m, s, ad, need) then Reclaim(SplitUsed(s, ad, need), ad + need) else s)
      && (Splits(m, s, ad, need) ==>
            && Limbo(cfg.Overhead(), SplitUsed(s, ad, need), ad + need)
            && Kept(SplitUsed(s, ad, need), Shrink(m, s, ad, need)))
  {
    hide HeapChain, StackChain, Coalesced, Limbo, Kept, Reclaim;
    assert s.UsedAt(ad);
    MinBlockBounds(cfg);
    ShrinkKeepsTiling(cfg.Overhead(), cfg.MinBlock(), s, ad, need);
    if Splits(cfg.MinBlock(), s, ad, need) { CutLimbo(cfg.Overhead(), s, ad, need); }
  }

  lemma SplitKeepsNext(cfg: Config, m0: Memory, m1: Memory, s: State, ad: int, need: int)
    requires cfg.Valid() && Blocks(cfg.Overhead(), s) && Sizes(m0, s) && SplitMemory(cfg, m0, m1, s, ad, need)
    requires m1.ads[ad].next == m0.ads[ad].next && ad in s.size
    ensures forall x :: x in s.desc ==> x in m0.ads && x in m1.ads && m1.ads[x].next == m0.ads[x].next
  {
    forall x | x in s.desc
      ensures x in m0.ads && x in m1.ads && m1.ads[x].next == m0.ads[x].next
    {
      assert x in s.size;
    }
  }

  /** The lists of blocks in use are untouched by a split. */
  lemma SplitLists(cfg: Config, m0: Memory, m1: Memory, s: State, ad: int, need: int, hused: int, sused: int)
    requires cfg.Valid() && Inv(cfg, s) && Sizes(m0, s) && SplitMemory(cfg, m0, m1, s, ad, need)
    requires m1.ads[ad].next == m0.ads[ad].next
    requires ad in s.size && Linked(m0.ads, hused, s.used) && Linked(m0.ads, sused, s.stack)
    ensures Linked(m1.ads, hused, s.used) && Linked(m1.ads, sused, s.stack)
  {
    ListMembersInv(cfg, s);
    BlocksOf(cfg, s);
    SplitKeepsNext(cfg, m0, m1, s, ad, need);
    hide Inv, Sizes, Linked, SplitMemory, Tiled;
    LinkedElsewhere(m0.ads, m1.ads, hused, s.used);
    LinkedElsewhere(m0.ads, m1.ads, sused, s.stack);
  }

  lemma ShrunkLists(cfg: Config, m0: Memory, m1: Memory, m2: Memory, s: State, ad: int, need: int, hused: int,
          sused: int)
    requires cfg.Valid() && Inv(cfg, s) && Sizes(m0, s) && SplitMemory(cfg, m0, m1, s, ad, need)
    requires m1.ads[ad].next == m0.ads[ad].next
    requires Splits(cfg.MinBlock(), s, ad, need) && ad in s.desc && InUseKept(m1, m2, SplitUsed(s, ad, need))
    requires Linked(m1.ads, hused, s.used) && Linked(m1.ads, sused, s.stack)
    ensures Linked(m2.ads, hused, s.used) && Linked(m2.ads, sused, s.stack)
    ensures Shrunk(cfg, m0, m2, s, ad, need)
  {
    hide Inv, Tiled, Linked, Frame, Shrunk, SplitMemory, Sizes;
    ListMembersInv(cfg, s);
    SplitShrunk(cfg, m0, m1, m2, s, ad, need);
    ListInUse(m1, m2, SplitUsed(s, ad, need), hused, s.used);
    ListInUse(m1, m2, SplitUsed(s, ad, need), sused, s.stack);
  }

  /** A list of blocks in use is kept with them. */
  lemma ListInUse(m: Memory, m': Memory, s: State, head: int, l: seq<int>)
    requires Linked(m.ads, head, l) && InUseKept(m, m', s) && forall x :: x in l ==> x in s.desc
    ensures Linked(m'.ads, head, l)
  {
    ListKept(m, m', head, l);
  }

  lemma SplitShrunk(cfg: Config, m0: Memory, m1: Memory, m2: Memory, s: State, ad: int, need: int)
    requires cfg.Valid() && Sizes(m0, s) && SplitMemory(cfg, m0, m1, s, ad, need) && m1.ads[ad].next == m0.ads[ad].next
    requires Splits(cfg.MinBlock(), s, ad, need) && ad in s.desc && InUseKept(m1, m2, SplitUsed(s, ad, need))
    ensures Shrunk(cfg, m0, m2, s, ad, need)
  {}

  datatype Location = HeapOrStack | Heap | Stack | StackTop

  /** What mh2ad accepts. */
  predicate Located(s: State, h: int, loc: Location) {
    T.Live(s.table, h) &&
    var a := T.Lookup(s.table, h);
    match loc
    case HeapOrStack => a in s.used || a in s.stack
    case Heap => a in s.used
    case Stack => a in s.stack
    case StackTop => a in s.stack && a == s.sp
  }

  /** Calls on a block that is not where they look for it change nothing. */
  lemma NotLocated(s: State, h: int)
    ensures !Located(s, h, Heap) ==> MaState.FreeHeap(s, h) == (s, false)
    ensures !Located(s, h, StackTop) ==> MaState.PopStack(s, h) == (s, false)
    ensures !Located(s, h, Stack) ==> MaState.ChopStack(s, h) == (s, false)
  {}

  lemma FreeResult(s: State, h: int)
    requires Located(s, h, Heap)
    requires Kept(Unlist(s, T.Lookup(s.table, h)), Reclaim(Unlist(s, T.Lookup(s.table, h)), T.Lookup(s.table, h)))
    ensures var r := Reclaim(Unlist(s, T.Lookup(s.table, h)), T.Lookup(s.table, h));
      MaState.FreeHeap(s, h) == (r.(table := T.Deallocate(s.table, h)), true)
  {
    hide Reclaim;
  }

  lemma LocatedFacts(s: State, h: int)
    ensures Located(s, h, Heap) ==> T.Live(s.table, h) && T.Lookup(s.table, h) in s.used
    ensures Located(s, h, Stack) ==> T.Live(s.table, h) && T.Lookup(s.table, h) in s.stack
    ensures Located(s, h, StackTop) ==> T.Live(s.table, h) && T.Lookup(s.table, h) in s.stack && T.Lookup(s.table, h) == s.sp
  {}

  /** A live handle names a block in use inside the segment. */
  lemma HandleFacts(cfg: Config, s: State, h: int)
    requires cfg.Valid() && Inv(cfg, s) && T.Live(s.table, h)
    ensures var a := T.Lookup(s.table, h);
      a in s.desc && a in s.size && 0 < s.segment <= a < s.eos && s.ready && NoDup(s.used) && NoDup(s.stack)
  {
    if !s.ready { NothingBeforeInit(cfg, s, h); }
    var a := T.Lookup(s.table, h);
    if a >= s.hp {
      var k :| 0 <= k < |s.stack| && s.stack[k] == a;
      StackOrder(cfg.Overhead(), s, k);
    }
    SortedNoDup(s.stack);
  }

  lemma FreeLimbo(cfg: Config, s: State, a: int)
    requires cfg.Valid() && Inv(cfg, s) && a in s.used
    ensures Limbo(cfg.Overhead(), Unlist(s, a), a) && Kept(Unlist(s, a), Reclaim(Unlist(s, a), a))
    ensures forall x :: x in Unlist(s, a).used || x in s.stack ==> x in Unlist(s, a).desc
  {
    ListMembersInv(cfg, s);
    RemoveSpec(s.used, a);
    hide Tiled, Limbo, Kept, Reclaim, Remove;
    UnlistLimbo(cfg.Overhead(), s, a);
    ReclaimKeepsTiling(cfg.Overhead(), Unlist(s, a), a);
  }

  /** Memory after block a is taken off the used list. */
  lemma UnlistMemory(cfg: Config, m0: Memory, m1: Memory, s: State, a: int, hfree: int, sused: int)
    requires cfg.Valid() && Inv(cfg, s) && a in s.used && LinksOnly(m0, m1, Elems(s.used)) && Sizes(m0, s)
    requires Descs(cfg, m0, s)
    requires Linked(m0.ads, hfree, s.free) && Linked(m0.ads, sused, s.stack)
    ensures Sizes(m1, Unlist(s, a)) && Descs(cfg, m1, Unlist(s, a))
    ensures Linked(m1.ads, hfree, s.free) && Linked(m1.ads, sused, s.stack) && m1.data == m0.data
  {
    ListMembersInv(cfg, s);
    hide Inv;
    LinksSizes(m0, m1, Elems(s.used), s, Unlist(s, a));
    LinksDescs(cfg, m0, m1, Elems(s.used), s);
    assert forall x :: x in m0.ads <==> x in m1.ads.Keys;
    assert forall x :: x in s.free || x in s.stack ==> x in m0.ads && x !in Elems(s.used);
    ListKept(m0, m1, hfree, s.free);
    ListKept(m0, m1, sused, s.stack);
  }

  lemma LinksDescs(cfg: Config, m: Memory, m': Memory, w: set<int>, s: State)
    requires cfg.Valid() && LinksOnly(m, m', w) && Descs(cfg, m, s)
    ensures Descs(cfg, m', s)
  {
    forall a | a in s.desc
      ensures Sealed(cfg, m', a, s.desc[a])
    {
      assert Sealed(cfg, m, a, s.desc[a]) && a in m'.ads.Keys;
    }
  }

  /** Memory after block a is reclaimed, from the state u in which it is on no list. */
  lemma ReclaimMemory(cfg: Config, m0: Memory, m1: Memory, m2: Memory, s: State, u: State, a: int, hused: int,
          sused: int)
    requires cfg.Valid() && Descs(cfg, m1, u) && InUseKept(m1, m2, u) && Kept(u, Reclaim(u, a))
    requires m1.data == m0.data && forall x :: x in u.desc ==> x in s.desc
    requires Linked(m1.ads, hused, u.used) && Linked(m1.ads, sused, u.stack)
    requires forall x :: x in u.used || x in u.stack ==> x in u.desc
    ensures var r := Reclaim(u, a);
      && Descs(cfg, m2, r) && Linked(m2.ads, hused, r.used) && Linked(m2.ads, sused, r.stack)
      && ClientBytesKept(cfg, m0, m2, s, r)
  {
    hide Reclaim;
    forall x | x in u.desc
      ensures x in m1.ads && x in m2.ads && m2.ads[x] == m1.ads[x] && Sealed(cfg, m2, x, u.desc[x])
    {
      assert Sealed(cfg, m1, x, u.desc[x]);
    }
    ListKept(m1, m2, hused, u.used);
    ListKept(m1, m2, sused, u.stack);
  }

  lemma ListMembersInv(cfg: Config, s: State)
    requires cfg.Valid() && Inv(cfg, s)
    ensures Tiled(cfg.Overhead(), s) && T.Ok(s.table)
    ensures forall x :: x in s.free ==> x in s.size && x !in s.desc
    ensures forall x :: x in s.used ==> x in s.size && x in s.desc && x < s.hp
    ensures forall x :: x in s.stack ==> x in s.size && x in s.desc && x >= s.hp
  {
    ListMembers(cfg.Overhead(), s);
  }

  lemma SizesIn(m: Memory, m': Memory, s: State)
    requires Sizes(m, s) && Sizes(m', s)
    ensures forall x :: x in s.size ==> x in m.ads && x in m'.ads
  {}

  /** The handle table is no part of what memory holds. */
  lemma TableOnly(cfg: Config, m0: Memory, m: Memory, s: State, e: State, t: T.Table)
    requires cfg.Valid() && Descs(cfg, m, e) && Sizes(m, e) && ClientBytesKept(cfg, m0, m, s, e)
    ensures Descs(cfg, m, e.(table := t)) && Sizes(m, e.(table := t)) && ClientBytesKept(cfg, m0, m, s, e.(table := t))
  {}

  lemma FreeHandlesStep(t: T.Table, s: seq<int>, i: nat, max: int)
    requires i < |s|
    ensures FreeHandles(t, s[i..], max) == FreeHandles(if s[i] <= max then FreeHandle(t, s[i]) else t, s[i + 1..], max)
  {
    assert s[i..][0] == s[i] && s[i..][1..] == s[i + 1..];
  }

  lemma FreeHandlesEnd(t: T.Table, s: seq<int>, max: int)
    ensures FreeHandles(t, s[|s|..], max) == t
  {}

  /** What list_coalesce reads at free block i. */
  lemma MergeTest(o: int, m: Memory, c: State, i: nat, hfree: int)
    requires Linked(m.ads, hfree, c.free) && Sizes(m, c) && Chained(o, c) && i < |c.free|
    ensures var a := c.free[i];
      && a in m.ads && m.ads[a].next == After(c.free, i)
      && (a + m.ads[a].nbytes == m.ads[a].next <==> i + 1 < |c.free| && c.End(a) == c.free[i + 1])
  {
    hide HeapChain, StackChain, UsedList, Apart;
    assert c.free[i] in c.free && c.FreeAt(c.free[i]);
    assert m.ads[c.free[i]].next == After(c.free, i);
  }

  lemma KeptInUse(m: Memory, s: State)
    ensures InUseKept(m, m, s)
  {}

  /** What it writes there if the next block touches. */
  lemma MergeMemory(o: int, m: Memory, c: State, i: nat, hfree: int)
    requires Linked(m.ads, hfree, c.free) && Sizes(m, c) && Chained(o, c)
    requires i + 1 < |c.free| && c.End(c.free[i]) == c.free[i + 1]
    ensures var a, b := c.free[i], c.free[i + 1];
      && a in m.ads && b in m.ads
      && var m' := SetAd(m, a, m.ads[a].(nbytes := m.ads[a].nbytes + m.ads[b].nbytes, next := m.ads[b].next));
         Linked(m'.ads, hfree, Merge(c, i).free) && Sizes(m', Merge(c, i)) && InUseKept(m, m', c)
  {
    hide HeapChain, StackChain, UsedList, Apart, Linked;
    var a, b := c.free[i], c.free[i + 1];
    MergeTest(o, m, c, i, hfree);
    MergeTest(o, m, c, i + 1, hfree);
    assert a in c.free && c.FreeAt(a) && b in c.free && c.FreeAt(b);
    SortedNoDup(c.free);
    var m' := SetAd(m, a, m.ads[a].(nbytes := m.ads[a].nbytes + m.ads[b].nbytes, next := m.ads[b].next));
    assert forall x :: x in c.free ==> x in c.size && x in m.ads;
    LinkOut(m.ads, m'.ads, hfree, c.free, i + 1);
    assert c.free[..i + 1] + c.free[i + 1 + 1..] == Merge(c, i).free;
  }

  lemma NumalignBacked(cfg: Config, m: Memory, s: State, value: int)
    requires cfg.Valid() && LaidOut(cfg, s) && Descs(cfg, m, s) && Sizes(m, s)
    ensures var s' := SetNumalign(s, value).0; LaidOut(cfg, s') && Descs(cfg, m, s') && Sizes(m, s')
  {}

  /** Where the room a new block at a may use ends. */
  ghost function RoomEnd(s: State, a: int): int {
    if a in s.size then s.End(a) else s.sp
  }

  lemma KeptRefl(cfg: Config, m: Memory, s: State)
    requires cfg.Valid()
    ensures ClientBytesKept(cfg, m, m, s, s)
  {}

  lemma FreeInSize(cfg: Config, s: State)
    requires cfg.Valid() && Inv(cfg, s)
    ensures Tiled(cfg.Overhead(), s) && forall k :: 0 <= k < |s.free| ==> s.free[k] in s.size && s.free[k] > 0
  {
    TiledFree(cfg.Overhead(), s);
  }

  lemma ExtendAds(o: int, cfg: Config, m: Memory, s: State, nbytes: int, ad: Ad)
    requires 0 < cfg.adSize <= o && Blocks(o, s) && Sizes(m, s) && o <= nbytes && s.hp + nbytes <= s.sp
    requires forall x :: x in s.size && x >= s.hp ==> x >= s.sp && x in s.desc
    ensures s.hp !in s.size
    ensures forall x :: x in s.size ==> x in PutAd(cfg, m, s.hp, ad).ads && PutAd(cfg, m, s.hp, ad).ads[x] == m.ads[x]
    ensures s.hp in PutAd(cfg, m, s.hp, ad).ads && PutAd(cfg, m, s.hp, ad).ads[s.hp] == ad
  {}

  /** A descriptor written at ma_hp. */
  lemma ExtendMemory(cfg: Config, m: Memory, s: State, t: TypeIndex, n: nat, ad: Ad, head: int)
    requires cfg.Valid() && Inv(cfg, s) && Sizes(m, s) && Linked(m.ads, head, s.free)
    requires ad.nbytes == BallocAfter(cfg, s.numalign, t, n, s.hp).nbytes && s.hp + ad.nbytes <= s.sp
    ensures var m' := PutAd(cfg, m, s.hp, ad);
      && Sizes(m', Extend(s, ad.nbytes)) && Linked(m'.ads, head, s.free) && s.hp in m'.ads && m'.ads[s.hp] == ad
      && Frame(cfg, m, m', s, s.hp, RoomEnd(s, s.hp))
  {
    hide HeapChain, UsedList, Coalesced, StackChain, FreeList, PutAd, Frame, Linked, Apart;
    BallocAfterLayout(cfg, s.numalign, t, n, s.hp);
    LengthNonneg(n, cfg.size[t]);
    SizedAboveHeap(s);
    TiledFree(cfg.Overhead(), s);
    ExtendAds(cfg.Overhead(), cfg, m, s, ad.nbytes, ad);
    var m' := PutAd(cfg, m, s.hp, ad);
    LinkedElsewhere(m.ads, m'.ads, head, s.free);
    PutAdFrame(cfg, m, s, s.hp, ad);
    FrameWiden(cfg, m, m', s, s.hp, s.hp + cfg.adSize, s.hp, s.sp);
  }

  /** What is known of the room found and of the state in which it is entered. */
  lemma RoomFacts(cfg: Config, s: State, t: TypeIndex, n: nat)
    requires cfg.Valid() && Inv(cfg, s) && s.ready && FindSpace(cfg, s, t, n).Space?
    ensures var f := FindSpace(cfg, s, t, n);
      var e := Enter(f.state, f.address, Desc(f.client, t, n));
      && RoomFor(cfg, s, e, f.address, RoomEnd(s, f.address), Desc(f.client, t, n))
      && e == s.(hp := e.hp, free := e.free, size := e.size, used := [f.address] + s.used,
                 desc := s.desc[f.address := Desc(f.client, t, n)])
      && e.hp == (if e.End(f.address) > s.hp then e.End(f.address) else s.hp)
      && f.state.free == e.free && f.state.size == e.size
  {
    hide Tiled;
    var f := FindSpace(cfg, s, t, n);
    SpaceKeepsTiling(cfg, s, t, n);
    SpaceIsNew(cfg, s, t, n);
    AllocateSurvivors(cfg, s, t, n, true);
    FindFitSpec(cfg, s, t, n, 0);
    RoomApart(cfg, s, t, n);
  }

  /** Block a, with descriptor d, is new in e; it and its room overlap no block in use in s. */
  ghost predicate RoomFor(cfg: Config, s: State, e: State, a: int, hi: int, d: Desc)
    requires cfg.Valid()
  {
    && a > 0 && a !in s.desc && Tiled(cfg.Overhead(), e) && a in e.size && e.desc == s.desc[a := d]
    && Contains(cfg, a, e.Size(a), d.client, d.dtype, d.nelem) && e.End(a) <= hi
    && (forall x :: x in s.desc ==> e.Size(x) == s.Size(x) && (x + s.Size(x) <= a || hi <= x))
  }

  lemma RoomForFacts(cfg: Config, s: State, e: State, a: int, hi: int, d: Desc)
    requires cfg.Valid() && RoomFor(cfg, s, e, a, hi, d)
    ensures a > 0 && a !in s.desc && Tiled(cfg.Overhead(), e) && a in e.size && a in e.desc && e.desc[a] == d
    ensures Contains(cfg, a, e.size[a], d.client, d.dtype, d.nelem)
    ensures forall x :: x in s.desc ==> x + s.Size(x) <= a || hi <= x
  {}

  /** MA_allocate_heap on values, case by case. */
  lemma AllocateResult(cfg: Config, s: State, d: int, n: int, growOk: bool)
    requires cfg.Valid() && T.Ok(s.table)
    ensures !s.ready || !ValidType(d) || n < 0 ==> MaState.AllocateHeap(cfg, s, d, n, growOk) == (s, T.HANDLE_NONE)
    ensures s.ready && ValidType(d) && n >= 0 ==>
      var f := FindSpace(cfg, s, d - MT_BASE, n);
      MaState.AllocateHeap(cfg, s, d, n, growOk) ==
        if f.NoSpace? then (s, T.HANDLE_NONE)
        else
          var r := T.Allocate(s.table, f.address, growOk);
          (Enter(f.state, f.address, Desc(f.client, d - MT_BASE, n)).(table := r.0), r.1)
  {}

  /** The end and ma_hp of a block cut from free block i, and of one added at ma_hp. */
  lemma RoomEnds(m: int, s: State, i: nat, need: int)
    requires m > 0 && need > 0
    ensures i < |s.free| ==> Carve(m, s, i, need).hp == s.hp
    ensures i < |s.free| ==>
      Carve(m, s, i, need).End(s.free[i]) == s.free[i] + (if s.Size(s.free[i]) - need >= m then need else s.Size(s.free[i]))
    ensures Extend(s, need).hp == s.hp + need == Extend(s, need).End(s.hp)
  {}

  lemma RoomApart(cfg: Config, s: State, t: TypeIndex, n: nat)
    requires cfg.Valid() && Inv(cfg, s) && s.ready && FindSpace(cfg, s, t, n).Space?
    ensures var f := FindSpace(cfg, s, t, n);
      var a := f.address;
      && a > 0 && f.state.End(a) <= RoomEnd(s, a)
      && f.state.hp == (if f.state.End(a) > s.hp then f.state.End(a) else s.hp)
      && (forall x :: x in s.desc ==> x + s.Size(x) <= a || RoomEnd(s, a) <= x)
  {
    var i := FindFit(cfg, s, t, n, 0);
    var a := if i < |s.free| then s.free[i] else s.hp;
    FindFitSpec(cfg, s, t, n, 0);
    BallocAfterLayout(cfg, s.numalign, t, n, a);
    LengthNonneg(n, cfg.size[t]);
    MinBlockBounds(cfg);
    RoomEnds(cfg.MinBlock(), s, i, BallocAfter(cfg, s.numalign, t, n, a).nbytes);
    HoleApart(cfg, s, a);
    hide Inv, BallocAfter, FindFit, Carve, Extend;
  }

  /** No block in use reaches into the free block, or the gap above the heap, at a. */
  lemma HoleApart(cfg: Config, s: State, a: int)
    requires cfg.Valid() && Inv(cfg, s) && s.ready && (a in s.free || a == s.hp < s.sp)
    ensures a > 0 && if a in s.free then a in s.size && s.End(a) <= s.hp else a !in s.size
    ensures forall x :: x in s.desc ==> x + s.Size(x) <= a || RoomEnd(s, a) <= x
  {
    hide HeapChain, UsedList, Coalesced, HandlesSound;
    SizedAboveHeap(s);
    TiledFree(cfg.Overhead(), s);
    DescInSize(cfg, s);
  }

  /** Lists of blocks in use are still linked after a change to the room of a new block. */
  lemma RoomLinked(cfg: Config, m0: Memory, m1: Memory, s: State, a: int, hi: int, head: int, l: seq<int>)
    requires Frame(cfg, m0, m1, s, a, hi) && Linked(m0.ads, head, l)
    requires forall x :: x in l ==> x in s.desc && (x + s.Size(x) <= a || hi <= x)
    ensures Linked(m1.ads, head, l)
  {
    assert forall k :: 0 <= k < |l| ==> l[k] in l;
    LinkedElsewhere(m0.ads, m1.ads, head, l);
  }

  /** Blocks in use before are intact once the new block is in use. */
  lemma BlockEntered(cfg: Config, m0: Memory, m1: Memory, m2: Memory, s: State, e: State, a: int, hi: int, d: Desc)
    requires cfg.Valid() && RoomFor(cfg, s, e, a, hi, d) && LaidOut(cfg, s) && Descs(cfg, m0, s)
    requires Frame(cfg, m0, m1, s, a, hi) && Frame(cfg, m1, m2, e, a, e.End(a)) && Sealed(cfg, m2, a, d)
    ensures Descs(cfg, m2, e) && ClientBytesKept(cfg, m0, m2, s, e)
  {
    hide Tiled, Frame, Sealed;
    forall x | x in s.desc
      ensures Sealed(cfg, m2, x, s.desc[x]) && BytesKept(m0, m2, s.desc[x].client, Guard2At(cfg, s.desc[x]))
    {
      FrameSealed(cfg, m0, m1, s, x, a, hi);
      FrameSealed(cfg, m1, m2, e, x, a, e.End(a));
      FrameBytes(cfg, m0, m1, s, a, hi, s.desc[x].client, Guard2At(cfg, s.desc[x]));
      FrameBytes(cfg, m1, m2, e, a, e.End(a), s.desc[x].client, Guard2At(cfg, s.desc[x]));
    }
  }

  lemma FrameBytes(cfg: Config, m: Memory, m': Memory, s: State, lo: int, hi: int, from: int, to: int)
    requires Frame(cfg, m, m', s, lo, hi) && (to <= lo || hi <= from)
    ensures BytesKept(m, m', from, to)
  {}

  /** The new block in front of its list, and the other lists as they were. */
  lemma ListPushed(m1: Memory, m2: Memory, a: int, head: int, l: seq<int>)
    requires Linked(m1.ads, head, l) && a != 0 && a in m2.ads && m2.ads[a].next == head && a !in l
    requires forall x :: x in l ==> x in m2.ads && m2.ads[x] == m1.ads[x]
    ensures Linked(m2.ads, a, [a] + l)
  {
    var t := [a] + l;
    forall i | 0 <= i < |t|
      ensures t[i] in m2.ads && t[i] != 0 && m2.ads[t[i]].next == After(t, i)
    {
      if i > 0 { assert t[i] == l[i - 1] && l[i - 1] in l && m1.ads[l[i - 1]].next == After(l, i - 1); }
    }
  }

  lemma ListKept(m1: Memory, m2: Memory, head: int, l: seq<int>)
    requires Linked(m1.ads, head, l) && forall x :: x in l ==> x in m2.ads && m2.ads[x] == m1.ads[x]
    ensures Linked(m2.ads, head, l)
  {
    LinkedElsewhere(m1.ads, m2.ads, head, l);
  }

  /** Members of the three lists of a tiled state. */
  lemma ListMembers(o: int, s: State)
    requires Tiled(o, s)
    ensures Blocks(o, s)
    ensures forall x :: x in s.free ==> x in s.size && x !in s.desc
    ensures forall x :: x in s.used ==> x in s.size && x in s.desc && x < s.hp
    ensures forall x :: x in s.stack ==> x in s.size && x in s.desc && x >= s.hp
  {
    forall x | x in s.stack
      ensures x in s.desc && x >= s.hp
    {
      var k :| 0 <= k < |s.stack| && s.stack[k] == x;
    }
  }

  lemma ChecksumOf(cfg: Config, ad: Ad, c: int)
    ensures Checksum(cfg, ad.(checksum := c)) == Checksum(cfg, ad)
    ensures forall k, x :: Checksum(cfg, ad.(next := k, checksum := x)) == Checksum(cfg, ad)
  {}

  lemma OwnAdFrame(cfg: Config, m: Memory, a: int, ad: Ad, s: State)
    requires cfg.Valid() && Blocks(cfg.Overhead(), s) && a in s.size
    ensures Frame(cfg, m, SetAd(m, a, ad), s, a, s.End(a))
  {}

  /** A guard inside block a overlaps no block's descriptor. */
  lemma GuardsElsewhere(cfg: Config, m: Memory, s: State, a: int, g: int, v: int)
    requires cfg.Valid() && Blocks(cfg.Overhead(), s) && Sizes(m, s) && a in s.size
    requires a + cfg.adSize <= g && g + cfg.guardSize <= s.End(a)
    ensures forall x :: x in s.size ==> x in PutGuard(cfg, m, g, v).ads && PutGuard(cfg, m, g, v).ads[x] == m.ads[x]
    ensures Sizes(PutGuard(cfg, m, g, v), s)
    ensures Frame(cfg, m, PutGuard(cfg, m, g, v), s, a, s.End(a))
    ensures g in PutGuard(cfg, m, g, v).guards && PutGuard(cfg, m, g, v).guards[g] == v
  {}

  lemma GuardStays(cfg: Config, m: Memory, g: int, g': int, v: int)
    requires cfg.Valid() && g in m.guards && g + cfg.guardSize <= g'
    ensures g in PutGuard(cfg, m, g', v).guards && PutGuard(cfg, m, g', v).guards[g] == m.guards[g]
  {}

  lemma GuardRange(cfg: Config, s: State, a: int)
    requires cfg.Valid() && a in s.size && a in s.desc
    requires Contains(cfg, a, s.size[a], s.desc[a].client, s.desc[a].dtype, s.desc[a].nelem)
    ensures var g1, g2 := s.desc[a].client - cfg.guardSize, Guard2At(cfg, s.desc[a]);
      && a + cfg.adSize <= g1 && g1 + cfg.guardSize <= g2 && g2 + cfg.guardSize <= s.End(a)
  {}

  /** Writing guard2 leaves guard1. */
  lemma GuardsBoth(cfg: Config, m: Memory, m': Memory, s: State, a: int)
    requires cfg.Valid() && Blocks(cfg.Overhead(), s) && Sizes(m, s) && a in s.size && a in s.desc
    requires Contains(cfg, a, s.size[a], s.desc[a].client, s.desc[a].dtype, s.desc[a].nelem)
    requires var d := s.desc[a];
      && m' == PutGuard(cfg, PutGuard(cfg, m, d.client - cfg.guardSize, GUARD1), Guard2At(cfg, d), GUARD2)
      && m.ads[a].dtype == d.dtype && m.ads[a].nelem == d.nelem && m.ads[a].client == d.client
      && m.ads[a].checksum == Checksum(cfg, m.ads[a])
    ensures Sizes(m', s) && Sealed(cfg, m', a, s.desc[a]) && Frame(cfg, m, m', s, a, s.End(a))
    ensures forall x :: x in s.size ==> x in m'.ads && m'.ads[x] == m.ads[x]
  {
    hide Blocks, Contains, Frame, Checksum, Sizes, PutGuard, Guard2At;
    var d := s.desc[a];
    var g1, g2 := d.client - cfg.guardSize, Guard2At(cfg, d);
    var m1 := PutGuard(cfg, m, g1, GUARD1);
    GuardRange(cfg, s, a);
    GuardsElsewhere(cfg, m, s, a, g1, GUARD1);
    GuardsElsewhere(cfg, m1, s, a, g2, GUARD2);
    GuardStays(cfg, m1, g1, g2, GUARD2);
    FrameCompose(cfg, m, m1, m', s, a, s.End(a));
  }

  lemma FrameRefl(cfg: Config, m: Memory, s: State, lo: int, hi: int)
    ensures Frame(cfg, m, m, s, lo, hi)
  {}

  lemma SizeOf(m: Memory, s: State, a: int)
    requires Sizes(m, s) && a in s.size
    ensures a in m.ads && m.ads[a].nbytes == s.size[a]
  {}

  lemma SizesEq(s: State, t: State)
    requires t.size == s.size
    ensures forall m :: Sizes(m, s) ==> Sizes(m, t)
  {}

  lemma SizesSame(m: Memory, s: State, t: State)
    requires Sizes(m, s) && t.size == s.size
    ensures Sizes(m, t)
  {}

  lemma TiledFree(o: int, s: State)
    requires Tiled(o, s)
    ensures Blocks(o, s) && Sorted(s.free)
    ensures forall x :: x in s.free ==> s.FreeAt(x) && s.HeapAt(x) && x > 0
    ensures forall k :: 0 <= k < |s.free| ==> s.free[k] in s.free && s.free[k] in s.size
  {
    forall x | x in s.free
      ensures s.FreeAt(x) && s.HeapAt(x) && x > 0
    {
      FreeIsHeap(s, x);
      assert x in s.size && x < s.hp;
    }
    forall k | 0 <= k < |s.free|
      ensures s.free[k] in s.free && s.free[k] in s.size
    {
      assert s.free[k] in s.free;
    }
  }

  lemma FrameOfSplit(cfg: Config, m: Memory, m': Memory, s: State, ad: int, need: int)
    requires SplitMemory(cfg, m, m', s, ad, need)
    ensures Frame(cfg, m, m', s, ad, s.End(ad))
  {}

  lemma CarveSize(m: int, s: State, i: nat, need: int)
    requires i < |s.free|
    ensures Carve(m, s, i, need).size == if s.Size(s.free[i]) - need >= m then SplitUsed(s, s.free[i], need).size else s.size
  {}

  /** The free list after the split, with the block taken still on it. */
  lemma CarveLinks(m: int, s: State, i: nat, need: int, l: seq<int>)
    requires Apart(s) && Sorted(s.free) && i < |s.free| && 0 < need && m > 0
    requires forall x :: x in s.free ==> x in s.size && x !in s.desc
    requires forall x :: x in s.desc ==> x in s.size
    requires forall k :: 0 <= k < |s.free| ==> s.free[k] in s.size
    requires l == if s.Size(s.free[i]) - need >= m then Insert(s.free, s.free[i] + need) else s.free
    ensures NoDup(l) && i < |l| && l[i] == s.free[i] && (i > 0 ==> l[i - 1] == s.free[i - 1])
    ensures l[..i] + l[i + 1..] == Carve(m, s, i, need).free
    ensures forall x :: x in l ==> x !in s.desc
  {
    hide Insert, NoDup, Sorted;
    var a, b := s.free[i], s.free[i] + need;
    if s.Size(a) - need >= m {
      assert b !in s.size;
      NewFollows(s, i, b);
      InsertSpec(s.free, b);
      InsertThenDrop(s.free, i, b);
      SortedNoDup(l);
    } else {
      SortedNoDup(l);
    }
  }

  lemma NewFollows(s: State, i: nat, b: int)
    requires Apart(s) && Sorted(s.free) && i < |s.free| && s.free[i] < b < s.End(s.free[i])
    requires forall k :: 0 <= k < |s.free| ==> s.free[k] in s.size
    ensures Insert(s.free, b) == s.free[..i + 1] + [b] + s.free[i + 1..]
  {
    hide Insert;
    assert i + 1 < |s.free| ==> s.free[i] + s.size[s.free[i]] <= s.free[i + 1];
    InsertAt(s.free, i + 1, b);
  }

  lemma InsertThenDrop(s: seq<int>, i: nat, b: int)
    requires i < |s|
    ensures var l := s[..i + 1] + [b] + s[i + 1..];
      |l| == |s| + 1 && l[..i] + l[i + 1..] == s[i := b] && l[i] == s[i] && (i > 0 ==> l[i - 1] == s[i - 1])
  {}

  lemma SetClient(cfg: Config, m: Memory, c: State, s: State, a: int, client: int, head: int, l: seq<int>, hi: int)
    requires a in m.ads && Linked(m.ads, head, l) && Sizes(m, c) && a !in s.desc
    ensures var m' := SetAd(m, a, m.ads[a].(client := client));
      Linked(m'.ads, head, l) && Sizes(m', c) && Frame(cfg, m, m', s, a, hi)
  {
    LinkedElsewhere(m.ads, SetAd(m, a, m.ads[a].(client := client)).ads, head, l);
  }

  lemma SameLinks(m: Memory, ad: int, need: int, head: int, s: seq<int>)
    requires ad in m.ads && Linked(m.ads, head, s)
    ensures Linked(SetAd(m, ad, m.ads[ad].(nbytes := need)).ads, head, s)
  {
    LinkedElsewhere(m.ads, SetAd(m, ad, m.ads[ad].(nbytes := need)).ads, head, s);
  }

  lemma {:induction false} CoalesceHp(s: State, i: nat)
    ensures Coalesce(s, i).hp == s.hp
    decreases |s.free| - i
  {
    if i + 1 < |s.free| {
      if s.End(s.free[i]) == s.free[i + 1] { CoalesceHp(Merge(s, i), i); } else { CoalesceHp(s, i + 1); }
    }
  }

  /** The three writes of a split, taken together. */
  lemma SplitMemoryHolds(cfg: Config, m0: Memory, m1: Memory, m2: Memory, s: State, ad: int, need: int, ad2: Ad,
          w: set<int>)
    requires cfg.Valid() && Blocks(cfg.Overhead(), s) && Sizes(m0, s) && s.HeapAt(ad)
    requires cfg.Overhead() <= need && cfg.Overhead() <= s.size[ad] - need && ad2.nbytes == s.size[ad] - need
    requires m1 == PutAd(cfg, m0, ad + need, ad2) && LinksOnly(m1, m2, w) && forall x :: x in w ==> x !in s.desc
    ensures ad in m2.ads
    ensures var m3 := SetAd(m2, ad, m2.ads[ad].(nbytes := need));
      && Sizes(m3, SplitUsed(s, ad, need)) && SplitMemory(cfg, m0, m3, s, ad, need)
      && m3.ads[ad].next == m2.ads[ad].next && (ad !in w ==> m2.ads[ad].next == m0.ads[ad].next)
  {
    PutAdElsewhere(cfg, m0, s, ad, need, ad2);
    assert forall x :: x in m1.ads <==> x in m2.ads.Keys;
    var m3 := SetAd(m2, ad, m2.ads[ad].(nbytes := need));
    SplitFrame(cfg, m0, m1, m2, s, ad, need, ad2, w);
  }

  lemma SplitFrame(cfg: Config, m0: Memory, m1: Memory, m2: Memory, s: State, ad: int, need: int, ad2: Ad, w: set<int>)
    requires cfg.Valid() && Blocks(cfg.Overhead(), s) && Sizes(m0, s) && s.HeapAt(ad)
    requires cfg.Overhead() <= need && cfg.Overhead() <= s.size[ad] - need
    requires m1 == PutAd(cfg, m0, ad + need, ad2) && LinksOnly(m1, m2, w) && forall x :: x in w ==> x !in s.desc
    ensures ad in m2.ads && Frame(cfg, m0, SetAd(m2, ad, m2.ads[ad].(nbytes := need)), s, ad, ad + s.Size(ad))
  {
    PutAdElsewhere(cfg, m0, s, ad, need, ad2);
    LinksInUse(m1, m2, w, s);
    assert forall x :: x in m1.ads <==> x in m2.ads.Keys;
    PutAdFrame(cfg, m0, s, ad + need, ad2);
    FrameWiden(cfg, m0, m1, s, ad + need, ad + need + cfg.adSize, ad, ad + s.Size(ad));
  }

  /** Memory after a split: descriptors of blocks in use other than ad, guards and bytes
      outside the new descriptor are as before; of ad's own descriptor only nbytes differs. */
  ghost predicate SplitMemory(cfg: Config, m: Memory, m': Memory, s: State, ad: int, need: int) {
    && Frame(cfg, m, m', s, ad, ad + s.Size(ad))
    && ad in m.ads && ad in m'.ads && m'.ads[ad] == m.ads[ad].(nbytes := need, next := m'.ads[ad].next)
    && (forall g :: g in m.guards && (g + cfg.guardSize <= ad + need || ad + need + cfg.adSize <= g) ==> g in m'.guards && m'.guards[g] == m.guards[g])
    && (forall x :: x in m.data && (x < ad + need || ad + need + cfg.adSize <= x) ==> x in m'.data && m'.data[x] == m.data[x])
  }

  /** The descriptor of the block split off overlaps no block's descriptor. */
  lemma PutAdElsewhere(cfg: Config, m: Memory, s: State, ad: int, need: int, new_: Ad)
    requires cfg.Valid() && Blocks(cfg.Overhead(), s) && Sizes(m, s) && ad in s.size
    requires cfg.Overhead() <= need && cfg.Overhead() <= s.size[ad] - need && s.HeapAt(ad)
    ensures ad + need !in s.size && 0 < ad + need && ad + need in PutAd(cfg, m, ad + need, new_).ads
    ensures forall x :: x in s.size ==> x in PutAd(cfg, m, ad + need, new_).ads && PutAd(cfg, m, ad + need, new_).ads[x] == m.ads[x]
  {}

  /** What the heap keeps to while block ad is on no list. */
  lemma LimboHeap(o: int, s: State, ad: int)
    requires Limbo(o, s, ad)
    ensures NoDup(s.used) && Sorted(s.free) && Bounds(o, s) && ad in s.size && ad !in s.desc && ad != 0
    ensures forall x :: x in s.used ==> x in s.size && x in s.desc && x > 0
    ensures forall x :: x in s.free ==> x in s.size && x !in s.desc && x != 0
  {}

  lemma TruncatedIsChained(o: int, s: State, ad: int, m: int)
    requires Limbo(o, s, ad) && ad < m && m == MaxFrom(s.used, 0) && m != 0
    ensures var t := Truncate(s, m);
      && ad in t.size && ad !in t.free && NoDup(t.free) && (forall x :: x in t.free ==> x in s.size && x !in s.desc) && Chained(o, t.(free := Insert(t.free, ad)))
      && (forall x :: x in t.size ==> x in s.size && t.size[x] == s.size[x])
  {
    MaxFromSpec(s.used, 0);
    assert m in s.used && Rightmost(s, m);
    TruncateKeeps(o, s, ad, m);
    TruncateFree(o, s, ad, m);
    var t := Truncate(s, m);
    InsertSpec(t.free, ad);
    SameBlocksKept(o, t, t.(free := Insert(t.free, ad)));
    SortedNoDup(t.free);
  }

  /** The list without its k-th element. */
  lemma SkipSpec(l: seq<int>, k: nat)
    requires k < |l|
    ensures var t := l[..k] + l[k + 1..];
      && |t| == |l| - 1 && t[..k] == l[..k] && t[k..] == l[k + 1..] && Elems(t) <= Elems(l)
      && (NoDup(l) ==> NoDup(t))
  {}

  lemma SortedNoDup(s: seq<int>)
    requires Sorted(s)
    ensures NoDup(s)
  {}
}
