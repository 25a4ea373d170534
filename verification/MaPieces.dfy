/** MA_free_heap_piece in memory, whether or not the kept elements fit: which records its two guards
    destroy, and when the lists and lengths still are those of the new state. */
module MaPieces {
  import opened MaLayout
  import opened Lists
  import opened MaState
  import opened MaTiling
  import opened MaRuns
  import opened MaClients
  import opened MaMemory
  import opened MaSteps
  import T = MaTable

  /** A guard at g misses the descriptor at b. */
  predicate Misses(cfg: Config, g: int, b: int) {
    g + cfg.guardSize <= b || b + cfg.adSize <= g
  }

  predicate UsedAbove(s: State, a: int) {
    exists u :: u in s.used && u > a
  }

  /** The test a caller could make before a partial free: if it cuts off a piece that stays in the heap
      region, because some block in use lies above it, neither guard of the kept elements lies on that
      piece's descriptor. */
  ghost predicate PieceSpares(cfg: Config, s: State, h: int, n: int)
    requires cfg.Valid() && UsedList(s)
  {
    HeapHandle(s, h) ==>
      var a := T.Lookup(s.table, h);
      0 <= n < s.desc[a].nelem ==>
        var keep := s.desc[a].nelem - n;
        var need := KeptTrial(cfg, s, a, keep).nbytes;
        Splits(cfg.MinBlock(), s, a, need) && UsedAbove(s, a) ==>
          && Misses(cfg, s.desc[a].client - cfg.guardSize, a + need)
          && Misses(cfg, s.desc[a].client + keep * cfg.size[s.desc[a].dtype], a + need)
  }

  /** A partial free that fits spares every descriptor. */
  lemma FitsSpares(cfg: Config, s: State, h: int, n: int)
    requires cfg.Valid() && UsedList(s) && PieceFits(cfg, s, h, n)
    requires HeapHandle(s, h) ==> T.Lookup(s.table, h) in s.desc
    ensures PieceSpares(cfg, s, h, n)
  {
    hide BallocAfter, UsedList;
    if HeapHandle(s, h) {
      var a := T.Lookup(s.table, h);
      if 0 <= n < s.desc[a].nelem { LengthNonneg(s.desc[a].nelem - n, cfg.size[s.desc[a].dtype]); }
    }
  }

  // ---------- the piece that is cut off ----------

  lemma {:induction false} CoalesceSizes(s: State, i: nat)
    ensures forall x :: x in Coalesce(s, i).size ==> x in s.size || x in s.free
    decreases |s.free| - i
  {
    if i + 1 < |s.free| {
      if s.End(s.free[i]) == s.free[i + 1] {
        CoalesceSizes(Merge(s, i), i);
        MergeSizes(s, i);
      } else {
        CoalesceSizes(s, i + 1);
      }
    }
  }

  lemma MergeSizes(s: State, i: nat)
    requires i + 1 < |s.free|
    ensures forall x :: x in Merge(s, i).size ==> x in s.size || x in s.free
    ensures forall x :: x in Merge(s, i).free ==> x in s.free
  {}

  lemma {:induction false} InsertIn(s: seq<int>, a: int)
    ensures forall x :: x in Insert(s, a) ==> x == a || x in s
  {
    if s != [] {
      assert forall x :: x in s[1..] ==> x in s;
      InsertIn(s[1..], a);
    }
  }

  lemma {:induction false} UpToIn(s: seq<int>, m: int)
    ensures forall x :: x in UpTo(s, m) ==> x in s
  {
    if s != [] {
      assert forall x :: x in s[1..] ==> x in s;
      UpToIn(s[1..], m);
    }
  }

  /** Reclaiming a block makes no block that was not there. */
  lemma ReclaimSizes(s: State, a: int)
    requires a in s.size && forall x :: x in s.free ==> x in s.size
    ensures forall x :: x in Reclaim(s, a).size ==> x in s.size
  {
    var m := MaxFrom(s.used, 0);
    if m != 0 && a < m {
      var t := Truncate(s, m);
      UpToIn(s.free, m);
      InsertIn(t.free, a);
      CoalesceSizes(t.(free := Insert(t.free, a)), 0);
      hide Coalesce, Insert, UpTo;
    }
  }

  lemma ShrinkSizes(m: int, s: State, a: int, need: int)
    requires a in s.size && forall x :: x in s.free ==> x in s.size
    ensures forall x :: x in Shrink(m, s, a, need).size ==> x in s.size || (Splits(m, s, a, need) && x == a + need)
  {
    hide Reclaim;
    if Splits(m, s, a, need) { ReclaimSizes(SplitUsed(s, a, need), a + need); }
  }

  /** What a partial free leaves besides block a and the piece cut off lies outside the block as it was. */
  lemma PieceClear(cfg: Config, s: State, f: State, a: int, need: int)
    requires cfg.Valid() && Inv(cfg, s) && a in s.size && f.size == Shrink(cfg.MinBlock(), s, a, need).size
    ensures forall x :: x in f.size && x != a && (Splits(cfg.MinBlock(), s, a, need) ==> x != a + need) ==>
      x + cfg.adSize <= a || s.End(a) <= x
  {
    BlocksOf(cfg, s);
    FreeHasSize(cfg, s);
    hide Inv;
    ShrinkSizes(cfg.MinBlock(), s, a, need);
    hide Shrink, Splits;
  }

  lemma FreeHasSize(cfg: Config, s: State)
    requires cfg.Valid() && Inv(cfg, s)
    ensures forall x :: x in s.free ==> x in s.size
  {
    ListMembersInv(cfg, s);
  }

  /** The piece cut off stays a block exactly when a block in use lies above. */
  lemma RestStays(o: int, s: State, f: State, a: int, b: int)
    requires Tiled(o, f) && a in f.size && a < f.hp && f.End(a) == b && b !in f.desc
    requires f.used == s.used
    ensures b in f.size <==> UsedAbove(s, a)
  {
    if b in f.size {
      FreeIsHeap(f, b);
      assert b in f.free;
      var k :| 0 <= k < |f.free| && f.free[k] == b;
      FreeEndsInUse(o, f, k);
      assert f.End(b) in f.used && f.End(b) > a;
    } else {
      assert f.HeapAt(a) && f.End(a) == f.hp;
      forall u | u in s.used
        ensures u <= a
      {
        assert f.UsedAt(u);
      }
    }
  }

  // ---------- the guards ----------

  /** Two guards written inside block a, as long as it was, destroy at most the descriptor at b. */
  lemma GuardsSpare(cfg: Config, m: Memory, f: State, a: int, hi: int, b: int, g1: int, g2: int)
    requires cfg.Valid() && Sizes(m, f) && a + cfg.adSize <= g1 && g1 + cfg.guardSize <= g2 && g2 + cfg.guardSize <= hi
    requires forall x :: x in f.size && x != a && x != b ==> x + cfg.adSize <= a || hi <= x
    ensures var m' := PutGuard(cfg, PutGuard(cfg, m, g1, GUARD1), g2, GUARD2);
      && (forall x :: x in f.size && x != b ==> x in m'.ads && m'.ads[x] == m.ads[x])
      && (b in f.size ==>
            && (b in m'.ads <==> Misses(cfg, g1, b) && Misses(cfg, g2, b))
            && (b in m'.ads ==> m'.ads[b] == m.ads[b]))
      && g1 in m'.guards && m'.guards[g1] == GUARD1 && g2 in m'.guards && m'.guards[g2] == GUARD2
  {}

  lemma SparedSizes(cfg: Config, m: Memory, f: State, a: int, hi: int, b: int, g1: int, g2: int)
    requires cfg.Valid() && Sizes(m, f) && a + cfg.adSize <= g1 && g1 + cfg.guardSize <= g2 && g2 + cfg.guardSize <= hi
    requires forall x :: x in f.size && x != a && x != b ==> x + cfg.adSize <= a || hi <= x
    ensures var m' := PutGuard(cfg, PutGuard(cfg, m, g1, GUARD1), g2, GUARD2);
      Sizes(m', f) <==> (b in f.size ==> Misses(cfg, g1, b) && Misses(cfg, g2, b))
    ensures var m' := PutGuard(cfg, PutGuard(cfg, m, g1, GUARD1), g2, GUARD2);
      Sizes(m', f) ==> forall x :: x in f.size ==> x in m'.ads && m'.ads[x] == m.ads[x]
  {
    GuardsSpare(cfg, m, f, a, hi, b, g1, g2);
    hide PutGuard, Misses;
  }

  lemma GuardFrame(cfg: Config, m: Memory, s: State, a: int, g: int, v: int)
    requires cfg.Valid() && Blocks(cfg.Overhead(), s) && a in s.size && a + cfg.adSize <= g && g + cfg.guardSize <= s.End(a)
    ensures Frame(cfg, m, PutGuard(cfg, m, g, v), s, a, s.End(a))
  {}

  /** The guards of the kept elements lie inside the block as it was. */
  lemma KeptGuards(cfg: Config, s: State, a: int, keep: int)
    requires cfg.Valid() && LaidOut(cfg, s) && a in s.desc && 0 <= keep <= s.desc[a].nelem
    ensures var g1, g2 := s.desc[a].client - cfg.guardSize, s.desc[a].client + keep * cfg.size[s.desc[a].dtype];
      a + cfg.adSize <= g1 && g1 + cfg.guardSize <= g2 && g2 + cfg.guardSize <= s.End(a)
  {
    LengthNonneg(keep, cfg.size[s.desc[a].dtype]);
    MulMonotone(keep, s.desc[a].nelem, cfg.size[s.desc[a].dtype]);
  }

  /** Where the descriptor is that the guards may destroy: that of the piece cut off, if one is. */
  function PieceAt(cfg: Config, s: State, a: int, need: int): int {
    if Splits(cfg.MinBlock(), s, a, need) then a + need else a
  }

  lemma SparesIff(cfg: Config, s: State, f: State, h: int, n: int, a: int, need: int)
    requires cfg.Valid() && Inv(cfg, s) && LaidOut(cfg, s) && HeapHandle(s, h) && a == T.Lookup(s.table, h)
    requires a in s.desc && UsedList(s) && 0 <= n < s.desc[a].nelem && f == FreePiece(cfg, s, h, n).0
    requires need == KeptTrial(cfg, s, a, s.desc[a].nelem - n).nbytes
    ensures var b := PieceAt(cfg, s, a, need);
      PieceSpares(cfg, s, h, n) <==>
        (b in f.size ==>
          && Misses(cfg, s.desc[a].client - cfg.guardSize, b)
          && Misses(cfg, s.desc[a].client + (s.desc[a].nelem - n) * cfg.size[s.desc[a].dtype], b))
  {
    hide Inv, FreePiece, BallocAfter, LaidOut, Splits, Shrink, UsedList, PieceSpares, PieceFits, UsedAbove;
    PieceFacts(cfg, s, h, n);
    KeptGuards(cfg, s, a, s.desc[a].nelem - n);
    SparesMeans(cfg, s, h, n);
    if Splits(cfg.MinBlock(), s, a, need) {
      CutIsNew(cfg, s, a, need);
      InvTiled(cfg, f);
      UsedInHeap(cfg, f, a);
      hide Misses, HeapHandle;
      RestStays(cfg.Overhead(), s, f, a, a + need);
    }
  }

  lemma SparesMeans(cfg: Config, s: State, h: int, n: int)
    requires cfg.Valid() && UsedList(s) && HeapHandle(s, h)
    requires var a := T.Lookup(s.table, h); a in s.desc && 0 <= n < s.desc[a].nelem
    ensures var a := T.Lookup(s.table, h);
      var keep := s.desc[a].nelem - n;
      var need := KeptTrial(cfg, s, a, keep).nbytes;
      PieceSpares(cfg, s, h, n) <==>
        (Splits(cfg.MinBlock(), s, a, need) && UsedAbove(s, a) ==>
          && Misses(cfg, s.desc[a].client - cfg.guardSize, a + need)
          && Misses(cfg, s.desc[a].client + keep * cfg.size[s.desc[a].dtype], a + need))
  {
    hide UsedList, BallocAfter, Splits, UsedAbove, Misses;
  }

  lemma CutIsNew(cfg: Config, s: State, a: int, need: int)
    requires cfg.Valid() && Inv(cfg, s) && a in s.used && 0 < need && Splits(cfg.MinBlock(), s, a, need)
    ensures a + need !in s.desc
  {
    MinBlockBounds(cfg);
    assert s.UsedAt(a);
    CutNew(cfg.Overhead(), s, a, need);
  }

  lemma InvTiled(cfg: Config, s: State)
    requires cfg.Valid() && Inv(cfg, s)
    ensures Tiled(cfg.Overhead(), s)
  {}

  lemma UsedInHeap(cfg: Config, s: State, a: int)
    requires cfg.Valid() && Inv(cfg, s) && a in s.used
    ensures a < s.hp
  {}

  // ---------- memory after a partial free ----------

  /** The client bytes of every block but that of handle h are kept. */
  ghost predicate OthersKept(cfg: Config, m: Memory, m': Memory, s: State, s': State, h: int)
    requires cfg.Valid()
  {
    forall x :: x in s.desc && x in s'.desc && x != T.Lookup(s.table, h) ==>
      BytesKept(m, m', s'.desc[x].client, Guard2At(cfg, s'.desc[x]))
  }

  lemma KeptOthers(cfg: Config, m: Memory, m': Memory, s: State, s': State, h: int)
    requires cfg.Valid() && ClientBytesKept(cfg, m, m', s, s')
    ensures OthersKept(cfg, m, m', s, s', h)
  {}

  /** Calls that keep no piece always spare it. */
  lemma PieceOtherwise(cfg: Config, s: State, h: int, n: int)
    requires cfg.Valid() && UsedList(s)
    requires !HeapHandle(s, h) || n < 0 || (T.Lookup(s.table, h) in s.desc && n >= s.desc[T.Lookup(s.table, h)].nelem)
    ensures PieceSpares(cfg, s, h, n) && PieceFits(cfg, s, h, n)
    ensures FreePiece(cfg, s, h, n) == if !HeapHandle(s, h) || n < 0 then (s, false) else FreeHeap(s, h)
  {
    hide UsedList, FreeHeap;
  }

  /** The descriptor and guards written at the end, whatever they overlap. */
  ghost predicate Rewritten(cfg: Config, m1: Memory, m2: Memory, m3: Memory, a: int, d: Desc)
    requires cfg.Valid()
  {
    && a in m1.ads
    && (var k := m1.ads[a].(nelem := d.nelem); m2 == SetAd(SetAd(m1, a, k), a, k.(checksum := Checksum(cfg, k))))
    && m3 == PutGuard(cfg, PutGuard(cfg, m2, d.client - cfg.guardSize, GUARD1), Guard2At(cfg, d), GUARD2)
  }

  /** Lists and lengths are those of f after the rewriting exactly when the descriptor at b is spared. */
  lemma RewrittenHolds(cfg: Config, m1: Memory, m2: Memory, m3: Memory, f: State, a: int, hi: int, b: int, hfree: int,
                       hused: int, sused: int)
    requires cfg.Valid() && a in f.desc && a in f.size && Sizes(m1, f) && Rewritten(cfg, m1, m2, m3, a, f.desc[a])
    requires var g1, g2 := f.desc[a].client - cfg.guardSize, Guard2At(cfg, f.desc[a]);
      a + cfg.adSize <= g1 && g1 + cfg.guardSize <= g2 && g2 + cfg.guardSize <= hi
    requires forall x :: x in f.size && x != a && x != b ==> x + cfg.adSize <= a || hi <= x
    requires forall x :: x in f.free || x in f.used || x in f.stack ==> x in f.size
    requires Linked(m1.ads, hfree, f.free) && Linked(m1.ads, hused, f.used) && Linked(m1.ads, sused, f.stack)
    ensures Sizes(m3, f) <==>
      (b in f.size ==> Misses(cfg, f.desc[a].client - cfg.guardSize, b) && Misses(cfg, Guard2At(cfg, f.desc[a]), b))
    ensures Sizes(m3, f) ==>
      Linked(m3.ads, hfree, f.free) && Linked(m3.ads, hused, f.used) && Linked(m3.ads, sused, f.stack)
  {
    hide PutGuard, Linked, Checksum, Misses, Guard2At, Sizes;
    var g1, g2 := f.desc[a].client - cfg.guardSize, Guard2At(cfg, f.desc[a]);
    RewrittenAds(cfg, m1, m2, m3, f, a);
    SparedSizes(cfg, m2, f, a, hi, b, g1, g2);
    if Sizes(m3, f) {
      hide Rewritten;
      LinkedElsewhere(m1.ads, m3.ads, hfree, f.free);
      LinkedElsewhere(m1.ads, m3.ads, hused, f.used);
      LinkedElsewhere(m1.ads, m3.ads, sused, f.stack);
    }
  }

  /** The descriptor is rewritten where it was, with its length and link. */
  lemma RewrittenAds(cfg: Config, m1: Memory, m2: Memory, m3: Memory, f: State, a: int)
    requires cfg.Valid() && a in f.desc && Sizes(m1, f) && Rewritten(cfg, m1, m2, m3, a, f.desc[a])
    ensures Sizes(m2, f) && forall x :: x in f.size ==> x in m1.ads && x in m2.ads && m2.ads[x].next == m1.ads[x].next
  {
    hide Checksum, PutGuard;
  }

  /** Every block in use is sealed afterwards, the kept one too, and the bytes of the others stay. */
  lemma RewrittenDescs(cfg: Config, m0: Memory, m1: Memory, m2: Memory, m3: Memory, s: State, f: State, a: int)
    requires cfg.Valid() && Blocks(cfg.Overhead(), s) && LaidOut(cfg, s) && Descs(cfg, m0, s) && a in s.desc && a in s.size
    requires a in f.desc && f.desc == s.desc[a := f.desc[a]] && Rewritten(cfg, m1, m2, m3, a, f.desc[a])
    requires f.desc[a].dtype == s.desc[a].dtype && f.desc[a].client == s.desc[a].client
    requires m1.ads[a].dtype == s.desc[a].dtype && m1.ads[a].client == s.desc[a].client
    requires var g1, g2 := f.desc[a].client - cfg.guardSize, Guard2At(cfg, f.desc[a]);
      a + cfg.adSize <= g1 && g1 + cfg.guardSize <= g2 && g2 + cfg.guardSize <= s.End(a)
    requires forall x :: x in s.desc && x != a ==> x + s.Size(x) <= a || s.End(a) <= x
    requires Frame(cfg, m0, m1, s, a, s.End(a))
    ensures Descs(cfg, m3, f)
    ensures forall x :: x in s.desc && x != a ==> BytesKept(m0, m3, s.desc[x].client, Guard2At(cfg, s.desc[x]))
  {
    hide Blocks, Frame, PutGuard, LaidOut, Checksum, Sealed, Rewritten, Guard2At;
    RewrittenIn(cfg, m1, m2, m3, f.desc[a], a);
    RewrittenFrame(cfg, m0, m1, m2, m3, s, a, f.desc[a]);
    RewrittenSealed(cfg, m1, m2, m3, f.desc[a], a);
    hide BytesKept;
    forall x | x in s.desc && x != a
      ensures Sealed(cfg, m3, x, f.desc[x]) && BytesKept(m0, m3, s.desc[x].client, Guard2At(cfg, s.desc[x]))
    {
      LaidOutBlock(cfg, s, x);
      FrameSealed(cfg, m0, m3, s, x, a, s.End(a));
      FrameBytes(cfg, m0, m3, s, a, s.End(a), s.desc[x].client, Guard2At(cfg, s.desc[x]));
    }
  }

  lemma RewrittenIn(cfg: Config, m1: Memory, m2: Memory, m3: Memory, d: Desc, a: int)
    requires cfg.Valid() && Rewritten(cfg, m1, m2, m3, a, d)
    ensures a in m1.ads
  {}

  lemma RewrittenFrame(cfg: Config, m0: Memory, m1: Memory, m2: Memory, m3: Memory, s: State, a: int, d: Desc)
    requires cfg.Valid() && Blocks(cfg.Overhead(), s) && a in s.size && Rewritten(cfg, m1, m2, m3, a, d)
    requires var g1, g2 := d.client - cfg.guardSize, Guard2At(cfg, d);
      a + cfg.adSize <= g1 && g1 + cfg.guardSize <= g2 && g2 + cfg.guardSize <= s.End(a)
    requires Frame(cfg, m0, m1, s, a, s.End(a))
    ensures Frame(cfg, m0, m3, s, a, s.End(a))
  {
    hide Blocks, Frame, PutGuard, Checksum, Guard2At;
    var g1, g2 := d.client - cfg.guardSize, Guard2At(cfg, d);
    var k := m1.ads[a].(nelem := d.nelem);
    OwnAdFrame(cfg, m1, a, k, s);
    OwnAdFrame(cfg, SetAd(m1, a, k), a, k.(checksum := Checksum(cfg, k)), s);
    GuardFrame(cfg, m2, s, a, g1, GUARD1);
    GuardFrame(cfg, PutGuard(cfg, m2, g1, GUARD1), s, a, g2, GUARD2);
    hide *;
    FrameCompose(cfg, m0, m1, SetAd(m1, a, k), s, a, s.End(a));
    FrameCompose(cfg, m0, SetAd(m1, a, k), m2, s, a, s.End(a));
    FrameCompose(cfg, m0, m2, PutGuard(cfg, m2, g1, GUARD1), s, a, s.End(a));
    FrameCompose(cfg, m0, PutGuard(cfg, m2, g1, GUARD1), m3, s, a, s.End(a));
  }

  lemma LaidOutBlock(cfg: Config, s: State, x: int)
    requires cfg.Valid() && LaidOut(cfg, s) && x in s.desc
    ensures Contains(cfg, x, s.Size(x), s.desc[x].client, s.desc[x].dtype, s.desc[x].nelem)
    ensures x <= s.desc[x].client && Guard2At(cfg, s.desc[x]) <= s.End(x)
  {}

  lemma RewrittenSealed(cfg: Config, m1: Memory, m2: Memory, m3: Memory, d: Desc, a: int)
    requires cfg.Valid() && Rewritten(cfg, m1, m2, m3, a, d) && m1.ads[a].dtype == d.dtype && m1.ads[a].client == d.client
    requires var g1, g2 := d.client - cfg.guardSize, Guard2At(cfg, d); a + cfg.adSize <= g1 && g1 + cfg.guardSize <= g2
    ensures Sealed(cfg, m3, a, d)
  {
    var k := m1.ads[a].(nelem := d.nelem);
    ChecksumOf(cfg, k, Checksum(cfg, k));
    hide Checksum;
  }

  /** After MA_free_heap_piece of some elements of block a, fitting or not: every block in use is sealed, the
      client bytes of the others stay, and lists and lengths are those of the new state exactly when the
      guards spare the piece cut off. */
  lemma PieceMemory(cfg: Config, m0: Memory, m1: Memory, m2: Memory, m3: Memory, s: State, f: State, h: int, n: int,
                    a: int, need: int, hfree: int, hused: int, sused: int)
    requires cfg.Valid() && Inv(cfg, s) && LaidOut(cfg, s) && Descs(cfg, m0, s) && HeapHandle(s, h)
    requires a == T.Lookup(s.table, h)
    requires a in s.desc && UsedList(s) && 0 <= n < s.desc[a].nelem && f == FreePiece(cfg, s, h, n).0
    requires need == KeptTrial(cfg, s, a, s.desc[a].nelem - n).nbytes
    requires Shrunk(cfg, m0, m1, s, a, need) && Sizes(m1, f)
    requires Linked(m1.ads, hfree, f.free) && Linked(m1.ads, hused, f.used) && Linked(m1.ads, sused, f.stack)
    requires a in f.desc && Rewritten(cfg, m1, m2, m3, a, f.desc[a])
    ensures Inv(cfg, f) && Descs(cfg, m3, f)
    ensures Sizes(m3, f) <==> PieceSpares(cfg, s, h, n)
    ensures Sizes(m3, f) ==>
      Linked(m3.ads, hfree, f.free) && Linked(m3.ads, hused, f.used) && Linked(m3.ads, sused, f.stack)
    ensures OthersKept(cfg, m0, m3, s, f, h)
  {
    hide Inv, FreePiece, Shrink, BallocAfter, PutGuard, Linked, Frame, Blocks, LaidOut, Sealed, UsedList, PieceSpares;
    hide Checksum, Sizes, Descs, Shrunk, Contains, PieceFits, Rewritten, Misses, Splits;
    PieceFacts(cfg, s, h, n);
    KeptGuards(cfg, s, a, s.desc[a].nelem - n);
    UsedInSize(cfg, s, a);
    DescsAt(cfg, m0, s, a);
    ShrunkAd(cfg, m0, m1, s, a, need);
    ShrunkFrame(cfg, m0, m1, s, a, need);
    SealedAd(cfg, m0, a, s.desc[a]);
    BlocksOf(cfg, s);
    OthersApart(cfg, s, a);
    RewrittenDescs(cfg, m0, m1, m2, m3, s, f, a);
    PieceClear(cfg, s, f, a, need);
    ListMembersInv(cfg, f);
    RewrittenHolds(cfg, m1, m2, m3, f, a, s.End(a), PieceAt(cfg, s, a, need), hfree, hused, sused);
    SparesIff(cfg, s, f, h, n, a, need);
  }

  /** When the kept elements fit, their bytes stay as well. */
  lemma FitsKeepsBytes(cfg: Config, m0: Memory, m1: Memory, m2: Memory, m3: Memory, s: State, f: State, h: int, n: int,
                       a: int, need: int)
    requires cfg.Valid() && Inv(cfg, s) && LaidOut(cfg, s) && HeapHandle(s, h) && a == T.Lookup(s.table, h)
    requires a in s.desc && UsedList(s) && 0 <= n < s.desc[a].nelem && f == FreePiece(cfg, s, h, n).0
    requires need == KeptTrial(cfg, s, a, s.desc[a].nelem - n).nbytes && PieceFits(cfg, s, h, n)
    requires Shrunk(cfg, m0, m1, s, a, need) && a in f.desc && Rewritten(cfg, m1, m2, m3, a, f.desc[a])
    requires OthersKept(cfg, m0, m3, s, f, h)
    ensures ClientBytesKept(cfg, m0, m3, s, f)
  {
    hide Inv, FreePiece, Shrink, PieceFits, BallocAfter, PutGuard, Frame, UsedList, Checksum, Shrunk, Contains, Splits;
    PieceFacts(cfg, s, h, n);
    LaidOutBlock(cfg, f, a);
    hide LaidOut, BytesKept;
    PieceBytes(cfg, m0, m1, m2, m3, s, f, a, need);
  }

  lemma OthersApart(cfg: Config, s: State, a: int)
    requires cfg.Valid() && Inv(cfg, s) && a in s.size
    ensures forall x :: x in s.desc && x != a ==> x + s.Size(x) <= a || s.End(a) <= x
  {
    DescInSize(cfg, s);
    BlocksOf(cfg, s);
    hide Inv;
  }
}
