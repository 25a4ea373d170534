/** Safety of the MA allocator over runs whose partial frees fit, and what the lists and lengths in memory
    say about every byte of the segment. */
module MaSafety {
  import opened MaLayout
  import opened Lists
  import opened MaState
  import opened MaTiling
  import opened MaRuns
  import opened MaClients
  import opened MaMemory
  import opened MaSteps
  import T = MaTable

  // ---------- runs ----------

  /** Byte x lies in the descriptor, a guard or the client space of block a. */
  predicate InParts(cfg: Config, s: State, a: int, x: int)
    requires cfg.Valid()
  {
    a in s.desc && (a <= x < a + cfg.adSize || s.desc[a].client - cfg.guardSize <= x < Guard2At(cfg, s.desc[a]) + cfg.guardSize)
  }

  lemma PartsOwned(cfg: Config, s: State, a: int, x: int)
    requires cfg.Valid() && LaidOut(cfg, s) && InParts(cfg, s, a, x) && a in s.size
    ensures Owns(s, a, x)
  {}

  /** After any run whose partial frees fit, every byte of the heap region belongs to exactly one heap block,
      every byte of the stack region to exactly one stack block, no byte between ma_hp and ma_sp to any, and
      the parts of a block in use to no other. */
  lemma EveryByteOwnedOnce(cfg: Config, ops: seq<Op>, x: int)
    requires cfg.Valid() && PiecesFit(cfg, ops)
    ensures var s := Run(cfg, ops);
      && s.segment <= s.hp <= s.sp <= s.eos
      && (s.segment <= x < s.hp <==> exists a :: s.HeapAt(a) && Owns(s, a, x))
      && (s.sp <= x < s.eos <==> exists a :: a in s.stack && Owns(s, a, x))
      && (forall a, b :: Owns(s, a, x) && Owns(s, b, x) ==> a == b)
      && (forall a :: InParts(cfg, s, a, x) ==> Owns(s, a, x))
      && (forall a, b :: InParts(cfg, s, a, x) && InParts(cfg, s, b, x) ==> a == b)
  {
    var s := Run(cfg, ops);
    OwnedOnValues(cfg, ops, x);
    RunLaidOut(cfg, ops);
    DescInSize(cfg, s);
    hide Inv, LaidOut, PiecesFit, Run, Owns, InParts;
    forall a | InParts(cfg, s, a, x)
      ensures Owns(s, a, x)
    {
      PartsIn(cfg, s, a, x);
      PartsOwned(cfg, s, a, x);
    }
  }

  lemma PartsIn(cfg: Config, s: State, a: int, x: int)
    requires cfg.Valid() && InParts(cfg, s, a, x)
    ensures a in s.desc
  {}

  /** ... the free list ascends, each free block is followed by a block in use, and no descriptor, guard or
      client space of a block in use reaches into a free block. */
  lemma FreeListCoalesced(cfg: Config, ops: seq<Op>, i: nat)
    requires cfg.Valid() && PiecesFit(cfg, ops) && i < |Run(cfg, ops).free|
    ensures var s := Run(cfg, ops);
      && s.UsedAt(s.End(s.free[i]))
      && (forall j :: i < j < |s.free| ==> s.End(s.free[i]) < s.free[j])
      && (forall a, x :: InParts(cfg, s, a, x) ==> !(s.free[i] <= x < s.End(s.free[i])))
  {
    var s := Run(cfg, ops);
    FreeListOnValues(cfg, ops, i);
    RunLaidOut(cfg, ops);
    FreeOwns(cfg, s, i);
    DescInSize(cfg, s);
    hide Inv, LaidOut, PiecesFit, Run;
    forall a, x | InParts(cfg, s, a, x)
      ensures !(s.free[i] <= x < s.End(s.free[i]))
    {
      PartsOwned(cfg, s, a, x);
    }
  }

  lemma FreeOwns(cfg: Config, s: State, i: nat)
    requires cfg.Valid() && Inv(cfg, s) && i < |s.free|
    ensures s.free[i] in s.size && s.free[i] !in s.desc
    ensures forall a, x :: Owns(s, a, x) && a != s.free[i] ==> !(s.free[i] <= x < s.End(s.free[i]))
  {
    ListMembersInv(cfg, s);
    BlocksOf(cfg, s);
    assert s.free[i] in s.free;
    hide Inv, Tiled;
  }

  /** ... and if the table could always grow, live handles and blocks in use correspond one to one, and the
      client spaces and guards of two handles share no byte. */
  lemma HandlesMatchBlocks(cfg: Config, ops: seq<Op>)
    requires cfg.Valid() && PiecesFit(cfg, ops) && AlwaysGrew(ops)
    ensures var s := Run(cfg, ops);
      && (forall a :: a in s.desc <==> HasHandle(s.table, a))
      && (forall h :: T.Live(s.table, h) ==> T.LookupAssoc(s.table, T.Lookup(s.table, h)) == h)
      && (forall h, k, x ::
            T.Live(s.table, h) && T.Live(s.table, k) && h != k && InParts(cfg, s, T.Lookup(s.table, h), x) ==>
              !InParts(cfg, s, T.Lookup(s.table, k), x))
  {
    var s := Run(cfg, ops);
    HandlesOnValues(cfg, ops);
    hide Inv, LaidOut, PiecesFit, Run, HandlesComplete, HasHandle, T.LookupAssoc, Owns, InParts;
    forall h, k, x | T.Live(s.table, h) && T.Live(s.table, k) && h != k && InParts(cfg, s, T.Lookup(s.table, h), x)
      ensures !InParts(cfg, s, T.Lookup(s.table, k), x)
    {
      EveryByteOwnedOnce(cfg, ops, x);
    }
  }

  // ---------- memory ----------

  /** Block a is on the list from head, as linked in memory. */
  ghost predicate OnList(ads: map<int, Ad>, head: int, a: int) {
    exists l :: Linked(ads, head, l) && a in l
  }

  /** Byte x lies in block a by the length in its descriptor. */
  predicate Covers(m: Memory, a: int, x: int) {
    a in m.ads && a <= x < a + m.ads[a].nbytes
  }

  lemma {:induction false} LinkedUnique(ads: map<int, Ad>, head: int, l: seq<int>, k: seq<int>)
    requires Linked(ads, head, l) && Linked(ads, head, k)
    ensures l == k
    decreases l
  {
    if l != [] && k != [] {
      LinkedTail(ads, head, l);
      LinkedTail(ads, head, k);
      LinkedUnique(ads, ads[head].next, l[1..], k[1..]);
      assert l == [l[0]] + l[1..] && k == [k[0]] + k[1..];
    }
  }

  lemma LinkedTail(ads: map<int, Ad>, head: int, l: seq<int>)
    requires Linked(ads, head, l) && l != []
    ensures head == l[0] && head in ads && Linked(ads, ads[head].next, l[1..])
  {
    assert ads[l[0]].next == After(l, 0);
    forall i | 0 <= i < |l[1..]|
      ensures l[1..][i] in ads && l[1..][i] != 0 && ads[l[1..][i]].next == After(l[1..], i)
    {
      assert ads[l[i + 1]].next == After(l, i + 1);
    }
  }

  lemma OnListIs(ads: map<int, Ad>, head: int, l: seq<int>)
    requires Linked(ads, head, l)
    ensures forall a :: OnList(ads, head, a) <==> a in l
  {
    hide Linked;
    forall a | OnList(ads, head, a)
      ensures a in l
    {
      var k :| Linked(ads, head, k) && a in k;
      LinkedUnique(ads, head, l, k);
    }
  }

  /** Read from memory alone: each byte of the heap region lies in exactly one block of the two heap lists,
      each byte of the stack region in exactly one block of the stack list. */
  lemma OwnedInMemory(cfg: Config, m: Memory, hfree: int, hused: int, sused: int, s: State, x: int)
    requires cfg.Valid() && Inv(cfg, s) && Sizes(m, s)
    requires Linked(m.ads, hfree, s.free) && Linked(m.ads, hused, s.used) && Linked(m.ads, sused, s.stack)
    ensures s.segment <= x < s.hp <==>
      exists a :: (OnList(m.ads, hfree, a) || OnList(m.ads, hused, a)) && Covers(m, a, x)
    ensures s.sp <= x < s.eos <==> exists a :: OnList(m.ads, sused, a) && Covers(m, a, x)
    ensures forall a, b ::
      InSomeList(m, hfree, hused, sused, a) && InSomeList(m, hfree, hused, sused, b) && Covers(m, a, x) && Covers(m, b, x) ==>
        a == b
  {
    hide Linked, OnList;
    OnListIs(m.ads, hfree, s.free);
    OnListIs(m.ads, hused, s.used);
    OnListIs(m.ads, sused, s.stack);
    ListMembersInv(cfg, s);
    HeapIsListed(cfg, s);
    hide Inv, Tiled;
    OwnedOnce(cfg.Overhead(), s, x);
    forall a | a in s.size
      ensures Covers(m, a, x) <==> Owns(s, a, x)
    {}
    hide Covers, Owns, Sizes;
    if s.segment <= x < s.hp {
      var a :| s.HeapAt(a) && Owns(s, a, x);
      assert OnList(m.ads, hfree, a) || OnList(m.ads, hused, a);
    }
  }

  /** Block a is on one of the three lists. */
  ghost predicate InSomeList(m: Memory, hfree: int, hused: int, sused: int, a: int) {
    OnList(m.ads, hfree, a) || OnList(m.ads, hused, a) || OnList(m.ads, sused, a)
  }

  lemma HeapIsListed(cfg: Config, s: State)
    requires cfg.Valid() && Inv(cfg, s)
    ensures forall a :: s.HeapAt(a) <==> a in s.free || a in s.used
  {
    ListMembersInv(cfg, s);
    forall a | a in s.free
      ensures s.HeapAt(a)
    {
      FreeIsHeap(s, a);
    }
  }
}
