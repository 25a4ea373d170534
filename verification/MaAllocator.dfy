/** ma/ma.c as it works: three linked lists threaded through the segment, edited in place,
    proved against the functions of MaState. */
module MaAllocator {
  import opened Arith
  import opened MaLayout
  import opened Lists
  import opened MaState
  import opened MaTiling
  import opened MaRuns
  import opened MaClients
  import opened MaMemory
  import opened MaSteps
  import opened MaPieces
  import opened MaSafety
  import Inq = MaInquire
  import T = MaTable

  class Allocator {
    const cfg: Config
    const table: T.HandleTable
    var mem: Memory
    var initialized: bool
    var numalign: nat
    var segment: int
    var partition: int
    var eos: int
    var hp: int
    var sp: int
    var hfree: int
    var hused: int
    var sused: int
    ghost var st: State

    /** The pointers and lists hold the abstract state s, and the descriptors its lengths. */
    ghost predicate Holds(s: State)
      reads this
    {
      && (initialized, numalign, segment, partition, eos, hp, sp) ==
         (s.ready, s.numalign, s.segment, s.partition, s.eos, s.hp, s.sp)
      && Linked(mem.ads, hfree, s.free) && Linked(mem.ads, hused, s.used) && Linked(mem.ads, sused, s.stack)
      && Sizes(mem, s)
    }

    ghost predicate Valid()
      reads this, table, table.slots
    {
      && cfg.Valid() && table.Valid() && table.View() == st.table
      && Inv(cfg, st) && LaidOut(cfg, st)
      && Holds(st) && Descs(cfg, mem, st) && Separate(cfg, mem)
    }

    constructor (cfg: Config, table: T.HandleTable)
      requires cfg.Valid() && table.Valid() && table.View() == T.EMPTY_TABLE
      ensures Valid() && st == INITIAL && this.table == table && this.cfg == cfg
    {
      this.cfg, this.table := cfg, table;
      mem := Memory(map[], map[], map[]);
      initialized, numalign, segment, partition, eos, hp, sp := false, 0, 0, 0, 0, 0, 0;
      hfree, hused, sused := 0, 0, 0;
      st := INITIAL;
    }

    // ---------- list editing ----------

    method ListInsertOrdered(ad: int, head: int, ghost s: seq<int>) returns (head': int)
      requires Linked(mem.ads, head, s) && NoDup(s) && ad in mem.ads && ad != 0 && ad !in s
      modifies this`mem
      ensures Linked(mem.ads, head', Insert(s, ad))
      ensures LinksOnly(old(mem), mem, Elems(s) + {ad})
    {
      var prev, cur := 0, head;
      ghost var i := 0;
      while cur != 0
        invariant 0 <= i <= |s| && cur == (if i < |s| then s[i] else 0) && prev == (if i == 0 then 0 else s[i - 1])
        invariant mem == old(mem) && forall k :: 0 <= k < i ==> ad >= s[k]
        decreases |s| - i
      {
        if ad < cur { break; }
        prev := cur;
        cur := Next(cur, head, s, i);
        i := i + 1;
      }
      InsertAt(s, i, ad);
      head' := InsertAfter(prev, cur, ad, head, s, i);
    }

    /** Links ad in between prev and cur, at position i. */
    method InsertAfter(prev: int, cur: int, ad: int, head: int, ghost s: seq<int>, ghost i: nat) returns (head': int)
      requires Linked(mem.ads, head, s) && NoDup(s) && ad in mem.ads && ad != 0 && ad !in s && i <= |s|
      requires cur == (if i < |s| then s[i] else 0) && prev == (if i == 0 then 0 else s[i - 1])
      modifies this`mem
      ensures Linked(mem.ads, head', s[..i] + [ad] + s[i..])
      ensures LinksOnly(old(mem), mem, Elems(s) + {ad})
    {
      ghost var before := mem.ads;
      assert forall x :: x in s ==> x in before;
      if prev != 0 {
        assert prev in s;
        mem := SetAd(mem, prev, mem.ads[prev].(next := ad));
        head' := head;
      } else {
        head' := ad;
      }
      mem := SetAd(mem, ad, mem.ads[ad].(next := cur));
      LinkIn(before, mem.ads, head, s, i, ad);
      hide Linked;
    }

    /** The node after cur, the k-th of the list. */
    method Next(cur: int, head: int, ghost l: seq<int>, ghost k: nat) returns (n: int)
      requires Linked(mem.ads, head, l) && k < |l| && cur == l[k]
      ensures n == After(l, k) && (n == 0 <==> k + 1 == |l|)
    {
      assert mem.ads[l[k]].next == After(l, k);
      n := mem.ads[cur].next;
    }

    /** Takes node cur, which follows prev, out of the list, as every deleting loop does. */
    method Unlink(prev: int, cur: int, head: int, ghost l: seq<int>, ghost k: nat) returns (head': int)
      requires Linked(mem.ads, head, l) && NoDup(l) && k < |l| && l[k] == cur
      requires prev == if k == 0 then 0 else l[k - 1]
      modifies this`mem
      ensures Linked(mem.ads, head', l[..k] + l[k + 1..])
      ensures LinksOnly(old(mem), mem, if prev == 0 then {} else {prev})
      ensures cur in mem.ads && mem.ads[cur].next == After(l, k) && mem.ads[cur] == old(mem.ads[cur])
      ensures After(l, k) == 0 <==> k + 1 == |l|
    {
      ghost var before := mem.ads;
      assert mem.ads[l[k]].next == After(l, k);
      if prev != 0 {
        mem := SetAd(mem, prev, mem.ads[prev].(next := mem.ads[cur].next));
        head' := head;
      } else {
        head' := mem.ads[cur].next;
      }
      assert forall x :: x in l ==> x in before;
      LinkOut(before, mem.ads, head, l, k);
    }

    method ListDelete(ad: int, head: int, ghost s: seq<int>) returns (found: int, head': int)
      requires Linked(mem.ads, head, s) && NoDup(s) && ad != 0
      modifies this`mem
      ensures found == if ad in s then ad else 0
      ensures Linked(mem.ads, head', Remove(s, ad))
      ensures LinksOnly(old(mem), mem, Elems(s))
    {
      hide NoDup;
      var prev, cur := 0, head;
      ghost var i := 0;
      while cur != 0
        invariant 0 <= i <= |s| && cur == (if i < |s| then s[i] else 0) && prev == (if i == 0 then 0 else s[i - 1])
        invariant mem == old(mem) && forall k :: 0 <= k < i ==> s[k] != ad
        decreases |s| - i
      {
        if cur == ad {
          RemoveAt(s, i, ad);
          head' := Unlink(prev, cur, head, s, i);
          return cur, head';
        }
        prev := cur;
        cur := Next(cur, head, s, i);
        i := i + 1;
      }
      RemoveAbsent(s, ad);
      return 0, head;
    }

    method ListMember(ad: int, head: int, ghost s: seq<int>) returns (member: bool)
      requires Linked(mem.ads, head, s) && ad != 0
      ensures member == (ad in s)
    {
      var cur := head;
      ghost var i := 0;
      while cur != 0
        invariant 0 <= i <= |s| && cur == (if i < |s| then s[i] else 0) && ad !in s[..i]
        decreases |s| - i
      {
        if cur == ad { return true; }
        cur := Next(cur, head, s, i);
        i := i + 1;
      }
      assert s[..i] == s;
      return false;
    }

    /** list_delete_many with ad_gt. */
    method ListDeleteAbove(max: int, head: int, ghost s: seq<int>) returns (head': int)
      requires Linked(mem.ads, head, s) && NoDup(s)
      modifies this`mem
      ensures Linked(mem.ads, head', UpTo(s, max))
      ensures LinksOnly(old(mem), mem, Elems(s))
    {
      hide NoDup, LinksOnly, Linked, UpTo;
      StartOf(mem, head, s);
      WalkStart(s, max);
      var prev, cur := 0, head;
      head' := head;
      ghost var i, k, l := 0, 0, s;
      while cur != 0
        invariant 0 <= i <= |s| && 0 <= k <= |l| && l[k..] == s[i..]
        invariant l[..k] == UpTo(s[..i], max)
        invariant (cur == 0 <==> k == |l|) && (k < |l| ==> l[k] == cur) && prev == (if k == 0 then 0 else l[k - 1])
        invariant Linked(mem.ads, head', l) && NoDup(l) && Elems(l) <= Elems(s)
        invariant LinksOnly(old(mem), mem, Elems(s))
        decreases |s| - i
      {
        WalkStep(l, k, s, i);
        UpToSnoc(s, i, max);
        if cur > max {
          ghost var m1 := mem;
          head' := Unlink(prev, cur, head', l, k);
          SkipSpec(l, k);
          assert prev != 0 ==> prev in Elems(l);
          LinksCompose(old(mem), m1, mem, Elems(s), if prev == 0 then {} else {prev});
          cur := mem.ads[cur].next;
          l := l[..k] + l[k + 1..];
        } else {
          prev := cur;
          cur := Next(cur, head', l, k);
          k := k + 1;
        }
        i := i + 1;
      }
      WalkEnd(l, k, s, i);
    }

    /** list_delete_many with ad_le and mh_free, on the stack list. */
    method ListDeleteUpTo(max: int, ghost s: seq<int>)
      requires Linked(mem.ads, sused, s) && NoDup(s) && table.Valid()
      modifies this`mem, this`sused, table, table.slots
      ensures Linked(mem.ads, sused, Above(s, max))
      ensures LinksOnly(old(mem), mem, Elems(s))
      ensures table.Valid() && table.slots == old(table.slots)
      ensures table.View() == FreeHandles(old(table.View()), s, max)
    {
      hide NoDup, LinksOnly, Linked, Above, FreeHandles, FreeHandle;
      StartOf(mem, sused, s);
      var prev, cur := 0, sused;
      ghost var i, k, l := 0, 0, s;
      WalkStart(s, max);
      while cur != 0
        invariant 0 <= i <= |s| && 0 <= k <= |l| && l[k..] == s[i..]
        invariant l[..k] == Above(s[..i], max)
        invariant (cur == 0 <==> k == |l|) && (k < |l| ==> l[k] == cur) && prev == (if k == 0 then 0 else l[k - 1])
        invariant Linked(mem.ads, sused, l) && NoDup(l) && Elems(l) <= Elems(s)
        invariant LinksOnly(old(mem), mem, Elems(s))
        invariant table.Valid() && table.slots == old(table.slots)
        invariant FreeHandles(old(table.View()), s, max) == FreeHandles(table.View(), s[i..], max)
        decreases |s| - i
      {
        WalkStep(l, k, s, i);
        FreeHandlesStep(table.View(), s, i, max);
        AboveSnoc(s, i, max);
        if cur <= max {
          MhFree(cur);
          ghost var m1 := mem;
          sused := Unlink(prev, cur, sused, l, k);
          SkipSpec(l, k);
          assert prev != 0 ==> prev in Elems(l);
          LinksCompose(old(mem), m1, mem, Elems(s), if prev == 0 then {} else {prev});
          cur := mem.ads[cur].next;
          l := l[..k] + l[k + 1..];
        } else {
          prev := cur;
          cur := Next(cur, sused, l, k);
          k := k + 1;
        }
        i := i + 1;
      }
      WalkEnd(l, k, s, i);
      FreeHandlesEnd(table.View(), s, max);
    }

    /** mh_free; a block without a handle leaves the table alone. */
    method MhFree(ad: int)
      requires table.Valid()
      modifies table, table.slots
      ensures table.Valid() && table.slots == old(table.slots)
      ensures table.View() == FreeHandle(old(table.View()), ad)
    {
      var h := table.LookupHandle(ad);
      if h != T.HANDLE_NONE { table.Release(h); }
    }

    // ---------- blocks ----------

    /** list_coalesce of the free list; s is the state it represents. */
    method ListCoalesce(ghost s: State)
      requires Linked(mem.ads, hfree, s.free) && Sizes(mem, s) && Chained(cfg.Overhead(), s)
      requires Separate(cfg, mem)
      modifies this`mem
      ensures Linked(mem.ads, hfree, Coalesce(s, 0).free) && Sizes(mem, Coalesce(s, 0))
      ensures InUseKept(old(mem), mem, s)
      ensures Separate(cfg, mem)
    {
      hide Separate;
      var cur := hfree;
      ghost var c, i := s, 0;
      while cur != 0
        invariant 0 <= i <= |c.free| && cur == (if i < |c.free| then c.free[i] else 0)
        invariant Linked(mem.ads, hfree, c.free) && Sizes(mem, c) && Chained(cfg.Overhead(), c)
        invariant c.desc == s.desc && Coalesce(s, 0) == Coalesce(c, i)
        invariant InUseKept(old(mem), mem, s) && Separate(cfg, mem)
        decreases |c.free| - i
      {
        var merged := MergeNext(cur, c, i);
        if merged {
          MergeKeeps(cfg.Overhead(), c, i);
          c := Merge(c, i);
        } else {
          cur := Next(cur, hfree, c.free, i);
          i := i + 1;
        }
      }
    }

    /** One step of list_coalesce: absorbs the following block if it is adjacent. */
    method MergeNext(cur: int, ghost c: State, ghost i: nat) returns (merged: bool)
      requires Linked(mem.ads, hfree, c.free) && Sizes(mem, c) && Chained(cfg.Overhead(), c)
      requires i < |c.free| && cur == c.free[i]
      requires Separate(cfg, mem)
      modifies this`mem
      ensures merged <==> i + 1 < |c.free| && c.End(c.free[i]) == c.free[i + 1]
      ensures merged ==> Linked(mem.ads, hfree, Merge(c, i).free) && Sizes(mem, Merge(c, i))
      ensures !merged ==> mem == old(mem)
      ensures InUseKept(old(mem), mem, c)
      ensures Separate(cfg, mem)
    {
      hide Separate, Linked, Sizes, Chained, Merge, InUseKept;
      MergeTest(cfg.Overhead(), mem, c, i, hfree);
      KeptInUse(mem, c);
      var next := cur + mem.ads[cur].nbytes;
      merged := next == mem.ads[cur].next;
      if merged {
        MergeMemory(cfg.Overhead(), mem, c, i, hfree);
        var ad := mem.ads[next];
        SetAdSeparate(cfg, mem, cur, mem.ads[cur].(nbytes := mem.ads[cur].nbytes + ad.nbytes, next := ad.next));
        mem := SetAd(mem, cur, mem.ads[cur].(nbytes := mem.ads[cur].nbytes + ad.nbytes, next := ad.next));
      }
    }

    /** The rightmost block on the heap used list, or NULL. */
    method RightmostUsed(ghost s: seq<int>) returns (max: int)
      requires Linked(mem.ads, hused, s)
      ensures max == MaxFrom(s, 0)
    {
      var cur := hused;
      max := 0;
      ghost var i := 0;
      assert s[0..] == s;
      while cur != 0
        invariant 0 <= i <= |s| && cur == (if i < |s| then s[i] else 0)
        invariant MaxFrom(s, 0) == MaxFrom(s[i..], max)
        decreases |s| - i
      {
        if cur > max { max := cur; }
        assert s[i..][1..] == s[i + 1..];
        cur := Next(cur, hused, s, i);
        i := i + 1;
      }
    }

    /** block_free_heap of block ad, which has left the used list of s. */
    method BlockFreeHeap(ad: int, ghost s: State)
      requires Limbo(cfg.Overhead(), s, ad) && Sizes(mem, s)
      requires Linked(mem.ads, hfree, s.free) && Linked(mem.ads, hused, s.used)
      requires hp == s.hp && segment == s.segment && s.segment > 0
      requires Separate(cfg, mem)
      modifies this`mem, this`hp, this`hfree
      ensures Linked(mem.ads, hfree, Reclaim(s, ad).free) && hp == Reclaim(s, ad).hp && Sizes(mem, Reclaim(s, ad))
      ensures InUseKept(old(mem), mem, s)
      ensures Separate(cfg, mem)
    {
      hide Separate, Limbo, Linked, Sorted, Coalesce;
      LimboHeap(cfg.Overhead(), s, ad);
      var max := RightmostUsed(s.used);
      MaxFromSpec(s.used, 0);
      SortedNoDup(s.free);
      if max != 0 {
        hp := max + mem.ads[max].nbytes;
        hfree := ListDeleteAbove(max, hfree, s.free);
        ghost var t := Truncate(s, max);
        LinksInUse(old(mem), mem, Elems(s.free), s);
        LinksSeparate(cfg, old(mem), mem, Elems(s.free));
        LinksSizes(old(mem), mem, Elems(s.free), s, t);
        if ad < max {
          ghost var m1 := mem;
          TruncatedIsChained(cfg.Overhead(), s, ad, max);
          PutBack(ad, t);
          CoalesceHp(t.(free := Insert(t.free, ad)), 0);
          hide InUseKept;
          InUseCompose(old(mem), m1, mem, s);
        }
      } else {
        hp := segment;
        hfree := 0;
        EmptyLinked(mem.ads);
      }
    }

    /** Puts block ad on the free list of t and merges neighbours. */
    method PutBack(ad: int, ghost t: State)
      requires Linked(mem.ads, hfree, t.free) && Sizes(mem, t) && NoDup(t.free)
      requires ad != 0 && ad in t.size && ad !in t.free && ad !in t.desc && forall x :: x in t.free ==> x !in t.desc
      requires Chained(cfg.Overhead(), t.(free := Insert(t.free, ad)))
      requires Separate(cfg, mem)
      modifies this`mem, this`hfree
      ensures Linked(mem.ads, hfree, Coalesce(t.(free := Insert(t.free, ad)), 0).free)
      ensures Sizes(mem, Coalesce(t.(free := Insert(t.free, ad)), 0)) && InUseKept(old(mem), mem, t)
      ensures Separate(cfg, mem)
    {
      hide Separate, Linked, Sizes, Chained, Coalesce, Insert, NoDup, LinksOnly, InUseKept;
      ghost var t', w := t.(free := Insert(t.free, ad)), Elems(t.free) + {ad};
      SizeOf(mem, t, ad);
      hfree := ListInsertOrdered(ad, hfree, t.free);
      ghost var m1 := mem;
      LinksInUse(old(mem), m1, w, t);
      LinksSeparate(cfg, old(mem), m1, w);
      LinksSizes(old(mem), m1, w, t, t');
      ListCoalesce(t');
      InUseSame(m1, mem, t', t);
      InUseCompose(old(mem), m1, mem, t);
    }

    /** block_split; s is the state represented, in which ad is long enough. */
    method BlockSplit(ad: int, need: int, insertFree: bool, ghost s: State) returns (rest: int)
      requires cfg.Valid() && Blocks(cfg.Overhead(), s) && Sizes(mem, s) && Linked(mem.ads, hfree, s.free)
      requires Sorted(s.free)
      requires ad in s.size && s.HeapAt(ad) && cfg.Overhead() <= need <= s.size[ad]
      requires forall x :: x in s.free ==> s.FreeAt(x)
      requires Separate(cfg, mem)
      modifies this`mem, this`hfree
      ensures rest == if s.size[ad] - need >= cfg.MinBlock() then ad + need else 0
      ensures rest == 0 ==> mem == old(mem) && hfree == old(hfree)
      ensures rest != 0 ==>
        && Sizes(mem, SplitUsed(s, ad, need)) && Linked(mem.ads, hfree, if insertFree then Insert(s.free, rest) else s.free)
        && SplitMemory(cfg, old(mem), mem, s, ad, need)
        && (!insertFree ==> mem.ads[ad].next == old(mem).ads[ad].next)
      ensures Separate(cfg, mem)
    {
      hide Separate, Linked, LinksOnly, Sorted, Apart, SplitMemory, Frame, PutAd, Insert;
      MinBlockBounds(cfg);
      var extra := mem.ads[ad].nbytes - need;
      if extra < cfg.MinBlock() { return 0; }
      rest := ad + need;
      var junk: Ad := *;
      var ad2 := junk.(nbytes := extra);
      ghost var m0 := mem;
      PutAdElsewhere(cfg, mem, s, ad, need, ad2);
      PutAdSeparate(cfg, mem, rest, ad2);
      mem := PutAd(cfg, mem, rest, ad2);
      LinkedElsewhere(m0.ads, mem.ads, hfree, s.free);
      ghost var m1, w := mem, if insertFree then Elems(s.free) + {rest} else {};
      LinksRefl(mem);
      if insertFree {
        SortedNoDup(s.free);
        hfree := ListInsertOrdered(rest, hfree, s.free);
        LinksSeparate(cfg, m1, mem, w);
      }
      ghost var m2 := mem;
      SplitMemoryHolds(cfg, m0, m1, m2, s, ad, need, ad2, w);
      SetAdSeparate(cfg, mem, ad, mem.ads[ad].(nbytes := need));
      mem := SetAd(mem, ad, mem.ads[ad].(nbytes := need));
      SameLinks(m2, ad, need, hfree, if insertFree then Insert(s.free, rest) else s.free);
    }

    /** list_delete_one with ad_big_enough on the free list: takes the first block that n
        elements of t fit, splitting it and putting the rest back into the list that is
        being walked. */
    method TakeFirstFit(t: TypeIndex, n: nat) returns (ad: int)
      requires cfg.Valid() && Tiled(cfg.Overhead(), st) && Sizes(mem, st) && Linked(mem.ads, hfree, st.free)
      requires numalign == st.numalign
      requires Separate(cfg, mem)
      modifies this`mem, this`hfree
      ensures var i := FindFit(cfg, st, t, n, 0);
        if i == |st.free| then ad == 0 && mem == old(mem) && hfree == old(hfree)
        else
          var r := BallocAfter(cfg, st.numalign, t, n, st.free[i]);
          var c := Carve(cfg.MinBlock(), st, i, r.nbytes);
          && ad == st.free[i] && ad in mem.ads && mem.ads[ad].client == r.client
          && Linked(mem.ads, hfree, c.free) && Sizes(mem, c)
          && Frame(cfg, old(mem), mem, st, ad, st.End(ad))
      ensures Separate(cfg, mem)
    {
      hide Separate, Frame, Sizes, Tiled, BallocAfter, Carve, Linked;
      TiledFree(cfg.Overhead(), st);
      StartOf(mem, hfree, st.free);
      var prev, cur := 0, hfree;
      ghost var i := 0;
      while cur != 0
        invariant 0 <= i <= |st.free| && (cur == 0 <==> i == |st.free|) && (i < |st.free| ==> cur == st.free[i])
        invariant prev == if i == 0 then 0 else st.free[i - 1]
        invariant mem == old(mem) && hfree == old(hfree) && FindFit(cfg, st, t, n, 0) == FindFit(cfg, st, t, n, i)
        decreases |st.free| - i
      {
        var r := BallocAfter(cfg, numalign, t, n, cur);
        assert cur in st.free && cur in st.size;
        SizeOf(mem, st, cur);
        if r.nbytes <= mem.ads[cur].nbytes {
          TakeAt(prev, cur, r, t, n, i);
          return cur;
        }
        prev := cur;
        cur := Next(cur, hfree, st.free, i);
        i := i + 1;
      }
      return 0;
    }

    /** The block found: split it, set its client space, unlink it. */
    method TakeAt(prev: int, cur: int, r: Trial, t: TypeIndex, n: nat, ghost i: nat)
      requires cfg.Valid() && Tiled(cfg.Overhead(), st) && Sizes(mem, st) && Linked(mem.ads, hfree, st.free)
      requires i < |st.free| && cur == st.free[i] && prev == (if i == 0 then 0 else st.free[i - 1])
      requires r == BallocAfter(cfg, st.numalign, t, n, cur) && r.nbytes <= st.Size(cur)
      requires Separate(cfg, mem)
      modifies this`mem, this`hfree
      ensures var c := Carve(cfg.MinBlock(), st, i, r.nbytes);
        && cur in mem.ads && mem.ads[cur].client == r.client
        && Linked(mem.ads, hfree, c.free) && Sizes(mem, c)
        && Frame(cfg, old(mem), mem, st, cur, st.End(cur))
      ensures Separate(cfg, mem)
    {
      hide Separate, Linked, Sizes, HeapChain, StackChain, Coalesced, UsedList, Apart, Frame, SplitMemory, LinksOnly;
      BallocAfterLayout(cfg, st.numalign, t, n, cur);
      LengthNonneg(n, cfg.size[t]);
      MinBlockBounds(cfg);
      TiledFree(cfg.Overhead(), st);
      SortedNoDup(st.free);
      FrameRefl(cfg, mem, st, cur, st.End(cur));
      var rest := BlockSplit(cur, r.nbytes, true, st);
      ghost var m1 := mem;
      ghost var c := Carve(cfg.MinBlock(), st, i, r.nbytes);
      ghost var l := if rest == 0 then st.free else Insert(st.free, rest);
      CarveLinks(cfg.MinBlock(), st, i, r.nbytes, l);
      CarveSize(cfg.MinBlock(), st, i, r.nbytes);
      hide Carve;
      if rest != 0 {
        FrameOfSplit(cfg, old(mem), mem, st, cur, r.nbytes);
        SizesSame(mem, SplitUsed(st, cur, r.nbytes), c);
      } else {
        SizesSame(mem, st, c);
      }
      Detach(prev, cur, r.client, c, l, i);
      FrameCompose(cfg, old(mem), m1, mem, st, cur, st.End(cur));
    }

    /** Sets the client space of free block cur and takes it off list l. */
    method Detach(prev: int, cur: int, client: int, ghost c: State, ghost l: seq<int>, ghost i: nat)
      requires Linked(mem.ads, hfree, l) && NoDup(l) && i < |l| && l[i] == cur && prev == (if i == 0 then 0 else l[i - 1])
      requires Sizes(mem, c) && cur in c.size && forall x :: x in l ==> x !in st.desc
      requires Separate(cfg, mem)
      modifies this`mem, this`hfree
      ensures cur in mem.ads && mem.ads[cur].client == client
      ensures Linked(mem.ads, hfree, l[..i] + l[i + 1..]) && Sizes(mem, c)
      ensures Frame(cfg, old(mem), mem, st, cur, st.End(cur))
      ensures Separate(cfg, mem)
    {
      hide Separate, Linked, Sizes, Frame, LinksOnly, NoDup;
      SizeOf(mem, c, cur);
      SetAdSeparate(cfg, mem, cur, mem.ads[cur].(client := client));
      mem := SetAd(mem, cur, mem.ads[cur].(client := client));
      SetClient(cfg, old(mem), c, st, cur, client, hfree, l, st.End(cur));
      ghost var m2 := mem;
      hfree := Unlink(prev, cur, hfree, l, i);
      ghost var w := if prev == 0 then {} else {prev};
      LinksSeparate(cfg, m2, mem, w);
      LinksSizes(m2, mem, w, c, c);
      LinksFrame(cfg, m2, mem, st, w, cur, st.End(cur));
      FrameCompose(cfg, old(mem), m2, mem, st, cur, st.End(cur));
    }

    /** guard_set */
    method GuardSet(ad: int)
      requires cfg.Valid() && ad in mem.ads && ValidIndex(mem.ads[ad].dtype)
      requires ad in PutGuard(cfg, mem, mem.ads[ad].client - cfg.guardSize, GUARD1).ads
      requires PutGuard(cfg, mem, mem.ads[ad].client - cfg.guardSize, GUARD1).ads[ad] == mem.ads[ad]
      requires Separate(cfg, mem)
      modifies this`mem
      ensures var d := old(mem.ads[ad]);
        mem == PutGuard(cfg, PutGuard(cfg, old(mem), d.client - cfg.guardSize, GUARD1), d.client + d.nelem * cfg.size[d.dtype], GUARD2)
      ensures Separate(cfg, mem)
    {
      hide Separate, PutGuard;
      PutGuardSeparate(cfg, mem, mem.ads[ad].client - cfg.guardSize, GUARD1);
      mem := PutGuard(cfg, mem, mem.ads[ad].client - cfg.guardSize, GUARD1);
      PutGuardSeparate(cfg, mem, mem.ads[ad].client + mem.ads[ad].nelem * cfg.size[mem.ads[ad].dtype], GUARD2);
      mem := PutGuard(cfg, mem, mem.ads[ad].client + mem.ads[ad].nelem * cfg.size[mem.ads[ad].dtype], GUARD2);
    }

    /** guard_check; a guard that was overwritten does not read as its signature. */
    method GuardCheck(ad: int) returns (ok: bool)
      requires cfg.Valid() && ad in mem.ads && ValidIndex(mem.ads[ad].dtype)
      ensures var d := mem.ads[ad];
        var g1, g2 := d.client - cfg.guardSize, d.client + d.nelem * cfg.size[d.dtype];
        ok <==> g1 in mem.guards && mem.guards[g1] == GUARD1 && g2 in mem.guards && mem.guards[g2] == GUARD2
    {
      var d := mem.ads[ad];
      var g1, g2 := d.client - cfg.guardSize, d.client + d.nelem * cfg.size[d.dtype];
      if !(g1 in mem.guards && mem.guards[g1] == GUARD1) { return false; }
      return g2 in mem.guards && mem.guards[g2] == GUARD2;
    }

    /** Fills in the descriptor of the new block ad, pushes it onto the list at `head`, and
        sets its checksum and guards. e is the state in which the block is in use. */
    method InitBlock(ad: int, t: TypeIndex, n: nat, head: int, ghost e: State) returns (head': int)
      requires cfg.Valid() && Blocks(cfg.Overhead(), e) && Sizes(mem, e) && ad in e.size && ad in e.desc
      requires e.desc[ad] == Desc(mem.ads[ad].client, t, n)
      requires Contains(cfg, ad, e.size[ad], e.desc[ad].client, t, n)
      requires Separate(cfg, mem)
      modifies this`mem
      ensures head' == ad && ad in mem.ads && mem.ads[ad].next == head
      ensures Sizes(mem, e) && Sealed(cfg, mem, ad, e.desc[ad])
      ensures forall x :: x in e.size && x != ad ==> mem.ads[x] == old(mem.ads[x])
      ensures Frame(cfg, old(mem), mem, e, ad, e.End(ad))
      ensures Separate(cfg, mem)
    {
      hide Separate, Apart, Frame, PutGuard, Checksum;
      SetAdSeparate(cfg, mem, ad, mem.ads[ad].(dtype := t, nelem := n));
      mem := SetAd(mem, ad, mem.ads[ad].(dtype := t, nelem := n));
      head' := ad;
      SetAdSeparate(cfg, mem, ad, mem.ads[ad].(next := head));
      mem := SetAd(mem, ad, mem.ads[ad].(next := head));
      SetAdSeparate(cfg, mem, ad, mem.ads[ad].(checksum := Checksum(cfg, mem.ads[ad])));
      mem := SetAd(mem, ad, mem.ads[ad].(checksum := Checksum(cfg, mem.ads[ad])));
      ghost var m1 := mem;
      OwnAdFrame(cfg, old(mem), ad, m1.ads[ad], e);
      ChecksumOf(cfg, m1.ads[ad], m1.ads[ad].checksum);
      GuardsElsewhere(cfg, m1, e, ad, e.desc[ad].client - cfg.guardSize, GUARD1);
      GuardSet(ad);
      GuardsBoth(cfg, m1, mem, e, ad);
      FrameCompose(cfg, old(mem), m1, mem, e, ad, e.End(ad));
    }

    // ---------- MA_allocate_heap ----------

    /** Space for n elements of t from the free list or, failing that, above ma_hp. */
    method FindRoom(t: TypeIndex, n: nat) returns (ad: int)
      requires Valid() && st.ready
      modifies this`mem, this`hfree
      ensures match FindSpace(cfg, st, t, n)
        case NoSpace => ad == 0 && mem == old(mem) && hfree == old(hfree)
        case Space(c, a, client) =>
          && ad == a && ad in mem.ads && mem.ads[ad].client == client
          && Linked(mem.ads, hfree, c.free) && Sizes(mem, c)
          && Frame(cfg, old(mem), mem, st, ad, RoomEnd(st, ad))
      ensures Separate(cfg, mem)
    {
      hide Separate, Tiled, Linked, Sizes, Frame, Carve, Descs, LaidOut;
      ad := TakeFirstFit(t, n);
      FreeInSize(cfg, st);
      if ad == 0 {
        var r := BallocAfter(cfg, numalign, t, n, hp);
        if hp + r.nbytes > sp { return 0; }
        ad := hp;
        var junk: Ad := *;
        ExtendMemory(cfg, mem, st, t, n, junk.(client := r.client, nbytes := r.nbytes), hfree);
        PutAdSeparate(cfg, mem, ad, junk.(client := r.client, nbytes := r.nbytes));
        mem := PutAd(cfg, mem, ad, junk.(client := r.client, nbytes := r.nbytes));
      }
    }

    method AllocateHeap(d: int, n: int, growOk: bool) returns (ok: bool, h: int)
      requires Valid()
      modifies this, table, table.slots
      ensures Valid() && (table.slots == old(table.slots) || fresh(table.slots))
      ensures (st, h) == MaState.AllocateHeap(cfg, old(st), d, n, growOk) && ok == (h != T.HANDLE_NONE)
      ensures ClientBytesKept(cfg, old(mem), mem, old(st), st)
    {
      hide Separate, Inv, Tiled, LaidOut, Linked, Sizes, Frame, Descs, Sealed, FindSpace, ClientBytesKept, RoomFor;
      hide StayPut, HandlesComplete, T.Ok, T.Allocate, RoomEnd, Contains;
      AllocateResult(cfg, st, d, n, growOk);
      hide MaState.AllocateHeap;
      AllocateKeeps(cfg, st, d, n, growOk);
      AllocateLayout(cfg, st, d, n, growOk);
      KeptRefl(cfg, mem, st);
      if !initialized || !ValidType(d) || n < 0 { return false, T.HANDLE_NONE; }
      var t := d - MT_BASE;
      ghost var f := FindSpace(cfg, st, t, n);
      if f.Space? {
        RoomFacts(cfg, st, t, n);
        RoomForFacts(cfg, st, Enter(f.state, f.address, Desc(f.client, t, n)), f.address, RoomEnd(st, f.address), Desc(f.client, t, n));
        SizesEq(f.state, Enter(f.state, f.address, Desc(f.client, t, n)));
      }
      var ad := FindRoom(t, n);
      if ad == 0 { return false, T.HANDLE_NONE; }
      ghost var e := Enter(f.state, ad, Desc(f.client, t, n));
      OccupyHeap(ad, t, n, old(mem), e);
      hide Enter;
      h := table.Store(ad, growOk);
      TableOnly(cfg, old(mem), mem, old(st), e, table.View());
      st := e.(table := table.View());
      ok := h != T.HANDLE_NONE;
    }

    /** Puts the block found at ad in use, in state e. */
    method OccupyHeap(ad: int, t: TypeIndex, n: nat, ghost m0: Memory, ghost e: State)
      requires cfg.Valid() && Inv(cfg, st) && LaidOut(cfg, st) && Descs(cfg, m0, st)
      requires Linked(m0.ads, hused, st.used) && Linked(m0.ads, sused, st.stack) && hp == st.hp
      requires ad in mem.ads && RoomFor(cfg, st, e, ad, RoomEnd(st, ad), Desc(mem.ads[ad].client, t, n))
      requires e.used == [ad] + st.used && e.stack == st.stack && e.hp == (if e.End(ad) > st.hp then e.End(ad) else st.hp)
      requires Linked(mem.ads, hfree, e.free) && Sizes(mem, e) && Frame(cfg, m0, mem, st, ad, RoomEnd(st, ad))
      requires Separate(cfg, mem)
      modifies this`mem, this`hused, this`hp
      ensures Linked(mem.ads, hfree, e.free) && Linked(mem.ads, hused, e.used) && Linked(mem.ads, sused, e.stack)
      ensures Sizes(mem, e) && Descs(cfg, mem, e) && hp == e.hp && ClientBytesKept(cfg, m0, mem, st, e)
      ensures Separate(cfg, mem)
    {
      hide Separate, Inv, Tiled, LaidOut, Linked, Sizes, Frame, Descs, Sealed, ClientBytesKept, RoomFor;
      ghost var m1, hi, d := mem, RoomEnd(st, ad), Desc(mem.ads[ad].client, t, n);
      RoomForFacts(cfg, st, e, ad, hi, d);
      ListMembersInv(cfg, st);
      ListMembers(cfg.Overhead(), e);
      RoomLinked(cfg, m0, m1, st, ad, hi, hused, st.used);
      RoomLinked(cfg, m0, m1, st, ad, hi, sused, st.stack);
      hused := InitBlock(ad, t, n, hused, e);
      BlockEntered(cfg, m0, m1, mem, st, e, ad, hi, d);
      SizesIn(m1, mem, e);
      ListKept(m1, mem, hfree, e.free);
      ListKept(m1, mem, sused, e.stack);
      ListPushed(m1, mem, ad, old(hused), st.used);
      SizeOf(mem, e, ad);
      var newHp := ad + mem.ads[ad].nbytes;
      if newHp > hp { hp := newHp; }
    }

    // ---------- mh2ad ----------

    /** Verifies the handle, the descriptor it names and where that block is. */
    method Mh2ad(h: int, loc: Location) returns (ok: bool, ad: int)
      requires Valid()
      ensures ok <==> Located(st, h, loc)
      ensures ok ==> ad == T.Lookup(st.table, h)
    {
      hide Separate, Inv, Tiled, LaidOut, Linked, Sizes, Descs, T.Ok;
      var live := table.Verify(h);
      if !live { return false, 0; }
      ad := table.LookupData(h);
      HandleFacts(cfg, st, h);
      ListMembersInv(cfg, st);
      DescsAt(cfg, mem, st, ad);
      if !(segment <= ad < eos) { return false, ad; }
      if mem.ads[ad].checksum != Checksum(cfg, mem.ads[ad]) { return false, ad; }
      var intact := GuardCheck(ad);
      if !intact { return false, ad; }
      var inHeap := ListMember(ad, hused, st.used);
      var inStack := ListMember(ad, sused, st.stack);
      match loc
      case HeapOrStack => ok := inHeap || inStack;
      case Heap => ok := inHeap;
      case Stack => ok := inStack;
      case StackTop => ok := inStack && ad == sp;
    }

    // ---------- MA_free_heap ----------

    method FreeHeap(h: int) returns (ok: bool)
      requires Valid()
      modifies this, table, table.slots
      ensures Valid() && table.slots == old(table.slots)
      ensures (st, ok) == MaState.FreeHeap(old(st), h)
      ensures ClientBytesKept(cfg, old(mem), mem, old(st), st)
    {
      hide Separate, Inv, Tiled, LaidOut, Linked, Sizes, Frame, Descs, Sealed, ClientBytesKept, Reclaim, StayPut;
      hide HandlesComplete, T.Ok, LinksOnly, InUseKept, Limbo, Contains, MaState.FreeHeap, Located;
      NotLocated(st, h);
      LocatedFacts(st, h);
      KeptRefl(cfg, mem, st);
      FreeKeeps(cfg, st, h);
      FreeLayout(cfg, st, h);
      var found, ad := Mh2ad(h, Heap);
      if !found { return false; }
      HandleFacts(cfg, st, h);
      ListMembersInv(cfg, st);
      FreeLimbo(cfg, st, ad);
      FreeResult(st, h);
      ghost var m0, s0, u := mem, st, Unlist(st, ad);
      var deleted: int;
      deleted, hused := ListDelete(ad, hused, st.used);
      if deleted != ad { return false; }
      ghost var m1 := mem;
      LinksSeparate(cfg, m0, m1, Elems(s0.used));
      UnlistMemory(cfg, m0, m1, s0, ad, hfree, sused);
      BlockFreeHeap(ad, u);
      ReclaimMemory(cfg, m0, m1, mem, s0, u, ad, hused, sused);
      table.Release(h);
      st := Reclaim(u, ad).(table := table.View());
      TableOnly(cfg, m0, mem, s0, Reclaim(u, ad), table.View());
      return true;
    }

    // ---------- MA_free_heap_piece ----------

    /** Cuts used block ad down to `need` bytes and reclaims the rest, if that is a block. */
    method ShrinkBlock(ad: int, need: int)
      requires Valid() && ad in st.used && cfg.Overhead() <= need
      modifies this`mem, this`hp, this`hfree
      ensures Shrunk(cfg, old(mem), mem, st, ad, need)
      ensures var c := Shrink(cfg.MinBlock(), st, ad, need);
        && Linked(mem.ads, hfree, c.free) && Linked(mem.ads, hused, c.used) && Linked(mem.ads, sused, c.stack)
        && Sizes(mem, c) && hp == c.hp
      ensures Separate(cfg, mem)
    {
      hide Separate, LaidOut, Linked, Sizes, Frame, Descs, Reclaim, LinksOnly, InUseKept, Limbo, SplitMemory, Shrunk;
      hide HandlesSound, Shrink, Tiled;
      ShrinkFacts(cfg, st, ad, need);
      SizeOf(mem, st, ad);
      ShrunkRefl(cfg, mem, st, ad, need);
      hide Inv;
      if need < mem.ads[ad].nbytes {
        ghost var m0, u := mem, SplitUsed(st, ad, need);
        var rest := BlockSplit(ad, need, false, st);
        if rest != 0 {
          ghost var m1 := mem;
          SplitLists(cfg, m0, m1, st, ad, need, hused, sused);
          BlockFreeHeap(rest, u);
          ShrunkLists(cfg, m0, m1, mem, st, ad, need, hused, sused);
        }
      }
    }

    /** The lists and lengths in memory are those of the new state exactly when the guards, which are
        written last, spare the piece cut off; the object stays valid when the kept elements fit. */
    method FreeHeapPiece(h: int, n: int) returns (ok: bool)
      requires Valid()
      modifies this, table, table.slots
      ensures cfg.Valid() && UsedList(old(st)) && (st, ok) == FreePiece(cfg, old(st), h, n) && Inv(cfg, st)
      ensures Holds(st) <==> PieceSpares(cfg, old(st), h, n)
      ensures Descs(cfg, mem, st) && Separate(cfg, mem) && OthersKept(cfg, old(mem), mem, old(st), st, h)
      ensures table.Valid() && table.slots == old(table.slots) && table.View() == st.table
      ensures PieceFits(cfg, old(st), h, n) ==> Valid() && ClientBytesKept(cfg, old(mem), mem, old(st), st)
    {
      hide Separate, Inv, LaidOut, Linked, Sizes, Descs, PieceSpares, PieceFits, FreePiece, OthersKept, ClientBytesKept;
      hide UsedList, MaState.FreeHeap;
      KeptRefl(cfg, mem, st);
      UsedListOf(cfg, st);
      KeptOthers(cfg, mem, mem, st, st, h);
      var found, ad := Mh2ad(h, Heap);
      if !found || n < 0 {
        PieceOtherwise(cfg, st, h, n);
        return false;
      }
      HandleFacts(cfg, st, h);
      DescsAt(cfg, mem, st, ad);
      if n >= mem.ads[ad].nelem {
        PieceOtherwise(cfg, st, h, n);
        ok := FreeHeap(h);
        KeptOthers(cfg, old(mem), mem, old(st), st, h);
        return;
      }
      var keep := mem.ads[ad].nelem - n;
      ok := KeepPiece(ad, keep, h, n);
    }

    /** Keeps the first `keep` elements of used block ad. */
    method KeepPiece(ad: int, keep: int, ghost h: int, ghost n: int) returns (ok: bool)
      requires Valid() && HeapHandle(st, h) && ad == T.Lookup(st.table, h) && ad in st.desc && UsedList(st)
      requires 0 <= n < st.desc[ad].nelem && keep == st.desc[ad].nelem - n
      modifies this
      ensures (st, ok) == FreePiece(cfg, old(st), h, n) && Inv(cfg, st) && st.table == old(st.table)
      ensures Holds(st) <==> PieceSpares(cfg, old(st), h, n)
      ensures Descs(cfg, mem, st) && Separate(cfg, mem) && OthersKept(cfg, old(mem), mem, old(st), st, h)
      ensures PieceFits(cfg, old(st), h, n) ==> Valid() && ClientBytesKept(cfg, old(mem), mem, old(st), st)
    {
      hide Separate, Tiled, HandlesSound, LaidOut, Linked, Sizes, Frame, PutGuard, Checksum, ClientBytesKept, Shrunk, Shrink;
      hide BallocAfter, UsedList, PieceFits, FreePiece, PieceSpares, OthersKept;
      hide Descs, Inv, Rewritten, Sealed;
      PieceFacts(cfg, st, h, n);
      DescsAt(cfg, mem, st, ad);
      SealedAd(cfg, mem, ad, st.desc[ad]);
      var r := BallocAfter(cfg, numalign, mem.ads[ad].dtype, keep, ad);
      ghost var m0, s0, f := mem, st, FreePiece(cfg, st, h, n).0;
      ShrinkBlock(ad, r.nbytes);
      ghost var m1 := mem;
      ShrunkAd(cfg, m0, m1, s0, ad, r.nbytes);
      SizesSame(m1, Shrink(cfg.MinBlock(), s0, ad, r.nbytes), f);
      ghost var m2 := RewriteKept(ad, keep, f.desc[ad]);
      ok := true;
      PieceMemory(cfg, m0, m1, m2, mem, s0, f, h, n, ad, r.nbytes, hfree, hused, sused);
      if PieceFits(cfg, s0, h, n) {
        FitsSpares(cfg, s0, h, n);
        FitsKeepsBytes(cfg, m0, m1, m2, mem, s0, f, h, n, ad, r.nbytes);
      }
      st := f;
    }

    /** Gives block ad its new number of elements, checksum and guards. */
    method RewriteKept(ad: int, keep: int, ghost d: Desc) returns (ghost m2: Memory)
      requires cfg.Valid() && ad in mem.ads && mem.ads[ad].dtype == d.dtype && mem.ads[ad].client == d.client
      requires keep == d.nelem && ad + cfg.adSize <= d.client - cfg.guardSize && Separate(cfg, mem)
      modifies this`mem
      ensures Rewritten(cfg, old(mem), m2, mem, ad, d) && Separate(cfg, mem)
    {
      hide Separate, PutGuard, Checksum;
      SetAdSeparate(cfg, mem, ad, mem.ads[ad].(nelem := keep));
      mem := SetAd(mem, ad, mem.ads[ad].(nelem := keep));
      SetAdSeparate(cfg, mem, ad, mem.ads[ad].(checksum := Checksum(cfg, mem.ads[ad])));
      mem := SetAd(mem, ad, mem.ads[ad].(checksum := Checksum(cfg, mem.ads[ad])));
      m2 := mem;
      OwnGuard(cfg, m2, ad, m2.ads[ad].client - cfg.guardSize);
      GuardSet(ad);
    }

    // ---------- the stack ----------

    method PushStack(d: int, n: int, growOk: bool) returns (ok: bool, h: int)
      requires Valid()
      modifies this, table, table.slots
      ensures Valid() && (table.slots == old(table.slots) || fresh(table.slots))
      ensures (st, h) == MaState.PushStack(cfg, old(st), d, n, growOk) && ok == (h != T.HANDLE_NONE)
      ensures ClientBytesKept(cfg, old(mem), mem, old(st), st)
    {
      hide Separate, Inv, Tiled, LaidOut, Linked, Sizes, Frame, Descs, Sealed, ClientBytesKept, RoomFor, BallocBefore;
      hide StayPut, HandlesComplete, T.Ok, T.Allocate, Contains, MaState.PushStack, Pushed;
      PushResult(cfg, st, d, n, growOk);
      PushKeeps(cfg, st, d, n, growOk);
      PushLayout(cfg, st, d, n, growOk);
      KeptRefl(cfg, mem, st);
      if !initialized || !ValidType(d) || n < 0 { return false, T.HANDLE_NONE; }
      var t := d - MT_BASE;
      var r := BallocBefore(cfg, numalign, t, n, sp);
      if sp - hp < r.nbytes { return false, T.HANDLE_NONE; }
      ghost var p := Pushed(st, r.nbytes, Desc(r.client, t, n));
      PushedFields(st, r.nbytes, Desc(r.client, t, n));
      OccupyStack(t, n, r, p);
      h := table.Store(sp, growOk);
      TableOnly(cfg, old(mem), mem, old(st), p, table.View());
      st := p.(table := table.View());
      ok := h != T.HANDLE_NONE;
    }

    /** Writes the block pushed below ma_sp. */
    method OccupyStack(t: TypeIndex, n: nat, r: Trial, ghost p: State)
      requires Valid() && st.ready && r == BallocBefore(cfg, st.numalign, t, n, st.sp) && r.nbytes <= st.sp - st.hp
      requires p == Pushed(st, r.nbytes, Desc(r.client, t, n))
      modifies this`mem, this`sused, this`sp
      ensures Linked(mem.ads, hfree, p.free) && Linked(mem.ads, hused, p.used) && Linked(mem.ads, sused, p.stack)
      ensures Sizes(mem, p) && Descs(cfg, mem, p) && sp == p.sp && ClientBytesKept(cfg, old(mem), mem, st, p)
      ensures Separate(cfg, mem)
    {
      hide Separate, Inv, Tiled, LaidOut, Linked, Sizes, Frame, Descs, Sealed, ClientBytesKept, RoomFor, BallocBefore, Pushed;
      hide PutAd;
      ghost var m0, d, hi := mem, Desc(r.client, t, n), st.sp;
      var ad := sp - r.nbytes;
      PushRoom(cfg, st, t, n, r);
      RoomForFacts(cfg, st, p, ad, hi, d);
      PushedFields(st, r.nbytes, d);
      ListMembersInv(cfg, st);
      ListMembers(cfg.Overhead(), p);
      var junk: Ad := *;
      var ad1 := junk.(client := r.client, nbytes := r.nbytes);
      PushMemory(cfg, mem, st, p, ad, ad1, hfree);
      PutAdSeparate(cfg, mem, ad, ad1);
      mem := PutAd(cfg, mem, ad, ad1);
      ghost var m1 := mem;
      RoomLinked(cfg, m0, m1, st, ad, hi, hused, st.used);
      RoomLinked(cfg, m0, m1, st, ad, hi, sused, st.stack);
      sused := InitBlock(ad, t, n, sused, p);
      BlockEntered(cfg, m0, m1, mem, st, p, ad, hi, d);
      SizesIn(m1, mem, p);
      ListKept(m1, mem, hfree, p.free);
      ListKept(m1, mem, hused, p.used);
      ListPushed(m1, mem, ad, old(sused), st.stack);
      sp := ad;
    }

    method PopStack(h: int) returns (ok: bool)
      requires Valid()
      modifies this, table, table.slots
      ensures Valid() && table.slots == old(table.slots)
      ensures (st, ok) == MaState.PopStack(old(st), h)
      ensures ClientBytesKept(cfg, old(mem), mem, old(st), st)
    {
      hide Separate, Inv, Tiled, LaidOut, Linked, Sizes, Descs, Sealed, ClientBytesKept, StayPut, HandlesComplete, T.Ok;
      hide LinksOnly, PoppedTo, SurvivorsKept, Contains, MaState.PopStack, Located;
      NotLocated(st, h);
      LocatedFacts(st, h);
      KeptRefl(cfg, mem, st);
      PopKeeps(cfg, st, h);
      PopLayout(cfg, st, h);
      var found, ad := Mh2ad(h, StackTop);
      if !found { return false; }
      HandleFacts(cfg, st, h);
      ListMembersInv(cfg, st);
      PopNext(cfg, st, h);
      hide Remove, T.Deallocate;
      ghost var m0, s0, s1 := mem, st, MaState.PopStack(st, h).0;
      var deleted: int;
      deleted, sused := ListDelete(ad, sused, st.stack);
      if deleted != ad { return false; }
      LinksSeparate(cfg, m0, mem, Elems(s0.stack));
      LinksSizes(m0, mem, Elems(s0.stack), s0, s0);
      PoppedMemory(cfg, m0, mem, s0, s1, hfree, hused);
      SizeOf(mem, s0, ad);
      sp := sp + mem.ads[ad].nbytes;
      table.Release(h);
      st := s1;
      return true;
    }

    method ChopStack(h: int) returns (ok: bool)
      requires Valid()
      modifies this, table, table.slots
      ensures Valid() && table.slots == old(table.slots)
      ensures (st, ok) == MaState.ChopStack(old(st), h)
      ensures ClientBytesKept(cfg, old(mem), mem, old(st), st)
    {
      hide Separate, Inv, Tiled, LaidOut, Linked, Sizes, Descs, Sealed, ClientBytesKept, StayPut, HandlesComplete, T.Ok;
      hide LinksOnly, PoppedTo, SurvivorsKept, Contains, MaState.ChopStack, Located;
      NotLocated(st, h);
      LocatedFacts(st, h);
      KeptRefl(cfg, mem, st);
      ChopKeeps(cfg, st, h);
      ChopLayout(cfg, st, h);
      var found, ad := Mh2ad(h, Stack);
      if !found { return false; }
      HandleFacts(cfg, st, h);
      ListMembersInv(cfg, st);
      ghost var m0, s0, s1 := mem, st, MaState.ChopStack(st, h).0;
      ChopNext(cfg, st, h);
      ListDeleteUpTo(ad, st.stack);
      LinksSeparate(cfg, m0, mem, Elems(s0.stack));
      LinksSizes(m0, mem, Elems(s0.stack), s0, s0);
      PoppedMemory(cfg, m0, mem, s0, s1, hfree, hused);
      SizeOf(mem, s0, ad);
      sp := ad + mem.ads[ad].nbytes;
      st := s1;
      return true;
    }

    // ---------- MA_init, MA_set_numalign, a client's store ----------

    /** `seg` is what bytealloc returned, 0 for NULL. */
    method Init(d: int, nominalStack: int, nominalHeap: int, seg: nat) returns (ok: bool)
      requires Valid()
      modifies this
      ensures Valid() && (st, ok) == MaState.Init(cfg, old(st), d, nominalStack, nominalHeap, seg)
    {
      hide Separate, Inv, LaidOut, Linked, Sizes, Descs, StayPut, HandlesComplete, T.Ok, RegionBytes, MaState.Init;
      InitResult(cfg, st, d, nominalStack, nominalHeap, seg);
      InitKeeps(cfg, st, d, nominalStack, nominalHeap, seg);
      InitLayout(cfg, st, d, nominalStack, nominalHeap, seg);
      if initialized || !ValidType(d) { return false; }
      var t := d - MT_BASE;
      var heapBytes := RegionBytes(cfg, t, nominalHeap, DEFAULT_TOTAL_HEAP);
      var stackBytes := RegionBytes(cfg, t, nominalStack, DEFAULT_TOTAL_STACK);
      var totalBytes := heapBytes + stackBytes;
      if seg == 0 { return false; }
      segment := seg;
      partition := segment + heapBytes;
      eos := segment + totalBytes;
      hp, sp := segment, eos;
      hfree, hused, sused := 0, 0, 0;
      EmptyLinked(mem.ads);
      EmptyBacked(cfg, mem, MaState.Init(cfg, st, d, nominalStack, nominalHeap, seg).0);
      st := MaState.Init(cfg, st, d, nominalStack, nominalHeap, seg).0;
      initialized := true;
      return true;
    }

    method SetNumalign(value: int) returns (ok: bool)
      requires Valid()
      modifies this
      ensures Valid() && (st, ok) == MaState.SetNumalign(old(st), value) && mem == old(mem)
    {
      hide Separate, Inv, LaidOut, Linked, Sizes, Descs, HandlesComplete;
      NumalignKeeps(cfg, st, value);
      NumalignBacked(cfg, mem, st, value);
      if value < 0 || value > 30 { return false; }
      numalign := value;
      st := MaState.SetNumalign(st, value).0;
      return true;
    }

    /** A client that holds handle h stores v at an offset inside its client space. */
    method ClientStore(h: int, offset: nat, v: int) returns (ok: bool)
      requires Valid()
      modifies this`mem
      ensures Valid() && ok == (Located(st, h, HeapOrStack) && offset < ClientLength(cfg, st, T.Lookup(st.table, h)))
      ensures ok ==> mem == PutByte(cfg, old(mem), st.desc[T.Lookup(st.table, h)].client + offset, v)
      ensures !ok ==> mem == old(mem)
      ensures ok ==> forall a :: a in st.desc && a != T.Lookup(st.table, h) ==>
        BytesKept(old(mem), mem, st.desc[a].client, Guard2At(cfg, st.desc[a]))
    {
      hide Separate, Inv, Tiled, LaidOut, Linked, Sizes, Descs, Contains, PutByte;
      var found, ad := Mh2ad(h, HeapOrStack);
      if !found { return false; }
      HandleFacts(cfg, st, h);
      DescsAt(cfg, mem, st, ad);
      SealedAd(cfg, mem, ad, st.desc[ad]);
      if offset >= mem.ads[ad].nelem * cfg.size[mem.ads[ad].dtype] { return false; }
      ClientStoreKeeps(cfg, mem, st, ad, offset, v, hfree, hused, sused);
      PutByteSeparate(cfg, mem, mem.ads[ad].client + offset, v);
      mem := PutByte(cfg, mem, mem.ads[ad].client + offset, v);
      return true;
    }

    // ---------- a program's calls ----------

    /** One call, whatever it returns. */
    method Perform(op: Op)
      requires Valid() && PieceOk(cfg, st, op)
      modifies this, table, table.slots
      ensures Valid() && (table.slots == old(table.slots) || fresh(table.slots))
      ensures st == Apply(cfg, old(st), op)
    {
      hide Inv, LaidOut, Holds, Descs, Separate, PieceFits, ClientBytesKept, UsedList, T.HandleTable.Valid;
      hide MaState.Init, MaState.SetNumalign, MaState.AllocateHeap, MaState.FreeHeap, FreePiece, MaState.PushStack;
      hide MaState.PopStack, MaState.ChopStack, PieceSpares, OthersKept;
      match op
      case OpInit(d, ns, nh, seg) => var _ := Init(d, ns, nh, seg);
      case OpNumalign(v) => var _ := SetNumalign(v);
      case OpAllocate(d, n, growOk) => var _, _ := AllocateHeap(d, n, growOk);
      case OpFree(h) => var _ := FreeHeap(h);
      case OpFreePiece(h, n) => var _ := FreeHeapPiece(h, n);
      case OpPush(d, n, growOk) => var _, _ := PushStack(d, n, growOk);
      case OpPop(h) => var _ := PopStack(h);
      case OpChop(h) => var _ := ChopStack(h);
    }

    /** Any calls one after the other, from the state before MA_init: as long as the partial frees among
        them fit, memory follows the values. */
    method Execute(ops: seq<Op>)
      requires Valid() && st == INITIAL && PiecesFit(cfg, ops)
      modifies this, table, table.slots
      ensures Valid() && st == Run(cfg, ops)
    {
      assert cfg.Valid();
      hide Valid, Inv, PieceOk;
      var i := 0;
      while i < |ops|
        invariant 0 <= i <= |ops| && cfg.Valid() && Valid() && st == Run(cfg, ops[..i])
        invariant table.slots == old(table.slots) || fresh(table.slots)
      {
        RunStep(cfg, ops, i);
        Perform(ops[i]);
        i := i + 1;
      }
      assert ops[..i] == ops;
    }

    /** What memory says about byte x. */
    lemma ByteOwner(x: int)
      requires Valid()
      ensures segment <= x < hp <==>
        exists a :: (OnList(mem.ads, hfree, a) || OnList(mem.ads, hused, a)) && Covers(mem, a, x)
      ensures sp <= x < eos <==> exists a :: OnList(mem.ads, sused, a) && Covers(mem, a, x)
      ensures forall a, b ::
        InSomeList(mem, hfree, hused, sused, a) && InSomeList(mem, hfree, hused, sused, b) && Covers(mem, a, x) && Covers(mem, b, x) ==>
          a == b
    {
      hide Inv, LaidOut, Descs, Separate, OnList, Covers, InSomeList, Linked, Sizes;
      OwnedInMemory(cfg, mem, hfree, hused, sused, st, x);
    }

    // ---------- the heap inquiries ----------

    /** ma_max_heap_frag_nelem */
    method MaxHeapFragNelem(t: TypeIndex, minNelem: int) returns (max: int)
      requires Valid()
      ensures max == Inq.FragMax(cfg, st, t, 0, 0, Inq.MinBytes(cfg, t, minNelem))
    {
      hide Separate, Inv, LaidOut, Descs, Linked, Sizes, Inq.PrunedNelem;
      var minBytes := minNelem * cfg.size[t] + cfg.Overhead();
      FreeInSize(cfg, st);
      StartOf(mem, hfree, st.free);
      max := 0;
      var cur := hfree;
      ghost var i := 0;
      while cur != 0
        invariant 0 <= i <= |st.free| && (cur == 0 <==> i == |st.free|) && (i < |st.free| ==> cur == st.free[i])
        invariant Inq.FragMax(cfg, st, t, 0, 0, minBytes) == Inq.FragMax(cfg, st, t, i, max, minBytes)
        decreases |st.free| - i
      {
        var n := FragNelem(t, cur, minBytes);
        max := Inq.Max(max, n);
        cur := Next(cur, hfree, st.free, i);
        i := i + 1;
      }
    }

    /** One fragment's contribution: nothing at or past the partition or below the threshold. */
    method FragNelem(t: TypeIndex, cur: int, minBytes: int) returns (n: int)
      requires cfg.Valid() && Sizes(mem, st) && cur in st.size && partition == st.partition && numalign == st.numalign
      ensures n == Inq.PrunedNelem(cfg, st, t, cur, minBytes)
    {
      hide Inq.IsLargest, Inq.Nelem;
      SizeOf(mem, st, cur);
      if cur >= partition { return 0; }
      var nbytes := if cur + mem.ads[cur].nbytes >= partition then partition - cur else mem.ads[cur].nbytes;
      if nbytes < minBytes { return 0; }
      n := Inq.MaNelem(cfg, numalign, t, cur, nbytes);
      Inq.NelemIsLargest(cfg, numalign, t, cur, nbytes);
      Inq.LargestIsUnique(cfg, numalign, t, n, Inq.Nelem(cfg, numalign, t, cur, nbytes), cur, nbytes);
    }

    /** MA_inquire_heap and its two variants. */
    method InquireHeap(kind: Inq.Kind, d: int) returns (n: int)
      requires Valid()
      ensures n == Inq.InquireHeap(cfg, st, kind, d)
    {
      hide Separate, Inv, LaidOut, Descs, Linked, Sizes, Inq.IsLargest, Inq.Nelem, Inq.FragMax, Inq.MinBytes, T.HandleTable.Valid;
      if !initialized || !ValidType(d) { return 0; }
      var t := d - MT_BASE;
      var limit := match kind
        case HonourPartition => partition
        case CheckStack => if sp < partition then sp else partition
        case NoPartition => sp;
      var gap := 0;
      if limit - hp > 0 {
        gap := Inq.MaNelem(cfg, numalign, t, hp, limit - hp);
        Inq.NelemIsLargest(cfg, numalign, t, hp, limit - hp);
        Inq.LargestIsUnique(cfg, numalign, t, gap, Inq.Nelem(cfg, numalign, t, hp, limit - hp), hp, limit - hp);
      }
      var frag := MaxHeapFragNelem(t, gap);
      n := Inq.Max(gap, frag);
    }
  }
}
