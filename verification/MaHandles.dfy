/** Handles and blocks in use stay in one-to-one correspondence. */
module MaHandles {
  import opened MaLayout
  import opened Lists
  import opened MaState
  import opened MaTiling
  import T = MaTable

  // ---------- one table step ----------

  /** Entering a new block under a fresh handle. */
  lemma StoreSound(s: State, s': State, a: int, growOk: bool)
    requires HandlesSound(s) && a !in s.desc
    requires s'.table == T.Allocate(s.table, a, growOk).0 && s'.desc.Keys == s.desc.Keys + {a}
    ensures HandlesSound(s')
    ensures growOk && HandlesComplete(s) ==> HandlesComplete(s')
  {
    T.AllocateCorrect(s.table, a, growOk);
    var h := T.Allocate(s.table, a, growOk).1;
    assert forall x :: x in s'.desc <==> x in s.desc || x == a;
    if h != T.HANDLE_NONE {
      forall k | T.Live(s'.table, k) && k != h
        ensures T.Live(s.table, k) && T.Lookup(s.table, k) == T.Lookup(s'.table, k)
      {}
      if HandlesComplete(s) {
        forall x | x in s'.desc
          ensures HasHandle(s'.table, x)
        {
          if x == a {
            assert T.Live(s'.table, h);
          } else {
            var k :| T.Live(s.table, k) && T.Lookup(s.table, k) == x;
            assert k != h && s'.table.slots[k] == s.table.slots[k];
            assert T.Live(s'.table, k);
          }
        }
      }
    }
  }

  /** Releasing handle h of block a. */
  lemma ReleaseSound(s: State, s': State, h: int)
    requires HandlesSound(s) && T.Live(s.table, h)
    requires s'.table == T.Deallocate(s.table, h) && s'.desc.Keys == s.desc.Keys - {T.Lookup(s.table, h)}
    ensures HandlesSound(s')
    ensures HandlesComplete(s) ==> HandlesComplete(s')
  {
    T.DeallocateCorrect(s.table, h);
    forall k | T.Live(s'.table, k)
      ensures k != h && T.Live(s.table, k) && T.Lookup(s'.table, k) == T.Lookup(s.table, k)
    {}
    assert forall x :: x in s'.desc <==> x in s.desc && x != T.Lookup(s.table, h);
    if HandlesComplete(s) {
      forall x | x in s'.desc
        ensures HasHandle(s'.table, x)
      {
        assert HasHandle(s.table, x);
        var k :| T.Live(s.table, k) && T.Lookup(s.table, k) == x;
        assert T.Live(s'.table, k) && T.Lookup(s'.table, k) == x;
      }
    }
  }

  /** mh_free releases the handle of block x and no other. */
  lemma FreeHandleSpec(t: T.Table, x: int)
    requires T.Ok(t) && T.Injective(t)
    ensures var t' := FreeHandle(t, x);
      && T.Ok(t') && T.Injective(t')
      && forall h :: T.Live(t', h) <==> T.Live(t, h) && T.Lookup(t, h) != x
    ensures forall h :: T.Live(FreeHandle(t, x), h) ==> T.Lookup(FreeHandle(t, x), h) == T.Lookup(t, h)
  {
    var k := T.LookupAssoc(t, x);
    T.AssocFinds(t.slots, x, 0);
    T.DeallocateCorrect(t, k);
    forall h | T.Live(t, h) && T.Lookup(t, h) == x
      ensures h == k
    {
      assert t.slots[h] == T.Allocated(x);
    }
    var t' := FreeHandle(t, x);
    forall h | T.Live(t', h)
      ensures T.Live(t, h) && T.Lookup(t', h) == T.Lookup(t, h) && T.Lookup(t, h) != x
    {
      assert h != k && t'.slots[h] == t.slots[h];
    }
  }

  /** MA_chop_stack frees exactly the handles of the blocks it removes. */
  lemma {:induction false} FreeHandlesSpec(t: T.Table, s: seq<int>, m: int)
    requires T.Ok(t) && T.Injective(t)
    ensures var t' := FreeHandles(t, s, m);
      && T.Ok(t') && T.Injective(t')
      && forall h :: T.Live(t', h) <==> T.Live(t, h) && !(T.Lookup(t, h) in s && T.Lookup(t, h) <= m)
    ensures forall h :: T.Live(FreeHandles(t, s, m), h) ==> T.Lookup(FreeHandles(t, s, m), h) == T.Lookup(t, h)
    decreases s
  {
    if s != [] {
      assert forall x :: x in s <==> x == s[0] || x in s[1..];
      if s[0] <= m {
        FreeHandleSpec(t, s[0]);
        FreeHandlesSpec(FreeHandle(t, s[0]), s[1..], m);
      } else {
        FreeHandlesSpec(t, s[1..], m);
      }
    }
  }

  lemma ChopSound(s: State, s': State, m: int)
    requires HandlesSound(s) && s'.table == FreeHandles(s.table, s.stack, m)
    requires forall x :: x in s'.desc <==> x in s.desc && !(x in s.stack && x <= m)
    ensures HandlesSound(s')
    ensures HandlesComplete(s) ==> HandlesComplete(s')
  {
    FreeHandlesSpec(s.table, s.stack, m);
    if HandlesComplete(s) {
      forall x | x in s'.desc
        ensures HasHandle(s'.table, x)
      {
        assert HasHandle(s.table, x);
        var k :| T.Live(s.table, k) && T.Lookup(s.table, k) == x;
        assert T.Live(s'.table, k) && T.Lookup(s'.table, k) == x;
      }
    }
  }

  lemma SameKeysSound(s: State, s': State)
    requires s'.table == s.table && s'.desc.Keys == s.desc.Keys
    ensures HandlesSound(s) ==> HandlesSound(s')
    ensures HandlesComplete(s) ==> HandlesComplete(s')
  {
    assert forall x :: (x in s.desc <==> x in s.desc.Keys) && (x in s'.desc <==> x in s'.desc.Keys);
  }
}
