/** Laws of the stack side of MA: a chop is the pops it stands for, and a pop undoes a push. */
module MaStack {
  import opened MaLayout
  import opened Lists
  import opened MaState
  import opened MaTiling
  import opened MaHandles
  import opened MaRuns
  import T = MaTable

  /** MA_pop_stack of the block on top, by its handle. */
  function PopTop(s: State): State {
    PopStack(s, T.LookupAssoc(s.table, s.sp)).0
  }

  /** MA_pop_stack k times, each of the block then on top. */
  function PopTimes(s: State, k: nat): State
    decreases k
  {
    if k == 0 then s else PopTimes(PopTop(s), k - 1)
  }

  lemma TopHandle(cfg: Config, s: State)
    requires cfg.Valid() && Inv(cfg, s) && HandlesComplete(s) && s.stack != []
    ensures var h := T.LookupAssoc(s.table, s.sp);
      StackHandle(s, h) && T.Lookup(s.table, h) == s.sp == s.stack[0]
  {
    assert s.stack[0] in s.desc && s.stack[0] in s.stack;
    assert HasHandle(s.table, s.sp);
    var h :| T.Live(s.table, h) && T.Lookup(s.table, h) == s.sp;
    T.AssocUndoesLookup(s.table, h);
  }

  /** Chopping to the top block is popping it. */
  lemma ChopTopIsPop(cfg: Config, s: State)
    requires cfg.Valid() && Inv(cfg, s) && HandlesComplete(s) && s.stack != []
    ensures ChopTo(s, s.stack[0]) == PopTop(s)
  {
    hide Inv, HandlesComplete, PopTop, FreeHandles, T.LookupAssoc;
    PopTopIs(cfg, s);
    StackFacts(cfg, s);
    AboveIsSuffix(s.stack, 0);
    TailHandles(s.table, s.stack);
    DropTop(s.size, s.hp, s.stack);
    DropTop(s.desc, s.hp, s.stack);
  }

  lemma PopTopIs(cfg: Config, s: State)
    requires cfg.Valid() && Inv(cfg, s) && HandlesComplete(s) && s.stack != []
    ensures PopTop(s) == s.(sp := s.End(s.sp), stack := s.stack[1..], size := s.size - {s.sp}, desc := s.desc - {s.sp},
      table := FreeHandle(s.table, s.sp))
  {
    TopHandle(cfg, s);
    hide Inv;
    assert Remove(s.stack, s.stack[0]) == s.stack[1..];
  }

  /** Every block is in the heap or on the stack list, whose first is the lowest. */
  lemma StackFacts(cfg: Config, s: State)
    requires cfg.Valid() && Inv(cfg, s)
    ensures Sorted(s.stack) && (forall x :: x in s.size ==> x < s.hp || x in s.stack)
    ensures (forall x :: x in s.desc ==> x in s.size) && (s.stack != [] ==> s.stack[0] == s.sp >= s.hp)
  {
    hide HeapChain, UsedList, FreeList, Coalesced, Apart;
  }

  lemma DropTop<V>(m: map<int, V>, hp: int, stack: seq<int>)
    requires Sorted(stack) && stack != [] && stack[0] >= hp && forall x :: x in m ==> x < hp || x in stack
    ensures (map x | x in m && (x in stack[1..] || x < hp) :: m[x]) == m - {stack[0]}
  {
    assert forall x :: x in stack <==> x == stack[0] || x in stack[1..];
    assert forall x :: x in stack[1..] ==> x > stack[0];
  }

  lemma {:induction false} NothingUpTo(t: T.Table, s: seq<int>, m: int)
    requires forall k :: 0 <= k < |s| ==> s[k] > m
    ensures FreeHandles(t, s, m) == t
    decreases s
  {
    if s != [] { NothingUpTo(t, s[1..], m); }
  }

  lemma TailHandles(t: T.Table, s: seq<int>)
    requires Sorted(s) && s != []
    ensures FreeHandles(t, s, s[0]) == FreeHandle(t, s[0])
  {
    NothingUpTo(FreeHandle(t, s[0]), s[1..], s[0]);
  }

  /** Popping the top first does not change what a deeper chop reaches. */
  lemma ChopAfterPop(cfg: Config, s: State, i: nat)
    requires cfg.Valid() && Inv(cfg, s) && HandlesComplete(s) && 0 < i < |s.stack|
    ensures ChopTo(PopTop(s), s.stack[i]) == ChopTo(s, s.stack[i])
  {
    PopTopIs(cfg, s);
    StackFacts(cfg, s);
    hide Inv, HandlesComplete, PopTop;
    var p, a := PopTop(s), s.stack[i];
    assert s.stack[0] < a;
    AboveIsSuffix(s.stack, i);
    AboveIsSuffix(p.stack, i - 1);
    assert p.stack[i..] == s.stack[i + 1..];
    FreeHandlesFirst(s.table, s.stack, a);
    hide FreeHandles, Above, Sorted;
    SameRest(s, p, s.stack[i + 1..]);
  }

  lemma FreeHandlesFirst(t: T.Table, s: seq<int>, m: int)
    requires s != [] && s[0] <= m
    ensures FreeHandles(t, s, m) == FreeHandles(FreeHandle(t, s[0]), s[1..], m)
  {}

  lemma SameRest(s: State, p: State, keep: seq<int>)
    requires p.hp == s.hp <= s.sp && p.size == s.size - {s.sp} && p.desc == s.desc - {s.sp}
    requires s.sp !in keep
    ensures (map x | x in s.size && (x in keep || x < s.hp) :: s.size[x]) == (map x | x in p.size && (x in keep || x < p.hp) :: p.size[x])
    ensures (map x | x in s.desc && (x in keep || x < s.hp) :: s.desc[x]) == (map x | x in p.desc && (x in keep || x < p.hp) :: p.desc[x])
  {}

  /** MA_chop_stack of handle h reaches exactly the state, handle table included, that
      popping from the top down to and including h's block reaches. */
  lemma ChopIsPops(cfg: Config, s: State, h: int, i: nat)
    requires cfg.Valid() && Inv(cfg, s) && HandlesComplete(s)
    requires StackHandle(s, h) && i < |s.stack| && s.stack[i] == T.Lookup(s.table, h)
    ensures ChopStack(s, h) == (PopTimes(s, i + 1), true)
  {
    ChopToIsPops(cfg, s, i);
  }

  lemma {:induction false} ChopToIsPops(cfg: Config, s: State, i: nat)
    requires cfg.Valid() && Inv(cfg, s) && HandlesComplete(s) && i < |s.stack|
    ensures ChopTo(s, s.stack[i]) == PopTimes(s, i + 1)
    decreases i
  {
    hide Inv, HandlesComplete, PopStack, ChopTo;
    if i == 0 {
      ChopTopIsPop(cfg, s);
      assert PopTimes(PopTop(s), 0) == PopTop(s);
    } else {
      ChopAfterPop(cfg, s, i);
      PopKeeps(cfg, s, T.LookupAssoc(s.table, s.sp));
      PopTopStack(cfg, s);
      ChopToIsPops(cfg, PopTop(s), i - 1);
    }
  }

  lemma PopTopStack(cfg: Config, s: State)
    requires cfg.Valid() && Inv(cfg, s) && HandlesComplete(s) && s.stack != []
    ensures PopTop(s).stack == s.stack[1..]
  {
    TopHandle(cfg, s);
    PopIsPoppedTo(cfg.Overhead(), s, T.LookupAssoc(s.table, s.sp));
  }

  /** Releasing the handle just allocated leaves every other handle as it was. */
  lemma ReleaseUndoesAllocate(t: T.Table, data: int, growOk: bool)
    requires T.Ok(t) && T.Allocate(t, data, growOk).1 != T.HANDLE_NONE
    ensures var (u, h) := T.Allocate(t, data, growOk);
      var v := T.Deallocate(u, h);
      && T.Live(u, h) && T.Lookup(u, h) == data
      && (forall k :: T.Live(v, k) <==> T.Live(t, k))
      && (forall k :: T.Live(t, k) ==> T.Lookup(v, k) == T.Lookup(t, k))
  {
    T.AllocateCorrect(t, data, growOk);
    var (u, h) := T.Allocate(t, data, growOk);
    T.DeallocateCorrect(u, h);
    hide T.Allocate, T.Ok, T.Deallocate;
  }

  lemma TableSound(cfg: Config, s: State)
    requires cfg.Valid() && Inv(cfg, s)
    ensures T.Ok(s.table)
  {}

  /** Popping the block just pushed, under its handle h. */
  lemma PushPop(s: State, nbytes: int, d: Desc, table: T.Table, h: int)
    requires s.sp - nbytes !in s.size && s.sp - nbytes !in s.desc
    requires T.Live(table, h) && T.Lookup(table, h) == s.sp - nbytes
    ensures PopStack(Pushed(s, nbytes, d).(table := table), h) == (s.(table := T.Deallocate(table, h)), true)
  {
    hide T.Live, T.Lookup, T.Deallocate;
    var a := s.sp - nbytes;
    var p := Pushed(s, nbytes, d).(table := table);
    assert p.stack[0] == a && Remove(p.stack, a) == s.stack;
    assert p.size - {a} == s.size && p.desc - {a} == s.desc;
  }

  /** A successful push followed by a pop of its handle restores ma_sp, the stack, every
      length and descriptor, and every live handle. */
  lemma PopUndoesPush(cfg: Config, s: State, d: int, n: int, growOk: bool)
    requires cfg.Valid() && Inv(cfg, s) && PushStack(cfg, s, d, n, growOk).1 != T.HANDLE_NONE
    ensures var (pushed, h) := PushStack(cfg, s, d, n, growOk);
      var (popped, ok) := PopStack(pushed, h);
      && ok && popped == s.(table := popped.table)
      && (forall k :: T.Live(popped.table, k) <==> T.Live(s.table, k))
      && (forall k :: T.Live(s.table, k) ==> T.Lookup(popped.table, k) == T.Lookup(s.table, k))
  {
    hide Inv, BallocBefore, T.Ok, T.Allocate, T.Deallocate, T.Live, T.Lookup, PopStack, Pushed;
    PushedKeeps(cfg, s, d - MT_BASE, n, growOk);
    var t := d - MT_BASE;
    var r := BallocBefore(cfg, s.numalign, t, n, s.sp);
    var a := s.sp - r.nbytes;
    TableSound(cfg, s);
    ReleaseUndoesAllocate(s.table, a, growOk);
    var (table, h) := T.Allocate(s.table, a, growOk);
    PushPop(s, r.nbytes, Desc(r.client, t, n), table, h);
  }
}
