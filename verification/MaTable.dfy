/** The handle table of ma/table.c: a growable array of slots, found by a circular
    search, with lookup in both directions. */
module MaTable {

  const HANDLE_NONE := -1
  const DEFAULT_TABLE_ENTRIES := 32

  datatype Slot = Unused | Allocated(data: int) | Deallocated(data: int)

  /** The table's whole state: the slots, ma_table_entries and ma_table_next_slot. */
  datatype Table = Table(slots: seq<Slot>, entries: int, next: int)

  // ---------- specification ----------

  /** ma_table_verify */
  predicate Live(t: Table, h: int) {
    0 <= h < |t.slots| && t.slots[h].Allocated?
  }

  /** ma_table_lookup; NULL is 0. */
  function Lookup(t: Table, h: int): int {
    if Live(t, h) then t.slots[h].data else 0
  }

  function AssocFrom(slots: seq<Slot>, data: int, i: nat): int
    requires i <= |slots|
    decreases |slots| - i
  {
    if i == |slots| then HANDLE_NONE
    else if slots[i] == Allocated(data) then i
    else AssocFrom(slots, data, i + 1)
  }

  /** ma_table_lookup_assoc */
  function LookupAssoc(t: Table, data: int): int { AssocFrom(t.slots, data, 0) }

  /** The slot reached by examining `left` more slots circularly from i. */
  function SearchFrom(slots: seq<Slot>, i: int, left: nat): int
    requires 0 <= i < |slots|
    decreases left
  {
    if left == 0 then HANDLE_NONE
    else if !slots[i].Allocated? then i
    else SearchFrom(slots, (i + 1) % |slots|, left - 1)
  }

  function NewCapacity(capacity: nat): nat {
    if capacity == 0 then DEFAULT_TABLE_ENTRIES else 2 * capacity
  }

  function Unuseds(n: nat): seq<Slot> { seq(n, _ => Unused) }

  /** The table after the growth step; `growOk` is whether bytealloc succeeded. */
  function Grown(t: Table): Table {
    Table(t.slots + Unuseds(NewCapacity(|t.slots|) - |t.slots|), t.entries, |t.slots|)
  }

  /** ma_table_allocate: the new table and the handle. */
  function Allocate(t: Table, data: int, growOk: bool): (Table, int)
    requires Ok(t)
  {
    if t.entries >= |t.slots| && !growOk then (t, HANDLE_NONE)
    else
      var g := if t.entries >= |t.slots| then Grown(t) else t;
      var i := SearchFrom(g.slots, g.next, |g.slots|);
      SearchInRange(g.slots, g.next, |g.slots|);
      if i == HANDLE_NONE then (g, HANDLE_NONE)
      else (Table(g.slots[i := Allocated(data)], g.entries + 1, (i + 1) % |g.slots|), i)
  }

  /** ma_table_deallocate */
  function Deallocate(t: Table, h: int): Table {
    if Live(t, h)
    then t.(slots := t.slots[h := Deallocated(t.slots[h].data)], entries := t.entries - 1)
    else t
  }

  function Count(slots: seq<Slot>): nat {
    if slots == [] then 0
    else Count(slots[..|slots| - 1]) + (if slots[|slots| - 1].Allocated? then 1 else 0)
  }

  /** ma_table_entries counts the allocated slots and the cursor is a slot. */
  ghost predicate Ok(t: Table) {
    && t.entries == Count(t.slots)
    && (if |t.slots| == 0 then t.next == 0 else 0 <= t.next < |t.slots|)
  }

  const EMPTY_TABLE := Table([], 0, 0)

  // ---------- lemmas ----------

  lemma SearchInRange(slots: seq<Slot>, i: int, left: nat)
    requires 0 <= i < |slots|
    ensures SearchFrom(slots, i, left) == HANDLE_NONE
         || (0 <= SearchFrom(slots, i, left) < |slots| && !slots[SearchFrom(slots, i, left)].Allocated?)
    decreases left
  {}

  /** A search that examines d + 1 slots finds something if the slot d steps ahead is free. */
  lemma {:induction false} SearchFinds(slots: seq<Slot>, i: int, left: nat, d: nat)
    requires 0 <= i < |slots| && d < left && d < |slots|
    requires !slots[if i + d < |slots| then i + d else i + d - |slots|].Allocated?
    ensures SearchFrom(slots, i, left) != HANDLE_NONE
    decreases left
  {
    if slots[i].Allocated? {
      assert d > 0;
      SearchSkips(slots, i, left);
      hide SearchFrom;
      SearchFinds(slots, if i + 1 < |slots| then i + 1 else 0, left - 1, d - 1);
    }
  }

  lemma SearchSkips(slots: seq<Slot>, i: int, left: nat)
    requires 0 <= i < |slots| && slots[i].Allocated? && left > 0
    ensures SearchFrom(slots, i, left) == SearchFrom(slots, if i + 1 < |slots| then i + 1 else 0, left - 1)
  {
    assert (i + 1) % |slots| == if i + 1 < |slots| then i + 1 else 0;
  }

  lemma {:induction false} CountUpdate(slots: seq<Slot>, i: nat, v: Slot)
    requires i < |slots|
    ensures Count(slots[i := v]) ==
      Count(slots) - (if slots[i].Allocated? then 1 else 0) + (if v.Allocated? then 1 else 0)
  {
    var n := |slots| - 1;
    if i == n {
      assert slots[i := v][..n] == slots[..n];
    } else {
      assert slots[i := v][..n] == slots[..n][i := v];
      CountUpdate(slots[..n], i, v);
    }
  }

  lemma {:induction false} CountUnused(slots: seq<Slot>, n: nat)
    ensures Count(slots + Unuseds(n)) == Count(slots)
  {
    var s := slots + Unuseds(n);
    if n == 0 {
      assert s == slots;
    } else {
      assert s[..|s| - 1] == slots + Unuseds(n - 1);
      CountUnused(slots, n - 1);
    }
  }

  /** Fewer allocated slots than slots leaves one that is not allocated. */
  lemma {:induction false} CountFull(slots: seq<Slot>)
    ensures Count(slots) <= |slots|
    ensures Count(slots) < |slots| ==> exists i :: 0 <= i < |slots| && !slots[i].Allocated?
  {
    if slots != [] {
      var n := |slots| - 1;
      CountFull(slots[..n]);
      if Count(slots) < |slots| && slots[n].Allocated? {
        var i :| 0 <= i < n && !slots[..n][i].Allocated?;
        assert !slots[i].Allocated?;
      }
    }
  }

  /** Allocation keeps the count right, always finds a slot unless the table had to
      grow and could not, hands out a handle that was not live, stores the data there
      and disturbs no other slot. */
  lemma AllocateCorrect(t: Table, data: int, growOk: bool)
    requires Ok(t)
    ensures var (t', h) := Allocate(t, data, growOk);
      && Ok(t')
      && (h == HANDLE_NONE <==> t.entries >= |t.slots| && !growOk)
      && (h == HANDLE_NONE ==> t' == t)
      && (h != HANDLE_NONE ==>
            && !Live(t, h) && Live(t', h) && Lookup(t', h) == data && t'.entries == t.entries + 1
            && |t.slots| <= |t'.slots|
            && forall k :: 0 <= k < |t'.slots| && k != h ==>
                 t'.slots[k] == if k < |t.slots| then t.slots[k] else Unused)
  {
    if t.entries < |t.slots| || growOk {
      var g := if t.entries >= |t.slots| then Grown(t) else t;
      if t.entries >= |t.slots| { GrownReady(t); } else { NotFullReady(t); }
      hide SearchFrom, Count, Grown;
      SearchInRange(g.slots, g.next, |g.slots|);
      CountUpdate(g.slots, SearchFrom(g.slots, g.next, |g.slots|), Allocated(data));
    }
  }

  /** A grown table keeps its slots, and the cursor is on one that is not allocated. */
  lemma GrownReady(t: Table)
    requires Ok(t)
    ensures Ok(Grown(t)) && |Grown(t).slots| > |t.slots| && Grown(t).entries == t.entries && 0 <= Grown(t).next < |Grown(t).slots|
    ensures forall k :: 0 <= k < |Grown(t).slots| ==> Grown(t).slots[k] == if k < |t.slots| then t.slots[k] else Unused
    ensures SearchFrom(Grown(t).slots, Grown(t).next, |Grown(t).slots|) != HANDLE_NONE
  {
    var g := Grown(t);
    CountUnused(t.slots, NewCapacity(|t.slots|) - |t.slots|);
    SearchFinds(g.slots, g.next, |g.slots|, 0);
  }

  lemma NotFullReady(t: Table)
    requires Ok(t) && t.entries < |t.slots|
    ensures SearchFrom(t.slots, t.next, |t.slots|) != HANDLE_NONE
  {
    hide SearchFrom;
    CountFull(t.slots);
    var i :| 0 <= i < |t.slots| && !t.slots[i].Allocated?;
    SearchFinds(t.slots, t.next, |t.slots|, if i >= t.next then i - t.next else i + |t.slots| - t.next);
  }

  /** Every slot from i on, around the end of the table, and before h is allocated. */
  ghost predicate TakenBetween(slots: seq<Slot>, i: int, h: int) {
    forall k :: 0 <= k < |slots| && (if i <= h then i <= k < h else k >= i || k < h) ==> slots[k].Allocated?
  }

  lemma {:induction false} SearchFirst(slots: seq<Slot>, i: int, left: nat)
    requires 0 <= i < |slots| && SearchFrom(slots, i, left) != HANDLE_NONE
    ensures var h := SearchFrom(slots, i, left); 0 <= h < |slots| && !slots[h].Allocated? && TakenBetween(slots, i, h)
    decreases left
  {
    if slots[i].Allocated? {
      SearchSkips(slots, i, left);
      hide SearchFrom;
      SearchFirst(slots, if i + 1 < |slots| then i + 1 else 0, left - 1);
    }
  }

  /** The handle is the first slot after the last one handed out, around the end of the table, that is not
      allocated. A full table first gets 32 slots or twice as many as before, and the handle is its first new one. */
  lemma AllocateNext(t: Table, data: int)
    requires Ok(t)
    ensures var (t', h) := Allocate(t, data, true);
      && 0 <= h < |t'.slots| && t'.next == (if h + 1 < |t'.slots| then h + 1 else 0)
      && (t.entries < |t.slots| ==> |t'.slots| == |t.slots| && TakenBetween(t.slots, t.next, h))
      && (t.entries >= |t.slots| ==> h == |t.slots| && |t'.slots| == if t.slots == [] then 32 else 2 * |t.slots|)
  {
    if t.entries < |t.slots| {
      NotFullReady(t);
      SearchFirst(t.slots, t.next, |t.slots|);
    } else {
      GrownReady(t);
      assert SearchFrom(Grown(t).slots, Grown(t).next, |Grown(t).slots|) == |t.slots|;
    }
    hide SearchFrom;
    AllocateCorrect(t, data, true);
    hide Ok, Live, Lookup;
    WrapsAround(Allocate(t, data, true).1, |Allocate(t, data, true).0.slots|);
  }

  lemma WrapsAround(h: int, n: int)
    requires 0 <= h < n
    ensures (h + 1) % n == if h + 1 < n then h + 1 else 0
  {}

  /** Deallocation keeps the count right and changes the one slot only. */
  lemma DeallocateCorrect(t: Table, h: int)
    requires Ok(t)
    ensures Ok(Deallocate(t, h)) && !Live(Deallocate(t, h), h)
    ensures |Deallocate(t, h).slots| == |t.slots|
    ensures forall k :: 0 <= k < |t.slots| && k != h ==> Deallocate(t, h).slots[k] == t.slots[k]
  {
    if Live(t, h) { CountUpdate(t.slots, h, Deallocated(t.slots[h].data)); }
  }

  lemma {:induction false} AssocFinds(slots: seq<Slot>, data: int, i: nat)
    requires i <= |slots|
    ensures var h := AssocFrom(slots, data, i);
      if h == HANDLE_NONE then forall k :: i <= k < |slots| ==> slots[k] != Allocated(data)
      else i <= h < |slots| && slots[h] == Allocated(data)
    decreases |slots| - i
  {
    if i < |slots| && slots[i] != Allocated(data) { AssocFinds(slots, data, i + 1); }
  }

  /** Distinct live handles hold distinct data. */
  ghost predicate Injective(t: Table) {
    forall h, k :: Live(t, h) && Live(t, k) && Lookup(t, h) == Lookup(t, k) ==> h == k
  }

  /** Inverse lookup undoes lookup whenever no data is stored twice. */
  lemma AssocUndoesLookup(t: Table, h: int)
    requires Live(t, h) && Injective(t)
    ensures LookupAssoc(t, Lookup(t, h)) == h
  {
    AssocFinds(t.slots, Lookup(t, h), 0);
    var k := LookupAssoc(t, Lookup(t, h));
    assert t.slots[h] == Allocated(Lookup(t, h));
    assert Live(t, k) && Lookup(t, k) == Lookup(t, h);
  }

  // ---------- the array and the loops ----------

  class HandleTable {
    var slots: array<Slot>
    var entries: int
    var next: int

    ghost predicate Valid()
      reads this, slots
    {
      Ok(View())
    }

    ghost function View(): Table
      reads this, slots
    {
      Table(slots[..], entries, next)
    }

    constructor ()
      ensures Valid() && View() == EMPTY_TABLE && fresh(slots)
    {
      slots, entries, next := new Slot[0], 0, 0;
    }

    method Verify(h: int) returns (ok: bool)
      ensures ok == Live(View(), h)
    {
      ok := 0 <= h && h < slots.Length && slots[h].Allocated?;
    }

    method LookupData(h: int) returns (data: int)
      ensures data == Lookup(View(), h)
    {
      var ok := Verify(h);
      if ok { data := slots[h].data; } else { data := 0; }
    }

    method LookupHandle(data: int) returns (h: int)
      ensures h == LookupAssoc(View(), data)
    {
      var i := 0;
      while i < slots.Length
        invariant 0 <= i <= slots.Length
        invariant LookupAssoc(View(), data) == AssocFrom(slots[..], data, i)
      {
        if slots[i] == Allocated(data) { return i; }
        i := i + 1;
      }
      return HANDLE_NONE;
    }

    method Store(data: int, growOk: bool) returns (h: int)
      requires Valid()
      modifies this, slots
      ensures Valid() && (slots == old(slots) || fresh(slots))
      ensures (View(), h) == Allocate(old(View()), data, growOk)
    {
      hide Count, Live, Lookup;
      ghost var t := View();
      AllocateCorrect(t, data, growOk);
      if entries >= slots.Length {
        if !growOk { return HANDLE_NONE; }
        Grow();
      }
      ghost var g := View();
      var i, examined := next, 0;
      while examined < slots.Length
        invariant 0 <= examined <= slots.Length && 0 <= i < slots.Length
        invariant View() == g && (slots == old(slots) || fresh(slots))
        invariant SearchFrom(g.slots, g.next, |g.slots|) == SearchFrom(g.slots, i, |g.slots| - examined)
      {
        if !slots[i].Allocated? {
          slots[i] := Allocated(data);
          entries := entries + 1;
          next := (i + 1) % slots.Length;
          assert View().slots == g.slots[i := Allocated(data)];
          return i;
        }
        examined, i := examined + 1, (i + 1) % slots.Length;
      }
      return HANDLE_NONE;
    }

    method Grow()
      requires Valid() && entries >= slots.Length
      modifies this
      ensures View() == Grown(old(View())) && fresh(slots) && slots.Length > 0
    {
      CountFull(slots[..]);
      var capacity := if slots.Length == 0 then DEFAULT_TABLE_ENTRIES else 2 * slots.Length;
      var bigger := new Slot[capacity];
      forall k | 0 <= k < slots.Length { bigger[k] := slots[k]; }
      var i := capacity - 1;
      while i >= slots.Length
        invariant slots.Length - 1 <= i < capacity && View() == old(View())
        invariant forall k :: 0 <= k < slots.Length ==> bigger[k] == slots[k]
        invariant forall k :: i < k < capacity ==> bigger[k] == Unused
      {
        bigger[i] := Unused;
        i := i - 1;
      }
      next := slots.Length;
      ghost var was := slots[..];
      slots := bigger;
      assert slots[..] == was + Unuseds(capacity - |was|);
    }

    method Release(h: int)
      requires Valid()
      modifies this, slots
      ensures Valid() && slots == old(slots)
      ensures View() == Deallocate(old(View()), h)
    {
      DeallocateCorrect(View(), h);
      var ok := Verify(h);
      if ok {
        slots[h] := Deallocated(slots[h].data);
        entries := entries - 1;
      }
    }
  }
}
