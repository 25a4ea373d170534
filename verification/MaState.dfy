/** The MA allocator on values: its state and what each public routine of ma/ma.c
    does to it. The imperative class in MaAllocator is proved against these functions. */
module MaState {
  import opened Arith
  import opened MaLayout
  import opened Lists
  import T = MaTable

  /** What an AD in use records besides its length. */
  datatype Desc = Desc(client: int, dtype: TypeIndex, nelem: nat)

  /** `free`, `used` and `stack` are ma_hfree, ma_hused and ma_sused as address
      sequences in list order; `size` gives nbytes of every block, `desc` the
      descriptors of the blocks in use. */
  datatype State = State(ready: bool, segment: int, partition: int, eos: int, hp: int, sp: int,
                         free: seq<int>, used: seq<int>, stack: seq<int>,
                         size: map<int, int>, desc: map<int, Desc>,
                         numalign: nat, table: T.Table)
  {
    function Size(a: int): int { if a in size then size[a] else 0 }

    /** First address past block a. */
    function End(a: int): int { a + Size(a) }

    predicate HeapAt(a: int) { a in size && a < hp }

    predicate UsedAt(a: int) { a in desc && a < hp }

    predicate FreeAt(a: int) { a in size && a !in desc }
  }

  const INITIAL := State(false, 0, 0, 0, 0, 0, [], [], [], map[], map[], 0, T.EMPTY_TABLE)

  // ---------- the invariant ----------

  /** The pointers are in order, every block is at least o long, and heap blocks lie
      in the heap region. */
  ghost predicate Bounds(o: int, s: State) {
    && 0 < o && 0 <= s.segment <= s.hp <= s.sp <= s.eos
    && (forall a :: a in s.desc ==> a in s.size)
    && (forall a :: a in s.size ==> s.size[a] >= o)
    && (forall a :: a in s.size && a < s.hp ==> 0 < s.segment <= a && a + s.size[a] <= s.hp)
  }

  /** Blocks do not overlap. */
  ghost predicate Apart(s: State) {
    forall a, b :: a in s.size && b in s.size && a < b ==> a + s.size[a] <= b
  }

  ghost predicate Blocks(o: int, s: State) {
    Bounds(o, s) && Apart(s)
  }

  /** The used list holds exactly the heap blocks in use, once each. */
  ghost predicate UsedList(s: State) {
    && NoDup(s.used)
    && forall a :: a in s.used <==> s.UsedAt(a)
  }

  /** The free list holds exactly the unused heap blocks, by increasing address. */
  ghost predicate FreeList(s: State) {
    && Sorted(s.free)
    && forall a :: a in s.free <==> s.FreeAt(a)
  }

  /** Every heap block runs up to the next one or to ma_hp, the first starts the
      segment, and the last is in use. */
  ghost predicate HeapChain(s: State) {
    && (s.segment == s.hp || s.HeapAt(s.segment))
    && (forall a {:trigger s.End(a)} :: s.HeapAt(a) && s.End(a) != s.hp ==> s.HeapAt(s.End(a)))
    && (forall a {:trigger s.End(a)} :: s.HeapAt(a) && s.End(a) == s.hp ==> s.UsedAt(a))
  }

  /** The stack list starts at ma_sp and each block ends where the next begins, the
      last at ma_eos. */
  ghost predicate StackChain(s: State) {
    && s.sp == Start(s.stack, 0, s.eos)
    && (forall i :: 0 <= i < |s.stack| ==> s.stack[i] in s.desc && s.stack[i] >= s.sp)
    && (forall i {:trigger s.End(s.stack[i])} :: 0 <= i < |s.stack| ==>
          s.End(s.stack[i]) == Start(s.stack, i + 1, s.eos))
    && (forall a :: a in s.size && a >= s.hp ==> a in s.stack)
    && Sorted(s.stack)
  }

  function Start(s: seq<int>, i: nat, end: int): int {
    if i < |s| then s[i] else end
  }

  /** No free block ends where another begins. */
  ghost predicate Coalesced(s: State) {
    forall a {:trigger s.End(a)} :: s.FreeAt(a) ==> !s.FreeAt(s.End(a))
  }

  /** Everything but coalescing. */
  ghost predicate Chained(o: int, s: State) {
    Blocks(o, s) && UsedList(s) && FreeList(s) && HeapChain(s) && StackChain(s)
  }

  ghost predicate Tiled(o: int, s: State) {
    Chained(o, s) && Coalesced(s)
  }

  /** The AD, guards and client space of a block in use. */
  ghost predicate LaidOut(cfg: Config, s: State)
    requires cfg.Valid()
  {
    forall a :: a in s.desc ==>
      Contains(cfg, a, s.Size(a), s.desc[a].client, s.desc[a].dtype, s.desc[a].nelem)
  }

  /** Live handles and blocks in use: every handle has its own block. */
  ghost predicate HandlesSound(s: State) {
    && T.Ok(s.table) && T.Injective(s.table)
    && forall h :: T.Live(s.table, h) ==> T.Lookup(s.table, h) in s.desc
  }

  /** ... and every block its handle. */
  ghost predicate HandlesComplete(s: State) {
    forall a :: a in s.desc ==> HasHandle(s.table, a)
  }

  ghost predicate HasHandle(t: T.Table, a: int) {
    exists h :: T.Live(t, h) && T.Lookup(t, h) == a
  }

  // ---------- block_free_heap ----------

  /** Sizes and free list with the blocks above m forgotten, m being the rightmost in use. */
  function Truncate(s: State, m: int): State {
    s.(hp := s.End(m), free := UpTo(s.free, m),
       size := map a | a in s.size && (a <= m || a in s.desc) :: s.size[a])
  }

  /** Merges free[i] with the following block. */
  function Merge(s: State, i: nat): State
    requires i + 1 < |s.free|
  {
    var a, b := s.free[i], s.free[i + 1];
    s.(free := s.free[..i + 1] + s.free[i + 2..], size := (s.size - {b})[a := s.Size(a) + s.Size(b)])
  }

  /** list_coalesce from free[i] on. */
  function Coalesce(s: State, i: nat): State
    decreases |s.free| - i
  {
    if i + 1 >= |s.free| then s
    else if s.End(s.free[i]) == s.free[i + 1] then Coalesce(Merge(s, i), i)
    else Coalesce(s, i + 1)
  }

  /** Reclaims block a, which is on neither list. */
  function Reclaim(s: State, a: int): State {
    var m := MaxFrom(s.used, 0);
    if m != 0 then
      var t := Truncate(s, m);
      if a < m then Coalesce(t.(free := Insert(t.free, a)), 0) else t
    else
      s.(hp := s.segment, free := [], size := map x | x in s.size && x in s.desc :: s.size[x])
  }

  // ---------- MA_init, MA_set_numalign ----------

  const DEFAULT_TOTAL_HEAP := 524288
  const DEFAULT_TOTAL_STACK := 524288

  function RegionBytes(cfg: Config, t: int, nominal: int, default: int): int
    requires cfg.Valid() && ValidIndex(t)
  {
    cfg.Round(if nominal < 0 then default else nominal * cfg.size[t] + cfg.MaxOverhead(t))
  }

  /** `segment` is what bytealloc returned, 0 for NULL. */
  function Init(cfg: Config, s: State, d: int, nominalStack: int, nominalHeap: int, segment: nat): (State, bool)
    requires cfg.Valid()
  {
    if s.ready || !ValidType(d) || segment == 0 then (s, false)
    else
      var t := d - MT_BASE;
      var heap := RegionBytes(cfg, t, nominalHeap, DEFAULT_TOTAL_HEAP);
      var total := heap + RegionBytes(cfg, t, nominalStack, DEFAULT_TOTAL_STACK);
      (State(true, segment, segment + heap, segment + total, segment, segment + total,
             [], [], [], map[], map[], s.numalign, s.table), true)
  }

  function SetNumalign(s: State, value: int): (State, bool) {
    if value < 0 || value > 30 then (s, false) else (s.(numalign := value), true)
  }

  // ---------- MA_allocate_heap ----------

  /** Index of the first free block from i on that n elements of t fit, or |free|. */
  function FindFit(cfg: Config, s: State, t: int, n: int, i: nat): (k: nat)
    requires cfg.Valid() && ValidIndex(t) && i <= |s.free|
    ensures i <= k <= |s.free|
    decreases |s.free| - i
  {
    if i == |s.free| then i
    else if BallocAfter(cfg, s.numalign, t, n, s.free[i]).nbytes <= s.Size(s.free[i]) then i
    else FindFit(cfg, s, t, n, i + 1)
  }

  /** Takes `need` bytes from free[i]; what is left stays free if it is at least m long. */
  function Carve(m: int, s: State, i: nat, need: int): State
    requires i < |s.free|
  {
    var a := s.free[i];
    var extra := s.Size(a) - need;
    if extra >= m
    then s.(free := s.free[i := a + need], size := s.size[a := need][a + need := extra])
    else s.(free := s.free[..i] + s.free[i + 1..])
  }

  /** Puts block a, whose space has been found, in use. */
  function Enter(s: State, a: int, d: Desc): State {
    s.(used := [a] + s.used, desc := s.desc[a := d])
  }

  /** Adds a block of nbytes at ma_hp. */
  function Extend(s: State, nbytes: int): State {
    s.(hp := s.hp + nbytes, size := s.size[s.hp := nbytes])
  }

  /** The space for a new heap block: its address, client space, and the state with the
      block taken off the free list or added at ma_hp. */
  datatype Space = NoSpace | Space(state: State, address: int, client: int)

  function FindSpace(cfg: Config, s: State, t: int, n: int): Space
    requires cfg.Valid() && ValidIndex(t)
  {
    var i := FindFit(cfg, s, t, n, 0);
    if i < |s.free| then
      var r := BallocAfter(cfg, s.numalign, t, n, s.free[i]);
      Space(Carve(cfg.MinBlock(), s, i, r.nbytes), s.free[i], r.client)
    else
      var r := BallocAfter(cfg, s.numalign, t, n, s.hp);
      if s.hp + r.nbytes > s.sp then NoSpace
      else Space(Extend(s, r.nbytes), s.hp, r.client)
  }

  /** `growOk` is whether the handle table could be enlarged if it had to be. */
  function AllocateHeap(cfg: Config, s: State, d: int, n: int, growOk: bool): (State, int)
    requires cfg.Valid() && T.Ok(s.table)
  {
    if !s.ready || !ValidType(d) || n < 0 then (s, T.HANDLE_NONE)
    else
      var t := d - MT_BASE;
      match FindSpace(cfg, s, t, n)
      case NoSpace => (s, T.HANDLE_NONE)
      case Space(s', a, client) =>
        var (table, h) := T.Allocate(s.table, a, growOk);
        (Enter(s', a, Desc(client, t, n)).(table := table), h)
  }

  // ---------- MA_free_heap, MA_free_heap_piece ----------

  predicate HeapHandle(s: State, h: int) {
    T.Live(s.table, h) && T.Lookup(s.table, h) in s.used
  }

  /** Takes block a off the used list. */
  function Unlist(s: State, a: int): State {
    s.(used := Remove(s.used, a), desc := s.desc - {a})
  }

  function FreeHeap(s: State, h: int): (State, bool) {
    if !HeapHandle(s, h) then (s, false)
    else
      var a := T.Lookup(s.table, h);
      var s' := Reclaim(Unlist(s, a), a);
      (s'.(table := T.Deallocate(s'.table, h)), true)
  }

  /** Length that `keep` elements of block a need when recomputed now. */
  function NeedOf(cfg: Config, s: State, a: int, keep: int): int
    requires cfg.Valid() && a in s.desc
  {
    BallocAfter(cfg, s.numalign, s.desc[a].dtype, keep, a).nbytes
  }

  /** Whether cutting block a down to `need` bytes leaves a block of at least m. */
  predicate Splits(m: int, s: State, a: int, need: int) {
    need < s.Size(a) && s.Size(a) - need >= m
  }

  function SplitUsed(s: State, a: int, need: int): State {
    s.(size := s.size[a := need][a + need := s.Size(a) - need])
  }

  /** Cuts used block a down to `need` bytes if that leaves a block of at least m. */
  function Shrink(m: int, s: State, a: int, need: int): State {
    if Splits(m, s, a, need) then Reclaim(SplitUsed(s, a, need), a + need) else s
  }

  /** MA_free_heap_piece, as long as the guards it writes at the end overwrite no descriptor. */
  function FreePiece(cfg: Config, s: State, h: int, n: int): (State, bool)
    requires cfg.Valid() && UsedList(s)
  {
    if !HeapHandle(s, h) || n < 0 then (s, false)
    else
      var a := T.Lookup(s.table, h);
      if n >= s.desc[a].nelem then FreeHeap(s, h)
      else
        var keep := s.desc[a].nelem - n;
        var s' := Shrink(cfg.MinBlock(), s, a, NeedOf(cfg, s, a, keep));
        (s'.(desc := s.desc[a := s.desc[a].(nelem := keep)]), true)
  }

  // ---------- MA_push_stack, MA_pop_stack, MA_chop_stack ----------

  function PushStack(cfg: Config, s: State, d: int, n: int, growOk: bool): (State, int)
    requires cfg.Valid() && T.Ok(s.table)
  {
    if !s.ready || !ValidType(d) || n < 0 then (s, T.HANDLE_NONE)
    else
      var t := d - MT_BASE;
      var r := BallocBefore(cfg, s.numalign, t, n, s.sp);
      if s.sp - s.hp < r.nbytes then (s, T.HANDLE_NONE)
      else
        var (table, h) := T.Allocate(s.table, s.sp - r.nbytes, growOk);
        (Pushed(s, r.nbytes, Desc(r.client, t, n)).(table := table), h)
  }

  /** The state with a block of nbytes below ma_sp. */
  function Pushed(s: State, nbytes: int, d: Desc): State {
    var a := s.sp - nbytes;
    s.(sp := a, stack := [a] + s.stack, size := s.size[a := nbytes], desc := s.desc[a := d])
  }

  predicate StackHandle(s: State, h: int) {
    T.Live(s.table, h) && T.Lookup(s.table, h) in s.stack
  }

  function PopStack(s: State, h: int): (State, bool) {
    if !StackHandle(s, h) || T.Lookup(s.table, h) != s.sp then (s, false)
    else
      var a := s.sp;
      (s.(sp := s.sp + s.Size(a), stack := Remove(s.stack, a), size := s.size - {a},
          desc := s.desc - {a}, table := T.Deallocate(s.table, h)), true)
  }

  /** mh_free */
  function FreeHandle(t: T.Table, a: int): T.Table {
    T.Deallocate(t, T.LookupAssoc(t, a))
  }

  /** mh_free on the members of s up to m, in list order. */
  function FreeHandles(t: T.Table, s: seq<int>, m: int): T.Table
    decreases s
  {
    if s == [] then t
    else if s[0] <= m then FreeHandles(FreeHandle(t, s[0]), s[1..], m)
    else FreeHandles(t, s[1..], m)
  }

  function ChopStack(s: State, h: int): (State, bool) {
    if !StackHandle(s, h) then (s, false) else (ChopTo(s, T.Lookup(s.table, h)), true)
  }

  /** The state without block a of the stack and those above it. */
  function ChopTo(s: State, a: int): State {
    var keep := Above(s.stack, a);
    s.(sp := s.End(a), stack := keep,
       size := map x | x in s.size && (x in keep || x < s.hp) :: s.size[x],
       desc := map x | x in s.desc && (x in keep || x < s.hp) :: s.desc[x],
       table := FreeHandles(s.table, s.stack, a))
  }
}
