/** The heap inquiries of MA, and how far they predict what MA_allocate_heap will do. */
module MaInquire {
  import opened Arith
  import opened MaLayout
  import opened Lists
  import opened MaState
  import opened MaTiling
  import opened MaRuns
  import T = MaTable

  // ---------- ma_nelem ----------

  /** A block of n elements of t at `address` is at most `length` long. */
  predicate Fits(cfg: Config, numalign: nat, t: TypeIndex, n: int, address: int, length: int)
    requires cfg.Valid()
  {
    BallocAfter(cfg, numalign, t, n, address).nbytes <= length
  }

  /** n elements fit, or none do and n is 0; and no larger number fits. */
  ghost predicate IsLargest(cfg: Config, numalign: nat, t: TypeIndex, n: int, address: int, length: int)
    requires cfg.Valid()
  {
    && 0 <= n && (n > 0 ==> Fits(cfg, numalign, t, n, address, length))
    && forall m :: m > n ==> !Fits(cfg, numalign, t, m, address, length)
  }

  lemma LargestIsUnique(cfg: Config, numalign: nat, t: TypeIndex, n: int, m: int, address: int, length: int)
    requires cfg.Valid() && IsLargest(cfg, numalign, t, n, address, length)
    requires IsLargest(cfg, numalign, t, m, address, length)
    ensures n == m
  {}

  /** More than (length - overhead) / size elements never fit. */
  lemma NelemUpperBound(cfg: Config, numalign: nat, t: TypeIndex, address: int, length: int, m: int)
    requires cfg.Valid()
    requires m > (if length <= cfg.Overhead() then 0 else (length - cfg.Overhead()) / cfg.size[t])
    ensures !Fits(cfg, numalign, t, m, address, length)
  {
    var size := cfg.size[t];
    if length > cfg.Overhead() {
      var q := (length - cfg.Overhead()) / size;
      assert (q + 1) * size > length - cfg.Overhead();
      MulMonotone(q + 1, m, size);
    } else {
      MulMonotone(1, m, size);
    }
    BallocAfterLayout(cfg, numalign, t, m, address);
  }

  /** ma_nelem: the largest number of elements that fit in `length` bytes at `address`. */
  method MaNelem(cfg: Config, numalign: nat, t: TypeIndex, address: int, length: int) returns (n: int)
    requires cfg.Valid()
    ensures IsLargest(cfg, numalign, t, n, address, length)
  {
    forall m | m > (if length <= cfg.Overhead() then 0 else (length - cfg.Overhead()) / cfg.size[t])
      ensures !Fits(cfg, numalign, t, m, address, length)
    {
      NelemUpperBound(cfg, numalign, t, address, length, m);
    }
    if length <= cfg.Overhead() { return 0; }
    n := (length - cfg.Overhead()) / cfg.size[t];
    while n > 0
      invariant n >= 0
      invariant forall m :: m > n ==> !Fits(cfg, numalign, t, m, address, length)
    {
      if BallocAfter(cfg, numalign, t, n, address).nbytes > length {
        n := n - 1;
      } else {
        break;
      }
    }
  }

  function DownFrom(cfg: Config, numalign: nat, t: TypeIndex, n: int, address: int, length: int): int
    requires cfg.Valid()
    decreases n
  {
    if n <= 0 then 0
    else if Fits(cfg, numalign, t, n, address, length) then n
    else DownFrom(cfg, numalign, t, n - 1, address, length)
  }

  /** The value ma_nelem computes. */
  function Nelem(cfg: Config, numalign: nat, t: TypeIndex, address: int, length: int): int
    requires cfg.Valid()
  {
    if length <= cfg.Overhead() then 0
    else DownFrom(cfg, numalign, t, (length - cfg.Overhead()) / cfg.size[t], address, length)
  }

  lemma {:induction false} DownFromLargest(cfg: Config, numalign: nat, t: TypeIndex, n: int, address: int, length: int)
    requires cfg.Valid()
    requires forall m :: m > n && m > 0 ==> !Fits(cfg, numalign, t, m, address, length)
    ensures IsLargest(cfg, numalign, t, DownFrom(cfg, numalign, t, n, address, length), address, length)
    decreases n
  {
    if n > 0 && !Fits(cfg, numalign, t, n, address, length) {
      DownFromLargest(cfg, numalign, t, n - 1, address, length);
    }
  }

  lemma NelemIsLargest(cfg: Config, numalign: nat, t: TypeIndex, address: int, length: int)
    requires cfg.Valid()
    ensures IsLargest(cfg, numalign, t, Nelem(cfg, numalign, t, address, length), address, length)
  {
    var q := if length <= cfg.Overhead() then 0 else (length - cfg.Overhead()) / cfg.size[t];
    forall m | m > q
      ensures !Fits(cfg, numalign, t, m, address, length)
    {
      NelemUpperBound(cfg, numalign, t, address, length, m);
    }
    if length > cfg.Overhead() { DownFromLargest(cfg, numalign, t, q, address, length); }
  }

  /** Exactly the requests up to ma_nelem's answer fit. */
  lemma FitsIffUpTo(cfg: Config, numalign: nat, t: TypeIndex, n: int, m: int, address: int, length: int)
    requires cfg.Valid() && IsLargest(cfg, numalign, t, n, address, length) && m > 0
    ensures Fits(cfg, numalign, t, m, address, length) <==> m <= n
  {
    if m <= n { BallocAfterMonotone(cfg, numalign, t, m, n, address); }
  }

  // ---------- ma_max_heap_frag_nelem ----------

  /** The part of free block a that lies below the partition. */
  function Visible(s: State, a: int): int {
    if a >= s.partition then 0
    else if s.End(a) >= s.partition then s.partition - a
    else s.Size(a)
  }

  function FragNelemOf(cfg: Config, s: State, t: TypeIndex, a: int): int
    requires cfg.Valid()
  {
    if a >= s.partition then 0 else Nelem(cfg, s.numalign, t, a, Visible(s, a))
  }

  /** Elements of t the fragment adds, looking only at fragments of at least minBytes. */
  function PrunedNelem(cfg: Config, s: State, t: TypeIndex, a: int, minBytes: int): int
    requires cfg.Valid()
  {
    if Visible(s, a) >= minBytes then FragNelemOf(cfg, s, t, a) else 0
  }

  function Max(a: int, b: int): int { if b > a then b else a }

  /** The largest answer over the fragments from the i-th on, and m. */
  function FragMax(cfg: Config, s: State, t: TypeIndex, i: nat, m: int, minBytes: int): int
    requires cfg.Valid() && i <= |s.free|
    decreases |s.free| - i
  {
    if i == |s.free| then m
    else FragMax(cfg, s, t, i + 1, Max(m, PrunedNelem(cfg, s, t, s.free[i], minBytes)), minBytes)
  }

  function MinBytes(cfg: Config, t: TypeIndex, minNelem: int): int
    requires cfg.Valid()
  {
    minNelem * cfg.size[t] + cfg.Overhead()
  }

  lemma {:induction false} FragMaxSpec(cfg: Config, s: State, t: TypeIndex, i: nat, m: int, minBytes: int)
    requires cfg.Valid() && i <= |s.free|
    ensures var r := FragMax(cfg, s, t, i, m, minBytes);
      && r >= m && (forall k :: i <= k < |s.free| ==> PrunedNelem(cfg, s, t, s.free[k], minBytes) <= r)
      && (r == m || exists k :: i <= k < |s.free| && r == PrunedNelem(cfg, s, t, s.free[k], minBytes))
    decreases |s.free| - i
  {
    if i < |s.free| {
      FragMaxSpec(cfg, s, t, i + 1, Max(m, PrunedNelem(cfg, s, t, s.free[i], minBytes)), minBytes);
    }
  }

  /** A fragment the threshold skips would not have beaten it. */
  lemma PrunedIsSmaller(cfg: Config, s: State, t: TypeIndex, a: int, minNelem: nat)
    requires cfg.Valid() && Visible(s, a) < MinBytes(cfg, t, minNelem)
    ensures FragNelemOf(cfg, s, t, a) <= minNelem
  {
    if a < s.partition {
      var v := Visible(s, a);
      NelemIsLargest(cfg, s.numalign, t, a, v);
      forall m | m > minNelem
        ensures !Fits(cfg, s.numalign, t, m, a, v)
      {
        MulMonotone(minNelem, m, cfg.size[t]);
        BallocAfterLayout(cfg, s.numalign, t, m, a);
      }
    }
  }

  // ---------- the inquiries ----------

  /** The common body of the heap inquiries: `limit` is where the gap above ma_hp ends. */
  function Inquire(cfg: Config, s: State, t: TypeIndex, limit: int): int
    requires cfg.Valid()
  {
    var gap := if limit - s.hp > 0 then Nelem(cfg, s.numalign, t, s.hp, limit - s.hp) else 0;
    Max(gap, FragMax(cfg, s, t, 0, 0, MinBytes(cfg, t, gap)))
  }

  /** `limit` for MA_inquire_heap, MA_inquire_heap_check_stack and MA_inquire_heap_no_partition. */
  datatype Kind = HonourPartition | CheckStack | NoPartition

  function Limit(s: State, k: Kind): int {
    match k
    case HonourPartition => s.partition
    case CheckStack => if s.sp < s.partition then s.sp else s.partition
    case NoPartition => s.sp
  }

  function InquireHeap(cfg: Config, s: State, k: Kind, d: int): int
    requires cfg.Valid()
  {
    if !s.ready || !ValidType(d) then 0 else Inquire(cfg, s, d - MT_BASE, Limit(s, k))
  }

  /** m elements fit below `limit` above ma_hp, or in the visible part of a fragment. */
  ghost predicate FitsSomewhere(cfg: Config, s: State, t: TypeIndex, m: int, limit: int)
    requires cfg.Valid()
  {
    || (limit > s.hp && Fits(cfg, s.numalign, t, m, s.hp, limit - s.hp))
    || exists k :: 0 <= k < |s.free| && FragFits(cfg, s, t, m, s.free[k])
  }

  ghost predicate FragFits(cfg: Config, s: State, t: TypeIndex, m: int, a: int)
    requires cfg.Valid()
  {
    a < s.partition && Fits(cfg, s.numalign, t, m, a, Visible(s, a))
  }

  /** Whatever the inquiry, its answer n separates the requests that fit from those that
      do not; skipping small fragments never changes it. */
  lemma InquireIsExact(cfg: Config, s: State, t: TypeIndex, limit: int, m: int)
    requires cfg.Valid() && m > 0
    ensures Inquire(cfg, s, t, limit) >= 0
    ensures m <= Inquire(cfg, s, t, limit) <==> FitsSomewhere(cfg, s, t, m, limit)
  {
    var gap := if limit - s.hp > 0 then Nelem(cfg, s.numalign, t, s.hp, limit - s.hp) else 0;
    if limit - s.hp > 0 {
      NelemIsLargest(cfg, s.numalign, t, s.hp, limit - s.hp);
      FitsIffUpTo(cfg, s.numalign, t, gap, m, s.hp, limit - s.hp);
    }
    var b := MinBytes(cfg, t, gap);
    FragMaxSpec(cfg, s, t, 0, 0, b);
    forall k | 0 <= k < |s.free|
      ensures FragFits(cfg, s, t, m, s.free[k]) <==> m <= FragNelemOf(cfg, s, t, s.free[k])
      ensures Visible(s, s.free[k]) < b ==> FragNelemOf(cfg, s, t, s.free[k]) <= gap
    {
      FragFitsIff(cfg, s, t, m, s.free[k]);
      if Visible(s, s.free[k]) < b { PrunedIsSmaller(cfg, s, t, s.free[k], gap); }
    }
  }

  lemma FragFitsIff(cfg: Config, s: State, t: TypeIndex, m: int, a: int)
    requires cfg.Valid() && m > 0
    ensures FragFits(cfg, s, t, m, a) <==> m <= FragNelemOf(cfg, s, t, a)
  {
    if a < s.partition {
      NelemIsLargest(cfg, s.numalign, t, a, Visible(s, a));
      FitsIffUpTo(cfg, s.numalign, t, Nelem(cfg, s.numalign, t, a, Visible(s, a)), m, a, Visible(s, a));
    }
  }

  /** MA_allocate_heap finds space exactly when some whole free block or the gap up to
      ma_sp is long enough. */
  lemma SpaceIff(cfg: Config, s: State, t: TypeIndex, m: nat)
    requires cfg.Valid() && Tiled(cfg.Overhead(), s)
    ensures FindSpace(cfg, s, t, m).Space? <==>
      || Fits(cfg, s.numalign, t, m, s.hp, s.sp - s.hp)
      || exists k :: 0 <= k < |s.free| && Fits(cfg, s.numalign, t, m, s.free[k], s.Size(s.free[k]))
  {
    hide Tiled;
    FindFitSpec(cfg, s, t, m, 0);
    var i := FindFit(cfg, s, t, m, 0);
    if i < |s.free| { assert Fits(cfg, s.numalign, t, m, s.free[i], s.Size(s.free[i])); }
  }

  /** An inquiry that looks no further than ma_sp promises only what can be had: every
      positive request up to its answer finds space. */
  lemma {:induction false} InquirySound(cfg: Config, s: State, t: TypeIndex, limit: int, m: nat)
    requires cfg.Valid() && Inv(cfg, s) && limit <= s.sp && 0 < m <= Inquire(cfg, s, t, limit)
    ensures FindSpace(cfg, s, t, m).Space?
  {
    hide Inv;
    InquireIsExact(cfg, s, t, limit, m);
    SpaceIffInv(cfg, s, t, m);
    if !(limit > s.hp && Fits(cfg, s.numalign, t, m, s.hp, limit - s.hp)) {
      var k :| 0 <= k < |s.free| && FragFits(cfg, s, t, m, s.free[k]);
      assert Fits(cfg, s.numalign, t, m, s.free[k], s.Size(s.free[k]));
    }
  }

  lemma SpaceIffInv(cfg: Config, s: State, t: TypeIndex, m: nat)
    requires cfg.Valid() && Inv(cfg, s)
    ensures s.hp <= s.sp
    ensures FindSpace(cfg, s, t, m).Space? <==>
      || Fits(cfg, s.numalign, t, m, s.hp, s.sp - s.hp)
      || exists k :: 0 <= k < |s.free| && Fits(cfg, s.numalign, t, m, s.free[k], s.Size(s.free[k]))
  {
    SpaceIff(cfg, s, t, m);
  }

  /** The most elements of t that free block k could hold, its part past the partition
      included. */
  function WholeNelem(cfg: Config, s: State, t: TypeIndex, k: nat): int
    requires cfg.Valid() && k < |s.free|
  {
    Nelem(cfg, s.numalign, t, s.free[k], s.Size(s.free[k]))
  }

  /** No free block that reaches past the partition holds more than can be had without
      looking past it. */
  ghost predicate NothingHidden(cfg: Config, s: State, t: TypeIndex)
    requires cfg.Valid()
  {
    forall k :: 0 <= k < |s.free| && s.End(s.free[k]) > s.partition ==>
      WholeNelem(cfg, s, t, k) == 0 || FitsSomewhere(cfg, s, t, WholeNelem(cfg, s, t, k), s.sp)
  }

  /** The no-partition inquiry tells whether a request of m finds space. */
  ghost predicate AnswersFor(cfg: Config, s: State, d: int, m: nat)
    requires cfg.Valid() && ValidType(d)
  {
    m <= InquireHeap(cfg, s, NoPartition, d) <==> FindSpace(cfg, s, d - MT_BASE, m).Space?
  }

  /** Its answer is the largest request that finds space. */
  ghost predicate AnswersLargest(cfg: Config, s: State, d: int)
    requires cfg.Valid() && ValidType(d)
  {
    forall m: nat :: m > 0 ==> AnswersFor(cfg, s, d, m)
  }

  /** The no-partition inquiry is right exactly when the partition hides nothing from it. */
  lemma NoPartitionExact(cfg: Config, s: State, d: int)
    requires cfg.Valid() && Inv(cfg, s) && s.ready && ValidType(d)
    ensures AnswersLargest(cfg, s, d) <==> NothingHidden(cfg, s, d - MT_BASE)
  {
    hide Inv, FindSpace, FitsSomewhere, InquireHeap;
    var t := d - MT_BASE;
    if NothingHidden(cfg, s, t) {
      forall m: nat | m > 0
        ensures AnswersFor(cfg, s, d, m)
      {
        AnswerSound(cfg, s, d, m);
        if FindSpace(cfg, s, t, m).Space? { AnswerComplete(cfg, s, d, m); }
      }
    }
    if AnswersLargest(cfg, s, d) {
      forall k | 0 <= k < |s.free| && s.End(s.free[k]) > s.partition
        ensures WholeNelem(cfg, s, t, k) == 0 || FitsSomewhere(cfg, s, t, WholeNelem(cfg, s, t, k), s.sp)
      {
        HiddenIsAnswered(cfg, s, d, k);
      }
    }
  }

  lemma AnswerSound(cfg: Config, s: State, d: int, m: nat)
    requires cfg.Valid() && Inv(cfg, s) && s.ready && ValidType(d) && 0 < m
    ensures m <= InquireHeap(cfg, s, NoPartition, d) ==> FindSpace(cfg, s, d - MT_BASE, m).Space?
    ensures m <= InquireHeap(cfg, s, NoPartition, d) <==> FitsSomewhere(cfg, s, d - MT_BASE, m, s.sp)
  {
    hide Inv, FindSpace, FitsSomewhere, Inquire;
    InquireIsExact(cfg, s, d - MT_BASE, s.sp, m);
    if m <= InquireHeap(cfg, s, NoPartition, d) { InquirySound(cfg, s, d - MT_BASE, s.sp, m); }
  }

  /** A request that finds space fits a block the inquiry sees whole, or one whose largest
      request is answered for. */
  lemma AnswerComplete(cfg: Config, s: State, d: int, m: nat)
    requires cfg.Valid() && Inv(cfg, s) && s.ready && ValidType(d) && 0 < m && NothingHidden(cfg, s, d - MT_BASE)
    requires FindSpace(cfg, s, d - MT_BASE, m).Space?
    ensures m <= InquireHeap(cfg, s, NoPartition, d)
  {
    hide Inv, FindSpace, InquireHeap, Fits;
    var t := d - MT_BASE;
    SpaceIffInv(cfg, s, t, m);
    AnswerSound(cfg, s, d, m);
    if Fits(cfg, s.numalign, t, m, s.hp, s.sp - s.hp) {
      GapFits(cfg, s, t, m);
    } else {
      var k :| 0 <= k < |s.free| && Fits(cfg, s.numalign, t, m, s.free[k], s.Size(s.free[k]));
      FreeIsSized(cfg, s, k);
      if s.End(s.free[k]) <= s.partition {
        assert FragFits(cfg, s, t, m, s.free[k]);
      } else {
        var n := WholeNelem(cfg, s, t, k);
        NelemIsLargest(cfg, s.numalign, t, s.free[k], s.Size(s.free[k]));
        AnswerSound(cfg, s, d, n);
      }
    }
  }

  lemma GapFits(cfg: Config, s: State, t: TypeIndex, m: nat)
    requires cfg.Valid() && Fits(cfg, s.numalign, t, m, s.hp, s.sp - s.hp)
    ensures FitsSomewhere(cfg, s, t, m, s.sp)
  {
    BallocAfterLayout(cfg, s.numalign, t, m, s.hp);
    LengthNonneg(m, cfg.size[t]);
  }

  /** What free block k holds can be allocated, so a right answer covers it. */
  lemma HiddenIsAnswered(cfg: Config, s: State, d: int, k: nat)
    requires cfg.Valid() && Inv(cfg, s) && s.ready && ValidType(d) && k < |s.free| && AnswersLargest(cfg, s, d)
    ensures WholeNelem(cfg, s, d - MT_BASE, k) == 0
      || FitsSomewhere(cfg, s, d - MT_BASE, WholeNelem(cfg, s, d - MT_BASE, k), s.sp)
  {
    hide Inv, FindSpace, FitsSomewhere, InquireHeap, Fits;
    var t := d - MT_BASE;
    var n := WholeNelem(cfg, s, t, k);
    NelemIsLargest(cfg, s.numalign, t, s.free[k], s.Size(s.free[k]));
    if n > 0 {
      SpaceIffInv(cfg, s, t, n);
      AnswerSound(cfg, s, d, n);
      assert AnswersFor(cfg, s, d, n);
    }
  }

  /** While every free block ends at or below the partition nothing is hidden, so a positive
      request finds space if and only if it is at most the answer. */
  lemma NoPartitionExactBelow(cfg: Config, s: State, d: int, m: nat)
    requires cfg.Valid() && Inv(cfg, s) && s.ready && ValidType(d) && m > 0
    requires forall k :: 0 <= k < |s.free| ==> s.End(s.free[k]) <= s.partition
    ensures m <= InquireHeap(cfg, s, NoPartition, d) <==> FindSpace(cfg, s, d - MT_BASE, m).Space?
  {
    hide Inv, FindSpace, FitsSomewhere, InquireHeap;
    NoPartitionExact(cfg, s, d);
    assert NothingHidden(cfg, s, d - MT_BASE);
    assert AnswersFor(cfg, s, d, m);
  }

  lemma FreeIsSized(cfg: Config, s: State, k: nat)
    requires cfg.Valid() && Inv(cfg, s) && k < |s.free|
    ensures s.free[k] in s.size && s.Size(s.free[k]) >= cfg.Overhead() > 0
  {
    assert s.free[k] in s.free;
  }

  // ---------- MA_init ----------

  /** Right after MA_init(d, S, H) with nonnegative S and H and no power-of-two request, one
      heap request of H and one stack request of S both succeed, in either order, and stay
      on their own side of the partition. */
  lemma InitSatisfiesNominal(cfg: Config, s: State, d: int, stack: nat, heap: nat, segment: nat, g1: bool, g2: bool)
    requires cfg.Valid() && Inv(cfg, s) && !s.ready && s.numalign == 0 && ValidType(d) && segment > 0
    ensures var s0 := Init(cfg, s, d, stack, heap, segment).0;
      && Inv(cfg, s0)
      && FindSpace(cfg, s0, d - MT_BASE, heap).Space?
      && (InitKeeps(cfg, s, d, stack, heap, segment);
          AllocateKeeps(cfg, s0, d, heap, g1);
          PushKeeps(cfg, s0, d, stack, g2);
          var h1 := AllocateHeap(cfg, s0, d, heap, g1).0;
          var p1 := PushStack(cfg, s0, d, stack, g2).0;
          && h1.hp <= s0.partition <= p1.sp
          && h1.used == [segment] && |p1.stack| == 1
          && PushStack(cfg, h1, d, stack, g2).0.sp == p1.sp
          && AllocateHeap(cfg, p1, d, heap, g1).0.hp == h1.hp)
  {
    hide Inv, HandlesComplete, T.Allocate, T.Ok;
    var t := d - MT_BASE;
    InitKeeps(cfg, s, d, stack, heap, segment);
    var s0 := Init(cfg, s, d, stack, heap, segment).0;
    RegionNonneg(cfg, t, heap, DEFAULT_TOTAL_HEAP);
    RegionNonneg(cfg, t, stack, DEFAULT_TOTAL_STACK);
    BallocAfterLayout(cfg, 0, t, heap, segment);
    BallocBeforeLayout(cfg, 0, t, stack, s0.sp);
    AllocateKeeps(cfg, s0, d, heap, g1);
    PushKeeps(cfg, s0, d, stack, g2);
  }
}
