/** armci/f90/arraywrap.c and armci/f90/armcif90.c as they work: the loops that lay an array
    out and turn a pair of slices into the arguments of one strided transfer. */
module FarrayCopy {
  import opened Strided

  const MAXDIM := 7

  datatype Option<T> = None | Some(value: T)

  /** armci_arr_dsc_t; the first `rank` entries of each array count. */
  class ArrayDescriptor {
    var rank: int
    var elemsize: nat
    const extent: array<int>
    const lo: array<int>
    const hi: array<int>
    const stride: array<int>

    ghost predicate Valid()
      reads this
    {
      1 <= rank <= MAXDIM && extent.Length == lo.Length == hi.Length == stride.Length == MAXDIM
    }

    /** The array whose first element is at `base`. */
    ghost function View(base: int): Arr
      requires Valid()
      reads this, lo, extent, stride
    {
      Arr(base, elemsize, lo[..rank], extent[..rank], stride[..rank])
    }

    /** _array_create. Without lower bounds, ub is the shape and subscripts start at 0. A rank
        out of range leaves no array: the result is not ok. */
    constructor Create(elemsize: nat, rank: int, lb: Option<seq<int>>, ub: seq<int>)
      requires |ub| == rank && (lb.Some? ==> |lb.value| == rank)
      ensures Valid() <==> 1 <= rank <= MAXDIM
      ensures Valid() ==> forall base: int ::
        && View(base).Laid() && View(base).elemsize == elemsize && View(base).Rank() == rank
        && View(base).lo == (if lb.Some? then lb.value else seq(rank, i => 0))
        && forall i :: 0 <= i < rank ==> View(base).extent[i] == if lb.Some? then 1 + ub[i] - lb.value[i] else ub[i]
      ensures Valid() ==> forall i :: 0 <= i < rank ==> hi[i] == lo[i] + extent[i] - 1
    {
      this.rank, this.elemsize := rank, elemsize;
      extent := new int[MAXDIM];
      lo := new int[MAXDIM];
      hi := new int[MAXDIM];
      stride := new int[MAXDIM];
      new;
      if 1 <= rank <= MAXDIM {
        var i := 0;
        while i < rank
          invariant 0 <= i <= rank && this.rank == rank && this.elemsize == elemsize
          invariant forall k :: 0 <= k < i ==> lo[k] == (if lb.Some? then lb.value[k] else 0)
          invariant forall k :: 0 <= k < i ==> extent[k] == if lb.Some? then 1 + ub[k] - lb.value[k] else ub[k]
          invariant forall k :: 0 <= k < i ==> hi[k] == lo[k] + extent[k] - 1
        {
          lo[i] := if lb.Some? then lb.value[i] else 0;
          hi[i] := if lb.Some? then ub[i] else ub[i] - 1;
          extent[i] := if lb.Some? then 1 + ub[i] - lb.value[i] else ub[i];
          i := i + 1;
        }
        SetStrides();
        assert lo[..rank] == if lb.Some? then lb.value else seq(rank, i => 0);
      }
    }

    /** Its second loop: each stride is the one before times the extent before. */
    method SetStrides()
      requires Valid() && extent != stride
      modifies stride
      ensures stride[0] == elemsize && forall k :: 1 <= k < rank ==> stride[k] == stride[k - 1] * extent[k - 1]
    {
      stride[0] := elemsize;
      var i := 1;
      while i < rank
        invariant 1 <= i <= rank && stride[0] == elemsize
        invariant forall k :: 1 <= k < i ==> stride[k] == stride[k - 1] * extent[k - 1]
      {
        stride[i] := stride[i - 1] * extent[i - 1];
        i := i + 1;
      }
    }
  }

  method IndexOf(rank: int, sub: seq<int>, lo: seq<int>, extent: seq<int>) returns (idx: int)
    requires |sub| == |lo| == |extent| == rank
    ensures idx == Index(sub, lo, extent, rank)
  {
    var i, factor := 0, 1;
    idx := 0;
    while i < rank
      invariant 0 <= i <= rank && idx == Index(sub, lo, extent, i) && factor == Product(extent, i)
    {
      idx := idx + (sub[i] - lo[i]) * factor;
      factor := factor * extent[i];
      i := i + 1;
    }
  }

  /** Elements of a slice per dimension, and whether all steps, or the first one, are 1. */
  method CountSlice(s: Slice, rank: nat) returns (count: array<int>, unit: bool, first: bool)
    requires s.Of(rank) && rank <= MAXDIM
    ensures fresh(count) && count.Length == MAXDIM + 1 && count[..rank] == Counts(s)
    ensures unit == UnitSteps(s) && first == UnitFirst(s)
  {
    count := new int[MAXDIM + 1];
    unit, first := true, true;
    var i := 0;
    while i < rank
      invariant 0 <= i <= rank
      invariant unit == forall k :: 0 <= k < i ==> s.step[k] <= 1
      invariant first == (i > 0 ==> s.step[0] <= 1)
      invariant forall k :: 0 <= k < i ==> count[k] == Count(s.lo[k], s.hi[k], s.step[k])
    {
      if s.step[i] > 1 {
        if i == 0 { first := false; }
        unit := false;
        count[i] := (s.hi[i] - s.lo[i] + s.step[i]) / s.step[i];
      } else {
        count[i] := s.hi[i] - s.lo[i] + 1;
      }
      i := i + 1;
    }
  }

  /** The test that says whether slice s of a, one side of a copy from ss to ds, is transferred right. */
  predicate Reached(a: Arr, s: Slice, ss: Slice, ds: Slice)
    requires a.Shaped() && s.Of(a.Rank())
  {
    a.elemsize == 0 || (StartsRight(a, s) && FirstJoins(a, s, UnitFirst(ss) && UnitFirst(ds)))
  }

  /** Arrays made by _array_create always are. */
  lemma LaidReached(a: Arr, s: Slice, ss: Slice, ds: Slice)
    requires a.Laid() && s.Of(a.Rank())
    ensures Reached(a, s, ss, ds)
  {
    LaidStarts(a, s, UnitFirst(ss) && UnitFirst(ds));
  }

  /** The arguments of one ARMCI_PutS or ARMCI_GetS. */
  datatype Transfer = Transfer(src: int, srcStride: seq<int>, dst: int, dstStride: seq<int>, count: seq<int>)

  /** ARMCI_Put_farrays and ARMCI_Get_farrays, which differ in whose descriptor gives the
      element size and in the call at the end. rc is -1, and nothing is transferred, just when
      the slices differ in shape. Otherwise each side is what the slice says just when its start
      and a merged first dimension come out right, as they do for arrays without gaps. */
  method CopyFarrays(src: Arr, ss: Slice, dst: Arr, ds: Slice) returns (rc: int, t: Transfer)
    requires src.Shaped() && dst.Shaped() && src.Rank() == dst.Rank() <= MAXDIM && src.elemsize == dst.elemsize
    requires ss.Of(src.Rank()) && ds.Of(dst.Rank())
    ensures rc == if Counts(ss) == Counts(ds) then 0 else -1
    ensures rc == 0 ==> |t.count| == |t.srcStride| + 1 == |t.dstStride| + 1
    ensures rc == 0 ==> (Touched(t.src, t.srcStride, t.count) == Nest(src, ss, src.Rank(), []) <==> Reached(src, ss, ss, ds))
    ensures rc == 0 ==> (Touched(t.dst, t.dstStride, t.count) == Nest(dst, ds, dst.Rank(), []) <==> Reached(dst, ds, ss, ds))
  {
    var rank, elemsize := |src.lo|, src.elemsize;
    t := Transfer(0, [], 0, [], [0]);
    var ps := StartOf(src, ss);
    var pd := StartOf(dst, ds);
    hide Nest, Touched, Count, UnitSteps, At;
    var scount, sunit, sfirst := CountSlice(ss, rank);
    var dcount, dunit, dfirst := CountSlice(ds, rank);
    var i := 0;
    while i < rank
      invariant 0 <= i <= rank && forall k :: 0 <= k < i ==> scount[..rank][k] == dcount[..rank][k]
    {
      if dcount[i] != scount[i] {
        assert scount[..rank][i] != dcount[..rank][i];
        return -1, t;
      }
      i := i + 1;
    }
    assert scount[..rank] == dcount[..rank];
    var contiguous := sfirst && dfirst;
    var mv, sstride, dstride := Describe(src, ss, dst, ds, scount, sunit && dunit, contiguous);
    DescriptorIsNest(src, ss, contiguous, ps);
    DescriptorIsNest(dst, ds, contiguous, pd);
    StartIff(src, ss);
    StartIff(dst, ds);
    rc := 0;
    t := Transfer(ps, sstride[..mv], pd, dstride[..mv], scount[..mv + 1]);
  }

  /** Address of the first element of a slice. */
  method StartOf(a: Arr, s: Slice) returns (p: int)
    requires a.Shaped() && s.Of(a.Rank())
    ensures p == StartAt(a, s)
  {
    var idx := IndexOf(|a.lo|, s.lo, a.lo, a.extent);
    return idx * a.elemsize + a.base;
  }

  /** The three shapes of descriptor; `count` holds the counts of both slices. */
  method Describe(src: Arr, ss: Slice, dst: Arr, ds: Slice, count: array<int>, unit: bool, contiguous: bool)
    returns (mv: nat, sstride: array<int>, dstride: array<int>)
    requires src.Shaped() && dst.Shaped() && src.Rank() == dst.Rank() <= MAXDIM
    requires ss.Of(src.Rank()) && ds.Of(dst.Rank())
    requires count.Length == MAXDIM + 1 && count[..src.Rank()] == Counts(ss)
    requires unit == (UnitSteps(ss) && UnitSteps(ds)) && contiguous == (UnitFirst(ss) && UnitFirst(ds))
    modifies count
    ensures mv <= MAXDIM == sstride.Length == dstride.Length && fresh(sstride) && fresh(dstride)
    ensures sstride[..mv] == StrideOf(src, ss, contiguous) && dstride[..mv] == StrideOf(dst, ds, contiguous)
    ensures count[..mv + 1] == CountOf(src.elemsize, ss, contiguous)
  {
    var rank := |src.lo|;
    ghost var c := Counts(ss);
    UnitMeans(ss, rank);
    UnitMeans(ds, rank);
    hide UnitSteps, Count;
    if unit {
      mv := rank - 1;
      sstride := Tail(src, ss, mv, false);
      dstride := Tail(dst, ds, mv, false);
      count[0] := count[0] * src.elemsize;
    } else if contiguous {
      mv := rank - 1;
      count[0] := count[0] * src.elemsize;
      sstride := Tail(src, ss, mv, true);
      dstride := Tail(dst, ds, mv, true);
    } else {
      mv := rank;
      Shift(count, rank);
      count[0] := src.elemsize;
      sstride := All(src, ss);
      dstride := All(dst, ds);
    }
    if contiguous {
      assert count[..rank] == [c[0] * src.elemsize] + c[1..];
    } else {
      assert count[..rank + 1] == [src.elemsize] + count[1..rank + 1];
    }
  }

  lemma UnitMeans(s: Slice, rank: nat)
    requires s.Of(rank)
    ensures UnitSteps(s) ==> UnitFirst(s) && forall i :: 0 <= i < rank ==> s.step[i] == 1
  {}

  /** Strides of all dimensions but the first, with or without the steps of the slice. */
  method Tail(a: Arr, s: Slice, mv: nat, stepped: bool) returns (stride: array<int>)
    requires a.Shaped() && s.Of(a.Rank()) && mv + 1 == a.Rank() <= MAXDIM
    requires stepped || forall i :: 0 <= i < a.Rank() ==> s.step[i] == 1
    ensures fresh(stride) && stride.Length == MAXDIM && stride[..mv] == Steps(a, s)[1..]
  {
    stride := new int[MAXDIM];
    var i := 0;
    while i < mv
      invariant 0 <= i <= mv && forall k :: 0 <= k < i ==> stride[k] == Steps(a, s)[k + 1]
    {
      stride[i] := if stepped then a.stride[i + 1] * s.step[i + 1] else a.stride[i + 1];
      i := i + 1;
    }
  }

  method All(a: Arr, s: Slice) returns (stride: array<int>)
    requires a.Shaped() && s.Of(a.Rank()) && a.Rank() <= MAXDIM
    ensures fresh(stride) && stride.Length == MAXDIM && stride[..a.Rank()] == Steps(a, s)
  {
    stride := new int[MAXDIM];
    var i := 0;
    while i < |a.lo|
      invariant 0 <= i <= a.Rank() && forall k :: 0 <= k < i ==> stride[k] == Steps(a, s)[k]
    {
      stride[i] := a.stride[i] * s.step[i];
      i := i + 1;
    }
  }

  /** Moves the first n entries one place up. */
  method Shift(count: array<int>, n: nat)
    requires n < count.Length
    modifies count
    ensures count[1..n + 1] == old(count[..n])
  {
    var i := n;
    while i > 0
      invariant 0 <= i <= n && count[..i] == old(count[..i]) && count[i + 1..n + 1] == old(count[i..n])
    {
      count[i] := count[i - 1];
      i := i - 1;
    }
  }
}
