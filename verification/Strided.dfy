/** Array slices and the strided transfers that stand for them (armci/f90/armcif90.c,
    armci/f90/arraywrap.c), as the byte addresses they touch, in order. */
module Strided {
  import opened Arith

  /** armci_arr_dsc_t: where the first element is, and per dimension the lower bound, the
      extent and the distance in bytes between neighbours. */
  datatype Arr = Arr(base: int, elemsize: nat, lo: seq<int>, extent: seq<int>, stride: seq<int>)
  {
    function Rank(): nat { |lo| }

    ghost predicate Shaped() { |lo| == |extent| == |stride| >= 1 }

    /** Column-major without gaps, as _array_create lays arrays out. */
    ghost predicate Laid() {
      && Shaped() && stride[0] == elemsize
      && forall i :: 1 <= i < |stride| ==> stride[i] == stride[i - 1] * extent[i - 1]
    }
  }

  /** array_slice_t, with the bounds and steps the source assumes: nonempty, ascending. */
  datatype Slice = Slice(lo: seq<int>, hi: seq<int>, step: seq<int>)
  {
    ghost predicate Of(rank: nat) {
      && |lo| == |hi| == |step| == rank
      && forall i :: 0 <= i < rank ==> lo[i] <= hi[i] && step[i] >= 1
    }
  }

  // ---------- positions ----------

  function Product(extent: seq<int>, n: nat): int
    requires n <= |extent|
  {
    if n == 0 then 1 else Product(extent, n - 1) * extent[n - 1]
  }

  /** Index: how many elements come before a subscript, by the first n dimensions. */
  function Index(sub: seq<int>, lo: seq<int>, extent: seq<int>, n: nat): int
    requires |sub| == |lo| == |extent| && n <= |sub|
  {
    if n == 0 then 0 else Index(sub, lo, extent, n - 1) + (sub[n - 1] - lo[n - 1]) * Product(extent, n - 1)
  }

  /** Distance in bytes from the first element, by strides. */
  function Dot(sub: seq<int>, a: Arr, n: nat): int
    requires a.Shaped() && |sub| == a.Rank() && n <= |sub|
  {
    if n == 0 then 0 else Dot(sub, a, n - 1) + (sub[n - 1] - a.lo[n - 1]) * a.stride[n - 1]
  }

  lemma {:induction false} StrideIsProduct(a: Arr, i: nat)
    requires a.Laid() && i < a.Rank()
    ensures a.stride[i] == a.elemsize * Product(a.extent, i)
  {
    if i > 0 {
      StrideIsProduct(a, i - 1);
      assert a.stride[i] == a.stride[i - 1] * a.extent[i - 1];
      assert Product(a.extent, i) == Product(a.extent, i - 1) * a.extent[i - 1];
      hide *;
      Associate(a.elemsize, Product(a.extent, i - 1), a.extent[i - 1]);
    }
  }

  lemma Associate(x: int, y: int, z: int)
    ensures (x * y) * z == x * (y * z)
  {}

  /** The element count of Index, in bytes, is the product of subscripts and strides. */
  lemma {:induction false} IndexIsDot(a: Arr, sub: seq<int>, n: nat)
    requires a.Laid() && |sub| == a.Rank() && n <= |sub|
    ensures Index(sub, a.lo, a.extent, n) * a.elemsize == Dot(sub, a, n)
  {
    if n > 0 {
      IndexIsDot(a, sub, n - 1);
      StrideIsProduct(a, n - 1);
      var i, d, p := Index(sub, a.lo, a.extent, n - 1), sub[n - 1] - a.lo[n - 1], Product(a.extent, n - 1);
      assert Index(sub, a.lo, a.extent, n) == i + d * p && Dot(sub, a, n) == Dot(sub, a, n - 1) + d * a.stride[n - 1];
      hide *;
      Distribute(i, d, p, a.elemsize);
    }
  }

  lemma Distribute(i: int, d: int, p: int, e: int)
    ensures (i + d * p) * e == i * e + d * (e * p)
  {}

  // ---------- a strided transfer ----------

  /** n bytes from address p. */
  function Run(p: int, n: int): seq<int> {
    seq(if n < 0 then 0 else n, i => p + i)
  }

  /** The bytes of ARMCI_PutS / ARMCI_GetS on one side: count[0] contiguous bytes, repeated
      count[i] times at distance stride[i - 1], the last level outermost. */
  function Touched(p: int, stride: seq<int>, count: seq<int>): seq<int>
    requires |count| == |stride| + 1
    decreases |stride|, 0, 0
  {
    if |stride| == 0 then Run(p, count[0]) else Levels(p, stride, count, 0)
  }

  /** Repetitions j, j + 1, ... of the outermost level. */
  function Levels(p: int, stride: seq<int>, count: seq<int>, j: nat): seq<int>
    requires |count| == |stride| + 1 >= 2
    decreases |stride| - 1, 1, count[|stride|] - j
  {
    var n := |stride| - 1;
    if j >= count[n + 1] then []
    else Touched(p + j * stride[n], stride[..n], count[..n + 1]) + Levels(p, stride, count, j + 1)
  }

  lemma LevelsFrom(p: int, stride: seq<int>, count: seq<int>, j: nat)
    requires |count| == |stride| + 1 >= 2
    ensures var n := |stride| - 1;
      Levels(p, stride, count, j) == if j >= count[n + 1] then []
        else Touched(p + j * stride[n], stride[..n], count[..n + 1]) + Levels(p, stride, count, j + 1)
  {}

  // ---------- the plain nested loop ----------

  /** The bytes of the elements whose last subscripts are `outer` and whose first d subscripts
      run over the slice, the first one fastest; an element is where the strides put it. */
  function Nest(a: Arr, s: Slice, d: nat, outer: seq<int>): seq<int>
    requires a.Shaped() && s.Of(a.Rank()) && d + |outer| == a.Rank()
    decreases d, 0, 0
  {
    if d == 0 then Run(a.base + Dot(outer, a, a.Rank()), a.elemsize)
    else NestFrom(a, s, d - 1, outer, s.lo[d - 1])
  }

  /** for (x; x <= hi; x += step) over subscript k. */
  function NestFrom(a: Arr, s: Slice, k: nat, outer: seq<int>, x: int): seq<int>
    requires a.Shaped() && s.Of(a.Rank()) && k + 1 + |outer| == a.Rank()
    decreases k, 1, s.hi[k] - x
  {
    if x > s.hi[k] then []
    else Nest(a, s, k, [x] + outer) + NestFrom(a, s, k, outer, x + s.step[k])
  }

  // ---------- the translation ----------

  function Count(lo: int, hi: int, step: int): int {
    if step > 1 then (hi - lo + step) / step else hi - lo + 1
  }

  function Counts(s: Slice): (c: seq<int>)
    requires s.Of(|s.lo|)
    ensures |c| == |s.lo|
  {
    seq(|s.lo|, i requires 0 <= i < |s.lo| => Count(s.lo[i], s.hi[i], s.step[i]))
  }

  lemma CountIs(lo: int, hi: int, step: int)
    requires step >= 1 && lo <= hi
    ensures Count(lo, hi, step) >= 1
    ensures forall j: int {:trigger j * step} :: j < Count(lo, hi, step) <==> lo + j * step <= hi
  {
    var c := Count(lo, hi, step);
    var q, r := (hi - lo) / step, (hi - lo) % step;
    assert hi - lo == step * q + r;
    assert hi - lo + step == step * (q + 1) + r;
    ModUnique(hi - lo + step, step, q + 1, r);
    assert c == q + 1;
    forall j: int {:trigger j * step}
      ensures j < c <==> lo + j * step <= hi
    {
      MulSign(step, q - j);
      assert step * (q - j) == step * q - j * step;
    }
  }

  /** Byte distances between the elements of a slice. */
  function Steps(a: Arr, s: Slice): (t: seq<int>)
    requires a.Shaped() && s.Of(a.Rank())
    ensures |t| == a.Rank()
  {
    seq(a.Rank(), i requires 0 <= i < a.Rank() => a.stride[i] * s.step[i])
  }

  /** Strides and counts of the first d dimensions. */
  function StepsTo(a: Arr, s: Slice, d: nat): (t: seq<int>)
    requires a.Shaped() && s.Of(a.Rank()) && d <= a.Rank()
    ensures |t| == d
  {
    Steps(a, s)[..d]
  }

  function CountsTo(a: Arr, s: Slice, d: nat): (c: seq<int>)
    requires a.Shaped() && s.Of(a.Rank()) && d <= a.Rank()
    ensures |c| == d + 1
  {
    ([a.elemsize] + Counts(s))[..d + 1]
  }

  predicate UnitSteps(s: Slice) { forall i :: 0 <= i < |s.step| ==> s.step[i] <= 1 }

  predicate UnitFirst(s: Slice) { |s.step| > 0 ==> s.step[0] <= 1 }

  /** One side of the descriptor passed to ARMCI_PutS: with both first steps 1 the first
      dimension is contiguous and needs no level of its own. */
  function StrideOf(a: Arr, s: Slice, contiguous: bool): seq<int>
    requires a.Shaped() && s.Of(a.Rank())
  {
    if contiguous then Steps(a, s)[1..] else Steps(a, s)
  }

  function CountOf(elemsize: nat, s: Slice, contiguous: bool): (c: seq<int>)
    requires s.Of(|s.lo|) && |s.lo| >= 1
    ensures |c| == if contiguous then |s.lo| else |s.lo| + 1
  {
    var c := Counts(s);
    if contiguous then [c[0] * elemsize] + c[1..] else [elemsize] + c
  }

  /** Address of the first element of the slice when the last subscripts are `outer`. */
  function At(a: Arr, s: Slice, d: nat, outer: seq<int>): int
    requires a.Shaped() && s.Of(a.Rank()) && d + |outer| == a.Rank()
  {
    a.base + Dot(s.lo[..d] + outer, a, a.Rank())
  }

  /** Moving one subscript moves the address by its stride. */
  lemma AtMoves(a: Arr, s: Slice, k: nat, outer: seq<int>, x: int)
    requires a.Shaped() && s.Of(a.Rank()) && k + 1 + |outer| == a.Rank()
    ensures At(a, s, k, [x] + outer) == At(a, s, k + 1, outer) + (x - s.lo[k]) * a.stride[k]
  {
    var v, w := s.lo[..k] + ([x] + outer), s.lo[..k + 1] + outer;
    assert forall i :: 0 <= i < a.Rank() && i != k ==> v[i] == w[i];
    assert v[k] == x && w[k] == s.lo[k];
    DotMoves(a, v, w, k, a.Rank());
  }

  lemma {:induction false} DotMoves(a: Arr, v: seq<int>, w: seq<int>, k: nat, n: nat)
    requires a.Shaped() && |v| == |w| == a.Rank() && k < a.Rank() && n <= a.Rank()
    requires forall i :: 0 <= i < a.Rank() && i != k ==> v[i] == w[i]
    ensures Dot(v, a, n) == Dot(w, a, n) + if k < n then (v[k] - w[k]) * a.stride[k] else 0
  {
    if n > 0 {
      DotMoves(a, v, w, k, n - 1);
      if k == n - 1 {
        assert (v[k] - a.lo[k]) * a.stride[k] == (w[k] - a.lo[k]) * a.stride[k] + (v[k] - w[k]) * a.stride[k];
      }
    }
  }

  /** The general descriptor of the first d dimensions. */
  lemma {:induction false} NestIsTouched(a: Arr, s: Slice, d: nat, outer: seq<int>)
    requires a.Shaped() && s.Of(a.Rank()) && d + |outer| == a.Rank()
    ensures Nest(a, s, d, outer) == Touched(At(a, s, d, outer), StepsTo(a, s, d), CountsTo(a, s, d))
    decreases d, 0, 0
  {
    if d == 0 {
      assert s.lo[..0] + outer == outer;
    } else {
      SubscriptSteps(s, d - 1, 0);
      NestFromIsLevels(a, s, d - 1, outer, 0);
    }
  }

  lemma {:induction false} NestFromIsLevels(a: Arr, s: Slice, k: nat, outer: seq<int>, j: nat)
    requires a.Shaped() && s.Of(a.Rank()) && k + 1 + |outer| == a.Rank() && j <= Counts(s)[k]
    ensures NestFrom(a, s, k, outer, Subscript(s, k, j))
         == Levels(At(a, s, k + 1, outer), StepsTo(a, s, k + 1), CountsTo(a, s, k + 1), j)
    decreases k, 1, Counts(s)[k] - j
  {
    hide Levels, At, StepsTo, CountsTo, Counts, Subscript, Nest, NestFrom;
    LevelStarts(a, s, k, outer, j);
    if j < Counts(s)[k] {
      NestIsTouched(a, s, k, [Subscript(s, k, j)] + outer);
      NestFromIsLevels(a, s, k, outer, j + 1);
      LevelAddress(a, s, k, outer, j);
    }
  }

  /** Turn j of a loop and repetition j of its level: the slice below, and the turns after it. */
  lemma LevelStarts(a: Arr, s: Slice, k: nat, outer: seq<int>, j: nat)
    requires a.Shaped() && s.Of(a.Rank()) && k + 1 + |outer| == a.Rank() && j <= Counts(s)[k]
    ensures NestFrom(a, s, k, outer, Subscript(s, k, j)) ==
      if j == Counts(s)[k] then [] else Nest(a, s, k, [Subscript(s, k, j)] + outer) + NestFrom(a, s, k, outer, Subscript(s, k, j + 1))
    ensures Levels(At(a, s, k + 1, outer), StepsTo(a, s, k + 1), CountsTo(a, s, k + 1), j) ==
      if j == Counts(s)[k] then []
      else
        Touched(At(a, s, k + 1, outer) + j * (a.stride[k] * s.step[k]), StepsTo(a, s, k), CountsTo(a, s, k))
          + Levels(At(a, s, k + 1, outer), StepsTo(a, s, k + 1), CountsTo(a, s, k + 1), j + 1)
  {
    hide At, Count, Levels, Touched, Counts, StepsTo, CountsTo, Subscript, Nest, NestFrom;
    NestFromFirst(a, s, k, outer, Subscript(s, k, j));
    SubscriptSteps(s, k, j);
    LevelShape(a, s, k);
    LevelsFrom(At(a, s, k + 1, outer), StepsTo(a, s, k + 1), CountsTo(a, s, k + 1), j);
  }

  lemma NestFromFirst(a: Arr, s: Slice, k: nat, outer: seq<int>, x: int)
    requires a.Shaped() && s.Of(a.Rank()) && k + 1 + |outer| == a.Rank()
    ensures NestFrom(a, s, k, outer, x) ==
      if x > s.hi[k] then [] else Nest(a, s, k, [x] + outer) + NestFrom(a, s, k, outer, x + s.step[k])
  {}

  /** The j-th subscript of a loop over dimension k, and its address. */
  function Subscript(s: Slice, k: nat, j: nat): int
    requires k < |s.lo| == |s.step|
  {
    s.lo[k] + j * s.step[k]
  }

  lemma LevelAddress(a: Arr, s: Slice, k: nat, outer: seq<int>, j: nat)
    requires a.Shaped() && s.Of(a.Rank()) && k + 1 + |outer| == a.Rank()
    ensures At(a, s, k, [Subscript(s, k, j)] + outer) == At(a, s, k + 1, outer) + j * (a.stride[k] * s.step[k])
  {
    AtMoves(a, s, k, outer, Subscript(s, k, j));
    hide At;
    MulSwap(j, s.step[k], a.stride[k]);
  }

  /** Where the loop starts, steps to and stops. */
  lemma SubscriptSteps(s: Slice, k: nat, j: nat)
    requires k < |s.lo| == |s.hi| == |s.step| && s.lo[k] <= s.hi[k] && s.step[k] >= 1
    ensures Subscript(s, k, 0) == s.lo[k] && Subscript(s, k, j + 1) == Subscript(s, k, j) + s.step[k]
    ensures j < Count(s.lo[k], s.hi[k], s.step[k]) <==> Subscript(s, k, j) <= s.hi[k]
  {
    CountIs(s.lo[k], s.hi[k], s.step[k]);
    hide Count;
    assert (j + 1) * s.step[k] == j * s.step[k] + s.step[k];
  }

  /** Strides and counts up to a level, and those below it. */
  lemma LevelShape(a: Arr, s: Slice, k: nat)
    requires a.Shaped() && s.Of(a.Rank()) && k < a.Rank()
    ensures var st, c := StepsTo(a, s, k + 1), CountsTo(a, s, k + 1);
      && st[k] == a.stride[k] * s.step[k] && st[..k] == StepsTo(a, s, k)
      && c[k + 1] == Counts(s)[k] == Count(s.lo[k], s.hi[k], s.step[k]) && c[..k + 1] == CountsTo(a, s, k)
  {}

  lemma MulSwap(j: int, x: int, y: int)
    ensures (j * x) * y == j * (y * x)
  {}

  // ---------- dropping the level of a contiguous first dimension ----------

  lemma RunSplit(p: int, e: nat, n: nat)
    ensures Run(p, e + n) == Run(p, e) + Run(p + e, n)
  {}

  lemma {:induction false} RunsJoin(p: int, e: nat, c: nat, j: nat)
    requires j <= c
    ensures Levels(p, [e], [e, c], j) == Run(p + j * e, (c - j) * e)
    decreases c - j
  {
    if j < c {
      RunsJoin(p, e, c, j + 1);
      OneMore(p, e, c, j);
      RunSplit(p + j * e, e, (c - (j + 1)) * e);
      assert [e][..0] == [] && [e, c][..1] == [e];
      hide Run;
    } else {
      assert (c - j) * e == 0;
    }
  }

  lemma OneMore(p: int, e: nat, c: nat, j: nat)
    requires j < c
    ensures (c - j) * e == e + (c - (j + 1)) * e && p + (j + 1) * e == p + j * e + e && (c - (j + 1)) * e >= 0
  {
    var r := c - (j + 1);
    assert (r + 1) * e == r * e + e;
    assert (j + 1) * e == j * e + e;
    MulSign(1 + e, r);
    assert r * e >= 0 by { if r > 0 && e > 0 { MulSign(e, r); assert r * e == e * r; } }
  }

  lemma {:induction false} FirstLevelJoins(p: int, e: nat, stride: seq<int>, c0: nat, count: seq<int>)
    requires |count| == |stride|
    ensures Touched(p, [e] + stride, [e, c0] + count) == Touched(p, stride, [c0 * e] + count)
    decreases |stride|, 1, 0
  {
    if stride == [] {
      RunsJoin(p, e, c0, 0);
      assert [e] + stride == [e] && [e, c0] + count == [e, c0];
    } else {
      LevelsJoin(p, e, stride, c0, count, 0);
    }
  }

  lemma {:induction false} LevelsJoin(p: int, e: nat, stride: seq<int>, c0: nat, count: seq<int>, j: nat)
    requires |count| == |stride| > 0
    ensures Levels(p, [e] + stride, [e, c0] + count, j) == Levels(p, stride, [c0 * e] + count, j)
    decreases |stride|, 0, count[|stride| - 1] - j
  {
    hide Levels, Touched;
    var n := |stride| - 1;
    LevelsFrom(p, [e] + stride, [e, c0] + count, j);
    LevelsFrom(p, stride, [c0 * e] + count, j);
    if j < count[n] {
      FirstLevelJoins(p + j * stride[n], e, stride[..n], c0, count[..n]);
      LevelsJoin(p, e, stride, c0, count, j + 1);
      assert ([e] + stride)[..n + 1] == [e] + stride[..n];
      assert ([e, c0] + count)[..n + 2] == [e, c0] + count[..n];
      assert ([c0 * e] + count)[..n + 1] == [c0 * e] + count[..n];
    }
  }

  // ---------- the first byte, and the first of the second element ----------

  ghost predicate Positive(count: seq<int>) { forall i :: 0 <= i < |count| ==> count[i] >= 1 }

  /** A transfer begins with its inner levels. */
  lemma {:induction false} TouchedPrefix(p: int, stride: seq<int>, count: seq<int>, k: nat)
    requires |count| == |stride| + 1 && k <= |stride| && Positive(count)
    ensures Touched(p, stride[..k], count[..k + 1]) <= Touched(p, stride, count)
    decreases |stride|
  {
    var n := |stride|;
    if k < n {
      TouchedPrefix(p, stride[..n - 1], count[..n], k);
      assert stride[..n - 1][..k] == stride[..k] && count[..n][..k + 1] == count[..k + 1];
      hide Touched;
      OuterFirst(p, stride, count);
    } else {
      assert stride[..k] == stride && count[..k + 1] == count;
    }
  }

  lemma {:induction false} TouchedNothing(p: int, stride: seq<int>, count: seq<int>)
    requires |count| == |stride| + 1 && count[0] == 0
    ensures Touched(p, stride, count) == []
    decreases |stride|, 1, 0
  {
    if stride != [] { LevelsNothing(p, stride, count, 0); }
  }

  lemma {:induction false} LevelsNothing(p: int, stride: seq<int>, count: seq<int>, j: nat)
    requires |count| == |stride| + 1 >= 2 && count[0] == 0
    ensures Levels(p, stride, count, j) == []
    decreases |stride|, 0, count[|stride|] - j
  {
    var n := |stride| - 1;
    if j < count[n + 1] {
      TouchedNothing(p + j * stride[n], stride[..n], count[..n + 1]);
      LevelsNothing(p, stride, count, j + 1);
    }
  }

  lemma OuterFirst(p: int, stride: seq<int>, count: seq<int>)
    requires |count| == |stride| + 1 >= 2 && Positive(count)
    ensures Touched(p, stride[..|stride| - 1], count[..|stride|]) <= Touched(p, stride, count)
  {
    LevelsFrom(p, stride, count, 0);
    assert Touched(p, stride, count) == Levels(p, stride, count, 0);
    hide Levels;
  }

  lemma TouchedFirst(p: int, stride: seq<int>, count: seq<int>)
    requires |count| == |stride| + 1 && Positive(count)
    ensures Run(p, count[0]) <= Touched(p, stride, count) && |Touched(p, stride, count)| >= count[0] && Touched(p, stride, count)[0] == p
  {
    TouchedPrefix(p, stride, count, 0);
    assert Touched(p, stride[..0], count[..1]) == Run(p, count[0]);
    hide Touched;
  }

  /** Where a level of more than one repetition has its second. */
  lemma TouchedSecond(p: int, stride: seq<int>, count: seq<int>)
    requires |count| == |stride| + 1 >= 2 && Positive(count) && count[1] >= 2
    ensures |Touched(p, stride, count)| > count[0] && Touched(p, stride, count)[count[0]] == p + stride[0]
  {
    hide Touched, Run;
    TouchedPrefix(p, stride, count, 1);
    assert stride[..1] == [stride[0]] && count[..2] == [count[0], count[1]];
    TwoRuns(p, stride[0], count[0], count[1]);
    RunShape(p, count[0]);
    RunShape(p + stride[0], count[0]);
  }

  lemma RunShape(p: int, n: nat)
    ensures |Run(p, n)| == n && (n > 0 ==> Run(p, n)[0] == p)
  {}

  lemma TwoRuns(p: int, x: int, n: int, m: int)
    requires m >= 2
    ensures Run(p, n) + Run(p + x, n) <= Touched(p, [x], [n, m])
  {
    LevelsFrom(p, [x], [n, m], 0);
    LevelsFrom(p, [x], [n, m], 1);
    assert [x][..0] == [] && [n, m][..1] == [n];
    assert Touched(p, [x], [n, m]) == Levels(p, [x], [n, m], 0);
    assert Touched(p, [], [n]) == Run(p, n) && Touched(p + x, [], [n]) == Run(p + x, n);
    hide *;
    assert Run(p, n) + (Run(p + x, n) + Levels(p, [x], [n, m], 2)) == Run(p, n) + Run(p + x, n) + Levels(p, [x], [n, m], 2);
  }

  // ---------- whole descriptors ----------

  /** A first dimension of one element needs no level, whatever its stride. */
  lemma {:induction false} FirstOnce(p: int, x: int, e: nat, stride: seq<int>, count: seq<int>)
    requires |count| == |stride|
    ensures Touched(p, [x] + stride, [e, 1] + count) == Touched(p, stride, [e] + count)
    decreases |stride|, 1, 0
  {
    if stride == [] {
      assert [x] + stride == [x] && [e, 1] + count == [e, 1] && [e] + count == [e];
      LevelsFrom(p, [x], [e, 1], 0);
      LevelsFrom(p, [x], [e, 1], 1);
      assert [x][..0] == [] && [e, 1][..1] == [e];
    } else {
      FirstOnceLevels(p, x, e, stride, count, 0);
    }
  }

  lemma {:induction false} FirstOnceLevels(p: int, x: int, e: nat, stride: seq<int>, count: seq<int>, j: nat)
    requires |count| == |stride| > 0
    ensures Levels(p, [x] + stride, [e, 1] + count, j) == Levels(p, stride, [e] + count, j)
    decreases |stride|, 0, count[|stride| - 1] - j
  {
    hide Levels, Touched;
    var n := |stride| - 1;
    LevelsFrom(p, [x] + stride, [e, 1] + count, j);
    LevelsFrom(p, stride, [e] + count, j);
    if j < count[n] {
      FirstOnce(p + j * stride[n], x, e, stride[..n], count[..n]);
      FirstOnceLevels(p, x, e, stride, count, j + 1);
      assert ([x] + stride)[..n + 1] == [x] + stride[..n];
      assert ([e, 1] + count)[..n + 2] == [e, 1] + count[..n];
      assert ([e] + count)[..n + 1] == [e] + count[..n];
    }
  }

  /** Elements of the first dimension of the slice follow one another, if it has more than one and is merged. */
  predicate FirstJoins(a: Arr, s: Slice, contiguous: bool)
    requires a.Shaped() && s.Of(a.Rank())
  {
    contiguous && Counts(s)[0] > 1 ==> a.stride[0] == a.elemsize
  }

  /** Whatever its shape, a descriptor that starts at p denotes the bytes of the slice, in the order of the
      nested loop, exactly when p is where the strides put the first element and a merged dimension has no
      gaps, or elements have no bytes. */
  lemma DescriptorIsNest(a: Arr, s: Slice, contiguous: bool, p: int)
    requires a.Shaped() && s.Of(a.Rank()) && (contiguous ==> UnitFirst(s))
    ensures Touched(p, StrideOf(a, s, contiguous), CountOf(a.elemsize, s, contiguous)) == Nest(a, s, a.Rank(), [])
      <==> a.elemsize == 0 || (p == At(a, s, a.Rank(), []) && FirstJoins(a, s, contiguous))
  {
    hide Nest, Touched, At, Count, Steps, Counts, StepsTo, CountsTo, UnitFirst;
    var q, st, c, e := At(a, s, a.Rank(), []), Steps(a, s), Counts(s), a.elemsize;
    NestIsTouched(a, s, a.Rank(), []);
    WholeShape(a, s);
    CountsPositive(s);
    if e == 0 {
      TouchedNothing(q, st, [e] + c);
      TouchedNothing(p, StrideOf(a, s, contiguous), CountOf(e, s, contiguous));
      return;
    }
    TouchedFirst(q, st, [e] + c);
    if contiguous {
      FirstShape(a, s);
      ContiguousIff(p, q, e, st, c);
    } else {
      TouchedFirst(p, st, [e] + c);
    }
  }

  /** The merged form and the general one. */
  lemma ContiguousIff(p: int, q: int, e: nat, st: seq<int>, c: seq<int>)
    requires |st| == |c| >= 1 && Positive(c) && e > 0
    ensures Touched(p, st[1..], [c[0] * e] + c[1..]) == Touched(q, st, [e] + c) <==> p == q && (c[0] > 1 ==> st[0] == e)
  {
    hide Touched;
    assert st == [st[0]] + st[1..] && [e] + c == [e, c[0]] + c[1..];
    assert c[0] * e >= e by { MulSign(e, c[0]); assert c[0] * e == e * c[0]; }
    TouchedFirst(q, st, [e] + c);
    TouchedFirst(p, st[1..], [c[0] * e] + c[1..]);
    if c[0] == 1 {
      FirstOnce(p, st[0], e, st[1..], c[1..]);
    } else {
      TouchedSecond(q, st, [e] + c);
      assert c[0] * e > e by { MulSign(e, c[0] - 1); assert c[0] * e == e * (c[0] - 1) + e; }
      assert Run(p, c[0] * e)[e] == p + e;
      if p == q && st[0] == e { FirstLevelJoins(p, e, st[1..], c[0], c[1..]); }
    }
  }

  lemma CountsPositive(s: Slice)
    requires s.Of(|s.lo|)
    ensures Positive(Counts(s))
  {
    forall i | 0 <= i < |s.lo|
      ensures Counts(s)[i] >= 1
    {
      CountIs(s.lo[i], s.hi[i], s.step[i]);
    }
  }

  lemma WholeShape(a: Arr, s: Slice)
    requires a.Shaped() && s.Of(a.Rank())
    ensures StepsTo(a, s, a.Rank()) == Steps(a, s) && CountsTo(a, s, a.Rank()) == [a.elemsize] + Counts(s)
  {}

  /** With a first step of 1 the innermost level repeats at the stride. */
  lemma FirstShape(a: Arr, s: Slice)
    requires a.Shaped() && s.Of(a.Rank()) && UnitFirst(s)
    ensures Steps(a, s)[0] == a.stride[0]
  {}

  // ---------- the start address ----------

  /** Where ARMCI_Put_farrays and ARMCI_Get_farrays take the first element of the slice to be. */
  function StartAt(a: Arr, s: Slice): int
    requires a.Shaped() && s.Of(a.Rank())
  {
    a.base + Index(s.lo, a.lo, a.extent, a.Rank()) * a.elemsize
  }

  /** A test before the call: the elements before the slice, as an array without gaps has them, are as many
      bytes as the strides say. */
  predicate StartsRight(a: Arr, s: Slice)
    requires a.Shaped() && s.Of(a.Rank())
  {
    Index(s.lo, a.lo, a.extent, a.Rank()) * a.elemsize == Dot(s.lo, a, a.Rank())
  }

  lemma StartIff(a: Arr, s: Slice)
    requires a.Shaped() && s.Of(a.Rank())
    ensures StartAt(a, s) == At(a, s, a.Rank(), []) <==> StartsRight(a, s)
  {
    assert s.lo[..a.Rank()] + [] == s.lo;
  }

  /** Arrays that _array_create has laid out meet both conditions. */
  lemma LaidStarts(a: Arr, s: Slice, contiguous: bool)
    requires a.Laid() && s.Of(a.Rank())
    ensures StartsRight(a, s) && FirstJoins(a, s, contiguous)
  {
    IndexIsDot(a, s.lo, a.Rank());
  }

  /** A pointer to every second of some 8-byte elements: the slice that starts at its second element is
      taken to start 8 bytes too low. */
  lemma GapsMisplace()
    ensures var a, s := Arr(0, 8, [1], [10], [16]), Slice([2], [3], [1]);
      a.Shaped() && s.Of(1) && !StartsRight(a, s) && StartAt(a, s) == 8 && At(a, s, 1, []) == 16
  {
    var a, s := Arr(0, 8, [1], [10], [16]), Slice([2], [3], [1]);
    assert s.lo[..1] + [] == [2];
    assert Product([10], 0) == 1;
    assert Index([2], [1], [10], 1) == 1 && Dot([2], a, 1) == 16;
  }
}
