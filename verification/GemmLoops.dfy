/** xb_dgemm and xb_zgemm of LinAlg/lapack+blas/xgemm.c as they work: nested loops with running
    positions, one case per special value of alpha and beta. */
module GemmLoops {
  import opened Gemm

  /** The argument tests. */
  method Reject(d: Dims) returns (r: bool)
    ensures r == Rejected(d)
  {
    if d.m <= 0 || d.n <= 0 || d.k <= 0 { return true; }
    if d.ldc < d.m { return true; }
    if d.ta == 'n' || d.ta == 'N' {
      if d.lda < d.m { return true; }
    } else {
      if d.lda < d.k { return true; }
    }
    if d.tb == 'n' || d.tb == 'N' {
      if d.ldb < d.k { return true; }
    } else {
      if d.ldb < d.n { return true; }
    }
    return false;
  }

  // ---------- real ----------

  /** C while its elements up to (i, j) have been written. */
  ghost predicate Partial(d: Dims, alpha: real, a: seq<real>, b: seq<real>, beta: real, c0: seq<real>, c: seq<real>,
          i: int, j: int) {
    && !Rejected(d) && |c| == |c0|
    && forall x :: 0 <= x < |c| ==> c[x] == if Written(d, i, j, x) then Entry(d, alpha, a, b, beta, c0, x) else c0[x]
  }

  lemma PartialStart(d: Dims, alpha: real, a: seq<real>, b: seq<real>, beta: real, c: seq<real>)
    requires !Rejected(d)
    ensures Partial(d, alpha, a, b, beta, c, c, 0, 0)
  {
    hide Written, Entry;
    forall x | 0 <= x < |c|
      ensures !Written(d, 0, 0, x)
    {
      WrittenSteps(d, 0, 0, x);
    }
  }

  /** Element (i, j) is written next. */
  lemma PartialStep(d: Dims, alpha: real, a: seq<real>, b: seq<real>, beta: real, c0: seq<real>, c: seq<real>, i: int,
          j: int, v: real)
    requires Partial(d, alpha, a, b, beta, c0, c, i, j) && 0 <= i < d.m && 0 <= j < d.n && 0 <= PosC(d, i, j) < |c|
    requires v == Dot(d, a, b, i, j, d.k) * alpha + c0[PosC(d, i, j)] * beta
    ensures Partial(d, alpha, a, b, beta, c0, c[PosC(d, i, j) := v], i, j + 1)
  {
    var p := PosC(d, i, j);
    PosOf(d, i, j);
    assert Entry(d, alpha, a, b, beta, c0, p) == v;
    hide Written, Entry, PosC, Row, Col;
    WrittenSteps(d, i, j, p);
    forall x | 0 <= x < |c| && x != p
      ensures Written(d, i, j + 1, x) == Written(d, i, j, x)
    {
      WrittenSteps(d, i, j, x);
    }
  }

  /** ... and has not been yet. */
  lemma PartialAt(d: Dims, alpha: real, a: seq<real>, b: seq<real>, beta: real, c0: seq<real>, c: seq<real>, i: int,
          j: int)
    requires Partial(d, alpha, a, b, beta, c0, c, i, j) && 0 <= i < d.m && 0 <= j < d.n && 0 <= PosC(d, i, j) < |c|
    ensures |c| == |c0| && c[PosC(d, i, j)] == c0[PosC(d, i, j)]
  {
    hide Entry, Written, PosC;
    WrittenSteps(d, i, j, PosC(d, i, j));
  }

  lemma Sound(d: Dims)
    requires !Rejected(d)
    ensures d.m > 0 && d.n > 0 && d.k > 0 && d.ldc > 0
  {}

  lemma PartialRow(d: Dims, alpha: real, a: seq<real>, b: seq<real>, beta: real, c0: seq<real>, c: seq<real>, i: int)
    requires Partial(d, alpha, a, b, beta, c0, c, i, d.n) && 0 <= i < d.m
    ensures Partial(d, alpha, a, b, beta, c0, c, i + 1, 0)
  {
    hide Written, Entry;
    forall x | 0 <= x < |c|
      ensures Written(d, i + 1, 0, x) == Written(d, i, d.n, x)
    {
      WrittenSteps(d, i, 0, x);
    }
  }

  lemma PartialEnd(d: Dims, alpha: real, a: seq<real>, b: seq<real>, beta: real, c0: seq<real>, c: seq<real>)
    requires Partial(d, alpha, a, b, beta, c0, c, d.m, 0)
    ensures c == Result(d, alpha, a, b, beta, c0)
  {}

  /** xb_dgemm. */
  method Dgemm(d: Dims, alpha: real, a: array<real>, b: array<real>, beta: real, c: array<real>)
    requires !Rejected(d) ==> Fit(d, a.Length, b.Length, c.Length)
    requires a != c && b != c
    modifies c
    ensures c[..] == Result(d, alpha, a[..], b[..], beta, old(c[..]))
  {
    var rejected := Reject(d);
    if rejected { return; }
    if alpha == 0.0 && beta == 1.0 {
      NothingToDo(d, a[..], b[..], c[..]);
      return;
    }
    ghost var a0, b0, c0 := a[..], b[..], c[..];
    Sound(d);
    hide Partial, Result, PosA, PosB, PosC, Rejected;
    PartialStart(d, alpha, a0, b0, beta, c0);
    PosSteps(d, 0, 0, 0);
    var i, ci, ai := 0, 0, 0;
    while i < d.m
      invariant 0 <= i <= d.m && ci == PosC(d, i, 0) && ai == PosA(d, i, 0)
      invariant a[..] == a0 && b[..] == b0 && Partial(d, alpha, a0, b0, beta, c0, c[..], i, 0)
    {
      RowLoop(d, alpha, a, b, beta, c, i, ci, ai, c0);
      PosSteps(d, i, 0, 0);
      i, ci, ai := i + 1, ci + 1, ai + IncAi(d);
    }
    PartialEnd(d, alpha, a0, b0, beta, c0, c[..]);
  }

  /** Row i of C. */
  method RowLoop(d: Dims, alpha: real, a: array<real>, b: array<real>, beta: real, c: array<real>,
                 ghost i: int, ci: int, ai: int, ghost c0: seq<real>)
    requires !Rejected(d) && Fit(d, a.Length, b.Length, c.Length) && a != c && b != c
    requires 0 <= i < d.m && ci == PosC(d, i, 0) && ai == PosA(d, i, 0)
    requires Partial(d, alpha, a[..], b[..], beta, c0, c[..], i, 0)
    modifies c
    ensures Partial(d, alpha, a[..], b[..], beta, c0, c[..], i + 1, 0)
  {
    ghost var a0, b0 := a[..], b[..];
    Sound(d);
    hide Partial, PosA, PosB, PosC, Rejected;
    PosSteps(d, 0, 0, 0);
    var j, cij, bj := 0, ci, 0;
    while j < d.n
      invariant 0 <= j <= d.n && cij == PosC(d, i, j) && bj == PosB(d, 0, j)
      invariant a[..] == a0 && b[..] == b0 && Partial(d, alpha, a0, b0, beta, c0, c[..], i, j)
    {
      var r := Element(d, alpha, a, b, beta, c, i, j, cij, ai, bj);
      PartialAt(d, alpha, a0, b0, beta, c0, c[..], i, j);
      PartialStep(d, alpha, a0, b0, beta, c0, c[..], i, j, r);
      ghost var before := c[..];
      c[cij] := r;
      assert c[..] == before[cij := r];
      PosSteps(d, i, 0, j);
      j, cij, bj := j + 1, cij + d.ldc, bj + IncBj(d);
    }
    PartialRow(d, alpha, a0, b0, beta, c0, c[..], i);
  }

  lemma NothingToDo(d: Dims, a: seq<real>, b: seq<real>, c: seq<real>)
    ensures Result(d, 0.0, a, b, 1.0, c) == c
  {}

  /** What the innermost loop, in the case that alpha and beta select, leaves for C[i, j]. */
  method Element(d: Dims, alpha: real, a: array<real>, b: array<real>, beta: real, c: array<real>,
                 ghost i: int, ghost j: int, cij: int, ai: int, bj: int) returns (r: real)
    requires 0 <= i < d.m && 0 <= j < d.n && d.k > 0 && Fit(d, a.Length, b.Length, c.Length)
    requires cij == PosC(d, i, j) && ai == PosA(d, i, 0) && bj == PosB(d, 0, j)
    ensures 0 <= cij < c.Length && r == Dot(d, a[..], b[..], i, j, d.k) * alpha + c[cij] * beta
  {
    if alpha == 0.0 {
      r := c[cij] * beta;
    } else {
      var sum := InnerProduct(d, a, b, i, j, ai, bj);
      if alpha == 1.0 {
        if beta == 0.0 {
          r := sum;
        } else {
          var tmp2 := c[cij] * beta;
          r := tmp2 + sum;
        }
      } else {
        var tmp1 := sum * alpha;
        var tmp2 := c[cij] * beta;
        r := tmp1 + tmp2;
      }
    }
  }

  method InnerProduct(d: Dims, a: array<real>, b: array<real>, ghost i: int, ghost j: int, ai: int,
          bj: int) returns (sum: real)
    requires 0 <= i < d.m && 0 <= j < d.n && d.k > 0
    requires forall h {:trigger PosA(d, i, h)} :: 0 <= h < d.k ==> 0 <= PosA(d, i, h) < a.Length
    requires forall h {:trigger PosB(d, h, j)} :: 0 <= h < d.k ==> 0 <= PosB(d, h, j) < b.Length
    requires ai == PosA(d, i, 0) && bj == PosB(d, 0, j)
    ensures sum == Dot(d, a[..], b[..], i, j, d.k)
  {
    hide PosA, PosB;
    var aih, bhj := ai, bj;
    sum := 0.0;
    var h := 0;
    while h < d.k
      invariant 0 <= h <= d.k && aih == PosA(d, i, h) && bhj == PosB(d, h, j)
      invariant sum == Dot(d, a[..], b[..], i, j, h)
    {
      var prod := a[aih] * b[bhj];
      sum := sum + prod;
      PosSteps(d, i, h, j);
      h, aih, bhj := h + 1, aih + IncAih(d), bhj + IncBhj(d);
    }
  }

  // ---------- complex ----------

  ghost predicate CPartial(d: Dims, alpha: Complex, a: seq<real>, b: seq<real>, beta: Complex, c0: seq<real>,
          c: seq<real>, i: int, j: int) {
    && !Rejected(d) && |c| == |c0| && (|c| % 2 == 1 ==> c[|c| - 1] == c0[|c| - 1])
    && forall x {:trigger CAt(c, x)} :: 0 <= x && 2 * x + 1 < |c| ==>
        CAt(c, x) == if Written(d, i, j, x) then CEntry(d, alpha, a, b, beta, c0, x) else CAt(c0, x)
  }

  lemma CPartialStart(d: Dims, alpha: Complex, a: seq<real>, b: seq<real>, beta: Complex, c: seq<real>)
    requires !Rejected(d)
    ensures CPartial(d, alpha, a, b, beta, c, c, 0, 0)
  {
    hide Written, CEntry;
    forall x | 0 <= x
      ensures !Written(d, 0, 0, x)
    {
      WrittenSteps(d, 0, 0, x);
    }
  }

  lemma CPartialAt(d: Dims, alpha: Complex, a: seq<real>, b: seq<real>, beta: Complex, c0: seq<real>, c: seq<real>,
          i: int, j: int)
    requires CPartial(d, alpha, a, b, beta, c0, c, i, j) && 0 <= i < d.m && 0 <= j < d.n
    requires 0 <= 2 * PosC(d, i, j) < |c| - 1
    ensures |c| == |c0| && CAt(c, PosC(d, i, j)) == CAt(c0, PosC(d, i, j))
  {
    hide CEntry, Written, PosC, CAt;
    WrittenSteps(d, i, j, PosC(d, i, j));
  }

  /** A pair is written. */
  lemma PairWritten(c: seq<real>, p: int, v: Complex)
    requires 0 <= 2 * p < |c| - 1
    ensures var c' := c[2 * p := v.re][2 * p + 1 := v.im];
      && CAt(c', p) == v && (forall x {:trigger CAt(c', x)} :: x != p ==> CAt(c', x) == CAt(c, x))
      && (|c| % 2 == 1 ==> c'[|c| - 1] == c[|c| - 1])
  {}

  lemma WrittenStepsAt(d: Dims, i: int, j: int, x: int)
    requires !Rejected(d) && 0 <= i < d.m && 0 <= j < d.n && x >= 0
    ensures x != PosC(d, i, j) ==> Written(d, i, j + 1, x) == Written(d, i, j, x)
    ensures x == PosC(d, i, j) ==> Written(d, i, j + 1, x) && !Written(d, i, j, x)
  {
    WrittenSteps(d, i, j, x);
  }

  lemma CEntryIs(d: Dims, alpha: Complex, a: seq<real>, b: seq<real>, beta: Complex, c: seq<real>, i: int, j: int)
    requires !Rejected(d) && 0 <= i < d.m && 0 <= j < d.n
    ensures CEntry(d, alpha, a, b, beta, c, PosC(d, i, j)) == Add(Mul(CDot(d, a, b, i, j, d.k), alpha), Mul(CAt(c, PosC(d, i, j)), beta))
  {
    PosOf(d, i, j);
  }

  lemma CPartialStep(d: Dims, alpha: Complex, a: seq<real>, b: seq<real>, beta: Complex, c0: seq<real>, c: seq<real>,
          i: int, j: int, v: Complex)
    requires CPartial(d, alpha, a, b, beta, c0, c, i, j) && 0 <= i < d.m && 0 <= j < d.n
    requires 0 <= 2 * PosC(d, i, j) < |c| - 1
    requires v == Add(Mul(CDot(d, a, b, i, j, d.k), alpha), Mul(CAt(c0, PosC(d, i, j)), beta))
    ensures CPartial(d, alpha, a, b, beta, c0, c[2 * PosC(d, i, j) := v.re][2 * PosC(d, i, j) + 1 := v.im], i, j + 1)
  {
    hide Written, CEntry, PosC, Row, Col, CAt, Mul, Add, CDot, Rejected;
    var p := PosC(d, i, j);
    Sound(d);
    CEntryIs(d, alpha, a, b, beta, c0, i, j);
    PairWritten(c, p, v);
    var c' := c[2 * p := v.re][2 * p + 1 := v.im];
    WrittenStepsAt(d, i, j, p);
    forall x | 0 <= x && 2 * x + 1 < |c| && x != p
      ensures CAt(c', x) == if Written(d, i, j + 1, x) then CEntry(d, alpha, a, b, beta, c0, x) else CAt(c0, x)
    {
      WrittenStepsAt(d, i, j, x);
      assert CAt(c, x) == CAt(c', x);
    }
  }

  lemma CPartialRow(d: Dims, alpha: Complex, a: seq<real>, b: seq<real>, beta: Complex, c0: seq<real>, c: seq<real>,
          i: int)
    requires CPartial(d, alpha, a, b, beta, c0, c, i, d.n) && 0 <= i < d.m
    ensures CPartial(d, alpha, a, b, beta, c0, c, i + 1, 0)
  {
    hide Written, CEntry, CAt;
    forall x | 0 <= x
      ensures Written(d, i + 1, 0, x) == Written(d, i, d.n, x)
    {
      WrittenSteps(d, i, 0, x);
    }
  }

  lemma CPartialEnd(d: Dims, alpha: Complex, a: seq<real>, b: seq<real>, beta: Complex, c0: seq<real>, c: seq<real>)
    requires CPartial(d, alpha, a, b, beta, c0, c, d.m, 0)
    ensures CResult(d, alpha, a, b, beta, c0, c)
  {
    forall x | 0 <= x && 2 * x + 1 < |c| && !Written(d, d.m, 0, x)
      ensures CEntry(d, alpha, a, b, beta, c0, x) == CAt(c0, x)
    {
      PosUnique(d, x);
    }
  }

  lemma CNothingToDo(d: Dims, a: seq<real>, b: seq<real>, c: seq<real>)
    ensures CResult(d, CZERO, a, b, CONE, c, c)
  {
    hide CAt, CDot, Row, Col;
    UnitLaws();
  }

  lemma UnitLaws()
    ensures forall z: Complex {:trigger Mul(z, CONE)} :: Mul(z, CONE) == z
    ensures forall z: Complex {:trigger Mul(z, CZERO)} :: Mul(z, CZERO) == CZERO
    ensures forall z: Complex {:trigger Add(z, CZERO)} {:trigger Add(CZERO, z)} :: Add(z, CZERO) == z && Add(CZERO, z) == z
  {}

  /** xb_zgemm; a complex element takes two array elements, its imaginary part second. */
  method Zgemm(d: Dims, alpha: Complex, a: array<real>, b: array<real>, beta: Complex, c: array<real>)
    requires !Rejected(d) ==> Fit(d, a.Length / 2, b.Length / 2, c.Length / 2)
    requires a != c && b != c
    modifies c
    ensures CResult(d, alpha, a[..], b[..], beta, old(c[..]), c[..])
  {
    var rejected := Reject(d);
    if rejected { return; }
    if alpha.re == 0.0 && alpha.im == 0.0 && beta.re == 1.0 && beta.im == 0.0 {
      CNothingToDo(d, a[..], b[..], c[..]);
      return;
    }
    ghost var a0, b0, c0 := a[..], b[..], c[..];
    Sound(d);
    hide CPartial, CResult, PosA, PosB, PosC, Rejected;
    CPartialStart(d, alpha, a0, b0, beta, c0);
    PosSteps(d, 0, 0, 0);
    var i, ci, ai := 0, 0, 0;
    while i < d.m
      invariant 0 <= i <= d.m && ci == 2 * PosC(d, i, 0) && ai == 2 * PosA(d, i, 0)
      invariant a[..] == a0 && b[..] == b0 && CPartial(d, alpha, a0, b0, beta, c0, c[..], i, 0)
    {
      CRowLoop(d, alpha, a, b, beta, c, i, ci, ai, c0);
      PosSteps(d, i, 0, 0);
      i, ci, ai := i + 1, ci + 2, ai + 2 * IncAi(d);
    }
    CPartialEnd(d, alpha, a0, b0, beta, c0, c[..]);
  }

  /** Row i of C. */
  method CRowLoop(d: Dims, alpha: Complex, a: array<real>, b: array<real>, beta: Complex, c: array<real>,
                  ghost i: int, ci: int, ai: int, ghost c0: seq<real>)
    requires !Rejected(d) && Fit(d, a.Length / 2, b.Length / 2, c.Length / 2) && a != c && b != c
    requires 0 <= i < d.m && ci == 2 * PosC(d, i, 0) && ai == 2 * PosA(d, i, 0)
    requires CPartial(d, alpha, a[..], b[..], beta, c0, c[..], i, 0)
    modifies c
    ensures CPartial(d, alpha, a[..], b[..], beta, c0, c[..], i + 1, 0)
  {
    ghost var a0, b0 := a[..], b[..];
    Sound(d);
    hide CPartial, PosA, PosB, PosC, Rejected, Add, Mul, CAt;
    PosSteps(d, 0, 0, 0);
    var j, cij, bj := 0, ci, 0;
    while j < d.n
      invariant 0 <= j <= d.n && cij == 2 * PosC(d, i, j) && bj == 2 * PosB(d, 0, j)
      invariant a[..] == a0 && b[..] == b0 && CPartial(d, alpha, a0, b0, beta, c0, c[..], i, j)
    {
      var r := CElement(d, alpha, a, b, beta, c, i, j, cij, ai, bj);
      CPartialAt(d, alpha, a0, b0, beta, c0, c[..], i, j);
      CPartialStep(d, alpha, a0, b0, beta, c0, c[..], i, j, r);
      ghost var before := c[..];
      c[cij] := r.re;
      c[cij + 1] := r.im;
      assert c[..] == before[cij := r.re][cij + 1 := r.im];
      PosSteps(d, i, 0, j);
      j, cij, bj := j + 1, cij + 2 * d.ldc, bj + 2 * IncBj(d);
    }
    CPartialRow(d, alpha, a0, b0, beta, c0, c[..], i);
  }

  /** What the innermost loop, in the case that alpha and beta select, leaves for C[i, j]. */
  method CElement(d: Dims, alpha: Complex, a: array<real>, b: array<real>, beta: Complex, c: array<real>,
                  ghost i: int, ghost j: int, cij: int, ai: int, bj: int) returns (r: Complex)
    requires 0 <= i < d.m && 0 <= j < d.n && d.k > 0 && Fit(d, a.Length / 2, b.Length / 2, c.Length / 2)
    requires cij == 2 * PosC(d, i, j) && ai == 2 * PosA(d, i, 0) && bj == 2 * PosB(d, 0, j)
    ensures 0 <= cij < c.Length - 1
    ensures r == Add(Mul(CDot(d, a[..], b[..], i, j, d.k), alpha), Mul(CAt(c[..], PosC(d, i, j)), beta))
  {
    hide PosA, PosB, CDot, CAt;
    UnitLaws();
    assert 0 <= PosC(d, i, j) < c.Length / 2;
    PairAt(c[..], PosC(d, i, j));
    var celem := Complex(c[cij], c[cij + 1]);
    if alpha.re == 0.0 && alpha.im == 0.0 {
      r := Times(celem, beta);
    } else {
      var sum := CInnerProduct(d, a, b, i, j, ai, bj);
      hide Mul, Add;
      if alpha.re == 1.0 && alpha.im == 0.0 {
        if beta.re == 0.0 && beta.im == 0.0 {
          r := sum;
        } else {
          var tmp2 := Times(celem, beta);
          r := Plus(tmp2, sum);
        }
      } else {
        var tmp1 := Times(sum, alpha);
        var tmp2 := Times(celem, beta);
        r := Plus(tmp1, tmp2);
      }
    }
  }

  lemma PairAt(s: seq<real>, p: int)
    requires 0 <= 2 * p < |s| - 1
    ensures CAt(s, p) == Complex(s[2 * p], s[2 * p + 1])
  {}

  method Times(x: Complex, y: Complex) returns (z: Complex)
    ensures z == Mul(x, y)
  {
    z := Complex(x.re * y.re - x.im * y.im, x.re * y.im + x.im * y.re);
  }

  method Plus(x: Complex, y: Complex) returns (z: Complex)
    ensures z == Add(x, y) == Add(y, x)
  {
    z := Complex(x.re + y.re, x.im + y.im);
  }

  method CInnerProduct(d: Dims, a: array<real>, b: array<real>, ghost i: int, ghost j: int, ai: int,
          bj: int) returns (sum: Complex)
    requires 0 <= i < d.m && 0 <= j < d.n && d.k > 0
    requires forall h {:trigger PosA(d, i, h)} :: 0 <= h < d.k ==> 0 <= PosA(d, i, h) < a.Length / 2
    requires forall h {:trigger PosB(d, h, j)} :: 0 <= h < d.k ==> 0 <= PosB(d, h, j) < b.Length / 2
    requires ai == 2 * PosA(d, i, 0) && bj == 2 * PosB(d, 0, j)
    ensures sum == CDot(d, a[..], b[..], i, j, d.k)
  {
    hide PosA, PosB, Mul, Add, CAt;
    var aih, bhj := ai, bj;
    sum := CZERO;
    var h := 0;
    while h < d.k
      invariant 0 <= h <= d.k && aih == 2 * PosA(d, i, h) && bhj == 2 * PosB(d, h, j)
      invariant sum == CDot(d, a[..], b[..], i, j, h)
    {
      PairAt(a[..], PosA(d, i, h));
      PairAt(b[..], PosB(d, h, j));
      var aelem := Complex(a[aih], a[aih + 1]);
      var belem := Complex(b[bhj], b[bhj + 1]);
      if d.ta == 'c' || d.ta == 'C' { aelem := aelem.(im := -aelem.im); }
      if d.tb == 'c' || d.tb == 'C' { belem := belem.(im := -belem.im); }
      var prod := Times(aelem, belem);
      sum := Plus(sum, prod);
      PosSteps(d, i, h, j);
      h, aih, bhj := h + 1, aih + 2 * IncAih(d), bhj + 2 * IncBhj(d);
    }
  }
}
