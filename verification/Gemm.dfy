/** C <- alpha * op(A) * op(B) + beta * C as LinAlg/lapack+blas/xgemm.c means it, for column-major
    matrices and over exact numbers: where each element is, and what it becomes. */
module Gemm {
  import opened Arith

  /** The shape arguments of a call. */
  datatype Dims = Dims(ta: char, tb: char, m: int, n: int, k: int, lda: int, ldb: int, ldc: int)

  predicate NoTrans(t: char) { t == 'n' || t == 'N' }

  predicate Conj(t: char) { t == 'c' || t == 'C' }

  /** The leading dimensions have room for the columns. */
  predicate Leads(d: Dims) {
    && d.ldc >= d.m
    && (if NoTrans(d.ta) then d.lda >= d.m else d.lda >= d.k)
    && (if NoTrans(d.tb) then d.ldb >= d.k else d.ldb >= d.n)
  }

  /** The argument errors on which the routine returns at once. */
  predicate Rejected(d: Dims) {
    d.m <= 0 || d.n <= 0 || d.k <= 0 || !Leads(d)
  }

  // ---------- positions ----------

  function IncAi(d: Dims): int { if NoTrans(d.ta) then 1 else d.lda }
  function IncAih(d: Dims): int { if NoTrans(d.ta) then d.lda else 1 }
  function IncBj(d: Dims): int { if NoTrans(d.tb) then d.ldb else 1 }
  function IncBhj(d: Dims): int { if NoTrans(d.tb) then 1 else d.ldb }

  /** Where op(A)[i, h], op(B)[h, j] and C[i, j] are stored. */
  function PosA(d: Dims, i: int, h: int): int { if NoTrans(d.ta) then i + h * d.lda else h + i * d.lda }
  function PosB(d: Dims, h: int, j: int): int { if NoTrans(d.tb) then h + j * d.ldb else j + h * d.ldb }
  function PosC(d: Dims, i: int, j: int): int { i + j * d.ldc }

  /** Storage of la, lb and lc elements has room for the matrices. */
  ghost predicate Fit(d: Dims, la: int, lb: int, lc: int) {
    && (forall i, h {:trigger PosA(d, i, h)} :: 0 <= i < d.m && 0 <= h < d.k ==> 0 <= PosA(d, i, h) < la)
    && (forall h, j {:trigger PosB(d, h, j)} :: 0 <= h < d.k && 0 <= j < d.n ==> 0 <= PosB(d, h, j) < lb)
    && (forall i, j {:trigger PosC(d, i, j)} :: 0 <= i < d.m && 0 <= j < d.n ==> 0 <= PosC(d, i, j) < lc)
  }

  function Row(d: Dims, x: int): int
    requires d.ldc > 0
  {
    x % d.ldc
  }

  function Col(d: Dims, x: int): int
    requires d.ldc > 0
  {
    x / d.ldc
  }

  lemma PosOf(d: Dims, i: int, j: int)
    requires 0 <= i < d.m <= d.ldc
    ensures Row(d, PosC(d, i, j)) == i && Col(d, PosC(d, i, j)) == j
  {
    ModUnique(PosC(d, i, j), d.ldc, j, i);
  }

  lemma PosUnique(d: Dims, x: int)
    requires d.ldc > 0
    ensures x == PosC(d, Row(d, x), Col(d, x)) && 0 <= Row(d, x)
  {}

  /** One step along a row or a column of a factor is one increment. */
  lemma PosSteps(d: Dims, i: int, h: int, j: int)
    ensures PosA(d, i, h + 1) == PosA(d, i, h) + IncAih(d) && PosB(d, h + 1, j) == PosB(d, h, j) + IncBhj(d)
    ensures PosA(d, i + 1, 0) == PosA(d, i, 0) + IncAi(d) && PosB(d, 0, j + 1) == PosB(d, 0, j) + IncBj(d)
    ensures PosC(d, i, j + 1) == PosC(d, i, j) + d.ldc && PosC(d, i + 1, 0) == PosC(d, i, 0) + 1
    ensures PosA(d, 0, 0) == PosB(d, 0, 0) == PosC(d, 0, 0) == 0
  {
    assert (h + 1) * d.lda == h * d.lda + d.lda && (h + 1) * d.ldb == h * d.ldb + d.ldb;
    assert (i + 1) * d.lda == i * d.lda + d.lda && (j + 1) * d.ldb == j * d.ldb + d.ldb;
    assert (j + 1) * d.ldc == j * d.ldc + d.ldc;
  }

  /** Rows 0 to i - 1 of C have been written, and of row i the columns before j. */
  predicate Written(d: Dims, i: int, j: int, x: int)
    requires d.ldc > 0
  {
    Col(d, x) < d.n && (Row(d, x) < i || (Row(d, x) == i && Col(d, x) < j))
  }

  lemma WrittenSteps(d: Dims, i: int, j: int, x: int)
    requires 0 <= i < d.m <= d.ldc && 0 <= j < d.n && x >= 0
    ensures x != PosC(d, i, j) ==> Written(d, i, j + 1, x) == Written(d, i, j, x)
    ensures Written(d, i, j + 1, PosC(d, i, j)) && !Written(d, i, j, PosC(d, i, j))
    ensures Written(d, i, d.n, x) == Written(d, i + 1, 0, x)
    ensures !Written(d, 0, 0, x)
  {
    PosUnique(d, x);
    PosOf(d, i, j);
    assert Col(d, x) >= 0 by { assert x == d.ldc * (x / d.ldc) + x % d.ldc; MulSign(d.ldc, x / d.ldc); }
  }

  // ---------- real matrices ----------

  function At(s: seq<real>, x: int): real { if 0 <= x < |s| then s[x] else 0.0 }

  /** The first h terms of (op(A) * op(B))[i, j]. */
  function Dot(d: Dims, a: seq<real>, b: seq<real>, i: int, j: int, h: nat): real {
    if h == 0 then 0.0
    else Dot(d, a, b, i, j, h - 1) + At(a, PosA(d, i, h - 1)) * At(b, PosB(d, h - 1, j))
  }

  /** What a call makes of stored element x of C. */
  function Entry(d: Dims, alpha: real, a: seq<real>, b: seq<real>, beta: real, c: seq<real>, x: int): real
    requires !Rejected(d)
  {
    if Row(d, x) < d.m && Col(d, x) < d.n then
      Dot(d, a, b, Row(d, x), Col(d, x), d.k) * alpha + At(c, x) * beta
    else At(c, x)
  }

  function Result(d: Dims, alpha: real, a: seq<real>, b: seq<real>, beta: real, c: seq<real>): (r: seq<real>)
    ensures |r| == |c|
  {
    if Rejected(d) then c else seq(|c|, x => Entry(d, alpha, a, b, beta, c, x))
  }

  /** A call that is not rejected makes the m by n block of C alpha * op(A) * op(B) + beta * C and keeps
      what lies between its columns and after them. */
  lemma ResultIsProduct(d: Dims, alpha: real, a: seq<real>, b: seq<real>, beta: real, c: seq<real>, i: int, j: int)
    requires 0 <= j && 0 <= PosC(d, i, j) < |c|
    ensures Rejected(d) ==> Result(d, alpha, a, b, beta, c) == c
    ensures !Rejected(d) && 0 <= i < d.m && j < d.n ==>
      Result(d, alpha, a, b, beta, c)[PosC(d, i, j)] == alpha * Dot(d, a, b, i, j, d.k) + beta * c[PosC(d, i, j)]
    ensures d.m <= i < d.ldc || (0 <= i < d.ldc && j >= d.n) ==> Result(d, alpha, a, b, beta, c)[PosC(d, i, j)] == c[PosC(d, i, j)]
  {
    hide Dot, PosA, PosB, PosC, Entry;
    if !Rejected(d) && 0 <= i < d.ldc {
      EntryAt(d, alpha, a, b, beta, c, i, j);
    }
  }

  lemma EntryAt(d: Dims, alpha: real, a: seq<real>, b: seq<real>, beta: real, c: seq<real>, i: int, j: int)
    requires !Rejected(d) && 0 <= i < d.ldc && 0 <= j
    ensures Entry(d, alpha, a, b, beta, c, PosC(d, i, j)) ==
      if i < d.m && j < d.n then alpha * Dot(d, a, b, i, j, d.k) + beta * At(c, PosC(d, i, j)) else At(c, PosC(d, i, j))
  {
    ModUnique(PosC(d, i, j), d.ldc, j, i);
    assert Row(d, PosC(d, i, j)) == i && Col(d, PosC(d, i, j)) == j;
    hide Row, Col, PosC, Rejected, Dot, At;
  }

  /** Element (i, j) of C is stored and inside the block. */
  predicate InBlock(d: Dims, len: nat, i: int, j: int) {
    0 <= i < d.m && 0 <= j < d.n && PosC(d, i, j) < len
  }

  /** c' holds alpha * op(A) * op(B) + beta * C throughout the block; a product over no terms is 0. */
  ghost predicate HoldsProduct(d: Dims, alpha: real, a: seq<real>, b: seq<real>, beta: real, c: seq<real>, c': seq<real>) {
    forall i, j {:trigger PosC(d, i, j)} :: InBlock(d, |c|, i, j) ==>
      At(c', PosC(d, i, j)) == alpha * Dot(d, a, b, i, j, Max(d.k, 0)) + beta * At(c, PosC(d, i, j))
  }

  function Max(x: int, y: int): int { if x < y then y else x }

  ghost predicate ZeroBlock(d: Dims, c: seq<real>) {
    forall i, j {:trigger PosC(d, i, j)} :: InBlock(d, |c|, i, j) ==> At(c, PosC(d, i, j)) == 0.0
  }

  lemma PosCNonneg(d: Dims, i: int, j: int)
    requires 0 <= i < d.m <= d.ldc && 0 <= j
    ensures PosC(d, i, j) >= 0
  {}

  /** The promise in the comment of the routine, C <- alpha * op(A) * op(B) + beta * C, is kept exactly when
      there are terms to add up, beta is 1 or the block is zero. */
  lemma ProductIff(d: Dims, alpha: real, a: seq<real>, b: seq<real>, beta: real, c: seq<real>)
    requires Leads(d)
    ensures HoldsProduct(d, alpha, a, b, beta, c, Result(d, alpha, a, b, beta, c)) <==> d.k > 0 || beta == 1.0 || ZeroBlock(d, c)
  {
    var c' := Result(d, alpha, a, b, beta, c);
    hide Dot, PosA, PosB, Leads, Result, PosC;
    if d.k > 0 {
      forall i, j | InBlock(d, |c|, i, j)
        ensures At(c', PosC(d, i, j)) == alpha * Dot(d, a, b, i, j, d.k) + beta * At(c, PosC(d, i, j))
      {
        LeadsGive(d);
        PosCNonneg(d, i, j);
        ResultIsProduct(d, alpha, a, b, beta, c, i, j);
      }
    } else {
      RejectedKeeps(d, alpha, a, b, beta, c);
      NoTerms(d, alpha, a, b, beta, c);
    }
  }

  lemma LeadsGive(d: Dims)
    requires Leads(d)
    ensures d.m <= d.ldc
  {}

  lemma RejectedKeeps(d: Dims, alpha: real, a: seq<real>, b: seq<real>, beta: real, c: seq<real>)
    requires Rejected(d)
    ensures Result(d, alpha, a, b, beta, c) == c
  {}

  lemma NoTerms(d: Dims, alpha: real, a: seq<real>, b: seq<real>, beta: real, c: seq<real>)
    requires d.k <= 0
    ensures HoldsProduct(d, alpha, a, b, beta, c, c) <==> beta == 1.0 || ZeroBlock(d, c)
  {
    hide PosA, PosB, PosC, InBlock, At;
    if HoldsProduct(d, alpha, a, b, beta, c, c) && beta != 1.0 {
      forall i, j | InBlock(d, |c|, i, j)
        ensures At(c, PosC(d, i, j)) == 0.0
      {
        Fixed(beta, At(c, PosC(d, i, j)));
      }
    }
  }

  lemma Fixed(beta: real, x: real)
    requires x == beta * x && beta != 1.0
    ensures x == 0.0
  {
    assert (beta - 1.0) * x == 0.0;
  }

  /** Over all matrices C: the shape and beta alone decide. */
  lemma ProductIffForAll(d: Dims, alpha: real, a: seq<real>, b: seq<real>, beta: real)
    requires Leads(d)
    ensures (forall c {:trigger Result(d, alpha, a, b, beta, c)} :: HoldsProduct(d, alpha, a, b, beta, c, Result(d, alpha, a, b, beta, c))) <==>
      d.m <= 0 || d.n <= 0 || d.k > 0 || beta == 1.0
  {
    forall c
      ensures HoldsProduct(d, alpha, a, b, beta, c, Result(d, alpha, a, b, beta, c)) <==> d.k > 0 || beta == 1.0 || ZeroBlock(d, c)
    {
      ProductIff(d, alpha, a, b, beta, c);
    }
    hide Result, HoldsProduct, Leads;
    if d.m > 0 && d.n > 0 {
      assert InBlock(d, |[1.0]|, 0, 0);
      assert !ZeroBlock(d, [1.0]);
      assert HoldsProduct(d, alpha, a, b, beta, [1.0], Result(d, alpha, a, b, beta, [1.0])) <==> d.k > 0 || beta == 1.0;
    }
  }

  /** With no terms and beta 2 the single element 1 should become 2 and stays 1. */
  lemma EmptyProductKeepsC(alpha: real, a: seq<real>, b: seq<real>)
    ensures var d := Dims('n', 'n', 1, 1, 0, 1, 1, 1);
      && Leads(d) && Result(d, alpha, a, b, 2.0, [1.0]) == [1.0]
      && alpha * Dot(d, a, b, 0, 0, 0) + 2.0 * [1.0][PosC(d, 0, 0)] == 2.0
      && !HoldsProduct(d, alpha, a, b, 2.0, [1.0], [1.0])
  {
    var d := Dims('n', 'n', 1, 1, 0, 1, 1, 1);
    assert InBlock(d, 1, 0, 0);
    var p := PosC(d, 0, 0);
  }

  // ---------- transposed storage ----------

  /** The matrix stored in s with leading dimension ld, stored transposed with leading dimension ld' in cols
      columns. */
  function Transposed(s: seq<real>, ld: int, ld': nat, cols: nat): (r: seq<real>)
    ensures |r| == ld' * cols
  {
    seq(ld' * cols, y requires 0 <= y < ld' * cols => TransposedAt(s, ld, ld', y))
  }

  function TransposedAt(s: seq<real>, ld: int, ld': nat, y: nat): real {
    if ld' == 0 then 0.0 else At(s, y / ld' + (y % ld') * ld)
  }

  lemma TransposedElement(s: seq<real>, ld: int, ld': nat, cols: nat, p: nat, q: nat)
    requires p < ld' && q < cols
    ensures At(Transposed(s, ld, ld', cols), p + q * ld') == At(s, q + p * ld)
  {
    var y := p + q * ld';
    ModUnique(y, ld', q, p);
    assert y < ld' * cols by {
      assert ld' * (q + 1) == ld' * q + ld';
      MulSign(ld', cols - (q + 1));
      assert ld' * (cols - (q + 1)) == ld' * cols - ld' * (q + 1);
    }
  }

  /** Transposing the storage twice gives back every element of the matrix. */
  lemma TransposedTwice(s: seq<real>, ld: nat, ld': nat, p: nat, q: nat, cols: nat)
    requires p < ld && q < cols <= ld'
    ensures At(Transposed(Transposed(s, ld, ld', ld), ld', ld, cols), p + q * ld) == At(s, p + q * ld)
  {
    hide Transposed, At;
    TransposedElement(Transposed(s, ld, ld', ld), ld', ld, cols, p, q);
    TransposedElement(s, ld, ld', ld, q, p);
  }

  /** The shape arguments when A, or B, is stored transposed with a leading dimension of its own. */
  ghost predicate FlippedA(d: Dims, e: Dims) {
    e == d.(ta := e.ta, lda := e.lda) && NoTrans(e.ta) == !NoTrans(d.ta) && e.lda >= if NoTrans(e.ta) then d.m else d.k
  }

  ghost predicate FlippedB(d: Dims, e: Dims) {
    e == d.(tb := e.tb, ldb := e.ldb) && NoTrans(e.tb) == !NoTrans(d.tb) && e.ldb >= if NoTrans(e.tb) then d.k else d.n
  }

  function FlipA(d: Dims, e: Dims, a: seq<real>): seq<real>
    requires d.m >= 0 && d.k >= 0 && e.lda >= 0
  {
    Transposed(a, d.lda, e.lda, if NoTrans(e.ta) then d.k else d.m)
  }

  function FlipB(d: Dims, e: Dims, b: seq<real>): seq<real>
    requires d.n >= 0 && d.k >= 0 && e.ldb >= 0
  {
    Transposed(b, d.ldb, e.ldb, if NoTrans(e.tb) then d.n else d.k)
  }

  lemma FlipAElement(d: Dims, e: Dims, a: seq<real>, i: int, h: int)
    requires FlippedA(d, e) && 0 <= i < d.m && 0 <= h < d.k
    ensures At(FlipA(d, e, a), PosA(e, i, h)) == At(a, PosA(d, i, h))
  {
    hide Transposed, At;
    if NoTrans(e.ta) {
      TransposedElement(a, d.lda, e.lda, d.k, i, h);
    } else {
      TransposedElement(a, d.lda, e.lda, d.m, h, i);
    }
  }

  lemma FlipBElement(d: Dims, e: Dims, b: seq<real>, h: int, j: int)
    requires FlippedB(d, e) && 0 <= j < d.n && 0 <= h < d.k
    ensures At(FlipB(d, e, b), PosB(e, h, j)) == At(b, PosB(d, h, j))
  {
    hide Transposed, At;
    if NoTrans(e.tb) {
      TransposedElement(b, d.ldb, e.ldb, d.n, h, j);
    } else {
      TransposedElement(b, d.ldb, e.ldb, d.k, j, h);
    }
  }

  lemma DotStep(d: Dims, e: Dims, a: seq<real>, a': seq<real>, b: seq<real>, b': seq<real>, i: int, j: int, h: nat)
    requires h > 0 && Dot(e, a', b', i, j, h - 1) == Dot(d, a, b, i, j, h - 1)
    requires At(a', PosA(e, i, h - 1)) == At(a, PosA(d, i, h - 1)) && At(b', PosB(e, h - 1, j)) == At(b, PosB(d, h - 1, j))
    ensures Dot(e, a', b', i, j, h) == Dot(d, a, b, i, j, h)
  {
    hide At, PosA, PosB;
    var s, x, y := Dot(d, a, b, i, j, h - 1), At(a, PosA(d, i, h - 1)), At(b, PosB(d, h - 1, j));
    assert Dot(d, a, b, i, j, h) == s + x * y;
    assert Dot(e, a', b', i, j, h) == s + x * y;
  }

  lemma OtherFactor(d: Dims, e: Dims, i: int, h: int, j: int)
    ensures FlippedA(d, e) ==> PosB(e, h, j) == PosB(d, h, j)
    ensures FlippedB(d, e) ==> PosA(e, i, h) == PosA(d, i, h)
  {}

  lemma {:induction false} DotFlipA(d: Dims, e: Dims, a: seq<real>, b: seq<real>, i: int, j: int, h: nat)
    requires FlippedA(d, e) && 0 <= i < d.m && h <= d.k
    ensures Dot(e, FlipA(d, e, a), b, i, j, h) == Dot(d, a, b, i, j, h)
  {
    if h > 0 {
      hide FlipA, At, PosA, PosB;
      DotFlipA(d, e, a, b, i, j, h - 1);
      FlipAElement(d, e, a, i, h - 1);
      OtherFactor(d, e, i, h - 1, j);
      DotStep(d, e, a, FlipA(d, e, a), b, b, i, j, h);
    }
  }

  lemma {:induction false} DotFlipB(d: Dims, e: Dims, a: seq<real>, b: seq<real>, i: int, j: int, h: nat)
    requires FlippedB(d, e) && 0 <= j < d.n && h <= d.k
    ensures Dot(e, a, FlipB(d, e, b), i, j, h) == Dot(d, a, b, i, j, h)
  {
    if h > 0 {
      hide FlipB, At, PosA, PosB;
      DotFlipB(d, e, a, b, i, j, h - 1);
      FlipBElement(d, e, b, h - 1, j);
      OtherFactor(d, e, i, h - 1, j);
      DotStep(d, e, a, a, b, FlipB(d, e, b), i, j, h);
    }
  }

  lemma SameResult(d: Dims, e: Dims, alpha: real, a: seq<real>, a': seq<real>, b: seq<real>, b': seq<real>, beta: real, c: seq<real>)
    requires !Rejected(d) && !Rejected(e) && e == d.(ta := e.ta, lda := e.lda, tb := e.tb, ldb := e.ldb)
    requires forall i, j {:trigger Dot(e, a', b', i, j, d.k)} :: 0 <= i < d.m && 0 <= j < d.n ==>
      Dot(e, a', b', i, j, d.k) == Dot(d, a, b, i, j, d.k)
    ensures Result(e, alpha, a', b', beta, c) == Result(d, alpha, a, b, beta, c)
  {
    hide Dot, Row, Col;
    forall x | 0 <= x < |c|
      ensures Entry(e, alpha, a', b', beta, c, x) == Entry(d, alpha, a, b, beta, c, x)
    {
      CellOf(d, e, x);
    }
  }

  lemma CellOf(d: Dims, e: Dims, x: nat)
    requires d.ldc == e.ldc > 0
    ensures Row(d, x) == Row(e, x) >= 0 && Col(d, x) == Col(e, x) >= 0
  {}

  /** A factor stored transposed, with its flag flipped and any leading dimension that has room, gives the
      same C. */
  lemma TransposedFactors(d: Dims, e: Dims, f: Dims, alpha: real, a: seq<real>, b: seq<real>, beta: real, c: seq<real>)
    requires !Rejected(d) && FlippedA(d, e) && FlippedB(d, f)
    ensures Result(e, alpha, FlipA(d, e, a), b, beta, c) == Result(d, alpha, a, b, beta, c)
    ensures Result(f, alpha, a, FlipB(d, f, b), beta, c) == Result(d, alpha, a, b, beta, c)
    ensures Result(e.(tb := f.tb, ldb := f.ldb), alpha, FlipA(d, e, a), FlipB(d, f, b), beta, c) == Result(d, alpha, a, b, beta, c)
  {
    TransposedA(d, e, alpha, a, b, beta, c);
    TransposedB(d, f, alpha, a, b, beta, c);
    var g := e.(tb := f.tb, ldb := f.ldb);
    assert FlipB(e, g, b) == FlipB(d, f, b);
    TransposedB(e, g, alpha, FlipA(d, e, a), b, beta, c);
  }

  lemma TransposedA(d: Dims, e: Dims, alpha: real, a: seq<real>, b: seq<real>, beta: real, c: seq<real>)
    requires !Rejected(d) && FlippedA(d, e)
    ensures Result(e, alpha, FlipA(d, e, a), b, beta, c) == Result(d, alpha, a, b, beta, c) && !Rejected(e)
  {
    var a' := FlipA(d, e, a);
    hide FlipA, Dot;
    forall i, j | 0 <= i < d.m && 0 <= j < d.n
      ensures Dot(e, a', b, i, j, d.k) == Dot(d, a, b, i, j, d.k)
    {
      DotFlipA(d, e, a, b, i, j, d.k);
    }
    SameResult(d, e, alpha, a, a', b, b, beta, c);
  }

  lemma TransposedB(d: Dims, e: Dims, alpha: real, a: seq<real>, b: seq<real>, beta: real, c: seq<real>)
    requires !Rejected(d) && FlippedB(d, e)
    ensures Result(e, alpha, a, FlipB(d, e, b), beta, c) == Result(d, alpha, a, b, beta, c) && !Rejected(e)
  {
    var b' := FlipB(d, e, b);
    hide FlipB, Dot;
    forall i, j | 0 <= i < d.m && 0 <= j < d.n
      ensures Dot(e, a, b', i, j, d.k) == Dot(d, a, b, i, j, d.k)
    {
      DotFlipB(d, e, a, b, i, j, d.k);
    }
    SameResult(d, e, alpha, a, a, b, b', beta, c);
  }

  // ---------- complex matrices ----------

  datatype Complex = Complex(re: real, im: real)

  const CZERO := Complex(0.0, 0.0)

  const CONE := Complex(1.0, 0.0)

  function Add(x: Complex, y: Complex): Complex { Complex(x.re + y.re, x.im + y.im) }

  function Mul(x: Complex, y: Complex): Complex { Complex(x.re * y.re - x.im * y.im, x.re * y.im + x.im * y.re) }

  function Bar(x: Complex): Complex { Complex(x.re, -x.im) }

  /** Element x of an array of pairs. */
  function CAt(s: seq<real>, x: int): Complex { Complex(At(s, 2 * x), At(s, 2 * x + 1)) }

  /** ... conjugated just when the flag says so. */
  function COp(t: char, z: Complex): Complex { if Conj(t) then Bar(z) else z }

  function CDot(d: Dims, a: seq<real>, b: seq<real>, i: int, j: int, h: nat): Complex {
    if h == 0 then CZERO
    else Add(CDot(d, a, b, i, j, h - 1), Mul(COp(d.ta, CAt(a, PosA(d, i, h - 1))), COp(d.tb, CAt(b, PosB(d, h - 1, j)))))
  }

  function CEntry(d: Dims, alpha: Complex, a: seq<real>, b: seq<real>, beta: Complex, c: seq<real>, x: int): Complex
    requires !Rejected(d)
  {
    if Row(d, x) < d.m && Col(d, x) < d.n then
      Add(Mul(CDot(d, a, b, Row(d, x), Col(d, x), d.k), alpha), Mul(CAt(c, x), beta))
    else CAt(c, x)
  }

  /** c' is c after a call. */
  ghost predicate CResult(d: Dims, alpha: Complex, a: seq<real>, b: seq<real>, beta: Complex, c: seq<real>,
          c': seq<real>) {
    if Rejected(d) then c' == c
    else
      && |c'| == |c|
      && (forall x {:trigger CAt(c', x)} :: 0 <= x && 2 * x + 1 < |c| ==> CAt(c', x) == CEntry(d, alpha, a, b, beta, c, x))
      && (|c| % 2 == 1 ==> c'[|c| - 1] == c[|c| - 1])
  }

  /** The complex counterpart of ResultIsProduct. */
  lemma CResultIsProduct(d: Dims, alpha: Complex, a: seq<real>, b: seq<real>, beta: Complex, c: seq<real>,
          c': seq<real>, i: int, j: int)
    requires CResult(d, alpha, a, b, beta, c, c') && 0 <= j && 0 <= 2 * PosC(d, i, j) < |c| - 1
    ensures Rejected(d) ==> c' == c
    ensures !Rejected(d) && 0 <= i < d.m && j < d.n ==>
      CAt(c', PosC(d, i, j)) == Add(Mul(alpha, CDot(d, a, b, i, j, d.k)), Mul(beta, CAt(c, PosC(d, i, j))))
    ensures d.m <= i < d.ldc || (0 <= i < d.ldc && j >= d.n) ==> CAt(c', PosC(d, i, j)) == CAt(c, PosC(d, i, j))
  {
    hide CDot, PosA, PosB, PosC, CAt, Mul, Add, CEntry;
    if !Rejected(d) && 0 <= i < d.ldc {
      CEntryAt(d, alpha, a, b, beta, c, i, j);
    }
  }

  lemma CEntryAt(d: Dims, alpha: Complex, a: seq<real>, b: seq<real>, beta: Complex, c: seq<real>, i: int, j: int)
    requires !Rejected(d) && 0 <= i < d.ldc && 0 <= j
    ensures CEntry(d, alpha, a, b, beta, c, PosC(d, i, j)) ==
      if i < d.m && j < d.n then Add(Mul(alpha, CDot(d, a, b, i, j, d.k)), Mul(beta, CAt(c, PosC(d, i, j))))
      else CAt(c, PosC(d, i, j))
  {
    ModUnique(PosC(d, i, j), d.ldc, j, i);
    assert Row(d, PosC(d, i, j)) == i && Col(d, PosC(d, i, j)) == j;
    hide Row, Col, PosC, CDot, CAt, Mul, Add;
    MulCommutes(alpha, CDot(d, a, b, i, j, d.k));
    MulCommutes(beta, CAt(c, PosC(d, i, j)));
  }

  lemma MulCommutes(x: Complex, y: Complex)
    ensures Mul(x, y) == Mul(y, x)
  {}

  ghost predicate CHoldsProduct(d: Dims, alpha: Complex, a: seq<real>, b: seq<real>, beta: Complex, c: seq<real>,
          c': seq<real>) {
    forall i, j {:trigger PosC(d, i, j)} :: InBlock(d, |c| / 2, i, j) ==>
      CAt(c', PosC(d, i, j)) == Add(Mul(alpha, CDot(d, a, b, i, j, Max(d.k, 0))), Mul(beta, CAt(c, PosC(d, i, j))))
  }

  ghost predicate CZeroBlock(d: Dims, c: seq<real>) {
    forall i, j {:trigger PosC(d, i, j)} :: InBlock(d, |c| / 2, i, j) ==> CAt(c, PosC(d, i, j)) == CZERO
  }

  /** ... and of ProductIff. */
  lemma CProductIff(d: Dims, alpha: Complex, a: seq<real>, b: seq<real>, beta: Complex, c: seq<real>, c': seq<real>)
    requires Leads(d) && CResult(d, alpha, a, b, beta, c, c')
    ensures CHoldsProduct(d, alpha, a, b, beta, c, c') <==> d.k > 0 || beta == CONE || CZeroBlock(d, c)
  {
    hide CDot, PosA, PosB, Leads, CResult, PosC, CAt, Mul, Add;
    if d.k > 0 {
      forall i, j | InBlock(d, |c| / 2, i, j)
        ensures CAt(c', PosC(d, i, j)) == Add(Mul(alpha, CDot(d, a, b, i, j, d.k)), Mul(beta, CAt(c, PosC(d, i, j))))
      {
        LeadsGive(d);
        PosCNonneg(d, i, j);
        CResultIsProduct(d, alpha, a, b, beta, c, c', i, j);
      }
    } else {
      CRejectedKeeps(d, alpha, a, b, beta, c, c');
      CNoTerms(d, alpha, a, b, beta, c);
    }
  }

  lemma CRejectedKeeps(d: Dims, alpha: Complex, a: seq<real>, b: seq<real>, beta: Complex, c: seq<real>, c': seq<real>)
    requires Rejected(d) && CResult(d, alpha, a, b, beta, c, c')
    ensures c' == c
  {}

  lemma CNoTerms(d: Dims, alpha: Complex, a: seq<real>, b: seq<real>, beta: Complex, c: seq<real>)
    requires d.k <= 0
    ensures CHoldsProduct(d, alpha, a, b, beta, c, c) <==> beta == CONE || CZeroBlock(d, c)
  {
    forall i, j
      ensures CDot(d, a, b, i, j, Max(d.k, 0)) == CZERO
      ensures CAt(c, PosC(d, i, j)) == Add(Mul(alpha, CZERO), Mul(beta, CAt(c, PosC(d, i, j)))) <==> beta == CONE || CAt(c, PosC(d, i, j)) == CZERO
    {
      CFixed(alpha, beta, CAt(c, PosC(d, i, j)));
    }
  }

  /** alpha * 0 + beta * z is z just when beta is 1 or z is 0. */
  lemma CFixed(alpha: Complex, beta: Complex, z: Complex)
    ensures z == Add(Mul(alpha, CZERO), Mul(beta, z)) <==> beta == CONE || z == CZERO
  {
    var x, y := beta.re - 1.0, beta.im;
    if z == Add(Mul(alpha, CZERO), Mul(beta, z)) {
      assert x * z.re == y * z.im && x * z.im == -(y * z.re);
      NoZeroDivisors(x, y, z.re, z.im);
    }
  }

  lemma NoZeroDivisors(x: real, y: real, u: real, v: real)
    requires x * u == y * v && x * v == -(y * u)
    ensures (x == 0.0 && y == 0.0) || (u == 0.0 && v == 0.0)
  {
    assert x * x * u == x * (x * u) == x * (y * v) == y * (x * v) == y * (-(y * u)) == -(y * y * u);
    assert x * x * v == x * (x * v) == x * (-(y * u)) == -(y * (x * u)) == -(y * (y * v)) == -(y * y * v);
    assert (x * x + y * y) * u == 0.0 && (x * x + y * y) * v == 0.0;
    Square(x);
    Square(y);
  }

  lemma Positive(x: real, y: real)
    requires x > 0.0 && y > 0.0
    ensures x * y > 0.0
  {}

  lemma Square(x: real)
    ensures if x == 0.0 then x * x == 0.0 else x * x > 0.0
  {
    if x < 0.0 {
      Positive(-x, -x);
      assert x * x == -x * -x;
    } else if x > 0.0 {
      Positive(x, x);
    }
  }

  lemma BarOfMul(x: Complex, y: Complex)
    ensures Bar(Mul(x, y)) == Mul(Bar(x), Bar(y))
  {}

  /** With both factors conjugated the product is the conjugate of the plain transposed one. */
  lemma {:induction false} ConjugateProduct(d: Dims, a: seq<real>, b: seq<real>, i: int, j: int, h: nat)
    requires Conj(d.ta) && Conj(d.tb)
    ensures CDot(d, a, b, i, j, h) == Bar(CDot(d.(ta := 't', tb := 't'), a, b, i, j, h))
  {
    if h > 0 {
      var e := d.(ta := 't', tb := 't');
      CDotLast(d, a, b, i, j, h);
      CDotLast(e, a, b, i, j, h);
      hide Mul, Add, Bar, CAt, PosA, PosB, CDot;
      SamePositions(d, e, i, h - 1, j);
      ConjugateProduct(d, a, b, i, j, h - 1);
      BarStep(CDot(e, a, b, i, j, h - 1), CAt(a, PosA(d, i, h - 1)), CAt(b, PosB(d, h - 1, j)));
    }
  }

  lemma CDotLast(d: Dims, a: seq<real>, b: seq<real>, i: int, j: int, h: nat)
    requires h > 0
    ensures CDot(d, a, b, i, j, h) ==
      Add(CDot(d, a, b, i, j, h - 1), Mul(COp(d.ta, CAt(a, PosA(d, i, h - 1))), COp(d.tb, CAt(b, PosB(d, h - 1, j)))))
  {}

  lemma SamePositions(d: Dims, e: Dims, i: int, h: int, j: int)
    requires e == d.(ta := e.ta, tb := e.tb) && NoTrans(e.ta) == NoTrans(d.ta) && NoTrans(e.tb) == NoTrans(d.tb)
    ensures PosA(e, i, h) == PosA(d, i, h) && PosB(e, h, j) == PosB(d, h, j)
  {}

  lemma BarStep(s: Complex, x: Complex, y: Complex)
    ensures Bar(Add(s, Mul(x, y))) == Add(Bar(s), Mul(Bar(x), Bar(y)))
  {
    BarOfMul(x, y);
  }
}
