/** What the flags of a GEMM call mean, by stored positions and literal characters: the product as a plain
    sum, the argument tests, and the identity matrix on either side. */
module GemmMeaning {
  import opened Arith
  import opened Gemm

  // ---------- real matrices ----------

  /** Element (p, q) of a matrix stored by columns at distance ld. */
  function Stored(s: seq<real>, ld: int, p: int, q: int): real {
    if 0 <= p + q * ld < |s| then s[p + q * ld] else 0.0
  }

  /** The sum over h < n of the products of row i of op(A) and column j of op(B): 'n' and 'N' take a factor as it
      is stored, every other flag takes it transposed. */
  function Sum(ta: char, a: seq<real>, lda: int, tb: char, b: seq<real>, ldb: int, i: int, j: int, n: nat): real {
    if n == 0 then 0.0
    else
      var h := n - 1;
      Sum(ta, a, lda, tb, b, ldb, i, j, h)
        + (if ta == 'n' || ta == 'N' then Stored(a, lda, i, h) else Stored(a, lda, h, i))
        * (if tb == 'n' || tb == 'N' then Stored(b, ldb, h, j) else Stored(b, ldb, j, h))
  }

  /** The argument tests, spelled out. */
  lemma RejectedMeans(d: Dims)
    ensures Rejected(d) <==>
      || d.m <= 0 || d.n <= 0 || d.k <= 0 || d.ldc < d.m
      || d.lda < (if d.ta == 'n' || d.ta == 'N' then d.m else d.k)
      || d.ldb < (if d.tb == 'n' || d.tb == 'N' then d.k else d.n)
  {}

  lemma {:induction false} DotIsSum(d: Dims, a: seq<real>, b: seq<real>, i: int, j: int, n: nat)
    ensures Dot(d, a, b, i, j, n) == Sum(d.ta, a, d.lda, d.tb, b, d.ldb, i, j, n)
  {
    if n > 0 { DotIsSum(d, a, b, i, j, n - 1); }
  }

  /** An accepted call makes stored element i + j * ldc of C alpha times that sum plus beta times what it was. */
  lemma ResultMeans(d: Dims, alpha: real, a: seq<real>, b: seq<real>, beta: real, c: seq<real>, i: int, j: int, x: int)
    requires !Rejected(d) && 0 <= i < d.m && 0 <= j < d.n && x == i + j * d.ldc && 0 <= x < |c|
    ensures Result(d, alpha, a, b, beta, c)[x] == alpha * Sum(d.ta, a, d.lda, d.tb, b, d.ldb, i, j, d.k) + beta * c[x]
  {
    ResultMix(d, alpha, a, b, beta, c, i, j, x);
    hide Sum, Result;
  }

  function Mix(alpha: real, x: real, beta: real, y: real): real { alpha * x + beta * y }

  lemma ResultMix(d: Dims, alpha: real, a: seq<real>, b: seq<real>, beta: real, c: seq<real>, i: int, j: int, x: int)
    requires !Rejected(d) && 0 <= i < d.m && 0 <= j < d.n && x == i + j * d.ldc && 0 <= x < |c|
    ensures d.k > 0
    ensures Result(d, alpha, a, b, beta, c)[x] == Mix(alpha, Sum(d.ta, a, d.lda, d.tb, b, d.ldb, i, j, d.k), beta, c[x])
  {
    PositiveK(d);
    PosCMeans(d, i, j);
    hide Dot, Sum, Rejected, Result, PosC, Mix;
    DotIsSum(d, a, b, i, j, d.k);
    DotMix(d, alpha, a, b, beta, c, i, j);
  }

  lemma DotMix(d: Dims, alpha: real, a: seq<real>, b: seq<real>, beta: real, c: seq<real>, i: int, j: int)
    requires !Rejected(d) && d.k > 0 && 0 <= i < d.m && 0 <= j < d.n && 0 <= PosC(d, i, j) < |c|
    ensures Result(d, alpha, a, b, beta, c)[PosC(d, i, j)] == Mix(alpha, Dot(d, a, b, i, j, d.k), beta, c[PosC(d, i, j)])
  {
    hide Dot, Rejected, Result, PosC;
    ResultIsProduct(d, alpha, a, b, beta, c, i, j);
  }

  lemma PositiveK(d: Dims)
    requires !Rejected(d)
    ensures d.k > 0
  {}

  lemma PosCMeans(d: Dims, i: int, j: int)
    ensures PosC(d, i, j) == i + j * d.ldc
  {}

  /** The first k rows and columns of b are those of the identity. */
  ghost predicate Identity(b: seq<real>, ld: int, k: int) {
    forall p, q :: 0 <= p < k && 0 <= q < k ==> Stored(b, ld, p, q) == if p == q then 1.0 else 0.0
  }

  lemma {:induction false} SumWithB(ta: char, a: seq<real>, lda: int, tb: char, b: seq<real>, ldb: int, i: int, j: int,
                                    k: int, n: nat)
    requires Identity(b, ldb, k) && 0 <= j < k && n <= k
    ensures Sum(ta, a, lda, tb, b, ldb, i, j, n) ==
      if j >= n then 0.0 else if ta == 'n' || ta == 'N' then Stored(a, lda, i, j) else Stored(a, lda, j, i)
  {
    if n > 0 {
      SumWithB(ta, a, lda, tb, b, ldb, i, j, k, n - 1);
      hide Stored;
      assert Stored(b, ldb, n - 1, j) == Stored(b, ldb, j, n - 1) == if j == n - 1 then 1.0 else 0.0;
    }
  }

  lemma {:induction false} SumWithA(ta: char, a: seq<real>, lda: int, tb: char, b: seq<real>, ldb: int, i: int, j: int,
                                    k: int, n: nat)
    requires Identity(a, lda, k) && 0 <= i < k && n <= k
    ensures Sum(ta, a, lda, tb, b, ldb, i, j, n) ==
      if i >= n then 0.0 else if tb == 'n' || tb == 'N' then Stored(b, ldb, i, j) else Stored(b, ldb, j, i)
  {
    if n > 0 {
      SumWithA(ta, a, lda, tb, b, ldb, i, j, k, n - 1);
      hide Stored;
      assert Stored(a, lda, n - 1, i) == Stored(a, lda, i, n - 1) == if i == n - 1 then 1.0 else 0.0;
    }
  }

  /** With the identity for B the block of C becomes A as it is stored for 'n' and 'N', and A transposed
      for every other flag. */
  lemma TimesIdentity(d: Dims, a: seq<real>, b: seq<real>, c: seq<real>, i: int, j: int, x: int)
    requires !Rejected(d) && d.n == d.k && Identity(b, d.ldb, d.k) && 0 <= i < d.m && 0 <= j < d.n
    requires x == i + j * d.ldc && 0 <= x < |c|
    ensures Result(d, 1.0, a, b, 0.0, c)[x] ==
      if d.ta == 'n' || d.ta == 'N' then Stored(a, d.lda, i, j) else Stored(a, d.lda, j, i)
  {
    ResultMeans(d, 1.0, a, b, 0.0, c, i, j, x);
    SumWithB(d.ta, a, d.lda, d.tb, b, d.ldb, i, j, d.k, d.k);
  }

  /** ... and with the identity for A it becomes B, or B transposed. */
  lemma IdentityTimes(d: Dims, a: seq<real>, b: seq<real>, c: seq<real>, i: int, j: int, x: int)
    requires !Rejected(d) && d.m == d.k && Identity(a, d.lda, d.k) && 0 <= i < d.m && 0 <= j < d.n
    requires x == i + j * d.ldc && 0 <= x < |c|
    ensures Result(d, 1.0, a, b, 0.0, c)[x] ==
      if d.tb == 'n' || d.tb == 'N' then Stored(b, d.ldb, i, j) else Stored(b, d.ldb, j, i)
  {
    ResultMeans(d, 1.0, a, b, 0.0, c, i, j, x);
    SumWithA(d.ta, a, d.lda, d.tb, b, d.ldb, i, j, d.k, d.k);
  }

  // ---------- complex matrices ----------

  /** Element (p, q) of a matrix of pairs. */
  function CStored(s: seq<real>, ld: int, p: int, q: int): Complex {
    var x := 2 * (p + q * ld);
    Complex(if 0 <= x < |s| then s[x] else 0.0, if 0 <= x + 1 < |s| then s[x + 1] else 0.0)
  }

  /** 'c' and 'C' conjugate, and only they. */
  function Conjugated(t: char, z: Complex): Complex {
    if t == 'c' || t == 'C' then Complex(z.re, -z.im) else z
  }

  function CSum(ta: char, a: seq<real>, lda: int, tb: char, b: seq<real>, ldb: int, i: int, j: int, n: nat): Complex {
    if n == 0 then Complex(0.0, 0.0)
    else
      var h := n - 1;
      var s := CSum(ta, a, lda, tb, b, ldb, i, j, h);
      var x := Conjugated(ta, if ta == 'n' || ta == 'N' then CStored(a, lda, i, h) else CStored(a, lda, h, i));
      var y := Conjugated(tb, if tb == 'n' || tb == 'N' then CStored(b, ldb, h, j) else CStored(b, ldb, j, h));
      Complex(s.re + (x.re * y.re - x.im * y.im), s.im + (x.re * y.im + x.im * y.re))
  }

  lemma {:induction false} CDotIsSum(d: Dims, a: seq<real>, b: seq<real>, i: int, j: int, n: nat)
    ensures CDot(d, a, b, i, j, n) == CSum(d.ta, a, d.lda, d.tb, b, d.ldb, i, j, n)
  {
    if n > 0 {
      var h := n - 1;
      CDotIsSum(d, a, b, i, j, h);
      FactorsAre(d, a, b, i, h, j);
      CDotLast(d, a, b, i, j, n);
      CSumLast(d.ta, a, d.lda, d.tb, b, d.ldb, i, j, n);
      hide *;
    }
  }

  lemma FactorsAre(d: Dims, a: seq<real>, b: seq<real>, i: int, h: int, j: int)
    ensures COp(d.ta, CAt(a, PosA(d, i, h))) ==
      Conjugated(d.ta, if d.ta == 'n' || d.ta == 'N' then CStored(a, d.lda, i, h) else CStored(a, d.lda, h, i))
    ensures COp(d.tb, CAt(b, PosB(d, h, j))) ==
      Conjugated(d.tb, if d.tb == 'n' || d.tb == 'N' then CStored(b, d.ldb, h, j) else CStored(b, d.ldb, j, h))
  {}

  lemma CSumLast(ta: char, a: seq<real>, lda: int, tb: char, b: seq<real>, ldb: int, i: int, j: int, n: nat)
    requires n > 0
    ensures CSum(ta, a, lda, tb, b, ldb, i, j, n) ==
      Add(CSum(ta, a, lda, tb, b, ldb, i, j, n - 1),
          Mul(Conjugated(ta, if ta == 'n' || ta == 'N' then CStored(a, lda, i, n - 1) else CStored(a, lda, n - 1, i)),
              Conjugated(tb, if tb == 'n' || tb == 'N' then CStored(b, ldb, n - 1, j) else CStored(b, ldb, j, n - 1))))
  {
    hide Conjugated, CStored;
  }

  /** The complex counterpart of ResultMeans, by the two parts of the stored element. */
  lemma CResultMeans(d: Dims, alpha: Complex, a: seq<real>, b: seq<real>, beta: Complex, c: seq<real>, c': seq<real>,
                     i: int, j: int, x: int)
    requires !Rejected(d) && CResult(d, alpha, a, b, beta, c, c')
    requires 0 <= i < d.m && 0 <= j < d.n && x == 2 * (i + j * d.ldc) && 0 <= x < |c| - 1
    ensures |c'| == |c|
    ensures var s := CSum(d.ta, a, d.lda, d.tb, b, d.ldb, i, j, d.k);
      && c'[x] == (alpha.re * s.re - alpha.im * s.im) + (beta.re * c[x] - beta.im * c[x + 1])
      && c'[x + 1] == (alpha.re * s.im + alpha.im * s.re) + (beta.re * c[x + 1] + beta.im * c[x])
  {
    CResultMix(d, alpha, a, b, beta, c, c', i, j, x);
    hide CSum, CResult, Rejected, Add, Mul;
    PartsAre(alpha, CSum(d.ta, a, d.lda, d.tb, b, d.ldb, i, j, d.k), beta, Complex(c[x], c[x + 1]));
  }

  lemma CResultMix(d: Dims, alpha: Complex, a: seq<real>, b: seq<real>, beta: Complex, c: seq<real>, c': seq<real>,
                   i: int, j: int, x: int)
    requires !Rejected(d) && CResult(d, alpha, a, b, beta, c, c')
    requires 0 <= i < d.m && 0 <= j < d.n && x == 2 * (i + j * d.ldc) && 0 <= x < |c| - 1
    ensures d.k > 0 && |c'| == |c|
    ensures Complex(c'[x], c'[x + 1]) ==
      Add(Mul(alpha, CSum(d.ta, a, d.lda, d.tb, b, d.ldb, i, j, d.k)), Mul(beta, Complex(c[x], c[x + 1])))
  {
    PositiveK(d);
    PosCMeans(d, i, j);
    CResultLength(d, alpha, a, b, beta, c, c');
    hide CDot, CSum, Rejected, CResult, PosC, CAt, Add, Mul;
    CDotIsSum(d, a, b, i, j, d.k);
    CResultIsProduct(d, alpha, a, b, beta, c, c', i, j);
    PairIs(c, PosC(d, i, j), x);
    PairIs(c', PosC(d, i, j), x);
  }

  lemma PairIs(s: seq<real>, p: int, x: int)
    requires x == 2 * p && 0 <= x < |s| - 1
    ensures CAt(s, p) == Complex(s[x], s[x + 1])
  {}

  lemma PartsAre(alpha: Complex, s: Complex, beta: Complex, z: Complex)
    ensures var r := Add(Mul(alpha, s), Mul(beta, z));
      && r.re == (alpha.re * s.re - alpha.im * s.im) + (beta.re * z.re - beta.im * z.im)
      && r.im == (alpha.re * s.im + alpha.im * s.re) + (beta.re * z.im + beta.im * z.re)
  {}

  lemma CResultLength(d: Dims, alpha: Complex, a: seq<real>, b: seq<real>, beta: Complex, c: seq<real>, c': seq<real>)
    requires CResult(d, alpha, a, b, beta, c, c')
    ensures |c'| == |c|
  {}

  ghost predicate CIdentity(b: seq<real>, ld: int, k: int) {
    forall p, q :: 0 <= p < k && 0 <= q < k ==> CStored(b, ld, p, q) == Complex(if p == q then 1.0 else 0.0, 0.0)
  }

  lemma {:induction false} CSumWithB(ta: char, a: seq<real>, lda: int, tb: char, b: seq<real>, ldb: int, i: int, j: int,
                                     k: int, n: nat)
    requires CIdentity(b, ldb, k) && 0 <= j < k && n <= k
    ensures CSum(ta, a, lda, tb, b, ldb, i, j, n) ==
      if j >= n then Complex(0.0, 0.0)
      else Conjugated(ta, if ta == 'n' || ta == 'N' then CStored(a, lda, i, j) else CStored(a, lda, j, i))
  {
    if n > 0 {
      CSumWithB(ta, a, lda, tb, b, ldb, i, j, k, n - 1);
      hide CStored;
      assert CStored(b, ldb, n - 1, j) == CStored(b, ldb, j, n - 1) == Complex(if j == n - 1 then 1.0 else 0.0, 0.0);
    }
  }

  lemma {:induction false} CSumWithA(ta: char, a: seq<real>, lda: int, tb: char, b: seq<real>, ldb: int, i: int, j: int,
                                     k: int, n: nat)
    requires CIdentity(a, lda, k) && 0 <= i < k && n <= k
    ensures CSum(ta, a, lda, tb, b, ldb, i, j, n) ==
      if i >= n then Complex(0.0, 0.0)
      else Conjugated(tb, if tb == 'n' || tb == 'N' then CStored(b, ldb, i, j) else CStored(b, ldb, j, i))
  {
    if n > 0 {
      CSumWithA(ta, a, lda, tb, b, ldb, i, j, k, n - 1);
      hide CStored;
      assert CStored(a, lda, n - 1, i) == CStored(a, lda, i, n - 1) == Complex(if i == n - 1 then 1.0 else 0.0, 0.0);
    }
  }

  /** With the identity for B the block of C becomes A for 'n' and 'N', A transposed otherwise, and conjugated
      exactly for 'c' and 'C'. */
  lemma CTimesIdentity(d: Dims, a: seq<real>, b: seq<real>, c: seq<real>, c': seq<real>, i: int, j: int,
                       x: int)
    requires !Rejected(d) && CResult(d, Complex(1.0, 0.0), a, b, Complex(0.0, 0.0), c, c')
    requires d.n == d.k && CIdentity(b, d.ldb, d.k) && 0 <= i < d.m && 0 <= j < d.n
    requires x == 2 * (i + j * d.ldc) && 0 <= x < |c| - 1
    ensures |c'| == |c|
    ensures var z := Conjugated(d.ta, if d.ta == 'n' || d.ta == 'N' then CStored(a, d.lda, i, j) else CStored(a, d.lda, j, i));
      c'[x] == z.re && c'[x + 1] == z.im
  {
    CResultMeans(d, Complex(1.0, 0.0), a, b, Complex(0.0, 0.0), c, c', i, j, x);
    CSumWithB(d.ta, a, d.lda, d.tb, b, d.ldb, i, j, d.k, d.k);
    hide CResult, CSum, CStored, CIdentity, Rejected;
  }

  lemma CIdentityTimes(d: Dims, a: seq<real>, b: seq<real>, c: seq<real>, c': seq<real>, i: int, j: int,
                       x: int)
    requires !Rejected(d) && CResult(d, Complex(1.0, 0.0), a, b, Complex(0.0, 0.0), c, c')
    requires d.m == d.k && CIdentity(a, d.lda, d.k) && 0 <= i < d.m && 0 <= j < d.n
    requires x == 2 * (i + j * d.ldc) && 0 <= x < |c| - 1
    ensures |c'| == |c|
    ensures var z := Conjugated(d.tb, if d.tb == 'n' || d.tb == 'N' then CStored(b, d.ldb, i, j) else CStored(b, d.ldb, j, i));
      c'[x] == z.re && c'[x + 1] == z.im
  {
    CResultMeans(d, Complex(1.0, 0.0), a, b, Complex(0.0, 0.0), c, c', i, j, x);
    CSumWithA(d.ta, a, d.lda, d.tb, b, d.ldb, i, j, d.k, d.k);
    hide CResult, CSum, CStored, CIdentity, Rejected;
  }
}
