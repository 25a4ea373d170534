/** What srandom and initstate of compat/random.c make of their seed, in plain arithmetic: every number that
    random then returns. */
module RandomMeaning {
  import opened Arith
  import opened RandomGen

  /** A word is its value modulo the range of `long`, the nearest representative round 0. */
  lemma WrapMeans(half: int, x: int)
    requires half > 0
    ensures -half <= Wrap(half, x) < half && (Wrap(half, x) - x) % (2 * half) == 0
    ensures -half <= x < half ==> Wrap(half, x) == x
  {
    SubtractRem(x + half, 2 * half);
    var q := (x + half) / (2 * half);
    assert x + half == 2 * half * q + (x + half) % (2 * half);
    assert Wrap(half, x) - x == 2 * half * -q;
    ModOfMultiple(2 * half, -q);
    if -half <= x < half { ModUnique(x + half, 2 * half, 0, x + half); }
  }

  /** ... and the mask 0x7fffffff takes the remainder by 2^31. */
  lemma MaskMeans(x: int)
    ensures Mask31(x) == x % 0x8000_0000
  {}

  /** The trinomials: x^7 + x^3 + 1, x^15 + x + 1, x^31 + x^3 + 1 and x^63 + x + 1. */
  lemma RecurMeans(half: int, k: Kind, init: seq<int>, i: nat)
    requires half > 0 && k > 0 && |init| == Deg(k)
    ensures i < |init| ==> Recur(half, k, init, i) == init[i]
    ensures k == 1 && i >= 7 ==> |init| == 7 && Recur(half, k, init, i) == Wrap(half, Recur(half, k, init, i - 7) + Recur(half, k, init, i - 3))
    ensures k == 2 && i >= 15 ==> |init| == 15 && Recur(half, k, init, i) == Wrap(half, Recur(half, k, init, i - 15) + Recur(half, k, init, i - 1))
    ensures k == 3 && i >= 31 ==> |init| == 31 && Recur(half, k, init, i) == Wrap(half, Recur(half, k, init, i - 31) + Recur(half, k, init, i - 3))
    ensures k == 4 && i >= 63 ==> |init| == 63 && Recur(half, k, init, i) == Wrap(half, Recur(half, k, init, i - 63) + Recur(half, k, init, i - 1))
  {
    RecurAt(half, k, init, i);
    hide Recur, Wrap;
  }

  // ---------- types 1 to 4 ----------

  /** w is the table that the linear congruential fill makes of the seed. */
  ghost predicate FilledFrom(half: int, seed: int, w: seq<int>)
    requires half > 0
  {
    && |w| > 0 && w[0] == Wrap(half, seed)
    && forall i :: 1 <= i < |w| ==> w[i] == Wrap(half, 1103515245 * w[i - 1] + 12345)
  }

  lemma {:induction false} FillIs(half: int, seed: int, w: seq<int>, n: nat)
    requires half > 0 && FilledFrom(half, seed, w) && 0 < n <= |w|
    ensures Fill(half, seed, n) == w[..n]
  {
    hide Wrap;
    if n > 1 {
      FillIs(half, seed, w, n - 1);
      var s := Fill(half, seed, n - 1);
      assert s[n - 2] == w[n - 2];
      assert w[..n] == w[..n - 1] + [w[n - 1]];
    }
  }

  lemma {:induction false} AdvanceAdds(half: int, g: Gen, m: nat, n: nat)
    requires half > 0 && Ok(g)
    ensures Advance(half, Advance(half, g, m), n) == Advance(half, g, m + n)
  {
    hide Step, Ok;
    if n > 0 { AdvanceAdds(half, g, m, n - 1); }
  }

  lemma SeededIs(half: int, k: Kind, seed: int, w: seq<int>)
    requires half > 0 && k > 0 && |w| == Deg(k) && FilledFrom(half, seed, w)
    ensures Ok(Gen(k, w, Sep(k), 0)) && Seeded(half, k, seed) == Advance(half, Gen(k, w, Sep(k), 0), 10 * Deg(k))
    ensures Window(Gen(k, w, Sep(k), 0)) == w[Sep(k)..] + w[..Sep(k)]
  {
    Degrees(k);
    FillIs(half, seed, w, Deg(k));
    assert w[..Deg(k)] == w;
  }

  /** The n-th number after seeding, counted from 0: 10 * deg numbers are thrown away first. */
  lemma SeededOutput(half: int, k: Kind, seed: int, w: seq<int>, n: nat)
    requires half > 0 && k > 0 && |w| == Deg(k) && FilledFrom(half, seed, w)
    ensures Output(half, Seeded(half, k, seed), n) ==
      Recur(half, k, w[Sep(k)..] + w[..Sep(k)], n + 11 * Deg(k)) / 2 % 0x8000_0000
  {
    SeededIs(half, k, seed, w);
    hide Deg, Sep, Ok, Seeded, Step, Window, Recur, Advance, FilledFrom;
    var g := Gen(k, w, Sep(k), 0);
    AdvanceAdds(half, g, 10 * Deg(k), n);
    RefinesRecurrence(half, g, 10 * Deg(k) + n);
  }

  // ---------- type 0 ----------

  /** The numbers of the linear congruential generator that starts from the seed. */
  ghost predicate Congruential(seed: int, x: seq<int>) {
    |x| > 0 && x[0] == seed && forall i :: 1 <= i < |x| ==> x[i] == (1103515245 * x[i - 1] + 12345) % 0x8000_0000
  }

  /** Multiples of 2^31 do not matter to the next number. */
  lemma LcgModulo(half: int, x: int, y: int)
    requires half > 0 && (2 * half) % 0x8000_0000 == 0 && (x - y) % 0x8000_0000 == 0
    ensures Mask31(Lcg(half, x)) == (1103515245 * y + 12345) % 0x8000_0000
  {
    var m := 0x8000_0000;
    var u, v := 1103515245 * x + 12345, 1103515245 * y + 12345;
    WrapMeans(half, u);
    ModTransitive(Wrap(half, u) - u, 2 * half, m);
    MultipleQuotient(x - y, m);
    ModOfMultiple(m, 1103515245 * ((x - y) / m));
    assert u - v == m * (1103515245 * ((x - y) / m));
    ModSum(Wrap(half, u) - u, u - v, m);
    SameRemainder(Wrap(half, u), v, m);
  }

  lemma {:induction false} Type0State(half: int, seed: int, x: seq<int>, n: nat)
    requires half > 0 && (2 * half) % 0x8000_0000 == 0 && Congruential(seed, x) && n < |x|
    ensures var g := Advance(half, Seeded(half, 0, seed), n);
      |g.words| == 1 && g.kind == 0 && (g.words[0] - x[n]) % 0x8000_0000 == 0
  {
    hide Wrap, Lcg, Mask31, Deg, Sep;
    if n == 0 {
      WrapMeans(half, seed);
      ModTransitive(Wrap(half, seed) - seed, 2 * half, 0x8000_0000);
    } else {
      Type0State(half, seed, x, n - 1);
      var g := Advance(half, Seeded(half, 0, seed), n - 1);
      hide Seeded;
      LcgModulo(half, g.words[0], x[n - 1]);
    }
  }

  /** With words of a multiple of 2^31 values the n-th number of type 0 is the (n + 1)-st of the plain
      congruential sequence. */
  lemma Type0Output(half: int, seed: int, x: seq<int>, n: nat)
    requires half > 0 && (2 * half) % 0x8000_0000 == 0 && Congruential(seed, x) && n + 1 < |x|
    ensures Output(half, Seeded(half, 0, seed), n) == x[n + 1]
  {
    Type0State(half, seed, x, n);
    var g := Advance(half, Seeded(half, 0, seed), n);
    hide Lcg, Mask31, Seeded, Deg, Sep;
    LcgModulo(half, g.words[0], x[n]);
  }

  // ---------- the calls ----------

  /** The generator that a call leaves in use returns what its seed and type say. */
  ghost predicate Speaks(half: int, g: Gen, k: Kind, seed: int)
    requires half > 0
  {
    && Ok(g) && g.kind == k
    && (k > 0 ==> forall w, n: nat {:trigger FilledFrom(half, seed, w), Output(half, g, n)} ::
          |w| == Deg(k) && FilledFrom(half, seed, w) ==>
            Output(half, g, n) == Recur(half, k, w[Sep(k)..] + w[..Sep(k)], n + 11 * Deg(k)) / 2 % 0x8000_0000)
    && (k == 0 && (2 * half) % 0x8000_0000 == 0 ==> forall x, n: nat {:trigger Congruential(seed, x), Output(half, g, n)} ::
          Congruential(seed, x) && n + 1 < |x| ==> Output(half, g, n) == x[n + 1])
  }

  lemma SeededSpeaks(half: int, k: Kind, seed: int)
    requires half > 0
    ensures Speaks(half, Seeded(half, k, seed), k, seed)
  {
    hide Seeded, Deg, Sep, Recur, FilledFrom, Congruential, Output;
    Degrees(k);
    if k > 0 {
      forall w, n: nat | |w| == Deg(k) && FilledFrom(half, seed, w)
        ensures Output(half, Seeded(half, k, seed), n) == Recur(half, k, w[Sep(k)..] + w[..Sep(k)], n + 11 * Deg(k)) / 2 % 0x8000_0000
      {
        SeededOutput(half, k, seed, w, n);
      }
    } else if (2 * half) % 0x8000_0000 == 0 {
      forall x, n: nat | Congruential(seed, x) && n + 1 < |x|
        ensures Output(half, Seeded(half, k, seed), n) == x[n + 1]
      {
        Type0Output(half, seed, x, n);
      }
    }
  }

  /** srandom, whatever came before. */
  lemma SrandomSpeaks<I>(half: int, w: World<I>, seed: int)
    requires half > 0 && WorldOk(w)
    ensures var v := Apply(half, w, OpSrandom(seed));
      v.cur == w.cur && v.cur in v.gens && Speaks(half, v.gens[v.cur], w.gens[w.cur].kind, seed)
  {
    hide Speaks, Seeded;
    SeededSpeaks(half, w.gens[w.cur].kind, seed);
  }

  /** initstate, with at least 8 bytes of state. */
  lemma InitStateSpeaks<I>(half: int, w: World<I>, seed: int, i: I, n: int)
    requires half > 0 && WorldOk(w) && n >= 8
    ensures var v := Apply(half, w, OpInitState(seed, i, n));
      v.cur == i && i in v.gens && Speaks(half, v.gens[i], KindFor(n), seed)
  {
    hide Speaks, Seeded;
    SeededSpeaks(half, KindFor(n), seed);
  }

  /** initstate picks the largest generator that has room: n bytes hold its words and the header, at the 4 bytes
      a word that the break values are computed with. */
  lemma KindIsLargest(n: int, k: Kind)
    requires n >= 8
    ensures 4 * (Size(KindFor(n)) + 1) <= n
    ensures k > KindFor(n) ==> 4 * (Size(k) + 1) > n
  {}
}
