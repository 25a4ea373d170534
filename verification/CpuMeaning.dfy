/** What cstr_to_cpuset of armci/src-gemini/armci.c makes of a text, said in characters and cpu numbers: the
    functions that read a token and set a range are pinned from outside. */
module CpuMeaning {
  import opened Arith
  import opened CpuText

  // ---------- numbers ----------

  ghost function Tens(i: nat): (p: nat)
    ensures p > 0
  {
    if i == 0 then 1 else 10 * Tens(i - 1)
  }

  /** The decimal digit of n at place i. */
  ghost function Place(n: nat, i: nat): char { "0123456789"[n / Tens(i) % 10] }

  /** The characters of a printed number are its decimal digits, without a leading zero. */
  lemma {:induction false} DecPlaces(n: nat, i: nat)
    ensures i < |Dec(n)| ==> Dec(n)[|Dec(n)| - 1 - i] == Place(n, i)
    ensures i >= |Dec(n)| ==> n / Tens(i) == 0
  {
    DecSplits(n);
    hide Dec;
    if i > 0 {
      PlaceShift(n, i);
      hide Tens, Place;
      if n >= 10 { DecPlaces(n / 10, i - 1); }
    }
  }

  lemma {:induction false} NoLeadingZero(n: nat)
    requires n > 0
    ensures Dec(n)[0] != '0'
  {
    DecSplits(n);
    hide Dec;
    if n >= 10 { NoLeadingZero(n / 10); }
  }

  lemma DecSplits(n: nat)
    ensures Dec(n) == if n < 10 then [Place(n, 0)] else Dec(n / 10) + [Place(n, 0)]
    ensures 0 < n < 10 ==> Place(n, 0) != '0'
  {
    DigitIs(n % 10);
    assert Tens(0) == 1;
  }

  lemma PlaceShift(n: nat, i: nat)
    requires i > 0
    ensures Place(n, i) == Place(n / 10, i - 1) && n / Tens(i) == n / 10 / Tens(i - 1)
    ensures n < 10 ==> n / Tens(i) == 0
  {
    DivTwice(n, Tens(i - 1));
    if n < 10 { DivSmall(n / 10, Tens(i - 1)); }
  }

  lemma DigitIs(d: nat)
    requires d < 10
    ensures Digit(d) == "0123456789"[d] && (d > 0 ==> Digit(d) != '0')
  {}

  lemma DivTwice(n: nat, p: nat)
    requires p > 0
    ensures n / (10 * p) == n / 10 / p
  {
    var q, r := n / 10, n % 10;
    var u, v := q / p, q % p;
    assert n == (10 * p) * u + (10 * v + r) by { assert p * u + v == q; }
    ModUnique(n, 10 * p, u, 10 * v + r);
  }

  lemma DivSmall(n: nat, p: nat)
    requires n == 0 && p > 0
    ensures n / p == 0
  {}

  predicate Blank(s: string) { forall i :: 0 <= i < |s| ==> s[i] in " \t\n\U{b}\U{c}\r" }

  /** sscanf's %u skips white space ... */
  lemma {:induction false} SpaceSkipped(space: string, s: string)
    requires Blank(space)
    ensures ScanUnsigned(space + s) == ScanUnsigned(s)
  {
    if space == "" {
      assert space + s == s;
    } else {
      SpaceSkipped(space[1..], s);
      hide ScanDigits;
      assert (space + s)[0] == space[0] && (space + s)[1..] == space[1..] + s;
    }
  }

  /** ... takes one sign and reads modulo 2^32. */
  lemma ScanReads(space: string, n: nat, rest: string)
    requires Blank(space) && (rest != "" ==> !('0' <= rest[0] <= '9'))
    ensures ScanUnsigned(space + (Dec(n) + rest)) == Got(n % 0x1_0000_0000)
    ensures ScanUnsigned(space + ("+" + (Dec(n) + rest))) == Got(n % 0x1_0000_0000)
    ensures ScanUnsigned(space + ("-" + (Dec(n) + rest))) == Got((0x1_0000_0000 - n % 0x1_0000_0000) % 0x1_0000_0000)
  {
    var d := Dec(n) + rest;
    SpaceSkipped(space, d);
    SpaceSkipped(space, "+" + d);
    SpaceSkipped(space, "-" + d);
    DigitsRead(n, rest);
    hide Blank, Dec, ScanDigits;
    assert IsDigit(d[0]) by { assert d[0] == Dec(n)[0]; }
    assert ("+" + d)[1..] == d && ("-" + d)[1..] == d;
  }

  lemma DigitsRead(n: nat, rest: string)
    requires rest != "" ==> !('0' <= rest[0] <= '9')
    ensures ScanDigits(Dec(n) + rest, false) == Got(n % 0x1_0000_0000)
    ensures ScanDigits(Dec(n) + rest, true) == Got((0x1_0000_0000 - n % 0x1_0000_0000) % 0x1_0000_0000)
  {
    hide Dec, Number, DigitRun;
    DigitRunOf(Dec(n), rest);
    NumberOfDec(n);
  }

  /** Without a digit behind the space and the sign there is no number. */
  lemma ScanFails(space: string, s: string)
    requires Blank(space) && (s != "" ==> s[0] !in " \t\n\U{b}\U{c}\r+-" && !('0' <= s[0] <= '9'))
    ensures ScanUnsigned(space + s) == NoNumber
    ensures ScanUnsigned(space + ("+" + s)) == ScanUnsigned(space + ("-" + s)) == NoNumber
  {
    SpaceSkipped(space, s);
    SpaceSkipped(space, "+" + s);
    SpaceSkipped(space, "-" + s);
    assert ("+" + s)[1..] == s && ("-" + s)[1..] == s;
  }

  // ---------- what the loop over a range visits ----------

  /** The loop variable, a C unsigned int, after n turns. */
  function At(a: int, step: int, n: nat): int { (a + n * step) % 0x1_0000_0000 }

  /** cpu k is visited: the loop variable gets there without having passed b. */
  ghost predicate Visits(a: int, b: int, step: int, k: int) {
    exists n: nat :: At(a, step, n) == k && forall j: nat :: j <= n ==> At(a, step, j) <= b
  }

  /** The loop comes to an end. */
  ghost predicate Ends(a: int, b: int, step: int) { exists n: nat :: At(a, step, n) > b }

  lemma EndsIsPasses(a: Word, b: Word, step: Word)
    ensures Ends(a, b, step) <==> Passes(a, b, step)
  {
    if n: nat :| At(a, step, n) > b { assert Nth(a, step, n) > b; }
    if n: nat :| Nth(a, step, n) > b { assert At(a, step, n) > b; }
  }

  lemma AtShift(a: Word, step: Word, n: nat)
    ensures At(Nth(a, step, 1), step, n) == At(a, step, n + 1) && At(a, step, 0) == a
  {
    NthNext(a, step, n);
    assert Nth(Nth(a, step, 1), step, n) == At(Nth(a, step, 1), step, n);
    assert Nth(a, step, n + 1) == At(a, step, n + 1);
  }

  /** One turn: a itself and what the rest of the loop visits. */
  lemma VisitsStep(a: Word, b: Word, step: Word, k: int)
    requires a <= b
    ensures Visits(a, b, step, k) <==> k == a || Visits(Nth(a, step, 1), b, step, k)
  {
    hide At, Nth;
    var c := Nth(a, step, 1);
    AtShift(a, step, 0);
    if Visits(a, b, step, k) && k != a {
      var n: nat :| At(a, step, n) == k && forall j: nat :: j <= n ==> At(a, step, j) <= b;
      AtShift(a, step, n - 1);
      forall j: nat | j <= n - 1
        ensures At(c, step, j) <= b
      {
        AtShift(a, step, j);
      }
    }
    if Visits(c, b, step, k) {
      var n: nat :| At(c, step, n) == k && forall j: nat :: j <= n ==> At(c, step, j) <= b;
      AtShift(a, step, n);
      forall j: nat | j <= n + 1
        ensures At(a, step, j) <= b
      {
        if j > 0 { AtShift(a, step, j - 1); }
      }
    }
    if k == a {
      forall j: nat | j <= 0
        ensures At(a, step, j) <= b
      {}
    }
  }

  lemma VisitsNone(a: Word, b: Word, step: Word, k: int)
    requires a > b
    ensures !Visits(a, b, step, k)
  {
    AtShift(a, step, 0);
    hide At;
  }

  /** The cpus of a range are exactly those visited. */
  lemma {:induction false} RangeVisits(m: Mask, a: Word, b: Word, step: Word, k: nat)
    requires k < CPU_SETSIZE && Passes(a, b, step)
    ensures SetRange(m, a, b, step)[k] <==> m[k] || Visits(a, b, step, k)
    decreases Turns(a, b, step)
  {
    hide Passes, Nth, Visits;
    if a > b {
      VisitsNone(a, b, step, k);
    } else {
      TurnTaken(a, b, step);
      VisitsStep(a, b, step, k);
      RangeVisits(SetCpu(m, a), Nth(a, step, 1), b, step, k);
      hide Turns;
    }
  }

  /** Where the number behind the last cannot wrap, these are every step-th from a to b. */
  lemma VisitsPlain(a: Word, b: Word, step: Word, k: int)
    requires a <= b && step > 0 && b + step < 0x1_0000_0000
    ensures Ends(a, b, step)
    ensures Visits(a, b, step, k) <==> a <= k <= b && (k - a) % step == 0
  {
    var last := (b - a) / step;
    PlainAt(a, b, step, last + 1);
    if a <= k <= b && (k - a) % step == 0 { PlainVisited(a, b, step, k); }
    hide At;
    assert At(a, step, last + 1) > b;
    if Visits(a, b, step, k) {
      var n: nat :| At(a, step, n) == k && forall j: nat :: j <= n ==> At(a, step, j) <= b;
      assert n <= last;
      PlainAt(a, b, step, n);
      hide *;
      Spaced(a, step, n);
    }
  }

  lemma Spaced(a: int, step: int, n: nat)
    requires step > 0
    ensures (a + n * step - a) % step == 0 && a + n * step >= a
  {
    assert n * step == step * n;
    ModOfMultiple(step, n);
    MulSign(step, n);
  }

  lemma PlainVisited(a: Word, b: Word, step: Word, k: int)
    requires a <= k <= b && step > 0 && b + step < 0x1_0000_0000 && (k - a) % step == 0
    ensures Visits(a, b, step, k)
  {
    var n := (k - a) / step;
    MultipleQuotient(k - a, step);
    DivMonotone(k - a, b - a, step);
    PlainAt(a, b, step, n);
    assert At(a, step, n) == k by { assert n * step == step * n; }
    hide At;
    forall j: nat | j <= n
      ensures At(a, step, j) <= b
    {
      PlainAt(a, b, step, j);
    }
  }

  lemma DivMonotone(x: nat, y: nat, m: nat)
    requires x <= y && m > 0
    ensures 0 <= x / m <= y / m
  {
    QuotientUpTo(x / m, y / m, x % m, y % m, m);
  }

  lemma QuotientUpTo(q: int, p: int, r: int, u: int, m: int)
    requires m > 0 && 0 <= r && u < m && m * q + r <= m * p + u
    ensures q <= p
  {
    assert m * (q - p) == m * q - m * p;
    if q > p { MulSign(m, q - p); }
  }

  lemma PlainAt(a: Word, b: Word, step: Word, n: nat)
    requires a <= b && step > 0 && b + step < 0x1_0000_0000 && n <= (b - a) / step + 1
    ensures At(a, step, n) == a + n * step
    ensures n <= (b - a) / step ==> At(a, step, n) <= b
    ensures n == (b - a) / step + 1 ==> At(a, step, n) > b
  {
    Turned(step, (b - a) / step, (b - a) % step, n);
    ModUnique(a + n * step, 0x1_0000_0000, 0, a + n * step);
  }

  lemma Turned(step: int, q: int, r: int, n: nat)
    requires step > 0 && 0 <= r < step && n <= q + 1
    ensures 0 <= n * step && (n <= q ==> n * step <= step * q + r)
    ensures n == q + 1 ==> step * q + r < n * step <= step * q + r + step
  {
    MulSign(step, n);
    MulSign(step, n - q);
    assert step * (n - q) == n * step - step * q;
  }

  // ---------- tokens ----------

  /** Text without a separator. */
  predicate Clean(x: string) { forall i :: 0 <= i < |x| ==> x[i] !in ",-:" }

  function Spelled(space: string, n: nat, junk: string): string { space + (Dec(n) + junk) }

  /** x is a number, modulo 2^32, with white space before it and any text without separators after it. */
  ghost predicate Numeral(x: string, v: int) {
    exists space: string, n: nat, junk: string ::
      x == Spelled(space, n, junk) && v == n % 0x1_0000_0000 && Blank(space) && Clean(junk) && (junk != "" ==> !('0' <= junk[0] <= '9'))
  }

  /** The end of the text or a separator. */
  predicate Separates(t: string) { t == "" || t[0] in ",-:" }

  lemma NumeralScan(x: string, v: int, t: string)
    requires Numeral(x, v) && Separates(t)
    ensures Clean(x) && 0 <= v < UINT_LIMIT && ScanUnsigned(x + t) == Got(v)
  {
    var space: string, n: nat, junk: string :|
      x == Spelled(space, n, junk) && v == n % 0x1_0000_0000 && Blank(space) && Clean(junk) && (junk != "" ==> !('0' <= junk[0] <= '9'));
    SpelledScan(space, n, junk, t);
  }

  lemma SpelledScan(space: string, n: nat, junk: string, t: string)
    requires Blank(space) && Clean(junk) && (junk != "" ==> !('0' <= junk[0] <= '9')) && Separates(t)
    ensures Clean(Spelled(space, n, junk)) && ScanUnsigned(Spelled(space, n, junk) + t) == Got(n % 0x1_0000_0000)
  {
    BlankClean(space);
    ScanReads(space, n, junk + t);
    hide ScanUnsigned, Dec, Blank;
    assert Spelled(space, n, junk) + t == space + (Dec(n) + (junk + t));
  }

  lemma BlankClean(space: string)
    requires Blank(space)
    ensures Clean(space)
  {}

  /** A number printed alone is one. */
  lemma PrintedNumeral(n: nat)
    requires n < UINT_LIMIT
    ensures Numeral(Dec(n), n)
  {
    ModUnique(n, 0x1_0000_0000, 0, n);
    hide Dec;
    assert Dec(n) == Spelled("", n, "");
  }

  /** The mask with the cpus that the loop visits. */
  ghost function Visited(m: Mask, a: Word, b: Word, step: Word): Mask {
    seq(CPU_SETSIZE, k requires 0 <= k < CPU_SETSIZE => m[k] || Visits(a, b, step, k))
  }

  /** What a token for a, b and step does in front of `tail`. */
  ghost function Takes(a: Word, b: Word, step: Word, tail: string, m: Mask): Outcome {
    if a > b then Bad(m)
    else if !Ends(a, b, step) then Loops
    else if tail == "" then Done(Visited(m, a, b, step))
    else ParseFrom(tail[1..], Visited(m, a, b, step))
  }

  lemma EntryTakes(t: string, tail: string, a: Word, b: Word, step: Word, m: Mask)
    requires ReadEntry(t + tail) == Entry(a, b, step) && (tail == "" || tail[0] == ',')
    requires forall i :: 0 <= i < |t| ==> t[i] != ','
    ensures ParseFrom(t + tail, m) == Takes(a, b, step, tail, m)
  {
    EndsIsPasses(a, b, step);
    hide ReadEntry;
    if a <= b && Ends(a, b, step) {
      RangeIsVisited(m, a, b, step);
      hide Ends, Visited, Passes, SetRange;
      CommaAt(t, tail);
      if tail != "" { assert (t + tail)[|t| + 1..] == tail[1..]; }
    }
  }

  lemma RangeIsVisited(m: Mask, a: Word, b: Word, step: Word)
    requires Passes(a, b, step)
    ensures SetRange(m, a, b, step) == Visited(m, a, b, step)
  {
    hide SetRange, Visits, Passes;
    forall k | 0 <= k < CPU_SETSIZE
      ensures SetRange(m, a, b, step)[k] == Visited(m, a, b, step)[k]
    {
      RangeVisits(m, a, b, step, k);
    }
  }

  lemma CommaAt(t: string, tail: string)
    requires (tail == "" || tail[0] == ',') && forall i :: 0 <= i < |t| ==> t[i] != ','
    ensures Find(t + tail, ',') == if tail == "" then -1 else |t|
  {
    if tail == "" { FindNone(t + tail, ','); } else { FindUnique(t + tail, ',', |t|); }
  }

  /** A search goes through x and continues behind it. */
  lemma FindBehind(x: string, r: string, c: char)
    requires Clean(x) && c in ",-:"
    ensures Find(x + r, c) == if Find(r, c) < 0 then -1 else |x| + Find(r, c)
    ensures (x + r)[|x|..] == r
  {
    FindSpec(r, c);
    var s := x + r;
    if Find(r, c) < 0 { FindNone(s, c); } else { FindUnique(s, c, |x| + Find(r, c)); }
  }

  lemma FindSep(d: char, r: string, c: char)
    ensures Find([d] + r, c) == if d == c then 0 else if Find(r, c) < 0 then -1 else 1 + Find(r, c)
    ensures ([d] + r)[1..] == r
  {}

  lemma Behind(x: string, d: char, r: string, c: char)
    requires Clean(x) && c in ",-:"
    ensures Find(x + ([d] + r), c) == if d == c then |x| else if Find(r, c) < 0 then -1 else |x| + 1 + Find(r, c)
    ensures (x + ([d] + r))[|x| + 1..] == r
  {
    FindBehind(x, [d] + r, c);
    FindSep(d, r, c);
    hide Find, Clean;
  }

  /** One number stands for the range of that cpu. */
  lemma SingleText(x: string, a: Word, tail: string, m: Mask)
    requires Numeral(x, a) && (tail == "" || tail[0] == ',')
    ensures ParseFrom(x + tail, m) == Takes(a, a, 1, tail, m)
  {
    NumeralScan(x, a, tail);
    CommaAt(x, tail);
    FindSpec(tail, '-');
    FindBehind(x, tail, '-');
    hide Numeral, ScanUnsigned, Takes;
    EntryTakes(x, tail, a, a, 1, m);
  }

  /** The entry for a, the number behind the dash and, if there is a colon, the number behind that. */
  function Pick(a: Word, last: Scan, strided: bool, step: Scan): Entry {
    match last
    case NoNumber => NoEntry
    case Got(b) =>
      if !strided then Entry(a, b, 1)
      else
        match step
        case NoNumber => NoEntry
        case Got(v) => Entry(a, b, v)
  }

  /** What ReadEntry makes of w behind the first dash. */
  function SecondPart(a: Word, w: string): Entry {
    var strided := InToken(Find(w, ':'), Find(w, ','));
    Pick(a, ScanUnsigned(w), strided, if strided then ScanUnsigned(w[Find(w, ':') + 1..]) else NoNumber)
  }

  lemma SecondRead(x: string, a: Word, w: string)
    requires Clean(x) && ScanUnsigned(x + ("-" + w)) == Got(a)
    ensures ReadEntry(x + ("-" + w)) == SecondPart(a, w)
  {
    hide ScanUnsigned, Find, Clean, ReadEntry, SecondPart;
    Behind(x, '-', w, '-');
    Behind(x, '-', w, ',');
    ReadsSecond(x + ("-" + w), |x|, a);
  }

  /** Position of the colon in s, behind the dash. */
  function ColonAt(s: string, dash: nat): int
    requires dash < |s|
  {
    Find(s[dash + 1..], ':')
  }

  /** ... and whether it belongs to the token. */
  predicate HasColon(s: string, dash: nat)
    requires dash < |s|
  {
    ColonAt(s, dash) >= 0 && InToken(dash + 1 + ColonAt(s, dash), Find(s, ','))
  }

  lemma ReadsPlain(s: string, dash: nat, a: Word)
    requires dash < |s| && Find(s, '-') == dash && InToken(dash, Find(s, ',')) && ScanUnsigned(s) == Got(a)
    requires !HasColon(s, dash)
    ensures ReadEntry(s) == Pick(a, ScanUnsigned(s[dash + 1..]), false, NoNumber)
  {
    hide ScanUnsigned, Find, InToken;
  }

  lemma ReadsStrided(s: string, dash: nat, a: Word)
    requires dash < |s| && Find(s, '-') == dash && InToken(dash, Find(s, ',')) && ScanUnsigned(s) == Got(a)
    requires HasColon(s, dash)
    ensures ReadEntry(s) == Pick(a, ScanUnsigned(s[dash + 1..]), true, ScanUnsigned(s[dash + 1 + ColonAt(s, dash) + 1..]))
  {
    hide ScanUnsigned, Find, InToken;
  }

  lemma ReadsSecond(s: string, dash: nat, a: Word)
    requires dash < |s| && Find(s, '-') == dash && ScanUnsigned(s) == Got(a)
    requires Find(s, ',') == if Find(s[dash + 1..], ',') < 0 then -1 else dash + 1 + Find(s[dash + 1..], ',')
    ensures ReadEntry(s) == SecondPart(a, s[dash + 1..])
  {
    hide ScanUnsigned, Find, ReadEntry, Pick;
    var c := ColonAt(s, dash);
    assert InToken(c, Find(s[dash + 1..], ',')) == HasColon(s, dash);
    if HasColon(s, dash) {
      ReadsStrided(s, dash, a);
      SliceTwice(s, dash + 1, c + 1);
    } else {
      ReadsPlain(s, dash, a);
    }
  }

  lemma SliceTwice(s: string, i: nat, j: nat)
    requires i <= |s| && j <= |s| - i
    ensures s[i..][j..] == s[i + j..]
  {}

  /** Two numbers with a dash between them stand for a range without a stride: no colon behind the comma counts. */
  lemma RangeText(x: string, a: Word, y: string, b: Word, tail: string, m: Mask)
    requires Numeral(x, a) && Numeral(y, b) && (tail == "" || tail[0] == ',')
    ensures ParseFrom(x + "-" + y + tail, m) == Takes(a, b, 1, tail, m)
  {
    hide Numeral, ScanUnsigned, Takes, ReadEntry, ParseFrom;
    NumeralScan(x, a, "-" + (y + tail));
    NumeralScan(y, b, tail);
    ReadsRange(x, a, y, b, tail);
    NestedTwo(x, y, tail);
    NoCommas(x, y, "");
    hide Clean;
    EntryTakes(x + "-" + y, tail, a, b, 1, m);
  }

  lemma NestedTwo(x: string, y: string, tail: string)
    ensures x + "-" + y + tail == x + ("-" + (y + tail))
  {}

  lemma ReadsRange(x: string, a: Word, y: string, b: Word, tail: string)
    requires Clean(x) && Clean(y) && (tail == "" || tail[0] == ',')
    requires ScanUnsigned(x + ("-" + (y + tail))) == Got(a) && ScanUnsigned(y + tail) == Got(b)
    ensures ReadEntry(x + ("-" + (y + tail))) == Entry(a, b, 1)
  {
    SecondRead(x, a, y + tail);
    FindBehind(y, tail, ':');
    FindBehind(y, tail, ',');
    ColonLater(tail);
    hide ScanUnsigned, Find, Clean, ReadEntry;
  }

  lemma ColonLater(tail: string)
    requires tail == "" || tail[0] == ','
    ensures Find(tail, ',') == (if tail == "" then -1 else 0) && (tail == "" ==> Find(tail, ':') == -1) && Find(tail, ':') != 0
  {}

  lemma Nested(x: string, y: string, z: string, tail: string)
    ensures x + "-" + y + ":" + z + tail == x + ("-" + (y + (":" + (z + tail))))
  {}

  /** Three with dash and colon stand for a range with a stride. */
  lemma StrideText(x: string, a: Word, y: string, b: Word, z: string, step: Word, tail: string, m: Mask)
    requires Numeral(x, a) && Numeral(y, b) && Numeral(z, step) && (tail == "" || tail[0] == ',')
    ensures ParseFrom(x + "-" + y + ":" + z + tail, m) == Takes(a, b, step, tail, m)
  {
    hide Numeral, ScanUnsigned, Takes, ReadEntry, ParseFrom;
    NumeralScan(x, a, "-" + (y + (":" + (z + tail))));
    NumeralScan(y, b, ":" + (z + tail));
    NumeralScan(z, step, tail);
    ReadsStride(x, a, y, b, z, step, tail);
    Nested(x, y, z, tail);
    NoCommas(x, y, z);
    hide Clean;
    EntryTakes(x + "-" + y + ":" + z, tail, a, b, step, m);
  }

  lemma NoCommas(x: string, y: string, z: string)
    requires Clean(x) && Clean(y) && Clean(z)
    ensures var t := x + "-" + y; forall i :: 0 <= i < |t| ==> t[i] != ','
    ensures var t := x + "-" + y + ":" + z; forall i :: 0 <= i < |t| ==> t[i] != ','
  {}

  lemma ReadsStride(x: string, a: Word, y: string, b: Word, z: string, step: Word, tail: string)
    requires Clean(x) && Clean(y) && Clean(z) && (tail == "" || tail[0] == ',') && ScanUnsigned(z + tail) == Got(step)
    requires ScanUnsigned(y + (":" + (z + tail))) == Got(b) && ScanUnsigned(x + ("-" + (y + (":" + (z + tail))))) == Got(a)
    ensures ReadEntry(x + ("-" + (y + (":" + (z + tail))))) == Entry(a, b, step)
  {
    SecondRead(x, a, y + (":" + (z + tail)));
    ColonFound(y, z + tail);
    hide ScanUnsigned, Find, Clean, ReadEntry;
  }

  /** The first colon behind y comes before any comma behind it. */
  lemma ColonFound(y: string, r: string)
    requires Clean(y)
    ensures var w := y + (":" + r); InToken(Find(w, ':'), Find(w, ',')) && w[Find(w, ':') + 1..] == r
  {
    Behind(y, ':', r, ':');
    Behind(y, ':', r, ',');
    hide Find, Clean;
  }

  /** A token without its first, second or third number is an error, whatever stands in its place. */
  lemma BadText(x: string, a: Word, y: string, b: Word, w: string, m: Mask)
    requires Numeral(x, a) && Numeral(y, b) && ScanUnsigned(w) == NoNumber
    ensures ParseFrom(w, m) == Bad(m)
    ensures ParseFrom(x + "-" + w, m) == Bad(m)
    ensures ParseFrom(x + "-" + y + ":" + w, m) == Bad(m)
  {
    hide Numeral, Find;
    BadSecond(x, a, w);
    BadThird(x, a, y, b, w);
    hide ScanUnsigned;
    Nested(x, y, w, "");
    assert x + "-" + w == x + ("-" + w) && w + "" == w;
    assert x + "-" + y + ":" + w + "" == x + "-" + y + ":" + w;
    assert ReadEntry(w) == NoEntry;
    hide ReadEntry;
  }

  lemma BadSecond(x: string, a: Word, w: string)
    requires Numeral(x, a) && ScanUnsigned(w) == NoNumber
    ensures ReadEntry(x + ("-" + w)) == NoEntry
  {
    NumeralScan(x, a, "-" + w);
    hide Numeral, ScanUnsigned, Find, Clean, ReadEntry;
    SecondRead(x, a, w);
  }

  lemma BadThird(x: string, a: Word, y: string, b: Word, r: string)
    requires Numeral(x, a) && Numeral(y, b) && ScanUnsigned(r) == NoNumber
    ensures ReadEntry(x + ("-" + (y + (":" + r)))) == NoEntry
  {
    NumeralScan(x, a, "-" + (y + (":" + r)));
    NumeralScan(y, b, ":" + r);
    hide Numeral, ScanUnsigned, Find, Clean, ReadEntry;
    SecondRead(x, a, y + (":" + r));
    ColonFound(y, r);
  }

  // ---------- printed ranges ----------

  /** The mask with every step-th cpu from a to b. */
  function Every(m: Mask, a: Word, b: Word, step: Word): Mask
    requires step > 0
  {
    seq(CPU_SETSIZE, k requires 0 <= k < CPU_SETSIZE => m[k] || (a <= k <= b && (k - a) % step == 0))
  }

  lemma EveryVisited(m: Mask, a: Word, b: Word, step: Word)
    requires a <= b && step > 0 && b + step < UINT_LIMIT
    ensures Ends(a, b, step) && Visited(m, a, b, step) == Every(m, a, b, step)
  {
    hide Visits, Ends;
    VisitsPlain(a, b, step, a);
    forall k | 0 <= k < CPU_SETSIZE
      ensures Visited(m, a, b, step)[k] == Every(m, a, b, step)[k]
    {
      VisitsPlain(a, b, step, k);
    }
  }

  /** "a-b:step" adds every step-th cpu from a to b, "a-b" every cpu from a to b and "a" the cpu a, alone or
      in front of more text, whatever that text holds. */
  lemma PrintedRange(a: Word, b: Word, step: Word, rest: string, m: Mask)
    requires a <= b && step > 0 && b + step < UINT_LIMIT
    ensures ParseFrom(Dec(a) + "-" + Dec(b) + ":" + Dec(step), m) == Done(Every(m, a, b, step))
    ensures ParseFrom(Dec(a) + "-" + Dec(b) + ":" + Dec(step) + "," + rest, m) == ParseFrom(rest, Every(m, a, b, step))
    ensures ParseFrom(Dec(a) + "-" + Dec(b), m) == Done(Every(m, a, b, 1))
    ensures ParseFrom(Dec(a) + "-" + Dec(b) + "," + rest, m) == ParseFrom(rest, Every(m, a, b, 1))
    ensures ParseFrom(Dec(a), m) == Done(Every(m, a, a, 1))
    ensures ParseFrom(Dec(a) + "," + rest, m) == ParseFrom(rest, Every(m, a, a, 1))
  {
    hide Every, Visited, Ends, ParseFrom, Dec, Numeral;
    EveryVisited(m, a, b, step);
    EveryVisited(m, a, b, 1);
    EveryVisited(m, a, a, 1);
    PrintedNumeral(a);
    PrintedNumeral(b);
    PrintedNumeral(step);
    PrintedTexts(a, b, step, "", m);
    PrintedTexts(a, b, step, "," + rest, m);
    var x, y, z := Dec(a), Dec(b), Dec(step);
    assert x + "" == x && x + "-" + y + "" == x + "-" + y && x + "-" + y + ":" + z + "" == x + "-" + y + ":" + z;
    assert x + ("," + rest) == x + "," + rest && x + "-" + y + ("," + rest) == x + "-" + y + "," + rest;
    assert x + "-" + y + ":" + z + ("," + rest) == x + "-" + y + ":" + z + "," + rest;
    assert ("," + rest)[1..] == rest;
  }

  lemma PrintedTexts(a: Word, b: Word, step: Word, tail: string, m: Mask)
    requires tail == "" || tail[0] == ','
    ensures ParseFrom(Dec(a) + tail, m) == Takes(a, a, 1, tail, m)
    ensures ParseFrom(Dec(a) + "-" + Dec(b) + tail, m) == Takes(a, b, 1, tail, m)
    ensures ParseFrom(Dec(a) + "-" + Dec(b) + ":" + Dec(step) + tail, m) == Takes(a, b, step, tail, m)
  {
    hide Takes, ParseFrom, Dec, Numeral;
    PrintedNumeral(a);
    PrintedNumeral(b);
    PrintedNumeral(step);
    SingleText(Dec(a), a, tail, m);
    RangeText(Dec(a), a, Dec(b), b, tail, m);
    StrideText(Dec(a), a, Dec(b), b, Dec(step), step, tail, m);
  }

  /** A colon behind the comma is the stride of the second range, not of the first. */
  lemma ColonBehindComma(a: Word, b: Word, c: Word, d: Word, step: Word, m: Mask)
    requires a <= b < UINT_LIMIT - 1 && c <= d && step > 0 && d + step < UINT_LIMIT
    ensures ParseFrom(Dec(a) + "-" + Dec(b) + "," + (Dec(c) + "-" + Dec(d) + ":" + Dec(step)), m)
         == Done(Every(Every(m, a, b, 1), c, d, step))
  {
    hide Every, ParseFrom, Dec;
    PrintedRange(a, b, 1, Dec(c) + "-" + Dec(d) + ":" + Dec(step), m);
    PrintedRange(c, d, step, "", Every(m, a, b, 1));
  }

  // ---------- what is printed ----------

  /** The mask of the cpus of m that are at least lo and less than hi. */
  function Part(m: Mask, lo: int, hi: int): Mask {
    seq(CPU_SETSIZE, k requires 0 <= k < CPU_SETSIZE => lo <= k < hi && m[k])
  }

  /** One run prints as its only cpu, its two cpus or its ends. */
  lemma PrintRun(m: Mask, a: nat, b: nat)
    requires a <= b < CPU_SETSIZE && forall k :: 0 <= k < CPU_SETSIZE ==> m[k] == (a <= k <= b)
    ensures Print(m) == if a == b then Dec(a) else if b == a + 1 then Dec(a) + "," + Dec(b) else Dec(a) + "-" + Dec(b)
  {
    hide Render, RunFrom, Dec, EntryText;
    RenderSkip(m, 0, a);
    RunUnique(m, a + 1, b - a);
    RenderSkip(m, b + 1, CPU_SETSIZE);
    RenderStep(m, a);
    RenderEnd(m);
    assert Render(m, 0) == EntryText(a, b - a);
    EntryCut(a, b - a);
  }

  lemma EntryCut(i: nat, run: nat)
    ensures EntryText(i, run) ==
      (if run == 0 then Dec(i) else if run == 1 then Dec(i) + "," + Dec(i + 1) else Dec(i) + "-" + Dec(i + run)) + ","
  {
    hide Dec;
  }

  /** On either side of a cpu that is not set the text is that of the part, with a comma between. */
  lemma PrintSplits(m: Mask, c: nat, i: nat, j: nat)
    requires i < c < j < CPU_SETSIZE && m[i] && !m[c] && m[j]
    ensures Print(m) == Print(Part(m, 0, c)) + "," + Print(Part(m, c, CPU_SETSIZE))
  {
    var lo, hi := Part(m, 0, c), Part(m, c, CPU_SETSIZE);
    RenderSplit(m, 0, c);
    RenderSkip(hi, 0, c);
    RenderShows(lo, 0, i);
    RenderShows(hi, 0, j);
    RenderComma(lo, 0);
    hide Render, Part;
    var x, y := Render(lo, 0), Render(hi, 0);
    assert x == x[..|x| - 1] + ",";
    assert (x + y)[..|x| + |y| - 1] == x + y[..|y| - 1];
  }

  lemma {:induction false} RenderSkip(m: Mask, i: nat, j: nat)
    requires i <= j <= CPU_SETSIZE && forall k :: i <= k < j ==> !m[k]
    ensures Render(m, i) == Render(m, j)
    decreases j - i
  {
    if i < j { RenderSkip(m, i + 1, j); }
  }

  lemma RunUnique(m: Mask, j: nat, n: nat)
    requires j + n <= CPU_SETSIZE && (forall k :: j <= k < j + n ==> m[k]) && (j + n < CPU_SETSIZE ==> !m[j + n])
    ensures RunFrom(m, j) == n
  {
    var r := RunFrom(m, j);
    hide RunFrom;
    assert r >= n;
  }

  lemma RenderShows(m: Mask, i: nat, k: nat)
    requires i <= k < CPU_SETSIZE && m[k]
    ensures Render(m, i) != ""
  {
    if Render(m, i) == "" { RenderEmpty(m, i); }
  }

  predicate Closed(s: string) { s != "" && s[|s| - 1] == ',' }

  lemma {:induction false} RenderComma(m: Mask, i: nat)
    requires i <= CPU_SETSIZE && Render(m, i) != ""
    ensures Closed(Render(m, i))
    decreases CPU_SETSIZE - i
  {
    hide Render, RunFrom, EntryText, Closed;
    RenderEnd(m);
    RenderStep(m, i);
    if !m[i] {
      RenderComma(m, i + 1);
    } else {
      var run := RunFrom(m, i + 1);
      var rest := Render(m, i + run + 1);
      if rest != "" { RenderComma(m, i + run + 1); }
      ClosedBy(i, run, rest);
    }
  }

  lemma ClosedBy(i: nat, run: nat, rest: string)
    requires rest != "" ==> Closed(rest)
    ensures Closed(EntryText(i, run) + rest)
  {
    EntryCut(i, run);
    hide EntryText;
  }

  function Prefixed(i: nat, run: nat, rest: string): string { EntryText(i, run) + rest }

  lemma RenderAt(m: Mask, i: nat)
    requires i < CPU_SETSIZE
    ensures Render(m, i) == if !m[i] then Render(m, i + 1) else
      var run := RunFrom(m, i + 1); Prefixed(i, run, Render(m, i + run + 1))
  {
    RenderStep(m, i);
    hide Render, RunFrom, EntryText;
  }

  lemma PrefixedGroups(i: nat, run: nat, y: string, z: string)
    ensures Prefixed(i, run, y + z) == Prefixed(i, run, y) + z
  {
    hide EntryText;
  }

  ghost predicate AgreeFrom(m: Mask, m': Mask, i: nat) { forall k :: i <= k < CPU_SETSIZE ==> m[k] == m'[k] }

  lemma {:induction false} RenderSame(m: Mask, m': Mask, i: nat)
    requires i <= CPU_SETSIZE && AgreeFrom(m, m', i)
    ensures Render(m, i) == Render(m', i)
    decreases CPU_SETSIZE - i
  {
    hide Render, Prefixed, RunFrom, AgreeFrom;
    if i == CPU_SETSIZE {
      RenderEnd(m);
      RenderEnd(m');
    } else {
      SameRun(m, m', i);
      RenderAt(m, i);
      RenderAt(m', i);
      RenderSame(m, m', if m[i] then i + RunFrom(m, i + 1) + 1 else i + 1);
    }
  }

  lemma SameRun(m: Mask, m': Mask, i: nat)
    requires i < CPU_SETSIZE && AgreeFrom(m, m', i)
    ensures m[i] == m'[i] && RunFrom(m, i + 1) == RunFrom(m', i + 1)
    ensures AgreeFrom(m, m', i + 1) && AgreeFrom(m, m', i + RunFrom(m, i + 1) + 1)
  {
    var run := RunFrom(m, i + 1);
    hide RunFrom;
    RunUnique(m', i + 1, run);
  }

  lemma {:induction false} RenderSplit(m: Mask, i: nat, c: nat)
    requires i <= c < CPU_SETSIZE && !m[c]
    ensures Render(m, i) == Render(Part(m, 0, c), i) + Render(Part(m, c, CPU_SETSIZE), c)
    decreases c - i
  {
    hide Part, Render, RunFrom, Prefixed;
    if i == c {
      RenderEdge(m, c);
    } else {
      var lo, hi, run := Part(m, 0, c), Part(m, c, CPU_SETSIZE), RunFrom(m, i + 1);
      RunUpTo(m, i, c);
      RenderAt(m, i);
      RenderAt(lo, i);
      var next := if m[i] then i + run + 1 else i + 1;
      RenderSplit(m, next, c);
      PrefixedGroups(i, run, Render(lo, next), Render(hi, c));
    }
  }

  lemma RenderEdge(m: Mask, c: nat)
    requires c < CPU_SETSIZE
    ensures Render(m, c) == Render(Part(m, 0, c), c) + Render(Part(m, c, CPU_SETSIZE), c)
  {
    hide Render;
    RenderSkip(Part(m, 0, c), c, CPU_SETSIZE);
    RenderEnd(Part(m, 0, c));
    RenderSame(m, Part(m, c, CPU_SETSIZE), c);
  }

  lemma RunUpTo(m: Mask, i: nat, c: nat)
    requires i < c < CPU_SETSIZE && !m[c]
    ensures i + RunFrom(m, i + 1) < c && RunFrom(Part(m, 0, c), i + 1) == RunFrom(m, i + 1)
    ensures Part(m, 0, c)[i] == m[i]
  {
    var run := RunFrom(m, i + 1);
    hide RunFrom;
    assert i + run < c;
    RunUnique(Part(m, 0, c), i + 1, run);
  }
}
