/** CPU sets as text: cpuset_to_cstr and cstr_to_cpuset of armci/src-gemini/armci.c on values. */
module CpuText {
  import opened Arith

  const CPU_SETSIZE := 1024
  const UINT_LIMIT := 0x1_0000_0000

  type Word = n: int | 0 <= n < UINT_LIMIT

  type Mask = m: seq<bool> | |m| == CPU_SETSIZE witness seq(CPU_SETSIZE, i => false)

  function Zero(): Mask { seq(CPU_SETSIZE, i => false) }

  /** CPU_SET, which ignores a cpu out of range. */
  function SetCpu(m: Mask, a: nat): Mask { if a < CPU_SETSIZE then m[a := true] else m }

  // ---------- numerals ----------

  predicate IsDigit(c: char) { '0' <= c <= '9' }

  predicate IsSpace(c: char) { c == ' ' || '\t' <= c <= '\r' }

  function Digit(d: nat): (c: char)
    requires d < 10
    ensures IsDigit(c) && Value(c) == d
  {
    "0123456789"[d]
  }

  function Value(c: char): nat
    requires IsDigit(c)
  {
    (c as int) - ('0' as int)
  }

  /** printf's %d of a nonnegative number. */
  function Dec(n: nat): (s: string)
    ensures |s| >= 1 && forall i :: 0 <= i < |s| ==> IsDigit(s[i])
  {
    if n < 10 then [Digit(n)] else Dec(n / 10) + [Digit(n % 10)]
  }

  /** Length of the run of digits that s starts with. */
  function DigitRun(s: string): (n: nat)
    ensures n <= |s|
  {
    if s == "" || !IsDigit(s[0]) then 0 else 1 + DigitRun(s[1..])
  }

  function Number(s: string): nat
    requires forall i :: 0 <= i < |s| ==> IsDigit(s[i])
  {
    if s == "" then 0 else 10 * Number(s[..|s| - 1]) + Value(s[|s| - 1])
  }

  datatype Scan = NoNumber | Got(value: Word)

  /** Digits at the start of s, which may be negated as scanf's %u allows. */
  function ScanDigits(s: string, negative: bool): Scan {
    var n := DigitRun(s);
    DigitRunSpec(s);
    if n == 0 then NoNumber
    else
      var v := Number(s[..n]) % UINT_LIMIT;
      Got(if negative && v > 0 then UINT_LIMIT - v else v)
  }

  /** sscanf(s, "%u", &v) into 32 bits. */
  function ScanUnsigned(s: string): Scan {
    if s != "" && IsSpace(s[0]) then ScanUnsigned(s[1..])
    else if s != "" && s[0] in "+-" then ScanDigits(s[1..], s[0] == '-')
    else ScanDigits(s, false)
  }

  lemma {:induction false} DigitRunSpec(s: string)
    ensures var n := DigitRun(s); (forall i :: 0 <= i < n ==> IsDigit(s[i])) && (n < |s| ==> !IsDigit(s[n]))
  {
    if s != "" && IsDigit(s[0]) {
      DigitRunSpec(s[1..]);
      var n := DigitRun(s[1..]);
      assert forall i :: 1 <= i < n + 1 ==> s[i] == s[1..][i - 1];
    }
  }

  lemma {:induction false} NumberOfDec(n: nat)
    ensures Number(Dec(n)) == n
  {
    if n < 10 {
      assert Dec(n)[..0] == "" && Number(Dec(n)[..0]) == 0;
    } else {
      NumberOfDec(n / 10);
      assert Dec(n)[..|Dec(n)| - 1] == Dec(n / 10);
    }
  }

  lemma DigitRunOf(d: string, rest: string)
    requires (forall i :: 0 <= i < |d| ==> IsDigit(d[i])) && (rest != "" ==> !IsDigit(rest[0]))
    ensures DigitRun(d + rest) == |d| && (d + rest)[..|d|] == d
  {
    var s := d + rest;
    DigitRunSpec(s);
    assert forall i :: 0 <= i < |d| ==> s[i] == d[i];
    assert rest != "" ==> s[|d|] == rest[0];
  }

  /** A printed number is read back up to whatever follows it. */
  lemma {:induction false} ScanOfDec(n: nat, rest: string)
    requires n < UINT_LIMIT && (rest != "" ==> !IsDigit(rest[0]))
    ensures ScanUnsigned(Dec(n) + rest) == Got(n)
  {
    var s := Dec(n) + rest;
    assert s[0] == Dec(n)[0];
    DigitRunOf(Dec(n), rest);
    NumberOfDec(n);
    ModUnique(n, UINT_LIMIT, 0, n);
    hide Number, Dec, DigitRun;
    assert !IsSpace(s[0]) && s[0] !in "+-";
    assert ScanUnsigned(s) == ScanDigits(s, false);
  }

  // ---------- parsing ----------

  /** strchr: position of the first c in s, -1 if there is none. */
  function Find(s: string, c: char): (i: int)
    ensures -1 <= i < |s|
  {
    if s == "" then -1
    else if s[0] == c then 0
    else var i := Find(s[1..], c); if i < 0 then -1 else i + 1
  }

  lemma {:induction false} FindSpec(s: string, c: char)
    ensures var i := Find(s, c);
      && (i >= 0 ==> s[i] == c && forall k :: 0 <= k < i ==> s[k] != c)
      && (i < 0 ==> forall k :: 0 <= k < |s| ==> s[k] != c)
  {
    if s != "" && s[0] != c {
      FindSpec(s[1..], c);
      var i := Find(s[1..], c);
      assert forall k :: 1 <= k < |s| ==> s[k] == s[1..][k - 1];
    }
  }

  lemma FindUnique(s: string, c: char, i: nat)
    requires i < |s| && s[i] == c && forall k :: 0 <= k < i ==> s[k] != c
    ensures Find(s, c) == i
  {
    FindSpec(s, c);
  }

  lemma FindNone(s: string, c: char)
    requires forall k :: 0 <= k < |s| ==> s[k] != c
    ensures Find(s, c) == -1
  {
    FindSpec(s, c);
  }

  /** `Loops` is a call that does not return. */
  datatype Outcome = Done(mask: Mask) | Bad(mask: Mask) | Loops

  /** Where n times `a += step` on 32 bits leads. */
  function Nth(a: Word, step: Word, n: nat): Word { (a + n * step) % UINT_LIMIT }

  /** `while (a <= b) a += step` ends. */
  ghost predicate Passes(a: Word, b: Word, step: Word) {
    exists n: nat :: Nth(a, step, n) > b
  }

  /** How often its body is executed. */
  ghost function Turns(a: Word, b: Word, step: Word): (n: nat)
    requires Passes(a, b, step)
    ensures Nth(a, step, n) > b && forall k: nat :: k < n ==> Nth(a, step, k) <= b
  {
    var n: nat :| Nth(a, step, n) > b;
    TurnsFrom(a, b, step, 0, n)
  }

  ghost function TurnsFrom(a: Word, b: Word, step: Word, k: nat, n: nat): (r: nat)
    requires k <= n && Nth(a, step, n) > b && forall j: nat :: j < k ==> Nth(a, step, j) <= b
    ensures Nth(a, step, r) > b && forall j: nat :: j < r ==> Nth(a, step, j) <= b
    decreases n - k
  {
    if Nth(a, step, k) > b then k else TurnsFrom(a, b, step, k + 1, n)
  }

  /** One turn of the loop leaves one turn less. */
  lemma TurnTaken(a: Word, b: Word, step: Word)
    requires Passes(a, b, step) && a <= b
    ensures Passes(Nth(a, step, 1), b, step) && Turns(Nth(a, step, 1), b, step) < Turns(a, b, step)
  {
    assert Nth(a, step, 0) == a;
    hide Nth;
    var n := Turns(a, b, step);
    assert n > 0;
    NthNext(a, step, n - 1);
  }

  lemma NthNext(a: Word, step: Word, n: nat)
    ensures Nth(Nth(a, step, 1), step, n) == Nth(a, step, n + 1)
  {
    assert (n + 1) * step == n * step + step;
    var x := a + step;
    SameRemainder(x % UINT_LIMIT + n * step, x + n * step, UINT_LIMIT);
    assert x - x % UINT_LIMIT == UINT_LIMIT * (x / UINT_LIMIT);
    ModOfMultiple(UINT_LIMIT, -(x / UINT_LIMIT));
  }

  /** The cpus from a to b by step, added on 32 bits. */
  ghost function SetRange(m: Mask, a: Word, b: Word, step: Word): Mask
    decreases if Passes(a, b, step) then Turns(a, b, step) else 0
  {
    if a > b || !Passes(a, b, step) then m
    else
      TurnTaken(a, b, step);
      SetRange(SetCpu(m, a), Nth(a, step, 1), b, step)
  }

  lemma SetRangeStep(m: Mask, a: Word, b: Word, step: Word)
    requires Passes(a, b, step) && a <= b
    ensures SetRange(m, a, b, step) == SetRange(SetCpu(m, a), (a + step) % UINT_LIMIT, b, step)
    ensures Nth(a, step, 1) == (a + step) % UINT_LIMIT
  {}

  lemma SetRangeEnd(m: Mask, a: Word, b: Word, step: Word)
    requires a > b
    ensures SetRange(m, a, b, step) == m
  {}

  // ---------- which ranges end ----------

  /** The greatest power of two that divides a nonzero stride. */
  function LowBit(step: nat): (g: nat)
    requires step > 0
    ensures g >= 1
  {
    if step % 2 == 1 then 1 else 2 * LowBit(step / 2)
  }

  /** A test before the loop: with a nonzero stride the number comes up to the last one below 2^32 that
      agrees with the first modulo LowBit(step). */
  predicate Returns(a: Word, b: Word, step: Word) {
    a > b || (step > 0 && b < UINT_LIMIT - LowBit(step) + a % LowBit(step))
  }

  lemma {:induction false} LowBitSplits(step: nat) returns (j: nat, u: nat)
    requires 0 < step < UINT_LIMIT
    ensures u % 2 == 1 && j < 32 && LowBit(step) == Pow2(j) && step == Pow2(j) * u
    decreases step
  {
    if step % 2 == 1 {
      j, u := 0, step;
    } else {
      j, u := LowBitSplits(step / 2);
      j := j + 1;
      assert step == 2 * (Pow2(j - 1) * u);
      if j == 32 {
        TwoTo32();
        MulSign(UINT_LIMIT, u);
      }
    }
  }

  /** An odd multiplier reaches every remainder modulo a power of two. */
  lemma {:induction false} OddReaches(u: nat, c: int, k: nat) returns (n: nat)
    requires u % 2 == 1
    ensures (n * u - c) % Pow2(k) == 0
  {
    if k == 0 {
      n := 0;
    } else {
      n := OddReaches(u, c, k - 1);
      n := OddStep(u, c, n, Pow2(k - 1));
    }
  }

  lemma OddStep(u: nat, c: int, n0: nat, p: nat) returns (n: nat)
    requires u % 2 == 1 && p > 0 && (n0 * u - c) % p == 0
    ensures (n * u - c) % (2 * p) == 0
  {
    Distribute(n0, p, u);
    Lift(n0 * u - c, p, u);
    n := if (n0 * u - c) % (2 * p) == 0 then n0 else n0 + p;
  }

  lemma Lift(x: int, p: int, u: int)
    requires u % 2 == 1 && p > 0 && x % p == 0
    ensures x % (2 * p) == 0 || (x + p * u) % (2 * p) == 0
  {
    MultipleQuotient(x, p);
    LiftMultiple(x / p, p, u);
  }

  lemma LiftMultiple(q: int, p: int, u: int)
    requires u % 2 == 1 && p > 0
    ensures (p * q) % (2 * p) == 0 || (p * q + p * u) % (2 * p) == 0
  {
    if q % 2 == 0 {
      TwiceHalf(p, q);
    } else {
      TwiceHalf(p, q + u);
      Distribute(q, u, p);
    }
  }

  lemma Distribute(x: int, y: int, z: int)
    ensures (x + y) * z == x * z + y * z
  {}

  lemma TwiceHalf(p: int, q: int)
    requires p > 0 && q % 2 == 0
    ensures (q * p) % (2 * p) == 0
  {
    assert q * p == (2 * p) * (q / 2);
    ModOfMultiple(2 * p, q / 2);
  }

  /** No value of the loop variable is past the last that agrees with the first. */
  lemma NthBelow(a: Word, step: Word, n: nat)
    requires step > 0
    ensures Nth(a, step, n) <= UINT_LIMIT - LowBit(step) + a % LowBit(step)
  {
    var j, u := LowBitSplits(step);
    TwoTo32();
    Pow2Divides(j, 32);
    hide Pow2, LowBit;
    SameClass(a, n, u, step, Pow2(j));
    LastOfClass(Nth(a, step, n), a % Pow2(j), Pow2(j));
  }

  lemma SameClass(a: Word, n: nat, u: nat, step: Word, g: int)
    requires g > 0 && UINT_LIMIT % g == 0 && step == g * u
    ensures (Nth(a, step, n) - a % g) % g == 0
  {
    var x := a + n * step;
    ModOfMod(x, UINT_LIMIT, g);
    assert n * step == g * (n * u);
    ModOfMultiple(g, n * u);
    SameRemainder(x, a, g);
    SubtractRem(Nth(a, step, n), g);
  }

  lemma LastOfClass(y: int, r: int, g: int)
    requires 0 <= y < UINT_LIMIT && 0 <= r < g && (y - r) % g == 0 && UINT_LIMIT % g == 0
    ensures y <= UINT_LIMIT - g + r
  {
    if y > UINT_LIMIT - g + r {
      MultipleQuotient(y - r, g);
      MultipleQuotient(UINT_LIMIT, g);
      var q := UINT_LIMIT / g - (y - r) / g;
      assert g * q == UINT_LIMIT - (y - r);
      MulSign(g, q);
    }
  }

  /** ... and that one is reached. */
  lemma NthReaches(a: Word, step: Word) returns (n: nat)
    requires step > 0
    ensures Nth(a, step, n) == UINT_LIMIT - LowBit(step) + a % LowBit(step)
  {
    var j, u := LowBitSplits(step);
    var g := Pow2(j);
    TwoTo32();
    Pow2Divides(j, 32);
    var c := LastDistance(a, g);
    n := OddReaches(u, c, 32);
    hide Pow2, LowBit;
    Reached(a, step, n, g, u, c, UINT_LIMIT - g + a % g);
  }

  lemma LastDistance(a: Word, g: int) returns (c: int)
    requires g > 0 && UINT_LIMIT % g == 0
    ensures UINT_LIMIT - g + a % g - a == g * c
  {
    var w, q := UINT_LIMIT / g, a / g;
    MultipleQuotient(UINT_LIMIT, g);
    assert a == g * q + a % g;
    c := w - 1 - q;
    assert g * c == g * w - g - g * q;
  }

  lemma Reached(a: Word, step: Word, n: nat, g: int, u: nat, c: int, t: Word)
    requires step == g * u && t - a == g * c && (n * u - c) % UINT_LIMIT == 0
    ensures Nth(a, step, n) == t
  {
    var q := (n * u - c) / UINT_LIMIT;
    MultipleQuotient(n * u - c, UINT_LIMIT);
    assert n * step == g * (n * u);
    assert g * (n * u) - g * c == g * (n * u - c) == g * (UINT_LIMIT * q) == UINT_LIMIT * (g * q);
    ModUnique(a + n * step, UINT_LIMIT, g * q, t);
  }

  /** The loop over a range, with 32-bit wrap-around, returns exactly when the test says so. */
  lemma ReturnsIff(a: Word, b: Word, step: Word)
    ensures Returns(a, b, step) <==> Passes(a, b, step)
  {
    assert Nth(a, step, 0) == a;
    if Returns(a, b, step) && a <= b {
      var n := NthReaches(a, step);
    }
    if Passes(a, b, step) && a <= b {
      var n: nat :| Nth(a, step, n) > b;
      if step > 0 { NthBelow(a, step, n); }
    }
  }

  /** Entry of one token: its first cpu, last cpu and stride. */
  datatype Entry = NoEntry | Entry(a: Word, b: Word, step: Word)

  /** Offset `i` lies in the token that a comma at `comma`, if there is one, ends. */
  predicate InToken(i: int, comma: int) { i >= 0 && (comma < 0 || i < comma) }

  function ReadEntry(s: string): Entry {
    var comma, dash := Find(s, ','), Find(s, '-');
    match ScanUnsigned(s)
    case NoNumber => NoEntry
    case Got(a) =>
      if !InToken(dash, comma) then Entry(a, a, 1)
      else
        match ScanUnsigned(s[dash + 1..])
        case NoNumber => NoEntry
        case Got(b) =>
          var colon := Find(s[dash + 1..], ':');
          if colon < 0 || !InToken(dash + 1 + colon, comma) then Entry(a, b, 1)
          else
            match ScanUnsigned(s[dash + 1 + colon + 1..])
            case NoNumber => NoEntry
            case Got(step) => Entry(a, b, step)
  }

  /** cstr_to_cpuset from the start of some token. */
  ghost function ParseFrom(s: string, m: Mask): Outcome
    decreases |s|
  {
    match ReadEntry(s)
    case NoEntry => Bad(m)
    case Entry(a, b, step) =>
      if a > b then Bad(m)
      else if !Passes(a, b, step) then Loops
      else
        var m' := SetRange(m, a, b, step);
        var comma := Find(s, ',');
        if comma < 0 then Done(m') else ParseFrom(s[comma + 1..], m')
  }

  ghost function Parse(s: string): Outcome { ParseFrom(s, Zero()) }

  // ---------- printing ----------

  /** Set cpus from j on without a gap. */
  function RunFrom(m: Mask, j: nat): (n: nat)
    requires j <= CPU_SETSIZE
    ensures j + n <= CPU_SETSIZE
    ensures (forall k :: j <= k < j + n ==> m[k]) && (j + n < CPU_SETSIZE ==> !m[j + n])
    decreases CPU_SETSIZE - j
  {
    if j < CPU_SETSIZE && m[j] then 1 + RunFrom(m, j + 1) else 0
  }

  /** Text of cpu i followed by `run` more. */
  function EntryText(i: nat, run: nat): (s: string)
    ensures s != ""
  {
    if run == 0 then Dec(i) + ","
    else if run == 1 then Dec(i) + "," + Dec(i + 1) + ","
    else Dec(i) + "-" + Dec(i + run) + ","
  }

  /** The entries of cpus i and up, each with a comma after it. */
  function Render(m: Mask, i: nat): string
    requires i <= CPU_SETSIZE
    decreases CPU_SETSIZE - i
  {
    if i == CPU_SETSIZE then ""
    else if !m[i] then Render(m, i + 1)
    else var run := RunFrom(m, i + 1); EntryText(i, run) + Render(m, i + run + 1)
  }

  lemma RenderStep(m: Mask, i: nat)
    requires i < CPU_SETSIZE
    ensures Render(m, i) == if !m[i] then Render(m, i + 1) else
      var run := RunFrom(m, i + 1); EntryText(i, run) + Render(m, i + run + 1)
  {}

  lemma RenderEnd(m: Mask)
    ensures Render(m, CPU_SETSIZE) == ""
  {}

  /** cpuset_to_cstr. */
  function Print(m: Mask): string {
    var s := Render(m, 0);
    if s == "" then "" else s[..|s| - 1]
  }

  // ---------- parsing what was printed ----------

  /** s without what comes after its last character. */
  function Cut(s: string): string { if s == "" then "" else s[..|s| - 1] }

  lemma OneEntry(a: nat, rest: string, m: Mask)
    requires a < CPU_SETSIZE
    ensures ParseFrom(Dec(a), m) == Done(m[a := true])
    ensures ParseFrom(Dec(a) + "," + rest, m) == ParseFrom(rest, m[a := true])
  {
    ReadOne(a, rest);
    PassesUnit(a, a);
    SetTwo(a, m);
    hide Passes, SetRange;
    FindNone(Dec(a), ',');
    var s := Dec(a) + "," + rest;
    FindUnique(s, ',', |Dec(a)|);
    assert s[|Dec(a)| + 1..] == rest;
  }

  lemma ReadOne(a: nat, rest: string)
    requires a < CPU_SETSIZE
    ensures ReadEntry(Dec(a)) == Entry(a, a, 1) && ReadEntry(Dec(a) + "," + rest) == Entry(a, a, 1)
  {
    hide ScanUnsigned, Dec;
    assert Dec(a) + "" == Dec(a);
    ScanOfDec(a, "");
    FindNone(Dec(a), '-');
    var s := Dec(a) + "," + rest;
    assert s == Dec(a) + ("," + rest);
    ScanOfDec(a, "," + rest);
    FindUnique(s, ',', |Dec(a)|);
    FindSpec(s, '-');
  }

  lemma PassesUnit(a: Word, b: Word)
    requires a <= b + 1 <= CPU_SETSIZE
    ensures Passes(a, b, 1) && Nth(a, 1, 1) == a + 1
  {
    assert Nth(a, 1, b + 1 - a) == b + 1;
  }

  lemma RangeEntry(a: nat, b: nat, rest: string, m: Mask)
    requires a <= b < CPU_SETSIZE
    ensures ParseFrom(Dec(a) + "-" + Dec(b), m) == Done(SetRange(m, a, b, 1))
    ensures ParseFrom(Dec(a) + "-" + Dec(b) + "," + rest, m) == ParseFrom(rest, SetRange(m, a, b, 1))
  {
    ReadRange(a, b, rest);
    PassesUnit(a, b);
    hide SetRange, ReadEntry, Passes, Dec;
    var t := Dec(a) + "-" + Dec(b);
    NoComma(a, b);
    FindNone(t, ',');
    var s := t + "," + rest;
    FindUnique(s, ',', |t|);
    assert s[|t| + 1..] == rest;
  }

  lemma NoComma(a: nat, b: nat)
    ensures var t := Dec(a) + "-" + Dec(b); forall k :: 0 <= k < |t| ==> t[k] != ','
  {
    hide Dec;
  }

  lemma ReadRange(a: nat, b: nat, rest: string)
    requires a <= b < CPU_SETSIZE
    ensures ReadEntry(Dec(a) + "-" + Dec(b)) == Entry(a, b, 1)
    ensures ReadEntry(Dec(a) + "-" + Dec(b) + "," + rest) == Entry(a, b, 1)
  {
    hide ScanUnsigned, Dec;
    NoComma(a, b);
    var n, t := |Dec(a)|, Dec(a) + "-" + Dec(b);
    assert t == Dec(a) + ("-" + Dec(b)) && t[n + 1..] == Dec(b) + "";
    ScanOfDec(a, "-" + Dec(b));
    ScanOfDec(b, "");
    FindUnique(t, '-', n);
    FindNone(t, ',');
    FindNone(t[n + 1..], ':');
    var s := t + "," + rest;
    assert s == Dec(a) + ("-" + Dec(b) + "," + rest) && s[n + 1..] == Dec(b) + ("," + rest);
    ScanOfDec(a, "-" + Dec(b) + "," + rest);
    ScanOfDec(b, "," + rest);
    FindUnique(s, '-', n);
    FindUnique(s, ',', |t|);
    FindSpec(s[n + 1..], ':');
  }

  /** m below cpu i, nothing from there on. */
  ghost predicate Below(acc: Mask, m: Mask, i: nat) {
    forall k :: 0 <= k < CPU_SETSIZE ==> acc[k] == (k < i && m[k])
  }

  lemma {:induction false} SetRangeIs(m: Mask, a: nat, b: nat)
    requires a <= b + 1 <= CPU_SETSIZE
    ensures forall k :: 0 <= k < CPU_SETSIZE ==> SetRange(m, a, b, 1)[k] == (m[k] || a <= k <= b)
    decreases b - a
  {
    PassesUnit(a, b);
    hide Passes, Nth;
    if a <= b { SetRangeIs(m[a := true], a + 1, b); }
  }

  lemma {:induction false} RenderEmpty(m: Mask, i: nat)
    requires i <= CPU_SETSIZE && Render(m, i) == ""
    ensures forall k :: i <= k < CPU_SETSIZE ==> !m[k]
    decreases CPU_SETSIZE - i
  {
    if i < CPU_SETSIZE && !m[i] { RenderEmpty(m, i + 1); }
  }

  /** The entries of cpus i and up, parsed into a mask that already has the cpus below i. */
  lemma {:induction false} ParseRendered(m: Mask, i: nat, acc: Mask)
    requires i <= CPU_SETSIZE && Below(acc, m, i) && Render(m, i) != ""
    ensures ParseFrom(Cut(Render(m, i)), acc) == Done(m)
    decreases CPU_SETSIZE - i
  {
    hide Render, Below, SetRange, ParseFrom, EntryText, Cut, RunFrom;
    RenderEnd(m);
    assert i < CPU_SETSIZE;
    RenderStep(m, i);
    if !m[i] {
      BelowSkip(acc, m, i);
      ParseRendered(m, i + 1, acc);
    } else {
      var run := RunFrom(m, i + 1);
      var rest := Render(m, i + run + 1);
      var acc' := SetRange(acc, i, i + run, 1);
      EntryParses(i, run, acc, Cut(rest));
      BelowRun(acc, m, i, run);
      CutEntry(EntryText(i, run), rest);
      if rest == "" { BelowAll(acc', m, i + run + 1); } else { ParseRendered(m, i + run + 1, acc'); }
    }
  }

  lemma CutEntry(e: string, rest: string)
    requires e != ""
    ensures Cut(e + rest) == if rest == "" then Cut(e) else e + Cut(rest)
  {
    if rest == "" { assert e + rest == e; }
  }

  lemma BelowSkip(acc: Mask, m: Mask, i: nat)
    requires Below(acc, m, i) && i < CPU_SETSIZE && !m[i]
    ensures Below(acc, m, i + 1)
  {}

  lemma BelowRun(acc: Mask, m: Mask, i: nat, run: nat)
    requires Below(acc, m, i) && i < CPU_SETSIZE && m[i] && run == RunFrom(m, i + 1)
    ensures i + run + 1 <= CPU_SETSIZE && Below(SetRange(acc, i, i + run, 1), m, i + run + 1)
  {
    SetRangeIs(acc, i, i + run);
    hide SetRange;
  }

  lemma BelowAll(acc: Mask, m: Mask, i: nat)
    requires Below(acc, m, i) && i <= CPU_SETSIZE && Render(m, i) == ""
    ensures acc == m
  {
    RenderEmpty(m, i);
    hide Render;
  }

  /** The text of a run, alone or with more after it. */
  lemma EntryParses(i: nat, run: nat, m: Mask, rest: string)
    requires i + run < CPU_SETSIZE
    ensures ParseFrom(Cut(EntryText(i, run)), m) == Done(SetRange(m, i, i + run, 1))
    ensures ParseFrom(EntryText(i, run) + rest, m) == ParseFrom(rest, SetRange(m, i, i + run, 1))
  {
    SetTwo(i, m);
    hide ParseFrom, SetRange, Dec;
    if run == 0 {
      OneEntry(i, rest, m);
      assert Cut(EntryText(i, run)) == Dec(i);
    } else if run == 1 {
      PairParses(i, m, rest);
    } else {
      RangeEntry(i, i + run, rest, m);
      assert Cut(EntryText(i, run)) == Dec(i) + "-" + Dec(i + run);
      assert EntryText(i, run) + rest == Dec(i) + "-" + Dec(i + run) + "," + rest;
    }
  }

  lemma SetTwo(i: nat, m: Mask)
    requires i < CPU_SETSIZE
    ensures SetRange(m, i, i, 1) == m[i := true]
    ensures i + 1 < CPU_SETSIZE ==> SetRange(m, i, i + 1, 1) == m[i := true][i + 1 := true]
  {
    PassesUnit(i, i);
    SetRangeStep(m, i, i, 1);
    SetRangeEnd(m[i := true], i + 1, i, 1);
    if i + 1 < CPU_SETSIZE {
      PassesUnit(i, i + 1);
      PassesUnit(i + 1, i + 1);
      hide Passes, SetRange, Nth;
      SetRangeStep(m, i, i + 1, 1);
      SetRangeStep(m[i := true], i + 1, i + 1, 1);
      SetRangeEnd(m[i := true][i + 1 := true], i + 2, i + 1, 1);
    }
  }

  lemma PairParses(i: nat, m: Mask, rest: string)
    requires i + 1 < CPU_SETSIZE
    ensures ParseFrom(Cut(EntryText(i, 1)), m) == Done(m[i := true][i + 1 := true])
    ensures ParseFrom(EntryText(i, 1) + rest, m) == ParseFrom(rest, m[i := true][i + 1 := true])
  {
    hide ParseFrom, Dec;
    var t := Dec(i + 1);
    OneEntry(i, t, m);
    OneEntry(i, t + "," + rest, m);
    OneEntry(i + 1, rest, m[i := true]);
    assert Cut(EntryText(i, 1)) == Dec(i) + "," + t;
    assert EntryText(i, 1) + rest == Dec(i) + "," + (t + "," + rest);
  }

  /** Parsing undoes printing, exactly on the masks that are not empty. */
  lemma ParseUndoesPrint(m: Mask)
    ensures Parse(Print(m)) == Done(m) <==> exists k :: 0 <= k < CPU_SETSIZE && m[k]
    ensures (forall k :: 0 <= k < CPU_SETSIZE ==> !m[k]) ==> Print(m) == "" && Parse(Print(m)) == Bad(Zero())
  {
    if Render(m, 0) == "" {
      RenderEmpty(m, 0);
    } else {
      ParseRendered(m, 0, Zero());
      RenderSome(m, 0);
    }
  }

  lemma {:induction false} RenderSome(m: Mask, i: nat)
    requires i <= CPU_SETSIZE && Render(m, i) != ""
    ensures exists k :: i <= k < CPU_SETSIZE && m[k]
    decreases CPU_SETSIZE - i
  {
    if !m[i] { RenderSome(m, i + 1); }
  }
}
