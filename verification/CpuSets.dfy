/** cpuset_to_cstr and cstr_to_cpuset of armci/src-gemini/armci.c as they work. */
module CpuSets {
  import opened CpuText

  ghost function Of(mask: array<bool>): Mask
    requires mask.Length == CPU_SETSIZE
    reads mask
  {
    mask[..]
  }

  // ---------- printing ----------

  method CpusetToCstr(mask: array<bool>) returns (str: string)
    requires mask.Length == CPU_SETSIZE
    ensures str == Print(Of(mask))
  {
    ghost var m := Of(mask);
    hide Render, RunFrom, Dec, EntryText, Print, Printed;
    PrintedNone(m);
    str := "";
    var entryMade := 0;
    var i := 0;
    while i < CPU_SETSIZE
      invariant 0 <= i <= CPU_SETSIZE && Printed(m, i, str)
      invariant entryMade == if |str| == 0 then 0 else 1
      decreases CPU_SETSIZE - i
    {
      PrintedStep(m, i, str);
      if mask[i] {
        entryMade := 1;
        var run := CountRun(mask, i + 1);
        assert run == RunFrom(m, i + 1);
        str, i := PrintEntry(str, i, run);
      }
      i := i + 1;
    }
    PrintedAll(m, str);
    str := str[..|str| - entryMade];
  }

  /** str holds the entries of the cpus below i. */
  ghost predicate Printed(m: Mask, i: nat, str: string)
    requires i <= CPU_SETSIZE
  {
    str + Render(m, i) == Render(m, 0)
  }

  lemma PrintedNone(m: Mask)
    ensures Printed(m, 0, "")
  {
    assert "" + Render(m, 0) == Render(m, 0);
  }

  lemma PrintedStep(m: Mask, i: nat, str: string)
    requires i < CPU_SETSIZE && Printed(m, i, str)
    ensures if m[i] then Printed(m, i + RunFrom(m, i + 1) + 1, str + EntryText(i, RunFrom(m, i + 1))) else Printed(m, i + 1, str)
  {
    hide EntryText, RunFrom;
    RenderStep(m, i);
    hide Render;
    if m[i] {
      var run := RunFrom(m, i + 1);
      Associate(str, EntryText(i, run), Render(m, i + run + 1));
    }
  }

  lemma PrintedAll(m: Mask, str: string)
    requires Printed(m, CPU_SETSIZE, str)
    ensures Print(m) == if |str| == 0 then str else str[..|str| - 1]
  {
    RenderEnd(m);
    assert str + "" == str;
  }

  /** The sprintf of one entry, and the cpu it ends at. */
  method PrintEntry(str: string, i: nat, run: nat) returns (str': string, i': nat)
    ensures str' == str + EntryText(i, run) && |str'| > |str| && i' == i + run
  {
    i' := i;
    if run == 0 {
      str' := str + (Dec(i) + ",");
    } else if run == 1 {
      str' := str + (Dec(i) + "," + Dec(i + 1) + ",");
      i' := i' + 1;
    } else {
      str' := str + (Dec(i) + "-" + Dec(i + run) + ",");
      i' := i' + run;
    }
  }

  lemma Associate(a: string, b: string, c: string)
    ensures (a + b) + c == a + (b + c)
  {}

  method CountRun(mask: array<bool>, start: nat) returns (run: nat)
    requires mask.Length == CPU_SETSIZE && start <= CPU_SETSIZE
    ensures run == RunFrom(Of(mask), start)
  {
    run := 0;
    var j := start;
    while j < CPU_SETSIZE
      invariant start <= j <= CPU_SETSIZE && j == start + run
      invariant RunFrom(Of(mask), start) == run + RunFrom(Of(mask), j)
    {
      if mask[j] { run := run + 1; } else { break; }
      j := j + 1;
    }
  }

  // ---------- parsing ----------

  /** nexttoken: the offset after the next `sep` at or after p, -1 for NULL. */
  method NextToken(s: string, p: int, sep: char) returns (q: int)
    requires -1 <= p <= |s|
    ensures q == if p < 0 || Find(s[p..], sep) < 0 then -1 else p + Find(s[p..], sep) + 1
    ensures -1 <= q <= |s|
  {
    q := p;
    if q >= 0 {
      while q < |s| && s[q] != sep
        invariant p <= q <= |s| && Find(s[p..], sep) == if Find(s[q..], sep) < 0 then -1 else Find(s[q..], sep) + (q - p)
      {
        assert s[q..][1..] == s[q + 1..];
        q := q + 1;
      }
      if q == |s| { q := -1; }
    }
    if q >= 0 { q := q + 1; }
  }

  datatype Result = Ok | Failed | Hangs

  ghost predicate Agrees(r: Result, m: Mask, o: Outcome) {
    match o
    case Done(m') => r == Ok && m == m'
    case Bad(m') => r == Failed && m == m'
    case Loops => r == Hangs
  }

  /** Returns 0 (Ok) or 1 (Failed) in the original; Hangs marks the calls that do not return.
      Whatever the mask held before is lost. */
  method CstrToCpuset(mask: array<bool>, str: string) returns (r: Result)
    requires mask.Length == CPU_SETSIZE
    modifies mask
    ensures Agrees(r, Of(mask), Parse(str))
  {
    hide Find, ScanUnsigned, ReadEntry, SetRange, Returns, Passes, ParseFrom, Zero;
    Clear(mask);
    var p, q := 0, 0;
    while true
      invariant 0 <= q <= |str| && ParseFrom(str[q..], Of(mask)) == Parse(str)
      decreases |str| - q
    {
      p := q;
      q := NextToken(str, q, ',');
      ghost var s := str[p..];
      ParseStep(s, Of(mask));
      var ok, a, b, step := ReadToken(str, p);
      if !ok || !(a <= b) { return Failed; }
      ReturnsIff(a, b, step);
      if !Returns(a, b, step) { return Hangs; }
      FillRange(mask, a, b, step);
      if q < 0 { return Ok; }
      assert s[Find(s, ',') + 1..] == str[q..];
    }
  }

  lemma ParseStep(s: string, m: Mask)
    ensures ParseFrom(s, m) == match ReadEntry(s)
      case NoEntry => Bad(m)
      case Entry(a, b, step) =>
        if a > b then Bad(m)
        else if !Passes(a, b, step) then Loops
        else
          var m' := SetRange(m, a, b, step);
          if Find(s, ',') < 0 then Done(m') else ParseFrom(s[Find(s, ',') + 1..], m')
  {}

  method Clear(mask: array<bool>)
    requires mask.Length == CPU_SETSIZE
    modifies mask
    ensures Of(mask) == Zero()
  {
    var i := 0;
    while i < mask.Length
      invariant 0 <= i <= mask.Length && forall k :: 0 <= k < i ==> !mask[k]
    {
      mask[i] := false;
      i := i + 1;
    }
  }

  method FillRange(mask: array<bool>, a: Word, b: Word, step: Word)
    requires mask.Length == CPU_SETSIZE && Passes(a, b, step)
    modifies mask
    ensures Of(mask) == SetRange(old(Of(mask)), a, b, step)
  {
    hide Passes, Nth, SetRange;
    var x: Word := a;
    while x <= b
      invariant Passes(x, b, step) && SetRange(Of(mask), x, b, step) == SetRange(old(Of(mask)), a, b, step)
      decreases Turns(x, b, step)
    {
      ghost var m := Of(mask);
      TurnTaken(x, b, step);
      SetRangeStep(m, x, b, step);
      if x < CPU_SETSIZE { mask[x] := true; }
      assert Of(mask) == SetCpu(m, x);
      x := (x + step) % UINT_LIMIT;
    }
    SetRangeEnd(Of(mask), x, b, step);
  }

  /** First cpu, last cpu and stride of the token at p. */
  method ReadToken(s: string, p: nat) returns (ok: bool, a: Word, b: Word, step: Word)
    requires p <= |s|
    ensures ReadEntry(s[p..]) == if ok then Entry(a, b, step) else NoEntry
  {
    hide Find, ScanUnsigned;
    a, b, step := 0, 0, 1;
    var v := ScanUnsigned(s[p..]);
    if v == NoNumber { return false, a, b, step; }
    a := v.value;
    b := a;
    var c1 := NextToken(s, p, '-');
    var c2 := NextToken(s, p, ',');
    if c1 >= 0 && (c2 < 0 || c1 < c2) {
      assert s[p..][Find(s[p..], '-') + 1..] == s[c1..];
      v := ScanUnsigned(s[c1..]);
      if v == NoNumber { return false, a, b, step; }
      b := v.value;
      ghost var d := c1;
      c1 := NextToken(s, c1, ':');
      if c1 >= 0 && (c2 < 0 || c1 < c2) {
        assert s[p..][c1 - p..] == s[c1..];
        v := ScanUnsigned(s[c1..]);
        if v == NoNumber { return false, a, b, step; }
        step := v.value;
      }
    }
    return true, a, b, step;
  }
}
