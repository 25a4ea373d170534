/** The layout of one MA block, `AD gap1 guard1 client_space guard2 gap2`, as the
    trial allocations `balloc_after` and `balloc_before` compute it. */
module MaLayout {
  import opened Arith

  const MT_BASE := 1000
  const MT_NUMTYPES := 17

  /** What the C compiler and the Fortran interface fix before MA_init: the sizes
      of the two bookkeeping records, log2 of ALIGNMENT and of the range of
      `unsigned long`, and ma_base[] and ma_sizeof[]. */
  datatype Config = Config(adSize: int, guardSize: int, alignLog: nat, wordLog: nat,
                           base: seq<int>, size: seq<int>)
  {
    ghost predicate Valid() {
      && adSize > 0 && guardSize > 0
      && alignLog <= wordLog
      && |base| == MT_NUMTYPES == |size|
      && forall t :: 0 <= t < MT_NUMTYPES ==> size[t] > 0
    }

    function Alignment(): (a: int) ensures a > 0 { Pow2(alignLog) }

    function Word(): (w: int) ensures w > 0 { Pow2(wordLog) }

    /** BLOCK_OVERHEAD_FIXED */
    function Overhead(): int { adSize + 2 * guardSize }

    /** max_block_overhead(d) */
    function MaxOverhead(t: int): int
      requires Valid() && ValidIndex(t)
    {
      Overhead() + (size[t] - 1) + (Alignment() - 1)
    }

    /** mai_round(value, ALIGNMENT) */
    function Round(value: int): int {
      AndHigh(value + (Alignment() - 1), alignLog)
    }

    /** MINBLOCKSIZE */
    function MinBlock(): int { Round(Alignment() + Overhead()) }
  }

  /** A datatype after mt_import. */
  predicate ValidIndex(t: int) { 0 <= t < MT_NUMTYPES }

  type TypeIndex = t: int | 0 <= t < MT_NUMTYPES

  /** mt_valid */
  predicate ValidType(d: int) { MT_BASE <= d < MT_BASE + MT_NUMTYPES }

  /** Where a trial allocation puts the client space and how long the block is. */
  datatype Trial = Trial(client: int, nbytes: int)

  // ---------- balloc_after ----------

  /** Start of client space before the power-of-two request is looked at. */
  function FirstClientAfter(cfg: Config, t: int, address: int): int
    requires cfg.Valid() && ValidIndex(t)
  {
    var gap1 := FixedRem(cfg.base[t] - address - cfg.adSize - cfg.guardSize, cfg.size[t]);
    address + cfg.adSize + gap1 + cfg.guardSize
  }

  /** Moves a client space up to the next 2^numalign boundary if that keeps it
      aligned for its element size, and leaves it alone otherwise. */
  function ShiftUp(client: int, numalign: nat, size: int): int
    requires size > 0
  {
    var diff := AndLow(client, numalign);
    if numalign > 0 && diff != 0 && (Pow2(numalign) - diff) % size == 0
    then client + (Pow2(numalign) - diff)
    else client
  }

  function ClientAfter(cfg: Config, numalign: nat, t: int, address: int): int
    requires cfg.Valid() && ValidIndex(t)
  {
    ShiftUp(FirstClientAfter(cfg, t, address), numalign, cfg.size[t])
  }

  function BallocAfter(cfg: Config, numalign: nat, t: int, nelem: int, address: int): Trial
    requires cfg.Valid() && ValidIndex(t)
  {
    var client := ClientAfter(cfg, numalign, t, address);
    var length := nelem * cfg.size[t];
    var gap2 := FixedRem(address - client - length - cfg.guardSize, cfg.Alignment());
    Trial(client, client + length + cfg.guardSize + gap2 - address)
  }

  // ---------- balloc_before ----------

  function BallocBefore(cfg: Config, numalign: nat, t: int, nelem: int, address: int): Trial
    requires cfg.Valid() && ValidIndex(t)
  {
    var length := nelem * cfg.size[t];
    // both remainders are taken in unsigned long
    var gap2 := ((address - cfg.guardSize - length - cfg.base[t]) % cfg.Word()) % cfg.size[t];
    var first := address - gap2 - cfg.guardSize - length;
    var diff := AndLow(first, numalign);
    var client := if numalign > 0 && diff != 0 && diff % cfg.size[t] == 0 then first - diff else first;
    var gap1 := ((client - cfg.guardSize - cfg.adSize) % cfg.Word()) % cfg.Alignment();
    Trial(client, address - client + cfg.guardSize + gap1 + cfg.adSize)
  }

  // ---------- the layout they promise ----------

  /** AD, guard1, client space and guard2 lie in this order inside the block. */
  predicate Contains(cfg: Config, address: int, nbytes: int, client: int, t: int, nelem: int)
    requires cfg.Valid() && ValidIndex(t)
  {
    && address + cfg.adSize <= client - cfg.guardSize
    && 0 <= nelem * cfg.size[t]
    && client + nelem * cfg.size[t] + cfg.guardSize <= address + nbytes
  }

  lemma LengthNonneg(nelem: int, size: int)
    requires nelem >= 0 && size > 0
    ensures nelem * size >= 0
  {}

  lemma RoundIsRoundUp(cfg: Config, v: int)
    ensures cfg.Round(v) == RoundUp(v, cfg.Alignment())
  {
    var a := cfg.Alignment();
    MaskIsMod(v + (a - 1), cfg.alignLog);
    hide Pow2, AndHigh, RoundUp;
    RoundUpByMask(v, a);
  }

  /** mai_round gives the least multiple of ALIGNMENT that is not below its argument. */
  lemma RoundIsLeast(cfg: Config, v: int)
    ensures v <= cfg.Round(v) < v + cfg.Alignment() && cfg.Round(v) % cfg.Alignment() == 0
    ensures forall w :: w >= v && w % cfg.Alignment() == 0 ==> w >= cfg.Round(v)
  {
    RoundIsRoundUp(cfg, v);
    RoundUpIsLeast(v, cfg.Alignment());
  }

  lemma MinBlockBounds(cfg: Config)
    requires cfg.Valid()
    ensures cfg.MinBlock() >= cfg.Overhead() + cfg.Alignment()
    ensures cfg.MinBlock() % cfg.Alignment() == 0
  {
    RoundIsRoundUp(cfg, cfg.Alignment() + cfg.Overhead());
    RoundUpIsLeast(cfg.Alignment() + cfg.Overhead(), cfg.Alignment());
  }

  lemma FirstClientAligned(cfg: Config, t: int, address: int)
    requires cfg.Valid() && ValidIndex(t)
    ensures (FirstClientAfter(cfg, t, address) - cfg.base[t]) % cfg.size[t] == 0
    ensures var gap1 := FirstClientAfter(cfg, t, address) - (address + cfg.adSize + cfg.guardSize);
            0 <= gap1 < cfg.size[t]
  {
    var v := cfg.base[t] - address - cfg.adSize - cfg.guardSize;
    FixedRemIsMod(v, cfg.size[t]);
    SubtractRem(v, cfg.size[t]);
    ModSum(0, v - v % cfg.size[t], cfg.size[t]);
  }

  lemma ShiftUpBounds(client: int, numalign: nat, size: int)
    requires size > 0
    ensures client <= ShiftUp(client, numalign, size) < client + Pow2(numalign)
    ensures (ShiftUp(client, numalign, size) - client) % size == 0
    ensures numalign == 0 ==> ShiftUp(client, numalign, size) == client
  {
    MaskIsMod(client, numalign);
    ModOfMultiple(size, 0);
  }

  /** The block's length is the least multiple of ALIGNMENT that ends after guard2. */
  lemma BlockLength(cfg: Config, numalign: nat, t: int, nelem: int, address: int)
    requires cfg.Valid() && ValidIndex(t)
    ensures var r := BallocAfter(cfg, numalign, t, nelem, address);
            && r.client == ClientAfter(cfg, numalign, t, address)
            && r.nbytes == RoundUp(r.client + nelem * cfg.size[t] + cfg.guardSize - address, cfg.Alignment())
  {
    var client := ClientAfter(cfg, numalign, t, address);
    var length := nelem * cfg.size[t];
    FixedRemIsMod(address - client - length - cfg.guardSize, cfg.Alignment());
    assert address - client - length - cfg.guardSize == -(client + length + cfg.guardSize - address);
  }

  /** A block allocated upward from any address holds its parts in order, starts
      its client space on an element boundary relative to ma_base, is a whole number
      of ALIGNMENT units, and without a power-of-two request wastes at most
      max_block_overhead. */
  lemma BallocAfterLayout(cfg: Config, numalign: nat, t: int, nelem: int, address: int)
    requires cfg.Valid() && ValidIndex(t) && nelem >= 0
    ensures var r := BallocAfter(cfg, numalign, t, nelem, address);
            && Contains(cfg, address, r.nbytes, r.client, t, nelem)
            && (r.client - cfg.base[t]) % cfg.size[t] == 0
            && r.nbytes % cfg.Alignment() == 0
            && r.nbytes >= nelem * cfg.size[t] + cfg.Overhead()
            && (numalign == 0 ==> r.nbytes <= nelem * cfg.size[t] + cfg.MaxOverhead(t))
  {
    var r := BallocAfter(cfg, numalign, t, nelem, address);
    var first := FirstClientAfter(cfg, t, address);
    LengthNonneg(nelem, cfg.size[t]);
    FirstClientAligned(cfg, t, address);
    ShiftUpBounds(first, numalign, cfg.size[t]);
    ModSum(first - cfg.base[t], r.client - first, cfg.size[t]);
    BlockLength(cfg, numalign, t, nelem, address);
    RoundUpIsLeast(r.client + nelem * cfg.size[t] + cfg.guardSize - address, cfg.Alignment());
  }

  /** More elements never make a shorter block. */
  lemma BallocAfterMonotone(cfg: Config, numalign: nat, t: int, n1: int, n2: int, address: int)
    requires cfg.Valid() && ValidIndex(t) && n1 <= n2
    ensures BallocAfter(cfg, numalign, t, n1, address).nbytes <= BallocAfter(cfg, numalign, t, n2, address).nbytes
  {
    BlockLength(cfg, numalign, t, n1, address);
    BlockLength(cfg, numalign, t, n2, address);
    var r := BallocAfter(cfg, numalign, t, n1, address);
    var m := r.client + cfg.guardSize - address;
    MulMonotone(n1, n2, cfg.size[t]);
    RoundUpMonotone(m + n1 * cfg.size[t], m + n2 * cfg.size[t], cfg.Alignment());
  }

  lemma MulMonotone(a: int, b: int, k: int)
    requires a <= b && k >= 0
    ensures a * k <= b * k
  {}

  /** A block allocated downward from any address holds its parts in order, puts
      its AD on an ALIGNMENT boundary, and wastes no more than an upward one. */
  lemma BallocBeforeLayout(cfg: Config, numalign: nat, t: int, nelem: int, address: int)
    requires cfg.Valid() && ValidIndex(t) && nelem >= 0
    ensures var r := BallocBefore(cfg, numalign, t, nelem, address);
            && Contains(cfg, address - r.nbytes, r.nbytes, r.client, t, nelem)
            && (address - r.nbytes) % cfg.Alignment() == 0
            && r.nbytes >= nelem * cfg.size[t] + cfg.Overhead()
            && (numalign == 0 ==> r.nbytes <= nelem * cfg.size[t] + cfg.MaxOverhead(t))
  {
    var r := BallocBefore(cfg, numalign, t, nelem, address);
    LengthNonneg(nelem, cfg.size[t]);
    Pow2Divides(cfg.alignLog, cfg.wordLog);
    ModOfMod(r.client - cfg.guardSize - cfg.adSize, cfg.Word(), cfg.Alignment());
    SubtractRem(r.client - cfg.guardSize - cfg.adSize, cfg.Alignment());
    var first := address - ((address - cfg.guardSize - nelem * cfg.size[t] - cfg.base[t]) % cfg.Word()) % cfg.size[t]
                         - cfg.guardSize - nelem * cfg.size[t];
    MaskIsMod(first, numalign);
    assert r.client <= first;
  }

  /** The wrapped remainder by which a downward block is shifted. */
  function BeforeResidue(cfg: Config, t: int, nelem: int, address: int): int
    requires cfg.Valid() && ValidIndex(t)
  {
    address - cfg.guardSize - nelem * cfg.size[t] - cfg.base[t]
  }

  lemma BallocBeforeByResidue(cfg: Config, numalign: nat, t: int, nelem: int, address: int)
    requires cfg.Valid() && ValidIndex(t)
    ensures var x := BeforeResidue(cfg, t, nelem, address);
            (BallocBefore(cfg, numalign, t, nelem, address).client - cfg.base[t]) % cfg.size[t] == 0
            <==> (x % cfg.Word()) % cfg.size[t] == x % cfg.size[t]
  {
    var s := cfg.size[t];
    var x := BeforeResidue(cfg, t, nelem, address);
    var g := (x % cfg.Word()) % s;
    var first := address - g - cfg.guardSize - nelem * s;
    var client := BallocBefore(cfg, numalign, t, nelem, address).client;
    var shift := first - client;
    assert first - cfg.base[t] == x - g;
    ModOfMultiple(s, 0);
    assert shift % s == 0;
    SubtractRem(x, s);
    if g == x % s {
      ModSum(x - g, shift, s);
    }
    if (client - cfg.base[t]) % s == 0 {
      ModSum(client - cfg.base[t], shift, s);
      MultipleQuotient(x - g, s);
      ModUnique(x, s, (x - g) / s, g);
    }
  }

  /** The client space of a downward block starts on an element boundary. */
  predicate AlignedBefore(cfg: Config, numalign: nat, t: int, nelem: int, address: int)
    requires cfg.Valid() && ValidIndex(t)
  {
    (BallocBefore(cfg, numalign, t, nelem, address).client - cfg.base[t]) % cfg.size[t] == 0
  }

  /** `balloc_before` takes its client-space remainder in unsigned arithmetic, so it is right
      exactly when the words by which the offset from ma_base was reduced make a multiple of the
      element size: for offsets of less than a word, when the block lies above ma_base or the
      element size divides the word. */
  lemma BallocBeforeAligned(cfg: Config, numalign: nat, t: int, nelem: int, address: int)
    requires cfg.Valid() && ValidIndex(t)
    ensures var x := BeforeResidue(cfg, t, nelem, address);
            && (AlignedBefore(cfg, numalign, t, nelem, address) <==> (cfg.Word() * (x / cfg.Word())) % cfg.size[t] == 0)
            && (-cfg.Word() <= x < cfg.Word() ==>
                 (AlignedBefore(cfg, numalign, t, nelem, address) <==> x >= 0 || cfg.Word() % cfg.size[t] == 0))
  {
    var x, w := BeforeResidue(cfg, t, nelem, address), cfg.Word();
    BallocBeforeByResidue(cfg, numalign, t, nelem, address);
    SameRemainder(x, x % w, cfg.size[t]);
    assert x - x % w == w * (x / w);
    hide AlignedBefore, BeforeResidue;
    if 0 <= x < w {
      ModUnique(x, w, 0, x);
      ModOfMultiple(cfg.size[t], 0);
    } else if -w <= x < 0 {
      ModUnique(x, w, -1, x + w);
      NegatedMultiple(w, cfg.size[t]);
    }
  }

  lemma NegatedMultiple(v: int, m: int)
    requires m > 0
    ensures (-v) % m == 0 <==> v % m == 0
  {
    SubtractRem(v, m);
    SubtractRem(-v, m);
    ModOfMultiple(m, 0);
    if v % m == 0 { ModSum(0, v, m); }
    if (-v) % m == 0 { ModSum(0, -v, m); }
  }

  /** Element sizes that divide the word, and offsets that fit in a word, both keep
      downward client spaces aligned. */
  lemma BallocBeforeAlignedWhen(cfg: Config, numalign: nat, t: int, nelem: int, address: int)
    requires cfg.Valid() && ValidIndex(t)
    requires cfg.Word() % cfg.size[t] == 0 || 0 <= BeforeResidue(cfg, t, nelem, address) < cfg.Word()
    ensures AlignedBefore(cfg, numalign, t, nelem, address)
  {
    var x := BeforeResidue(cfg, t, nelem, address);
    BallocBeforeByResidue(cfg, numalign, t, nelem, address);
    if cfg.Word() % cfg.size[t] == 0 {
      ModOfMod(x, cfg.Word(), cfg.size[t]);
    } else {
      ModUnique(x, cfg.Word(), 0, x);
    }
  }

  // ---------- recomputing a layout under another power-of-two request ----------

  /** For power-of-two element sizes a larger request never moves the client space down. */
  lemma ClientMonotoneInNumalign(cfg: Config, lo: nat, hi: nat, t: int, k: nat, address: int)
    requires cfg.Valid() && ValidIndex(t) && cfg.size[t] == Pow2(k) && lo <= hi
    ensures ClientAfter(cfg, lo, t, address) <= ClientAfter(cfg, hi, t, address)
  {
    var first := FirstClientAfter(cfg, t, address);
    var s := cfg.size[t];
    MaskIsMod(first, lo);
    MaskIsMod(first, hi);
    ShiftUpBounds(first, lo, s);
    ShiftUpBounds(first, hi, s);
    var dlo, dhi := Pow2(lo) - first % Pow2(lo), Pow2(hi) - first % Pow2(hi);
    if lo > 0 && first % Pow2(lo) != 0 && dlo % s == 0 {
      // then s divides 2^lo, hence 2^hi and first, so the larger shift applies too
      Pow2Divides(lo, hi);
      assert k <= lo by {
        if lo < k {
          Pow2Less(lo, k);
          ModUnique(dlo, s, 0, dlo);
        }
      }
      Pow2Divides(k, lo);
      Pow2Divides(k, hi);
      ModOfMod(first, Pow2(hi), Pow2(lo));
      ModOfMod(first, Pow2(lo), Pow2(k));
      ModOfMod(first, Pow2(hi), Pow2(k));
      ModSum(Pow2(lo), dlo, s);
      MultipleQuotient(first % Pow2(lo), s);
      assert first % s == 0;
      if first % Pow2(hi) == 0 {
        ModTransitive(first, Pow2(hi), Pow2(lo));
      }
      ModSum(Pow2(hi), first % Pow2(hi), s);
      // the next multiple of 2^hi is a multiple of 2^lo above first
      NextMultiple(first, lo, hi);
    }
  }

  lemma {:induction false} Pow2Less(i: nat, j: nat)
    requires i < j
    ensures Pow2(i) < Pow2(j)
  {
    if i + 1 < j { Pow2Less(i, j - 1); }
  }

  lemma NextMultiple(v: int, lo: nat, hi: nat)
    requires lo <= hi && v % Pow2(lo) != 0
    ensures v + (Pow2(lo) - v % Pow2(lo)) <= v + (Pow2(hi) - v % Pow2(hi))
  {
    var p := Pow2(lo);
    var w := v + (Pow2(hi) - v % Pow2(hi));
    SubtractRem(v, p);
    SubtractRem(v, Pow2(hi));
    Pow2Divides(lo, hi);
    ModOfMultiple(Pow2(hi), 1);
    ModSum(v - v % Pow2(hi), Pow2(hi), Pow2(hi));
    ModTransitive(w, Pow2(hi), p);
    MultiplesApart(v - v % p, w, p);
  }
}
