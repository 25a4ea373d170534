/** The additive feedback generator of compat/random.c on values. Words of the C type `long`
    are two's complement with range [-half, half); `half` is a parameter. */
module RandomGen {
  import opened Arith

  // ---------- the table of generators ----------

  type Kind = k: int | 0 <= k < 5

  /** MAX_TYPES: the header word holds MAX_TYPES * rear + kind. */
  const TYPES := 5

  function Deg(k: Kind): nat { if k == 0 then 0 else if k == 1 then 7 else if k == 2 then 15 else if k == 3 then 31 else 63 }

  function Sep(k: Kind): nat { if k == 0 then 0 else if k == 1 || k == 3 then 3 else 1 }

  lemma Degrees(k: Kind)
    ensures k > 0 ==> 0 < Sep(k) < Deg(k)
  {}

  /** Words of state behind the header. */
  function Size(k: Kind): nat { if k == 0 then 1 else Deg(k) }

  /** The generator that initstate picks for n bytes of state, n >= 8. */
  function KindFor(n: int): Kind {
    if n < 32 then 0 else if n < 64 then 1 else if n < 128 then 2 else if n < 256 then 3 else 4
  }

  // ---------- words ----------

  const TWO31 := 0x8000_0000

  function Wrap(half: int, x: int): int
    requires half > 0
  {
    (x + half) % (2 * half) - half
  }

  function Mask31(x: int): int { x % TWO31 }

  function Lcg(half: int, x: int): int
    requires half > 0
  {
    Wrap(half, 1103515245 * x + 12345)
  }

  // ---------- generators ----------

  /** The words, and the positions of fptr and rptr (0 for kind 0, which has none). */
  datatype Gen = Gen(kind: Kind, words: seq<int>, front: nat, rear: nat)

  /** sep places further, round the table. */
  function Ahead(k: Kind, rear: nat): nat {
    if rear + Sep(k) < Deg(k) then rear + Sep(k) else rear + Sep(k) - Deg(k)
  }

  ghost predicate Ok(g: Gen) {
    && |g.words| == Size(g.kind)
    && if g.kind == 0 then g.front == g.rear == 0
       else g.rear < Deg(g.kind) && g.front == Ahead(g.kind, g.rear)
  }

  function Cyclic(i: nat, deg: nat): nat { if i + 1 < deg then i + 1 else 0 }

  /** random: the generator afterwards and the number. */
  function Step(half: int, g: Gen): (Gen, int)
    requires half > 0 && Ok(g)
  {
    if g.kind == 0 then
      var i := Mask31(Lcg(half, g.words[0]));
      (g.(words := [i]), i)
    else
      var x := Wrap(half, g.words[g.front] + g.words[g.rear]);
      (Gen(g.kind, g.words[g.front := x], Cyclic(g.front, Deg(g.kind)), Cyclic(g.rear, Deg(g.kind))), Mask31(x / 2))
  }

  lemma StepKeeps(half: int, g: Gen)
    requires half > 0 && Ok(g)
    ensures Ok(Step(half, g).0) && Step(half, g).0.kind == g.kind
    ensures g.kind > 0 ==> Step(half, g).0.rear == Cyclic(g.rear, Deg(g.kind))
  {
    Degrees(g.kind);
    hide Deg, Sep, Wrap, Lcg;
  }

  /** n calls of random. */
  function Advance(half: int, g: Gen, n: nat): (r: Gen)
    requires half > 0 && Ok(g)
    ensures Ok(r) && r.kind == g.kind
  {
    if n == 0 then g
    else
      StepKeeps(half, Advance(half, g, n - 1));
      Step(half, Advance(half, g, n - 1)).0
  }

  /** The number that the n-th call from g returns, counting from 0. */
  function Output(half: int, g: Gen, n: nat): int
    requires half > 0 && Ok(g)
  {
    Step(half, Advance(half, g, n)).1
  }

  /** srandom's linear congruential fill. */
  function Fill(half: int, seed: int, n: nat): (s: seq<int>)
    requires half > 0 && n > 0
    ensures |s| == n
  {
    if n == 1 then [Wrap(half, seed)]
    else
      var s := Fill(half, seed, n - 1);
      s + [Lcg(half, s[n - 2])]
  }

  /** The generator right after srandom. */
  function Seeded(half: int, k: Kind, seed: int): (g: Gen)
    requires half > 0
    ensures Ok(g) && g.kind == k
  {
    if k == 0 then Gen(0, [Wrap(half, seed)], 0, 0)
    else Advance(half, Gen(k, Fill(half, seed, Deg(k)), Sep(k), 0), 10 * Deg(k))
  }

  // ---------- the header ----------

  function Header(g: Gen): int { TYPES * g.rear + g.kind }

  /** A table as some call has left it: a header and enough words. */
  ghost predicate TableOk(w: seq<int>) {
    && |w| >= 2 && w[0] >= 0
    && if w[0] % TYPES == 0 then w[0] == 0 else |w| >= Deg(w[0] % TYPES) + 1 && w[0] / TYPES < Deg(w[0] % TYPES)
  }

  lemma AheadIsMod(k: Kind, rear: nat)
    requires k > 0 && rear < Deg(k)
    ensures Ahead(k, rear) == (rear + Sep(k)) % Deg(k)
  {
    Degrees(k);
    hide Deg, Sep;
    if rear + Sep(k) < Deg(k) { ModUnique(rear + Sep(k), Deg(k), 0, rear + Sep(k)); }
    else { ModUnique(rear + Sep(k), Deg(k), 1, rear + Sep(k) - Deg(k)); }
  }

  /** What setstate makes of a table. */
  function Decode(w: seq<int>): (g: Gen)
    requires TableOk(w)
    ensures Ok(g)
  {
    var k: Kind := w[0] % TYPES;
    var rear := w[0] / TYPES;
    if k == 0 then Gen(0, [w[1]], 0, 0)
    else AheadIsMod(k, rear); Gen(k, w[1..Deg(k) + 1], (rear + Sep(k)) % Deg(k), rear)
  }

  /** The saved word determines both pointers: whatever else the table holds, its words and
      this header give back the generator. */
  lemma HeaderDecodes(g: Gen, w: seq<int>)
    requires Ok(g) && |w| >= Size(g.kind) + 1 && w[0] == Header(g) && w[1..Size(g.kind) + 1] == g.words
    ensures TableOk(w) && Decode(w) == g
  {
    HeaderSplits(g.rear, g.kind);
    assert g.kind == 0 ==> w[1] == w[1..2][0];
  }

  lemma DecodeFields(w: seq<int>, g: Gen)
    requires TableOk(w) && Decode(w) == g
    ensures Ok(g) && |w| >= Size(g.kind) + 1 && w[0] % TYPES == g.kind && w[0] == Header(g)
    ensures if g.kind == 0 then g == Gen(0, [w[1]], 0, 0)
            else g.rear == w[0] / TYPES && g == Gen(g.kind, w[1..Deg(g.kind) + 1], (g.rear + Sep(g.kind)) % Deg(g.kind), g.rear)
  {
    if g.kind > 0 { AheadIsMod(g.kind, g.rear); }
  }

  lemma HeaderSplits(rear: nat, k: Kind)
    ensures (TYPES * rear + k) % TYPES == k && (TYPES * rear + k) / TYPES == rear
  {}

  // ---------- pointers ----------

  /** The two pointers stay sep apart round the table and never wrap on the same call. */
  lemma OneWraps(g: Gen)
    requires Ok(g) && g.kind > 0
    ensures g.front < Deg(g.kind) && g.front != g.rear && g.front == (g.rear + Sep(g.kind)) % Deg(g.kind)
    ensures !(g.front + 1 == Deg(g.kind) && g.rear + 1 == Deg(g.kind))
  {
    Degrees(g.kind);
    hide Deg, Sep;
    AheadIsMod(g.kind, g.rear);
  }

  lemma {:induction false} RearAfter(half: int, g: Gen, n: nat)
    requires half > 0 && Ok(g) && g.kind > 0
    ensures Advance(half, g, n).rear == (g.rear + n) % Deg(g.kind)
  {
    Degrees(g.kind);
    hide Deg, Sep, Ok, Step;
    assert Ok(g) ==> g.rear < Deg(g.kind) by { RearBelow(g); }
    if n > 0 {
      RearAfter(half, g, n - 1);
      StepKeeps(half, Advance(half, g, n - 1));
      ModStep(g.rear + n - 1, Deg(g.kind));
    } else {
      ModUnique(g.rear, Deg(g.kind), 0, g.rear);
    }
  }

  lemma RearBelow(g: Gen)
    requires Ok(g) && g.kind > 0
    ensures g.rear < Deg(g.kind)
  {}

  lemma ModStep(a: nat, d: nat)
    requires d > 0
    ensures (a + 1) % d == Cyclic(a % d, d)
  {
    var q, r := a / d, a % d;
    assert a == d * q + r;
    if r + 1 < d { ModUnique(a + 1, d, q, r + 1); } else {
      assert d * (q + 1) == d * q + d;
      ModUnique(a + 1, d, q + 1, 0);
    }
  }

  /** 10 * deg calls bring the pointers back: after srandom the rear pointer is at 0, and the
      header of a fresh table is its kind. */
  lemma SeededRear(half: int, k: Kind, seed: int)
    requires half > 0
    ensures Seeded(half, k, seed).rear == 0 && Header(Seeded(half, k, seed)) == k
  {
    if k > 0 {
      var g := Gen(k, Fill(half, seed, Deg(k)), Sep(k), 0);
      RearAfter(half, g, 10 * Deg(k));
      ModUnique(10 * Deg(k), Deg(k), 10, 0);
    }
  }

  // ---------- the recurrence ----------

  /** The words from the oldest to the newest. */
  function Window(g: Gen): (s: seq<int>)
    requires Ok(g) && g.kind > 0
    ensures |s| == Deg(g.kind)
  {
    OneWraps(g);
    g.words[g.front..] + g.words[..g.front]
  }

  /** x(i) = x(i - deg) + x(i - sep), from deg initial values. */
  function Recur(half: int, k: Kind, init: seq<int>, i: nat): int
    requires half > 0 && k > 0 && |init| == Deg(k)
  {
    if i < Deg(k) then init[i]
    else Wrap(half, Recur(half, k, init, i - Deg(k)) + Recur(half, k, init, i - Sep(k)))
  }

  /** One call slides the window by one. */
  lemma StepSlides(half: int, g: Gen)
    requires half > 0 && Ok(g) && g.kind > 0
    ensures var w := Window(g);
      var d := Deg(g.kind);
      var x := Wrap(half, w[0] + w[d - Sep(g.kind)]);
      && Ok(Step(half, g).0)
      && Window(Step(half, g).0) == w[1..] + [x]
      && Step(half, g).1 == Mask31(x / 2)
  {
    Degrees(g.kind);
    OneWraps(g);
    StepKeeps(half, g);
    hide Deg, Sep, Wrap, Mask31, Lcg;
    var d := Deg(g.kind);
    var w := Window(g);
    assert w[0] == g.words[g.front];
    assert w[d - Sep(g.kind)] == g.words[g.rear];
    var x := Wrap(half, w[0] + w[d - Sep(g.kind)]);
    var h := Step(half, g).0;
    OneWraps(h);
    if g.front + 1 == d {
      assert Window(h) == w[1..] + [x];
    } else {
      assert h.words[h.front..] == g.words[g.front + 1..] && h.words[..h.front] == g.words[..g.front] + [x];
    }
  }

  lemma RecurAt(half: int, k: Kind, init: seq<int>, i: nat)
    requires half > 0 && k > 0 && |init| == Deg(k)
    ensures i < Deg(k) ==> Recur(half, k, init, i) == init[i]
    ensures i >= Deg(k) ==> i >= Sep(k)
    ensures i >= Deg(k) ==>
      Recur(half, k, init, i) == Wrap(half, Recur(half, k, init, i - Deg(k)) + Recur(half, k, init, i - Sep(k)))
  {
    hide Wrap;
  }

  lemma {:induction false} WindowIs(half: int, g: Gen, n: nat, j: nat)
    requires half > 0 && Ok(g) && g.kind > 0 && j < Deg(g.kind)
    ensures Window(Advance(half, g, n))[j] == Recur(half, g.kind, Window(g), n + j)
    decreases n, j
  {
    Degrees(g.kind);
    hide Ok, Step, Window, Deg, Sep, Wrap, Mask31, Recur;
    RecurAt(half, g.kind, Window(g), n + j);
    if n > 0 {
      var d := Deg(g.kind);
      StepSlides(half, Advance(half, g, n - 1));
      if j + 1 < d {
        WindowIs(half, g, n - 1, j + 1);
      } else {
        WindowIs(half, g, n - 1, 0);
        WindowIs(half, g, n - 1, d - Sep(g.kind));
      }
    }
  }

  /** The in-place table computes the recurrence: the n-th call returns x(n + deg) without
      its lowest bit. */
  lemma RefinesRecurrence(half: int, g: Gen, n: nat)
    requires half > 0 && Ok(g) && g.kind > 0
    ensures Output(half, g, n) == Mask31(Recur(half, g.kind, Window(g), n + Deg(g.kind)) / 2)
  {
    Degrees(g.kind);
    hide Ok, Step, Window, Deg, Sep, Wrap, Mask31, Recur;
    var d := Deg(g.kind);
    RecurAt(half, g.kind, Window(g), n + d);
    StepSlides(half, Advance(half, g, n));
    WindowIs(half, g, n, 0);
    WindowIs(half, g, n, d - Sep(g.kind));
  }

  // ---------- switching ----------

  /** Every table that holds a generator, the one in use, and the rear pointer its header
      was last given. */
  datatype World<I(==)> = World(gens: map<I, Gen>, cur: I, mark: nat)

  datatype Op<I> = OpRandom | OpSrandom(seed: int) | OpSetState(id: I) | OpInitState(seed: int, id: I, n: int)

  ghost predicate WorldOk<I>(w: World<I>) {
    && w.cur in w.gens && (forall i :: i in w.gens ==> Ok(w.gens[i]))
    && (if w.gens[w.cur].kind == 0 then w.mark == 0 else w.mark < Deg(w.gens[w.cur].kind))
  }

  /** Pointers taken from a header, words as they are. */
  function Rewind(g: Gen, mark: nat): Gen {
    if g.kind == 0 then g else g.(front := Ahead(g.kind, mark), rear := mark)
  }

  /** random, srandom, setstate and initstate if every table kept its generator to itself: another
      table is untouched, and setstate only changes the one in use. The exception is a
      setstate to the table in use. */
  function Apply<I(==)>(half: int, w: World<I>, op: Op<I>): World<I>
    requires half > 0 && WorldOk(w)
  {
    match op
    case OpRandom => w.(gens := w.gens[w.cur := Step(half, w.gens[w.cur]).0])
    case OpSrandom(seed) => w.(gens := w.gens[w.cur := Seeded(half, w.gens[w.cur].kind, seed)])
    case OpSetState(i) =>
      if i !in w.gens then w
      else if i == w.cur then World(w.gens[i := Rewind(w.gens[i], w.mark)], i, w.gens[i].rear)
      else World(w.gens, i, w.gens[i].rear)
    case OpInitState(seed, i, n) =>
      if n < 8 then w.(mark := w.gens[w.cur].rear)
      else var g := Seeded(half, KindFor(n), seed); World(w.gens[i := g], i, g.rear)
  }

  lemma ApplyKeeps<I>(half: int, w: World<I>, op: Op<I>)
    requires half > 0 && WorldOk(w)
    ensures WorldOk(Apply(half, w, op))
  {
    StepKeeps(half, w.gens[w.cur]);
    hide Deg, Sep, Step;
  }

  /** What random returned while table `id` was in use. */
  function Heard<I(==)>(half: int, w: World<I>, ops: seq<Op<I>>, id: I): seq<int>
    requires half > 0 && WorldOk(w)
    decreases |ops|
  {
    if ops == [] then []
    else
      ApplyKeeps(half, w, ops[0]);
      (if ops[0].OpRandom? && w.cur == id then [Step(half, w.gens[id]).1] else []) +
      Heard(half, Apply(half, w, ops[0]), ops[1..], id)
  }

  predicate Reseeds<I(==)>(w: World<I>, op: Op<I>, id: I) {
    (op.OpInitState? && op.id == id && op.n >= 8) || (op.OpSrandom? && w.cur == id)
  }

  /** A setstate to table `id` while it is in use and its header is out of date. */
  predicate Displaces<I(==)>(w: World<I>, op: Op<I>, id: I) {
    op.OpSetState? && op.id == id == w.cur && id in w.gens && w.gens[id].kind > 0 && w.mark != w.gens[id].rear
  }

  /** Table `id` is not seeded again, nor does a setstate to it while it is in use move its
      pointers. */
  ghost predicate LeftAlone<I>(half: int, w: World<I>, ops: seq<Op<I>>, id: I)
    requires half > 0 && WorldOk(w)
    decreases |ops|
  {
    ops == [] ||
    (ApplyKeeps(half, w, ops[0]);
     && !Reseeds(w, ops[0], id)
     && !Displaces(w, ops[0], id)
     && LeftAlone(half, Apply(half, w, ops[0]), ops[1..], id))
  }

  function Outputs(half: int, g: Gen, n: nat): seq<int>
    requires half > 0 && Ok(g)
  {
    seq(n, i requires 0 <= i < n => Output(half, g, i))
  }

  lemma {:induction false} AdvanceFirst(half: int, g: Gen, n: nat)
    requires half > 0 && Ok(g)
    ensures Ok(Step(half, g).0) && Advance(half, g, n + 1) == Advance(half, Step(half, g).0, n)
  {
    StepKeeps(half, g);
    hide Ok, Step;
    if n > 0 { AdvanceFirst(half, g, n - 1); }
  }

  /** However calls on other tables come between, and however often the program switches
      away, a table yields its own stream. */
  lemma {:induction false} StreamIsSolo<I>(half: int, w: World<I>, ops: seq<Op<I>>, id: I)
    requires half > 0 && WorldOk(w) && id in w.gens && LeftAlone(half, w, ops, id)
    ensures var s := Heard(half, w, ops, id); s == Outputs(half, w.gens[id], |s|)
    decreases |ops|
  {
    if ops != [] {
      var g, w' := w.gens[id], Apply(half, w, ops[0]);
      ApplyKeeps(half, w, ops[0]);
      Undisturbed(half, w, ops[0], id);
      StreamIsSolo(half, w', ops[1..], id);
      hide Ok, Step, Apply, WorldOk;
      var t := Heard(half, w', ops[1..], id);
      if ops[0].OpRandom? && w.cur == id { OutputsFirst(half, g, |t|); }
    }
  }

  lemma Undisturbed<I>(half: int, w: World<I>, op: Op<I>, id: I)
    requires half > 0 && WorldOk(w) && id in w.gens
    requires !Reseeds(w, op, id)
    requires !Displaces(w, op, id)
    ensures var w' := Apply(half, w, op);
      id in w'.gens && w'.gens[id] == if op.OpRandom? && w.cur == id then Step(half, w.gens[id]).0 else w.gens[id]
  {
    if op.OpSetState? && op.id == id == w.cur { SetStateInUse(half, w); }
    hide Rewind, Seeded, Step;
  }

  lemma OutputsFirst(half: int, g: Gen, n: nat)
    requires half > 0 && Ok(g)
    ensures Ok(Step(half, g).0)
    ensures Outputs(half, g, n + 1) == [Step(half, g).1] + Outputs(half, Step(half, g).0, n)
  {
    StepKeeps(half, g);
    hide Ok, Step;
    forall i | 0 <= i < n
      ensures Output(half, g, i + 1) == Output(half, Step(half, g).0, i)
    {
      AdvanceFirst(half, g, i);
    }
  }

  // ---------- setstate to the table in use ----------

  /** setstate to the table in use puts its pointers where its header has them. It leaves the
      generator as it was exactly when it has no pointers or the header is up to date. (Even
      other pointers can give the same numbers, over all-zero words for one.) */
  lemma SetStateInUse<I>(half: int, w: World<I>)
    requires half > 0 && WorldOk(w)
    ensures Apply(half, w, OpSetState(w.cur)).gens[w.cur] == w.gens[w.cur]
      <==> w.gens[w.cur].kind == 0 || w.mark == w.gens[w.cur].rear
  {
    var g := w.gens[w.cur];
    assert Apply(half, w, OpSetState(w.cur)).gens[w.cur] == Rewind(g, w.mark);
    hide Apply, Deg, Sep;
    assert Ok(g);
  }

  /** The world after n calls of random. */
  function Randoms<I(==)>(half: int, w: World<I>, n: nat): (r: World<I>)
    requires half > 0 && WorldOk(w)
    ensures WorldOk(r)
  {
    if n == 0 then w
    else
      var v := Randoms(half, w, n - 1);
      ApplyKeeps(half, v, OpRandom);
      Apply(half, v, OpRandom)
  }

  /** v is w after n numbers were drawn. */
  ghost predicate Drawn<I>(half: int, w: World<I>, v: World<I>, n: nat)
    requires half > 0 && WorldOk(w) && WorldOk(v)
  {
    v.cur == w.cur && v.mark == w.mark && v.gens[v.cur] == Advance(half, w.gens[w.cur], n)
  }

  lemma {:induction false} RandomsAdvance<I>(half: int, w: World<I>, n: nat)
    requires half > 0 && WorldOk(w)
    ensures Drawn(half, w, Randoms(half, w, n), n)
  {
    hide Drawn, WorldOk, Apply, Advance;
    if n == 0 {
      DrawnNone(half, w);
    } else {
      RandomsAdvance(half, w, n - 1);
      DrawnNext(half, w, Randoms(half, w, n - 1), n - 1);
    }
  }

  lemma DrawnNone<I>(half: int, w: World<I>)
    requires half > 0 && WorldOk(w)
    ensures Drawn(half, w, w, 0)
  {}

  lemma DrawnNext<I>(half: int, w: World<I>, v: World<I>, n: nat)
    requires half > 0 && WorldOk(w) && WorldOk(v) && Drawn(half, w, v, n)
    ensures WorldOk(Apply(half, v, OpRandom)) && Drawn(half, w, Apply(half, v, OpRandom), n + 1)
  {
    ApplyKeeps(half, v, OpRandom);
    hide Step, Deg, Sep;
  }

  lemma CurrentOk<I>(w: World<I>)
    requires WorldOk(w)
    ensures w.cur in w.gens && Ok(w.gens[w.cur])
  {}

  /** n calls of random after any state: the setstate is harmless exactly when they have
      brought the rear pointer to the header's position. */
  lemma SetStateAfter<I>(half: int, w: World<I>, n: nat)
    requires half > 0 && WorldOk(w)
    ensures var v, g := Randoms(half, w, n), w.gens[w.cur];
      && v.cur == w.cur
      && (Apply(half, v, OpSetState(v.cur)).gens[v.cur] == v.gens[v.cur]
          <==> g.kind == 0 || (g.rear + n) % Deg(g.kind) == w.mark)
  {
    var v, g := Randoms(half, w, n), w.gens[w.cur];
    RandomsAdvance(half, w, n);
    SetStateInUse(half, v);
    hide Apply, Deg, Sep;
    assert v.gens[w.cur] == Advance(half, g, n);
    if g.kind > 0 { RearAfter(half, g, n); }
  }

  /** ... after a call that wrote the header last: when their number is a multiple of deg. */
  lemma SetStateAfterHeader<I>(half: int, w: World<I>, n: nat)
    requires half > 0 && WorldOk(w) && w.mark == w.gens[w.cur].rear
    ensures var v, g := Randoms(half, w, n), w.gens[w.cur];
      && v.cur == w.cur
      && (Apply(half, v, OpSetState(v.cur)).gens[v.cur] == v.gens[v.cur] <==> g.kind == 0 || n % Deg(g.kind) == 0)
  {
    SetStateAfter(half, w, n);
    var g := w.gens[w.cur];
    hide Apply, Deg, Sep;
    if g.kind > 0 { ModSame(g.rear, n, Deg(g.kind)); }
  }

  /** ... after srandom, which brings the rear pointer to 0 and leaves the header alone: when
      they bring it from there to the header's position. */
  lemma SetStateAfterReseed<I>(half: int, w: World<I>, seed: int, n: nat)
    requires half > 0 && WorldOk(w)
    ensures WorldOk(Apply(half, w, OpSrandom(seed)))
    ensures var v, g := Randoms(half, Apply(half, w, OpSrandom(seed)), n), w.gens[w.cur];
      && v.cur == w.cur
      && (Apply(half, v, OpSetState(v.cur)).gens[v.cur] == v.gens[v.cur] <==> g.kind == 0 || n % Deg(g.kind) == w.mark)
  {
    hide Seeded, Deg, Sep, Step, Header, Randoms;
    ApplyKeeps(half, w, OpSrandom(seed));
    SeededRear(half, w.gens[w.cur].kind, seed);
    SetStateAfter(half, Apply(half, w, OpSrandom(seed)), n);
  }

  lemma ModSame(r: nat, n: nat, d: nat)
    requires r < d
    ensures (r + n) % d == r <==> n % d == 0
  {
    var q, m := n / d, n % d;
    assert n == d * q + m;
    if r + m < d { ModUnique(r + n, d, q, r + m); } else {
      assert d * (q + 1) == d * q + d;
      ModUnique(r + n, d, q + 1, r + m - d);
    }
  }

  /** randtbl behind its header, as the program starts with it. */
  const RANDTBL: seq<int> := [
    0x9a319039, 0x32d9c024, 0x9b663182, 0x5da1f342, 0xde3b81e0, 0xdf0a6fb5, 0xf103bc02, 0x48f340fb,
    0x7449e56b, 0xbeb1dbb0, 0xab5c5918, 0x946554fd, 0x8c2e680f, 0xeb3d799f, 0xb11ee0b7, 0x2d436b86,
    0xda672e2a, 0x1588ca88, 0xe369735d, 0x904f35f7, 0xd7158fd6, 0x6fa6f051, 0x616e6b96, 0xac94efdc,
    0x36413f93, 0xc622c298, 0xf5a42ab8, 0x8a88d77b, 0xf5ad9d0e, 0x8999220b, 0x27fb47b9]

  const TWO63 := 0x8000_0000_0000_0000

  /** The state a program starts in. */
  const START := World(map[0 := Gen(3, RANDTBL, 3, 0)], 0, 0)

  /** On a machine with 64-bit words, from the state a program starts in, random followed by
      setstate to randtbl changes the next number. */
  lemma SetStateInUseFails()
    ensures WorldOk(START) && WorldOk(Apply(TWO63, START, OpRandom))
    ensures var v := Apply(TWO63, START, OpRandom);
      && WorldOk(Apply(TWO63, v, OpSetState(0)))
      && Step(TWO63, Apply(TWO63, v, OpSetState(0)).gens[0]).1 != Step(TWO63, v.gens[0]).1
  {
    ApplyKeeps(TWO63, START, OpRandom);
    var v := Apply(TWO63, START, OpRandom);
    var x := 0x5da1f342 + 0x9a319039;
    assert v.gens[0] == Gen(3, RANDTBL[3 := x], 4, 1);
    ApplyKeeps(TWO63, v, OpSetState(0));
    assert Apply(TWO63, v, OpSetState(0)).gens[0] == Gen(3, RANDTBL[3 := x], 3, 0);
  }
}
