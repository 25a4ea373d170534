/** compat/random.c as it works: one table in use, two pointers into it, and the position of
    the rear one saved in the table's first word when the program switches away. */
module RandomState {
  import opened RandomGen

  class Generator {
    const half: int
    /** The table in use; `state` of the original is its word 1, so state[i] is table[i + 1]. */
    var table: array<int>
    var kind: Kind
    var deg: nat
    var sep: nat
    var endPtr: nat
    var fptr: nat
    var rptr: nat
    ghost var world: World<array<int>>

    /** The globals fit the table. */
    ghost predicate Fields()
      reads this`table, this`kind, this`deg, this`sep, this`endPtr
    {
      half > 0 && deg == Deg(kind) && sep == Sep(kind) && endPtr == deg && table.Length >= Size(kind) + 1
    }

    ghost function View(): Gen
      requires Fields()
      reads this`table, this`kind, this`deg, this`sep, this`endPtr, this`fptr, this`rptr, table
    {
      if kind == 0 then Gen(0, [table[1]], 0, 0) else Gen(kind, table[1..deg + 1], fptr, rptr)
    }

    /** The table in use holds its generator; every other one can be restored from its own words. */
    ghost predicate Valid()
      reads this, table, world.gens.Keys
    {
      && Fields() && WorldOk(world) && world.cur == table && world.gens[table] == View()
      && table[0] == TYPES * world.mark + kind
      && forall a :: a in world.gens && a != table ==> Saved(a, world.gens[a])
    }

    static ghost predicate Saved(a: array<int>, g: Gen)
      reads a
    {
      TableOk(a[..]) && Decode(a[..]) == g
    }

    static ghost function Start(randtbl: array<int>): World<array<int>>
      requires randtbl.Length == Deg(3) + 1
      reads randtbl
    {
      var gens: map<array<int>, Gen> := map[randtbl := Gen(3, randtbl[1..], Sep(3), 0)];
      World(gens, randtbl, 0)
    }

    /** The state before any call: randtbl, of kind 3, is in use with its rear pointer at 0. */
    constructor (half: int, randtbl: array<int>)
      requires half > 0 && randtbl.Length == Deg(3) + 1 && randtbl[0] == 3
      ensures Valid() && fresh(this) && this.half == half
      ensures table == randtbl && world == Start(randtbl)
    {
      this.half := half;
      table, kind, deg, sep, endPtr, fptr, rptr := randtbl, 3, 31, 3, 31, 3, 0;
      world := Start(randtbl);
    }

    // ---------- random ----------

    method Draw() returns (i: int)
      requires Fields() && Ok(View())
      modifies this`fptr, this`rptr, table
      ensures Fields() && (View(), i) == Step(half, old(View())) && table[0] == old(table[0])
    {
      hide Wrap, Mask31;
      ghost var g := View();
      if kind == 0 {
        table[1] := Mask31(Wrap(half, table[1] * 1103515245 + 12345));
        i := table[1];
        assert View() == g.(words := [i]);
      } else {
        OneWraps(g);
        hide Deg, Sep;
        ghost var x := Wrap(half, g.words[g.front] + g.words[g.rear]);
        table[fptr + 1] := Wrap(half, table[fptr + 1] + table[rptr + 1]);
        i := Mask31(table[fptr + 1] / 2);
        assert table[1..deg + 1] == g.words[fptr := x];
        MovePointers();
        assert View() == Gen(g.kind, g.words[g.front := x], Cyclic(g.front, deg), Cyclic(g.rear, deg));
      }
    }

    /** Both pointers go one place round the table. */
    method MovePointers()
      requires fptr < endPtr && rptr < endPtr && !(fptr + 1 == endPtr && rptr + 1 == endPtr)
      modifies this`fptr, this`rptr
      ensures fptr == Cyclic(old(fptr), endPtr) && rptr == Cyclic(old(rptr), endPtr)
    {
      fptr := fptr + 1;
      if fptr >= endPtr {
        fptr := 0;
        rptr := rptr + 1;
      } else {
        rptr := rptr + 1;
        if rptr >= endPtr { rptr := 0; }
      }
    }

    method Random() returns (i: int)
      requires Valid()
      modifies this`fptr, this`rptr, this`world, table
      ensures Valid() && world == Apply(half, old(world), OpRandom)
      ensures i == Step(half, old(world).gens[old(table)]).1
    {
      hide Deg, Sep, Size, Saved, Ok, Step, Apply, WorldOk, View;
      CurrentOk(world);
      RandomWorld(half, world);
      ghost var w' := Apply(half, world, OpRandom);
      i := Draw();
      world := w';
    }

    // ---------- srandom ----------

    method Srandom(x: nat)
      requires Fields()
      modifies this`fptr, this`rptr, table
      ensures Fields() && View() == Seeded(half, kind, x) && table[0] == old(table[0])
    {
      hide Wrap, Lcg, Step;
      if kind == 0 {
        table[1] := Wrap(half, x);
      } else {
        Degrees(kind);
        hide Deg, Sep;
        table[1] := Wrap(half, x);
        var i := 1;
        while i < deg
          invariant 1 <= i <= deg && table[0] == old(table[0])
          invariant table[1..i + 1] == Fill(half, x, i)
        {
          table[i + 1] := Lcg(half, table[i]);
          assert table[1..i + 2] == table[1..i + 1] + [table[i + 1]] && table[1..i + 1][i - 1] == table[i];
          i := i + 1;
        }
        fptr := sep;
        rptr := 0;
        ghost var g := View();
        i := 0;
        while i < 10 * deg
          invariant 0 <= i <= 10 * deg && table[0] == old(table[0]) && Fields()
          invariant Ok(g) && View() == Advance(half, g, i)
        {
          var _ := Draw();
          i := i + 1;
        }
      }
    }

    /** srandom as the program calls it: the table in use is seeded again, its header is not
        rewritten. */
    method Reseed(x: nat)
      requires Valid()
      modifies this`fptr, this`rptr, this`world, table
      ensures Valid() && world == Apply(half, old(world), OpSrandom(x))
    {
      hide Deg, Sep, Size, Saved, Ok, Seeded, Apply, WorldOk, View;
      CurrentOk(world);
      KindOf();
      SrandomWorld(half, world, x);
      ghost var w' := Apply(half, world, OpSrandom(x));
      Srandom(x);
      world := w';
    }

    // ---------- initstate and setstate ----------

    /** Writes the header of the table in use. */
    method Save()
      requires Fields() && Ok(View())
      modifies table
      ensures Fields() && View() == old(View()) && table[0] == Header(View()) && Saved(table, View())
    {
      if kind == 0 { table[0] := kind; } else { table[0] := TYPES * rptr + kind; }
      assert kind > 0 ==> table[1..deg + 1] == old(table[1..deg + 1]);
      HeaderDecodes(View(), table[..]);
    }

    /** Null is returned, and nothing but the header written, when n is too small. */
    method InitState(seed: nat, arg: array<int>, n: int) returns (ostate: array?<int>)
      requires Valid() && (n >= 8 ==> arg.Length >= Size(KindFor(n)) + 1)
      modifies this, table, arg
      ensures Valid() && world == Apply(half, old(world), OpInitState(seed, arg, n))
      ensures ostate == if n < 8 then null else old(table)
    {
      hide Deg, Sep, Size, Saved, Ok, Seeded, Apply, WorldOk, View;
      ostate := table;
      CurrentOk(world);
      Save();
      KindOf();
      InitStateWorld(half, world, seed, arg, n);
      ghost var w' := Apply(half, world, OpInitState(seed, arg, n));
      var k: Kind := 0;
      if n < 32 {
        if n < 8 {
          world := w';
          return null;
        }
      } else if n < 64 {
        k := 1;
      } else if n < 128 {
        k := 2;
      } else if n < 256 {
        k := 3;
      } else {
        k := 4;
      }
      Point(k, 0, arg);
      Srandom(seed);
      Save();
      world := w';
    }

    /** The tables the program has, with the one whose words these are, if it is new, as its header says. */
    static ghost function Known(w: World<array<int>>, arg: array<int>, words: seq<int>): (r: World<array<int>>)
      requires WorldOk(w) && (arg in w.gens || TableOk(words))
      ensures WorldOk(r) && arg in r.gens && r.cur == w.cur
    {
      if arg in w.gens then w else w.(gens := w.gens[arg := Decode(words)])
    }

    /** Takes in a table that something other than these calls has filled. */
    ghost method Adopt(arg: array<int>)
      requires Valid() && (arg in world.gens || TableOk(arg[..]))
      modifies this`world
      ensures Valid() && arg in world.gens && world == Known(old(world), arg, arg[..])
    {
      hide Decode, TableOk, Ok;
      world := Known(world, arg, arg[..]);
    }

    /** arg must be a table with a header that some call could have left, whether or not one did. */
    method SetState(arg: array<int>) returns (ostate: array<int>)
      requires Valid() && (arg in world.gens || TableOk(arg[..]))
      modifies this, table
      ensures Valid() && ostate == old(table)
      ensures world == Apply(half, Known(old(world), arg, old(arg[..])), OpSetState(arg))
    {
      hide Deg, Sep, Size, Ok, Apply, WorldOk, Saved, Pointed, View, Known, TableOk;
      Adopt(arg);
      ostate := Switch(arg);
    }

    /** setstate to a table the program has. */
    method Switch(arg: array<int>) returns (ostate: array<int>)
      requires Valid() && arg in world.gens
      modifies this, table
      ensures Valid() && world == Apply(half, old(world), OpSetState(arg)) && ostate == old(table)
    {
      hide Deg, Sep, Size, Ok, Apply, WorldOk, Saved, Pointed, View;
      CurrentOk(world);
      ghost var g := world.gens[arg];
      ghost var rear0 := if arg == table then world.mark else g.rear;
      HeaderSplits(world.mark, kind);
      KindOf();
      if arg != table { HeaderOf(arg, g); }
      var typ := arg[0] % TYPES;
      var rear := arg[0] / TYPES;
      ostate := table;
      Save();
      if arg != ostate { WordsOf(arg, g); } else { KindOf(); }
      SetStateWorld(half, world, arg);
      ghost var w' := Apply(half, world, OpSetState(arg));
      Point(typ, rear, arg);
      PointedSame(g, WordsIn(arg, typ), rear, rear0);
      world := w';
    }

    lemma KindOf()
      requires Fields()
      ensures View().kind == kind && View().words == WordsIn(table, kind)
    {}

    static ghost function WordsIn(a: array<int>, k: Kind): seq<int>
      requires a.Length >= Size(k) + 1
      reads a
    {
      if k == 0 then [a[1]] else a[1..Deg(k) + 1]
    }

    /** Makes arg the table in use, of kind k, with the rear pointer at `rear`. */
    method Point(k: Kind, rear: nat, arg: array<int>)
      requires half > 0 && arg.Length >= Size(k) + 1
      modifies this`kind, this`deg, this`sep, this`table, this`rptr, this`fptr, this`endPtr
      ensures Fields() && kind == k && table == arg
      ensures View() == Pointed(Gen(k, WordsIn(arg, k), 0, 0), rear)
    {
      Degrees(k);
      hide Deg, Sep;
      kind := k;
      deg := Deg(k);
      sep := Sep(k);
      table := arg;
      if kind != 0 {
        rptr := rear;
        fptr := (rear + sep) % deg;
      }
      endPtr := deg;
    }

    static lemma HeaderOf(a: array<int>, g: Gen)
      requires Saved(a, g)
      ensures a.Length >= 2 && a[0] >= 0 && a[0] % TYPES == g.kind && (g.kind > 0 ==> a[0] / TYPES == g.rear)
      ensures a[0] == Header(g)
    {
      hide Ok, TableOk, Decode;
      DecodeFields(a[..], g);
    }

    static lemma WordsOf(a: array<int>, g: Gen)
      requires Saved(a, g)
      ensures a.Length >= Size(g.kind) + 1 && a[0] == TYPES * g.rear + g.kind
      ensures g.words == WordsIn(a, g.kind)
    {
      hide Ok, TableOk, Decode;
      DecodeFields(a[..], g);
    }
  }

  // ---------- what a switch does to the world ----------

  /** Generator g with the pointers that header position `rear` stands for. */
  function Pointed(g: Gen, rear: nat): Gen {
    Degrees(g.kind);
    if g.kind == 0 then Gen(0, g.words, 0, 0) else Gen(g.kind, g.words, (rear + Sep(g.kind)) % Deg(g.kind), rear)
  }

  lemma PointedSame(g: Gen, words: seq<int>, rear: nat, rear': nat)
    requires words == g.words && (g.kind > 0 ==> rear == rear')
    ensures Pointed(Gen(g.kind, words, 0, 0), rear) == Pointed(g, rear')
  {}

  lemma SetStateWorld<I>(half: int, w: World<I>, i: I)
    requires half > 0 && WorldOk(w) && i in w.gens
    ensures var w' := Apply(half, w, OpSetState(i));
      && WorldOk(w') && w'.cur == i && w'.mark == w.gens[i].rear
      && w'.gens == w.gens[i := Pointed(w.gens[i], if i == w.cur then w.mark else w.gens[i].rear)]
  {
    ApplyKeeps(half, w, OpSetState(i));
    var g, rear := w.gens[i], if i == w.cur then w.mark else w.gens[i].rear;
    if g.kind > 0 { AheadIsMod(g.kind, rear); }
    assert i != w.cur ==> Pointed(g, rear) == g;
  }

  lemma RandomWorld<I>(half: int, w: World<I>)
    requires half > 0 && WorldOk(w)
    ensures var w' := Apply(half, w, OpRandom);
      && WorldOk(w') && w'.cur == w.cur && w'.mark == w.mark && w'.gens == w.gens[w.cur := Step(half, w.gens[w.cur]).0]
  {
    ApplyKeeps(half, w, OpRandom);
  }

  lemma SrandomWorld<I>(half: int, w: World<I>, seed: int)
    requires half > 0 && WorldOk(w)
    ensures var w' := Apply(half, w, OpSrandom(seed));
      && WorldOk(w') && w'.cur == w.cur && w'.mark == w.mark
      && w'.gens == w.gens[w.cur := Seeded(half, w.gens[w.cur].kind, seed)]
  {
    ApplyKeeps(half, w, OpSrandom(seed));
  }

  lemma InitStateWorld<I>(half: int, w: World<I>, seed: int, i: I, n: int)
    requires half > 0 && WorldOk(w)
    ensures var w' := Apply(half, w, OpInitState(seed, i, n));
      && WorldOk(w')
      && (if n < 8 then w' == w.(mark := w.gens[w.cur].rear) else
          var k := KindFor(n);
          && w'.gens == w.gens[i := Seeded(half, k, seed)] && w'.cur == i && w'.mark == 0
          && Header(Seeded(half, k, seed)) == k)
  {
    ApplyKeeps(half, w, OpInitState(seed, i, n));
    if n >= 8 { SeededRear(half, KindFor(n), seed); }
  }
}
