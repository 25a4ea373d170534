/** Request aggregation of armci/src-gemini/aggregate.c: segments saved on a handle are kept in
    a buffer of its own and sent together. */
module Aggregator {
  import opened AggBuffer

  /** _MAX_AGG_BUFFERS, as many handles as buffers. */
  const MAX_BUFFERS := 32

  /** What identifies a handle's buffer. */
  datatype Key = Key(tag: int, proc: int)

  /** PUT and GET, the only operations that are aggregated. */
  datatype Operation = Put | Get

  /** One vector put or get: every segment of it, in order. */
  datatype Transfer = Transfer(key: Key, op: Operation, items: seq<Item>)

  /** Everything sent so far on handle k. */
  function Sent(log: seq<Transfer>, k: Key): seq<Item> {
    if log == [] then []
    else Sent(log[..|log| - 1], k) + if log[|log| - 1].key == k then log[|log| - 1].items else []
  }

  lemma SentSnoc(log: seq<Transfer>, t: Transfer, k: Key)
    ensures Sent(log + [t], k) == Sent(log, k) + if t.key == k then t.items else []
  {
    assert (log + [t])[..|log|] == log;
  }

  function KeyOf(b: Buffer): Key { Key(b.tag, b.proc) }

  /** armci_ihdl_t; proc < 0 marks a handle that no request uses. */
  class Handle {
    var tag: int
    var op: Operation
    var proc: int

    constructor ()
      ensures proc < 0
    {
      tag, op, proc := 0, Put, -1;
    }
  }

  /** Index lists u and a share out 0, ..., |u| + |a| - 1. */
  ghost predicate Partition(u: seq<int>, a: seq<int>) {
    && |u| + |a| <= MAX_BUFFERS
    && (forall i, j :: 0 <= i < j < |u| ==> u[i] != u[j])
    && (forall i, j :: 0 <= i < j < |a| ==> a[i] != a[j])
    && (forall i, j :: 0 <= i < |u| && 0 <= j < |a| ==> u[i] != a[j])
    && (forall x :: x in u || x in a <==> 0 <= x < |u| + |a|)
  }

  lemma PartitionNew(u: seq<int>, a: seq<int>)
    requires Partition(u, a) && a == [] && |u| < MAX_BUFFERS
    ensures Partition(u + [|u|], a) && |u| !in u
  {
    var v := u + [|u|];
    forall x | 0 <= x < |v|
      ensures x in v
    {
      assert x < |u| ==> x in u;
      assert v[|u|] == |u|;
    }
    assert |u| !in u;
  }

  lemma PartitionTake(u: seq<int>, a: seq<int>)
    requires Partition(u, a) && a != []
    ensures var x := a[|a| - 1]; Partition(u + [x], a[..|a| - 1]) && x !in u && 0 <= x < |u| + |a|
    ensures a[|a| - 1] !in a[..|a| - 1]
  {
    var n := |a| - 1;
    var v, b := u + [a[n]], a[..n];
    assert a[n] in a;
    forall x
      ensures x in v || x in b <==> 0 <= x < |v| + |b|
    {
      assert x in v <==> x in u || x == a[n];
      assert a == b + [a[n]];
    }
  }

  /** The in-use list with position i given to its last entry. */
  function Dropped(u: seq<int>, i: nat): seq<int>
    requires i < |u|
  {
    u[i := u[|u| - 1]][..|u| - 1]
  }

  lemma DroppedIs(u: seq<int>, i: nat)
    requires i < |u| && forall k, l :: 0 <= k < l < |u| ==> u[k] != u[l]
    ensures forall k, l :: 0 <= k < l < |u| - 1 ==> Dropped(u, i)[k] != Dropped(u, i)[l]
    ensures forall x :: x in Dropped(u, i) <==> x in u && x != u[i]
  {
    var n, v := |u| - 1, Dropped(u, i);
    forall x | x in u && x != u[i]
      ensures x in v
    {
      var j :| 0 <= j < |u| && u[j] == x;
      assert v[if j == n then i else j] == x;
    }
  }

  lemma PartitionFree(u: seq<int>, a: seq<int>, i: nat)
    requires Partition(u, a) && i < |u|
    ensures Partition(Dropped(u, i), a + [u[i]])
    ensures forall x :: x in Dropped(u, i) <==> x in u && x != u[i]
  {
    DroppedIs(u, i);
    var v, b := Dropped(u, i), a + [u[i]];
    assert |v| == |u| - 1 && u[i] in u;
    hide Dropped;
    assert forall x :: x in b <==> x in a || x == u[i];
    assert forall k :: 0 <= k < |v| ==> v[k] in v;
    assert forall k :: 0 <= k < |a| ==> a[k] in a;
    NoneShared(u, a);
  }

  lemma NoneShared(u: seq<int>, a: seq<int>)
    requires Partition(u, a)
    ensures forall x :: x in u ==> x !in a
  {}

  // ---------- all buffers together ----------

  /** Buffers bs, of which those in u are in use, by the handles `at` says, and those in a are
      available and empty. */
  ghost predicate Good(z: Sizes, bs: seq<Buffer>, u: seq<int>, a: seq<int>, at: map<Key, int>) {
    && z.Valid() && |bs| == MAX_BUFFERS && Partition(u, a)
    && (forall i :: 0 <= i < |bs| ==> |bs[i].src| == |bs[i].dst| == MAX_PTRS)
    && (forall i :: i in u ==> Ok(z, bs[i]))
    && (forall i :: i in a ==> Ok(z, bs[i]) && bs[i].len == 0)
    && (forall k :: k in at ==> at[k] in u && KeyOf(bs[at[k]]) == k)
    && (forall i :: i in u ==> KeyOf(bs[i]) in at && at[KeyOf(bs[i])] == i)
  }

  ghost function PendingIn(z: Sizes, bs: seq<Buffer>, at: map<Key, int>, k: Key): seq<Item> {
    if k in at && 0 <= at[k] < |bs| && Ok(z, bs[at[k]]) then Pending(z, bs[at[k]]) else []
  }

  lemma GoodRange(z: Sizes, bs: seq<Buffer>, u: seq<int>, a: seq<int>, at: map<Key, int>)
    requires Good(z, bs, u, a, at)
    ensures |bs| == MAX_BUFFERS && |u| + |a| <= MAX_BUFFERS
    ensures forall i :: i in u || i in a ==> 0 <= i < |u| + |a|
  {}

  /** Handle k takes buffer x, which becomes c. */
  lemma AddSlot(z: Sizes, bs: seq<Buffer>, u: seq<int>, a: seq<int>, at: map<Key, int>, a': seq<int>, k: Key, x: int,
          c: Buffer)
    requires Good(z, bs, u, a, at) && k !in at && 0 <= x < |bs| && x !in u
    requires Partition(u + [x], a') && (forall y :: y in a' ==> y in a && y != x)
    requires KeyOf(c) == k && Ok(z, c) && Pending(z, c) == []
    ensures Good(z, bs[x := c], u + [x], a', at[k := x])
    ensures forall k' :: PendingIn(z, bs[x := c], at[k := x], k') == PendingIn(z, bs, at, k')
  {
    hide Ok, Pending;
    GoodRange(z, bs, u, a, at);
    hide Partition;
    OkShape(z, c);
  }

  lemma OkShape(z: Sizes, b: Buffer)
    requires Ok(z, b)
    ensures |b.src| == |b.dst| == MAX_PTRS
  {
    DescrsShape(b, b.len);
  }

  /** The buffer of handle k becomes c. */
  lemma UpdateSlot(z: Sizes, bs: seq<Buffer>, u: seq<int>, a: seq<int>, at: map<Key, int>, k: Key, c: Buffer)
    requires Good(z, bs, u, a, at) && k in at && KeyOf(c) == k && Ok(z, c)
    ensures 0 <= at[k] < |bs| && Ok(z, bs[at[k]]) && KeyOf(bs[at[k]]) == k
    ensures var bs' := bs[at[k] := c];
      && Good(z, bs', u, a, at)
      && PendingIn(z, bs', at, k) == Pending(z, c) && PendingIn(z, bs, at, k) == Pending(z, bs[at[k]])
      && forall k' :: k' != k ==> PendingIn(z, bs', at, k') == PendingIn(z, bs, at, k')
  {
    hide Ok, Pending;
    GoodRange(z, bs, u, a, at);
    InUseOnly(u, a, at[k]);
    hide Partition;
    OkShape(z, c);
  }

  lemma InUseOnly(u: seq<int>, a: seq<int>, x: int)
    requires Partition(u, a) && x in u
    ensures x !in a
  {}

  /** Handle k gives up its buffer, which is empty and at position i of the in-use list. */
  lemma FreeSlot(z: Sizes, bs: seq<Buffer>, u: seq<int>, a: seq<int>, at: map<Key, int>, k: Key, i: nat)
    requires Good(z, bs, u, a, at) && i < |u| && k in at && at[k] == u[i]
    requires 0 <= u[i] < |bs| && bs[u[i]].len == 0
    ensures Good(z, bs, Dropped(u, i), a + [u[i]], at - {k})
    ensures forall k' :: k' != k ==> PendingIn(z, bs, at - {k}, k') == PendingIn(z, bs, at, k')
    ensures PendingIn(z, bs, at, k) == [] && PendingIn(z, bs, at - {k}, k) == []
  {
    PartitionFree(u, a, i);
    assert Ok(z, bs[u[i]]);
    hide Ok, Partition;
    EmptyPending(z, bs[u[i]]);
    hide Dropped;
  }

  lemma EmptyPending(z: Sizes, b: Buffer)
    requires Ok(z, b) && b.len == 0
    ensures Pending(z, b) == []
  {}

  // ---------- conservation ----------

  function Of(saved: map<Key, seq<Item>>, k: Key): seq<Item> { if k in saved then saved[k] else [] }

  /** On every handle, what has been sent followed by what is pending is what was saved. */
  ghost predicate Balanced(z: Sizes, bs: seq<Buffer>, at: map<Key, int>, log: seq<Transfer>,
          saved: map<Key, seq<Item>>) {
    forall k {:trigger Of(saved, k)} :: Sent(log, k) + PendingIn(z, bs, at, k) == Of(saved, k)
  }

  lemma BalancedSame(z: Sizes, bs: seq<Buffer>, at: map<Key, int>, bs': seq<Buffer>, at': map<Key, int>,
          log: seq<Transfer>, saved: map<Key, seq<Item>>)
    requires Balanced(z, bs, at, log, saved) && forall k :: PendingIn(z, bs', at', k) == PendingIn(z, bs, at, k)
    ensures Balanced(z, bs', at', log, saved)
  {
    hide PendingIn, Sent;
    forall k
      ensures Sent(log, k) + PendingIn(z, bs', at', k) == Of(saved, k)
    {
      var s := Of(saved, k);
      assert PendingIn(z, bs', at', k) == PendingIn(z, bs, at, k);
    }
  }

  /** A transfer of all that handle k has pending. */
  lemma BalancedSend(z: Sizes, bs: seq<Buffer>, bs': seq<Buffer>, at: map<Key, int>, log: seq<Transfer>,
          saved: map<Key, seq<Item>>, t: Transfer)
    requires Balanced(z, bs, at, log, saved)
    requires PendingIn(z, bs, at, t.key) == t.items && PendingIn(z, bs', at, t.key) == []
    requires forall k :: k != t.key ==> PendingIn(z, bs', at, k) == PendingIn(z, bs, at, k)
    ensures Balanced(z, bs', at, log + [t], saved)
  {
    hide PendingIn;
    forall k
      ensures Sent(log + [t], k) + PendingIn(z, bs', at, k) == Of(saved, k)
    {
      var s := Of(saved, k);
      SentSnoc(log, t, k);
      assert k != t.key ==> PendingIn(z, bs', at, k) == PendingIn(z, bs, at, k);
    }
  }

  /** One more item saved, and pending, on handle k. */
  lemma BalancedSave(z: Sizes, bs: seq<Buffer>, bs': seq<Buffer>, at: map<Key, int>, log: seq<Transfer>,
          saved: map<Key, seq<Item>>, k: Key, i: Item)
    requires Balanced(z, bs, at, log, saved)
    requires PendingIn(z, bs', at, k) == PendingIn(z, bs, at, k) + [i]
    requires forall k' :: k' != k ==> PendingIn(z, bs', at, k') == PendingIn(z, bs, at, k')
    ensures Balanced(z, bs', at, log, saved[k := Of(saved, k) + [i]])
  {
    hide PendingIn, Sent;
    var saved' := saved[k := Of(saved, k) + [i]];
    forall k'
      ensures Sent(log, k') + PendingIn(z, bs', at, k') == Of(saved', k')
    {
      var s := Of(saved, k');
      assert k' != k ==> PendingIn(z, bs', at, k') == PendingIn(z, bs, at, k') && Of(saved', k') == s;
    }
  }

  class Aggregates {
    const z: Sizes
    const bufs: array<Buffer>
    const ulist: array<int>
    const alist: array<int>
    var usize: nat
    var asize: nat
    var nextTag: int
    /** Vector transfers made, segments saved on each handle, the buffer of each handle in use,
        and the operation that goes with each tag. */
    ghost var log: seq<Transfer>
    ghost var saved: map<Key, seq<Item>>
    ghost var at: map<Key, int>
    ghost var opOf: map<int, Operation>

    ghost predicate Shape()
      reads this`usize, this`asize, this`at, bufs, ulist, alist
    {
      && bufs.Length == ulist.Length == alist.Length == MAX_BUFFERS && ulist != alist
      && usize <= MAX_BUFFERS && asize <= MAX_BUFFERS
      && Good(z, bufs[..], ulist[..usize], alist[..asize], at)
    }

    ghost predicate Conserved()
      reads this`log, this`saved, this`at, bufs
    {
      Balanced(z, bufs[..], at, log, saved)
    }

    /** Every transfer was made with the operation of its handle. */
    ghost predicate Labelled()
      reads this`log, this`opOf, this`nextTag, this`at
    {
      && (forall k :: k in at ==> k.proc >= 0)
      && (forall t :: t in log ==> t.key.tag in opOf && t.op == opOf[t.key.tag])
      && (forall t :: t in opOf ==> t < nextTag)
    }

    ghost predicate Valid()
      reads this, bufs, ulist, alist
    {
      Shape() && Conserved() && Labelled()
    }

    /** A handle in use carries the operation its tag was made for. */
    ghost predicate Bound(h: Handle)
      reads this`opOf, h
    {
      h.proc >= 0 ==> h.tag in opOf && opOf[h.tag] == h.op
    }

    constructor (z: Sizes)
      requires z.Valid()
      ensures Valid() && fresh(bufs) && fresh(ulist) && fresh(alist) && this.z == z
      ensures usize == 0 && asize == 0 && log == [] && saved == map[]
    {
      this.z := z;
      var b := Buffer(0, 0, 0, 0, 0, map[], map[], seq(MAX_PTRS, i => User(0)), seq(MAX_PTRS, i => 0));
      bufs := new Buffer[MAX_BUFFERS](i => b);
      ulist := new int[MAX_BUFFERS](i => 0);
      alist := new int[MAX_BUFFERS](i => 0);
      usize, asize, nextTag := 0, 0, 0;
      log, saved, at, opOf := [], map[], map[], map[];
    }

    // ---------- buffer lists ----------

    /** Position in the in-use list of the buffer of (tag, proc), -1 if it has none. */
    method Find(tag: int, proc: int) returns (i: int)
      requires Shape()
      ensures -1 <= i < usize && (i >= 0 <==> Key(tag, proc) in at)
      ensures i >= 0 ==> ulist[i] == at[Key(tag, proc)] && 0 <= ulist[i] < MAX_BUFFERS
    {
      hide Ok;
      ghost var u := ulist[..usize];
      GoodRange(z, bufs[..], u, alist[..asize], at);
      hide Partition;
      i := usize - 1;
      while i >= 0
        invariant -1 <= i < usize
        invariant forall j :: i < j < usize ==> 0 <= u[j] < MAX_BUFFERS && KeyOf(bufs[..][u[j]]) != Key(tag, proc)
      {
        assert u[i] in u;
        if bufs[ulist[i]].tag == tag && bufs[ulist[i]].proc == proc { return; }
        i := i - 1;
      }
    }

    /** The buffer of a handle, an available or a new one if it has none yet; not ok is fatal. */
    method GetBufferId(tag: int, proc: int) returns (ok: bool, index: int)
      requires Valid() && proc >= 0
      modifies this`usize, this`asize, this`at, bufs, ulist
      ensures ok <==> Key(tag, proc) in old(at) || !(old(usize) >= MAX_BUFFERS && old(asize) == 0)
      ensures Valid()
      ensures ok ==> Key(tag, proc) in at && at[Key(tag, proc)] == index
      ensures ok && Key(tag, proc) !in old(at) ==> index !in old(ulist[..usize])
      ensures forall k :: k in old(at) ==> k in at && at[k] == old(at)[k]
      ensures !ok ==> unchanged(this, bufs, ulist)
    {
      hide Good, PendingIn, Ok, Pending, Balanced, Partition;
      var i := Find(tag, proc);
      if i >= 0 { return true, ulist[i]; }
      if usize >= MAX_BUFFERS && asize == 0 { return false, 0; }
      ghost var bs, u, a, at0, k := bufs[..], ulist[..usize], alist[..asize], at, Key(tag, proc);
      GoodRange(z, bs, u, a, at);
      index := NextIndex();
      Relabelled(z, bufs[index], tag, proc);
      bufs[index] := bufs[index].(tag := tag, proc := proc, len := 0);
      ulist[usize] := index;
      usize := usize + 1;
      AddSlot(z, bs, u, a, at, alist[..asize], k, index, bufs[index]);
      at := at[k := index];
      assert bufs[..] == bs[index := bufs[index]] && ulist[..usize] == u + [index];
      BalancedSame(z, bs, at0, bufs[..], at, log, saved);
      return true, index;
    }

    /** The last available index, or else a new one, whose buffer is made empty. */
    method NextIndex() returns (index: int)
      requires Shape() && !(usize >= MAX_BUFFERS && asize == 0)
      modifies this`asize, bufs
      ensures asize <= old(asize) && usize < MAX_BUFFERS && 0 <= index < MAX_BUFFERS && index !in ulist[..usize]
      ensures Partition(ulist[..usize] + [index], alist[..asize])
      ensures forall y :: y in alist[..asize] ==> y in old(alist[..asize]) && y != index
      ensures bufs[..] == old(bufs[..])[index := bufs[index]] && Ok(z, bufs[index]) && bufs[index].len == 0
    {
      hide Good, PendingIn, Ok, Pending, Partition;
      ghost var bs, u, a := bufs[..], ulist[..usize], alist[..asize];
      GoodRange(z, bs, u, a, at);
      GoodParts(z, bs, u, a, at);
      if asize > 0 {
        PartitionTake(u, a);
        asize := asize - 1;
        index := alist[asize];
        assert index in a && alist[..asize] == a[..|a| - 1];
      } else {
        PartitionNew(u, a);
        index := usize;
        assert alist[..asize] == a == [];
        bufs[index] := bufs[index].(len := 0, ptrs := 0, posEnd := BUFSIZE);
        EmptiedOk(z, bufs[index]);
      }
    }

    // ---------- sending ----------

    /** Sends all that buffer `index` of handle h holds, and empties it. */
    method Send(h: Handle, index: int)
      requires Valid() && Bound(h) && Key(h.tag, h.proc) in at && at[Key(h.tag, h.proc)] == index && h.proc >= 0
      modifies this`log, bufs
      ensures Valid() && 0 <= index < bufs.Length && bufs[index] == Emptied(bufs[index])
      ensures Sent(log, Key(h.tag, h.proc)) == Of(saved, Key(h.tag, h.proc))
      ensures log == old(log) || exists t: Transfer :: t.key == Key(h.tag, h.proc) && t.op == h.op && log == old(log) + [t]
    {
      hide Good, PendingIn, Ok, Pending, Balanced, Partition, Sent;
      ghost var k, bs, u, a := Key(h.tag, h.proc), bufs[..], ulist[..usize], alist[..asize];
      GoodSlot(z, bs, u, a, at, k);
      ghost var b := bufs[index];
      EmptiedOk(z, b);
      UpdateSlot(z, bs, u, a, at, k, Emptied(b));
      ghost var bs' := bs[index := Emptied(b)];
      if bufs[index].len > 0 {
        ghost var t := Transfer(k, h.op, Pending(z, b));
        BalancedSend(z, bs, bs', at, log, saved, t);
        log := log + [t];
      } else {
        EmptyPending(z, b);
        BalancedSame(z, bs, at, bs', at, log, saved);
      }
      NothingPending(z, bs', at, log, saved, k);
      bufs[index] := bufs[index].(len := 0);
      bufs[index] := bufs[index].(ptrs := 0);
      bufs[index] := bufs[index].(posEnd := BUFSIZE);
      assert bufs[..] == bs';
    }

    /** armci_agg_complete: sends what the handle has pending; with `unset`, gives up its
        buffer too. */
    method Complete(h: Handle, unset: bool)
      requires Valid() && Bound(h)
      modifies this`log, this`at, this`usize, this`asize, bufs, ulist, alist, h
      ensures Valid() && Sent(log, old(Key(h.tag, h.proc))) == Of(saved, old(Key(h.tag, h.proc)))
      ensures log == old(log) || exists t: Transfer :: t.key == old(Key(h.tag, h.proc)) && log == old(log) + [t]
      ensures h.tag == old(h.tag) && h.op == old(h.op) && h.proc == if unset && old(Key(h.tag, h.proc) in at) then -1 else old(h.proc)
      ensures at == if unset then old(at) - {old(Key(h.tag, h.proc))} else old(at)
      ensures !unset ==> usize == old(usize) && asize == old(asize)
      ensures !unset && Key(h.tag, h.proc) in at ==>
        0 <= at[Key(h.tag, h.proc)] < bufs.Length && (var b := bufs[at[Key(h.tag, h.proc)]]; b == Emptied(b))
    {
      hide Good, PendingIn, Ok, Pending, Balanced, Partition, Sent;
      ghost var k := Key(h.tag, h.proc);
      var i := Find(h.tag, h.proc);
      if i < 0 {
        NoSlot(z, bufs[..], at, k);
        NothingPending(z, bufs[..], at, log, saved, k);
        return;
      }
      var index := ulist[i];
      Send(h, index);
      if unset {
        h.proc := -1;
        ghost var u, a, at0 := ulist[..usize], alist[..asize], at;
        FreeSlot(z, bufs[..], u, a, at, k, i);
        GoodParts(z, bufs[..], u, a, at);
        UpdateLists(index, i);
        at := at - {k};
        BalancedSame(z, bufs[..], at0, bufs[..], at, log, saved);
      }
    }

    /** _armci_agg_update_lists: index leaves the in-use list for the available one. */
    method UpdateLists(index: int, ghost i: nat)
      requires ulist.Length == alist.Length == MAX_BUFFERS && ulist != alist && usize <= MAX_BUFFERS
      requires asize <= MAX_BUFFERS
      requires Partition(ulist[..usize], alist[..asize]) && i < usize && ulist[i] == index
      modifies this`usize, this`asize, ulist, alist
      ensures usize == old(usize) - 1 && asize == old(asize) + 1 <= MAX_BUFFERS
      ensures ulist[..usize] == Dropped(old(ulist[..usize]), i) && alist[..asize] == old(alist[..asize]) + [index]
    {
      ghost var u := ulist[..usize];
      PartitionSmall(u, alist[..asize]);
      var j := 0;
      while j < usize
        invariant 0 <= j <= i && usize == old(usize) && asize == old(asize) && ulist[..usize] == u
      {
        assert u[j] == ulist[j] && u[i] == ulist[i];
        if ulist[j] == index {
          ulist[j] := ulist[usize - 1];
          usize := usize - 1;
          break;
        }
        j := j + 1;
      }
      alist[asize] := index;
      asize := asize + 1;
    }
  
    // ---------- saving ----------

    /** AGG_INIT_NB_HANDLE; not ok is fatal: the handle serves another operation or process. */
    method InitHandle(op: Operation, proc: int, h: Handle) returns (ok: bool)
      requires Valid() && Bound(h) && proc >= 0
      modifies this`nextTag, this`opOf, h
      ensures Valid() && Bound(h)
      ensures ok <==> old(h.proc) < 0 || (old(h.op) == op && old(h.proc) == proc)
      ensures ok ==> h.op == op && h.proc == proc
      ensures old(h.proc) >= 0 ==> h.tag == old(h.tag) && h.op == old(h.op) && h.proc == old(h.proc)
      ensures old(h.proc) < 0 ==> forall k :: k in at ==> k.tag in old(opOf) ==> k.tag != h.tag
    {
      if h.proc < 0 {
        h.tag := nextTag;
        nextTag := nextTag + 1;
        h.op := op;
        h.proc := proc;
        opOf := opOf[h.tag := op];
        return true;
      }
      return h.op == op && h.proc == proc;
    }

    /** The buffers while that of handle k, which b1 was when it was last in order, is being
        written. */
    ghost predicate ValidBut(index: int, b1: Buffer)
      requires 0 <= index < bufs.Length
      reads this, bufs, ulist, alist
    {
      && bufs.Length == ulist.Length == alist.Length == MAX_BUFFERS && ulist != alist
      && usize <= MAX_BUFFERS && asize <= MAX_BUFFERS
      && Good(z, bufs[..][index := b1], ulist[..usize], alist[..asize], at)
      && Balanced(z, bufs[..][index := b1], at, log, saved) && Labelled()
    }

    /** _armci_agg_get_descriptor for one pointer: makes room for segment s, sending what is
        pending if there is not enough, in descriptor rid of buffer `index`. */
    method GetDescriptor(h: Handle, s: Segment) returns (ok: bool, index: int, rid: int, ghost b1: Buffer)
      requires Valid() && Bound(h) && h.proc >= 0 && s.Fits(z)
      modifies this`log, this`at, this`usize, this`asize, bufs, ulist, alist, h
      ensures ok <==> Key(h.tag, h.proc) in old(at) || !(old(usize) >= MAX_BUFFERS && old(asize) == 0)
      ensures h.tag == old(h.tag) && h.op == old(h.op) && h.proc == old(h.proc) && Bound(h)
      ensures !ok ==> Valid()
      ensures ok ==> Key(h.tag, h.proc) in at && at[Key(h.tag, h.proc)] == index && 0 <= index < bufs.Length
      ensures ok ==> ValidBut(index, b1) && Ok(z, b1) && !Full(z, b1, s) && KeyOf(b1) == Key(h.tag, h.proc)
      ensures ok ==> rid == bufs[index].len - 1
      ensures ok ==> var c := WithData(z, WithDescr(z, b1, s), s); bufs[index] == c.(ptrs := c.ptrs + 1)
    {
      hide Good, PendingIn, Ok, Pending, Balanced, Partition, Sent, WithData, WithDescr, Full, Needed, Joins;
      ghost var k := Key(h.tag, h.proc);
      ok, index := GetBufferId(h.tag, h.proc);
      if !ok { return false, 0, 0, Nobody(); }
      GoodSlot(z, bufs[..], ulist[..usize], alist[..asize], at, k);
      var newDescr, full: bool;
      rid, newDescr, full := Measure(index, s);
      if full {
        Complete(h, false);
        GoodSlot(z, bufs[..], ulist[..usize], alist[..asize], at, k);
        EmptyNotFull(z, bufs[index], s);
        EmptyNotJoined(bufs[index], s.bytes);
        rid := 0;
        newDescr := true;
      }
      b1 := bufs[index];
      ghost var bs := bufs[..];
      assert bs == bs[index := b1];
      Claim(index, rid, newDescr, s);
      assert bufs[..][index := b1] == bs;
    }

    /** The descriptor to use, whether it is new, and whether the buffer has no room. */
    method Measure(index: int, s: Segment) returns (rid: int, newDescr: bool, full: bool)
      requires 0 <= index < bufs.Length && Ok(z, bufs[index])
      ensures newDescr == !Joins(bufs[index], s.bytes) && full == Full(z, bufs[index], s)
      ensures rid == if newDescr then bufs[index].len else bufs[index].len - 1
    {
      OkDescrs(z, bufs[index]);
      hide Ok;
      rid := bufs[index].len;
      var remaining := bufs[index].posEnd - (z.req + bufs[index].len * z.giov);
      var needed := 0;
      newDescr := false;
      if s.copy { needed := s.bytes; }
      if rid > 0 && s.bytes == bufs[index].darr[rid - 1].bytes {
        rid := rid - 1;
      } else {
        newDescr := true;
        needed := needed + z.giov;
      }
      full := needed > remaining || MAX_PTRS - bufs[index].ptrs < 1;
    }

    /** Sets descriptor rid up if it is new, copies the data, counts the pointer. */
    method Claim(index: int, rid: int, newDescr: bool, s: Segment)
      requires 0 <= index < bufs.Length && newDescr == !Joins(bufs[index], s.bytes)
      requires rid == if newDescr then bufs[index].len else bufs[index].len - 1
      modifies bufs
      ensures var b, c := old(bufs[index]), WithData(z, WithDescr(z, old(bufs[index]), s), s);
        && bufs[..] == old(bufs[..])[index := c.(ptrs := c.ptrs + 1)]
        && rid == bufs[index].len - 1
    {
      hide PutData, PutDescr;
      LenKept(z, bufs[index], s);
      if newDescr {
        bufs[index] := PutDescr(z, bufs[index], rid, Giov(bufs[index].ptrs, 0, StaleBytes(bufs[index], rid))).(len := bufs[index].len + 1);
      }
      if s.copy {
        bufs[index] := bufs[index].(posEnd := bufs[index].posEnd - s.bytes);
        bufs[index] := PutData(z, bufs[index], bufs[index].posEnd, s.content);
      }
      bufs[index] := bufs[index].(ptrs := bufs[index].ptrs + 1);
    }

    /** Enters the pointers into descriptor rid. */
    method Enter(index: int, rid: int, s: Segment, ghost c: Buffer)
      requires 0 <= index < bufs.Length && bufs[index] == c.(ptrs := c.ptrs + 1) && rid == c.len - 1 && c.len > 0
      requires rid in c.darr
      requires var d := c.darr[rid]; 0 <= d.start + d.n < |c.src| == |c.dst|
      modifies bufs
      ensures bufs[..] == old(bufs[..])[index := WithPtrs(z, c, s)]
    {
      hide PutDescr;
      var d := bufs[index].darr[rid];
      var idx := d.start + d.n;
      bufs[index] := bufs[index].(src := bufs[index].src[idx := if s.copy then Copy(bufs[index].posEnd) else User(s.src)]);
      bufs[index] := bufs[index].(dst := bufs[index].dst[idx := s.dst]);
      bufs[index] := PutDescr(z, bufs[index], rid, d.(n := d.n + 1, bytes := s.bytes));
    }

    /** armci_agg_save_descriptor: one segment is saved on the handle. Not ok is fatal: the
        handle serves another operation or process, or no buffer is left. */
    method Save(src: int, dst: int, bytes: int, proc: int, op: Operation, copy: bool, content: seq<int>,
            h: Handle) returns (ok: bool)
      requires Valid() && Bound(h) && proc >= 0
      requires Segment(src, dst, bytes, copy, content).Fits(z)
      modifies this, bufs, ulist, alist, h
      ensures Valid() && Bound(h)
      ensures ok ==> h.op == op && h.proc == proc && (old(h.proc) >= 0 ==> h.tag == old(h.tag))
      ensures ok ==> var k := Key(h.tag, proc);
        saved == old(saved)[k := Of(old(saved), k) + [Segment(src, dst, bytes, copy, content).ToItem()]]
      ensures !ok ==> saved == old(saved)
      ensures ok <==>
        && (old(h.proc) < 0 || (old(h.op) == op && old(h.proc) == proc))
        && (Key(h.tag, h.proc) in old(at) || !(old(usize) >= MAX_BUFFERS && old(asize) == 0))
    {
      hide Good, PendingIn, Ok, Pending, Balanced, Partition, Sent, PutData, PutDescr, WithData, WithDescr, Full;
      var s := Segment(src, dst, bytes, copy, content);
      ok := InitHandle(op, proc, h);
      if !ok { return; }
      var index, rid;
      ghost var b1;
      ok, index, rid, b1 := GetDescriptor(h, s);
      if !ok { return; }
      ghost var k, bs := Key(h.tag, h.proc), bufs[..][index := b1];
      SaveAppends(z, b1, s);
      ghost var c := WithData(z, WithDescr(z, b1, s), s);
      LenKept(z, b1, s);
      PtrsKey(z, c, s);
      UpdateSlot(z, bs, ulist[..usize], alist[..asize], at, k, WithPtrs(z, c, s));
      Enter(index, rid, s, c);
      assert bufs[..] == bs[index := WithPtrs(z, c, s)];
      BalancedSave(z, bs, bufs[..], at, log, saved, k, s.ToItem());
      saved := saved[k := Of(saved, k) + [s.ToItem()]];
    }
  }

  ghost function Nobody(): Buffer { Buffer(0, 0, 0, 0, 0, map[], map[], [], []) }

  lemma OkDescrs(z: Sizes, b: Buffer)
    requires Ok(z, b)
    ensures forall i :: 0 <= i < b.len ==> i in b.darr
  {
    DescrsShape(b, b.len);
  }

  lemma PtrsKey(z: Sizes, b: Buffer, s: Segment)
    requires b.len > 0 && b.len - 1 in b.darr
    requires var d := b.darr[b.len - 1]; 0 <= d.start + d.n < |b.src| == |b.dst|
    ensures KeyOf(WithPtrs(z, b, s)) == KeyOf(b)
  {}

  lemma LenKept(z: Sizes, b: Buffer, s: Segment)
    ensures WithData(z, WithDescr(z, b, s), s).len == if Joins(b, s.bytes) then b.len else b.len + 1
    ensures KeyOf(WithData(z, WithDescr(z, b, s), s)) == KeyOf(b)
  {}

  lemma GoodSlot(z: Sizes, bs: seq<Buffer>, u: seq<int>, a: seq<int>, at: map<Key, int>, k: Key)
    requires Good(z, bs, u, a, at) && k in at
    ensures z.Valid() && 0 <= at[k] < |bs| == MAX_BUFFERS && at[k] in u && Ok(z, bs[at[k]]) && KeyOf(bs[at[k]]) == k
    ensures |bs[at[k]].src| == |bs[at[k]].dst| == MAX_PTRS
  {
    hide Ok;
    GoodRange(z, bs, u, a, at);
  }

  lemma NoSlot(z: Sizes, bs: seq<Buffer>, at: map<Key, int>, k: Key)
    requires k !in at
    ensures PendingIn(z, bs, at, k) == []
  {}

  lemma NothingPending(z: Sizes, bs: seq<Buffer>, at: map<Key, int>, log: seq<Transfer>, saved: map<Key, seq<Item>>,
          k: Key)
    requires Balanced(z, bs, at, log, saved) && PendingIn(z, bs, at, k) == []
    ensures Sent(log, k) == Of(saved, k)
  {
    var s := Of(saved, k);
  }

  lemma Relabelled(z: Sizes, b: Buffer, tag: int, proc: int)
    requires Ok(z, b) && b.len == 0
    ensures var c := b.(tag := tag, proc := proc, len := 0); Ok(z, c) && Pending(z, c) == []
  {}

  lemma GoodParts(z: Sizes, bs: seq<Buffer>, u: seq<int>, a: seq<int>, at: map<Key, int>)
    requires Good(z, bs, u, a, at)
    ensures z.Valid() && Partition(u, a)
    ensures forall i :: 0 <= i < |bs| ==> |bs[i].src| == |bs[i].dst| == MAX_PTRS
    ensures forall i :: i in a ==> 0 <= i < |bs| && Ok(z, bs[i]) && bs[i].len == 0
  {}

  lemma PartitionSmall(u: seq<int>, a: seq<int>)
    requires Partition(u, a)
    ensures |u| + |a| <= MAX_BUFFERS
  {}
}
