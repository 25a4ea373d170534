/** One aggregation buffer of armci/src-gemini/aggregate.c: request descriptors fill it from
    the left, copies of put data from the right, and both share its bytes. */
module AggBuffer {

  /** _MAX_AGG_BUFSIZE and _MAX_PTRS. */
  const BUFSIZE := 2048
  const MAX_PTRS := 256

  /** sizeof(agg_req_t) and sizeof(armci_giov_t). */
  datatype Sizes = Sizes(req: nat, giov: nat) {
    predicate Valid() { giov > 0 && req + giov <= BUFSIZE }
  }

  /** A source pointer: into the program's memory, or to a copy inside the buffer. */
  datatype Src = User(addr: int) | Copy(pos: int)

  /** `start` is where the descriptor's pointers begin among those of its buffer. */
  datatype Giov = Giov(start: int, n: int, bytes: int)

  /** What one segment of a transfer moves: the bytes at an address, or bytes already copied. */
  datatype Payload = At(addr: int) | Bytes(s: seq<int>)

  datatype Item = Item(from: Payload, dst: int, bytes: int)

  /** agg_req_t at the start of an agg_buf, the rest of that agg_buf by what is stored there,
      and the rows of agg_src_ptr and agg_dst_ptr that belong to it. */
  datatype Buffer = Buffer(tag: int, proc: int, len: nat, ptrs: nat, posEnd: int,
                           darr: map<int, Giov>, data: map<int, int>, src: seq<Src>, dst: seq<int>)

  // ---------- memory ----------

  /** First byte of descriptor r. */
  function DescrAt(z: Sizes, r: int): int { z.req + r * z.giov }

  /** Writes descriptor r, over whatever was in its bytes. */
  function PutDescr(z: Sizes, b: Buffer, r: int, d: Giov): Buffer {
    b.(darr := b.darr[r := d],
       data := map x | x in b.data && !(DescrAt(z, r) <= x < DescrAt(z, r + 1)) :: b.data[x])
  }

  function Span(pos: int, n: nat): (s: set<int>)
    ensures forall x :: x in s <==> pos <= x < pos + n
  {
    if n == 0 then {} else Span(pos, n - 1) + {pos + n - 1}
  }

  /** memcpy of s to position pos, over whatever was there. */
  function PutData(z: Sizes, b: Buffer, pos: int, s: seq<int>): Buffer {
    b.(data := map x | x in b.data.Keys + Span(pos, |s|) :: if x in Span(pos, |s|) then s[x - pos] else b.data[x],
       darr := map r | r in b.darr && (DescrAt(z, r + 1) <= pos || pos + |s| <= DescrAt(z, r)) :: b.darr[r])
  }

  function ByteAt(b: Buffer, x: int): int { if x in b.data then b.data[x] else 0 }

  function Load(b: Buffer, s: Src, bytes: int): Payload {
    match s
    case User(a) => At(a)
    case Copy(pos) => Bytes(seq(if bytes < 0 then 0 else bytes, i => ByteAt(b, pos + i)))
  }

  // ---------- meaning ----------

  /** Pointers of the first r descriptors. */
  function Count(b: Buffer, r: nat): nat {
    if r == 0 then 0 else Count(b, r - 1) + if r - 1 in b.darr && b.darr[r - 1].n >= 0 then b.darr[r - 1].n else 0
  }

  /** Pointers `from` up to but not including d's end are descriptor d's; copied data lies in
      the right end of the buffer. */
  ghost predicate DescrOk(b: Buffer, d: Giov, from: int) {
    && d.start == from && 0 <= d.n && 0 <= from && from + d.n <= MAX_PTRS == |b.src| == |b.dst|
    && forall k :: from <= k < from + d.n && b.src[k].Copy? ==> b.posEnd <= b.src[k].pos
  }

  /** The first r descriptors are there and their pointers follow one another. */
  ghost predicate Descrs(b: Buffer, r: nat) {
    if r == 0 then |b.src| == |b.dst| == MAX_PTRS
    else Descrs(b, r - 1) && r - 1 in b.darr && DescrOk(b, b.darr[r - 1], Count(b, r - 1))
  }

  function ItemAt(b: Buffer, k: nat, bytes: int): Item
    requires k < |b.src| == |b.dst|
  {
    Item(Load(b, b.src[k], bytes), b.dst[k], bytes)
  }

  function DescrItems(b: Buffer, d: Giov): seq<Item>
    requires 0 <= d.start && 0 <= d.n && d.start + d.n <= |b.src| == |b.dst|
  {
    seq(d.n, i requires 0 <= i < d.n => ItemAt(b, d.start + i, d.bytes))
  }

  /** What a vector transfer of the first r descriptors moves, in order. */
  function Items(b: Buffer, r: nat): seq<Item>
    requires Descrs(b, r)
  {
    if r == 0 then [] else Items(b, r - 1) + DescrItems(b, b.darr[r - 1])
  }

  /** Descriptors and copied data do not run into each other. */
  ghost predicate Ok(z: Sizes, b: Buffer) {
    && z.Valid() && Descrs(b, b.len) && b.ptrs == Count(b, b.len) <= MAX_PTRS
    && DescrAt(z, b.len) <= b.posEnd <= BUFSIZE
  }

  function Pending(z: Sizes, b: Buffer): seq<Item>
    requires Ok(z, b)
  {
    Items(b, b.len)
  }

  /** What armci_agg_complete leaves. */
  function Emptied(b: Buffer): Buffer { b.(len := 0, ptrs := 0, posEnd := BUFSIZE) }

  lemma EmptiedOk(z: Sizes, b: Buffer)
    requires z.Valid() && |b.src| == |b.dst| == MAX_PTRS
    ensures Ok(z, Emptied(b)) && Pending(z, Emptied(b)) == []
  {}

  /** The first r descriptors, their pointers and the data behind posEnd are the same. */
  ghost predicate Agree(b: Buffer, b': Buffer, r: nat) {
    && |b'.src| == |b.src| == |b'.dst| == |b.dst| == MAX_PTRS && b'.posEnd <= b.posEnd
    && (forall i :: 0 <= i < r && i in b.darr ==> i in b'.darr && b'.darr[i] == b.darr[i])
    && (forall k :: 0 <= k < Count(b, r) && k < MAX_PTRS ==> b'.src[k] == b.src[k] && b'.dst[k] == b.dst[k])
    && (forall x :: x >= b.posEnd ==> ByteAt(b', x) == ByteAt(b, x))
  }

  lemma {:induction false} ItemsFrame(b: Buffer, b': Buffer, r: nat)
    requires Descrs(b, r) && Agree(b, b', r)
    ensures Descrs(b', r) && Count(b', r) == Count(b, r) && Items(b', r) == Items(b, r)
  {
    if r > 0 {
      ItemsFrame(b, b', r - 1);
      DescrFrame(b, b', b.darr[r - 1], Count(b, r - 1));
    }
  }

  lemma DescrFrame(b: Buffer, b': Buffer, d: Giov, from: int)
    requires DescrOk(b, d, from) && |b'.src| == |b'.dst| == MAX_PTRS && b'.posEnd <= b.posEnd
    requires forall k :: from <= k < from + d.n ==> b'.src[k] == b.src[k] && b'.dst[k] == b.dst[k]
    requires forall x :: x >= b.posEnd ==> ByteAt(b', x) == ByteAt(b, x)
    ensures DescrOk(b', d, from) && DescrItems(b', d) == DescrItems(b, d)
  {
    forall k | from <= k < from + d.n
      ensures ItemAt(b', k, d.bytes) == ItemAt(b, k, d.bytes)
    {
      LoadFrame(b, b', b.src[k], d.bytes);
    }
  }

  lemma LoadFrame(b: Buffer, b': Buffer, s: Src, bytes: int)
    requires s.Copy? ==> s.pos >= b.posEnd
    requires forall x :: x >= b.posEnd ==> ByteAt(b', x) == ByteAt(b, x)
    ensures Load(b', s, bytes) == Load(b, s, bytes)
  {
    if s.Copy? {
      var n := if bytes < 0 then 0 else bytes;
      assert seq(n, i => ByteAt(b', s.pos + i)) == seq(n, i => ByteAt(b, s.pos + i));
    }
  }

  // ---------- saving one segment ----------

  /** The segment being saved: its source, its destination, its length, and the data if it
      is to be copied. */
  datatype Segment = Segment(src: int, dst: int, bytes: int, copy: bool, content: seq<int>)
  {
    /** A copied segment fits an empty buffer. */
    predicate Fits(z: Sizes) { copy ==> |content| == bytes && z.req + z.giov + bytes <= BUFSIZE }

    function ToItem(): Item { Item(if copy then Bytes(content) else At(src), dst, bytes) }
  }

  /** The last descriptor has the right length. */
  predicate Joins(b: Buffer, bytes: int) {
    b.len > 0 && b.len - 1 in b.darr && b.darr[b.len - 1].bytes == bytes
  }

  function Needed(z: Sizes, b: Buffer, s: Segment): int {
    (if s.copy then s.bytes else 0) + (if Joins(b, s.bytes) then 0 else z.giov)
  }

  /** The test on which armci_agg_save_descriptor sends what is pending first. */
  predicate Full(z: Sizes, b: Buffer, s: Segment) {
    Needed(z, b, s) > b.posEnd - DescrAt(z, b.len) || MAX_PTRS - b.ptrs < 1
  }

  /** A new descriptor's length is whatever its memory holds until the segment is entered. */
  function StaleBytes(b: Buffer, r: int): int { if r in b.darr then b.darr[r].bytes else 0 }

  /** A new descriptor, if the last one will not do. */
  function WithDescr(z: Sizes, b: Buffer, s: Segment): Buffer {
    if Joins(b, s.bytes) then b
    else PutDescr(z, b, b.len, Giov(b.ptrs, 0, StaleBytes(b, b.len))).(len := b.len + 1)
  }

  /** The data, if it is copied. */
  function WithData(z: Sizes, b: Buffer, s: Segment): Buffer {
    if s.copy then PutData(z, b.(posEnd := b.posEnd - s.bytes), b.posEnd - s.bytes, s.content) else b
  }

  /** The pointers, entered into the last descriptor. */
  function WithPtrs(z: Sizes, b: Buffer, s: Segment): Buffer
    requires b.len > 0 && b.len - 1 in b.darr
    requires var d := b.darr[b.len - 1]; 0 <= d.start + d.n < |b.src| == |b.dst|
  {
    var d := b.darr[b.len - 1];
    var idx := d.start + d.n;
    PutDescr(z, b.(src := b.src[idx := if s.copy then Copy(b.posEnd) else User(s.src)], dst := b.dst[idx := s.dst], ptrs := b.ptrs + 1),
      b.len - 1, d.(n := d.n + 1, bytes := s.bytes))
  }

  // ---------- saving keeps what is pending ----------

  /** b after s has been given room: its last descriptor, new or of s's length, is the one
      that will hold s. */
  ghost predicate Ready(z: Sizes, b: Buffer, s: Segment) {
    && z.Valid() && b.len > 0 && Descrs(b, b.len) && b.ptrs == Count(b, b.len) < MAX_PTRS
    && DescrAt(z, b.len) <= b.posEnd <= BUFSIZE
    && (b.darr[b.len - 1].n > 0 ==> b.darr[b.len - 1].bytes == s.bytes)
  }

  lemma WithDescrReady(z: Sizes, b: Buffer, s: Segment)
    requires Ok(z, b) && s.Fits(z) && !Full(z, b, s)
    ensures var c := WithDescr(z, b, s);
      && Ready(z, c, s) && Items(c, c.len) == Pending(z, b)
      && (s.copy ==> DescrAt(z, c.len) <= c.posEnd - s.bytes)
  {
    if !Joins(b, s.bytes) {
      var c := WithDescr(z, b, s);
      DescrSteps(z, b.len);
      assert Agree(b, c, b.len);
      ItemsFrame(b, c, b.len);
      assert Items(c, c.len) == Items(c, b.len) + [];
    }
  }

  lemma DescrSteps(z: Sizes, r: int)
    ensures DescrAt(z, r + 1) == DescrAt(z, r) + z.giov
  {}

  lemma DescrMonotone(z: Sizes, r: int, q: int)
    requires z.giov > 0
    ensures r <= q ==> DescrAt(z, r) <= DescrAt(z, q)
  {
    if r < q { assert (q - r) * z.giov >= 0; }
  }

  /** Data written to [pos, pos + |t|) leaves the descriptors on its left and the bytes on
      its right. */
  lemma {:induction false} PutDataFrame(z: Sizes, b: Buffer, pos: int, t: seq<int>)
    requires z.giov > 0 && DescrAt(z, b.len) <= pos
    ensures var c := PutData(z, b, pos, t);
      && (forall r :: 0 <= r < b.len && r in b.darr ==> r in c.darr && c.darr[r] == b.darr[r])
      && (forall x :: x >= pos + |t| ==> ByteAt(c, x) == ByteAt(b, x))
      && Load(c, Copy(pos), |t|) == Bytes(t)
  {
    var c := PutData(z, b, pos, t);
    forall r | 0 <= r < b.len && r in b.darr
      ensures r in c.darr && c.darr[r] == b.darr[r]
    {
      DescrMonotone(z, r + 1, b.len);
    }
    forall i | 0 <= i < |t|
      ensures ByteAt(c, pos + i) == t[i]
    {
      assert pos + i in Span(pos, |t|);
    }
    assert seq(|t|, i => ByteAt(c, pos + i)) == t;
  }

  lemma {:induction false} DescrsShape(b: Buffer, r: nat)
    requires Descrs(b, r)
    ensures |b.src| == |b.dst| == MAX_PTRS && forall i :: 0 <= i < r ==> i in b.darr
  {
    if r > 0 { DescrsShape(b, r - 1); }
  }

  lemma WithDataReady(z: Sizes, b: Buffer, s: Segment)
    requires Ready(z, b, s) && s.Fits(z) && (s.copy ==> DescrAt(z, b.len) <= b.posEnd - s.bytes)
    ensures var c := WithData(z, b, s);
      && Ready(z, c, s) && Items(c, c.len) == Items(b, b.len)
      && (s.copy ==> Load(c, Copy(c.posEnd), s.bytes) == Bytes(s.content))
  {
    hide PutData, Load, ByteAt, WithData, DescrOk, Descrs, Count, Items;
    WithDataFrame(z, b, s);
    if s.copy {
      DescrsShape(b, b.len);
      ItemsFrame(b, WithData(z, b, s), b.len);
    }
  }

  lemma WithDataFrame(z: Sizes, b: Buffer, s: Segment)
    requires z.Valid() && s.Fits(z) && (s.copy ==> DescrAt(z, b.len) <= b.posEnd - s.bytes)
    ensures !s.copy ==> WithData(z, b, s) == b
    ensures s.copy ==> var c := WithData(z, b, s);
      && c.src == b.src && c.dst == b.dst && c.posEnd == b.posEnd - s.bytes && c.len == b.len && c.ptrs == b.ptrs
      && (forall r :: 0 <= r < b.len && r in b.darr ==> r in c.darr && c.darr[r] == b.darr[r])
      && (forall x :: x >= b.posEnd ==> ByteAt(c, x) == ByteAt(b, x))
      && Load(c, Copy(c.posEnd), s.bytes) == Bytes(s.content)
  {
    if s.copy {
      var b0 := b.(posEnd := b.posEnd - s.bytes);
      PutDataFrame(z, b0, b0.posEnd, s.content);
      hide Load;
      assert forall x :: ByteAt(b0, x) == ByteAt(b, x);
    }
  }

  /** Entering one more pointer pair into descriptor d. */
  lemma EnterItem(b: Buffer, c: Buffer, d: Giov, src: Src, dst: int, bytes: int)
    requires DescrOk(b, d, d.start) && (d.n > 0 ==> d.bytes == bytes) && d.start + d.n < MAX_PTRS
    requires c.src == b.src[d.start + d.n := src] && c.dst == b.dst[d.start + d.n := dst] && c.posEnd == b.posEnd
    requires forall x :: x >= b.posEnd ==> ByteAt(c, x) == ByteAt(b, x)
    requires src.Copy? ==> src.pos >= b.posEnd
    ensures var e := Giov(d.start, d.n + 1, bytes);
      DescrOk(c, e, d.start) && DescrItems(c, e) == DescrItems(b, d) + [Item(Load(b, src, bytes), dst, bytes)]
  {
    var e := Giov(d.start, d.n + 1, bytes);
    DescrFrame(b, c, d, d.start);
    LoadFrame(b, c, src, bytes);
    hide Load;
    assert ItemAt(c, d.start + d.n, bytes) == Item(Load(b, src, bytes), dst, bytes);
    assert DescrItems(c, e) == DescrItems(c, d) + [ItemAt(c, d.start + d.n, bytes)];
  }

  lemma {:induction false} WithPtrsAppends(z: Sizes, b: Buffer, s: Segment)
    requires Ready(z, b, s) && (s.copy ==> Load(b, Copy(b.posEnd), s.bytes) == Bytes(s.content))
    ensures var d := b.darr[b.len - 1]; 0 <= d.start + d.n < |b.src| == |b.dst|
    ensures var c := WithPtrs(z, b, s); Ok(z, c) && Pending(z, c) == Items(b, b.len) + [s.ToItem()]
  {
    var d := b.darr[b.len - 1];
    var c := WithPtrs(z, b, s);
    DescrMonotone(z, b.len, b.len);
    assert forall x :: x >= b.posEnd ==> ByteAt(c, x) == ByteAt(b, x);
    assert Agree(b, c, b.len - 1);
    ItemsFrame(b, c, b.len - 1);
    EnterItem(b, c, d, if s.copy then Copy(b.posEnd) else User(s.src), s.dst, s.bytes);
    hide DescrItems, Load, ByteAt, DescrOk;
    assert Items(c, c.len) == Items(c, b.len - 1) + DescrItems(c, Giov(d.start, d.n + 1, s.bytes));
  }

  /** Room for s has been made and s entered: what was pending is followed by s. */
  lemma SaveAppends(z: Sizes, b: Buffer, s: Segment)
    requires Ok(z, b) && s.Fits(z) && !Full(z, b, s)
    ensures var c := WithData(z, WithDescr(z, b, s), s);
      && c.len > 0 && c.len - 1 in c.darr && c.ptrs == b.ptrs
      && (var d := c.darr[c.len - 1]; 0 <= d.start + d.n < |c.src| == |c.dst|)
      && Ok(z, WithPtrs(z, c, s)) && Pending(z, WithPtrs(z, c, s)) == Pending(z, b) + [s.ToItem()]
  {
    hide Ok, Full, Ready, Needed;
    WithDescrReady(z, b, s);
    WithDataReady(z, WithDescr(z, b, s), s);
    WithPtrsAppends(z, WithData(z, WithDescr(z, b, s), s), s);
    ReadyLast(z, WithData(z, WithDescr(z, b, s), s), s);
  }

  lemma ReadyLast(z: Sizes, b: Buffer, s: Segment)
    requires Ready(z, b, s)
    ensures b.len > 0 && b.len - 1 in b.darr
  {}

  lemma EmptyNotJoined(b: Buffer, bytes: int)
    requires b.len == 0
    ensures !Joins(b, bytes)
  {}

  /** An empty buffer is never full. */
  lemma EmptyNotFull(z: Sizes, b: Buffer, s: Segment)
    requires z.Valid() && s.Fits(z)
    ensures !Full(z, Emptied(b), s)
  {}

  // ---------- when a buffer is full, and what saving takes ----------

  /** What is pending goes out first exactly when there are 256 pointers already, or the header, the descriptors
      (one more, unless the last has this length) and the data copied, in 2048 bytes, leave no room. */
  lemma FullIff(z: Sizes, b: Buffer, s: Segment)
    requires Ok(z, b)
    ensures Full(z, b, s) <==>
      || b.ptrs == 256
      || z.req + (b.len + if b.len > 0 && b.darr[b.len - 1].bytes == s.bytes then 0 else 1) * z.giov
           + (2048 - b.posEnd) + (if s.copy then s.bytes else 0) > 2048
  {
    DescrSteps(z, b.len);
    if b.len > 0 { DescrsShape(b, b.len); }
    hide Descrs, Count;
  }

  /** One more pointer pair; one more descriptor exactly when the last one has another length; the data, if it is
      copied, at the left of what was copied before. Nothing pending is touched. */
  lemma SavedShape(z: Sizes, b: Buffer, s: Segment)
    requires Ok(z, b) && s.Fits(z) && !Full(z, b, s)
    ensures var c := WithData(z, WithDescr(z, b, s), s);
      && c.len > 0 && c.len - 1 in c.darr && (var d := c.darr[c.len - 1]; 0 <= d.start + d.n < |c.src| == |c.dst|)
      && var r := WithPtrs(z, c, s);
         && r.ptrs == b.ptrs + 1 && r.posEnd == b.posEnd - (if s.copy then s.bytes else 0)
         && r.len == (if b.len > 0 && b.darr[b.len - 1].bytes == s.bytes then b.len else b.len + 1)
         && r.len - 1 in r.darr && r.darr[r.len - 1].bytes == s.bytes && (r.tag, r.proc) == (b.tag, b.proc)
  {
    SaveAppends(z, b, s);
    if b.len > 0 { DescrsShape(b, b.len); }
    hide Descrs, Count, Items, Pending, Full, Ok;
  }
}
