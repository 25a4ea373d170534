/** The segment as MA sees it: allocation descriptors, guard words and client bytes at
    addresses, where writing one record destroys whatever it overlaps; and linked lists
    threaded through the descriptors. */
module MaMemory {
  import opened MaLayout
  import opened MaState
  import opened Lists

  const GUARD1 := 0xaaaaaaaa
  const GUARD2 := 0x55555555

  /** An allocation descriptor without its name; NULL is 0. */
  datatype Ad = Ad(dtype: int, nelem: int, client: int, nbytes: int, next: int, checksum: int)

  datatype Memory = Memory(ads: map<int, Ad>, guards: map<int, int>, data: map<int, int>)

  /** Writes a whole descriptor at a, over whatever was there. */
  function PutAd(cfg: Config, m: Memory, a: int, ad: Ad): Memory {
    Memory((map x | x in m.ads && (x + cfg.adSize <= a || a + cfg.adSize <= x) :: m.ads[x])[a := ad],
           map g | g in m.guards && (g + cfg.guardSize <= a || a + cfg.adSize <= g) :: m.guards[g],
           map x | x in m.data && (x < a || a + cfg.adSize <= x) :: m.data[x])
  }

  /** Writes fields of the descriptor at a. */
  function SetAd(m: Memory, a: int, ad: Ad): Memory {
    m.(ads := m.ads[a := ad])
  }

  /** guard_write */
  function PutGuard(cfg: Config, m: Memory, g: int, v: int): Memory {
    Memory(map x | x in m.ads && (x + cfg.adSize <= g || g + cfg.guardSize <= x) :: m.ads[x],
           (map h | h in m.guards && (h + cfg.guardSize <= g || g + cfg.guardSize <= h) :: m.guards[h])[g := v],
           map x | x in m.data && (x < g || g + cfg.guardSize <= x) :: m.data[x])
  }

  /** A client's store of one byte. */
  function PutByte(cfg: Config, m: Memory, x: int, v: int): Memory {
    Memory(map y | y in m.ads && (y + cfg.adSize <= x || x + 1 <= y) :: m.ads[y],
           map g | g in m.guards && (g + cfg.guardSize <= x || x + 1 <= g) :: m.guards[g],
           m.data[x := v])
  }

  /** No two records in memory overlap. */
  ghost predicate Separate(cfg: Config, m: Memory) {
    && (forall a, b :: a in m.ads && b in m.ads && a < b ==> a + cfg.adSize <= b)
    && (forall g, h :: g in m.guards && h in m.guards && g < h ==> g + cfg.guardSize <= h)
    && (forall a, g :: a in m.ads && g in m.guards ==> a + cfg.adSize <= g || g + cfg.guardSize <= a)
    && (forall a, x :: a in m.ads && x in m.data ==> x < a || a + cfg.adSize <= x)
    && (forall g, x :: g in m.guards && x in m.data ==> x < g || g + cfg.guardSize <= x)
  }

  /** Writes never leave two overlapping records, so a record that can be read is intact. */
  lemma PutAdSeparate(cfg: Config, m: Memory, a: int, ad: Ad)
    requires cfg.adSize > 0 && cfg.guardSize > 0 && Separate(cfg, m)
    ensures Separate(cfg, PutAd(cfg, m, a, ad))
  {}

  lemma SetAdSeparate(cfg: Config, m: Memory, a: int, ad: Ad)
    requires Separate(cfg, m) && a in m.ads
    ensures Separate(cfg, SetAd(m, a, ad))
  {}

  lemma PutGuardSeparate(cfg: Config, m: Memory, g: int, v: int)
    requires cfg.adSize > 0 && cfg.guardSize > 0 && Separate(cfg, m)
    ensures Separate(cfg, PutGuard(cfg, m, g, v))
  {}

  lemma PutByteSeparate(cfg: Config, m: Memory, x: int, v: int)
    requires cfg.adSize > 0 && cfg.guardSize > 0 && Separate(cfg, m)
    ensures Separate(cfg, PutByte(cfg, m, x, v))
  {}

  /** Only `next` fields of descriptors in `where` differ. */
  ghost predicate LinksOnly(m: Memory, m': Memory, where: set<int>) {
    && m'.ads.Keys == m.ads.Keys && m'.guards == m.guards && m'.data == m.data
    && (forall x :: x in m.ads && x !in where ==> m'.ads[x] == m.ads[x])
    && (forall x :: x in m.ads ==> m'.ads[x] == m.ads[x].(next := m'.ads[x].next))
  }

  lemma LinksSeparate(cfg: Config, m: Memory, m': Memory, w: set<int>)
    requires Separate(cfg, m) && LinksOnly(m, m', w)
    ensures Separate(cfg, m')
  {
    assert forall x :: x in m'.ads <==> x in m.ads.Keys;
  }

  lemma LinksRefl(m: Memory)
    ensures LinksOnly(m, m, {})
  {}

  lemma LinksCompose(m0: Memory, m1: Memory, m2: Memory, w1: set<int>, w2: set<int>)
    requires LinksOnly(m0, m1, w1) && LinksOnly(m1, m2, w2) && w2 <= w1
    ensures LinksOnly(m0, m2, w1)
  {
    assert forall x :: (x in m0.ads <==> x in m1.ads.Keys) && (x in m1.ads <==> x in m2.ads.Keys);
  }

  // ---------- linked lists ----------

  function First(s: seq<int>): int { if s == [] then 0 else s[0] }

  /** The node after the i-th, or NULL. */
  function After(s: seq<int>, i: nat): int { if i + 1 < |s| then s[i + 1] else 0 }

  /** The list from `head` threads the addresses s in order. */
  ghost predicate Linked(ads: map<int, Ad>, head: int, s: seq<int>) {
    && head == First(s)
    && (forall i :: 0 <= i < |s| ==> s[i] in ads && s[i] != 0)
    && (forall i {:trigger After(s, i)} :: 0 <= i < |s| ==> ads[s[i]].next == After(s, i))
  }

  lemma StartOf(m: Memory, head: int, s: seq<int>)
    requires Linked(m.ads, head, s)
    ensures head == (if 0 < |s| then s[0] else 0) && (head == 0 <==> s == []) && LinksOnly(m, m, set x | x in s)
  {}

  lemma EmptyLinked(ads: map<int, Ad>)
    ensures Linked(ads, 0, [])
  {}

  /** A list is unaffected by changes elsewhere. */
  lemma LinkedElsewhere(ads: map<int, Ad>, ads': map<int, Ad>, head: int, s: seq<int>)
    requires Linked(ads, head, s)
    requires forall x :: x in s ==> x in ads' && ads'[x].next == ads[x].next
    ensures Linked(ads', head, s)
  {
    forall i | 0 <= i < |s|
      ensures s[i] in ads' && ads'[s[i]].next == After(s, i)
    {
      assert s[i] in s && ads[s[i]].next == After(s, i);
    }
  }

  /** Linking node a in before position i. */
  lemma LinkIn(ads: map<int, Ad>, ads': map<int, Ad>, head: int, s: seq<int>, i: nat, a: int)
    requires Linked(ads, head, s) && NoDup(s) && i <= |s| && a !in s && a != 0 && a in ads'
    requires ads'[a].next == (if i < |s| then s[i] else 0)
    requires forall x :: x in s ==> x in ads'
    requires forall k :: 0 <= k < |s| && k != i - 1 ==> ads'[s[k]].next == ads[s[k]].next
    requires i > 0 ==> ads'[s[i - 1]].next == a
    ensures Linked(ads', if i == 0 then a else head, s[..i] + [a] + s[i..])
  {
    var t := s[..i] + [a] + s[i..];
    forall k | 0 <= k < |t|
      ensures t[k] in ads' && t[k] != 0 && ads'[t[k]].next == After(t, k)
    {
      if k < i {
        assert t[k] == s[k] && s[k] in s;
        assert ads[s[k]].next == After(s, k);
      } else if k > i {
        assert t[k] == s[k - 1] && s[k - 1] in s;
        assert ads[s[k - 1]].next == After(s, k - 1);
      }
    }
  }

  /** Unlinking the node at position i. */
  lemma LinkOut(ads: map<int, Ad>, ads': map<int, Ad>, head: int, s: seq<int>, i: nat)
    requires Linked(ads, head, s) && NoDup(s) && i < |s|
    requires forall x :: x in s ==> x in ads'
    requires forall k :: 0 <= k < |s| && k != i - 1 && k != i ==> ads'[s[k]].next == ads[s[k]].next
    requires i > 0 ==> ads'[s[i - 1]].next == ads[s[i]].next
    ensures Linked(ads', if i == 0 then ads[s[0]].next else head, s[..i] + s[i + 1..])
  {
    var t := s[..i] + s[i + 1..];
    assert ads[s[i]].next == After(s, i);
    forall k | 0 <= k < |t|
      ensures t[k] in ads' && t[k] != 0 && ads'[t[k]].next == After(t, k)
    {
      var j := if k < i then k else k + 1;
      assert t[k] == s[j] && s[j] in s;
      assert ads[s[j]].next == After(s, j);
    }
  }

  // ---------- memory against the abstract state ----------

  /** checksum() */
  function Checksum(cfg: Config, ad: Ad): int {
    (ad.dtype + ad.nelem + ad.client + ad.nbytes) % cfg.Word()
  }

  /** Every block's descriptor holds its length. */
  ghost predicate Sizes(m: Memory, s: State) {
    forall a :: a in s.size ==> a in m.ads && m.ads[a].nbytes == s.size[a]
  }

  function Guard2At(cfg: Config, d: Desc): int
    requires cfg.Valid()
  {
    d.client + d.nelem * cfg.size[d.dtype]
  }

  /** Block a's descriptor records d with a correct checksum, and both guards are intact. */
  ghost predicate Sealed(cfg: Config, m: Memory, a: int, d: Desc)
    requires cfg.Valid()
  {
    && a in m.ads && m.ads[a].dtype == d.dtype && m.ads[a].nelem == d.nelem && m.ads[a].client == d.client
    && m.ads[a].checksum == Checksum(cfg, m.ads[a])
    && d.client - cfg.guardSize in m.guards && m.guards[d.client - cfg.guardSize] == GUARD1
    && Guard2At(cfg, d) in m.guards && m.guards[Guard2At(cfg, d)] == GUARD2
  }

  ghost predicate Descs(cfg: Config, m: Memory, s: State)
    requires cfg.Valid()
  {
    forall a :: a in s.desc ==> Sealed(cfg, m, a, s.desc[a])
  }

  /** Of what lies outside [lo, hi), nothing a client or a block in use relies on differs. */
  ghost predicate Frame(cfg: Config, m: Memory, m': Memory, s: State, lo: int, hi: int) {
    && (forall x :: x in s.desc && x in m.ads && (x + s.Size(x) <= lo || hi <= x) ==> x in m'.ads && m'.ads[x] == m.ads[x])
    && (forall g :: g in m.guards && (g + cfg.guardSize <= lo || hi <= g) ==> g in m'.guards && m'.guards[g] == m.guards[g])
    && (forall x :: x in m.data && (x < lo || hi <= x) ==> x in m'.data && m'.data[x] == m.data[x])
  }

  lemma FrameCompose(cfg: Config, m0: Memory, m1: Memory, m2: Memory, s: State, lo: int, hi: int)
    requires Frame(cfg, m0, m1, s, lo, hi) && Frame(cfg, m1, m2, s, lo, hi)
    ensures Frame(cfg, m0, m2, s, lo, hi)
  {}

  lemma FrameWiden(cfg: Config, m: Memory, m': Memory, s: State, lo: int, hi: int, lo': int, hi': int)
    requires cfg.guardSize > 0 && Frame(cfg, m, m', s, lo, hi) && lo' <= lo <= hi <= hi'
    ensures Frame(cfg, m, m', s, lo', hi')
  {}

  /** Descriptors of blocks in use, guards and client bytes are all as they were. */
  ghost predicate InUseKept(m: Memory, m': Memory, s: State) {
    && m'.guards == m.guards && m'.data == m.data
    && forall x :: x in s.desc && x in m.ads ==> x in m'.ads && m'.ads[x] == m.ads[x]
  }

  lemma LinksInUse(m: Memory, m': Memory, w: set<int>, s: State)
    requires LinksOnly(m, m', w) && forall x :: x in w ==> x !in s.desc
    ensures InUseKept(m, m', s)
  {
    assert forall x :: x in m.ads <==> x in m'.ads.Keys;
  }

  lemma InUseSame(m: Memory, m': Memory, s: State, t: State)
    requires InUseKept(m, m', s) && t.desc == s.desc
    ensures InUseKept(m, m', t)
  {}

  lemma InUseCompose(m0: Memory, m1: Memory, m2: Memory, s: State)
    requires InUseKept(m0, m1, s) && InUseKept(m1, m2, s)
    ensures InUseKept(m0, m2, s)
  {}

  /** Lengths survive relinking and forgetting blocks. */
  lemma LinksSizes(m: Memory, m': Memory, w: set<int>, s: State, t: State)
    requires Sizes(m, s) && LinksOnly(m, m', w)
    requires forall x :: x in t.size ==> x in s.size && t.size[x] == s.size[x]
    ensures Sizes(m', t)
  {
    assert forall x :: x in m.ads <==> x in m'.ads.Keys;
  }

  /** Relinking a list frames everything but the descriptors on it. */
  lemma LinksFrame(cfg: Config, m: Memory, m': Memory, s: State, w: set<int>, lo: int, hi: int)
    requires LinksOnly(m, m', w) && forall x :: x in w && x in s.desc ==> lo <= x < hi && x + s.Size(x) > lo
    ensures Frame(cfg, m, m', s, lo, hi)
  {
    assert forall x :: x in m.ads <==> x in m'.ads.Keys;
  }

  lemma PutAdFrame(cfg: Config, m: Memory, s: State, a: int, ad: Ad)
    requires cfg.adSize > 0 && forall x :: x in s.desc ==> x + s.Size(x) >= x + cfg.adSize
    ensures Frame(cfg, m, PutAd(cfg, m, a, ad), s, a, a + cfg.adSize)
  {}

  /** A block in use outside the frame stays sealed. */
  lemma FrameSealed(cfg: Config, m: Memory, m': Memory, s: State, a: int, lo: int, hi: int)
    requires cfg.Valid() && Frame(cfg, m, m', s, lo, hi) && a in s.desc && Sealed(cfg, m, a, s.desc[a])
    requires Contains(cfg, a, s.Size(a), s.desc[a].client, s.desc[a].dtype, s.desc[a].nelem)
    requires a + s.Size(a) <= lo || hi <= a
    ensures Sealed(cfg, m', a, s.desc[a]) && m'.ads[a] == m.ads[a]
  {}

  /** The bytes of client spaces that survive from s to s' are the same in both memories. */
  ghost predicate ClientBytesKept(cfg: Config, m: Memory, m': Memory, s: State, s': State)
    requires cfg.Valid()
  {
    forall a :: a in s.desc && a in s'.desc ==> BytesKept(m, m', s'.desc[a].client, Guard2At(cfg, s'.desc[a]))
  }

  ghost predicate BytesKept(m: Memory, m': Memory, lo: int, hi: int) {
    forall x :: lo <= x < hi && x in m.data ==> x in m'.data && m'.data[x] == m.data[x]
  }
}
