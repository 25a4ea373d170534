/** The list editing routines of ma/ma.c (list_insert_ordered, list_delete_one,
    list_delete_many and the search for the rightmost block), as functions on the
    sequence of addresses a linked list holds. */
module Lists {

  ghost predicate NoDup(s: seq<int>) {
    forall i, j :: 0 <= i < j < |s| ==> s[i] != s[j]
  }

  ghost predicate Sorted(s: seq<int>) {
    forall i, j :: 0 <= i < j < |s| ==> s[i] < s[j]
  }

  /** list_delete: drops the first occurrence of a. */
  function Remove(s: seq<int>, a: int): seq<int> {
    if s == [] then []
    else if s[0] == a then s[1..]
    else [s[0]] + Remove(s[1..], a)
  }

  /** list_insert_ordered with ad_lt: puts a before the first element above it. */
  function Insert(s: seq<int>, a: int): seq<int> {
    if s == [] then [a]
    else if a < s[0] then [a] + s
    else [s[0]] + Insert(s[1..], a)
  }

  /** list_delete_many with ad_gt: keeps the elements up to m. */
  function UpTo(s: seq<int>, m: int): seq<int> {
    if s == [] then []
    else if s[0] > m then UpTo(s[1..], m)
    else [s[0]] + UpTo(s[1..], m)
  }

  /** list_delete_many with ad_le: keeps the elements above m. */
  function Above(s: seq<int>, m: int): seq<int> {
    if s == [] then []
    else if s[0] <= m then Above(s[1..], m)
    else [s[0]] + Above(s[1..], m)
  }

  /** The largest of m and the elements of s. */
  function MaxFrom(s: seq<int>, m: int): int {
    if s == [] then m
    else MaxFrom(s[1..], if s[0] > m then s[0] else m)
  }

  lemma {:induction false} RemoveSpec(s: seq<int>, a: int)
    requires NoDup(s)
    ensures NoDup(Remove(s, a))
    ensures forall x :: x in Remove(s, a) <==> x in s && x != a
  {
    if s != [] {
      assert s == [s[0]] + s[1..];
      assert s[0] !in s[1..];
      if s[0] != a {
        var r := Remove(s[1..], a);
        RemoveSpec(s[1..], a);
        assert s[0] !in r;
        NoDupCons(s[0], r);
      }
    }
  }

  lemma NoDupCons(a: int, s: seq<int>)
    requires NoDup(s) && a !in s
    ensures NoDup([a] + s)
  {}

  lemma {:induction false} InsertSpec(s: seq<int>, a: int)
    requires Sorted(s) && a !in s
    ensures Sorted(Insert(s, a))
    ensures forall x :: x in Insert(s, a) <==> x in s || x == a
  {
    hide Sorted;
    SortedSmall([a]);
    if s != [] {
      SortedTail(s);
      if a < s[0] {
        SortedCons(a, s);
      } else {
        InsertSpec(s[1..], a);
        SortedCons(s[0], Insert(s[1..], a));
      }
    }
  }

  lemma SortedSmall(s: seq<int>)
    requires |s| <= 1
    ensures Sorted(s)
  {}

  lemma SortedTail(s: seq<int>)
    requires Sorted(s) && s != []
    ensures Sorted(s[1..]) && (forall x :: x in s <==> x == s[0] || x in s[1..]) && forall x :: x in s[1..] ==> x > s[0]
  {
    assert s == [s[0]] + s[1..];
  }

  lemma SortedCons(a: int, s: seq<int>)
    requires Sorted(s) && forall x :: x in s ==> x > a
    ensures Sorted([a] + s) && forall x :: x in [a] + s <==> x == a || x in s
  {
    assert forall k :: 0 <= k < |s| ==> s[k] in s;
  }

  lemma {:induction false} UpToSpec(s: seq<int>, m: int)
    requires Sorted(s)
    ensures Sorted(UpTo(s, m))
    ensures forall x :: x in UpTo(s, m) <==> x in s && x <= m
  {
    hide Sorted;
    if s != [] {
      SortedTail(s);
      UpToSpec(s[1..], m);
      if s[0] <= m { SortedCons(s[0], UpTo(s[1..], m)); }
    }
  }

  lemma {:induction false} AboveSpec(s: seq<int>, m: int)
    requires Sorted(s)
    ensures Sorted(Above(s, m))
    ensures forall x :: x in Above(s, m) <==> x in s && x > m
  {
    hide Sorted;
    if s != [] {
      SortedTail(s);
      AboveSpec(s[1..], m);
      if s[0] > m { SortedCons(s[0], Above(s[1..], m)); }
    }
  }

  lemma {:induction false} AboveIsSuffix(s: seq<int>, i: nat)
    requires Sorted(s) && i < |s|
    ensures Above(s, s[i]) == s[i + 1..]
  {
    if i == 0 {
      AboveAll(s[1..], s[0]);
    } else {
      AboveIsSuffix(s[1..], i - 1);
      assert s[1..][i..] == s[i + 1..];
    }
  }

  lemma {:induction false} AboveAll(s: seq<int>, m: int)
    requires forall k :: 0 <= k < |s| ==> s[k] > m
    ensures Above(s, m) == s
  {
    if s != [] {
      AboveAll(s[1..], m);
      assert s == [s[0]] + s[1..];
    }
  }

  lemma {:induction false} MaxFromSpec(s: seq<int>, m: int)
    ensures MaxFrom(s, m) >= m && (MaxFrom(s, m) == m || MaxFrom(s, m) in s)
    ensures forall x :: x in s ==> x <= MaxFrom(s, m)
    ensures s != [] && s[0] > m ==> MaxFrom(s, m) > m
  {
    if s != [] {
      MaxFromSpec(s[1..], if s[0] > m then s[0] else m);
      assert s == [s[0]] + s[1..];
    }
  }

  lemma {:induction false} RemoveAt(s: seq<int>, i: nat, a: int)
    requires i < |s| && s[i] == a && forall k :: 0 <= k < i ==> s[k] != a
    ensures Remove(s, a) == s[..i] + s[i + 1..]
  {
    if i > 0 {
      RemoveAt(s[1..], i - 1, a);
      assert s[..i] == [s[0]] + s[1..][..i - 1] && s[1..][i..] == s[i + 1..];
    }
  }

  lemma {:induction false} RemoveAbsent(s: seq<int>, a: int)
    requires forall k :: 0 <= k < |s| ==> s[k] != a
    ensures Remove(s, a) == s && a !in s
  {
    if s != [] {
      RemoveAbsent(s[1..], a);
      assert s == [s[0]] + s[1..];
    }
  }

  lemma {:induction false} InsertAt(s: seq<int>, i: nat, a: int)
    requires i <= |s| && (forall k :: 0 <= k < i ==> a >= s[k]) && (i < |s| ==> a < s[i])
    ensures Insert(s, a) == s[..i] + [a] + s[i..]
  {
    if i > 0 {
      InsertAt(s[1..], i - 1, a);
      assert s[..i] == [s[0]] + s[1..][..i - 1] && s[1..][i - 1..] == s[i..];
    }
  }

  /** A walk along l, which from k on is s from i on. */
  lemma WalkStep(l: seq<int>, k: nat, s: seq<int>, i: nat)
    requires k < |l| && i <= |s| && l[k..] == s[i..]
    ensures i < |s| && l[k] == s[i] && l[k + 1..] == s[i + 1..] && l[..k + 1] == l[..k] + [s[i]]
    ensures var r := l[..k] + l[k + 1..]; |r| == |l| - 1 && r[..k] == l[..k] && r[k..] == s[i + 1..]
  {
    assert l[k..][0] == l[k] && s[i..][0] == s[i];
    assert l[k + 1..] == l[k..][1..] && s[i + 1..] == s[i..][1..];
  }

  lemma WalkStart(s: seq<int>, m: int)
    ensures s[0..] == s && UpTo(s[..0], m) == Above(s[..0], m) == s[..0]
  {}

  lemma WalkEnd(l: seq<int>, k: nat, s: seq<int>, i: nat)
    requires k == |l| && i <= |s| && l[k..] == s[i..]
    ensures i == |s| && s[..i] == s && l[..k] == l
  {}

  lemma {:induction false} UpToSnoc(s: seq<int>, i: nat, m: int)
    requires i < |s|
    ensures UpTo(s[..i + 1], m) == UpTo(s[..i], m) + (if s[i] <= m then [s[i]] else [])
  {
    if i > 0 {
      UpToSnoc(s[1..], i - 1, m);
      assert s[..i + 1][1..] == s[1..][..i] && s[..i][1..] == s[1..][..i - 1];
    } else {
      assert s[..1] == [s[0]];
    }
  }

  lemma {:induction false} AboveSnoc(s: seq<int>, i: nat, m: int)
    requires i < |s|
    ensures Above(s[..i + 1], m) == Above(s[..i], m) + (if s[i] > m then [s[i]] else [])
  {
    if i > 0 {
      AboveSnoc(s[1..], i - 1, m);
      assert s[..i + 1][1..] == s[1..][..i] && s[..i][1..] == s[1..][..i - 1];
    } else {
      assert s[..1] == [s[0]];
    }
  }
}
