/** Ordered passes over a table, and sorting what they collect. */
module Scan {
  import opened Base

  method FindLeast(keys: set<string>) returns (least: string)
    requires keys != {}
    ensures IsLeast(least, keys, LexLe)
  {
    least :| least in keys;
    var rest := keys - {least};
    LexRefl(least);
    while rest != {}
      invariant rest <= keys && least in keys
      invariant forall j :: j in keys && j !in rest ==> LexLe(least, j)
      decreases |rest|
    {
      var k :| k in rest;
      rest := rest - {k};
      if LexLe(k, least) {
        forall j | j in keys && j !in rest ensures LexLe(k, j) {
          if j == k { LexRefl(k); } else { LexTrans(k, least, j); }
        }
        least := k;
      } else {
        LexConnected(k, least);
      }
    }
  }

  /** The keys of a table as its iterator yields them. */
  method InOrder(keys: set<string>) returns (order: seq<string>)
    ensures order == StringKeys(keys)
  {
    order := [];
    var rest := keys;
    while rest != {}
      invariant rest <= keys
      invariant forall k :: k in keys <==> k in order || k in rest
      invariant Ascending(order, LexLe)
      invariant forall i, k :: 0 <= i < |order| && k in rest ==> Before(order[i], k, LexLe)
      decreases |rest|
    {
      var k := FindLeast(rest);
      AppendAscends(order, k, LexLe);
      order := order + [k];
      rest := rest - {k};
    }
    LexIsTotal();
    StringKeysAscend(keys);
    AscendingUnique(order, StringKeys(keys), LexLe);
  }

  method FindSmallest(keys: set<nat>) returns (least: nat)
    requires keys != {}
    ensures least in keys && forall j :: j in keys ==> least <= j
  {
    least :| least in keys;
    var rest := keys - {least};
    while rest != {}
      invariant rest <= keys && least in keys
      invariant forall j :: j in keys && j !in rest ==> least <= j
      decreases |rest|
    {
      var k :| k in rest;
      rest := rest - {k};
      if k < least { least := k; }
    }
  }

  method IndexesInOrder(keys: set<nat>) returns (order: seq<nat>)
    ensures order == IndexKeys(keys)
  {
    order := [];
    var rest := keys;
    while rest != {}
      invariant rest <= keys
      invariant forall k :: k in keys <==> k in order || k in rest
      invariant Ascending(order, IndexLe)
      invariant forall i, k :: 0 <= i < |order| && k in rest ==> Before(order[i], k, IndexLe)
      decreases |rest|
    {
      var least := FindSmallest(rest);
      AppendAscends(order, least, IndexLe);
      order := order + [least];
      rest := rest - {least};
    }
    IndexKeysAscend(keys);
    AscendingUnique(order, IndexKeys(keys), IndexLe);
  }

  /** What a pass collects. */
  method Select<T>(s: seq<T>, p: T -> bool) returns (out: seq<T>)
    ensures forall x :: x in out <==> x in s && p(x)
  {
    out := [];
    for i := 0 to |s|
      invariant forall x :: x in out ==> x in s && p(x)
      invariant forall j :: 0 <= j < i && p(s[j]) ==> s[j] in out
    {
      if p(s[i]) { out := out + [s[i]]; }
    }
  }

  // ----- sorting -----

  ghost predicate TotalPreorder<T(!new)>(le: (T, T) -> bool) {
    (forall a, b :: le(a, b) || le(b, a)) && (forall a, b, c :: le(a, b) && le(b, c) ==> le(a, c))
  }

  ghost predicate Sorted<T(!new)>(s: seq<T>, le: (T, T) -> bool) {
    forall i, j :: 0 <= i < j < |s| ==> le(s[i], s[j])
  }

  lemma InsertedSorted<T(!new)>(x: T, s: seq<T>, i: nat, le: (T, T) -> bool)
    requires TotalPreorder(le) && Sorted(s, le) && i <= |s|
    requires i > 0 ==> le(s[i - 1], x)
    requires forall j :: i <= j < |s| ==> le(x, s[j])
    ensures Sorted(s[..i] + [x] + s[i..], le)
  {
    forall j | 0 <= j < i ensures le(s[j], x) {
      if j < i - 1 { assert le(s[j], s[i - 1]); }
    }
    assert s[..i] + [x] + s[i..] == seq(|s| + 1, k requires 0 <= k <= |s| => if k < i then s[k] else if k == i then x else s[k - 1]);
  }

  method Insert<T(!new)>(x: T, s: seq<T>, le: (T, T) -> bool) returns (r: seq<T>)
    requires TotalPreorder(le) && Sorted(s, le)
    ensures Sorted(r, le) && multiset(r) == multiset(s) + multiset{x}
  {
    var i := |s|;
    while i > 0 && !le(s[i - 1], x)
      invariant 0 <= i <= |s|
      invariant forall j :: i <= j < |s| ==> le(x, s[j])
    {
      i := i - 1;
      assert le(x, s[i]);
    }
    r := s[..i] + [x] + s[i..];
    InsertedSorted(x, s, i, le);
    assert s == s[..i] + s[i..];
  }

  method SortBy<T(!new)>(s: seq<T>, le: (T, T) -> bool) returns (r: seq<T>)
    requires TotalPreorder(le)
    ensures Sorted(r, le) && multiset(r) == multiset(s)
  {
    r := [];
    for i := 0 to |s|
      invariant Sorted(r, le) && multiset(r) == multiset(s[..i])
    {
      r := Insert(s[i], r, le);
      assert s[..i + 1] == s[..i] + [s[i]];
    }
    assert s[..|s|] == s;
  }
}
