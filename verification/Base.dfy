/** Integer widths, optional values and the key order of the embedded store. */
module Base {

  datatype Option<+T> = None | Some(value: T)

  const I32_MAX: int := 0x7FFF_FFFF
  const I64_MIN: int := -0x8000_0000_0000_0000
  const I64_MAX: int := 0x7FFF_FFFF_FFFF_FFFF
  const U64_MAX: int := 0xFFFF_FFFF_FFFF_FFFF

  type I32 = x: int | -0x8000_0000 <= x <= 0x7FFF_FFFF
  type I64 = x: int | -0x8000_0000_0000_0000 <= x <= 0x7FFF_FFFF_FFFF_FFFF
  type U32 = x: int | 0 <= x <= 0xFFFF_FFFF
  type U64 = x: int | 0 <= x <= 0xFFFF_FFFF_FFFF_FFFF

  /** A Unix timestamp that may be absent. */
  type OptTime = Option<I64>

  /** A byte string of the source, held as characters. */
  type Bytes = string

  /** Two's complement wrap-around of a 64-bit result, as a release build computes it. */
  function Wrap64(x: int): (r: I64)
    ensures I64_MIN <= x <= I64_MAX ==> r == x
  {
    (x + 0x8000_0000_0000_0000) % 0x1_0000_0000_0000_0000 - 0x8000_0000_0000_0000
  }

  lemma {:induction false} SubsetSize<T>(a: set<T>, b: set<T>)
    requires a <= b
    ensures |a| <= |b|
  {
    if a != {} {
      var x :| x in a;
      SubsetSize(a - {x}, b - {x});
    }
  }

  // ----- key order -----

  /** The order of string keys: UTF-8 byte order, which is code point order. */
  predicate LexLe(a: string, b: string) {
    a == [] || (b != [] && (a[0] < b[0] || (a[0] == b[0] && LexLe(a[1..], b[1..]))))
  }

  predicate IndexLe(a: nat, b: nat) {
    a <= b
  }

  lemma LexRefl(a: string)
    ensures LexLe(a, a)
  {
  }

  lemma LexAntisym(a: string, b: string)
    requires LexLe(a, b) && LexLe(b, a)
    ensures a == b
  {
    if a != [] && b != [] {
      LexAntisym(a[1..], b[1..]);
      assert a == [a[0]] + a[1..] && b == [b[0]] + b[1..];
    }
  }

  lemma LexTrans(a: string, b: string, c: string)
    requires LexLe(a, b) && LexLe(b, c)
    ensures LexLe(a, c)
  {
  }

  lemma LexConnected(a: string, b: string)
    ensures LexLe(a, b) || LexLe(b, a)
  {
  }

  /** A common prefix does not matter to the order. */
  lemma {:induction false} LexPrefix(p: string, a: string, b: string)
    ensures LexLe(p + a, p + b) <==> LexLe(a, b)
  {
    if p == [] {
      assert p + a == a && p + b == b;
    } else {
      assert (p + a)[1..] == p[1..] + a && (p + b)[1..] == p[1..] + b;
      LexPrefix(p[1..], a, b);
    }
  }

  ghost predicate TotalOrder<K(!new)>(le: (K, K) -> bool) {
    && (forall a :: le(a, a))
    && (forall a, b :: le(a, b) && le(b, a) ==> a == b)
    && (forall a, b, c :: le(a, b) && le(b, c) ==> le(a, c))
    && (forall a, b :: le(a, b) || le(b, a))
  }

  lemma LexIsTotal()
    ensures TotalOrder(LexLe)
  {
    forall a: string, b: string, c: string
      ensures LexLe(a, a)
      ensures LexLe(a, b) && LexLe(b, a) ==> a == b
      ensures LexLe(a, b) && LexLe(b, c) ==> LexLe(a, c)
      ensures LexLe(a, b) || LexLe(b, a)
    {
      LexRefl(a);
      if LexLe(a, b) && LexLe(b, a) { LexAntisym(a, b); }
      if LexLe(a, b) && LexLe(b, c) { LexTrans(a, b, c); }
      LexConnected(a, b);
    }
  }

  // ----- ordered iteration over a table -----

  ghost predicate Before<K(!new)>(a: K, b: K, le: (K, K) -> bool) {
    le(a, b) && a != b
  }

  ghost predicate Ascending<K(!new)>(keys: seq<K>, le: (K, K) -> bool) {
    forall i, j {:trigger Before(keys[i], keys[j], le)} :: 0 <= i < j < |keys| ==> Before(keys[i], keys[j], le)
  }

  ghost predicate IsLeast<K(!new)>(k: K, s: set<K>, le: (K, K) -> bool) {
    k in s && forall j :: j in s ==> le(k, j)
  }

  lemma {:induction false} LeastExists<K(!new)>(s: set<K>, le: (K, K) -> bool)
    requires s != {} && TotalOrder(le)
    ensures exists k :: IsLeast(k, s, le)
  {
    var x :| x in s;
    var rest := s - {x};
    if rest == {} {
      assert s == {x};
      assert IsLeast(x, s, le);
    } else {
      LeastExists(rest, le);
      var m :| IsLeast(m, rest, le);
      var k := if le(x, m) then x else m;
      forall j | j in s ensures le(k, j) {
        assert j == x || j in rest;
      }
      assert IsLeast(k, s, le);
    }
  }

  /** The keys of a table in the order an iterator visits them. */
  ghost function SortedKeys<K(!new)>(s: set<K>, le: (K, K) -> bool): (keys: seq<K>)
    requires TotalOrder(le)
    ensures |keys| == |s|
    ensures forall k :: k in keys <==> k in s
    ensures Ascending(keys, le)
  {
    if s == {} then []
    else
      LeastExists(s, le);
      var least :| IsLeast(least, s, le);
      var rest := SortedKeys(s - {least}, le);
      LeastFirst(least, rest, s, le);
      [least] + rest
  }

  lemma LeastFirst<K(!new)>(least: K, rest: seq<K>, s: set<K>, le: (K, K) -> bool)
    requires IsLeast(least, s, le) && Ascending(rest, le) && |rest| == |s| - 1
    requires forall k :: k in rest <==> k in s - {least}
    ensures Ascending([least] + rest, le)
    ensures forall k :: k in [least] + rest <==> k in s
  {
    var keys := [least] + rest;
    forall i, j | 0 <= i < j < |keys| ensures Before(keys[i], keys[j], le) {
      assert keys[j] == rest[j - 1] && rest[j - 1] in rest;
      if i > 0 { assert Before(rest[i - 1], rest[j - 1], le); }
    }
  }

  lemma TailAscends<K(!new)>(keys: seq<K>, le: (K, K) -> bool)
    requires keys != [] && Ascending(keys, le)
    ensures Ascending(keys[1..], le) && keys[0] !in keys[1..]
    ensures forall k :: k in keys[1..] ==> le(keys[0], k)
  {
    var tail := keys[1..];
    forall i, j | 0 <= i < j < |tail| ensures Before(tail[i], tail[j], le) { assert Before(keys[i + 1], keys[j + 1], le); }
    forall i | 0 <= i < |tail| ensures le(keys[0], tail[i]) && tail[i] != keys[0] { assert Before(keys[0], keys[i + 1], le); }
  }

  /** An ascending sequence is determined by its set of elements. */
  lemma {:induction false} AscendingUnique<K(!new)>(a: seq<K>, b: seq<K>, le: (K, K) -> bool)
    requires TotalOrder(le) && Ascending(a, le) && Ascending(b, le)
    requires forall k :: k in a <==> k in b
    ensures a == b
  {
    if a == [] {
      assert forall i :: 0 <= i < |b| ==> b[i] in a;
    } else {
      assert a[0] in b && b != [] && b[0] in a;
      TailAscends(a, le);
      TailAscends(b, le);
      assert a == [a[0]] + a[1..] && b == [b[0]] + b[1..];
      assert a[0] == b[0];
      assert forall k :: k in a[1..] <==> k in a && k != a[0];
      assert forall k :: k in b[1..] <==> k in b && k != b[0];
      AscendingUnique(a[1..], b[1..], le);
    }
  }

  /** Ascending keys are different keys. */
  lemma AscendingDiffer<K(!new)>(keys: seq<K>, le: (K, K) -> bool)
    requires Ascending(keys, le)
    ensures forall i, j :: 0 <= i < j < |keys| ==> keys[i] != keys[j]
  {
    forall i, j | 0 <= i < j < |keys| ensures keys[i] != keys[j] { assert Before(keys[i], keys[j], le); }
  }

  lemma AppendAscends<K(!new)>(keys: seq<K>, k: K, le: (K, K) -> bool)
    requires Ascending(keys, le) && forall i :: 0 <= i < |keys| ==> Before(keys[i], k, le)
    ensures Ascending(keys + [k], le)
  {
    var more := keys + [k];
    forall i, j | 0 <= i < j < |more| ensures Before(more[i], more[j], le) {
      if j < |keys| { assert Before(keys[i], keys[j], le); } else { assert Before(keys[i], k, le); }
    }
  }

  ghost function StringKeys(s: set<string>): (keys: seq<string>)
    ensures |keys| == |s|
    ensures forall k :: k in keys <==> k in s
  {
    LexIsTotal();
    SortedKeys(s, LexLe)
  }

  lemma StringKeysAscend(s: set<string>)
    ensures Ascending(StringKeys(s), LexLe)
  {
    LexIsTotal();
  }

  ghost function IndexKeys(s: set<nat>): (keys: seq<nat>)
    ensures |keys| == |s|
    ensures forall k :: k in keys <==> k in s
  {
    SortedKeys(s, IndexLe)
  }

  lemma IndexKeysAscend(s: set<nat>)
    ensures Ascending(IndexKeys(s), IndexLe)
  {
  }
}
