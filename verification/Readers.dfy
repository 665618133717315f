/** Reading the versions of a secret, and the requests decided by them. */
module Readers {
  import opened Base
  import opened Keys
  import opened Model
  import opened Effects
  import opened CurrentVersion
  import opened Grace
  import opened Scan

  predicate NewerFirst(a: VersionRecord, b: VersionRecord) {
    a.version >= b.version
  }

  /** The live rows of a secret, newest first, each once. */
  ghost predicate LiveList(versions: Versions, name: string, now: I64, out: seq<VersionRecord>) {
    && (forall i, j :: 0 <= i < j < |out| ==> out[i].version > out[j].version)
    && (forall i :: 0 <= i < |out| ==> LiveRow(versions, name, now, out[i]))
    && (forall v: I32 :: Live(versions, name, v, now) ==> versions[VersionKey(name, v)] in out)
  }

  ghost predicate LiveRow(versions: Versions, name: string, now: I64, r: VersionRecord) {
    Live(versions, name, r.version, now) && versions[VersionKey(name, r.version)] == r
  }

  /** In good tables a scanned key is live exactly as the row it parses to. */
  lemma ScannedRow(t: Tables, name: string, now: I64, key: string)
    requires Good(t) && key in t.versions
    ensures InScanRange(name, key) && VersionFromKey(name, key).Some? && VersionActive(now, t.versions[key].expiresAt) <==>
            LiveRow(t.versions, name, now, t.versions[key]) && key == VersionKey(name, t.versions[key].version)
  {
    assert PlacedRow(t.secrets, t.versions, key);
    var (n, v) := SplitVersionKey(key).value;
    SplitKey(key);
    assert CurrentRow(t.secrets, t.versions, n);
    if n == name {
      ValidNameHasNoNul(name);
      ScanRefinesOwnership(name, key);
    } else if key == VersionKey(name, t.versions[key].version) {
      StoredKeyParses(t.secrets, t.versions, name, t.versions[key].version);
    }
  }

  lemma {:induction false} DistinctCount<T>(s: seq<T>, x: T)
    requires forall i, j :: 0 <= i < j < |s| ==> s[i] != s[j]
    ensures multiset(s)[x] <= 1
  {
    if s != [] {
      var init := s[..|s| - 1];
      DistinctCount(init, x);
      assert s == init + [s[|s| - 1]];
      if x == s[|s| - 1] { assert x !in init; }
    }
  }

  lemma RepeatedCount<T>(s: seq<T>, i: nat, j: nat)
    requires i < j < |s| && s[i] == s[j]
    ensures multiset(s)[s[i]] >= 2
  {
    assert s == s[..j] + s[j..];
    assert s[..j][i] == s[i] && s[j..][0] == s[i];
    assert s[i] in multiset(s[..j]) && s[i] in multiset(s[j..]);
  }

  /** Sorting a list of distinct rows of distinct versions makes the versions strictly descend. */
  lemma SortedIsStrict(versions: Versions, name: string, now: I64, found: seq<VersionRecord>, out: seq<VersionRecord>)
    requires forall i, j :: 0 <= i < j < |found| ==> found[i] != found[j]
    requires forall r :: r in found ==> LiveRow(versions, name, now, r)
    requires forall v: I32 :: Live(versions, name, v, now) ==> versions[VersionKey(name, v)] in found
    requires Sorted(out, NewerFirst) && multiset(out) == multiset(found)
    ensures LiveList(versions, name, now, out)
  {
    assert forall r :: r in out <==> r in multiset(out);
    assert forall r :: r in found <==> r in multiset(found);
    forall i, j | 0 <= i < j < |out| ensures out[i].version > out[j].version {
      assert NewerFirst(out[i], out[j]);
      assert out[i] in found && out[j] in found;
      if out[i].version == out[j].version {
        RepeatedCount(out, i, j);
        DistinctCount(found, out[i]);
      }
    }
  }

  predicate Scanned(versions: Versions, name: string, now: I64, key: string)
    requires key in versions
  {
    InScanRange(name, key) && VersionFromKey(name, key).Some? && VersionActive(now, versions[key].expiresAt)
  }

  /** The rows a scan of these keys collects. */
  function Collected(versions: Versions, keys: seq<string>, name: string, now: I64): seq<VersionRecord>
    requires forall k :: k in keys ==> k in versions
  {
    if keys == [] then []
    else
      var last := keys[|keys| - 1];
      var before := Collected(versions, keys[..|keys| - 1], name, now);
      if Scanned(versions, name, now, last) then before + [versions[last]] else before
  }

  /** Byte-range scan, filter, then sort with the greatest version first. */
  method LiveVersions(t: Tables, name: string, now: I64) returns (out: seq<VersionRecord>)
    ensures Sorted(out, NewerFirst)
    ensures multiset(out) == multiset(Collected(t.versions, StringKeys(t.versions.Keys), name, now))
  {
    var order := InOrder(t.versions.Keys);
    var found: seq<VersionRecord> := [];
    for i := 0 to |order|
      invariant found == Collected(t.versions, order[..i], name, now)
    {
      assert order[..i + 1][..i] == order[..i];
      if InScanRange(name, order[i]) && VersionFromKey(name, order[i]).Some? {
        var record := t.versions[order[i]];
        if VersionActive(now, record.expiresAt) { found := found + [record]; }
      }
    }
    assert order[..|order|] == order;
    out := SortBy(found, NewerFirst);
  }

  /** Over good tables, what the reader returns is the live list. */
  lemma ReaderReturnsLiveList(t: Tables, name: string, now: I64, out: seq<VersionRecord>)
    requires Good(t) && Sorted(out, NewerFirst)
    requires multiset(out) == multiset(Collected(t.versions, StringKeys(t.versions.Keys), name, now))
    ensures LiveList(t.versions, name, now, out)
  {
    var order := StringKeys(t.versions.Keys);
    StringKeysAscend(t.versions.Keys);
    AscendingDiffer(StringKeys(t.versions.Keys), LexLe);
    CollectedIsLive(t, order, name, now);
    SortedIsStrict(t.versions, name, now, Collected(t.versions, order, name, now), out);
  }

  ghost predicate DistinctKeys(keys: seq<string>) {
    forall i, j :: 0 <= i < j < |keys| ==> keys[i] != keys[j]
  }

  /** Over good tables, a scan of some keys collects the live rows among them, each once. */
  lemma {:induction false} CollectedIsLive(t: Tables, keys: seq<string>, name: string, now: I64)
    requires Good(t) && DistinctKeys(keys) && forall k :: k in keys ==> k in t.versions
    ensures var found := Collected(t.versions, keys, name, now);
            && (forall r :: r in found ==> LiveRow(t.versions, name, now, r) && VersionKey(name, r.version) in keys)
            && (forall i, j :: 0 <= i < j < |found| ==> found[i] != found[j])
            && (forall v: I32 :: Live(t.versions, name, v, now) && VersionKey(name, v) in keys ==>
                  t.versions[VersionKey(name, v)] in found)
  {
    if keys != [] {
      var init, last := keys[..|keys| - 1], keys[|keys| - 1];
      assert keys == init + [last] && last !in init;
      CollectedIsLive(t, init, name, now);
      ScannedRow(t, name, now, last);
      LiveIsScanned(t, name, now, last);
      var before, found := Collected(t.versions, init, name, now), Collected(t.versions, keys, name, now);
      assert Scanned(t.versions, name, now, last) ==> t.versions[last] !in before;
      forall v: I32 | Live(t.versions, name, v, now) && VersionKey(name, v) in keys
        ensures t.versions[VersionKey(name, v)] in found
      {
        assert VersionKey(name, v) in init || VersionKey(name, v) == last;
      }
    }
  }

  lemma LiveIsScanned(t: Tables, name: string, now: I64, key: string)
    requires Good(t) && key in t.versions
    ensures forall v: I32 :: key == VersionKey(name, v) && Live(t.versions, name, v, now) ==>
              LiveRow(t.versions, name, now, t.versions[key]) && key == VersionKey(name, t.versions[key].version)
  {
    forall v: I32 | key == VersionKey(name, v) && Live(t.versions, name, v, now)
      ensures LiveRow(t.versions, name, now, t.versions[key]) && key == VersionKey(name, t.versions[key].version)
    {
      StoredKeyParses(t.secrets, t.versions, name, v);
      assert PlacedRow(t.secrets, t.versions, key);
    }
  }
}
