/** Which stored passwords a rotation tries when the secret logs in to the external system as itself. */
module Logins {
  import opened Base
  import opened Keys
  import opened Model
  import opened Effects
  import opened CurrentVersion
  import opened Grace
  import opened Scan
  import opened Readers
  import E = Envelope

  const MAX_LOGIN_CANDIDATES: nat := 4

  // ----- choosing versions -----

  function Numbers(rows: seq<VersionRecord>): seq<I32> {
    seq(|rows|, i requires 0 <= i < |rows| => rows[i].version)
  }

  /** The version just superseded, then the others as they come, each once. */
  function Candidates(previous: I32, live: seq<I32>): (vs: seq<I32>)
    ensures |vs| >= 1 && vs[0] == previous
  {
    if live == [] then [previous]
    else
      var before, last := Candidates(previous, live[..|live| - 1]), live[|live| - 1];
      if last in before then before else before + [last]
  }

  function Chosen(previous: I32, live: seq<I32>): seq<I32> {
    var vs := Candidates(previous, live);
    if |vs| <= MAX_LOGIN_CANDIDATES then vs else vs[..MAX_LOGIN_CANDIDATES]
  }

  method ChooseVersions(previous: I32, live: seq<VersionRecord>) returns (vs: seq<I32>)
    ensures vs == Chosen(previous, Numbers(live))
  {
    vs := [previous];
    ghost var nums := Numbers(live);
    for i := 0 to |live|
      invariant vs == Candidates(previous, nums[..i])
    {
      assert nums[..i + 1][..i] == nums[..i];
      if live[i].version !in vs { vs := vs + [live[i].version]; }
    }
    assert nums[..|live|] == nums;
    if |vs| > MAX_LOGIN_CANDIDATES { vs := vs[..MAX_LOGIN_CANDIDATES]; }
  }

  predicate Descending(s: seq<I32>) {
    forall i, j :: 0 <= i < j < |s| ==> s[i] > s[j]
  }

  lemma AppendDescending(s: seq<I32>, x: I32)
    requires Descending(s) && forall i :: 0 <= i < |s| ==> s[i] > x
    ensures Descending(s + [x])
  {
  }

  /** After the superseded version come all the other live ones, newest first. */
  lemma {:induction false} CandidatesShape(previous: I32, live: seq<I32>)
    requires Descending(live)
    ensures var rest := Candidates(previous, live)[1..];
            Descending(rest) && forall v: int :: v in rest <==> v in live && v != previous
  {
    if live != [] {
      var init, last := live[..|live| - 1], live[|live| - 1];
      CandidatesShape(previous, init);
      var before := Candidates(previous, init);
      assert live == init + [last] && last !in init;
      var rest := before[1..];
      assert before == [previous] + rest;
      forall i | 0 <= i < |rest| ensures rest[i] > last {
        assert rest[i] in init;
      }
      if last != previous {
        assert last !in before;
        AppendDescending(rest, last);
        assert Candidates(previous, live)[1..] == rest + [last];
        assert forall v: int :: v in rest + [last] <==> v in rest || v == last;
      } else {
        assert last in before;
        assert Candidates(previous, live)[1..] == rest;
      }
      assert forall v: int :: v in live <==> v in init || v == last;
    }
  }

  /** The live versions above `w`, leaving out the one just superseded. */
  ghost function Newer(previous: I32, live: seq<I32>, w: I32): set<int> {
    set v | v in live && v != previous && v > w
  }

  ghost function Elements(s: seq<I32>): set<int> {
    set v | v in s
  }

  lemma {:induction false} DescendingSize(s: seq<I32>)
    requires Descending(s)
    ensures |Elements(s)| == |s|
  {
    if s != [] {
      var init, last := s[..|s| - 1], s[|s| - 1];
      DescendingSize(init);
      assert s == init + [last] && last !in init;
      assert Elements(s) == Elements(init) + {last};
    }
  }

  /** In a descending list an element is among the first k exactly when fewer than k exceed it. */
  lemma RankIsPosition(s: seq<I32>, w: I32, k: nat)
    requires Descending(s) && w in s
    ensures w in s[..if k <= |s| then k else |s|] <==> |set v: int | v in s && v > w| < k
  {
    var i :| 0 <= i < |s| && s[i] == w;
    DescendingSize(s[..i]);
    assert (set v: int | v in s && v > w) == Elements(s[..i]) by {
      forall v | v in s && v > w ensures v in s[..i] {
        var j :| 0 <= j < |s| && s[j] == v;
        assert j < i;
      }
    }
    var n := if k <= |s| then k else |s|;
    if i < n { assert s[..n][i] == w; }
    if w in s[..n] {
      var j :| 0 <= j < n && s[j] == w;
      assert i == j;
    }
  }

  lemma RestIsNewer(previous: I32, live: seq<I32>, w: I32)
    requires Descending(live)
    ensures (set v: int | v in Candidates(previous, live)[1..] && v > w) == Newer(previous, live, w)
  {
    CandidatesShape(previous, live);
  }

  lemma ChosenAre(previous: I32, live: seq<I32>)
    ensures var rest := Candidates(previous, live)[1..];
            Chosen(previous, live) == [previous] + rest[..if 3 <= |rest| then 3 else |rest|]
  {
    var vs := Candidates(previous, live);
    assert vs == [previous] + vs[1..];
  }

  /** A live version is tried exactly when it was just superseded or at most two others are newer. */
  lemma ChosenIff(previous: I32, live: seq<I32>, w: I32)
    requires Descending(live) && w in live
    ensures w in Chosen(previous, live) <==> w == previous || |Newer(previous, live, w)| <= 2
  {
    ChosenAre(previous, live);
    if w != previous {
      CandidatesShape(previous, live);
      RankIsPosition(Candidates(previous, live)[1..], w, 3);
      RestIsNewer(previous, live, w);
    }
  }

  /** At most four different versions, the superseded one first, then live ones from new to old, and nothing else. */
  lemma ChosenShape(previous: I32, live: seq<I32>)
    requires Descending(live)
    ensures var vs := Chosen(previous, live);
            && 1 <= |vs| <= MAX_LOGIN_CANDIDATES && vs[0] == previous
            && (forall i, j :: 0 <= i < j < |vs| ==> vs[i] != vs[j])
            && (forall i, j :: 1 <= i < j < |vs| ==> vs[i] > vs[j])
            && (forall v :: v in vs ==> v == previous || v in live)
  {
    CandidatesShape(previous, live);
    var all := Candidates(previous, live);
    forall i, j | 0 <= i < j < |all| ensures all[i] != all[j] {
      assert all[j] == all[1..][j - 1] && all[j] in all[1..];
      if i > 0 { assert all[i] == all[1..][i - 1]; }
    }
    forall v | v in all && v != previous ensures v in live {
      var i :| 0 <= i < |all| && all[i] == v;
      assert all[1..][i - 1] == v;
    }
  }

  ghost function Range(lo: int, hi: int): (s: set<int>)
    ensures forall x :: x in s <==> lo <= x < hi
    ensures lo <= hi ==> |s| == hi - lo
    decreases hi - lo
  {
    if lo >= hi then {} else Range(lo, hi - 1) + {hi - 1}
  }

  /** Between `w` and the version after the superseded one, every version is live. */
  ghost predicate AllLiveAbove(previous: I32, live: seq<I32>, w: I32) {
    forall v: int :: v > w && v != previous ==> (v in live <==> v <= previous + 1)
  }

  lemma NewerIs(previous: I32, live: seq<I32>, w: I32)
    requires AllLiveAbove(previous, live, w) && w < previous
    ensures Newer(previous, live, w) == Range(w + 1, previous) + {previous + 1}
  {
    forall v: int ensures v in Newer(previous, live, w) <==> v in Range(w + 1, previous) + {previous + 1} {
      assert v > w && v != previous ==> (v in live <==> v <= previous + 1);
    }
  }

  lemma NewerSize(previous: I32, live: seq<I32>, w: I32)
    requires AllLiveAbove(previous, live, w) && w < previous
    ensures |Newer(previous, live, w)| == previous - w
  {
    NewerIs(previous, live, w);
    var range := Range(w + 1, previous);
    assert previous + 1 !in range;
  }

  /** A lower version has no fewer newer ones. */
  lemma NewerGrows(previous: I32, live: seq<I32>, v: I32, w: I32)
    requires v <= w
    ensures |Newer(previous, live, w)| <= |Newer(previous, live, v)|
  {
    SubsetSize(Newer(previous, live, w), Newer(previous, live, v));
  }

  // ----- opening them -----

  /** The logins those versions hold; missing rows and other formats are skipped, an unopenable row is an error. */
  function LoginsOf(t: Tables, name: string, vs: seq<I32>): Option<seq<Plaintext>> {
    if vs == [] then Some([])
    else
      var before, v := LoginsOf(t, name, vs[..|vs| - 1]), vs[|vs| - 1];
      if before.None? || VersionKey(name, v) !in t.versions then before
      else
        var plain := E.OpenVersion(name, v, t.versions[VersionKey(name, v)]);
        if plain.None? then None
        else if plain.value.UserPass? then Some(before.value + [plain.value]) else before
  }

  method OpenLogins(t: Tables, name: string, vs: seq<I32>) returns (logins: Option<seq<Plaintext>>)
    ensures logins == LoginsOf(t, name, vs)
  {
    var out := [];
    for i := 0 to |vs|
      invariant LoginsOf(t, name, vs[..i]) == Some(out)
    {
      assert vs[..i + 1][..i] == vs[..i];
      if VersionKey(name, vs[i]) in t.versions {
        var plain := E.OpenVersion(name, vs[i], t.versions[VersionKey(name, vs[i])]);
        if plain.None? {
          FailureSticks(t, name, vs, i + 1);
          return None;
        }
        if plain.value.UserPass? { out := out + [plain.value]; }
      }
    }
    assert vs[..|vs|] == vs;
    logins := Some(out);
  }

  ghost predicate ReaderList(t: Tables, name: string, now: I64, live: seq<VersionRecord>) {
    && Sorted(live, NewerFirst)
    && multiset(live) == multiset(Collected(t.versions, StringKeys(t.versions.Keys), name, now))
  }

  method SelfLoginCandidates(t: Tables, name: string, previous: I32, now: I64) returns (logins: Option<seq<Plaintext>>)
    ensures exists live :: ReaderList(t, name, now, live) && logins == LoginsOf(t, name, Chosen(previous, Numbers(live)))
  {
    var live := LiveVersions(t, name, now);
    assert ReaderList(t, name, now, live);
    var vs := ChooseVersions(previous, live);
    logins := OpenLogins(t, name, vs);
  }

  lemma {:induction false} FailureSticks(t: Tables, name: string, vs: seq<I32>, i: nat)
    requires i <= |vs| && LoginsOf(t, name, vs[..i]).None?
    ensures LoginsOf(t, name, vs).None?
    decreases |vs|
  {
    if i < |vs| {
      assert vs[..|vs| - 1][..i] == vs[..i];
      FailureSticks(t, name, vs[..|vs| - 1], i);
    } else {
      assert vs[..i] == vs;
    }
  }

  /** What one version adds. */
  ghost function LoginAt(t: Tables, name: string, v: I32): Option<seq<Plaintext>> {
    if VersionKey(name, v) !in t.versions then Some([])
    else
      match E.OpenVersion(name, v, t.versions[VersionKey(name, v)])
      case None => None
      case Some(p) => Some(if p.UserPass? then [p] else [])
  }

  lemma LoginsStep(t: Tables, name: string, vs: seq<I32>, v: I32)
    ensures LoginsOf(t, name, vs + [v]) ==
            if LoginsOf(t, name, vs).None? || LoginAt(t, name, v).None? then None
            else Some(LoginsOf(t, name, vs).value + LoginAt(t, name, v).value)
  {
    assert (vs + [v])[..|vs|] == vs;
    if LoginsOf(t, name, vs).Some? { assert LoginsOf(t, name, vs).value + [] == LoginsOf(t, name, vs).value; }
  }

  /** Logins come in the order of their versions. */
  lemma {:induction false} LoginsSplit(t: Tables, name: string, a: seq<I32>, b: seq<I32>)
    requires LoginsOf(t, name, a).Some? && LoginsOf(t, name, b).Some?
    ensures LoginsOf(t, name, a + b) == Some(LoginsOf(t, name, a).value + LoginsOf(t, name, b).value)
  {
    var before := LoginsOf(t, name, a).value;
    if b == [] {
      assert a + b == a && before + [] == before;
    } else {
      var init, v := b[..|b| - 1], b[|b| - 1];
      assert b == init + [v] && a + b == a + init + [v];
      LoginsStep(t, name, init, v);
      LoginsSplit(t, name, a, init);
      LoginsStep(t, name, a + init, v);
      var first, one := LoginsOf(t, name, init).value, LoginAt(t, name, v).value;
      assert before + first + one == before + (first + one);
    }
  }

  ghost predicate Holds(t: Tables, name: string, v: I32, login: Plaintext) {
    VersionKey(name, v) in t.versions && E.OpenVersion(name, v, t.versions[VersionKey(name, v)]) == Some(login)
  }

  ghost predicate Opens(t: Tables, name: string, v: I32) {
    VersionKey(name, v) in t.versions ==> E.OpenVersion(name, v, t.versions[VersionKey(name, v)]).Some?
  }

  lemma {:induction false} LoginsAre(t: Tables, name: string, vs: seq<I32>)
    requires forall v :: v in vs ==> Opens(t, name, v)
    ensures LoginsOf(t, name, vs).Some?
    ensures forall p :: p in LoginsOf(t, name, vs).value <==> p.UserPass? && exists v :: v in vs && Holds(t, name, v, p)
  {
    if vs != [] {
      var init, last := vs[..|vs| - 1], vs[|vs| - 1];
      assert vs == init + [last];
      LoginsAre(t, name, init);
      assert Opens(t, name, last);
      forall p ensures p in LoginsOf(t, name, vs).value <==> p.UserPass? && exists v :: v in vs && Holds(t, name, v, p) {
        if v :| v in vs && Holds(t, name, v, p) { assert v in init || v == last; }
        if v :| v in init && Holds(t, name, v, p) { assert v in vs; }
        assert last in vs;
      }
    }
  }

  /**
   * The external system still holds the login of live version `w`, which no other version stores. The
   * rotation can log in exactly when `w` was just superseded or at most two other live versions are newer.
   */
  lemma SelfLoginWorksIff(t: Tables, name: string, previous: I32, now: I64, live: seq<VersionRecord>, w: I32, login: Plaintext)
    requires Good(t) && ReaderList(t, name, now, live)
    requires forall v: I32 :: Opens(t, name, v)
    requires Live(t.versions, name, w, now) && Holds(t, name, w, login) && login.UserPass?
    requires forall v: I32 :: Holds(t, name, v, login) ==> v == w
    ensures LoginsOf(t, name, Chosen(previous, Numbers(live))).Some?
    ensures login in LoginsOf(t, name, Chosen(previous, Numbers(live))).value <==>
            w == previous || |Newer(previous, Numbers(live), w)| <= 2
  {
    ReaderReturnsLiveList(t, name, now, live);
    StoredKeyParses(t.secrets, t.versions, name, w);
    assert PlacedRow(t.secrets, t.versions, VersionKey(name, w));
    var i :| 0 <= i < |live| && live[i] == t.versions[VersionKey(name, w)];
    assert Numbers(live)[i] == w;
    ChosenIff(previous, Numbers(live), w);
    LoginsAre(t, name, Chosen(previous, Numbers(live)));
  }
}
