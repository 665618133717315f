/**
 * A re-wrap pass step by step, with other writers between any two of its steps: it lists the secrets, lists the
 * live rows of one after the other, re-encrypts and commits row by row, and marks its target when none failed.
 */
module Sweep {
  import opened Base
  import opened Keys
  import opened Model
  import opened Effects
  import opened CurrentVersion
  import opened Grace
  import opened Readers
  import opened Rewrap
  import E = Envelope

  // ----- the machine -----

  datatype Hand = Nothing | Holding(keyId: string, blob: WrappedKey)

  /**
   * `todo` is the rest of the listed secrets, `rows` the rest of the rows of `name`. Three history variables:
   * `seen` is the current version of each secret when its rows were listed, `listed` the rows that were listed,
   * `born` the generation each version committed during the pass was stored with.
   */
  datatype Pass = Pass(
    tables: Tables, now: I64, target: I64,
    todo: Option<seq<string>>, name: string, rows: seq<VersionRecord>, hand: Hand, failed: nat,
    seen: map<string, I32>, listed: set<(string, I32)>, born: map<(string, I32), OptTime>)

  datatype Step =
    | ListSecrets(names: seq<string>)
    | ListRows(live: seq<VersionRecord>)
    | Skip
    | Reencrypt(keyId: string, salt: nat)
    | Fail
    | CommitRow
    | Other(command: Command)
    | Mark(at: I64)

  function Begin(t: Tables, now: I64, target: I64): Pass {
    Pass(t, now, target, None, "", [], Nothing, 0, map[], {}, map[])
  }

  predicate Finished(p: Pass) {
    p.todo == Some([]) && p.rows == [] && p.hand.Nothing?
  }

  function Reencrypted(p: Pass, keyId: string, salt: nat): Option<(WrappedKey, string)>
    requires p.rows != []
  {
    var r := p.rows[0];
    E.ReencryptDataKey(r.wrappedDek, r.kmsKeyId, KeyContext(p.name, r.version), keyId, salt)
  }

  ghost predicate Allowed(p: Pass, step: Step) {
    match step
    case ListSecrets(names) => p.todo.None? && forall n :: n in names <==> n in p.tables.secrets
    case ListRows(live) =>
      && p.todo.Some? && p.todo.value != [] && p.rows == [] && p.hand.Nothing?
      && LiveList(p.tables.versions, p.todo.value[0], p.now, live)
    case Skip => p.rows != [] && p.hand.Nothing? && !NeedsRewrap(p.rows[0], p.target)
    case Reencrypt(keyId, salt) =>
      p.rows != [] && p.hand.Nothing? && NeedsRewrap(p.rows[0], p.target) && Reencrypted(p, keyId, salt).Some?
    case Fail => p.rows != [] && NeedsRewrap(p.rows[0], p.target)
    case CommitRow => p.rows != [] && p.hand.Holding?
    case Other(c) => ServiceShaped(c)
    case Mark(_) => Finished(p) && p.failed == 0
  }

  function Marked(t: Tables, target: I64, at: I64): Tables {
    t.(kmsRewrap := t.kmsRewrap[KMS_REWRAP_STATE_KEY := KmsRewrapState(target, at, at)])
  }

  /** The newest rotation known to be fully re-wrapped. */
  function Watermark(t: Tables): OptTime {
    if KMS_REWRAP_STATE_KEY in t.kmsRewrap then Some(t.kmsRewrap[KMS_REWRAP_STATE_KEY].lastCompletedRotationAt) else None
  }

  /** A version sealed once a pass is marked is not below that pass's target. */
  lemma SealedAfterMarkIsCaught(t: Tables, target: I64, at: I64, name: string, v: I32, p: Plaintext, now: I64, f: E.Fresh)
    ensures !NeedsRewrap(E.SealVersion(Marked(t, target, at), name, v, p, now, f), target)
    ensures Watermark(t).None? ==> E.SealVersion(t, name, v, p, now, f).wrappedRotationAt == Some(0)
  {
  }

  function BornBy(born: map<(string, I32), OptTime>, c: Command, ok: bool): map<(string, I32), OptTime> {
    if ok && c.CreateSecret? then born[(c.secret.name, c.row.version) := c.row.wrappedRotationAt]
    else if ok && c.PutVersion? then born[(c.name, c.row.version) := c.row.wrappedRotationAt]
    else born
  }

  ghost function Do(p: Pass, node: U64, step: Step): Pass
    requires Allowed(p, step)
  {
    match step
    case ListSecrets(names) => p.(todo := Some(names))
    case ListRows(live) =>
      var n := p.todo.value[0];
      p.(todo := Some(p.todo.value[1..]), name := n, rows := live,
         seen := p.seen[n := if n in p.tables.secrets then p.tables.secrets[n].currentVersion else 0],
         listed := p.listed + set r | r in live :: (n, r.version))
    case Skip => p.(rows := p.rows[1..])
    case Reencrypt(keyId, salt) =>
      var r := Reencrypted(p, keyId, salt).value;
      p.(hand := Holding(r.1, r.0))
    case Fail => p.(rows := p.rows[1..], hand := Nothing, failed := p.failed + 1)
    case CommitRow =>
      p.(tables := RewrapEffect(p.tables, p.name, p.rows[0].version, p.hand.keyId, p.hand.blob, p.target).0,
         rows := p.rows[1..], hand := Nothing)
    case Other(c) =>
      var (t, outcome) := Apply(p.tables, node, c);
      p.(tables := t, born := BornBy(p.born, c, outcome == Ok))
    case Mark(at) => p.(tables := Marked(p.tables, p.target, at))
  }

  /** The step neither deletes the secret nor restores a backup. */
  ghost predicate Spares(step: Step, n: string) {
    step.Other? ==> E.Spares(E.Write(step.command), n)
  }

  // ----- rows that the pass has dealt with -----

  ghost predicate StillListed(p: Pass, n: string, w: I32) {
    p.name == n && exists i :: 0 <= i < |p.rows| && p.rows[i].version == w
  }

  /** A listed row that still exists carries the target, unless its turn is yet to come or something failed. */
  ghost predicate Visited(p: Pass, n: string, w: I32) {
    var key := VersionKey(n, w);
    (n, w) in p.listed && key in p.tables.versions && p.failed == 0 && !StillListed(p, n, w) ==>
      !NeedsRewrap(p.tables.versions[key], p.target)
  }

  /** An older row that was not listed had expired before the pass began. */
  ghost predicate Passed(p: Pass, n: string, w: I32) {
    var key := VersionKey(n, w);
    n in p.seen && 1 <= w <= p.seen[n] && (n, w) !in p.listed && key in p.tables.versions ==>
      !VersionActive(p.now, p.tables.versions[key].expiresAt)
  }

  /** A row listed as up to date is up to date. */
  ghost predicate ListTrue(p: Pass, n: string, i: nat)
    requires i < |p.rows|
  {
    var r := p.rows[i];
    var key := VersionKey(n, r.version);
    p.name == n ==>
      && (n, r.version) in p.listed
      && (!NeedsRewrap(r, p.target) && key in p.tables.versions ==> !NeedsRewrap(p.tables.versions[key], p.target))
  }

  ghost predicate Covered(p: Pass, n: string) {
    && Good(p.tables) && ValidName(n)
    && (n in p.seen ==> n in p.tables.secrets && p.seen[n] <= p.tables.secrets[n].currentVersion)
    && (forall w: I32 {:trigger (n, w) in p.listed} :: (n, w) in p.listed ==> n in p.seen && 1 <= w <= p.seen[n])
    && (forall w: I32 {:trigger Visited(p, n, w)} :: Visited(p, n, w))
    && (forall w: I32 {:trigger Passed(p, n, w)} :: Passed(p, n, w))
    && (forall i {:trigger ListTrue(p, n, i)} :: 0 <= i < |p.rows| ==> ListTrue(p, n, i))
    && (p.todo.Some? && n in p.todo.value ==> n in p.tables.secrets)
  }

  // ----- what one command may do to a row -----

  /** The row is gone, or its generation and its expiry are no less settled than before. */
  ghost predicate RowAges(t: Tables, u: Tables, n: string, w: I32, now: I64, target: I64) {
    var key := VersionKey(n, w);
    && n in u.secrets && w <= u.secrets[n].currentVersion
    && (key in u.versions ==>
          && key in t.versions
          && (!NeedsRewrap(t.versions[key], target) ==> !NeedsRewrap(u.versions[key], target))
          && (!VersionActive(now, t.versions[key].expiresAt) ==> !VersionActive(now, u.versions[key].expiresAt)))
  }

  lemma RewrapAges(t: Tables, m: string, v: I32, keyId: string, blob: WrappedKey, at: I64, n: string, w: I32, now: I64, target: I64)
    requires n in t.secrets && w <= t.secrets[n].currentVersion
    ensures RowAges(t, RewrapEffect(t, m, v, keyId, blob, at).0, n, w, now, target)
  {
    RewrapKeepsExpiry(t, m, v, keyId, blob, at, VersionKey(n, w));
    var key := VersionKey(m, v);
    if key in t.versions {
      assert RewrapEffect(t, m, v, keyId, blob, at).0.versions == t.versions[key := Rewrapped(t.versions[key], keyId, blob, at)];
    }
  }

  lemma ExpiryAges(t: Tables, node: U64, c: Command, n: string, w: I32, now: I64)
    requires Good(t) && ValidName(n) && n in t.secrets && 1 <= w <= t.secrets[n].currentVersion
    requires ServiceShaped(c) && E.Spares(E.Write(c), n) && !c.RewrapVersion?
    ensures var u, key := Apply(t, node, c).0, VersionKey(n, w);
            key in u.versions && key in t.versions && !VersionActive(now, t.versions[key].expiresAt) ==>
              !VersionActive(now, u.versions[key].expiresAt)
  {
    if VersionKey(n, w) in t.versions && t.versions[VersionKey(n, w)].expiresAt.Some? {
      if c.DeleteSecret? { DeleteElsewhere(t, c.name, n, w); } else { ExpirySetOnce(t, node, c, n, w); }
    }
  }

  lemma StepAges(t: Tables, node: U64, c: Command, n: string, w: I32, now: I64, target: I64)
    requires Good(t) && ValidName(n) && n in t.secrets && 1 <= w <= t.secrets[n].currentVersion
    requires ServiceShaped(c) && E.Spares(E.Write(c), n)
    ensures RowAges(t, Apply(t, node, c).0, n, w, now, target)
  {
    if c.RewrapVersion? {
      RewrapAges(t, c.name, c.version, c.kmsKeyId, c.wrappedDek, c.wrappedRotationAt, n, w, now, target);
    } else {
      E.WriteKeepsRow(t, node, c, n, w);
      ExpiryAges(t, node, c, n, w, now);
    }
  }

  /** A row that carries the target. */
  ghost predicate CaughtRow(t: Tables, n: string, w: I32, target: I64) {
    && ValidName(n) && n in t.secrets && 1 <= w <= t.secrets[n].currentVersion
    && (VersionKey(n, w) in t.versions ==> !NeedsRewrap(t.versions[VersionKey(n, w)], target))
  }

  /** It carries it for as long as it exists, whoever else writes. */
  lemma {:induction false} RunKeepsCaughtRow(t: Tables, node: U64, cs: seq<Command>, n: string, w: I32, target: I64)
    requires Good(t) && CaughtRow(t, n, w, target) && AllShaped(cs)
    requires forall i :: 0 <= i < |cs| ==> E.Spares(E.Write(cs[i]), n)
    ensures CaughtRow(Run(t, node, cs), n, w, target)
  {
    if cs != [] {
      var init, c := cs[..|cs| - 1], cs[|cs| - 1];
      RunKeepsCaughtRow(t, node, init, n, w, target);
      RunKeepsGood(t, node, init);
      StepAges(Run(t, node, init), node, c, n, w, 0, target);
    }
  }

  // ----- each step -----

  /** The tables change, and every row of the secret up to its current version only ages. */
  lemma AgingKeepsCovered(p: Pass, q: Pass, n: string)
    requires Covered(p, n) && Good(q.tables) && q == p.(tables := q.tables, born := q.born)
    requires n in p.tables.secrets ==>
               && n in q.tables.secrets && p.tables.secrets[n].currentVersion <= q.tables.secrets[n].currentVersion
               && forall w: I32 {:trigger RowAges(p.tables, q.tables, n, w, p.now, p.target)} ::
                    1 <= w <= p.tables.secrets[n].currentVersion ==> RowAges(p.tables, q.tables, n, w, p.now, p.target)
    ensures Covered(q, n)
  {
    forall w: I32 ensures Visited(q, n, w) {
      assert Visited(p, n, w);
      assert StillListed(p, n, w) <==> StillListed(q, n, w);
      if (n, w) in p.listed { assert RowAges(p.tables, q.tables, n, w, p.now, p.target); }
    }
    forall w: I32 ensures Passed(q, n, w) {
      assert Passed(p, n, w);
      if n in p.seen && 1 <= w <= p.seen[n] { assert RowAges(p.tables, q.tables, n, w, p.now, p.target); }
    }
    forall i | 0 <= i < |q.rows| ensures ListTrue(q, n, i) {
      assert ListTrue(p, n, i);
      if p.name == n { assert RowAges(p.tables, q.tables, n, p.rows[i].version, p.now, p.target); }
    }
  }

  lemma OtherCovered(p: Pass, node: U64, c: Command, n: string)
    requires Covered(p, n) && ServiceShaped(c) && Spares(Other(c), n)
    ensures Covered(Do(p, node, Other(c)), n)
  {
    var q := Do(p, node, Other(c));
    StepKeepsGood(p.tables, node, c);
    if n in p.tables.secrets {
      assert CurrentRow(p.tables.secrets, p.tables.versions, n);
      forall w: I32 | 1 <= w <= p.tables.secrets[n].currentVersion ensures RowAges(p.tables, q.tables, n, w, p.now, p.target) {
        StepAges(p.tables, node, c, n, w, p.now, p.target);
      }
      assert RowAges(p.tables, q.tables, n, p.tables.secrets[n].currentVersion, p.now, p.target);
    }
    AgingKeepsCovered(p, q, n);
  }

  lemma ListRowsCovered(p: Pass, node: U64, live: seq<VersionRecord>, n: string)
    requires Covered(p, n) && Allowed(p, ListRows(live))
    ensures Covered(Do(p, node, ListRows(live)), n)
  {
    var q := Do(p, node, ListRows(live));
    var m := p.todo.value[0];
    if m == n {
      assert CurrentRow(p.tables.secrets, p.tables.versions, n);
      forall w: I32 | (n, w) in q.listed ensures n in q.seen && 1 <= w <= q.seen[n] {
        if (n, w) !in p.listed {
          var r :| r in live && r.version == w;
          assert LiveRow(p.tables.versions, n, p.now, r);
          StoredKeyParses(p.tables.secrets, p.tables.versions, n, w);
          assert PlacedRow(p.tables.secrets, p.tables.versions, VersionKey(n, w));
        }
      }
      forall w: I32 ensures Visited(q, n, w) {
        assert Visited(p, n, w);
        NewlyListed(p, live, n, w);
      }
      forall w: I32 ensures Passed(q, n, w) { UnlistedExpired(p, live, n, w); }
      forall i | 0 <= i < |q.rows| ensures ListTrue(q, n, i) {
        assert live[i] in live && LiveRow(p.tables.versions, n, p.now, live[i]);
      }
    } else {
      assert forall w: I32 :: (n, w) in q.listed ==> (n, w) in p.listed;
      forall w: I32 ensures Visited(q, n, w) { assert Visited(p, n, w); }
      forall w: I32 ensures Passed(q, n, w) { assert Passed(p, n, w); }
    }
  }

  /** A row of the list is listed now; a row that was listed before and is not on it was dealt with. */
  lemma NewlyListed(p: Pass, live: seq<VersionRecord>, n: string, w: I32)
    requires Allowed(p, ListRows(live)) && p.todo.value[0] == n && Visited(p, n, w)
    ensures Visited(Do(p, 0, ListRows(live)), n, w)
  {
    var q := Do(p, 0, ListRows(live));
    if (n, w) in q.listed && (n, w) !in p.listed {
      var r :| r in live && r.version == w;
      var i :| 0 <= i < |live| && live[i] == r;
      assert q.rows[i].version == w;
    }
  }

  lemma UnlistedExpired(p: Pass, live: seq<VersionRecord>, n: string, w: I32)
    requires Good(p.tables) && Allowed(p, ListRows(live)) && p.todo.value[0] == n
    ensures Passed(Do(p, 0, ListRows(live)), n, w)
  {
    var q := Do(p, 0, ListRows(live));
    var key := VersionKey(n, w);
    if key in p.tables.versions && VersionActive(p.now, p.tables.versions[key].expiresAt) {
      assert Live(p.tables.versions, n, w, p.now);
      StoredKeyParses(p.tables.secrets, p.tables.versions, n, w);
      assert PlacedRow(p.tables.secrets, p.tables.versions, key);
      var r := p.tables.versions[key];
      assert r in live && r.version == w;
      assert (n, r.version) in q.listed;
    }
  }

  /** The first row of the list leaves it: every other listed row is listed still. */
  lemma NextRow(p: Pass, q: Pass, n: string, w: I32)
    requires p.rows != [] && q.rows == p.rows[1..] && q.name == p.name && w != p.rows[0].version
    ensures StillListed(p, n, w) ==> StillListed(q, n, w)
  {
    if StillListed(p, n, w) {
      var i :| 0 <= i < |p.rows| && p.rows[i].version == w;
      assert q.rows[i - 1].version == w;
    }
  }

  lemma SkipCovered(p: Pass, node: U64, n: string)
    requires Covered(p, n) && Allowed(p, Skip)
    ensures Covered(Do(p, node, Skip), n)
  {
    var q := Do(p, node, Skip);
    forall w: I32 ensures Visited(q, n, w) {
      assert Visited(p, n, w);
      if w == p.rows[0].version { assert ListTrue(p, n, 0); } else { NextRow(p, q, n, w); }
    }
    forall w: I32 ensures Passed(q, n, w) { assert Passed(p, n, w); }
    forall i | 0 <= i < |q.rows| ensures ListTrue(q, n, i) { assert ListTrue(p, n, i + 1); }
  }

  lemma FailCovered(p: Pass, node: U64, n: string)
    requires Covered(p, n) && Allowed(p, Fail)
    ensures Covered(Do(p, node, Fail), n)
  {
    var q := Do(p, node, Fail);
    forall w: I32 ensures Passed(q, n, w) { assert Passed(p, n, w); }
    forall i | 0 <= i < |q.rows| ensures ListTrue(q, n, i) { assert ListTrue(p, n, i + 1); }
  }

  lemma CommitCovered(p: Pass, node: U64, n: string)
    requires Covered(p, n) && Allowed(p, CommitRow)
    ensures Covered(Do(p, node, CommitRow), n)
  {
    var q, first := Do(p, node, CommitRow), p.rows[0].version;
    var t, u := p.tables, q.tables;
    StepKeepsGood(t, node, RewrapVersion(p.name, first, p.hand.keyId, p.hand.blob, p.target));
    assert u.secrets == t.secrets;
    forall w: I32 ensures Visited(q, n, w) {
      assert Visited(p, n, w);
      if n in t.secrets && w <= t.secrets[n].currentVersion {
        RewrapAges(t, p.name, first, p.hand.keyId, p.hand.blob, p.target, n, w, p.now, p.target);
      }
      if w != first { NextRow(p, q, n, w); }
    }
    forall w: I32 ensures Passed(q, n, w) {
      assert Passed(p, n, w);
      if n in t.secrets && w <= t.secrets[n].currentVersion {
        RewrapAges(t, p.name, first, p.hand.keyId, p.hand.blob, p.target, n, w, p.now, p.target);
      }
    }
    forall i | 0 <= i < |q.rows| ensures ListTrue(q, n, i) {
      assert ListTrue(p, n, i + 1);
      if p.name == n {
        RewrapAges(t, p.name, first, p.hand.keyId, p.hand.blob, p.target, n, p.rows[i + 1].version, p.now, p.target);
      }
    }
  }

  lemma MarkCovered(p: Pass, node: U64, at: I64, n: string)
    requires Covered(p, n) && Allowed(p, Mark(at))
    ensures Covered(Do(p, node, Mark(at)), n)
  {
    var q := Do(p, node, Mark(at));
    forall w: I32 ensures Visited(q, n, w) { assert Visited(p, n, w); }
    forall w: I32 ensures Passed(q, n, w) { assert Passed(p, n, w); }
  }

  lemma QuietCovered(p: Pass, node: U64, step: Step, n: string)
    requires Covered(p, n) && Allowed(p, step) && (step.ListSecrets? || step.Reencrypt?)
    ensures Covered(Do(p, node, step), n)
  {
    var q := Do(p, node, step);
    forall w: I32 ensures Visited(q, n, w) { assert Visited(p, n, w); }
    forall w: I32 ensures Passed(q, n, w) { assert Passed(p, n, w); }
    forall i | 0 <= i < |q.rows| ensures ListTrue(q, n, i) { assert ListTrue(p, n, i); }
  }

  lemma StepCovered(p: Pass, node: U64, step: Step, n: string)
    requires Covered(p, n) && Allowed(p, step) && Spares(step, n)
    ensures Covered(Do(p, node, step), n)
  {
    match step
    case ListSecrets(_) => QuietCovered(p, node, step, n);
    case ListRows(live) => ListRowsCovered(p, node, live, n);
    case Skip => SkipCovered(p, node, n);
    case Reencrypt(_, _) => QuietCovered(p, node, step, n);
    case Fail => FailCovered(p, node, n);
    case CommitRow => CommitCovered(p, node, n);
    case Other(c) => OtherCovered(p, node, c, n);
    case Mark(at) => MarkCovered(p, node, at, n);
  }

  // ----- secrets that were there when the pass began -----

  /** The secret is there still, has not gone back, and is listed or waits to be. */
  ghost predicate Since(p: Pass, n: string, first: I32) {
    && n in p.tables.secrets && first <= p.tables.secrets[n].currentVersion
    && (n in p.seen ==> first <= p.seen[n])
    && (p.todo.Some? ==> n in p.seen || n in p.todo.value)
  }

  lemma StepSince(p: Pass, node: U64, step: Step, n: string, first: I32)
    requires Good(p.tables) && Since(p, n, first) && Allowed(p, step) && Spares(step, n)
    ensures Since(Do(p, node, step), n, first)
  {
    assert CurrentRow(p.tables.secrets, p.tables.versions, n);
    if step.Other? {
      StepAges(p.tables, node, step.command, n, p.tables.secrets[n].currentVersion, p.now, p.target);
    } else {
      assert Do(p, node, step).tables.secrets == p.tables.secrets;
      if step.ListRows? { assert forall m :: m in p.todo.value ==> m == p.todo.value[0] || m in p.todo.value[1..]; }
    }
  }

  // ----- versions committed during the pass -----

  /** Versions up to here were there when the secret's rows were listed; a secret listed never had none. */
  function Floor(p: Pass, n: string): I32 {
    if n in p.seen then p.seen[n] else 0
  }

  ghost predicate BornRow(p: Pass, n: string, w: I32) {
    var key := VersionKey(n, w);
    key in p.tables.versions && w > Floor(p, n) ==>
      (n, w) in p.born && p.tables.versions[key].wrappedRotationAt == p.born[(n, w)]
  }

  /** Once the secret does not wait any more, every row above the floor is as it was committed. */
  ghost predicate AllBorn(p: Pass, n: string) {
    p.todo.Some? && n !in p.todo.value ==> forall w: I32 {:trigger BornRow(p, n, w)} :: BornRow(p, n, w)
  }

  /** Nobody but this pass re-wraps. */
  ghost predicate Alone(step: Step) {
    step.Other? ==> !step.command.RewrapVersion?
  }

  /** A row that a write adds was committed by it with its generation. */
  lemma AddedIsBorn(p: Pass, node: U64, c: Command, n: string, w: I32)
    requires Good(p.tables) && ServiceShaped(c) && VersionKey(n, w) !in p.tables.versions && !c.RestoreDatabase?
    requires VersionKey(n, w) in Apply(p.tables, node, c).0.versions
    ensures var q := Do(p, node, Other(c));
            (n, w) in q.born && q.tables.versions[VersionKey(n, w)].wrappedRotationAt == q.born[(n, w)]
  {
    var t, key := p.tables, VersionKey(n, w);
    if c.CreateSecret? {
      if VersionKey(c.secret.name, c.row.version) == key { KeyInjective(c.secret.name, c.row.version, n, w); }
    } else if c.PutVersion? {
      if VersionKey(c.name, c.row.version) == key { KeyInjective(c.name, c.row.version, n, w); }
      var inserted := t.versions[VersionKey(c.name, c.row.version) := c.row];
      E.SupersedeKeepsSealed(inserted, VersionKey(c.name, c.expectedCurrent), c.supersedeExpiresAt, key);
    } else {
      OthersAddNoKeys(t, node, c);
    }
  }

  /** A row that a write keeps keeps its generation, and its version is not committed a second time. */
  lemma KeptStaysBorn(p: Pass, node: U64, c: Command, n: string, w: I32)
    requires Good(p.tables) && ServiceShaped(c) && E.Spares(E.Write(c), n) && !c.RewrapVersion? && BornRow(p, n, w)
    requires VersionKey(n, w) in p.tables.versions
    ensures BornRow(Do(p, node, Other(c)), n, w)
  {
    StoredInRange(p.tables, n, w);
    E.WriteKeepsRow(p.tables, node, c, n, w);
    assert CurrentRow(p.tables.secrets, p.tables.versions, n);
  }

  lemma OtherBorn(p: Pass, node: U64, c: Command, n: string)
    requires Good(p.tables) && AllBorn(p, n) && ServiceShaped(c) && E.Spares(E.Write(c), n) && !c.RewrapVersion?
    ensures AllBorn(Do(p, node, Other(c)), n)
  {
    var q := Do(p, node, Other(c));
    if q.todo.Some? && n !in q.todo.value {
      forall w: I32 ensures BornRow(q, n, w) {
        assert BornRow(p, n, w);
        if VersionKey(n, w) in q.tables.versions {
          if VersionKey(n, w) in p.tables.versions { KeptStaysBorn(p, node, c, n, w); } else { AddedIsBorn(p, node, c, n, w); }
        }
      }
    }
  }

  lemma CommitBorn(p: Pass, node: U64, n: string)
    requires Covered(p, n) && AllBorn(p, n) && Allowed(p, CommitRow)
    ensures AllBorn(Do(p, node, CommitRow), n)
  {
    var q, first := Do(p, node, CommitRow), p.rows[0].version;
    if q.todo.Some? && n !in q.todo.value {
      forall w: I32 ensures BornRow(q, n, w) {
        assert BornRow(p, n, w) && ListTrue(p, n, 0);
        if VersionKey(p.name, first) == VersionKey(n, w) { KeyInjective(p.name, first, n, w); }
      }
    }
  }

  lemma ListBorn(p: Pass, node: U64, step: Step, n: string)
    requires Good(p.tables) && AllBorn(p, n) && Allowed(p, step) && (step.ListSecrets? || step.ListRows?)
    ensures AllBorn(Do(p, node, step), n)
  {
    var q := Do(p, node, step);
    if q.todo.Some? && n !in q.todo.value {
      forall w: I32 ensures BornRow(q, n, w) {
        if VersionKey(n, w) in p.tables.versions { StoredInRange(p.tables, n, w); }
        if step.ListRows? && n != p.todo.value[0] {
          assert n !in p.todo.value;
          assert BornRow(p, n, w);
        }
      }
    }
  }

  lemma StepBorn(p: Pass, node: U64, step: Step, n: string)
    requires Covered(p, n) && AllBorn(p, n) && Allowed(p, step) && Spares(step, n) && Alone(step)
    ensures AllBorn(Do(p, node, step), n)
  {
    match step
    case ListSecrets(_) => ListBorn(p, node, step, n);
    case ListRows(_) => ListBorn(p, node, step, n);
    case CommitRow => CommitBorn(p, node, n);
    case Other(c) => OtherBorn(p, node, c, n);
    case _ =>
      var q := Do(p, node, step);
      if q.todo.Some? && n !in q.todo.value {
        forall w: I32 ensures BornRow(q, n, w) { assert BornRow(p, n, w); }
      }
  }

  // ----- whole passes -----

  ghost predicate RunsTo(p: Pass, node: U64, steps: seq<Step>, last: Pass)
    decreases |steps|
  {
    if steps == [] then p == last
    else Allowed(p, steps[0]) && RunsTo(Do(p, node, steps[0]), node, steps[1..], last)
  }

  ghost predicate Reaches(p: Pass, node: U64, steps: seq<Step>, last: Pass, n: string) {
    RunsTo(p, node, steps, last) && forall i :: 0 <= i < |steps| ==> Spares(steps[i], n)
  }

  lemma {:induction false} RunCovered(p: Pass, node: U64, steps: seq<Step>, last: Pass, n: string)
    requires Covered(p, n) && Reaches(p, node, steps, last, n)
    ensures Covered(last, n) && last.now == p.now && last.target == p.target
    ensures forall first: I32 :: Since(p, n, first) ==> Since(last, n, first)
    ensures AllBorn(p, n) && (forall i :: 0 <= i < |steps| ==> Alone(steps[i])) ==> AllBorn(last, n)
    decreases |steps|
  {
    if steps != [] {
      var q := Do(p, node, steps[0]);
      StepCovered(p, node, steps[0], n);
      forall first: I32 | Since(p, n, first) ensures Since(q, n, first) { StepSince(p, node, steps[0], n, first); }
      if AllBorn(p, n) && Alone(steps[0]) { StepBorn(p, node, steps[0], n); }
      RunCovered(q, node, steps[1..], last, n);
    }
  }

  lemma BeginCovered(t: Tables, now: I64, target: I64, n: string)
    requires Good(t) && ValidName(n)
    ensures Covered(Begin(t, now, target), n) && AllBorn(Begin(t, now, target), n)
    ensures n in t.secrets ==> Since(Begin(t, now, target), n, t.secrets[n].currentVersion)
  {
  }

  /**
   * Whatever others wrote before, between and after its steps, when a pass has finished without a failure, then
   * for every secret that was neither deleted nor restored over: each row it listed that still exists carries the
   * target, and so does each row from before the pass that is live at any time from the pass's own.
   */
  lemma ScannedRowsCarryTarget(t: Tables, node: U64, now: I64, target: I64, steps: seq<Step>, last: Pass, n: string, w: I32, at: I64)
    requires Good(t) && ValidName(n) && Reaches(Begin(t, now, target), node, steps, last, n)
    requires Finished(last) && last.failed == 0 && at >= now && VersionKey(n, w) in last.tables.versions
    ensures (n, w) in last.listed ==> !NeedsRewrap(last.tables.versions[VersionKey(n, w)], target)
    ensures n in t.secrets && w <= t.secrets[n].currentVersion && Live(last.tables.versions, n, w, at) ==>
              !NeedsRewrap(last.tables.versions[VersionKey(n, w)], target)
  {
    BeginCovered(t, now, target, n);
    RunCovered(Begin(t, now, target), node, steps, last, n);
    assert Visited(last, n, w) && Passed(last, n, w);
    StoredInRange(last.tables, n, w);
  }

  predicate Below(generation: OptTime, target: I64) {
    generation.None? || generation.value < target
  }

  /**
   * Exactly which live rows lie below the target after such a pass, when no other pass ran: the versions committed
   * after their secret's rows were listed, or in a secret created after the listing, with a generation below it.
   */
  lemma PendingAfterPassIff(t: Tables, node: U64, now: I64, target: I64, steps: seq<Step>, last: Pass, n: string, w: I32, at: I64)
    requires Good(t) && ValidName(n) && Reaches(Begin(t, now, target), node, steps, last, n)
    requires forall i :: 0 <= i < |steps| ==> Alone(steps[i])
    requires Finished(last) && last.failed == 0 && at >= now && Live(last.tables.versions, n, w, at)
    ensures NeedsRewrap(last.tables.versions[VersionKey(n, w)], target) <==>
            w > Floor(last, n) && (n, w) in last.born && Below(last.born[(n, w)], target)
  {
    BeginCovered(t, now, target, n);
    RunCovered(Begin(t, now, target), node, steps, last, n);
    assert Visited(last, n, w) && Passed(last, n, w) && BornRow(last, n, w);
    StoredInRange(last.tables, n, w);
  }
}
