/** Checking a presented value against the live versions of a secret. */
module Verify {
  import opened Base
  import opened Keys
  import opened Model
  import opened Effects
  import opened CurrentVersion
  import opened Grace
  import opened Scan
  import opened Readers
  import opened Logins
  import opened Store
  import opened Lockout
  import E = Envelope

  datatype Answer = Valid(version: I32) | Invalid | UnknownName | Locked | Failed

  /** A presented value is compared with the value, or with the password of a username and password pair. */
  predicate Matches(format: SecretFormat, plain: Plaintext, presented: string) {
    match (format, plain)
    case (Opaque, RawValue(value)) => value == presented
    case (Userpass, UserPass(_, password)) => password == presented
    case _ => false
  }

  /** The first listed row that matches decides; a row that does not open before it is an error. */
  function FirstMatch(name: string, format: SecretFormat, presented: string, rows: seq<VersionRecord>): Answer {
    if rows == [] then Invalid
    else
      var plain := E.OpenVersion(name, rows[0].version, rows[0]);
      if plain.None? then Failed
      else if Matches(format, plain.value, presented) then Valid(rows[0].version)
      else FirstMatch(name, format, presented, rows[1..])
  }

  method MatchRows(name: string, format: SecretFormat, presented: string, live: seq<VersionRecord>) returns (a: Answer)
    ensures a == FirstMatch(name, format, presented, live)
  {
    for i := 0 to |live|
      invariant FirstMatch(name, format, presented, live) == FirstMatch(name, format, presented, live[i..])
    {
      assert live[i..][1..] == live[i + 1..];
      var plain := E.OpenVersion(name, live[i].version, live[i]);
      if plain.None? { return Failed; }
      if Matches(format, plain.value, presented) { return Valid(live[i].version); }
    }
    a := Invalid;
  }

  method CheckValue(t: Tables, name: string, presented: string, now: I64) returns (a: Answer)
    ensures !ValidName(name) ==> a == UnknownName
    ensures ValidName(name) && (presented == "" || name !in t.secrets) ==> a == Invalid
    ensures ValidName(name) && presented != "" && name in t.secrets ==>
              exists live :: ReaderList(t, name, now, live) && a == FirstMatch(name, t.secrets[name].format, presented, live)
    ensures ValidName(name) ==> a.Valid? || a.Invalid? || a.Failed?
  {
    if !ValidName(name) { return UnknownName; }
    if presented == "" || name !in t.secrets { return Invalid; }
    var live := LiveVersions(t, name, now);
    assert ReaderList(t, name, now, live);
    a := MatchRows(name, t.secrets[name].format, presented, live);
    FirstMatchAnswers(name, t.secrets[name].format, presented, live);
  }

  // ----- the whole request -----

  /** Wrong values are counted per caller and secret. */
  function VerifyKey(peer: string, name: string): string {
    "verify:" + peer + ":" + name
  }

  function VerifyEntry(name: string, clientIp: string, outcome: string, now: I64): AuditEntry {
    AuditEntry(now, None, Some(clientIp), "verify", Some(name), outcome, 0)
  }

  /** What an answer leaves behind: nothing, an audit row, or an audit row and one more failure of the key. */
  ghost function AfterAnswer(t: Tables, node: U64, p: Policy, name: string, peer: string, clientIp: string, now: I64, a: Answer): Tables {
    match a
    case Valid(_) => AppendAuditEffect(t, node, VerifyEntry(name, clientIp, "valid", now)).0
    case Invalid =>
      var noted := AppendAuditEffect(t, node, VerifyEntry(name, clientIp, "invalid", now)).0;
      if p.max == 0 then noted else AuthFailureEffect(noted, VerifyKey(peer, name), now, p.max, p.window, p.lockout).0
    case _ => t
  }

  /** One audit row more, past all others of the plausible range, which says what was checked and how it ended. */
  ghost predicate Noted(before: map<nat, AuditEntry>, after: map<nat, AuditEntry>, name: string, clientIp: string, now: I64, node: U64,
                        outcome: string)
  {
    exists k :: IsNextAuditKey(before.Keys, k) &&
      after == before[k := AuditEntry(now, None, Some(clientIp), "verify", Some(name), outcome, node)]
  }

  /** One failure more of this caller on this secret, and of nobody else. */
  ghost predicate CountedOnce(before: map<string, LockoutRecord>, after: map<string, LockoutRecord>, peer: string, name: string,
                              now: I64, p: Policy)
  {
    var key := "verify:" + peer + ":" + name;
    after == before[key := LockStep(Lookup(before, key), now, p.max, p.window, p.lockout)]
  }

  lemma AfterAnswerIs(t: Tables, node: U64, p: Policy, name: string, peer: string, clientIp: string, now: I64, a: Answer)
    ensures var u := AfterAnswer(t, node, p, name, peer, clientIp, now, a);
            && u == t.(audit := u.audit, lockouts := u.lockouts)
            && (a.Valid? ==> Noted(t.audit, u.audit, name, clientIp, now, node, "valid"))
            && (a.Invalid? ==> Noted(t.audit, u.audit, name, clientIp, now, node, "invalid"))
            && (!a.Valid? && !a.Invalid? ==> u == t)
            && (a.Invalid? && p.max > 0 ==> CountedOnce(t.lockouts, u.lockouts, peer, name, now, p))
            && (!(a.Invalid? && p.max > 0) ==> u.lockouts == t.lockouts)
  {
    var next := NextAuditKey(t.audit.Keys);
    assert IsNextAuditKey(t.audit.Keys, next);
  }

  /** Callers and secrets are counted apart: a key stands for one address and one name. */
  lemma VerifyKeyInjective(p1: string, n1: string, p2: string, n2: string)
    requires ValidName(n1) && ValidName(n2) && VerifyKey(p1, n1) == VerifyKey(p2, n2)
    ensures p1 == p2 && n1 == n2
  {
    var a, b := p1 + ":" + n1, p2 + ":" + n2;
    assert VerifyKey(p1, n1)[7..] == a && VerifyKey(p2, n2)[7..] == b;
    SplitUnique(p1, n1, p2, n2, ':');
  }

  class VerifyDesk {
    const store: RedbStore
    const policy: Policy

    constructor (store: RedbStore, policy: Policy)
      ensures this.store == store && this.policy == policy
    {
      this.store := store;
      this.policy := policy;
    }

    /** Name, lock, value, in this order; only a wrong value counts as a failure, and a lock answers before anything is read. */
    method Check(name: string, peer: string, clientIp: string, presented: string, now: I64) returns (a: Answer)
      modifies store
      ensures a == UnknownName <==> !ValidName(name)
      ensures a == Locked <==> ValidName(name) && policy.max > 0 && LockedAt(old(store.tables), VerifyKey(peer, name), now)
      ensures a != UnknownName && a != Locked && (presented == "" || name !in old(store.tables).secrets) ==> a == Invalid
      ensures a != UnknownName && a != Locked && presented != "" && name in old(store.tables).secrets ==>
                exists live :: ReaderList(old(store.tables), name, now, live) &&
                  a == FirstMatch(name, old(store.tables).secrets[name].format, presented, live)
      ensures store.tables == AfterAnswer(old(store.tables), store.nodeId, policy, name, peer, clientIp, now, a)
      ensures store.tables == old(store.tables).(audit := store.tables.audit, lockouts := store.tables.lockouts)
      ensures a.Valid? || a.Invalid? ==>
                Noted(old(store.tables).audit, store.tables.audit, name, clientIp, now, store.nodeId, if a.Valid? then "valid" else "invalid")
      ensures !(a.Valid? || a.Invalid?) ==> store.tables == old(store.tables)
      ensures a.Invalid? && policy.max > 0 ==> CountedOnce(old(store.tables).lockouts, store.tables.lockouts, peer, name, now, policy)
      ensures !(a.Invalid? && policy.max > 0) ==> store.tables.lockouts == old(store.tables).lockouts
    {
      if !ValidName(name) { return UnknownName; }
      var key := VerifyKey(peer, name);
      if policy.max != 0 && key in store.tables.lockouts {
        var record := store.tables.lockouts[key];
        if record.lockedUntil.Some? && record.lockedUntil.value > now { return Locked; }
      }
      a := CheckValue(store.tables, name, presented, now);
      AfterAnswerIs(store.tables, store.nodeId, policy, name, peer, clientIp, now, a);
      Note(name, peer, clientIp, now, a);
    }

    /** The audit row of an answer, and the failure of a wrong value. */
    method Note(name: string, peer: string, clientIp: string, now: I64, a: Answer)
      modifies store
      ensures store.tables == AfterAnswer(old(store.tables), store.nodeId, policy, name, peer, clientIp, now, a)
    {
      if a.Valid? {
        var o := store.ApplyOne(AppendAudit(VerifyEntry(name, clientIp, "valid", now)));
      } else if a.Invalid? {
        var o := store.ApplyOne(AppendAudit(VerifyEntry(name, clientIp, "invalid", now)));
        if policy.max != 0 {
          o := store.ApplyOne(RecordAuthFailure(VerifyKey(peer, name), now, policy.max, policy.window, policy.lockout));
        }
      }
    }
  }

  /** The tables after `n` wrong values of one caller for one secret at one moment. */
  ghost function AfterWrong(t: Tables, node: U64, p: Policy, name: string, peer: string, clientIp: string, now: I64, n: nat): Tables {
    if n == 0 then t
    else AfterAnswer(AfterWrong(t, node, p, name, peer, clientIp, now, n - 1), node, p, name, peer, clientIp, now, Invalid)
  }

  lemma {:induction false} WrongValuesCount(t: Tables, node: U64, p: Policy, name: string, peer: string, clientIp: string, now: I64, n: nat)
    requires n <= p.max && VerifyKey(peer, name) !in t.lockouts
    ensures Lookup(AfterWrong(t, node, p, name, peer, clientIp, now, n).lockouts, VerifyKey(peer, name)) ==
            RecordAfter(p, seq(p.max, _ => now), n)
  {
    if n > 0 { WrongValuesCount(t, node, p, name, peer, clientIp, now, n - 1); }
  }

  /** The request keeps a caller out after exactly `max` wrong values, for the whole lockout. */
  lemma WrongValuesLock(t: Tables, node: U64, p: Policy, name: string, peer: string, clientIp: string, now: I64, n: nat, at: I64)
    requires VerifyKey(peer, name) !in t.lockouts && 1 <= p.max < 0xFFFF_FFFF && p.window > 0 && p.lockout >= 0
    requires 0 <= now <= at && now + p.lockout <= I64_MAX && n <= p.max
    ensures LockedAt(AfterWrong(t, node, p, name, peer, clientIp, now, n), VerifyKey(peer, name), at) <==>
            n == p.max && at < now + p.lockout
  {
    WrongValuesCount(t, node, p, name, peer, clientIp, now, n);
    if n > 0 { AllAtOnce(p, now, n); }
  }

  lemma {:induction false} FirstMatchAnswers(name: string, format: SecretFormat, presented: string, rows: seq<VersionRecord>)
    ensures var a := FirstMatch(name, format, presented, rows); a.Valid? || a.Invalid? || a.Failed?
  {
    if rows != [] { FirstMatchAnswers(name, format, presented, rows[1..]); }
  }

  /** The stored plaintext is the presented value, or a login with the presented password. */
  ghost predicate Stores(format: SecretFormat, plain: Plaintext, presented: string) {
    (format == Opaque && plain == RawValue(presented)) ||
    (format == Userpass && exists username :: plain == UserPass(username, presented))
  }

  /** This version is live and its value is the presented one. */
  ghost predicate Accepts(t: Tables, name: string, v: I32, presented: string, now: I64) {
    && name in t.secrets && Live(t.versions, name, v, now)
    && var plain := E.OpenVersion(name, v, t.versions[VersionKey(name, v)]);
       plain.Some? && Stores(t.secrets[name].format, plain.value, presented)
  }

  ghost predicate RowAccepts(name: string, format: SecretFormat, presented: string, r: VersionRecord) {
    var plain := E.OpenVersion(name, r.version, r);
    plain.Some? && Stores(format, plain.value, presented)
  }

  /** The comparison the check makes is with the whole value, or with the password and not the username. */
  lemma MatchesIffStores(format: SecretFormat, plain: Plaintext, presented: string)
    ensures Matches(format, plain, presented) <==> Stores(format, plain, presented)
  {
    if plain.UserPass? && plain.password == presented { assert plain == UserPass(plain.username, presented); }
  }

  /** What that means for a live version that opens. */
  lemma AcceptsIff(t: Tables, name: string, v: I32, presented: string, now: I64, plain: Plaintext)
    requires name in t.secrets && Live(t.versions, name, v, now)
    requires E.OpenVersion(name, v, t.versions[VersionKey(name, v)]) == Some(plain)
    ensures t.secrets[name].format == Opaque && plain.RawValue? ==>
              (Accepts(t, name, v, presented, now) <==> plain.value == presented)
    ensures t.secrets[name].format == Userpass && plain.UserPass? ==>
              (Accepts(t, name, v, presented, now) <==> plain.password == presented)
    ensures (t.secrets[name].format == Opaque) != plain.RawValue? ==> !Accepts(t, name, v, presented, now)
  {
    if plain.UserPass? { assert plain == UserPass(plain.username, plain.password); }
  }

  lemma RowOfLive(t: Tables, name: string, now: I64, live: seq<VersionRecord>, v: I32)
    requires Good(t) && LiveList(t.versions, name, now, live) && Live(t.versions, name, v, now)
    ensures exists i :: 0 <= i < |live| && live[i].version == v && live[i] == t.versions[VersionKey(name, v)]
  {
    StoredKeyParses(t.secrets, t.versions, name, v);
    assert PlacedRow(t.secrets, t.versions, VersionKey(name, v));
    var i :| 0 <= i < |live| && live[i] == t.versions[VersionKey(name, v)];
  }

  ghost predicate ListedMatch(name: string, format: SecretFormat, presented: string, rows: seq<VersionRecord>, w: I32) {
    exists i :: 0 <= i < |rows| && rows[i].version == w && RowAccepts(name, format, presented, rows[i])
  }

  lemma AcceptsIsListed(t: Tables, name: string, presented: string, now: I64, live: seq<VersionRecord>, w: I32)
    requires Good(t) && name in t.secrets && LiveList(t.versions, name, now, live)
    ensures Accepts(t, name, w, presented, now) <==> ListedMatch(name, t.secrets[name].format, presented, live, w)
  {
    if Accepts(t, name, w, presented, now) { RowOfLive(t, name, now, live, w); }
    if i :| 0 <= i < |live| && live[i].version == w && RowAccepts(name, t.secrets[name].format, presented, live[i]) {
      assert LiveRow(t.versions, name, now, live[i]);
    }
  }

  lemma ListedInTail(name: string, format: SecretFormat, presented: string, rows: seq<VersionRecord>, w: I32)
    requires rows != []
    ensures ListedMatch(name, format, presented, rows, w) <==>
            (rows[0].version == w && RowAccepts(name, format, presented, rows[0])) ||
            ListedMatch(name, format, presented, rows[1..], w)
  {
    var rest := rows[1..];
    if i :| 0 <= i < |rows| && rows[i].version == w && RowAccepts(name, format, presented, rows[i]) {
      assert i > 0 ==> rest[i - 1] == rows[i];
    }
    if i :| 0 <= i < |rest| && rest[i].version == w && RowAccepts(name, format, presented, rest[i]) {
      assert rows[i + 1] == rest[i];
    }
  }

  /** No listed version is above the first. */
  lemma ListedBelow(name: string, format: SecretFormat, presented: string, rows: seq<VersionRecord>, w: I32)
    requires rows != [] && forall i, j :: 0 <= i < j < |rows| ==> rows[i].version > rows[j].version
    requires ListedMatch(name, format, presented, rows, w)
    ensures w <= rows[0].version
  {
    var i :| 0 <= i < |rows| && rows[i].version == w && RowAccepts(name, format, presented, rows[i]);
  }

  /** The first match in a list that descends is the greatest. */
  lemma {:induction false} FirstIsGreatest(name: string, format: SecretFormat, presented: string, rows: seq<VersionRecord>, v: I32)
    requires forall r :: r in rows ==> E.OpenVersion(name, r.version, r).Some?
    requires forall i, j :: 0 <= i < j < |rows| ==> rows[i].version > rows[j].version
    ensures FirstMatch(name, format, presented, rows) == Valid(v) <==>
            && ListedMatch(name, format, presented, rows, v)
            && forall w: I32 :: ListedMatch(name, format, presented, rows, w) ==> w <= v
    ensures FirstMatch(name, format, presented, rows) == Invalid <==>
            forall w: I32 :: !ListedMatch(name, format, presented, rows, w)
  {
    if rows != [] {
      assert rows[0] in rows;
      MatchesIffStores(format, E.OpenVersion(name, rows[0].version, rows[0]).value, presented);
      forall w: I32
        ensures ListedMatch(name, format, presented, rows, w) ==> w <= rows[0].version
        ensures ListedMatch(name, format, presented, rows, w) <==>
                (rows[0].version == w && RowAccepts(name, format, presented, rows[0])) ||
                ListedMatch(name, format, presented, rows[1..], w)
      {
        ListedInTail(name, format, presented, rows, w);
        if ListedMatch(name, format, presented, rows, w) { ListedBelow(name, format, presented, rows, w); }
      }
      if RowAccepts(name, format, presented, rows[0]) {
        assert ListedMatch(name, format, presented, rows, rows[0].version);
      } else {
        FirstIsGreatest(name, format, presented, rows[1..], v);
      }
    }
  }

  /** The check fails exactly at a row that does not open, if no row before it decided. */
  lemma {:induction false} FailsIff(name: string, format: SecretFormat, presented: string, rows: seq<VersionRecord>)
    ensures FirstMatch(name, format, presented, rows) == Failed <==>
            exists i :: 0 <= i < |rows| && E.OpenVersion(name, rows[i].version, rows[i]).None? && Undecided(name, format, presented, rows, i)
  {
    if rows != [] {
      var rest, plain := rows[1..], E.OpenVersion(name, rows[0].version, rows[0]);
      if plain.None? {
        assert Undecided(name, format, presented, rows, 0);
      } else {
        MatchesIffStores(format, plain.value, presented);
        FailsIff(name, format, presented, rest);
        if i :| 0 <= i < |rest| && E.OpenVersion(name, rest[i].version, rest[i]).None? && Undecided(name, format, presented, rest, i) {
          if !RowAccepts(name, format, presented, rows[0]) { UndecidedLater(name, format, presented, rows, i); }
        }
        if i :| 0 <= i < |rows| && E.OpenVersion(name, rows[i].version, rows[i]).None? && Undecided(name, format, presented, rows, i) {
          assert i > 0 && rest[i - 1] == rows[i];
          assert !RowAccepts(name, format, presented, rows[0]);
          UndecidedEarlier(name, format, presented, rows, i);
        }
      }
    }
  }

  /** Every row before `i` opens, to something else. */
  ghost predicate Undecided(name: string, format: SecretFormat, presented: string, rows: seq<VersionRecord>, i: nat)
    requires i <= |rows|
  {
    forall j :: 0 <= j < i ==>
      E.OpenVersion(name, rows[j].version, rows[j]).Some? && !RowAccepts(name, format, presented, rows[j])
  }

  lemma UndecidedLater(name: string, format: SecretFormat, presented: string, rows: seq<VersionRecord>, i: nat)
    requires rows != [] && i < |rows[1..]| && Undecided(name, format, presented, rows[1..], i)
    requires E.OpenVersion(name, rows[0].version, rows[0]).Some? && !RowAccepts(name, format, presented, rows[0])
    ensures Undecided(name, format, presented, rows, i + 1) && rows[i + 1] == rows[1..][i]
  {
    forall j | 0 <= j < i + 1
      ensures E.OpenVersion(name, rows[j].version, rows[j]).Some? && !RowAccepts(name, format, presented, rows[j])
    {
      if j > 0 { assert rows[j] == rows[1..][j - 1]; }
    }
  }

  lemma UndecidedEarlier(name: string, format: SecretFormat, presented: string, rows: seq<VersionRecord>, i: nat)
    requires 0 < i < |rows| && Undecided(name, format, presented, rows, i)
    ensures Undecided(name, format, presented, rows[1..], i - 1) && rows[1..][i - 1] == rows[i]
  {
    forall j | 0 <= j < i - 1
      ensures E.OpenVersion(name, rows[1..][j].version, rows[1..][j]).Some? && !RowAccepts(name, format, presented, rows[1..][j])
    {
      assert rows[1..][j] == rows[j + 1];
    }
  }

  /** The version accepts the value and no newer one does. */
  ghost predicate NewestAccepting(t: Tables, name: string, v: I32, presented: string, now: I64) {
    Accepts(t, name, v, presented, now) && forall w: I32 :: Accepts(t, name, w, presented, now) ==> w <= v
  }

  /**
   * When every stored row opens, the answer is the newest live version that holds the presented value, and
   * invalid exactly when no live version holds it.
   */
  lemma AnswerIsNewestMatch(t: Tables, name: string, presented: string, now: I64, live: seq<VersionRecord>, v: I32)
    requires Good(t) && name in t.secrets && ReaderList(t, name, now, live)
    requires forall w: I32 :: Opens(t, name, w)
    ensures FirstMatch(name, t.secrets[name].format, presented, live) == Valid(v) <==>
            NewestAccepting(t, name, v, presented, now)
    ensures FirstMatch(name, t.secrets[name].format, presented, live) == Invalid <==>
            forall w: I32 :: !Accepts(t, name, w, presented, now)
  {
    ReaderReturnsLiveList(t, name, now, live);
    forall r | r in live ensures E.OpenVersion(name, r.version, r).Some? {
      assert LiveRow(t.versions, name, now, r);
      assert Opens(t, name, r.version);
    }
    FirstIsGreatest(name, t.secrets[name].format, presented, live, v);
    forall w: I32
      ensures Accepts(t, name, w, presented, now) <==> ListedMatch(name, t.secrets[name].format, presented, live, w)
    {
      AcceptsIsListed(t, name, presented, now, live, w);
    }
  }

  // ----- the grace period, from the caller's side -----

  /** No expiry sweep ran after `now`. */
  ghost predicate Timely(step: E.Step, now: I64) {
    step.Write? && step.command.ExpireGraceVersions? ==> step.command.now <= now
  }

  lemma RewrapKeepsSuperseded(v: E.Vault, node: U64, step: E.Step, name: string, w: I32, expiry: I64, now: I64)
    requires Superseded(v.tables.secrets, v.tables.versions, name, w, expiry, now) && E.Allowed(v, step) && !step.Write?
    ensures var t := E.Do(v, node, step).tables; Superseded(t.secrets, t.versions, name, w, expiry, now)
  {
    if step.RewrapWrite? {
      var p := v.inFlight[step.id];
      var r := E.ReencryptDataKey(p.blob, p.keyId, KeyContext(p.name, p.version), step.newKeyId, step.salt);
      if r.Some? {
        RowsKeepExpiry(v.tables, node, RewrapVersion(p.name, p.version, r.value.1, r.value.0, step.target), name, w, now);
      }
    }
  }

  lemma {:induction false} GraceRun(v: E.Vault, node: U64, steps: seq<E.Step>, last: E.Vault, name: string, w: I32,
                                    dek: Dek, plain: Plaintext, expiry: I64, now: I64)
    requires Good(v.tables) && E.Kept(v, name, w, dek, plain) && E.Reaches(v, node, steps, last, name)
    requires Superseded(v.tables.secrets, v.tables.versions, name, w, expiry, now)
    requires forall i :: 0 <= i < |steps| ==> Timely(steps[i], now)
    ensures Good(last.tables) && E.Kept(last, name, w, dek, plain)
    ensures Superseded(last.tables.secrets, last.tables.versions, name, w, expiry, now)
    decreases |steps|
  {
    if steps != [] {
      var step := steps[0];
      E.GoodStep(v, node, step);
      E.StepKeeps(v, node, step, name, w, dek, plain);
      if step.Write? {
        StepKeepsSuperseded(v.tables, node, step.command, name, w, expiry, now);
      } else {
        RewrapKeepsSuperseded(v, node, step, name, w, expiry, now);
      }
      GraceRun(E.Do(v, node, step), node, steps[1..], last, name, w, dek, plain, expiry, now);
    }
  }

  // ----- every version of the secret opens -----

  ghost predicate KeptSome(v: E.Vault, name: string, w: I32) {
    exists dek, plain :: E.Kept(v, name, w, dek, plain)
  }

  /** Every stored version of the secret opens, and re-wraps in flight are of versions it has. */
  ghost predicate AllKept(v: E.Vault, name: string) {
    && Good(v.tables) && ValidName(name) && name in v.tables.secrets
    && (forall w: I32 {:trigger KeptSome(v, name, w)} :: 1 <= w <= v.tables.secrets[name].currentVersion ==> KeptSome(v, name, w))
    && (forall id :: id in v.inFlight && v.inFlight[id].name == name ==>
          v.inFlight[id].version <= v.tables.secrets[name].currentVersion)
  }

  ghost predicate IsSealed(row: VersionRecord, name: string) {
    exists seen: Tables, plain, at: I64, f: E.Fresh ::
      |f.nonce| == E.NONCE_LEN && row == E.SealVersion(seen, name, row.version, plain, at, f)
  }

  /** New versions of the secret are sealed by the vault. */
  ghost predicate Seals(step: E.Step, name: string) {
    step.Write? && step.command.PutVersion? && step.command.name == name ==> IsSealed(step.command.row, name)
  }

  /** The version a commit adds opens. */
  lemma NewVersionKept(v: E.Vault, node: U64, c: Command, name: string)
    requires AllKept(v, name) && c.PutVersion? && c.name == name && ServiceShaped(c) && IsSealed(c.row, name)
    requires Apply(v.tables, node, c).1 == Ok
    ensures KeptSome(v.(tables := Apply(v.tables, node, c).0), name, c.row.version)
    ensures Apply(v.tables, node, c).0.secrets[name].currentVersion == c.row.version == v.tables.secrets[name].currentVersion + 1
  {
    var seen: Tables, plain, at: I64, f: E.Fresh :|
      |f.nonce| == E.NONCE_LEN && c.row == E.SealVersion(seen, name, c.row.version, plain, at, f);
    var u := Apply(v.tables, node, c).0;
    assert CurrentRow(v.tables.secrets, v.tables.versions, name);
    RowKey(name, c.expectedCurrent);
    RowKey(name, c.row.version);
    assert u.versions[VersionKey(name, c.row.version)] == c.row;
    assert E.Kept(v.(tables := u), name, c.row.version, f.dek, plain);
  }

  lemma StepKeepsSome(v: E.Vault, node: U64, step: E.Step, name: string, w: I32)
    requires Good(v.tables) && KeptSome(v, name, w) && E.Allowed(v, step) && E.Spares(step, name)
    ensures KeptSome(E.Do(v, node, step), name, w)
  {
    var dek, plain :| E.Kept(v, name, w, dek, plain);
    E.StepKeeps(v, node, step, name, w, dek, plain);
  }

  /** The current version after a step, and which step raised it. */
  lemma StepCurrent(v: E.Vault, node: U64, step: E.Step, name: string)
    requires AllKept(v, name) && E.Allowed(v, step) && E.Spares(step, name)
    ensures var t := E.Do(v, node, step).tables;
            && name in t.secrets
            && (t.secrets[name].currentVersion == v.tables.secrets[name].currentVersion ||
                (step.Write? && step.command.PutVersion? && step.command.name == name &&
                 Apply(v.tables, node, step.command).1 == Ok))
  {
    assert CurrentRow(v.tables.secrets, v.tables.versions, name);
    if step.Write? {
      WriteCurrent(v.tables, node, step.command, name);
    } else {
      assert E.Do(v, node, step).tables.secrets == v.tables.secrets;
    }
  }

  lemma WriteCurrent(t: Tables, node: U64, c: Command, name: string)
    requires name in t.secrets && !c.RestoreDatabase? && (c.DeleteSecret? ==> c.name != name)
    ensures name in Apply(t, node, c).0.secrets
    ensures !(c.PutVersion? && c.name == name && Apply(t, node, c).1 == Ok) ==>
              Apply(t, node, c).0.secrets[name].currentVersion == t.secrets[name].currentVersion
  {
  }

  lemma StepKeepsAll(v: E.Vault, node: U64, step: E.Step, name: string)
    requires AllKept(v, name) && E.Allowed(v, step) && E.Spares(step, name) && Seals(step, name)
    ensures AllKept(E.Do(v, node, step), name)
  {
    var u := E.Do(v, node, step);
    E.GoodStep(v, node, step);
    StepCurrent(v, node, step, name);
    if step.RewrapRead? && step.name == name {
      StoredKeyParses(v.tables.secrets, v.tables.versions, name, step.version);
      assert PlacedRow(v.tables.secrets, v.tables.versions, VersionKey(name, step.version));
    }
    if step.Write? && step.command.PutVersion? && step.command.name == name && Apply(v.tables, node, step.command).1 == Ok {
      NewVersionKept(v, node, step.command, name);
    }
    forall w: I32 | 1 <= w <= u.tables.secrets[name].currentVersion ensures KeptSome(u, name, w) {
      if w <= v.tables.secrets[name].currentVersion {
        assert KeptSome(v, name, w);
        StepKeepsSome(v, node, step, name, w);
      }
    }
  }

  lemma {:induction false} RunKeepsAll(v: E.Vault, node: U64, steps: seq<E.Step>, last: E.Vault, name: string)
    requires AllKept(v, name) && E.Reaches(v, node, steps, last, name) && forall i :: 0 <= i < |steps| ==> Seals(steps[i], name)
    ensures AllKept(last, name)
    decreases |steps|
  {
    if steps != [] {
      StepKeepsAll(v, node, steps[0], name);
      RunKeepsAll(E.Do(v, node, steps[0]), node, steps[1..], last, name);
    }
  }

  lemma AllKeptOpens(v: E.Vault, name: string, w: I32)
    requires AllKept(v, name)
    ensures Opens(v.tables, name, w)
  {
    if VersionKey(name, w) in v.tables.versions {
      StoredKeyParses(v.tables.secrets, v.tables.versions, name, w);
      assert PlacedRow(v.tables.secrets, v.tables.versions, VersionKey(name, w));
      assert KeptSome(v, name, w);
      var dek, plain :| E.Kept(v, name, w, dek, plain);
      E.OpenableOpens(v.tables.versions[VersionKey(name, w)], name, w, dek, plain);
    }
  }

  // ----- the answer during and after the grace period -----

  /**
   * The grace period end to end. The value of a version superseded at `at` is accepted at that version while
   * now < at + grace and not from then on, through any rotations, updates, sweeps and re-wraps in between.
   */
  lemma OldValueAcceptedDuringGrace(v: E.Vault, node: U64, name: string, w: I32, row: VersionRecord, meta: MetaChange,
                                    at: I64, grace: I64, steps: seq<E.Step>, last: E.Vault, now: I64,
                                    dek: Dek, plain: Plaintext, presented: string)
    requires Good(v.tables) && E.Kept(v, name, w, dek, plain) && row.version == w + 1 && row.expiresAt.None?
    requires PutVersionEffect(v.tables, name, w, row, Some(GraceExpiryUnix(at, grace)), meta).1 == Ok
    requires E.Reaches(v.(tables := PutVersionEffect(v.tables, name, w, row, Some(GraceExpiryUnix(at, grace)), meta).0),
                       node, steps, last, name)
    requires forall i :: 0 <= i < |steps| ==> Timely(steps[i], now)
    ensures name in last.tables.secrets
    ensures Stores(last.tables.secrets[name].format, plain, presented) ==>
            (Accepts(last.tables, name, w, presented, now) <==> now < GraceExpiryUnix(at, grace))
  {
    var expiry := GraceExpiryUnix(at, grace);
    var c := PutVersion(name, w, row, Some(expiry), meta);
    var u := PutVersionEffect(v.tables, name, w, row, Some(expiry), meta).0;
    assert E.Do(v, node, E.Write(c)) == v.(tables := u);
    PutSupersedes(v.tables, name, w, row, expiry, meta, now);
    StepKeepsGood(v.tables, node, c);
    E.StepKeeps(v, node, E.Write(c), name, w, dek, plain);
    GraceRun(v.(tables := u), node, steps, last, name, w, dek, plain, expiry, now);
    if VersionKey(name, w) in last.tables.versions {
      E.OpenableOpens(last.tables.versions[VersionKey(name, w)], name, w, dek, plain);
    }
  }

  /**
   * The same as the answer of the request. During the grace period a check of the old value is answered as valid, at
   * its version or a newer one that stores it too; if no other version stores it, the answer is its version exactly
   * until supersede time plus grace, and invalid from then on.
   */
  lemma OldValueAnswered(v: E.Vault, node: U64, name: string, w: I32, row: VersionRecord, meta: MetaChange,
                         at: I64, grace: I64, steps: seq<E.Step>, last: E.Vault, now: I64,
                         dek: Dek, plain: Plaintext, presented: string, live: seq<VersionRecord>)
    requires AllKept(v, name) && E.Kept(v, name, w, dek, plain) && row.version == w + 1 && row.expiresAt.None? && IsSealed(row, name)
    requires PutVersionEffect(v.tables, name, w, row, Some(GraceExpiryUnix(at, grace)), meta).1 == Ok
    requires E.Reaches(v.(tables := PutVersionEffect(v.tables, name, w, row, Some(GraceExpiryUnix(at, grace)), meta).0),
                       node, steps, last, name)
    requires forall i :: 0 <= i < |steps| ==> Timely(steps[i], now) && Seals(steps[i], name)
    requires ReaderList(last.tables, name, now, live)
    ensures name in last.tables.secrets
    ensures var format := last.tables.secrets[name].format;
            Stores(format, plain, presented) ==>
              var a := FirstMatch(name, format, presented, live);
              && (now < GraceExpiryUnix(at, grace) ==> a.Valid? && a.version >= w)
              && ((forall x: I32 :: x != w ==> !Accepts(last.tables, name, x, presented, now)) ==>
                   a == if now < GraceExpiryUnix(at, grace) then Valid(w) else Invalid)
  {
    var c := PutVersion(name, w, row, Some(GraceExpiryUnix(at, grace)), meta);
    OldValueAcceptedDuringGrace(v, node, name, w, row, meta, at, grace, steps, last, now, dek, plain, presented);
    StepKeepsAll(v, node, E.Write(c), name);
    RunKeepsAll(v.(tables := Apply(v.tables, node, c).0), node, steps, last, name);
    AnswerFollows(last, name, w, presented, now, live);
  }

  lemma AnswerFollows(v: E.Vault, name: string, w: I32, presented: string, now: I64, live: seq<VersionRecord>)
    requires AllKept(v, name) && ReaderList(v.tables, name, now, live)
    ensures var a := FirstMatch(name, v.tables.secrets[name].format, presented, live);
            && (Accepts(v.tables, name, w, presented, now) ==> a.Valid? && a.version >= w)
            && ((forall x: I32 :: x != w ==> !Accepts(v.tables, name, x, presented, now)) ==>
                 a == if Accepts(v.tables, name, w, presented, now) then Valid(w) else Invalid)
  {
    forall x: I32 ensures Opens(v.tables, name, x) { AllKeptOpens(v, name, x); }
    var a := FirstMatch(name, v.tables.secrets[name].format, presented, live);
    RowsOpen(v, name, now, live);
    AnsweredOrInvalid(name, v.tables.secrets[name].format, presented, live);
    AnswerIsNewestMatch(v.tables, name, presented, now, live, w);
    if a.Valid? { AnswerIsNewestMatch(v.tables, name, presented, now, live, a.version); }
  }

  lemma RowsOpen(v: E.Vault, name: string, now: I64, live: seq<VersionRecord>)
    requires AllKept(v, name) && ReaderList(v.tables, name, now, live)
    ensures forall r :: r in live ==> E.OpenVersion(name, r.version, r).Some?
  {
    ReaderReturnsLiveList(v.tables, name, now, live);
    forall r | r in live ensures E.OpenVersion(name, r.version, r).Some? {
      assert LiveRow(v.tables.versions, name, now, r);
      AllKeptOpens(v, name, r.version);
    }
  }

  lemma {:induction false} AnsweredOrInvalid(name: string, format: SecretFormat, presented: string, rows: seq<VersionRecord>)
    ensures (forall r :: r in rows ==> E.OpenVersion(name, r.version, r).Some?) ==>
              var a := FirstMatch(name, format, presented, rows); a.Valid? || a == Invalid
  {
    if rows != [] {
      assert rows[0] in rows;
      AnsweredOrInvalid(name, format, presented, rows[1..]);
    }
  }
}
