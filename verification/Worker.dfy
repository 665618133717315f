/** The rotation worker: sweep expired versions, list what is due, rotate each. */
module Worker {
  import opened Base
  import opened Keys
  import opened Model
  import opened Effects
  import opened CurrentVersion
  import opened Grace
  import opened Scan
  import opened Store
  import opened Service
  import opened Rotation
  import opened Aside
  import opened Outcomes
  import E = Envelope

  predicate IsDue(s: SecretRecord, now: I64) {
    s.nextRotationAt.Some? && s.nextRotationAt.value <= now
  }

  /**
   * Everything a rotation takes from outside: a token, the key service, the clock, the external system, and what
   * others commit while it waits for the key service and, later, for the external system.
   */
  datatype Draw = Draw(
    token: string, sealing: Option<E.Fresh>, at: I64, applied: bool, during: seq<Command>, after: seq<Command>)

  // ----- one rotation with others writing -----

  /** The rotation's client, unless the request is refused or the key service fails. */
  function Begun(t: Tables, name: string, d: Draw): Option<Client> {
    if d.sealing.None? then None else BeginRotate(t, name, d.token, d.at, d.sealing.value)
  }

  predicate Applies(c: Client)
    requires c.Rotating?
  {
    HasTarget(c.secret) && c.plaintext.UserPass?
  }

  ghost function Rotated(t: Tables, node: U64, name: string, d: Draw): Tables {
    var begun, waited := Begun(t, name, d), Run(t, node, d.during);
    if begun.None? then waited else Concluded(waited, node, begun.value, d)
  }

  /** From the commit on. */
  ghost function Concluded(t: Tables, node: U64, c: Client, d: Draw): Tables
    requires c.Rotating?
  {
    var (u, outcome) := Apply(t, node, CommandOf(c));
    if outcome != Ok || !Applies(c) then u
    else if d.applied then Run(u, node, d.after)
    else Apply(Run(u, node, d.after), node, CommandOf(Retrying(c.name, c.row.version, d.at))).0
  }

  /** It began and won its commit. */
  ghost predicate Wins(t: Tables, node: U64, name: string, d: Draw) {
    Begun(t, name, d).Some? && Apply(Run(t, node, d.during), node, CommandOf(Begun(t, name, d).value)).1 == Ok
  }

  /** The request succeeds: it won, and reached the external system where there is one. */
  ghost predicate Completes(t: Tables, node: U64, name: string, d: Draw) {
    Wins(t, node, name, d) && (Applies(Begun(t, name, d).value) ==> d.applied)
  }

  // ----- what one rotation changes -----

  ghost predicate ShapedDraw(d: Draw) {
    AllShaped(d.during) && AllShaped(d.after)
  }

  /** It keeps the row invariant, whoever else writes. */
  lemma RotatedKeeps(t: Tables, node: U64, name: string, d: Draw)
    requires Good(t) && ShapedDraw(d)
    ensures Good(Rotated(t, node, name, d))
  {
    RunKeepsGood(t, node, d.during);
    if Begun(t, name, d).Some? {
      var c := Begun(t, name, d).value;
      BegunIsWellBegun(t, name, d.token, UpdateRequest(None, None, None, None, None, None), d.at, d.sealing.value);
      ConcludedKeeps(Run(t, node, d.during), node, c, d);
    }
  }

  lemma ConcludedKeeps(t: Tables, node: U64, c: Client, d: Draw)
    requires Good(t) && ShapedDraw(d) && c.Rotating? && WellBegun(c)
    ensures Good(Concluded(t, node, c, d))
  {
    var u, r := Apply(t, node, CommandOf(c)).0, Retrying(c.name, c.row.version, d.at);
    CommitsAreShaped(c);
    StepKeepsGood(t, node, CommandOf(c));
    RunKeepsGood(u, node, d.after);
    CommitsAreShaped(r);
    StepKeepsGood(Run(u, node, d.after), node, CommandOf(r));
  }

  /** Others leave the secret's record alone while the rotation waits. */
  ghost predicate RecordSpared(d: Draw, name: string) {
    AllLeaveRecord(d.during, name) && AllLeaveRecord(d.after, name)
  }

  /** The secret after a rotation that begins: right as before, and timed after the rotation's own time. */
  ghost predicate TimedAfter(before: SecretRecord, s: SecretRecord, at: I64) {
    && s.kind == before.kind && HasRightTimer(s) && s.nextRotationAt.Some?
    && (if at < I64_MAX then s.nextRotationAt.value > at else s.nextRotationAt.value == I64_MAX)
  }

  lemma CommitTimes(t: Tables, node: U64, c: Client)
    requires Good(t) && c.Rotating? && WellBegun(c) && c.name in t.secrets && t.secrets[c.name] == c.secret
    requires HasRightTimer(c.secret) && c.secret.kind == Automatic
    ensures var (u, outcome) := Apply(t, node, CommandOf(c));
            outcome == Ok && c.name in u.secrets && TimedAfter(c.secret, u.secrets[c.name], c.now)
            && u.secrets[c.name].currentVersion == c.row.version
  {
    assert CurrentRow(t.secrets, t.versions, c.name);
    var s, u := c.secret, Apply(t, node, CommandOf(c)).0;
    assert u.secrets == t.secrets[c.name := WithMeta(s.(currentVersion := c.row.version), CommandOf(c).meta)];
    assert u.secrets[c.name].nextRotationAt == Some(NextRotationUnix(c.now, s.rotationInterval.value));
  }

  lemma RetryTimes(t: Tables, node: U64, name: string, v: I32, at: I64, before: SecretRecord)
    requires name in t.secrets && TimedAfter(before, t.secrets[name], at) && before.kind == Automatic
    ensures var u := Apply(t, node, CommandOf(Retrying(name, v, at))).0;
            name in u.secrets && TimedAfter(before, u.secrets[name], at)
  {
    RetryDoes(t, node, name, v, at);
  }

  lemma ConcludedTimes(t: Tables, node: U64, c: Client, d: Draw)
    requires Good(t) && c.Rotating? && WellBegun(c) && c.name in t.secrets && t.secrets[c.name] == c.secret && c.now == d.at
    requires HasRightTimer(c.secret) && c.secret.kind == Automatic && AllLeaveRecord(d.after, c.name)
    ensures var u := Concluded(t, node, c, d); c.name in u.secrets && TimedAfter(c.secret, u.secrets[c.name], d.at)
  {
    CommitTimes(t, node, c);
    var u := Apply(t, node, CommandOf(c)).0;
    RunKeepsRecord(u, node, d.after, c.name);
    RetryTimes(Run(u, node, d.after), node, c.name, c.row.version, d.at, c.secret);
  }

  /** A rotation that begins on a secret others leave alone wins, and leaves a timer after its own time. */
  lemma RotatedTimer(t: Tables, node: U64, name: string, d: Draw)
    requires Good(t) && Begun(t, name, d).Some? && HasRightTimer(t.secrets[name])
    requires ShapedDraw(d) && RecordSpared(d, name)
    ensures var u := Rotated(t, node, name, d); name in u.secrets && TimedAfter(t.secrets[name], u.secrets[name], d.at)
    ensures Completes(t, node, name, d) <==> (Applies(Begun(t, name, d).value) ==> d.applied)
  {
    var waited := Run(t, node, d.during);
    BegunIsWellBegun(t, name, d.token, UpdateRequest(None, None, None, None, None, None), d.at, d.sealing.value);
    RunKeepsGood(t, node, d.during);
    RunKeepsRecord(t, node, d.during, name);
    ConcludedTimes(waited, node, Begun(t, name, d).value, d);
    CommitTimes(waited, node, Begun(t, name, d).value);
  }

  // ----- what it leaves alone -----

  /** The secret keeps its record, and its current row opens as before. */
  ghost predicate Untouched(t: Tables, u: Tables, m: string)
    requires m in t.secrets
  {
    var v := t.secrets[m].currentVersion;
    var key := VersionKey(m, v);
    && m in u.secrets && u.secrets[m] == t.secrets[m]
    && key in t.versions && key in u.versions && OpensAlike(t.versions[key], u.versions[key], m, v)
  }

  /** A write that leaves alone the secret as it was in `t`. */
  ghost predicate Spares(t: Tables, c: Command, m: string)
    requires m in t.secrets
  {
    LeavesRecord(c, m) && KeepsKey(t, c, m, t.secrets[m].currentVersion)
  }

  ghost predicate AllSpare(t: Tables, cs: seq<Command>, m: string)
    requires m in t.secrets
  {
    forall i :: 0 <= i < |cs| ==> Spares(t, cs[i], m)
  }

  lemma SparedStep(t0: Tables, t: Tables, node: U64, c: Command, m: string)
    requires Good(t) && m in t0.secrets && Untouched(t0, t, m) && Spares(t0, c, m)
    ensures Untouched(t0, Apply(t, node, c).0, m)
  {
    var v := t0.secrets[m].currentVersion;
    assert CurrentRow(t.secrets, t.versions, m);
    RecordStays(t, node, c, m);
    WriteKeepsRow(t, node, c, m, v, I64_MAX);
  }

  lemma {:induction false} SparedRun(t0: Tables, t: Tables, node: U64, cs: seq<Command>, m: string)
    requires Good(t) && m in t0.secrets && Untouched(t0, t, m) && AllSpare(t0, cs, m)
    ensures Good(Run(t, node, cs)) && Untouched(t0, Run(t, node, cs), m)
  {
    if cs != [] {
      var init, c := cs[..|cs| - 1], cs[|cs| - 1];
      assert Spares(t0, c, m);
      SparedRun(t0, t, node, init, m);
      SparedStep(t0, Run(t, node, init), node, c, m);
      StepKeepsGood(Run(t, node, init), node, c);
    }
  }

  ghost predicate DrawSpares(t: Tables, d: Draw, m: string)
    requires m in t.secrets
  {
    AllSpare(t, d.during, m) && AllSpare(t, d.after, m)
  }

  /** A rotation leaves every other secret alone that the others do. */
  lemma RotatedElsewhere(t0: Tables, t: Tables, node: U64, name: string, d: Draw, m: string)
    requires Good(t) && m in t0.secrets && m != name && Untouched(t0, t, m) && DrawSpares(t0, d, m)
    ensures Untouched(t0, Rotated(t, node, name, d), m)
  {
    SparedRun(t0, t, node, d.during, m);
    if Begun(t, name, d).Some? {
      var c := Begun(t, name, d).value;
      BegunIsWellBegun(t, name, d.token, UpdateRequest(None, None, None, None, None, None), d.at, d.sealing.value);
      ConcludedElsewhere(t0, Run(t, node, d.during), node, c, d, m);
    }
  }

  lemma ConcludedElsewhere(t0: Tables, t: Tables, node: U64, c: Client, d: Draw, m: string)
    requires Good(t) && m in t0.secrets && Untouched(t0, t, m) && AllSpare(t0, d.after, m)
    requires c.Rotating? && WellBegun(c) && c.name != m
    ensures Untouched(t0, Concluded(t, node, c, d), m)
  {
    var u, r := Apply(t, node, CommandOf(c)).0, Retrying(c.name, c.row.version, d.at);
    CommitsAreShaped(c);
    SparedStep(t0, t, node, CommandOf(c), m);
    StepKeepsGood(t, node, CommandOf(c));
    SparedRun(t0, u, node, d.after, m);
    SparedStep(t0, Run(u, node, d.after), node, CommandOf(r), m);
  }

  /** The record alone stays under weaker conditions. */
  lemma RecordElsewhere(t: Tables, node: U64, name: string, d: Draw, m: string)
    requires m in t.secrets && m != name && RecordSpared(d, m)
    ensures var u := Rotated(t, node, name, d); m in u.secrets && u.secrets[m] == t.secrets[m]
  {
    RunKeepsRecord(t, node, d.during, m);
    if Begun(t, name, d).Some? {
      var c := Begun(t, name, d).value;
      BegunIsWellBegun(t, name, d.token, UpdateRequest(None, None, None, None, None, None), d.at, d.sealing.value);
      CommitsAreShaped(c);
      var waited := Run(t, node, d.during);
      var u := Apply(waited, node, CommandOf(c)).0;
      RecordStays(waited, node, CommandOf(c), m);
      RunKeepsRecord(u, node, d.after, m);
      RecordStays(Run(u, node, d.after), node, CommandOf(Retrying(name, c.row.version, d.at)), m);
    }
  }

  /** Whether a rotation begins depends only on what others and other rotations leave alone. */
  lemma BegunElsewhere(t: Tables, u: Tables, m: string, d: Draw)
    requires m in t.secrets && Untouched(t, u, m)
    ensures Begun(t, m, d).Some? <==> Begun(u, m, d).Some?
  {
  }

  // ----- listing what is due -----

  function DueIn(secrets: Secrets, keys: seq<string>, now: I64): seq<SecretRecord>
    requires forall k :: k in keys ==> k in secrets
  {
    if keys == [] then []
    else
      var last := secrets[keys[|keys| - 1]];
      var before := DueIn(secrets, keys[..|keys| - 1], now);
      if IsDue(last, now) then before + [last] else before
  }

  method DueRotations(t: Tables, now: I64) returns (due: seq<SecretRecord>)
    ensures due == DueIn(t.secrets, StringKeys(t.secrets.Keys), now)
  {
    var order := InOrder(t.secrets.Keys);
    due := [];
    for i := 0 to |order|
      invariant due == DueIn(t.secrets, order[..i], now)
    {
      assert order[..i + 1][..i] == order[..i];
      if IsDue(t.secrets[order[i]], now) { due := due + [t.secrets[order[i]]]; }
    }
    assert order[..|order|] == order;
  }

  ghost predicate DistinctNames(due: seq<SecretRecord>) {
    forall i, j :: 0 <= i < j < |due| ==> due[i].name != due[j].name
  }

  /** Exactly the due secrets, each once. */
  lemma {:induction false} DueIsExact(t: Tables, keys: seq<string>, now: I64)
    requires Good(t) && (forall k :: k in keys ==> k in t.secrets)
    requires forall i, j :: 0 <= i < j < |keys| ==> keys[i] != keys[j]
    ensures var due := DueIn(t.secrets, keys, now);
            && DistinctNames(due)
            && (forall s :: s in due <==> s.name in keys && t.secrets[s.name] == s && IsDue(s, now))
  {
    if keys != [] {
      var init, last := keys[..|keys| - 1], keys[|keys| - 1];
      assert keys == init + [last] && last !in init;
      DueIsExact(t, init, now);
      assert CurrentRow(t.secrets, t.versions, last);
    }
  }

  lemma AllDueListed(t: Tables, now: I64)
    requires Good(t)
    ensures var due := DueIn(t.secrets, StringKeys(t.secrets.Keys), now);
            && DistinctNames(due)
            && (forall s :: s in due <==> s.name in t.secrets && t.secrets[s.name] == s && s.nextRotationAt.Some? && s.nextRotationAt.value <= now)
  {
    StringKeysAscend(t.secrets.Keys);
    AscendingDiffer(StringKeys(t.secrets.Keys), LexLe);
    DueIsExact(t, StringKeys(t.secrets.Keys), now);
  }

  /** What keeps a rotation from beginning: the key service fails, the versions are used up, or the login is unreadable. */
  predicate CannotRotate(t: Tables, n: string, d: Draw)
    requires n in t.secrets
  {
    var s := t.secrets[n];
    || d.sealing.None?
    || s.currentVersion == I32_MAX
    || (s.format == Userpass && LoadUserpass(t, n, s.currentVersion).None?)
  }

  /** The list ignores the kind, and needs no check of it: what is due is automatic, and only those causes refuse it. */
  lemma DueIsRotatable(t: Tables, n: string, d: Draw, now: I64)
    requires n in t.secrets && HasRightTimer(t.secrets[n]) && IsDue(t.secrets[n], now)
    ensures t.secrets[n].kind == Automatic
    ensures Begun(t, n, d).None? <==> CannotRotate(t, n, d)
  {
  }

  // ----- a tick -----

  ghost predicate Named(due: seq<SecretRecord>, i: nat, m: string) {
    exists j :: 0 <= j < i <= |due| && due[j].name == m
  }

  /** Nobody but the worker writes to the secret during the tick, re-wraps under its own key aside. */
  ghost predicate Spared(t0: Tables, early: seq<Command>, draws: nat -> Draw, m: string) {
    && m in t0.secrets && AllSpare(t0, early, m)
    && forall i {:trigger draws(i)} :: DrawSpares(t0, draws(i), m)
  }

  /** After the first `i` rotations: those secrets are due only if their rotation did not begin; the rest wait. */
  ghost predicate Progress(t0: Tables, t: Tables, due: seq<SecretRecord>, i: nat, early: seq<Command>, draws: nat -> Draw, now: I64) {
    Good(t) && Waiting(t0, t, due, i, early, draws) && Done(t0, t, due, i, early, draws, now)
  }

  ghost predicate Waiting(t0: Tables, t: Tables, due: seq<SecretRecord>, i: nat, early: seq<Command>, draws: nat -> Draw) {
    forall m {:trigger Spared(t0, early, draws, m)} ::
      Spared(t0, early, draws, m) && !Named(due, i, m) ==> Untouched(t0, t, m)
  }

  ghost predicate Done(t0: Tables, t: Tables, due: seq<SecretRecord>, i: nat, early: seq<Command>, draws: nat -> Draw, now: I64) {
    forall j {:trigger Settled(t0, t, due[j].name, draws(j), now)} ::
      0 <= j < i <= |due| && Spared(t0, early, draws, due[j].name) ==> Settled(t0, t, due[j].name, draws(j), now)
  }

  ghost predicate Settled(t0: Tables, t: Tables, n: string, d: Draw, now: I64) {
    && n in t.secrets && HasRightTimer(t.secrets[n])
    && (IsDue(t.secrets[n], now) <==> now == I64_MAX || Begun(t0, n, d).None?)
  }

  lemma SparedRecords(t: Tables, cs: seq<Command>, m: string)
    requires m in t.secrets && AllSpare(t, cs, m)
    ensures AllLeaveRecord(cs, m)
  {
    forall i | 0 <= i < |cs| ensures LeavesRecord(cs[i], m) { assert Spares(t, cs[i], m); }
  }

  lemma RotatedSettles(t0: Tables, t: Tables, node: U64, n: string, d: Draw, now: I64)
    requires Good(t) && n in t0.secrets && HasRightTimer(t0.secrets[n]) && IsDue(t0.secrets[n], now)
    requires Untouched(t0, t, n) && DrawSpares(t0, d, n) && ShapedDraw(d) && d.at >= now
    ensures Settled(t0, Rotated(t, node, n, d), n, d, now)
  {
    BegunElsewhere(t0, t, n, d);
    SparedRecords(t0, d.during, n);
    SparedRecords(t0, d.after, n);
    if Begun(t, n, d).Some? { RotatedTimer(t, node, n, d); } else { RunKeepsRecord(t, node, d.during, n); }
  }

  lemma ProgressStep(t0: Tables, t: Tables, node: U64, due: seq<SecretRecord>, i: nat, early: seq<Command>,
                     draws: nat -> Draw, now: I64)
    requires Progress(t0, t, due, i, early, draws, now) && i < |due| && DistinctNames(due)
    requires draws(i).at >= now && ShapedDraw(draws(i)) && Scheduled(t0.secrets)
    requires Spared(t0, early, draws, due[i].name) ==> IsDue(t0.secrets[due[i].name], now)
    ensures Progress(t0, Rotated(t, node, due[i].name, draws(i)), due, i + 1, early, draws, now)
  {
    var n, d := due[i].name, draws(i);
    assert !Named(due, i, n);
    RotatedKeeps(t, node, n, d);
    WaitingStep(t0, t, node, due, i, early, draws);
    if Spared(t0, early, draws, n) {
      assert HasRightTimer(t0.secrets[n]) && DrawSpares(t0, d, n);
      RotatedSettles(t0, t, node, n, d, now);
    }
    DoneStep(t0, t, node, due, i, early, draws, now);
  }

  lemma WaitingStep(t0: Tables, t: Tables, node: U64, due: seq<SecretRecord>, i: nat, early: seq<Command>, draws: nat -> Draw)
    requires Good(t) && Waiting(t0, t, due, i, early, draws) && i < |due|
    ensures Waiting(t0, Rotated(t, node, due[i].name, draws(i)), due, i + 1, early, draws)
  {
    var n, d := due[i].name, draws(i);
    forall m | Spared(t0, early, draws, m) && !Named(due, i + 1, m) ensures Untouched(t0, Rotated(t, node, n, d), m) {
      assert due[i].name != m && !Named(due, i, m);
      assert DrawSpares(t0, d, m);
      RotatedElsewhere(t0, t, node, n, d, m);
    }
  }

  lemma DoneStep(t0: Tables, t: Tables, node: U64, due: seq<SecretRecord>, i: nat, early: seq<Command>,
                 draws: nat -> Draw, now: I64)
    requires Done(t0, t, due, i, early, draws, now) && i < |due| && DistinctNames(due)
    requires Spared(t0, early, draws, due[i].name) ==>
               Settled(t0, Rotated(t, node, due[i].name, draws(i)), due[i].name, draws(i), now)
    ensures Done(t0, Rotated(t, node, due[i].name, draws(i)), due, i + 1, early, draws, now)
  {
    var n, d := due[i].name, draws(i);
    forall j | 0 <= j < i && Spared(t0, early, draws, due[j].name)
      ensures Settled(t0, Rotated(t, node, n, d), due[j].name, draws(j), now)
    {
      assert Settled(t0, t, due[j].name, draws(j), now) && DrawSpares(t0, d, due[j].name);
      SettledTwice(t0, t, node, n, d, due[j].name, draws(j), now);
    }
  }

  lemma SettledTwice(t0: Tables, t: Tables, node: U64, n: string, d: Draw, m: string, e: Draw, now: I64)
    requires m != n && Settled(t0, t, m, e, now) && m in t0.secrets && DrawSpares(t0, d, m)
    ensures Settled(t0, Rotated(t, node, n, d), m, e, now)
  {
    SparedRecords(t0, d.during, m);
    SparedRecords(t0, d.after, m);
    RecordElsewhere(t, node, n, d, m);
  }

  /** The secret was listed, and one of those causes held for its rotation. */
  ghost predicate Refused(t: Tables, due: seq<SecretRecord>, draws: nat -> Draw, n: string)
    requires n in t.secrets
  {
    exists i :: 0 <= i < |due| && due[i].name == n && CannotRotate(t, n, draws(i))
  }

  /** What the tick leaves of a secret that nobody else wrote to. */
  ghost predicate Served(t0: Tables, t: Tables, due: seq<SecretRecord>, draws: nat -> Draw, now: I64, n: string)
    requires n in t0.secrets
  {
    && n in t.secrets && HasRightTimer(t.secrets[n])
    && (IsDue(t.secrets[n], now) <==> IsDue(t0.secrets[n], now) && (now == I64_MAX || Refused(t0, due, draws, n)))
  }

  /** Among the secrets nobody else writes to, exactly the due ones are listed. */
  ghost predicate ListsDue(t0: Tables, due: seq<SecretRecord>, early: seq<Command>, draws: nat -> Draw, now: I64) {
    forall m {:trigger Spared(t0, early, draws, m)} ::
      Spared(t0, early, draws, m) ==> (Named(due, |due|, m) <==> IsDue(t0.secrets[m], now))
  }

  lemma ProgressDone(t0: Tables, t: Tables, due: seq<SecretRecord>, early: seq<Command>, draws: nat -> Draw, now: I64, n: string)
    requires Progress(t0, t, due, |due|, early, draws, now) && DistinctNames(due) && Scheduled(t0.secrets)
    requires ListsDue(t0, due, early, draws, now) && Spared(t0, early, draws, n)
    ensures Served(t0, t, due, draws, now, n)
  {
    assert HasRightTimer(t0.secrets[n]);
    if IsDue(t0.secrets[n], now) {
      var i :| 0 <= i < |due| && due[i].name == n;
      SettledMeans(t0, t, due, early, draws, now, i);
    } else {
      assert !Named(due, |due|, n) && Untouched(t0, t, n);
    }
  }

  lemma SettledMeans(t0: Tables, t: Tables, due: seq<SecretRecord>, early: seq<Command>, draws: nat -> Draw, now: I64, i: nat)
    requires Done(t0, t, due, |due|, early, draws, now) && DistinctNames(due) && i < |due|
    requires Spared(t0, early, draws, due[i].name)
    requires HasRightTimer(t0.secrets[due[i].name]) && IsDue(t0.secrets[due[i].name], now)
    ensures Served(t0, t, due, draws, now, due[i].name)
  {
    assert Settled(t0, t, due[i].name, draws(i), now);
    DueIsRotatable(t0, due[i].name, draws(i), now);
    if Refused(t0, due, draws, due[i].name) {
      var j :| 0 <= j < |due| && due[j].name == due[i].name && CannotRotate(t0, due[i].name, draws(j));
      assert i == j;
    }
  }

  // ----- up to the listing -----

  /** The sweep and whatever others commit before the listing. */
  ghost function Opened(t0: Tables, node: U64, sweepAt: I64, early: seq<Command>): Tables {
    Run(Apply(t0, node, ExpireGraceVersions(sweepAt)).0, node, early)
  }

  lemma OpenedGood(t0: Tables, node: U64, sweepAt: I64, early: seq<Command>)
    requires Good(t0) && AllShaped(early)
    ensures Good(Opened(t0, node, sweepAt, early))
  {
    StepKeepsGood(t0, node, ExpireGraceVersions(sweepAt));
    RunKeepsGood(Apply(t0, node, ExpireGraceVersions(sweepAt)).0, node, early);
  }

  lemma OpenedUntouched(t0: Tables, node: U64, sweepAt: I64, early: seq<Command>, m: string)
    requires Good(t0) && m in t0.secrets && AllSpare(t0, early, m)
    ensures Untouched(t0, Opened(t0, node, sweepAt, early), m)
  {
    assert CurrentRow(t0.secrets, t0.versions, m);
    assert Untouched(t0, t0, m);
    SparedStep(t0, t0, node, ExpireGraceVersions(sweepAt), m);
    StepKeepsGood(t0, node, ExpireGraceVersions(sweepAt));
    SparedRun(t0, Apply(t0, node, ExpireGraceVersions(sweepAt)).0, node, early, m);
  }

  lemma Starts(t0: Tables, t: Tables, node: U64, sweepAt: I64, due: seq<SecretRecord>, early: seq<Command>,
               draws: nat -> Draw, now: I64)
    requires Good(t0) && AllShaped(early) && t == Opened(t0, node, sweepAt, early)
    requires due == DueIn(t.secrets, StringKeys(t.secrets.Keys), now)
    ensures Good(t) && DistinctNames(due)
    ensures Progress(t0, t, due, 0, early, draws, now) && ListsDue(t0, due, early, draws, now)
  {
    OpenedGood(t0, node, sweepAt, early);
    AllDueListed(t, now);
    forall m | Spared(t0, early, draws, m)
      ensures Untouched(t0, t, m) && (Named(due, |due|, m) <==> IsDue(t0.secrets[m], now))
    {
      OpenedUntouched(t0, node, sweepAt, early, m);
      ListedIff(t, due, now, m);
    }
  }

  lemma ListedIff(t: Tables, due: seq<SecretRecord>, now: I64, m: string)
    requires Good(t) && m in t.secrets && due == DueIn(t.secrets, StringKeys(t.secrets.Keys), now)
    ensures Named(due, |due|, m) <==> IsDue(t.secrets[m], now)
  {
    AllDueListed(t, now);
    assert CurrentRow(t.secrets, t.versions, m);
    if IsDue(t.secrets[m], now) {
      assert t.secrets[m] in due;
    } else {
      forall i | 0 <= i < |due| ensures due[i].name != m { assert due[i] in due; }
    }
  }

  // ----- what the sweep removed -----

  /** Every row of the secret whose time was up at `sweepAt` is gone, and the secret has not gone back. */
  ghost predicate Gone(t0: Tables, t: Tables, sweepAt: I64, m: string)
    requires m in t0.secrets
  {
    && m in t.secrets && t0.secrets[m].currentVersion <= t.secrets[m].currentVersion
    && forall v: I32 {:trigger VersionKey(m, v)} ::
         TimeUp(t0.versions, VersionKey(m, v), sweepAt) ==> VersionKey(m, v) !in t.versions
  }

  ghost predicate TimeUp(versions: Versions, key: string, now: I64) {
    key in versions && versions[key].expiresAt.Some? && versions[key].expiresAt.value <= now
  }

  /** A command of the worker for this secret, or one that leaves its record alone. */
  ghost predicate AddsOnlyNewer(c: Command, m: string) {
    || LeavesRecord(c, m)
    || (c.PutVersion? && c.name == m && c.row.version == c.expectedCurrent + 1)
    || (c.UpdateMeta? && c.name == m)
  }

  lemma NoRowAddedAside(t: Tables, node: U64, c: Command, m: string, v: I32)
    requires ValidName(m) && m in t.secrets && v >= 0 && LeavesRecord(c, m)
    ensures VersionKey(m, v) in Apply(t, node, c).0.versions ==> VersionKey(m, v) in t.versions
  {
    match c
    case CreateSecret(s, row) => CreateElsewhere(t, s, row, m, v);
    case PutVersion(n, expected, row, e, meta) => PutAside(t, n, expected, row, e, meta, m, v);
    case RestoreDatabase(_) =>
    case _ => OthersAddNoKeys(t, node, c);
  }

  lemma OwnPutAddsNewer(t: Tables, m: string, expected: I32, row: VersionRecord, e: OptTime, meta: MetaChange, v: I32)
    requires m in t.secrets && v <= t.secrets[m].currentVersion && row.version == expected + 1
    ensures var u := PutVersionEffect(t, m, expected, row, e, meta).0;
            && m in u.secrets && t.secrets[m].currentVersion <= u.secrets[m].currentVersion
            && (VersionKey(m, v) in u.versions ==> VersionKey(m, v) in t.versions)
  {
    if v != row.version { KeysDiffer(m, v, m, row.version); }
  }

  lemma NoOldRowAdded(t: Tables, node: U64, c: Command, m: string, v: I32)
    requires Good(t) && m in t.secrets && AddsOnlyNewer(c, m) && 1 <= v <= t.secrets[m].currentVersion
    ensures var u := Apply(t, node, c).0;
            && m in u.secrets && t.secrets[m].currentVersion <= u.secrets[m].currentVersion
            && (VersionKey(m, v) in u.versions ==> VersionKey(m, v) in t.versions)
  {
    assert CurrentRow(t.secrets, t.versions, m);
    if LeavesRecord(c, m) {
      RecordStays(t, node, c, m);
      NoRowAddedAside(t, node, c, m, v);
    } else if c.PutVersion? {
      OwnPutAddsNewer(t, m, c.expectedCurrent, c.row, c.supersedeExpiresAt, c.meta, v);
    } else {
      UpdateTouchesOne(t, m, c.expectedCurrent, c.meta);
    }
  }

  lemma GoneStep(t0: Tables, t: Tables, node: U64, c: Command, sweepAt: I64, m: string)
    requires Good(t0) && Good(t) && m in t0.secrets && Gone(t0, t, sweepAt, m) && AddsOnlyNewer(c, m)
    ensures Gone(t0, Apply(t, node, c).0, sweepAt, m)
  {
    var u := Apply(t, node, c).0;
    assert CurrentRow(t.secrets, t.versions, m);
    NoOldRowAdded(t, node, c, m, t.secrets[m].currentVersion);
    forall v: I32 | VersionKey(m, v) in t0.versions && VersionKey(m, v) in u.versions
      ensures VersionKey(m, v) in t.versions
    {
      StoredInRange(t0, m, v);
      NoOldRowAdded(t, node, c, m, v);
    }
  }

  lemma {:induction false} GoneRun(t0: Tables, t: Tables, node: U64, cs: seq<Command>, sweepAt: I64, m: string)
    requires Good(t0) && Good(t) && m in t0.secrets && Gone(t0, t, sweepAt, m) && AllLeaveRecord(cs, m)
    ensures Good(Run(t, node, cs)) && Gone(t0, Run(t, node, cs), sweepAt, m)
  {
    if cs != [] {
      var init, c := cs[..|cs| - 1], cs[|cs| - 1];
      GoneRun(t0, t, node, init, sweepAt, m);
      GoneStep(t0, Run(t, node, init), node, c, sweepAt, m);
      StepKeepsGood(Run(t, node, init), node, c);
      RejectionChangesNothing(Run(t, node, init), node, c);
    }
  }

  lemma GoneConcluded(t0: Tables, t: Tables, node: U64, c: Client, d: Draw, sweepAt: I64, m: string)
    requires Good(t0) && Good(t) && m in t0.secrets && Gone(t0, t, sweepAt, m) && AllLeaveRecord(d.after, m)
    requires c.Rotating? && WellBegun(c)
    ensures Gone(t0, Concluded(t, node, c, d), sweepAt, m)
  {
    var u, r := Apply(t, node, CommandOf(c)).0, Retrying(c.name, c.row.version, d.at);
    CommitsAreShaped(c);
    CommitsAreShaped(r);
    GoneStep(t0, t, node, CommandOf(c), sweepAt, m);
    StepKeepsGood(t, node, CommandOf(c));
    GoneRun(t0, u, node, d.after, sweepAt, m);
    GoneStep(t0, Run(u, node, d.after), node, CommandOf(r), sweepAt, m);
  }

  /** No rotation brings such a row back. */
  lemma GoneRotated(t0: Tables, t: Tables, node: U64, name: string, d: Draw, sweepAt: I64, m: string)
    requires Good(t0) && Good(t) && m in t0.secrets && Gone(t0, t, sweepAt, m) && RecordSpared(d, m)
    ensures Gone(t0, Rotated(t, node, name, d), sweepAt, m)
  {
    GoneRun(t0, t, node, d.during, sweepAt, m);
    if Begun(t, name, d).Some? {
      BegunIsWellBegun(t, name, d.token, UpdateRequest(None, None, None, None, None, None), d.at, d.sealing.value);
      GoneConcluded(t0, Run(t, node, d.during), node, Begun(t, name, d).value, d, sweepAt, m);
    }
  }

  lemma GoneOpened(t0: Tables, node: U64, sweepAt: I64, early: seq<Command>, m: string)
    requires Good(t0) && m in t0.secrets && AllSpare(t0, early, m)
    ensures Gone(t0, Opened(t0, node, sweepAt, early), sweepAt, m)
  {
    var swept := Apply(t0, node, ExpireGraceVersions(sweepAt)).0;
    StepKeepsGood(t0, node, ExpireGraceVersions(sweepAt));
    SparedRecords(t0, early, m);
    assert Gone(t0, swept, sweepAt, m);
    GoneRun(t0, swept, node, early, sweepAt, m);
  }

  ghost predicate AllGone(t0: Tables, t: Tables, sweepAt: I64, early: seq<Command>, draws: nat -> Draw) {
    forall m {:trigger Spared(t0, early, draws, m)} :: Spared(t0, early, draws, m) ==> Gone(t0, t, sweepAt, m)
  }

  lemma AllGoneStarts(t0: Tables, node: U64, sweepAt: I64, early: seq<Command>, draws: nat -> Draw)
    requires Good(t0)
    ensures AllGone(t0, Opened(t0, node, sweepAt, early), sweepAt, early, draws)
  {
    forall m | Spared(t0, early, draws, m) ensures Gone(t0, Opened(t0, node, sweepAt, early), sweepAt, m) {
      GoneOpened(t0, node, sweepAt, early, m);
    }
  }

  lemma AllGoneStep(t0: Tables, t: Tables, node: U64, name: string, i: nat, sweepAt: I64, early: seq<Command>, draws: nat -> Draw)
    requires Good(t0) && Good(t) && AllGone(t0, t, sweepAt, early, draws)
    ensures AllGone(t0, Rotated(t, node, name, draws(i)), sweepAt, early, draws)
  {
    forall m | Spared(t0, early, draws, m) ensures Gone(t0, Rotated(t, node, name, draws(i)), sweepAt, m) {
      assert DrawSpares(t0, draws(i), m);
      SparedRecords(t0, draws(i).during, m);
      SparedRecords(t0, draws(i).after, m);
      GoneRotated(t0, t, node, name, draws(i), sweepAt, m);
    }
  }

  // ----- nobody else at all -----

  ghost predicate AreQuiet(draws: nat -> Draw) {
    forall i :: draws(i).during == [] && draws(i).after == []
  }

  lemma QuietSpares(t0: Tables, draws: nat -> Draw, m: string)
    requires AreQuiet(draws) && m in t0.secrets
    ensures Spared(t0, [], draws, m)
  {
  }

  lemma RotatedKeepsNames(t: Tables, node: U64, name: string, d: Draw)
    requires d.during == [] && d.after == []
    ensures Rotated(t, node, name, d).secrets.Keys == t.secrets.Keys
  {
    if Begun(t, name, d).Some? {
      var c := Begun(t, name, d).value;
      CommitTouchesOne(t, node, c);
      CommitTouchesOne(Apply(t, node, CommandOf(c)).0, node, Retrying(name, c.row.version, d.at));
    }
  }

  class RotationWorker {
    const store: RedbStore

    constructor (store: RedbStore)
      ensures this.store == store
    {
      this.store := store;
    }

    /** One rotation: read, wait for the key service, commit, wait for the external system, and maybe schedule a retry. */
    method Rotate(name: string, d: Draw) returns (done: bool)
      modifies store
      ensures store.tables == Rotated(old(store.tables), store.nodeId, name, d)
      ensures done <==> Completes(old(store.tables), store.nodeId, name, d)
    {
      var begun := if d.sealing.None? then None else BeginRotate(store.tables, name, d.token, d.at, d.sealing.value);
      store.ApplyAll(d.during);
      if begun.None? { return false; }
      var c := begun.value;
      var outcome := store.ApplyOne(CommandOf(c));
      if outcome != Ok { return false; }
      if Applies(c) {
        store.ApplyAll(d.after);
        if !d.applied {
          var o := store.ApplyOne(CommandOf(Retrying(name, c.row.version, d.at)));
          return false;
        }
      }
      done := true;
    }

    /**
     * A leader's tick, others committing `early` before the listing and what the draws say during each rotation. A
     * secret that nobody else wrote to is due at the tick's time afterwards exactly when it was due before and its
     * rotation could not begin: one rotation each, retries of failed applies included, and no one else moved. Its rows
     * whose time was up are gone.
     */
    method Tick(sweepAt: I64, now: I64, early: seq<Command>, draws: nat -> Draw) returns (due: seq<SecretRecord>)
      requires Good(store.tables) && Scheduled(store.tables.secrets) && AllShaped(early)
      requires forall i :: draws(i).at >= now && ShapedDraw(draws(i))
      modifies store
      ensures Good(store.tables) && DistinctNames(due)
      ensures forall n :: Spared(old(store.tables), early, draws, n) ==>
                && (Named(due, |due|, n) <==> IsDue(old(store.tables).secrets[n], now))
                && Served(old(store.tables), store.tables, due, draws, now, n)
                && Gone(old(store.tables), store.tables, sweepAt, n)
      ensures early == [] && AreQuiet(draws) ==>
                && store.tables.secrets.Keys == old(store.tables).secrets.Keys && Scheduled(store.tables.secrets)
                && due == DueIn(old(store.tables).secrets, StringKeys(old(store.tables).secrets.Keys), now)
    {
      ghost var t0 := store.tables;
      ghost var quiet := early == [] && AreQuiet(draws);
      var swept := store.ApplyOne(ExpireGraceVersions(sweepAt));
      store.ApplyAll(early);
      due := DueRotations(store.tables, now);
      Starts(t0, store.tables, store.nodeId, sweepAt, due, early, draws, now);
      AllGoneStarts(t0, store.nodeId, sweepAt, early, draws);
      for i := 0 to |due|
        invariant AllGone(t0, store.tables, sweepAt, early, draws)
        invariant Progress(t0, store.tables, due, i, early, draws, now)
        invariant quiet ==> store.tables.secrets.Keys == t0.secrets.Keys
      {
        assert Named(due, |due|, due[i].name);
        ProgressStep(t0, store.tables, store.nodeId, due, i, early, draws, now);
        AllGoneStep(t0, store.tables, store.nodeId, due[i].name, i, sweepAt, early, draws);
        if quiet { RotatedKeepsNames(store.tables, store.nodeId, due[i].name, draws(i)); }
        var done := Rotate(due[i].name, draws(i));
      }
      forall n | Spared(t0, early, draws, n) ensures Served(t0, store.tables, due, draws, now, n) {
        ProgressDone(t0, store.tables, due, early, draws, now, n);
      }
      if quiet {
        forall n | n in store.tables.secrets ensures HasRightTimer(store.tables.secrets[n]) { QuietSpares(t0, draws, n); }
      }
    }
  }
}
