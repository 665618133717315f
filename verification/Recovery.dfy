/**
 * A secret that logs in to the external system as itself, over runs in which applies fail: which rotations
 * still find the password the external system kept.
 */
module Recovery {
  import opened Base
  import opened Keys
  import opened Model
  import opened Effects
  import opened CurrentVersion
  import opened Grace
  import opened Readers
  import opened Logins
  import opened Service
  import opened Rotation
  import opened Worker
  import opened Outcomes
  import opened Aside
  import E = Envelope

  // ----- the runs -----

  datatype Event =
    | FailedRotation(draw: Draw)
    | Elsewhere(command: Command)

  /**
   * A write by someone else that leaves the secret's record alone. Re-wraps of its rows carry the key they have,
   * and sweeps run with a clock no later than `now`.
   */
  ghost predicate Bystander(t: Tables, c: Command, name: string, now: I64) {
    && LeavesRecord(c, name) && (c.ExpireGraceVersions? ==> c.now <= now)
    && (c.RewrapVersion? ==> KeepsKey(t, c, name, c.version))
  }

  ghost predicate Bystanders(t: Tables, node: U64, cs: seq<Command>, name: string, now: I64) {
    cs == [] ||
    (Bystanders(t, node, cs[..|cs| - 1], name, now) && Bystander(Run(t, node, cs[..|cs| - 1]), cs[|cs| - 1], name, now))
  }

  /** A rotation that seals a fresh token and does not reach the external system, less than a grace period before `now`. */
  predicate Fails(d: Draw, held: Plaintext, grace: I64, now: I64) {
    Seals(d, held) && !d.applied && now < SaturatingAdd(d.at, grace)
  }

  predicate Seals(d: Draw, held: Plaintext) {
    d.sealing.Some? && |d.sealing.value.nonce| == E.NONCE_LEN && d.token != Password(held)
  }

  /** The tables once a rotation has committed and turns to the external system. */
  ghost function Committed(t: Tables, node: U64, name: string, d: Draw): Tables {
    var waited := Run(t, node, d.during);
    if Begun(t, name, d).None? then waited else Apply(waited, node, CommandOf(Begun(t, name, d).value)).0
  }

  /** Others are bystanders while the rotation waits, both times. */
  ghost predicate Undisturbed(t: Tables, node: U64, name: string, d: Draw, now: I64) {
    Bystanders(t, node, d.during, name, now) && Bystanders(Committed(t, node, name, d), node, d.after, name, now)
  }

  function Password(p: Plaintext): string {
    match p
    case RawValue(v) => v
    case UserPass(_, password) => password
  }

  ghost predicate Happens(t: Tables, node: U64, name: string, e: Event, held: Plaintext, grace: I64, now: I64) {
    match e
    case FailedRotation(d) => Fails(d, held, grace, now) && Undisturbed(t, node, name, d, now)
    case Elsewhere(c) => Bystander(t, c, name, now)
  }

  ghost function Next(t: Tables, node: U64, name: string, e: Event): Tables {
    match e
    case FailedRotation(d) => Rotated(t, node, name, d)
    case Elsewhere(c) => Apply(t, node, c).0
  }

  ghost function Play(t: Tables, node: U64, name: string, events: seq<Event>): Tables {
    if events == [] then t
    else Next(Play(t, node, name, events[..|events| - 1]), node, name, events[|events| - 1])
  }

  ghost predicate AllHappen(t: Tables, node: U64, name: string, events: seq<Event>, held: Plaintext, grace: I64, now: I64) {
    events == [] ||
    (var init := events[..|events| - 1];
     AllHappen(t, node, name, init, held, grace, now) &&
     Happens(Play(t, node, name, init), node, name, events[|events| - 1], held, grace, now))
  }

  function Failures(events: seq<Event>): nat {
    if events == [] then 0
    else Failures(events[..|events| - 1]) + if events[|events| - 1].FailedRotation? then 1 else 0
  }

  // ----- what they keep -----

  /** A version stores a login with another password. */
  ghost predicate OtherLogin(t: Tables, name: string, v: I32, held: Plaintext) {
    ValueAt(t, name, v).Some? && ValueAt(t, name, v).value.UserPass? && Password(ValueAt(t, name, v).value) != Password(held)
  }

  /** The external system is `k` versions behind: it holds the login of version `base`. */
  ghost predicate Behind(t: Tables, name: string, base: I32, k: nat, held: Plaintext, grace: I64, now: I64) {
    && Good(t) && name in t.secrets
    && t.secrets[name].kind == Automatic && t.secrets[name].format == Userpass && t.secrets[name].graceSecs == grace
    && t.secrets[name].currentVersion == base + k
    && held.UserPass? && ValueAt(t, name, base) == Some(held)
    && (forall v: I32 {:trigger Live(t.versions, name, v, now)} :: base <= v <= base + k ==> Live(t.versions, name, v, now))
    && (forall v: I32 {:trigger OtherLogin(t, name, v, held)} :: base < v <= base + k ==> OtherLogin(t, name, v, held))
    && (forall v: I32 {:trigger Opens(t, name, v)} :: Opens(t, name, v))
  }

  lemma BystanderKeepsRow(t: Tables, node: U64, c: Command, name: string, v: I32, now: I64)
    requires ValidName(name) && name in t.secrets && v >= 0 && Bystander(t, c, name, now)
    ensures RowStays(t, Apply(t, node, c).0, name, v, now)
  {
    WriteKeepsRow(t, node, c, name, v, now);
  }

  /** A row that stays keeps its value. */
  lemma StayingValue(t: Tables, u: Tables, name: string, v: I32, now: I64)
    requires RowStays(t, u, name, v, now) && VersionKey(name, v) in u.versions
    ensures ValueAt(u, name, v) == ValueAt(t, name, v)
  {
  }

  lemma BystanderKeepsBehind(t: Tables, node: U64, c: Command, name: string, base: I32, k: nat, held: Plaintext, grace: I64, now: I64)
    requires Behind(t, name, base, k, held, grace, now) && Bystander(t, c, name, now)
    ensures Behind(Apply(t, node, c).0, name, base, k, held, grace, now)
  {
    var u := Apply(t, node, c).0;
    StepKeepsGood(t, node, c);
    RecordStays(t, node, c, name);
    assert CurrentRow(t.secrets, t.versions, name);
    StoredInRange(t, name, base);
    forall v: I32 | base <= v <= base + k
      ensures Live(u.versions, name, v, now) && ValueAt(u, name, v) == ValueAt(t, name, v)
    {
      assert Live(t.versions, name, v, now);
      BystanderKeepsRow(t, node, c, name, v, now);
      StayingValue(t, u, name, v, now);
    }
    assert Live(u.versions, name, base, now);
    forall v: I32 | base < v <= base + k ensures OtherLogin(u, name, v, held) {
      assert Live(u.versions, name, v, now) && OtherLogin(t, name, v, held);
    }
    forall v: I32 ensures Opens(u, name, v) {
      assert Opens(t, name, v);
      if VersionKey(name, v) in u.versions {
        StoredInRange(u, name, v);
        BystanderKeepsRow(t, node, c, name, v, now);
        StayingValue(t, u, name, v, now);
      }
    }
  }

  lemma {:induction false} BystandersKeepBehind(t: Tables, node: U64, cs: seq<Command>, name: string, base: I32, k: nat,
                                                held: Plaintext, grace: I64, now: I64)
    requires Behind(t, name, base, k, held, grace, now) && Bystanders(t, node, cs, name, now)
    ensures Behind(Run(t, node, cs), name, base, k, held, grace, now)
    ensures Run(t, node, cs).secrets[name] == t.secrets[name]
  {
    if cs != [] {
      var init, c := cs[..|cs| - 1], cs[|cs| - 1];
      BystandersKeepBehind(t, node, init, name, base, k, held, grace, now);
      BystanderKeepsBehind(Run(t, node, init), node, c, name, base, k, held, grace, now);
      RecordStays(Run(t, node, init), node, c, name);
      RejectionChangesNothing(Run(t, node, init), node, c);
    }
  }

  // ----- one more version -----

  /** A rotation of a secret that lags begins. */
  lemma LaggingBegins(t: Tables, name: string, base: I32, k: nat, held: Plaintext, grace: I64, now: I64, d: Draw)
    requires Behind(t, name, base, k, held, grace, now) && base + k < I32_MAX && d.sealing.Some?
    ensures ValueAt(t, name, base + k).Some? && ValueAt(t, name, base + k).value.UserPass?
    ensures Begun(t, name, d).Some?
    ensures var c, p := Begun(t, name, d).value, UserPass(ValueAt(t, name, base + k).value.username, d.token);
            c == Rotating(name, t.secrets[name], p, E.SealVersion(t, name, base + k + 1, p, d.at, d.sealing.value), d.at)
  {
    if k > 0 { assert OtherLogin(t, name, base + k, held); }
  }

  /** What the commit leaves: the rows before as they were, the superseded one with an expiry, the new login. */
  lemma CommitBehind(t: Tables, node: U64, name: string, base: I32, k: nat, held: Plaintext, grace: I64, now: I64, d: Draw,
                     waited: Tables, u: Tables)
    requires Behind(t, name, base, k, held, grace, now) && base + k < I32_MAX && Seals(d, held)
    requires Bystanders(t, node, d.during, name, now) && waited == Run(t, node, d.during) && u == Committed(t, node, name, d)
    ensures Wins(t, node, name, d) && Behind(waited, name, base, k, held, grace, now) && Good(u)
    ensures Grown(waited, u, name, base + k, held, now) && ExpiresAt(u, name, base + k, SaturatingAdd(d.at, grace))
  {
    LaggingBegins(t, name, base, k, held, grace, now, d);
    BystandersKeepBehind(t, node, d.during, name, base, k, held, grace, now);
    CommitOnto(waited, node, Begun(t, name, d).value, u, t, d.sealing.value, base, k, held, grace, now);
  }

  ghost predicate ExpiresAt(t: Tables, name: string, v: I32, at: I64) {
    VersionKey(name, v) in t.versions && t.versions[VersionKey(name, v)].expiresAt == Some(at)
  }

  lemma StillLive(t: Tables, name: string, v: I32, at: I64, now: I64)
    requires ExpiresAt(t, name, v, at) && now < at
    ensures Live(t.versions, name, v, now)
  {
  }

  /** The commit of a login sealed for the next version. */
  lemma CommitOnto(t: Tables, node: U64, c: Client, u: Tables, seen: Tables, f: E.Fresh, base: I32, k: nat, held: Plaintext,
                   grace: I64, now: I64)
    requires Behind(t, c.name, base, k, held, grace, now) && base + k < I32_MAX && |f.nonce| == E.NONCE_LEN
    requires c.Rotating? && c.secret == t.secrets[c.name] && c.plaintext.UserPass? && c.plaintext.password != Password(held)
    requires c.row == E.SealVersion(seen, c.name, base + k + 1, c.plaintext, c.now, f)
    requires u == Apply(t, node, CommandOf(c)).0
    ensures Apply(t, node, CommandOf(c)).1 == Ok && Good(u) && Grown(t, u, c.name, base + k, held, now)
    ensures ExpiresAt(u, c.name, base + k, SaturatingAdd(c.now, grace))
  {
    CommitsAreShaped(c);
    StepKeepsGood(t, node, CommandOf(c));
    RotationIsPut(t, node, c);
    PutGrows(t, u, c.name, c.plaintext, seen, c.now, f, base + k, held, now, CommandOf(c).meta);
  }

  lemma RotationIsPut(t: Tables, node: U64, c: Client)
    requires c.Rotating?
    ensures CommandOf(c).meta.graceSecs.None?
    ensures Apply(t, node, CommandOf(c)) ==
            PutVersionEffect(t, c.name, c.secret.currentVersion, c.row, Some(GraceExpiryUnix(c.now, c.secret.graceSecs)), CommandOf(c).meta)
  {
  }

  lemma PutGrows(t: Tables, u: Tables, name: string, p: Plaintext, seen: Tables, at: I64, f: E.Fresh, cur: I32,
                 held: Plaintext, now: I64, meta: MetaChange)
    requires Good(t) && name in t.secrets && t.secrets[name].currentVersion == cur < I32_MAX && |f.nonce| == E.NONCE_LEN
    requires p.UserPass? && p.password != Password(held) && meta.graceSecs.None?
    requires u == PutVersionEffect(t, name, cur, E.SealVersion(seen, name, cur + 1, p, at, f),
                                   Some(GraceExpiryUnix(at, t.secrets[name].graceSecs)), meta).0
    ensures PutVersionEffect(t, name, cur, E.SealVersion(seen, name, cur + 1, p, at, f),
                             Some(GraceExpiryUnix(at, t.secrets[name].graceSecs)), meta).1 == Ok
    ensures Grown(t, u, name, cur, held, now) && ExpiresAt(u, name, cur, SaturatingAdd(at, t.secrets[name].graceSecs))
  {
    NewVersionDoes(t, name, p, seen, at, f, GraceExpiryUnix(at, t.secrets[name].graceSecs), meta);
    forall v: I32 | v != cur + 1 ensures OlderStays(t, u, name, v, cur, now) {
      if v != cur { RowsElsewhereStay(t, u, name, cur, v, now); }
    }
  }

  lemma RowsElsewhereStay(t: Tables, u: Tables, name: string, cur: I32, v: I32, now: I64)
    requires cur < I32_MAX && OnlyRowsChanged(t, u, VersionKey(name, cur), VersionKey(name, cur + 1)) && v != cur && v != cur + 1
    ensures RowStays(t, u, name, v, now)
  {
    if VersionKey(name, v) == VersionKey(name, cur) { KeyInjective(name, v, name, cur); }
    if VersionKey(name, v) == VersionKey(name, cur + 1) { KeyInjective(name, v, name, cur + 1); }
    SameLookupStays(t, u, name, v, now);
  }

  /** One version more, with another login; every older row opens as before, or is gone because its time was up. */
  ghost predicate Grown(t: Tables, u: Tables, name: string, cur: I32, held: Plaintext, now: I64)
    requires name in t.secrets && cur < I32_MAX
  {
    && name in u.secrets && u.secrets[name].currentVersion == cur + 1
    && u.secrets[name].kind == t.secrets[name].kind && u.secrets[name].format == t.secrets[name].format
    && u.secrets[name].graceSecs == t.secrets[name].graceSecs
    && OtherLogin(u, name, cur + 1, held)
    && (forall v: I32 {:trigger OlderStays(t, u, name, v, cur, now)} :: v != cur + 1 ==> OlderStays(t, u, name, v, cur, now))
  }

  /** The superseded row has an expiry now; the others are as they were. */
  ghost predicate OlderStays(t: Tables, u: Tables, name: string, v: I32, cur: I32, now: I64) {
    var key := VersionKey(name, v);
    if v != cur then RowStays(t, u, name, v, now)
    else key in u.versions ==> key in t.versions && OpensAlike(t.versions[key], u.versions[key], name, v)
  }

  /** An older version that is stored has the value it had, and one that was live is live. */
  lemma GrownKeepsValue(t: Tables, u: Tables, name: string, cur: I32, held: Plaintext, now: I64, v: I32)
    requires name in t.secrets && cur < I32_MAX && Grown(t, u, name, cur, held, now) && v != cur + 1
    ensures VersionKey(name, v) in u.versions ==> VersionKey(name, v) in t.versions && ValueAt(u, name, v) == ValueAt(t, name, v)
    ensures v != cur && Live(t.versions, name, v, now) ==> Live(u.versions, name, v, now)
  {
    assert OlderStays(t, u, name, v, cur, now);
  }

  lemma GrownOpens(t: Tables, u: Tables, name: string, cur: I32, held: Plaintext, now: I64, v: I32)
    requires name in t.secrets && cur < I32_MAX && Grown(t, u, name, cur, held, now) && Opens(t, name, v)
    ensures Opens(u, name, v)
  {
    if v != cur + 1 { GrownKeepsValue(t, u, name, cur, held, now, v); }
  }

  lemma AllOpen(t: Tables, u: Tables, name: string, cur: I32, held: Plaintext, now: I64)
    requires name in t.secrets && cur < I32_MAX && Grown(t, u, name, cur, held, now)
    requires forall v: I32 :: Opens(t, name, v)
    ensures forall v: I32 :: Opens(u, name, v)
  {
    forall v: I32 ensures Opens(u, name, v) {
      assert Opens(t, name, v);
      GrownOpens(t, u, name, cur, held, now, v);
    }
  }

  lemma BystanderKeepsOlder(t: Tables, u: Tables, w: Tables, node: U64, c: Command, name: string, v: I32, cur: I32, now: I64)
    requires Good(t) && Good(u) && Good(w) && ValidName(name) && name in u.secrets
    requires Bystander(u, c, name, now) && w == Apply(u, node, c).0 && OlderStays(t, u, name, v, cur, now)
    ensures OlderStays(t, w, name, v, cur, now)
  {
    if v >= 0 {
      BystanderKeepsRow(u, node, c, name, v, now);
    } else {
      if VersionKey(name, v) in t.versions { StoredInRange(t, name, v); }
      if VersionKey(name, v) in w.versions { StoredInRange(w, name, v); }
    }
  }

  /** Bystanders after the commit keep what it left; the superseded row, too, while it is live. */
  lemma BystanderKeepsGrown(t: Tables, u: Tables, node: U64, c: Command, name: string, cur: I32, held: Plaintext, now: I64)
    requires Good(t) && name in t.secrets && cur < I32_MAX && Good(u) && Grown(t, u, name, cur, held, now)
    requires Bystander(u, c, name, now)
    ensures var w := Apply(u, node, c).0;
            && Good(w) && Grown(t, w, name, cur, held, now)
            && (Live(u.versions, name, cur, now) ==> Live(w.versions, name, cur, now))
  {
    var w := Apply(u, node, c).0;
    StepKeepsGood(u, node, c);
    RecordStays(u, node, c, name);
    assert CurrentRow(u.secrets, u.versions, name) && CurrentRow(w.secrets, w.versions, name);
    BystanderKeepsRow(u, node, c, name, cur + 1, now);
    StayingValue(u, w, name, cur + 1, now);
    if cur >= 0 { BystanderKeepsRow(u, node, c, name, cur, now); }
    forall v: I32 | v != cur + 1 ensures OlderStays(t, w, name, v, cur, now) {
      assert OlderStays(t, u, name, v, cur, now);
      BystanderKeepsOlder(t, u, w, node, c, name, v, cur, now);
    }
  }

  lemma {:induction false} BystandersKeepGrown(t: Tables, u: Tables, node: U64, cs: seq<Command>, name: string, cur: I32,
                                               held: Plaintext, now: I64)
    requires Good(t) && name in t.secrets && cur < I32_MAX && Good(u) && Grown(t, u, name, cur, held, now)
    requires Bystanders(u, node, cs, name, now)
    ensures var w := Run(u, node, cs);
            && Good(w) && Grown(t, w, name, cur, held, now)
            && (Live(u.versions, name, cur, now) ==> Live(w.versions, name, cur, now))
  {
    if cs != [] {
      var init, c := cs[..|cs| - 1], cs[|cs| - 1];
      BystandersKeepGrown(t, u, node, init, name, cur, held, now);
      BystanderKeepsGrown(t, Run(u, node, init), node, c, name, cur, held, now);
      RejectionChangesNothing(Run(u, node, init), node, c);
    }
  }

  /** With the superseded row still live, the secret is one version further behind. */
  lemma GrownIsBehind(t: Tables, u: Tables, name: string, base: I32, k: nat, held: Plaintext, grace: I64, now: I64)
    requires Behind(t, name, base, k, held, grace, now) && base + k < I32_MAX && Good(u)
    requires Grown(t, u, name, base + k, held, now) && Live(u.versions, name, base + k, now)
    ensures Behind(u, name, base, k + 1, held, grace, now)
  {
    var cur := base + k;
    assert CurrentRow(u.secrets, u.versions, name);
    forall v: I32 | base <= v <= cur + 1 ensures Live(u.versions, name, v, now) {
      if v < cur {
        assert Live(t.versions, name, v, now);
        GrownKeepsValue(t, u, name, cur, held, now, v);
      }
    }
    assert Live(u.versions, name, base, now);
    GrownKeepsValue(t, u, name, cur, held, now, base);
    forall v: I32 | base < v <= cur + 1 ensures OtherLogin(u, name, v, held) {
      if v <= cur {
        assert Live(u.versions, name, v, now) && OtherLogin(t, name, v, held);
        GrownKeepsValue(t, u, name, cur, held, now, v);
      }
    }
    AllOpen(t, u, name, cur, held, now);
  }

  lemma SameRowsBehind(t: Tables, u: Tables, name: string, base: I32, k: nat, held: Plaintext, grace: I64, now: I64)
    requires Behind(t, name, base, k, held, grace, now) && Good(u) && u.versions == t.versions && name in u.secrets
    requires u.secrets[name].kind == t.secrets[name].kind && u.secrets[name].format == t.secrets[name].format
    requires u.secrets[name].graceSecs == t.secrets[name].graceSecs
    requires u.secrets[name].currentVersion == t.secrets[name].currentVersion
    ensures Behind(u, name, base, k, held, grace, now)
  {
    forall w: I32 | base < w <= base + k ensures OtherLogin(u, name, w, held) { assert OtherLogin(t, name, w, held); }
    forall w: I32 ensures Opens(u, name, w) { assert Opens(t, name, w); }
    forall w: I32 | base <= w <= base + k ensures Live(u.versions, name, w, now) { assert Live(t.versions, name, w, now); }
  }

  /** The retry after a failed apply moves the timer and nothing else that matters here. */
  lemma RetryKeepsBehind(t: Tables, node: U64, name: string, v: I32, at: I64, base: I32, k: nat, held: Plaintext, grace: I64, now: I64)
    requires Behind(t, name, base, k, held, grace, now)
    ensures Behind(Apply(t, node, CommandOf(Retrying(name, v, at))).0, name, base, k, held, grace, now)
  {
    var r := Retrying(name, v, at);
    RetryDoes(t, node, name, v, at);
    CommitsAreShaped(r);
    StepKeepsGood(t, node, CommandOf(r));
    SameRowsBehind(t, Apply(t, node, CommandOf(r)).0, name, base, k, held, grace, now);
  }

  /** A rotation that won and did not reach the external system ends as it committed, or with a retry after a wait. */
  lemma FailedEnds(t: Tables, node: U64, name: string, d: Draw, u: Tables)
    requires Wins(t, node, name, d) && !d.applied && u == Committed(t, node, name, d)
    ensures Rotated(t, node, name, d) == u ||
            Rotated(t, node, name, d) ==
              Apply(Run(u, node, d.after), node, CommandOf(Retrying(name, Begun(t, name, d).value.row.version, d.at))).0
  {
  }

  lemma FailureAddsOne(t: Tables, node: U64, name: string, base: I32, k: nat, held: Plaintext, grace: I64, now: I64, d: Draw,
                       waited: Tables, u: Tables)
    requires Behind(t, name, base, k, held, grace, now) && base + k < I32_MAX
    requires Fails(d, held, grace, now) && Undisturbed(t, node, name, d, now)
    requires waited == Run(t, node, d.during) && u == Committed(t, node, name, d)
    ensures Behind(Rotated(t, node, name, d), name, base, k + 1, held, grace, now)
  {
    CommitBehind(t, node, name, base, k, held, grace, now, d, waited, u);
    GrownIsBehind(waited, u, name, base, k, held, grace, now);
    FailedEnds(t, node, name, d, u);
    BystandersKeepBehind(u, node, d.after, name, base, k + 1, held, grace, now);
    RetryKeepsBehind(Run(u, node, d.after), node, name, Begun(t, name, d).value.row.version, d.at, base, k + 1, held, grace, now);
  }

  /** After any such run the external system is behind by exactly the number of failed applies. */
  lemma {:induction false} PlayFallsBehind(t: Tables, node: U64, name: string, base: I32, held: Plaintext, grace: I64, now: I64,
                                           events: seq<Event>)
    requires Behind(t, name, base, 0, held, grace, now) && base + Failures(events) <= I32_MAX
    requires AllHappen(t, node, name, events, held, grace, now)
    ensures Behind(Play(t, node, name, events), name, base, Failures(events), held, grace, now)
  {
    if events != [] {
      var init, last := events[..|events| - 1], events[|events| - 1];
      PlayFallsBehind(t, node, name, base, held, grace, now, init);
      NextFallsBehind(Play(t, node, name, init), node, name, base, Failures(init), held, grace, now, last);
    }
  }

  lemma NextFallsBehind(t: Tables, node: U64, name: string, base: I32, k: nat, held: Plaintext, grace: I64, now: I64, e: Event)
    requires Behind(t, name, base, k, held, grace, now) && Happens(t, node, name, e, held, grace, now)
    requires e.FailedRotation? ==> base + k < I32_MAX
    ensures Behind(Next(t, node, name, e), name, base, if e.FailedRotation? then k + 1 else k, held, grace, now)
  {
    match e
    case FailedRotation(d) =>
      FailureAddsOne(t, node, name, base, k, held, grace, now, d, Run(t, node, d.during), Committed(t, node, name, d));
    case Elsewhere(c) => BystanderKeepsBehind(t, node, c, name, base, k, held, grace, now);
  }

  // ----- the next rotation -----

  lemma ListedInRange(u: Tables, name: string, now: I64, live: seq<VersionRecord>, v: I32)
    requires Good(u) && LiveList(u.versions, name, now, live) && v in Numbers(live)
    ensures name in u.secrets && 1 <= v <= u.secrets[name].currentVersion
  {
    var i :| 0 <= i < |live| && Numbers(live)[i] == v;
    assert LiveRow(u.versions, name, now, live[i]);
    StoredInRange(u, name, v);
  }

  /** A version above the held one, the superseded one aside, is live up to the newest. */
  lemma StaysLive(t: Tables, u: Tables, name: string, base: I32, k: nat, held: Plaintext, grace: I64, now: I64, v: I32)
    requires Behind(t, name, base, k, held, grace, now) && base + k < I32_MAX && base < v <= base + k + 1 && v != base + k
    requires Good(u) && Grown(t, u, name, base + k, held, now)
    ensures Live(u.versions, name, v, now)
  {
    if v < base + k {
      assert Live(t.versions, name, v, now);
      GrownKeepsValue(t, u, name, base + k, held, now, v);
    } else {
      assert CurrentRow(u.secrets, u.versions, name);
    }
  }

  lemma ListDescends(versions: Versions, name: string, now: I64, live: seq<VersionRecord>)
    requires LiveList(versions, name, now, live)
    ensures Descending(Numbers(live))
  {
  }

  lemma LiveAboveOne(t: Tables, u: Tables, name: string, base: I32, k: nat, held: Plaintext, grace: I64, now: I64,
                     live: seq<VersionRecord>, v: I32)
    requires Behind(t, name, base, k, held, grace, now) && base + k < I32_MAX && v > base && v != base + k
    requires Good(u) && Grown(t, u, name, base + k, held, now) && LiveList(u.versions, name, now, live)
    ensures v in Numbers(live) <==> v <= base + k + 1
  {
    if v <= base + k + 1 {
      StaysLive(t, u, name, base, k, held, grace, now, v);
      Listed(u, name, now, live, v);
    } else if v in Numbers(live) {
      ListedInRange(u, name, now, live, v);
    }
  }

  /** Versions above the held one that the candidate list can draw on. */
  lemma LiveAbove(t: Tables, u: Tables, name: string, base: I32, k: nat, held: Plaintext, grace: I64, now: I64,
                  live: seq<VersionRecord>)
    requires Behind(t, name, base, k, held, grace, now) && base + k < I32_MAX
    requires Good(u) && Grown(t, u, name, base + k, held, now) && LiveList(u.versions, name, now, live)
    ensures AllLiveAbove(base + k, Numbers(live), base)
  {
    forall v: int | v > base && v != base + k ensures v in Numbers(live) <==> v <= base + k + 1 {
      if v <= I32_MAX { LiveAboveOne(t, u, name, base, k, held, grace, now, live, v); }
    }
  }

  lemma Listed(u: Tables, name: string, now: I64, live: seq<VersionRecord>, v: I32)
    requires Good(u) && LiveList(u.versions, name, now, live) && Live(u.versions, name, v, now)
    ensures v in Numbers(live)
  {
    StoredKeyParses(u.secrets, u.versions, name, v);
    assert PlacedRow(u.secrets, u.versions, VersionKey(name, v));
    var i :| 0 <= i < |live| && live[i] == u.versions[VersionKey(name, v)];
    assert Numbers(live)[i] == v;
  }

  /** A chosen version stores the held login. */
  ghost predicate ChosenHolds(u: Tables, name: string, previous: I32, live: seq<VersionRecord>, held: Plaintext) {
    exists v :: v in Chosen(previous, Numbers(live)) && Holds(u, name, v, held)
  }

  /** Three newer live versions or more push everything up to the held one off the list. */
  lemma TooOld(cur: I32, nums: seq<I32>, base: I32, v: I32)
    requires Descending(nums) && AllLiveAbove(cur, nums, base) && base + 3 <= cur < I32_MAX && v <= base
    ensures v !in Chosen(cur, nums)
  {
    ChosenShape(cur, nums);
    NewerSize(cur, nums, base);
    NewerGrows(cur, nums, v, base);
    if v in nums { ChosenIff(cur, nums, v); }
  }

  /** A stored version above the held one stores another login. */
  lemma AboveIsOther(t: Tables, u: Tables, name: string, base: I32, k: nat, held: Plaintext, grace: I64, now: I64, v: I32)
    requires Behind(t, name, base, k, held, grace, now) && base + k < I32_MAX && v > base
    requires Good(u) && Grown(t, u, name, base + k, held, now)
    ensures !Holds(u, name, v, held)
  {
    if VersionKey(name, v) in u.versions {
      StoredInRange(u, name, v);
      if v == base + k + 1 {
        assert OtherLogin(u, name, v, held);
      } else {
        assert OtherLogin(t, name, v, held);
        GrownKeepsValue(t, u, name, base + k, held, now, v);
      }
    }
  }

  /** With three failures or more no chosen version stores the held login. */
  lemma OutOfReach(t: Tables, u: Tables, name: string, base: I32, k: nat, held: Plaintext, grace: I64, now: I64,
                   live: seq<VersionRecord>)
    requires Behind(t, name, base, k, held, grace, now) && base + k < I32_MAX && k >= 3
    requires Good(u) && Grown(t, u, name, base + k, held, now) && LiveList(u.versions, name, now, live)
    ensures !ChosenHolds(u, name, base + k, live, held)
  {
    var cur, nums := base + k, Numbers(live);
    ListDescends(u.versions, name, now, live);
    LiveAbove(t, u, name, base, k, held, grace, now, live);
    forall v | v in Chosen(cur, nums) ensures !Holds(u, name, v, held) {
      if v <= base { TooOld(cur, nums, base, v); } else { AboveIsOther(t, u, name, base, k, held, grace, now, v); }
    }
  }

  lemma WithinReach(t: Tables, u: Tables, name: string, base: I32, k: nat, held: Plaintext, grace: I64, now: I64,
                    live: seq<VersionRecord>)
    requires Behind(t, name, base, k, held, grace, now) && base + k < I32_MAX && k <= 2
    requires Good(u) && Grown(t, u, name, base + k, held, now) && LiveList(u.versions, name, now, live)
    requires k == 0 ==> VersionKey(name, base) in u.versions
    ensures ChosenHolds(u, name, base + k, live, held)
  {
    var cur, nums := base + k, Numbers(live);
    ListDescends(u.versions, name, now, live);
    LiveAbove(t, u, name, base, k, held, grace, now, live);
    ChosenShape(cur, nums);
    assert Live(t.versions, name, base, now);
    GrownKeepsValue(t, u, name, cur, held, now, base);
    if k > 0 {
      Listed(u, name, now, live, base);
      NewerSize(cur, nums, base);
      ChosenIff(cur, nums, base);
    }
    assert base in Chosen(cur, nums) && Holds(u, name, base, held);
  }

  /** The logins it then tries. */
  ghost function Tried(u: Tables, name: string, previous: I32, live: seq<VersionRecord>): Option<seq<Plaintext>> {
    LoginsOf(u, name, Chosen(previous, Numbers(live)))
  }

  /** A version below the held one stores the same login, as freshly drawn ones do not. */
  ghost predicate StoredBelow(u: Tables, name: string, base: I32, held: Plaintext) {
    exists v: I32 :: v < base && Holds(u, name, v, held)
  }

  /** The superseded row was swept before the listing: only older versions could store the held login, by chance. */
  lemma SweptOutOfReach(t: Tables, u: Tables, name: string, base: I32, held: Plaintext, grace: I64, now: I64,
                        live: seq<VersionRecord>)
    requires Behind(t, name, base, 0, held, grace, now) && base < I32_MAX && Good(u) && Grown(t, u, name, base, held, now)
    requires VersionKey(name, base) !in u.versions && !StoredBelow(u, name, base, held)
    ensures !ChosenHolds(u, name, base, live, held)
  {
    forall v | v in Chosen(base, Numbers(live)) ensures !Holds(u, name, v, held) {
      if v > base { AboveIsOther(t, u, name, base, 0, held, grace, now, v); }
    }
  }

  lemma ReachAfterCommit(t: Tables, u: Tables, name: string, base: I32, k: nat, held: Plaintext, grace: I64, now: I64,
                         live: seq<VersionRecord>)
    requires Behind(t, name, base, k, held, grace, now) && base + k < I32_MAX
    requires Good(u) && Grown(t, u, name, base + k, held, now) && LiveList(u.versions, name, now, live)
    ensures Tries(u, name, base, k, held, live, false)
  {
    AllOpen(t, u, name, base + k, held, now);
    LoginsAre(u, name, Chosen(base + k, Numbers(live)));
    assert held in Tried(u, name, base + k, live).value <==> ChosenHolds(u, name, base + k, live, held);
    if k >= 3 {
      OutOfReach(t, u, name, base, k, held, grace, now, live);
    } else if k > 0 || VersionKey(name, base) in u.versions {
      WithinReach(t, u, name, base, k, held, grace, now, live);
    } else if !StoredBelow(u, name, base, held) {
      SweptOutOfReach(t, u, name, base, held, grace, now, live);
    }
  }

  /**
   * Every chosen row opens. Within the rotation's grace period, or if a rotation failed before, or if the row just
   * superseded is still stored, the held login is tried exactly when k is at most two. If that row is gone and held it
   * alone, the login is not tried.
   */
  ghost predicate Tries(u: Tables, name: string, base: I32, k: nat, held: Plaintext, live: seq<VersionRecord>, inGrace: bool)
    requires base + k <= I32_MAX
  {
    var logins := Tried(u, name, base + k, live);
    && logins.Some?
    && (inGrace || k > 0 || VersionKey(name, base) in u.versions ==> (held in logins.value <==> k <= 2))
    && (k == 0 && VersionKey(name, base) !in u.versions && !StoredBelow(u, name, base, held) ==> held !in logins.value)
  }

  /** What a rotation of a secret that lags has left when it lists, after others wrote again. */
  lemma LaggingLeaves(t: Tables, node: U64, name: string, base: I32, k: nat, held: Plaintext, grace: I64, now: I64,
                      d: Draw, waited: Tables, committed: Tables, late: seq<Command>, u: Tables)
    requires Behind(t, name, base, k, held, grace, now) && base + k < I32_MAX
    requires Seals(d, held) && Bystanders(t, node, d.during, name, now) && waited == Run(t, node, d.during)
    requires committed == Committed(t, node, name, d) && Bystanders(committed, node, late, name, now)
    requires u == Run(committed, node, late)
    ensures Behind(waited, name, base, k, held, grace, now) && Good(u) && Grown(waited, u, name, base + k, held, now)
    ensures now < SaturatingAdd(d.at, grace) ==> VersionKey(name, base + k) in u.versions
  {
    CommitBehind(t, node, name, base, k, held, grace, now, d, waited, committed);
    if now < SaturatingAdd(d.at, grace) { StillLive(committed, name, base + k, SaturatingAdd(d.at, grace), now); }
    BystandersKeepGrown(waited, committed, node, late, name, base + k, held, now);
  }

  lemma LaggingReaches(t: Tables, node: U64, name: string, base: I32, k: nat, held: Plaintext, grace: I64, now: I64,
                       d: Draw, committed: Tables, late: seq<Command>, u: Tables, live: seq<VersionRecord>)
    requires Behind(t, name, base, k, held, grace, now) && base + k < I32_MAX
    requires Seals(d, held) && Bystanders(t, node, d.during, name, now)
    requires committed == Committed(t, node, name, d) && Bystanders(committed, node, late, name, now)
    requires u == Run(committed, node, late) && LiveList(u.versions, name, now, live)
    ensures Tries(u, name, base, k, held, live, now < SaturatingAdd(d.at, grace))
  {
    var waited := Run(t, node, d.during);
    LaggingLeaves(t, node, name, base, k, held, grace, now, d, waited, committed, late, u);
    ReachAfterCommit(waited, u, name, base, k, held, grace, now, live);
  }

  /**
   * The external system holds the login of the current version. Then any number k of rotations commit and fail to
   * reach it, within a grace period of `now`; before, during and after them others write to other secrets, sweep and
   * re-wrap. The next rotation, listing at `now` within its own grace period, tries the login the external system kept
   * exactly when k is at most two. Past it, that still holds unless k is zero and the row just superseded is swept
   * before the listing. `mid` and `k` name the tables and the failures of the run, `committed` and `u` the tables after
   * the last commit and those that are listed; `live` is what the reader then returns (Readers.ReaderReturnsLiveList).
   */
  lemma RecoversIff(t: Tables, node: U64, name: string, base: I32, held: Plaintext, grace: I64, now: I64, events: seq<Event>,
                    mid: Tables, k: nat, d: Draw, committed: Tables, late: seq<Command>, u: Tables, live: seq<VersionRecord>)
    requires Behind(t, name, base, 0, held, grace, now) && AllHappen(t, node, name, events, held, grace, now)
    requires mid == Play(t, node, name, events) && k == Failures(events) && base + k < I32_MAX
    requires Seals(d, held) && Bystanders(mid, node, d.during, name, now)
    requires committed == Committed(mid, node, name, d) && Bystanders(committed, node, late, name, now)
    requires u == Run(committed, node, late) && LiveList(u.versions, name, now, live)
    ensures Tries(u, name, base, k, held, live, now < SaturatingAdd(d.at, grace))
  {
    PlayFallsBehind(t, node, name, base, held, grace, now, events);
    LaggingReaches(mid, node, name, base, k, held, grace, now, d, committed, late, u, live);
  }

  // ----- from an empty vault -----

  /** A created login secret whose password was given to the external system is in step with it. */
  lemma CreatedIsInStep(node: U64, req: CreateRequest, held: Plaintext, at: I64, f: E.Fresh, now: I64)
    requires BuildCreate(EMPTY_TABLES, req, held, at, f).Some? && |f.nonce| == E.NONCE_LEN
    requires req.kind == Automatic && req.format == Userpass && held.UserPass?
    ensures var t := Apply(EMPTY_TABLES, node, BuildCreate(EMPTY_TABLES, req, held, at, f).value).0;
            Behind(t, req.name, 1, 0, held, OrElse(req.grace, 0), now)
  {
    var c := BuildCreate(EMPTY_TABLES, req, held, at, f).value;
    var t := Apply(EMPTY_TABLES, node, c).0;
    CreateAlone(node, c.secret, c.row);
    CreatesAreShaped(EMPTY_TABLES, req, held, at, f);
    assert Good(EMPTY_TABLES);
    StepKeepsGood(EMPTY_TABLES, node, c);
    E.SealOpenRoundTrip(EMPTY_TABLES, req.name, 1, held, at, f, req.name, 1);
    forall v: I32 ensures Opens(t, req.name, v) {
      if VersionKey(req.name, v) in t.versions { KeyInjective(req.name, v, req.name, 1); }
    }
  }

  /** A rotation nobody disturbs. */
  predicate Alone(d: Draw) {
    d.during == [] && d.after == []
  }

  lemma OneMoreHappens(t: Tables, node: U64, name: string, events: seq<Event>, e: Event, held: Plaintext, grace: I64, now: I64)
    requires AllHappen(t, node, name, events, held, grace, now)
    requires e.FailedRotation? && Fails(e.draw, held, grace, now) && Alone(e.draw)
    ensures AllHappen(t, node, name, events + [e], held, grace, now)
    ensures Failures(events + [e]) == Failures(events) + 1
  {
    assert (events + [e])[..|events|] == events;
    assert Happens(Play(t, node, name, events), node, name, e, held, grace, now);
  }

  lemma ThreeHappen(t: Tables, node: U64, name: string, events: seq<Event>, held: Plaintext, grace: I64, now: I64)
    requires |events| == 3
    requires forall i :: 0 <= i < 3 ==>
               events[i].FailedRotation? && Fails(events[i].draw, held, grace, now) && Alone(events[i].draw)
    ensures AllHappen(t, node, name, events, held, grace, now) && Failures(events) == 3
  {
    OneMoreHappens(t, node, name, [], events[0], held, grace, now);
    OneMoreHappens(t, node, name, [] + [events[0]], events[1], held, grace, now);
    OneMoreHappens(t, node, name, [] + [events[0]] + [events[1]], events[2], held, grace, now);
    assert [] + [events[0]] + [events[1]] + [events[2]] == events;
  }

  /** A created secret whose login the external system holds. */
  ghost predicate Starts(node: U64, req: CreateRequest, held: Plaintext, at: I64, f: E.Fresh, t: Tables) {
    && BuildCreate(EMPTY_TABLES, req, held, at, f).Some? && |f.nonce| == E.NONCE_LEN
    && req.kind == Automatic && req.format == Userpass && held.UserPass?
    && t == Apply(EMPTY_TABLES, node, BuildCreate(EMPTY_TABLES, req, held, at, f).value).0
  }

  /** The failing run: a new secret, three rotations that do not reach the external system, and a fourth that cannot log in. */
  lemma ThreeFailuresOutOfReach(node: U64, req: CreateRequest, held: Plaintext, at: I64, f: E.Fresh, now: I64,
                                three: seq<Event>, t: Tables, mid: Tables, d: Draw, u: Tables, live: seq<VersionRecord>)
    requires Starts(node, req, held, at, f, t) && |three| == 3
    requires forall i :: 0 <= i < 3 ==>
               three[i].FailedRotation? && Fails(three[i].draw, held, OrElse(req.grace, 0), now) && Alone(three[i].draw)
    requires mid == Play(t, node, req.name, three) && Seals(d, held) && Alone(d)
    requires u == Committed(mid, node, req.name, d) && LiveList(u.versions, req.name, now, live)
    ensures var logins := Tried(u, req.name, 4, live); logins.Some? && held !in logins.value
  {
    CreatedIsInStep(node, req, held, at, f, now);
    ThreeHappen(t, node, req.name, three, held, OrElse(req.grace, 0), now);
    RecoversIff(t, node, req.name, 1, held, OrElse(req.grace, 0), now, three, mid, 3, d, u, [], u, live);
  }

  /** A sweep alone is a bystander, and removes a row whose time is up. */
  lemma SweepRemoves(t: Tables, node: U64, name: string, v: I32, at: I64, now: I64)
    requires ExpiresAt(t, name, v, at) && at <= now
    ensures Bystanders(t, node, [ExpireGraceVersions(now)], name, now)
    ensures VersionKey(name, v) !in Run(t, node, [ExpireGraceVersions(now)]).versions
  {
    var sweep := [ExpireGraceVersions(now)];
    assert sweep[..0] == [] && Run(t, node, []) == t;
    assert Bystanders(t, node, [], name, now);
  }

  lemma NothingBelowOne(u: Tables, name: string, held: Plaintext)
    requires Good(u)
    ensures !StoredBelow(u, name, 1, held)
  {
    forall v: I32 | v < 1 ensures !Holds(u, name, v, held) {
      if VersionKey(name, v) in u.versions { StoredInRange(u, name, v); }
    }
  }

  /**
   * The other failing run: a new secret without a grace period is rotated, and a sweep falls between the commit and the
   * listing. The only row with the login the external system holds is gone, and the rotation cannot log in.
   */
  lemma SweepBeforeListingLosesLogin(node: U64, req: CreateRequest, held: Plaintext, at: I64, f: E.Fresh, now: I64,
                                     t: Tables, d: Draw, committed: Tables, u: Tables, live: seq<VersionRecord>)
    requires Starts(node, req, held, at, f, t) && OrElse(req.grace, 0) == 0
    requires Seals(d, held) && Alone(d) && d.at == now && committed == Committed(t, node, req.name, d)
    requires u == Run(committed, node, [ExpireGraceVersions(now)]) && LiveList(u.versions, req.name, now, live)
    ensures var logins := Tried(u, req.name, 1, live); logins.Some? && held !in logins.value
  {
    CreatedIsInStep(node, req, held, at, f, now);
    CommitBehind(t, node, req.name, 1, 0, held, 0, now, d, t, committed);
    SweepRemoves(committed, node, req.name, 1, now, now);
    LaggingLeaves(t, node, req.name, 1, 0, held, 0, now, d, t, committed, [ExpireGraceVersions(now)], u);
    NothingBelowOne(u, req.name, held);
    LaggingReaches(t, node, req.name, 1, 0, held, 0, now, d, committed, [ExpireGraceVersions(now)], u, live);
  }
}
