/** Superseded versions: their expiry is set once and decides when they stop being live. */
module Grace {
  import opened Base
  import opened Keys
  import opened Model
  import opened Effects
  import opened CurrentVersion

  /** live_versions returns this version of the secret at this time. */
  ghost predicate Live(versions: Versions, name: string, v: I32, now: I64) {
    VersionKey(name, v) in versions && VersionActive(now, versions[VersionKey(name, v)].expiresAt)
  }

  /** Commands after which the secret is the same one, applied no later than `now`. */
  ghost predicate WithinLifetime(c: Command, name: string, now: I64) {
    && ServiceShaped(c) && !c.RestoreDatabase? && (c.DeleteSecret? ==> c.name != name)
    && (c.ExpireGraceVersions? ==> c.now <= now)
  }

  /** The superseded row carries its expiry, or has been removed because that expiry passed. */
  ghost predicate Superseded(secrets: Secrets, versions: Versions, name: string, v: I32, expiry: I64, now: I64) {
    && ValidName(name) && v >= 1 && name in secrets && secrets[name].currentVersion > v
    && (if VersionKey(name, v) in versions then versions[VersionKey(name, v)].expiresAt == Some(expiry)
        else expiry <= now)
  }

  /** A create touches no row of a secret that exists already. */
  lemma CreateElsewhere(t: Tables, s: SecretRecord, row: VersionRecord, n: string, w: I32)
    requires ValidName(n) && n in t.secrets && w >= 0 && row.version == 1
    ensures Lookup(CreateSecretEffect(t, s, row).0.versions, VersionKey(n, w)) == Lookup(t.versions, VersionKey(n, w))
  {
    if CreateSecretEffect(t, s, row).1 == Ok {
      RowKey(n, w);
      RowKey(s.name, 1);
    }
  }

  /** A new version touches no row older than a current one. */
  lemma PutElsewhere(t: Tables, m: string, expected: I32, row: VersionRecord, e: OptTime, meta: MetaChange,
                     n: string, w: I32)
    requires Good(t) && n in t.secrets && 0 <= w < t.secrets[n].currentVersion && row.version == expected + 1
    ensures var u := PutVersionEffect(t, m, expected, row, e, meta).0;
            && n in u.secrets && u.secrets[n].currentVersion >= t.secrets[n].currentVersion
            && Lookup(u.versions, VersionKey(n, w)) == Lookup(t.versions, VersionKey(n, w))
  {
    assert CurrentRow(t.secrets, t.versions, n);
    if PutVersionEffect(t, m, expected, row, e, meta).1 == Ok {
      assert CurrentRow(t.secrets, t.versions, m);
      RowKey(n, w);
      RowKey(m, expected);
      RowKey(m, expected + 1);
      assert VersionKey(n, w) != VersionKey(m, expected) && VersionKey(n, w) != VersionKey(m, expected + 1);
    }
  }

  lemma DeleteElsewhere(t: Tables, m: string, name: string, v: I32)
    requires ValidName(name) && v >= 0 && m != name
    ensures Lookup(DeleteSecretEffect(t, m).0.versions, VersionKey(name, v)) == Lookup(t.versions, VersionKey(name, v))
  {
    var key := VersionKey(name, v);
    RowKey(name, v);
    if NUL !in m { ScanRefinesOwnership(m, key); }
    assert !OwnRow(m, key);
  }

  lemma UpdateKeepsSuperseded(t: Tables, m: string, expected: I32, meta: MetaChange, name: string, v: I32, expiry: I64,
                              now: I64)
    requires Superseded(t.secrets, t.versions, name, v, expiry, now)
    ensures var u := UpdateMetaEffect(t, m, expected, meta).0; Superseded(u.secrets, u.versions, name, v, expiry, now)
  {
    var u := UpdateMetaEffect(t, m, expected, meta).0;
    assert u.versions == t.versions;
    assert name in u.secrets && u.secrets[name].currentVersion == t.secrets[name].currentVersion;
  }

  lemma StepKeepsSuperseded(t: Tables, node: U64, c: Command, name: string, v: I32, expiry: I64, now: I64)
    requires Good(t) && Superseded(t.secrets, t.versions, name, v, expiry, now) && WithinLifetime(c, name, now)
    ensures var u := Apply(t, node, c).0; Superseded(u.secrets, u.versions, name, v, expiry, now)
  {
    match c
    case CreateSecret(s, row) => CreateElsewhere(t, s, row, name, v);
    case PutVersion(m, expected, row, e, meta) => PutElsewhere(t, m, expected, row, e, meta, name, v);
    case UpdateMeta(m, expected, meta) => UpdateKeepsSuperseded(t, m, expected, meta, name, v, expiry, now);
    case DeleteSecret(m) => DeleteElsewhere(t, m, name, v);
    case _ => RowsKeepExpiry(t, node, c, name, v, now);
  }

  lemma RowsKeepExpiry(t: Tables, node: U64, c: Command, name: string, v: I32, now: I64)
    requires !c.CreateSecret? && !c.PutVersion? && !c.UpdateMeta? && !c.DeleteSecret? && !c.RestoreDatabase?
    requires c.ExpireGraceVersions? ==> c.now <= now
    ensures var u, key := Apply(t, node, c).0, VersionKey(name, v);
            && u.secrets == t.secrets
            && (key in u.versions ==> key in t.versions && u.versions[key].expiresAt == t.versions[key].expiresAt)
            && (key in t.versions && key !in u.versions ==> Expired(t.versions[key], now))
  {
    var u := Apply(t, node, c).0;
    assert u.secrets == t.secrets;
    if c.RewrapVersion? {
      RewrapKeepsExpiry(t, c.name, c.version, c.kmsKeyId, c.wrappedDek, c.wrappedRotationAt, VersionKey(name, v));
    } else if c.ExpireGraceVersions? {
      assert u.versions == ExpireEffect(t, c.now).0.versions;
    } else {
      assert u.versions == t.versions;
    }
  }

  lemma RewrapKeepsExpiry(t: Tables, n: string, w: I32, keyId: string, dek: WrappedKey, at: I64, key: string)
    ensures var u := RewrapEffect(t, n, w, keyId, dek, at).0;
            (key in u.versions <==> key in t.versions) &&
            (key in t.versions ==> u.versions[key].expiresAt == t.versions[key].expiresAt)
  {
  }

  lemma {:induction false} RunKeepsSuperseded(t: Tables, node: U64, cs: seq<Command>, name: string, v: I32, expiry: I64, now: I64)
    requires Good(t) && Superseded(t.secrets, t.versions, name, v, expiry, now)
    requires forall i :: 0 <= i < |cs| ==> WithinLifetime(cs[i], name, now)
    ensures var u := Run(t, node, cs); Superseded(u.secrets, u.versions, name, v, expiry, now)
  {
    if cs != [] {
      var init := cs[..|cs| - 1];
      RunKeepsSuperseded(t, node, init, name, v, expiry, now);
      RunKeepsGood(t, node, init);
      StepKeepsSuperseded(Run(t, node, init), node, cs[|cs| - 1], name, v, expiry, now);
    }
  }

  /** In any tables, good or not: the superseded row gets the command's expiry, unless it had one, which then stays. */
  lemma SupersededExpiry(t: Tables, name: string, expected: I32, row: VersionRecord, expiry: OptTime, meta: MetaChange)
    requires PutVersionEffect(t, name, expected, row, expiry, meta).1 == Ok && row.version != expected
    ensures var u, key := PutVersionEffect(t, name, expected, row, expiry, meta).0, VersionKey(name, expected);
            && (key in u.versions <==> key in t.versions)
            && (key in t.versions ==>
                  u.versions[key].expiresAt == if t.versions[key].expiresAt.Some? then t.versions[key].expiresAt else expiry)
  {
    KeysDiffer(name, row.version, name, expected);
  }

  /** The commit that supersedes the current version leaves it with exactly the expiry of the command. */
  lemma PutSupersedes(t: Tables, name: string, expected: I32, row: VersionRecord, expiry: I64, meta: MetaChange, now: I64)
    requires Good(t) && row.version == expected + 1 && row.expiresAt.None?
    requires PutVersionEffect(t, name, expected, row, Some(expiry), meta).1 == Ok
    ensures var u := PutVersionEffect(t, name, expected, row, Some(expiry), meta).0;
            Superseded(u.secrets, u.versions, name, expected, expiry, now)
  {
    assert CurrentRow(t.secrets, t.versions, name);
    RowKey(name, expected);
    RowKey(name, expected + 1);
  }

  /**
   * The grace window: a version superseded at `at` with `grace` seconds is live at `now` exactly while
   * now < at + grace (saturated), whatever rotations, updates, re-wraps and expiries happened since.
   */
  lemma GraceWindow(t: Tables, node: U64, name: string, expected: I32, row: VersionRecord, at: I64, grace: I64,
                    meta: MetaChange, cs: seq<Command>, now: I64)
    requires Good(t) && row.version == expected + 1 && row.expiresAt.None?
    requires var expiry := Some(GraceExpiryUnix(at, grace));
             PutVersionEffect(t, name, expected, row, expiry, meta).1 == Ok
    requires forall i :: 0 <= i < |cs| ==> WithinLifetime(cs[i], name, now)
    ensures var u := PutVersionEffect(t, name, expected, row, Some(GraceExpiryUnix(at, grace)), meta).0;
            Live(Run(u, node, cs).versions, name, expected, now) <==> now < GraceExpiryUnix(at, grace)
  {
    var expiry := GraceExpiryUnix(at, grace);
    var u := PutVersionEffect(t, name, expected, row, Some(expiry), meta).0;
    PutSupersedes(t, name, expected, row, expiry, meta, now);
    StepKeepsGood(t, node, PutVersion(name, expected, row, Some(expiry), meta));
    RunKeepsSuperseded(u, node, cs, name, expected, expiry, now);
  }

  /** Expiring is invisible to every read at a time no earlier than its own. */
  lemma ExpiryIsInvisible(t: Tables, at: I64, name: string, v: I32, now: I64)
    requires at <= now
    ensures Live(ExpireEffect(t, at).0.versions, name, v, now) <==> Live(t.versions, name, v, now)
  {
  }

  /** An expiry, once set, is never changed: the row keeps it or goes. */
  lemma ExpirySetOnce(t: Tables, node: U64, c: Command, name: string, v: I32)
    requires Good(t) && ServiceShaped(c) && !c.RestoreDatabase? && !c.DeleteSecret?
    requires VersionKey(name, v) in t.versions && t.versions[VersionKey(name, v)].expiresAt.Some?
    ensures var u, key := Apply(t, node, c).0.versions, VersionKey(name, v);
            key in u ==> u[key].expiresAt == t.versions[key].expiresAt
  {
    var key := VersionKey(name, v);
    assert PlacedRow(t.secrets, t.versions, key);
    var n, w := SplitVersionKey(key).value.0, SplitVersionKey(key).value.1;
    SplitKey(key);
    assert CurrentRow(t.secrets, t.versions, n);
    assert w != t.secrets[n].currentVersion by { assert key == VersionKey(n, w); }
    match c
    case CreateSecret(s, row) => CreateElsewhere(t, s, row, n, w);
    case PutVersion(m, expected, row, e, meta) => PutElsewhere(t, m, expected, row, e, meta, n, w);
    case UpdateMeta(m, expected, meta) => assert UpdateMetaEffect(t, m, expected, meta).0.versions == t.versions;
    case ExpireGraceVersions(e) => RowsKeepExpiry(t, node, c, name, v, e);
    case DeleteSecret(_) =>
    case RestoreDatabase(_) =>
    case _ => RowsKeepExpiry(t, node, c, name, v, t.versions[key].createdAt);
  }
}
