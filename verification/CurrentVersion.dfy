/** What every run of commands the service builds keeps true of secrets and their version rows. */
module CurrentVersion {
  import opened Base
  import opened Keys
  import opened Model
  import opened Effects
  import opened Backup

  // ----- the invariant -----

  type Secrets = map<string, SecretRecord>
  type Versions = map<string, VersionRecord>

  /** A secret's current row exists and has no expiry. */
  ghost predicate CurrentRow(secrets: Secrets, versions: Versions, n: string)
    requires n in secrets
  {
    var s := secrets[n];
    && s.name == n && ValidName(n) && s.currentVersion >= 1
    && VersionKey(n, s.currentVersion) in versions
    && versions[VersionKey(n, s.currentVersion)].expiresAt.None?
  }

  /** A row belongs to a stored secret, and unless it is the current one it is older and has an expiry. */
  ghost predicate PlacedRow(secrets: Secrets, versions: Versions, k: string)
    requires k in versions
  {
    match SplitVersionKey(k)
    case None => false
    case Some((n, v)) =>
      && n in secrets && 1 <= v <= secrets[n].currentVersion && versions[k].version == v
      && (v < secrets[n].currentVersion ==> versions[k].expiresAt.Some?)
  }

  ghost predicate GoodRows(secrets: Secrets, versions: Versions) {
    && (forall n {:trigger CurrentRow(secrets, versions, n)} :: n in secrets ==> CurrentRow(secrets, versions, n))
    && (forall k {:trigger PlacedRow(secrets, versions, k)} :: k in versions ==> PlacedRow(secrets, versions, k))
  }

  ghost predicate Good(t: Tables) {
    GoodRows(t.secrets, t.versions)
  }

  // ----- the commands the service builds -----

  ghost predicate ServiceShaped(c: Command) {
    match c
    case CreateSecret(s, row) => s.currentVersion == 1 && row.version == 1 && row.expiresAt.None?
    case PutVersion(_, expected, row, expiry, _) => row.version == expected + 1 && row.expiresAt.None? && expiry.Some?
    case RestoreDatabase(data) => exists g: Tables :: Good(g) && data == Dump(g)
    case _ => true
  }

  ghost predicate AllShaped(cs: seq<Command>) {
    forall i :: 0 <= i < |cs| ==> ServiceShaped(cs[i])
  }

  // ----- preservation -----

  lemma RowKey(n: string, v: I32)
    requires ValidName(n) && v >= 0
    ensures SplitVersionKey(VersionKey(n, v)) == Some((n, v))
  {
    SplitOfKey(n, v);
  }

  lemma KeysDiffer(m: string, v: I32, n: string, w: I32)
    requires m != n || v != w
    ensures VersionKey(m, v) != VersionKey(n, w)
  {
    if VersionKey(m, v) == VersionKey(n, w) { KeyInjective(m, v, n, w); }
  }

  lemma SplitKey(k: string)
    requires SplitVersionKey(k).Some?
    ensures k == VersionKey(SplitVersionKey(k).value.0, SplitVersionKey(k).value.1)
  {
    KeyOfSplit(k, SplitVersionKey(k).value.0, SplitVersionKey(k).value.1);
  }

  /** Whatever name and version address a stored row, they are the ones its key parses to. */
  lemma StoredKeyParses(secrets: Secrets, versions: Versions, n: string, v: I32)
    requires GoodRows(secrets, versions) && VersionKey(n, v) in versions
    ensures ValidName(n) && v >= 1 && SplitVersionKey(VersionKey(n, v)) == Some((n, v))
  {
    var key := VersionKey(n, v);
    assert PlacedRow(secrets, versions, key);
    var (m, w) := SplitVersionKey(key).value;
    SplitKey(key);
    assert CurrentRow(secrets, versions, m);
    FieldHasNoNul(v);
    FieldHasNoNul(w);
    SplitUnique(n, VersionField(v), m, VersionField(w), NUL);
    SplitOfKey(n, v);
  }

  /** A row of the secret that is stored has a number from one to the current version. */
  lemma StoredInRange(t: Tables, name: string, v: I32)
    requires Good(t) && VersionKey(name, v) in t.versions
    ensures ValidName(name) && name in t.secrets && 1 <= v <= t.secrets[name].currentVersion
  {
    StoredKeyParses(t.secrets, t.versions, name, v);
    assert PlacedRow(t.secrets, t.versions, VersionKey(name, v));
  }

  lemma CreateKeepsGood(secrets: Secrets, versions: Versions, s: SecretRecord, row: VersionRecord)
    requires GoodRows(secrets, versions) && s.name !in secrets && ValidName(s.name)
    requires s.currentVersion == 1 && row.version == 1 && row.expiresAt.None?
    ensures GoodRows(secrets[s.name := s], versions[VersionKey(s.name, 1) := row])
  {
    var secrets', versions' := secrets[s.name := s], versions[VersionKey(s.name, 1) := row];
    RowKey(s.name, 1);
    forall n | n in secrets' ensures CurrentRow(secrets', versions', n) {
      if n != s.name {
        assert CurrentRow(secrets, versions, n);
        RowKey(n, secrets[n].currentVersion);
      }
    }
    forall k | k in versions' ensures PlacedRow(secrets', versions', k) {
      if k != VersionKey(s.name, 1) { assert PlacedRow(secrets, versions, k); }
    }
  }

  lemma PutKeepsCurrent(secrets: Secrets, versions: Versions, s: SecretRecord, row: VersionRecord, expiry: OptTime, n: string)
    requires s.name in secrets && n in secrets && CurrentRow(secrets, versions, s.name) && CurrentRow(secrets, versions, n)
    requires s.currentVersion == row.version == secrets[s.name].currentVersion + 1 && row.expiresAt.None?
    ensures var inserted := versions[VersionKey(s.name, row.version) := row];
            CurrentRow(secrets[s.name := s], Supersede(inserted, VersionKey(s.name, row.version - 1), expiry), n)
  {
    KeysDiffer(s.name, row.version - 1, s.name, row.version);
    if n != s.name {
      KeysDiffer(n, secrets[n].currentVersion, s.name, row.version);
      KeysDiffer(n, secrets[n].currentVersion, s.name, row.version - 1);
    }
  }

  lemma PutKeepsPlaced(secrets: Secrets, versions: Versions, s: SecretRecord, row: VersionRecord, expiry: OptTime, k: string)
    requires GoodRows(secrets, versions) && s.name in secrets && s.currentVersion == row.version
    requires row.version == secrets[s.name].currentVersion + 1 && row.expiresAt.None? && expiry.Some?
    requires k in versions || k == VersionKey(s.name, row.version)
    ensures var inserted := versions[VersionKey(s.name, row.version) := row];
            PlacedRow(secrets[s.name := s], Supersede(inserted, VersionKey(s.name, row.version - 1), expiry), k)
  {
    assert CurrentRow(secrets, versions, s.name);
    RowKey(s.name, row.version - 1);
    RowKey(s.name, row.version);
    if k != VersionKey(s.name, row.version) {
      assert PlacedRow(secrets, versions, k);
      SplitKey(k);
    }
  }

  lemma PutKeepsGood(secrets: Secrets, versions: Versions, s: SecretRecord, row: VersionRecord, expiry: OptTime)
    requires GoodRows(secrets, versions) && s.name in secrets && s.currentVersion == row.version
    requires row.version == secrets[s.name].currentVersion + 1 && row.expiresAt.None? && expiry.Some?
    ensures var inserted := versions[VersionKey(s.name, row.version) := row];
            GoodRows(secrets[s.name := s], Supersede(inserted, VersionKey(s.name, row.version - 1), expiry))
  {
    var inserted := versions[VersionKey(s.name, row.version) := row];
    var secrets', versions' := secrets[s.name := s], Supersede(inserted, VersionKey(s.name, row.version - 1), expiry);
    forall n | n in secrets' ensures CurrentRow(secrets', versions', n) {
      assert CurrentRow(secrets, versions, s.name) && CurrentRow(secrets, versions, n);
      PutKeepsCurrent(secrets, versions, s, row, expiry, n);
    }
    forall k | k in versions' ensures PlacedRow(secrets', versions', k) {
      PutKeepsPlaced(secrets, versions, s, row, expiry, k);
    }
  }

  lemma DeleteKeepsGood(secrets: Secrets, versions: Versions, name: string)
    requires GoodRows(secrets, versions) && name in secrets
    ensures GoodRows(secrets - {name}, map k | k in versions && !OwnRow(name, k) :: versions[k])
  {
    var secrets' := secrets - {name};
    var versions' := map k | k in versions && !OwnRow(name, k) :: versions[k];
    assert CurrentRow(secrets, versions, name);
    ValidNameHasNoNul(name);
    forall n | n in secrets' ensures CurrentRow(secrets', versions', n) {
      assert CurrentRow(secrets, versions, n);
      RowKey(n, secrets[n].currentVersion);
      ScanRefinesOwnership(name, VersionKey(n, secrets[n].currentVersion));
    }
    forall k | k in versions' ensures PlacedRow(secrets', versions', k) {
      assert PlacedRow(secrets, versions, k);
      SplitKey(k);
      ScanRefinesOwnership(name, k);
    }
  }

  ghost predicate SameSecret(a: SecretRecord, b: SecretRecord) {
    a.name == b.name && a.currentVersion == b.currentVersion
  }

  ghost predicate SameRow(a: VersionRecord, b: VersionRecord) {
    a.version == b.version && a.expiresAt == b.expiresAt
  }

  lemma SecretChangeKeepsGood(secrets: Secrets, versions: Versions, s: SecretRecord)
    requires GoodRows(secrets, versions) && s.name in secrets && SameSecret(secrets[s.name], s)
    ensures GoodRows(secrets[s.name := s], versions)
  {
    var secrets' := secrets[s.name := s];
    forall n | n in secrets' ensures CurrentRow(secrets', versions, n) { assert CurrentRow(secrets, versions, n); }
    forall k | k in versions ensures PlacedRow(secrets', versions, k) { assert PlacedRow(secrets, versions, k); }
  }

  lemma RowChangeKeepsGood(secrets: Secrets, versions: Versions, key: string, row: VersionRecord)
    requires GoodRows(secrets, versions) && key in versions && SameRow(versions[key], row)
    ensures GoodRows(secrets, versions[key := row])
  {
    var versions' := versions[key := row];
    forall n | n in secrets ensures CurrentRow(secrets, versions', n) { assert CurrentRow(secrets, versions, n); }
    forall k | k in versions' ensures PlacedRow(secrets, versions', k) { assert PlacedRow(secrets, versions, k); }
  }

  /** Dropping rows that have an expiry never touches a current row. */
  lemma ExpiryKeepsGood(secrets: Secrets, versions: Versions, now: I64)
    requires GoodRows(secrets, versions)
    ensures GoodRows(secrets, map k | k in versions && !Expired(versions[k], now) :: versions[k])
  {
    var versions' := map k | k in versions && !Expired(versions[k], now) :: versions[k];
    forall n | n in secrets ensures CurrentRow(secrets, versions', n) { assert CurrentRow(secrets, versions, n); }
    forall k | k in versions' ensures PlacedRow(secrets, versions', k) { assert PlacedRow(secrets, versions, k); }
  }

  lemma RestoreKeepsGood(t: Tables, g: Tables)
    requires Good(t) && Good(g)
    ensures Good(RestoreEffect(t, Dump(g)).0)
  {
    if RestoreEffect(t, Dump(g)).1 == Ok {
      DumpAcceptedIff(g);
      RestoreOfDump(g, t);
    }
  }

  lemma StepKeepsGood(t: Tables, node: U64, c: Command)
    requires Good(t) && ServiceShaped(c)
    ensures Good(Apply(t, node, c).0)
  {
    if Apply(t, node, c).1 == Ok {
      match c
      case CreateSecret(s, row) => CreateKeepsGood(t.secrets, t.versions, s, row);
      case PutVersion(name, expected, row, expiry, meta) =>
        assert CurrentRow(t.secrets, t.versions, name);
        PutKeepsGood(t.secrets, t.versions, WithMeta(t.secrets[name].(currentVersion := row.version), meta), row, expiry);
      case UpdateMeta(name, expected, meta) =>
        assert CurrentRow(t.secrets, t.versions, name);
        SecretChangeKeepsGood(t.secrets, t.versions, WithMeta(t.secrets[name], meta));
      case DeleteSecret(name) => DeleteKeepsGood(t.secrets, t.versions, name);
      case ExpireGraceVersions(now) => ExpiryKeepsGood(t.secrets, t.versions, now);
      case RewrapVersion(name, version, keyId, dek, at) =>
        var key := VersionKey(name, version);
        if key in t.versions {
          RowChangeKeepsGood(t.secrets, t.versions, key, Rewrapped(t.versions[key], keyId, dek, at));
        }
      case RestoreDatabase(data) =>
        var g: Tables :| Good(g) && data == Dump(g);
        RestoreKeepsGood(t, g);
      case _ =>
    } else {
      RejectionChangesNothing(t, node, c);
    }
  }

  /** Over every run of service commands the invariant holds, on whichever node applies them. */
  lemma {:induction false} RunKeepsGood(t: Tables, node: U64, cs: seq<Command>)
    requires Good(t) && AllShaped(cs)
    ensures Good(Run(t, node, cs))
  {
    if cs != [] {
      var init := cs[..|cs| - 1];
      RunKeepsGood(t, node, init);
      StepKeepsGood(Run(t, node, init), node, cs[|cs| - 1]);
    }
  }

  /** A secret created into empty tables stands alone there. */
  lemma CreateAlone(node: U64, s: SecretRecord, row: VersionRecord)
    requires ValidName(s.name) && row.version == 1
    ensures Apply(EMPTY_TABLES, node, CreateSecret(s, row)) ==
            (EMPTY_TABLES.(secrets := map[s.name := s], versions := map[VersionKey(s.name, 1) := row]), Ok)
  {
  }

  /** Deleting it leaves the tables empty again. */
  lemma DeleteAlone(node: U64, s: SecretRecord, row: VersionRecord)
    requires ValidName(s.name) && row.version == 1
    ensures var t := EMPTY_TABLES.(secrets := map[s.name := s], versions := map[VersionKey(s.name, 1) := row]);
            Apply(t, node, DeleteSecret(s.name)) == (EMPTY_TABLES, Ok)
  {
    var key := VersionKey(s.name, 1);
    var t := EMPTY_TABLES.(secrets := map[s.name := s], versions := map[key := row]);
    ValidNameHasNoNul(s.name);
    assert OwnsKey(s.name, key);
    var u := DeleteSecretEffect(t, s.name).0;
    assert u.secrets == map[] && u.versions == map[];
  }

  // ----- the reader -----

  ghost function CurrentVersionOf(t: Tables, name: string): Option<(SecretRecord, VersionRecord)> {
    if name !in t.secrets then None
    else
      var key := VersionKey(name, t.secrets[name].currentVersion);
      if key !in t.versions then None else Some((t.secrets[name], t.versions[key]))
  }

  /** The reader finds a live current row exactly for the secrets that exist, after any service run. */
  lemma CurrentVersionNeverMissing(t: Tables, node: U64, cs: seq<Command>, name: string, now: I64)
    requires Good(t) && AllShaped(cs)
    ensures var u := Run(t, node, cs);
            && (CurrentVersionOf(u, name).Some? <==> name in u.secrets)
            && (name in u.secrets ==>
                 var (s, row) := CurrentVersionOf(u, name).value;
                 row.version == s.currentVersion && VersionActive(now, row.expiresAt))
  {
    var u := Run(t, node, cs);
    RunKeepsGood(t, node, cs);
    if name in u.secrets {
      assert CurrentRow(u.secrets, u.versions, name);
      RowKey(name, u.secrets[name].currentVersion);
      assert PlacedRow(u.secrets, u.versions, VersionKey(name, u.secrets[name].currentVersion));
    }
  }

  /** The shape matters: the state machine itself accepts a create that names a missing current row. */
  lemma UnshapedCreateBreaksGood(s: SecretRecord, row: VersionRecord)
    requires ValidName(s.name) && row.version == 1 && s.currentVersion == 2
    ensures Good(EMPTY_TABLES)
    ensures CreateSecretEffect(EMPTY_TABLES, s, row).1 == Ok
    ensures CurrentVersionOf(CreateSecretEffect(EMPTY_TABLES, s, row).0, s.name).None?
  {
    RowKey(s.name, 1);
    RowKey(s.name, 2);
  }
}
