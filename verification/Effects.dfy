/** What each command does to the tables, as a function of the tables before it. */
module Effects {
  import opened Base
  import opened Keys
  import opened Model

  const BACKUP_VERSION: U32 := 1

  type Effect = (Tables, Outcome)

  function CheckSecretRow(name: string, version: I32): Outcome {
    if !ValidName(name) then Conflict(InvalidName)
    else if !ValidVersion(version) then Conflict(InvalidVersion)
    else Ok
  }

  function WithMeta(s: SecretRecord, m: MetaChange): SecretRecord {
    s.(description := if m.description.Some? then m.description else s.description,
       rotationInterval := if m.rotationInterval.Some? then m.rotationInterval else s.rotationInterval,
       graceSecs := if m.graceSecs.Some? then m.graceSecs.value else s.graceSecs,
       nextRotationAt := if m.nextRotation.Set? then m.nextRotation.at else s.nextRotationAt,
       updatedAt := m.updatedAt)
  }

  function CreateSecretEffect(t: Tables, secret: SecretRecord, row: VersionRecord): Effect {
    var check := CheckSecretRow(secret.name, row.version);
    if check != Ok then (t, check)
    else if secret.name in t.secrets then (t, Conflict(SecretExists))
    else
      (t.(secrets := t.secrets[secret.name := secret],
          versions := t.versions[VersionKey(secret.name, row.version) := row]), Ok)
  }

  /** The superseded row gets the expiry unless it has one already. */
  function Supersede(versions: map<string, VersionRecord>, key: string, expiry: OptTime): map<string, VersionRecord> {
    if expiry.Some? && key in versions && versions[key].expiresAt.None?
    then versions[key := versions[key].(expiresAt := expiry)]
    else versions
  }

  function PutVersionEffect(t: Tables, name: string, expected: I32, row: VersionRecord, expiry: OptTime,
                            meta: MetaChange): Effect
  {
    var check := CheckSecretRow(name, row.version);
    if check != Ok then (t, check)
    else if name !in t.secrets then (t, NotFound)
    else if t.secrets[name].currentVersion != expected then (t, VersionConflict)
    else
      var inserted := t.versions[VersionKey(name, row.version) := row];
      var secret := WithMeta(t.secrets[name].(currentVersion := row.version), meta);
      (t.(versions := Supersede(inserted, VersionKey(name, expected), expiry),
          secrets := t.secrets[name := secret]), Ok)
  }

  function UpdateMetaEffect(t: Tables, name: string, expected: I32, meta: MetaChange): Effect {
    if name !in t.secrets then (t, NotFound)
    else if t.secrets[name].currentVersion != expected then (t, VersionConflict)
    else (t.(secrets := t.secrets[name := WithMeta(t.secrets[name], meta)]), Ok)
  }

  /** Deletion takes the rows the name owns; no byte range is mentioned. */
  ghost function DeleteSecretEffect(t: Tables, name: string): Effect {
    if name !in t.secrets then (t, NotFound)
    else
      (t.(secrets := t.secrets - {name},
          versions := map k | k in t.versions && !OwnRow(name, k) :: t.versions[k]), Ok)
  }

  ghost predicate OwnRow(name: string, key: string) {
    NUL !in name && OwnsKey(name, key)
  }

  predicate RoleInUseBy(tokens: map<Bytes, TokenRecord>, name: string) {
    exists f :: f in tokens && tokens[f].role == Some(name)
  }

  function DeleteRoleEffect(t: Tables, name: string): Effect {
    if RoleInUseBy(t.tokens, name) then (t, Conflict(RoleInUse))
    else if name !in t.roles then (t, NotFound)
    else (t.(roles := t.roles - {name}), Ok)
  }

  function AddTokenEffect(t: Tables, token: TokenRecord): Effect {
    if token.fingerprint in t.tokens then (t, Conflict(FingerprintTaken))
    else if token.name in t.tokensByName then (t, Conflict(TokenExists))
    else
      (t.(tokens := t.tokens[token.fingerprint := token],
          tokensByName := t.tokensByName[token.name := token.fingerprint]), Ok)
  }

  function RevokeTokenEffect(t: Tables, name: string, at: I64): Effect {
    if name !in t.tokensByName then (t, NotFound)
    else
      var f := t.tokensByName[name];
      if f !in t.tokens || t.tokens[f].revokedAt.Some? then (t, NotFound)
      else (t.(tokens := t.tokens[f := t.tokens[f].(revokedAt := Some(at))]), Ok)
  }

  function TouchTokenEffect(t: Tables, f: Bytes, at: I64): Effect {
    if f !in t.tokens then (t, Ok)
    else (t.(tokens := t.tokens[f := t.tokens[f].(lastUsedAt := Some(at))]), Ok)
  }

  predicate Expired(record: VersionRecord, now: I64) {
    record.expiresAt.Some? && record.expiresAt.value <= now
  }

  function ExpireEffect(t: Tables, now: I64): Effect {
    (t.(versions := map k | k in t.versions && !Expired(t.versions[k], now) :: t.versions[k]), Ok)
  }

  function Rewrapped(r: VersionRecord, kmsKeyId: string, wrappedDek: WrappedKey, at: I64): VersionRecord {
    if r.wrappedRotationAt.Some? && r.wrappedRotationAt.value >= at then r
    else r.(kmsKeyId := kmsKeyId, wrappedDek := wrappedDek, wrappedRotationAt := Some(at))
  }

  function RewrapEffect(t: Tables, name: string, version: I32, kmsKeyId: string, wrappedDek: WrappedKey,
                        at: I64): Effect
  {
    var key := VersionKey(name, version);
    if key !in t.versions then (t, Ok)
    else (t.(versions := t.versions[key := Rewrapped(t.versions[key], kmsKeyId, wrappedDek, at)]), Ok)
  }

  /** One past the greatest audit key inside the plausible range, or zero. */
  ghost predicate IsNextAuditKey(keys: set<nat>, k: nat) {
    && k <= MAX_AUDIT_KEY + 1
    && (forall j :: j in keys && j <= MAX_AUDIT_KEY ==> j < k)
    && (k == 0 || k - 1 in keys)
  }

  lemma {:induction false} NextAuditKeyExists(keys: set<nat>)
    ensures exists k :: IsNextAuditKey(keys, k)
  {
    if keys == {} {
      assert IsNextAuditKey(keys, 0);
    } else {
      var x :| x in keys;
      var rest := keys - {x};
      NextAuditKeyExists(rest);
      var k :| IsNextAuditKey(rest, k);
      assert forall j :: j in keys ==> j == x || j in rest;
      assert IsNextAuditKey(keys, if x <= MAX_AUDIT_KEY && x >= k then x + 1 else k);
    }
  }

  ghost function NextAuditKey(keys: set<nat>): (k: nat)
    ensures IsNextAuditKey(keys, k)
  {
    NextAuditKeyExists(keys);
    var k :| IsNextAuditKey(keys, k);
    k
  }

  ghost function AppendAuditEffect(t: Tables, nodeId: U64, entry: AuditEntry): Effect {
    (t.(audit := t.audit[NextAuditKey(t.audit.Keys) := entry.(nodeId := nodeId)]), Ok)
  }

  /** Rows of a table file: the last row of a key wins. */
  function Collapse<K, V>(rows: seq<(K, V)>): map<K, V> {
    if rows == [] then map[]
    else Collapse(rows[..|rows| - 1])[rows[|rows| - 1].0 := rows[|rows| - 1].1]
  }

  predicate ValidVersionKey(key: string) {
    match SplitVersionKey(key)
    case None => false
    case Some((name, version)) => ValidName(name) && ValidVersion(version)
  }

  predicate ValidNames(rows: seq<(string, SecretRecord)>) {
    forall i :: 0 <= i < |rows| ==> ValidName(rows[i].0)
  }

  predicate ValidVersionKeys(rows: seq<(string, VersionRecord)>) {
    forall i :: 0 <= i < |rows| ==> ValidVersionKey(rows[i].0)
  }

  predicate PlausibleAudit(rows: seq<(nat, AuditEntry)>) {
    forall i :: 0 <= i < |rows| ==> rows[i].0 <= MAX_AUDIT_KEY
  }

  predicate AcceptableRows(data: BackupData) {
    ValidNames(data.secrets) && ValidVersionKeys(data.versions) && PlausibleAudit(data.audit)
  }

  function RestoreEffect(t: Tables, data: BackupData): Effect {
    if data.formatVersion != BACKUP_VERSION || !AcceptableRows(data) then (t, Conflict(RestoreRefused))
    else
      (Tables(Collapse(data.secrets), Collapse(data.versions), Collapse(data.roles), Collapse(data.tokens),
              Collapse(data.tokensByName), Collapse(data.kmsRewrap), t.lockouts, Collapse(data.audit)), Ok)
  }

  /** One recorded failure of one key. A release build wraps on overflow. */
  function LockStep(before: Option<LockoutRecord>, now: I64, max: U32, window: I64, lockout: I64): LockoutRecord {
    var r0 := if before.Some? then before.value else LockoutRecord(0, now, None);
    var r1 := if Wrap64(now - r0.windowStart) >= window then r0.(failures := 0, windowStart := now) else r0;
    var r2 := r1.(failures := (r1.failures + 1) % 0x1_0000_0000);
    if r2.failures >= max then r2.(lockedUntil := Some(Wrap64(now + lockout))) else r2
  }

  function Lookup<K, V>(m: map<K, V>, k: K): Option<V> {
    if k in m then Some(m[k]) else None
  }

  function AuthFailureEffect(t: Tables, key: string, now: I64, max: U32, window: I64, lockout: I64): Effect {
    (t.(lockouts := t.lockouts[key := LockStep(Lookup(t.lockouts, key), now, max, window, lockout)]), Ok)
  }

  /** The deterministic state machine: tables and outcome after one command. */
  ghost function Apply(t: Tables, nodeId: U64, c: Command): Effect {
    match c
    case CreateSecret(secret, row) => CreateSecretEffect(t, secret, row)
    case PutVersion(name, expected, row, expiry, meta) => PutVersionEffect(t, name, expected, row, expiry, meta)
    case UpdateMeta(name, expected, meta) => UpdateMetaEffect(t, name, expected, meta)
    case DeleteSecret(name) => DeleteSecretEffect(t, name)
    case CreateRole(role) =>
      if role.name in t.roles then (t, Conflict(RoleExists)) else (t.(roles := t.roles[role.name := role]), Ok)
    case SetPermissions(name, permissions) =>
      if name !in t.roles then (t, NotFound)
      else (t.(roles := t.roles[name := t.roles[name].(permissions := permissions)]), Ok)
    case DeleteRole(name) => DeleteRoleEffect(t, name)
    case AddToken(token) => AddTokenEffect(t, token)
    case RevokeToken(name, at) => RevokeTokenEffect(t, name, at)
    case TouchToken(f, at) => TouchTokenEffect(t, f, at)
    case ExpireGraceVersions(now) => ExpireEffect(t, now)
    case RewrapVersion(name, version, kmsKeyId, wrappedDek, at) =>
      RewrapEffect(t, name, version, kmsKeyId, wrappedDek, at)
    case SetKmsRewrapState(state) => (t.(kmsRewrap := t.kmsRewrap[KMS_REWRAP_STATE_KEY := state]), Ok)
    case AppendAudit(entry) => AppendAuditEffect(t, nodeId, entry)
    case RestoreDatabase(data) => RestoreEffect(t, data)
    case RecordAuthFailure(key, now, max, window, lockout) => AuthFailureEffect(t, key, now, max, window, lockout)
  }

  /** A run of commands, each in its own transaction that aborts on rejection. */
  ghost function Run(t: Tables, nodeId: U64, cs: seq<Command>): Tables
    decreases |cs|
  {
    if cs == [] then t
    else
      var before := Run(t, nodeId, cs[..|cs| - 1]);
      var (after, outcome) := Apply(before, nodeId, cs[|cs| - 1]);
      if outcome == Ok then after else before
  }

  lemma {:induction false} RunSplits(t: Tables, nodeId: U64, a: seq<Command>, b: seq<Command>)
    ensures Run(t, nodeId, a + b) == Run(Run(t, nodeId, a), nodeId, b)
  {
    if b == [] {
      assert a + b == a;
    } else {
      assert (a + b)[..|a + b| - 1] == a + b[..|b| - 1];
      RunSplits(t, nodeId, a, b[..|b| - 1]);
    }
  }

  lemma RunOne(t: Tables, nodeId: U64, cs: seq<Command>, j: nat)
    requires j < |cs|
    ensures Run(t, nodeId, cs[..j + 1]) == Apply(Run(t, nodeId, cs[..j]), nodeId, cs[j]).0
  {
    assert cs[..j + 1][..j] == cs[..j];
    RejectionChangesNothing(Run(t, nodeId, cs[..j]), nodeId, cs[j]);
  }

  /** Only creates, new versions and restores add secrets or rows. */
  lemma OthersAddNoKeys(t: Tables, nodeId: U64, c: Command)
    requires !c.CreateSecret? && !c.PutVersion? && !c.RestoreDatabase?
    ensures var u := Apply(t, nodeId, c).0; u.secrets.Keys <= t.secrets.Keys && u.versions.Keys <= t.versions.Keys
  {
  }

  ghost predicate NoRestore(cs: seq<Command>) {
    forall i :: 0 <= i < |cs| ==> !cs[i].RestoreDatabase?
  }

  /** Every rejection leaves every table as it was. */
  lemma RejectionChangesNothing(t: Tables, nodeId: U64, c: Command)
    ensures Apply(t, nodeId, c).1 != Ok ==> Apply(t, nodeId, c).0 == t
  {
  }
}
