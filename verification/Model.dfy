/** The stored records, the replicated commands and the eight tables. */
module Model {
  import opened Base

  datatype SecretKind = Manual | Automatic
  datatype SecretFormat = Opaque | Userpass

  datatype RotationTarget =
    PgReplica(hosts: seq<string>, database: string, role: Option<string>, loginSecret: Option<string>)

  datatype SecretRecord = SecretRecord(
    name: string,
    kind: SecretKind,
    format: SecretFormat,
    description: Option<string>,
    rotationInterval: Option<I64>,
    graceSecs: I64,
    currentVersion: I32,
    nextRotationAt: OptTime,
    createdAt: I64,
    updatedAt: I64,
    target: Option<RotationTarget>)

  // ----- what the key service and the cipher produce, as free terms -----

  type Dek = nat

  datatype KeyContext = KeyContext(secret: string, version: I32)

  /** A data key under a master key, bound to an encryption context; or bytes from elsewhere. */
  datatype WrappedKey =
    | WrappedKey(dek: Dek, keyId: string, context: KeyContext, salt: nat)
    | ForeignBlob(bytes: Bytes)

  datatype Plaintext = RawValue(value: string) | UserPass(username: string, password: string)

  datatype Ciphertext =
    | Sealed(dek: Dek, nonce: Bytes, aad: Bytes, plaintext: Plaintext)
    | ForeignCiphertext(bytes: Bytes)

  datatype VersionRecord = VersionRecord(
    version: I32,
    kmsKeyId: string,
    wrappedDek: WrappedKey,
    nonce: Bytes,
    ciphertext: Ciphertext,
    aad: Bytes,
    createdAt: I64,
    expiresAt: OptTime,
    wrappedRotationAt: OptTime)

  datatype RoleRecord = RoleRecord(
    name: string,
    description: Option<string>,
    isAdmin: bool,
    permissions: seq<(string, string)>,
    createdAt: I64)

  datatype TokenRecord = TokenRecord(
    name: string,
    role: Option<string>,
    fingerprint: Bytes,
    createdAt: I64,
    lastUsedAt: OptTime,
    revokedAt: OptTime)

  datatype LockoutRecord = LockoutRecord(failures: U32, windowStart: I64, lockedUntil: OptTime)

  datatype AuditEntry = AuditEntry(
    at: I64,
    actor: Option<string>,
    clientIp: Option<string>,
    action: string,
    secretName: Option<string>,
    outcome: string,
    nodeId: U64)

  datatype KmsRewrapState = KmsRewrapState(lastCompletedRotationAt: I64, lastSweptAt: I64, updatedAt: I64)

  datatype NextRotation = Keep | Set(at: OptTime)

  datatype BackupData = BackupData(
    formatVersion: U32,
    secrets: seq<(string, SecretRecord)>,
    versions: seq<(string, VersionRecord)>,
    roles: seq<(string, RoleRecord)>,
    tokens: seq<(Bytes, TokenRecord)>,
    tokensByName: seq<(string, Bytes)>,
    audit: seq<(nat, AuditEntry)>,
    kmsRewrap: seq<(string, KmsRewrapState)>)

  /** The metadata part that PutVersion and UpdateMeta share. */
  datatype MetaChange = MetaChange(
    description: Option<string>,
    rotationInterval: Option<I64>,
    graceSecs: Option<I64>,
    nextRotation: NextRotation,
    updatedAt: I64)

  datatype Command =
    | CreateSecret(secret: SecretRecord, row: VersionRecord)
    | PutVersion(name: string, expectedCurrent: I32, row: VersionRecord, supersedeExpiresAt: OptTime, meta: MetaChange)
    | UpdateMeta(name: string, expectedCurrent: I32, meta: MetaChange)
    | DeleteSecret(name: string)
    | CreateRole(role: RoleRecord)
    | SetPermissions(name: string, permissions: seq<(string, string)>)
    | DeleteRole(name: string)
    | AddToken(token: TokenRecord)
    | RevokeToken(name: string, revokedAt: I64)
    | TouchToken(fingerprint: Bytes, at: I64)
    | ExpireGraceVersions(now: I64)
    | RewrapVersion(name: string, version: I32, kmsKeyId: string, wrappedDek: WrappedKey, wrappedRotationAt: I64)
    | SetKmsRewrapState(state: KmsRewrapState)
    | AppendAudit(entry: AuditEntry)
    | RestoreDatabase(data: BackupData)
    | RecordAuthFailure(key: string, now: I64, max: U32, windowSecs: I64, lockoutSecs: I64)
  {
    /** Local commands bypass the replicated log. */
    predicate IsLocal() {
      AppendAudit? || RecordAuthFailure?
    }
  }

  datatype ConflictReason =
    | InvalidName | InvalidVersion | SecretExists | RoleExists | RoleInUse
    | FingerprintTaken | TokenExists | RestoreRefused

  /** Result of one command; storage-engine failures are outside the model. */
  datatype Outcome = Ok | NotFound | Conflict(why: ConflictReason) | VersionConflict

  const KMS_REWRAP_STATE_KEY: string := "state"
  const MAX_AUDIT_KEY: nat := 0x10_0000_0000_0000

  /** Every table of one node. */
  datatype Tables = Tables(
    secrets: map<string, SecretRecord>,
    versions: map<string, VersionRecord>,
    roles: map<string, RoleRecord>,
    tokens: map<Bytes, TokenRecord>,
    tokensByName: map<string, Bytes>,
    kmsRewrap: map<string, KmsRewrapState>,
    lockouts: map<string, LockoutRecord>,
    audit: map<nat, AuditEntry>)

  /** The six tables a snapshot carries. */
  datatype Shared = Shared(
    secrets: map<string, SecretRecord>,
    versions: map<string, VersionRecord>,
    roles: map<string, RoleRecord>,
    tokens: map<Bytes, TokenRecord>,
    tokensByName: map<string, Bytes>,
    kmsRewrap: map<string, KmsRewrapState>)

  function SharedOf(t: Tables): Shared {
    Shared(t.secrets, t.versions, t.roles, t.tokens, t.tokensByName, t.kmsRewrap)
  }

  const EMPTY_TABLES: Tables := Tables(map[], map[], map[], map[], map[], map[], map[], map[])

  // ----- clock arithmetic -----

  const MAX_ROTATION_INTERVAL_SECS: I64 := 100 * 365 * 24 * 60 * 60
  const MAX_GRACE_SECS: I64 := MAX_ROTATION_INTERVAL_SECS

  function SaturatingAdd(a: I64, b: I64): (r: I64)
    ensures I64_MIN <= a + b <= I64_MAX ==> r == a + b
    ensures b > 0 ==> (r > a <==> a < I64_MAX)
    ensures b >= 0 ==> r >= a
  {
    if a + b > I64_MAX then I64_MAX else if a + b < I64_MIN then I64_MIN else a + b
  }

  function NextRotationUnix(from: I64, interval: I64): I64 {
    SaturatingAdd(from, interval)
  }

  function GraceExpiryUnix(supersededAt: I64, grace: I64): I64 {
    SaturatingAdd(supersededAt, grace)
  }

  function NextVersion(current: I32): Option<I32> {
    if current == I32_MAX then None else Some(current + 1)
  }

  predicate VersionActive(now: I64, expiresAt: OptTime) {
    match expiresAt
    case None => true
    case Some(expiry) => now < expiry
  }
}
