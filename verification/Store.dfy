/** The store as it runs: a write transaction that changes tables row by row, and the committed database. */
module Store {
  import opened Base
  import opened Keys
  import opened Model
  import opened Effects
  import opened Backup
  import opened Scan

  // ----- passes over one table -----

  /** The keys of one secret's rows: a byte-range scan filtered by what each key parses to. */
  method OwnKeys(versions: map<string, VersionRecord>, name: string) returns (keys: seq<string>)
    ensures forall k :: k in keys <==> k in versions && OwnRow(name, k)
  {
    var order := InOrder(versions.Keys);
    keys := Select(order, k => InScanRange(name, k) && VersionFromKey(name, k).Some?);
    forall k ensures InScanRange(name, k) && VersionFromKey(name, k).Some? <==> OwnRow(name, k) { ScanFinds(name, k); }
  }

  lemma ScanFinds(name: string, key: string)
    ensures InScanRange(name, key) && VersionFromKey(name, key).Some? <==> OwnRow(name, key)
  {
    if NUL in name {
      if VersionFromKey(name, key).Some? { KeyOfSplit(key, name, VersionFromKey(name, key).value); }
    } else {
      ScanRefinesOwnership(name, key);
    }
  }

  method ExpiredKeys(versions: map<string, VersionRecord>, now: I64) returns (keys: seq<string>)
    ensures forall k :: k in keys <==> k in versions && Expired(versions[k], now)
  {
    var order := InOrder(versions.Keys);
    keys := Select(order, k => k in versions && Expired(versions[k], now));
  }

  method RemoveAll<V>(table: map<string, V>, keys: seq<string>) returns (left: map<string, V>)
    ensures left == map k | k in table && k !in keys :: table[k]
  {
    left := table;
    for i := 0 to |keys|
      invariant left == map k | k in table && k !in keys[..i] :: table[k]
    {
      left := left - {keys[i]};
      assert keys[..i + 1] == keys[..i] + [keys[i]];
    }
    assert keys[..|keys|] == keys;
  }

  /** Clear a table, then insert the rows in the order they come. */
  method RestoreTable<K, V>(table: map<K, V>, rows: seq<(K, V)>) returns (m: map<K, V>)
    ensures m == Collapse(rows)
  {
    m := table;
    var keys := table.Keys;
    while keys != {}
      invariant m.Keys == keys
      decreases |keys|
    {
      var k :| k in keys;
      m := m - {k};
      keys := keys - {k};
    }
    for i := 0 to |rows|
      invariant m == Collapse(rows[..i])
    {
      assert rows[..i + 1][..i] == rows[..i];
      m := m[rows[i].0 := rows[i].1];
    }
    assert rows[..|rows|] == rows;
  }

  method DumpStrings<V>(table: map<string, V>) returns (rows: seq<(string, V)>)
    ensures rows == DumpTable(table)
  {
    var order := InOrder(table.Keys);
    rows := [];
    for i := 0 to |order|
      invariant |rows| == i && forall j :: 0 <= j < i ==> rows[j] == (order[j], table[order[j]])
    {
      rows := rows + [(order[i], table[order[i]])];
    }
  }

  method DumpIndexes(table: map<nat, AuditEntry>) returns (rows: seq<(nat, AuditEntry)>)
    ensures rows == DumpAudit(table)
  {
    var order := IndexesInOrder(table.Keys);
    rows := [];
    for i := 0 to |order|
      invariant |rows| == i && forall j :: 0 <= j < i ==> rows[j] == (order[j], table[order[j]])
    {
      rows := rows + [(order[i], table[order[i]])];
    }
  }

  method CheckSecretRows(data: BackupData) returns (ok: bool)
    ensures ok <==> AcceptableRows(data)
  {
    for i := 0 to |data.secrets|
      invariant forall j :: 0 <= j < i ==> ValidName(data.secrets[j].0)
    {
      if !ValidName(data.secrets[i].0) { return false; }
    }
    for i := 0 to |data.versions|
      invariant forall j :: 0 <= j < i ==> ValidVersionKey(data.versions[j].0)
    {
      if !ValidVersionKey(data.versions[i].0) { return false; }
    }
    for i := 0 to |data.audit|
      invariant forall j :: 0 <= j < i ==> data.audit[j].0 <= MAX_AUDIT_KEY
    {
      if data.audit[i].0 > MAX_AUDIT_KEY { return false; }
    }
    ok := true;
  }

  /** One past the last audit key of the plausible range. */
  method FindNextAuditKey(audit: map<nat, AuditEntry>) returns (next: nat)
    ensures next == NextAuditKey(audit.Keys)
  {
    var order := IndexesInOrder(audit.Keys);
    var i := |order|;
    while i > 0 && order[i - 1] > MAX_AUDIT_KEY
      invariant 0 <= i <= |order|
      invariant forall j :: i <= j < |order| ==> order[j] > MAX_AUDIT_KEY
    {
      i := i - 1;
    }
    next := if i == 0 then 0 else order[i - 1] + 1;
    IndexKeysAscend(audit.Keys);
    LastPlausible(audit.Keys, order, i);
    NextAuditKeyUnique(audit.Keys, next, NextAuditKey(audit.Keys));
  }

  lemma LastPlausible(keys: set<nat>, order: seq<nat>, i: nat)
    requires Ascending(order, IndexLe) && (forall k :: k in order <==> k in keys)
    requires i <= |order| && (i > 0 ==> order[i - 1] <= MAX_AUDIT_KEY)
    requires forall j :: i <= j < |order| ==> order[j] > MAX_AUDIT_KEY
    ensures IsNextAuditKey(keys, if i == 0 then 0 else order[i - 1] + 1)
  {
    var next := if i == 0 then 0 else order[i - 1] + 1;
    forall k | k in keys && k <= MAX_AUDIT_KEY ensures k < next {
      assert k in order;
      var j :| 0 <= j < |order| && order[j] == k;
      assert j < i;
      assert j < i - 1 ==> Before(order[j], order[i - 1], IndexLe);
    }
    assert i > 0 ==> order[i - 1] in order;
  }

  lemma NextAuditKeyUnique(keys: set<nat>, a: nat, b: nat)
    requires IsNextAuditKey(keys, a) && IsNextAuditKey(keys, b)
    ensures a == b
  {
  }

  // ----- the write transaction -----

  class WriteTransaction {
    var secrets: map<string, SecretRecord>
    var versions: map<string, VersionRecord>
    var roles: map<string, RoleRecord>
    var tokens: map<Bytes, TokenRecord>
    var tokensByName: map<string, Bytes>
    var kmsRewrap: map<string, KmsRewrapState>
    var lockouts: map<string, LockoutRecord>
    var audit: map<nat, AuditEntry>

    function Contents(): Tables
      reads this
    {
      Tables(secrets, versions, roles, tokens, tokensByName, kmsRewrap, lockouts, audit)
    }

    constructor (t: Tables)
      ensures Contents() == t
    {
      secrets := t.secrets;
      versions := t.versions;
      roles := t.roles;
      tokens := t.tokens;
      tokensByName := t.tokensByName;
      kmsRewrap := t.kmsRewrap;
      lockouts := t.lockouts;
      audit := t.audit;
    }

    method CreateSecret(secret: SecretRecord, row: VersionRecord) returns (o: Outcome)
      modifies this
      ensures (Contents(), o) == CreateSecretEffect(old(Contents()), secret, row)
    {
      o := CheckSecretRow(secret.name, row.version);
      if o != Ok { return; }
      if secret.name in secrets { return Conflict(SecretExists); }
      secrets := secrets[secret.name := secret];
      versions := versions[VersionKey(secret.name, row.version) := row];
    }

    method PutVersion(name: string, expected: I32, row: VersionRecord, expiry: OptTime, meta: MetaChange) returns (o: Outcome)
      modifies this
      ensures (Contents(), o) == PutVersionEffect(old(Contents()), name, expected, row, expiry, meta)
    {
      o := CheckSecretRow(name, row.version);
      if o != Ok { return; }
      if name !in secrets { return NotFound; }
      var secret := secrets[name];
      if secret.currentVersion != expected { return VersionConflict; }
      versions := versions[VersionKey(name, row.version) := row];
      if expiry.Some? {
        var previousKey := VersionKey(name, expected);
        if previousKey in versions {
          var previous := versions[previousKey];
          if previous.expiresAt.None? {
            versions := versions[previousKey := previous.(expiresAt := expiry)];
          }
        }
      }
      secret := secret.(currentVersion := row.version);
      secret := ApplyMeta(secret, meta);
      secrets := secrets[name := secret];
    }

    method UpdateMeta(name: string, expected: I32, meta: MetaChange) returns (o: Outcome)
      modifies this
      ensures (Contents(), o) == UpdateMetaEffect(old(Contents()), name, expected, meta)
    {
      if name !in secrets { return NotFound; }
      if secrets[name].currentVersion != expected { return VersionConflict; }
      var secret := ApplyMeta(secrets[name], meta);
      secrets := secrets[name := secret];
      o := Ok;
    }

    static method ApplyMeta(secret: SecretRecord, meta: MetaChange) returns (s: SecretRecord)
      ensures s == WithMeta(secret, meta)
    {
      s := secret;
      if meta.description.Some? { s := s.(description := meta.description); }
      if meta.rotationInterval.Some? { s := s.(rotationInterval := meta.rotationInterval); }
      if meta.graceSecs.Some? { s := s.(graceSecs := meta.graceSecs.value); }
      if meta.nextRotation.Set? { s := s.(nextRotationAt := meta.nextRotation.at); }
      s := s.(updatedAt := meta.updatedAt);
    }

    /** The range scan and the removals leave exactly the rows that are not the secret's own. */
    method DeleteSecret(name: string) returns (o: Outcome)
      modifies this
      ensures (Contents(), o) == DeleteSecretEffect(old(Contents()), name)
    {
      if name !in secrets { return NotFound; }
      secrets := secrets - {name};
      var keys := OwnKeys(versions, name);
      versions := RemoveAll(versions, keys);
      assert versions == map k | k in old(versions) && !OwnRow(name, k) :: old(versions)[k];
      o := Ok;
    }

    method DeleteRole(name: string) returns (o: Outcome)
      modifies this
      ensures (Contents(), o) == DeleteRoleEffect(old(Contents()), name)
    {
      var rest := tokens.Keys;
      while rest != {}
        invariant rest <= tokens.Keys
        invariant forall f :: f in tokens && f !in rest ==> tokens[f].role != Some(name)
        decreases |rest|
      {
        var f :| f in rest;
        if tokens[f].role == Some(name) { return Conflict(RoleInUse); }
        rest := rest - {f};
      }
      if name !in roles { return NotFound; }
      roles := roles - {name};
      o := Ok;
    }

    method AddToken(token: TokenRecord) returns (o: Outcome)
      modifies this
      ensures (Contents(), o) == AddTokenEffect(old(Contents()), token)
    {
      if token.fingerprint in tokens { return Conflict(FingerprintTaken); }
      if token.name in tokensByName { return Conflict(TokenExists); }
      tokensByName := tokensByName[token.name := token.fingerprint];
      tokens := tokens[token.fingerprint := token];
      o := Ok;
    }

    method RevokeToken(name: string, revokedAt: I64) returns (o: Outcome)
      modifies this
      ensures (Contents(), o) == RevokeTokenEffect(old(Contents()), name, revokedAt)
    {
      if name !in tokensByName { return NotFound; }
      var fingerprint := tokensByName[name];
      if fingerprint !in tokens { return NotFound; }
      var token := tokens[fingerprint];
      if token.revokedAt.Some? { return NotFound; }
      tokens := tokens[fingerprint := token.(revokedAt := Some(revokedAt))];
      o := Ok;
    }

    method ExpireGraceVersions(now: I64)
      modifies this
      ensures (Contents(), Ok) == ExpireEffect(old(Contents()), now)
    {
      var expired := ExpiredKeys(versions, now);
      versions := RemoveAll(versions, expired);
      assert versions == map k | k in old(versions) && !Expired(old(versions)[k], now) :: old(versions)[k];
    }

    method RewrapVersion(name: string, version: I32, kmsKeyId: string, wrappedDek: WrappedKey, at: I64)
      modifies this
      ensures (Contents(), Ok) == RewrapEffect(old(Contents()), name, version, kmsKeyId, wrappedDek, at)
    {
      var key := VersionKey(name, version);
      if key !in versions { return; }
      var record := versions[key];
      if record.wrappedRotationAt.Some? && record.wrappedRotationAt.value >= at {
        assert versions == versions[key := record];
        return;
      }
      record := record.(kmsKeyId := kmsKeyId);
      record := record.(wrappedDek := wrappedDek);
      record := record.(wrappedRotationAt := Some(at));
      versions := versions[key := record];
    }

    method AppendAudit(nodeId: U64, entry: AuditEntry)
      modifies this
      ensures (Contents(), Ok) == AppendAuditEffect(old(Contents()), nodeId, entry)
    {
      var next := FindNextAuditKey(audit);
      audit := audit[next := entry.(nodeId := nodeId)];
    }

    method RecordAuthFailure(key: string, now: I64, max: U32, windowSecs: I64, lockoutSecs: I64)
      modifies this
      ensures (Contents(), Ok) == AuthFailureEffect(old(Contents()), key, now, max, windowSecs, lockoutSecs)
    {
      var record := LockoutRecord(0, now, None);
      if key in lockouts { record := lockouts[key]; }
      if Wrap64(now - record.windowStart) >= windowSecs {
        record := record.(failures := 0, windowStart := now);
      }
      record := record.(failures := (record.failures + 1) % 0x1_0000_0000);
      if record.failures >= max {
        record := record.(lockedUntil := Some(Wrap64(now + lockoutSecs)));
      }
      lockouts := lockouts[key := record];
    }

    /** Validates every row before it touches a table, so a refused restore has written nothing. */
    method RestoreTables(data: BackupData) returns (o: Outcome)
      modifies this
      ensures (Contents(), o) == RestoreEffect(old(Contents()), data)
    {
      if data.formatVersion != BACKUP_VERSION { return Conflict(RestoreRefused); }
      var ok := CheckSecretRows(data);
      if !ok { return Conflict(RestoreRefused); }
      secrets := RestoreTable(secrets, data.secrets);
      versions := RestoreTable(versions, data.versions);
      roles := RestoreTable(roles, data.roles);
      tokensByName := RestoreTable(tokensByName, data.tokensByName);
      tokens := RestoreTable(tokens, data.tokens);
      audit := RestoreTable(audit, data.audit);
      kmsRewrap := RestoreTable(kmsRewrap, data.kmsRewrap);
      o := Ok;
    }

    /** Commands about roles and the state rows that change at most one row. */
    method ApplySmall(c: Command) returns (o: Outcome)
      requires c.CreateRole? || c.SetPermissions? || c.TouchToken? || c.SetKmsRewrapState?
      modifies this
      ensures (Contents(), o) == Apply(old(Contents()), 0, c)
    {
      match c
      case CreateRole(role) =>
        if role.name in roles { return Conflict(RoleExists); }
        roles := roles[role.name := role];
        o := Ok;
      case SetPermissions(name, permissions) =>
        if name !in roles { return NotFound; }
        roles := roles[name := roles[name].(permissions := permissions)];
        o := Ok;
      case TouchToken(fingerprint, at) =>
        if fingerprint in tokens {
          tokens := tokens[fingerprint := tokens[fingerprint].(lastUsedAt := Some(at))];
        }
        o := Ok;
      case SetKmsRewrapState(state) =>
        kmsRewrap := kmsRewrap[KMS_REWRAP_STATE_KEY := state];
        o := Ok;
    }

    /** Every command does to the tables what the state machine says. */
    method ApplyCommand(nodeId: U64, c: Command) returns (o: Outcome)
      modifies this
      ensures (Contents(), o) == Apply(old(Contents()), nodeId, c)
    {
      match c
      case CreateSecret(secret, row) => o := CreateSecret(secret, row);
      case PutVersion(name, expected, row, expiry, meta) => o := PutVersion(name, expected, row, expiry, meta);
      case UpdateMeta(name, expected, meta) => o := UpdateMeta(name, expected, meta);
      case DeleteSecret(name) => o := DeleteSecret(name);
      case DeleteRole(name) => o := DeleteRole(name);
      case AddToken(token) => o := AddToken(token);
      case RevokeToken(name, at) => o := RevokeToken(name, at);
      case ExpireGraceVersions(now) => ExpireGraceVersions(now); o := Ok;
      case RewrapVersion(name, version, keyId, dek, at) => RewrapVersion(name, version, keyId, dek, at); o := Ok;
      case AppendAudit(entry) => AppendAudit(nodeId, entry); o := Ok;
      case RestoreDatabase(data) => o := RestoreTables(data);
      case RecordAuthFailure(key, now, max, window, lockout) => RecordAuthFailure(key, now, max, window, lockout); o := Ok;
      case _ => o := ApplySmall(c);
    }
  }

  // ----- the committed database -----

  class RedbStore {
    const nodeId: U64
    var tables: Tables

    constructor (nodeId: U64, t: Tables)
      ensures this.nodeId == nodeId && tables == t
    {
      this.nodeId := nodeId;
      tables := t;
    }

    /** One transaction: committed when the command succeeds, dropped when it is rejected. */
    method ApplyOne(c: Command) returns (o: Outcome)
      modifies this
      ensures (tables, o) == Apply(old(tables), nodeId, c)
      ensures o != Ok ==> tables == old(tables)
    {
      var txn := new WriteTransaction(tables);
      o := txn.ApplyCommand(nodeId, c);
      RejectionChangesNothing(tables, nodeId, c);
      if o == Ok { tables := txn.Contents(); }
    }

    /** A run of commands, each in a transaction of its own. */
    method ApplyAll(cs: seq<Command>)
      modifies this
      ensures tables == Run(old(tables), nodeId, cs)
    {
      for i := 0 to |cs|
        invariant tables == Run(old(tables), nodeId, cs[..i])
      {
        assert cs[..i + 1][..i] == cs[..i];
        RejectionChangesNothing(tables, nodeId, cs[i]);
        var o := ApplyOne(cs[i]);
      }
      assert cs[..|cs|] == cs;
    }

    method DumpAll() returns (data: BackupData)
      ensures data == Dump(tables)
    {
      var secrets := DumpStrings(tables.secrets);
      var versions := DumpStrings(tables.versions);
      var roles := DumpStrings(tables.roles);
      var tokens := DumpStrings(tables.tokens);
      var tokensByName := DumpStrings(tables.tokensByName);
      var audit := DumpIndexes(tables.audit);
      var kmsRewrap := DumpStrings(tables.kmsRewrap);
      data := BackupData(BACKUP_VERSION, secrets, versions, roles, tokens, tokensByName, audit, kmsRewrap);
    }
  }
}
