/** Sealing and opening a version, and why stored values stay openable. */
module Envelope {
  import opened Base
  import opened Keys
  import opened Model
  import opened Effects
  import opened CurrentVersion
  import opened Grace

  const NONCE_LEN: nat := 24

  // ----- the key service and the cipher -----

  /** The key service gives a data key back only for the master key and context it was wrapped under. */
  function DecryptDataKey(blob: WrappedKey, keyId: string, context: KeyContext): Option<Dek> {
    if blob.WrappedKey? && blob.keyId == keyId && blob.context == context then Some(blob.dek) else None
  }

  function ReencryptDataKey(blob: WrappedKey, keyId: string, context: KeyContext, newKeyId: string, salt: nat)
    : Option<(WrappedKey, string)>
  {
    match DecryptDataKey(blob, keyId, context)
    case None => None
    case Some(dek) => Some((WrappedKey(dek, newKeyId, context, salt), newKeyId))
  }

  function OpenCiphertext(dek: Dek, nonce: Bytes, aad: Bytes, ct: Ciphertext): Option<Plaintext> {
    if ct.Sealed? && ct.dek == dek && ct.nonce == nonce && ct.aad == aad then Some(ct.plaintext) else None
  }

  // ----- seal_version and open_version -----

  /** What the key service and the random source contributed to one sealing. */
  datatype Fresh = Fresh(dek: Dek, keyId: string, salt: nat, nonce: Bytes)

  function Generation(t: Tables): I64 {
    if KMS_REWRAP_STATE_KEY in t.kmsRewrap then t.kmsRewrap[KMS_REWRAP_STATE_KEY].lastCompletedRotationAt else 0
  }

  function SealVersion(t: Tables, name: string, version: I32, plaintext: Plaintext, now: I64, f: Fresh): VersionRecord {
    var aad := AadFor(name, version);
    VersionRecord(version, f.keyId, WrappedKey(f.dek, f.keyId, KeyContext(name, version), f.salt), f.nonce,
                  Sealed(f.dek, f.nonce, aad, plaintext), aad, now, None, Some(Generation(t)))
  }

  /** open_version given a data key, or the refusal of whoever was asked for it. */
  function OpenWith(dek: Option<Dek>, name: string, version: I32, r: VersionRecord): Option<Plaintext> {
    var aad := AadFor(name, version);
    if r.aad != aad || |r.nonce| != NONCE_LEN || dek.None? then None
    else OpenCiphertext(dek.value, r.nonce, aad, r.ciphertext)
  }

  /** open_version with no cache: the key service is asked every time. */
  function OpenVersion(name: string, version: I32, r: VersionRecord): Option<Plaintext> {
    OpenWith(DecryptDataKey(r.wrappedDek, r.kmsKeyId, KeyContext(name, version)), name, version, r)
  }

  /** Opening undoes sealing, and under no other name or version. */
  lemma SealOpenRoundTrip(t: Tables, name: string, version: I32, plaintext: Plaintext, now: I64, f: Fresh,
                          name': string, version': I32)
    requires |f.nonce| == NONCE_LEN
    ensures OpenVersion(name', version', SealVersion(t, name, version, plaintext, now, f)) ==
            if name' == name && version' == version then Some(plaintext) else None
  {
    if AadFor(name', version') == AadFor(name, version) { AadInjective(name', version', name, version); }
  }

  /**
   * What a row that opens must be: sealed under a key for this very name and version, whatever else it says about
   * itself, with that key wrapped for the same under the row's master key.
   */
  lemma OpensIff(name: string, version: I32, r: VersionRecord, plaintext: Plaintext)
    ensures OpenVersion(name, version, r) == Some(plaintext) <==>
            && r.aad == AadFor(name, version) && |r.nonce| == 24
            && r.wrappedDek.WrappedKey? && r.wrappedDek.keyId == r.kmsKeyId && r.wrappedDek.context == KeyContext(name, version)
            && r.ciphertext == Sealed(r.wrappedDek.dek, r.nonce, AadFor(name, version), plaintext)
  {
  }

  // ----- re-wrapping -----

  /** The data key a stored row's ciphertext needs. */
  ghost predicate NeedsKey(r: VersionRecord, name: string, version: I32, dek: Dek, plaintext: Plaintext) {
    && r.aad == AadFor(name, version) && |r.nonce| == NONCE_LEN
    && r.ciphertext == Sealed(dek, r.nonce, r.aad, plaintext)
  }

  ghost predicate Openable(r: VersionRecord, name: string, version: I32, dek: Dek, plaintext: Plaintext) {
    NeedsKey(r, name, version, dek, plaintext) &&
    DecryptDataKey(r.wrappedDek, r.kmsKeyId, KeyContext(name, version)) == Some(dek)
  }

  lemma OpenableOpens(r: VersionRecord, name: string, version: I32, dek: Dek, plaintext: Plaintext)
    requires NeedsKey(r, name, version, dek, plaintext)
    ensures OpenVersion(name, version, r) == Some(plaintext) <==> Openable(r, name, version, dek, plaintext)
  {
  }

  /**
   * A re-wrap keeps an openable row openable exactly when it is ignored as stale or it carries, under
   * its own key id and this row's context, the very key the row's ciphertext needs.
   */
  lemma RewrapKeepsOpenableIff(r: VersionRecord, name: string, version: I32, dek: Dek, plaintext: Plaintext,
                               keyId: string, blob: WrappedKey, at: I64)
    requires Openable(r, name, version, dek, plaintext)
    ensures OpenVersion(name, version, Rewrapped(r, keyId, blob, at)) == Some(plaintext) <==>
            (r.wrappedRotationAt.Some? && r.wrappedRotationAt.value >= at) ||
            DecryptDataKey(blob, keyId, KeyContext(name, version)) == Some(dek)
  {
    OpenableOpens(Rewrapped(r, keyId, blob, at), name, version, dek, plaintext);
  }

  // ----- whole runs with re-wraps in flight -----

  /** A re-wrap between its read of a row and its write. */
  datatype InFlight = InFlight(name: string, version: I32, blob: WrappedKey, keyId: string)

  datatype Vault = Vault(tables: Tables, inFlight: map<nat, InFlight>)

  datatype Step =
    | Write(command: Command)
    | RewrapRead(id: nat, name: string, version: I32)
    | RewrapWrite(id: nat, newKeyId: string, salt: nat, target: I64)

  ghost predicate Allowed(v: Vault, step: Step) {
    match step
    case Write(c) => ServiceShaped(c) && !c.RewrapVersion?
    case RewrapRead(id, name, version) => VersionKey(name, version) in v.tables.versions
    case RewrapWrite(id, _, _, _) => id in v.inFlight
  }

  ghost function Do(v: Vault, node: U64, step: Step): Vault
    requires Allowed(v, step)
  {
    match step
    case Write(c) => v.(tables := Apply(v.tables, node, c).0)
    case RewrapRead(id, name, version) =>
      var row := v.tables.versions[VersionKey(name, version)];
      v.(inFlight := v.inFlight[id := InFlight(name, version, row.wrappedDek, row.kmsKeyId)])
    case RewrapWrite(id, newKeyId, salt, target) =>
      var p := v.inFlight[id];
      match ReencryptDataKey(p.blob, p.keyId, KeyContext(p.name, p.version), newKeyId, salt)
      case None => v.(inFlight := v.inFlight - {id})
      case Some((blob, keyId)) =>
        Vault(RewrapEffect(v.tables, p.name, p.version, keyId, blob, target).0, v.inFlight - {id})
  }

  /** The secret is not deleted and the database not restored. */
  ghost predicate Spares(step: Step, name: string) {
    step.Write? ==> !step.command.RestoreDatabase? && (step.command.DeleteSecret? ==> step.command.name != name)
  }

  ghost predicate Reaches(v: Vault, node: U64, steps: seq<Step>, last: Vault, name: string)
    decreases |steps|
  {
    if steps == [] then v == last
    else Allowed(v, steps[0]) && Spares(steps[0], name) && Reaches(Do(v, node, steps[0]), node, steps[1..], last, name)
  }

  /** The row opens, or expired for good; and every re-wrap in flight for it holds the right key. */
  ghost predicate Kept(v: Vault, name: string, version: I32, dek: Dek, plaintext: Plaintext) {
    var t, key := v.tables, VersionKey(name, version);
    && ValidName(name) && version >= 1 && name in t.secrets && version <= t.secrets[name].currentVersion
    && (if key in t.versions then Openable(t.versions[key], name, version, dek, plaintext)
        else version < t.secrets[name].currentVersion)
    && (forall id :: id in v.inFlight && v.inFlight[id].name == name && v.inFlight[id].version == version ==>
          DecryptDataKey(v.inFlight[id].blob, v.inFlight[id].keyId, KeyContext(name, version)) == Some(dek))
  }

  /** What a command leaves of one row: the row itself, maybe with an expiry, or nothing once it is old. */
  ghost predicate SameSealed(a: VersionRecord, b: VersionRecord) {
    a.aad == b.aad && a.nonce == b.nonce && a.ciphertext == b.ciphertext && a.wrappedDek == b.wrappedDek
    && a.kmsKeyId == b.kmsKeyId && a.wrappedRotationAt == b.wrappedRotationAt
  }

  lemma SupersedeKeepsSealed(versions: Versions, oldKey: string, expiry: OptTime, key: string)
    ensures var after := Supersede(versions, oldKey, expiry);
            && (key in after <==> key in versions)
            && (key in versions ==> SameSealed(versions[key], after[key]))
  {
  }

  lemma PutKeepsRow(t: Tables, m: string, expected: I32, row: VersionRecord, e: OptTime, meta: MetaChange, n: string, w: I32)
    requires ValidName(n) && n in t.secrets && 1 <= w <= t.secrets[n].currentVersion && row.version == expected + 1
    ensures var u, key := PutVersionEffect(t, m, expected, row, e, meta).0, VersionKey(n, w);
            RowKept(t, u, n, w) && (key in t.versions ==> key in u.versions)
  {
    var (u, outcome) := PutVersionEffect(t, m, expected, row, e, meta);
    if outcome == Ok {
      RowKey(n, w);
      RowKey(m, row.version);
      SupersedeKeepsSealed(t.versions[VersionKey(m, row.version) := row], VersionKey(m, expected), e, VersionKey(n, w));
    }
  }

  ghost predicate RowKept(t: Tables, u: Tables, n: string, w: I32) {
    var key := VersionKey(n, w);
    && n in u.secrets && w <= u.secrets[n].currentVersion
    && (key in u.versions ==> key in t.versions && SameSealed(t.versions[key], u.versions[key]))
  }

  lemma CreateKeepsRow(t: Tables, s: SecretRecord, row: VersionRecord, n: string, w: I32)
    requires ValidName(n) && n in t.secrets && 1 <= w <= t.secrets[n].currentVersion && row.version == 1
    ensures RowKept(t, CreateSecretEffect(t, s, row).0, n, w)
  {
    CreateElsewhere(t, s, row, n, w);
  }

  lemma UpdateKeepsRow(t: Tables, m: string, expected: I32, meta: MetaChange, n: string, w: I32)
    requires n in t.secrets && 1 <= w <= t.secrets[n].currentVersion
    ensures RowKept(t, UpdateMetaEffect(t, m, expected, meta).0, n, w)
  {
    var u := UpdateMetaEffect(t, m, expected, meta).0;
    assert u.versions == t.versions;
    assert u.secrets == t.secrets || (m in t.secrets && u.secrets == t.secrets[m := WithMeta(t.secrets[m], meta)]);
  }

  /** Expiry, and the commands about other tables. */
  lemma RestKeepsRow(t: Tables, node: U64, c: Command, n: string, w: I32)
    requires n in t.secrets && 1 <= w <= t.secrets[n].currentVersion
    requires !c.CreateSecret? && !c.PutVersion? && !c.UpdateMeta? && !c.DeleteSecret? && !c.RestoreDatabase? && !c.RewrapVersion?
    ensures RowKept(t, Apply(t, node, c).0, n, w)
  {
    var u := Apply(t, node, c).0;
    assert u.secrets == t.secrets;
    if c.ExpireGraceVersions? {
      assert u.versions == ExpireEffect(t, c.now).0.versions;
    } else {
      assert u.versions == t.versions;
    }
  }

  lemma WriteKeepsRow(t: Tables, node: U64, c: Command, n: string, w: I32)
    requires ValidName(n) && n in t.secrets && 1 <= w <= t.secrets[n].currentVersion
    requires ServiceShaped(c) && !c.RewrapVersion? && Spares(Write(c), n)
    ensures RowKept(t, Apply(t, node, c).0, n, w)
  {
    match c
    case CreateSecret(s, row) => CreateKeepsRow(t, s, row, n, w);
    case PutVersion(m, expected, row, e, meta) => PutKeepsRow(t, m, expected, row, e, meta, n, w);
    case UpdateMeta(m, expected, meta) => UpdateKeepsRow(t, m, expected, meta, n, w);
    case DeleteSecret(m) => DeleteElsewhere(t, m, n, w);
    case RestoreDatabase(_) =>
    case RewrapVersion(_, _, _, _, _) =>
    case _ => RestKeepsRow(t, node, c, n, w);
  }

  lemma GoodStep(v: Vault, node: U64, step: Step)
    requires Good(v.tables) && Allowed(v, step)
    ensures Good(Do(v, node, step).tables)
  {
    match step
    case Write(c) => StepKeepsGood(v.tables, node, c);
    case RewrapRead(_, _, _) =>
    case RewrapWrite(id, newKeyId, salt, target) =>
      var p := v.inFlight[id];
      match ReencryptDataKey(p.blob, p.keyId, KeyContext(p.name, p.version), newKeyId, salt) {
        case None =>
        case Some((blob, keyId)) => StepKeepsGood(v.tables, node, RewrapVersion(p.name, p.version, keyId, blob, target));
      }
  }

  lemma KeptByWrite(v: Vault, node: U64, c: Command, name: string, version: I32, dek: Dek, plaintext: Plaintext)
    requires Good(v.tables) && Kept(v, name, version, dek, plaintext) && Allowed(v, Write(c)) && Spares(Write(c), name)
    ensures Kept(Do(v, node, Write(c)), name, version, dek, plaintext)
  {
    var u, key := Apply(v.tables, node, c).0, VersionKey(name, version);
    WriteKeepsRow(v.tables, node, c, name, version);
    StepKeepsGood(v.tables, node, c);
    assert CurrentRow(u.secrets, u.versions, name);
  }

  lemma KeptByRewrap(v: Vault, node: U64, id: nat, newKeyId: string, salt: nat, target: I64,
                     name: string, version: I32, dek: Dek, plaintext: Plaintext)
    requires Good(v.tables) && Kept(v, name, version, dek, plaintext) && id in v.inFlight
    ensures Kept(Do(v, node, RewrapWrite(id, newKeyId, salt, target)), name, version, dek, plaintext)
  {
    var p := v.inFlight[id];
    var key, other := VersionKey(name, version), VersionKey(p.name, p.version);
    match ReencryptDataKey(p.blob, p.keyId, KeyContext(p.name, p.version), newKeyId, salt) {
      case None =>
      case Some((blob, keyId)) =>
        var t := v.tables;
        if other in t.versions {
          RewrapTargetsItsRow(t, p.name, p.version, name, version);
          if key == other { RewrapKeepsOpenableIff(t.versions[key], name, version, dek, plaintext, keyId, blob, target); }
        }
    }
  }

  /** A stored row is addressed by one name and version only. */
  lemma RewrapTargetsItsRow(t: Tables, m: string, w: I32, name: string, version: I32)
    requires Good(t) && VersionKey(m, w) in t.versions && ValidName(name) && version >= 1
    ensures VersionKey(m, w) == VersionKey(name, version) <==> m == name && w == version
  {
    StoredKeyParses(t.secrets, t.versions, m, w);
    RowKey(name, version);
  }

  lemma StepKeeps(v: Vault, node: U64, step: Step, name: string, version: I32, dek: Dek, plaintext: Plaintext)
    requires Good(v.tables) && Kept(v, name, version, dek, plaintext) && Allowed(v, step) && Spares(step, name)
    ensures Kept(Do(v, node, step), name, version, dek, plaintext)
  {
    match step
    case Write(c) => KeptByWrite(v, node, c, name, version, dek, plaintext);
    case RewrapRead(id, n, w) =>
    case RewrapWrite(id, newKeyId, salt, target) =>
      KeptByRewrap(v, node, id, newKeyId, salt, target, name, version, dek, plaintext);
  }

  lemma {:induction false} RunKeeps(v: Vault, node: U64, steps: seq<Step>, last: Vault,
                                    name: string, version: I32, dek: Dek, plaintext: Plaintext)
    requires Good(v.tables) && Kept(v, name, version, dek, plaintext) && Reaches(v, node, steps, last, name)
    ensures Good(last.tables) && Kept(last, name, version, dek, plaintext)
    decreases |steps|
  {
    if steps != [] {
      GoodStep(v, node, steps[0]);
      StepKeeps(v, node, steps[0], name, version, dek, plaintext);
      RunKeeps(Do(v, node, steps[0]), node, steps[1..], last, name, version, dek, plaintext);
    }
  }

  /**
   * A sealed version that was committed opens to its own plaintext for as long as its row exists,
   * through any rotations, updates, expiries and re-wraps in any interleaving.
   */
  lemma StoredValuesStayOpenable(v: Vault, node: U64, steps: seq<Step>, last: Vault, name: string, version: I32,
                                 plaintext: Plaintext, seen: Tables, now: I64, f: Fresh, c: Command)
    requires Good(v.tables) && |f.nonce| == NONCE_LEN
    requires forall id :: id in v.inFlight ==> v.inFlight[id].name != name || v.inFlight[id].version != version
    requires ServiceShaped(c) && Apply(v.tables, node, c).1 == Ok
    requires (c.CreateSecret? && c.secret.name == name) || (c.PutVersion? && c.name == name)
    requires c.row == SealVersion(seen, name, version, plaintext, now, f)
    requires Reaches(v.(tables := Apply(v.tables, node, c).0), node, steps, last, name)
    ensures VersionKey(name, version) in last.tables.versions ==>
              && Openable(last.tables.versions[VersionKey(name, version)], name, version, f.dek, plaintext)
              && OpenVersion(name, version, last.tables.versions[VersionKey(name, version)]) == Some(plaintext)
  {
    var u := Apply(v.tables, node, c).0;
    StepKeepsGood(v.tables, node, c);
    CommittedIsStored(v.tables, node, c, name);
    assert Kept(v.(tables := u), name, version, f.dek, plaintext);
    RunKeeps(v.(tables := u), node, steps, last, name, version, f.dek, plaintext);
    if VersionKey(name, version) in last.tables.versions {
      OpenableOpens(last.tables.versions[VersionKey(name, version)], name, version, f.dek, plaintext);
    }
  }

  /** A committed row is the current one, as it was sent. */
  lemma CommittedIsStored(t: Tables, node: U64, c: Command, name: string)
    requires Good(t) && ServiceShaped(c) && Apply(t, node, c).1 == Ok
    requires (c.CreateSecret? && c.secret.name == name) || (c.PutVersion? && c.name == name)
    ensures var u := Apply(t, node, c).0;
            && ValidName(name) && c.row.version >= 1 && name in u.secrets && u.secrets[name].currentVersion == c.row.version
            && Lookup(u.versions, VersionKey(name, c.row.version)) == Some(c.row)
  {
    if c.PutVersion? {
      assert CurrentRow(t.secrets, t.versions, name);
      RowKey(name, c.expectedCurrent + 1);
      RowKey(name, c.expectedCurrent);
    }
  }

  /**
   * Why deletes are excluded: in this run a re-wrap reads a row, the secret is deleted and created again, and
   * the re-wrap is written. The new row then carries the old key and no longer opens.
   */
  lemma RewrapAcrossRecreateLosesValue(node: U64, s: SecretRecord, a: Plaintext, b: Plaintext, now: I64, f: Fresh, g: Fresh,
                                       newKeyId: string, salt: nat, target: I64)
    requires ValidName(s.name) && s.currentVersion == 1 && |f.nonce| == |g.nonce| == NONCE_LEN
    requires f.dek != g.dek && target > 0
    ensures var first := CreateSecret(s, SealVersion(EMPTY_TABLES, s.name, 1, a, now, f));
            var again := CreateSecret(s, SealVersion(EMPTY_TABLES, s.name, 1, b, now, g));
            var v0 := Vault(EMPTY_TABLES, map[]);
            Allowed(v0, Write(first)) &&
            var v1 := Do(v0, node, Write(first));
            Allowed(v1, RewrapRead(0, s.name, 1)) &&
            var v2 := Do(v1, node, RewrapRead(0, s.name, 1));
            Allowed(v2, Write(DeleteSecret(s.name))) &&
            var v3 := Do(v2, node, Write(DeleteSecret(s.name)));
            Allowed(v3, Write(again)) &&
            var v4 := Do(v3, node, Write(again));
            var write := RewrapWrite(0, newKeyId, salt, target);
            Allowed(v4, write) &&
            var v5 := Do(v4, node, write);
            var key := VersionKey(s.name, 1);
            && key in v4.tables.versions && OpenVersion(s.name, 1, v4.tables.versions[key]) == Some(b)
            && key in v5.tables.versions && OpenVersion(s.name, 1, v5.tables.versions[key]).None?
  {
    var key := VersionKey(s.name, 1);
    var rowA, rowB := SealVersion(EMPTY_TABLES, s.name, 1, a, now, f), SealVersion(EMPTY_TABLES, s.name, 1, b, now, g);
    CreateAlone(node, s, rowA);
    DeleteAlone(node, s, rowA);
    CreateAlone(node, s, rowB);
    var v1 := Do(Vault(EMPTY_TABLES, map[]), node, Write(CreateSecret(s, rowA)));
    var v2 := Do(v1, node, RewrapRead(0, s.name, 1));
    assert v2.inFlight[0] == InFlight(s.name, 1, rowA.wrappedDek, f.keyId);
    var v3 := Do(v2, node, Write(DeleteSecret(s.name)));
    assert v3 == Vault(EMPTY_TABLES, v2.inFlight);
    var v4 := Do(v3, node, Write(CreateSecret(s, rowB)));
    assert v4.tables.versions == map[key := rowB];
    assert OpenVersion(s.name, 1, rowB) == Some(b);
  }
}
