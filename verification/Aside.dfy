/** Writes that leave one secret alone: its record stays, and its rows open as before. */
module Aside {
  import opened Base
  import opened Keys
  import opened Model
  import opened Effects
  import opened CurrentVersion
  import opened Grace
  import opened Rotation
  import E = Envelope

  /** Neither writes the secret's record nor restores a backup. A create of the name is refused while it exists. */
  ghost predicate LeavesRecord(c: Command, name: string) {
    && ServiceShaped(c) && !c.RestoreDatabase?
    && (c.PutVersion? || c.UpdateMeta? || c.DeleteSecret? ==> c.name != name)
  }

  /** The data key a row's blob gives, under the row's own name and version. */
  function KeyOf(r: VersionRecord, name: string, v: I32): Option<Dek> {
    E.DecryptDataKey(r.wrappedDek, r.kmsKeyId, KeyContext(name, v))
  }

  /** A re-wrap of the row carries the data key the row has. */
  ghost predicate KeepsKey(t: Tables, c: Command, name: string, v: I32) {
    c.RewrapVersion? && c.name == name && c.version == v && VersionKey(name, v) in t.versions ==>
      E.DecryptDataKey(c.wrappedDek, c.kmsKeyId, KeyContext(name, v)) == KeyOf(t.versions[VersionKey(name, v)], name, v)
  }

  /** The same ciphertext under the same data key, however wrapped. */
  ghost predicate OpensAlike(a: VersionRecord, b: VersionRecord, name: string, v: I32) {
    && a.aad == b.aad && a.nonce == b.nonce && a.ciphertext == b.ciphertext
    && KeyOf(a, name, v) == KeyOf(b, name, v)
  }

  // ----- the record -----

  lemma RecordStays(t: Tables, node: U64, c: Command, name: string)
    requires name in t.secrets && LeavesRecord(c, name)
    ensures name in Apply(t, node, c).0.secrets && Apply(t, node, c).0.secrets[name] == t.secrets[name]
  {
    match c
    case CreateSecret(s, row) =>
      var u := CreateSecretEffect(t, s, row).0;
      assert u.secrets == t.secrets || (s.name != name && u.secrets == t.secrets[s.name := s]);
    case PutVersion(m, expected, row, e, meta) => PutTouchesOne(t, m, expected, row, e, meta);
    case UpdateMeta(m, expected, meta) => UpdateTouchesOne(t, m, expected, meta);
    case RestoreDatabase(_) =>
    case _ => OtherKeepsSecrets(t, node, c);
  }

  ghost predicate AllLeaveRecord(cs: seq<Command>, name: string) {
    forall i :: 0 <= i < |cs| ==> LeavesRecord(cs[i], name)
  }

  lemma {:induction false} RunKeepsRecord(t: Tables, node: U64, cs: seq<Command>, name: string)
    requires name in t.secrets && AllLeaveRecord(cs, name)
    ensures name in Run(t, node, cs).secrets && Run(t, node, cs).secrets[name] == t.secrets[name]
  {
    if cs != [] {
      RunKeepsRecord(t, node, cs[..|cs| - 1], name);
      RecordStays(Run(t, node, cs[..|cs| - 1]), node, cs[|cs| - 1], name);
    }
  }

  // ----- the rows -----

  /** The row opens as it did and expires when it did, or is gone because its time was up. */
  ghost predicate RowStays(t: Tables, u: Tables, name: string, w: I32, now: I64) {
    var key := VersionKey(name, w);
    && (key in u.versions ==>
          && key in t.versions && OpensAlike(t.versions[key], u.versions[key], name, w)
          && u.versions[key].expiresAt == t.versions[key].expiresAt)
    && (Live(t.versions, name, w, now) ==> key in u.versions)
  }

  lemma SameLookupStays(t: Tables, u: Tables, name: string, w: I32, now: I64)
    requires Lookup(u.versions, VersionKey(name, w)) == Lookup(t.versions, VersionKey(name, w))
    ensures RowStays(t, u, name, w, now)
  {
  }

  lemma RewrapStays(t: Tables, node: U64, c: Command, name: string, w: I32, now: I64)
    requires c.RewrapVersion? && KeepsKey(t, c, name, w)
    ensures RowStays(t, Apply(t, node, c).0, name, w, now)
  {
    var key := VersionKey(c.name, c.version);
    if key in t.versions {
      var moved := Rewrapped(t.versions[key], c.kmsKeyId, c.wrappedDek, c.wrappedRotationAt);
      assert Apply(t, node, c).0.versions == t.versions[key := moved];
      if key == VersionKey(name, w) { KeyInjective(c.name, c.version, name, w); }
    } else {
      SameLookupStays(t, Apply(t, node, c).0, name, w, now);
    }
  }

  lemma PutAside(t: Tables, m: string, expected: I32, row: VersionRecord, e: OptTime, meta: MetaChange, name: string, w: I32)
    requires m != name
    ensures Lookup(PutVersionEffect(t, m, expected, row, e, meta).0.versions, VersionKey(name, w)) ==
            Lookup(t.versions, VersionKey(name, w))
  {
    if VersionKey(m, row.version) == VersionKey(name, w) { KeyInjective(m, row.version, name, w); }
    if VersionKey(m, expected) == VersionKey(name, w) { KeyInjective(m, expected, name, w); }
  }

  lemma WriteKeepsLookup(t: Tables, node: U64, c: Command, name: string, w: I32)
    requires ValidName(name) && name in t.secrets && w >= 0 && LeavesRecord(c, name)
    requires !c.ExpireGraceVersions? && !c.RewrapVersion?
    ensures Lookup(Apply(t, node, c).0.versions, VersionKey(name, w)) == Lookup(t.versions, VersionKey(name, w))
  {
    match c
    case CreateSecret(s, row) => CreateElsewhere(t, s, row, name, w);
    case PutVersion(m, expected, row, e, meta) => PutAside(t, m, expected, row, e, meta, name, w);
    case UpdateMeta(m, expected, meta) => assert UpdateMetaEffect(t, m, expected, meta).0.versions == t.versions;
    case DeleteSecret(m) => DeleteElsewhere(t, m, name, w);
    case RewrapVersion(_, _, _, _, _) =>
    case ExpireGraceVersions(_) =>
    case RestoreDatabase(_) =>
    case _ => assert Apply(t, node, c).0.versions == t.versions;
  }

  /** Rows of the secret survive a write aside, a sweep no later than `now` and a re-wrap under their own key. */
  lemma WriteKeepsRow(t: Tables, node: U64, c: Command, name: string, w: I32, now: I64)
    requires ValidName(name) && name in t.secrets && w >= 0 && LeavesRecord(c, name) && KeepsKey(t, c, name, w)
    requires c.ExpireGraceVersions? ==> c.now <= now
    ensures RowStays(t, Apply(t, node, c).0, name, w, now)
  {
    var u := Apply(t, node, c).0;
    if c.ExpireGraceVersions? {
      assert u.versions == ExpireEffect(t, c.now).0.versions;
    } else if c.RewrapVersion? {
      RewrapStays(t, node, c, name, w, now);
    } else {
      WriteKeepsLookup(t, node, c, name, w);
      SameLookupStays(t, u, name, w, now);
    }
  }
}
