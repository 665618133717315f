/** The bounded, time-limited cache of data keys, and opening a version through it. */
module Cache {
  import opened Base
  import opened Keys
  import opened Model
  import opened Effects
  import opened CurrentVersion
  import opened Store
  import opened Envelope

  const MAX_ENTRIES: nat := 16_384

  type Entries = map<WrappedKey, (nat, Dek)>

  /** Time since an instant; a clock that reads earlier counts as no time. */
  function Elapsed(stored: nat, now: nat): nat {
    if now >= stored then now - stored else 0
  }

  predicate Current(entries: Entries, blob: WrappedKey, ttl: nat, now: nat) {
    blob in entries && Elapsed(entries[blob].0, now) < ttl
  }

  /** What a lookup answers. A zero lifetime switches the cache off. */
  function Hit(entries: Entries, blob: WrappedKey, ttl: nat, now: nat): Option<Dek> {
    if Current(entries, blob, ttl, now) then Some(entries[blob].1) else None
  }

  /** An entry serves for exactly its lifetime from the moment it was stored. */
  lemma CurrentIff(entries: Entries, blob: WrappedKey, ttl: nat, now: nat)
    requires ttl > 0
    ensures Current(entries, blob, ttl, now) <==> blob in entries && now < entries[blob].0 + ttl
  {
  }

  /** No entry of `others` is older than the one at `blob`. */
  ghost predicate Oldest(entries: Entries, others: set<WrappedKey>, blob: WrappedKey) {
    blob in entries && forall k :: k in others && k in entries ==> entries[blob].0 <= entries[k].0
  }

  ghost function CurrentKeys(entries: Entries, ttl: nat, now: nat): set<WrappedKey> {
    set k | k in entries && Current(entries, k, ttl, now)
  }

  /** An entry a full cache may drop: its time is up, or none that is still current is older. */
  ghost predicate MayDrop(entries: Entries, blob: WrappedKey, ttl: nat, now: nat) {
    blob in entries &&
    (!Current(entries, blob, ttl, now) || Oldest(entries, CurrentKeys(entries, ttl, now), blob))
  }

  /** Each cached key is the one inside its blob. */
  ghost predicate Sound(entries: Entries) {
    forall blob :: blob in entries ==> blob.WrappedKey? && entries[blob].1 == blob.dek
  }

  class DekCache {
    const ttl: nat
    var entries: Entries

    ghost predicate Valid()
      reads this
    {
      |entries| <= MAX_ENTRIES && (ttl == 0 ==> entries == map[])
    }

    constructor (ttlSecs: nat)
      ensures Valid() && Sound(entries) && ttl == ttlSecs && entries == map[]
    {
      ttl := ttlSecs;
      entries := map[];
    }

    method Get(blob: WrappedKey, now: nat) returns (dek: Option<Dek>)
      requires Valid()
      modifies this
      ensures Valid()
      ensures dek == Hit(old(entries), blob, ttl, now)
      ensures dek.Some? <==> blob in old(entries) && now < old(entries)[blob].0 + ttl
      ensures dek.Some? ==> dek.value == old(entries)[blob].1
      ensures dek.Some? ==> entries == old(entries)
      ensures dek.None? ==> entries == old(entries) - {blob}
    {
      if ttl == 0 {
        assert entries == entries - {blob};
        return None;
      }
      if blob in entries {
        var (stored, found) := entries[blob];
        if Elapsed(stored, now) < ttl { return Some(found); }
        entries := entries - {blob};
        assert |entries| <= |old(entries)| by {
          assert entries.Keys == old(entries).Keys - {blob};
          assert |entries| == |entries.Keys|;
        }
        return None;
      }
      assert entries == entries - {blob};
      dek := None;
    }

    /** retain: drop every entry whose time is up. */
    method DropStale(now: nat)
      modifies this
      ensures entries == map k | k in old(entries) && Current(old(entries), k, ttl, now) :: old(entries)[k]
      ensures |entries| <= |old(entries)|
    {
      ghost var before := entries;
      var rest := entries.Keys;
      while rest != {}
        invariant rest <= before.Keys && entries.Keys <= before.Keys
        invariant forall k :: k in before ==> (k in entries <==> k in rest || Current(before, k, ttl, now))
        invariant forall k :: k in entries ==> entries[k] == before[k]
        decreases |rest|
      {
        var k :| k in rest;
        rest := rest - {k};
        if Elapsed(entries[k].0, now) >= ttl { entries := entries - {k}; }
      }
      SubsetSize(entries.Keys, before.Keys);
      assert |entries| == |entries.Keys| && |before| == |before.Keys|;
    }

    /** The entry stored first, by a pass over all of them. */
    method FindOldest() returns (oldest: WrappedKey)
      requires entries != map[]
      ensures Oldest(entries, entries.Keys, oldest)
    {
      assert entries.Keys != {};
      oldest :| oldest in entries.Keys;
      var rest := entries.Keys - {oldest};
      while rest != {}
        invariant rest <= entries.Keys && oldest in entries
        invariant Oldest(entries, entries.Keys - rest, oldest)
        decreases |rest|
      {
        var k :| k in rest;
        if entries[k].0 < entries[oldest].0 { oldest := k; }
        rest := rest - {k};
      }
    }

    /** A full cache first drops what is stale, then the oldest entry if none was. */
    method MakeRoom(now: nat)
      requires |entries| <= MAX_ENTRIES
      modifies this
      ensures |entries| < MAX_ENTRIES
      ensures forall k :: k in entries ==> k in old(entries) && entries[k] == old(entries)[k]
      ensures forall k :: k in old(entries) && k !in entries ==> MayDrop(old(entries), k, ttl, now)
      ensures |old(entries)| < MAX_ENTRIES ==> entries == old(entries)
      ensures |CurrentKeys(old(entries), ttl, now) - entries.Keys| <= 1
    {
      ghost var before := entries;
      if |entries| < MAX_ENTRIES {
        assert CurrentKeys(before, ttl, now) - entries.Keys == {};
        return;
      }
      DropStale(now);
      assert entries.Keys == CurrentKeys(before, ttl, now);
      if |entries| < MAX_ENTRIES {
        assert CurrentKeys(before, ttl, now) - entries.Keys == {};
        return;
      }
      var oldest := FindOldest();
      ghost var full := entries;
      entries := entries - {oldest};
      assert entries.Keys == full.Keys - {oldest};
      assert |entries| == |entries.Keys| && |full| == |full.Keys|;
      assert MayDrop(before, oldest, ttl, now);
      assert CurrentKeys(before, ttl, now) - entries.Keys == {oldest};
    }

    /** The cap is hard, and at most one current entry is lost to an insertion. */
    method Put(blob: WrappedKey, dek: Dek, now: nat)
      requires Valid()
      modifies this
      ensures Valid()
      ensures Sound(old(entries)) && blob.WrappedKey? && dek == blob.dek ==> Sound(entries)
      ensures ttl == 0 ==> entries == old(entries)
      ensures ttl > 0 ==> blob in entries && entries[blob] == (now, dek)
      ensures forall k :: k in entries && k != blob ==> k in old(entries) && entries[k] == old(entries)[k]
      ensures ttl > 0 ==> forall k :: k in old(entries) && k !in entries ==> MayDrop(old(entries), k, ttl, now)
      ensures ttl > 0 && |old(entries)| < MAX_ENTRIES ==> entries == old(entries)[blob := (now, dek)]
      ensures ttl > 0 ==> |CurrentKeys(old(entries), ttl, now) - entries.Keys| <= 1
    {
      if ttl == 0 { return; }
      MakeRoom(now);
      ghost var room := entries;
      entries := entries[blob := (now, dek)];
      InsertSize(room, blob, (now, dek));
      SubsetSize(CurrentKeys(old(entries), ttl, now) - entries.Keys, CurrentKeys(old(entries), ttl, now) - room.Keys);
    }

    /** open_version: the key service is asked only on a miss. */
    method Open(name: string, version: I32, r: VersionRecord, now: nat) returns (p: Option<Plaintext>)
      requires Valid() && Sound(entries)
      modifies this
      ensures Valid() && Sound(entries)
      ensures p == OpenThrough(old(entries), ttl, now, name, version, r)
      ensures p.Some? && ttl > 0 ==> Current(entries, r.wrappedDek, ttl, now)
    {
      if r.aad != AadFor(name, version) || |r.nonce| != NONCE_LEN { return None; }
      var dek := Get(r.wrappedDek, now);
      if dek.None? {
        dek := DecryptDataKey(r.wrappedDek, r.kmsKeyId, KeyContext(name, version));
        if dek.None? { return None; }
        Put(r.wrappedDek, dek.value, now);
      }
      p := OpenCiphertext(dek.value, r.nonce, AadFor(name, version), r.ciphertext);
    }
  }

  lemma InsertSize(entries: Entries, blob: WrappedKey, entry: (nat, Dek))
    ensures |entries[blob := entry]| <= |entries| + 1
  {
    var after := entries[blob := entry];
    assert after.Keys == entries.Keys + {blob};
    assert |after| == |after.Keys| && |entries| == |entries.Keys|;
  }

  function OpenThrough(entries: Entries, ttl: nat, now: nat, name: string, version: I32, r: VersionRecord): Option<Plaintext> {
    var hit := Hit(entries, r.wrappedDek, ttl, now);
    if hit.Some? then OpenWith(hit, name, version, r) else OpenVersion(name, version, r)
  }

  /** A row's key blob is bound to this secret, this version and the row's own master key. */
  predicate KeyBound(r: VersionRecord, name: string, version: I32) {
    r.wrappedDek.WrappedKey? && r.wrappedDek.keyId == r.kmsKeyId && r.wrappedDek.context == KeyContext(name, version)
  }

  /**
   * A hit skips the key service, and with it the check of key id and context. The cached answer is the
   * uncached one exactly when the row passes that check, or would not open under its own key anyway.
   */
  lemma CachedAgreesIff(entries: Entries, ttl: nat, now: nat, name: string, version: I32, r: VersionRecord)
    requires Sound(entries)
    ensures OpenThrough(entries, ttl, now, name, version, r) == OpenVersion(name, version, r) <==>
            || Hit(entries, r.wrappedDek, ttl, now).None?
            || KeyBound(r, name, version)
            || OpenWith(Some(r.wrappedDek.dek), name, version, r).None?
  {
  }

  // ----- rows the vault sealed itself -----

  /** Rows the vault sealed or re-wrapped itself open the same with and without the cache. */
  lemma OpenableThroughCache(entries: Entries, ttl: nat, now: nat, r: VersionRecord, name: string, version: I32,
                             dek: Dek, plaintext: Plaintext)
    requires Sound(entries) && Openable(r, name, version, dek, plaintext)
    ensures OpenThrough(entries, ttl, now, name, version, r) == Some(plaintext)
  {
    CachedAgreesIff(entries, ttl, now, name, version, r);
    OpenableOpens(r, name, version, dek, plaintext);
  }

  /**
   * A sealed version that was committed opens to its own plaintext through every sound cache, warm or cold, for as long
   * as its row exists, through any rotations, updates, expiries and re-wraps in any interleaving.
   */
  lemma StoredValuesOpenThroughCache(v: Vault, node: U64, steps: seq<Step>, last: Vault, name: string, version: I32,
                                     plaintext: Plaintext, seen: Tables, at: I64, f: Fresh, c: Command,
                                     entries: Entries, ttl: nat, now: nat)
    requires Good(v.tables) && |f.nonce| == NONCE_LEN && Sound(entries)
    requires forall id :: id in v.inFlight ==> v.inFlight[id].name != name || v.inFlight[id].version != version
    requires ServiceShaped(c) && Apply(v.tables, node, c).1 == Ok
    requires (c.CreateSecret? && c.secret.name == name) || (c.PutVersion? && c.name == name)
    requires c.row == SealVersion(seen, name, version, plaintext, at, f)
    requires Reaches(v.(tables := Apply(v.tables, node, c).0), node, steps, last, name)
    ensures VersionKey(name, version) in last.tables.versions ==>
            OpenThrough(entries, ttl, now, name, version, last.tables.versions[VersionKey(name, version)]) == Some(plaintext)
  {
    StoredValuesStayOpenable(v, node, steps, last, name, version, plaintext, seen, at, f, c);
    if VersionKey(name, version) in last.tables.versions {
      OpenableThroughCache(entries, ttl, now, last.tables.versions[VersionKey(name, version)], name, version, f.dek, plaintext);
    }
  }

  // ----- a row it did not seal -----

  lemma CollapseOne<K, V>(k: K, v: V)
    ensures Collapse([(k, v)]) == map[k := v]
  {
    assert [(k, v)][..0] == [];
    assert Collapse<K, V>([]) == map[];
  }

  /** A restore takes one row as it is. */
  lemma RestoresRow(t: Tables, s: SecretRecord, v: I32, r: VersionRecord)
    requires ValidName(s.name) && v >= 1
    ensures var data := BackupData(BACKUP_VERSION, [(s.name, s)], [(VersionKey(s.name, v), r)], [], [], [], [], []);
            RestoreEffect(t, data).1 == Ok && RestoreEffect(t, data).0.versions == map[VersionKey(s.name, v) := r]
  {
    RowKey(s.name, v);
    CollapseOne(VersionKey(s.name, v), r);
  }

  /** A second version under the key blob of the first. */
  function UnderFirstKey(row: VersionRecord, name: string, p: Plaintext, dek: Dek, nonce: Bytes): VersionRecord {
    row.(version := 2, nonce := nonce, aad := AadFor(name, 2), ciphertext := Sealed(dek, nonce, AadFor(name, 2), p))
  }

  lemma OpensOnlyWarm(t: Tables, name: string, a: Plaintext, p: Plaintext, at: I64, f: Fresh, nonce: Bytes,
                      entries: Entries, ttl: nat, now: nat)
    requires |nonce| == NONCE_LEN && Sound(entries)
    ensures var r := UnderFirstKey(SealVersion(t, name, 1, a, at, f), name, p, f.dek, nonce);
            OpenThrough(entries, ttl, now, name, 2, r) == if Current(entries, r.wrappedDek, ttl, now) then Some(p) else None
  {
  }

  method CreateAndRead(store: RedbStore, s: SecretRecord, row: VersionRecord) returns (read: VersionRecord)
    requires store.tables == EMPTY_TABLES && ValidName(s.name) && row.version == 1
    modifies store
    ensures read == row
  {
    CreateAlone(store.nodeId, s, row);
    var o := store.ApplyOne(CreateSecret(s, row));
    read := store.tables.versions[VersionKey(s.name, 1)];
  }

  method RestoreAndRead(store: RedbStore, s: SecretRecord, v: I32, row: VersionRecord) returns (read: VersionRecord)
    requires ValidName(s.name) && v >= 1
    modifies store
    ensures read == row
  {
    RestoresRow(store.tables, s, v, row);
    var o := store.ApplyOne(RestoreDatabase(
      BackupData(BACKUP_VERSION, [(s.name, s)], [(VersionKey(s.name, v), row)], [], [], [], [], [])));
    read := store.tables.versions[VersionKey(s.name, v)];
  }

  /**
   * The failing run. A secret is created and its first version opened; a backup is restored in which the second version
   * carries the key blob of the first. The cache that served the first open opens the row, a new one does not.
   */
  method WarmCacheSkipsTheContext(node: U64, s: SecretRecord, a: Plaintext, b: Plaintext, at: I64, f: Fresh, nonce: Bytes,
                                  ttl: nat, now: nat) returns (first: Option<Plaintext>, warm: Option<Plaintext>, cold: Option<Plaintext>)
    requires ValidName(s.name) && |f.nonce| == |nonce| == NONCE_LEN && ttl > 0
    ensures first == Some(a) && warm == Some(b) && cold == None
  {
    var store := new RedbStore(node, EMPTY_TABLES);
    var served := new DekCache(ttl);
    var row := SealVersion(EMPTY_TABLES, s.name, 1, a, at, f);
    var one := CreateAndRead(store, s.(currentVersion := 1), row);
    SealOpenRoundTrip(EMPTY_TABLES, s.name, 1, a, at, f, s.name, 1);
    first := served.Open(s.name, 1, one, now);

    var two := RestoreAndRead(store, s.(currentVersion := 2), 2, UnderFirstKey(row, s.name, b, f.dek, nonce));
    OpensOnlyWarm(EMPTY_TABLES, s.name, a, b, at, f, nonce, served.entries, ttl, now);
    warm := served.Open(s.name, 2, two, now);
    var unused := new DekCache(ttl);
    OpensOnlyWarm(EMPTY_TABLES, s.name, a, b, at, f, nonce, unused.entries, ttl, now);
    cold := unused.Open(s.name, 2, two, now);
  }
}
