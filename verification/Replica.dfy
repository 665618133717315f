/** One node's replicated state machine: batched apply, snapshots, and what a restart seeds. */
module Replica {
  import opened Base
  import opened Keys
  import opened Model
  import opened Effects
  import opened Backup
  import opened RaftLog

  datatype StoredMembership = StoredMembership(logId: Option<LogId>, members: set<nat>)

  const NO_MEMBERSHIP: StoredMembership := StoredMembership(None, {})
  const MAX_PLAUSIBLE_LOG_INDEX: nat := 0x10_0000_0000_0000

  datatype SnapshotData = SnapshotData(
    secrets: seq<(string, SecretRecord)>,
    versions: seq<(string, VersionRecord)>,
    roles: seq<(string, RoleRecord)>,
    tokens: seq<(Bytes, TokenRecord)>,
    tokensByName: seq<(string, Bytes)>,
    kmsRewrap: seq<(string, KmsRewrapState)>,
    lastApplied: Option<LogId>,
    membership: StoredMembership)

  datatype SnapshotMeta = SnapshotMeta(lastLogId: Option<LogId>, membership: StoredMembership)

  datatype Snapshot = Snapshot(meta: SnapshotMeta, data: SnapshotData)

  /** The durable state machine of a node: its tables and the metadata rows beside them. */
  datatype Replica = Replica(
    tables: Tables,
    applied: Option<LogId>,
    membership: Option<StoredMembership>,
    saved: Option<SnapshotData>)

  function OrDefault(m: Option<StoredMembership>): StoredMembership {
    if m.Some? then m.value else NO_MEMBERSHIP
  }

  function MembershipOf(r: Replica): StoredMembership {
    OrDefault(r.membership)
  }

  // ----- applying entries -----

  ghost function EntryEffect(t: Tables, node: U64, e: Entry): Effect {
    match e.payload
    case Normal(c) => Apply(t, node, c)
    case _ => (t, Ok)
  }

  function EntryMembership(m: Option<StoredMembership>, e: Entry): Option<StoredMembership> {
    match e.payload
    case Members(members) => Some(StoredMembership(Some(e.logId), members))
    case _ => m
  }

  /** All entries of a batch inside one transaction: a rejected one is reported, not rolled back. */
  ghost function BatchTables(t: Tables, node: U64, entries: seq<Entry>): Tables {
    if entries == [] then t
    else EntryEffect(BatchTables(t, node, entries[..|entries| - 1]), node, entries[|entries| - 1]).0
  }

  ghost function BatchResults(t: Tables, node: U64, entries: seq<Entry>): seq<Outcome> {
    if entries == [] then []
    else
      var init := entries[..|entries| - 1];
      BatchResults(t, node, init) + [EntryEffect(BatchTables(t, node, init), node, entries[|entries| - 1]).1]
  }

  function BatchMembership(m: Option<StoredMembership>, entries: seq<Entry>): Option<StoredMembership> {
    if entries == [] then m
    else EntryMembership(BatchMembership(m, entries[..|entries| - 1]), entries[|entries| - 1])
  }

  ghost function ApplyBatch(r: Replica, node: U64, entries: seq<Entry>): Replica {
    if entries == [] then r
    else r.(tables := BatchTables(r.tables, node, entries),
            applied := Some(entries[|entries| - 1].logId),
            membership := BatchMembership(r.membership, entries))
  }

  /** One entry in a transaction of its own that aborts on rejection, as the single-node store does. */
  ghost function ApplyAlone(r: Replica, node: U64, e: Entry): (Replica, Outcome) {
    var (tables, outcome) := EntryEffect(r.tables, node, e);
    (r.(tables := if outcome == Ok then tables else r.tables,
        applied := Some(e.logId),
        membership := EntryMembership(r.membership, e)), outcome)
  }

  ghost function ApplyEach(r: Replica, node: U64, entries: seq<Entry>): (Replica, seq<Outcome>) {
    if entries == [] then (r, [])
    else
      var (before, results) := ApplyEach(r, node, entries[..|entries| - 1]);
      var (after, outcome) := ApplyAlone(before, node, entries[|entries| - 1]);
      (after, results + [outcome])
  }

  /** A batch gives the tables and the results of applying each entry alone. */
  lemma {:induction false} BatchEqualsOneAtATime(r: Replica, node: U64, entries: seq<Entry>)
    ensures ApplyEach(r, node, entries) == (ApplyBatch(r, node, entries), BatchResults(r.tables, node, entries))
  {
    if entries != [] {
      var init, e := entries[..|entries| - 1], entries[|entries| - 1];
      BatchEqualsOneAtATime(r, node, init);
      var before := ApplyBatch(r, node, init);
      assert before.tables == BatchTables(r.tables, node, init) && before.membership == BatchMembership(r.membership, init);
      if e.payload.Normal? { RejectionChangesNothing(before.tables, node, e.payload.command); }
      assert ApplyAlone(before, node, e).0.tables == EntryEffect(before.tables, node, e).0;
      assert ApplyAlone(before, node, e).0 == ApplyBatch(r, node, entries);
    }
  }

  /** Splitting a batch anywhere changes nothing. */
  lemma {:induction false} BatchSplits(r: Replica, node: U64, a: seq<Entry>, b: seq<Entry>)
    ensures ApplyBatch(r, node, a + b) == ApplyBatch(ApplyBatch(r, node, a), node, b)
    ensures BatchResults(r.tables, node, a + b) ==
            BatchResults(r.tables, node, a) + BatchResults(ApplyBatch(r, node, a).tables, node, b)
    ensures BatchTables(r.tables, node, a + b) == BatchTables(BatchTables(r.tables, node, a), node, b)
    ensures BatchMembership(r.membership, a + b) == BatchMembership(BatchMembership(r.membership, a), b)
  {
    if b == [] {
      assert a + b == a;
    } else {
      var init := b[..|b| - 1];
      assert (a + b)[..|a + b| - 1] == a + init;
      BatchSplits(r, node, a, init);
    }
  }

  // ----- determinism of the replicated part -----

  ghost function Embed(s: Shared): Tables {
    Tables(s.secrets, s.versions, s.roles, s.tokens, s.tokensByName, s.kmsRewrap, map[], map[])
  }

  /** What one entry of the common log means: its command, if it carries one. */
  ghost function SharedStep(s: Shared, e: Entry): Shared {
    if e.payload.Normal? then SharedOf(Apply(Embed(s), 0, e.payload.command).0) else s
  }

  ghost predicate SameResult(a: Effect, b: Effect) {
    SharedOf(a.0) == SharedOf(b.0) && a.1 == b.1
  }

  lemma PutDeterminism(t: Tables, u: Tables, name: string, expected: I32, row: VersionRecord, expiry: OptTime,
                       meta: MetaChange)
    requires SharedOf(t) == SharedOf(u)
    ensures SameResult(PutVersionEffect(t, name, expected, row, expiry, meta),
                       PutVersionEffect(u, name, expected, row, expiry, meta))
  {
  }

  lemma RowDeterminism(t: Tables, u: Tables, m: U64, n: U64, c: Command)
    requires SharedOf(t) == SharedOf(u)
    requires c.CreateSecret? || c.UpdateMeta? || c.DeleteSecret? || c.ExpireGraceVersions? || c.RewrapVersion?
    ensures SameResult(Apply(t, m, c), Apply(u, n, c))
  {
  }

  lemma RoleDeterminism(t: Tables, u: Tables, m: U64, n: U64, c: Command)
    requires SharedOf(t) == SharedOf(u) && (c.CreateRole? || c.SetPermissions? || c.DeleteRole?)
    ensures SameResult(Apply(t, m, c), Apply(u, n, c))
  {
  }

  lemma TokenDeterminism(t: Tables, u: Tables, m: U64, n: U64, c: Command)
    requires SharedOf(t) == SharedOf(u) && (c.AddToken? || c.RevokeToken? || c.TouchToken?)
    ensures SameResult(Apply(t, m, c), Apply(u, n, c))
  {
  }

  lemma OtherDeterminism(t: Tables, u: Tables, m: U64, n: U64, c: Command)
    requires SharedOf(t) == SharedOf(u)
    requires c.SetKmsRewrapState? || c.AppendAudit? || c.RestoreDatabase? || c.RecordAuthFailure?
    ensures SameResult(Apply(t, m, c), Apply(u, n, c))
  {
  }

  /** The six replicated tables and the outcome depend on nothing local: not audit, lockouts or node id. */
  lemma SharedDeterminism(t: Tables, u: Tables, m: U64, n: U64, c: Command)
    requires SharedOf(t) == SharedOf(u)
    ensures SameResult(Apply(t, m, c), Apply(u, n, c))
  {
    match c
    case PutVersion(name, expected, row, expiry, meta) => PutDeterminism(t, u, name, expected, row, expiry, meta);
    case CreateSecret(_, _) => RowDeterminism(t, u, m, n, c);
    case UpdateMeta(_, _, _) => RowDeterminism(t, u, m, n, c);
    case DeleteSecret(_) => RowDeterminism(t, u, m, n, c);
    case ExpireGraceVersions(_) => RowDeterminism(t, u, m, n, c);
    case RewrapVersion(_, _, _, _, _) => RowDeterminism(t, u, m, n, c);
    case SetKmsRewrapState(_) => OtherDeterminism(t, u, m, n, c);
    case AppendAudit(_) => OtherDeterminism(t, u, m, n, c);
    case RestoreDatabase(_) => OtherDeterminism(t, u, m, n, c);
    case RecordAuthFailure(_, _, _, _, _) => OtherDeterminism(t, u, m, n, c);
    case AddToken(_) => TokenDeterminism(t, u, m, n, c);
    case RevokeToken(_, _) => TokenDeterminism(t, u, m, n, c);
    case TouchToken(_, _) => TokenDeterminism(t, u, m, n, c);
    case _ => RoleDeterminism(t, u, m, n, c);
  }

  lemma LocalKeepsShared(t: Tables, node: U64, c: Command)
    requires c.IsLocal()
    ensures SharedOf(Apply(t, node, c).0) == SharedOf(t) && Apply(t, node, c).1 == Ok
  {
  }

  /** What the common log means: its commands replayed over the initial tables. */
  ghost function Replay(init: Shared, entries: seq<Entry>): Shared {
    if entries == [] then init
    else SharedStep(Replay(init, entries[..|entries| - 1]), entries[|entries| - 1])
  }

  lemma {:induction false} BatchReplays(t: Tables, node: U64, entries: seq<Entry>)
    ensures SharedOf(BatchTables(t, node, entries)) == Replay(SharedOf(t), entries)
  {
    if entries != [] {
      var init, e := entries[..|entries| - 1], entries[|entries| - 1];
      BatchReplays(t, node, init);
      if e.payload.Normal? {
        var before := BatchTables(t, node, init);
        SharedDeterminism(before, Embed(SharedOf(before)), node, 0, e.payload.command);
      }
    }
  }

  lemma {:induction false} ReplaySplits(init: Shared, a: seq<Entry>, b: seq<Entry>)
    ensures Replay(init, a + b) == Replay(Replay(init, a), b)
  {
    if b == [] {
      assert a + b == a;
    } else {
      assert (a + b)[..|a + b| - 1] == a + b[..|b| - 1];
      ReplaySplits(init, a, b[..|b| - 1]);
    }
  }

  // ----- snapshots -----

  /** The rows of the six replicated tables, with metadata beside them. */
  ghost function Contents(t: Tables, meta: SnapshotMeta): SnapshotData {
    SnapshotData(DumpTable(t.secrets), DumpTable(t.versions), DumpTable(t.roles), DumpTable(t.tokens),
                 DumpTable(t.tokensByName), DumpTable(t.kmsRewrap), meta.lastLogId, meta.membership)
  }

  function MetaNow(r: Replica): SnapshotMeta {
    SnapshotMeta(r.applied, MembershipOf(r))
  }

  /**
   * The last part of build_snapshot, with the metadata it read before it opened its data transaction: the snapshot
   * handed out and the node that saved its bytes.
   */
  ghost function BuildSnapshot(r: Replica, meta: SnapshotMeta): (Replica, Snapshot) {
    (r.(saved := Some(Contents(r.tables, meta))), Snapshot(meta, Contents(r.tables, meta)))
  }

  /** get_current_snapshot pairs the saved bytes with the metadata of the present. */
  function CurrentSnapshot(r: Replica): Option<Snapshot> {
    if r.saved.None? then None else Some(Snapshot(MetaNow(r), r.saved.value))
  }

  predicate AcceptableMeta(meta: SnapshotMeta) {
    meta.lastLogId.Some? ==> meta.lastLogId.value.index <= MAX_PLAUSIBLE_LOG_INDEX
  }

  predicate AcceptableSnapshotRows(data: SnapshotData) {
    ValidNames(data.secrets) && ValidVersionKeys(data.versions)
  }

  function RestoredShared(data: SnapshotData): Shared {
    Shared(Collapse(data.secrets), Collapse(data.versions), Collapse(data.roles), Collapse(data.tokens),
           Collapse(data.tokensByName), Collapse(data.kmsRewrap))
  }

  function WithShared(t: Tables, s: Shared): Tables {
    Tables(s.secrets, s.versions, s.roles, s.tokens, s.tokensByName, s.kmsRewrap, t.lockouts, t.audit)
  }

  /** install_snapshot: refused whole, or the six tables and the metadata replaced in one commit. */
  function InstallSnapshot(r: Replica, snap: Snapshot): (Replica, bool) {
    if !AcceptableMeta(snap.meta) || !AcceptableSnapshotRows(snap.data) then (r, false)
    else
      (r.(tables := WithShared(r.tables, RestoredShared(snap.data)),
          applied := snap.meta.lastLogId,
          membership := Some(snap.meta.membership)), true)
  }

  lemma ContentsRestore(t: Tables, meta: SnapshotMeta)
    ensures RestoredShared(Contents(t, meta)) == SharedOf(t)
  {
    CollapseOfDump(t.secrets);
    CollapseOfDump(t.versions);
    CollapseOfDump(t.roles);
    CollapseOfDump(t.tokens);
    CollapseOfDump(t.tokensByName);
    CollapseOfDump(t.kmsRewrap);
  }

  // ----- what opening the store writes -----

  const ADMIN: string := "admin"

  const ADMIN_ROLE: RoleRecord :=
    RoleRecord(ADMIN, Some("Full superuser access to all secrets and administration"), true, [], 0)

  const BOOTSTRAP_TOKEN_NAME: string := "bootstrap-admin"

  /** Opening a store seeds the admin role, and the bootstrap token when one is configured. */
  ghost function Boot(t: Tables, node: U64, bootstrap: Option<(Bytes, I64)>): Tables {
    var seeded := if ADMIN in t.roles then t else t.(roles := t.roles[ADMIN := ADMIN_ROLE]);
    match bootstrap
    case None => seeded
    case Some((fingerprint, now)) =>
      if fingerprint in seeded.tokens then seeded
      else
        var token := TokenRecord(BOOTSTRAP_TOKEN_NAME, Some(ADMIN), fingerprint, now, None, None);
        AddTokenEffect(seeded, token).0
  }

  /** Opening writes nothing exactly when the role and the token, or its name, are already there. */
  ghost predicate AlreadySeeded(t: Tables, bootstrap: Option<(Bytes, I64)>) {
    && ADMIN in t.roles
    && (bootstrap.Some? ==> bootstrap.value.0 in t.tokens || BOOTSTRAP_TOKEN_NAME in t.tokensByName)
  }

  lemma BootChangesNothingIff(t: Tables, node: U64, bootstrap: Option<(Bytes, I64)>)
    ensures Boot(t, node, bootstrap) == t <==> AlreadySeeded(t, bootstrap)
    ensures SharedOf(Boot(t, node, bootstrap)) == SharedOf(t) <==> AlreadySeeded(t, bootstrap)
  {
    var u := Boot(t, node, bootstrap);
    if ADMIN !in t.roles { assert ADMIN in u.roles; }
    if !AlreadySeeded(t, bootstrap) && ADMIN in t.roles { assert bootstrap.value.0 in u.tokens; }
  }

  /**
   * What is there after opening: the admin role, with full access if it was not there before, and a configured token with
   * that role unless its fingerprint or its name was taken; nothing else changes.
   */
  lemma BootSeeds(t: Tables, node: U64, bootstrap: Option<(Bytes, I64)>)
    ensures var u := Boot(t, node, bootstrap);
            && u == t.(roles := u.roles, tokens := u.tokens, tokensByName := u.tokensByName)
            && u.roles.Keys == t.roles.Keys + {ADMIN} && (forall r :: r in t.roles ==> u.roles[r] == t.roles[r])
            && (ADMIN !in t.roles ==> u.roles[ADMIN].name == ADMIN && u.roles[ADMIN].isAdmin)
            && (bootstrap.None? ==> u.tokens == t.tokens && u.tokensByName == t.tokensByName)
            && (bootstrap.Some? ==> BootToken(t, u, bootstrap.value.0, bootstrap.value.1))
  {
    var u := Boot(t, node, bootstrap);
    assert u.roles == if ADMIN in t.roles then t.roles else t.roles[ADMIN := ADMIN_ROLE];
  }

  ghost predicate BootToken(t: Tables, u: Tables, f: Bytes, now: I64) {
    if f in t.tokens || BOOTSTRAP_TOKEN_NAME in t.tokensByName then u.tokens == t.tokens && u.tokensByName == t.tokensByName
    else
      && u.tokens == t.tokens[f := TokenRecord(BOOTSTRAP_TOKEN_NAME, Some(ADMIN), f, now, None, None)]
      && u.tokensByName == t.tokensByName[BOOTSTRAP_TOKEN_NAME := f]
  }
}
