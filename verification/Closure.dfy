/** Every state a run can reach produces snapshots and backups the receiving side accepts. */
module Closure {
  import opened Base
  import opened Keys
  import opened Model
  import opened Effects
  import opened Backup
  import opened RaftLog
  import opened Replica
  import C = Cluster

  /** Only names and version keys a write path accepts. */
  ghost predicate ValidKeys(secrets: set<string>, versions: set<string>) {
    && (forall n :: n in secrets ==> ValidName(n))
    && (forall k :: k in versions ==> ValidVersionKey(k))
  }

  ghost predicate ValidTables(t: Tables) {
    ValidKeys(t.secrets.Keys, t.versions.Keys)
  }

  lemma WrittenKeyIsValid(name: string, version: I32)
    requires CheckSecretRow(name, version) == Ok
    ensures ValidVersionKey(VersionKey(name, version))
  {
    ValidNameHasNoNul(name);
    SplitOfKey(name, version);
  }

  lemma RestoreKeepsValid(t: Tables, data: BackupData)
    requires ValidTables(t)
    ensures ValidTables(RestoreEffect(t, data).0)
  {
    var u := RestoreEffect(t, data).0;
    CollapseIsLastWins(data.secrets);
    CollapseIsLastWins(data.versions);
    if AcceptableRows(data) && data.formatVersion == BACKUP_VERSION {
      assert u.secrets == Collapse(data.secrets) && u.versions == Collapse(data.versions);
    }
  }

  /** Any command at all, however built, keeps the key spaces valid. */
  lemma StepKeepsValid(t: Tables, node: U64, c: Command)
    requires ValidTables(t)
    ensures ValidTables(Apply(t, node, c).0)
  {
    match c
    case CreateSecret(secret, row) =>
      if Apply(t, node, c).1 == Ok { WrittenKeyIsValid(secret.name, row.version); }
    case PutVersion(name, expected, row, expiry, meta) => PutKeys(t, name, expected, row, expiry, meta);
    case RestoreDatabase(data) => RestoreKeepsValid(t, data);
    case _ => OthersAddNoKeys(t, node, c);
  }

  lemma PutKeys(t: Tables, name: string, expected: I32, row: VersionRecord, expiry: OptTime, meta: MetaChange)
    requires ValidTables(t)
    ensures ValidTables(PutVersionEffect(t, name, expected, row, expiry, meta).0)
  {
    var (u, out) := PutVersionEffect(t, name, expected, row, expiry, meta);
    if out == Ok {
      WrittenKeyIsValid(name, row.version);
      assert forall k :: k in u.versions ==> k in t.versions.Keys || k == VersionKey(name, row.version);
    }
  }

  lemma {:induction false} RunKeepsValid(t: Tables, node: U64, cs: seq<Command>)
    requires ValidTables(t)
    ensures ValidTables(Run(t, node, cs))
  {
    if cs != [] {
      RunKeepsValid(t, node, cs[..|cs| - 1]);
      StepKeepsValid(Run(t, node, cs[..|cs| - 1]), node, cs[|cs| - 1]);
    }
  }

  // ----- the audit log -----

  /** Rows 0 .. n-1 and nothing else. */
  ghost predicate Dense(audit: map<nat, AuditEntry>, n: nat) {
    forall k: nat :: k in audit <==> k < n
  }

  /** An append takes the next free key of a dense log, until the range is exhausted. */
  lemma AppendExtendsDense(t: Tables, node: U64, entry: AuditEntry, n: nat)
    requires Dense(t.audit, n) && n <= MAX_AUDIT_KEY + 2
    ensures var u := AppendAuditEffect(t, node, entry).0;
            var k := if n <= MAX_AUDIT_KEY + 1 then n else n - 1;
            && Dense(u.audit, k + 1) && u.audit[k] == entry.(nodeId := node)
            && forall j :: j in t.audit && j != k ==> u.audit[j] == t.audit[j]
  {
    var next := NextAuditKey(t.audit.Keys);
    if n > 0 { assert n - 1 in t.audit.Keys; }
    if n > MAX_AUDIT_KEY + 1 { assert MAX_AUDIT_KEY in t.audit.Keys; }
    assert next == if n <= MAX_AUDIT_KEY + 1 then n else n - 1;
  }

  function Appends(cs: seq<Command>): nat {
    if cs == [] then 0 else Appends(cs[..|cs| - 1]) + if cs[|cs| - 1].AppendAudit? then 1 else 0
  }

  /** The last key of the range is written over once it is reached. */
  function Capped(n: nat): nat {
    if n <= MAX_AUDIT_KEY + 2 then n else MAX_AUDIT_KEY + 2
  }

  /** The audit log stays gap free: its length is the number of appends, capped by its key range. */
  lemma {:induction false} AuditStaysDense(t: Tables, node: U64, cs: seq<Command>)
    requires t.audit == map[] && NoRestore(cs)
    ensures Dense(Run(t, node, cs).audit, Capped(Appends(cs)))
  {
    if cs != [] {
      var init, c := cs[..|cs| - 1], cs[|cs| - 1];
      AuditStaysDense(t, node, init);
      var before := Run(t, node, init);
      if c.AppendAudit? {
        AppendExtendsDense(before, node, c.entry, Capped(Appends(init)));
        assert Run(t, node, cs).audit == AppendAuditEffect(before, node, c.entry).0.audit;
      } else {
        AuditUntouched(before, node, c);
        assert Run(t, node, cs).audit == before.audit;
      }
    }
  }

  lemma AuditUntouched(t: Tables, node: U64, c: Command)
    requires !c.AppendAudit? && !c.RestoreDatabase?
    ensures Apply(t, node, c).0.audit == t.audit
  {
  }

  ghost predicate AuditInRange(audit: map<nat, AuditEntry>) {
    forall k :: k in audit ==> k <= MAX_AUDIT_KEY + 1
  }

  lemma StepKeepsAuditRange(t: Tables, node: U64, c: Command)
    requires AuditInRange(t.audit)
    ensures AuditInRange(Apply(t, node, c).0.audit)
  {
    if c.RestoreDatabase? {
      CollapseIsLastWins(c.data.audit);
    } else if !c.AppendAudit? {
      AuditUntouched(t, node, c);
    }
  }

  lemma {:induction false} RunKeepsAuditRange(t: Tables, node: U64, cs: seq<Command>)
    requires AuditInRange(t.audit)
    ensures AuditInRange(Run(t, node, cs).audit)
  {
    if cs != [] {
      RunKeepsAuditRange(t, node, cs[..|cs| - 1]);
      StepKeepsAuditRange(Run(t, node, cs[..|cs| - 1]), node, cs[|cs| - 1]);
    }
  }

  /**
   * A backup dumped after any run of any commands, restores included, is accepted by the restorer
   * exactly when the one audit key past the range is unused. Without restores that is exactly when at
   * most 2^52 + 1 rows were appended. Secrets and versions never stand in the way.
   */
  lemma BackupAcceptedIff(node: U64, cs: seq<Command>)
    ensures AcceptableRows(Dump(Run(EMPTY_TABLES, node, cs))) <==> MAX_AUDIT_KEY + 1 !in Run(EMPTY_TABLES, node, cs).audit
    ensures NoRestore(cs) ==>
              (AcceptableRows(Dump(Run(EMPTY_TABLES, node, cs))) <==> Appends(cs) <= MAX_AUDIT_KEY + 1)
  {
    var t := Run(EMPTY_TABLES, node, cs);
    RunKeepsValid(EMPTY_TABLES, node, cs);
    RunKeepsAuditRange(EMPTY_TABLES, node, cs);
    DumpAcceptedIff(t);
    assert ValidTables(t);
    if NoRestore(cs) { AuditStaysDense(EMPTY_TABLES, node, cs); }
  }

  /** The failing run: a backup whose last audit row has the greatest plausible key, then one more audit row. */
  lemma RestoreThenAppendCannotBeBackedUp(node: U64, row: AuditEntry, entry: AuditEntry)
    ensures var data := BackupData(BACKUP_VERSION, [], [], [], [], [], [(MAX_AUDIT_KEY, row)], []);
            var t := Run(EMPTY_TABLES, node, [RestoreDatabase(data), AppendAudit(entry)]);
            MAX_AUDIT_KEY + 1 in t.audit && !AcceptableRows(Dump(t))
  {
    var data := BackupData(BACKUP_VERSION, [], [], [], [], [], [(MAX_AUDIT_KEY, row)], []);
    var cs := [RestoreDatabase(data), AppendAudit(entry)];
    assert cs[..1] == [cs[0]] && [cs[0]][..0] == [];
    var restored := Run(EMPTY_TABLES, node, cs[..1]);
    assert Run(EMPTY_TABLES, node, []) == EMPTY_TABLES;
    assert restored == RestoreEffect(EMPTY_TABLES, data).0;
    var rows: seq<(nat, AuditEntry)> := [(MAX_AUDIT_KEY, row)];
    assert rows[..0] == [] && Collapse(rows[..0]) == map[];
    assert Collapse(rows) == map[MAX_AUDIT_KEY := row];
    assert restored.audit == map[MAX_AUDIT_KEY := row];
    assert MAX_AUDIT_KEY in restored.audit.Keys;
    assert NextAuditKey(restored.audit.Keys) == MAX_AUDIT_KEY + 1;
    var t := Run(EMPTY_TABLES, node, cs);
    assert t.audit == AppendAuditEffect(restored, node, entry).0.audit;
    DumpAcceptedIff(t);
  }

  // ----- snapshots -----

  lemma {:induction false} ReplayKeepsValid(init: Shared, entries: seq<Entry>)
    requires ValidKeys(init.secrets.Keys, init.versions.Keys)
    ensures ValidKeys(Replay(init, entries).secrets.Keys, Replay(init, entries).versions.Keys)
  {
    if entries != [] {
      var e := entries[|entries| - 1];
      ReplayKeepsValid(init, entries[..|entries| - 1]);
      if e.payload.Normal? {
        StepKeepsValid(Embed(Replay(init, entries[..|entries| - 1])), 0, e.payload.command);
      }
    }
  }

  lemma ValidRowsAccepted(data: SnapshotData)
    requires ValidKeys(Collapse(data.secrets).Keys, Collapse(data.versions).Keys)
    ensures AcceptableSnapshotRows(data)
  {
    CollapseIsLastWins(data.secrets);
    CollapseIsLastWins(data.versions);
    forall i | 0 <= i < |data.secrets| ensures ValidName(data.secrets[i].0) {
      assert data.secrets[i].0 in Collapse(data.secrets).Keys;
    }
    forall i | 0 <= i < |data.versions| ensures ValidVersionKey(data.versions[i].0) {
      assert data.versions[i].0 in Collapse(data.versions).Keys;
    }
  }

  /**
   * In every reachable cluster each snapshot that was built is installable on every node, up to the
   * plausible log length, and installing it brings the node to the state the snapshot stands for.
   */
  lemma BuiltSnapshotAccepted(init: Shared, first: C.Cluster, steps: seq<C.Step>, last: C.Cluster, snap: Snapshot, q: Replica)
    requires C.Initial(init, first) && C.Reaches(first, steps, last) && snap in last.built
    requires ValidKeys(init.secrets.Keys, init.versions.Keys)
    ensures InstallSnapshot(q, snap).1 <==> After(snap.meta.lastLogId) <= MAX_PLAUSIBLE_LOG_INDEX + 1
    ensures InstallSnapshot(q, snap).1 ==> C.Agrees(init, last.committed, InstallSnapshot(q, snap).0)
  {
    C.InitialIsSafe(init, first);
    C.RunSafe(init, first, steps, last);
    assert C.Faithful(init, last.committed, snap);
    ReplayKeepsValid(init, last.committed[..After(snap.meta.lastLogId)]);
    assert RestoredShared(snap.data).secrets == Collapse(snap.data.secrets);
    assert RestoredShared(snap.data).versions == Collapse(snap.data.versions);
    ValidRowsAccepted(snap.data);
  }
}
