/** The Raft storage as it runs: log, metadata and state machine of one node, changed commit by commit. */
module RaftStore {
  import opened Base
  import opened Keys
  import opened Model
  import opened Effects
  import opened Backup
  import opened Scan
  import opened Store
  import opened RaftLog
  import opened Replica

  // ----- passes over the log -----

  method RemoveIndexes(log: Log, dels: seq<nat>) returns (left: Log)
    ensures left == map i | i in log && i !in dels :: log[i]
  {
    left := log;
    for j := 0 to |dels|
      invariant left == map i | i in log && i !in dels[..j] :: log[i]
    {
      left := left - {dels[j]};
      assert dels[..j + 1] == dels[..j] + [dels[j]];
    }
    assert dels[..|dels|] == dels;
  }

  /** The indexes of a half-open or closed range, collected before any is removed. */
  method IndexesBetween(log: Log, lo: nat, hi: Option<nat>) returns (found: seq<nat>)
    ensures forall i :: i in found <==> i in log && lo <= i && (hi.Some? ==> i <= hi.value)
  {
    var order := IndexesInOrder(log.Keys);
    found := Select(order, (i: nat) => lo <= i && (hi.None? || i <= hi.value));
  }

  // ----- the scan of normalize_raft_log -----

  /** Indexes fit the source's unsigned 64-bit type. */
  ghost predicate Fits(d: LogDisk) {
    && (forall i :: i in d.log ==> i <= U64_MAX)
    && (d.purged.Some? ==> d.purged.value.index <= U64_MAX) && (d.applied.Some? ==> d.applied.value.index <= U64_MAX)
  }

  /** What is known after the first `j` indexes: which were kept, and whether the run is broken. */
  ghost predicate Scanning(log: Log, order: seq<nat>, j: nat, start: nat, expected: nat, truncating: bool, dels: seq<nat>) {
    && start <= expected
    && (forall i :: start <= i < expected ==> i in log)
    && (truncating ==> expected !in log)
    && (forall i :: i in dels ==> i in log && !(start <= i < expected) && (!truncating ==> i < start))
    && (forall k :: 0 <= k < j <= |order| ==> order[k] in dels || start <= order[k] < expected)
    && (forall k :: j <= k < |order| ==> order[k] >= expected || order[k] < start)
  }

  lemma ScanStep(log: Log, order: seq<nat>, j: nat, start: nat, expected: nat, truncating: bool, dels: seq<nat>)
    requires Ascending(order, IndexLe) && (forall i :: i in order <==> i in log) && j < |order|
    requires Scanning(log, order, j, start, expected, truncating, dels)
    ensures var i := order[j];
            if truncating || i < start then Scanning(log, order, j + 1, start, expected, truncating, dels + [i])
            else if i == expected then Scanning(log, order, j + 1, start, expected + 1, truncating, dels)
            else Scanning(log, order, j + 1, start, expected, true, dels + [i])
  {
    var i := order[j];
    assert i in order;
    forall k | j < k < |order| ensures order[k] > i { assert Before(order[j], order[k], IndexLe); }
    if !truncating && i >= start && i != expected {
      assert expected !in order;
    }
  }

  lemma ScanDone(log: Log, order: seq<nat>, start: nat, expected: nat, truncating: bool, dels: seq<nat>, i: nat)
    requires (forall k :: k in order <==> k in log) && i in log
    requires Scanning(log, order, |order|, start, expected, truncating, dels)
    ensures i in dels <==> !InRun(log, start, i)
  {
    assert i in order;
    var k :| 0 <= k < |order| && order[k] == i;
    if start <= i < expected { assert InRun(log, start, i); }
    assert expected !in order;
  }

  /** The indexes to delete, found in one ascending pass with the wrapping arithmetic of the source. */
  method OutsideRun(log: Log, floor: Option<LogId>) returns (dels: seq<nat>)
    requires (forall i :: i in log ==> i <= U64_MAX) && (floor.Some? ==> floor.value.index <= U64_MAX)
    ensures forall i :: i in dels <==> i in log && !InRun(log, After(floor), i)
  {
    var start := if floor.None? then 0 else if floor.value.index == U64_MAX then U64_MAX else floor.value.index + 1;
    var order := IndexesInOrder(log.Keys);
    IndexKeysAscend(log.Keys);
    assert forall i :: i in order <==> i in log;
    forall k | 0 <= k < |order| ensures order[k] <= U64_MAX { assert order[k] in order; }
    dels := [];
    var expected, truncating := start, false;
    ghost var from: nat := After(floor);
    ghost var want: nat := from;
    for j := 0 to |order|
      invariant Scanning(log, order, j, from, want, truncating, dels)
      invariant want <= U64_MAX ==> expected == want
    {
      var index := order[j];
      ScanStep(log, order, j, from, want, truncating, dels);
      if truncating || (floor.Some? && index <= floor.value.index) {
        dels := dels + [index];
      } else if index == expected {
        expected := if expected == U64_MAX then 0 else expected + 1;
        want := want + 1;
      } else {
        dels := dels + [index];
        truncating := true;
      }
    }
    ScanAll(log, order, from, want, truncating, dels);
  }

  lemma ScanAll(log: Log, order: seq<nat>, start: nat, expected: nat, truncating: bool, dels: seq<nat>)
    requires (forall k :: k in order <==> k in log) && Scanning(log, order, |order|, start, expected, truncating, dels)
    ensures forall i :: i in dels <==> i in log && !InRun(log, start, i)
  {
    forall i | i in log ensures i in dels <==> !InRun(log, start, i) {
      ScanDone(log, order, start, expected, truncating, dels, i);
    }
  }

  /** One more entry of a batch. */
  lemma BatchStep(t: Tables, m: Option<StoredMembership>, node: U64, entries: seq<Entry>, j: nat)
    requires j < |entries|
    ensures var (u, o) := EntryEffect(BatchTables(t, node, entries[..j]), node, entries[j]);
            && BatchTables(t, node, entries[..j + 1]) == u
            && BatchResults(t, node, entries[..j + 1]) == BatchResults(t, node, entries[..j]) + [o]
            && BatchMembership(m, entries[..j + 1]) == EntryMembership(BatchMembership(m, entries[..j]), entries[j])
  {
    assert entries[..j + 1][..j] == entries[..j];
  }

  class RaftNode {
    const store: RedbStore
    var log: Log
    var purged: Option<LogId>
    var applied: Option<LogId>
    var membership: Option<StoredMembership>
    var saved: Option<SnapshotData>

    constructor (store: RedbStore)
      ensures this.store == store && Disk() == LogDisk(map[], None, None) && membership.None? && saved.None?
    {
      this.store := store;
      log, purged, applied, membership, saved := map[], None, None, None, None;
    }

    function Disk(): LogDisk
      reads this
    {
      LogDisk(log, purged, applied)
    }

    function State(): Replica
      reads this, store
    {
      Replica(store.tables, applied, membership, saved)
    }

    method Append(entries: seq<Entry>)
      modifies this`log
      ensures log == Appended(old(log), entries)
    {
      for j := 0 to |entries|
        invariant log == Appended(old(log), entries[..j])
      {
        assert entries[..j + 1][..j] == entries[..j];
        log := log[entries[j].logId.index := entries[j]];
      }
      assert entries[..|entries|] == entries;
    }

    method Truncate(id: LogId)
      modifies this`log
      ensures log == TruncatedFrom(old(log), id.index)
      ensures forall i :: i in log <==> i in old(log) && i < id.index
      ensures forall i :: i in log ==> log[i] == old(log)[i]
    {
      var keys := IndexesBetween(log, id.index, None);
      log := RemoveIndexes(log, keys);
      assert log == TruncatedFrom(old(log), id.index);
    }

    /** Two commits: the rows go first, then the record of how far they went. */
    method Purge(id: LogId)
      modifies this`log, this`purged
      ensures log == DroppedUpTo(old(log), id.index) && purged == Some(id)
      ensures forall i :: i in log <==> i in old(log) && i > id.index
      ensures forall i :: i in log ==> log[i] == old(log)[i]
    {
      var keys := IndexesBetween(log, 0, Some(id.index));
      log := RemoveIndexes(log, keys);
      assert log == DroppedUpTo(old(log), id.index);
      purged := Some(id);
    }

    /** The startup repair: one scan with the arithmetic of the source, then up to two commits. */
    method Normalize()
      requires Fits(Disk())
      modifies this`log, this`purged
      ensures Disk() == Normalized(old(Disk()))
    {
      ghost var d := Disk();
      var floor := if applied.Some? then applied else purged;
      var dels := OutsideRun(log, floor);
      var advance := applied.Some? && (purged.None? || purged.value.index < applied.value.index);
      if dels == [] && !advance {
        assert NormalizeDelete(d).log == d.log;
        return;
      }
      log := RemoveIndexes(log, dels);
      assert log == NormalizeDelete(d).log;
      if advance { purged := applied; }
    }

    method GetLogState() returns (r: LogState)
      requires Fits(Disk())
      ensures ReportsLogState(Disk(), r)
    {
      var order := IndexesInOrder(log.Keys);
      assert forall i :: i in log <==> i in order;
      if order == [] {
        assert log == map[];
        return LogState(purged, purged);
      }
      var first, last := order[0], order[|order| - 1];
      assert IsFirst(log, first) && IsLast(log, last) by {
        IndexKeysAscend(log.Keys);
        Ends(log, order);
      }
      var above := if purged.None? then 0 else if purged.value.index == U64_MAX then U64_MAX else purged.value.index + 1;
      var lastPurged := if above < first && applied.Some? then applied else purged;
      r := LogState(lastPurged, Some(log[last].logId));
    }

    /** A batch in one transaction; its rejections are results, not failures. */
    method ApplyEntries(entries: seq<Entry>) returns (results: seq<Outcome>)
      modifies this`applied, this`membership, store
      ensures State() == ApplyBatch(old(State()), store.nodeId, entries)
      ensures results == BatchResults(old(store.tables), store.nodeId, entries)
    {
      var txn := new WriteTransaction(store.tables);
      var lastApplied: Option<LogId> := None;
      var member: Option<StoredMembership> := None;
      results := [];
      for j := 0 to |entries|
        invariant fresh(txn) && txn.Contents() == BatchTables(old(store.tables), store.nodeId, entries[..j])
        invariant results == BatchResults(old(store.tables), store.nodeId, entries[..j])
        invariant lastApplied == if j == 0 then None else Some(entries[j - 1].logId)
        invariant (if member.Some? then member else old(membership)) == BatchMembership(old(membership), entries[..j])
        invariant State() == old(State())
      {
        BatchStep(old(store.tables), old(membership), store.nodeId, entries, j);
        lastApplied := Some(entries[j].logId);
        var o := Ok;
        match entries[j].payload {
          case Blank =>
          case Normal(command) => o := txn.ApplyCommand(store.nodeId, command);
          case Members(members) => member := Some(StoredMembership(Some(entries[j].logId), members));
        }
        results := results + [o];
      }
      assert entries[..|entries|] == entries;
      if lastApplied.Some? {
        applied := lastApplied;
        if member.Some? { membership := member; }
      }
      store.tables := txn.Contents();
    }

    /** The first two reads of build_snapshot, each in a transaction of its own. */
    method ReadApplied() returns (id: Option<LogId>)
      ensures id == State().applied
    {
      id := applied;
    }

    method ReadMembership() returns (members: StoredMembership)
      ensures members == MembershipOf(State())
    {
      members := OrDefault(membership);
    }

    /** The rest of it, which sees the tables of its own moment. */
    method MakeSnapshot(lastApplied: Option<LogId>, members: StoredMembership) returns (snap: Snapshot)
      modifies this`saved
      ensures (State(), snap) == BuildSnapshot(old(State()), SnapshotMeta(lastApplied, members))
    {
      var tokens := DumpStrings(store.tables.tokens);
      var secrets := DumpStrings(store.tables.secrets);
      var versions := DumpStrings(store.tables.versions);
      var roles := DumpStrings(store.tables.roles);
      var tokensByName := DumpStrings(store.tables.tokensByName);
      var kmsRewrap := DumpStrings(store.tables.kmsRewrap);
      var data := SnapshotData(secrets, versions, roles, tokens, tokensByName, kmsRewrap, lastApplied, members);
      saved := Some(data);
      snap := Snapshot(SnapshotMeta(lastApplied, members), data);
    }

    /** Refused whole, or tables, metadata and the covered part of the log replaced in one commit. */
    method Install(snap: Snapshot) returns (ok: bool)
      modifies this`log, this`purged, this`applied, this`membership, store
      ensures (State(), ok) == InstallSnapshot(old(State()), snap)
      ensures ok && snap.meta.lastLogId.Some? ==>
                purged == snap.meta.lastLogId && log == DroppedUpTo(old(log), snap.meta.lastLogId.value.index)
      ensures !ok || snap.meta.lastLogId.None? ==> purged == old(purged) && log == old(log)
    {
      if snap.meta.lastLogId.Some? && snap.meta.lastLogId.value.index > MAX_PLAUSIBLE_LOG_INDEX { return false; }
      var good := CheckSnapshotRows(snap.data);
      if !good { return false; }
      var t := store.tables;
      var secrets := RestoreTable(t.secrets, snap.data.secrets);
      var versions := RestoreTable(t.versions, snap.data.versions);
      var roles := RestoreTable(t.roles, snap.data.roles);
      var tokensByName := RestoreTable(t.tokensByName, snap.data.tokensByName);
      var kmsRewrap := RestoreTable(t.kmsRewrap, snap.data.kmsRewrap);
      var tokens := RestoreTable(t.tokens, snap.data.tokens);
      applied := snap.meta.lastLogId;
      membership := Some(snap.meta.membership);
      if snap.meta.lastLogId.Some? {
        purged := snap.meta.lastLogId;
        var covered := IndexesBetween(log, 0, Some(snap.meta.lastLogId.value.index));
        log := RemoveIndexes(log, covered);
        assert log == DroppedUpTo(old(log), snap.meta.lastLogId.value.index);
      }
      store.tables := Tables(secrets, versions, roles, tokens, tokensByName, kmsRewrap, t.lockouts, t.audit);
      ok := true;
    }

    method SavedSnapshot() returns (snap: Option<Snapshot>)
      ensures snap == CurrentSnapshot(State())
    {
      if saved.None? { return None; }
      var members := OrDefault(membership);
      snap := Some(Snapshot(SnapshotMeta(applied, members), saved.value));
    }
  }

  method CheckSnapshotRows(data: SnapshotData) returns (ok: bool)
    ensures ok <==> AcceptableSnapshotRows(data)
  {
    for i := 0 to |data.secrets|
      invariant forall j :: 0 <= j < i ==> ValidName(data.secrets[j].0)
    {
      if !ValidName(data.secrets[i].0) { return false; }
    }
    for i := 0 to |data.versions|
      invariant forall j :: 0 <= j < i ==> ValidVersionKey(data.versions[j].0)
    {
      if !ValidVersionKey(data.versions[i].0) { return false; }
    }
    ok := true;
  }

  lemma Ends(log: Log, order: seq<nat>)
    requires order != [] && Ascending(order, IndexLe) && forall i :: i in order <==> i in log
    ensures IsFirst(log, order[0]) && IsLast(log, order[|order| - 1])
  {
    forall i | i in log ensures order[0] <= i <= order[|order| - 1] {
      assert i in order;
      var k :| 0 <= k < |order| && order[k] == i;
      assert k > 0 ==> Before(order[0], order[k], IndexLe);
      assert k < |order| - 1 ==> Before(order[k], order[|order| - 1], IndexLe);
    }
  }
}
