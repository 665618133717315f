/** The Raft log table and its metadata: what each commit does, and the startup repair. */
module RaftLog {
  import opened Base
  import opened Model

  datatype LogId = LogId(term: nat, node: nat, index: nat)

  datatype Payload = Blank | Normal(command: Command) | Members(members: set<nat>)

  datatype Entry = Entry(logId: LogId, payload: Payload)

  type Log = map<nat, Entry>

  /** The durable part of the log store. */
  datatype LogDisk = LogDisk(log: Log, purged: Option<LogId>, applied: Option<LogId>)

  /** First index above an optional log id. */
  function After(id: Option<LogId>): nat {
    if id.Some? then id.value.index + 1 else 0
  }

  // ----- single commits -----

  ghost function Appended(log: Log, entries: seq<Entry>): Log {
    if entries == [] then log
    else
      var last := entries[|entries| - 1];
      Appended(log, entries[..|entries| - 1])[last.logId.index := last]
  }

  function TruncatedFrom(log: Log, from: nat): Log {
    map i | i in log && i < from :: log[i]
  }

  function DroppedUpTo(log: Log, upTo: nat): Log {
    map i | i in log && i > upTo :: log[i]
  }

  // ----- normalize_raft_log -----

  /** Everything at or below the floor is covered by applied state. */
  function FloorId(d: LogDisk): Option<LogId> {
    if d.applied.Some? then d.applied else d.purged
  }

  /** The indexes normalization keeps: the longest unbroken run just above the floor. */
  ghost predicate InRun(log: Log, start: nat, i: nat) {
    start <= i && forall j :: start <= j <= i ==> j in log
  }

  ghost function NormalizeDelete(d: LogDisk): LogDisk {
    d.(log := map i | i in d.log && InRun(d.log, After(FloorId(d)), i) :: d.log[i])
  }

  predicate AdvancesPurged(d: LogDisk) {
    d.applied.Some? && (d.purged.None? || d.purged.value.index < d.applied.value.index)
  }

  function NormalizeRecord(d: LogDisk): LogDisk {
    if AdvancesPurged(d) then d.(purged := d.applied) else d
  }

  ghost function Normalized(d: LogDisk): LogDisk {
    NormalizeRecord(NormalizeDelete(d))
  }

  lemma RunOfRun(log: Log, start: nat, kept: Log, i: nat)
    requires kept == map j | j in log && InRun(log, start, j) :: log[j]
    ensures InRun(kept, start, i) <==> InRun(log, start, i)
  {
    if InRun(log, start, i) {
      forall j | start <= j <= i ensures j in kept {
        assert InRun(log, start, j);
      }
    }
    if InRun(kept, start, i) {
      forall j | start <= j <= i ensures j in log { assert j in kept; }
    }
  }

  lemma NormalizeDeleteIdempotent(d: LogDisk)
    ensures NormalizeDelete(NormalizeDelete(d)) == NormalizeDelete(d)
  {
    var e := NormalizeDelete(d);
    var start := After(FloorId(d));
    forall i | i in e.log ensures InRun(e.log, start, i) {
      RunOfRun(d.log, start, e.log, i);
    }
    assert NormalizeDelete(e).log == e.log;
  }

  /** A second run changes nothing, and a crash between the two commits is repaired by the next run. */
  lemma NormalizeIdempotentAndResumable(d: LogDisk)
    ensures Normalized(Normalized(d)) == Normalized(d)
    ensures Normalized(NormalizeDelete(d)) == Normalized(d)
  {
    NormalizeDeleteIdempotent(d);
    var n := Normalized(d);
    assert n.log == NormalizeDelete(d).log;
    assert After(FloorId(n)) == After(FloorId(d));
    assert NormalizeDelete(n).log == NormalizeDelete(NormalizeDelete(d)).log;
  }

  /** Normalization keeps a run of consecutive indexes from the floor, and the longest such run. */
  lemma NormalizeExact(d: LogDisk)
    ensures var n, start := Normalized(d), After(FloorId(d));
            && (forall i :: i in n.log ==> i in d.log && n.log[i] == d.log[i] && i >= start)
            && (forall i, j :: i in n.log && start <= j <= i ==> j in n.log)
            && (forall i :: start <= i && i !in n.log && (i == start || i - 1 in n.log) ==> i !in d.log)
  {
    var n, start := Normalized(d), After(FloorId(d));
    forall i, j | i in n.log && start <= j <= i ensures j in n.log {
      assert InRun(d.log, start, i);
      assert InRun(d.log, start, j);
    }
    forall i | start <= i && i !in n.log && (i == start || i - 1 in n.log) ensures i !in d.log {
      if i > start { assert InRun(d.log, start, i - 1); }
      assert i in d.log ==> InRun(d.log, start, i);
    }
  }

  // ----- get_log_state -----

  datatype LogState = LogState(lastPurged: Option<LogId>, lastLog: Option<LogId>)

  ghost predicate IsFirst(log: Log, i: nat) {
    i in log && forall j :: j in log ==> i <= j
  }

  ghost predicate IsLast(log: Log, i: nat) {
    i in log && forall j :: j in log ==> j <= i
  }

  /** What openraft is told at startup. */
  ghost predicate ReportsLogState(d: LogDisk, r: LogState) {
    && (if exists i :: IsFirst(d.log, i) && After(d.purged) < i
        then r.lastPurged == (if d.applied.Some? then d.applied else d.purged)
        else r.lastPurged == d.purged)
    && (if d.log == map[] then r.lastLog == r.lastPurged
        else exists i :: IsLast(d.log, i) && r.lastLog == Some(d.log[i].logId))
  }
}
