/** Crash safety of the log store over every run the consensus library may drive. */
module LogSafety {
  import opened Base
  import opened Model
  import opened RaftLog

  /** Where the node is between commits; a crash may strike in any of them. */
  datatype Phase = Up | Purging(upTo: LogId) | Down | Repairing

  /** `written` remembers every entry appended and not truncated or covered since. */
  datatype Node = Node(disk: LogDisk, phase: Phase, written: Log)

  /** What is left of the history when entries from an index on are given up, and when entries up to one are covered. */
  ghost function Below(written: Log, from: nat): Log {
    map i | i in written && i < from :: written[i]
  }

  ghost function Above(written: Log, last: nat): Log {
    map i | i in written && i > last :: written[i]
  }

  datatype Step =
    | Append(entries: seq<Entry>)
    | Truncate(from: nat)
    | Advance(to: nat)
    | PurgeEntries(upTo: LogId)
    | PurgeMark
    | Install(last: LogId)
    | Crash
    | RepairEntries
    | RepairMark

  /** The index the next append must carry. */
  ghost predicate NextIndex(d: LogDisk, n: nat) {
    if d.log == map[] then n == After(d.purged) else exists i: nat :: IsLast(d.log, i) && n == i + 1
  }

  ghost predicate Consecutive(entries: seq<Entry>, from: nat) {
    forall k :: 0 <= k < |entries| ==> entries[k].logId.index == from + k
  }

  /** The order openraft keeps: append at the end, truncate above applied, purge at or below applied. */
  ghost predicate Allowed(s: Node, step: Step) {
    match step
    case Append(entries) => s.phase.Up? && exists n :: NextIndex(s.disk, n) && Consecutive(entries, n)
    case Truncate(from) => s.phase.Up? && from >= After(s.disk.applied)
    case Advance(to) => s.phase.Up? && to in s.disk.log && to >= After(s.disk.applied)
    case PurgeEntries(upTo) => s.phase.Up? && upTo.index < After(s.disk.applied) && upTo.index + 1 >= After(s.disk.purged)
    case PurgeMark => s.phase.Purging?
    case Install(last) => s.phase.Up? && last.index >= After(s.disk.applied)
    case Crash => true
    case RepairEntries => s.phase.Down?
    case RepairMark => s.phase.Repairing?
  }

  ghost function Do(s: Node, step: Step): Node
    requires Allowed(s, step)
  {
    var d := s.disk;
    match step
    case Append(entries) =>
      Node(d.(log := Appended(d.log, entries)), Up, Appended(s.written, entries))
    case Truncate(from) =>
      Node(d.(log := TruncatedFrom(d.log, from)), Up, Below(s.written, from))
    case Advance(to) => s.(disk := d.(applied := Some(d.log[to].logId)))
    case PurgeEntries(upTo) => Node(d.(log := DroppedUpTo(d.log, upTo.index)), Purging(upTo), s.written)
    case PurgeMark => Node(d.(purged := Some(s.phase.upTo)), Up, s.written)
    case Install(last) =>
      Node(LogDisk(DroppedUpTo(d.log, last.index), Some(last), Some(last)), Up, Above(s.written, last.index))
    case Crash => s.(phase := Down)
    case RepairEntries => Node(NormalizeDelete(d), Repairing, s.written)
    case RepairMark => Node(NormalizeRecord(d), Up, s.written)
  }

  // ----- the invariant -----

  ghost predicate Keyed(log: Log) {
    forall i :: i in log ==> log[i].logId.index == i
  }

  /** Above `from` there is one unbroken run, starting at `from`. */
  ghost predicate Unbroken(log: Log, from: nat) {
    forall i, j :: i in log && from <= j <= i ==> j in log
  }

  ghost predicate Covers(log: Log, from: nat, below: nat) {
    forall i :: from <= i < below ==> i in log
  }

  /** No unapplied entry is lost, none is invented. */
  ghost predicate TailKept(s: Node) {
    forall i :: i >= After(s.disk.applied) ==>
      (i in s.disk.log <==> i in s.written) && (i in s.disk.log ==> s.disk.log[i] == s.written[i])
  }

  /** The lowest index the log may hold in this phase. */
  function Bottom(s: Node): nat {
    match s.phase
    case Purging(upTo) => upTo.index + 1
    case _ => After(s.disk.purged)
  }

  ghost predicate Serving(s: Node) {
    && (forall i :: i in s.disk.log ==> i >= Bottom(s))
    && Unbroken(s.disk.log, Bottom(s))
    && Covers(s.disk.log, Bottom(s), After(s.disk.applied))
  }

  ghost predicate Safe(s: Node) {
    && Keyed(s.disk.log) && Keyed(s.written) && TailKept(s)
    && Unbroken(s.disk.log, After(s.disk.applied))
    && After(s.disk.purged) <= After(s.disk.applied) && Bottom(s) <= After(s.disk.applied)
    && (s.phase.Up? || s.phase.Purging? ==> Serving(s))
    && (s.phase.Repairing? ==> forall i :: i in s.disk.log ==> i >= After(s.disk.applied))
  }

  const FRESH: Node := Node(LogDisk(map[], None, None), Up, map[])

  // ----- each step keeps it -----

  lemma {:induction false} AppendedAt(log: Log, entries: seq<Entry>, from: nat)
    requires Consecutive(entries, from)
    ensures forall i :: i in Appended(log, entries) <==> i in log || from <= i < from + |entries|
    ensures forall i :: from <= i < from + |entries| ==> Appended(log, entries)[i] == entries[i - from]
    ensures forall i :: i in log && !(from <= i < from + |entries|) ==> Appended(log, entries)[i] == log[i]
  {
    if entries != [] {
      AppendedAt(log, entries[..|entries| - 1], from);
    }
  }

  lemma AppendSafe(s: Node, entries: seq<Entry>)
    requires Safe(s) && Allowed(s, Append(entries))
    ensures Safe(Do(s, Append(entries)))
  {
    var n :| NextIndex(s.disk, n) && Consecutive(entries, n);
    AppendedAt(s.disk.log, entries, n);
    AppendedAt(s.written, entries, n);
  }

  lemma OtherSafe(s: Node, step: Step)
    requires Safe(s) && Allowed(s, step) && !step.Append? && !step.RepairEntries?
    ensures Safe(Do(s, step))
  {
  }

  lemma RepairSafe(s: Node)
    requires Safe(s) && s.phase.Down?
    ensures Safe(Do(s, RepairEntries))
    ensures forall i :: i in Do(s, RepairEntries).disk.log <==> i in s.disk.log && i >= After(s.disk.applied)
  {
    var start := After(FloorId(s.disk));
    assert start == After(s.disk.applied);
    forall i | i in s.disk.log && i >= start ensures InRun(s.disk.log, start, i) {
    }
  }

  lemma StepSafe(s: Node, step: Step)
    requires Safe(s) && Allowed(s, step)
    ensures Safe(Do(s, step))
  {
    match step
    case Append(entries) => AppendSafe(s, entries);
    case RepairEntries => RepairSafe(s);
    case _ => OtherSafe(s, step);
  }

  // ----- whole runs -----

  /** A run of allowed steps from the first node state to the last. */
  ghost predicate Reaches(s: Node, steps: seq<Step>, last: Node)
    decreases |steps|
  {
    if steps == [] then s == last
    else Allowed(s, steps[0]) && Reaches(Do(s, steps[0]), steps[1..], last)
  }

  lemma {:induction false} RunSafe(s: Node, steps: seq<Step>, last: Node)
    requires Safe(s) && Reaches(s, steps, last)
    ensures Safe(last)
    decreases |steps|
  {
    if steps != [] {
      StepSafe(s, steps[0]);
      RunSafe(Do(s, steps[0]), steps[1..], last);
    }
  }

  /**
   * After any run, with crashes at every commit boundary, a node that serves again has every
   * unapplied entry it ever wrote and did not truncate, and reports a range that is wholly present.
   */
  lemma LogStoreCrashSafe(steps: seq<Step>, last: Node, r: LogState)
    requires Reaches(FRESH, steps, last) && last.phase.Up? && ReportsLogState(last.disk, r)
    ensures TailKept(last) && Unbroken(last.disk.log, After(last.disk.applied))
    ensures r.lastPurged == last.disk.purged
    ensures forall i :: i in last.disk.log <==> After(r.lastPurged) <= i < After(r.lastLog)
    ensures After(r.lastLog) >= After(last.disk.applied) >= After(r.lastPurged)
  {
    RunSafe(FRESH, steps, last);
    var log := last.disk.log;
    if log != map[] {
      var i: nat :| IsLast(log, i) && r.lastLog == Some(log[i].logId);
      assert After(last.disk.purged) in log;
      assert After(last.disk.applied) > After(last.disk.purged) ==> After(last.disk.applied) - 1 in log;
    } else {
      EmptyLogIsApplied(last);
    }
  }

  /**
   * A truncate in any reachable state: nothing at or above its index is stored or reported any more, what lies below is
   * as it was, and if the log reached that index the next append carries exactly it.
   */
  lemma TruncateCuts(steps: seq<Step>, s: Node, from: nat, r: LogState)
    requires Reaches(FRESH, steps, s) && Allowed(s, Truncate(from))
    requires ReportsLogState(Do(s, Truncate(from)).disk, r)
    ensures var log, cut := s.disk.log, Do(s, Truncate(from)).disk;
            && (forall i :: i in cut.log <==> i in log && i < from)
            && (forall i :: i in cut.log ==> cut.log[i] == log[i])
            && After(r.lastLog) <= from
            && (from in log || NextIndex(s.disk, from) ==> NextIndex(cut, from))
  {
    RunSafe(FRESH, steps, s);
    StepSafe(s, Truncate(from));
    ReportBelow(Do(s, Truncate(from)), from, r);
    if from in s.disk.log || NextIndex(s.disk, from) { NextAfterCut(s, from); }
  }

  /** No gap inside the log, whatever phase it is in. */
  ghost predicate Contiguous(log: Log) {
    forall i, j, k :: i in log && k in log && i <= j <= k ==> j in log
  }

  lemma StepContiguous(s: Node, step: Step)
    requires Safe(s) && Contiguous(s.disk.log) && Allowed(s, step)
    ensures Contiguous(Do(s, step).disk.log)
  {
    if step.Append? {
      StepSafe(s, step);
      var t := Do(s, step);
      forall i, j, k | i in t.disk.log && k in t.disk.log && i <= j <= k ensures j in t.disk.log {
        assert Unbroken(t.disk.log, Bottom(t)) && i >= Bottom(t);
      }
    } else if step.RepairEntries? {
      RepairSafe(s);
    }
  }

  lemma {:induction false} RunContiguous(s: Node, steps: seq<Step>, last: Node)
    requires Safe(s) && Contiguous(s.disk.log) && Reaches(s, steps, last)
    ensures Contiguous(last.disk.log)
    decreases |steps|
  {
    if steps != [] {
      StepSafe(s, steps[0]);
      StepContiguous(s, steps[0]);
      RunContiguous(Do(s, steps[0]), steps[1..], last);
    }
  }

  /** After any run, in any phase, between any two commits: every index the log report spans is stored. */
  lemma ReportIsPresent(steps: seq<Step>, last: Node, r: LogState, i: nat)
    requires Reaches(FRESH, steps, last) && ReportsLogState(last.disk, r)
    requires After(r.lastPurged) <= i < After(r.lastLog)
    ensures i in last.disk.log
  {
    RunSafe(FRESH, steps, last);
    RunContiguous(FRESH, steps, last);
    PresentInSafe(last, r, i);
  }

  lemma PresentInSafe(s: Node, r: LogState, i: nat)
    requires Safe(s) && Contiguous(s.disk.log) && ReportsLogState(s.disk, r)
    requires After(r.lastPurged) <= i < After(r.lastLog)
    ensures i in s.disk.log
  {
    var log := s.disk.log;
    var top: nat :| IsLast(log, top) && r.lastLog == Some(log[top].logId);
    assert i <= top;
    if exists first: nat :: IsFirst(log, first) && After(s.disk.purged) < first {
      assert After(s.disk.applied) <= i || s.disk.applied.None?;
    } else {
      FirstExists(log, top);
      var first: nat :| IsFirst(log, first);
      assert first <= After(s.disk.purged) <= i;
    }
  }

  /** A log that is not empty has a first entry. */
  lemma {:induction false} FirstExists(log: Log, k: nat)
    requires k in log
    ensures exists first: nat :: IsFirst(log, first)
    decreases k
  {
    if !IsFirst(log, k) {
      var j :| j in log && j < k;
      FirstExists(log, j);
    }
  }

  /** A serving node whose entries and applied id lie below an index reports nothing from there on. */
  lemma ReportBelow(s: Node, from: nat, r: LogState)
    requires Safe(s) && s.phase.Up? && ReportsLogState(s.disk, r)
    requires After(s.disk.applied) <= from && forall i :: i in s.disk.log ==> i < from
    ensures After(r.lastLog) <= from
  {
    if s.disk.log != map[] {
      var i: nat :| IsLast(s.disk.log, i) && r.lastLog == Some(s.disk.log[i].logId);
    }
  }

  lemma NextAfterCut(s: Node, from: nat)
    requires Safe(s) && Allowed(s, Truncate(from)) && (from in s.disk.log || NextIndex(s.disk, from))
    ensures NextIndex(Do(s, Truncate(from)).disk, from)
  {
    var log, cut := s.disk.log, Do(s, Truncate(from)).disk.log;
    var bottom := Bottom(s);
    if from > bottom {
      if NextIndex(s.disk, from) && from !in log && log != map[] {
        var i: nat :| IsLast(log, i) && from == i + 1;
      }
      assert from - 1 in log;
      assert IsLast(cut, from - 1);
    } else {
      assert forall i :: i in cut ==> i >= bottom && i < from;
      assert cut == map[];
    }
  }

  /** A serving node without entries has applied exactly what it purged. */
  lemma EmptyLogIsApplied(s: Node)
    requires Safe(s) && s.phase.Up? && s.disk.log == map[]
    ensures After(s.disk.purged) == After(s.disk.applied)
  {
    assert Covers(s.disk.log, Bottom(s), After(s.disk.applied));
    assert After(s.disk.purged) !in s.disk.log;
  }

  lemma RepairedTail(down: Node)
    requires Safe(down) && down.phase.Down?
    ensures var up := Do(Do(down, RepairEntries), RepairMark);
            && After(up.disk.purged) == After(up.disk.applied) == After(down.disk.applied)
            && up.disk.log == map i | i in down.written && i >= After(down.disk.applied) :: down.written[i]
  {
    RepairSafe(down);
    var log := NormalizeDelete(down.disk).log;
    assert log == Do(Do(down, RepairEntries), RepairMark).disk.log;
    assert forall i :: i in log <==> i in down.disk.log && i >= After(down.disk.applied);
    assert forall i :: i in log ==> log[i] == down.disk.log[i];
  }

  /** A restart leaves exactly the unapplied entries, with nothing purged that was not applied. */
  lemma RestartLeavesUnappliedTail(steps: seq<Step>, down: Node)
    requires Reaches(FRESH, steps, down) && down.phase.Down?
    ensures var up := Do(Do(down, RepairEntries), RepairMark);
            && After(up.disk.purged) == After(up.disk.applied) == After(down.disk.applied)
            && up.disk.log == map i | i in down.written && i >= After(down.disk.applied) :: down.written[i]
  {
    RunSafe(FRESH, steps, down);
    RepairedTail(down);
  }

  /**
   * Why the repair is needed: after a crash inside a purge, the raw log report still reaches the
   * applied index exactly when an entry survived the purge or the purge mark was there already.
   */
  lemma CrashedPurgeReportsAppliedIff(s: Node, upTo: LogId, r: LogState)
    requires Safe(s) && Allowed(s, PurgeEntries(upTo))
    requires ReportsLogState(Do(Do(s, PurgeEntries(upTo)), Crash).disk, r)
    ensures After(r.lastLog) >= After(s.disk.applied) <==>
            (exists i :: i in s.disk.log && i > upTo.index) || After(s.disk.purged) == After(s.disk.applied)
  {
    var log := DroppedUpTo(s.disk.log, upTo.index);
    assert log == Do(Do(s, PurgeEntries(upTo)), Crash).disk.log;
    if log != map[] {
      var i: nat :| IsLast(log, i) && r.lastLog == Some(log[i].logId);
      assert i in s.disk.log && i > upTo.index;
      assert upTo.index + 1 < After(s.disk.applied) ==> After(s.disk.applied) - 1 in log;
    } else {
      assert forall i :: i in s.disk.log && i > upTo.index ==> i in log;
    }
  }

  /** A node that wrote one entry, applied it, and stopped after the first commit of its purge. */
  ghost function Stopped(e: Entry): Node {
    Node(LogDisk(map[], None, Some(e.logId)), Down, map[0 := e])
  }

  /**
   * The failing run: one entry is written, applied and purged, and the node stops between the two commits of
   * the purge. The raw report then knows of no entry at all, although one was applied.
   */
  lemma CrashedPurgeForgetsApplied(e: Entry, r: LogState)
    requires e.logId.index == 0 && ReportsLogState(Stopped(e).disk, r)
    ensures Reaches(FRESH, [Append([e]), Advance(0), PurgeEntries(e.logId), Crash], Stopped(e))
    ensures r.lastLog.None? && Stopped(e).disk.applied == Some(e.logId)
  {
    assert NextIndex(FRESH.disk, 0) && Consecutive([e], 0);
    AppendedAt(map[], [e], 0);
    assert Appended(map[], [e]) == map[0 := e];
    var one := Do(FRESH, Append([e]));
    var applied := Do(one, Advance(0));
    assert applied == Node(LogDisk(map[0 := e], None, Some(e.logId)), Up, map[0 := e]);
    assert DroppedUpTo(map[0 := e], 0) == map[];
    assert Do(Do(applied, PurgeEntries(e.logId)), Crash) == Stopped(e);
    var steps := [Append([e]), Advance(0), PurgeEntries(e.logId), Crash];
    assert steps[1..] == [Advance(0), PurgeEntries(e.logId), Crash];
    assert steps[1..][1..] == [PurgeEntries(e.logId), Crash];
    assert steps[1..][1..][1..] == [Crash] && [Crash][1..] == [];
    assert Reaches(applied, steps[1..][1..], Stopped(e));
  }
}
