/** The re-wrap pass as it runs, other writers taking their turn at every wait, and the worker that keeps its watermark. */
module RewrapPass {
  import opened Base
  import opened Keys
  import opened Model
  import opened Effects
  import opened CurrentVersion
  import opened Grace
  import opened Scan
  import opened Readers
  import opened Store
  import opened Rewrap
  import opened Sweep
  import E = Envelope

  // ----- other writers -----

  /** What others commit while the pass waits for the k-th time. */
  type Others = nat -> seq<Command>

  ghost predicate AreShaped(others: Others) {
    forall k :: AllShaped(others(k))
  }

  ghost predicate AreQuiet(others: Others) {
    forall k :: others(k) == []
  }

  ghost predicate SparedBy(others: Others, n: string) {
    forall k :: AllSpare(others(k), n)
  }

  ghost predicate AllSpare(cs: seq<Command>, n: string) {
    forall i :: 0 <= i < |cs| ==> E.Spares(E.Write(cs[i]), n)
  }

  /** Nobody else writes the watermark. */
  ghost predicate LeaveMark(others: Others) {
    forall k :: MarkLeft(others(k))
  }

  ghost predicate MarkLeft(cs: seq<Command>) {
    forall i :: 0 <= i < |cs| ==> !cs[i].SetKmsRewrapState? && !cs[i].RestoreDatabase?
  }

  lemma QuietLeavesMark(others: Others)
    requires AreQuiet(others)
    ensures LeaveMark(others)
  {
    forall k ensures MarkLeft(others(k)) { assert others(k) == []; }
  }

  lemma {:induction false} RunKeepsMark(t: Tables, node: U64, cs: seq<Command>)
    requires MarkLeft(cs)
    ensures Run(t, node, cs).kmsRewrap == t.kmsRewrap
  {
    if cs != [] {
      RunKeepsMark(t, node, cs[..|cs| - 1]);
      MarkUntouched(Run(t, node, cs[..|cs| - 1]), node, cs[|cs| - 1]);
    }
  }

  lemma MarkUntouched(t: Tables, node: U64, c: Command)
    requires !c.SetKmsRewrapState? && !c.RestoreDatabase?
    ensures Apply(t, node, c).0.kmsRewrap == t.kmsRewrap
  {
  }

  // ----- the running pass is the machine -----

  /** What the machine's invariants give for every secret that the others spare. */
  ghost predicate Tracked(p: Pass, others: Others, t0: Tables) {
    && Good(p.tables)
    && (forall n {:trigger Covered(p, n)} :: ValidName(n) && SparedBy(others, n) ==> Covered(p, n))
    && (forall n {:trigger Since(p, n, t0.secrets[n].currentVersion)} ::
          n in t0.secrets && SparedBy(others, n) ==> Since(p, n, t0.secrets[n].currentVersion))
  }

  lemma StepGood(p: Pass, node: U64, step: Step)
    requires Good(p.tables) && Allowed(p, step)
    ensures Good(Do(p, node, step).tables)
  {
    match step
    case Other(c) => StepKeepsGood(p.tables, node, c);
    case CommitRow =>
      StepKeepsGood(p.tables, node, RewrapVersion(p.name, p.rows[0].version, p.hand.keyId, p.hand.blob, p.target));
    case _ =>
  }

  lemma StepTracked(p: Pass, node: U64, step: Step, others: Others, t0: Tables)
    requires Tracked(p, others, t0) && Allowed(p, step)
    requires step.Other? ==> forall n :: SparedBy(others, n) ==> Sweep.Spares(step, n)
    ensures Tracked(Do(p, node, step), others, t0)
  {
    var q := Do(p, node, step);
    StepGood(p, node, step);
    forall n | ValidName(n) && SparedBy(others, n) ensures Covered(q, n) {
      assert Covered(p, n);
      StepCovered(p, node, step, n);
    }
    forall n | n in t0.secrets && SparedBy(others, n) ensures Since(q, n, t0.secrets[n].currentVersion) {
      assert Since(p, n, t0.secrets[n].currentVersion);
      StepSince(p, node, step, n, t0.secrets[n].currentVersion);
    }
  }

  /** The machine after others committed these commands. */
  ghost function Interrupted(p: Pass, node: U64, cs: seq<Command>): Pass
    requires AllShaped(cs)
  {
    if cs == [] then p
    else Do(Interrupted(p, node, cs[..|cs| - 1]), node, Other(cs[|cs| - 1]))
  }

  lemma {:induction false} InterruptedIs(p: Pass, node: U64, cs: seq<Command>)
    requires AllShaped(cs)
    ensures var q := Interrupted(p, node, cs); q.tables == Run(p.tables, node, cs) && q == p.(tables := q.tables, born := q.born)
  {
    if cs != [] {
      var init := cs[..|cs| - 1];
      InterruptedIs(p, node, init);
      RejectionChangesNothing(Run(p.tables, node, init), node, cs[|cs| - 1]);
    }
  }

  lemma {:induction false} InterruptedTracked(p: Pass, node: U64, cs: seq<Command>, others: Others, t0: Tables)
    requires AllShaped(cs) && Tracked(p, others, t0) && forall n :: SparedBy(others, n) ==> AllSpare(cs, n)
    ensures Tracked(Interrupted(p, node, cs), others, t0)
  {
    if cs != [] {
      var init, c := cs[..|cs| - 1], cs[|cs| - 1];
      forall n | SparedBy(others, n) ensures AllSpare(init, n) && Sweep.Spares(Other(c), n) { assert AllSpare(cs, n); }
      InterruptedTracked(p, node, init, others, t0);
      StepTracked(Interrupted(p, node, init), node, Other(c), others, t0);
    }
  }

  /** The machine waits for the next secret. */
  predicate BetweenSecrets(p: Pass) {
    p.todo.Some? && p.rows == [] && p.hand.Nothing?
  }

  /** Row `i` of the list is next. */
  ghost predicate AtRow(p: Pass, name: string, live: seq<VersionRecord>, i: nat) {
    p.todo.Some? && p.name == name && i <= |live| && p.rows == live[i..] && p.hand.Nothing?
  }

  // ----- a store nobody else writes -----

  /** Only rows changed, and each only as a re-wrap to the target may change it. */
  ghost predicate OnlyMoved(before: Tables, after: Tables, target: I64) {
    after == before.(versions := after.versions) && MovedRows(before.versions, after.versions, target)
  }

  ghost predicate AllCaught(t: Tables, now: I64, target: I64) {
    forall n :: n in t.secrets ==> Caught(t.versions, n, now, target)
  }

  /** What visiting row `i` does to the rows still ahead. */
  lemma VisitRow(before: Tables, t: Tables, u: Tables, name: string, now: I64, live: seq<VersionRecord>, i: nat, target: I64)
    requires Good(before) && LiveList(before.versions, name, now, live) && i < |live|
    requires OnlyMoved(before, t, target) && OnlyMoved(t, u, target) && Ahead(t.versions, name, live, i)
    requires forall k :: k in u.versions && k != VersionKey(name, live[i].version) ==> u.versions[k] == t.versions[k]
    ensures OnlyMoved(before, u, target) && Ahead(u.versions, name, live, i + 1)
  {
    assert Stored(t.versions, name, live[i]);
    MovedTwice(before.versions, t.versions, u.versions, target);
    forall j | i < j < |live| ensures Stored(u.versions, name, live[j]) {
      ListedRowsDiffer(before, name, now, live, i, j);
      assert Stored(t.versions, name, live[j]);
    }
  }

  lemma NothingNeeded(t: Tables, name: string, now: I64, live: seq<VersionRecord>, i: nat, target: I64)
    requires LiveList(t.versions, name, now, live) && i < |live| && Caught(t.versions, name, now, target)
    ensures !NeedsRewrap(live[i], target)
  {
    assert LiveRow(t.versions, name, now, live[i]);
  }

  lemma AllAhead(t: Tables, name: string, now: I64, live: seq<VersionRecord>)
    requires LiveList(t.versions, name, now, live)
    ensures Ahead(t.versions, name, live, 0)
  {
    forall j | 0 <= j < |live| ensures Stored(t.versions, name, live[j]) { assert LiveRow(t.versions, name, now, live[j]); }
  }

  /** The blob and key id the key service answers with. */
  function Rewrapping(name: string, row: VersionRecord, answer: Option<(string, nat)>): (WrappedKey, string)
    requires CanRewrap(name, row, answer)
  {
    E.ReencryptDataKey(row.wrappedDek, row.kmsKeyId, KeyContext(name, row.version), answer.value.0, answer.value.1).value
  }

  /** One row of the list, as the machine takes it. */
  ghost function AfterVisit(p: Pass, node: U64, name: string, row: VersionRecord, answer: Option<(string, nat)>, cs: seq<Command>): Pass
    requires p.rows != [] && p.rows[0] == row && p.name == name && p.hand.Nothing? && AllShaped(cs)
  {
    if !NeedsRewrap(row, p.target) then Do(p, node, Skip)
    else if !CanRewrap(name, row, answer) then
      InterruptedIs(p, node, cs);
      Do(Interrupted(p, node, cs), node, Fail)
    else
      var held := Do(p, node, Reencrypt(answer.value.0, answer.value.1));
      InterruptedIs(held, node, cs);
      Do(Interrupted(held, node, cs), node, CommitRow)
  }

  lemma AfterVisitTracked(p: Pass, node: U64, name: string, row: VersionRecord, answer: Option<(string, nat)>, cs: seq<Command>,
                       others: Others, t0: Tables)
    requires p.rows != [] && p.rows[0] == row && p.name == name && p.hand.Nothing? && AllShaped(cs)
    requires Tracked(p, others, t0) && forall n :: SparedBy(others, n) ==> AllSpare(cs, n)
    ensures Tracked(AfterVisit(p, node, name, row, answer, cs), others, t0)
  {
    if !NeedsRewrap(row, p.target) {
      StepTracked(p, node, Skip, others, t0);
    } else if !CanRewrap(name, row, answer) {
      InterruptedIs(p, node, cs);
      InterruptedTracked(p, node, cs, others, t0);
      StepTracked(Interrupted(p, node, cs), node, Fail, others, t0);
    } else {
      var step := Reencrypt(answer.value.0, answer.value.1);
      StepTracked(p, node, step, others, t0);
      var held := Do(p, node, step);
      InterruptedIs(held, node, cs);
      InterruptedTracked(held, node, cs, others, t0);
      StepTracked(Interrupted(held, node, cs), node, CommitRow, others, t0);
    }
  }

  /** The machine's next state and the store's agree. */
  lemma AfterVisitIs(p: Pass, node: U64, name: string, row: VersionRecord, answer: Option<(string, nat)>, cs: seq<Command>)
    requires p.rows != [] && p.rows[0] == row && p.name == name && p.hand.Nothing? && AllShaped(cs)
    ensures var q := AfterVisit(p, node, name, row, answer, cs);
            && q == p.(tables := q.tables, rows := p.rows[1..], failed := q.failed, born := q.born)
            && q.failed == p.failed + (if NeedsRewrap(row, p.target) && !CanRewrap(name, row, answer) then 1 else 0)
            && q.tables ==
               if !NeedsRewrap(row, p.target) then p.tables
               else if !CanRewrap(name, row, answer) then Run(p.tables, node, cs)
               else RewrapEffect(Run(p.tables, node, cs), name, row.version, Rewrapping(name, row, answer).1,
                                 Rewrapping(name, row, answer).0, p.target).0
  {
    if NeedsRewrap(row, p.target) && !CanRewrap(name, row, answer) {
      InterruptedIs(p, node, cs);
    } else if NeedsRewrap(row, p.target) {
      InterruptedIs(Do(p, node, Reencrypt(answer.value.0, answer.value.1)), node, cs);
    }
  }

  /** With nobody else writing, a visit moves its own row at most. */
  lemma QuietVisit(p: Pass, node: U64, name: string, row: VersionRecord, answer: Option<(string, nat)>)
    requires p.rows != [] && p.rows[0] == row && p.name == name && p.hand.Nothing? && Stored(p.tables.versions, name, row)
    ensures var u := AfterVisit(p, node, name, row, answer, []).tables;
            && OnlyMoved(p.tables, u, p.target) && (!NeedsRewrap(row, p.target) ==> u == p.tables)
            && (forall k :: k in u.versions && k != VersionKey(name, row.version) ==> u.versions[k] == p.tables.versions[k])
  {
    AfterVisitIs(p, node, name, row, answer, []);
    if NeedsRewrap(row, p.target) && CanRewrap(name, row, answer) { RowMoves(p.tables, name, row, p.target, answer); }
  }

  /** With nobody else writing: the list is still true of every row from `i` on. */
  ghost predicate Undisturbed(before: Tables, t: Tables, name: string, now: I64, live: seq<VersionRecord>, i: nat, target: I64) {
    && Good(before) && LiveList(before.versions, name, now, live)
    && OnlyMoved(before, t, target) && Ahead(t.versions, name, live, i)
  }

  lemma UndisturbedStep(before: Tables, p: Pass, node: U64, name: string, now: I64, live: seq<VersionRecord>, i: nat,
                        answer: Option<(string, nat)>)
    requires Undisturbed(before, p.tables, name, now, live, i, p.target) && AtRow(p, name, live, i) && i < |live|
    ensures var u := AfterVisit(p, node, name, live[i], answer, []).tables;
            && Undisturbed(before, u, name, now, live, i + 1, p.target)
            && (Caught(before.versions, name, now, p.target) ==> !NeedsRewrap(live[i], p.target) && u == p.tables)
  {
    assert Stored(p.tables.versions, name, live[i]);
    QuietVisit(p, node, name, live[i], answer);
    VisitRow(before, p.tables, AfterVisit(p, node, name, live[i], answer, []).tables, name, now, live, i, p.target);
    if Caught(before.versions, name, now, p.target) { NothingNeeded(before, name, now, live, i, p.target); }
  }

  // ----- a key service that answers -----

  /** Every live row of the secret that is below the target is wrapped for itself, under its own master key. */
  ghost predicate HasOwnKeys(versions: Versions, name: string, now: I64, target: I64) {
    forall v: I32 {:trigger Live(versions, name, v, now)} ::
      Live(versions, name, v, now) && NeedsRewrap(versions[VersionKey(name, v)], target) ==>
        OwnKey(versions[VersionKey(name, v)], name, v)
  }

  predicate OwnKey(r: VersionRecord, name: string, v: I32) {
    E.DecryptDataKey(r.wrappedDek, r.kmsKeyId, KeyContext(name, v)).Some?
  }

  ghost predicate AllHaveOwnKeys(t: Tables, now: I64, target: I64) {
    forall n {:trigger HasOwnKeys(t.versions, n, now, target)} :: n in t.secrets ==> HasOwnKeys(t.versions, n, now, target)
  }

  ghost predicate AlwaysAnswers(kms: Kms) {
    forall k :: kms(k).Some?
  }

  /** No row of the list would fail. */
  ghost predicate NoneFails(name: string, live: seq<VersionRecord>, target: I64) {
    forall i :: 0 <= i < |live| && NeedsRewrap(live[i], target) ==> OwnKey(live[i], name, live[i].version)
  }

  lemma ListedHaveOwnKeys(t: Tables, name: string, now: I64, live: seq<VersionRecord>, target: I64)
    requires LiveList(t.versions, name, now, live) && HasOwnKeys(t.versions, name, now, target)
    ensures NoneFails(name, live, target)
  {
    forall i | 0 <= i < |live| && NeedsRewrap(live[i], target) ensures OwnKey(live[i], name, live[i].version) {
      assert LiveRow(t.versions, name, now, live[i]);
      assert Live(t.versions, name, live[i].version, now);
    }
  }

  /** Rows that a pass has moved are not below its target any more. */
  lemma MovedKeepsOwnKeys(before: Tables, t: Tables, name: string, now: I64, target: I64)
    requires OnlyMoved(before, t, target) && HasOwnKeys(before.versions, name, now, target)
    ensures HasOwnKeys(t.versions, name, now, target)
  {
    forall v: I32 | Live(t.versions, name, v, now) && NeedsRewrap(t.versions[VersionKey(name, v)], target)
      ensures OwnKey(t.versions[VersionKey(name, v)], name, v)
    {
      assert Moved(before.versions[VersionKey(name, v)], t.versions[VersionKey(name, v)], target);
      assert Live(before.versions, name, v, now);
    }
  }

  // ----- the summary -----

  function Needing(rows: seq<VersionRecord>, target: I64): nat {
    if rows == [] then 0 else Needing(rows[..|rows| - 1], target) + if NeedsRewrap(rows[|rows| - 1], target) then 1 else 0
  }

  /** Every listed row was scanned, and every one below the target was re-wrapped or failed. */
  ghost predicate Counted(sum: Summary, rows: seq<VersionRecord>, target: I64) {
    sum.scanned == |rows| && sum.rewrapped + sum.failed == Needing(rows, target)
  }

  lemma CountOne(rows: seq<VersionRecord>, i: nat, target: I64)
    requires i < |rows|
    ensures Needing(rows[..i + 1], target) == Needing(rows[..i], target) + if NeedsRewrap(rows[i], target) then 1 else 0
  {
    assert rows[..i + 1][..i] == rows[..i];
  }

  class Rewrapper {
    const store: RedbStore
    var busy: bool

    constructor (store: RedbStore)
      ensures this.store == store && !busy
    {
      this.store := store;
      busy := false;
    }

    /** Ask for the data key of a row as it was listed, wait, and commit the answer, if there is one, to whatever is there then. */
    method RewrapOne(name: string, row: VersionRecord, target: I64, answer: Option<(string, nat)>, cs: seq<Command>) returns (ok: bool)
      modifies store
      ensures ok <==> CanRewrap(name, row, answer)
      ensures !ok ==> store.tables == Run(old(store.tables), store.nodeId, cs)
      ensures ok ==>
                var r := Rewrapping(name, row, answer);
                store.tables == RewrapEffect(Run(old(store.tables), store.nodeId, cs), name, row.version, r.1, r.0, target).0
    {
      store.ApplyAll(cs);
      if answer.None? { return false; }
      var r := E.ReencryptDataKey(row.wrappedDek, row.kmsKeyId, KeyContext(name, row.version), answer.value.0, answer.value.1);
      if r.None? { return false; }
      var o := store.ApplyOne(RewrapVersion(name, row.version, r.value.1, r.value.0, target));
      ok := true;
    }

    /** One listed row: left alone when it carries the target already. */
    method Visit(name: string, row: VersionRecord, target: I64, answer: Option<(string, nat)>, cs: seq<Command>, ghost p: Pass)
      returns (step: Summary)
      requires p.tables == store.tables && p.target == target && AllShaped(cs)
      requires p.rows != [] && p.rows[0] == row && p.name == name && p.hand.Nothing?
      modifies store
      ensures store.tables == AfterVisit(p, store.nodeId, name, row, answer, cs).tables
      ensures AfterVisit(p, store.nodeId, name, row, answer, cs).failed == p.failed + step.failed
      ensures step.scanned == 1 && step.rewrapped + step.failed == if NeedsRewrap(row, target) then 1 else 0
      ensures step.failed == if NeedsRewrap(row, target) && !CanRewrap(name, row, answer) then 1 else 0
      ensures MarkLeft(cs) ==> store.tables.kmsRewrap == old(store.tables).kmsRewrap
    {
      if MarkLeft(cs) { RunKeepsMark(store.tables, store.nodeId, cs); }
      AfterVisitIs(p, store.nodeId, name, row, answer, cs);
      if !NeedsRewrap(row, target) { return Summary(1, 0, 0); }
      var ok := RewrapOne(name, row, target, answer, cs);
      step := if ok then Summary(1, 1, 0) else Summary(1, 0, 1);
    }

    /** The next listed row, and the machine with it. `before` are the tables as they were when the rows were listed. */
    method VisitNext(name: string, live: seq<VersionRecord>, i: nat, now: I64, target: I64, answer: Option<(string, nat)>,
                     others: Others, waits: nat, ghost p: Pass, ghost t0: Tables, ghost before: Tables, ghost quiet: bool)
      returns (step: Summary, ghost q: Pass)
      requires p.tables == store.tables && p.now == now && p.target == target && AreShaped(others) && Tracked(p, others, t0)
      requires AtRow(p, name, live, i) && i < |live|
      requires quiet ==> AreQuiet(others) && Undisturbed(before, store.tables, name, now, live, i, target)
      modifies store
      ensures q.tables == store.tables && q.now == now && q.target == target && Tracked(q, others, t0)
      ensures AtRow(q, name, live, i + 1) && q.todo == p.todo && q.failed == p.failed + step.failed
      ensures step.scanned == 1 && step.rewrapped + step.failed == if NeedsRewrap(live[i], target) then 1 else 0
      ensures step.failed == if NeedsRewrap(live[i], target) && !CanRewrap(name, live[i], answer) then 1 else 0
      ensures MarkLeft(others(waits)) ==> store.tables.kmsRewrap == old(store.tables).kmsRewrap
      ensures quiet ==> Undisturbed(before, store.tables, name, now, live, i + 1, target)
      ensures quiet && Caught(before.versions, name, now, target) ==>
                !NeedsRewrap(live[i], target) && store.tables == old(store.tables)
    {
      assert AllShaped(others(waits));
      assert quiet ==> others(waits) == [];
      if quiet { UndisturbedStep(before, p, store.nodeId, name, now, live, i, answer); }
      AfterVisitIs(p, store.nodeId, name, live[i], answer, others(waits));
      AfterVisitTracked(p, store.nodeId, name, live[i], answer, others(waits), others, t0);
      q := AfterVisit(p, store.nodeId, name, live[i], answer, others(waits));
      step := Visit(name, live[i], target, answer, others(waits), p);
    }

    /** Wait, then list the live rows of the next secret. */
    method ListNext(name: string, now: I64, others: Others, waits: nat, ghost p: Pass, ghost t0: Tables)
      returns (live: seq<VersionRecord>, ghost q: Pass)
      requires p.tables == store.tables && p.now == now && AreShaped(others) && Tracked(p, others, t0)
      requires BetweenSecrets(p) && p.todo.value != [] && p.todo.value[0] == name
      modifies store
      ensures store.tables == Run(old(store.tables), store.nodeId, others(waits))
      ensures LiveList(store.tables.versions, name, now, live)
      ensures q.tables == store.tables && q.now == now && q.target == p.target && q.failed == p.failed
      ensures Tracked(q, others, t0) && AtRow(q, name, live, 0) && q.todo == Some(p.todo.value[1..])
    {
      assert AllShaped(others(waits));
      store.ApplyAll(others(waits));
      InterruptedIs(p, store.nodeId, others(waits));
      InterruptedTracked(p, store.nodeId, others(waits), others, t0);
      q := Interrupted(p, store.nodeId, others(waits));
      live := LiveVersions(store.tables, name, now);
      ReaderReturnsLiveList(store.tables, name, now, live);
      StepTracked(q, store.nodeId, ListRows(live), others, t0);
      q := Do(q, store.nodeId, ListRows(live));
    }

    /** The listed rows one after the other. `before` are the tables as they were when the rows were listed. */
    method VisitRows(name: string, live: seq<VersionRecord>, now: I64, target: I64, kms: Kms, others: Others, waits: nat,
                     ghost p: Pass, ghost t0: Tables, ghost before: Tables, ghost quiet: bool, ghost answered: bool)
      returns (sum: Summary, waited: nat, ghost q: Pass)
      requires p.tables == store.tables && p.now == now && p.target == target && AreShaped(others) && Tracked(p, others, t0)
      requires AtRow(p, name, live, 0)
      requires quiet ==> AreQuiet(others) && before == store.tables && Undisturbed(before, store.tables, name, now, live, 0, target)
      requires answered ==> quiet && AlwaysAnswers(kms) && NoneFails(name, live, target)
      modifies store
      ensures q.tables == store.tables && q.now == now && q.target == target && Tracked(q, others, t0)
      ensures AtRow(q, name, live, |live|) && q.todo == p.todo && q.failed == p.failed + sum.failed
      ensures Counted(sum, live, target)
      ensures LeaveMark(others) ==> store.tables.kmsRewrap == old(store.tables).kmsRewrap
      ensures quiet ==> Undisturbed(before, store.tables, name, now, live, |live|, target)
      ensures quiet && Caught(before.versions, name, now, target) ==>
                sum.rewrapped == 0 && sum.failed == 0 && store.tables == old(store.tables)
      ensures answered ==> sum.failed == 0
    {
      ghost var leave := LeaveMark(others);
      ghost var idle := quiet && Caught(before.versions, name, now, target);
      sum, waited, q := Summary(0, 0, 0), waits, p;
      for i := 0 to |live|
        invariant q.tables == store.tables && q.now == now && q.target == target && Tracked(q, others, t0)
        invariant AtRow(q, name, live, i) && q.todo == p.todo && q.failed == p.failed + sum.failed
        invariant Counted(sum, live[..i], target)
        invariant leave ==> store.tables.kmsRewrap == old(store.tables).kmsRewrap
        invariant quiet ==> Undisturbed(before, store.tables, name, now, live, i, target)
        invariant idle ==> sum.rewrapped == 0 && sum.failed == 0 && store.tables == before
        invariant answered ==> sum.failed == 0
      {
        assert answered ==> kms(waited).Some?;
        assert leave ==> MarkLeft(others(waited));
        var step;
        step, q := VisitNext(name, live, i, now, target, kms(waited), others, waited, q, t0, before, quiet);
        sum := Summary(sum.scanned + 1, sum.rewrapped + step.rewrapped, sum.failed + step.failed);
        CountOne(live, i, target);
        waited := waited + 1;
      }
      assert live[..|live|] == live;
    }

    /** The live rows of one secret. `kms` answers the requests to the key service, `others` fill the waits. */
    method PassOver(name: string, now: I64, target: I64, kms: Kms, others: Others, waits: nat, ghost p: Pass, ghost t0: Tables,
                    ghost answered: bool)
      returns (sum: Summary, waited: nat, ghost q: Pass)
      requires p.tables == store.tables && p.now == now && p.target == target && AreShaped(others) && Tracked(p, others, t0)
      requires BetweenSecrets(p) && p.todo.value != [] && p.todo.value[0] == name
      requires answered ==> AreQuiet(others) && AlwaysAnswers(kms) && HasOwnKeys(store.tables.versions, name, now, target)
      modifies store
      ensures q.tables == store.tables && q.now == now && q.target == target && Tracked(q, others, t0)
      ensures BetweenSecrets(q) && q.todo == Some(p.todo.value[1..]) && q.failed == p.failed + sum.failed
      ensures LeaveMark(others) ==> store.tables.kmsRewrap == old(store.tables).kmsRewrap
      ensures AreQuiet(others) ==> OnlyMoved(old(store.tables), store.tables, target)
      ensures AreQuiet(others) && Caught(old(store.tables.versions), name, now, target) ==>
                sum.rewrapped == 0 && sum.failed == 0 && store.tables == old(store.tables)
      ensures answered ==> sum.failed == 0
      ensures exists live :: LiveList(Run(old(store.tables), store.nodeId, others(waits)).versions, name, now, live) &&
                Counted(sum, live, target)
    {
      ghost var before, quiet := store.tables, AreQuiet(others);
      var live;
      if LeaveMark(others) { RunKeepsMark(before, store.nodeId, others(waits)); }
      live, q := ListNext(name, now, others, waits, p, t0);
      if quiet { AllAhead(before, name, now, live); }
      if answered { ListedHaveOwnKeys(before, name, now, live, target); }
      sum, waited, q := VisitRows(name, live, now, target, kms, others, waits + 1, q, t0, before, quiet, answered);
    }

    /** List the secrets; the machine lists them with it. */
    method ListAll(now: I64, target: I64, ghost others: Others) returns (names: seq<string>, ghost q: Pass)
      requires Good(store.tables)
      ensures forall n :: n in names <==> n in store.tables.secrets
      ensures q == Begin(store.tables, now, target).(todo := Some(names)) && Tracked(q, others, store.tables)
    {
      var secrets := Rewrap.ListSecrets(store.tables);
      names := NamesOf(secrets);
      NamesAreAll(store.tables, secrets);
      BeginTracked(store.tables, now, target, others);
      q := Begin(store.tables, now, target);
      StepTracked(q, store.nodeId, Step.ListSecrets(names), others, store.tables);
      q := Do(q, store.nodeId, Step.ListSecrets(names));
    }

    /** The next secret of a pass that began with the tables `before`. */
    method PassNext(name: string, now: I64, target: I64, kms: Kms, others: Others, waits: nat, ghost p: Pass, ghost before: Tables,
                    ghost quiet: bool, ghost idle: bool, ghost answered: bool)
      returns (sum: Summary, waited: nat, ghost q: Pass)
      requires p.tables == store.tables && p.now == now && p.target == target && AreShaped(others) && Tracked(p, others, before)
      requires BetweenSecrets(p) && p.todo.value != [] && p.todo.value[0] == name
      requires quiet ==> AreQuiet(others) && OnlyMoved(before, store.tables, target)
      requires idle ==> quiet && store.tables == before && Caught(before.versions, name, now, target)
      requires answered ==> quiet && AlwaysAnswers(kms) && HasOwnKeys(before.versions, name, now, target)
      modifies store
      ensures q.tables == store.tables && q.now == now && q.target == target && Tracked(q, others, before)
      ensures BetweenSecrets(q) && q.todo == Some(p.todo.value[1..]) && q.failed == p.failed + sum.failed
      ensures LeaveMark(others) ==> store.tables.kmsRewrap == old(store.tables).kmsRewrap
      ensures quiet ==> OnlyMoved(before, store.tables, target)
      ensures idle ==> sum.rewrapped == 0 && sum.failed == 0 && store.tables == before
      ensures answered ==> sum.failed == 0
    {
      ghost var t := store.tables;
      if answered { MovedKeepsOwnKeys(before, t, name, now, target); }
      sum, waited, q := PassOver(name, now, target, kms, others, waits, p, before, answered);
      if quiet { MovedTwice(before.versions, t.versions, store.tables.versions, target); }
    }

    /** Every secret listed at the start, one after the other. */
    method SweepAll(now: I64, target: I64, kms: Kms, others: Others, ghost answered: bool) returns (total: Summary, ghost q: Pass)
      requires Good(store.tables) && AreShaped(others)
      requires answered ==> AreQuiet(others) && AlwaysAnswers(kms) && AllHaveOwnKeys(store.tables, now, target)
      modifies store
      ensures q.tables == store.tables && q.now == now && q.target == target && q.failed == total.failed
      ensures Finished(q) && Tracked(q, others, old(store.tables))
      ensures LeaveMark(others) ==> store.tables.kmsRewrap == old(store.tables).kmsRewrap
      ensures AreQuiet(others) ==> OnlyMoved(old(store.tables), store.tables, target)
      ensures AreQuiet(others) && AllCaught(old(store.tables), now, target) ==>
                total.rewrapped == 0 && total.failed == 0 && store.tables == old(store.tables)
      ensures answered ==> total.failed == 0
    {
      ghost var before, quiet := store.tables, AreQuiet(others);
      ghost var idle := quiet && AllCaught(before, now, target);
      var names;
      names, q := ListAll(now, target, others);
      var waits := 0;
      total := Summary(0, 0, 0);
      for i := 0 to |names|
        invariant q.tables == store.tables && q.now == now && q.target == target && q.failed == total.failed
        invariant Tracked(q, others, before) && BetweenSecrets(q) && q.todo == Some(names[i..])
        invariant LeaveMark(others) ==> store.tables.kmsRewrap == before.kmsRewrap
        invariant quiet ==> OnlyMoved(before, store.tables, target)
        invariant idle ==> total.rewrapped == 0 && total.failed == 0 && store.tables == before
        invariant answered ==> total.failed == 0
      {
        assert names[i] in before.secrets;
        var sum, waited;
        sum, waited, q := PassNext(names[i], now, target, kms, others, waits, q, before, quiet, idle, answered);
        total := Summary(total.scanned + sum.scanned, total.rewrapped + sum.rewrapped, total.failed + sum.failed);
        waits := waited;
      }
      assert names[|names|..] == [];
    }

    /** One pass at a time; a refused pass changes nothing. */
    method RunPass(now: I64, target: I64, kms: Kms, others: Others) returns (result: Option<Summary>, ghost q: Pass)
      requires Good(store.tables) && AreShaped(others)
      modifies this`busy, store
      ensures busy == old(busy) && (result.None? <==> old(busy)) && Good(store.tables)
      ensures result.None? ==> store.tables == old(store.tables)
      ensures result.Some? && result.value.failed == 0 ==> Swept(old(store.tables), store.tables, now, target, others)
      ensures result.Some? ==> q.tables == store.tables && Finished(q) && q.failed == result.value.failed && q.target == target
      ensures LeaveMark(others) ==> Watermark(store.tables) == Watermark(old(store.tables))
      ensures AreQuiet(others) ==> OnlyMoved(old(store.tables), store.tables, target)
      ensures AreQuiet(others) && result.Some? && result.value.failed == 0 ==> AllCaught(store.tables, now, target)
      ensures AreQuiet(others) && result.Some? && AllCaught(old(store.tables), now, target) ==>
                result.value.rewrapped == 0 && result.value.failed == 0 && store.tables == old(store.tables)
      ensures AreQuiet(others) && AlwaysAnswers(kms) && AllHaveOwnKeys(old(store.tables), now, target) && result.Some? ==>
                result.value.failed == 0
    {
      q := Begin(store.tables, now, target);
      if busy {
        assert OnlyMoved(store.tables, store.tables, target);
        return None, q;
      }
      busy := true;
      var total;
      ghost var answered := AreQuiet(others) && AlwaysAnswers(kms) && AllHaveOwnKeys(store.tables, now, target);
      total, q := SweepAll(now, target, kms, others, answered);
      if total.failed == 0 { SweptAll(old(store.tables), q, others); }
      busy := false;
      result := Some(total);
    }

    method PersistCompleted(target: I64, now: I64)
      modifies store
      ensures store.tables == Marked(old(store.tables), target, now)
    {
      var o := store.ApplyOne(SetKmsRewrapState(KmsRewrapState(target, now, now)));
    }

    /**
     * The worker's tick. It rests, seeds, or runs a pass, as planned. While others leave the watermark alone, a pass moves
     * it to its target exactly when none of its rows failed, and then every spared row from before carries the target.
     * With nobody else writing and a key service that answers for every row below the target, none fails.
     */
    method Tick(leader: bool, latest: Option<Option<I64>>, now: I64, kms: Kms, others: Others) returns (result: Option<Summary>)
      requires Good(store.tables) && AreShaped(others)
      modifies this`busy, store
      ensures busy == old(busy) && Good(store.tables)
      ensures !leader || latest.None? ==> store.tables == old(store.tables)
      ensures leader && latest.Some? && Watermark(old(store.tables)).None? ==>
                store.tables == Marked(old(store.tables), if latest.value.Some? then latest.value.value else 0, now)
      ensures leader && latest.Some? && Watermark(old(store.tables)).Some? && result.None? ==> store.tables == old(store.tables)
      ensures result.Some? <==>
                && leader && latest.Some? && latest.value.Some? && !old(busy)
                && Watermark(old(store.tables)).Some? && Watermark(old(store.tables)).value < latest.value.value
      ensures result.Some? && LeaveMark(others) ==>
                && Watermark(store.tables) == (if result.value.failed == 0 then latest.value else Watermark(old(store.tables)))
                && (result.value.failed == 0 ==> Swept(old(store.tables), store.tables, now, latest.value.value, others))
      ensures result.Some? && AreQuiet(others) && AlwaysAnswers(kms) && AllHaveOwnKeys(old(store.tables), now, latest.value.value) ==>
                result.value.failed == 0 && Watermark(store.tables) == latest.value && AllCaught(store.tables, now, latest.value.value)
      ensures TickPlan(old(store.tables), leader, latest).Rest? ==> store.tables == old(store.tables)
      ensures LeaveMark(others) && Watermark(old(store.tables)).Some? ==>
                Watermark(store.tables).Some? && Watermark(store.tables).value >= Watermark(old(store.tables)).value
    {
      result := None;
      if !leader || latest.None? { return; }
      if KMS_REWRAP_STATE_KEY !in store.tables.kmsRewrap {
        PersistCompleted(if latest.value.Some? then latest.value.value else 0, now);
        return;
      }
      var persisted := store.tables.kmsRewrap[KMS_REWRAP_STATE_KEY];
      if latest.value.None? { return; }
      var target := latest.value.value;
      if target <= persisted.lastCompletedRotationAt { return; }
      ghost var q;
      result, q := RunPass(now, target, kms, others);
      if AreQuiet(others) { QuietLeavesMark(others); }
      if result.Some? && result.value.failed == 0 {
        SweptMarked(old(store.tables), store.tables, now, target, others, now);
        PersistCompleted(target, now);
      }
    }

    /** The operator's pass. It marks its target as completed, whatever was completed before. */
    method Force(latest: Option<I64>, now: I64, kms: Kms, others: Others) returns (result: Option<Summary>)
      requires Good(store.tables) && AreShaped(others)
      modifies this`busy, store
      ensures busy == old(busy) && Good(store.tables)
      ensures result.None? <==> old(busy)
      ensures result.Some? && result.value.failed == 0 ==> Swept(old(store.tables), store.tables, now, OrZero(latest), others)
      ensures result.Some? && AreQuiet(others) && AlwaysAnswers(kms) && AllHaveOwnKeys(old(store.tables), now, OrZero(latest)) ==>
                result.value.failed == 0 && AllCaught(store.tables, now, OrZero(latest))
      ensures result.Some? && result.value.failed == 0 && OrZero(latest) > 0 ==> Watermark(store.tables) == latest
      ensures !(result.Some? && result.value.failed == 0 && OrZero(latest) > 0) && LeaveMark(others) ==>
                Watermark(store.tables) == Watermark(old(store.tables))
    {
      var target := OrZero(latest);
      ghost var q;
      result, q := RunPass(now, target, kms, others);
      if result.Some? && result.value.failed == 0 && target > 0 {
        SweptMarked(old(store.tables), store.tables, now, target, others, now);
        PersistCompleted(target, now);
      }
    }
  }

  function OrZero(latest: Option<I64>): I64 {
    if latest.Some? then latest.value else 0
  }

  datatype Plan = Rest | Seed(baseline: I64) | SweepTo(target: I64)

  /** What the worker decides from the watermark and the key service's newest rotation, if it answered. */
  function TickPlan(t: Tables, leader: bool, latest: Option<Option<I64>>): Plan {
    if !leader || latest.None? then Rest
    else if Watermark(t).None? then Seed(OrZero(latest.value))
    else if latest.value.None? || latest.value.value <= Watermark(t).value then Rest
    else SweepTo(latest.value.value)
  }

  lemma SweptMarked(before: Tables, after: Tables, now: I64, target: I64, others: Others, at: I64)
    requires Swept(before, after, now, target, others)
    ensures Swept(before, Marked(after, target, at), now, target, others)
  {
  }

  /**
   * Every row from before that is live at any time from the pass's own carries the target, of every secret that
   * nobody deleted or restored over in the meantime.
   */
  ghost predicate Swept(before: Tables, after: Tables, now: I64, target: I64, others: Others) {
    forall n {:trigger SparedBy(others, n)} :: n in before.secrets && SparedBy(others, n) ==>
      && n in after.secrets && before.secrets[n].currentVersion <= after.secrets[n].currentVersion
      && forall w: I32, at: I64 {:trigger Live(after.versions, n, w, at)} ::
           w <= before.secrets[n].currentVersion && at >= now && Live(after.versions, n, w, at) ==>
             !NeedsRewrap(after.versions[VersionKey(n, w)], target)
  }

  lemma SweptAll(t0: Tables, q: Pass, others: Others)
    requires Good(t0) && Tracked(q, others, t0) && Finished(q) && q.failed == 0
    ensures Swept(t0, q.tables, q.now, q.target, others)
    ensures AreQuiet(others) && q.tables.secrets == t0.secrets ==> AllCaught(q.tables, q.now, q.target)
  {
    forall n | n in t0.secrets && SparedBy(others, n)
      ensures n in q.tables.secrets && t0.secrets[n].currentVersion <= q.tables.secrets[n].currentVersion
      ensures forall w: I32, at: I64 :: w <= t0.secrets[n].currentVersion && at >= q.now && Live(q.tables.versions, n, w, at) ==>
                !NeedsRewrap(q.tables.versions[VersionKey(n, w)], q.target)
    {
      assert CurrentRow(t0.secrets, t0.versions, n);
      assert Since(q, n, t0.secrets[n].currentVersion) && Covered(q, n);
      forall w: I32, at: I64 | w <= t0.secrets[n].currentVersion && at >= q.now && Live(q.tables.versions, n, w, at)
        ensures !NeedsRewrap(q.tables.versions[VersionKey(n, w)], q.target)
      {
        assert Sweep.Visited(q, n, w) && Passed(q, n, w);
        StoredInRange(q.tables, n, w);
      }
    }
    if AreQuiet(others) && q.tables.secrets == t0.secrets { QuietIsCaught(t0, q, others); }
  }

  lemma QuietIsCaught(t0: Tables, q: Pass, others: Others)
    requires Good(q.tables) && AreQuiet(others) && q.tables.secrets == t0.secrets
    requires Swept(t0, q.tables, q.now, q.target, others)
    ensures AllCaught(q.tables, q.now, q.target)
  {
    forall n | n in q.tables.secrets ensures Caught(q.tables.versions, n, q.now, q.target) {
      assert SparedBy(others, n) by { assert forall k :: others(k) == []; }
      forall w: I32 | Live(q.tables.versions, n, w, q.now) ensures !NeedsRewrap(q.tables.versions[VersionKey(n, w)], q.target) {
        StoredInRange(q.tables, n, w);
      }
    }
  }

  function NamesOf(secrets: seq<SecretRecord>): seq<string> {
    seq(|secrets|, i requires 0 <= i < |secrets| => secrets[i].name)
  }

  lemma NamesAreAll(t: Tables, secrets: seq<SecretRecord>)
    requires Good(t) && multiset(secrets) == multiset(RecordsOf(t.secrets, StringKeys(t.secrets.Keys)))
    ensures forall n :: n in NamesOf(secrets) <==> n in t.secrets
  {
    var names := NamesOf(secrets);
    forall n ensures n in names <==> n in t.secrets {
      if n in names {
        var i :| 0 <= i < |names| && names[i] == n;
        ListIsComplete(t, secrets, secrets[i]);
      }
      if n in t.secrets {
        assert CurrentRow(t.secrets, t.versions, n);
        ListIsComplete(t, secrets, t.secrets[n]);
        var i :| 0 <= i < |secrets| && secrets[i] == t.secrets[n];
        assert names[i] == n;
      }
    }
  }

  lemma BeginTracked(t: Tables, now: I64, target: I64, others: Others)
    requires Good(t)
    ensures Tracked(Begin(t, now, target), others, t)
  {
    var p := Begin(t, now, target);
    forall n | ValidName(n) && SparedBy(others, n) ensures Covered(p, n) { BeginCovered(t, now, target, n); }
    forall n | n in t.secrets && SparedBy(others, n) ensures Since(p, n, t.secrets[n].currentVersion) {
      assert CurrentRow(t.secrets, t.versions, n);
      BeginCovered(t, now, target, n);
    }
  }
}
