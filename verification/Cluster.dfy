/** State machine safety: nodes that applied the same prefix of the common log hold the same tables. */
module Cluster {
  import opened Base
  import opened Model
  import opened Effects
  import opened Backup
  import opened RaftLog
  import opened Replica

  /**
   * A snapshot being built. The builder itself knows the applied id and, later, the membership; the rest of the node
   * as it was when it read the applied id is a history variable.
   */
  datatype Builder = Builder(began: Replica, members: Option<StoredMembership>)

  /** The committed log openraft delivers, the nodes, the snapshots they are building, and every one they built. */
  datatype Cluster = Cluster(committed: seq<Entry>, nodes: map<U64, Replica>, building: map<U64, Builder>, built: set<Snapshot>)

  datatype Step =
    | Commit(entry: Entry)
    | ApplyNext(node: U64, count: nat)
    | LocalWrite(node: U64, command: Command)
    | ReadApplied(node: U64)
    | ReadMembership(node: U64)
    | Build(node: U64)
    | Install(node: U64, snap: Snapshot)
    | Restart(node: U64, bootstrap: Option<(Bytes, I64)>)

  ghost predicate Allowed(c: Cluster, step: Step) {
    match step
    case Commit(e) => e.logId.index == |c.committed|
    case ApplyNext(n, count) => n in c.nodes && After(c.nodes[n].applied) + count <= |c.committed|
    case LocalWrite(n, command) => n in c.nodes && command.IsLocal()
    case ReadApplied(n) => n in c.nodes
    case ReadMembership(n) => n in c.nodes && n in c.building && c.building[n].members.None?
    case Build(n) => n in c.nodes && n in c.building && c.building[n].members.Some?
    case Install(n, snap) => n in c.nodes && snap in c.built
    case Restart(n, _) => n in c.nodes
  }

  /** The metadata a builder has read. */
  function MetaRead(b: Builder): SnapshotMeta
    requires b.members.Some?
  {
    SnapshotMeta(b.began.applied, b.members.value)
  }

  ghost function Do(c: Cluster, step: Step): Cluster
    requires Allowed(c, step)
  {
    match step
    case Commit(e) => c.(committed := c.committed + [e])
    case ApplyNext(n, count) =>
      var k := After(c.nodes[n].applied);
      c.(nodes := c.nodes[n := ApplyBatch(c.nodes[n], n, c.committed[k..k + count])])
    case LocalWrite(n, command) =>
      c.(nodes := c.nodes[n := c.nodes[n].(tables := Run(c.nodes[n].tables, n, [command]))])
    case ReadApplied(n) => c.(building := c.building[n := Builder(c.nodes[n], None)])
    case ReadMembership(n) => c.(building := c.building[n := c.building[n].(members := Some(MembershipOf(c.nodes[n])))])
    case Build(n) =>
      var (r, snap) := BuildSnapshot(c.nodes[n], MetaRead(c.building[n]));
      c.(nodes := c.nodes[n := r], building := c.building - {n}, built := c.built + {snap})
    case Install(n, snap) => c.(nodes := c.nodes[n := InstallSnapshot(c.nodes[n], snap).0])
    case Restart(n, bootstrap) =>
      c.(nodes := c.nodes[n := c.nodes[n].(tables := Boot(c.nodes[n].tables, n, bootstrap))], building := c.building - {n})
  }

  // ----- the invariant -----

  /** An optional log id marks a prefix of the committed log. */
  ghost predicate Marks(id: Option<LogId>, committed: seq<Entry>) {
    && After(id) <= |committed|
    && (id.Some? ==> id.value == committed[id.value.index].logId)
  }

  /** The membership a log ends with: that of its last membership entry. */
  ghost function MembersAt(committed: seq<Entry>): StoredMembership {
    if committed == [] then NO_MEMBERSHIP
    else
      var last := committed[|committed| - 1];
      if last.payload.Members? then StoredMembership(Some(last.logId), last.payload.members)
      else MembersAt(committed[..|committed| - 1])
  }

  /** Entry i is the last one of the log that changes the membership. */
  ghost predicate LastMembers(committed: seq<Entry>, i: nat) {
    && i < |committed| && committed[i].payload.Members?
    && forall j :: i < j < |committed| ==> !committed[j].payload.Members?
  }

  /** The members and the log id of the last membership entry, or none if there was none. */
  ghost predicate KnowsMembers(applied: seq<Entry>, m: StoredMembership) {
    && (forall i: nat :: LastMembers(applied, i) ==> m == StoredMembership(Some(applied[i].logId), applied[i].payload.members))
    && ((forall j :: 0 <= j < |applied| ==> !applied[j].payload.Members?) ==> m == NO_MEMBERSHIP)
  }

  lemma MembersAreKnown(applied: seq<Entry>)
    ensures KnowsMembers(applied, MembersAt(applied))
  {
    forall i: nat | LastMembers(applied, i)
      ensures MembersAt(applied) == StoredMembership(Some(applied[i].logId), applied[i].payload.members)
    {
      MembersAreLast(applied, i);
    }
    if forall j :: 0 <= j < |applied| ==> !applied[j].payload.Members? { NoMembersAtAll(applied); }
  }

  lemma {:induction false} MembersAreLast(committed: seq<Entry>, i: nat)
    requires LastMembers(committed, i)
    ensures MembersAt(committed) == StoredMembership(Some(committed[i].logId), committed[i].payload.members)
  {
    if i < |committed| - 1 { MembersAreLast(committed[..|committed| - 1], i); }
  }

  lemma {:induction false} NoMembersAtAll(committed: seq<Entry>)
    requires forall j :: 0 <= j < |committed| ==> !committed[j].payload.Members?
    ensures MembersAt(committed) == NO_MEMBERSHIP
  {
    if committed != [] { NoMembersAtAll(committed[..|committed| - 1]); }
  }

  /** The replay property: the node's replicated state is the common log up to what it applied. */
  ghost predicate Agrees(init: Shared, committed: seq<Entry>, r: Replica) {
    && Marks(r.applied, committed)
    && SharedOf(r.tables) == Replay(init, committed[..After(r.applied)])
    && MembershipOf(r) == MembersAt(committed[..After(r.applied)])
  }

  ghost predicate Faithful(init: Shared, committed: seq<Entry>, snap: Snapshot) {
    && Marks(snap.meta.lastLogId, committed)
    && RestoredShared(snap.data) == Replay(init, committed[..After(snap.meta.lastLogId)])
    && snap.meta.membership == MembersAt(committed[..After(snap.meta.lastLogId)])
  }

  /** The bytes a node saved, with the metadata recorded inside them. */
  function SavedPair(data: SnapshotData): Snapshot {
    Snapshot(SnapshotMeta(data.lastApplied, data.membership), data)
  }

  ghost predicate SavedFaithful(init: Shared, committed: seq<Entry>, r: Replica) {
    r.saved.Some? ==> Faithful(init, committed, SavedPair(r.saved.value))
  }

  ghost predicate NodeSafe(init: Shared, committed: seq<Entry>, r: Replica) {
    Agrees(init, committed, r) && SavedFaithful(init, committed, r)
  }

  ghost predicate NodesSafe(init: Shared, c: Cluster) {
    forall n {:trigger NodeSafe(init, c.committed, c.nodes[n])} :: n in c.nodes ==> NodeSafe(init, c.committed, c.nodes[n])
  }

  /** Every build that is under way began in agreement. */
  ghost predicate BuildersSafe(init: Shared, c: Cluster) {
    forall n {:trigger Agrees(init, c.committed, c.building[n].began)} ::
      n in c.building ==> Agrees(init, c.committed, c.building[n].began)
  }

  ghost predicate SnapshotsSafe(init: Shared, c: Cluster) {
    forall snap {:trigger Faithful(init, c.committed, snap)} :: snap in c.built ==> Faithful(init, c.committed, snap)
  }

  ghost predicate Safe(init: Shared, c: Cluster) {
    && (forall i :: 0 <= i < |c.committed| ==> c.committed[i].logId.index == i)
    && NodesSafe(init, c) && BuildersSafe(init, c) && SnapshotsSafe(init, c)
  }

  ghost predicate Initial(init: Shared, c: Cluster) {
    && c.committed == [] && c.building == map[] && c.built == {}
    && forall n :: n in c.nodes ==>
         && SharedOf(c.nodes[n].tables) == init && c.nodes[n].applied.None?
         && c.nodes[n].membership.None? && c.nodes[n].saved.None?
  }

  // ----- preservation -----

  lemma CommitKeepsAgreement(init: Shared, committed: seq<Entry>, e: Entry, r: Replica)
    requires Agrees(init, committed, r)
    ensures Agrees(init, committed + [e], r)
  {
    assert (committed + [e])[..After(r.applied)] == committed[..After(r.applied)];
  }

  lemma CommitKeepsFaithful(init: Shared, committed: seq<Entry>, e: Entry, snap: Snapshot)
    requires Faithful(init, committed, snap)
    ensures Faithful(init, committed + [e], snap)
  {
    assert (committed + [e])[..After(snap.meta.lastLogId)] == committed[..After(snap.meta.lastLogId)];
  }

  lemma ApplyReplays(init: Shared, committed: seq<Entry>, t: Tables, node: U64, k: nat, count: nat)
    requires k + count <= |committed| && SharedOf(t) == Replay(init, committed[..k])
    ensures SharedOf(BatchTables(t, node, committed[k..k + count])) == Replay(init, committed[..k + count])
  {
    var batch := committed[k..k + count];
    assert committed[..k] + batch == committed[..k + count];
    BatchReplays(t, node, batch);
    ReplaySplits(init, committed[..k], batch);
  }

  /** A batch leaves the membership that the log including it ends with. */
  lemma {:induction false} ApplyMembership(committed: seq<Entry>, m: Option<StoredMembership>, k: nat, count: nat)
    requires k + count <= |committed| && OrDefault(m) == MembersAt(committed[..k])
    ensures OrDefault(BatchMembership(m, committed[k..k + count])) == MembersAt(committed[..k + count])
  {
    if count == 0 {
      assert committed[k..k] == [];
    } else {
      ApplyMembership(committed, m, k, count - 1);
      assert committed[k..k + count][..count - 1] == committed[k..k + count - 1];
      assert committed[..k + count][..k + count - 1] == committed[..k + count - 1];
    }
  }

  lemma ApplyKeepsAgreement(init: Shared, committed: seq<Entry>, r: Replica, node: U64, count: nat)
    requires forall i :: 0 <= i < |committed| ==> committed[i].logId.index == i
    requires Agrees(init, committed, r) && After(r.applied) + count <= |committed|
    ensures var k := After(r.applied);
            Agrees(init, committed, ApplyBatch(r, node, committed[k..k + count]))
  {
    var k := After(r.applied);
    if count > 0 {
      ApplyReplays(init, committed, r.tables, node, k, count);
      ApplyMembership(committed, r.membership, k, count);
    }
  }

  lemma LocalKeepsAgreement(init: Shared, committed: seq<Entry>, r: Replica, node: U64, command: Command)
    requires Agrees(init, committed, r) && command.IsLocal()
    ensures Agrees(init, committed, r.(tables := Run(r.tables, node, [command])))
  {
    assert [command][..0] == [];
    LocalKeepsShared(r.tables, node, command);
  }

  /** Between the first read of a build and its data transaction neither the six tables nor the membership changed. */
  ghost predicate Untorn(b: Builder, r: Replica)
    requires b.members.Some?
  {
    SharedOf(r.tables) == SharedOf(b.began.tables) && b.members.value == MembershipOf(b.began)
  }

  lemma BuildIsFaithful(init: Shared, committed: seq<Entry>, b: Builder, r: Replica)
    requires b.members.Some? && Agrees(init, committed, b.began)
    ensures Faithful(init, committed, BuildSnapshot(r, MetaRead(b)).1) <==> Untorn(b, r)
  {
    ContentsRestore(r.tables, MetaRead(b));
  }

  lemma InstallKeepsAgreement(init: Shared, committed: seq<Entry>, r: Replica, snap: Snapshot)
    requires Agrees(init, committed, r) && Faithful(init, committed, snap)
    ensures Agrees(init, committed, InstallSnapshot(r, snap).0)
  {
  }

  /** A restart keeps a node in agreement exactly when everything it seeds is there already. */
  lemma RestartAgreesIff(init: Shared, committed: seq<Entry>, r: Replica, node: U64, bootstrap: Option<(Bytes, I64)>)
    requires Agrees(init, committed, r)
    ensures Agrees(init, committed, r.(tables := Boot(r.tables, node, bootstrap))) <==> AlreadySeeded(r.tables, bootstrap)
  {
    BootChangesNothingIff(r.tables, node, bootstrap);
  }

  /** Restarts that would write to a replicated table and torn snapshots are what the storage layer cannot absorb. */
  ghost predicate Quiet(c: Cluster, step: Step)
    requires Allowed(c, step)
  {
    && (step.Restart? ==> AlreadySeeded(c.nodes[step.node].tables, step.bootstrap))
    && (step.Build? ==> Untorn(c.building[step.node], c.nodes[step.node]))
  }

  lemma CommitNodeSafe(init: Shared, committed: seq<Entry>, e: Entry, r: Replica)
    requires NodeSafe(init, committed, r)
    ensures NodeSafe(init, committed + [e], r)
  {
    CommitKeepsAgreement(init, committed, e, r);
    if r.saved.Some? { CommitKeepsFaithful(init, committed, e, SavedPair(r.saved.value)); }
  }

  lemma ApplyNodeSafe(init: Shared, committed: seq<Entry>, r: Replica, node: U64, count: nat)
    requires forall i :: 0 <= i < |committed| ==> committed[i].logId.index == i
    requires NodeSafe(init, committed, r) && After(r.applied) + count <= |committed|
    ensures NodeSafe(init, committed, ApplyBatch(r, node, committed[After(r.applied)..After(r.applied) + count]))
  {
    ApplyKeepsAgreement(init, committed, r, node, count);
  }

  lemma BuildNodeSafe(init: Shared, committed: seq<Entry>, b: Builder, r: Replica)
    requires NodeSafe(init, committed, r) && Agrees(init, committed, b.began) && b.members.Some? && Untorn(b, r)
    ensures NodeSafe(init, committed, BuildSnapshot(r, MetaRead(b)).0)
  {
    BuildIsFaithful(init, committed, b, r);
  }

  lemma InstallNodeSafe(init: Shared, committed: seq<Entry>, r: Replica, snap: Snapshot)
    requires NodeSafe(init, committed, r) && Faithful(init, committed, snap)
    ensures NodeSafe(init, committed, InstallSnapshot(r, snap).0)
  {
    InstallKeepsAgreement(init, committed, r, snap);
  }

  lemma RestartNodeSafe(init: Shared, committed: seq<Entry>, r: Replica, node: U64, bootstrap: Option<(Bytes, I64)>)
    requires NodeSafe(init, committed, r) && AlreadySeeded(r.tables, bootstrap)
    ensures NodeSafe(init, committed, r.(tables := Boot(r.tables, node, bootstrap)))
  {
    RestartAgreesIff(init, committed, r, node, bootstrap);
  }

  lemma LocalNodeSafe(init: Shared, committed: seq<Entry>, r: Replica, node: U64, command: Command)
    requires NodeSafe(init, committed, r) && command.IsLocal()
    ensures NodeSafe(init, committed, r.(tables := Run(r.tables, node, [command])))
  {
    LocalKeepsAgreement(init, committed, r, node, command);
  }

  /** The step of the node itself. */
  lemma OwnStepSafe(init: Shared, c: Cluster, step: Step)
    requires Safe(init, c) && Allowed(c, step) && Quiet(c, step) && !step.Commit?
    ensures step.node in c.nodes && NodeSafe(init, c.committed, Do(c, step).nodes[step.node])
  {
    var n, r := step.node, c.nodes[step.node];
    assert NodeSafe(init, c.committed, r);
    match step
    case Commit(_) =>
    case ApplyNext(_, count) => ApplyNodeSafe(init, c.committed, r, n, count);
    case LocalWrite(_, command) => LocalNodeSafe(init, c.committed, r, n, command);
    case ReadApplied(_) =>
    case ReadMembership(_) =>
    case Build(_) => OwnBuildSafe(init, c, n);
    case Install(_, snap) => OwnInstallSafe(init, c, n, snap);
    case Restart(_, bootstrap) => RestartNodeSafe(init, c.committed, r, n, bootstrap);
  }

  lemma OwnBuildSafe(init: Shared, c: Cluster, n: U64)
    requires Safe(init, c) && Allowed(c, Build(n)) && Quiet(c, Build(n))
    ensures NodeSafe(init, c.committed, BuildSnapshot(c.nodes[n], MetaRead(c.building[n])).0)
  {
    assert NodeSafe(init, c.committed, c.nodes[n]) && Agrees(init, c.committed, c.building[n].began);
    BuildNodeSafe(init, c.committed, c.building[n], c.nodes[n]);
  }

  lemma OwnInstallSafe(init: Shared, c: Cluster, n: U64, snap: Snapshot)
    requires Safe(init, c) && Allowed(c, Install(n, snap))
    ensures NodeSafe(init, c.committed, InstallSnapshot(c.nodes[n], snap).0)
  {
    assert NodeSafe(init, c.committed, c.nodes[n]) && Faithful(init, c.committed, snap);
    InstallNodeSafe(init, c.committed, c.nodes[n], snap);
  }

  lemma NodeStepSafe(init: Shared, c: Cluster, step: Step, n: U64)
    requires Safe(init, c) && Allowed(c, step) && Quiet(c, step) && n in c.nodes
    ensures NodeSafe(init, Do(c, step).committed, Do(c, step).nodes[n])
  {
    assert NodeSafe(init, c.committed, c.nodes[n]);
    if step.Commit? {
      CommitNodeSafe(init, c.committed, step.entry, c.nodes[n]);
    } else {
      OwnStepSafe(init, c, step);
    }
  }

  lemma BuiltAfter(c: Cluster, step: Step, snap: Snapshot)
    requires Allowed(c, step) && snap in Do(c, step).built
    ensures snap in c.built || (step.Build? && snap == BuildSnapshot(c.nodes[step.node], MetaRead(c.building[step.node])).1)
    ensures Do(c, step).committed == if step.Commit? then c.committed + [step.entry] else c.committed
  {
  }

  lemma SnapshotStepSafe(init: Shared, c: Cluster, step: Step, snap: Snapshot)
    requires Safe(init, c) && Allowed(c, step) && Quiet(c, step) && snap in Do(c, step).built
    ensures Faithful(init, Do(c, step).committed, snap)
  {
    BuiltAfter(c, step, snap);
    if snap in c.built {
      assert Faithful(init, c.committed, snap);
      if step.Commit? { CommitKeepsFaithful(init, c.committed, step.entry, snap); }
    } else {
      assert Agrees(init, c.committed, c.building[step.node].began);
      BuildIsFaithful(init, c.committed, c.building[step.node], c.nodes[step.node]);
    }
  }

  /** A node that began to build did so in agreement. */
  lemma BuilderStepSafe(init: Shared, c: Cluster, step: Step, n: U64)
    requires Safe(init, c) && Allowed(c, step) && n in Do(c, step).building
    ensures Agrees(init, Do(c, step).committed, Do(c, step).building[n].began)
  {
    if n in c.building { assert Agrees(init, c.committed, c.building[n].began); }
    if step.Commit? {
      CommitKeepsAgreement(init, c.committed, step.entry, c.building[n].began);
    } else if step.ReadApplied? && step.node == n {
      assert NodeSafe(init, c.committed, c.nodes[n]);
    }
  }

  lemma NodesStepSafe(init: Shared, c: Cluster, step: Step)
    requires Safe(init, c) && Allowed(c, step) && Quiet(c, step)
    ensures NodesSafe(init, Do(c, step))
  {
    var d := Do(c, step);
    assert d.nodes.Keys == c.nodes.Keys;
    forall n | n in d.nodes ensures NodeSafe(init, d.committed, d.nodes[n]) { NodeStepSafe(init, c, step, n); }
  }

  lemma StepSafe(init: Shared, c: Cluster, step: Step)
    requires Safe(init, c) && Allowed(c, step) && Quiet(c, step)
    ensures Safe(init, Do(c, step))
  {
    var d := Do(c, step);
    NodesStepSafe(init, c, step);
    forall n | n in d.building ensures Agrees(init, d.committed, d.building[n].began) { BuilderStepSafe(init, c, step, n); }
    forall snap | snap in d.built ensures Faithful(init, d.committed, snap) { SnapshotStepSafe(init, c, step, snap); }
  }

  // ----- whole runs -----

  ghost predicate Reaches(c: Cluster, steps: seq<Step>, last: Cluster)
    decreases |steps|
  {
    if steps == [] then c == last
    else Allowed(c, steps[0]) && Quiet(c, steps[0]) && Reaches(Do(c, steps[0]), steps[1..], last)
  }

  lemma InitialIsSafe(init: Shared, first: Cluster)
    requires Initial(init, first)
    ensures Safe(init, first)
  {
    forall n | n in first.nodes ensures NodeSafe(init, first.committed, first.nodes[n]) {
      assert first.committed[..0] == [];
    }
  }

  lemma {:induction false} RunSafe(init: Shared, c: Cluster, steps: seq<Step>, last: Cluster)
    requires Safe(init, c) && Reaches(c, steps, last)
    ensures Safe(init, last)
    decreases |steps|
  {
    if steps != [] {
      StepSafe(init, c, steps[0]);
      RunSafe(init, Do(c, steps[0]), steps[1..], last);
    }
  }

  /** From equal replicated tables, in every run, the same last_applied means the same replicated state. */
  lemma ReplicaAgreement(init: Shared, first: Cluster, steps: seq<Step>, last: Cluster, m: U64, n: U64)
    requires Initial(init, first) && Reaches(first, steps, last) && m in last.nodes && n in last.nodes
    ensures Agrees(init, last.committed, last.nodes[m])
    ensures After(last.nodes[m].applied) == After(last.nodes[n].applied) ==>
              && last.nodes[m].applied == last.nodes[n].applied
              && SharedOf(last.nodes[m].tables) == SharedOf(last.nodes[n].tables)
              && MembershipOf(last.nodes[m]) == MembershipOf(last.nodes[n])
    ensures KnowsMembers(last.committed[..After(last.nodes[m].applied)], MembershipOf(last.nodes[m]))
  {
    InitialIsSafe(init, first);
    RunSafe(init, first, steps, last);
    assert NodeSafe(init, last.committed, last.nodes[m]);
    assert NodeSafe(init, last.committed, last.nodes[n]);
    AgreementKnowsMembers(init, last.committed, last.nodes[m]);
  }

  lemma AgreementKnowsMembers(init: Shared, committed: seq<Entry>, r: Replica)
    requires Agrees(init, committed, r)
    ensures KnowsMembers(committed[..After(r.applied)], MembershipOf(r))
  {
    MembersAreKnown(committed[..After(r.applied)]);
  }

  // ----- restarts -----

  /** A command after which the admin role, if it was there, still is. */
  ghost predicate KeepsAdmin(c: Command) {
    match c
    case DeleteRole(name) => name != ADMIN
    case RestoreDatabase(data) => exists i :: 0 <= i < |data.roles| && data.roles[i].0 == ADMIN
    case _ => true
  }

  ghost predicate LogKeepsAdmin(entries: seq<Entry>) {
    forall i :: 0 <= i < |entries| && entries[i].payload.Normal? ==> KeepsAdmin(entries[i].payload.command)
  }

  lemma StepKeepsAdmin(t: Tables, node: U64, c: Command)
    requires ADMIN in t.roles && KeepsAdmin(c)
    ensures ADMIN in Apply(t, node, c).0.roles
  {
    if c.RestoreDatabase? { CollapseIsLastWins(c.data.roles); }
  }

  lemma {:induction false} ReplayKeepsAdmin(init: Shared, entries: seq<Entry>)
    requires ADMIN in init.roles && LogKeepsAdmin(entries)
    ensures ADMIN in Replay(init, entries).roles
  {
    if entries != [] {
      var before, e := entries[..|entries| - 1], entries[|entries| - 1];
      ReplayKeepsAdmin(init, before);
      if e.payload.Normal? { StepKeepsAdmin(Embed(Replay(init, before)), 0, e.payload.command); }
    }
  }

  /** On a log that keeps the admin role, every restart without a bootstrap token is harmless. */
  lemma RestartHarmless(init: Shared, c: Cluster, n: U64)
    requires Safe(init, c) && n in c.nodes && ADMIN in init.roles && LogKeepsAdmin(c.committed)
    ensures Allowed(c, Restart(n, None)) && Quiet(c, Restart(n, None))
  {
    var r := c.nodes[n];
    assert NodeSafe(init, c.committed, r);
    assert LogKeepsAdmin(c.committed[..After(r.applied)]);
    ReplayKeepsAdmin(init, c.committed[..After(r.applied)]);
  }

  /** Restarts anywhere, as long as no bootstrap token is configured. */
  ghost predicate ReachesFreely(c: Cluster, steps: seq<Step>, last: Cluster)
    decreases |steps|
  {
    if steps == [] then c == last
    else
      && Allowed(c, steps[0]) && (if steps[0].Restart? then steps[0].bootstrap.None? else Quiet(c, steps[0]))
      && ReachesFreely(Do(c, steps[0]), steps[1..], last)
  }

  lemma {:induction false} CommittedGrows(c: Cluster, steps: seq<Step>, last: Cluster)
    requires ReachesFreely(c, steps, last)
    ensures c.committed <= last.committed
    decreases |steps|
  {
    if steps != [] { CommittedGrows(Do(c, steps[0]), steps[1..], last); }
  }

  lemma {:induction false} FreeRunIsQuiet(init: Shared, c: Cluster, steps: seq<Step>, last: Cluster)
    requires Safe(init, c) && ReachesFreely(c, steps, last) && ADMIN in init.roles && LogKeepsAdmin(last.committed)
    ensures Reaches(c, steps, last)
    decreases |steps|
  {
    if steps != [] {
      CommittedGrows(c, steps, last);
      assert forall i :: 0 <= i < |c.committed| ==> c.committed[i] == last.committed[i];
      if steps[0].Restart? { RestartHarmless(init, c, steps[0].node); }
      StepSafe(init, c, steps[0]);
      FreeRunIsQuiet(init, Do(c, steps[0]), steps[1..], last);
    }
  }

  /** Agreement with restarts anywhere, on every log that never drops the admin role. */
  lemma AgreementAcrossRestarts(init: Shared, first: Cluster, steps: seq<Step>, last: Cluster, n: U64)
    requires Initial(init, first) && ReachesFreely(first, steps, last) && n in last.nodes
    requires ADMIN in init.roles && LogKeepsAdmin(last.committed)
    ensures Agrees(init, last.committed, last.nodes[n])
  {
    InitialIsSafe(init, first);
    FreeRunIsQuiet(init, first, steps, last);
    RunSafe(init, first, steps, last);
    assert NodeSafe(init, last.committed, last.nodes[n]);
  }

  /** A restore without the admin role, then a restart: the node leaves the common state. */
  lemma RestoreWithoutAdminThenRestartDiverges(init: Shared, r: Replica, node: U64, id: LogId)
    requires Agrees(init, [], r) && id.index == 0
    ensures var log := [Entry(id, Normal(RestoreDatabase(BackupData(BACKUP_VERSION, [], [], [], [], [], [], []))))];
            var restored := ApplyBatch(r, node, log);
            && Agrees(init, log, restored)
            && !Agrees(init, log, restored.(tables := Boot(restored.tables, node, None)))
  {
    var log := [Entry(id, Normal(RestoreDatabase(BackupData(BACKUP_VERSION, [], [], [], [], [], [], []))))];
    CommitKeepsAgreement(init, [], log[0], r);
    assert [] + log == log && log[0..0 + 1] == log;
    ApplyKeepsAgreement(init, log, r, node, 1);
    var restored := ApplyBatch(r, node, log);
    assert log[..0] == [];
    assert restored.tables.roles == map[];
    RestartAgreesIff(init, log, restored, node, None);
  }

  // ----- building a snapshot -----

  /** In every reachable state, what a build hands out is faithful exactly when nothing it reads changed under it. */
  lemma BuiltFaithfulIff(init: Shared, first: Cluster, steps: seq<Step>, last: Cluster, n: U64)
    requires Initial(init, first) && Reaches(first, steps, last) && Allowed(last, Build(n))
    ensures Faithful(init, last.committed, BuildSnapshot(last.nodes[n], MetaRead(last.building[n])).1) <==>
            Untorn(last.building[n], last.nodes[n])
  {
    InitialIsSafe(init, first);
    RunSafe(init, first, steps, last);
    assert Agrees(init, last.committed, last.building[n].began);
    BuildIsFaithful(init, last.committed, last.building[n], last.nodes[n]);
  }

  /** The builder of the node, if any, has read nothing that changed since. */
  ghost predicate InStep(c: Cluster, n: U64) {
    && n in c.nodes
    && (n in c.building ==>
          var b, r := c.building[n], c.nodes[n];
          && SharedOf(r.tables) == SharedOf(b.began.tables) && MembershipOf(r) == MembershipOf(b.began)
          && (b.members.Some? ==> b.members.value == MembershipOf(r)))
  }

  lemma IdleStaysInStep(c: Cluster, step: Step, n: U64)
    requires InStep(c, n) && Allowed(c, step) && Idle(step, n)
    ensures InStep(Do(c, step), n)
  {
    if step.LocalWrite? && step.node == n {
      var t := c.nodes[n].tables;
      assert [step.command][..0] == [] && Run(t, n, []) == t;
      LocalKeepsShared(t, n, step.command);
      assert SharedOf(Run(t, n, [step.command])) == SharedOf(t);
    }
  }

  /** A node that neither applies nor installs while it builds tears nothing, whatever else happens. */
  lemma {:induction false} IdleBuildIsUntorn(c: Cluster, steps: seq<Step>, last: Cluster, n: U64)
    requires InStep(c, n) && ReachesIdle(c, steps, last, n)
    ensures InStep(last, n) && (Allowed(last, Build(n)) ==> Untorn(last.building[n], last.nodes[n]))
    decreases |steps|
  {
    if steps != [] {
      IdleStaysInStep(c, steps[0], n);
      IdleBuildIsUntorn(Do(c, steps[0]), steps[1..], last, n);
    }
  }

  // ----- the saved snapshot -----

  /**
   * What a node hands out later from its saved bytes is a faithful snapshot exactly when the saved rows still
   * restore to the six tables the node has now.
   */
  lemma CurrentSnapshotFaithfulIff(init: Shared, first: Cluster, steps: seq<Step>, last: Cluster, n: U64)
    requires Initial(init, first) && Reaches(first, steps, last) && n in last.nodes && last.nodes[n].saved.Some?
    ensures var r := last.nodes[n];
            Faithful(init, last.committed, CurrentSnapshot(r).value) <==>
            RestoredShared(r.saved.value) == SharedOf(r.tables)
  {
    InitialIsSafe(init, first);
    RunSafe(init, first, steps, last);
    assert NodeSafe(init, last.committed, last.nodes[n]);
  }

  /** The node neither applies nor installs nor saves another snapshot. */
  ghost predicate Idle(step: Step, n: U64) {
    (step.ApplyNext? || step.Install? || step.Build?) ==> step.node != n
  }

  ghost predicate ReachesIdle(c: Cluster, steps: seq<Step>, last: Cluster, n: U64)
    decreases |steps|
  {
    if steps == [] then c == last
    else Allowed(c, steps[0]) && Idle(steps[0], n) && ReachesIdle(Do(c, steps[0]), steps[1..], last, n)
  }

  lemma IdleStep(c: Cluster, step: Step, n: U64)
    requires n in c.nodes && Allowed(c, step) && Idle(step, n)
    ensures var d := Do(c, step);
            n in d.nodes && MetaNow(d.nodes[n]) == MetaNow(c.nodes[n]) && d.nodes[n].saved == c.nodes[n].saved
  {
  }

  lemma {:induction false} IdleKeepsMeta(c: Cluster, steps: seq<Step>, last: Cluster, n: U64)
    requires n in c.nodes && ReachesIdle(c, steps, last, n)
    ensures n in last.nodes && MetaNow(last.nodes[n]) == MetaNow(c.nodes[n]) && last.nodes[n].saved == c.nodes[n].saved
    decreases |steps|
  {
    if steps != [] {
      IdleStep(c, steps[0], n);
      IdleKeepsMeta(Do(c, steps[0]), steps[1..], last, n);
    }
  }

  /**
   * From any state, if a node has neither applied nor installed since it built its snapshot, whatever the others did,
   * the snapshot it hands out carries the log id and membership recorded in its bytes exactly when the build read the
   * node's own of that moment; and one more applied entry then makes the two log ids differ.
   */
  lemma CurrentSnapshotMeta(c: Cluster, n: U64, meta: SnapshotMeta, steps: seq<Step>, last: Cluster, e: Entry)
    requires Allowed(c, Build(n)) && meta == MetaRead(c.building[n]) && ReachesIdle(Do(c, Build(n)), steps, last, n)
    ensures n in last.nodes && last.nodes[n].saved == Some(Contents(c.nodes[n].tables, meta))
    ensures CurrentSnapshot(last.nodes[n]).value == SavedPair(last.nodes[n].saved.value) <==> meta == MetaNow(c.nodes[n])
    ensures meta == MetaNow(c.nodes[n]) && e.logId.index >= After(last.nodes[n].applied) ==>
              DrawsAhead(ApplyBatch(last.nodes[n], n, [e]), e)
  {
    IdleKeepsMeta(Do(c, Build(n)), steps, last, n);
    OneEntryBatch(last.nodes[n], n, e);
  }

  /** The pair handed out now is marked with this entry, and its bytes are not. */
  ghost predicate DrawsAhead(r: Replica, e: Entry) {
    r.saved.Some? && CurrentSnapshot(r).value.meta.lastLogId == Some(e.logId) != r.saved.value.lastApplied
  }

  lemma OneEntryBatch(r: Replica, node: U64, e: Entry)
    ensures ApplyBatch(r, node, [e]).tables == EntryEffect(r.tables, node, e).0
    ensures ApplyBatch(r, node, [e]).applied == Some(e.logId) && ApplyBatch(r, node, [e]).saved == r.saved
  {
    assert [e][..0] == [];
    assert BatchTables(r.tables, node, []) == r.tables;
  }
}
