/** Snapshots that mislead a follower, as concrete runs from an empty log. */
module Snapshots {
  import opened Base
  import opened Keys
  import opened Model
  import opened Effects
  import opened Backup
  import opened RaftLog
  import opened Replica
  import opened Cluster
  import opened Closure

  lemma {:induction false} ReachesOn(c: Cluster, steps: seq<Step>, mid: Cluster, step: Step)
    requires Reaches(c, steps, mid) && Allowed(mid, step) && Quiet(mid, step)
    ensures Reaches(c, steps + [step], Do(mid, step))
    decreases |steps|
  {
    if steps == [] {
      assert [step][1..] == [];
    } else {
      assert (steps + [step])[1..] == steps[1..] + [step];
      ReachesOn(Do(c, steps[0]), steps[1..], mid, step);
    }
  }

  /** An entry that creates a secret in the tables both nodes start from. */
  ghost predicate Creates(first: Cluster, m: U64, e: Entry) {
    && m in first.nodes && e.logId.index == 0 && e.payload.Normal? && e.payload.command.CreateSecret?
    && Apply(first.nodes[m].tables, m, e.payload.command).1 == Ok
  }

  lemma CreateChangesShared(t: Tables, node: U64, c: Command)
    requires c.CreateSecret? && Apply(t, node, c).1 == Ok
    ensures SharedOf(Apply(t, node, c).0) != SharedOf(t)
  {
    assert c.secret.name !in t.secrets && c.secret.name in Apply(t, node, c).0.secrets;
  }

  /** Rows of valid tables pass the checks of an install. */
  lemma ValidContentsAccepted(t: Tables, meta: SnapshotMeta)
    requires ValidKeys(t.secrets.Keys, t.versions.Keys)
    ensures AcceptableSnapshotRows(Contents(t, meta))
  {
    var data := Contents(t, meta);
    ContentsRestore(t, meta);
    assert RestoredShared(data).secrets == Collapse(data.secrets) && RestoredShared(data).versions == Collapse(data.versions);
    ValidRowsAccepted(data);
  }

  // ----- up to the point where the node has read its metadata -----

  function ReadSteps(m: U64, e: Entry): seq<Step> {
    [] + [Commit(e)] + [ReadApplied(m)] + [ReadMembership(m)]
  }

  /** The entry is committed and node m has read its metadata. */
  function HasRead(first: Cluster, m: U64, e: Entry): Cluster
    requires m in first.nodes
  {
    first.(committed := [e], building := map[m := Builder(first.nodes[m], Some(MembershipOf(first.nodes[m])))])
  }

  /** Node m has read its applied id. */
  function HasBegun(first: Cluster, m: U64, e: Entry): Cluster
    requires m in first.nodes
  {
    first.(committed := [e], building := map[m := Builder(first.nodes[m], None)])
  }

  lemma BeginsReading(init: Shared, first: Cluster, m: U64, e: Entry)
    requires Initial(init, first) && m in first.nodes && e.logId.index == 0
    ensures Reaches(first, [] + [Commit(e)] + [ReadApplied(m)], HasBegun(first, m, e))
  {
    var c := first.(committed := [e]);
    assert Do(first, Commit(e)) == c;
    ReachesOn(first, [], first, Commit(e));
    assert Do(c, ReadApplied(m)) == HasBegun(first, m, e);
    ReachesOn(first, [] + [Commit(e)], c, ReadApplied(m));
  }

  lemma ReadsMeta(init: Shared, first: Cluster, m: U64, e: Entry)
    requires Initial(init, first) && m in first.nodes && e.logId.index == 0
    ensures Reaches(first, ReadSteps(m, e), HasRead(first, m, e))
  {
    var c := HasBegun(first, m, e);
    BeginsReading(init, first, m, e);
    assert Do(c, ReadMembership(m)) == HasRead(first, m, e);
    ReachesOn(first, [] + [Commit(e)] + [ReadApplied(m)], c, ReadMembership(m));
  }

  // ----- a torn build -----

  /** The node applies the entry before it opens the data transaction. */
  function HasApplied(c: Cluster, m: U64, r: Replica): Cluster {
    c.(nodes := c.nodes[m := r])
  }

  lemma AppliesFirst(c: Cluster, m: U64, e: Entry, r: Replica)
    requires m in c.nodes && c.committed == [e] && c.nodes[m].applied.None? && r == ApplyBatch(c.nodes[m], m, [e])
    ensures Allowed(c, ApplyNext(m, 1)) && Quiet(c, ApplyNext(m, 1)) && Do(c, ApplyNext(m, 1)) == HasApplied(c, m, r)
  {
    assert c.committed[0..1] == [e];
  }

  /** Built now, the snapshot holds the entry without its log id; a follower that installs it leaves the common state. */
  ghost predicate MisleadsWhenBuilt(init: Shared, c: Cluster, m: U64, n: U64) {
    Allowed(c, Build(m)) &&
    var snap := BuildSnapshot(c.nodes[m], MetaRead(c.building[m])).1;
    var d := Do(c, Build(m));
    Allowed(d, Install(n, snap)) &&
    var last := Do(d, Install(n, snap));
    && !Faithful(init, last.committed, snap) && !Agrees(init, last.committed, last.nodes[n])
    && InstallSnapshot(d.nodes[n], snap).1
  }

  /** Rows of other tables under no log id: accepted, and no replay of an empty prefix. */
  lemma TornPair(init: Shared, committed: seq<Entry>, t: Tables, meta: SnapshotMeta, q: Replica)
    requires meta.lastLogId.None? && SharedOf(t) != init && ValidKeys(t.secrets.Keys, t.versions.Keys)
    ensures var snap := Snapshot(meta, Contents(t, meta));
            && !Faithful(init, committed, snap) && InstallSnapshot(q, snap).1
            && !Agrees(init, committed, InstallSnapshot(q, snap).0)
  {
    ContentsRestore(t, meta);
    ValidContentsAccepted(t, meta);
    assert committed[..0] == [];
  }

  lemma BuildDoes(c: Cluster, m: U64, n: U64)
    requires Allowed(c, Build(m)) && n in c.nodes && m != n
    ensures var d, snap := Do(c, Build(m)), BuildSnapshot(c.nodes[m], MetaRead(c.building[m])).1;
            && snap == Snapshot(MetaRead(c.building[m]), Contents(c.nodes[m].tables, MetaRead(c.building[m])))
            && Allowed(d, Install(n, snap)) && d.nodes[n] == c.nodes[n] && d.committed == c.committed
            && Do(d, Install(n, snap)).committed == c.committed
            && Do(d, Install(n, snap)).nodes[n] == InstallSnapshot(c.nodes[n], snap).0
  {
  }

  lemma TornInstall(init: Shared, c: Cluster, m: U64, n: U64, r0: Replica)
    requires m in c.nodes && n in c.nodes && m != n && r0.applied.None?
    requires c.building == map[m := Builder(r0, Some(MembershipOf(r0)))]
    requires SharedOf(c.nodes[m].tables) != init && ValidKeys(c.nodes[m].tables.secrets.Keys, c.nodes[m].tables.versions.Keys)
    ensures MisleadsWhenBuilt(init, c, m, n)
  {
    TornPair(init, c.committed, c.nodes[m].tables, MetaRead(c.building[m]), c.nodes[n]);
    BuildDoes(c, m, n);
  }

  /**
   * The failing run: a node reads its applied id, applies an entry, and only then reads its tables. The snapshot holds
   * the entry without its log id, every node accepts it, and a follower that installs it is where no replay leads.
   */
  lemma TornBuildMisleads(init: Shared, first: Cluster, m: U64, n: U64, e: Entry)
    requires Initial(init, first) && n in first.nodes && m != n && Creates(first, m, e)
    requires ValidKeys(init.secrets.Keys, init.versions.Keys)
    ensures exists c :: Reaches(first, ReadSteps(m, e) + [ApplyNext(m, 1)], c) && MisleadsWhenBuilt(init, c, m, n)
  {
    var r0 := first.nodes[m];
    var r := ApplyBatch(r0, m, [e]);
    var c := HasRead(first, m, e);
    ReadsMeta(init, first, m, e);
    AppliesFirst(c, m, e, r);
    ReachesOn(first, ReadSteps(m, e), c, ApplyNext(m, 1));
    OneEntryBatch(r0, m, e);
    CreateChangesShared(r0.tables, m, e.payload.command);
    StepKeepsValid(r0.tables, m, e.payload.command);
    TornInstall(init, HasApplied(c, m, r), m, n, r0);
  }

  // ----- a saved snapshot that grew stale -----

  lemma BuildsClean(c: Cluster, m: U64, r0: Replica)
    requires m in c.nodes && c.nodes[m] == r0 && c.building == map[m := Builder(r0, Some(MembershipOf(r0)))]
    ensures Allowed(c, Build(m)) && Quiet(c, Build(m))
    ensures var d := Do(c, Build(m));
            d.nodes == c.nodes[m := r0.(saved := Some(Contents(r0.tables, MetaNow(r0))))] && d.committed == c.committed
  {
  }

  /** What the node hands out now, installed on the follower, gives it the node's log id and not its tables. */
  ghost predicate MisleadsWhenSent(init: Shared, c: Cluster, m: U64, n: U64) {
    m in c.nodes && n in c.nodes && c.nodes[m].saved.Some? &&
    var (follower, installed) := InstallSnapshot(c.nodes[n], CurrentSnapshot(c.nodes[m]).value);
    && installed && follower.applied == c.nodes[m].applied && SharedOf(follower.tables) != SharedOf(c.nodes[m].tables)
    && Agrees(init, c.committed, c.nodes[m]) && !Agrees(init, c.committed, follower)
  }

  lemma StaleInstall(init: Shared, c: Cluster, m: U64, n: U64, e: Entry, t0: Tables, meta: SnapshotMeta)
    requires m in c.nodes && n in c.nodes && e.logId.index == 0 && Agrees(init, c.committed, c.nodes[m])
    requires c.nodes[m].applied == Some(e.logId) && c.nodes[m].saved == Some(Contents(t0, meta))
    requires SharedOf(c.nodes[m].tables) != SharedOf(t0) && ValidKeys(t0.secrets.Keys, t0.versions.Keys)
    ensures MisleadsWhenSent(init, c, m, n)
  {
    ContentsRestore(t0, meta);
    ValidContentsAccepted(t0, meta);
  }

  /**
   * The failing run: a node builds and saves a snapshot, then applies an entry. The saved bytes go out with the metadata
   * of the present, every node accepts them, and a follower that installs them is marked with an entry it does not hold.
   */
  lemma StaleSnapshotMisleads(init: Shared, first: Cluster, m: U64, n: U64, e: Entry)
    requires Initial(init, first) && n in first.nodes && Creates(first, m, e)
    requires ValidKeys(init.secrets.Keys, init.versions.Keys)
    ensures exists c :: Reaches(first, ReadSteps(m, e) + [Build(m)] + [ApplyNext(m, 1)], c) && MisleadsWhenSent(init, c, m, n)
  {
    var r0 := first.nodes[m];
    var c := HasRead(first, m, e);
    ReadsMeta(init, first, m, e);
    BuildsClean(c, m, r0);
    ReachesOn(first, ReadSteps(m, e), c, Build(m));
    var d := Do(c, Build(m));
    var r := ApplyBatch(d.nodes[m], m, [e]);
    AppliesFirst(d, m, e, r);
    ReachesOn(first, ReadSteps(m, e) + [Build(m)], d, ApplyNext(m, 1));
    var last := HasApplied(d, m, r);
    OneEntryBatch(d.nodes[m], m, e);
    CreateChangesShared(r0.tables, m, e.payload.command);
    ReplicaAgreement(init, first, ReadSteps(m, e) + [Build(m)] + [ApplyNext(m, 1)], last, m, m);
    StaleInstall(init, last, m, n, e, r0.tables, MetaNow(r0));
  }
}
