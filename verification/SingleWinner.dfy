/**
 * Rotations of one secret that race: each version number is committed by exactly one client, losers touch
 * nothing, and the external system only ever holds a password some committed version stored.
 */
module SingleWinner {
  import opened Base
  import opened Keys
  import opened Model
  import opened Effects
  import opened CurrentVersion
  import opened Service
  import opened Rotation
  import opened Outcomes

  // ----- the invariant -----

  ghost predicate Unused(wins: seq<Win>, id: nat) {
    forall i :: 0 <= i < |wins| ==> wins[i].id != id
  }

  /** No client committed twice. */
  ghost predicate OneEach(wins: seq<Win>) {
    forall i, j :: 0 <= i < j < |wins| ==> wins[i].id != wins[j].id
  }

  /** The versions of one secret in the order they were committed. */
  function VersionsOf(wins: seq<Win>, n: string): seq<I32> {
    if wins == [] then []
    else
      var before, last := VersionsOf(wins[..|wins| - 1], n), wins[|wins| - 1];
      if last.name == n then before + [last.version] else before
  }

  /** They are start + 1, start + 2 and so on up to the current one. */
  ghost predicate Consecutive(wins: seq<Win>, n: string, start: I32, current: I32) {
    && |VersionsOf(wins, n)| == current - start
    && forall i :: 0 <= i < |VersionsOf(wins, n)| ==> VersionsOf(wins, n)[i] == start + 1 + i
  }

  ghost predicate Placed(wins: seq<Win>, n: string, current: I32, id: nat, c: Client) {
    match c
    case Rotating(_, s, _, _, _) => s.currentVersion <= current
    case Replacing(_, s, _, _, _, _) => s.currentVersion <= current
    case Describing(_, _, _, _) => true
    case Applying(_, v, p, _) => Win(n, v, id, p) in wins && v <= current
    case Retrying(_, v, _) => v <= current
  }

  ghost predicate ClientOrdered(wins: seq<Win>, n: string, current: I32, id: nat, c: Client) {
    && WellBegun(c)
    && (c.Rotating? || c.Replacing? ==> Unused(wins, id))
    && (c.name == n ==> Placed(wins, n, current, id, c))
  }

  /** The external system holds what it held at first, or the password of a committed version. */
  ghost predicate KnownPassword(external: map<string, string>, wins: seq<Win>, n: string, initial: Option<string>) {
    Lookup(external, n) == initial || exists win :: win in wins && HoldsPasswordOf(external, n, win)
  }

  ghost predicate HoldsPasswordOf(external: map<string, string>, n: string, win: Win) {
    n in external && win.name == n && win.plaintext.UserPass? && win.plaintext.password == external[n]
  }

  ghost predicate Ordered(w: World, n: string, start: I32, initial: Option<string>) {
    && Good(w.tables) && n in w.tables.secrets
    && Consecutive(w.wins, n, start, w.tables.secrets[n].currentVersion)
    && OneEach(w.wins)
    && (forall id :: id in w.clients ==>
          ClientOrdered(w.wins, n, w.tables.secrets[n].currentVersion, id, w.clients[id]))
    && KnownPassword(w.external, w.wins, n, initial)
  }

  // ----- one commit -----

  /** Compare and set: the commit of a new version wins exactly when the version it read is still current. */
  lemma CommitWinsIff(t: Tables, node: U64, c: Client)
    requires Good(t) && WellBegun(c) && (c.Rotating? || c.Replacing?)
    ensures Apply(t, node, CommandOf(c)).1 == Ok <==>
            c.name in t.secrets && t.secrets[c.name].currentVersion == c.secret.currentVersion
    ensures ValidName(c.name) && c.row.version >= 1 && Apply(t, node, CommandOf(c)).1 != Ok ==>
              Apply(t, node, CommandOf(c)).1 == if c.name in t.secrets then VersionConflict else NotFound
    ensures Apply(t, node, CommandOf(c)).1 != Ok ==> Apply(t, node, CommandOf(c)).0 == t
  {
    if c.name in t.secrets { assert CurrentRow(t.secrets, t.versions, c.name); }
  }

  /** The same for metadata: an update without a value, or a retry, applies exactly to the version it was made for. */
  lemma MetadataAppliesIff(t: Tables, node: U64, c: Client)
    requires c.Describing? || c.Retrying?
    ensures Apply(t, node, CommandOf(c)).1 == Ok <==>
            c.name in t.secrets && t.secrets[c.name].currentVersion == if c.Describing? then c.secret.currentVersion else c.version
    ensures Apply(t, node, CommandOf(c)).1 != Ok ==>
              Apply(t, node, CommandOf(c)).1 == if c.name in t.secrets then VersionConflict else NotFound
    ensures Apply(t, node, CommandOf(c)).1 != Ok ==> Apply(t, node, CommandOf(c)).0 == t
  {
  }

  /** A rotation turns to the external system exactly when it won, the secret has a target and stores a login. */
  lemma TurnsToTargetIff(w: World, node: U64, id: nat, t: Tables, n: string, token: string, at: I64, f: E.Fresh)
    requires id in w.clients && BeginRotate(t, n, token, at, f) == Some(w.clients[id]) && w.clients[id].Rotating?
    ensures var c, after := w.clients[id], Do(w, node, Commit(id)).clients;
            && (id in after <==>
                  Apply(w.tables, node, CommandOf(c)).1 == Ok && t.secrets[n].target.Some? && t.secrets[n].format == Userpass)
            && (id in after ==>
                  after[id].Applying? && after[id].name == n && after[id].version == c.row.version
                  && after[id].plaintext.UserPass? && after[id].plaintext.password == token && after[id].now == at)
            && (forall j :: j != id ==> Lookup(after, j) == Lookup(w.clients, j))
  {
  }

  /**
   * An apply that fails is retried: nothing outside changes, and the request's last commit brings the next rotation to a
   * minute after its time if its version is still current, and changes nothing otherwise.
   */
  lemma FailedApplyRetries(w: World, node: U64, id: nat)
    requires id in w.clients && w.clients[id].Applying?
    ensures var c, w1 := w.clients[id], Do(w, node, ApplyTarget(id, false));
            && w1.tables == w.tables && w1.external == w.external && Allowed(w1, Commit(id)) &&
            var w2 := Do(w1, node, Commit(id));
            && id !in w2.clients && w2.external == w.external && w2.wins == w.wins
            && (if c.name in w.tables.secrets && w.tables.secrets[c.name].currentVersion == c.version
                then w2.tables == w.tables.(secrets := w.tables.secrets[c.name :=
                       w.tables.secrets[c.name].(nextRotationAt := Some(SaturatingAdd(c.now, 60)), updatedAt := c.now)])
                else w2.tables == w.tables)
  {
    var c := w.clients[id];
    RetryDoes(w.tables, node, c.name, c.version, c.now);
  }

  /** The current version after a client's commit. */
  lemma CommitAdvances(t: Tables, node: U64, c: Client, n: string)
    requires Good(t) && WellBegun(c) && !c.Applying? && n in t.secrets
    ensures var (u, outcome) := Apply(t, node, CommandOf(c));
            && n in u.secrets
            && u.secrets[n].currentVersion ==
                 if outcome == Ok && (c.Rotating? || c.Replacing?) && c.name == n then c.row.version
                 else t.secrets[n].currentVersion
  {
    CommitTouchesOne(t, node, c);
    if c.Describing? || c.Retrying? {
      assert UpdateMetaEffect(t, c.name, CommandOf(c).expectedCurrent, CommandOf(c).meta).0 == Apply(t, node, CommandOf(c)).0;
    }
  }

  lemma OthersStayOrdered(wins: seq<Win>, n: string, current: I32, id: nat, c: Client, win: Win, current': I32)
    requires ClientOrdered(wins, n, current, id, c) && id != win.id && current <= current'
    ensures ClientOrdered(wins + [win], n, current', id, c)
  {
  }

  lemma WinsGrow(wins: seq<Win>, external: map<string, string>, n: string, start: I32, current: I32,
                 initial: Option<string>, win: Win)
    requires Consecutive(wins, n, start, current) && OneEach(wins) && Unused(wins, win.id)
    requires KnownPassword(external, wins, n, initial)
    requires win.name == n ==> win.version == current + 1
    ensures Consecutive(wins + [win], n, start, if win.name == n then current + 1 else current)
    ensures OneEach(wins + [win]) && KnownPassword(external, wins + [win], n, initial)
  {
    assert (wins + [win])[..|wins|] == wins;
    if Lookup(external, n) != initial {
      var known :| known in wins && HoldsPasswordOf(external, n, known);
      assert known in wins + [win];
    }
  }

  // ----- every step -----

  /** Nothing in the run removes the secret. */
  ghost predicate Spares(step: Step, n: string) {
    step.Other? ==> !step.command.RestoreDatabase? && (step.command.DeleteSecret? ==> step.command.name != n)
  }

  /** The winner goes on with its win on record; the others stay where they were. */
  lemma ClientsAfterWin(wins: seq<Win>, clients: map<nat, Client>, id: nat, n: string, current: I32, current': I32)
    requires id in clients && (clients[id].Rotating? || clients[id].Replacing?) && current <= current'
    requires clients[id].name == n ==> current' == clients[id].row.version
    requires forall i :: i in clients ==> ClientOrdered(wins, n, current, i, clients[i])
    ensures var c := clients[id];
            var wins' := wins + [Win(c.name, c.row.version, id, c.plaintext)];
            var after := ClientsAfterCommit(clients, id, true);
            forall i :: i in after ==> ClientOrdered(wins', n, current', i, after[i])
  {
    var c := clients[id];
    var win, after := Win(c.name, c.row.version, id, c.plaintext), ClientsAfterCommit(clients, id, true);
    forall i | i in after ensures ClientOrdered(wins + [win], n, current', i, after[i]) {
      if i != id { OthersStayOrdered(wins, n, current, i, clients[i], win, current'); }
    }
  }

  lemma WinningCommit(w: World, node: U64, id: nat, n: string, start: I32, initial: Option<string>)
    requires Ordered(w, n, start, initial) && id in w.clients && (w.clients[id].Rotating? || w.clients[id].Replacing?)
    requires Apply(w.tables, node, CommandOf(w.clients[id])).1 == Ok
    ensures Ordered(Do(w, node, Commit(id)), n, start, initial)
  {
    var c, t := w.clients[id], w.tables;
    var current := t.secrets[n].currentVersion;
    assert ClientOrdered(w.wins, n, current, id, c);
    CommitsAreShaped(c);
    StepKeepsGood(t, node, CommandOf(c));
    CommitAdvances(t, node, c, n);
    CommitWinsIff(t, node, c);
    WinsGrow(w.wins, w.external, n, start, current, initial, Win(c.name, c.row.version, id, c.plaintext));
    ClientsAfterWin(w.wins, w.clients, id, n, current, if c.name == n then c.row.version else current);
  }

  lemma PlainCommit(w: World, node: U64, id: nat, n: string, start: I32, initial: Option<string>)
    requires Ordered(w, n, start, initial) && id in w.clients && !w.clients[id].Applying?
    requires w.clients[id].Describing? || w.clients[id].Retrying? || Apply(w.tables, node, CommandOf(w.clients[id])).1 != Ok
    ensures Ordered(Do(w, node, Commit(id)), n, start, initial)
  {
    var c, t := w.clients[id], w.tables;
    assert ClientOrdered(w.wins, n, t.secrets[n].currentVersion, id, c);
    CommitsAreShaped(c);
    StepKeepsGood(t, node, CommandOf(c));
    CommitAdvances(t, node, c, n);
  }

  lemma TargetStep(w: World, node: U64, id: nat, succeeded: bool, n: string, start: I32, initial: Option<string>)
    requires Ordered(w, n, start, initial) && id in w.clients && w.clients[id].Applying?
    ensures Ordered(Do(w, node, ApplyTarget(id, succeeded)), n, start, initial)
  {
    var c, w' := w.clients[id], Do(w, node, ApplyTarget(id, succeeded));
    assert ClientOrdered(w.wins, n, w.tables.secrets[n].currentVersion, id, c);
    if succeeded && c.name == n {
      assert HoldsPasswordOf(w'.external, n, Win(n, c.version, id, c.plaintext));
    } else if Lookup(w.external, n) != initial {
      var win :| win in w.wins && HoldsPasswordOf(w.external, n, win);
      assert HoldsPasswordOf(w'.external, n, win);
    }
  }

  lemma StartStep(w: World, node: U64, step: Step, n: string, start: I32, initial: Option<string>)
    requires Ordered(w, n, start, initial) && Allowed(w, step) && (step.StartRotate? || step.StartUpdate?)
    ensures Ordered(Do(w, node, step), n, start, initial)
  {
    match step
    case StartRotate(id, name, token, now, f) =>
      BegunIsWellBegun(w.tables, name, token, UpdateRequest(None, None, None, None, None, None), now, f);
    case StartUpdate(id, name, req, now, f) => BegunIsWellBegun(w.tables, name, "", req, now, f);
    case _ =>
  }

  lemma CreateStep(w: World, node: U64, step: Step, n: string, start: I32, initial: Option<string>)
    requires Ordered(w, n, start, initial) && step.Create?
    ensures Ordered(Do(w, node, step), n, start, initial)
  {
    var built := BuildCreate(w.tables, step.req, step.plaintext, step.now, step.f);
    if built.Some? {
      CreatesAreShaped(w.tables, step.req, step.plaintext, step.now, step.f);
      StepKeepsGood(w.tables, node, built.value);
      var u := Apply(w.tables, node, built.value).0;
      assert n in u.secrets && u.secrets[n] == w.tables.secrets[n];
    }
  }

  lemma OtherStep(w: World, node: U64, c: Command, n: string, start: I32, initial: Option<string>)
    requires Ordered(w, n, start, initial) && OtherWriter(c) && Spares(Other(c), n)
    ensures Ordered(Do(w, node, Other(c)), n, start, initial)
  {
    StepKeepsGood(w.tables, node, c);
    OtherKeepsSecrets(w.tables, node, c);
  }

  lemma StepOrdered(w: World, node: U64, step: Step, n: string, start: I32, initial: Option<string>)
    requires Ordered(w, n, start, initial) && Allowed(w, step) && Spares(step, n)
    ensures Ordered(Do(w, node, step), n, start, initial)
  {
    match step
    case Create(_, _, _, _) => CreateStep(w, node, step, n, start, initial);
    case StartRotate(_, _, _, _, _) => StartStep(w, node, step, n, start, initial);
    case StartUpdate(_, _, _, _, _) => StartStep(w, node, step, n, start, initial);
    case Commit(id) =>
      if w.clients[id].Describing? || w.clients[id].Retrying? || Apply(w.tables, node, CommandOf(w.clients[id])).1 != Ok {
        PlainCommit(w, node, id, n, start, initial);
      } else {
        WinningCommit(w, node, id, n, start, initial);
      }
    case ApplyTarget(id, succeeded) => TargetStep(w, node, id, succeeded, n, start, initial);
    case Other(c) => OtherStep(w, node, c, n, start, initial);
  }

  ghost predicate ReachesSparing(w: World, node: U64, steps: seq<Step>, last: World, n: string)
    decreases |steps|
  {
    if steps == [] then w == last
    else
      && Allowed(w, steps[0]) && Spares(steps[0], n)
      && ReachesSparing(Do(w, node, steps[0]), node, steps[1..], last, n)
  }

  lemma {:induction false} RunOrdered(w: World, node: U64, steps: seq<Step>, last: World, n: string, start: I32,
                                      initial: Option<string>)
    requires Ordered(w, n, start, initial) && ReachesSparing(w, node, steps, last, n)
    ensures Ordered(last, n, start, initial)
    decreases |steps|
  {
    if steps != [] {
      StepOrdered(w, node, steps[0], n, start, initial);
      RunOrdered(Do(w, node, steps[0]), node, steps[1..], last, n, start, initial);
    }
  }

  // ----- what it gives -----

  /** Where a win of the secret stands among its versions. */
  function Rank(wins: seq<Win>, n: string, i: nat): nat
    requires i < |wins|
  {
    |VersionsOf(wins[..i], n)|
  }

  lemma {:induction false} RankOfWin(wins: seq<Win>, n: string, i: nat)
    requires i < |wins| && wins[i].name == n
    ensures Rank(wins, n, i) < |VersionsOf(wins, n)| && VersionsOf(wins, n)[Rank(wins, n, i)] == wins[i].version
    decreases |wins|
  {
    var init := wins[..|wins| - 1];
    if i < |init| {
      assert init[..i] == wins[..i];
      RankOfWin(init, n, i);
    } else {
      assert wins[..i] == init;
    }
  }

  lemma {:induction false} LaterRank(wins: seq<Win>, n: string, i: nat, j: nat)
    requires i < j < |wins| && wins[i].name == n
    ensures Rank(wins, n, i) < Rank(wins, n, j)
  {
    assert wins[..j][..i] == wins[..i];
    RankOfWin(wins[..j], n, i);
  }

  /** Two positions of the list never carry the same version of the secret, and they ascend. */
  lemma VersionsAscend(wins: seq<Win>, n: string, start: I32, current: I32, i: nat, j: nat)
    requires Consecutive(wins, n, start, current) && i < j < |wins| && wins[i].name == n && wins[j].name == n
    ensures start < wins[i].version < wins[j].version <= current
  {
    RankOfWin(wins, n, i);
    RankOfWin(wins, n, j);
    LaterRank(wins, n, i, j);
  }

  lemma WinInRange(wins: seq<Win>, n: string, start: I32, current: I32, i: nat)
    requires Consecutive(wins, n, start, current) && i < |wins| && wins[i].name == n
    ensures start < wins[i].version <= current
  {
    RankOfWin(wins, n, i);
  }

  /**
   * The secret's versions on the list of wins are, in this order, start + 1, start + 2 and so on up to the current
   * one; so no two positions of the list carry the same version of it.
   */
  ghost predicate EachOnce(wins: seq<Win>, n: string, start: I32, current: I32) {
    && |VersionsOf(wins, n)| == current - start
    && VersionsOf(wins, n) == seq(|VersionsOf(wins, n)|, i => start + 1 + i)
    && (forall i, j :: 0 <= i < j < |wins| && wins[i].name == n && wins[j].name == n ==> wins[i].version < wins[j].version)
  }

  lemma ConsecutiveMeans(wins: seq<Win>, n: string, start: I32, current: I32)
    requires Consecutive(wins, n, start, current)
    ensures EachOnce(wins, n, start, current)
  {
    forall i, j | 0 <= i < j < |wins| && wins[i].name == n && wins[j].name == n ensures wins[i].version < wins[j].version {
      VersionsAscend(wins, n, start, current, i, j);
    }
  }

  /**
   * From a vault with no request in flight, after any interleaving: clients committed each version of the secret
   * after the first one up to the current one exactly once and in order, no client committed twice, and the external
   * system holds its first password or one that a committed version stored.
   */
  lemma EachVersionHasOneWinner(t: Tables, node: U64, external: map<string, string>, steps: seq<Step>, last: World, n: string)
    requires Good(t) && n in t.secrets && ReachesSparing(World(t, map[], external, []), node, steps, last, n)
    ensures n in last.tables.secrets
    ensures EachOnce(last.wins, n, t.secrets[n].currentVersion, last.tables.secrets[n].currentVersion)
    ensures OneEach(last.wins) && KnownPassword(last.external, last.wins, n, Lookup(external, n))
  {
    var start := t.secrets[n].currentVersion;
    RunOrdered(World(t, map[], external, []), node, steps, last, n, start, Lookup(external, n));
    ConsecutiveMeans(last.wins, n, start, last.tables.secrets[n].currentVersion);
  }

  /** A retry that arrives after a newer version was committed changes nothing, its timer included. */
  lemma LateRetryChangesNothing(w: World, node: U64, id: nat, n: string, start: I32, initial: Option<string>, newer: nat)
    requires Ordered(w, n, start, initial) && id in w.clients && w.clients[id].Retrying? && w.clients[id].name == n
    requires newer < |w.wins| && w.wins[newer].name == n && w.wins[newer].version > w.clients[id].version
    ensures Do(w, node, Commit(id)).tables == w.tables
  {
    WinInRange(w.wins, n, start, w.tables.secrets[n].currentVersion, newer);
  }

  // ----- vault and external system in step -----

  /** Committed versions of one secret store different passwords, as freshly drawn ones do. */
  ghost predicate DistinctPasswords(wins: seq<Win>, n: string) {
    forall a, b :: a in wins && b in wins && a.name == n && b.name == n && a.version != b.version ==>
      !(a.plaintext.UserPass? && b.plaintext.UserPass? && a.plaintext.password == b.plaintext.password)
  }

  /** The external system holds the password that the current version stored. */
  ghost predicate InStep(w: World, n: string) {
    n in w.tables.secrets &&
    exists win :: win in w.wins && win.version == w.tables.secrets[n].currentVersion && HoldsPasswordOf(w.external, n, win)
  }

  /** A successful apply leaves the external system on the current version exactly when its own is still current. */
  lemma ApplySyncsIff(w: World, node: U64, id: nat, n: string, start: I32, initial: Option<string>)
    requires Ordered(w, n, start, initial) && DistinctPasswords(w.wins, n)
    requires id in w.clients && w.clients[id].Applying? && w.clients[id].name == n
    ensures InStep(Do(w, node, ApplyTarget(id, true)), n) <==>
            w.clients[id].version == w.tables.secrets[n].currentVersion
  {
    var c, w' := w.clients[id], Do(w, node, ApplyTarget(id, true));
    assert ClientOrdered(w.wins, n, w.tables.secrets[n].currentVersion, id, c);
    var own := Win(n, c.version, id, c.plaintext);
    assert own in w'.wins && HoldsPasswordOf(w'.external, n, own);
  }

  /** The world after a rotation that nobody raced has committed and is about to apply. */
  function AfterCommit(w: World, u: Tables, id: nat, n: string, v: I32, p: Plaintext, at: I64): World {
    World(u, w.clients[id := Applying(n, v, p, at)], w.external, w.wins + [Win(n, v, id, p)])
  }

  /** A login secret with a target, whose rotation can begin. */
  ghost predicate Appliable(t: Tables, n: string) {
    && Good(t) && n in t.secrets && t.secrets[n].kind == Automatic && HasTarget(t.secrets[n])
    && t.secrets[n].currentVersion < I32_MAX && LoadUserpass(t, n, t.secrets[n].currentVersion).Some?
  }

  /** What its commit leaves in the tables. */
  lemma RotationLeaves(t: Tables, node: U64, n: string, token: string, at: I64, f: E.Fresh, c: Client, u: Tables)
    requires Appliable(t, n) && |f.nonce| == E.NONCE_LEN
    requires BeginRotate(t, n, token, at, f) == Some(c) && c.Rotating? && u == Apply(t, node, CommandOf(c)).0
    ensures Apply(t, node, CommandOf(c)).1 == Ok && n in u.secrets && u.secrets[n].currentVersion == t.secrets[n].currentVersion + 1
    ensures u.secrets[n].currentVersion < I32_MAX ==> Appliable(u, n)
  {
    RotateDoes(t, node, n, token, at, f);
    CommitsAreShaped(c);
    StepKeepsGood(t, node, CommandOf(c));
  }

  lemma BeginsWith(t: Tables, n: string, token: string, at: I64, f: E.Fresh)
    requires Appliable(t, n)
    ensures var c := BeginRotate(t, n, token, at, f);
            c.Some? && c.value.Rotating? && c.value.name == n && c.value.row.version == t.secrets[n].currentVersion + 1
            && c.value.plaintext.UserPass? && c.value.plaintext.password == token && c.value.now == at && c.value.secret == t.secrets[n]
  {
  }

  function UpToCommit(id: nat, n: string, token: string, at: I64, f: E.Fresh): seq<Step> {
    [StartRotate(id, n, token, at, f), Commit(id)]
  }

  lemma StartDoes(w: World, node: U64, id: nat, n: string, token: string, at: I64, f: E.Fresh, c: Client)
    requires Allowed(w, StartRotate(id, n, token, at, f)) && BeginRotate(w.tables, n, token, at, f) == Some(c)
    ensures Do(w, node, StartRotate(id, n, token, at, f)) == w.(clients := w.clients[id := c])
  {
  }

  lemma CommitDoes(w: World, node: U64, id: nat, c: Client, u: Tables)
    requires c.Rotating? && HasTarget(c.secret) && c.plaintext.UserPass?
    requires Apply(w.tables, node, CommandOf(c)) == (u, Ok)
    ensures var w1 := w.(clients := w.clients[id := c]);
            Allowed(w1, Commit(id)) &&
            Do(w1, node, Commit(id)) == AfterCommit(w, u, id, c.name, c.row.version, c.plaintext, c.now)
  {
    var w1 := w.(clients := w.clients[id := c]);
    assert ClientsAfterCommit(w1.clients, id, true) == w.clients[id := Applying(c.name, c.row.version, c.plaintext, c.now)];
  }

  /** One rotation from its read to its commit. */
  lemma RotationCommits(w: World, node: U64, id: nat, n: string, token: string, at: I64, f: E.Fresh, c: Client, u: Tables)
    requires Appliable(w.tables, n) && Allowed(w, StartRotate(id, n, token, at, f)) && |f.nonce| == E.NONCE_LEN
    requires BeginRotate(w.tables, n, token, at, f) == Some(c) && c.Rotating? && u == Apply(w.tables, node, CommandOf(c)).0
    ensures ReachesSparing(w, node, UpToCommit(id, n, token, at, f), AfterCommit(w, u, id, n, c.row.version, c.plaintext, at), n)
  {
    BeginsWith(w.tables, n, token, at, f);
    RotationLeaves(w.tables, node, n, token, at, f, c, u);
    StartDoes(w, node, id, n, token, at, f, c);
    CommitDoes(w, node, id, c, u);
    TwoSparing(w, node, StartRotate(id, n, token, at, f), Commit(id), n);
  }

  lemma TwoSparing(w: World, node: U64, a: Step, b: Step, n: string)
    requires Allowed(w, a) && Spares(a, n) && Allowed(Do(w, node, a), b) && Spares(b, n)
    ensures ReachesSparing(w, node, [a, b], Do(Do(w, node, a), node, b), n)
  {
    OneSparing(w, node, a, n);
    OneSparing(Do(w, node, a), node, b, n);
    SparingRunsOn(w, node, [a], Do(w, node, a), [b], Do(Do(w, node, a), node, b), n);
    assert [a] + [b] == [a, b];
  }

  lemma OneSparing(w: World, node: U64, step: Step, n: string)
    requires Allowed(w, step) && Spares(step, n)
    ensures ReachesSparing(w, node, [step], Do(w, node, step), n)
  {
    assert [step][1..] == [];
  }

  lemma {:induction false} SparingRunsOn(w: World, node: U64, a: seq<Step>, mid: World, b: seq<Step>, last: World, n: string)
    requires ReachesSparing(w, node, a, mid, n) && ReachesSparing(mid, node, b, last, n)
    ensures ReachesSparing(w, node, a + b, last, n)
    decreases |a|
  {
    if a == [] {
      assert a + b == b;
    } else {
      assert (a + b)[1..] == a[1..] + b;
      SparingRunsOn(Do(w, node, a[0]), node, a[1..], mid, b, last, n);
    }
  }

  /** Two rotations, the second begun after the first has committed and before it applies. */
  function Overlap(n: string, a: string, at: I64, f: E.Fresh, b: string, bt: I64, g: E.Fresh): seq<Step> {
    UpToCommit(1, n, a, at, f) + UpToCommit(2, n, b, bt, g)
  }

  /**
   * The failing run: applies are not ordered with commits. Two rotations of one secret both win, the newer one applies
   * first, and the older one then puts the superseded password back; both requests report success.
   */
  lemma OverlappingAppliesFallBehind(t: Tables, node: U64, external: map<string, string>, n: string,
                                     a: string, at: I64, f: E.Fresh, b: string, bt: I64, g: E.Fresh)
    requires Appliable(t, n) && t.secrets[n].currentVersion + 1 < I32_MAX && a != b
    requires |f.nonce| == |g.nonce| == E.NONCE_LEN
    ensures exists mid ::
              && ReachesSparing(World(t, map[], external, []), node, Overlap(n, a, at, f, b, bt, g), mid, n)
              && CrossesTo(mid, node, n, external[n := a])
  {
    BeginsWith(t, n, a, at, f);
    var c := BeginRotate(t, n, a, at, f).value;
    var u := Apply(t, node, CommandOf(c)).0;
    RotationLeaves(t, node, n, a, at, f, c, u);
    BeginsWith(u, n, b, bt, g);
    var d := BeginRotate(u, n, b, bt, g).value;
    var v := Apply(u, node, CommandOf(d)).0;
    RotationLeaves(u, node, n, b, bt, g, d, v);
    var w0 := World(t, map[], external, []);
    OverlapReaches(w0, node, n, a, at, f, c, u, b, bt, g, d, v);
    BothAre(t, external, n, c, u, d, v);
    var mid := BothCommitted(w0, n, c, u, d, v);
    AppliesCross(mid, node, n, Win(n, c.row.version, 1, c.plaintext), at, Win(n, d.row.version, 2, d.plaintext), bt, external);
  }

  /** Both about to apply. */
  function BothCommitted(w0: World, n: string, c: Client, u: Tables, d: Client, v: Tables): World
    requires c.Rotating? && d.Rotating?
  {
    AfterCommit(AfterCommit(w0, u, 1, n, c.row.version, c.plaintext, c.now), v, 2, n, d.row.version, d.plaintext, d.now)
  }

  lemma OverlapReaches(w0: World, node: U64, n: string, a: string, at: I64, f: E.Fresh, c: Client, u: Tables,
                       b: string, bt: I64, g: E.Fresh, d: Client, v: Tables)
    requires Appliable(w0.tables, n) && Appliable(u, n) && |f.nonce| == |g.nonce| == E.NONCE_LEN
    requires w0.clients == map[] && w0.wins == []
    requires BeginRotate(w0.tables, n, a, at, f) == Some(c) && c.Rotating? && u == Apply(w0.tables, node, CommandOf(c)).0
    requires BeginRotate(u, n, b, bt, g) == Some(d) && d.Rotating? && v == Apply(u, node, CommandOf(d)).0
    requires c.now == at && d.now == bt
    ensures ReachesSparing(w0, node, Overlap(n, a, at, f, b, bt, g), BothCommitted(w0, n, c, u, d, v), n)
  {
    var w2 := AfterCommit(w0, u, 1, n, c.row.version, c.plaintext, at);
    RotationCommits(w0, node, 1, n, a, at, f, c, u);
    RotationCommits(w2, node, 2, n, b, bt, g, d, v);
    SparingRunsOn(w0, node, UpToCommit(1, n, a, at, f), w2, UpToCommit(2, n, b, bt, g), BothCommitted(w0, n, c, u, d, v), n);
  }

  lemma BothAre(t: Tables, external: map<string, string>, n: string, c: Client, u: Tables, d: Client, v: Tables)
    requires c.Rotating? && d.Rotating?
    ensures var mid := BothCommitted(World(t, map[], external, []), n, c, u, d, v);
            && mid.tables == v && mid.external == external
            && mid.wins == [Win(n, c.row.version, 1, c.plaintext), Win(n, d.row.version, 2, d.plaintext)]
            && mid.clients == map[1 := Applying(n, c.row.version, c.plaintext, c.now), 2 := Applying(n, d.row.version, d.plaintext, d.now)]
  {
  }

  /** The second applies and is in step, then the first applies and is not; no request is left. */
  ghost predicate CrossesTo(w: World, node: U64, n: string, external: map<string, string>) {
    Allowed(w, ApplyTarget(2, true)) &&
    var w5 := Do(w, node, ApplyTarget(2, true));
    Allowed(w5, ApplyTarget(1, true)) &&
    var w6 := Do(w5, node, ApplyTarget(1, true));
    InStep(w5, n) && !InStep(w6, n) && w6.clients == map[] && w6.external == external
  }

  lemma AppliesCross(w: World, node: U64, n: string, a: Win, at: I64, b: Win, bt: I64, external: map<string, string>)
    requires a.plaintext.UserPass? && b.plaintext.UserPass? && a.plaintext.password != b.plaintext.password
    requires a.name == b.name == n && a.version < b.version
    requires n in w.tables.secrets && w.tables.secrets[n].currentVersion == b.version && w.wins == [a, b]
    requires w.clients == map[1 := Applying(n, a.version, a.plaintext, at), 2 := Applying(n, b.version, b.plaintext, bt)]
    requires w.external == external
    ensures CrossesTo(w, node, n, external[n := a.plaintext.password])
  {
    var w5 := Do(w, node, ApplyTarget(2, true));
    assert w5.clients == map[1 := Applying(n, a.version, a.plaintext, at)];
    assert b in w5.wins && HoldsPasswordOf(w5.external, n, b);
    var w6 := Do(w5, node, ApplyTarget(1, true));
    assert w6.wins == [a, b] && w6.external == external[n := a.plaintext.password];
  }
}
