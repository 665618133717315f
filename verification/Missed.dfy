/** What a finished re-wrap pass can miss, as concrete runs. */
module Missed {
  import opened Base
  import opened Keys
  import opened Model
  import opened Effects
  import opened CurrentVersion
  import opened Grace
  import opened Readers
  import opened Service
  import opened Rewrap
  import opened Sweep
  import RewrapPass
  import E = Envelope

  /** The tables that hold one secret and its rows. */
  function One(s: SecretRecord, rows: map<string, VersionRecord>): Tables {
    EMPTY_TABLES.(secrets := map[s.name := s], versions := rows)
  }

  lemma OnlyRowListed(s: SecretRecord, row: VersionRecord, now: I64)
    requires ValidName(s.name) && row.version == 1 && row.expiresAt.None?
    ensures LiveList(map[VersionKey(s.name, 1) := row], s.name, now, [row])
  {
    forall v: I32 | Live(map[VersionKey(s.name, 1) := row], s.name, v, now) ensures v == 1 {
      KeyInjective(s.name, v, s.name, 1);
    }
  }

  lemma OneStep(p: Pass, node: U64, step: Step)
    requires Allowed(p, step)
    ensures RunsTo(p, node, [step], Do(p, node, step))
  {
    assert [step][1..] == [];
  }

  lemma {:induction false} RunsOn(p: Pass, node: U64, a: seq<Step>, mid: Pass, b: seq<Step>, last: Pass)
    requires RunsTo(p, node, a, mid) && RunsTo(mid, node, b, last)
    ensures RunsTo(p, node, a + b, last)
    decreases |a|
  {
    if a == [] {
      assert a + b == b;
    } else {
      assert (a + b)[1..] == a[1..] + b;
      RunsOn(Do(p, node, a[0]), node, a[1..], mid, b, last);
    }
  }

  /** A pass at the only row of the only secret. */
  function AtOne(s: SecretRecord, row: VersionRecord, now: I64, target: I64): Pass {
    Begin(One(s, map[VersionKey(s.name, 1) := row]), now, target).(
      todo := Some([]), name := s.name, rows := [row], seen := map[s.name := 1], listed := {(s.name, 1)})
  }

  lemma ListsOne(node: U64, s: SecretRecord, row: VersionRecord, now: I64, target: I64)
    requires ValidName(s.name) && s.currentVersion == 1 && row.version == 1 && row.expiresAt.None?
    ensures RunsTo(Begin(One(s, map[VersionKey(s.name, 1) := row]), now, target), node, [ListSecrets([s.name]), ListRows([row])],
                   AtOne(s, row, now, target))
  {
    var p0 := Begin(One(s, map[VersionKey(s.name, 1) := row]), now, target);
    OnlyRowListed(s, row, now);
    var p1 := Do(p0, node, ListSecrets([s.name]));
    var p2 := Do(p1, node, ListRows([row]));
    assert [s.name][1..] == [];
    assert (set r | r in [row] :: (s.name, r.version)) == {(s.name, 1)} by { assert row in [row]; }
    assert p2 == AtOne(s, row, now, target);
    OneStep(p0, node, ListSecrets([s.name]));
    OneStep(p1, node, ListRows([row]));
    RunsOn(p0, node, [ListSecrets([s.name])], p1, [ListRows([row])], p2);
    assert [ListSecrets([s.name])] + [ListRows([row])] == [ListSecrets([s.name]), ListRows([row])];
  }

  /** What the pass leaves: the row moved, the target marked. */
  function MarkedOne(s: SecretRecord, moved: VersionRecord, now: I64, target: I64, at: I64): Pass {
    AtOne(s, moved, now, target).(rows := [], tables := Marked(One(s, map[VersionKey(s.name, 1) := moved]), target, at))
  }

  predicate OwnKey(s: SecretRecord, row: VersionRecord, dek: Dek) {
    row.wrappedDek.WrappedKey? && row.wrappedDek.keyId == row.kmsKeyId && row.wrappedDek.dek == dek
    && row.wrappedDek.context == KeyContext(s.name, 1)
  }

  lemma MovesOne(node: U64, s: SecretRecord, row: VersionRecord, moved: VersionRecord, dek: Dek, now: I64, target: I64,
                 keyId: string, salt: nat, at: I64)
    requires row.version == 1 && NeedsRewrap(row, target) && OwnKey(s, row, dek)
    requires moved == Rewrapped(row, keyId, WrappedKey(dek, keyId, KeyContext(s.name, 1), salt), target)
    ensures RunsTo(AtOne(s, row, now, target), node, [Reencrypt(keyId, salt), CommitRow, Mark(at)],
                   MarkedOne(s, moved, now, target, at))
  {
    var p2 := AtOne(s, row, now, target);
    var key := VersionKey(s.name, 1);
    var p3 := Do(p2, node, Reencrypt(keyId, salt));
    var p4 := Do(p3, node, CommitRow);
    assert [row][1..] == [];
    assert p4.tables.versions == map[key := moved];
    assert p4 == p2.(tables := One(s, map[key := moved]), rows := []);
    OneStep(p2, node, Reencrypt(keyId, salt));
    OneStep(p3, node, CommitRow);
    OneStep(p4, node, Mark(at));
    RunsOn(p3, node, [CommitRow], p4, [Mark(at)], Do(p4, node, Mark(at)));
    RunsOn(p2, node, [Reencrypt(keyId, salt)], p3, [CommitRow] + [Mark(at)], Do(p4, node, Mark(at)));
    assert [Reencrypt(keyId, salt)] + ([CommitRow] + [Mark(at)]) == [Reencrypt(keyId, salt), CommitRow, Mark(at)];
  }

  /** A version committed onto the marked tables under the generation of before. */
  lemma LateCommit(node: U64, s: SecretRecord, moved: VersionRecord, c: Client, target: I64, at: I64, now: I64)
    requires ValidName(s.name) && s.currentVersion == 1 && moved.version == 1
    requires c.Rotating? && WellBegun(c) && c.name == s.name && c.secret.currentVersion == 1 && c.row.wrappedRotationAt == Some(0)
    requires target > 0
    ensures var t := Marked(One(s, map[VersionKey(s.name, 1) := moved]), target, at);
            var (u, outcome) := Apply(t, node, CommandOf(c));
            && outcome == Ok && Watermark(u) == Some(target) && s.name in u.secrets && u.secrets[s.name].currentVersion == 2
            && Live(u.versions, s.name, 2, now) && NeedsRewrap(u.versions[VersionKey(s.name, 2)], target)
  {
    var t := Marked(One(s, map[VersionKey(s.name, 1) := moved]), target, at);
    RowKey(s.name, 1);
    RowKey(s.name, 2);
    var u := Apply(t, node, CommandOf(c)).0;
    assert u.kmsRewrap == t.kmsRewrap;
  }

  /** The steps of a pass over one row. */
  function PassSteps(name: string, row: VersionRecord, keyId: string, salt: nat, at: I64): seq<Step> {
    [ListSecrets([name]), ListRows([row])] + [Reencrypt(keyId, salt), CommitRow, Mark(at)]
  }

  lemma CommitAfterPass(node: U64, s: SecretRecord, row: VersionRecord, dek: Dek, c: Client, now: I64, target: I64,
                        keyId: string, salt: nat, at: I64)
    requires ValidName(s.name) && s.currentVersion == 1 && row.version == 1 && row.expiresAt.None? && target > 0
    requires NeedsRewrap(row, target) && OwnKey(s, row, dek)
    requires c.Rotating? && WellBegun(c) && c.name == s.name && c.secret.currentVersion == 1 && c.row.wrappedRotationAt == Some(0)
    ensures exists last :: IsMissed(last, s.name, target, now) &&
              RunsTo(Begin(One(s, map[VersionKey(s.name, 1) := row]), now, target), node,
                     PassSteps(s.name, row, keyId, salt, at) + [Other(CommandOf(c))], last)
  {
    var p0 := Begin(One(s, map[VersionKey(s.name, 1) := row]), now, target);
    var moved := Rewrapped(row, keyId, WrappedKey(dek, keyId, KeyContext(s.name, 1), salt), target);
    var marked := MarkedOne(s, moved, now, target, at);
    ListsOne(node, s, row, now, target);
    MovesOne(node, s, row, moved, dek, now, target, keyId, salt, at);
    LateCommit(node, s, moved, c, target, at, now);
    CommitsAreShaped(c);
    RunsOn(p0, node, [ListSecrets([s.name]), ListRows([row])], AtOne(s, row, now, target),
           [Reencrypt(keyId, salt), CommitRow, Mark(at)], marked);
    OneStep(marked, node, Other(CommandOf(c)));
    var last := Do(marked, node, Other(CommandOf(c)));
    RunsOn(p0, node, PassSteps(s.name, row, keyId, salt, at), marked, [Other(CommandOf(c))], last);
    assert IsMissed(last, s.name, target, now);
  }

  /**
   * The failing run. A secret is created; a rotation of it reads and seals; a pass to `target` lists the secret,
   * re-wraps its only row and marks the target, without a failure; then the rotation commits. The watermark says
   * every row carries the target, the current row does not, and the worker has no reason to come back for it.
   */
  lemma RotationMissedByPass(node: U64, req: CreateRequest, p: Plaintext, f: E.Fresh, g: E.Fresh, token: string,
                             now: I64, target: I64, keyId: string, salt: nat, at: I64)
    requires NormalizedName(req.name) && req.kind == Automatic && req.format == Opaque && ValidGrace(req.grace)
    requires req.interval.Some? && ValidInterval(req.interval) && target > 0
    ensures var made := BuildCreate(EMPTY_TABLES, req, p, now, f);
            made.Some? &&
            var t := Apply(EMPTY_TABLES, node, made.value).0;
            var begun := BeginRotate(t, req.name, token, now, g);
            begun.Some? && !begun.value.Applying? &&
            exists last :: IsMissed(last, req.name, target, now) &&
              RunsTo(Begin(t, now, target), node,
                     PassSteps(req.name, made.value.row, keyId, salt, at) + [Other(CommandOf(begun.value))], last)
  {
    var made := BuildCreate(EMPTY_TABLES, req, p, now, f).value;
    CreateAlone(node, made.secret, made.row);
    var t := Apply(EMPTY_TABLES, node, made).0;
    CommitAfterPass(node, made.secret, made.row, f.dek, BeginRotate(t, req.name, token, now, g).value, now, target, keyId, salt, at);
  }

  /** Finished without a failure and marked, with a live current row below the mark that no later tick will look for. */
  ghost predicate IsMissed(p: Pass, name: string, target: I64, now: I64) {
    && Finished(p) && p.failed == 0 && Watermark(p.tables) == Some(target)
    && name in p.tables.secrets && p.tables.secrets[name].currentVersion == 2
    && Live(p.tables.versions, name, 2, now) && NeedsRewrap(p.tables.versions[VersionKey(name, 2)], target)
    && (forall leader, latest: I64 :: latest <= target ==> RewrapPass.TickPlan(p.tables, leader, Some(Some(latest))).Rest?)
  }

  /** The failing run: an operator's pass to an older rotation than the one marked, over a vault without secrets. */
  lemma OperatorMovesMarkBack(node: U64, marked: I64, target: I64, now: I64)
    requires 0 < target < marked
    ensures var t := Marked(EMPTY_TABLES, marked, now);
            var p0 := Begin(t, now, target);
            Allowed(p0, ListSecrets([])) &&
            var p1 := Do(p0, node, ListSecrets([]));
            Allowed(p1, Mark(now)) &&
            Watermark(Do(p1, node, Mark(now)).tables) == Some(target) && Watermark(t) == Some(marked)
  {
  }
}
