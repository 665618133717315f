/**
 * Concurrent requests on secrets: each reads, then commits later, then maybe applies its password to an
 * external system, with any interleaving in between.
 */
module Rotation {
  import opened Base
  import opened Keys
  import opened Model
  import opened Effects
  import opened Backup
  import opened CurrentVersion
  import opened Service
  import E = Envelope

  // ----- the machine -----

  /** One committed version: whose it was and what it stored. */
  datatype Win = Win(name: string, version: I32, id: nat, plaintext: Plaintext)

  /** `wins` lists every version a client committed, in the order of the commits; nothing leaves it. */
  datatype World = World(
    tables: Tables,
    clients: map<nat, Client>,
    external: map<string, string>,
    wins: seq<Win>)

  datatype Step =
    | Create(req: CreateRequest, plaintext: Plaintext, now: I64, f: E.Fresh)
    | StartRotate(id: nat, name: string, token: string, now: I64, f: E.Fresh)
    | StartUpdate(id: nat, name: string, request: UpdateRequest, now: I64, f: E.Fresh)
    | Commit(id: nat)
    | ApplyTarget(id: nat, succeeded: bool)
    | Other(command: Command)

  /** Writers of secret metadata are the requests themselves; a restore takes a backup of a sound vault. */
  ghost predicate OtherWriter(c: Command) {
    && !c.CreateSecret? && !c.PutVersion? && !c.UpdateMeta?
    && (c.RestoreDatabase? ==> exists g: Tables :: Good(g) && Scheduled(g.secrets) && c.data == Dump(g))
  }

  ghost predicate Allowed(w: World, step: Step) {
    match step
    case Create(_, _, _, _) => true
    case StartRotate(id, _, _, _, _) => id !in w.clients && forall i :: 0 <= i < |w.wins| ==> w.wins[i].id != id
    case StartUpdate(id, _, _, _, _) => id !in w.clients && forall i :: 0 <= i < |w.wins| ==> w.wins[i].id != id
    case Commit(id) => id in w.clients && !w.clients[id].Applying?
    case ApplyTarget(id, _) => id in w.clients && w.clients[id].Applying?
    case Other(c) => OtherWriter(c)
  }

  function Started(w: World, id: nat, c: Option<Client>): World {
    if c.None? then w else w.(clients := w.clients[id := c.value])
  }

  predicate HasTarget(s: SecretRecord) {
    s.target.Some? && s.format == Userpass
  }

  /** After its commit a rotation goes on only if it won and the secret has an external target. */
  function ClientsAfterCommit(clients: map<nat, Client>, id: nat, won: bool): map<nat, Client>
    requires id in clients
  {
    var c := clients[id];
    if won && c.Rotating? && HasTarget(c.secret) && c.plaintext.UserPass?
    then clients[id := Applying(c.name, c.row.version, c.plaintext, c.now)]
    else clients - {id}
  }

  function WinsAfterCommit(w: World, id: nat, won: bool): seq<Win>
    requires id in w.clients
  {
    var c := w.clients[id];
    if won && (c.Rotating? || c.Replacing?) then w.wins + [Win(c.name, c.row.version, id, c.plaintext)] else w.wins
  }

  ghost function Do(w: World, node: U64, step: Step): World
    requires Allowed(w, step)
  {
    match step
    case Create(req, p, now, f) =>
      var c := BuildCreate(w.tables, req, p, now, f);
      if c.None? then w else w.(tables := Apply(w.tables, node, c.value).0)
    case StartRotate(id, name, token, now, f) => Started(w, id, BeginRotate(w.tables, name, token, now, f))
    case StartUpdate(id, name, req, now, f) => Started(w, id, BeginUpdate(w.tables, name, req, now, f))
    case Commit(id) =>
      var (tables, outcome) := Apply(w.tables, node, CommandOf(w.clients[id]));
      World(tables, ClientsAfterCommit(w.clients, id, outcome == Ok), w.external, WinsAfterCommit(w, id, outcome == Ok))
    case ApplyTarget(id, succeeded) =>
      var c := w.clients[id];
      if succeeded && c.plaintext.UserPass?
      then w.(external := w.external[c.name := c.plaintext.password], clients := w.clients - {id})
      else w.(clients := w.clients[id := Retrying(c.name, c.version, c.now)])
    case Other(c) => w.(tables := Apply(w.tables, node, c).0)
  }

  // ----- the scheduler's invariant -----

  /** Manual secrets have no timer; automatic ones have a timer and a positive interval. */
  predicate HasRightTimer(s: SecretRecord) {
    if s.kind == Manual then s.nextRotationAt.None?
    else s.nextRotationAt.Some? && s.rotationInterval.Some? && s.rotationInterval.value > 0
  }

  ghost predicate Scheduled(secrets: Secrets) {
    forall n :: n in secrets ==> HasRightTimer(secrets[n])
  }

  predicate SetsTimer(c: Client) {
    c.Rotating? || c.Retrying? || (c.Replacing? && c.secret.kind == Automatic)
    || (c.Describing? && c.secret.kind == Automatic && c.request.interval.Some?)
  }

  /** A client's commit onto a rightly timed secret leaves it so unless the secret turned manual meanwhile. */
  lemma CommitKeepsTimerIff(t: Tables, node: U64, c: Client)
    requires WellBegun(c) && !c.Applying? && c.name in t.secrets && HasRightTimer(t.secrets[c.name])
    requires Apply(t, node, CommandOf(c)).1 == Ok
    ensures c.name in Apply(t, node, CommandOf(c)).0.secrets
    ensures HasRightTimer(Apply(t, node, CommandOf(c)).0.secrets[c.name]) <==>
            t.secrets[c.name].kind == Automatic || !SetsTimer(c)
  {
    var s, u := t.secrets[c.name], Apply(t, node, CommandOf(c)).0;
    var meta := CommandOf(c).meta;
    assert u.secrets[c.name] == WithMeta(s, meta) ||
           u.secrets[c.name] == WithMeta(s.(currentVersion := u.secrets[c.name].currentVersion), meta);
    assert meta.nextRotation.Set? <==> SetsTimer(c);
  }

  lemma BuildsAlone(node: U64, req: CreateRequest, p: Plaintext, now: I64, f: E.Fresh)
    requires BuildCreate(EMPTY_TABLES, req, p, now, f).Some?
    ensures var c := BuildCreate(EMPTY_TABLES, req, p, now, f).value;
            && c.secret.name == req.name && c.secret.kind == req.kind && HasRightTimer(c.secret)
            && Apply(EMPTY_TABLES, node, c).0 ==
               EMPTY_TABLES.(secrets := map[req.name := c.secret], versions := map[VersionKey(req.name, 1) := c.row])
  {
    var c := BuildCreate(EMPTY_TABLES, req, p, now, f).value;
    CreateAlone(node, c.secret, c.row);
  }

  /**
   * The failing run: a rotation reads an automatic secret, the secret is deleted and created again as manual,
   * and the rotation then commits. A manual secret is left with a timer, and no rotation will ever accept it.
   */
  lemma KindChangeBreaksSchedule(node: U64, req: CreateRequest, manual: CreateRequest, p: Plaintext, now: I64,
                                 f: E.Fresh, token: string)
    requires NormalizedName(req.name) && req.kind == Automatic && req.format == Opaque && ValidGrace(req.grace)
    requires req.interval.Some? && ValidInterval(req.interval)
    requires manual == req.(kind := Manual)
    ensures var w0 := World(EMPTY_TABLES, map[], map[], []);
            var w1 := Do(w0, node, Create(req, p, now, f));
            var read := StartRotate(1, req.name, token, now, f);
            Allowed(w1, read) &&
            var w2 := Do(w1, node, read);
            Allowed(w2, Other(DeleteSecret(req.name))) &&
            var w3 := Do(w2, node, Other(DeleteSecret(req.name)));
            var w4 := Do(w3, node, Create(manual, p, now, f));
            Allowed(w4, Commit(1)) &&
            var w5 := Do(w4, node, Commit(1));
            && Safe(w2) && Scheduled(w4.tables.secrets) && !Scheduled(w5.tables.secrets)
            && req.name in w5.tables.secrets && IsManualWithTimer(w5.tables.secrets[req.name])
            && (forall again, at, g :: BeginRotate(w5.tables, req.name, again, at, g).None?)
  {
    ReadsAlone(node, req, p, now, f, token);
    var t := Apply(EMPTY_TABLES, node, BuildCreate(EMPTY_TABLES, req, p, now, f).value).0;
    var c := BeginRotate(t, req.name, token, now, f).value;
    RecreatesAlone(node, req, manual, p, now, f, c);
    BuildsAlone(node, manual, p, now, f);
    TimerOnManual(Apply(EMPTY_TABLES, node, BuildCreate(EMPTY_TABLES, manual, p, now, f).value).0, node, c);
  }

  /** The only secret is deleted under a client and created again from another request. */
  lemma RecreatesAlone(node: U64, req: CreateRequest, again: CreateRequest, p: Plaintext, now: I64, f: E.Fresh, c: Client)
    requires BuildCreate(EMPTY_TABLES, req, p, now, f).Some? && BuildCreate(EMPTY_TABLES, again, p, now, f).Some?
    ensures var t := Apply(EMPTY_TABLES, node, BuildCreate(EMPTY_TABLES, req, p, now, f).value).0;
            var w2 := World(t, map[1 := c], map[], []);
            Allowed(w2, Other(DeleteSecret(req.name))) &&
            Do(Do(w2, node, Other(DeleteSecret(req.name))), node, Create(again, p, now, f)) ==
            w2.(tables := Apply(EMPTY_TABLES, node, BuildCreate(EMPTY_TABLES, again, p, now, f).value).0)
  {
    BuildsAlone(node, req, p, now, f);
    var made := BuildCreate(EMPTY_TABLES, req, p, now, f).value;
    DeleteAlone(node, made.secret, made.row);
  }

  /** A rotation that read the only secret. */
  lemma ReadsAlone(node: U64, req: CreateRequest, p: Plaintext, now: I64, f: E.Fresh, token: string)
    requires BuildCreate(EMPTY_TABLES, req, p, now, f).Some? && req.kind == Automatic && req.format == Opaque
    ensures var w0 := World(EMPTY_TABLES, map[], map[], []);
            var w1 := Do(w0, node, Create(req, p, now, f));
            var read := StartRotate(1, req.name, token, now, f);
            var begun := BeginRotate(w1.tables, req.name, token, now, f);
            && w1 == w0.(tables := Apply(EMPTY_TABLES, node, BuildCreate(EMPTY_TABLES, req, p, now, f).value).0)
            && Allowed(w1, read) && begun.Some? && begun.value.Rotating? && begun.value.secret.currentVersion == 1
            && begun.value.name == req.name && WellBegun(begun.value)
            && Do(w1, node, read) == w1.(clients := map[1 := begun.value]) && Safe(Do(w1, node, read))
  {
    var w0 := World(EMPTY_TABLES, map[], map[], []);
    BuildsAlone(node, req, p, now, f);
    CreateSafe(w0, node, req, p, now, f);
    ClientStepSafe(Do(w0, node, Create(req, p, now, f)), node, StartRotate(1, req.name, token, now, f));
  }

  lemma TimerOnManual(t: Tables, node: U64, c: Client)
    requires c.Rotating? && WellBegun(c) && c.name in t.secrets && HasRightTimer(t.secrets[c.name])
    requires t.secrets[c.name].kind == Manual && Apply(t, node, CommandOf(c)).1 == Ok
    ensures var u := Apply(t, node, CommandOf(c)).0;
            && c.name in u.secrets && IsManualWithTimer(u.secrets[c.name]) && !Scheduled(u.secrets)
            && (forall again, at, g :: BeginRotate(u, c.name, again, at, g).None?)
  {
    CommitKeepsTimerIff(t, node, c);
    CommitTouchesOne(t, node, c);
  }

  predicate IsManualWithTimer(s: SecretRecord) {
    s.kind == Manual && s.nextRotationAt.Some?
  }

  // ----- calm runs: no secret disappears under a request -----

  ghost predicate Calm(w: World, step: Step) {
    step.Other? ==>
      && (step.command.RestoreDatabase? ==> w.clients == map[])
      && (step.command.DeleteSecret? ==> forall id :: id in w.clients ==> w.clients[id].name != step.command.name)
  }

  ghost predicate ClientFits(secrets: Secrets, c: Client) {
    WellBegun(c) && c.name in secrets && secrets[c.name].kind == KindSeen(c)
  }

  ghost predicate ClientsFit(secrets: Secrets, clients: map<nat, Client>) {
    forall id :: id in clients ==> ClientFits(secrets, clients[id])
  }

  ghost predicate Safe(w: World) {
    Good(w.tables) && Scheduled(w.tables.secrets) && ClientsFit(w.tables.secrets, w.clients)
  }

  /** Other writers replace no secret: at most they remove one. */
  lemma OtherKeepsSecrets(t: Tables, node: U64, c: Command)
    requires OtherWriter(c) && !c.RestoreDatabase?
    ensures var u := Apply(t, node, c).0;
            u.secrets == t.secrets || (c.DeleteSecret? && u.secrets == t.secrets - {c.name})
  {
    if c.DeleteSecret? {
      assert DeleteSecretEffect(t, c.name).0.secrets == if c.name in t.secrets then t.secrets - {c.name} else t.secrets;
    } else {
      assert Apply(t, node, c).0.secrets == t.secrets;
    }
  }

  lemma RestoreKeepsSchedule(t: Tables, g: Tables)
    requires Good(t) && Scheduled(t.secrets) && Good(g) && Scheduled(g.secrets)
    ensures Scheduled(RestoreEffect(t, Dump(g)).0.secrets)
  {
    if RestoreEffect(t, Dump(g)).1 == Ok {
      DumpAcceptedIff(g);
      RestoreOfDump(g, t);
    }
  }

  lemma OtherSafe(w: World, node: U64, c: Command)
    requires Safe(w) && OtherWriter(c) && Calm(w, Other(c))
    ensures Safe(Do(w, node, Other(c)))
  {
    assert ServiceShaped(c);
    StepKeepsGood(w.tables, node, c);
    if c.RestoreDatabase? {
      var g: Tables :| Good(g) && Scheduled(g.secrets) && c.data == Dump(g);
      RestoreKeepsSchedule(w.tables, g);
    } else {
      OtherKeepsSecrets(w.tables, node, c);
      var u := Apply(w.tables, node, c).0;
      forall id | id in w.clients ensures ClientFits(u.secrets, w.clients[id]) {
        assert ClientFits(w.tables.secrets, w.clients[id]);
      }
    }
  }

  lemma CreateSafe(w: World, node: U64, req: CreateRequest, p: Plaintext, now: I64, f: E.Fresh)
    requires Safe(w)
    ensures Safe(Do(w, node, Create(req, p, now, f)))
  {
    var built := BuildCreate(w.tables, req, p, now, f);
    if built.Some? {
      var c := built.value;
      var u := Apply(w.tables, node, c).0;
      CreatesAreShaped(w.tables, req, p, now, f);
      StepKeepsGood(w.tables, node, c);
      assert u.secrets == w.tables.secrets || (c.secret.name !in w.tables.secrets && u.secrets == w.tables.secrets[c.secret.name := c.secret]);
      forall id | id in w.clients ensures ClientFits(u.secrets, w.clients[id]) {
        assert ClientFits(w.tables.secrets, w.clients[id]);
      }
    }
  }

  /** The same secrets with the same kinds, and only the named one changed. */
  ghost predicate TouchesOne(before: Secrets, after: Secrets, name: string) {
    && after.Keys == before.Keys
    && (forall n :: n in before ==> after[n].kind == before[n].kind)
    && (forall n :: n in before && n != name ==> after[n] == before[n])
  }

  lemma UpdateTouchesOne(t: Tables, name: string, expected: I32, meta: MetaChange)
    ensures TouchesOne(t.secrets, UpdateMetaEffect(t, name, expected, meta).0.secrets, name)
  {
    var u := UpdateMetaEffect(t, name, expected, meta).0;
    assert u.secrets == t.secrets || (name in t.secrets && u.secrets == t.secrets[name := WithMeta(t.secrets[name], meta)]);
  }

  lemma PutTouchesOne(t: Tables, name: string, expected: I32, row: VersionRecord, e: OptTime, meta: MetaChange)
    ensures TouchesOne(t.secrets, PutVersionEffect(t, name, expected, row, e, meta).0.secrets, name)
  {
    var u := PutVersionEffect(t, name, expected, row, e, meta).0;
    assert u.secrets == t.secrets ||
           (name in t.secrets && u.secrets == t.secrets[name := WithMeta(t.secrets[name].(currentVersion := row.version), meta)]);
  }

  lemma CommitTouchesOne(t: Tables, node: U64, c: Client)
    requires !c.Applying?
    ensures TouchesOne(t.secrets, Apply(t, node, CommandOf(c)).0.secrets, c.name)
  {
    match CommandOf(c) {
      case PutVersion(name, expected, row, e, meta) => PutTouchesOne(t, name, expected, row, e, meta);
      case UpdateMeta(name, expected, meta) => UpdateTouchesOne(t, name, expected, meta);
      case _ =>
    }
  }

  lemma CommitKeepsSchedule(t: Tables, node: U64, c: Client)
    requires Scheduled(t.secrets) && ClientFits(t.secrets, c) && !c.Applying?
    ensures Scheduled(Apply(t, node, CommandOf(c)).0.secrets)
  {
    CommitTouchesOne(t, node, c);
    if Apply(t, node, CommandOf(c)).1 == Ok {
      CommitKeepsTimerIff(t, node, c);
    } else {
      RejectionChangesNothing(t, node, CommandOf(c));
    }
  }

  lemma ClientsStillFit(before: Secrets, after: Secrets, clients: map<nat, Client>, id: nat, won: bool)
    requires id in clients && ClientsFit(before, clients) && TouchesOne(before, after, clients[id].name)
    ensures ClientsFit(after, ClientsAfterCommit(clients, id, won))
  {
    var left := ClientsAfterCommit(clients, id, won);
    forall i | i in left ensures ClientFits(after, left[i]) {
      assert ClientFits(before, clients[i]);
    }
  }

  lemma CommitSafe(w: World, node: U64, id: nat)
    requires Safe(w) && id in w.clients && !w.clients[id].Applying?
    ensures Safe(Do(w, node, Commit(id)))
  {
    var c := w.clients[id];
    assert ClientFits(w.tables.secrets, c);
    CommitsAreShaped(c);
    StepKeepsGood(w.tables, node, CommandOf(c));
    CommitKeepsSchedule(w.tables, node, c);
    CommitTouchesOne(w.tables, node, c);
    var (u, outcome) := Apply(w.tables, node, CommandOf(c));
    ClientsStillFit(w.tables.secrets, u.secrets, w.clients, id, outcome == Ok);
  }

  lemma ClientStepSafe(w: World, node: U64, step: Step)
    requires Safe(w) && Allowed(w, step) && (step.StartRotate? || step.StartUpdate? || step.ApplyTarget?)
    ensures Safe(Do(w, node, step))
  {
    match step
    case StartRotate(id, name, token, now, f) =>
      BegunIsWellBegun(w.tables, name, token, UpdateRequest(None, None, None, None, None, None), now, f);
    case StartUpdate(id, name, req, now, f) => BegunIsWellBegun(w.tables, name, "", req, now, f);
    case ApplyTarget(id, _) => assert ClientFits(w.tables.secrets, w.clients[id]);
    case _ =>
  }

  lemma StepSafe(w: World, node: U64, step: Step)
    requires Safe(w) && Allowed(w, step) && Calm(w, step)
    ensures Safe(Do(w, node, step))
  {
    match step
    case Create(req, p, now, f) => CreateSafe(w, node, req, p, now, f);
    case Commit(id) => CommitSafe(w, node, id);
    case Other(c) => OtherSafe(w, node, c);
    case _ => ClientStepSafe(w, node, step);
  }

  ghost predicate Reaches(w: World, node: U64, steps: seq<Step>, last: World)
    decreases |steps|
  {
    if steps == [] then w == last
    else Allowed(w, steps[0]) && Calm(w, steps[0]) && Reaches(Do(w, node, steps[0]), node, steps[1..], last)
  }

  /**
   * Whatever creates, rotations, updates, failed applies, retries, deletes and restores interleave, every
   * manual secret has no timer and every automatic one has a timer and a positive interval, provided no
   * secret is removed under a request.
   */
  lemma {:induction false} ScheduleHolds(w: World, node: U64, steps: seq<Step>, last: World)
    requires Safe(w) && Reaches(w, node, steps, last)
    ensures Safe(last)
    decreases |steps|
  {
    if steps != [] {
      StepSafe(w, node, steps[0]);
      ScheduleHolds(Do(w, node, steps[0]), node, steps[1..], last);
    }
  }
}
