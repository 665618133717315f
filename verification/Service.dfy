/** The requests that change a secret: what each reads, refuses and asks the store to commit. */
module Service {
  import opened Base
  import opened Keys
  import opened Model
  import opened Effects
  import opened CurrentVersion
  import E = Envelope

  const APPLY_RETRY_SECS: I64 := 60

  predicate ValidInterval(secs: Option<I64>) {
    secs.Some? ==> 0 < secs.value <= MAX_ROTATION_INTERVAL_SECS
  }

  predicate ValidGrace(secs: Option<I64>) {
    secs.Some? ==> 0 <= secs.value <= MAX_GRACE_SECS
  }

  // ----- create -----

  /** The parts of a name between slashes. */
  function Segments(name: string): (parts: seq<string>)
    ensures parts != []
  {
    if name == [] then [[]]
    else
      var rest := Segments(name[1..]);
      if name[0] == '/' then [[]] + rest else [[name[0]] + rest[0]] + rest[1..]
  }

  function Joined(parts: seq<string>): string
    requires parts != []
  {
    if |parts| == 1 then parts[0] else parts[0] + "/" + Joined(parts[1..])
  }

  /** Joined by slashes they are the name again, and none contains one. */
  lemma {:induction false} SegmentsAreParts(name: string)
    ensures Joined(Segments(name)) == name
    ensures forall part :: part in Segments(name) ==> '/' !in part
  {
    if name != [] {
      var rest := Segments(name[1..]);
      SegmentsAreParts(name[1..]);
      assert name == [name[0]] + name[1..];
      assert rest == [rest[0]] + rest[1..];
      if name[0] == '/' {
        assert Segments(name)[1..] == rest;
      } else {
        assert Segments(name) == [[name[0]] + rest[0]] + rest[1..];
        assert Segments(name)[1..] == rest[1..];
        assert '/' !in rest[0];
      }
    }
  }

  /** Valid, and with no part that is empty, a dot or two dots. */
  predicate NormalizedName(name: string) {
    ValidName(name) && forall part :: part in Segments(name) ==> part !in ["", ".", ".."]
  }

  datatype CreateRequest = CreateRequest(
    name: string, kind: SecretKind, format: SecretFormat, description: Option<string>,
    interval: Option<I64>, grace: Option<I64>, target: Option<RotationTarget>)

  /** The command of a create request, or the refusal. */
  function BuildCreate(t: Tables, req: CreateRequest, plaintext: Plaintext, now: I64, f: E.Fresh): Option<Command> {
    if !NormalizedName(req.name) || !ValidGrace(req.grace) || !ValidInterval(req.interval) then None
    else if req.kind == Automatic && req.interval.None? then None
    else
      var timer := if req.kind == Automatic then Some(NextRotationUnix(now, req.interval.value)) else None;
      var grace := if req.grace.Some? then req.grace.value else 0;
      Some(CreateSecret(
        SecretRecord(req.name, req.kind, req.format, req.description, req.interval, grace, 1, timer, now, now, req.target),
        E.SealVersion(t, req.name, 1, plaintext, now, f)))
  }

  // ----- a request between its read of the secret and its commit, or after it -----

  datatype UpdateRequest = UpdateRequest(
    description: Option<string>, interval: Option<I64>, grace: Option<I64>,
    value: Option<string>, username: Option<string>, password: Option<string>)

  datatype Client =
    | Rotating(name: string, secret: SecretRecord, plaintext: Plaintext, row: VersionRecord, now: I64)
    | Replacing(name: string, secret: SecretRecord, request: UpdateRequest, plaintext: Plaintext, row: VersionRecord, now: I64)
    | Describing(name: string, secret: SecretRecord, request: UpdateRequest, now: I64)
    | Applying(name: string, version: I32, plaintext: Plaintext, now: I64)
    | Retrying(name: string, version: I32, now: I64)

  function LoadUserpass(t: Tables, name: string, v: I32): Option<Plaintext> {
    var key := VersionKey(name, v);
    if key !in t.versions then None
    else
      var plain := E.OpenVersion(name, v, t.versions[key]);
      if plain.Some? && plain.value.UserPass? then plain else None
  }

  /** The value a rotation generates: a fresh token, under the username the current version holds. */
  function RotatedValue(t: Tables, name: string, s: SecretRecord, token: string): Option<Plaintext> {
    if s.format == Opaque then Some(RawValue(token))
    else
      var current := LoadUserpass(t, name, s.currentVersion);
      if current.None? then None else Some(UserPass(current.value.username, token))
  }

  function BeginRotate(t: Tables, name: string, token: string, now: I64, f: E.Fresh): Option<Client> {
    if name !in t.secrets then None
    else
      var s := t.secrets[name];
      var next, value := NextVersion(s.currentVersion), RotatedValue(t, name, s, token);
      if s.kind != Automatic || next.None? || value.None? then None
      else Some(Rotating(name, s, value.value, E.SealVersion(t, name, next.value, value.value, now, f), now))
  }

  function OrElse<T>(a: Option<T>, b: T): T {
    if a.Some? then a.value else b
  }

  predicate MatchesFormat(format: SecretFormat, req: UpdateRequest) {
    if format == Opaque then req.username.None? && req.password.None? else req.value.None?
  }

  predicate ChangesValue(format: SecretFormat, req: UpdateRequest) {
    if format == Opaque then req.value.Some? else req.username.Some? || req.password.Some?
  }

  function UpdatedValue(t: Tables, name: string, s: SecretRecord, req: UpdateRequest): Option<Plaintext> {
    if s.format == Opaque then Some(RawValue(OrElse(req.value, "")))
    else
      var current := LoadUserpass(t, name, s.currentVersion);
      if current.None? then None
      else Some(UserPass(OrElse(req.username, current.value.username), OrElse(req.password, current.value.password)))
  }

  function BeginUpdate(t: Tables, name: string, req: UpdateRequest, now: I64, f: E.Fresh): Option<Client> {
    if !ValidInterval(req.interval) || !ValidGrace(req.grace) || name !in t.secrets then None
    else
      var s := t.secrets[name];
      if !MatchesFormat(s.format, req) then None
      else if !ChangesValue(s.format, req) then Some(Describing(name, s, req, now))
      else
        var value, next := UpdatedValue(t, name, s, req), NextVersion(s.currentVersion);
        if value.None? || next.None? then None
        else Some(Replacing(name, s, req, value.value, E.SealVersion(t, name, next.value, value.value, now, f), now))
  }

  // ----- the commands they commit -----

  function TimerAfter(s: SecretRecord, req: UpdateRequest, now: I64): NextRotation {
    var stored := OrElse(s.rotationInterval, 0);
    Set(Some(NextRotationUnix(now, OrElse(req.interval, stored))))
  }

  /** What a client asks the store to commit; an apply to the external system commits nothing. */
  function CommandOf(c: Client): Command
    requires !c.Applying?
  {
    match c
    case Rotating(name, s, _, row, now) =>
      PutVersion(name, s.currentVersion, row, Some(GraceExpiryUnix(now, s.graceSecs)),
                 MetaChange(None, None, None, Set(Some(NextRotationUnix(now, OrElse(s.rotationInterval, 0)))), now))
    case Replacing(name, s, req, _, row, now) =>
      PutVersion(name, s.currentVersion, row, Some(GraceExpiryUnix(now, s.graceSecs)),
                 MetaChange(req.description, req.interval, req.grace,
                            if s.kind == Automatic then TimerAfter(s, req, now) else Keep, now))
    case Describing(name, s, req, now) =>
      UpdateMeta(name, s.currentVersion,
                 MetaChange(req.description, req.interval, req.grace,
                            if s.kind == Automatic && req.interval.Some? then TimerAfter(s, req, now) else Keep, now))
    case Retrying(name, version, now) =>
      UpdateMeta(name, version, MetaChange(None, None, None, Set(Some(NextRotationUnix(now, APPLY_RETRY_SECS))), now))
  }

  /** The kind the client takes the secret to have. */
  function KindSeen(c: Client): SecretKind {
    match c
    case Replacing(_, s, _, _, _, _) => s.kind
    case Describing(_, s, _, _) => s.kind
    case _ => Automatic
  }

  /** What every begun request satisfies for as long as it lives. */
  ghost predicate WellBegun(c: Client) {
    match c
    case Rotating(name, s, p, row, now) => row.version == s.currentVersion + 1 && row.expiresAt.None?
    case Replacing(_, s, req, _, row, _) =>
      row.version == s.currentVersion + 1 && row.expiresAt.None? && ValidInterval(req.interval)
    case Describing(_, _, req, _) => ValidInterval(req.interval)
    case Applying(_, _, p, _) => p.UserPass?
    case Retrying(_, _, _) => true
  }

  lemma BegunIsWellBegun(t: Tables, name: string, token: string, req: UpdateRequest, now: I64, f: E.Fresh)
    ensures var c := BeginRotate(t, name, token, now, f);
            c.Some? ==> WellBegun(c.value) && KindSeen(c.value) == t.secrets[name].kind && c.value.name == name
    ensures var c := BeginUpdate(t, name, req, now, f);
            c.Some? ==> WellBegun(c.value) && KindSeen(c.value) == t.secrets[name].kind && c.value.name == name
  {
  }

  /** The shape every whole-run theorem assumes of commands is the shape the requests produce. */
  lemma CreatesAreShaped(t: Tables, req: CreateRequest, plaintext: Plaintext, now: I64, f: E.Fresh)
    ensures BuildCreate(t, req, plaintext, now, f).Some? ==> ServiceShaped(BuildCreate(t, req, plaintext, now, f).value)
  {
  }

  lemma CommitsAreShaped(c: Client)
    requires WellBegun(c) && !c.Applying?
    ensures ServiceShaped(CommandOf(c))
  {
  }
}
