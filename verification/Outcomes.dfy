/** What a caller sees after each request on a secret, from the read to the stored rows. */
module Outcomes {
  import opened Base
  import opened Keys
  import opened Model
  import opened Effects
  import opened CurrentVersion
  import opened Grace
  import opened Service
  import E = Envelope

  /** The value a row holds, as a reader of this name and version gets it. */
  ghost function ValueAt(t: Tables, name: string, v: I32): Option<Plaintext> {
    if VersionKey(name, v) in t.versions then E.OpenVersion(name, v, t.versions[VersionKey(name, v)]) else None
  }

  /** A create request is built exactly for a clean name, a grace and an interval in range, and an interval if it is automatic. */
  lemma CreateBuiltIff(t: Tables, req: CreateRequest, p: Plaintext, now: I64, f: E.Fresh)
    ensures BuildCreate(t, req, p, now, f).Some? <==>
            && NormalizedName(req.name)
            && (req.grace.Some? ==> 0 <= req.grace.value <= 3_153_600_000)
            && (req.interval.Some? ==> 1 <= req.interval.value <= 3_153_600_000)
            && (req.kind == Automatic ==> req.interval.Some?)
  {
  }

  /**
   * It succeeds exactly when the name is free. The secret then holds the value at version 1 and everything the request
   * said, its timer is one interval on if it is automatic, and nothing else changed.
   */
  lemma CreateDoes(t: Tables, node: U64, req: CreateRequest, p: Plaintext, now: I64, f: E.Fresh)
    requires |f.nonce| == E.NONCE_LEN && BuildCreate(t, req, p, now, f).Some?
    ensures var (u, outcome) := Apply(t, node, BuildCreate(t, req, p, now, f).value);
            && (outcome == Ok <==> req.name !in t.secrets) && (outcome != Ok ==> outcome == Conflict(SecretExists))
            && (outcome == Ok ==>
                  && req.name in u.secrets && IsAsked(u.secrets[req.name], req, now) && ValueAt(u, req.name, 1) == Some(p)
                  && u == t.(secrets := u.secrets, versions := u.versions)
                  && (forall n :: n != req.name ==> Lookup(u.secrets, n) == Lookup(t.secrets, n))
                  && (forall k :: k != VersionKey(req.name, 1) ==> Lookup(u.versions, k) == Lookup(t.versions, k)))
  {
    E.SealOpenRoundTrip(t, req.name, 1, p, now, f, req.name, 1);
  }

  /** The record a create request asks for. */
  ghost predicate IsAsked(s: SecretRecord, req: CreateRequest, now: I64) {
    && s.name == req.name && s.kind == req.kind && s.format == req.format && s.description == req.description
    && s.rotationInterval == req.interval && s.graceSecs == (if req.grace.Some? then req.grace.value else 0)
    && s.target == req.target && s.currentVersion == 1 && s.createdAt == now && s.updatedAt == now
    && s.nextRotationAt == (if req.kind == Automatic && req.interval.Some? then Some(SaturatingAdd(now, req.interval.value)) else None)
  }

  /** The secret goes exactly if it is there, with every row it has; every other secret and row stays. */
  lemma DeleteDoes(t: Tables, node: U64, name: string, m: string, v: I32)
    requires Good(t) && m != name && ValidName(m) && v >= 0
    ensures var (u, outcome) := Apply(t, node, DeleteSecret(name));
            && (outcome == Ok <==> name in t.secrets) && (outcome != Ok ==> outcome == NotFound && u == t)
            && name !in u.secrets && (forall w: I32 :: VersionKey(name, w) !in u.versions)
            && Lookup(u.secrets, m) == Lookup(t.secrets, m)
            && Lookup(u.versions, VersionKey(m, v)) == Lookup(t.versions, VersionKey(m, v))
            && u == t.(secrets := u.secrets, versions := u.versions)
  {
    var u := Apply(t, node, DeleteSecret(name)).0;
    DeleteElsewhere(t, name, m, v);
    StepKeepsGood(t, node, DeleteSecret(name));
    forall w: I32 ensures VersionKey(name, w) !in u.versions {
      if VersionKey(name, w) in u.versions { StoredInRange(u, name, w); }
    }
  }

  ghost predicate OnlyRowsChanged(t: Tables, u: Tables, a: string, b: string) {
    forall k :: k != a && k != b ==> Lookup(u.versions, k) == Lookup(t.versions, k)
  }

  /** The commit of a new version onto the version it was built for. */
  lemma NewVersionDoes(t: Tables, name: string, p: Plaintext, seen: Tables, now: I64, f: E.Fresh, expiry: I64, meta: MetaChange)
    requires Good(t) && name in t.secrets && t.secrets[name].currentVersion < I32_MAX && |f.nonce| == E.NONCE_LEN
    ensures var cur := t.secrets[name].currentVersion;
            var row := E.SealVersion(seen, name, cur + 1, p, now, f);
            var (u, outcome) := PutVersionEffect(t, name, cur, row, Some(expiry), meta);
            && outcome == Ok && ValueAt(u, name, cur + 1) == Some(p)
            && u.versions[VersionKey(name, cur + 1)].version == cur + 1 && u.versions[VersionKey(name, cur + 1)].createdAt == now
            && VersionKey(name, cur) in t.versions && VersionKey(name, cur) in u.versions
            && u.versions[VersionKey(name, cur)] == t.versions[VersionKey(name, cur)].(expiresAt := Some(expiry))
            && OnlyRowsChanged(t, u, VersionKey(name, cur), VersionKey(name, cur + 1))
            && u.secrets == t.secrets[name := WithMeta(t.secrets[name].(currentVersion := cur + 1), meta)]
  {
    var cur := t.secrets[name].currentVersion;
    assert CurrentRow(t.secrets, t.versions, name);
    RowKey(name, cur);
    RowKey(name, cur + 1);
    E.SealOpenRoundTrip(seen, name, cur + 1, p, now, f, name, cur + 1);
  }

  /**
   * A rotation begins exactly for an automatic secret with a version left and, if it stores a login, a current version
   * that opens to one; the key service is the caller's.
   */
  lemma RotateBeginsIff(t: Tables, name: string, token: string, now: I64, f: E.Fresh)
    ensures BeginRotate(t, name, token, now, f).Some? <==>
            && name in t.secrets && t.secrets[name].kind == Automatic && t.secrets[name].currentVersion < I32_MAX
            && (t.secrets[name].format == Userpass ==>
                  var current := ValueAt(t, name, t.secrets[name].currentVersion); current.Some? && current.value.UserPass?)
  {
  }

  /**
   * A rotation nobody raced: one version up, a fresh token under the old username, the superseded row live
   * for the grace period, the timer one interval on, and nothing else about the secret changed.
   */
  lemma RotateDoes(t: Tables, node: U64, name: string, token: string, now: I64, f: E.Fresh)
    requires Good(t) && |f.nonce| == E.NONCE_LEN && BeginRotate(t, name, token, now, f).Some?
    ensures var s, cur := t.secrets[name], t.secrets[name].currentVersion;
            var (u, outcome) := Apply(t, node, CommandOf(BeginRotate(t, name, token, now, f).value));
            && outcome == Ok && s.kind == Automatic && cur < I32_MAX
            && u.secrets == t.secrets[name :=
                 s.(currentVersion := cur + 1, updatedAt := now,
                    nextRotationAt := Some(SaturatingAdd(now, OrElse(s.rotationInterval, 0))))]
            && (s.format == Opaque ==> ValueAt(u, name, cur + 1) == Some(RawValue(token)))
            && (s.format == Userpass ==>
                  ValueAt(t, name, cur).Some? && ValueAt(t, name, cur).value.UserPass? &&
                  ValueAt(u, name, cur + 1) == Some(UserPass(ValueAt(t, name, cur).value.username, token)))
            && VersionKey(name, cur) in u.versions
            && u.versions[VersionKey(name, cur)].expiresAt == Some(SaturatingAdd(now, s.graceSecs))
  {
    var c := BeginRotate(t, name, token, now, f).value;
    NewVersionDoes(t, name, c.plaintext, t, now, f, GraceExpiryUnix(now, c.secret.graceSecs), CommandOf(c).meta);
  }

  /** The update sends a value: one for an opaque secret, a username or a password for a login. */
  predicate SendsValue(format: SecretFormat, req: UpdateRequest) {
    match format
    case Opaque => req.value.Some?
    case Userpass => req.username.Some? || req.password.Some?
  }

  /** What an update makes of its request: refused, a new version if it sends a value, or metadata alone. */
  lemma UpdateBeginsAs(t: Tables, name: string, req: UpdateRequest, now: I64, f: E.Fresh)
    ensures var c := BeginUpdate(t, name, req, now, f);
            && (c.Some? ==> name in t.secrets && c.value.secret == t.secrets[name])
            && (c.Some? && SendsValue(t.secrets[name].format, req) ==> c.value.Replacing?)
            && (c.Some? && !SendsValue(t.secrets[name].format, req) ==> c.value.Describing?)
    ensures BeginUpdate(t, name, req, now, f).Some? <==>
            && (req.interval.Some? ==> 1 <= req.interval.value <= 3_153_600_000)
            && (req.grace.Some? ==> 0 <= req.grace.value <= 3_153_600_000)
            && name in t.secrets
            && (t.secrets[name].format == Opaque ==> req.username.None? && req.password.None?)
            && (t.secrets[name].format == Userpass ==> req.value.None?)
            && (SendsValue(t.secrets[name].format, req) ==>
                  && t.secrets[name].currentVersion < I32_MAX
                  && (t.secrets[name].format == Userpass ==>
                        var current := ValueAt(t, name, t.secrets[name].currentVersion); current.Some? && current.value.UserPass?))
  {
  }

  /** Merging an update into the stored value: fields that were not sent keep what they were. */
  ghost function Merged(stored: Plaintext, req: UpdateRequest): Plaintext {
    match stored
    case RawValue(v) => RawValue(OrElse(req.value, v))
    case UserPass(u, p) => UserPass(OrElse(req.username, u), OrElse(req.password, p))
  }

  /** An update of the value: the merged value at the next version, and the old one kept for the old grace period. */
  lemma ReplaceDoes(t: Tables, node: U64, name: string, req: UpdateRequest, now: I64, f: E.Fresh)
    requires Good(t) && |f.nonce| == E.NONCE_LEN
    requires BeginUpdate(t, name, req, now, f).Some? && BeginUpdate(t, name, req, now, f).value.Replacing?
    ensures var s, cur := t.secrets[name], t.secrets[name].currentVersion;
            var (u, outcome) := Apply(t, node, CommandOf(BeginUpdate(t, name, req, now, f).value));
            && outcome == Ok && cur < I32_MAX && name in u.secrets && u.secrets[name].currentVersion == cur + 1
            && (s.format == Opaque ==> req.value.Some? && ValueAt(u, name, cur + 1) == Some(RawValue(req.value.value)))
            && (s.format == Userpass ==>
                  ValueAt(t, name, cur).Some? && ValueAt(u, name, cur + 1) == Some(Merged(ValueAt(t, name, cur).value, req)))
            && VersionKey(name, cur) in u.versions
            && u.versions[VersionKey(name, cur)].expiresAt == Some(SaturatingAdd(now, s.graceSecs))
            && u.secrets[name].graceSecs == OrElse(req.grace, s.graceSecs)
            && (s.kind == Manual ==> u.secrets[name].nextRotationAt == s.nextRotationAt)
            && (s.kind == Automatic ==>
                  u.secrets[name].nextRotationAt ==
                  Some(SaturatingAdd(now, OrElse(req.interval, OrElse(s.rotationInterval, 0)))))
  {
    var c := BeginUpdate(t, name, req, now, f).value;
    NewVersionDoes(t, name, c.plaintext, t, now, f, GraceExpiryUnix(now, c.secret.graceSecs), CommandOf(c).meta);
  }

  /** What is left of a record: fields that were sent replace the stored ones, the others stay. */
  ghost predicate IsUpdated(s: SecretRecord, u: SecretRecord, req: UpdateRequest, now: I64, newValue: bool) {
    && u.name == s.name && u.kind == s.kind && u.format == s.format && u.target == s.target && u.createdAt == s.createdAt
    && u.currentVersion == s.currentVersion + (if newValue then 1 else 0) && u.updatedAt == now
    && u.description == (if req.description.Some? then req.description else s.description)
    && u.rotationInterval == (if req.interval.Some? then req.interval else s.rotationInterval)
    && u.graceSecs == (if req.grace.Some? then req.grace.value else s.graceSecs)
    && u.nextRotationAt ==
         (if s.kind == Automatic && (newValue || req.interval.Some?)
          then Some(SaturatingAdd(now, if u.rotationInterval.Some? then u.rotationInterval.value else 0))
          else s.nextRotationAt)
  }

  lemma ReplacingStores(t: Tables, node: U64, c: Client)
    requires Good(t) && c.Replacing? && WellBegun(c) && c.name in t.secrets && c.secret == t.secrets[c.name]
    ensures var (u, outcome) := Apply(t, node, CommandOf(c));
            && outcome == Ok && c.name in u.secrets && u.secrets == t.secrets[c.name := u.secrets[c.name]]
            && IsUpdated(c.secret, u.secrets[c.name], c.request, c.now, true)
  {
    assert CurrentRow(t.secrets, t.versions, c.name);
    var s := WithMeta(c.secret.(currentVersion := c.row.version), CommandOf(c).meta);
    assert Apply(t, node, CommandOf(c)).0.secrets == t.secrets[c.name := s];
  }

  lemma DescribingStores(t: Tables, node: U64, c: Client)
    requires c.Describing? && c.name in t.secrets && c.secret == t.secrets[c.name]
    ensures var (u, outcome) := Apply(t, node, CommandOf(c));
            && outcome == Ok && c.name in u.secrets && u == t.(secrets := t.secrets[c.name := u.secrets[c.name]])
            && IsUpdated(c.secret, u.secrets[c.name], c.request, c.now, false)
  {
    var s := WithMeta(c.secret, CommandOf(c).meta);
    assert Apply(t, node, CommandOf(c)).0 == t.(secrets := t.secrets[c.name := s]);
  }

  /**
   * An update nobody raced, of either sort. The version moves exactly if a value was sent; the timer restarts exactly for
   * an automatic secret with a new value or interval; without a value no row and no other table changes.
   */
  lemma UpdateDoes(t: Tables, node: U64, name: string, req: UpdateRequest, now: I64, f: E.Fresh, c: Client)
    requires Good(t) && BeginUpdate(t, name, req, now, f) == Some(c) && !c.Applying?
    ensures var (u, outcome) := Apply(t, node, CommandOf(c));
            && outcome == Ok && name in t.secrets && name in u.secrets && u.secrets == t.secrets[name := u.secrets[name]]
            && IsUpdated(t.secrets[name], u.secrets[name], req, now, SendsValue(t.secrets[name].format, req))
            && (!SendsValue(t.secrets[name].format, req) ==> u == t.(secrets := u.secrets))
  {
    UpdateBeginsAs(t, name, req, now, f);
    BegunIsWellBegun(t, name, "", req, now, f);
    assert c.name == name && c.request == req && c.now == now;
    if c.Replacing? { ReplacingStores(t, node, c); } else { DescribingStores(t, node, c); }
  }

  /** A retry brings the next attempt a minute closer exactly when the version that failed is still current. */
  lemma RetryDoes(t: Tables, node: U64, name: string, v: I32, now: I64)
    ensures var (u, outcome) := Apply(t, node, CommandOf(Retrying(name, v, now)));
            && (outcome == Ok <==> name in t.secrets && t.secrets[name].currentVersion == v)
            && (outcome == Ok ==> u == t.(secrets := t.secrets[name :=
                  t.secrets[name].(nextRotationAt := Some(SaturatingAdd(now, 60)), updatedAt := now)]))
            && (outcome != Ok ==> u == t)
  {
  }

  /** Rows with a name or a version out of bounds are refused before anything is looked up. */
  lemma BadRowsRefused(t: Tables, node: U64, c: Command, name: string)
    requires (c.CreateSecret? && c.secret.name == name) || (c.PutVersion? && c.name == name)
    ensures !ValidName(name) ==> Apply(t, node, c).1 == Conflict(InvalidName)
    ensures ValidName(name) && c.row.version < 1 ==> Apply(t, node, c).1 == Conflict(InvalidVersion)
  {
  }

  /** A re-wrap of a row that is not there is accepted and does nothing; a sweep is always accepted. */
  lemma IdleCommandsSucceed(t: Tables, node: U64, c: Command)
    requires c.RewrapVersion? || c.ExpireGraceVersions?
    ensures Apply(t, node, c).1 == Ok
    ensures c.RewrapVersion? && VersionKey(c.name, c.version) !in t.versions ==> Apply(t, node, c).0 == t
  {
  }
}
