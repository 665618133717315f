/** Tokens and roles over whole runs: the two token tables, revocation, and roles in use. */
module Access {
  import opened Base
  import opened Model
  import opened Effects

  type Tokens = map<Bytes, TokenRecord>
  type TokenIndex = map<string, Bytes>

  /** The by-name index and the fingerprint table are inverse to each other. */
  ghost predicate Inverse(tokens: Tokens, byName: TokenIndex) {
    && (forall n :: n in byName ==> byName[n] in tokens && tokens[byName[n]].name == n)
    && (forall f :: f in tokens ==>
          tokens[f].fingerprint == f && tokens[f].name in byName && byName[tokens[f].name] == f)
  }

  /** Nothing about a token changes but its last use and one revocation; a revocation time is final. */
  ghost predicate Succeeds(before: TokenRecord, after: TokenRecord) {
    && after.name == before.name && after.role == before.role && after.fingerprint == before.fingerprint
    && (before.revokedAt.Some? ==> after.revokedAt == before.revokedAt)
  }

  lemma TokenUpdateKeepsInverse(tokens: Tokens, byName: TokenIndex, f: Bytes, token: TokenRecord)
    requires Inverse(tokens, byName) && f in tokens && Succeeds(tokens[f], token)
    ensures Inverse(tokens[f := token], byName)
  {
  }

  lemma TokenAddKeepsInverse(tokens: Tokens, byName: TokenIndex, token: TokenRecord)
    requires Inverse(tokens, byName) && token.fingerprint !in tokens && token.name !in byName
    ensures Inverse(tokens[token.fingerprint := token], byName[token.name := token.fingerprint])
  {
  }

  lemma OthersKeepTokens(t: Tables, node: U64, c: Command)
    requires !c.AddToken? && !c.RevokeToken? && !c.TouchToken? && !c.RestoreDatabase?
    ensures Apply(t, node, c).0.tokens == t.tokens && Apply(t, node, c).0.tokensByName == t.tokensByName
  {
  }

  lemma StepKeepsInverse(t: Tables, node: U64, c: Command)
    requires Inverse(t.tokens, t.tokensByName) && !c.RestoreDatabase?
    ensures Inverse(Apply(t, node, c).0.tokens, Apply(t, node, c).0.tokensByName)
  {
    match c
    case AddToken(token) =>
      if Apply(t, node, c).1 == Ok { TokenAddKeepsInverse(t.tokens, t.tokensByName, token); }
    case RevokeToken(name, at) =>
      if Apply(t, node, c).1 == Ok {
        var f := t.tokensByName[name];
        TokenUpdateKeepsInverse(t.tokens, t.tokensByName, f, t.tokens[f].(revokedAt := Some(at)));
      }
    case TouchToken(f, at) =>
      if f in t.tokens {
        TokenUpdateKeepsInverse(t.tokens, t.tokensByName, f, t.tokens[f].(lastUsedAt := Some(at)));
      }
    case _ => OthersKeepTokens(t, node, c);
  }

  lemma RevokeKeepsToken(t: Tables, name: string, at: I64, f: Bytes)
    requires f in t.tokens
    ensures f in RevokeTokenEffect(t, name, at).0.tokens && Succeeds(t.tokens[f], RevokeTokenEffect(t, name, at).0.tokens[f])
  {
  }

  lemma StepKeepsToken(t: Tables, node: U64, c: Command, f: Bytes)
    requires f in t.tokens && !c.RestoreDatabase?
    ensures f in Apply(t, node, c).0.tokens && Succeeds(t.tokens[f], Apply(t, node, c).0.tokens[f])
  {
    match c
    case AddToken(token) =>
      AddTokenDoes(t, node, token);
      RejectionChangesNothing(t, node, c);
    case RevokeToken(name, at) => RevokeKeepsToken(t, name, at, f);
    case TouchToken(g, at) => TouchTokenDoes(t, node, g, at);
    case _ => OthersKeepTokens(t, node, c);
  }

  /** A role some token names is never removed. */
  lemma StepKeepsRole(t: Tables, node: U64, c: Command, f: Bytes, role: string)
    requires f in t.tokens && t.tokens[f].role == Some(role) && role in t.roles && !c.RestoreDatabase?
    ensures role in Apply(t, node, c).0.roles
  {
  }

  /**
   * Over every run without a restore: the two token tables stay inverse, every token stays with its
   * name and role, a revocation never changes again, and a role a token named stays.
   */
  lemma {:induction false} TokensAndRolesOverRuns(t: Tables, node: U64, cs: seq<Command>)
    requires Inverse(t.tokens, t.tokensByName) && NoRestore(cs)
    ensures var u := Run(t, node, cs);
            && Inverse(u.tokens, u.tokensByName)
            && (forall f :: f in t.tokens ==> f in u.tokens && Succeeds(t.tokens[f], u.tokens[f]))
            && (forall f, role :: f in t.tokens && t.tokens[f].role == Some(role) && role in t.roles ==> role in u.roles)
  {
    if cs != [] {
      var init, c := cs[..|cs| - 1], cs[|cs| - 1];
      TokensAndRolesOverRuns(t, node, init);
      var mid := Run(t, node, init);
      StepKeepsInverse(mid, node, c);
      forall f | f in t.tokens
        ensures f in Run(t, node, cs).tokens && Succeeds(t.tokens[f], Run(t, node, cs).tokens[f])
      {
        StepKeepsToken(mid, node, c, f);
      }
      forall f, role | f in t.tokens && t.tokens[f].role == Some(role) && role in t.roles
        ensures role in Run(t, node, cs).roles
      {
        StepKeepsRole(mid, node, c, f, role);
      }
    }
  }

  /** Revoking by name ends exactly that token's activity, at once and for good; every other token is as it was. */
  lemma RevokedForever(t: Tables, node: U64, name: string, at: I64, cs: seq<Command>)
    requires Inverse(t.tokens, t.tokensByName) && NoRestore(cs) && name in t.tokensByName
    ensures var revoked, f := RevokeTokenEffect(t, name, at).0, t.tokensByName[name];
            && revoked == t.(tokens := revoked.tokens) && revoked.tokens.Keys == t.tokens.Keys
            && (forall g :: g in t.tokens && g != f ==> revoked.tokens[g] == t.tokens[g])
    ensures var u := Run(RevokeTokenEffect(t, name, at).0, node, cs);
            var f := t.tokensByName[name];
            f in u.tokens && u.tokens[f].name == name && u.tokens[f].revokedAt ==
              (if t.tokens[f].revokedAt.Some? then t.tokens[f].revokedAt else Some(at))
  {
    var f := t.tokensByName[name];
    var revoked := RevokeTokenEffect(t, name, at).0;
    assert f in t.tokens && t.tokens[f].name == name;
    if t.tokens[f].revokedAt.Some? {
      assert revoked == t;
    } else {
      TokenUpdateKeepsInverse(t.tokens, t.tokensByName, f, t.tokens[f].(revokedAt := Some(at)));
    }
    TokensAndRolesOverRuns(revoked, node, cs);
    assert Succeeds(revoked.tokens[f], Run(revoked, node, cs).tokens[f]);
  }

  // ----- what each of these commands does -----

  lemma CreateRoleDoes(t: Tables, node: U64, role: RoleRecord)
    ensures var (u, outcome) := Apply(t, node, CreateRole(role));
            && (outcome == Ok <==> role.name !in t.roles) && (outcome != Ok ==> outcome == Conflict(RoleExists))
            && (outcome == Ok ==>
                  && u == t.(roles := u.roles) && u.roles.Keys == t.roles.Keys + {role.name} && u.roles[role.name] == role
                  && forall r :: r in t.roles ==> u.roles[r] == t.roles[r])
  {
  }

  lemma SetPermissionsDoes(t: Tables, node: U64, name: string, permissions: seq<(string, string)>)
    ensures var (u, outcome) := Apply(t, node, SetPermissions(name, permissions));
            && (outcome == Ok <==> name in t.roles) && (outcome != Ok ==> outcome == NotFound)
            && (outcome == Ok ==>
                  && u == t.(roles := u.roles) && u.roles.Keys == t.roles.Keys
                  && u.roles[name].permissions == permissions && u.roles[name].name == t.roles[name].name
                  && u.roles[name].description == t.roles[name].description && u.roles[name].isAdmin == t.roles[name].isAdmin
                  && u.roles[name].createdAt == t.roles[name].createdAt
                  && forall r :: r in t.roles && r != name ==> u.roles[r] == t.roles[r])
  {
  }

  /** A role goes exactly when it exists and no token names it; a token that names it is reported before its absence. */
  lemma DeleteRoleDoes(t: Tables, node: U64, name: string)
    ensures var (u, outcome) := Apply(t, node, DeleteRole(name));
            && (outcome == Conflict(RoleInUse) <==> exists f :: f in t.tokens && t.tokens[f].role == Some(name))
            && (outcome == Ok <==> name in t.roles && forall f :: f in t.tokens ==> t.tokens[f].role != Some(name))
            && (outcome == Ok ==>
                  && u == t.(roles := u.roles) && u.roles.Keys == t.roles.Keys - {name}
                  && forall r :: r in u.roles ==> u.roles[r] == t.roles[r])
            && (outcome != Ok && outcome != Conflict(RoleInUse) ==> outcome == NotFound)
  {
  }

  lemma AddTokenDoes(t: Tables, node: U64, token: TokenRecord)
    ensures var (u, outcome) := Apply(t, node, AddToken(token));
            && (outcome == Conflict(FingerprintTaken) <==> token.fingerprint in t.tokens)
            && (outcome == Ok <==> token.fingerprint !in t.tokens && token.name !in t.tokensByName)
            && (outcome == Ok ==>
                  && u == t.(tokens := u.tokens, tokensByName := u.tokensByName)
                  && u.tokens.Keys == t.tokens.Keys + {token.fingerprint} && u.tokens[token.fingerprint] == token
                  && u.tokensByName.Keys == t.tokensByName.Keys + {token.name} && u.tokensByName[token.name] == token.fingerprint
                  && (forall f :: f in t.tokens ==> u.tokens[f] == t.tokens[f])
                  && (forall n :: n in t.tokensByName ==> u.tokensByName[n] == t.tokensByName[n]))
            && (outcome != Ok && outcome != Conflict(FingerprintTaken) ==> outcome == Conflict(TokenExists))
  {
  }

  /** A revocation by name, exactly of a token that is there and not revoked. */
  lemma RevokeTokenDoes(t: Tables, node: U64, name: string, at: I64)
    requires Inverse(t.tokens, t.tokensByName)
    ensures var (u, outcome) := Apply(t, node, RevokeToken(name, at));
            && (outcome == Ok <==> name in t.tokensByName && t.tokens[t.tokensByName[name]].revokedAt.None?)
            && (outcome != Ok ==> outcome == NotFound)
            && (outcome == Ok ==> u.tokens[t.tokensByName[name]].revokedAt == Some(at))
  {
  }

  /** Noting a use never fails, and writes the time of that token alone. */
  lemma TouchTokenDoes(t: Tables, node: U64, f: Bytes, at: I64)
    ensures var (u, outcome) := Apply(t, node, TouchToken(f, at));
            && outcome == Ok && u == t.(tokens := u.tokens) && u.tokens.Keys == t.tokens.Keys
            && (f in t.tokens ==>
                  && u.tokens[f].lastUsedAt == Some(at) && u.tokens[f].revokedAt == t.tokens[f].revokedAt
                  && u.tokens[f].createdAt == t.tokens[f].createdAt && Succeeds(t.tokens[f], u.tokens[f]))
            && (forall g :: g in t.tokens && g != f ==> u.tokens[g] == t.tokens[g])
  {
  }

  // ----- the last write wins -----

  /** Command i of the run is accepted. */
  ghost predicate Accepted(t: Tables, node: U64, cs: seq<Command>, i: nat)
    requires i < |cs|
  {
    Apply(Run(t, node, cs[..i]), node, cs[i]).1 == Ok
  }

  predicate WritesRole(c: Command, name: string) {
    (c.CreateRole? && c.role.name == name) || ((c.SetPermissions? || c.DeleteRole?) && c.name == name)
  }

  lemma RoleLeftAlone(t: Tables, node: U64, c: Command, name: string)
    requires !c.RestoreDatabase? && !WritesRole(c, name)
    ensures Lookup(Apply(t, node, c).0.roles, name) == Lookup(t.roles, name)
  {
    match c
    case CreateRole(role) => CreateRoleDoes(t, node, role);
    case SetPermissions(n, permissions) => SetPermissionsDoes(t, node, n, permissions);
    case DeleteRole(n) => DeleteRoleDoes(t, node, n);
    case RestoreDatabase(_) =>
    case _ => assert Apply(t, node, c).0.roles == t.roles;
  }

  lemma RefusedLeavesRole(t: Tables, node: U64, c: Command, name: string)
    requires !c.RestoreDatabase? && (WritesRole(c, name) ==> Apply(t, node, c).1 != Ok)
    ensures Lookup(Apply(t, node, c).0.roles, name) == Lookup(t.roles, name)
  {
    if WritesRole(c, name) { RejectionChangesNothing(t, node, c); } else { RoleLeftAlone(t, node, c, name); }
  }

  /** No write to the role is accepted from `i` up to `j`. */
  ghost predicate NoneAccepted(t: Tables, node: U64, cs: seq<Command>, name: string, i: nat, j: nat)
    requires j <= |cs|
  {
    forall k {:trigger WritesRole(cs[k], name)} :: i <= k < j && WritesRole(cs[k], name) ==> !Accepted(t, node, cs, k)
  }

  lemma RoleAt(t: Tables, node: U64, cs: seq<Command>, name: string, j: nat)
    requires j < |cs| && !cs[j].RestoreDatabase? && (WritesRole(cs[j], name) ==> !Accepted(t, node, cs, j))
    ensures Lookup(Run(t, node, cs[..j + 1]).roles, name) == Lookup(Run(t, node, cs[..j]).roles, name)
  {
    RefusedLeavesRole(Run(t, node, cs[..j]), node, cs[j], name);
    RunOne(t, node, cs, j);
  }

  /** Between two points of a run without an accepted write to a role, the role is the same. */
  lemma {:induction false} RoleBetween(t: Tables, node: U64, cs: seq<Command>, name: string, i: nat, j: nat)
    requires i <= j <= |cs| && NoRestore(cs) && NoneAccepted(t, node, cs, name, i, j)
    ensures Lookup(Run(t, node, cs[..j]).roles, name) == Lookup(Run(t, node, cs[..i]).roles, name)
  {
    if i < j {
      RoleBetween(t, node, cs, name, i, j - 1);
      RoleAt(t, node, cs, name, j - 1);
    }
  }

  lemma WriteDoes(t: Tables, node: U64, c: Command, name: string)
    requires WritesRole(c, name) && Apply(t, node, c).1 == Ok
    ensures var u := Apply(t, node, c).0;
            && (c.CreateRole? ==> Lookup(u.roles, name) == Some(c.role))
            && (c.SetPermissions? ==> name in u.roles && u.roles[name].permissions == c.permissions)
            && (c.DeleteRole? ==> name !in u.roles)
  {
    match c {
      case CreateRole(role) => CreateRoleDoes(t, node, role);
      case SetPermissions(n, permissions) => SetPermissionsDoes(t, node, n, permissions);
      case DeleteRole(n) => DeleteRoleDoes(t, node, n);
      case _ =>
    }
  }

  /** The permissions of a role are those of the last accepted write to it; a role deleted last is gone. */
  lemma PermissionsAreLastSet(t: Tables, node: U64, cs: seq<Command>, name: string, i: nat)
    requires i < |cs| && NoRestore(cs) && WritesRole(cs[i], name) && Accepted(t, node, cs, i)
    requires NoneAccepted(t, node, cs, name, i + 1, |cs|)
    ensures var u := Run(t, node, cs);
            && (cs[i].CreateRole? ==> name in u.roles && u.roles[name] == cs[i].role)
            && (cs[i].SetPermissions? ==> name in u.roles && u.roles[name].permissions == cs[i].permissions)
            && (cs[i].DeleteRole? ==> name !in u.roles)
  {
    RunOne(t, node, cs, i);
    WriteDoes(Run(t, node, cs[..i]), node, cs[i], name);
    RoleBetween(t, node, cs, name, i + 1, |cs|);
    assert cs[..|cs|] == cs;
  }

  /** The last use of a token is the time of the last touch of it, or what it was if there was none. */
  lemma {:induction false} LastUseIsLastTouch(t: Tables, node: U64, cs: seq<Command>, f: Bytes)
    requires f in t.tokens && NoRestore(cs)
    ensures f in Run(t, node, cs).tokens
    ensures Run(t, node, cs).tokens[f].lastUsedAt == LastTouch(cs, f, t.tokens[f].lastUsedAt)
  {
    if cs != [] {
      var init, c := cs[..|cs| - 1], cs[|cs| - 1];
      LastUseIsLastTouch(t, node, init, f);
      var before := Run(t, node, init);
      StepKeepsToken(before, node, c, f);
      TouchOne(before, node, c, f);
      RejectionChangesNothing(before, node, c);
    }
  }

  function LastTouch(cs: seq<Command>, f: Bytes, first: OptTime): OptTime {
    if cs == [] then first
    else if cs[|cs| - 1].TouchToken? && cs[|cs| - 1].fingerprint == f then Some(cs[|cs| - 1].at)
    else LastTouch(cs[..|cs| - 1], f, first)
  }

  lemma TouchOne(t: Tables, node: U64, c: Command, f: Bytes)
    requires f in t.tokens && !c.RestoreDatabase?
    ensures f in Apply(t, node, c).0.tokens
    ensures Apply(t, node, c).0.tokens[f].lastUsedAt ==
            if c.TouchToken? && c.fingerprint == f then Some(c.at) else t.tokens[f].lastUsedAt
  {
    match c
    case AddToken(token) => AddTokenDoes(t, node, token);
    case TouchToken(g, at) => TouchTokenDoes(t, node, g, at);
    case RevokeToken(_, _) =>
    case _ => OthersKeepTokens(t, node, c);
  }
}
