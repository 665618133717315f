/** Moving stored versions onto new key material: one row, a whole pass, and the worker's watermark. */
module Rewrap {
  import opened Base
  import opened Keys
  import opened Model
  import opened Effects
  import opened CurrentVersion
  import opened Grace
  import opened Scan
  import opened Readers
  import opened Store
  import E = Envelope

  predicate NeedsRewrap(r: VersionRecord, target: I64) {
    r.wrappedRotationAt.None? || r.wrappedRotationAt.value < target
  }

  // ----- any number of re-wraps of one row, in any order -----

  datatype Wrap = Wrap(keyId: string, blob: WrappedKey, at: I64)

  function RewrapAll(r: VersionRecord, ws: seq<Wrap>): VersionRecord {
    if ws == [] then r
    else
      var last := ws[|ws| - 1];
      Rewrapped(RewrapAll(r, ws[..|ws| - 1]), last.keyId, last.blob, last.at)
  }

  /** What a re-wrap may not change. */
  ghost predicate SamePayload(a: VersionRecord, b: VersionRecord) {
    && a.version == b.version && a.nonce == b.nonce && a.ciphertext == b.ciphertext && a.aad == b.aad
    && a.createdAt == b.createdAt && a.expiresAt == b.expiresAt
  }

  /** The generation reached: no less than the row's own or any target, and equal to one of them. */
  ghost predicate IsGreatest(g: OptTime, own: OptTime, ws: seq<Wrap>) {
    && (own.Some? ==> g.Some? && g.value >= own.value)
    && (forall w :: w in ws ==> g.Some? && g.value >= w.at)
    && (g == own || exists w :: w in ws && g == Some(w.at))
  }

  /** Replays, duplicates and reorderings of re-wraps leave the greatest generation and the same payload. */
  lemma {:induction false} RewrapsKeepGreatest(r: VersionRecord, ws: seq<Wrap>)
    ensures SamePayload(RewrapAll(r, ws), r)
    ensures IsGreatest(RewrapAll(r, ws).wrappedRotationAt, r.wrappedRotationAt, ws)
  {
    if ws != [] {
      var init, last := ws[..|ws| - 1], ws[|ws| - 1];
      RewrapsKeepGreatest(r, init);
      assert ws == init + [last];
      var g0, g := RewrapAll(r, init).wrappedRotationAt, RewrapAll(r, ws).wrappedRotationAt;
      if g != r.wrappedRotationAt {
        if g == g0 {
          var w :| w in init && g0 == Some(w.at);
          assert w in ws;
        } else {
          assert last in ws;
        }
      }
    }
  }

  lemma OrderDoesNotMatter(r: VersionRecord, ws: seq<Wrap>, vs: seq<Wrap>)
    requires multiset(ws) == multiset(vs)
    ensures RewrapAll(r, ws).wrappedRotationAt == RewrapAll(r, vs).wrappedRotationAt
  {
    RewrapsKeepGreatest(r, ws);
    RewrapsKeepGreatest(r, vs);
    assert forall w :: w in ws <==> w in multiset(ws);
    assert forall w :: w in vs <==> w in multiset(vs);
  }

  // ----- a pass -----

  /** The same data key for the same secret and version, now under the row's new master key. */
  ghost predicate Rekeyed(a: VersionRecord, b: VersionRecord) {
    && a.wrappedDek.WrappedKey? && a.wrappedDek.keyId == a.kmsKeyId
    && b.wrappedDek.WrappedKey? && b.wrappedDek.keyId == b.kmsKeyId
    && b.wrappedDek.dek == a.wrappedDek.dek && b.wrappedDek.context == a.wrappedDek.context
  }

  /** A row after part of a pass: untouched, or it needed the re-wrap and now carries the target. */
  ghost predicate Moved(a: VersionRecord, b: VersionRecord, target: I64) {
    b == a || (NeedsRewrap(a, target) && SamePayload(a, b) && Rekeyed(a, b) && b.wrappedRotationAt == Some(target))
  }

  /** A moved row opens as it did before, to the same value or not at all. */
  lemma MovedOpensTheSame(a: VersionRecord, b: VersionRecord, target: I64, name: string, v: I32)
    requires Moved(a, b, target)
    ensures E.OpenVersion(name, v, b) == E.OpenVersion(name, v, a)
  {
  }

  ghost predicate MovedRows(before: Versions, after: Versions, target: I64) {
    after.Keys == before.Keys && forall k :: k in before ==> Moved(before[k], after[k], target)
  }

  /** Every live row of the secret carries the target. */
  ghost predicate Caught(versions: Versions, name: string, now: I64, target: I64) {
    forall v: I32 :: Live(versions, name, v, now) ==> !NeedsRewrap(versions[VersionKey(name, v)], target)
  }

  /** The key service's answer to one request: the new key id and blob salt, or a failure. */
  type Kms = nat -> Option<(string, nat)>

  datatype Summary = Summary(scanned: nat, rewrapped: nat, failed: nat)

  predicate ByName(a: SecretRecord, b: SecretRecord) {
    LexLe(a.name, b.name)
  }

  lemma ByNameIsTotal()
    ensures TotalPreorder(ByName)
  {
    forall a: SecretRecord, b: SecretRecord, c: SecretRecord
      ensures ByName(a, b) || ByName(b, a)
      ensures ByName(a, b) && ByName(b, c) ==> ByName(a, c)
    {
      LexConnected(a.name, b.name);
      if ByName(a, b) && ByName(b, c) { LexTrans(a.name, b.name, c.name); }
    }
  }

  ghost function RecordsOf(secrets: Secrets, order: seq<string>): seq<SecretRecord>
    requires forall n :: n in order ==> n in secrets
  {
    seq(|order|, i requires 0 <= i < |order| => secrets[order[i]])
  }

  /** All secrets, ordered by name. */
  method ListSecrets(t: Tables) returns (out: seq<SecretRecord>)
    ensures Sorted(out, ByName)
    ensures multiset(out) == multiset(RecordsOf(t.secrets, StringKeys(t.secrets.Keys)))
  {
    var order := InOrder(t.secrets.Keys);
    var found: seq<SecretRecord> := [];
    for i := 0 to |order|
      invariant |found| == i && forall j :: 0 <= j < i ==> found[j] == t.secrets[order[j]]
    {
      found := found + [t.secrets[order[i]]];
    }
    assert found == RecordsOf(t.secrets, order);
    ByNameIsTotal();
    out := SortBy(found, ByName);
  }

  /** The list names every secret, and nothing else. */
  lemma ListIsComplete(t: Tables, out: seq<SecretRecord>, s: SecretRecord)
    requires Good(t) && multiset(out) == multiset(RecordsOf(t.secrets, StringKeys(t.secrets.Keys)))
    ensures s in out <==> s.name in t.secrets && t.secrets[s.name] == s
  {
    var order := StringKeys(t.secrets.Keys);
    var rows := RecordsOf(t.secrets, order);
    assert s in out <==> s in multiset(out);
    assert s in rows <==> s in multiset(rows);
    if s in rows {
      var i :| 0 <= i < |rows| && rows[i] == s;
      assert CurrentRow(t.secrets, t.versions, order[i]);
    }
    if s.name in t.secrets && t.secrets[s.name] == s {
      assert s.name in order;
      var i :| 0 <= i < |order| && order[i] == s.name;
      assert rows[i] == s;
    }
  }

  lemma MovedTwice(a: Versions, b: Versions, c: Versions, target: I64)
    requires MovedRows(a, b, target) && MovedRows(b, c, target)
    ensures MovedRows(a, c, target)
  {
    forall k | k in a ensures Moved(a[k], c[k], target) {
      assert Moved(a[k], b[k], target) && Moved(b[k], c[k], target);
    }
  }

  /** The stored row under this name and its version is this one. */
  ghost predicate Stored(versions: Versions, name: string, row: VersionRecord) {
    VersionKey(name, row.version) in versions && versions[VersionKey(name, row.version)] == row
  }

  /** The key service was asked for the row's own key and can re-encrypt it. */
  predicate CanRewrap(name: string, row: VersionRecord, answer: Option<(string, nat)>) {
    answer.Some? && E.DecryptDataKey(row.wrappedDek, row.kmsKeyId, KeyContext(name, row.version)).Some?
  }

  lemma RowMoves(t: Tables, name: string, row: VersionRecord, target: I64, answer: Option<(string, nat)>)
    requires Stored(t.versions, name, row) && NeedsRewrap(row, target) && CanRewrap(name, row, answer)
    ensures var r := E.ReencryptDataKey(row.wrappedDek, row.kmsKeyId, KeyContext(name, row.version), answer.value.0, answer.value.1);
            r.Some? &&
            var u := RewrapEffect(t, name, row.version, r.value.1, r.value.0, target).0;
            && u == t.(versions := u.versions) && MovedRows(t.versions, u.versions, target)
            && VersionKey(name, row.version) in u.versions && !NeedsRewrap(u.versions[VersionKey(name, row.version)], target)
            && (forall k :: k in t.versions && k != VersionKey(name, row.version) ==> u.versions[k] == t.versions[k])
  {
    var r := E.ReencryptDataKey(row.wrappedDek, row.kmsKeyId, KeyContext(name, row.version), answer.value.0, answer.value.1);
    assert Moved(row, Rewrapped(row, r.value.1, r.value.0, target), target);
  }

  /** The list was read when the tables held these rows, and row `i` on has not been looked at yet. */
  ghost predicate Ahead(versions: Versions, name: string, live: seq<VersionRecord>, i: nat) {
    forall j :: i <= j < |live| ==> Stored(versions, name, live[j])
  }

  lemma ListedRowsDiffer(t: Tables, name: string, now: I64, live: seq<VersionRecord>, i: nat, j: nat)
    requires Good(t) && LiveList(t.versions, name, now, live) && i < j < |live|
    ensures VersionKey(name, live[i].version) != VersionKey(name, live[j].version)
  {
    assert LiveRow(t.versions, name, now, live[i]) && LiveRow(t.versions, name, now, live[j]);
    StoredKeyParses(t.secrets, t.versions, name, live[i].version);
    StoredKeyParses(t.secrets, t.versions, name, live[j].version);
  }
}
