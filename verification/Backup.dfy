/** Dumping the tables to rows and restoring rows into tables. */
module Backup {
  import opened Base
  import opened Keys
  import opened Model
  import opened Effects

  /** The rows of a table in the given key order. */
  ghost function RowsOf<K, V>(m: map<K, V>, keys: seq<K>): (rows: seq<(K, V)>)
    requires forall k :: k in keys ==> k in m
  {
    seq(|keys|, i requires 0 <= i < |keys| => (keys[i], m[keys[i]]))
  }

  ghost function DumpTable<V>(m: map<string, V>): seq<(string, V)> {
    RowsOf(m, StringKeys(m.Keys))
  }

  ghost function DumpAudit(m: map<nat, AuditEntry>): seq<(nat, AuditEntry)> {
    RowsOf<nat, AuditEntry>(m, IndexKeys(m.Keys))
  }

  ghost function Dump(t: Tables): BackupData {
    BackupData(BACKUP_VERSION, DumpTable(t.secrets), DumpTable(t.versions), DumpTable(t.roles),
               DumpTable(t.tokens), DumpTable(t.tokensByName), DumpAudit(t.audit),
               DumpTable(t.kmsRewrap))
  }

  // ----- what restored rows mean -----

  ghost predicate LastRow<K, V>(rows: seq<(K, V)>, i: int) {
    0 <= i < |rows| && forall j :: i < j < |rows| ==> rows[j].0 != rows[i].0
  }

  /** A restored table holds, for each key that occurs, its last row and nothing else. */
  lemma {:induction false} CollapseIsLastWins<K, V>(rows: seq<(K, V)>)
    ensures forall k :: k in Collapse(rows) <==> exists i :: 0 <= i < |rows| && rows[i].0 == k
    ensures forall i :: LastRow(rows, i) ==> Collapse(rows)[rows[i].0] == rows[i].1
  {
    if rows != [] {
      var init, last := rows[..|rows| - 1], |rows| - 1;
      CollapseIsLastWins(init);
      forall k ensures k in Collapse(rows) <==> exists i :: 0 <= i < |rows| && rows[i].0 == k {
        if k in Collapse(init) {
          var i :| 0 <= i < |init| && init[i].0 == k;
          assert rows[i].0 == k;
        }
        if i :| 0 <= i < |rows| && rows[i].0 == k {
          if i < last { assert init[i].0 == k; }
        }
      }
      forall i | LastRow(rows, i) ensures Collapse(rows)[rows[i].0] == rows[i].1 {
        if i < last {
          assert rows[last].0 != rows[i].0;
          assert init[i] == rows[i];
          assert forall j :: i < j < |init| ==> init[j] == rows[j];
          assert LastRow(init, i);
        }
      }
    }
  }

  lemma {:induction false} CollapseOfRows<K, V>(m: map<K, V>, keys: seq<K>)
    requires forall k :: k in keys ==> k in m
    ensures Collapse(RowsOf(m, keys)) == map k | k in m && k in keys :: m[k]
  {
    if keys != [] {
      var init, last := keys[..|keys| - 1], keys[|keys| - 1];
      assert keys == init + [last];
      assert RowsOf(m, keys)[..|keys| - 1] == RowsOf(m, init);
      CollapseOfRows(m, init);
      assert forall k :: k in keys <==> k in init || k == last;
    }
  }

  lemma CollapseOfDump<V>(m: map<string, V>)
    ensures Collapse(DumpTable(m)) == m
  {
    CollapseOfRows(m, StringKeys(m.Keys));
  }

  /** The seven tables a backup carries agree. */
  ghost predicate SameBackedUp(a: Tables, b: Tables) {
    SharedOf(a) == SharedOf(b) && a.audit == b.audit
  }

  /** Every row a dump of these tables holds is one a restore accepts. */
  ghost predicate Restorable(t: Tables) {
    && (forall n :: n in t.secrets ==> ValidName(n))
    && (forall k :: k in t.versions ==> ValidVersionKey(k))
    && (forall k :: k in t.audit ==> k <= MAX_AUDIT_KEY)
  }

  lemma SecretRowsIff(m: map<string, SecretRecord>)
    ensures ValidNames(DumpTable(m)) <==> forall n :: n in m ==> ValidName(n)
  {
    var keys, rows := StringKeys(m.Keys), DumpTable(m);
    assert forall i :: 0 <= i < |keys| ==> rows[i].0 == keys[i];
    if ValidNames(rows) {
      forall n | n in m ensures ValidName(n) {
        assert n in keys;
        var i :| 0 <= i < |keys| && keys[i] == n;
        assert ValidName(rows[i].0);
      }
    } else {
      var i :| 0 <= i < |rows| && !ValidName(rows[i].0);
      assert keys[i] in keys;
    }
  }

  lemma VersionRowsIff(m: map<string, VersionRecord>)
    ensures ValidVersionKeys(DumpTable(m)) <==> forall k :: k in m ==> ValidVersionKey(k)
  {
    var keys, rows := StringKeys(m.Keys), DumpTable(m);
    assert forall i :: 0 <= i < |keys| ==> rows[i].0 == keys[i];
    if ValidVersionKeys(rows) {
      forall k | k in m ensures ValidVersionKey(k) {
        assert k in keys;
        var i :| 0 <= i < |keys| && keys[i] == k;
        assert ValidVersionKey(rows[i].0);
      }
    } else {
      var i :| 0 <= i < |rows| && !ValidVersionKey(rows[i].0);
      assert keys[i] in keys;
    }
  }

  lemma AuditRowsIff(m: map<nat, AuditEntry>)
    ensures PlausibleAudit(DumpAudit(m)) <==> forall k :: k in m ==> k <= MAX_AUDIT_KEY
  {
    var keys, rows := IndexKeys(m.Keys), DumpAudit(m);
    assert forall i :: 0 <= i < |keys| ==> rows[i].0 == keys[i];
    if PlausibleAudit(rows) {
      forall k | k in m ensures k <= MAX_AUDIT_KEY {
        assert k in keys;
        var i :| 0 <= i < |keys| && keys[i] == k;
        assert rows[i].0 <= MAX_AUDIT_KEY;
      }
    } else {
      var i :| 0 <= i < |rows| && rows[i].0 > MAX_AUDIT_KEY;
      var k: nat := keys[i];
      assert k in keys && k in m && k > MAX_AUDIT_KEY;
    }
  }

  /** A dump is accepted exactly when the tables hold only rows a write path accepts. */
  lemma DumpAcceptedIff(t: Tables)
    ensures AcceptableRows(Dump(t)) <==> Restorable(t)
  {
    SecretRowsIff(t.secrets);
    VersionRowsIff(t.versions);
    AuditRowsIff(t.audit);
  }

  /** Restoring a dump brings back the seven tables from whatever was there, lockouts aside. */
  lemma RestoreOfDump(t: Tables, into: Tables)
    requires Restorable(t)
    ensures RestoreEffect(into, Dump(t)).1 == Ok
    ensures SameBackedUp(RestoreEffect(into, Dump(t)).0, t)
    ensures RestoreEffect(into, Dump(t)).0.lockouts == into.lockouts
  {
    DumpAcceptedIff(t);
    CollapseOfDump(t.secrets);
    CollapseOfDump(t.versions);
    CollapseOfDump(t.roles);
    CollapseOfDump(t.tokens);
    CollapseOfDump(t.tokensByName);
    CollapseOfDump(t.kmsRewrap);
    CollapseOfRows<nat, AuditEntry>(t.audit, IndexKeys(t.audit.Keys));
  }

  /** An accepted restore depends on the data only, keeps lockouts, and a refused one changes nothing. */
  lemma RestoreDependsOnlyOnData(t: Tables, u: Tables, data: BackupData)
    ensures RestoreEffect(t, data).1 == RestoreEffect(u, data).1
    ensures RestoreEffect(t, data).1 == Ok <==>
            && data.formatVersion == 1
            && (forall i :: 0 <= i < |data.secrets| ==> ValidName(data.secrets[i].0))
            && (forall i :: 0 <= i < |data.versions| ==>
                  var key := SplitVersionKey(data.versions[i].0); key.Some? && ValidName(key.value.0) && key.value.1 >= 1)
            && (forall i :: 0 <= i < |data.audit| ==> data.audit[i].0 <= 0x10_0000_0000_0000)
    ensures RestoreEffect(t, data).1 == Ok ==> SameBackedUp(RestoreEffect(t, data).0, RestoreEffect(u, data).0)
    ensures RestoreEffect(t, data).0.lockouts == t.lockouts
    ensures RestoreEffect(t, data).1 != Ok ==> RestoreEffect(t, data).0 == t
  {
  }

  lemma RestoreIdempotent(t: Tables, data: BackupData)
    ensures RestoreEffect(RestoreEffect(t, data).0, data) == RestoreEffect(t, data)
  {
  }

  /** Rows ascending by key, one per key. */
  ghost predicate SortedRows<V>(rows: seq<(string, V)>) {
    forall i, j :: 0 <= i < j < |rows| ==> LexLe(rows[i].0, rows[j].0) && rows[i].0 != rows[j].0
  }

  lemma DumpTableShape<V>(m: map<string, V>)
    ensures SortedRows(DumpTable(m)) && |DumpTable(m)| == |m|
    ensures forall k, v :: (k, v) in DumpTable(m) <==> k in m && m[k] == v
  {
    var keys, rows := StringKeys(m.Keys), DumpTable(m);
    StringKeysAscend(m.Keys);
    forall i, j | 0 <= i < j < |rows| ensures LexLe(rows[i].0, rows[j].0) && rows[i].0 != rows[j].0 {
      assert Before(keys[i], keys[j], LexLe);
    }
    forall k, v ensures (k, v) in rows <==> k in m && m[k] == v {
      if (k, v) in rows {
        var i :| 0 <= i < |rows| && rows[i] == (k, v);
        assert keys[i] in keys;
      }
      if k in m && m[k] == v {
        var i :| 0 <= i < |keys| && keys[i] == k;
        assert rows[i] == (k, v);
      }
    }
  }

  lemma DumpAuditShape(m: map<nat, AuditEntry>)
    ensures SortedAudit(DumpAudit(m)) && |DumpAudit(m)| == |m|
    ensures forall k: nat, v :: (k, v) in DumpAudit(m) <==> k in m && m[k] == v
  {
    var keys, rows := IndexKeys(m.Keys), DumpAudit(m);
    IndexKeysAscend(m.Keys);
    forall i, j | 0 <= i < j < |rows| ensures rows[i].0 < rows[j].0 { assert Before(keys[i], keys[j], IndexLe); }
    forall k: nat, v ensures (k, v) in rows <==> k in m && m[k] == v {
      if (k, v) in rows {
        var i :| 0 <= i < |rows| && rows[i] == (k, v);
        assert keys[i] in keys;
      }
      if k in m && m[k] == v {
        assert k in keys;
        var i :| 0 <= i < |keys| && keys[i] == k;
        assert rows[i] == (k, v);
      }
    }
  }

  ghost predicate SortedAudit(rows: seq<(nat, AuditEntry)>) {
    forall i, j :: 0 <= i < j < |rows| ==> rows[i].0 < rows[j].0
  }

  /** The same for the audit rows, whose keys are numbers. */
  lemma DumpOfRestoredAudit(rows: seq<(nat, AuditEntry)>)
    ensures SortedAudit(DumpAudit(Collapse(rows)))
    ensures forall i :: LastRow(rows, i) ==> rows[i] in DumpAudit(Collapse(rows))
    ensures forall r :: r in DumpAudit(Collapse(rows)) ==> exists i :: LastRow(rows, i) && rows[i] == r
  {
    DumpAuditShape(Collapse(rows));
    CollapseIsLastWins(rows);
    forall i | LastRow(rows, i) ensures rows[i] in DumpAudit(Collapse(rows)) {
      assert (rows[i].0, rows[i].1) in DumpAudit(Collapse(rows));
    }
    forall r | r in DumpAudit(Collapse(rows)) ensures exists i :: LastRow(rows, i) && rows[i] == r {
      assert (r.0, r.1) in DumpAudit(Collapse(rows));
      LastOccurrence(rows, r.0);
      var i :| LastRow(rows, i) && rows[i].0 == r.0;
    }
  }

  /** Dump after restore: the restored rows collapsed to the last of each key and sorted. */
  lemma DumpOfRestore<V>(rows: seq<(string, V)>)
    ensures SortedRows(DumpTable(Collapse(rows)))
    ensures forall i :: LastRow(rows, i) ==> rows[i] in DumpTable(Collapse(rows))
    ensures forall r :: r in DumpTable(Collapse(rows)) ==> exists i :: LastRow(rows, i) && rows[i] == r
  {
    DumpTableShape(Collapse(rows));
    CollapseIsLastWins(rows);
    forall i | LastRow(rows, i) ensures rows[i] in DumpTable(Collapse(rows)) {
      assert (rows[i].0, rows[i].1) in DumpTable(Collapse(rows));
    }
    forall r | r in DumpTable(Collapse(rows)) ensures exists i :: LastRow(rows, i) && rows[i] == r {
      assert (r.0, r.1) in DumpTable(Collapse(rows));
      LastOccurrence(rows, r.0);
      var i :| LastRow(rows, i) && rows[i].0 == r.0;
    }
  }

  lemma {:induction false} LastOccurrence<K, V>(rows: seq<(K, V)>, k: K)
    requires exists i :: 0 <= i < |rows| && rows[i].0 == k
    ensures exists i :: LastRow(rows, i) && rows[i].0 == k
  {
    var n := |rows| - 1;
    if rows[n].0 == k {
      assert LastRow(rows, n);
    } else {
      var init := rows[..n];
      var i :| 0 <= i < |rows| && rows[i].0 == k;
      assert init[i].0 == k;
      LastOccurrence(init, k);
      var j :| LastRow(init, j) && init[j].0 == k;
      assert LastRow(rows, j) && rows[j].0 == k;
    }
  }
}
