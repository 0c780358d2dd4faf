/**
 * The code `generate_dbi_struct!` emits for a list of table types: a struct with
 * one handle per table (modelled by the sequence of handles in declaration
 * order), its constructors `new` and `new_ro`, and per table a
 * `read_<table>_tx` and a `write_<table>_tx` that use the stored handle.
 */
module DbiStruct {
  import opened Base
  import opened Errors
  import opened TableCodec
  import opened Store
  import opened Engine
  import opened Orm

  /** The flags `new` creates a table with: `DUP_SORT` for a DUPSORT table, the defaults otherwise. */
  function FlagsFor(d: TableDesc): (f: DatabaseFlags)
    ensures f == DUP_SORT <==> d.dupSort
    ensures f == DEFAULT_FLAGS <==> !d.dupSort
  {
    if d.dupSort then DUP_SORT else DEFAULT_FLAGS
  }

  /** The creations of `new`, in declaration order, stopping at the first failure. */
  function CreateTablesIn(s: DbState, ts: seq<TableDesc>): (Result<seq<Dbi>, Error>, DbState)
    decreases |ts|
  {
    if |ts| == 0 then (Ok([]), s)
    else
      var (prefix, s1) := CreateTablesIn(s, ts[..|ts| - 1]);
      if prefix.Err? then (prefix, s1)
      else
        var (d, s2) := CreateTableIn(s1, ts[|ts| - 1], FlagsFor(ts[|ts| - 1]));
        if d.Err? then (Err(d.error), s2) else (Ok(prefix.value + [d.value]), s2)
  }

  /** Once a creation fails, every longer run of creations fails with the same error. */
  lemma {:induction false} CreateTablesFailureSticks(s: DbState, ts: seq<TableDesc>, i: nat)
    requires i <= |ts|
    requires CreateTablesIn(s, ts[..i]).0.Err?
    ensures CreateTablesIn(s, ts).0 == CreateTablesIn(s, ts[..i]).0
    decreases |ts| - i
  {
    if i == |ts| {
      assert ts[..i] == ts;
    } else {
      assert ts[..i + 1][..i] == ts[..i];
      CreateTablesFailureSticks(s, ts, i + 1);
    }
  }

  /**
   * `new`: in one read-write transaction, create every table in declaration order,
   * then commit. A failure returns before the commit, so the environment is left
   * as it was.
   */
  method New(env: Env, ts: seq<TableDesc>) returns (r: Result<seq<Dbi>, Error>)
    modifies env
    ensures r == CreateTablesIn(old(env.committed), ts).0
    ensures env.committed == if r.Ok? then CreateTablesIn(old(env.committed), ts).1 else old(env.committed)
  {
    var tx := env.BeginRwTxn();
    var dbis: seq<Dbi> := [];
    for i := 0 to |ts|
      invariant env.committed == old(env.committed)
      invariant (Ok(dbis), tx.state) == CreateTablesIn(old(env.committed), ts[..i])
    {
      assert ts[..i + 1][..i] == ts[..i];
      var d := CreateTableTx(tx, ts[i], FlagsFor(ts[i]));
      if d.Err? {
        CreateTablesFailureSticks(old(env.committed), ts, i + 1);
        return Err(d.error);
      }
      dbis := dbis + [d.value];
    }
    assert ts[..|ts|] == ts;
    var _ := tx.Commit();
    r := Ok(dbis);
  }

  /** Table d exists in state s under handle dbi, with the flags `new` gives it. */
  ghost predicate Created(s: DbState, d: TableDesc, dbi: Dbi)
  {
    OpenTableIn(s, d) == Ok(dbi) && dbi in s.flags && s.flags[dbi] == FlagsFor(d)
  }

  /**
   * When `new` succeeds, handle i is the one table i's name has afterwards, and
   * that table carries the flags `FlagsFor` gives it (so `DUP_SORT` exactly when
   * it is DUPSORT).
   */
  lemma {:induction false} CreateTablesSpec(s: DbState, ts: seq<TableDesc>)
    requires Valid(s)
    requires CreateTablesIn(s, ts).0.Ok?
    ensures Valid(CreateTablesIn(s, ts).1)
    ensures |CreateTablesIn(s, ts).0.value| == |ts|
    ensures forall i :: 0 <= i < |ts| ==> Created(CreateTablesIn(s, ts).1, ts[i], CreateTablesIn(s, ts).0.value[i])
    decreases |ts|
  {
    if |ts| > 0 {
      var n := |ts| - 1;
      var (prefix, s1) := CreateTablesIn(s, ts[..n]);
      CreateTablesSpec(s, ts[..n]);
      CreateDbSpec(s1, ts[n].name, FlagsFor(ts[n]));
      var (d, s2) := CreateTableIn(s1, ts[n], FlagsFor(ts[n]));
      assert CreateTablesIn(s, ts) == (Ok(prefix.value + [d.value]), s2);
      forall i | 0 <= i < n
        ensures Created(s2, ts[i], prefix.value[i])
      {
        assert ts[i] == ts[..n][i];
      }
    }
  }

  /** What `new_ro` opens, in declaration order: every table's handle, or `NotFound` if one is missing. */
  function OpenTablesIn(s: DbState, ts: seq<TableDesc>): (r: Result<seq<Dbi>, Error>)
    ensures r.Ok? <==> forall i :: 0 <= i < |ts| ==> ts[i].name in s.names
    ensures r.Ok? ==> |r.value| == |ts| && forall i :: 0 <= i < |ts| ==> r.value[i] == s.names[ts[i].name]
    ensures r.Err? ==> r.error == Mdbx(NotFound)
    decreases |ts|
  {
    if |ts| == 0 then Ok([])
    else
      var n := |ts| - 1;
      assert forall i :: 0 <= i < n ==> ts[..n][i] == ts[i];
      var prefix :- OpenTablesIn(s, ts[..n]);
      var d :- OpenTableIn(s, ts[n]);
      Ok(prefix + [d])
  }

  /** `new_ro`: open every table in the given transaction, in declaration order. */
  method NewRo(tx: Txn, ts: seq<TableDesc>) returns (r: Result<seq<Dbi>, Error>)
    ensures r == OpenTablesIn(tx.state, ts)
  {
    var dbis: seq<Dbi> := [];
    for i := 0 to |ts|
      invariant Ok(dbis) == OpenTablesIn(tx.state, ts[..i])
    {
      assert ts[..i + 1][..i] == ts[..i];
      assert forall j :: 0 <= j < i ==> ts[..i][j] == ts[j];
      var d := OpenTableTx(tx, ts[i]);
      if d.Err? {
        return Err(d.error);
      }
      dbis := dbis + [d.value];
    }
    assert ts[..|ts|] == ts;
    r := Ok(dbis);
  }

  /** `read_<table>_tx`: `get_item_tx` with the handle stored for table i. */
  method ReadTableTx<K, V>(dbis: seq<Dbi>, i: nat, t: Table<K, V>, tx: Txn, key: K) returns (r: Result<Option<V>, Error>)
    requires i < |dbis|
    ensures r == GetItemIn(tx.state, t, Some(dbis[i]), key)
  {
    var k :- t.key(key);
    var raw :- tx.Get(dbis[i], k);
    if raw.Some? {
      var v :- t.value.decode(raw.value);
      r := Ok(Some(v));
    } else {
      r := Ok(None);
    }
  }

  /** `write_<table>_tx`: encode key and value, then put them under the handle stored for table i. */
  method WriteTableTx<K, V>(dbis: seq<Dbi>, i: nat, t: Table<K, V>, tx: Txn, key: K, value: V, wf: WriteFlags) returns (r: Result<Unit, Error>)
    requires i < |dbis| && tx.writable
    modifies tx
    ensures (r, tx.state) == PutItemIn(old(tx.state), t, Some(dbis[i]), key, value, wf)
  {
    var k :- t.key(key);
    var v :- t.value.encode(value);
    r := tx.Put(dbis[i], k, v, wf);
  }

  /** After a successful `write_<table>_tx`, `read_<table>_tx` of the same key returns the value written. */
  lemma WriteThenRead<K, V(!new)>(s: DbState, dbis: seq<Dbi>, i: nat, t: Table<K, V>, key: K, value: V, wf: WriteFlags)
    requires Valid(s) && RoundTrips(t.value) && i < |dbis|
    requires PutItemIn(s, t, Some(dbis[i]), key, value, wf).0.Ok?
    ensures GetItemIn(PutItemIn(s, t, Some(dbis[i]), key, value, wf).1, t, Some(dbis[i]), key) == Ok(Some(value))
  {
    PutThenGet(s, t, Some(dbis[i]), key, value, wf);
  }
}
