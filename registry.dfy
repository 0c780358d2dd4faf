/**
 * The table registry: the nested pair list `(T1, (T2, (..., ())))` of table types,
 * modelled as the sequence of their descriptors in declaration order. It gives
 * the first-match lookup `MatchName`, the name-to-handle map built by
 * `MDBXTables::create_all`, and the lookup `HasMDBXDBIStore::dbi`.
 */
module Registry {
  import opened Base
  import opened Errors
  import opened Store
  import opened Engine
  import opened Orm

  /** A registry entry matches when it is of the requested type and has the requested `NAME`. */
  predicate Matches(d: TableDesc, tag: string, name: DbName)
  {
    d.tag == tag && d.name == name
  }

  /** Position i holds the first matching entry. */
  predicate FirstMatch(ts: seq<TableDesc>, tag: string, name: DbName, i: int)
  {
    0 <= i < |ts| && Matches(ts[i], tag, name) && forall j :: 0 <= j < i ==> !Matches(ts[j], tag, name)
  }

  lemma FirstMatchInTail(ts: seq<TableDesc>, tag: string, name: DbName, j: nat)
    requires |ts| > 0 && !Matches(ts[0], tag, name)
    requires FirstMatch(ts[1..], tag, name, j)
    ensures FirstMatch(ts, tag, name, j + 1)
  {
    forall k | 0 <= k < j + 1
      ensures !Matches(ts[k], tag, name)
    {
      if k > 0 {
        assert ts[k] == ts[1..][k - 1];
      }
    }
  }

  /**
   * `match_name_mut::<T>(name)`: which entry the returned mutable reference points
   * at, namely the first one that matches; `None` when none does, in particular
   * on the empty list.
   */
  function MatchNameMut(ts: seq<TableDesc>, tag: string, name: DbName): (r: Option<nat>)
    ensures r.None? <==> forall i :: 0 <= i < |ts| ==> !Matches(ts[i], tag, name)
    ensures r.Some? ==> FirstMatch(ts, tag, name, r.value)
    decreases |ts|
  {
    if |ts| == 0 then None
    else if ts[0].tag == tag && ts[0].name == name then Some(0)
    else
      match MatchNameMut(ts[1..], tag, name)
      case None =>
        assert forall i :: 1 <= i < |ts| ==> ts[i] == ts[1..][i - 1];
        None
      case Some(j) =>
        FirstMatchInTail(ts, tag, name, j);
        Some(j + 1)
  }

  /** `match_name::<T>(name)`: the first entry of type T whose `NAME` is `name`. */
  function MatchName(ts: seq<TableDesc>, tag: string, name: DbName): (r: Option<TableDesc>)
    ensures r.Some? ==> Matches(r.value, tag, name) && r.value in ts
    decreases |ts|
  {
    if |ts| == 0 then None
    else if ts[0].tag == tag && ts[0].name == name then Some(ts[0])
    else MatchName(ts[1..], tag, name)
  }

  /** `match_name` and `match_name_mut` select the same entry. */
  lemma {:induction false} MatchNameAgrees(ts: seq<TableDesc>, tag: string, name: DbName)
    ensures MatchNameMut(ts, tag, name).None? ==> MatchName(ts, tag, name).None?
    ensures MatchNameMut(ts, tag, name).Some? ==>
      MatchNameMut(ts, tag, name).value < |ts| && MatchName(ts, tag, name) == Some(ts[MatchNameMut(ts, tag, name).value])
    decreases |ts|
  {
    if |ts| > 0 && !(ts[0].tag == tag && ts[0].name == name) {
      MatchNameAgrees(ts[1..], tag, name);
    }
  }

  /** An entry of the requested type but with another `NAME` is never selected, wherever it sits. */
  lemma MatchNameSkipsOtherNames(ts: seq<TableDesc>, tag: string, name: DbName, i: nat)
    requires i < |ts| && ts[i].tag == tag && ts[i].name != name
    ensures MatchNameMut(ts, tag, name) != Some(i)
  {
  }

  /** The `HashMap` key for a table: its `NAME`, or `""` when that is `None`. */
  function NameKey(name: DbName): string
  {
    match name
    case None => ""
    case Some(n) => n
  }

  /**
   * `MDBXTables::create_all`: create the head table, then the tail's; the map
   * holds the head's entry overridden by the tail's (`insert`, then `extend`).
   * The first failure is returned and the tables after it are not attempted.
   */
  function CreateAllIn(s: DbState, ts: seq<TableDesc>, flags: DatabaseFlags): (Result<map<string, Dbi>, Error>, DbState)
    decreases |ts|
  {
    if |ts| == 0 then (Ok(map[]), s)
    else
      var (head, s1) := CreateTableIn(s, ts[0], flags);
      if head.Err? then (Err(head.error), s1)
      else
        var (tail, s2) := CreateAllIn(s1, ts[1..], flags);
        if tail.Err? then (Err(tail.error), s2)
        else (Ok(map[NameKey(ts[0].name) := head.value] + tail.value), s2)
  }

  method CreateAll(tx: Txn, ts: seq<TableDesc>, flags: DatabaseFlags) returns (r: Result<map<string, Dbi>, Error>)
    requires tx.writable
    modifies tx
    ensures (r, tx.state) == CreateAllIn(old(tx.state), ts, flags)
    decreases |ts|
  {
    if |ts| == 0 {
      return Ok(map[]);
    }
    var vals: map<string, Dbi> := map[];
    var dbi :- CreateTableTx(tx, ts[0], flags);
    vals := vals[NameKey(ts[0].name) := dbi];
    var tail :- CreateAll(tx, ts[1..], flags);
    vals := vals + tail;
    return Ok(vals);
  }

  /**
   * Once the tables up to `i` fail, the whole `create_all` has that outcome and
   * that state: the tables after the failing one are never attempted.
   */
  lemma {:induction false} CreateAllFailureSticks(s: DbState, ts: seq<TableDesc>, flags: DatabaseFlags, i: nat)
    requires i <= |ts|
    requires CreateAllIn(s, ts[..i], flags).0.Err?
    ensures CreateAllIn(s, ts, flags) == CreateAllIn(s, ts[..i], flags)
    decreases i
  {
    assert ts[..i][0] == ts[0];
    var (head, s1) := CreateTableIn(s, ts[0], flags);
    if head.Ok? {
      assert ts[..i][1..] == ts[1..][..i - 1];
      CreateAllFailureSticks(s1, ts[1..], flags, i - 1);
    }
  }

  /**
   * A successful `create_all` keeps the state well formed, keeps every existing
   * name at its handle, and leaves every listed table existing.
   */
  lemma {:induction false} CreateAllState(s: DbState, ts: seq<TableDesc>, flags: DatabaseFlags)
    requires Valid(s)
    requires CreateAllIn(s, ts, flags).0.Ok?
    ensures Valid(CreateAllIn(s, ts, flags).1)
    ensures forall n :: n in s.names ==> n in CreateAllIn(s, ts, flags).1.names && CreateAllIn(s, ts, flags).1.names[n] == s.names[n]
    ensures forall i :: 0 <= i < |ts| ==> ts[i].name in CreateAllIn(s, ts, flags).1.names
    decreases |ts|
  {
    if |ts| > 0 {
      var (head, s1) := CreateTableIn(s, ts[0], flags);
      CreateDbSpec(s, ts[0].name, flags);
      CreateAllState(s1, ts[1..], flags);
      var s2 := CreateAllIn(s1, ts[1..], flags).1;
      assert CreateAllIn(s, ts, flags).1 == s2;
      forall i | 1 <= i < |ts|
        ensures ts[i].name in s2.names
      {
        assert ts[i] == ts[1..][i - 1];
      }
    }
  }

  /** The keys of the map `create_all` returns are exactly the listed names, `""` standing for `None`. */
  lemma {:induction false} CreateAllKeys(s: DbState, ts: seq<TableDesc>, flags: DatabaseFlags)
    requires CreateAllIn(s, ts, flags).0.Ok?
    ensures CreateAllIn(s, ts, flags).0.value.Keys == set i | 0 <= i < |ts| :: NameKey(ts[i].name)
    decreases |ts|
  {
    if |ts| > 0 {
      var (head, s1) := CreateTableIn(s, ts[0], flags);
      CreateAllKeys(s1, ts[1..], flags);
      var tail := CreateAllIn(s1, ts[1..], flags).0;
      assert CreateAllIn(s, ts, flags).0.value == map[NameKey(ts[0].name) := head.value] + tail.value;
      var tailKeys := set i | 0 <= i < |ts[1..]| :: NameKey(ts[1..][i].name);
      assert tailKeys == set i | 1 <= i < |ts| :: NameKey(ts[i].name) by {
        forall k | k in tailKeys ensures k in set i | 1 <= i < |ts| :: NameKey(ts[i].name) {
          var i :| 0 <= i < |ts[1..]| && k == NameKey(ts[1..][i].name);
          assert ts[1..][i] == ts[i + 1];
        }
        forall k | k in set i | 1 <= i < |ts| :: NameKey(ts[i].name) ensures k in tailKeys {
          var i :| 1 <= i < |ts| && k == NameKey(ts[i].name);
          assert ts[1..][i - 1] == ts[i];
        }
      }
    }
  }

  /** No table is named `""`, so `NameKey` tells the listed names apart. */
  predicate NoEmptyName(ts: seq<TableDesc>)
  {
    forall i :: 0 <= i < |ts| ==> ts[i].name != Some("")
  }

  /** Each listed table's map entry is the handle its name has in the state `create_all` leaves. */
  lemma {:induction false} CreateAllValues(s: DbState, ts: seq<TableDesc>, flags: DatabaseFlags)
    requires Valid(s) && NoEmptyName(ts)
    requires CreateAllIn(s, ts, flags).0.Ok?
    ensures forall i :: 0 <= i < |ts| ==>
      ts[i].name in CreateAllIn(s, ts, flags).1.names &&
      NameKey(ts[i].name) in CreateAllIn(s, ts, flags).0.value &&
      CreateAllIn(s, ts, flags).0.value[NameKey(ts[i].name)] == CreateAllIn(s, ts, flags).1.names[ts[i].name]
    decreases |ts|
  {
    if |ts| > 0 {
      var (head, s1) := CreateTableIn(s, ts[0], flags);
      CreateDbSpec(s, ts[0].name, flags);
      CreateAllState(s1, ts[1..], flags);
      CreateAllKeys(s1, ts[1..], flags);
      CreateAllValues(s1, ts[1..], flags);
      var (tail, s2) := CreateAllIn(s1, ts[1..], flags);
      var m := map[NameKey(ts[0].name) := head.value] + tail.value;
      assert CreateAllIn(s, ts, flags) == (Ok(m), s2);
      forall i | 0 <= i < |ts|
        ensures ts[i].name in s2.names && NameKey(ts[i].name) in m && m[NameKey(ts[i].name)] == s2.names[ts[i].name]
      {
        if i > 0 {
          assert ts[i] == ts[1..][i - 1];
        } else if NameKey(ts[0].name) in tail.value {
          var j :| 0 <= j < |ts[1..]| && NameKey(ts[1..][j].name) == NameKey(ts[0].name);
          assert ts[1..][j].name == ts[0].name;
        }
      }
    }
  }

  /** `dbi::<T>()`: the handle stored under `T`'s name (`""` for `None`). */
  function DbiOf(dbis: map<string, Dbi>, d: TableDesc): (r: Option<Dbi>)
    ensures r.Some? <==> NameKey(d.name) in dbis
    ensures r.Some? ==> r.value == dbis[NameKey(d.name)]
  {
    if NameKey(d.name) in dbis then Some(dbis[NameKey(d.name)]) else None
  }

  /** After `create_all`, `dbi::<T>()` of every listed table is the handle `open_table_tx` gives in the new state. */
  lemma DbiAfterCreateAll(s: DbState, ts: seq<TableDesc>, flags: DatabaseFlags)
    requires Valid(s) && NoEmptyName(ts)
    requires CreateAllIn(s, ts, flags).0.Ok?
    ensures forall i :: 0 <= i < |ts| ==>
      DbiOf(CreateAllIn(s, ts, flags).0.value, ts[i]).Some? &&
      OpenTableIn(CreateAllIn(s, ts, flags).1, ts[i]) == Ok(DbiOf(CreateAllIn(s, ts, flags).0.value, ts[i]).value)
  {
    CreateAllValues(s, ts, flags);
  }

  /** The unit result `MDBXDatabase::create_all` makes of the map. */
  function Discard(r: Result<map<string, Dbi>, Error>): Result<Unit, Error>
  {
    if r.Ok? then Ok(Unit) else Err(r.error)
  }

  /** The environment after `MDBXDatabase::create_all` as written: its transaction is never committed. */
  function DatabaseCreateAllEnv(s: DbState, ts: seq<TableDesc>, flags: DatabaseFlags): (Result<Unit, Error>, DbState)
  {
    (Discard(CreateAllIn(s, ts, flags).0), s)
  }

  /** The environment after `MDBXDatabase::create_all` with a commit on success. */
  function DatabaseCreateAllEnvCommitted(s: DbState, ts: seq<TableDesc>, flags: DatabaseFlags): (Result<Unit, Error>, DbState)
  {
    var (r, s') := CreateAllIn(s, ts, flags);
    if r.Ok? then (Ok(Unit), s') else (Err(r.error), s)
  }

  /** `MDBXDatabase::create_all` as written: `create_all` in a read-write transaction that is dropped. */
  method DatabaseCreateAll(env: Env, ts: seq<TableDesc>, flags: DatabaseFlags) returns (r: Result<Unit, Error>)
    ensures (r, env.committed) == DatabaseCreateAllEnv(env.committed, ts, flags)
  {
    var tx := env.BeginRwTxn();
    var _ :- CreateAll(tx, ts, flags);
    r := Ok(Unit);
  }

  /** `MDBXDatabase::create_all` followed by the commit of its transaction on success. */
  method DatabaseCreateAllCommitted(env: Env, ts: seq<TableDesc>, flags: DatabaseFlags) returns (r: Result<Unit, Error>)
    modifies env
    ensures (r, env.committed) == DatabaseCreateAllEnvCommitted(old(env.committed), ts, flags)
  {
    var tx := env.BeginRwTxn();
    var _ :- CreateAll(tx, ts, flags);
    r := tx.Commit();
  }

  /** As written, creating all tables of a fresh environment succeeds, yet none of them can be opened afterwards. */
  lemma DatabaseCreateAllLost()
    ensures DatabaseCreateAllEnv(Initial(), [MdbxTable("T", false)], DEFAULT_FLAGS).0 == Ok(Unit)
    ensures OpenTableIn(DatabaseCreateAllEnv(Initial(), [MdbxTable("T", false)], DEFAULT_FLAGS).1, MdbxTable("T", false)) == Err(Mdbx(NotFound))
  {
    var ts := [MdbxTable("T", false)];
    assert Some("T") != None;
    assert ts[1..] == [];
  }

  /** With the commit, every table `create_all` created can be opened afterwards. */
  lemma DatabaseCreateAllCommittedOpens(s: DbState, ts: seq<TableDesc>, flags: DatabaseFlags)
    requires Valid(s)
    requires DatabaseCreateAllEnvCommitted(s, ts, flags).0.Ok?
    ensures Valid(DatabaseCreateAllEnvCommitted(s, ts, flags).1)
    ensures forall i :: 0 <= i < |ts| ==> OpenTableIn(DatabaseCreateAllEnvCommitted(s, ts, flags).1, ts[i]).Ok?
  {
    CreateAllState(s, ts, flags);
  }
}
