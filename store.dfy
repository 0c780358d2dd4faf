/**
 * A small in-memory stand-in for the key/value engine the typed layer runs on.
 * It is not a model of the engine: it keeps just enough to state the typed
 * layer's contracts, namely named sub-databases with their handles ("dbi") and
 * flags, one byte-keyed map per sub-database, and transactions that work on a
 * private copy of the state and publish it on commit (dropping one discards it).
 */
module Store {
  import opened Base
  import opened Errors

  /** A sub-database handle. */
  type Dbi = nat

  /** A sub-database name; `None` is the unnamed main database. */
  type DbName = Option<string>

  /** The one database flag the typed layer sets. */
  datatype DatabaseFlags = DatabaseFlags(dupSort: bool)

  const DEFAULT_FLAGS: DatabaseFlags := DatabaseFlags(false)
  const DUP_SORT: DatabaseFlags := DatabaseFlags(true)

  /** Write flags are handed to the engine unchanged; the stand-in does not interpret them. */
  datatype WriteFlags = WriteFlags(bits: nat)

  const DEFAULT_WRITE_FLAGS: WriteFlags := WriteFlags(0)

  datatype DbState = DbState(
    names: map<DbName, Dbi>,
    flags: map<Dbi, DatabaseFlags>,
    tables: map<Dbi, map<Bytes, Bytes>>,
    next: Dbi)

  /**
   * The main database always exists, every name has a table and flags, no two
   * names share a handle, and handles not yet handed out are at or above `next`.
   */
  ghost predicate Valid(s: DbState)
  {
    && None in s.names
    && (forall n :: n in s.names ==> s.names[n] in s.tables && s.names[n] in s.flags)
    && (forall n, m :: n in s.names && m in s.names && n != m ==> s.names[n] != s.names[m])
    && (forall d :: d in s.tables ==> d < s.next)
  }

  /** A fresh environment: only the empty main database, with handle 0. */
  function Initial(): (s: DbState)
    ensures Valid(s) && s.names == map[None := 0] && s.tables[0] == map[]
  {
    DbState(map[None := 0], map[0 := DEFAULT_FLAGS], map[0 := map[]], 1)
  }

  /** `open_db(name)`: the existing handle, or `NotFound`. */
  function OpenDb(s: DbState, name: DbName): (r: Result<Dbi, Error>)
    ensures r.Ok? <==> name in s.names
    ensures r.Ok? ==> r.value == s.names[name]
    ensures r.Err? ==> r.error == Mdbx(NotFound)
  {
    if name in s.names then Ok(s.names[name]) else Err(Mdbx(NotFound))
  }

  /**
   * `create_db(name, flags)`: the existing handle when the flags agree,
   * `Incompatible` when they do not, otherwise a new empty sub-database.
   */
  function CreateDb(s: DbState, name: DbName, flags: DatabaseFlags): (Result<Dbi, Error>, DbState)
  {
    if name in s.names then
      if s.names[name] in s.flags && s.flags[s.names[name]] == flags then (Ok(s.names[name]), s)
      else (Err(Mdbx(Incompatible)), s)
    else
      var d := s.next;
      (Ok(d), DbState(s.names[name := d], s.flags[d := flags], s.tables[d := map[]], d + 1))
  }

  /** `get(dbi, key)`: the stored value if any; an unknown handle is `BadDbi`. */
  function Get(s: DbState, dbi: Dbi, key: Bytes): (r: Result<Option<Bytes>, Error>)
    ensures r.Err? <==> dbi !in s.tables
    ensures r.Err? ==> r.error == Mdbx(BadDbi)
    ensures r.Ok? ==> (r.value.Some? <==> key in s.tables[dbi])
    ensures r.Ok? && r.value.Some? ==> r.value.value == s.tables[dbi][key]
  {
    if dbi !in s.tables then Err(Mdbx(BadDbi))
    else if key in s.tables[dbi] then Ok(Some(s.tables[dbi][key]))
    else Ok(None)
  }

  /** `put(dbi, key, value, flags)`: stores the pair; an unknown handle is `BadDbi`. */
  function Put(s: DbState, dbi: Dbi, key: Bytes, value: Bytes, wf: WriteFlags): Result<DbState, Error>
  {
    if dbi !in s.tables then Err(Mdbx(BadDbi))
    else Ok(s.(tables := s.tables[dbi := s.tables[dbi][key := value]]))
  }

  lemma CreateDbSpec(s: DbState, name: DbName, flags: DatabaseFlags)
    requires Valid(s)
    ensures var (r, s') := CreateDb(s, name, flags);
      && Valid(s')
      && (r.Err? ==> r.error == Mdbx(Incompatible) && s' == s && name in s.names)
      && (r.Ok? ==> OpenDb(s', name) == Ok(r.value) && r.value in s'.tables && s'.flags[r.value] == flags)
      && (r.Ok? && name in s.names ==> s' == s)
      && (name !in s.names ==> r.Ok? && s'.tables[r.value] == map[])
      && (forall n :: n in s.names ==> n in s'.names && s'.names[n] == s.names[n])
      && (forall d :: d in s.tables ==> d in s'.tables && s'.tables[d] == s.tables[d])
      && (forall d :: d in s.flags && d in s.tables ==> d in s'.flags && s'.flags[d] == s.flags[d])
  {
  }

  /** Creating a sub-database twice with the same flags gives the same handle and changes nothing the second time. */
  lemma CreateDbIdempotent(s: DbState, name: DbName, flags: DatabaseFlags)
    requires Valid(s)
    requires CreateDb(s, name, flags).0.Ok?
    ensures var (r, s') := CreateDb(s, name, flags); CreateDb(s', name, flags) == (r, s')
  {
  }

  /** A put is read back by a get of the same key, and leaves every other entry and all names as they were. */
  lemma PutSpec(s: DbState, dbi: Dbi, key: Bytes, value: Bytes, wf: WriteFlags)
    requires Valid(s)
    ensures Put(s, dbi, key, value, wf).Err? <==> dbi !in s.tables
    ensures Put(s, dbi, key, value, wf).Ok? ==>
      var s' := Put(s, dbi, key, value, wf).value;
      && Valid(s')
      && s'.names == s.names && s'.flags == s.flags && s'.tables.Keys == s.tables.Keys
      && Get(s', dbi, key) == Ok(Some(value))
      && (forall d, k :: d in s.tables && (d != dbi || k != key) ==> Get(s', d, k) == Get(s, d, k))
  {
  }
}
