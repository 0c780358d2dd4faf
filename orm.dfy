/**
 * The typed table operations of `MDBXTable` and the metadata operations of
 * `MDBXDatabase`. Each `*_tx` operation is a method on a transaction, proved
 * against a function on the store state (`...In`); the environment-level
 * convenience forms open their own transaction.
 */
module Orm {
  import opened Base
  import opened Errors
  import opened TableCodec
  import opened Store
  import opened Engine
  import KeyCodec

  /**
   * What the registry knows of a table type: a tag standing for the Rust type
   * (the identity `type_eq` compares), its `NAME`, and whether it is DUPSORT.
   */
  datatype TableDesc = TableDesc(tag: string, name: DbName, dupSort: bool)

  /** A table type: its descriptor, its key type's `key_encode` and its value type's codec. */
  datatype Table<!K, !V> = Table(desc: TableDesc, key: K -> Result<Bytes, Error>, value: ValueCodec<V>)

  /** `mdbx_table!(Ident, ..)` and `mdbx_table_def!(Ident, ..)`: the table's `NAME` is the identifier itself. */
  function MdbxTable(ident: string, dupSort: bool): (d: TableDesc)
    ensures d.name == Some(ident) && d.name != None && d.tag == ident && d.dupSort == dupSort
  {
    TableDesc(ident, Some(ident), dupSort)
  }

  /** `open_table_tx`: the handle of the sub-database named `NAME`. */
  function OpenTableIn(s: DbState, d: TableDesc): (r: Result<Dbi, Error>)
    ensures r.Ok? <==> d.name in s.names
    ensures r.Ok? ==> r.value == s.names[d.name]
    ensures r.Err? ==> r.error == Mdbx(NotFound)
  {
    OpenDb(s, d.name)
  }

  /** `create_table_tx`: creates (or reopens) the sub-database named `NAME` with the given flags. */
  function CreateTableIn(s: DbState, d: TableDesc, flags: DatabaseFlags): (Result<Dbi, Error>, DbState)
  {
    CreateDb(s, d.name, flags)
  }

  /** The handle a `*_tx` read uses: the one given, or else the table opened by name. */
  function ReadDbi(s: DbState, d: TableDesc, dbi: Option<Dbi>): Result<Dbi, Error>
  {
    if dbi.Some? then Ok(dbi.value) else OpenTableIn(s, d)
  }

  /** `.map(table_decode).transpose()`: an absent value stays absent, a present one is decoded. */
  function DecodeStored<V>(c: ValueCodec<V>, raw: Option<Bytes>): (r: Result<Option<V>, Error>)
    ensures raw.None? ==> r == Ok(None)
    ensures raw.Some? ==> (r.Ok? <==> c.decode(raw.value).Ok?)
    ensures raw.Some? && r.Ok? ==> r.value == Some(c.decode(raw.value).value)
    ensures raw.Some? && r.Err? ==> r.error == c.decode(raw.value).error
  {
    match raw
    case None => Ok(None)
    case Some(bytes) =>
      var v :- c.decode(bytes);
      Ok(Some(v))
  }

  /** `get_item_tx`: resolve the handle, encode the key, read, decode the value if there is one. */
  function GetItemIn<K, V>(s: DbState, t: Table<K, V>, dbi: Option<Dbi>, key: K): Result<Option<V>, Error>
  {
    var d :- ReadDbi(s, t.desc, dbi);
    var k :- t.key(key);
    var raw :- Get(s, d, k);
    DecodeStored(t.value, raw)
  }

  /**
   * `put_item_tx`: resolve the handle (creating the table with default flags when
   * none is given), encode the key, encode the value, write. A creation stays in
   * the transaction's state even when a later step fails.
   */
  function PutItemIn<K, V>(s: DbState, t: Table<K, V>, dbi: Option<Dbi>, key: K, value: V, wf: WriteFlags): (Result<Unit, Error>, DbState)
  {
    var (rd, s1) := if dbi.Some? then (Ok(dbi.value), s) else CreateTableIn(s, t.desc, DEFAULT_FLAGS);
    if rd.Err? then (Err(rd.error), s1)
    else
      match t.key(key)
      case Err(e) => (Err(e), s1)
      case Ok(k) =>
        match t.value.encode(value)
        case Err(e) => (Err(e), s1)
        case Ok(v) =>
          match Put(s1, rd.value, k, v, wf)
          case Err(e) => (Err(e), s1)
          case Ok(s2) => (Ok(Unit), s2)
  }

  method OpenTableTx(tx: Txn, d: TableDesc) returns (r: Result<Dbi, Error>)
    ensures r == OpenTableIn(tx.state, d)
  {
    r := tx.OpenDb(d.name);
  }

  /** `open_table`: `open_table_tx` in a fresh read-only transaction. */
  method OpenTable(env: Env, d: TableDesc) returns (r: Result<Dbi, Error>)
    ensures r == OpenTableIn(env.committed, d)
  {
    var tx := env.BeginRoTxn();
    r := OpenTableTx(tx, d);
  }

  method CreateTableTx(tx: Txn, d: TableDesc, flags: DatabaseFlags) returns (r: Result<Dbi, Error>)
    requires tx.writable
    modifies tx
    ensures (r, tx.state) == CreateTableIn(old(tx.state), d, flags)
  {
    r := tx.CreateDb(d.name, flags);
  }

  method GetItemTx<K, V>(tx: Txn, t: Table<K, V>, dbi: Option<Dbi>, key: K) returns (r: Result<Option<V>, Error>)
    ensures r == GetItemIn(tx.state, t, dbi, key)
  {
    var d: Dbi;
    if dbi.Some? {
      d := dbi.value;
    } else {
      d :- OpenTableTx(tx, t.desc);
    }
    var k :- t.key(key);
    var raw :- tx.Get(d, k);
    r := DecodeStored(t.value, raw);
  }

  /** `get_item`: `get_item_tx` with no handle, in a fresh read-only transaction. */
  method GetItem<K, V>(env: Env, t: Table<K, V>, key: K) returns (r: Result<Option<V>, Error>)
    ensures r == GetItemIn(env.committed, t, None, key)
  {
    var tx := env.BeginRoTxn();
    r := GetItemTx(tx, t, None, key);
  }

  method PutItemTx<K, V>(tx: Txn, t: Table<K, V>, dbi: Option<Dbi>, key: K, value: V, wf: WriteFlags) returns (r: Result<Unit, Error>)
    requires tx.writable
    modifies tx
    ensures (r, tx.state) == PutItemIn(old(tx.state), t, dbi, key, value, wf)
  {
    var d: Dbi;
    if dbi.Some? {
      d := dbi.value;
    } else {
      d :- CreateTableTx(tx, t.desc, DEFAULT_FLAGS);
    }
    var k :- t.key(key);
    var v :- t.value.encode(value);
    r := tx.Put(d, k, v, wf);
  }

  /** The environment after `put_item` as written: its transaction is never committed, so nothing is published. */
  function PutItemEnv<K, V>(s: DbState, t: Table<K, V>, key: K, value: V, wf: WriteFlags): (Result<Unit, Error>, DbState)
  {
    (PutItemIn(s, t, None, key, value, wf).0, s)
  }

  /** The environment after `put_item` with the commit it evidently needs: published on success only. */
  function PutItemEnvCommitted<K, V>(s: DbState, t: Table<K, V>, key: K, value: V, wf: WriteFlags): (Result<Unit, Error>, DbState)
  {
    var (r, s') := PutItemIn(s, t, None, key, value, wf);
    if r.Ok? then (r, s') else (r, s)
  }

  /** `put_item` as written: `put_item_tx` in a read-write transaction that is dropped, not committed. */
  method PutItem<K, V>(env: Env, t: Table<K, V>, key: K, value: V, wf: WriteFlags) returns (r: Result<Unit, Error>)
    ensures (r, env.committed) == PutItemEnv(env.committed, t, key, value, wf)
  {
    var tx := env.BeginRwTxn();
    r := PutItemTx(tx, t, None, key, value, wf);
  }

  /** `put_item` followed by the commit of its transaction when the put succeeded. */
  method PutItemCommitted<K, V>(env: Env, t: Table<K, V>, key: K, value: V, wf: WriteFlags) returns (r: Result<Unit, Error>)
    modifies env
    ensures (r, env.committed) == PutItemEnvCommitted(old(env.committed), t, key, value, wf)
  {
    var tx := env.BeginRwTxn();
    r := PutItemTx(tx, t, None, key, value, wf);
    if r.Ok? {
      r := tx.Commit();
    }
  }

  /** The environment after `create_table` as written: the creation is never committed. */
  function CreateTableEnv(s: DbState, d: TableDesc, flags: DatabaseFlags): (Result<Dbi, Error>, DbState)
  {
    (CreateTableIn(s, d, flags).0, s)
  }

  /** The environment after `create_table` with a commit on success. */
  function CreateTableEnvCommitted(s: DbState, d: TableDesc, flags: DatabaseFlags): (Result<Dbi, Error>, DbState)
  {
    var (r, s') := CreateTableIn(s, d, flags);
    if r.Ok? then (r, s') else (r, s)
  }

  /** `create_table` as written: `create_table_tx` in a read-write transaction that is dropped, not committed. */
  method CreateTable(env: Env, d: TableDesc, flags: DatabaseFlags) returns (r: Result<Dbi, Error>)
    ensures (r, env.committed) == CreateTableEnv(env.committed, d, flags)
  {
    var tx := env.BeginRwTxn();
    r := CreateTableTx(tx, d, flags);
  }

  /** `create_table` followed by the commit of its transaction when the creation succeeded. */
  method CreateTableCommitted(env: Env, d: TableDesc, flags: DatabaseFlags) returns (r: Result<Dbi, Error>)
    modifies env
    ensures (r, env.committed) == CreateTableEnvCommitted(old(env.committed), d, flags)
  {
    var tx := env.BeginRwTxn();
    r := CreateTableTx(tx, d, flags);
    if r.Ok? {
      var c := tx.Commit();
    }
  }

  /** `METADATA_NAME`: the ASCII bytes of `metadata`, the key the metadata is stored under. */
  const METADATA_NAME: Bytes := [109, 101, 116, 97, 100, 97, 116, 97]

  /** The handle the metadata operations use: the one given, or else the unnamed main database. */
  function MetadataDbi(s: DbState, dbi: Option<Dbi>): Result<Dbi, Error>
  {
    if dbi.Some? then Ok(dbi.value) else OpenDb(s, None)
  }

  /** `write_metadata_tx`: resolve the handle, encode the metadata, put it under `METADATA_NAME` with default write flags. */
  function WriteMetadataIn<M>(s: DbState, meta: ValueCodec<M>, dbi: Option<Dbi>, m: M): (Result<Unit, Error>, DbState)
  {
    match MetadataDbi(s, dbi)
    case Err(e) => (Err(e), s)
    case Ok(d) =>
      match meta.encode(m)
      case Err(e) => (Err(e), s)
      case Ok(bytes) =>
        match Put(s, d, METADATA_NAME, bytes, DEFAULT_WRITE_FLAGS)
        case Err(e) => (Err(e), s)
        case Ok(s') => (Ok(Unit), s')
  }

  /** `metadata_tx`: resolve the handle, read `METADATA_NAME`, decode it if present. */
  function MetadataIn<M>(s: DbState, meta: ValueCodec<M>, dbi: Option<Dbi>): Result<Option<M>, Error>
  {
    var d :- MetadataDbi(s, dbi);
    var raw :- Get(s, d, METADATA_NAME);
    DecodeStored(meta, raw)
  }

  method WriteMetadataTx<M>(tx: Txn, meta: ValueCodec<M>, dbi: Option<Dbi>, m: M) returns (r: Result<Unit, Error>)
    requires tx.writable
    modifies tx
    ensures (r, tx.state) == WriteMetadataIn(old(tx.state), meta, dbi, m)
  {
    var d: Dbi;
    if dbi.Some? {
      d := dbi.value;
    } else {
      d :- tx.OpenDb(None);
    }
    var bytes :- meta.encode(m);
    r := tx.Put(d, METADATA_NAME, bytes, DEFAULT_WRITE_FLAGS);
  }

  /** `write_metadata`: `write_metadata_tx` with no handle, committed only when it succeeded. */
  method WriteMetadata<M>(env: Env, meta: ValueCodec<M>, m: M) returns (r: Result<Unit, Error>)
    modifies env
    ensures r == WriteMetadataIn(old(env.committed), meta, None, m).0
    ensures env.committed == if r.Ok? then WriteMetadataIn(old(env.committed), meta, None, m).1 else old(env.committed)
  {
    var tx := env.BeginRwTxn();
    var w :- WriteMetadataTx(tx, meta, None, m);
    r := tx.Commit();
  }

  method MetadataTx<M>(tx: Txn, meta: ValueCodec<M>, dbi: Option<Dbi>) returns (r: Result<Option<M>, Error>)
    ensures r == MetadataIn(tx.state, meta, dbi)
  {
    var d: Dbi;
    if dbi.Some? {
      d := dbi.value;
    } else {
      d :- tx.OpenDb(None);
    }
    var raw :- tx.Get(d, METADATA_NAME);
    r := DecodeStored(meta, raw);
  }

  /** `metadata`: `metadata_tx` with no handle, in a fresh read-only transaction. */
  method Metadata<M>(env: Env, meta: ValueCodec<M>) returns (r: Result<Option<M>, Error>)
    ensures r == MetadataIn(env.committed, meta, None)
  {
    var tx := env.BeginRoTxn();
    r := MetadataTx(tx, meta, None);
  }

  /**
   * A read resolves its handle, then encodes the key; a failure of either is
   * returned as is. With both in hand, an unknown handle is `BadDbi`, an absent
   * key is `None` and a stored value is decoded.
   */
  lemma GetItemCases<K, V>(s: DbState, t: Table<K, V>, dbi: Option<Dbi>, key: K)
    ensures dbi.None? && t.desc.name !in s.names ==> GetItemIn(s, t, dbi, key) == Err(Mdbx(NotFound))
    ensures dbi.None? && t.desc.name in s.names ==> ReadDbi(s, t.desc, dbi) == Ok(s.names[t.desc.name])
    ensures dbi.Some? ==> ReadDbi(s, t.desc, dbi) == Ok(dbi.value)
    ensures ReadDbi(s, t.desc, dbi).Ok? && t.key(key).Err? ==> GetItemIn(s, t, dbi, key) == Err(t.key(key).error)
    ensures ReadDbi(s, t.desc, dbi).Ok? && t.key(key).Ok? ==>
      var (d, k) := (ReadDbi(s, t.desc, dbi).value, t.key(key).value);
      && (d !in s.tables ==> GetItemIn(s, t, dbi, key) == Err(Mdbx(BadDbi)))
      && (d in s.tables && k !in s.tables[d] ==> GetItemIn(s, t, dbi, key) == Ok(None))
      && (d in s.tables && k in s.tables[d] ==> GetItemIn(s, t, dbi, key) == DecodeStored(t.value, Some(s.tables[d][k])))
  {
  }

  /** The handle a put writes to: the one given, or the table created (or reopened) with default flags. */
  function PutDbi<K, V>(s: DbState, t: Table<K, V>, dbi: Option<Dbi>): Result<Dbi, Error>
  {
    if dbi.Some? then Ok(dbi.value) else CreateTableIn(s, t.desc, DEFAULT_FLAGS).0
  }

  /**
   * After a successful `put_item_tx`, `get_item_tx` with the same handle argument
   * (or none) returns the value put, provided the value codec round-trips, and the
   * state stays well formed.
   */
  lemma PutThenGet<K, V(!new)>(s: DbState, t: Table<K, V>, dbi: Option<Dbi>, key: K, value: V, wf: WriteFlags)
    requires Valid(s) && RoundTrips(t.value)
    requires PutItemIn(s, t, dbi, key, value, wf).0.Ok?
    ensures Valid(PutItemIn(s, t, dbi, key, value, wf).1)
    ensures GetItemIn(PutItemIn(s, t, dbi, key, value, wf).1, t, dbi, key) == Ok(Some(value))
  {
    if dbi.None? {
      CreateDbSpec(s, t.desc.name, DEFAULT_FLAGS);
    }
    var s1 := if dbi.Some? then s else CreateTableIn(s, t.desc, DEFAULT_FLAGS).1;
    PutSpec(s1, PutDbi(s, t, dbi).value, t.key(key).value, t.value.encode(value).value, wf);
  }

  /** A successful put changes only the one entry it writes: every other key of every existing table reads as before. */
  lemma PutKeepsOthers<K, V>(s: DbState, t: Table<K, V>, dbi: Option<Dbi>, key: K, value: V, wf: WriteFlags)
    requires Valid(s)
    requires PutItemIn(s, t, dbi, key, value, wf).0.Ok?
    ensures PutDbi(s, t, dbi).Ok? && t.key(key).Ok?
    ensures forall d, k :: d in s.tables && (d != PutDbi(s, t, dbi).value || k != t.key(key).value) ==>
      Get(PutItemIn(s, t, dbi, key, value, wf).1, d, k) == Get(s, d, k)
  {
    if dbi.None? {
      CreateDbSpec(s, t.desc.name, DEFAULT_FLAGS);
    }
    var s1 := if dbi.Some? then s else CreateTableIn(s, t.desc, DEFAULT_FLAGS).1;
    PutSpec(s1, PutDbi(s, t, dbi).value, t.key(key).value, t.value.encode(value).value, wf);
  }

  /**
   * After a successful `write_metadata_tx`, `metadata_tx` with the same handle
   * argument returns the metadata written; with no handle it is stored at
   * `METADATA_NAME` in the unnamed main database.
   */
  lemma MetadataRoundTrip<M(!new)>(s: DbState, meta: ValueCodec<M>, dbi: Option<Dbi>, m: M)
    requires Valid(s) && RoundTrips(meta)
    requires WriteMetadataIn(s, meta, dbi, m).0.Ok?
    ensures meta.encode(m).Ok? && Valid(WriteMetadataIn(s, meta, dbi, m).1)
    ensures MetadataIn(WriteMetadataIn(s, meta, dbi, m).1, meta, dbi) == Ok(Some(m))
    ensures dbi.None? ==>
      Get(WriteMetadataIn(s, meta, dbi, m).1, s.names[None], METADATA_NAME) == Ok(Some(meta.encode(m).value))
  {
    PutSpec(s, MetadataDbi(s, dbi).value, METADATA_NAME, meta.encode(m).value, DEFAULT_WRITE_FLAGS);
  }

  /** A fresh environment has no metadata. */
  lemma MetadataAbsentInitially<M>(meta: ValueCodec<M>)
    ensures MetadataIn(Initial(), meta, None) == Ok(None)
  {
  }

  /** A table named `T` with verbatim byte keys and byte values. */
  function SampleTable(): Table<Bytes, Bytes>
  {
    Table(MdbxTable("T", false), KeyCodec.VerbatimKeyEncode, VecCodec())
  }

  /**
   * `put_item` as written on a fresh environment reports success, yet a later
   * `get_item` of the same key does not even find the table.
   */
  lemma PutItemLost()
    ensures PutItemEnv(Initial(), SampleTable(), [1], [2], DEFAULT_WRITE_FLAGS).0 == Ok(Unit)
    ensures GetItemIn(PutItemEnv(Initial(), SampleTable(), [1], [2], DEFAULT_WRITE_FLAGS).1, SampleTable(), None, [1]) == Err(Mdbx(NotFound))
  {
    assert Some("T") != None;
  }

  /** With the commit, a successful `put_item` is read back by `get_item`. */
  lemma PutItemCommittedThenGet<K, V(!new)>(s: DbState, t: Table<K, V>, key: K, value: V, wf: WriteFlags)
    requires Valid(s) && RoundTrips(t.value)
    requires PutItemEnvCommitted(s, t, key, value, wf).0.Ok?
    ensures Valid(PutItemEnvCommitted(s, t, key, value, wf).1)
    ensures GetItemIn(PutItemEnvCommitted(s, t, key, value, wf).1, t, None, key) == Ok(Some(value))
  {
    PutThenGet(s, t, None, key, value, wf);
  }

  /** `create_table` as written on a fresh environment returns a handle, yet the table cannot be opened afterwards. */
  lemma CreateTableLost()
    ensures CreateTableEnv(Initial(), MdbxTable("T", false), DEFAULT_FLAGS).0 == Ok(1)
    ensures OpenTableIn(CreateTableEnv(Initial(), MdbxTable("T", false), DEFAULT_FLAGS).1, MdbxTable("T", false)) == Err(Mdbx(NotFound))
  {
    assert Some("T") != None;
  }

  /** With the commit, a successful `create_table` is found by `open_table` under the handle it returned. */
  lemma CreateTableCommittedThenOpen(s: DbState, d: TableDesc, flags: DatabaseFlags)
    requires Valid(s)
    requires CreateTableEnvCommitted(s, d, flags).0.Ok?
    ensures Valid(CreateTableEnvCommitted(s, d, flags).1)
    ensures OpenTableIn(CreateTableEnvCommitted(s, d, flags).1, d) == CreateTableEnvCommitted(s, d, flags).0
  {
    CreateDbSpec(s, d.name, flags);
  }
}
