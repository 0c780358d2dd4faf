/**
 * Transactions over the stand-in store: a transaction works on a private copy of
 * the committed state and publishes it on commit; a transaction that is dropped
 * without a commit leaves the environment as it was.
 */
module Engine {
  import opened Base
  import opened Errors
  import opened Store

  /** An engine transaction: a private copy of the state, published to the environment on commit. */
  class Txn {
    const env: Env
    const writable: bool
    var state: DbState

    constructor (env: Env, writable: bool)
      ensures this.env == env && this.writable == writable && state == env.committed
    {
      this.env := env;
      this.writable := writable;
      state := env.committed;
    }

    method OpenDb(name: DbName) returns (r: Result<Dbi, Error>)
      ensures r == Store.OpenDb(state, name)
    {
      r := Store.OpenDb(state, name);
    }

    method CreateDb(name: DbName, flags: DatabaseFlags) returns (r: Result<Dbi, Error>)
      requires writable
      modifies this
      ensures (r, state) == Store.CreateDb(old(state), name, flags)
    {
      var (res, s') := Store.CreateDb(state, name, flags);
      r, state := res, s';
    }

    method Get(dbi: Dbi, key: Bytes) returns (r: Result<Option<Bytes>, Error>)
      ensures r == Store.Get(state, dbi, key)
    {
      r := Store.Get(state, dbi, key);
    }

    method Put(dbi: Dbi, key: Bytes, value: Bytes, wf: WriteFlags) returns (r: Result<Unit, Error>)
      requires writable
      modifies this
      ensures Store.Put(old(state), dbi, key, value, wf).Err? ==>
        r == Err(Store.Put(old(state), dbi, key, value, wf).error) && state == old(state)
      ensures Store.Put(old(state), dbi, key, value, wf).Ok? ==>
        r == Ok(Unit) && state == Store.Put(old(state), dbi, key, value, wf).value
    {
      var res := Store.Put(state, dbi, key, value, wf);
      if res.Err? {
        r := Err(res.error);
      } else {
        r, state := Ok(Unit), res.value;
      }
    }

    /** Publishes the transaction's state to its environment. */
    method Commit() returns (r: Result<Unit, Error>)
      modifies env
      ensures r == Ok(Unit) && env.committed == state
    {
      env.committed := state;
      r := Ok(Unit);
    }
  }

  /** An environment: the last committed state. */
  class Env {
    var committed: DbState

    constructor (s: DbState)
      ensures committed == s
    {
      committed := s;
    }

    method BeginRoTxn() returns (tx: Txn)
      ensures fresh(tx) && tx.env == this && !tx.writable && tx.state == committed
    {
      tx := new Txn(this, false);
    }

    method BeginRwTxn() returns (tx: Txn)
      ensures fresh(tx) && tx.env == this && tx.writable && tx.state == committed
    {
      tx := new Txn(this, true);
    }
  }
}
