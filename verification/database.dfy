/** The in-memory key/value store (database.py): search results, a list of
    rows per keyword. Reading a missing key yields the empty list. Python's
    dictionary views are ordered; here keys and items are sets. */
module Database {
  import opened Options

  datatype Db<T> = Db(data: map<string, seq<T>>)

  function Empty<T>(): (db: Db<T>)
    ensures forall k :: !Contains(db, k)
  {
    Db(map[])
  }

  /** `key in db`. */
  predicate Contains<T>(db: Db<T>, key: string) {
    key in db.data
  }

  /** `db[key]`: the stored list, or the empty list for a missing key. */
  function Get<T>(db: Db<T>, key: string): (v: seq<T>)
    ensures !Contains(db, key) ==> v == []
    ensures Contains(db, key) ==> v == db.data[key]
  {
    if key in db.data then db.data[key] else []
  }

  /** `db.get(key, default)`. */
  function GetOr<T>(db: Db<T>, key: string, default: Option<seq<T>>): (v: Option<seq<T>>)
    ensures Contains(db, key) ==> v == Some(Get(db, key))
    ensures !Contains(db, key) ==> v == default
  {
    if key in db.data then Some(db.data[key]) else default
  }

  /** `db[key] = value`. */
  function Set<T>(db: Db<T>, key: string, value: seq<T>): (db': Db<T>)
    ensures Contains(db', key) && Get(db', key) == value
    ensures forall k :: k != key ==> (Contains(db', k) <==> Contains(db, k))
    ensures forall k :: k != key ==> Get(db', k) == Get(db, k)
  {
    Db(db.data[key := value])
  }

  /** `clear()`. */
  function Clear<T>(db: Db<T>): (db': Db<T>)
    ensures forall k :: !Contains(db', k) && Get(db', k) == []
  {
    Db(map[])
  }

  /** `keys()`. */
  function Keys<T>(db: Db<T>): (ks: set<string>)
    ensures forall k :: k in ks <==> Contains(db, k)
  {
    db.data.Keys
  }

  /** `values()`, without order or multiplicity. */
  function Values<T(==,!new)>(db: Db<T>): (vs: set<seq<T>>)
    ensures forall v :: v in vs <==> exists k :: Contains(db, k) && Get(db, k) == v
  {
    var vs := db.data.Values;
    forall v | v in vs
      ensures exists k :: Contains(db, k) && Get(db, k) == v
    {
      var k :| k in db.data && db.data[k] == v;
      assert Contains(db, k) && Get(db, k) == v;
    }
    vs
  }

  /** `items()`. */
  function Items<T(==,!new)>(db: Db<T>): (its: set<(string, seq<T>)>)
    ensures forall k, v :: (k, v) in its <==> Contains(db, k) && Get(db, k) == v
  {
    db.data.Items
  }

  /** Indexing and `get` with an empty-list default agree on every key. */
  lemma GetAgreesWithGetOr<T>(db: Db<T>, key: string)
    ensures GetOr(db, key, Some([])) == Some(Get(db, key))
  {
  }

  /** Storing the same value twice is the same as storing it once, and a
      later store under the same key overrides an earlier one. */
  lemma SetOverrides<T>(db: Db<T>, key: string, a: seq<T>, b: seq<T>)
    ensures Set(Set(db, key, a), key, b) == Set(db, key, b)
    ensures Set(Set(db, key, a), key, a) == Set(db, key, a)
  {
  }

  /** Stores under different keys commute. */
  lemma SetCommutes<T>(db: Db<T>, k1: string, k2: string, a: seq<T>, b: seq<T>)
    requires k1 != k2
    ensures Set(Set(db, k1, a), k2, b) == Set(Set(db, k2, b), k1, a)
  {
  }
}
