/** The earlier, ungated registry: a plain map from key to usage record
    with `get` and `insert` endpoints. No caller identity is consulted, so
    the model's endpoints take none. */
module Registry {

  import opened Wrappers
  import opened Ints
  import StableMap

  datatype Param = Param(lastUse: u64, count: u32)

  type Store = map<string, Param>

  const Empty: Store := map[]

  /** `get`: the record stored under `key`, if any. */
  function Get(st: Store, key: string): (r: Option<Param>)
    ensures r.Some? <==> key in st
    ensures r.Some? ==> r.value == st[key]
  {
    StableMap.Get(st, key)
  }

  /** `insert`: store `value` under `key` and return what was there. Open to
      every caller: the only way it fails is a key over the storage bound. */
  function Insert(st: Store, key: string, value: Param): (r: Result<(Store, Option<Param>), StableMap.StoreError>)
    ensures r.Success? <==> StableMap.KeyFits(key)
    ensures r.Success? ==> r.value.1 == Get(st, key)
    ensures r.Success? ==> Get(r.value.0, key) == Some(value)
    ensures r.Success? ==> forall k :: k != key ==> Get(r.value.0, k) == Get(st, k)
  {
    StableMap.Insert(st, key, value)
  }

  /** One `insert` call as it reaches the canister. */
  datatype Insertion = Insertion(key: string, value: Param)

  /** The store after a sequence of `insert` calls; one that traps leaves
      the store as it was. */
  function InsertAll(st: Store, ops: seq<Insertion>): Store
    decreases |ops|
  {
    if |ops| == 0 then st
    else
      match Insert(st, ops[0].key, ops[0].value)
      case Success((st', _)) => InsertAll(st', ops[1..])
      case Failure(_) => InsertAll(st, ops[1..])
  }

  /** A key that no insert names is untouched by the whole sequence; from
      the empty store, `get` of such a key is `None`. */
  lemma {:induction false} UntouchedKey(st: Store, ops: seq<Insertion>, key: string)
    requires forall i :: 0 <= i < |ops| ==> ops[i].key != key
    ensures Get(InsertAll(st, ops), key) == Get(st, key)
    decreases |ops|
  {
    if |ops| > 0 {
      match Insert(st, ops[0].key, ops[0].value)
      case Success((st', _)) => UntouchedKey(st', ops[1..], key);
      case Failure(_) => UntouchedKey(st, ops[1..], key);
    }
  }

  lemma NeverInsertedIsNone(ops: seq<Insertion>, key: string)
    requires forall i :: 0 <= i < |ops| ==> ops[i].key != key
    ensures Get(InsertAll(Empty, ops), key) == None
  {
    UntouchedKey(Empty, ops, key);
  }

  /** The last successful insert of a key decides what `get` returns. */
  lemma {:induction false} LastInsertWins(st: Store, ops: seq<Insertion>, key: string, value: Param)
    requires StableMap.KeyFits(key)
    ensures Get(InsertAll(st, ops + [Insertion(key, value)]), key) == Some(value)
    decreases |ops|
  {
    if |ops| == 0 {
      assert ops + [Insertion(key, value)] == [Insertion(key, value)];
    } else {
      assert (ops + [Insertion(key, value)])[1..] == ops[1..] + [Insertion(key, value)];
      match Insert(st, ops[0].key, ops[0].value)
      case Success((st', _)) => LastInsertWins(st', ops[1..], key, value);
      case Failure(_) => LastInsertWins(st, ops[1..], key, value);
    }
  }
}
