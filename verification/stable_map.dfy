/** The ordered, persistent key-value map both canisters keep their records
    in. Only the behaviour the canisters rely on is modelled: lookup, and an
    insert that overwrites and hands back the value it replaced. Keys are
    strings whose UTF-8 form is bounded; inserting a longer key is a trap. */
module StableMap {

  import opened Wrappers

  /** Largest UTF-8 size, in bytes, of a key the map accepts. */
  const MAX_KEY_SIZE: nat := 100

  /** Number of bytes the UTF-8 encoding of one Unicode scalar value takes. */
  function Utf8Width(c: char): (w: nat)
    ensures 1 <= w <= 4
    ensures c as int < 0x80 <==> w == 1
  {
    if c as int < 0x80 then 1
    else if c as int < 0x800 then 2
    else if c as int < 0x1_0000 then 3
    else 4
  }

  /** Number of bytes of the UTF-8 encoding of `s`: between one and four per
      character, exactly one per character for ASCII text. */
  function Utf8Size(s: string): (n: nat)
    ensures |s| <= n <= 4 * |s|
    ensures (forall i :: 0 <= i < |s| ==> s[i] as int < 0x80) ==> n == |s|
  {
    if |s| == 0 then 0 else Utf8Width(s[0]) + Utf8Size(s[1..])
  }

  predicate KeyFits(key: string) {
    Utf8Size(key) <= MAX_KEY_SIZE
  }

  /** Every key a map holds respects the size bound: true of any map built
      only through `Insert`. */
  predicate AllKeysFit<V>(m: map<string, V>) {
    forall k :: k in m ==> KeyFits(k)
  }

  /** Why the storage layer refused an insert (the call traps). */
  datatype StoreError = KeyTooLarge(size: nat)

  function Get<V>(m: map<string, V>, key: string): Option<V> {
    if key in m then Some(m[key]) else None
  }

  /** Insert `value` under `key`, returning the new map and the value that was
      there before. A key over the bound is refused whatever the map holds. */
  function Insert<V>(m: map<string, V>, key: string, value: V): (r: Result<(map<string, V>, Option<V>), StoreError>)
    ensures r.Success? <==> KeyFits(key)
    ensures r.Failure? ==> r.error.size > MAX_KEY_SIZE
    ensures r.Success? ==> r.value.1 == Get(m, key)
    ensures r.Success? ==> Get(r.value.0, key) == Some(value)
    ensures r.Success? ==> forall k :: k != key ==> Get(r.value.0, k) == Get(m, k)
    ensures r.Success? ==> r.value.0.Keys == m.Keys + {key}
  {
    if KeyFits(key) then Success((m[key := value], Get(m, key)))
    else Failure(KeyTooLarge(Utf8Size(key)))
  }
}
