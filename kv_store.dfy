/**
 * The key-value `Database` of index.ts: a string-keyed dictionary written to
 * a file after every change. `keys` records the order in which the keys
 * were added, the order `Object.keys` lists them in; `saved` is what the
 * last save wrote.
 */
module KeyValue {
  import opened Wrappers
  import opened Seqs

  /** The key order after assigning `key`: a new key goes last, an existing one keeps its place. */
  function Appended(keys: seq<string>, key: string): seq<string>
  {
    if key in keys then keys else keys + [key]
  }

  /** The key order after deleting `key`. */
  function Removed(keys: seq<string>, key: string): seq<string>
  {
    Filter(keys, k => k != key)
  }

  /** Assigning a key keeps the key list free of duplicates and adds exactly that key. */
  lemma AppendedKeys(keys: seq<string>, key: string)
    requires Distinct(keys)
    ensures Distinct(Appended(keys, key))
    ensures forall k :: k in Appended(keys, key) <==> k in keys || k == key
  {
  }

  /**
   * Deleting a key keeps the key list free of duplicates and removes exactly
   * that key; deleting an absent key leaves the list as it was.
   */
  lemma RemovedKeys(keys: seq<string>, key: string)
    requires Distinct(keys)
    ensures Distinct(Removed(keys, key))
    ensures forall k :: k in Removed(keys, key) <==> k in keys && k != key
    ensures key !in keys ==> Removed(keys, key) == keys
  {
    FilterDistinct(keys, k => k != key);
    if key !in keys {
      FilterKeepsAll(keys, k => k != key);
    }
  }

  /** The values stored under `ks`, in that order. */
  function ValuesAt<V>(ks: seq<string>, data: map<string, V>): (vs: seq<V>)
    requires forall k :: k in ks ==> k in data
    ensures |vs| == |ks|
    ensures forall i :: 0 <= i < |ks| ==> vs[i] == data[ks[i]]
  {
    seq(|ks|, i requires 0 <= i < |ks| => data[ks[i]])
  }

  /** The keys, in key order, whose (value, key) pair satisfies `p`. */
  function Matching<V>(keys: seq<string>, data: map<string, V>, p: (V, string) -> bool): (ks: seq<string>)
    ensures forall k :: k in ks <==> k in keys && k in data && p(data[k], k)
  {
    Filter(keys, k => k in data && p(data[k], k))
  }

  class Database<V> {
    var keys: seq<string>
    var data: map<string, V>
    ghost var saved: map<string, V>

    /** The key list holds every key of the dictionary once, and nothing else. */
    ghost predicate Valid()
      reads this
    {
      Distinct(keys) && forall k :: k in data <==> k in keys
    }

    /** Construction from the loaded object: its keys in order and its entries. */
    constructor Load(order: seq<string>, contents: map<string, V>)
      requires Distinct(order) && forall k :: k in contents <==> k in order
      ensures Valid() && keys == order && data == contents && saved == contents
    {
      keys, data, saved := order, contents, contents;
    }

    /** `get`: the value under `key`, or `None` ("undefined") when it is absent. */
    function Get(key: string): (r: Option<V>)
      reads this
      ensures r.Some? <==> key in data
      ensures r.Some? ==> r.value == data[key]
    {
      if key in data then Some(data[key]) else None
    }

    /** `set`: afterwards `key` holds `value`, every other key keeps its value, and the store is saved. */
    method Set(key: string, value: V)
      requires Valid()
      modifies this
      ensures Valid()
      ensures data == old(data)[key := value] && keys == Appended(old(keys), key) && saved == data
      ensures Get(key) == Some(value)
      ensures forall k :: k != key ==> Get(k) == old(Get(k))
    {
      AppendedKeys(keys, key);
      keys := Appended(keys, key);
      data := data[key := value];
      saved := data;
    }

    /** `insertOrUpdate`: the same effect as `set`. */
    method InsertOrUpdate(key: string, value: V)
      requires Valid()
      modifies this
      ensures Valid()
      ensures data == old(data)[key := value] && keys == Appended(old(keys), key) && saved == data
      ensures Get(key) == Some(value)
      ensures forall k :: k != key ==> Get(k) == old(Get(k))
    {
      Set(key, value);
    }

    /**
     * `delete`: afterwards `key` is absent, every other key keeps its value,
     * and the store is saved; deleting an absent key changes nothing else.
     */
    method Delete(key: string)
      requires Valid()
      modifies this
      ensures Valid()
      ensures data == old(data) - {key} && keys == Removed(old(keys), key) && saved == data
      ensures Get(key) == None
      ensures forall k :: k != key ==> Get(k) == old(Get(k))
      ensures key !in old(data) ==> data == old(data) && keys == old(keys)
    {
      RemovedKeys(keys, key);
      keys := Removed(keys, key);
      data := data - {key};
      saved := data;
    }

    /** `getAll`: the whole dictionary, which agrees with `get` on every key. */
    function GetAll(): (all: map<string, V>)
      reads this
      ensures forall k :: Get(k) == if k in all then Some(all[k]) else None
    {
      data
    }

    /**
     * `find`: the values whose (value, key) pair satisfies `p`, listed in key
     * order; each one is the value of a matching key.
     */
    function Find(p: (V, string) -> bool): (r: seq<V>)
      reads this
      ensures |r| == |Matching(keys, data, p)|
      ensures forall i :: 0 <= i < |r| ==>
        var k := Matching(keys, data, p)[i];
        k in data && p(data[k], k) && r[i] == data[k]
    {
      ValuesAt(Matching(keys, data, p), data)
    }
  }

  /** Every matching key contributes its value to `find`: nothing that satisfies `p` is missed. */
  lemma FindComplete<V>(db: Database<V>, p: (V, string) -> bool, key: string)
    requires db.Valid() && key in db.data && p(db.data[key], key)
    ensures exists i :: 0 <= i < |db.Find(p)| && db.Find(p)[i] == db.data[key]
  {
    var ks := Matching(db.keys, db.data, p);
    assert key in ks;
    var i :| 0 <= i < |ks| && ks[i] == key;
    assert db.Find(p)[i] == db.data[key];
  }
}
