/**
 * The `Table` class of src/index.ts: an ordered list of records under a
 * schema, with validated insert and predicate-driven get, update and delete.
 */
module Tables {
  import opened Wrappers
  import opened Seqs
  import opened Records

  /** The predicate a caller passes to `get`, `update` and `delete`. */
  type RecordPredicate = Record -> bool

  /** The negation of a predicate, as `delete` keeps the records it rejects. */
  function Complement(p: RecordPredicate): RecordPredicate
  {
    r => !p(r)
  }

  /**
   * `Object.assign(record, patch)`: every field of the patch is written into
   * the record, overwriting on a shared name and adding otherwise.
   */
  function Merge(record: Record, patch: Record): (r: Record)
    ensures r.Keys == record.Keys + patch.Keys
    ensures forall k :: k in patch ==> r[k] == patch[k]
    ensures forall k :: k in record && k !in patch ==> r[k] == record[k]
  {
    record + patch
  }

  /** The records after an update that has passed validation: the matching ones receive the patch. */
  function UpdateAll(s: seq<Record>, p: RecordPredicate, patch: Record): (r: seq<Record>)
    ensures |r| == |s|
  {
    if s == [] then [] else [if p(s[0]) then Merge(s[0], patch) else s[0]] + UpdateAll(s[1..], p, patch)
  }

  /** Position by position, an update merges the patch into a matching record and leaves the others alone. */
  lemma {:induction false} UpdateAllAt(s: seq<Record>, p: RecordPredicate, patch: Record, i: nat)
    requires i < |s|
    ensures UpdateAll(s, p, patch)[i] == if p(s[i]) then Merge(s[i], patch) else s[i]
  {
    if i > 0 {
      UpdateAllAt(s[1..], p, patch, i - 1);
    }
  }

  /** An update with an empty patch leaves every record as it was. */
  lemma {:induction false} UpdateWithEmptyPatch(s: seq<Record>, p: RecordPredicate)
    ensures UpdateAll(s, p, map[]) == s
  {
    forall i | 0 <= i < |s| ensures UpdateAll(s, p, map[])[i] == s[i] {
      UpdateAllAt(s, p, map[], i);
      assert s[i] + map[] == s[i];
    }
  }

  /** The predicate that accepts every record. */
  function Always(r: Record): bool
  {
    true
  }

  class Table {
    const schema: Schema
    var data: seq<Record>

    /** A table with a schema and, for tables rebuilt from the file, its stored records. */
    constructor (schema: Schema, initialData: seq<Record>)
      ensures this.schema == schema && data == initialData
    {
      this.schema := schema;
      data := initialData;
    }

    /** `validateRecord`: visits the schema's columns in order and reports the first mismatch. */
    method ValidateRecord(record: Record, forUpdate: bool) returns (r: Outcome)
      ensures r == Validate(schema, record, forUpdate)
    {
      for i := 0 to |schema|
        invariant Validate(schema[i..], record, forUpdate) == Validate(schema, record, forUpdate)
      {
        var c := schema[i];
        var kind := KindAt(record, c.name);
        if (!forUpdate || c.name in record) && kind != Some(c.kind) {
          return Fail(TypeMismatch(c.name, c.kind, kind));
        }
        assert schema[i..][1..] == schema[i + 1..];
      }
      assert schema[|schema|..] == [];
      return Pass;
    }

    /** `insert`: strict validation, then the record is appended; a rejected record changes nothing. */
    method Insert(record: Record) returns (r: Outcome)
      modifies this
      ensures r == Validate(schema, record, false)
      ensures data == if r.Pass? then old(data) + [record] else old(data)
    {
      r := ValidateRecord(record, false);
      if r.Pass? {
        data := data + [record];
      }
    }

    /** `getData`: the stored records in order, the same as `get` with a predicate that accepts everything. */
    function GetData(): (r: seq<Record>)
      reads this
      ensures r == Get(Always)
    {
      FilterKeepsAll(data, Always);
      data
    }

    /** `get`: exactly the stored records that satisfy `p`, in stored order. */
    function Get(p: RecordPredicate): (r: seq<Record>)
      reads this
      ensures r == Filter(data, p)
      ensures |r| <= |data|
      ensures forall x :: x in r <==> x in data && p(x)
    {
      Filter(data, p)
    }

    /**
     * `update`: the patch is validated once, partially; if it passes, every
     * matching record is merged with it in place, otherwise nothing changes.
     */
    method Update(p: RecordPredicate, patch: Record) returns (r: Outcome)
      modifies this
      ensures r == Validate(schema, patch, true)
      ensures data == if r.Pass? then UpdateAll(old(data), p, patch) else old(data)
    {
      r := ValidateRecord(patch, true);
      if r.Fail? {
        return;
      }
      ghost var before := data;
      var i := 0;
      while i < |data|
        invariant 0 <= i <= |data| == |before|
        invariant forall j :: 0 <= j < i ==> data[j] == if p(before[j]) then Merge(before[j], patch) else before[j]
        invariant forall j :: i <= j < |data| ==> data[j] == before[j]
      {
        if p(data[i]) {
          data := data[i := Merge(data[i], patch)];
        }
        i := i + 1;
      }
      forall j | 0 <= j < |before| ensures data[j] == UpdateAll(before, p, patch)[j] {
        UpdateAllAt(before, p, patch, j);
      }
    }

    /** `delete`: keeps exactly the records that do not satisfy `p`, in their order. */
    method Delete(p: RecordPredicate)
      modifies this
      ensures data == Filter(old(data), Complement(p))
    {
      data := Filter(data, Complement(p));
    }
  }
}
