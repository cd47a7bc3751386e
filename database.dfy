/**
 * The `Database` class of src/index.ts: a dictionary from table name to
 * table, and the execution of parsed SELECT and INSERT commands. Writing the
 * file is modelled by `saved`, the content the last save wrote.
 */
module Databases {
  import opened Wrappers
  import opened Seqs
  import opened Records
  import opened Tables
  import opened SqlParser

  /** What `executeSQL` returns: the selected records, or nothing after an insert. */
  datatype QueryResult = Rows(records: seq<Record>) | Done

  /** The dictionary key a table name becomes: a missing token is looked up as "undefined". */
  function TableKey(name: Option<string>): (key: string)
    ensures name == Some(key) || (name == None && key == "undefined")
  {
    match name
    case Some(n) => n
    case None => "undefined"
  }

  /** `fields.some(field => field in record)`. */
  function AnyKey(fields: seq<string>, record: Record): (r: bool)
    ensures r <==> exists i :: 0 <= i < |fields| && fields[i] in record
  {
    if fields == [] then false
    else fields[0] in record || AnyKey(fields[1..], record)
  }

  /** The SELECT filter: with a field list, at least one listed field is a key of the record. */
  function HasAnyField(fields: Option<seq<string>>, record: Record): (r: bool)
    ensures r <==> fields.None? || exists i :: 0 <= i < |fields.value| && fields.value[i] in record
  {
    match fields
    case None => true
    case Some(fs) => AnyKey(fs, record)
  }

  /** The predicate `executeSelect` hands to `get`. */
  function SelectFilter(fields: Option<seq<string>>): RecordPredicate
  {
    r => HasAnyField(fields, r)
  }

  class Database {
    var tables: map<string, Table>
    ghost var saved: map<string, seq<Record>>

    /** Different names never share one table object. */
    ghost predicate Valid()
      reads this
    {
      forall a, b :: a in tables && b in tables && a != b ==> tables[a] != tables[b]
    }

    /** What `save` writes: every table's records under its name. */
    ghost function Snapshot(): map<string, seq<Record>>
      reads this, tables.Values
    {
      map n | n in tables :: tables[n].GetData()
    }

    /**
     * Construction from the content of the file (empty when there is none):
     * every stored table is rebuilt with an empty schema.
     */
    constructor Load(persisted: map<string, seq<Record>>)
      ensures Valid() && tables.Keys == persisted.Keys && saved == persisted
      ensures forall n :: n in tables ==> fresh(tables[n]) && tables[n].schema == [] && tables[n].data == persisted[n]
    {
      var m: map<string, Table> := map[];
      var rest := persisted.Keys;
      while rest != {}
        invariant rest <= persisted.Keys && m.Keys == persisted.Keys - rest
        invariant forall n :: n in m ==> fresh(m[n]) && m[n].schema == [] && m[n].data == persisted[n]
        invariant forall a, b :: a in m && b in m && a != b ==> m[a] != m[b]
        decreases rest
      {
        var n :| n in rest;
        var t := new Table([], persisted[n]);
        m := m[n := t];
        rest := rest - {n};
      }
      tables := m;
      saved := persisted;
    }

    /** `save`: the file now holds every table's records. */
    method Save()
      modifies this`saved
      ensures saved == Snapshot()
    {
      saved := Snapshot();
    }

    /**
     * `createTable`: an existing name is refused and nothing changes;
     * otherwise the name maps to a new empty table with the given schema and
     * the database is saved. No existing table's records change either way.
     */
    method CreateTable(name: string, schema: Schema) returns (r: Outcome)
      requires Valid()
      modifies this
      ensures Valid()
      ensures r.Fail? <==> name in old(tables)
      ensures r.Fail? ==> r == Fail(TableAlreadyExists(name)) && tables == old(tables) && saved == old(saved)
      ensures r.Pass? ==>
        && name in tables && fresh(tables[name]) && tables[name].schema == schema && tables[name].data == []
        && tables == old(tables)[name := tables[name]] && saved == Snapshot()
      ensures forall n :: n in old(tables) ==> n in tables && tables[n] == old(tables[n]) && tables[n].data == old(tables[n].data)
    {
      if name in tables {
        return Fail(TableAlreadyExists(name));
      }
      var t := new Table(schema, []);
      tables := tables[name := t];
      Save();
      r := Pass;
    }

    /** `getTable`: the live table under the name, or `TableNotFound` when there is none. */
    function GetTable(name: string): (r: Result<Table>)
      reads this
      ensures r.Ok? <==> name in tables
      ensures r.Ok? ==> r.value == tables[name]
      ensures r.Err? ==> r.error == TableNotFound(name)
    {
      if name in tables then Ok(tables[name]) else Err(TableNotFound(name))
    }

    /**
     * `dropTable`: a missing name is refused; otherwise the entry is removed
     * and the database is saved. Afterwards the name is not found, and every
     * other table is unchanged.
     */
    method DropTable(name: string) returns (r: Outcome)
      requires Valid()
      modifies this
      ensures Valid()
      ensures r.Fail? <==> name !in old(tables)
      ensures r.Fail? ==> r == Fail(TableNotFound(name)) && tables == old(tables) && saved == old(saved)
      ensures r.Pass? ==> tables == old(tables) - {name} && saved == Snapshot()
      ensures GetTable(name) == Err(TableNotFound(name))
      ensures forall n :: n in old(tables) && n != name ==> n in tables && tables[n] == old(tables[n])
    {
      if name !in tables {
        return Fail(TableNotFound(name));
      }
      tables := tables - {name};
      Save();
      r := Pass;
    }

    /**
     * `executeSelect`: whole records, not projections. Without a field list
     * every record is returned; with one, exactly the records that have at
     * least one listed field as a key, in stored order.
     */
    function ExecuteSelect(tableName: Option<string>, fields: Option<seq<string>>): (r: Result<seq<Record>>)
      reads this, tables.Values
      ensures r.Err? <==> TableKey(tableName) !in tables
      ensures r.Err? ==> r.error == TableNotFound(TableKey(tableName))
      ensures r.Ok? ==> r.value == Filter(tables[TableKey(tableName)].data, SelectFilter(fields))
      ensures r.Ok? ==> forall x :: x in r.value <==> x in tables[TableKey(tableName)].data && HasAnyField(fields, x)
      ensures r.Ok? && fields.None? ==> r.value == tables[TableKey(tableName)].data
    {
      match GetTable(TableKey(tableName))
      case Err(e) => Err(e)
      case Ok(table) =>
        var all := table.data;
        FilterKeepsAll(all, SelectFilter(None));
        Ok(table.Get(SelectFilter(fields)))
    }

    /**
     * `executeInsert`: a missing table is refused; otherwise the command's
     * values go through that table's `insert`, and a successful insert is
     * saved. No other table changes.
     */
    method ExecuteInsert(tableName: Option<string>, values: Record) returns (r: Outcome)
      requires Valid()
      modifies this, tables.Values
      ensures Valid() && tables == old(tables)
      ensures TableKey(tableName) !in tables ==> r == Fail(TableNotFound(TableKey(tableName))) && saved == old(saved)
      ensures TableKey(tableName) in tables ==>
        var t := tables[TableKey(tableName)];
        r == Validate(t.schema, values, false)
        && t.data == (if r.Pass? then old(t.data) + [values] else old(t.data))
        && saved == (if r.Pass? then Snapshot() else old(saved))
      ensures forall n :: n in tables && n != TableKey(tableName) ==> tables[n].data == old(tables[n].data)
    {
      var key := TableKey(tableName);
      if key !in tables {
        return Fail(TableNotFound(key));
      }
      var t := tables[key];
      r := t.Insert(values);
      if r.Pass? {
        Save();
      }
    }

    /**
     * `executeSQL`: parses the query and runs the command. Parse errors are
     * returned unchanged; a SELECT changes nothing; an INSERT acts as
     * `ExecuteInsert`. Since the parser only makes SELECT and INSERT
     * commands, the dispatch needs no unsupported-command branch.
     */
    method ExecuteSQL(query: string) returns (r: Result<QueryResult>)
      requires Valid()
      modifies this, tables.Values
      ensures Valid() && tables == old(tables)
      ensures Parse(query).Err? ==> r == Err(Parse(query).error)
      ensures Parse(query).Err? || Parse(query).value.Select? ==>
        saved == old(saved) && forall n :: n in tables ==> tables[n].data == old(tables[n].data)
      ensures Parse(query).Ok? && Parse(query).value.Select? ==>
        var cmd := Parse(query).value;
        r == match ExecuteSelect(cmd.tableName, cmd.fields)
             case Ok(rows) => Ok(Rows(rows))
             case Err(e) => Err(e)
      ensures Parse(query).Ok? && Parse(query).value.Insert? ==>
        var key := TableKey(Parse(query).value.tableName);
        (key !in tables ==> r == Err(TableNotFound(key)) && saved == old(saved))
        && (key in tables ==>
              var t := tables[key];
              (r.Ok? <==> Validate(t.schema, map[], false).Pass?)
              && (r.Ok? ==> r.value == Done && t.data == old(t.data) + [map[]] && saved == Snapshot())
              && (r.Err? ==> r.error == Validate(t.schema, map[], false).error && t.data == old(t.data) && saved == old(saved)))
        && forall n :: n in tables && n != key ==> tables[n].data == old(tables[n].data)
    {
      var parsed := Parse(query);
      if parsed.Err? {
        return Err(parsed.error);
      }
      match parsed.value
      case Select(tableName, fields) =>
        var rows := ExecuteSelect(tableName, fields);
        r := match rows case Ok(rs) => Ok(Rows(rs)) case Err(e) => Err(e);
      case Insert(tableName, values) =>
        var o := ExecuteInsert(tableName, values);
        r := if o.Pass? then Ok(Done) else Err(o.error);
    }
  }
}
