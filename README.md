# A verified model of a small file-backed table store

The repository is a minimal embedded database written in TypeScript. Its
core has three parts:

- a **table store** (`src/index.ts`). A `Table` keeps an ordered list of
  records under a column-type schema. It offers validated `insert` and
  predicate-driven `get`, `update` and `delete`. A `Database` maps table
  names to tables and runs parsed queries.
- a **query parser** (`src/sqlParser.ts`). It is a fixed-position
  tokenizer for `SELECT <fields> FROM <table>` and `INSERT INTO <table> ...`.
- a separate **key-value store** (`index.ts`). It is a string-keyed
  dictionary with `get`, `set`, `insertOrUpdate`, `delete`, `getAll` and `find`.

The model keeps the source's form:

- `Table` and both `Database` classes are Dafny classes whose methods update
  their fields (`data`, `tables`, `keys`/`data`).
- `validateRecord` is a method with a loop, proved against the function
  `Validate`.
- The parser and the filters are functions.
- Writing the backing file is modelled by a ghost field `saved`. It holds
  what the last save wrote, and every mutating operation that saves in the
  source ends with `saved` equal to the current contents.

Files:

- `wrappers.dfy`: `Option`.
- `seqs.dfy`: `Filter` (`Array.prototype.filter`), duplicate-free lists,
  and `SplitOn`/`Join` (`split`/`join` on one character).
- `records.dfy`: values, records, schemas, the error kinds, and `Validate`.
- `sql_parser.dfy`: the whitespace tokenizer, ASCII upper-casing and `Parse`.
- `table.dfy`: the `Table` class and the update function.
- `database.dfy`: the table-map `Database` and query execution.
- `kv_store.dfy`: the key-value `Database`.

Behaviour kept from the code:

- A schema is a sequence of columns in the order `for ... in` enumerates
  the schema object: array-index-like names first, in ascending numeric
  order, then the other names in insertion order. Validation visits them in
  that order and reports the first mismatch, as the loop does. A missing field has kind "undefined" (`None`). A strict check
  rejects it. A partial check (update) skips it.
- `query.split(/\s+/)` is modelled exactly. A leading or trailing whitespace
  run yields an empty first or last token. The empty query yields one empty
  token.
- A token the query does not have is `None`, like "undefined" in the source:
  - A SELECT with no second token fails (`UndefinedToken(1)`), because the
    source calls `split` on "undefined".
  - A missing table token is looked up under the key `"undefined"`
    (`TableKey`), which is how a JavaScript dictionary coerces it.
- INSERT commands always carry an empty `values` map, because the source
  never parses the value list. `ExecuteSQL` therefore inserts the empty
  record. Strict validation accepts it only when the schema is empty.
- The command is a tagged variant, `Select | Insert`, standing for
  `SQLCommandType` and `SQLCommand`. Every command is one of the two, so
  `ExecuteSQL` needs no "Unsupported SQL command" branch. This matches the
  source, where the `default` of the executor's switch cannot be reached.
- `Table.GetData` returns the stored records. `Database.Snapshot` collects
  it for every table, which is what `save` writes.

Behaviour of the code a reader might not expect:

- The key-value store's `load` swallows every error and starts empty. Only
  the table store's `load` rethrows.
- A SELECT with a missing field token throws a type error. It does not
  produce a command with empty fields.
- Saving is not atomic.

## Model

| member | source | states |
|---|---|---|
| `Records.Validate` | src/index.ts:21-37 | a failure is a `TypeMismatch` naming a declared column that does not accept the record, with the expected kind and the record's actual kind ("undefined" when missing) |
| `Records.KindAt` | src/index.ts:27-30 | `typeof record[key]`: "undefined" (`None`) iff the key is absent, otherwise the kind of the stored value |
| `Records.ValidateFirstMismatch` | src/index.ts:25-35 | validation passes iff every column accepts the record; a failure names the first column in schema order that does not |
| `Records.StrictValidation` | src/index.ts:25-35 | strict validation (insert) passes iff every declared column is present with a value of the declared kind |
| `Records.PartialValidation` | src/index.ts:25-35 | partial validation (update) passes iff every declared column the patch mentions has the declared kind |
| `Records.EmptyPatchValidates` | src/index.ts:29 | an empty patch always passes partial validation |
| `Records.StrictImpliesPartial` | src/index.ts:29-30 | a record passing strict validation passes partial validation |
| `Records.EmptySchemaAcceptsAll` | src/index.ts:93-96 | the empty schema given to tables rebuilt from the file accepts every record in both modes |
| `Records.UndeclaredFieldsUnchecked` | src/index.ts:25-27 | adding fields no column declares never changes the verdict |
| `Seqs.Filter` | src/index.ts:54 | `filter` keeps exactly the elements satisfying the predicate and never lengthens the list |
| `Seqs.FilterAppend` | src/index.ts:54 | filtering a concatenation is the concatenation of the filtered parts, so survivors keep their stored order |
| `Seqs.FilterIdempotent` | src/index.ts:73 | filtering twice with one predicate equals filtering once, so deleting twice equals deleting once |
| `Seqs.FilterKeepsAll` | src/index.ts:73 | a predicate true of every element keeps the list unchanged, so deleting with an always-false predicate is the identity |
| `Seqs.FilterDistinct` | index.ts:52 | filtering a duplicate-free key list leaves it duplicate-free |
| `Seqs.SplitOn` | src/sqlParser.ts:25 | `split(",")` yields at least one part and no part contains the separator |
| `Seqs.JoinSplitOn` | src/sqlParser.ts:25 | joining the parts of a split with the separator gives back the original string |
| `Seqs.SplitOnJoin` | src/sqlParser.ts:25 | splitting the join of separator-free parts gives back the parts |
| `SqlParser.Tokens` | src/sqlParser.ts:17 | `split(/\s+/)` yields at least one token and no token contains whitespace |
| `SqlParser.TokensJoin` | src/sqlParser.ts:17 | the tokens joined by single spaces equal the query with every whitespace run collapsed to one space |
| `SqlParser.ToUpper` | src/sqlParser.ts:18 | upper-casing keeps the length and upper-cases each character |
| `SqlParser.KeywordIgnoresCase` | src/sqlParser.ts:18-21 | a token upper-cases to a keyword iff it spells the keyword with each letter in either case |
| `SqlParser.ParseIgnoresKeywordCase` | src/sqlParser.ts:17-20 | queries whose tokens differ only in the keyword's case parse to the same result |
| `SqlParser.Parse` | src/sqlParser.ts:14-42 | the command kind is decided by the upper-cased first token (SELECT or INSERT, the latter with empty values); the only failures are the missing second token of a SELECT and an unsupported keyword |
| `SqlParser.ParseSelect` | src/sqlParser.ts:21-26 | a SELECT gives a SELECT command on token 3; fields are absent iff token 1 is `*`, otherwise they are comma-free and join back to token 1 |
| `SqlParser.ParseInsert` | src/sqlParser.ts:27-37 | an INSERT gives an INSERT command on token 2 with an empty values map, whatever follows |
| `SqlParser.ParseRejects` | src/sqlParser.ts:39-40 | parsing fails iff the keyword is neither SELECT nor INSERT (then with `UnsupportedCommand` of the keyword) or a SELECT lacks token 1 |
| `Tables.Merge` | src/index.ts:66 | `Object.assign`: the result has the union of the keys, the patch's value on a shared key and the record's elsewhere |
| `Tables.UpdateAll` | src/index.ts:64-68 | an update preserves the number of records |
| `Tables.UpdateAllAt` | src/index.ts:64-68 | each matching record becomes the record merged with the patch; each other record is unchanged |
| `Tables.UpdateWithEmptyPatch` | src/index.ts:62-68 | an update with an empty patch leaves every record unchanged |
| `Tables.Table.constructor` | src/index.ts:12-19 | a table holds the given schema and initial records |
| `Tables.Table.ValidateRecord` | src/index.ts:21-37 | the loop reports exactly what `Validate` does: the first mismatching column, or success |
| `Tables.Table.Insert` | src/index.ts:38-44 | returns the strict-validation verdict; on success the data is the old data with the record appended, on failure it is unchanged |
| `Tables.Table.GetData` | src/index.ts:46-48 | the stored records, which equal the result of `get` with a predicate that accepts every record |
| `Tables.Table.Get` | src/index.ts:51-55 | returns `Filter` of the stored records: exactly those satisfying the predicate, in stored order with repeats kept, without writing anything |
| `Tables.Table.Update` | src/index.ts:58-69 | validates the patch once; on failure no record changes, otherwise the data becomes `UpdateAll` of the old data |
| `Tables.Table.Delete` | src/index.ts:72-74 | the data becomes the old records not satisfying the predicate, in order |
| `Databases.Database.Load` | src/index.ts:87-101 | every stored table is rebuilt with an empty schema and its stored records, each as a distinct new table |
| `Databases.Database.Save` | src/index.ts:103-118 | the saved content becomes every table's records under its name |
| `Databases.Database.CreateTable` | src/index.ts:120-127 | fails with `TableAlreadyExists` iff the name is taken, changing nothing; otherwise the name maps to a new empty table with the schema and the store is saved; no existing table's records change |
| `Databases.Database.GetTable` | src/index.ts:129-136 | returns the live table iff the name is present, otherwise `TableNotFound` |
| `Databases.Database.DropTable` | src/index.ts:138-145 | fails with `TableNotFound` iff the name is missing; otherwise removes exactly that entry and saves; afterwards the name is not found and other tables are unchanged |
| `Databases.TableKey` | src/index.ts:130 | the dictionary key of a table name: the name itself, or "undefined" when the query has no such token |
| `Databases.AnyKey` | src/index.ts:165 | `fields.some(field => field in record)` holds iff some listed field is a key of the record |
| `Databases.HasAnyField` | src/index.ts:163-168 | the SELECT filter holds iff there is no field list or some listed field is a key of the record |
| `Databases.Database.ExecuteSelect` | src/index.ts:161-169 | fails iff the table is missing; otherwise returns whole records in stored order (the table's records filtered by `HasAnyField`): all of them without a field list, else exactly those having at least one listed field as a key |
| `Databases.Database.ExecuteInsert` | src/index.ts:171-175 | fails iff the table is missing; otherwise acts exactly as that table's insert and saves on success; no other table changes |
| `Databases.Database.ExecuteSQL` | src/index.ts:147-159 | passes parse errors through unchanged; a SELECT changes nothing and returns `ExecuteSelect`'s rows; an INSERT inserts the empty record into the named table |
| `KeyValue.AppendedKeys` | index.ts:39-42 | assigning a key keeps the key order duplicate-free and adds exactly that key |
| `KeyValue.RemovedKeys` | index.ts:51-54 | deleting a key keeps the key order duplicate-free and removes exactly that key; deleting an absent key changes nothing |
| `KeyValue.Matching` | index.ts:62-63 | the keys kept by `find` are exactly those present whose (value, key) pair satisfies the predicate |
| `KeyValue.Database.Load` | index.ts:9-25 | the store starts with the loaded object's keys, in order, and entries |
| `KeyValue.Database.Get` | index.ts:34-36 | returns the value under the key, or "undefined" iff the key is absent |
| `KeyValue.Database.Set` | index.ts:39-42 | afterwards the key holds the value, every other key keeps its value, and the store is saved |
| `KeyValue.Database.InsertOrUpdate` | index.ts:45-48 | has exactly the effect of `Set` on the map, the key order and the saved content |
| `KeyValue.Database.Delete` | index.ts:51-54 | afterwards the key is absent, every other key is unchanged, the store is saved; an absent key changes nothing |
| `KeyValue.Database.GetAll` | index.ts:57-59 | returns the whole map, and `get` agrees with it on every key |
| `KeyValue.Database.Find` | index.ts:61-65 | returns, in key order, the value of each key whose (value, key) pair satisfies the predicate, one per matching key |
| `KeyValue.FindComplete` | index.ts:61-65 | every key satisfying the predicate contributes its value to the result |

## Left out

- File I/O: `fs.existsSync`, `readFileSync` and `writeFileSync`, JSON parsing and stringification, and `path.resolve` are not modelled. Loading is construction from the already-parsed content. Saving is the ghost `saved` snapshot.
- Load failures: the `Failed to load database` and `Failed to save database` errors of the table store are not modelled, because they come only from the file system or the JSON parser. The key-value store's fallback to an empty object on any load error is the caller passing empty content.
- `Databases.Database.Load`: its `saved == persisted` means the file holds the loaded content. That is not so when the file was missing.
- The demo code that runs at module load (src/index.ts:178-190, index.ts:68-70) is left out. It is console output and calls on a fixed file.
- Object aliasing: `getData`, `get` and `getTable` hand out live arrays and objects, and `Object.assign` mutates record objects that callers may share. Here records are values, and `update` rewrites the sequence position by position.
- JavaScript numbers are modelled as unbounded integers (no fractions, NaN or infinities). Values are restricted to strings, numbers and booleans, so `typeof` results such as "object" for `null` are not modelled.
- `SqlParser.ToUpper`: models `toUpperCase` on ASCII letters only. JavaScript also maps letters such as `ſ` (U+017F) and `ı` (U+0131) to `S` and `I`, so it accepts a few non-ASCII spellings of the keywords that this model rejects.
- Inherited object properties: in JavaScript, `this.tables["toString"]` is truthy and `"toString" in record` is true. So a table named like an `Object.prototype` member reads as existing, and such a field name matches every record in a SELECT. The model treats only own keys as present.
- `Records.Validate`: takes the schema's columns in the order given. The model does not derive that order from the object literal; a caller must list array-index-like column names first, in ascending order, to get the column JavaScript reports.
- `KeyValue.Database.Find`: follows insertion order for all keys. `Object.keys` lists array-index-like keys (such as "7") first, in numeric order. That reordering is not modelled.
- INSERT value lists are not parsed, as in the source: the command always carries an empty record.
