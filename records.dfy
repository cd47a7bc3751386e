/**
 * Records, schemas and schema validation of the table store
 * (`TableSchema` and `Table.validateRecord` in src/index.ts), together
 * with the error kinds every operation of the store can raise.
 */
module Records {
  import opened Wrappers

  /** The primitive type names a schema may declare: "string", "number" or "boolean". */
  datatype ColumnType = StringType | NumberType | BooleanType

  /** A scalar field value, tagged with its runtime kind. Numbers are modelled as integers. */
  datatype Value = Str(s: string) | Num(n: int) | Bool(b: bool)

  /** One record: field name to value. A field that is not a key is `undefined`. */
  type Record = map<string, Value>

  /** One declared column of a schema. */
  datatype Column = Column(name: string, kind: ColumnType)

  /**
   * A schema: its columns in the order `for ... in` enumerates the schema
   * object (array-index-like names first, in ascending numeric order, then
   * the other names in insertion order). Validation visits them in this
   * order, which decides which mismatch is reported.
   */
  type Schema = seq<Column>

  /** The errors the store raises. `actual == None` stands for JavaScript's "undefined". */
  datatype Error =
    | TypeMismatch(column: string, expected: ColumnType, actual: Option<ColumnType>)
    | TableAlreadyExists(name: string)
    | TableNotFound(name: string)
    | UnsupportedCommand(keyword: string)
    | UndefinedToken(index: nat)

  /** The result of an operation that either returns a value or throws. */
  datatype Result<+T> = Ok(value: T) | Err(error: Error)

  /** The result of an operation that returns nothing or throws. */
  datatype Outcome = Pass | Fail(error: Error)

  /** `typeof v` for a present value. */
  function TypeOf(v: Value): ColumnType
  {
    match v
    case Str(_) => StringType
    case Num(_) => NumberType
    case Bool(_) => BooleanType
  }

  /** `typeof record[key]`, with `None` for a missing key ("undefined"). */
  function KindAt(record: Record, key: string): (kind: Option<ColumnType>)
    ensures kind.None? <==> key !in record
    ensures kind.Some? ==> kind.value == TypeOf(record[key])
  {
    if key in record then Some(TypeOf(record[key])) else None
  }

  /**
   * Column `c` raises no mismatch for `record`: it is either skipped (an
   * update that does not mention it) or holds a value of the declared kind.
   */
  predicate Accepts(record: Record, c: Column, forUpdate: bool)
  {
    (forUpdate && c.name !in record) || KindAt(record, c.name) == Some(c.kind)
  }

  /**
   * The check of `validateRecord`: the columns are visited in order and the
   * first one that is checked and holds a value of another kind (or none)
   * is reported.
   */
  function Validate(schema: Schema, record: Record, forUpdate: bool): (r: Outcome)
    ensures r.Fail? ==> r.error.TypeMismatch?
    ensures r.Fail? ==>
      exists i :: 0 <= i < |schema| && schema[i].name == r.error.column && schema[i].kind == r.error.expected
        && !Accepts(record, schema[i], forUpdate)
    ensures r.Fail? ==> r.error.actual == KindAt(record, r.error.column)
  {
    if schema == [] then Pass
    else
      var c := schema[0];
      var kind := KindAt(record, c.name);
      if (!forUpdate || c.name in record) && kind != Some(c.kind) then
        Fail(TypeMismatch(c.name, c.kind, kind))
      else
        Validate(schema[1..], record, forUpdate)
  }

  /**
   * Validation succeeds exactly when every column accepts the record, and a
   * failure names the first column that does not.
   */
  lemma {:induction false} ValidateFirstMismatch(schema: Schema, record: Record, forUpdate: bool)
    ensures Validate(schema, record, forUpdate).Pass? <==>
      forall i :: 0 <= i < |schema| ==> Accepts(record, schema[i], forUpdate)
    ensures Validate(schema, record, forUpdate).Fail? ==>
      exists i :: 0 <= i < |schema| && !Accepts(record, schema[i], forUpdate)
        && (forall j :: 0 <= j < i ==> Accepts(record, schema[j], forUpdate))
        && Validate(schema, record, forUpdate).error
           == TypeMismatch(schema[i].name, schema[i].kind, KindAt(record, schema[i].name))
  {
    if schema != [] {
      ValidateFirstMismatch(schema[1..], record, forUpdate);
      var r := Validate(schema, record, forUpdate);
      if Accepts(record, schema[0], forUpdate) {
        assert r == Validate(schema[1..], record, forUpdate);
        if r.Fail? {
          var k :| 0 <= k < |schema[1..]| && !Accepts(record, schema[1..][k], forUpdate)
            && (forall j :: 0 <= j < k ==> Accepts(record, schema[1..][j], forUpdate))
            && r.error == TypeMismatch(schema[1..][k].name, schema[1..][k].kind, KindAt(record, schema[1..][k].name));
          assert forall j :: 0 <= j < k + 1 ==> Accepts(record, schema[j], forUpdate) by {
            forall j | 0 <= j < k + 1 ensures Accepts(record, schema[j], forUpdate) {
              if j > 0 { assert schema[j] == schema[1..][j - 1]; }
            }
          }
          assert schema[k + 1] == schema[1..][k];
        } else {
          forall i | 0 <= i < |schema| ensures Accepts(record, schema[i], forUpdate) {
            if i > 0 { assert schema[i] == schema[1..][i - 1]; }
          }
        }
      }
    }
  }

  /**
   * Strict validation (used by insert) succeeds exactly when every declared
   * column is present with a value of the declared kind.
   */
  lemma StrictValidation(schema: Schema, record: Record)
    ensures Validate(schema, record, false).Pass? <==>
      forall i :: 0 <= i < |schema| ==> schema[i].name in record && TypeOf(record[schema[i].name]) == schema[i].kind
  {
    ValidateFirstMismatch(schema, record, false);
  }

  /**
   * Partial validation (used by update) succeeds exactly when every declared
   * column that the patch mentions holds a value of the declared kind.
   */
  lemma PartialValidation(schema: Schema, patch: Record)
    ensures Validate(schema, patch, true).Pass? <==>
      forall i :: 0 <= i < |schema| && schema[i].name in patch ==> TypeOf(patch[schema[i].name]) == schema[i].kind
  {
    ValidateFirstMismatch(schema, patch, true);
  }

  /** An empty patch always passes partial validation. */
  lemma EmptyPatchValidates(schema: Schema)
    ensures Validate(schema, map[], true) == Pass
  {
    ValidateFirstMismatch(schema, map[], true);
  }

  /** A record that passes strict validation also passes partial validation. */
  lemma StrictImpliesPartial(schema: Schema, record: Record)
    requires Validate(schema, record, false).Pass?
    ensures Validate(schema, record, true).Pass?
  {
    ValidateFirstMismatch(schema, record, false);
    ValidateFirstMismatch(schema, record, true);
  }

  /** An empty schema, as given to tables rebuilt from the file, accepts every record. */
  lemma EmptySchemaAcceptsAll(record: Record, forUpdate: bool)
    ensures Validate([], record, forUpdate) == Pass
  {
  }

  /** Fields that no column declares are never checked: adding them does not change the verdict. */
  lemma {:induction false} UndeclaredFieldsUnchecked(schema: Schema, record: Record, extra: Record, forUpdate: bool)
    requires forall i :: 0 <= i < |schema| ==> schema[i].name !in extra
    ensures Validate(schema, record + extra, forUpdate) == Validate(schema, record, forUpdate)
  {
    if schema != [] {
      assert schema[0].name !in extra;
      assert KindAt(record + extra, schema[0].name) == KindAt(record, schema[0].name);
      UndeclaredFieldsUnchecked(schema[1..], record, extra, forUpdate);
    }
  }
}
