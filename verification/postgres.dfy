/**
 * The database the geocoder talks to, as one object whose state its operations update:
 * the schemas that exist, the tables by qualified name, and the TIGER geocoder
 * functions installed in it. A ghost log records the statements that changed the
 * database, in the order they ran, so that properties about how often something was
 * executed can be stated.
 */
module Postgres {
  import opened Wrappers
  import opened TableModel
  import opened Sweeps

  /** `schema.table` */
  datatype TableName = TableName(schema: string, table: string)

  /** A statement that ran to completion and changed (or might have changed) the database. */
  datatype Statement =
    | CreateSchema(schema: string)
    | CreateTable(name: TableName)
    | AddColumns(name: TableName, defs: seq<ColumnDef>)
    | InsertKeys(name: TableName, keys: seq<string>)
    | UpdateBatch(name: TableName, f: BatchFunc, limit: int)

  /** Why a call raised instead of returning. */
  datatype DbError =
    | UndefinedSchema(schema: string)
    | UndefinedTable(name: TableName)
    | UndefinedColumn(name: TableName)
    | NegativeLimit(limit: int)
    | NotNullViolation(name: TableName)
    | ValueTooLong(name: TableName)
    | UnsupportedKeyValue(name: TableName)
    | InvalidIntegerInput(name: TableName)
    | ZeroDivision
    | AssertionFailure
    | KeyError(column: string)
    | NothingToConcatenate
    | NoGeometryColumn
    | MergeKeyDtypeMismatch
    | DuplicateSuffixedColumns

  /** Every table lives in an existing schema. */
  predicate Consistent(schemas: set<string>, tables: map<TableName, Table>)
  {
    forall n :: n in tables ==> n.schema in schemas
  }

  class Engine {
    var schemas: set<string>
    var tables: map<TableName, Table>
    ghost var log: seq<Statement>
    const ext: Extension

    ghost predicate Valid()
      reads this
    {
      Consistent(schemas, tables)
    }

    /** A database with the given schemas and no tables yet. */
    constructor (ext: Extension, schemas: set<string>)
      ensures Valid()
      ensures this.ext == ext && this.schemas == schemas && tables == map[] && log == []
    {
      this.ext := ext;
      this.schemas := schemas;
      tables := map[];
      log := [];
    }
  }
}
