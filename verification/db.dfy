/**
 * The database helpers the pipeline relies on: schema existence and creation, the
 * column listing of `information_schema.columns`, and the test whether a table has a
 * spatial column.
 */
module Db {
  import opened Wrappers
  import opened Strings
  import opened TableModel
  import opened Postgres

  /** The `udt_name`s that mark a column as spatial. */
  const GeoTypeNames: seq<string> := ["geography", "geometry", "point", "lseg", "path", "box", "polygon", "line", "circle"]

  /** `udt_name.str.lower().isin(GeoTypeNames)` for one column. */
  predicate IsGeoTypeName(udtName: string)
  {
    AsciiLower(udtName) in GeoTypeNames
  }

  /**
   * `udt_name.str.lower().isin(GeoTypeNames).any()` over the column list: some column's
   * lower-cased type name is one of the spatial ones. An empty list gives false.
   */
  function IsGeoTable(udtNames: seq<string>): (r: bool)
    ensures r <==> exists i :: 0 <= i < |udtNames| && IsGeoTypeName(udtNames[i])
  {
    if |udtNames| == 0 then false
    else if IsGeoTypeName(udtNames[0]) then true
    else
      var rest := IsGeoTable(udtNames[1..]);
      assert forall i :: 1 <= i < |udtNames| ==> udtNames[i] == udtNames[1..][i - 1];
      rest
  }

  /** A table without columns (or one that does not exist) is not spatial. */
  lemma IsGeoTableEmpty()
    ensures !IsGeoTable([])
  {
  }

  /** Only the lower-cased type names matter: two listings that agree up to case agree on the answer. */
  lemma IsGeoTableIgnoresCase(a: seq<string>, b: seq<string>)
    requires |a| == |b| && forall i :: 0 <= i < |a| ==> AsciiLower(a[i]) == AsciiLower(b[i])
    ensures IsGeoTable(a) == IsGeoTable(b)
  {
    if IsGeoTable(a) {
      var i :| 0 <= i < |a| && IsGeoTypeName(a[i]);
      assert IsGeoTypeName(b[i]);
    }
    if IsGeoTable(b) {
      var i :| 0 <= i < |b| && IsGeoTypeName(b[i]);
      assert IsGeoTypeName(a[i]);
    }
  }

  /** An upper-case type name such as `GEOMETRY` is recognised like its lower-case form. */
  lemma IsGeoTableUpperCase(names: seq<string>)
    ensures IsGeoTable(seq(|names|, i requires 0 <= i < |names| => AsciiUpper(names[i]))) == IsGeoTable(names)
  {
    var upper := seq(|names|, i requires 0 <= i < |names| => AsciiUpper(names[i]));
    forall i | 0 <= i < |names|
      ensures AsciiLower(upper[i]) == AsciiLower(names[i])
    {
      LowerOfUpper(names[i]);
    }
    IsGeoTableIgnoresCase(upper, names);
  }

  /** The `information_schema.columns` fields listed when not every field is asked for. */
  const ReturnColumns: seq<string> := [
    "table_catalog", "table_schema", "table_name", "column_name", "ordinal_position",
    "column_default", "is_nullable", "data_type", "character_maximum_length",
    "character_octet_length", "numeric_precision", "numeric_precision_radix", "numeric_scale",
    "datetime_precision", "udt_catalog", "udt_schema", "udt_name", "dtd_identifier"]

  const ColumnSeparator: string := ", "

  /** The select list of the column-details query. */
  function ColumnSelection(returnAllCols: bool): string
  {
    if returnAllCols then "*" else Join(ColumnSeparator, ReturnColumns)
  }

  /**
   * Without `return_all_cols` the select list is the eighteen field names in their listed
   * order, each copied verbatim and followed by ", " except the last.
   */
  lemma ColumnSelectionLayout(i: nat)
    requires i < |ReturnColumns|
    ensures var s := ColumnSelection(false);
      var p := PieceStart(ColumnSeparator, ReturnColumns, i);
      var e := p + |ReturnColumns[i]|;
      && e <= |s|
      && s[p..e] == ReturnColumns[i]
      && (i + 1 < |ReturnColumns| ==> e + |ColumnSeparator| <= |s| && s[e..e + |ColumnSeparator|] == ColumnSeparator)
      && (i + 1 == |ReturnColumns| ==> e == |s|)
  {
    JoinPieceAt(ColumnSeparator, ReturnColumns, i);
  }

  /** `database_has_schema` */
  method HasSchema(engine: Engine, schema: string) returns (b: bool)
    ensures b <==> schema in engine.schemas
  {
    b := schema in engine.schemas;
  }

  /** The statements `create_database_schema` runs: none when the schema already exists. */
  function CreateSchemaStatements(schemas: set<string>, schema: string): (s: seq<Statement>)
    ensures schema in schemas <==> s == []
  {
    if schema in schemas then [] else [CreateSchema(schema)]
  }

  /** A second `create_database_schema` for the same name executes nothing. */
  lemma CreateSchemaTwice(schemas: set<string>, schema: string)
    ensures CreateSchemaStatements(schemas, schema) + CreateSchemaStatements(schemas + {schema}, schema)
         == CreateSchemaStatements(schemas, schema)
  {
  }

  /** `create_database_schema`: creates the schema when it is missing and leaves everything else alone. */
  method CreateDatabaseSchema(engine: Engine, schema: string)
    requires engine.Valid()
    modifies engine
    ensures engine.Valid()
    ensures engine.schemas == old(engine.schemas) + {schema}
    ensures engine.tables == old(engine.tables)
    ensures engine.log == old(engine.log) + CreateSchemaStatements(old(engine.schemas), schema)
  {
    var exists_ := HasSchema(engine, schema);
    if !exists_ {
      engine.schemas := engine.schemas + {schema};
      engine.log := engine.log + [CreateSchema(schema)];
    }
  }

  /**
   * `get_table_column_details`: the select list of the query and the rows it returns, one per
   * column of the table (none when the table does not exist).
   */
  method TableColumnDetails(engine: Engine, schema: string, table: string, returnAllCols: bool)
    returns (selection: string, cols: seq<ColumnDef>)
    ensures returnAllCols ==> selection == "*"
    ensures !returnAllCols ==> selection == Join(ColumnSeparator, ReturnColumns)
    ensures TableName(schema, table) in engine.tables ==> cols == engine.tables[TableName(schema, table)].columns
    ensures TableName(schema, table) !in engine.tables ==> cols == []
  {
    selection := ColumnSelection(returnAllCols);
    var n := TableName(schema, table);
    cols := if n in engine.tables then engine.tables[n].columns else [];
  }

  /** The spatial test over a column listing, stated over its columns. */
  lemma IsGeoTableOfColumns(cols: seq<ColumnDef>)
    ensures IsGeoTable(UdtNames(cols)) <==> exists c :: c in cols && IsGeoTypeName(c.udtName)
  {
    var names := UdtNames(cols);
    if IsGeoTable(names) {
      var i :| 0 <= i < |names| && IsGeoTypeName(names[i]);
      assert cols[i] in cols;
    }
    if c :| c in cols && IsGeoTypeName(c.udtName) {
      var i :| 0 <= i < |cols| && cols[i] == c;
      assert IsGeoTypeName(names[i]);
    }
  }

  /** `is_geo_table`: true exactly when the table exists and one of its columns has a spatial type. */
  method IsGeoTableOf(engine: Engine, schema: string, table: string) returns (b: bool)
    ensures b <==> (TableName(schema, table) in engine.tables &&
      exists c :: c in engine.tables[TableName(schema, table)].columns && IsGeoTypeName(c.udtName))
  {
    var _, cols := TableColumnDetails(engine, schema, table, false);
    b := IsGeoTable(UdtNames(cols));
    IsGeoTableOfColumns(cols);
  }
}
