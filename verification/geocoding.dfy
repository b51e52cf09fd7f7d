/**
 * The batch address-processing pipeline: set up the staging table, ingest addresses
 * into it, then sweep it in batches with `normalize_address` (or `standardize_address`)
 * and `geocode` until the driver's precomputed number of sweeps has run, and finally
 * join the results back onto the caller's rows.
 */
module Geocoding {
  import opened Wrappers
  import opened PyArith
  import opened Strings
  import opened TableModel
  import opened Sweeps
  import opened Postgres
  import Db

  const UserDataSchema: string := "user_data"
  const AddressTable: string := "address_table"
  /** The `batch_size` `geocode_addresses` runs with. */
  const DefaultBatchSize: int := 100

  // ---------------------------------------------------------------------------------
  // Setup
  // ---------------------------------------------------------------------------------

  /** `create_user_data_schema` */
  method CreateUserDataSchema(engine: Engine)
    requires engine.Valid()
    modifies engine
    ensures engine.Valid()
    ensures engine.schemas == old(engine.schemas) + {UserDataSchema}
    ensures engine.tables == old(engine.tables)
    ensures engine.log == old(engine.log) + Db.CreateSchemaStatements(old(engine.schemas), UserDataSchema)
  {
    Db.CreateDatabaseSchema(engine, UserDataSchema);
  }

  /** The table after `CREATE TABLE IF NOT EXISTS`: the existing one, or a new one with only the key. */
  function TableOrNew(tables: map<TableName, Table>, n: TableName): Table
  {
    if n in tables then tables[n] else NewTable()
  }

  /** `create_address_table`: fails when the schema does not exist; an existing table is left as it is. */
  method CreateAddressTable(engine: Engine, n: TableName) returns (r: Outcome<DbError>)
    requires engine.Valid()
    modifies engine
    ensures engine.Valid()
    ensures n.schema !in old(engine.schemas) ==> r == Fail(UndefinedSchema(n.schema)) && unchanged(engine)
    ensures n.schema in old(engine.schemas) ==>
      && r.Pass?
      && engine.schemas == old(engine.schemas)
      && engine.tables == old(engine.tables)[n := TableOrNew(old(engine.tables), n)]
      && engine.log == old(engine.log) + [CreateTable(n)]
  {
    if n.schema !in engine.schemas {
      return Fail(UndefinedSchema(n.schema));
    }
    engine.tables := engine.tables[n := TableOrNew(engine.tables, n)];
    engine.log := engine.log + [CreateTable(n)];
    r := Pass;
  }

  /** `ALTER TABLE n ADD COLUMN IF NOT EXISTS ...` for the given columns, each `DEFAULT NULL`. */
  method AlterTableAddColumns(engine: Engine, n: TableName, defs: seq<ColumnDef>) returns (r: Outcome<DbError>)
    requires engine.Valid()
    modifies engine
    ensures engine.Valid()
    ensures n !in old(engine.tables) ==> r == Fail(UndefinedTable(n)) && unchanged(engine)
    ensures n in old(engine.tables) ==>
      && r.Pass?
      && engine.schemas == old(engine.schemas)
      && engine.tables == old(engine.tables)[n := AddColumnsIfNotExists(old(engine.tables)[n], defs)]
      && engine.log == old(engine.log) + [AddColumns(n, defs)]
  {
    if n !in engine.tables {
      return Fail(UndefinedTable(n));
    }
    engine.tables := engine.tables[n := AddColumnsIfNotExists(engine.tables[n], defs)];
    engine.log := engine.log + [AddColumns(n, defs)];
    r := Pass;
  }

  /** `add_addr_normalization_columns_to_address_table` */
  method AddNormalizationColumns(engine: Engine, n: TableName) returns (r: Outcome<DbError>)
    requires engine.Valid()
    modifies engine
    ensures engine.Valid()
    ensures n !in old(engine.tables) ==> r == Fail(UndefinedTable(n)) && unchanged(engine)
    ensures n in old(engine.tables) ==>
      && r.Pass?
      && engine.schemas == old(engine.schemas)
      && engine.tables == old(engine.tables)[n := AddColumnsIfNotExists(old(engine.tables)[n], NormColumnDefs)]
      && engine.log == old(engine.log) + [AddColumns(n, NormColumnDefs)]
  {
    r := AlterTableAddColumns(engine, n, NormColumnDefs);
  }

  /** `add_geocode_output_columns_to_address_table` */
  method AddGeocodeOutputColumns(engine: Engine, n: TableName) returns (r: Outcome<DbError>)
    requires engine.Valid()
    modifies engine
    ensures engine.Valid()
    ensures n !in old(engine.tables) ==> r == Fail(UndefinedTable(n)) && unchanged(engine)
    ensures n in old(engine.tables) ==>
      && r.Pass?
      && engine.schemas == old(engine.schemas)
      && engine.tables == old(engine.tables)[n := AddColumnsIfNotExists(old(engine.tables)[n], GeocodeColumnDefs)]
      && engine.log == old(engine.log) + [AddColumns(n, GeocodeColumnDefs)]
  {
    r := AlterTableAddColumns(engine, n, GeocodeColumnDefs);
  }

  /** `add_addr_standardization_columns_to_an_address_table` */
  method AddStandardizationColumns(engine: Engine, n: TableName) returns (r: Outcome<DbError>)
    requires engine.Valid()
    modifies engine
    ensures engine.Valid()
    ensures n !in old(engine.tables) ==> r == Fail(UndefinedTable(n)) && unchanged(engine)
    ensures n in old(engine.tables) ==>
      && r.Pass?
      && engine.schemas == old(engine.schemas)
      && engine.tables == old(engine.tables)[n := AddColumnsIfNotExists(old(engine.tables)[n], StdColumnDefs)]
      && engine.log == old(engine.log) + [AddColumns(n, StdColumnDefs)]
  {
    r := AlterTableAddColumns(engine, n, StdColumnDefs);
  }

  /** The staging table once both column groups have been added. */
  function PreparedTable(t: Table): Table
  {
    AddColumnsIfNotExists(AddColumnsIfNotExists(t, NormColumnDefs), GeocodeColumnDefs)
  }

  /**
   * Preparing a table keeps it well formed, keeps its columns as a prefix, its keys and
   * every value it held, and gives it every column the normalize and geocode sweeps name,
   * NULL (the columns' default) in every row that lacked it.
   */
  lemma PreparedTableFacts(t: Table)
    requires WellFormed(t)
    ensures var p := PreparedTable(t);
      && WellFormed(p)
      && |t.columns| <= |p.columns| && p.columns[..|t.columns|] == t.columns
      && NameSet(p.columns) == NameSet(t.columns) + NameSet(NormColumnDefs) + NameSet(GeocodeColumnDefs)
      && p.rows.Keys == t.rows.Keys
      && (forall k, c :: k in t.rows && c in t.rows[k] ==> c in p.rows[k] && p.rows[k][c] == t.rows[k][c])
      && (forall k :: k in t.rows ==> p.rows[k].Keys == DataColumns(p.columns))
      && (forall k, c :: k in t.rows && c !in t.rows[k] && c in DataColumns(p.columns) ==> p.rows[k][c].None?)
  {
    var m := AddColumnsIfNotExists(t, NormColumnDefs);
    var p := AddColumnsIfNotExists(m, GeocodeColumnDefs);
    AddColumnsPreservesWellFormed(t, NormColumnDefs);
    AddColumnsPreservesWellFormed(m, GeocodeColumnDefs);
    AddColumnsKeepsValues(t, NormColumnDefs);
    AddColumnsKeepsValues(m, GeocodeColumnDefs);
    PrefixOfPrefix(t.columns, m.columns, p.columns);
  }

  lemma PrefixOfPrefix<T>(a: seq<T>, b: seq<T>, c: seq<T>)
    requires |a| <= |b| <= |c| && b[..|a|] == a && c[..|b|] == b
    ensures c[..|a|] == a
  {
    assert c[..|a|] == c[..|b|][..|a|];
  }

  /** Running the setup a second time leaves the table exactly as the first run left it. */
  lemma PreparedTableIdempotent(t: Table)
    requires WellFormed(t)
    ensures PreparedTable(PreparedTable(t)) == PreparedTable(t)
  {
    var p := PreparedTable(t);
    PreparedTableFacts(t);
    var m := AddColumnsIfNotExists(p, NormColumnDefs);
    AddColumnsNoop(p, NormColumnDefs);
    AddColumnsNoop(p, GeocodeColumnDefs);
  }

  /** The tables once the setup has run on table n. */
  function SetupTables(tables: map<TableName, Table>, n: TableName): (r: map<TableName, Table>)
    ensures n in r
  {
    tables[n := PreparedTable(TableOrNew(tables, n))]
  }

  /** The statements the setup executes. */
  function SetupStatements(schemas: set<string>, n: TableName): seq<Statement>
  {
    Db.CreateSchemaStatements(schemas, n.schema) + [CreateTable(n), AddColumns(n, NormColumnDefs), AddColumns(n, GeocodeColumnDefs)]
  }

  /** `setup_address_table_for_address_normalization`: schema, table and both column groups. */
  method SetupAddressTable(engine: Engine, n: TableName)
    requires engine.Valid()
    modifies engine
    ensures engine.Valid()
    ensures engine.schemas == old(engine.schemas) + {n.schema}
    ensures engine.tables == SetupTables(old(engine.tables), n)
    ensures engine.log == old(engine.log) + SetupStatements(old(engine.schemas), n)
  {
    ghost var t := TableOrNew(engine.tables, n);
    ghost var m := AddColumnsIfNotExists(t, NormColumnDefs);
    Db.CreateDatabaseSchema(engine, n.schema);
    ghost var log1 := engine.log;
    var r := CreateAddressTable(engine, n);
    assert engine.tables == old(engine.tables)[n := t];
    r := AddNormalizationColumns(engine, n);
    UpdateTwice(old(engine.tables), n, t, m);
    r := AddGeocodeOutputColumns(engine, n);
    UpdateTwice(old(engine.tables), n, m, AddColumnsIfNotExists(m, GeocodeColumnDefs));
    AppendThree(log1, CreateTable(n), AddColumns(n, NormColumnDefs), AddColumns(n, GeocodeColumnDefs));
    AppendAssoc(old(engine.log), Db.CreateSchemaStatements(old(engine.schemas), n.schema),
      [CreateTable(n), AddColumns(n, NormColumnDefs), AddColumns(n, GeocodeColumnDefs)]);
  }

  lemma AppendAssoc<T>(a: seq<T>, b: seq<T>, c: seq<T>)
    ensures a + b + c == a + (b + c)
  {
  }

  lemma AppendThree<T>(s: seq<T>, x: T, y: T, z: T)
    ensures s + [x] + [y] + [z] == s + [x, y, z]
  {
  }

  // ---------------------------------------------------------------------------------
  // One batch statement
  // ---------------------------------------------------------------------------------

  /** Whether the batch statement can run: the table exists, has every column it names, and the LIMIT is not negative. */
  function BatchCheck(tables: map<TableName, Table>, n: TableName, f: BatchFunc, batchSize: int): Outcome<DbError>
  {
    if n !in tables then Fail(UndefinedTable(n))
    else if !(f.NamedColumns() <= DataColumns(tables[n].columns)) then Fail(UndefinedColumn(n))
    else if batchSize < 0 then Fail(NegativeLimit(batchSize))
    else Pass
  }

  function SweptTable(t: Table, f: BatchFunc, ext: Extension, chosen: set<string>,
                      joins: map<string, Option<Candidate>>): Table
  {
    Table(t.columns, SweepRows(f, ext, t.rows, chosen, joins))
  }

  /**
   * The standardized geocode statement casts each selected row's `house_num` text to the
   * integer `address` of `norm_addy`; one row whose house number is not an integer makes
   * the whole statement fail.
   */
  predicate CastFails(f: BatchFunc, rows: map<string, Row>, chosen: set<string>)
  {
    f.GeocodeStandardizedBatch? && exists k :: k in chosen && k in rows && !HouseNumCasts(rows[k])
  }

  /**
   * `batch_normalize_address_table`, `batch_standardize_address_table`,
   * `batch_geocode_address_table` and `batch_geocode_standardized_address_table`, by the
   * statement f. It fails, changing nothing, when the statement cannot run or, for the
   * standardized geocoder, when a row the LIMIT picked has a house number that is not an
   * integer; otherwise it rewrites the rows the LIMIT picked (`chosen`), the geocoder
   * using for each the candidate in `joins`.
   */
  method RunBatch(engine: Engine, n: TableName, f: BatchFunc, batchSize: int)
    returns (r: Outcome<DbError>, chosen: set<string>, joins: map<string, Option<Candidate>>)
    requires engine.Valid()
    modifies engine
    ensures engine.Valid()
    ensures BatchCheck(old(engine.tables), n, f, batchSize).Fail? ==> r == BatchCheck(old(engine.tables), n, f, batchSize)
    ensures BatchCheck(old(engine.tables), n, f, batchSize).Pass? ==>
      && ValidSweep(f, engine.ext, old(engine.tables)[n].rows, batchSize, chosen, joins)
      && (CastFails(f, old(engine.tables)[n].rows, chosen) ==> r == Fail(InvalidIntegerInput(n)))
      && (!CastFails(f, old(engine.tables)[n].rows, chosen) ==> r.Pass?)
    ensures r.Fail? ==> unchanged(engine)
    ensures r.Pass? ==>
      && engine.schemas == old(engine.schemas)
      && engine.tables == old(engine.tables)[n := SweptTable(old(engine.tables)[n], f, engine.ext, chosen, joins)]
      && engine.log == old(engine.log) + [UpdateBatch(n, f, batchSize)]
  {
    chosen, joins := {}, map[];
    r := BatchCheck(engine.tables, n, f, batchSize);
    if r.Fail? {
      return;
    }
    var t := engine.tables[n];
    chosen, joins := ChooseRows(f, engine.ext, t, batchSize);
    if CastFails(f, t.rows, chosen) {
      return Fail(InvalidIntegerInput(n)), chosen, joins;
    }
    engine.tables := engine.tables[n := SweptTable(t, f, engine.ext, chosen, joins)];
    engine.log := engine.log + [UpdateBatch(n, f, batchSize)];
  }

  /**
   * The database's choices for one run of the statement: some min(b, count) of the rows
   * whose sentinel is NULL and, for the geocoder, an admissible candidate for each.
   */
  method ChooseRows(f: BatchFunc, ext: Extension, t: Table, batchSize: int)
    returns (chosen: set<string>, joins: map<string, Option<Candidate>>)
    requires batchSize >= 0
    ensures ValidSweep(f, ext, t.rows, batchSize, chosen, joins)
  {
    var nulls := NullKeys(t.rows, f.Sentinel());
    var size: nat := Min(batchSize, |nulls|);
    SubsetOfSize(nulls, size);
    chosen :| chosen <= nulls && |chosen| == size;
    joins := map[];
    if f.IsGeocode() {
      var first := SomeJoins(f, ext, t.rows, chosen);
      joins :| ValidJoins(f, ext, t.rows, chosen, joins);
    }
  }

  /** `SELECT COUNT(*) FROM n WHERE col IS NULL`, or why it raises. */
  function NullCountOf(tables: map<TableName, Table>, n: TableName, col: string): Result<nat, DbError>
  {
    if n !in tables then Failure(UndefinedTable(n))
    else if col !in NameSet(tables[n].columns) then Failure(UndefinedColumn(n))
    else Success(NullCount(tables[n], col))
  }

  /** `count_rows_w_null_values_in_a_column`: the number of rows whose column is NULL. */
  method CountNullRows(engine: Engine, n: TableName, col: string) returns (r: Result<nat, DbError>)
    ensures r == NullCountOf(engine.tables, n, col)
    ensures r.Success? <==> n in engine.tables && col in NameSet(engine.tables[n].columns)
    ensures r.Success? && col != KeyColumn ==> r.value == |NullKeys(engine.tables[n].rows, col)|
    ensures r.Success? && col == KeyColumn ==> r.value == 0
  {
    r := NullCountOf(engine.tables, n, col);
  }

  // ---------------------------------------------------------------------------------
  // The driver
  // ---------------------------------------------------------------------------------

  /** k copies of x. */
  function Repeat<T>(x: T, k: nat): (s: seq<T>)
    ensures |s| == k
    ensures forall i :: 0 <= i < k ==> s[i] == x
  {
    if k == 0 then [] else Repeat(x, k - 1) + [x]
  }

  /**
   * `(rows_left // batch_size) + (rows_left % batch_size > 0)`, where `rows_left` is the
   * numpy integer the count query returns: Python's floor division for a non-zero batch
   * size, and 0 batches for a zero one, since numpy gives 0 for both operators then.
   */
  function BatchesLeft(rowsLeft: int, batchSize: int): int
  {
    NpFloorDiv(rowsLeft, batchSize) + (if NpMod(rowsLeft, batchSize) > 0 then 1 else 0)
  }

  /**
   * For a positive batch size the number of batches is the ceiling of rowsLeft / batchSize:
   * the last batch is not empty and the batches cover every row. For a zero one it is 0,
   * and for a negative one it is never positive, so no sweep runs.
   */
  lemma BatchesLeftBounds(rowsLeft: int, batchSize: int)
    ensures var k := BatchesLeft(rowsLeft, batchSize);
      && (batchSize > 0 && rowsLeft >= 0 ==> k >= 0 && (k - 1) * batchSize < rowsLeft <= k * batchSize)
      && (batchSize == 0 ==> k == 0)
      && (batchSize < 0 && rowsLeft >= 0 ==> k <= 0)
  {
    if batchSize != 0 {
      FloorDivBounds(rowsLeft, batchSize);
      ModBounds(rowsLeft, batchSize);
    }
  }

  /** The ceiling on the values the driver is typically run with. */
  lemma BatchesLeftExamples()
    ensures BatchesLeft(0, 100) == 0
    ensures BatchesLeft(250, 100) == 3
    ensures BatchesLeft(100, 100) == 1
    ensures BatchesLeft(1, 100) == 1
    ensures BatchesLeft(250, 0) == 0
    ensures BatchesLeft(250, -100) == -3
  {
  }

  /**
   * Where a table stands after some sweeps of f since t0: same columns and keys; every row
   * as it was or written over once by the statement (its SET values, for an admissible
   * join), so only the statement's columns change; a row whose sentinel was set untouched;
   * and every row the geocoder rated holding -1 or a rating under the threshold.
   */
  ghost predicate SweptSince(t0: Table, t: Table, f: BatchFunc, ext: Extension)
  {
    && t.columns == t0.columns && t.rows.Keys == t0.rows.Keys
    && forall k :: k in t0.rows ==>
         && RowSwept(f, ext, k, t0.rows[k], t.rows[k])
         && UnchangedOutside(t0.rows[k], t.rows[k], f.SetColumns())
         && (!IsNull(t0.rows[k], f.Sentinel()) ==> t.rows[k] == t0.rows[k])
         && (f.IsGeocode() && IsNull(t0.rows[k], RatingColumn) && !IsNull(t.rows[k], RatingColumn) ==>
               RatedUnder(t.rows[k], f.threshold))
  }

  /** One more sweep keeps SweptSince. */
  lemma SweptSinceStep(t0: Table, t: Table, f: BatchFunc, ext: Extension, b: int, chosen: set<string>,
                       joins: map<string, Option<Candidate>>)
    requires SweptSince(t0, t, f, ext) && ValidSweep(f, ext, t.rows, b, chosen, joins)
    ensures SweptSince(t0, SweptTable(t, f, ext, chosen, joins), f, ext)
  {
    var t1 := SweptTable(t, f, ext, chosen, joins);
    forall k | k in t0.rows
      ensures RowSwept(f, ext, k, t0.rows[k], t1.rows[k])
      ensures UnchangedOutside(t0.rows[k], t1.rows[k], f.SetColumns())
      ensures !IsNull(t0.rows[k], f.Sentinel()) ==> t1.rows[k] == t0.rows[k]
      ensures f.IsGeocode() && IsNull(t0.rows[k], RatingColumn) && !IsNull(t1.rows[k], RatingColumn) ==>
                RatedUnder(t1.rows[k], f.threshold)
    {
      assert k in t.rows;
      if k in chosen {
        OverwriteOutside(t.rows[k], Assignment(f, ext, k, t.rows[k], JoinAt(joins, k)), f.SetColumns());
        assert IsNull(t.rows[k], f.Sentinel());
        SweepWritesChosen(f, ext, t.rows, b, chosen, joins, k);
        RowSweptAgain(f, ext, k, t0.rows[k], t.rows[k], JoinAt(joins, k));
        if f.IsGeocode() {
          GeocodeSweepRowRated(f, ext, t.rows, b, chosen, joins, k);
        }
      }
    }
  }

  /** The house numbers of the rows still to geocode all cast to integers. */
  predicate UnratedHouseNumsCast(rows: map<string, Row>)
  {
    forall k :: k in rows && IsNull(rows[k], RatingColumn) ==> HouseNumCasts(rows[k])
  }

  /**
   * Geocode sweeps only write the rows they rate, so the rows still to geocode are rows
   * of t0 as they were, and their house numbers still cast.
   */
  lemma SweptKeepsHouseNums(t0: Table, t: Table, f: BatchFunc, ext: Extension)
    requires f.IsGeocode() && SweptSince(t0, t, f, ext) && UnratedHouseNumsCast(t0.rows)
    ensures UnratedHouseNumsCast(t.rows)
  {
    assert f.Sentinel() == RatingColumn;
    forall k | k in t.rows && IsNull(t.rows[k], RatingColumn)
      ensures HouseNumCasts(t.rows[k])
    {
      assert RowSwept(f, ext, k, t0.rows[k], t.rows[k]);
      if t.rows[k] != t0.rows[k] {
        var j :| WrittenBy(f, ext, k, t0.rows[k], t.rows[k], j);
        GeocodeWrittenIsRated(f, ext, k, t0.rows[k], t.rows[k], j);
        assert false;
      }
    }
  }

  /** What is left of `count` rows after i sweeps of b: count - i * b. */
  function Uncovered(count: int, b: int, i: nat): int
  {
    if i == 0 then count else Uncovered(count, b, i - 1) - b
  }

  lemma {:induction false} UncoveredIs(count: int, b: int, i: nat)
    ensures Uncovered(count, b, i) == count - i * b
  {
    if i > 0 {
      UncoveredIs(count, b, i - 1);
      assert (i - 1) * b + b == i * b;
    }
  }

  /** A geocode sweep over max(x, 0) NULL-rating rows leaves max(x - b, 0) of them. */
  lemma GeocodeSweepCount(f: BatchFunc, ext: Extension, t: Table, b: int, chosen: set<string>,
                          joins: map<string, Option<Candidate>>, x: int)
    requires f.IsGeocode() && ValidSweep(f, ext, t.rows, b, chosen, joins)
    requires |NullKeys(t.rows, RatingColumn)| == Max0(x)
    ensures |NullKeys(SweptTable(t, f, ext, chosen, joins).rows, RatingColumn)| == Max0(x - b)
  {
    GeocodeSweepProgress(f, ext, t.rows, b, chosen, joins);
  }

  /** One more sweep of b over the max(x, 0) rows left after i sweeps leaves what is left after i + 1. */
  lemma UncoveredStep(count: int, b: int, i: nat, m: nat)
    requires b > 0 && m == Max0(Uncovered(count, b, i))
    ensures Max0(m - b) == Max0(Uncovered(count, b, i + 1))
  {
  }

  /** Once the precomputed number of sweeps has run, none of the counted rows is left. */
  lemma NoneLeft(t: Table, count: nat, b: int, i: nat)
    requires b > 0 && i == Max0(BatchesLeft(count, b))
    requires |NullKeys(t.rows, RatingColumn)| == Max0(Uncovered(count, b, i))
    ensures NullCount(t, RatingColumn) == 0
  {
    UncoveredIs(count, b, i);
    BatchesLeftBounds(count, b);
  }

  /** Replacing the same map entry twice is replacing it once. */
  lemma UpdateTwice<K, V>(m: map<K, V>, k: K, a: V, b: V)
    ensures m[k := a][k := b] == m[k := b]
  {
  }

  /** Appending one more statement to a log of i repeats makes i + 1 repeats. */
  lemma RepeatStep<T>(log: seq<T>, x: T, i: nat)
    ensures log + Repeat(x, i) + [x] == log + Repeat(x, i + 1)
  {
  }

  /**
   * Where the driver leaves the database on success: the count succeeded, only table n
   * changed, and it did so by sweeps of f, of which exactly `BatchesLeft(count, batchSize)`
   * (none when that is not positive) ran.
   */
  ghost predicate DriverRan(tables0: map<TableName, Table>, tables: map<TableName, Table>, n: TableName, col: string,
                            f: BatchFunc, ext: Extension, batchSize: int, log0: seq<Statement>, log: seq<Statement>)
  {
    && n in tables0 && n in tables
    && NullCountOf(tables0, n, col).Success?
    && tables == tables0[n := tables[n]]
    && SweptSince(tables0[n], tables[n], f, ext)
    && log == log0 + Repeat(UpdateBatch(n, f, batchSize), Max0(BatchesLeft(NullCountOf(tables0, n, col).value, batchSize)))
  }

  /**
   * Where the driver leaves the database when a pass fails midway: only table n changed,
   * by the passes of f before the failing one.
   */
  ghost predicate DriverStopped(tables0: map<TableName, Table>, tables: map<TableName, Table>, n: TableName, col: string,
                                f: BatchFunc, ext: Extension, batchSize: int, log0: seq<Statement>, log: seq<Statement>)
  {
    && n in tables0
    && NullCountOf(tables0, n, col).Success?
    && exists i ::
         && 0 <= i < Max0(BatchesLeft(NullCountOf(tables0, n, col).value, batchSize))
         && SweptTimes(tables0, log0, tables, log, n, f, ext, batchSize, tables0[n], i)
  }

  /** The statement names a column the table lacks. */
  predicate MissesColumns(f: BatchFunc, t: Table)
  {
    !(f.NamedColumns() <= DataColumns(t.columns))
  }

  /**
   * One pass of the driver's loop: the statement runs once with LIMIT b. It fails, changing
   * nothing, when the table lacks a column the statement names, and otherwise only when
   * the standardized geocoder picks a row whose house number is not an integer, which
   * cannot happen while every unrated row's house number casts. On success the table is
   * swept once more since t0, and a geocode pass leaves max(m - b, 0) of the m NULL ratings.
   */
  method SweepOnce(engine: Engine, n: TableName, f: BatchFunc, batchSize: int, ghost t0: Table)
    returns (r: Outcome<DbError>)
    requires engine.Valid() && n in engine.tables && batchSize > 0
    requires SweptSince(t0, engine.tables[n], f, engine.ext)
    modifies engine
    ensures engine.Valid()
    ensures MissesColumns(f, old(engine.tables)[n]) ==> r == Fail(UndefinedColumn(n))
    ensures r.Fail? ==> (MissesColumns(f, old(engine.tables)[n]) ||
      (f.GeocodeStandardizedBatch? && r == Fail(InvalidIntegerInput(n)) && !UnratedHouseNumsCast(old(engine.tables)[n].rows)))
    ensures r.Fail? ==> engine.schemas == old(engine.schemas) && engine.tables == old(engine.tables) && engine.log == old(engine.log)
    ensures r.Pass? ==>
      && engine.schemas == old(engine.schemas)
      && n in engine.tables && engine.tables == old(engine.tables)[n := engine.tables[n]]
      && SweptSince(t0, engine.tables[n], f, engine.ext)
      && engine.log == old(engine.log) + [UpdateBatch(n, f, batchSize)]
      && (f.IsGeocode() ==> |NullKeys(engine.tables[n].rows, RatingColumn)| == Max0(|NullKeys(old(engine.tables)[n].rows, RatingColumn)| - batchSize))
  {
    ghost var before := engine.tables[n];
    var chosen, joins;
    r, chosen, joins := RunBatch(engine, n, f, batchSize);
    if r.Pass? {
      SweptSinceStep(t0, before, f, engine.ext, batchSize, chosen, joins);
      if f.IsGeocode() {
        GeocodeSweepCount(f, engine.ext, before, batchSize, chosen, joins, |NullKeys(before.rows, RatingColumn)|);
      }
    } else if !MissesColumns(f, before) {
      assert CastFails(f, before.rows, chosen);
      var k :| k in chosen && k in before.rows && !HouseNumCasts(before.rows[k]);
      assert f.Sentinel() == RatingColumn;
      assert IsNull(before.rows[k], RatingColumn);
    }
  }

  /**
   * `_apply_function_to_all_address_table_rows`: counts the rows whose `nullCheckCol` is
   * NULL, computes the number of batches, and runs the statement f exactly that many
   * times with the same table and batch size. With no batch to run (no NULL row, or a
   * batch size that is not positive) it changes nothing and returns. A failing count or a
   * missing column changes nothing; a house number that does not cast stops the loop with
   * the sweeps before it kept. For a geocode statement checked on `rating` with a positive
   * batch size, no NULL rating is left.
   */
  method ApplyToAllRows(engine: Engine, n: TableName, nullCheckCol: string, f: BatchFunc, batchSize: int)
    returns (r: Outcome<DbError>)
    requires engine.Valid()
    modifies engine
    ensures engine.Valid()
    ensures engine.schemas == old(engine.schemas)
    ensures r.Fail? && r != Fail(InvalidIntegerInput(n)) ==> engine.tables == old(engine.tables) && engine.log == old(engine.log)
    ensures NullCountOf(old(engine.tables), n, nullCheckCol).Failure? ==>
      r == Fail(NullCountOf(old(engine.tables), n, nullCheckCol).error)
    ensures NullCountOf(old(engine.tables), n, nullCheckCol).Success? ==>
      var batches := Max0(BatchesLeft(NullCountOf(old(engine.tables), n, nullCheckCol).value, batchSize));
      && (batches == 0 ==> r.Pass? && engine.tables == old(engine.tables) && engine.log == old(engine.log))
      && (batches > 0 && MissesColumns(f, old(engine.tables)[n]) ==> r == Fail(UndefinedColumn(n)))
      && (r.Fail? ==> (MissesColumns(f, old(engine.tables)[n]) ||
            (f.GeocodeStandardizedBatch? && r == Fail(InvalidIntegerInput(n)) && !UnratedHouseNumsCast(old(engine.tables)[n].rows))))
    ensures r == Fail(InvalidIntegerInput(n)) ==>
      DriverStopped(old(engine.tables), engine.tables, n, nullCheckCol, f, engine.ext, batchSize, old(engine.log), engine.log)
    ensures r.Pass? ==> DriverRan(old(engine.tables), engine.tables, n, nullCheckCol, f, engine.ext, batchSize, old(engine.log), engine.log)
    ensures r.Pass? && f.IsGeocode() && nullCheckCol == RatingColumn && batchSize > 0 ==>
      NullCount(engine.tables[n], RatingColumn) == 0
  {
    var count := CountNullRows(engine, n, nullCheckCol);
    if count.Failure? {
      return Fail(count.error);
    }
    var batches := BatchesLeft(count.value, batchSize);
    ghost var converges := f.IsGeocode() && nullCheckCol == RatingColumn && batchSize > 0;
    BatchesLeftBounds(count.value, batchSize);
    r := SweepRepeatedly(engine, n, f, batchSize, batches, count.value, converges);
    if r.Pass? && converges {
      NoneLeft(engine.tables[n], count.value, batchSize, Max0(batches));
    }
  }

  /**
   * The driver's loop: `batches` passes of the statement (none when that is not positive),
   * stopping at the first that fails.
   */
  method SweepRepeatedly(engine: Engine, n: TableName, f: BatchFunc, batchSize: int, batches: int,
                         ghost count: int, ghost converges: bool)
    returns (r: Outcome<DbError>)
    requires engine.Valid() && n in engine.tables
    requires batches > 0 ==> batchSize > 0
    requires converges ==> f.IsGeocode() && batchSize > 0 && |NullKeys(engine.tables[n].rows, RatingColumn)| == Max0(count)
    modifies engine
    ensures engine.Valid()
    ensures engine.schemas == old(engine.schemas)
    ensures batches > 0 && MissesColumns(f, old(engine.tables)[n]) ==>
      r == Fail(UndefinedColumn(n)) && engine.tables == old(engine.tables) && engine.log == old(engine.log)
    ensures batches <= 0 ==> r.Pass? && engine.tables == old(engine.tables) && engine.log == old(engine.log)
    ensures r.Fail? ==>
      && batches > 0
      && (MissesColumns(f, old(engine.tables)[n]) ||
          (f.GeocodeStandardizedBatch? && r == Fail(InvalidIntegerInput(n)) && !UnratedHouseNumsCast(old(engine.tables)[n].rows)))
    ensures r.Fail? ==> exists i ::
      && 0 <= i < Max0(batches)
      && SweptTimes(old(engine.tables), old(engine.log), engine.tables, engine.log, n, f, engine.ext, batchSize, old(engine.tables)[n], i)
    ensures r.Pass? ==> SweptTimes(old(engine.tables), old(engine.log), engine.tables, engine.log, n, f, engine.ext, batchSize, old(engine.tables)[n], Max0(batches))
    ensures r.Pass? && converges ==> |NullKeys(engine.tables[n].rows, RatingColumn)| == Max0(Uncovered(count, batchSize, Max0(batches)))
  {
    ghost var t0 := engine.tables[n];
    assert old(engine.log) + Repeat(UpdateBatch(n, f, batchSize), 0) == old(engine.log);
    var i := 0;
    while i < batches
      invariant engine.Valid()
      invariant engine.schemas == old(engine.schemas)
      invariant SweptTimes(old(engine.tables), old(engine.log), engine.tables, engine.log, n, f, engine.ext, batchSize, t0, i)
      invariant 0 <= i <= Max0(batches)
      invariant i == 0 ==> engine.tables == old(engine.tables) && engine.log == old(engine.log)
      invariant i > 0 ==> !MissesColumns(f, t0)
      invariant converges ==> |NullKeys(engine.tables[n].rows, RatingColumn)| == Max0(Uncovered(count, batchSize, i))
    {
      var res := SweepAgain(engine, n, f, batchSize, t0, old(engine.tables), old(engine.log), i, count, converges);
      if res.Fail? {
        assert SweptTimes(old(engine.tables), old(engine.log), engine.tables, engine.log, n, f, engine.ext, batchSize, t0, i);
        return res;
      }
      i := i + 1;
    }
    r := Pass;
  }

  /**
   * The driver's state after i passes of its loop: only table n changed, by sweeps of f
   * since t0, and the statement ran i times.
   */
  ghost predicate SweptTimes(tables0: map<TableName, Table>, log0: seq<Statement>, tables: map<TableName, Table>,
                             log: seq<Statement>, n: TableName, f: BatchFunc, ext: Extension, batchSize: int, t0: Table, i: nat)
  {
    && n in tables && tables == tables0[n := tables[n]]
    && SweptSince(t0, tables[n], f, ext)
    && log == log0 + Repeat(UpdateBatch(n, f, batchSize), i)
  }

  /** One pass of the driver's loop, from the state after i passes to the state after i + 1. */
  method SweepAgain(engine: Engine, n: TableName, f: BatchFunc, batchSize: int, ghost t0: Table,
                    ghost tables0: map<TableName, Table>, ghost log0: seq<Statement>, ghost i: nat,
                    ghost count: int, ghost converges: bool)
    returns (r: Outcome<DbError>)
    requires engine.Valid() && batchSize > 0
    requires SweptTimes(tables0, log0, engine.tables, engine.log, n, f, engine.ext, batchSize, t0, i)
    requires converges ==> f.IsGeocode() && |NullKeys(engine.tables[n].rows, RatingColumn)| == Max0(Uncovered(count, batchSize, i))
    modifies engine
    ensures engine.Valid()
    ensures MissesColumns(f, t0) ==> r == Fail(UndefinedColumn(n))
    ensures r.Fail? ==> (MissesColumns(f, t0) ||
      (f.GeocodeStandardizedBatch? && r == Fail(InvalidIntegerInput(n)) && !UnratedHouseNumsCast(t0.rows)))
    ensures r.Fail? ==> engine.schemas == old(engine.schemas) && engine.tables == old(engine.tables) && engine.log == old(engine.log)
    ensures r.Pass? ==> engine.schemas == old(engine.schemas)
    ensures r.Pass? ==> SweptTimes(tables0, log0, engine.tables, engine.log, n, f, engine.ext, batchSize, t0, i + 1)
    ensures r.Pass? && converges ==> |NullKeys(engine.tables[n].rows, RatingColumn)| == Max0(Uncovered(count, batchSize, i + 1))
  {
    ghost var before, logBefore := engine.tables[n], engine.log;
    if f.GeocodeStandardizedBatch? && UnratedHouseNumsCast(t0.rows) {
      SweptKeepsHouseNums(t0, before, f, engine.ext);
    }
    r := SweepOnce(engine, n, f, batchSize, t0);
    if r.Pass? {
      assert engine.log == logBefore + [UpdateBatch(n, f, batchSize)];
      RepeatStep(log0, UpdateBatch(n, f, batchSize), i);
      UpdateTwice(tables0, n, before, engine.tables[n]);
      if converges {
        UncoveredStep(count, batchSize, i, |NullKeys(before.rows, RatingColumn)|);
      }
    }
  }

  /** `normalize_all_addresses_in_address_table` */
  method NormalizeAllAddresses(engine: Engine, n: TableName, batchSize: int) returns (r: Outcome<DbError>)
    requires engine.Valid()
    modifies engine
    ensures engine.Valid()
    ensures r.Fail? ==> engine.schemas == old(engine.schemas) && engine.tables == old(engine.tables) && engine.log == old(engine.log)
    ensures n in old(engine.tables) && NormalizeBatch.NamedColumns() <= DataColumns(old(engine.tables)[n].columns) ==> r.Pass?
    ensures r.Pass? ==> engine.schemas == old(engine.schemas)
    ensures r.Pass? ==> DriverRan(old(engine.tables), engine.tables, n, "streetname", NormalizeBatch, engine.ext, batchSize, old(engine.log), engine.log)
  {
    SentinelIsWritten(NormalizeBatch);
    r := ApplyToAllRows(engine, n, "streetname", NormalizeBatch, batchSize);
  }

  /** `standardize_all_addresses_in_address_table` */
  method StandardizeAllAddresses(engine: Engine, n: TableName, batchSize: int) returns (r: Outcome<DbError>)
    requires engine.Valid()
    modifies engine
    ensures engine.Valid()
    ensures r.Fail? ==> engine.schemas == old(engine.schemas) && engine.tables == old(engine.tables) && engine.log == old(engine.log)
    ensures n in old(engine.tables) && StandardizeBatch.NamedColumns() <= DataColumns(old(engine.tables)[n].columns) ==> r.Pass?
    ensures r.Pass? ==> engine.schemas == old(engine.schemas)
    ensures r.Pass? ==> DriverRan(old(engine.tables), engine.tables, n, "name", StandardizeBatch, engine.ext, batchSize, old(engine.log), engine.log)
  {
    SentinelIsWritten(StandardizeBatch);
    r := ApplyToAllRows(engine, n, "name", StandardizeBatch, batchSize);
  }

  /**
   * `geocode_all_addresses_in_normalized_address_table`: the geocode statement always runs
   * with the default threshold, and with a positive batch size every row ends up rated.
   */
  method GeocodeAllNormalizedAddresses(engine: Engine, n: TableName, batchSize: int) returns (r: Outcome<DbError>)
    requires engine.Valid()
    modifies engine
    ensures engine.Valid()
    ensures r.Fail? ==> engine.schemas == old(engine.schemas) && engine.tables == old(engine.tables) && engine.log == old(engine.log)
    ensures n in old(engine.tables) && GeocodeBatch(DefaultRatingThreshold).NamedColumns() <= DataColumns(old(engine.tables)[n].columns) ==> r.Pass?
    ensures r.Pass? ==> engine.schemas == old(engine.schemas)
    ensures r.Pass? ==> DriverRan(old(engine.tables), engine.tables, n, RatingColumn, GeocodeBatch(DefaultRatingThreshold), engine.ext, batchSize, old(engine.log), engine.log)
    ensures r.Pass? && batchSize > 0 ==> NullCount(engine.tables[n], RatingColumn) == 0
  {
    SentinelIsWritten(GeocodeBatch(DefaultRatingThreshold));
    r := ApplyToAllRows(engine, n, RatingColumn, GeocodeBatch(DefaultRatingThreshold), batchSize);
  }

  /**
   * `geocode_all_addresses_in_normalized_address_table` as evidently intended: the geocode
   * statement runs with the threshold it is given.
   */
  method GeocodeAllNormalizedAddressesWith(engine: Engine, n: TableName, batchSize: int, ratingThreshold: int)
    returns (r: Outcome<DbError>)
    requires engine.Valid()
    modifies engine
    ensures engine.Valid()
    ensures r.Fail? ==> engine.schemas == old(engine.schemas) && engine.tables == old(engine.tables) && engine.log == old(engine.log)
    ensures n in old(engine.tables) && GeocodeBatch(ratingThreshold).NamedColumns() <= DataColumns(old(engine.tables)[n].columns) ==> r.Pass?
    ensures r.Pass? ==> engine.schemas == old(engine.schemas)
    ensures r.Pass? ==> DriverRan(old(engine.tables), engine.tables, n, RatingColumn, GeocodeBatch(ratingThreshold), engine.ext, batchSize, old(engine.log), engine.log)
    ensures r.Pass? && batchSize > 0 ==> NullCount(engine.tables[n], RatingColumn) == 0
  {
    SentinelIsWritten(GeocodeBatch(ratingThreshold));
    r := ApplyToAllRows(engine, n, RatingColumn, GeocodeBatch(ratingThreshold), batchSize);
  }

  /** `geocode_all_addresses_in_standardized_address_table`, likewise on the standardized table. */
  method GeocodeAllStandardizedAddresses(engine: Engine, n: TableName, batchSize: int) returns (r: Outcome<DbError>)
    requires engine.Valid()
    modifies engine
    ensures engine.Valid()
    ensures engine.schemas == old(engine.schemas)
    ensures r.Fail? && r != Fail(InvalidIntegerInput(n)) ==> engine.tables == old(engine.tables) && engine.log == old(engine.log)
    ensures n in old(engine.tables) && GeocodeStandardizedBatch(DefaultRatingThreshold).NamedColumns() <= DataColumns(old(engine.tables)[n].columns) ==>
      && (UnratedHouseNumsCast(old(engine.tables)[n].rows) ==> r.Pass?)
      && (r.Fail? ==> r == Fail(InvalidIntegerInput(n)))
    ensures r == Fail(InvalidIntegerInput(n)) ==>
      && n in old(engine.tables)
      && !UnratedHouseNumsCast(old(engine.tables)[n].rows)
      && DriverStopped(old(engine.tables), engine.tables, n, RatingColumn, GeocodeStandardizedBatch(DefaultRatingThreshold), engine.ext, batchSize, old(engine.log), engine.log)
    ensures r.Pass? ==> DriverRan(old(engine.tables), engine.tables, n, RatingColumn, GeocodeStandardizedBatch(DefaultRatingThreshold), engine.ext, batchSize, old(engine.log), engine.log)
    ensures r.Pass? && batchSize > 0 ==> NullCount(engine.tables[n], RatingColumn) == 0
  {
    SentinelIsWritten(GeocodeStandardizedBatch(DefaultRatingThreshold));
    r := ApplyToAllRows(engine, n, RatingColumn, GeocodeStandardizedBatch(DefaultRatingThreshold), batchSize);
  }

  /**
   * The normalize driver is not guaranteed to reach every row: `normalize_address` leaves the
   * street name NULL for an address it cannot parse, so that row stays selectable, and the
   * LIMIT may pick it again on every one of the precomputed sweeps. With two unnormalized
   * addresses and a batch size of 1 the driver runs two sweeps; both may pick "A", which
   * never normalizes, and "B" is never normalized although `normalize_address` would give
   * it a street name.
   */
  lemma NormalizeCanStarve(ext: Extension)
    requires ext.normalize("A").None? && Field(ext.normalize("B"), "streetname").Some?
    ensures var rows0 := TwoUnnormalized();
      var rows1 := SweepRows(NormalizeBatch, ext, rows0, {"A"}, map[]);
      var rows2 := SweepRows(NormalizeBatch, ext, rows1, {"A"}, map[]);
      && BatchesLeft(|NullKeys(rows0, "streetname")|, 1) == 2
      && ValidSweep(NormalizeBatch, ext, rows0, 1, {"A"}, map[])
      && ValidSweep(NormalizeBatch, ext, rows1, 1, {"A"}, map[])
      && IsNull(rows2["B"], "streetname") && IsNull(rows2["A"], "streetname")
  {
    var rows0 := TwoUnnormalized();
    assert NormColumnDefs[2].name == "streetname";
    assert BatchesLeft(2, 1) == 2 by {
      assert FloorDiv(2, 1) == 2 && Mod(2, 1) == 0;
    }
    StarvingSweep(ext, rows0);
    StarvingSweep(ext, SweepRows(NormalizeBatch, ext, rows0, {"A"}, map[]));
  }

  /** With "A" and "B" both unnormalized, a sweep of LIMIT 1 may pick "A", and both stay unnormalized. */
  lemma StarvingSweep(ext: Extension, rows: map<string, Row>)
    requires ext.normalize("A").None?
    requires rows.Keys == {"A", "B"} && IsNull(rows["A"], "streetname") && IsNull(rows["B"], "streetname")
    ensures NullKeys(rows, "streetname") == {"A", "B"} && |NullKeys(rows, "streetname")| == 2
    ensures ValidSweep(NormalizeBatch, ext, rows, 1, {"A"}, map[])
    ensures var after := SweepRows(NormalizeBatch, ext, rows, {"A"}, map[]);
      after.Keys == {"A", "B"} && IsNull(after["A"], "streetname") && IsNull(after["B"], "streetname")
  {
    assert NullKeys(rows, "streetname") == {"A", "B"};
    assert |{"A"}| == Min(1, 2);
    NormalizeSweepNullAt(ext, rows, {"A"}, map[], "A");
    NormalizeSweepNullAt(ext, rows, {"A"}, map[], "B");
  }

  /** Two freshly ingested addresses, "A" and "B", with every normalization column NULL. */
  function TwoUnnormalized(): map<string, Row>
  {
    map["A" := NullRow(NameSet(NormColumnDefs)), "B" := NullRow(NameSet(NormColumnDefs))]
  }

  // ---------------------------------------------------------------------------------
  // Ingestion
  // ---------------------------------------------------------------------------------

  /** One row of a pandas DataFrame: column name to cell, `None` for a missing value. */
  type Record = map<string, Option<Value>>

  /** A pandas DataFrame: its column labels in order and its rows in order. */
  datatype DataFrame = DataFrame(columns: seq<string>, rows: seq<Record>)

  /** A pandas Series: its name and its values in order. */
  datatype Series = Series(name: string, values: seq<Option<Value>>)

  /** What `add_addresses_to_address_table` accepts: a Series, or a DataFrame with a `full_address` column. */
  datatype AddressInput = SeriesInput(series: Series) | FrameInput(frame: DataFrame)

  /** A cell of a record; a column the record lacks reads as missing. */
  function Cell(r: Record, c: string): Option<Value>
  {
    if c in r then r[c] else None
  }

  /** `df[c]`: the column as a Series named c, one value per row. */
  function Column(df: DataFrame, c: string): (s: Series)
    ensures s.name == c && |s.values| == |df.rows|
    ensures forall i :: 0 <= i < |df.rows| ==> s.values[i] == Cell(df.rows[i], c)
  {
    Series(c, seq(|df.rows|, i requires 0 <= i < |df.rows| => Cell(df.rows[i], c)))
  }

  /** The Series that is written: the input itself, or the `full_address` column of a DataFrame (none when it lacks one). */
  function InputSeries(input: AddressInput): Option<Series>
  {
    match input
    case SeriesInput(s) => Some(s)
    case FrameInput(df) => if KeyColumn in df.columns then Some(Column(df, KeyColumn)) else None
  }

  /**
   * The key Postgres stores for one value written to `full_address varchar(100)`: a missing
   * value violates NOT NULL, text is coerced to varchar(100), an integer or a boolean is
   * converted to its text form first.
   */
  function KeyText(n: TableName, v: Option<Value>): (r: Result<string, DbError>)
    ensures r.Success? ==> |r.value| <= KeyMaxLength
    ensures v.None? ==> r == Failure(NotNullViolation(n))
    ensures v.Some? && v.value.Text? ==>
      (r.Success? <==> CoerceKey(v.value.s).Some?) && (r.Success? ==> r.value == CoerceKey(v.value.s).value)
  {
    match v
    case None => Failure(NotNullViolation(n))
    case Some(x) =>
      var text := match x
        case Text(s) => Some(s)
        case Int(i) => Some(IntToDecimal(i))
        case Bool(b) => Some(if b then "true" else "false")
        case Geometry(_) => None;
      if text.None? then Failure(UnsupportedKeyValue(n))
      else match CoerceKey(text.value)
        case Some(k) => Success(k)
        case None => Failure(ValueTooLong(n))
  }

  /**
   * The keys of all values, or the error of the first value that cannot be stored: the
   * insert runs in one transaction, so one bad value aborts all of it.
   */
  function KeyTexts(n: TableName, vs: seq<Option<Value>>): (r: Result<seq<string>, DbError>)
    ensures r.Success? <==> forall i :: 0 <= i < |vs| ==> KeyText(n, vs[i]).Success?
    ensures r.Success? ==> |r.value| == |vs| && forall i :: 0 <= i < |vs| ==> r.value[i] == KeyText(n, vs[i]).value
    ensures r.Failure? ==>
      exists i :: 0 <= i < |vs| && KeyText(n, vs[i]) == Failure(r.error) && forall j :: 0 <= j < i ==> KeyText(n, vs[j]).Success?
  {
    if |vs| == 0 then Success([])
    else match KeyText(n, vs[0])
      case Failure(e) => Failure(e)
      case Success(k) =>
        match KeyTexts(n, vs[1..])
        case Failure(e) =>
          ghost var i :| 0 <= i < |vs[1..]| && KeyText(n, vs[1..][i]) == Failure(e) &&
            forall j :: 0 <= j < i ==> KeyText(n, vs[1..][j]).Success?;
          assert KeyText(n, vs[i + 1]) == Failure(e);
          Failure(e)
        case Success(ks) =>
          assert forall i :: 1 <= i < |vs| ==> vs[i] == vs[1..][i - 1];
          Success([k] + ks)
  }

  /**
   * `add_addresses_to_address_table`: which keys `to_sql(..., if_exists="append")` inserts
   * with `to_sql_on_conflict_do_nothing`, or why it raises. A DataFrame without
   * `full_address` fails the assertion; an empty Series writes nothing; a Series is written
   * into the column it is named after, so only one named `full_address` can insert rows:
   * one named after another column leaves the primary key NULL and one named after no
   * column is refused.
   */
  function IngestKeys(tables: map<TableName, Table>, n: TableName, input: AddressInput): (r: Result<seq<string>, DbError>)
    ensures InputSeries(input).None? ==> r == Failure(AssertionFailure)
    ensures InputSeries(input).Some? && n !in tables ==> r == Failure(UndefinedTable(n))
    ensures r.Success? ==> n in tables && InputSeries(input).Some?
    ensures r.Success? ==> |r.value| == |InputSeries(input).value.values| && forall i :: 0 <= i < |r.value| ==> |r.value[i]| <= KeyMaxLength
    ensures r.Success? && |r.value| > 0 ==> InputSeries(input).value.name == KeyColumn
    ensures InputSeries(input).Some? && n in tables && InputSeries(input).value.name == KeyColumn ==>
      r == KeyTexts(n, InputSeries(input).value.values)
  {
    match InputSeries(input)
    case None => Failure(AssertionFailure)
    case Some(s) =>
      if n !in tables then Failure(UndefinedTable(n))
      else if |s.values| == 0 then Success([])
      else if s.name == KeyColumn then KeyTexts(n, s.values)
      else if s.name in DataColumns(tables[n].columns) then Failure(NotNullViolation(n))
      else Failure(UndefinedColumn(n))
  }

  /** The INSERT statement the ingestion executes: none for an empty Series. */
  function InsertStatements(n: TableName, keys: seq<string>): seq<Statement>
  {
    if |keys| == 0 then [] else [InsertKeys(n, keys)]
  }

  /**
   * `add_addresses_to_address_table`: inserts the keys, each new key as a row of NULLs,
   * existing rows untouched; on error nothing changes.
   */
  method AddAddresses(engine: Engine, n: TableName, input: AddressInput) returns (r: Outcome<DbError>)
    requires engine.Valid()
    modifies engine
    ensures engine.Valid()
    ensures IngestKeys(old(engine.tables), n, input).Failure? ==>
      && r == Fail(IngestKeys(old(engine.tables), n, input).error)
      && engine.schemas == old(engine.schemas) && engine.tables == old(engine.tables) && engine.log == old(engine.log)
    ensures IngestKeys(old(engine.tables), n, input).Success? ==>
      var keys := IngestKeys(old(engine.tables), n, input).value;
      && r.Pass?
      && engine.schemas == old(engine.schemas)
      && engine.tables == old(engine.tables)[n := InsertOrIgnore(old(engine.tables)[n], keys)]
      && engine.log == old(engine.log) + InsertStatements(n, keys)
  {
    var keys := IngestKeys(engine.tables, n, input);
    if keys.Failure? {
      return Fail(keys.error);
    }
    engine.tables := engine.tables[n := InsertOrIgnore(engine.tables[n], keys.value)];
    if |keys.value| > 0 {
      engine.log := engine.log + [InsertKeys(n, keys.value)];
    }
    r := Pass;
  }

  /** A text address of at most 100 characters is stored exactly as given. */
  lemma TextKeyVerbatim(n: TableName, s: string)
    requires |s| <= KeyMaxLength
    ensures KeyText(n, Some(Text(s))) == Success(s)
  {
  }

  /** An integer address is stored as its decimal text, which reads back as the same integer. */
  lemma IntKeyRoundTrip(n: TableName, i: int)
    requires |IntToDecimal(i)| <= KeyMaxLength
    ensures KeyText(n, Some(Int(i))).Success?
    ensures ParseInt(KeyText(n, Some(Int(i))).value) == Some(i)
  {
    IntToDecimalRoundTrip(i);
  }

  /**
   * Ingesting the same input a second time finds the same keys and changes nothing: every
   * key is already there.
   */
  lemma ReingestChangesNothing(tables: map<TableName, Table>, n: TableName, input: AddressInput)
    requires IngestKeys(tables, n, input).Success?
    ensures var keys := IngestKeys(tables, n, input).value;
      var after := tables[n := InsertOrIgnore(tables[n], keys)];
      && IngestKeys(after, n, input) == IngestKeys(tables, n, input)
      && after[n := InsertOrIgnore(after[n], keys)] == after
  {
    var keys := IngestKeys(tables, n, input).value;
    InsertOrIgnoreIdempotent(tables[n], keys);
  }

  // ---------------------------------------------------------------------------------
  // The pipeline
  // ---------------------------------------------------------------------------------

  /** A prepared table has every column the normalize and geocode statements name. */
  lemma PreparedColumns(t: Table, threshold: int)
    ensures NormalizeBatch.NamedColumns() <= DataColumns(PreparedTable(t).columns)
    ensures GeocodeBatch(threshold).NamedColumns() <= DataColumns(PreparedTable(t).columns)
  {
    SentinelIsWritten(NormalizeBatch);
    SentinelIsWritten(GeocodeBatch(threshold));
  }

  /** No normalization column is the rating. */
  lemma RatingIsNotNormColumn()
    ensures RatingColumn !in NameSet(NormColumnDefs)
  {
    forall i | 0 <= i < |NormColumnDefs|
      ensures NormColumnDefs[i].name != RatingColumn
    {
      assert i == 0 || i == 1 || i == 2 || i == 3 || i == 4 || i == 5 || i == 6 || i == 7 || i == 8 || i == 9 || i == 10 || i == 11;
    }
  }

  /** The normalize phase leaves every row's rating as it was, so it leaves the NULL-rating rows as they were. */
  lemma NormalizeKeepsRatings(t1: Table, t2: Table, ext: Extension)
    requires SweptSince(t1, t2, NormalizeBatch, ext)
    ensures forall k :: k in t1.rows ==> (IsNull(t2.rows[k], RatingColumn) <==> IsNull(t1.rows[k], RatingColumn))
    ensures NullKeys(t2.rows, RatingColumn) == NullKeys(t1.rows, RatingColumn)
    ensures NullCount(t2, RatingColumn) == NullCount(t1, RatingColumn)
  {
    RatingIsNotNormColumn();
    forall k | k in t1.rows
      ensures IsNull(t2.rows[k], RatingColumn) <==> IsNull(t1.rows[k], RatingColumn)
    {
      var cols := NormalizeBatch.SetColumns();
      assert RatingColumn in t2.rows[k] <==> RatingColumn in t2.rows[k] - cols;
      assert RatingColumn in t1.rows[k] <==> RatingColumn in t1.rows[k] - cols;
      if RatingColumn in t1.rows[k] {
        assert (t2.rows[k] - cols)[RatingColumn] == t2.rows[k][RatingColumn];
        assert (t1.rows[k] - cols)[RatingColumn] == t1.rows[k][RatingColumn];
      }
    }
  }

  /**
   * What the two phases leave behind, for the table t1 as ingested and the table t3 at the
   * end: the same columns and keys; every row whose rating was NULL and is now set holds
   * -1 or a rating under the threshold; a row already normalized and rated is exactly
   * as it was; and t3 is reached from t1 by normalize sweeps and then geocode sweeps,
   * each row written over by each statement at most once.
   */
  ghost predicate Geocoded(t1: Table, t3: Table, threshold: int, ext: Extension)
  {
    && (exists t2 :: Phases(t1, t2, t3, threshold, ext))
    && t3.columns == t1.columns && t3.rows.Keys == t1.rows.Keys
    && (forall k :: k in t1.rows && IsNull(t1.rows[k], RatingColumn) && !IsNull(t3.rows[k], RatingColumn) ==>
          RatedUnder(t3.rows[k], threshold))
    && (forall k :: k in t1.rows && !IsNull(t1.rows[k], "streetname") && !IsNull(t1.rows[k], RatingColumn) ==>
          t3.rows[k] == t1.rows[k])
  }

  /** The table t2 between the normalize phase and the geocode phase. */
  ghost predicate Phases(t1: Table, t2: Table, t3: Table, threshold: int, ext: Extension)
  {
    SweptSince(t1, t2, NormalizeBatch, ext) && SweptSince(t2, t3, GeocodeBatch(threshold), ext)
  }

  /** A normalize phase followed by a geocode phase with the threshold leaves the table Geocoded. */
  lemma PhasesGeocode(t1: Table, t2: Table, t3: Table, threshold: int, ext: Extension)
    requires Phases(t1, t2, t3, threshold, ext)
    ensures Geocoded(t1, t3, threshold, ext)
  {
    NormalizeKeepsRatings(t1, t2, ext);
  }

  /**
   * Where a run of the pipeline with the geocode statement g leaves the database, from
   * schemas0, tables0 and log0. The setup always completes. Then the ingestion fails with its
   * own error, or both drivers run to the end: the normalize statement as many times as
   * there were unnormalized rows, in batches, then g as many times as there were unrated
   * rows (neither runs for a batch size that is not positive).
   */
  ghost predicate PipelineRan(schemas0: set<string>, tables0: map<TableName, Table>, log0: seq<Statement>,
                        n: TableName, input: AddressInput, batchSize: int, g: BatchFunc, ext: Extension,
                        r: Outcome<DbError>, tables: map<TableName, Table>, log: seq<Statement>)
    requires g.GeocodeBatch?
  {
    var tables1 := SetupTables(tables0, n);
    var log1 := log0 + SetupStatements(schemas0, n);
    var keys := IngestKeys(tables1, n, input);
    && (keys.Failure? ==> r == Fail(keys.error) && tables == tables1 && log == log1)
    && (keys.Success? ==>
          var t1 := InsertOrIgnore(tables1[n], keys.value);
          var log2 := log1 + InsertStatements(n, keys.value);
          && r.Pass?
          && n in tables && tables == tables1[n := tables[n]]
          && Geocoded(t1, tables[n], g.threshold, ext)
          && (batchSize > 0 ==> NullCount(tables[n], RatingColumn) == 0)
          && log == log2
               + Repeat(UpdateBatch(n, NormalizeBatch, batchSize), Max0(BatchesLeft(NullCount(t1, "streetname"), batchSize)))
               + Repeat(UpdateBatch(n, g, batchSize), Max0(BatchesLeft(NullCount(t1, RatingColumn), batchSize))))
  }

  /**
   * Where the setup, the ingestion and the normalize driver leave the database: as
   * PipelineRan, up to the end of the normalize phase.
   */
  ghost predicate NormalizeRan(schemas0: set<string>, tables0: map<TableName, Table>, log0: seq<Statement>,
                         n: TableName, input: AddressInput, batchSize: int, ext: Extension,
                         r: Outcome<DbError>, tables: map<TableName, Table>, log: seq<Statement>)
  {
    var tables1 := SetupTables(tables0, n);
    var log1 := log0 + SetupStatements(schemas0, n);
    var keys := IngestKeys(tables1, n, input);
    && (keys.Failure? ==> r == Fail(keys.error) && tables == tables1 && log == log1)
    && (keys.Success? ==>
          var t1 := InsertOrIgnore(tables1[n], keys.value);
          var log2 := log1 + InsertStatements(n, keys.value);
          && r.Pass?
          && n in tables && tables == tables1[n := tables[n]]
          && SweptSince(t1, tables[n], NormalizeBatch, ext)
          && log == log2 + Repeat(UpdateBatch(n, NormalizeBatch, batchSize), Max0(BatchesLeft(NullCount(t1, "streetname"), batchSize))))
  }

  /**
   * The first half of `ingest_normalize_and_geocode_addresses`: setup, ingestion and the
   * normalize driver, stopping at the first error.
   */
  method IngestAndNormalize(engine: Engine, n: TableName, input: AddressInput, batchSize: int) returns (r: Outcome<DbError>)
    requires engine.Valid()
    modifies engine
    ensures engine.Valid()
    ensures engine.schemas == old(engine.schemas) + {n.schema}
    ensures NormalizeRan(old(engine.schemas), old(engine.tables), old(engine.log), n, input, batchSize, engine.ext, r, engine.tables, engine.log)
  {
    r := SetupAndIngest(engine, n, input);
    if r.Fail? {
      return;
    }
    ghost var tables1 := SetupTables(old(engine.tables), n);
    ghost var keys := IngestKeys(tables1, n, input).value;
    ghost var t1 := InsertOrIgnore(tables1[n], keys);
    ghost var log2 := engine.log;
    PreparedColumns(TableOrNew(old(engine.tables), n), DefaultRatingThreshold);
    assert engine.tables == tables1[n := t1] && t1.columns == PreparedTable(TableOrNew(old(engine.tables), n)).columns;
    assert NormalizeBatch.Sentinel() in NameSet(t1.columns) by {
      SentinelIsWritten(NormalizeBatch);
    }
    r := NormalizeAllAddresses(engine, n, batchSize);
    if r.Pass? {
      UpdateTwice(tables1, n, t1, engine.tables[n]);
      assert NullCountOf(tables1[n := t1], n, "streetname") == Success(NullCount(t1, "streetname"));
    }
  }

  /** Setup, then ingestion: the table is prepared whatever happens, and the addresses are added unless the ingestion fails. */
  method SetupAndIngest(engine: Engine, n: TableName, input: AddressInput) returns (r: Outcome<DbError>)
    requires engine.Valid()
    modifies engine
    ensures engine.Valid()
    ensures engine.schemas == old(engine.schemas) + {n.schema}
    ensures var tables1 := SetupTables(old(engine.tables), n);
      var log1 := old(engine.log) + SetupStatements(old(engine.schemas), n);
      var keys := IngestKeys(tables1, n, input);
      && (keys.Failure? ==> r == Fail(keys.error) && engine.tables == tables1 && engine.log == log1)
      && (keys.Success? ==> r.Pass? && engine.tables == tables1[n := InsertOrIgnore(tables1[n], keys.value)]
                            && engine.log == log1 + InsertStatements(n, keys.value))
  {
    SetupAddressTable(engine, n);
    r := AddAddresses(engine, n, input);
  }

  /**
   * `ingest_normalize_and_geocode_addresses` as written: `rating_threshold` is accepted but
   * not passed on, so the geocode driver always runs with the default threshold.
   */
  method IngestNormalizeAndGeocode(engine: Engine, n: TableName, input: AddressInput, batchSize: int, ratingThreshold: int)
    returns (r: Outcome<DbError>)
    requires engine.Valid()
    modifies engine
    ensures engine.Valid()
    ensures engine.schemas == old(engine.schemas) + {n.schema}
    ensures PipelineRan(old(engine.schemas), old(engine.tables), old(engine.log), n, input, batchSize,
                        GeocodeBatch(DefaultRatingThreshold), engine.ext, r, engine.tables, engine.log)
  {
    r := IngestAndNormalize(engine, n, input, batchSize);
    if r.Fail? {
      return;
    }
    ghost var tables1 := SetupTables(old(engine.tables), n);
    ghost var t1 := InsertOrIgnore(tables1[n], IngestKeys(tables1, n, input).value);
    ghost var tables2 := engine.tables;
    ghost var log2 := engine.log;
    PreparedColumns(TableOrNew(old(engine.tables), n), DefaultRatingThreshold);
    r := GeocodeAllNormalizedAddresses(engine, n, batchSize);
    GeocodeTail(tables1, n, t1, tables2, engine.tables, GeocodeBatch(DefaultRatingThreshold), engine.ext, batchSize, log2, engine.log);
  }

  /**
   * `ingest_normalize_and_geocode_addresses` as evidently intended: the geocode driver runs
   * with the caller's `rating_threshold`.
   */
  method IngestNormalizeAndGeocodeForwarding(engine: Engine, n: TableName, input: AddressInput, batchSize: int, ratingThreshold: int)
    returns (r: Outcome<DbError>)
    requires engine.Valid()
    modifies engine
    ensures engine.Valid()
    ensures engine.schemas == old(engine.schemas) + {n.schema}
    ensures PipelineRan(old(engine.schemas), old(engine.tables), old(engine.log), n, input, batchSize,
                        GeocodeBatch(ratingThreshold), engine.ext, r, engine.tables, engine.log)
  {
    r := IngestAndNormalize(engine, n, input, batchSize);
    if r.Fail? {
      return;
    }
    ghost var tables1 := SetupTables(old(engine.tables), n);
    ghost var t1 := InsertOrIgnore(tables1[n], IngestKeys(tables1, n, input).value);
    ghost var tables2 := engine.tables;
    ghost var log2 := engine.log;
    PreparedColumns(TableOrNew(old(engine.tables), n), ratingThreshold);
    r := GeocodeAllNormalizedAddressesWith(engine, n, batchSize, ratingThreshold);
    GeocodeTail(tables1, n, t1, tables2, engine.tables, GeocodeBatch(ratingThreshold), engine.ext, batchSize, log2, engine.log);
  }

  /** The geocode driver after the normalize driver, stated against the table as ingested. */
  lemma GeocodeTail(tables1: map<TableName, Table>, n: TableName, t1: Table, tables2: map<TableName, Table>,
                    tables3: map<TableName, Table>, g: BatchFunc, ext: Extension, batchSize: int, log2: seq<Statement>, log3: seq<Statement>)
    requires g.GeocodeBatch? && n in tables2
    requires tables2 == tables1[n := tables2[n]] && SweptSince(t1, tables2[n], NormalizeBatch, ext)
    requires DriverRan(tables2, tables3, n, RatingColumn, g, ext, batchSize, log2, log3)
    ensures tables3 == tables1[n := tables3[n]] && Geocoded(t1, tables3[n], g.threshold, ext)
    ensures log3 == log2 + Repeat(UpdateBatch(n, g, batchSize), Max0(BatchesLeft(NullCount(t1, RatingColumn), batchSize)))
  {
    NormalizeKeepsRatings(t1, tables2[n], ext);
    PhasesGeocode(t1, tables2[n], tables3[n], g.threshold, ext);
    UpdateTwice(tables1, n, tables2[n], tables3[n]);
  }

  /**
   * After a successful pipeline run with a positive batch size, every address the ingestion
   * added holds a rating of -1 or one under the threshold the geocode statement ran with.
   */
  lemma NewAddressesRated(schemas0: set<string>, tables0: map<TableName, Table>, log0: seq<Statement>,
                          n: TableName, input: AddressInput, batchSize: int, g: BatchFunc, ext: Extension,
                          r: Outcome<DbError>, tables: map<TableName, Table>, log: seq<Statement>, k: string)
    requires g.GeocodeBatch? && PipelineRan(schemas0, tables0, log0, n, input, batchSize, g, ext, r, tables, log)
    requires r.Pass? && batchSize > 0
    requires k in KeySet(IngestKeys(SetupTables(tables0, n), n, input).value) && k !in TableOrNew(tables0, n).rows
    ensures n in tables && k in tables[n].rows && RatedUnder(tables[n].rows[k], g.threshold)
  {
    var tables1 := SetupTables(tables0, n);
    var keys := IngestKeys(tables1, n, input).value;
    var t1 := InsertOrIgnore(tables1[n], keys);
    assert k !in tables1[n].rows;
    assert IsNull(t1.rows[k], RatingColumn);
    assert k !in NullKeys(tables[n].rows, RatingColumn);
  }

  /**
   * The threshold decides what is stored for an address whose only candidate is rated 30:
   * with the default 22 no candidate is accepted and the rating is -1; with 50 the
   * candidate is accepted and its rating 30 is stored. The pipeline as written always
   * takes the first branch, whatever `rating_threshold` it was given.
   */
  lemma ThresholdChangesRating(c: Candidate, pprint: Composite -> Option<string>, j22: Option<Candidate>, j50: Option<Candidate>)
    requires c.rating == 30
    requires ValidJoin([c], DefaultRatingThreshold, j22) && ValidJoin([c], 50, j50)
    ensures GeocodeAssignment(j22, pprint)[RatingColumn] == Some(Int(NoMatchRating))
    ensures GeocodeAssignment(j50, pprint)[RatingColumn] == Some(Int(30))
  {
    assert [c][0] == c;
    GeocodeAssignmentRule([c], DefaultRatingThreshold, j22, pprint);
    GeocodeAssignmentRule([c], 50, j50, pprint);
  }

  /**
   * So the as-written pipeline never stores the rating 30 for a new address, even when
   * called with `rating_threshold` 50.
   */
  lemma AsWrittenIgnoresThreshold(schemas0: set<string>, tables0: map<TableName, Table>, log0: seq<Statement>,
                                  n: TableName, input: AddressInput, batchSize: int, ext: Extension,
                                  r: Outcome<DbError>, tables: map<TableName, Table>, log: seq<Statement>, k: string)
    requires PipelineRan(schemas0, tables0, log0, n, input, batchSize, GeocodeBatch(DefaultRatingThreshold), ext, r, tables, log)
    requires r.Pass? && batchSize > 0
    requires k in KeySet(IngestKeys(SetupTables(tables0, n), n, input).value) && k !in TableOrNew(tables0, n).rows
    ensures n in tables && k in tables[n].rows && tables[n].rows[k][RatingColumn] != Some(Int(30))
  {
    NewAddressesRated(schemas0, tables0, log0, n, input, batchSize, GeocodeBatch(DefaultRatingThreshold), ext, r, tables, log, k);
  }

  // ---------------------------------------------------------------------------------
  // The merge back onto the caller's rows
  // ---------------------------------------------------------------------------------

  /**
   * `if "full_address" not in df.columns: df["full_address"] = df[full_address_colname].copy()`:
   * the key column is copied from the named column only when the frame lacks one; naming
   * a column the frame lacks raises a KeyError.
   */
  function WithFullAddress(df: DataFrame, colname: string): (r: Result<DataFrame, DbError>)
    ensures KeyColumn in df.columns ==> r == Success(df)
    ensures KeyColumn !in df.columns && colname !in df.columns ==> r == Failure(KeyError(colname))
    ensures KeyColumn !in df.columns && colname in df.columns ==>
      && r.Success? && r.value.columns == df.columns + [KeyColumn] && |r.value.rows| == |df.rows|
      && Column(r.value, KeyColumn).values == Column(df, colname).values
      && forall i, c :: 0 <= i < |df.rows| && c != KeyColumn ==> Cell(r.value.rows[i], c) == Cell(df.rows[i], c)
  {
    if KeyColumn in df.columns then Success(df)
    else if colname !in df.columns then Failure(KeyError(colname))
    else
      var rows := seq(|df.rows|, i requires 0 <= i < |df.rows| => df.rows[i][KeyColumn := Cell(df.rows[i], colname)]);
      Success(DataFrame(df.columns + [KeyColumn], rows))
  }

  /** The columns `read_geocoded_address_table_w_lat_longs` returns besides `full_address`. */
  const GeoColumnNames: seq<string> := ["longitude", "latitude", "geometry"]

  /**
   * One row of `read_geocoded_address_table_w_lat_longs` for a row of the table: the point
   * `geomout` as `geometry`, and its coordinates in the column's reference system, which
   * `project` stands for (NULL when there is no point).
   */
  function GeoRecord(row: Row, project: Value -> (Value, Value)): (r: Record)
    ensures r.Keys == {"longitude", "latitude", "geometry"}
    ensures r["geometry"] == Cell(row, "geomout")
    ensures r["longitude"].Some? <==> Cell(row, "geomout").Some?
    ensures r["latitude"].Some? <==> Cell(row, "geomout").Some?
  {
    var g := Cell(row, "geomout");
    map["longitude" := (if g.Some? then Some(project(g.value).0) else None),
        "latitude" := (if g.Some? then Some(project(g.value).1) else None),
        "geometry" := g]
  }

  /** The geocoded table as read back: one row per key of the staging table. */
  function ReadGeocoded(t: Table, project: Value -> (Value, Value)): (r: map<string, Record>)
    ensures r.Keys == t.rows.Keys
    ensures forall k :: k in r ==> r[k] == GeoRecord(t.rows[k], project)
  {
    map k | k in t.rows :: GeoRecord(t.rows[k], project)
  }

  /** A caller's column whose name the geocoded side also uses gets the suffix `_orig`. */
  function LeftName(c: string): string
  {
    if c in GeoColumnNames then c + "_orig" else c
  }

  /** A geocoded column whose name the caller's frame also uses gets the suffix `_geocoder`. */
  function RightName(leftCols: seq<string>, c: string): string
  {
    if c in leftCols then c + "_geocoder" else c
  }

  /** No other column of the caller's frame ends up under the same name as c. */
  predicate UniqueLeftName(cols: seq<string>, c: string)
  {
    forall d :: d in cols && LeftName(d) == LeftName(c) ==> d == c
  }

  /**
   * Suffixing gives two different caller's columns the same name: a geocoded name `g` is
   * renamed `g_orig` while the caller also has a column `g_orig` of its own.
   */
  predicate SuffixesCollide(cols: seq<string>)
  {
    exists c :: c in cols && !UniqueLeftName(cols, c)
  }

  /** c's cells reach the merged frame under LeftName(c): no other column, of either side, ends up under that name. */
  predicate KeepsName(cols: seq<string>, c: string)
  {
    && UniqueLeftName(cols, c)
    && forall g :: g in GeoColumnNames ==> RightName(cols, g) != LeftName(c)
  }

  /** The three geocoded columns keep three different names, whichever of them get the suffix. */
  lemma RightNamesDistinct(leftCols: seq<string>)
    ensures RightName(leftCols, "longitude") != RightName(leftCols, "latitude")
    ensures RightName(leftCols, "longitude") != RightName(leftCols, "geometry")
    ensures RightName(leftCols, "latitude") != RightName(leftCols, "geometry")
  {
    // The suffix leaves each name's first two characters, which already tell the three apart.
    assert RightName(leftCols, "longitude")[..2] == "lo";
    assert RightName(leftCols, "latitude")[..2] == "la";
    assert RightName(leftCols, "geometry")[..2] == "ge";
  }

  /** The caller's cells of one row under their merged names; of two columns landing on one name the later wins. */
  function LeftCells(cols: seq<string>, row: Record): (r: Record)
    ensures forall c :: c in cols ==> LeftName(c) in r
    ensures forall c :: c in cols && UniqueLeftName(cols, c) ==> r[LeftName(c)] == Cell(row, c)
    decreases |cols|
  {
    if |cols| == 0 then map[]
    else
      var init := cols[..|cols| - 1];
      var last := cols[|cols| - 1];
      var r := LeftCells(init, row)[LeftName(last) := Cell(row, last)];
      assert forall c :: c in cols && c != last ==> c in init;
      assert forall c :: c in cols && UniqueLeftName(cols, c) ==> UniqueLeftName(init, c);
      r
  }

  /** The address-table row a caller's row joins: only a text key equal to a stored key matches. */
  function Match(row: Record, right: map<string, Record>): Option<Record>
  {
    match Cell(row, KeyColumn)
    case Some(Text(s)) => if s in right then Some(right[s]) else None
    case _ => None
  }

  /** The geocoded cells of one merged row: NULL when the row matched nothing. */
  function RightCells(leftCols: seq<string>, m: Option<Record>): (r: Record)
    ensures r.Keys == {RightName(leftCols, "longitude"), RightName(leftCols, "latitude"), RightName(leftCols, "geometry")}
    ensures forall c :: c in GeoColumnNames ==>
      RightName(leftCols, c) in r && r[RightName(leftCols, c)] == (if m.Some? then Cell(m.value, c) else None)
  {
    var get := (c: string) => if m.Some? then Cell(m.value, c) else None;
    var r := map[RightName(leftCols, "longitude") := get("longitude"),
        RightName(leftCols, "latitude") := get("latitude"),
        RightName(leftCols, "geometry") := get("geometry")];
    RightNamesDistinct(leftCols);
    forall c | c in GeoColumnNames
      ensures RightName(leftCols, c) in r && r[RightName(leftCols, c)] == get(c)
    {
      assert c == "longitude" || c == "latitude" || c == "geometry";
    }
    r
  }

  /** One merged row: the caller's cells under their merged names, then the geocoded cells of the matched row. */
  function MergedRow(cols: seq<string>, row: Record, right: map<string, Record>): (r: Record)
    ensures forall c :: c in cols && KeepsName(cols, c) ==> Cell(r, LeftName(c)) == Cell(row, c)
    ensures forall c :: c in GeoColumnNames ==>
      var m := Match(row, right);
      Cell(r, RightName(cols, c)) == (if m.Some? then Cell(m.value, c) else None)
  {
    var l, g := LeftCells(cols, row), RightCells(cols, Match(row, right));
    assert forall c :: c in cols && KeepsName(cols, c) ==> LeftName(c) !in g by {
      assert "longitude" in GeoColumnNames && "latitude" in GeoColumnNames && "geometry" in GeoColumnNames;
    }
    l + g
  }

  /**
   * `pd.merge(left=df, right=geocoded, how="left", on="full_address", suffixes=("_orig", "_geocoder"))`
   * against a right side keyed by the primary key: one row per caller's row, in order, each
   * with the caller's cells and the geocoded cells of the row its key matched.
   */
  function LeftMerge(left: DataFrame, right: map<string, Record>): (out: DataFrame)
    ensures |out.rows| == |left.rows|
    ensures forall i, c :: 0 <= i < |left.rows| && c in left.columns && KeepsName(left.columns, c) ==>
      Cell(out.rows[i], LeftName(c)) == Cell(left.rows[i], c)
    ensures forall i, c :: 0 <= i < |left.rows| && c in GeoColumnNames ==>
      var m := Match(left.rows[i], right);
      Cell(out.rows[i], RightName(left.columns, c)) == (if m.Some? then Cell(m.value, c) else None)
  {
    var names := seq(|left.columns|, i requires 0 <= i < |left.columns| => LeftName(left.columns[i]))
      + seq(|GeoColumnNames|, i requires 0 <= i < |GeoColumnNames| => RightName(left.columns, GeoColumnNames[i]));
    var rows := seq(|left.rows|, i requires 0 <= i < |left.rows| => MergedRow(left.columns, left.rows[i], right));
    DataFrame(names, rows)
  }

  /** `geocoded_full_gdf["geometry"].notnull().sum()` */
  function RowsWithGeometry(rows: seq<Record>): (k: nat)
    ensures k <= |rows|
    ensures k == |rows| <==> forall i :: 0 <= i < |rows| ==> Cell(rows[i], "geometry").Some?
  {
    if |rows| == 0 then 0
    else
      var rest := RowsWithGeometry(rows[1..]);
      assert forall i :: 1 <= i < |rows| ==> rows[i] == rows[1..][i - 1];
      (if Cell(rows[0], "geometry").Some? then 1 else 0) + rest
  }

  /** How many of the caller's rows match a stored address that has a point. */
  function MatchedWithGeometry(rows: seq<Record>, right: map<string, Record>): nat
  {
    if |rows| == 0 then 0
    else
      var m := Match(rows[0], right);
      (if m.Some? && Cell(m.value, "geometry").Some? then 1 else 0) + MatchedWithGeometry(rows[1..], right)
  }

  /**
   * When the caller's frame has no `geometry` column of its own, the printed count of rows
   * with a geocoding result is the number of caller's rows whose address matched a stored
   * one that has a point.
   */
  lemma {:induction false} MergeGeometryCount(left: DataFrame, right: map<string, Record>)
    requires "geometry" !in left.columns
    ensures RowsWithGeometry(LeftMerge(left, right).rows) == MatchedWithGeometry(left.rows, right)
    decreases |left.rows|
  {
    var out := LeftMerge(left, right);
    assert RightName(left.columns, "geometry") == "geometry";
    assert "geometry" in GeoColumnNames;
    if |left.rows| > 0 {
      var tail := DataFrame(left.columns, left.rows[1..]);
      MergeGeometryCount(tail, right);
      var outTail := LeftMerge(tail, right);
      assert out.rows[1..] == outTail.rows by {
        forall i | 0 <= i < |outTail.rows|
          ensures out.rows[1..][i] == outTail.rows[i]
        {
          assert left.rows[1..][i] == left.rows[i + 1];
        }
      }
    }
  }

  /** What `geocode_addresses` returns and prints: the merged frame, its row count and how many rows have a point. */
  datatype GeocodeReport = GeocodeReport(frame: DataFrame, totalRows: nat, rowsWithGeometry: nat)

  /**
   * The caller's key column holds integers only, so pandas gives it an integer dtype, where
   * the keys read back from the table are text.
   */
  predicate IntegerKeys(df: DataFrame)
  {
    |df.rows| > 0 && forall i :: 0 <= i < |df.rows| ==> Cell(df.rows[i], KeyColumn).Some? && Cell(df.rows[i], KeyColumn).value.Int?
  }

  /**
   * The tail of `geocode_addresses` after the pipeline: the staging table read back and
   * left-merged onto the caller's rows, with the row count and the count of rows that got
   * a point. pandas refuses to merge an integer key column onto the text keys read back
   * (unless one side has no rows). It then refuses suffixes that give two of the caller's
   * columns one name. A caller's own `geometry` column leaves the merged frame without one,
   * and the GeoDataFrame cannot be built.
   */
  function MergeReport(df1: DataFrame, t: Table, project: Value -> (Value, Value)): (r: Result<GeocodeReport, DbError>)
    ensures IntegerKeys(df1) && |t.rows| > 0 ==> r == Failure(MergeKeyDtypeMismatch)
    ensures !(IntegerKeys(df1) && |t.rows| > 0) ==> (SuffixesCollide(df1.columns) <==> r == Failure(DuplicateSuffixedColumns))
    ensures !(IntegerKeys(df1) && |t.rows| > 0) && !SuffixesCollide(df1.columns) ==>
      ("geometry" in df1.columns <==> r == Failure(NoGeometryColumn))
    ensures r.Success? ==>
      var right := ReadGeocoded(t, project);
      && (forall c :: c in df1.columns ==> UniqueLeftName(df1.columns, c))
      && r.value.frame == LeftMerge(df1, right)
      && |r.value.frame.rows| == r.value.totalRows == |df1.rows|
      && r.value.rowsWithGeometry == MatchedWithGeometry(df1.rows, right) <= r.value.totalRows
  {
    if IntegerKeys(df1) && |t.rows| > 0 then Failure(MergeKeyDtypeMismatch)
    else if SuffixesCollide(df1.columns) then Failure(DuplicateSuffixedColumns)
    else if "geometry" in df1.columns then Failure(NoGeometryColumn)
    else
      var merged := LeftMerge(df1, ReadGeocoded(t, project));
      MergeGeometryCount(df1, ReadGeocoded(t, project));
      Success(GeocodeReport(merged, |merged.rows|, RowsWithGeometry(merged.rows)))
  }

  /**
   * A caller's frame with both `latitude` and `latitude_orig` is refused: the suffix would
   * rename `latitude` onto the caller's own `latitude_orig`.
   */
  lemma LatitudeOrigCollides(df1: DataFrame, t: Table, project: Value -> (Value, Value))
    requires df1.columns == [KeyColumn, "latitude", "latitude_orig"]
    requires !IntegerKeys(df1)
    ensures MergeReport(df1, t, project) == Failure(DuplicateSuffixedColumns)
  {
    assert "latitude" in GeoColumnNames && "latitude_orig" !in GeoColumnNames;
    assert LeftName("latitude_orig") == LeftName("latitude") && "latitude_orig" != "latitude";
    assert !UniqueLeftName(df1.columns, "latitude");
  }

  /**
   * The pipeline run on the `full_address` column of `df1` into the staging table, then,
   * when it passed, the merge report over the table as it was left.
   */
  ghost predicate PipelineThenMerge(schemas0: set<string>, tables0: map<TableName, Table>, log0: seq<Statement>,
                                    df1: DataFrame, project: Value -> (Value, Value), ext: Extension, p: Outcome<DbError>,
                                    r: Result<GeocodeReport, DbError>, tables: map<TableName, Table>, log: seq<Statement>)
  {
    var n := TableName(UserDataSchema, AddressTable);
    && PipelineRan(schemas0, tables0, log0, n, SeriesInput(Column(df1, KeyColumn)),
                   DefaultBatchSize, GeocodeBatch(DefaultRatingThreshold), ext, p, tables, log)
    && (p.Fail? ==> r == Failure(p.error))
    && (p.Pass? ==> n in tables && r == MergeReport(df1, tables[n], project))
  }

  /** The whole effect of `geocode_addresses` on the database and what it returns. */
  ghost predicate GeocodeAddressesRan(schemas0: set<string>, tables0: map<TableName, Table>, log0: seq<Statement>,
                                      df: DataFrame, colname: string, project: Value -> (Value, Value), ext: Extension,
                                      r: Result<GeocodeReport, DbError>, tables: map<TableName, Table>, log: seq<Statement>)
  {
    var df1 := WithFullAddress(df, colname);
    && (df1.Failure? ==> r == Failure(df1.error) && tables == tables0 && log == log0)
    && (df1.Success? ==> exists p :: PipelineThenMerge(schemas0, tables0, log0, df1.value, project, ext, p, r, tables, log))
  }

  /**
   * `geocode_addresses`: makes sure the frame has `full_address`, runs the pipeline on that
   * column into `user_data.address_table` with batch size 100 and threshold 22, and merges
   * the geocoded table back onto the caller's rows.
   */
  method GeocodeAddresses(engine: Engine, df: DataFrame, colname: string, project: Value -> (Value, Value))
    returns (r: Result<GeocodeReport, DbError>)
    requires engine.Valid()
    modifies engine
    ensures engine.Valid()
    ensures WithFullAddress(df, colname).Failure? ==> engine.schemas == old(engine.schemas)
    ensures GeocodeAddressesRan(old(engine.schemas), old(engine.tables), old(engine.log), df, colname, project, engine.ext, r, engine.tables, engine.log)
  {
    var df1 := WithFullAddress(df, colname);
    if df1.Failure? {
      return Failure(df1.error);
    }
    var n := TableName(UserDataSchema, AddressTable);
    var input := SeriesInput(Column(df1.value, KeyColumn));
    var p := IngestNormalizeAndGeocodeForwarding(engine, n, input, DefaultBatchSize, DefaultRatingThreshold);
    ghost var schemas0, tables0, log0 := old(engine.schemas), old(engine.tables), old(engine.log);
    if p.Fail? {
      r := Failure(p.error);
    } else {
      assert n in engine.tables;
      r := MergeReport(df1.value, engine.tables[n], project);
    }
    assert PipelineThenMerge(schemas0, tables0, log0, df1.value, project, engine.ext, p, r, engine.tables, engine.log);
  }

  /** Every row of the caller's frame comes back, and no more rows have a point than there are rows. */
  lemma GeocodeAddressesReport(df: DataFrame, colname: string, project: Value -> (Value, Value), ext: Extension,
                               schemas0: set<string>, tables0: map<TableName, Table>, log0: seq<Statement>,
                               r: Result<GeocodeReport, DbError>, tables: map<TableName, Table>, log: seq<Statement>)
    requires GeocodeAddressesRan(schemas0, tables0, log0, df, colname, project, ext, r, tables, log)
    requires r.Success?
    ensures |r.value.frame.rows| == r.value.totalRows == |df.rows|
    ensures r.value.rowsWithGeometry <= r.value.totalRows
  {
    var df1 := WithFullAddress(df, colname).value;
    var p :| PipelineThenMerge(schemas0, tables0, log0, df1, project, ext, p, r, tables, log);
  }

  /**
   * An address column that holds only integers never comes back geocoded: the ingestion
   * stores the integers as text, so unless it fails, the pipeline leaves a staging table
   * with rows, and the merge of the integer keys onto the text keys raises.
   */
  lemma IntegerKeysNeverMerge(df: DataFrame, colname: string, project: Value -> (Value, Value), ext: Extension,
                              schemas0: set<string>, tables0: map<TableName, Table>, log0: seq<Statement>,
                              r: Result<GeocodeReport, DbError>, tables: map<TableName, Table>, log: seq<Statement>)
    requires GeocodeAddressesRan(schemas0, tables0, log0, df, colname, project, ext, r, tables, log)
    requires WithFullAddress(df, colname).Success? && IntegerKeys(WithFullAddress(df, colname).value)
    ensures r.Failure?
    ensures var n := TableName(UserDataSchema, AddressTable);
      var df1 := WithFullAddress(df, colname).value;
      IngestKeys(SetupTables(tables0, n), n, SeriesInput(Column(df1, KeyColumn))).Success? ==>
        r == Failure(MergeKeyDtypeMismatch)
  {
    var n := TableName(UserDataSchema, AddressTable);
    var df1 := WithFullAddress(df, colname).value;
    var p :| PipelineThenMerge(schemas0, tables0, log0, df1, project, ext, p, r, tables, log);
    var tables1 := SetupTables(tables0, n);
    var keys := IngestKeys(tables1, n, SeriesInput(Column(df1, KeyColumn)));
    if keys.Success? {
      var t1 := InsertOrIgnore(tables1[n], keys.value);
      assert keys.value[0] in KeySet(keys.value);
      assert {keys.value[0]} <= tables[n].rows.Keys;
      SubsetSize({keys.value[0]}, tables[n].rows.Keys);
    }
  }
}
