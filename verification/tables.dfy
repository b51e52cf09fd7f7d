/**
 * The staging tables as data: a table is its ordered column list and a map from the
 * primary key `full_address` to the row's other columns, each a nullable value.
 */
module TableModel {
  import opened Wrappers

  /** A non-null SQL value. A geometry is kept as its hex well-known-binary text. */
  datatype Value = Int(i: int) | Text(s: string) | Bool(b: bool) | Geometry(wkb: string)

  /** A composite value such as `norm_addy` or `stdaddr`: each non-null field by name; an absent field is NULL. */
  type Composite = map<string, Value>

  /** `(rec).field`: NULL when the record itself or the field is NULL. */
  function Field(rec: Option<Composite>, field: string): (v: Option<Value>)
    ensures v.Some? <==> rec.Some? && field in rec.value
    ensures v.Some? ==> v.value == rec.value[field]
  {
    if rec.Some? && field in rec.value then Some(rec.value[field]) else None
  }

  /** A row without its key: data column name to nullable value. */
  type Row = map<string, Option<Value>>

  /** `c IS NULL` on a row (a column the row does not carry reads as NULL). */
  predicate IsNull(r: Row, c: string)
  {
    c !in r || r[c].None?
  }

  /** One entry of `information_schema.columns`: the column's name and its `udt_name`. */
  datatype ColumnDef = ColumnDef(name: string, udtName: string)

  const KeyColumn: string := "full_address"
  /** `full_address varchar(100) PRIMARY KEY` */
  const KeyMaxLength: nat := 100
  const KeyColumnDef: ColumnDef := ColumnDef(KeyColumn, "varchar")

  /** The address-normalization columns, in the order the ALTER TABLE adds them. */
  const NormColumnDefs: seq<ColumnDef> := [
    ColumnDef("address", "int4"), ColumnDef("predirabbrev", "varchar"),
    ColumnDef("streetname", "varchar"), ColumnDef("streettypeabbrev", "varchar"),
    ColumnDef("postdirabbrev", "varchar"), ColumnDef("internal", "varchar"),
    ColumnDef("location", "varchar"), ColumnDef("stateabbrev", "varchar"),
    ColumnDef("zip", "varchar"), ColumnDef("parsed", "bool"),
    ColumnDef("zip4", "varchar"), ColumnDef("address_alphanumeric", "varchar")]

  /** The geocode output columns; `geomout` is `geometry(POINT,4269)`. */
  const GeocodeColumnDefs: seq<ColumnDef> := [
    ColumnDef("rating", "int4"), ColumnDef("norm_address", "varchar"), ColumnDef("geomout", "geometry")]

  /** The address-standardization columns of the standardized pipeline's table. */
  const StdColumnDefs: seq<ColumnDef> := [
    ColumnDef("building", "text"), ColumnDef("house_num", "text"), ColumnDef("predir", "text"),
    ColumnDef("qual", "text"), ColumnDef("pretype", "text"), ColumnDef("name", "text"),
    ColumnDef("suftype", "text"), ColumnDef("sufdir", "text"), ColumnDef("ruralroute", "text"),
    ColumnDef("extra", "text"), ColumnDef("city", "text"), ColumnDef("state", "text"),
    ColumnDef("country", "text"), ColumnDef("postcode", "text"), ColumnDef("box", "text"),
    ColumnDef("unit", "text")]

  function NameSet(cols: seq<ColumnDef>): set<string>
  {
    set i | 0 <= i < |cols| :: cols[i].name
  }

  function UdtNames(cols: seq<ColumnDef>): (r: seq<string>)
    ensures |r| == |cols| && forall i :: 0 <= i < |cols| ==> r[i] == cols[i].udtName
  {
    seq(|cols|, i requires 0 <= i < |cols| => cols[i].udtName)
  }

  /** Every column of the table except the key. */
  function DataColumns(cols: seq<ColumnDef>): set<string>
  {
    NameSet(cols) - {KeyColumn}
  }

  predicate DistinctNames(cols: seq<ColumnDef>)
  {
    forall i, j :: 0 <= i < j < |cols| ==> cols[i].name != cols[j].name
  }

  datatype Table = Table(columns: seq<ColumnDef>, rows: map<string, Row>)

  /**
   * The key column comes first, column names are distinct, every key fits varchar(100)
   * and every row carries exactly the table's data columns.
   */
  predicate WellFormed(t: Table)
  {
    && |t.columns| > 0 && t.columns[0] == KeyColumnDef
    && DistinctNames(t.columns)
    && forall k :: k in t.rows ==> |k| <= KeyMaxLength && t.rows[k].Keys == DataColumns(t.columns)
  }

  /** `CREATE TABLE ... (full_address varchar(100) PRIMARY KEY)` */
  function NewTable(): (t: Table)
    ensures WellFormed(t) && t.rows == map[] && NameSet(t.columns) == {KeyColumn}
  {
    Table([KeyColumnDef], map[])
  }

  lemma NameSetAppend(cols: seq<ColumnDef>, c: ColumnDef)
    ensures NameSet(cols + [c]) == NameSet(cols) + {c.name}
  {
    var s := cols + [c];
    assert s[|cols|] == c;
    forall n | n in NameSet(cols) ensures n in NameSet(s) {
      var i :| 0 <= i < |cols| && cols[i].name == n;
      assert s[i] == cols[i];
    }
  }

  lemma NameSetCons(cols: seq<ColumnDef>)
    requires |cols| > 0
    ensures NameSet(cols) == {cols[0].name} + NameSet(cols[1..])
  {
    forall n | n in NameSet(cols[1..]) ensures n in NameSet(cols) {
      var i :| 0 <= i < |cols| - 1 && cols[1..][i].name == n;
      assert cols[i + 1].name == n;
    }
    forall n | n in NameSet(cols) ensures n in {cols[0].name} + NameSet(cols[1..]) {
      var i :| 0 <= i < |cols| && cols[i].name == n;
      if i > 0 { assert cols[1..][i - 1].name == n; }
    }
  }

  /**
   * `ALTER TABLE ... ADD COLUMN IF NOT EXISTS a, ADD COLUMN IF NOT EXISTS b, ...` on the
   * column list: each column in turn is appended unless one of that name exists already.
   */
  function AddMissingColumns(cols: seq<ColumnDef>, adds: seq<ColumnDef>): (r: seq<ColumnDef>)
    ensures |cols| <= |r| && r[..|cols|] == cols
    ensures NameSet(r) == NameSet(cols) + NameSet(adds)
    ensures DistinctNames(cols) ==> DistinctNames(r)
    ensures forall i :: |cols| <= i < |r| ==> r[i] in adds
    decreases |adds|
  {
    if adds == [] then cols
    else
      var next := if adds[0].name in NameSet(cols) then cols else cols + [adds[0]];
      NameSetAppend(cols, adds[0]);
      NameSetCons(adds);
      AddMissingColumns(next, adds[1..])
  }

  /** When every column to add already exists by name, the ALTER TABLE changes nothing. */
  lemma {:induction false} AddMissingColumnsNoop(cols: seq<ColumnDef>, adds: seq<ColumnDef>)
    requires NameSet(adds) <= NameSet(cols)
    ensures AddMissingColumns(cols, adds) == cols
    decreases |adds|
  {
    if adds != [] {
      NameSetCons(adds);
      assert adds[0].name in NameSet(adds);
      AddMissingColumnsNoop(cols, adds[1..]);
    }
  }

  /** Adding the same columns a second time changes nothing: `ADD COLUMN IF NOT EXISTS` is idempotent. */
  lemma AddMissingColumnsIdempotent(cols: seq<ColumnDef>, adds: seq<ColumnDef>)
    ensures AddMissingColumns(AddMissingColumns(cols, adds), adds) == AddMissingColumns(cols, adds)
  {
    AddMissingColumnsNoop(AddMissingColumns(cols, adds), adds);
  }

  /** A row widened to the given columns; a column it lacked is NULL (`DEFAULT NULL`). */
  function WidenRow(r: Row, cols: set<string>): (w: Row)
    ensures w.Keys == cols
    ensures forall c :: c in cols && c in r ==> w[c] == r[c]
    ensures forall c :: c in cols && c !in r ==> w[c].None?
  {
    map c | c in cols :: if c in r then r[c] else None
  }

  /** Widening a row to the columns it already has changes nothing. */
  lemma WidenRowNoop(r: Row, cols: set<string>)
    requires r.Keys == cols
    ensures WidenRow(r, cols) == r
  {
  }

  /** The effect of the ALTER TABLE on the whole table: new columns are NULL in every row. */
  function AddColumnsIfNotExists(t: Table, adds: seq<ColumnDef>): (r: Table)
    ensures r.columns == AddMissingColumns(t.columns, adds)
    ensures r.rows.Keys == t.rows.Keys
    ensures forall k :: k in t.rows ==> r.rows[k].Keys == DataColumns(r.columns)
    ensures forall k, c :: k in t.rows && c in t.rows[k] && c in DataColumns(r.columns) ==> r.rows[k][c] == t.rows[k][c]
    ensures forall k, c :: k in t.rows && c !in t.rows[k] && c in DataColumns(r.columns) ==> r.rows[k][c].None?
  {
    var cols := AddMissingColumns(t.columns, adds);
    Table(cols, map k | k in t.rows :: WidenRow(t.rows[k], DataColumns(cols)))
  }

  /** The ALTER TABLE keeps the table well formed. */
  lemma AddColumnsPreservesWellFormed(t: Table, adds: seq<ColumnDef>)
    requires WellFormed(t)
    ensures WellFormed(AddColumnsIfNotExists(t, adds))
  {
    var r := AddColumnsIfNotExists(t, adds);
    assert r.columns[..|t.columns|] == t.columns;
    assert r.columns[0] == t.columns[0];
  }

  /** The ALTER TABLE keeps every value a well-formed table held. */
  lemma AddColumnsKeepsValues(t: Table, adds: seq<ColumnDef>)
    requires WellFormed(t)
    ensures var r := AddColumnsIfNotExists(t, adds);
      forall k, c :: k in t.rows && c in t.rows[k] ==> c in r.rows[k] && r.rows[k][c] == t.rows[k][c]
  {
    var r := AddColumnsIfNotExists(t, adds);
    forall k, c | k in t.rows && c in t.rows[k]
      ensures c in r.rows[k] && r.rows[k][c] == t.rows[k][c]
    {
      assert c in DataColumns(r.columns);
    }
  }

  /** On a well-formed table that already has every column by name, the ALTER TABLE changes nothing. */
  lemma AddColumnsNoop(t: Table, adds: seq<ColumnDef>)
    requires WellFormed(t) && NameSet(adds) <= NameSet(t.columns)
    ensures AddColumnsIfNotExists(t, adds) == t
  {
    AddMissingColumnsNoop(t.columns, adds);
    var r := AddColumnsIfNotExists(t, adds);
    forall k | k in t.rows
      ensures r.rows[k] == t.rows[k]
    {
      WidenRowNoop(t.rows[k], DataColumns(t.columns));
    }
  }

  /** A row whose every data column is NULL. */
  function NullRow(cols: set<string>): (r: Row)
    ensures r.Keys == cols && forall c :: c in cols ==> r[c].None?
  {
    map c | c in cols :: None
  }

  function KeySet(keys: seq<string>): set<string>
  {
    set i | 0 <= i < |keys| :: keys[i]
  }

  /**
   * `INSERT ... ON CONFLICT DO NOTHING`: every key not yet in the table becomes a row of
   * NULLs; an existing key keeps its row.
   */
  function InsertOrIgnore(t: Table, keys: seq<string>): (r: Table)
    ensures r.columns == t.columns
    ensures r.rows.Keys == t.rows.Keys + KeySet(keys)
    ensures forall k :: k in t.rows ==> r.rows[k] == t.rows[k]
    ensures forall k :: k in r.rows && k !in t.rows ==> r.rows[k] == NullRow(DataColumns(t.columns))
    ensures WellFormed(t) && (forall i :: 0 <= i < |keys| ==> |keys[i]| <= KeyMaxLength) ==> WellFormed(r)
  {
    var added := map k | k in KeySet(keys) && k !in t.rows :: NullRow(DataColumns(t.columns));
    Table(t.columns, t.rows + added)
  }

  /** Ingesting the same keys again changes nothing. */
  lemma InsertOrIgnoreIdempotent(t: Table, keys: seq<string>)
    ensures InsertOrIgnore(InsertOrIgnore(t, keys), keys) == InsertOrIgnore(t, keys)
  {
    var once := InsertOrIgnore(t, keys);
    var twice := InsertOrIgnore(once, keys);
    assert twice.rows.Keys == once.rows.Keys;
    assert twice.rows == once.rows;
  }

  /**
   * Assigning a string to a varchar(100) column: a longer string is refused unless every
   * character past the hundredth is a space, in which case it is cut to 100 characters.
   */
  function CoerceKey(s: string): (r: Option<string>)
    ensures r.Some? <==> |s| <= KeyMaxLength || forall i :: KeyMaxLength <= i < |s| ==> s[i] == ' '
    ensures r.Some? ==> |r.value| <= KeyMaxLength && |r.value| <= |s| && r.value == s[..|r.value|]
    ensures r.Some? ==> forall i :: |r.value| <= i < |s| ==> s[i] == ' '
  {
    if |s| <= KeyMaxLength then Some(s)
    else if forall i :: KeyMaxLength <= i < |s| ==> s[i] == ' ' then Some(s[..KeyMaxLength])
    else None
  }

  /** The keys of the rows whose column c is NULL. */
  function NullKeys(rows: map<string, Row>, c: string): (s: set<string>)
    ensures s <= rows.Keys
    ensures forall k :: k in rows ==> (k in s <==> IsNull(rows[k], c))
  {
    set k | k in rows && IsNull(rows[k], c)
  }

  /** `SELECT COUNT(*) ... WHERE c IS NULL`; the key column is never NULL. */
  function NullCount(t: Table, c: string): nat
  {
    if c == KeyColumn then 0 else |NullKeys(t.rows, c)|
  }

  /**
   * The count never exceeds the number of rows; for a data column it equals it exactly
   * when every row's column is NULL, and it is 0 exactly when none is.
   */
  lemma NullCountAtMostRows(t: Table, c: string)
    ensures NullCount(t, c) <= |t.rows|
    ensures c != KeyColumn ==> (NullCount(t, c) == |t.rows| <==> forall k :: k in t.rows ==> IsNull(t.rows[k], c))
    ensures c != KeyColumn ==> (NullCount(t, c) == 0 <==> forall k :: k in t.rows ==> !IsNull(t.rows[k], c))
  {
    var s := NullKeys(t.rows, c);
    SubsetSize(s, t.rows.Keys);
    if c != KeyColumn {
      if exists k :: k in t.rows && !IsNull(t.rows[k], c) {
        var k :| k in t.rows && !IsNull(t.rows[k], c);
        SubsetSize(s, t.rows.Keys - {k});
      } else {
        assert s == t.rows.Keys;
      }
      if exists k :: k in t.rows && IsNull(t.rows[k], c) {
        var k :| k in t.rows && IsNull(t.rows[k], c);
        assert k in s;
      } else {
        assert s == {};
      }
    }
  }

  /** A subset is no larger than its superset. */
  lemma SubsetSize<T>(a: set<T>, b: set<T>)
    requires a <= b
    ensures |a| <= |b|
  {
    assert b == a + (b - a);
  }
}
