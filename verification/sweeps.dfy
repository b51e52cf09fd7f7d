/**
 * One batch sweep: `UPDATE t SET (...) = (...) FROM (SELECT ... WHERE <sentinel> IS NULL
 * LIMIT b) AS a LEFT JOIN LATERAL f(...) ON <cond> WHERE a.full_address = t.full_address`.
 * The rows the LIMIT picks and, for the geocoder, the candidate the UPDATE uses are the
 * database's choices; they are parameters here and every lemma holds for all of them.
 */
module Sweeps {
  import opened Wrappers
  import opened PyArith
  import opened Strings
  import opened TableModel

  /** One row of `geocode(addy)`: its rating (lower is better), its normalized address and its point. */
  datatype Candidate = Candidate(rating: int, addy: Composite, geomout: Option<Value>)

  /**
   * The TIGER geocoder functions installed in the database, left uninterpreted:
   * `normalize_address`, `standardize_address(lex, gaz, rules, address)`, `geocode` and
   * `pprint_addy` (taken to return NULL for a NULL argument, so it is only applied to a record).
   */
  datatype Extension = Extension(
    normalize: string -> Option<Composite>,
    standardize: (string, string, string, string) -> Option<Composite>,
    geocode: Composite -> seq<Candidate>,
    pprint: Composite -> Option<string>)

  const PagcLex: string := "tiger.pagc_lex"
  const PagcGaz: string := "tiger.pagc_gaz"
  const PagcRules: string := "tiger.pagc_rules"

  /** The default `rating_threshold` of both geocode batch functions. */
  const DefaultRatingThreshold: int := 22
  /** What `COALESCE((g).rating, -1)` stores when no candidate was accepted. */
  const NoMatchRating: int := -1

  const RatingColumn: string := "rating"

  /** The columns of the standardized table that feed `norm_addy`, by the norm_addy field they fill. */
  const StdAddyFields: map<string, string> := map[
    "address" := "house_num", "predirabbrev" := "predir", "streetname" := "name",
    "streettypeabbrev" := "suftype", "postdirabbrev" := "sufdir", "internal" := "unit",
    "location" := "city", "stateabbrev" := "state", "zip" := "postcode"]

  /**
   * The four batch statements. The geocode ones carry the `rating_threshold` they run with;
   * called without one, as the driver calls them, that is DefaultRatingThreshold.
   */
  datatype BatchFunc = NormalizeBatch | StandardizeBatch | GeocodeBatch(threshold: int) | GeocodeStandardizedBatch(threshold: int)
  {
    /** The column whose NULL marks a row this statement has yet to process. */
    function Sentinel(): string
    {
      match this
      case NormalizeBatch => "streetname"
      case StandardizeBatch => "name"
      case _ => RatingColumn
    }

    predicate IsGeocode()
    {
      GeocodeBatch? || GeocodeStandardizedBatch?
    }

    /** The columns the statement's SET clause writes. */
    function SetColumns(): set<string>
    {
      match this
      case NormalizeBatch => NameSet(NormColumnDefs)
      case StandardizeBatch => NameSet(StdColumnDefs)
      case _ => NameSet(GeocodeColumnDefs)
    }

    /** Every data column the statement names; the statement fails when one is missing. */
    function NamedColumns(): set<string>
    {
      match this
      case NormalizeBatch => NameSet(NormColumnDefs)
      case StandardizeBatch => NameSet(StdColumnDefs)
      case GeocodeBatch(_) => NameSet(NormColumnDefs) + NameSet(GeocodeColumnDefs)
      case GeocodeStandardizedBatch(_) => StdAddyFields.Values + NameSet(GeocodeColumnDefs)
    }
  }

  /** The sentinel is among the columns the statement writes, and those among the ones it names. */
  lemma SentinelIsWritten(f: BatchFunc)
    ensures f.Sentinel() in f.SetColumns() && f.SetColumns() <= f.NamedColumns()
    ensures KeyColumn !in f.NamedColumns()
  {
    assert NormColumnDefs[2].name == "streetname";
    assert StdColumnDefs[5].name == "name";
    assert GeocodeColumnDefs[0].name == RatingColumn;
    assert KeyColumn !in NameSet(NormColumnDefs);
    assert KeyColumn !in NameSet(StdColumnDefs);
    assert KeyColumn !in NameSet(GeocodeColumnDefs);
    if f.GeocodeStandardizedBatch? {
      assert StdAddyFields.Values == {"house_num", "predir", "name", "suftype", "sufdir", "unit", "city", "state", "postcode"} by {
        assert StdAddyFields["address"] == "house_num";
        assert StdAddyFields["predirabbrev"] == "predir";
        assert StdAddyFields["streetname"] == "name";
        assert StdAddyFields["streettypeabbrev"] == "suftype";
        assert StdAddyFields["postdirabbrev"] == "sufdir";
        assert StdAddyFields["internal"] == "unit";
        assert StdAddyFields["location"] == "city";
        assert StdAddyFields["stateabbrev"] == "state";
        assert StdAddyFields["zip"] == "postcode";
      }
    }
  }

  /** `(address, predirabbrev, ..., address_alphanumeric)::norm_addy` built from a row of the address table. */
  function NormAddyOfRow(row: Row): (a: Composite)
    ensures forall c :: c in a <==> c in NameSet(NormColumnDefs) && !IsNull(row, c)
    ensures forall c :: c in a ==> c in row && row[c] == Some(a[c])
  {
    map c | c in NameSet(NormColumnDefs) && !IsNull(row, c) :: row[c].value
  }

  /** The `norm_addy` built from a normalized row is what `normalize_address` returned, restricted to the twelve fields. */
  lemma NormAddyOfNormalized(ext: Extension, k: string, row: Row, j: Option<Candidate>)
    ensures var rec := ext.normalize(k);
      NormAddyOfRow(row + Assignment(NormalizeBatch, ext, k, row, j))
        == if rec.Some? then map c | c in NameSet(NormColumnDefs) && c in rec.value :: rec.value[c] else map[]
  {
    var after := row + Assignment(NormalizeBatch, ext, k, row, j);
    forall c | c in NameSet(NormColumnDefs)
      ensures after[c] == Field(ext.normalize(k), c)
    {
    }
  }

  const Int4Min: int := -0x8000_0000
  const Int4Max: int := 0x7fff_ffff

  /**
   * `v::integer` for the value of a `text` column: the text must be a decimal integer in
   * the 32-bit range, otherwise the statement fails ("invalid input syntax" or "out of
   * range"). A value that is not text is read through its text form.
   */
  function CastToInteger(v: Value): (r: Option<int>)
    ensures r.Some? ==> Int4Min <= r.value <= Int4Max
    ensures v.Text? ==> (r.Some? <==> ParseInt(v.s).Some? && Int4Min <= ParseInt(v.s).value <= Int4Max)
    ensures v.Text? && r.Some? ==> r == ParseInt(v.s)
    ensures v.Bool? || v.Geometry? ==> r.None?
  {
    var i := match v
      case Text(s) => ParseInt(s)
      case Int(i) => Some(i)
      case _ => None;
    if i.Some? && Int4Min <= i.value <= Int4Max then i else None
  }

  /** The row cast of the standardized geocode statement succeeds on a row: its `house_num` is NULL or an integer. */
  predicate HouseNumCasts(row: Row)
  {
    IsNull(row, "house_num") || CastToInteger(row["house_num"].value).Some?
  }

  /**
   * `(house_num, predir, name, suftype, sufdir, unit, city, state, postcode, true, NULL, NULL)::norm_addy`
   * built from a row of the standardized table whose cast succeeds: `address` is the
   * house number as an integer, `parsed` is true, the other fields are the mapped
   * standardized columns, and `zip4` and `address_alphanumeric` stay NULL.
   */
  function NormAddyOfStdRow(row: Row): (a: Composite)
    ensures "parsed" in a && a["parsed"] == Bool(true)
    ensures a.Keys <= StdAddyFields.Keys + {"parsed"}
    ensures HouseNumCasts(row) ==>
      ("address" in a <==> !IsNull(row, "house_num"))
      && ("address" in a ==> a["address"] == Int(CastToInteger(row["house_num"].value).value))
    ensures forall f :: f in StdAddyFields && f != "address" ==>
      (f in a <==> !IsNull(row, StdAddyFields[f])) && (f in a ==> Some(a[f]) == row[StdAddyFields[f]])
  {
    StdFieldsLackParsed();
    StdMappedFields(row) + HouseNumber(row) + map["parsed" := Bool(true)]
  }

  lemma StdFieldsLackParsed()
    ensures "parsed" !in StdAddyFields && StdAddyFields["address"] == "house_num"
  {
    assert StdAddyFields.Keys == {"address", "predirabbrev", "streetname", "streettypeabbrev", "postdirabbrev",
                                  "internal", "location", "stateabbrev", "zip"};
  }

  /** The `address` field of the standardized `norm_addy`: the house number cast to an integer, absent when NULL. */
  function HouseNumber(row: Row): (a: Composite)
    ensures a.Keys <= {"address"}
    ensures "address" in a <==> !IsNull(row, "house_num") && CastToInteger(row["house_num"].value).Some?
    ensures "address" in a ==> a["address"] == Int(CastToInteger(row["house_num"].value).value)
  {
    if !IsNull(row, "house_num") && CastToInteger(row["house_num"].value).Some?
    then map["address" := Int(CastToInteger(row["house_num"].value).value)] else map[]
  }

  /** The text fields of the standardized `norm_addy`, each from its standardized column. */
  function StdMappedFields(row: Row): (a: Composite)
    ensures a.Keys <= StdAddyFields.Keys - {"address"}
    ensures forall f :: f in StdAddyFields && f != "address" ==>
      (f in a <==> !IsNull(row, StdAddyFields[f])) && (f in a ==> Some(a[f]) == row[StdAddyFields[f]])
  {
    map f | f in StdAddyFields && f != "address" && !IsNull(row, StdAddyFields[f]) :: row[StdAddyFields[f]].value
  }

  /** The `addy` the geocode statement passes to `geocode` for a row. */
  function AddyOf(f: BatchFunc, row: Row): Composite
  {
    if f.GeocodeStandardizedBatch? then NormAddyOfStdRow(row) else NormAddyOfRow(row)
  }

  /**
   * Which joined row the UPDATE may use for one address: with the join condition
   * `(g).rating < threshold`, it is one of the accepted candidates, or the NULL-extended
   * row when there is none.
   */
  predicate ValidJoin(cands: seq<Candidate>, threshold: int, j: Option<Candidate>)
  {
    match j
    case None => forall i :: 0 <= i < |cands| ==> cands[i].rating >= threshold
    case Some(c) => c in cands && c.rating < threshold
  }

  /**
   * The join row the statement may use for a selected row: any (it is not read) for the
   * statements that do not geocode, an admissible one for the geocoder.
   */
  predicate Admissible(f: BatchFunc, ext: Extension, row: Row, j: Option<Candidate>)
  {
    f.IsGeocode() ==> ValidJoin(ext.geocode(AddyOf(f, row)), f.threshold, j)
  }

  /** The row with key k that held r0 now holds r0 with the statement's SET values, for the join j, written over it. */
  predicate WrittenBy(f: BatchFunc, ext: Extension, k: string, r0: Row, r: Row, j: Option<Candidate>)
  {
    Admissible(f, ext, r0, j) && r == r0 + Assignment(f, ext, k, r0, j)
  }

  /** What sweeps of f can leave in the row with key k that held r0: r0 itself, or r0 written over once by the statement. */
  ghost predicate RowSwept(f: BatchFunc, ext: Extension, k: string, r0: Row, r: Row)
  {
    r == r0 || exists j :: WrittenBy(f, ext, k, r0, r, j)
  }

  /** The first accepted candidate: one admissible join, so a choice always exists. */
  function FirstAccepted(cands: seq<Candidate>, threshold: int): (j: Option<Candidate>)
    ensures ValidJoin(cands, threshold, j)
  {
    if |cands| == 0 then None
    else if cands[0].rating < threshold then Some(cands[0])
    else FirstAccepted(cands[1..], threshold)
  }

  function TextOf(s: Option<string>): Option<Value>
  {
    if s.Some? then Some(Text(s.value)) else None
  }

  /** `(rating, norm_address, geomout) = (COALESCE((g).rating, -1), pprint_addy((g).addy), (g).geomout)` */
  function GeocodeAssignment(j: Option<Candidate>, pprint: Composite -> Option<string>): (r: Row)
    ensures r.Keys == NameSet(GeocodeColumnDefs)
  {
    assert GeocodeColumnDefs[0].name == "rating" && GeocodeColumnDefs[1].name == "norm_address";
    assert GeocodeColumnDefs[2].name == "geomout";
    assert NameSet(GeocodeColumnDefs) == {"rating", "norm_address", "geomout"};
    match j
    case None => map["rating" := Some(Int(NoMatchRating)), "norm_address" := None, "geomout" := None]
    case Some(c) => map["rating" := Some(Int(c.rating)), "norm_address" := TextOf(pprint(c.addy)), "geomout" := c.geomout]
  }

  /** `SET (c1, ..., cn) = ((r).c1, ..., (r).cn)` for a record that may be NULL. */
  function FieldsOf(cols: set<string>, rec: Option<Composite>): (r: Row)
    ensures r.Keys == cols
    ensures forall c :: c in cols ==> r[c] == Field(rec, c)
  {
    map c | c in cols :: Field(rec, c)
  }

  /** The values the statement writes into one selected row. */
  function Assignment(f: BatchFunc, ext: Extension, key: string, row: Row, j: Option<Candidate>): (r: Row)
    ensures r.Keys == f.SetColumns()
  {
    match f
    case NormalizeBatch => FieldsOf(NameSet(NormColumnDefs), ext.normalize(key))
    case StandardizeBatch => FieldsOf(NameSet(StdColumnDefs), ext.standardize(PagcLex, PagcGaz, PagcRules, key))
    case _ => GeocodeAssignment(j, ext.pprint)
  }

  function JoinAt(joins: map<string, Option<Candidate>>, k: string): Option<Candidate>
  {
    if k in joins then joins[k] else None
  }

  /** The row agrees with the earlier one on every column outside cols: same columns, same values. */
  predicate UnchangedOutside(before: Row, after: Row, cols: set<string>)
  {
    after - cols == before - cols
  }

  /** Overwriting only columns in cols leaves the row unchanged outside cols. */
  lemma OverwriteOutside(before: Row, a: Row, cols: set<string>)
    requires a.Keys <= cols
    ensures UnchangedOutside(before, before + a, cols)
  {
    assert (before + a) - cols == before - cols;
  }

  /** The rows after the UPDATE: each selected row has the SET columns overwritten; every other row is untouched. */
  function SweepRows(f: BatchFunc, ext: Extension, rows: map<string, Row>, chosen: set<string>,
                     joins: map<string, Option<Candidate>>): (after: map<string, Row>)
    ensures after.Keys == rows.Keys
  {
    map k | k in rows :: if k in chosen then rows[k] + Assignment(f, ext, k, rows[k], JoinAt(joins, k)) else rows[k]
  }

  /** `WHERE sentinel IS NULL LIMIT b` may pick any min(b, count) of the NULL-sentinel rows. */
  predicate ValidSelection(rows: map<string, Row>, sentinel: string, b: int, chosen: set<string>)
  {
    chosen <= NullKeys(rows, sentinel) && |chosen| == Min(b, |NullKeys(rows, sentinel)|)
  }

  /** For every selected row, the join row used is an admissible one for that row's candidates. */
  predicate ValidJoins(f: BatchFunc, ext: Extension, rows: map<string, Row>, chosen: set<string>,
                       joins: map<string, Option<Candidate>>)
    requires f.IsGeocode()
  {
    forall k :: k in chosen && k in rows ==> k in joins && ValidJoin(ext.geocode(AddyOf(f, rows[k])), f.threshold, joins[k])
  }

  /** The database's choices for one run of the statement with LIMIT b. */
  predicate ValidSweep(f: BatchFunc, ext: Extension, rows: map<string, Row>, b: int, chosen: set<string>,
                       joins: map<string, Option<Candidate>>)
  {
    && b >= 0
    && ValidSelection(rows, f.Sentinel(), b, chosen)
    && (f.IsGeocode() ==> ValidJoins(f, ext, rows, chosen, joins))
  }

  /** A set has a subset of every size up to its own. */
  lemma {:induction false} SubsetOfSize<T>(s: set<T>, n: nat)
    requires n <= |s|
    ensures exists t :: t <= s && |t| == n
  {
    if n > 0 {
      var x :| x in s;
      SubsetOfSize(s - {x}, n - 1);
      var t :| t <= s - {x} && |t| == n - 1;
      assert t + {x} <= s && |t + {x}| == n;
    } else {
      var e: set<T> := {};
      assert e <= s && |e| == 0;
    }
  }

  /** The first-accepted choice is admissible for every selected row. */
  function SomeJoins(f: BatchFunc, ext: Extension, rows: map<string, Row>, chosen: set<string>): (joins: map<string, Option<Candidate>>)
    requires f.IsGeocode()
    ensures ValidJoins(f, ext, rows, chosen, joins)
  {
    map k | k in chosen && k in rows :: FirstAccepted(ext.geocode(AddyOf(f, rows[k])), f.threshold)
  }

  /** A row whose sentinel is already set is never touched again by the same statement. */
  lemma SweepMonotone(f: BatchFunc, ext: Extension, rows: map<string, Row>, b: int, chosen: set<string>,
                      joins: map<string, Option<Candidate>>, k: string)
    requires ValidSweep(f, ext, rows, b, chosen, joins)
    requires k in rows && !IsNull(rows[k], f.Sentinel())
    ensures SweepRows(f, ext, rows, chosen, joins)[k] == rows[k]
  {
  }

  /** After the sweep, a row's sentinel is NULL exactly when it was and the sweep did not write a non-NULL one. */
  lemma SweepNullAt(f: BatchFunc, ext: Extension, rows: map<string, Row>, chosen: set<string>,
                    joins: map<string, Option<Candidate>>, k: string)
    requires k in rows
    ensures IsNull(SweepRows(f, ext, rows, chosen, joins)[k], f.Sentinel()) <==>
      if k in chosen then IsNull(Assignment(f, ext, k, rows[k], JoinAt(joins, k)), f.Sentinel())
      else IsNull(rows[k], f.Sentinel())
  {
    SentinelIsWritten(f);
  }

  /**
   * The geocode SET rule, the same in both pipelines: the rating is never NULL; with no
   * accepted candidate it is -1 and the address and point are NULL; otherwise every column
   * comes from the candidate the UPDATE used.
   */
  lemma GeocodeAssignmentRule(cands: seq<Candidate>, threshold: int, j: Option<Candidate>, pprint: Composite -> Option<string>)
    requires ValidJoin(cands, threshold, j)
    ensures var r := GeocodeAssignment(j, pprint);
      && !IsNull(r, RatingColumn)
      && (j.None? ==>
            && (forall i :: 0 <= i < |cands| ==> cands[i].rating >= threshold)
            && r[RatingColumn] == Some(Int(NoMatchRating))
            && r["norm_address"].None? && r["geomout"].None?)
      && (j.Some? ==>
            && j.value in cands && j.value.rating < threshold
            && r[RatingColumn] == Some(Int(j.value.rating))
            && r["geomout"] == j.value.geomout
            && r["norm_address"] == TextOf(pprint(j.value.addy)))
  {
  }

  /** What a selected row holds after a geocode sweep: its old columns, overwritten by the geocode SET rule. */
  lemma GeocodeSweepRow(f: BatchFunc, ext: Extension, rows: map<string, Row>, b: int, chosen: set<string>,
                        joins: map<string, Option<Candidate>>, k: string)
    requires f.IsGeocode() && ValidSweep(f, ext, rows, b, chosen, joins)
    requires k in chosen
    ensures k in joins && ValidJoin(ext.geocode(AddyOf(f, rows[k])), f.threshold, joins[k])
    ensures SweepRows(f, ext, rows, chosen, joins)[k] == rows[k] + GeocodeAssignment(joins[k], ext.pprint)
  {
  }

  /** `rating` holds -1 (no accepted match) or a rating below the threshold. */
  predicate RatedUnder(r: Row, threshold: int)
  {
    RatingColumn in r && r[RatingColumn].Some? && r[RatingColumn].value.Int?
    && (r[RatingColumn].value.i == NoMatchRating || r[RatingColumn].value.i < threshold)
  }

  /**
   * Each geocode sweep removes exactly min(b, remaining) rows from the NULL-rating set:
   * every selected row gets a rating, accepted match or not.
   */
  lemma {:induction false} GeocodeSweepProgress(f: BatchFunc, ext: Extension, rows: map<string, Row>, b: int,
                                                 chosen: set<string>, joins: map<string, Option<Candidate>>)
    requires f.IsGeocode() && ValidSweep(f, ext, rows, b, chosen, joins)
    ensures var after := SweepRows(f, ext, rows, chosen, joins);
      && NullKeys(after, RatingColumn) == NullKeys(rows, RatingColumn) - chosen
      && |NullKeys(after, RatingColumn)| == |NullKeys(rows, RatingColumn)| - Min(b, |NullKeys(rows, RatingColumn)|)
      && forall k :: k in chosen ==> RatedUnder(after[k], f.threshold)
  {
    var after := SweepRows(f, ext, rows, chosen, joins);
    var before := NullKeys(rows, RatingColumn);
    forall k | k in chosen
      ensures !IsNull(after[k], RatingColumn) && RatedUnder(after[k], f.threshold)
    {
      GeocodeSweepRowRated(f, ext, rows, b, chosen, joins, k);
    }
    forall k | k in rows
      ensures k in NullKeys(after, RatingColumn) <==> k in before && k !in chosen
    {
      if k !in chosen {
        assert after[k] == rows[k];
      }
    }
    assert NullKeys(after, RatingColumn) == before - chosen;
    SetDifferenceSize(before, chosen);
  }

  /** A selected row leaves the geocode sweep with a rating that passed the threshold, or -1. */
  lemma GeocodeSweepRowRated(f: BatchFunc, ext: Extension, rows: map<string, Row>, b: int, chosen: set<string>,
                             joins: map<string, Option<Candidate>>, k: string)
    requires f.IsGeocode() && ValidSweep(f, ext, rows, b, chosen, joins)
    requires k in chosen
    ensures var after := SweepRows(f, ext, rows, chosen, joins);
      !IsNull(after[k], RatingColumn) && RatedUnder(after[k], f.threshold)
  {
    GeocodeSweepRow(f, ext, rows, b, chosen, joins, k);
    GeocodeAssignmentRule(ext.geocode(AddyOf(f, rows[k])), f.threshold, joins[k], ext.pprint);
  }

  /** Each selected row is written over by the statement, with the join the database used for it. */
  lemma SweepWritesChosen(f: BatchFunc, ext: Extension, rows: map<string, Row>, b: int, chosen: set<string>,
                          joins: map<string, Option<Candidate>>, k: string)
    requires ValidSweep(f, ext, rows, b, chosen, joins)
    requires k in chosen
    ensures WrittenBy(f, ext, k, rows[k], SweepRows(f, ext, rows, chosen, joins)[k], JoinAt(joins, k))
  {
  }

  /** A row the geocoder wrote into has its rating set, so the geocode statement never selects it again. */
  lemma GeocodeWrittenIsRated(f: BatchFunc, ext: Extension, k: string, r0: Row, r: Row, j: Option<Candidate>)
    requires f.IsGeocode() && WrittenBy(f, ext, k, r0, r, j)
    ensures !IsNull(r, f.Sentinel())
  {
    GeocodeAssignmentRule(ext.geocode(AddyOf(f, r0)), f.threshold, j, ext.pprint);
  }

  /**
   * A row that sweeps of f left as r0 or written over once stays so after one more sweep
   * selects it: the geocoder never selects a row it rated, and writing the same
   * normalize or standardize result over a row a second time writes the same values,
   * which depend only on the key.
   */
  lemma RowSweptAgain(f: BatchFunc, ext: Extension, k: string, r0: Row, r: Row, j1: Option<Candidate>)
    requires RowSwept(f, ext, k, r0, r) && IsNull(r, f.Sentinel()) && Admissible(f, ext, r, j1)
    ensures RowSwept(f, ext, k, r0, r + Assignment(f, ext, k, r, j1))
  {
    var r1 := r + Assignment(f, ext, k, r, j1);
    if r == r0 {
      assert WrittenBy(f, ext, k, r0, r1, j1);
    } else {
      var j :| WrittenBy(f, ext, k, r0, r, j);
      if f.IsGeocode() {
        GeocodeWrittenIsRated(f, ext, k, r0, r, j);
        assert false;
      }
      var a := Assignment(f, ext, k, r0, j);
      assert Assignment(f, ext, k, r, j1) == a;
      assert r1 == r0 + a;
      assert WrittenBy(f, ext, k, r0, r1, j);
    }
  }

  lemma SetDifferenceSize<T>(a: set<T>, c: set<T>)
    requires c <= a
    ensures |a - c| == |a| - |c|
  {
    assert a == (a - c) + c;
  }

  /**
   * A normalize sweep clears the sentinel only of the selected rows whose
   * `normalize_address` result has a street name; the others stay selectable.
   */
  lemma NormalizeSweepNullAt(ext: Extension, rows: map<string, Row>, chosen: set<string>,
                             joins: map<string, Option<Candidate>>, k: string)
    requires k in rows
    ensures IsNull(SweepRows(NormalizeBatch, ext, rows, chosen, joins)[k], "streetname") <==>
      if k in chosen then Field(ext.normalize(k), "streetname").None? else IsNull(rows[k], "streetname")
  {
    SweepNullAt(NormalizeBatch, ext, rows, chosen, joins, k);
    assert NormColumnDefs[2].name == "streetname";
    if k in chosen {
      var a := Assignment(NormalizeBatch, ext, k, rows[k], JoinAt(joins, k));
      assert a["streetname"] == Field(ext.normalize(k), "streetname");
    }
  }

  /** Overwriting some of a row's columns keeps its set of columns. */
  lemma OverwriteKeepsColumns(before: Row, a: Row, data: set<string>)
    requires before.Keys == data && a.Keys <= data
    ensures (before + a).Keys == data
  {
  }

  /** The sweep keeps the table well formed when the table has every column the statement names. */
  lemma SweepPreservesWellFormed(f: BatchFunc, ext: Extension, t: Table, chosen: set<string>,
                                 joins: map<string, Option<Candidate>>)
    requires WellFormed(t) && f.NamedColumns() <= DataColumns(t.columns)
    ensures WellFormed(Table(t.columns, SweepRows(f, ext, t.rows, chosen, joins)))
  {
    SentinelIsWritten(f);
    var after := SweepRows(f, ext, t.rows, chosen, joins);
    var data := DataColumns(t.columns);
    forall k | k in after ensures |k| <= KeyMaxLength && after[k].Keys == data {
      assert k in t.rows;
      if k in chosen {
        var a := Assignment(f, ext, k, t.rows[k], JoinAt(joins, k));
        OverwriteKeepsColumns(t.rows[k], a, data);
      }
    }
  }
}
