/**
 * The text and loop helpers of the standalone geocoder: the `VALUES` list handed to
 * `standardize_address`, the optional arguments of a `geocode(...)` call, the tagging of
 * its result rows with the address asked for, and the loop that geocodes a list of
 * addresses one by one. The database call itself is a parameter: `run` maps the argument
 * text of a `geocode(...)` call to the rows the query returns.
 */
module Utils {
  import opened Wrappers
  import opened PyArith
  import opened Strings
  import opened TableModel
  import opened Postgres
  import opened Geocoding

  /** One address as a row of the `VALUES` list: `('addr')`, with nothing escaped. */
  function Quoted(addr: string): (q: string)
    ensures |q| == |addr| + 4
    ensures q[..2] == "('" && q[2..|addr| + 2] == addr && q[|addr| + 2..] == "')"
  {
    "('" + addr + "')"
  }

  /** Every address wrapped, in the input's order. */
  function QuotedAll(addrs: seq<string>): (r: seq<string>)
    ensures |r| == |addrs|
    ensures forall i :: 0 <= i < |addrs| ==> r[i] == Quoted(addrs[i])
  {
    seq(|addrs|, i requires 0 <= i < |addrs| => Quoted(addrs[i]))
  }

  const ValuesSeparator: string := ", "

  /** `format_addresses_for_standardization` over the values of the address column. */
  function FormatAddresses(addrs: seq<string>): string
  {
    Join(ValuesSeparator, QuotedAll(addrs))
  }

  /** No addresses give the empty string. */
  lemma FormatNoAddresses()
    ensures FormatAddresses([]) == ""
  {
  }

  /** Wrapping adds four characters per address. */
  lemma {:induction false} QuotedLength(addrs: seq<string>)
    ensures TotalLength(QuotedAll(addrs)) == TotalLength(addrs) + 4 * |addrs|
  {
    if |addrs| > 0 {
      QuotedLength(addrs[1..]);
      assert QuotedAll(addrs)[1..] == QuotedAll(addrs[1..]);
    }
  }

  /**
   * n addresses give the n wrapped addresses and n - 1 separators: the text is as long as
   * the addresses plus four characters each plus two per separator.
   */
  lemma FormatLength(addrs: seq<string>)
    requires |addrs| > 0
    ensures |FormatAddresses(addrs)| == TotalLength(addrs) + 4 * |addrs| + 2 * (|addrs| - 1)
  {
    QuotedLength(addrs);
    JoinLength(ValuesSeparator, QuotedAll(addrs));
  }

  /**
   * The i-th address sits, wrapped as `('addr')` (and so verbatim two characters in), at
   * the offset where the earlier wrapped addresses and their separators end; a `", "`
   * follows it unless it is the last one.
   */
  lemma FormatLayout(addrs: seq<string>, i: nat)
    requires i < |addrs|
    ensures var s, p := FormatAddresses(addrs), PieceStart(ValuesSeparator, QuotedAll(addrs), i);
      var e := p + |addrs[i]| + 4;
      && e <= |s|
      && s[p..e] == Quoted(addrs[i])
      && (i + 1 < |addrs| ==> e + 2 <= |s| && s[e..e + 2] == ValuesSeparator)
      && (i + 1 == |addrs| ==> e == |s|)
  {
    JoinPieceAt(ValuesSeparator, QuotedAll(addrs), i);
  }

  /** A single quote inside an address is copied as it is, so it ends the SQL literal early. */
  lemma FormatKeepsQuotes()
    ensures FormatAddresses(["O'Hare"]) == "('O'Hare')"
  {
  }

  const MaxResultsPrefix: string := ", max_results := "
  const RestrictGeomPrefix: string := ", restrict_geom := ("

  /** The `top_n` argument of `geocode_addr`: nothing, or `, max_results := N`. */
  function TopNFragment(topN: Option<int>): (s: string)
    ensures topN.None? ==> s == ""
    ensures topN.Some? ==> |s| > |MaxResultsPrefix| && s[..|MaxResultsPrefix|] == MaxResultsPrefix
                           && ParseInt(s[|MaxResultsPrefix|..]) == Some(topN.value)
  {
    match topN
    case None => ""
    case Some(n) =>
      var s := MaxResultsPrefix + IntToDecimal(n);
      IntToDecimalRoundTrip(n);
      assert s[|MaxResultsPrefix|..] == IntToDecimal(n);
      s
  }

  /** The `restrict_geom_query` argument of `geocode_addr`: nothing, or `, restrict_geom := (q)` with q verbatim. */
  function RestrictGeomFragment(query: Option<string>): (s: string)
    ensures query.None? ==> s == ""
    ensures query.Some? ==> |s| == |RestrictGeomPrefix| + |query.value| + 1
                            && s[..|RestrictGeomPrefix|] == RestrictGeomPrefix
                            && s[|RestrictGeomPrefix|..|s| - 1] == query.value
                            && s[|s| - 1] == ')'
  {
    match query
    case None => ""
    case Some(q) =>
      var s := RestrictGeomPrefix + q + ")";
      assert s[|RestrictGeomPrefix|..|s| - 1] == q;
      s
  }

  /** The arguments of the `geocode(...)` call. */
  function GeocodeArguments(addr: string, topN: Option<int>, restrictGeom: Option<string>): string
  {
    "'" + addr + "'" + TopNFragment(topN) + RestrictGeomFragment(restrictGeom)
  }

  /**
   * The call's arguments are the address between single quotes, then the `top_n`
   * fragment, then the restriction fragment; they can be cut back into the three.
   */
  lemma GeocodeArgumentsLayout(addr: string, topN: Option<int>, restrictGeom: Option<string>)
    ensures var s, a := GeocodeArguments(addr, topN, restrictGeom), "'" + addr + "'";
      && |s| == |a| + |TopNFragment(topN)| + |RestrictGeomFragment(restrictGeom)|
      && s[..|a|] == a
      && s[|a|..|a| + |TopNFragment(topN)|] == TopNFragment(topN)
      && s[|a| + |TopNFragment(topN)|..] == RestrictGeomFragment(restrictGeom)
  {
    var s, a := GeocodeArguments(addr, topN, restrictGeom), "'" + addr + "'";
    assert s[..|a|] == a;
    assert s[|a|..|a| + |TopNFragment(topN)|] == TopNFragment(topN);
  }

  /** Without the optional arguments the call is `geocode('addr')`. */
  lemma GeocodeArgumentsPlain(addr: string)
    ensures GeocodeArguments(addr, None, None) == "'" + addr + "'"
  {
  }

  /** The columns the `geocode_addr` query selects, in order. */
  const GeocodeResultColumns: seq<string> := [
    "rating", "latitude", "longitude", "geocoded_address", "street_num", "street_dir",
    "street_name", "street_type", "city", "st", "zip"]

  const RawAddressColumn: string := "raw_address"

  /** `geocode_results_df["raw_address"] = addr`: every row gets the address, nothing else changes. */
  function TagRawAddress(rows: seq<Record>, addr: string): (r: seq<Record>)
    ensures |r| == |rows|
    ensures forall i :: 0 <= i < |rows| ==> Cell(r[i], RawAddressColumn) == Some(Text(addr))
    ensures forall i, c :: 0 <= i < |rows| && c != RawAddressColumn ==> Cell(r[i], c) == Cell(rows[i], c)
  {
    seq(|rows|, i requires 0 <= i < |rows| => rows[i][RawAddressColumn := Some(Text(addr))])
  }

  /**
   * `geocode_addr`: the rows the query returns for this address and these options, each
   * tagged with the address, or the error the query raises (a syntax error, for one, when
   * the address holds a single quote).
   */
  function GeocodeAddr(run: string -> Result<seq<Record>, DbError>, addr: string, topN: Option<int>,
                       restrictGeom: Option<string>): Result<DataFrame, DbError>
  {
    var q := run(GeocodeArguments(addr, topN, restrictGeom));
    if q.Failure? then Failure(q.error)
    else Success(DataFrame(GeocodeResultColumns + [RawAddressColumn], TagRawAddress(q.value, addr)))
  }

  /** `geocode_addr` with the connection and the options fixed, as the loop calls it on each address. */
  function Geocoder(run: string -> Result<seq<Record>, DbError>, topN: Option<int>, restrictGeom: Option<string>)
    : string -> Result<DataFrame, DbError>
  {
    addr => GeocodeAddr(run, addr, topN, restrictGeom)
  }

  /** One `geocode_addr` frame per address, in the input's order, or the first error raised. */
  function GeocodeEach(geo: string -> Result<DataFrame, DbError>, addrs: seq<string>): (r: Result<seq<DataFrame>, DbError>)
    ensures r.Success? ==> |r.value| == |addrs|
  {
    if |addrs| == 0 then Success([])
    else
      var front := GeocodeEach(geo, addrs[..|addrs| - 1]);
      var last := geo(addrs[|addrs| - 1]);
      if front.Failure? then front
      else if last.Failure? then Failure(last.error)
      else Success(front.value + [last.value])
  }

  /** Once the addresses up to i have failed, the whole list fails with the same error. */
  lemma {:induction false} GeocodeEachFailurePersists(geo: string -> Result<DataFrame, DbError>, addrs: seq<string>, i: nat)
    requires i <= |addrs| && GeocodeEach(geo, addrs[..i]).Failure?
    ensures GeocodeEach(geo, addrs) == GeocodeEach(geo, addrs[..i])
    decreases |addrs| - i
  {
    if i < |addrs| {
      assert addrs[..i + 1][..i] == addrs[..i];
      GeocodeEachFailurePersists(geo, addrs, i + 1);
    } else {
      assert addrs[..i] == addrs;
    }
  }

  /** The list geocodes exactly when every address does. */
  lemma {:induction false} GeocodeEachSucceeds(geo: string -> Result<DataFrame, DbError>, addrs: seq<string>)
    ensures GeocodeEach(geo, addrs).Success? <==>
      forall i :: 0 <= i < |addrs| ==> geo(addrs[i]).Success?
    decreases |addrs|
  {
    if |addrs| > 0 {
      var init := addrs[..|addrs| - 1];
      GeocodeEachSucceeds(geo, init);
      assert forall i :: 0 <= i < |init| ==> init[i] == addrs[i];
    }
  }

  /**
   * A list that fails fails with the error of its first failing address, every address
   * before it having succeeded.
   */
  lemma {:induction false} GeocodeEachFirstFailure(geo: string -> Result<DataFrame, DbError>, addrs: seq<string>)
    requires GeocodeEach(geo, addrs).Failure?
    ensures exists m ::
      && 0 <= m < |addrs|
      && GeocodeEach(geo, addrs[..m]).Success?
      && geo(addrs[m]) == Failure(GeocodeEach(geo, addrs).error)
    decreases |addrs|
  {
    var init := addrs[..|addrs| - 1];
    if GeocodeEach(geo, init).Failure? {
      GeocodeEachFirstFailure(geo, init);
      var m :| && 0 <= m < |init|
               && GeocodeEach(geo, init[..m]).Success?
               && geo(init[m]) == Failure(GeocodeEach(geo, init).error);
      assert init[..m] == addrs[..m] && init[m] == addrs[m];
    } else {
      assert addrs[..|addrs| - 1] == init;
    }
  }

  /** How many addresses at the head of the list geocode before the first one that raises. */
  function SucceedingPrefix(geo: string -> Result<DataFrame, DbError>, addrs: seq<string>): (m: nat)
    ensures m <= |addrs|
    ensures forall i :: 0 <= i < m ==> geo(addrs[i]).Success?
    ensures m < |addrs| ==> geo(addrs[m]).Failure?
  {
    if |addrs| == 0 || geo(addrs[0]).Failure? then 0 else 1 + SucceedingPrefix(geo, addrs[1..])
  }

  /**
   * When the addresses before i geocode and the i-th raises, the list fails with that error
   * and i is where the succeeding prefix ends.
   */
  lemma GeocodeEachStopsAt(geo: string -> Result<DataFrame, DbError>, addrs: seq<string>, i: nat)
    requires i < |addrs| && GeocodeEach(geo, addrs[..i]).Success? && geo(addrs[i]).Failure?
    ensures GeocodeEach(geo, addrs) == Failure(geo(addrs[i]).error)
    ensures SucceedingPrefix(geo, addrs) == i
  {
    var front := GeocodeEach(geo, addrs[..i]).value;
    GeocodeEachStep(geo, addrs, i, front);
    GeocodeEachFailurePersists(geo, addrs, i + 1);
    var prefix := addrs[..i];
    GeocodeEachSucceeds(geo, prefix);
    assert forall j :: 0 <= j < i ==> prefix[j] == addrs[j];
    SucceedingPrefixAt(geo, addrs, i);
  }

  /** The succeeding prefix ends at the first address that raises. */
  lemma SucceedingPrefixAt(geo: string -> Result<DataFrame, DbError>, addrs: seq<string>, i: nat)
    requires i < |addrs| && geo(addrs[i]).Failure?
    requires forall j :: 0 <= j < i ==> geo(addrs[j]).Success?
    ensures SucceedingPrefix(geo, addrs) == i
  {
  }

  /** The i-th frame of a list that geocodes is the one geocoded for the i-th address. */
  lemma {:induction false} GeocodeEachAt(geo: string -> Result<DataFrame, DbError>, addrs: seq<string>, i: nat)
    requires i < |addrs| && GeocodeEach(geo, addrs).Success?
    ensures geo(addrs[i]).Success?
    ensures GeocodeEach(geo, addrs).value[i] == geo(addrs[i]).value
    decreases |addrs|
  {
    var init, last := addrs[..|addrs| - 1], addrs[|addrs| - 1];
    var front := GeocodeEach(geo, init);
    assert GeocodeEach(geo, addrs).value == front.value + [geo(last).value];
    if i < |addrs| - 1 {
      GeocodeEachAt(geo, init, i);
      assert init[i] == addrs[i];
    }
  }

  /** Geocoding one more address appends its frame, or stops at its error. */
  lemma GeocodeEachStep(geo: string -> Result<DataFrame, DbError>, addrs: seq<string>, i: nat, front: seq<DataFrame>)
    requires i < |addrs| && GeocodeEach(geo, addrs[..i]) == Success(front)
    ensures var frame := geo(addrs[i]);
      GeocodeEach(geo, addrs[..i + 1])
        == if frame.Failure? then Failure(frame.error) else Success(front + [frame.value])
  {
    assert addrs[..i + 1][..i] == addrs[..i];
  }

  /** The rows of the frames one after the other. */
  function AllRows(frames: seq<DataFrame>): seq<Record>
  {
    if |frames| == 0 then [] else frames[0].rows + AllRows(frames[1..])
  }

  /** How many rows the frames before the i-th one hold. */
  function RowsBefore(frames: seq<DataFrame>, i: nat): (k: nat)
    requires i <= |frames|
    ensures k + (if i < |frames| then |frames[i].rows| else 0) <= |AllRows(frames)|
  {
    if i == 0 then 0 else |frames[0].rows| + RowsBefore(frames[1..], i - 1)
  }

  /**
   * `pd.concat(frames).reset_index(drop=True)` over frames that share their columns: their
   * rows one after the other; no frames at all is an error.
   */
  function Concat(frames: seq<DataFrame>): (r: Result<DataFrame, DbError>)
    ensures |frames| == 0 <==> r == Failure(NothingToConcatenate)
    ensures |frames| > 0 ==> r.Success? && r.value.columns == frames[0].columns && r.value.rows == AllRows(frames)
    ensures |frames| > 0 ==> |r.value.rows| == RowsBefore(frames, |frames|)
  {
    if |frames| == 0 then Failure(NothingToConcatenate)
    else
      AllRowsLength(frames);
      Success(DataFrame(frames[0].columns, AllRows(frames)))
  }

  /** The concatenation holds as many rows as the frames together. */
  lemma {:induction false} AllRowsLength(frames: seq<DataFrame>)
    ensures |AllRows(frames)| == RowsBefore(frames, |frames|)
  {
    if |frames| > 0 {
      AllRowsLength(frames[1..]);
    }
  }

  /** The j-th row of the i-th frame is found right after the rows of the frames before it. */
  lemma {:induction false} AllRowsAt(frames: seq<DataFrame>, i: nat, j: nat)
    requires i < |frames| && j < |frames[i].rows|
    ensures RowsBefore(frames, i) + j < |AllRows(frames)|
    ensures AllRows(frames)[RowsBefore(frames, i) + j] == frames[i].rows[j]
  {
    if i > 0 {
      AllRowsAt(frames[1..], i - 1, j);
      assert frames[1..][i - 1] == frames[i];
    }
  }

  /**
   * The concatenated result keeps the input's order: the j-th row `geocode` returned for
   * the i-th address comes after the rows of every earlier address, carries that address
   * as `raw_address`, and is otherwise the row the query returned.
   */
  lemma ResultsInInputOrder(run: string -> Result<seq<Record>, DbError>, addrs: seq<string>, topN: Option<int>,
                            restrictGeom: Option<string>, i: nat, j: nat)
    requires i < |addrs| && GeocodeEach(Geocoder(run, topN, restrictGeom), addrs).Success?
    requires run(GeocodeArguments(addrs[i], topN, restrictGeom)).Success?
    requires j < |run(GeocodeArguments(addrs[i], topN, restrictGeom)).value|
    ensures var frames := GeocodeEach(Geocoder(run, topN, restrictGeom), addrs).value;
      var k := RowsBefore(frames, i) + j;
      var row := run(GeocodeArguments(addrs[i], topN, restrictGeom)).value[j];
      && k < |AllRows(frames)|
      && Cell(AllRows(frames)[k], RawAddressColumn) == Some(Text(addrs[i]))
      && forall c :: c != RawAddressColumn ==> Cell(AllRows(frames)[k], c) == Cell(row, c)
  {
    var frames := GeocodeEach(Geocoder(run, topN, restrictGeom), addrs).value;
    GeocodeEachAt(Geocoder(run, topN, restrictGeom), addrs, i);
    AllRowsAt(frames, i, j);
    var tagged := TagRawAddress(run(GeocodeArguments(addrs[i], topN, restrictGeom)).value, addrs[i]);
    assert frames[i].rows == tagged;
    assert AllRows(frames)[RowsBefore(frames, i) + j] == tagged[j];
  }

  /**
   * The remaining counts reported out of n addresses once only `left` are left: after each
   * address the count of those still to do, when `p` divides it.
   */
  function Progress(n: nat, p: int, left: nat): seq<nat>
    requires p != 0 && left <= n
    decreases n - left
  {
    if left == n then [] else Progress(n, p, left + 1) + (if Mod(left, p) == 0 then [left] else [])
  }

  /** A count is reported exactly when it has been reached and `p` divides it. */
  lemma {:induction false} ProgressReports(n: nat, p: int, left: nat, k: int)
    requires p != 0 && left <= n
    ensures k in Progress(n, p, left) <==> left <= k < n && Mod(k, p) == 0
    decreases n - left
  {
    if left < n {
      ProgressReports(n, p, left + 1, k);
    }
  }

  /** The reported counts go strictly down, none below the count left. */
  lemma {:induction false} ProgressDecreasing(n: nat, p: int, left: nat)
    requires p != 0 && left <= n
    ensures forall a :: 0 <= a < |Progress(n, p, left)| ==> Progress(n, p, left)[a] >= left
    ensures forall a, b :: 0 <= a < b < |Progress(n, p, left)| ==> Progress(n, p, left)[a] > Progress(n, p, left)[b]
    decreases n - left
  {
    if left < n {
      var m, m' := Progress(n, p, left), Progress(n, p, left + 1);
      ProgressDecreasing(n, p, left + 1);
      assert forall a :: 0 <= a < |m'| ==> m'[a] > left;
      if Mod(left, p) == 0 {
        assert m == m' + [left];
        assert forall a :: 0 <= a < |m'| ==> m[a] == m'[a];
      } else {
        assert m == m';
      }
    }
  }

  /** Once every address is done the last count reported is 0: the count ends at nothing left. */
  lemma ProgressEndsAtZero(n: nat, p: int)
    requires p != 0 && n > 0
    ensures var m := Progress(n, p, 0); |m| > 0 && m[|m| - 1] == 0
  {
    assert Mod(0, p) == 0;
  }

  /**
   * The loop of `geocode_list_of_addresses` over any per-address geocoder: geocodes the
   * addresses one at a time, counting down the addresses left and reporting the count after
   * each address when `print_every_n` divides it, then concatenates the frames. It stops at
   * the first address that raises; a zero `print_every_n` raises after the first address;
   * an empty list raises at the concatenation.
   */
  method GeocodeInOrder(geocode: string -> Result<DataFrame, DbError>, addrs: seq<string>, printEveryN: int)
    returns (r: Result<DataFrame, DbError>, progress: seq<nat>)
    ensures |addrs| == 0 ==> r == Failure(NothingToConcatenate) && progress == []
    ensures |addrs| > 0 && printEveryN == 0 ==>
      && progress == []
      && r == if geocode(addrs[0]).Failure? then Failure(geocode(addrs[0]).error) else Failure(ZeroDivision)
    ensures |addrs| > 0 && printEveryN != 0 && GeocodeEach(geocode, addrs).Success? ==>
      && r == Concat(GeocodeEach(geocode, addrs).value)
      && progress == Progress(|addrs|, printEveryN, 0)
    ensures printEveryN != 0 && GeocodeEach(geocode, addrs).Failure? ==>
      && r == Failure(GeocodeEach(geocode, addrs).error)
      && progress == Progress(|addrs|, printEveryN, |addrs| - SucceedingPrefix(geocode, addrs))
  {
    var numLeft: nat := |addrs|;
    var results: seq<DataFrame> := [];
    progress := [];
    for i := 0 to |addrs|
      invariant numLeft == |addrs| - i
      invariant GeocodeEach(geocode, addrs[..i]) == Success(results)
      invariant i > 0 ==> printEveryN != 0
      invariant i == 0 ==> progress == []
      invariant printEveryN != 0 ==> progress == Progress(|addrs|, printEveryN, numLeft)
    {
      var frame := geocode(addrs[i]);
      GeocodeEachStep(geocode, addrs, i, results);
      if frame.Failure? {
        GeocodeEachStopsAt(geocode, addrs, i);
        r := Failure(frame.error);
        return;
      }
      numLeft := numLeft - 1;
      results := results + [frame.value];
      if printEveryN == 0 {
        return Failure(ZeroDivision), progress;
      }
      if Mod(numLeft, printEveryN) == 0 {
        progress := progress + [numLeft];
      }
    }
    assert addrs[..|addrs|] == addrs;
    r := Concat(results);
  }

  /**
   * `geocode_list_of_addresses`: the loop above with `geocode_addr` on the connection, the
   * `top_n` and the `restrict_geom` given.
   */
  method GeocodeListOfAddresses(run: string -> Result<seq<Record>, DbError>, addrs: seq<string>, topN: Option<int>,
                                restrictGeom: Option<string>, printEveryN: int)
    returns (r: Result<DataFrame, DbError>, progress: seq<nat>)
    ensures |addrs| == 0 ==> r == Failure(NothingToConcatenate) && progress == []
    ensures |addrs| > 0 && printEveryN == 0 ==>
      && progress == []
      && var first := Geocoder(run, topN, restrictGeom)(addrs[0]);
         r == if first.Failure? then Failure(first.error) else Failure(ZeroDivision)
    ensures |addrs| > 0 && printEveryN != 0 && GeocodeEach(Geocoder(run, topN, restrictGeom), addrs).Success? ==>
      && r == Concat(GeocodeEach(Geocoder(run, topN, restrictGeom), addrs).value)
      && progress == Progress(|addrs|, printEveryN, 0)
    ensures printEveryN != 0 && GeocodeEach(Geocoder(run, topN, restrictGeom), addrs).Failure? ==>
      && r == Failure(GeocodeEach(Geocoder(run, topN, restrictGeom), addrs).error)
      && progress == Progress(|addrs|, printEveryN, |addrs| - SucceedingPrefix(Geocoder(run, topN, restrictGeom), addrs))
  {
    r, progress := GeocodeInOrder(Geocoder(run, topN, restrictGeom), addrs, printEveryN);
  }
}
