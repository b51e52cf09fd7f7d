# postgis_geocoder, modelled in Dafny

This project models the batch address-processing core of `postgisgeocoder`, a Python
package that geocodes postal addresses with the PostGIS TIGER geocoder. It covers three
parts.

- **The staging-table pipeline** (`geocoding.py`). Setup creates `user_data.address_table`
  with its `full_address varchar(100)` primary key, then adds the normalization and
  geocode-output columns (`ADD COLUMN IF NOT EXISTS ... DEFAULT NULL`). Ingestion inserts the
  addresses with `ON CONFLICT DO NOTHING`. Each batch statement is an `UPDATE ... FROM (SELECT
  ... WHERE <sentinel> IS NULL LIMIT b) LEFT JOIN LATERAL f(...)`, and a driver counts the
  NULL-sentinel rows and runs the statement the ceiling of count / b times. Finally
  `geocode_addresses` left-merges the geocoded table back onto the caller's rows and counts
  the rows that got a point.
- **The database helpers** (`db.py`): schema creation and the schema test, the column listing
  of `information_schema.columns`, and `is_geo_table`.
- **The text and loop helpers of the standalone geocoder** (`utils.py`): the `VALUES` list for
  `standardize_address`, the optional arguments of a `geocode(...)` call, the `raw_address`
  tag, and the loop over a list of addresses.

The database is one object, `Postgres.Engine`. Its fields are the set of schemas and the
tables by qualified name. It also holds a ghost log of the statements that ran, so that
"ran exactly k times" can be stated. The operations that change the database are methods
on it, with `modifies` clauses.

A table is a value: its ordered column list and a map from key to row. A row maps each
data column to a nullable value.

The TIGER functions `normalize_address`, `standardize_address`, `geocode` and
`pprint_addy` are uninterpreted function fields of `Sweeps.Extension`. The database makes
two choices that the SQL leaves open:

- which rows the `LIMIT` picks;
- which accepted candidate an `UPDATE ... FROM` uses when `geocode` returns several.

Both are parameters constrained only by `Sweeps.ValidSweep`, so every property holds for
every choice the database could make.

Modules and files:

- `wrappers.dfy`: `Option`, `Result`, `Outcome`.
- `pyarith.dfy`: Python's floor `//` and `%`.
- `strings.dfy`: `str.join`, decimal text, ASCII case mapping.
- `tables.dfy`: values, rows, tables, the column groups, `ADD COLUMN IF NOT EXISTS`, insert-or-ignore and varchar(100).
- `sweeps.dfy`: the semantics of one batch `UPDATE`.
- `postgres.dfy`: the `Engine` class.
- `db.dfy`: `db.py`.
- `geocoding.dfy`: `geocoding.py`.
- `utils.dfy`: `utils.py`.

## Model

| member | source | states |
|---|---|---|
| Db.IsGeoTable | postgisgeocoder/db.py:163-175 | True exactly when some listed `udt_name`, lower-cased, is one of the nine spatial type names. |
| Db.IsGeoTableEmpty | postgisgeocoder/db.py:175 | An empty column listing gives false: `.any()` over nothing. |
| Db.IsGeoTableIgnoresCase | postgisgeocoder/db.py:174 | Two listings that agree up to ASCII case give the same answer. |
| Db.IsGeoTableUpperCase | postgisgeocoder/db.py:174 | Upper-casing every type name (`GEOMETRY`) does not change the answer. |
| Db.ColumnSelectionLayout | postgisgeocoder/db.py:125-148 | Without `return_all_cols`, the select list holds the 18 field names verbatim in list order. Each is followed by `", "` except the last, which ends the string. |
| Db.TableColumnDetails | postgisgeocoder/db.py:122-156 | The select list is `*` with `return_all_cols`, otherwise the joined names. The rows are the table's columns, or none for a missing table. |
| Db.IsGeoTableOfColumns | postgisgeocoder/db.py:159-175 | The spatial test over a listing holds iff some column of the listing has a spatial type. |
| Db.IsGeoTableOf | postgisgeocoder/db.py:159-175 | `is_geo_table` is true iff the table exists and one of its columns has a spatial `udt_name`, case-insensitively. |
| Db.HasSchema | postgisgeocoder/db.py:102-104 | True iff the schema exists. |
| Db.CreateSchemaStatements | postgisgeocoder/db.py:107-114 | Nothing runs exactly when the schema already exists. |
| Db.CreateSchemaTwice | postgisgeocoder/db.py:107-114 | A second call for the same schema runs nothing, so two calls run what one runs. |
| Db.CreateDatabaseSchema | postgisgeocoder/db.py:107-114 | The schema set gains the schema. The tables are unchanged. `CREATE SCHEMA` runs only when the schema was missing. |
| Geocoding.CreateUserDataSchema | postgisgeocoder/geocoding.py:18-19 | `user_data` exists afterwards; nothing else changes. |
| Geocoding.CreateAddressTable | postgisgeocoder/geocoding.py:22-32 | A missing schema raises and changes nothing. Otherwise an existing table is kept as it is, and a missing one is created holding only the key. |
| Geocoding.AlterTableAddColumns | postgisgeocoder/geocoding.py:38-55 | A missing table raises and changes nothing. Otherwise the table becomes `AddColumnsIfNotExists` of the columns, and nothing else changes. |
| Geocoding.AddNormalizationColumns | postgisgeocoder/geocoding.py:35-55 | As above, with the twelve normalization columns. |
| Geocoding.AddGeocodeOutputColumns | postgisgeocoder/geocoding.py:58-69 | As above, with `rating`, `norm_address` and `geomout`. |
| Geocoding.AddStandardizationColumns | postgisgeocoder/geocoding.py:207-231 | As above, with the sixteen standardization columns. |
| Geocoding.PreparedTableFacts | postgisgeocoder/geocoding.py:35-82 | Setup keeps the table well formed, its old columns as a prefix, its keys and every value it held. The new column names are the union of the old ones and both groups. Every row carries exactly the data columns, and a column a row lacked is NULL there (`DEFAULT NULL`). |
| Geocoding.PreparedTableIdempotent | postgisgeocoder/geocoding.py:72-82 | Running the setup a second time leaves the table exactly as the first run left it. |
| Geocoding.SetupTables | postgisgeocoder/geocoding.py:72-82 | After setup, the named table exists. |
| Geocoding.SetupAddressTable | postgisgeocoder/geocoding.py:72-82 | The schema exists and the table is prepared. The log gains the statements of the four steps in order. |
| Geocoding.RunBatch | postgisgeocoder/geocoding.py:85-114 | A missing table, missing column or negative LIMIT raises and changes nothing. For the standardized geocoder, a chosen row whose non-NULL `house_num` does not cast to an integer makes the statement raise, changing nothing; otherwise it passes. On success only table n changes: the rows the LIMIT chose among the NULL-sentinel rows are rewritten, and the statement is logged once. |
| Geocoding.ChooseRows | postgisgeocoder/geocoding.py:104-111 | Some choice of min(b, count) NULL-sentinel rows and admissible candidates always exists. |
| Geocoding.CountNullRows | postgisgeocoder/geocoding.py:188-204 | Succeeds iff the table and column exist. The count is the number of rows whose column is NULL, and 0 for the key. |
| Geocoding.Repeat | postgisgeocoder/geocoding.py:278-281 | k repeats of x have length k, and every entry is x. |
| Geocoding.BatchesLeftBounds | postgisgeocoder/geocoding.py:274-277 | For b > 0, the batch count k is the ceiling: (k-1)·b < rows ≤ k·b. For b = 0 it is 0, since numpy gives 0 for `//` and `%` by zero. For b < 0 it is never positive. So no sweep runs unless b > 0. |
| Geocoding.BatchesLeftExamples | postgisgeocoder/geocoding.py:277 | 0 rows give 0 batches. 250 rows give 3, and 100 and 1 give 1 each (all at b = 100). 250 rows give 0 batches at b = 0 and -3 at b = -100. |
| Geocoding.SweptSinceStep | postgisgeocoder/geocoding.py:104-112 | One more sweep keeps the invariant. The columns and keys stay the same. Every row is either as it was or its old row overwritten once by the statement's SET values, for an admissible geocode candidate. Only the statement's columns change, a row whose sentinel was set stays untouched, and a newly rated row is rated under the threshold or -1. |
| Geocoding.SweptKeepsHouseNums | postgisgeocoder/geocoding.py:330-333 | Geocode sweeps only write rows they rate, so the rows still to geocode keep house numbers that cast. |
| Geocoding.UncoveredIs | postgisgeocoder/geocoding.py:277-281 | After i sweeps of b, count - i·b rows remain uncovered. |
| Geocoding.GeocodeSweepCount | postgisgeocoder/geocoding.py:156-162 | A geocode sweep over max(x, 0) NULL ratings leaves max(x - b, 0). |
| Geocoding.UncoveredStep | postgisgeocoder/geocoding.py:277-281 | One more sweep of b moves the remaining count from step i to step i + 1. |
| Geocoding.NoneLeft | postgisgeocoder/geocoding.py:277-281 | Once the precomputed number of geocode sweeps has run, no NULL rating is left. |
| Geocoding.SweepOnce | postgisgeocoder/geocoding.py:279-281 | One pass fails and changes nothing in two cases: a named column is missing, or the standardized geocoder picks a row whose house number does not cast. The second cannot happen while every unrated row's house number casts. Otherwise the table is swept once more, with each changed row holding the statement's SET values, and a geocode pass leaves max(m - b, 0) NULL ratings. |
| Geocoding.ApplyToAllRows | postgisgeocoder/geocoding.py:266-281 | A failed count raises its error and changes nothing. With no batch to run (no NULL row, or b ≤ 0, b = 0 included) it passes unchanged. A missing column raises before any change. A house number that does not cast raises, with the passes before it kept. On success only table n changes, every changed row holding the statement's SET values, and the log gains the statement exactly `BatchesLeft(count, b)` times. A geocode driver leaves no NULL rating. |
| Geocoding.SweepRepeatedly | postgisgeocoder/geocoding.py:278-281 | The loop runs the statement `batches` times with the same table and LIMIT, and ends swept since the start, each changed row holding the statement's SET values. It stops at the first failure, with the state after the passes before it: none when a column is missing. |
| Geocoding.SweepAgain | postgisgeocoder/geocoding.py:278-281 | One iteration moves the driver's invariant from i passes to i + 1. |
| Geocoding.NormalizeAllAddresses | postgisgeocoder/geocoding.py:284-297 | The driver with the normalize statement on `streetname`. It always succeeds on a prepared table, for b = 0 too, with zero sweeps. |
| Geocoding.StandardizeAllAddresses | postgisgeocoder/geocoding.py:300-313 | The driver with the standardize statement on `name`. It always succeeds on a table with the standardization columns. |
| Geocoding.GeocodeAllNormalizedAddresses | postgisgeocoder/geocoding.py:359-372 | The driver with the geocode statement at the default threshold 22, on `rating`. It always succeeds on a prepared table; for b > 0, every row ends up rated. |
| Geocoding.GeocodeAllNormalizedAddressesWith | postgisgeocoder/geocoding.py:144-169 | The same with a given threshold; the corrected form used by the finding below. |
| Geocoding.GeocodeAllStandardizedAddresses | postgisgeocoder/geocoding.py:316-356 | The driver with the standardized geocode statement at threshold 22. It succeeds when every unrated row's house number casts to an integer. Otherwise it can only fail with that cast error, keeping the passes before it. For b > 0, success leaves every row rated. |
| Geocoding.NormalizeCanStarve | postgisgeocoder/geocoding.py:105-111 | The normalize driver has no convergence guarantee. With two unnormalized addresses and b = 1 it runs two sweeps, and both may pick the unparsable "A", so "B" is never normalized. |
| Geocoding.StarvingSweep | postgisgeocoder/geocoding.py:105-111 | A LIMIT-1 sweep may pick the unparsable row, and both rows then stay unnormalized. |
| Geocoding.KeyText | postgisgeocoder/geocoding.py:28 | A missing value violates NOT NULL. Text is coerced to varchar(100), and an integer or boolean is converted to its text first. A stored key never exceeds 100 characters. |
| Geocoding.KeyTexts | postgisgeocoder/geocoding.py:117-119 | The insert succeeds iff every value can be stored. On failure the error is that of the first bad value. |
| Geocoding.IngestKeys | postgisgeocoder/geocoding.py:122-141 | A DataFrame without `full_address` fails the assertion, and a missing table is an error. Only a Series named `full_address` inserts rows. The keys come one per value, each at most 100 characters. |
| Geocoding.AddAddresses | postgisgeocoder/geocoding.py:122-141 | On error nothing changes. Otherwise the table becomes `InsertOrIgnore` of the keys, and one INSERT is logged if there were any. |
| Geocoding.TextKeyVerbatim | postgisgeocoder/geocoding.py:28 | A text address of at most 100 characters is stored exactly as given. |
| Geocoding.IntKeyRoundTrip | postgisgeocoder/geocoding.py:28 | An integer address is stored as decimal text that parses back to the same integer. |
| Geocoding.ReingestChangesNothing | postgisgeocoder/geocoding.py:117-141 | Ingesting the same input again finds the same keys and leaves the tables unchanged. |
| Geocoding.PreparedColumns | postgisgeocoder/geocoding.py:72-82 | A prepared table has every column the normalize and geocode statements name. |
| Geocoding.RatingIsNotNormColumn | postgisgeocoder/geocoding.py:35-55 | `rating` is not a normalization column. |
| Geocoding.NormalizeKeepsRatings | postgisgeocoder/geocoding.py:85-114 | The normalize phase keeps every row's rating, and so keeps the set and count of NULL ratings. |
| Geocoding.PhasesGeocode | postgisgeocoder/geocoding.py:414-419 | Normalize then geocode leaves the same columns and keys, through an intermediate table reached by normalize sweeps and then geocode sweeps, each changed row holding the statement's SET values. Every newly rated row is under the threshold or -1, and every already normalized and rated row is unchanged. |
| Geocoding.IngestAndNormalize | postgisgeocoder/geocoding.py:408-416 | Setup always completes. Then the ingestion fails with its error, or the normalize statement runs the precomputed number of times (none for b ≤ 0) and the pass succeeds. |
| Geocoding.SetupAndIngest | postgisgeocoder/geocoding.py:408-413 | The table is prepared whatever happens, and the addresses are added unless the ingestion fails. |
| Geocoding.IngestNormalizeAndGeocode | postgisgeocoder/geocoding.py:398-419 | As written: setup, then either the ingestion error or the whole pipeline, which always succeeds (with zero sweeps for b ≤ 0). The geocode phase always runs at threshold 22 whatever `rating_threshold` is. For b > 0, no NULL rating is left. |
| Geocoding.IngestNormalizeAndGeocodeForwarding | postgisgeocoder/geocoding.py:398-419 | Corrected: the same pipeline with the caller's `rating_threshold` forwarded to the geocode phase. |
| Geocoding.GeocodeTail | postgisgeocoder/geocoding.py:414-419 | The geocode driver after the normalize driver, stated against the table as ingested. |
| Geocoding.NewAddressesRated | postgisgeocoder/geocoding.py:398-419 | After a successful run with b > 0, every newly ingested address holds -1 or a rating under the threshold used. |
| Geocoding.ThresholdChangesRating | postgisgeocoder/geocoding.py:155-166 | For a sole candidate rated 30, threshold 22 stores -1 and threshold 50 stores 30. |
| Geocoding.AsWrittenIgnoresThreshold | postgisgeocoder/geocoding.py:404 | The as-written pipeline never stores 30 for a new address, even when called with `rating_threshold` 50. |
| Geocoding.WithFullAddress | postgisgeocoder/geocoding.py:437-438 | An existing `full_address` is kept. Otherwise it is copied from the named column and appended, with every other cell unchanged. A missing named column raises KeyError. |
| Geocoding.GeoRecord | postgisgeocoder/geocoding.py:383-388 | A read-back row has `geometry` equal to `geomout`, and coordinates present exactly when there is a point. |
| Geocoding.ReadGeocoded | postgisgeocoder/geocoding.py:375-395 | One read-back row per table row, keyed by `full_address`. |
| Geocoding.LeftCells | postgisgeocoder/geocoding.py:450-456 | Each caller's column appears under its suffixed name. When no other column takes that name, it holds the caller's cell. |
| Geocoding.RightNamesDistinct | postgisgeocoder/geocoding.py:450-456 | The three geocoded columns keep three different names, whether or not the `_geocoder` suffix applies to them. |
| Geocoding.RightCells | postgisgeocoder/geocoding.py:450-456 | Exactly the three geocoded columns, under their suffixed names. Each holds the matched row's cell, or NULL when nothing matched. |
| Geocoding.MergedRow | postgisgeocoder/geocoding.py:450-456 | A merged row keeps the caller's cells and carries the matched geocoded cells. |
| Geocoding.LeftMerge | postgisgeocoder/geocoding.py:450-456 | Exactly one output row per input row, in order. Each carries the geocoded cells of the row its key matched (NULL when none matched), and every caller's cell whose suffixed name no other column takes. Colliding names are refused by MergeReport or listed under Left out. |
| Geocoding.RowsWithGeometry | postgisgeocoder/geocoding.py:460 | The count of non-NULL geometries is at most the row count, and equals it iff every row has one. |
| Geocoding.MergeGeometryCount | postgisgeocoder/geocoding.py:459-460 | Without a caller's own `geometry` column, the printed count is the number of caller's rows that matched a stored address with a point. |
| Geocoding.MergeReport | postgisgeocoder/geocoding.py:447-460 | An integer-only key column raises when the table has rows, since pandas refuses to merge integer keys onto the text keys read back. Otherwise the merge raises exactly when suffixing would give two of the caller's columns one name (`latitude` renamed onto the caller's own `latitude_orig`). Otherwise it fails exactly when the caller's frame has its own `geometry`. On success no two caller's columns share a name, the frame is the left merge, `total_rows` equals the input row count and `rows_w_geometry` ≤ `total_rows`. |
| Geocoding.LatitudeOrigCollides | postgisgeocoder/geocoding.py:450-456 | A frame with text keys and the columns `full_address`, `latitude` and `latitude_orig` is refused with the duplicate-suffix error. |
| Geocoding.GeocodeAddresses | postgisgeocoder/geocoding.py:422-464 | Ensures `full_address`, runs the pipeline on it into `user_data.address_table` with b = 100 and threshold 22 (the threshold-forwarding pipeline, which for 22 does what the as-written one does), and returns the merge report of the table it left, including its refusal of colliding suffixes. |
| Geocoding.GeocodeAddressesReport | postgisgeocoder/geocoding.py:457-460 | A successful `geocode_addresses` returns every caller's row, and no more rows with a point than rows. |
| Geocoding.IntegerKeysNeverMerge | postgisgeocoder/geocoding.py:437-456 | A caller's address column of integers never comes back geocoded. Unless the ingestion fails, the merge raises the dtype error. |
| Sweeps.SentinelIsWritten | postgisgeocoder/geocoding.py:92-112 | Each statement's SET clause writes its own sentinel, and none names the key. |
| Sweeps.NormAddyOfNormalized | postgisgeocoder/geocoding.py:158-160 | After a normalize write, the `norm_addy` built from the row is exactly the fields `normalize_address` returned for the key, or empty when it returned NULL. |
| Sweeps.NormAddyOfStdRow | postgisgeocoder/geocoding.py:330-331 | The `norm_addy` cast from a standardized row has `parsed` true and only the mapped fields. When the house number casts, `address` is its integer value and present iff `house_num` is non-NULL. Every other mapped field is present iff its column is non-NULL, with that value. |
| Sweeps.CastToInteger | postgisgeocoder/geocoding.py:330-331 | The integer cast of a field lies in the int4 range. Text succeeds iff it parses as a decimal integer in range, with that value; an integer in range is kept; a boolean or geometry does not cast. |
| Sweeps.FirstAccepted | postgisgeocoder/geocoding.py:164-166 | Some admissible join always exists for a candidate list. |
| Sweeps.GeocodeAssignment | postgisgeocoder/geocoding.py:155-156 | The geocode SET writes exactly `rating`, `norm_address` and `geomout`. |
| Sweeps.Assignment | postgisgeocoder/geocoding.py:94-101 | Each statement writes exactly its SET columns. |
| Sweeps.OverwriteOutside | postgisgeocoder/geocoding.py:94-102 | Writing only SET columns leaves the rest of the row unchanged. |
| Sweeps.SweepRows | postgisgeocoder/geocoding.py:92-112 | A sweep keeps the key set. |
| Sweeps.SubsetOfSize | postgisgeocoder/geocoding.py:107 | The LIMIT can always pick min(b, count) rows. |
| Sweeps.SomeJoins | postgisgeocoder/geocoding.py:164-166 | An admissible join exists for every selected row. |
| Sweeps.SweepMonotone | postgisgeocoder/geocoding.py:104-112 | A row whose sentinel is set is untouched by the sweep. |
| Sweeps.SweepNullAt | postgisgeocoder/geocoding.py:104-112 | After a sweep, the sentinel is NULL iff the sweep wrote NULL to it (selected rows), or it was NULL before (other rows). |
| Sweeps.GeocodeAssignmentRule | postgisgeocoder/geocoding.py:155-166 | The rating is never NULL. With no accepted candidate it is -1, and the address and point are NULL. Otherwise all three come from a candidate rated under the threshold. |
| Sweeps.GeocodeSweepRow | postgisgeocoder/geocoding.py:152-167 | A selected row after a geocode sweep is its old row overwritten by the SET rule for an admissible join. |
| Sweeps.SweepWritesChosen | postgisgeocoder/geocoding.py:92-112 | Each chosen row is written over by the statement's SET values for its admissible join. |
| Sweeps.GeocodeWrittenIsRated | postgisgeocoder/geocoding.py:155-156 | A row the geocoder wrote has a non-NULL rating. |
| Sweeps.RowSweptAgain | postgisgeocoder/geocoding.py:104-112 | A row still to sweep, as it was or already written once, written again is still a single write of the statement's SET values over the original row. |
| Sweeps.GeocodeSweepProgress | postgisgeocoder/geocoding.py:156-162 | A geocode sweep removes exactly the chosen rows from the NULL-rating set, lowering its size by min(b, remaining), and every chosen row is rated. |
| Sweeps.GeocodeSweepRowRated | postgisgeocoder/geocoding.py:156 | A selected row leaves with a rating under the threshold or -1. |
| Sweeps.NormalizeSweepNullAt | postgisgeocoder/geocoding.py:105-111 | After a normalize sweep, a selected row's street name is NULL exactly when `normalize_address` gave none. |
| Sweeps.SweepPreservesWellFormed | postgisgeocoder/geocoding.py:92-112 | A sweep keeps a table well formed when the table has every column the statement names. |
| TableModel.NewTable | postgisgeocoder/geocoding.py:27-29 | A new table is well formed, empty, and has only the key column. |
| TableModel.AddMissingColumns | postgisgeocoder/geocoding.py:40-52 | The old columns stay as a prefix and the names become the union. Names stay distinct, and only columns from the list are appended. |
| TableModel.AddMissingColumnsNoop | postgisgeocoder/geocoding.py:40-52 | When every column already exists by name, nothing is added. |
| TableModel.AddMissingColumnsIdempotent | postgisgeocoder/geocoding.py:40-52 | Adding the same columns twice is adding them once. |
| TableModel.WidenRow | postgisgeocoder/geocoding.py:41-52 | A widened row has exactly the new column set. Every value it held is kept, and every added column is NULL. |
| TableModel.AddColumnsIfNotExists | postgisgeocoder/geocoding.py:40-66 | The table's columns are the added list and its keys are unchanged. Every row carries exactly the data columns, keeps each value it held, and holds NULL in each column it lacked. |
| TableModel.AddColumnsPreservesWellFormed | postgisgeocoder/geocoding.py:40-52 | The ALTER TABLE keeps a table well formed. |
| TableModel.AddColumnsKeepsValues | postgisgeocoder/geocoding.py:40-52 | The ALTER TABLE keeps every value. |
| TableModel.AddColumnsNoop | postgisgeocoder/geocoding.py:63-66 | On a table that has every column already, the ALTER TABLE changes nothing. |
| TableModel.InsertOrIgnore | postgisgeocoder/geocoding.py:117-119 | The keys become the union. Existing rows are untouched, new keys get all-NULL rows, the columns are unchanged, and well-formedness is kept. |
| TableModel.InsertOrIgnoreIdempotent | postgisgeocoder/geocoding.py:117-119 | Inserting the same keys again changes nothing. |
| TableModel.CoerceKey | postgisgeocoder/geocoding.py:28 | A longer string is refused unless its excess is all spaces, in which case it is cut to 100 characters. A kept key is a prefix of the string. |
| TableModel.NullCountAtMostRows | postgisgeocoder/geocoding.py:188-204 | The NULL count is at most the row count. For a data column, it equals the row count iff every row is NULL there, and is 0 iff none is. |
| Utils.Quoted | postgisgeocoder/utils.py:60 | `('addr')`: four characters longer, with the address verbatim inside. |
| Utils.FormatNoAddresses | postgisgeocoder/utils.py:59-61 | No addresses give the empty string. |
| Utils.QuotedLength | postgisgeocoder/utils.py:60 | Wrapping adds four characters per address. |
| Utils.FormatLength | postgisgeocoder/utils.py:59-61 | n addresses give n wrapped addresses and n - 1 separators of two characters. |
| Utils.FormatLayout | postgisgeocoder/utils.py:59-61 | The i-th address, wrapped, sits where the earlier pieces end. `", "` follows it unless it is the last. |
| Utils.FormatKeepsQuotes | postgisgeocoder/utils.py:60 | An embedded single quote is copied verbatim, not escaped. |
| Utils.TopNFragment | postgisgeocoder/utils.py:117-120 | None gives "". `Some(n)` gives `, max_results := ` followed by text that parses back to n. |
| Utils.RestrictGeomFragment | postgisgeocoder/utils.py:121-124 | None gives "". `Some(q)` gives `, restrict_geom := (` + q + `)`, with q verbatim. |
| Utils.GeocodeArgumentsLayout | postgisgeocoder/utils.py:139-141 | The call's arguments are the quoted address, then the `top_n` fragment, then the restrict fragment. |
| Utils.GeocodeArgumentsPlain | postgisgeocoder/utils.py:117-124 | Without options the call is `geocode('addr')`. |
| Utils.TagRawAddress | postgisgeocoder/utils.py:144 | Every returned row gets `raw_address` = the address, and nothing else changes. |
| Utils.GeocodeEach | postgisgeocoder/utils.py:158-169 | On success, one frame per address. |
| Utils.GeocodeEachSucceeds | postgisgeocoder/utils.py:158-169 | The list geocodes iff every address's query succeeds. |
| Utils.GeocodeEachFirstFailure | postgisgeocoder/utils.py:158-169 | A list that fails carries the error of the first address that fails, and every address before it succeeded. |
| Utils.GeocodeEachFailurePersists | postgisgeocoder/utils.py:158-164 | Once a prefix of the list fails, the whole list fails with the same error. |
| Utils.GeocodeEachAt | postgisgeocoder/utils.py:158-169 | When the list geocodes, the i-th frame is `geocode_addr` of the i-th address. |
| Utils.GeocodeEachStep | postgisgeocoder/utils.py:158-169 | Geocoding one more address appends its frame, or stops at its error. |
| Utils.RowsBefore | postgisgeocoder/utils.py:172 | The rows before frame i, plus that frame's rows, fit in the concatenation. |
| Utils.Concat | postgisgeocoder/utils.py:172-173 | No frames raise. Otherwise the rows are those of the frames one after another, and there are as many as the frames hold together. |
| Utils.AllRowsLength | postgisgeocoder/utils.py:172-173 | The concatenation holds the sum of the frames' row counts. |
| Utils.AllRowsAt | postgisgeocoder/utils.py:172-173 | Row j of frame i sits right after the rows of the earlier frames. |
| Utils.ResultsInInputOrder | postgisgeocoder/utils.py:158-173 | When every query succeeds, the j-th result row for the i-th address comes after every earlier address's rows. It carries that address as `raw_address` and is otherwise the query's row. |
| Utils.ProgressReports | postgisgeocoder/utils.py:168-171 | A remaining count is reported iff it was reached and `print_every_n` divides it. |
| Utils.ProgressDecreasing | postgisgeocoder/utils.py:155-171 | The reported counts go strictly down. |
| Utils.ProgressEndsAtZero | postgisgeocoder/utils.py:155-171 | The count ends at 0, so the last report is 0. |
| Utils.SucceedingPrefix | postgisgeocoder/utils.py:158-169 | The number of addresses at the head of the list whose queries succeed: each of them succeeds, and the address right after them, if any, fails. |
| Utils.GeocodeEachStopsAt | postgisgeocoder/utils.py:158-169 | When the addresses before the i-th succeed and the i-th fails, the list fails with the i-th address's error, and the succeeding prefix has length i. |
| Utils.GeocodeInOrder | postgisgeocoder/utils.py:155-174 | For any per-address geocoder: an empty list raises at the concat. A zero `print_every_n` raises ZeroDivision after the first address, unless that address raised first. When an address raises, the first failing address's error is returned, and the reports are `Progress` down to the count left before that address. Otherwise the result is the concatenation of one frame per address in order, and the reports are exactly `Progress`. |
| Utils.GeocodeListOfAddresses | postgisgeocoder/utils.py:148-174 | The same outcomes as GeocodeInOrder, with `geocode_addr` on the connection, `top_n` and `restrict_geom_query` as the per-address geocoder. |
| PyArith.FloorDivBounds | postgisgeocoder/geocoding.py:277 | Python `//`: q·b ≤ a < q·b + b for b > 0, mirrored for b < 0. |
| PyArith.ModBounds | postgisgeocoder/geocoding.py:277 | Python `%`: a = (a // b)·b + r, where r takes the sign of b and is smaller than b in magnitude. |
| Strings.JoinLength | postgisgeocoder/db.py:148 | `sep.join(parts)` is as long as the parts plus one separator between each pair. |
| Strings.JoinPieceAt | postgisgeocoder/db.py:148 | Each part sits verbatim at its offset, followed by the separator unless it is the last. |
| Strings.IntToDecimalRoundTrip | postgisgeocoder/utils.py:120 | The decimal text of an integer parses back to it. |
| Strings.LowerOfUpper | postgisgeocoder/db.py:174 | Lower-casing an upper-cased string equals lower-casing it. |

## Left out

- WellFormed (key first, distinct names, rows carrying exactly the data columns) is not an invariant of `Engine`. It is proved to be preserved by each table operation (`AddColumnsPreservesWellFormed`, `InsertOrIgnore`, `SweepPreservesWellFormed`) rather than carried by `Valid()`.
- IngestKeys: a missing table is an error here. pandas `to_sql(if_exists="append")` would instead create a key-less table. The pipeline always runs setup first, so this case never arises there.
- IngestKeys: pandas dtype conversion errors, and values other than text, integers, booleans and NULL (floats, dates), are not modelled. A geometry value is refused as an unsupported key.
- ReadGeocoded: `ST_Transform`, `ST_X`/`ST_Y`, the SRID lookup `get_srid_of_column` and the float coordinates are abstracted by the parameter `project`. `get_srid_of_column` and `decode_geom_valued_column_to_geometry_type` are not part of this model; their result is taken to be the point as stored.
- MergeReport: a caller's own `geometry` column makes the `GeoDataFrame` constructor fail; this is modelled as the abstract error `NoGeometryColumn`. Other constructor failures are not modelled.
- LeftMerge: only a text key equal to a stored key matches. A boolean key column is coerced to object by pandas and matches nothing. The merged frame's index is not modelled.
- LeftMerge: a caller's column `g_geocoder` beside `g` (g one of `longitude`, `latitude`, `geometry`) gives pandas two columns labelled `g_geocoder`. The model keeps both names in the column list, but its row is a map and holds only the geocoded cell under that name. LeftMerge's ensures then say nothing about that caller's column's cells.
- MergeReport: the refusal of colliding suffixes follows pandas 2.x, which raises MergeError. Earlier pandas versions keep both columns under one label, and that behaviour is not modelled.
- MergeReport: pandas refuses to merge a numeric key column onto the text keys read back (raising ValueError). The model raises this only for a column holding integers alone. Columns that pandas also types as numeric are merged as if they were object columns: integers mixed with NULLs (float64) and floats. With these, no key matches.
- RunBatch: the TIGER functions themselves never raise. The only statement failures modelled are missing tables or columns, a negative LIMIT, and the standardized geocoder's house-number cast.
- CastToInteger: it reads a decimal integer with an optional minus sign. Postgres `int4in` also accepts leading and trailing spaces and a `+` sign; newer versions also accept underscores and hexadecimal, octal and binary forms. Those are not modelled.
- BatchesLeft: numpy's RuntimeWarning for a division by zero is not modelled.
- GeocodeListOfAddresses: whether a query raises is left to `run`. This includes the syntax error caused by an address with a single quote.
- Error kinds are abstract (`DbError`); exception classes and messages are not modelled.
- Printing is not modelled: the schema-creation messages, the `tqdm` bar, the `verbose` output and the percentage (a float). The progress lines of `geocode_list_of_addresses` are returned as the sequence of counts instead.
- GeocodeAddresses: `df["full_address"] = ...` mutates the caller's frame in place. The model returns the extended frame instead, and does not capture the caller's view of the aliasing.
- GeocodeListOfAddresses: the `addr_similarity_ratio` column is left out, because `similar` is undefined. For the same reason so is the `x.upper()` it would apply to a NULL `geocoded_address`.
- Concat: `pd.concat` of frames with differing columns, and `reset_index`, are not modelled; all frames here share their columns.
- FormatAddresses takes the column's values as strings. The frame lookup `df[addr_col]`, and `str()` of a non-string value, are not modelled.
- Normalization convergence: the normalize driver is not guaranteed to reach every row. No convergence theorem is claimed for it; `NormalizeCanStarve` exhibits the run where it does not.
- Not part of this model:
  - connection and credential handling (`get_db_connection_*`, engine construction, autocommit);
  - the `execute_*` helpers, beyond the effect of the statements they run;
  - `func_timer`, which does wall-clock timing;
  - the settings readers;
  - `get_standardized_address_df`, `get_data_schema_names` and `get_data_table_names_in_schema`;
  - `reverse_geocode_lat_long_pair`;
  - the internals of the TIGER functions, which stay uninterpreted.
- `pprint_addy` is taken to return NULL for a NULL argument, so it is applied only to an accepted candidate's address.

## Findings

| source | as written | input that shows it | evidently intended | confidence | as-written member | corrected member |
|---|---|---|---|---|---|---|
| postgisgeocoder/geocoding.py:404 | `ingest_normalize_and_geocode_addresses` accepts `rating_threshold` but does not pass it on (417-419). `geocode_all_addresses_in_normalized_address_table` (359-372) calls `batch_geocode_address_table` without it, so the default 22 (line 149) always applies. | `rating_threshold=50` with an address whose only `geocode` candidate is rated 30: the stored rating is -1, not 30 | the geocode phase runs with the caller's `rating_threshold` | not executed | Geocoding.AsWrittenIgnoresThreshold | Geocoding.IngestNormalizeAndGeocodeForwarding |
