# Crime CSV API — a Dafny model

This project models the query engine of the "Crime CSV API", a small FastAPI service. The service loads one crime CSV file into a pandas DataFrame and serves it over HTTP. The model covers:

- role inference: `_auto_map_columns` with its helper `pick` guesses which raw columns hold the latitude, longitude, date, category, description, id, city and state of an incident;
- the loader `_load_df` and its memo `get_df`: they normalise every row into the derived columns `_dt`, `_cat`, `_desc`, `_lat`, `_lng`, `_id`, `_city`, `_state` and keep the result in module globals;
- the handlers of `/columns`, `/incidents` (filters, date sort, pagination), `/stats` (counts per category, city, state, day, month or year), `/geojson` and `/heatmap` (a count grid over the coordinate bounding box);
- `_maybe_parse_date`, the per-value date fallback.

Layout, one module per file:

- `Common`: optional values, the request errors (404 for a missing file, 500 for an uncaught exception, 400 for the others), ASCII lower-casing, substring search, `str(n)`, and boolean-mask selection (`df[mask]` with a mask of boolean dtype; the handlers model the one case where their mask is not boolean).
- `Sorting`: the sorts the engine asks pandas for, as an insertion sort under a caller-supplied order.
- `Grouping`: counting keys the way a Python dict or `value_counts` does.
- `Schema`: role inference.
- `Records`: the raw table, the normalised records and the loader's conversions.
- `Incidents`, `Stats`, `Geo`: the query handlers as specification functions. The step-by-step mask updates of `/incidents` and the loops of `/incidents`, `/geojson` and `/heatmap` are methods proved equal to those functions (`Incidents.ListIncidents`, `Geo.GeoJson`, `Geo.BuildHeatmap`). `/stats` is modelled by functions alone: its two date-bound mask steps are `Stats.DateMask`, and its groupings are pandas expressions without a loop.
- `Service`: the module globals `_df` and `schema` as the fields of a class. Its methods are the loader, the memo and the five handlers.

pandas and `datetime` conversions are opaque total functions, passed in as the fields of `Records.Coercions` and as `Incidents.DateParser`. `astype(str)` never fails and yields a string for every value. For the others, failure is `None`:
- `to_numeric(errors="coerce")` and `to_datetime`;
- whether the bulk conversion of the date column raises;
- the nine `strptime` formats.

Every property below holds for any behaviour of those functions. Coordinates are exact reals.

Some behaviours of the code are easy to misread; the model keeps them as written:

- `/geojson` (main.py:308-309) rejects the store only when every latitude or every longitude is missing, as its message "CSV has no latitude/longitude columns" says. It does not reject a store that merely has no record with both. `Geo.GeoJsonWithoutLocatedRecords` shows such a store answering an empty feature list.
- The candidate lists of the eight roles (main.py:70-77) share no name. So two roles can never be mapped to the same column (`Schema.CandidatesDisjoint`, `Schema.MappedColumnsDistinct`).
- `/heatmap` drops missing latitudes and longitudes independently and then zips the two lists (main.py:339-356), so pairs can mix coordinates of different records. The degenerate response counts every present latitude (main.py:349). Both are kept as written (`Geo.MisalignedPairs`, `Geo.DegenerateCountsLatitudes`). The empty-grid response of main.py:341-342 cannot be produced once the missing-coordinate check has passed (`Geo.CoordinatesPresent`). `Geo.BuildHeatmap` keeps that branch anyway.

## Model

| member | source | states |
|---|---|---|
| Common.NatToStringInjective | main.py:136-137 | different row positions have different decimal spellings, so positional ids never collide |
| Common.SelectSpec | main.py:219 | `df[mask]` keeps exactly the elements at marked positions, and as many as the mask marks |
| Common.SelectAppend | main.py:219 | masking a concatenation concatenates the maskings, so selection keeps row order |
| Common.SelectPartition | main.py:223-225 | the rows a mask keeps and the rows its complement keeps together are the whole input, as a multiset |
| Sorting.SortPermutes | main.py:223-225 | sorting only reorders: same multiset, same length |
| Sorting.SortSorted | main.py:223-225 | under a total preorder the sorted result is ordered |
| Sorting.InsertSorted | main.py:223-225 | inserting into an ordered sequence keeps it ordered |
| Grouping.AddOneKeys | main.py:360 | `grid[key] = grid.get(key, 0) + 1` keeps keys distinct and adds `key` to the key set |
| Grouping.AddOneCounts | main.py:360 | the same update raises exactly `key`'s count by one and the total by one, and keeps counts positive |
| Grouping.TallySpec | main.py:355-360 | counting a key sequence gives distinct keys, exactly the keys that occur, each with its number of occurrences, totalling the length |
| Grouping.TallyEntries | main.py:355-360 | every entry of a tally carries its key's occurrence count, which is positive |
| Grouping.SortTable | main.py:275 | reordering a count table keeps its keys distinct, its key set and its total |
| Grouping.SortedTally | main.py:275 | a sorted tally still has one positive entry per distinct key with that key's count, totalling the input length |
| Schema.LowerIndexSpec | main.py:61 | `{c.lower(): c}` holds exactly the lower-cased column names, each mapped to the last column spelling it |
| Schema.Pick | main.py:64-68 | `pick` is None exactly when no candidate is a key; otherwise it is the column of the first candidate that is a key |
| Schema.PickSpec | main.py:61-68 | over a column list, `pick` is None exactly when no column spells a candidate; otherwise it is the last column spelling the earliest spelled candidate |
| Schema.AutoMapSpec | main.py:60-88 | each role is unmapped exactly when no column spells any of its candidates; otherwise it maps to the last column spelling its earliest spelled candidate |
| Schema.MappedColumnExists | main.py:60-88 | a mapped role names an existing column whose lower-cased name is one of the role's candidates |
| Schema.CandidatesDisjoint | main.py:70-77 | no candidate name is listed under two roles |
| Schema.MappedColumnsDistinct | main.py:60-88 | two different roles are never mapped to the same column |
| Schema.ColumnOrderIrrelevant | main.py:60-88 | when no two columns differ only in case, the mapping does not depend on the column order |
| Records.MaybeParseDate | main.py:36-58 | the first of the formats that parses the value decides; when none parses, the fallback conversion does |
| Records.MappedColumnUsable | main.py:112-141 | a mapped role's column has a non-empty name and exists, so the loader's truthiness and membership guards pass |
| Records.InferredUsable | main.py:95-141 | the inferred mapping passes the loader's guards for every mapped role |
| Records.NormalizeMapped | main.py:111-141 | under a mapping that passes the guards, each mapped field of row `i` is the i-th value of the mapped column's conversion (text conversion sees the whole column, as `astype(str)` depends on its dtype) |
| Records.MappedFields | main.py:90-141 | the store has one record per row; each field whose role is mapped is converted from the mapped column of that row |
| Records.NormalizeUnmapped | main.py:102-141 | an unmapped role's field takes the loader's default: "" for text, missing for coordinates and timestamp, the row position for the id |
| Records.UnmappedDefaults | main.py:90-141 | a role no column spells gets that default in every record |
| Records.UnmappedRole | main.py:60-88 | a role no column spells is unmapped |
| Records.PositionalIdsDistinct | main.py:134-137 | without an id column, any two records have different ids |
| Records.NormalizeDate | main.py:102-109 | under a mapping that passes the guards, row `i`'s timestamp is missing unless the date column is mapped and holds a value; then it is the bulk conversion's i-th value, or `_maybe_parse_date` of the row's value when the bulk conversion raises |
| Records.DateField | main.py:90-109 | the same three cases for the `_dt` column of the loaded store, linking `_maybe_parse_date` to the store |
| Records.TimestampNeedsDateColumn | main.py:103-109 | a record has a timestamp only if the date role is mapped and its column holds a value |
| Incidents.FilterExact | main.py:184-219 | a record is kept exactly when it is a store record passing every supplied filter; as many are kept as the mask marks |
| Incidents.DateOrderTotal | main.py:223-225 | both timestamp orders are total and transitive |
| Incidents.SortByDateSpec | main.py:223-225 | the date sort only reorders; dated records come first in timestamp order, then the undated ones in their original order |
| Incidents.SortRowsSpec | main.py:221-225 | "date" sorts oldest first, "-date" newest first, missing timestamps last in row order; any other value keeps the filtered order; always a permutation |
| Incidents.SortRowsPermutes | main.py:221-225 | the sort step keeps the multiset and the length of the listing |
| Incidents.SliceSpec | main.py:228 | `s[lo:hi]` clamps to the end: a page from `offset` holds the remaining records, at most `limit`, each at its offset, all from the listing |
| Incidents.ListedSpec | main.py:219-227 | the sorted listing has as many records as the mask marks, each a store record passing the filters |
| Incidents.IncidentsSpec | main.py:184-244 | an unconvertible start date is reported first, then an unconvertible end date; then a 500 exactly when the store has no rows, no filter is supplied and the sort is by date (the all-`True` mask of an empty store is not boolean, so `df[filt]` keeps no column and sorting by `_dt` raises KeyError); otherwise the answer's total is the number of records passing every supplied filter, limit and offset are echoed, and the page holds the remaining matches from `offset`, at most `limit`, each a store record passing every filter |
| Incidents.DefaultListing | main.py:163-184 | a request without parameters answers 500 for a store without rows; otherwise it counts every record and lists the first 100 of them sorted newest first, those without a timestamp last |
| Incidents.PageSpec | main.py:219-244 | total is the number of matches whatever the page; limit and offset are echoed; the items are the sorted matches from `offset`, at most `limit` of them |
| Incidents.NarrowByText | main.py:184-197 | the text, category, city and state steps of the mask leave exactly the rows passing every supplied one of those filters |
| Incidents.NarrowByBox | main.py:213-217 | the four bounding-box steps leave exactly the rows inside every supplied bound |
| Incidents.SortStep | main.py:221-225 | the sort branch gives the listing order of `SortRows` |
| Incidents.PayloadItems | main.py:230-242 | the payload loop yields one item per page record, in page order |
| Incidents.Paginate | main.py:219-244 | selection, sort, total and slice of a built mask give the page of the listing |
| Incidents.ListIncidents | main.py:163-244 | the handler's mask updates, tracking whether the mask has become boolean, early 400 returns, the KeyError of sorting a column-less frame, sort and paging answer exactly `Incidents` |
| Stats.ParseBy | main.py:274-297 | a grouping is recognised exactly for category, day, month, year, city and state |
| Stats.StatsSpec | main.py:246-299 | errors come in order: start date, end date, then an unknown `by`, reported exactly when the value is not recognised; then a 500 exactly when the store has no rows and no date bound is supplied (`groupby` or `res["_dt"]` on a column-less frame raises KeyError); otherwise a text grouping has one key per value among the records inside both bounds and counts totalling those records, and a calendar grouping has one key per bucket of the dated records among them and counts totalling the dated ones |
| Stats.CountsInside | main.py:257-295 | grouping the records inside both bounds gives one key per value (text) or per bucket of the dated ones (calendar), with counts totalling those records |
| Stats.DefaultStats | main.py:246-257 | a request without parameters answers 500 for a store without rows; otherwise it counts every record per category: one key per category value, counts totalling the record count |
| Stats.DatedBucketsCount | main.py:280-289 | `dropna` keeps one bucket per record with a timestamp |
| Stats.DateFilterExact | main.py:257-272 | the counted records are exactly the store records inside both date bounds |
| Stats.CountOrderTotal | main.py:275 | "largest count first" is a total preorder |
| Stats.KeyOrderTotal | main.py:282-289 | calendar order of buckets is a total preorder |
| Stats.TextStatsSpec | main.py:274-295 | per category, city or state: distinct keys, exactly the values that occur, each with its record count, largest first, totalling the record count |
| Stats.DatedBucketsSpec | main.py:278-289 | the bucket list holds exactly the buckets of the dated records, and is empty exactly when no record is dated |
| Stats.TimeGroupedSorted | main.py:278-289 | the all-missing shortcut agrees with counting no buckets; the result is empty exactly when there are no dated buckets |
| Stats.DatedKeys | main.py:280-289 | the distinct buckets are exactly the buckets of the dated records |
| Stats.Chronological | main.py:282-289 | sorted calendar counts are strictly oldest first |
| Stats.TimeStatsSpec | main.py:277-289 | per day, month or year: empty exactly when nothing is dated; otherwise one entry per occupied bucket with its count, strictly oldest first, totalling the dated records |
| Geo.FeaturesSpec | main.py:311-326 | one feature per record with both coordinates, in row order, at `[lng, lat]` with that record's properties |
| Geo.LocatedSelected | main.py:313-314 | every record that reaches the feature list has both coordinates |
| Geo.GeoJson | main.py:301-327 | the row loop, skipping rows missing a coordinate, answers exactly `GeoJsonOf` |
| Geo.GeoJsonWithoutLocatedRecords | main.py:308-327 | a store where each record lacks a different coordinate answers an empty feature list, not an error |
| Geo.MinOf | main.py:344-345 | `min()` is an element of the list and below every element |
| Geo.MaxOf | main.py:344-345 | `max()` is an element of the list and above every element |
| Geo.PresentSpec | main.py:339-340 | `dropna()` keeps exactly the values the column holds, in order: its k-th value is that of the k-th entry holding one |
| Geo.PresentKeeps | main.py:339-340 | every value a column holds survives `dropna()` |
| Geo.CoordinatesPresent | main.py:336-342 | once the missing-coordinate check passes, both coordinate lists are non-empty |
| Geo.CellIndexSpec | main.py:352-358 | a value within the bounds lands in a bin in [0, bins) whose interval contains it; the maximum lands in the last bin |
| Geo.CentreInside | main.py:364-365 | every bin centre lies strictly inside the bounds |
| Geo.CountSumCells | main.py:362-366 | turning the grid into cells keeps the sum of counts |
| Geo.PairKeysInRange | main.py:356-359 | every zipped pair's bin key lies inside the grid |
| Geo.CellsInside | main.py:362-366 | cells built from in-range bins lie strictly inside the bounds |
| Geo.GridSpec | main.py:352-366 | the cells' counts add up to the number of zipped pairs, each is positive, and each centre is strictly inside the bounds |
| Geo.HeatmapGridSpec | main.py:344-368 | the reported bounds are the coordinate extremes with a spread; the grid counts add up to the shorter list's length |
| Geo.HeatmapCellCounts | main.py:355-366 | one cell per distinct bin, each counting the pairs in that bin |
| Geo.AlignedPairs | main.py:339-356 | when every record has both coordinates or neither, both lists have one value per located record and the k-th zipped pair is the k-th located record's (lat, lng) |
| Geo.MisalignedPairs | main.py:339-356 | independent `dropna` can zip the latitude of one record with the longitude of another |
| Geo.DegenerateCountsLatitudes | main.py:347-349 | the degenerate cell counts every present latitude, which can exceed the records with both coordinates |
| Geo.FillGrid | main.py:355-360 | the grid loop builds exactly the count table of the zipped pairs' bin keys |
| Geo.ReadGrid | main.py:362-366 | the result loop places each grid entry at its bin centre, in grid order |
| Geo.BuildHeatmap | main.py:329-368 | the handler answers exactly `HeatmapOf`: 400 without coordinates, one cell without spread, else the binned grid |
| Service.AddColumns | main.py:105-141 | assigning derived columns keeps the existing ones in front and adds exactly the assigned names |
| Service.AddColumnsDistinct | main.py:105-141 | assigning columns never duplicates a name and adds at most one column per assignment |
| Service.CrimeApi.constructor | main.py:24-34 | at import nothing is loaded and every role is unmapped |
| Service.CrimeApi.LoadDf | main.py:90-143 | a missing file fails with 404 and leaves both globals alone; otherwise the inferred mapping and the store are set |
| Service.CrimeApi.GetDf | main.py:145-149 | the first successful load is memoised and answered from then on; a failed load memoises nothing and leaves the mapping alone |
| Service.CrimeApi.GetColumns | main.py:155-161 | 404 without a store; otherwise the DataFrame's columns, the mapping and the row count; the store and mapping are those of the load `get_df` performs, or unchanged when one was memoised or the load failed |
| Service.CrimeApi.GetIncidents | main.py:163-182 | 404 without a store; otherwise the `/incidents` answer over the current store; the store and mapping are those of the load `get_df` performs, or unchanged when one was memoised or the load failed |
| Service.CrimeApi.GetStats | main.py:246-255 | 404 without a store; otherwise the `/stats` answer over the current store; the store and mapping are those of the load `get_df` performs, or unchanged when one was memoised or the load failed |
| Service.CrimeApi.GetGeoJson | main.py:301-306 | 404 without a store; otherwise the `/geojson` answer over the current store; the store and mapping are those of the load `get_df` performs, or unchanged when one was memoised or the load failed |
| Service.CrimeApi.GetHeatmap | main.py:329-334 | 404 without a store; otherwise the `/heatmap` answer over the current store; the store and mapping are those of the load `get_df` performs, or unchanged when one was memoised or the load failed |
| Service.HandlerMemoises | main.py:145-161 | a handler's request loads the store, and a later request answers from that load even when the file has changed |
| Service.RetryAfterMissingFile | main.py:145-149 | a request while the file is missing fails, the next loads the file, and later ones keep that first load |

## Left out

- HTTP itself: routing, status codes (the `Error` kinds stand for them), JSON encoding, CORS and the `/health` endpoint.
- The `CRIME_CSV` environment variable, the file system and `pd.read_csv`. The file is a parameter, `None` when it does not exist. Errors of `read_csv` itself are not modelled.
- pandas and `datetime` conversions: `astype(str)`, `to_numeric`, `to_datetime`, `strptime`. They are uninterpreted functions; timestamps are naive. A date bound that cannot be compared with `_dt` is folded into `Incidents.DateParser` failing.
- Incidents.SortRows: a `_dt` column mixing naive timestamps (from `strptime`) with time-zone-aware ones (from the fallback at main.py:56, reached through main.py:107) makes `sort_values` at main.py:223 and 225 raise, an HTTP 500; the model sorts every timestamp.
- Stats.Grouped: for the same mixed `_dt` column, the `.dt` accessor at main.py:282-288 raises, an HTTP 500; the model buckets every timestamp.
- IEEE floating point: coordinates, steps and centres are exact reals. NaN only appears as a missing value.
- Unicode: lower-casing folds ASCII letters only.
- Incidents.TextHit: `q` is matched as a literal substring. pandas' `str.contains` reads it as a regular expression, so the model misses regex matches, and it answers where the source fails: a `q` that is not a valid pattern, such as `(`, raises `re.error` at main.py:188 before any row is read. That is an HTTP 500, even on an empty store, which `Incidents.Incidents` does not produce.
- Incidents.SortRowsSpec: the order among records with equal timestamps is not stated, because pandas' default sort is not stable.
- Stats.TextStatsSpec: the order among groups with equal counts is not stated, for the same reason.
- The response projections are not modelled: `isoformat`, `float(...)`, `str(k)` of the stats keys (buckets stand for them) and the `"type": "Feature"` wrapping. Records and features carry the values those projections format.
- Service.CrimeApi.Valid: the invariant ties the `schema` global to the memoised store's mapping. It does not restate that the store was built from the file. `LoadDf` and `GetDf` state that in their postconditions instead.
- Concurrency: requests are modelled one at a time.
