/** The service's module state and request handlers: the memoised
    DataFrame (`_df`) and the role mapping (`schema`) as fields of one
    object, the loader that fills them, and the handlers of `/columns`,
    `/incidents`, `/stats`, `/geojson` and `/heatmap`, each answering 404
    while the CSV file is missing. */
module Service {
  import opened Common
  import opened Schema
  import opened Records
  import Incidents
  import Stats
  import Geo

  /** The derived columns the loader adds, in the order it adds them. */
  const DerivedColumns: seq<string> := ["_dt", "_cat", "_desc", "_lat", "_lng", "_id", "_city", "_state"]

  /** The columns after assigning each of `names` in turn: an assignment to
      an existing column replaces it in place, a new one is appended. */
  function AddColumns(cols: seq<string>, names: seq<string>): (r: seq<string>)
    decreases names
    ensures |cols| <= |r| && r[..|cols|] == cols
    ensures forall c :: c in r <==> c in cols || c in names
  {
    if names == [] then cols
    else
      var next := if names[0] in cols then cols else cols + [names[0]];
      var r := AddColumns(next, names[1..]);
      assert r[..|cols|] == next[..|next|][..|cols|];
      r
  }

  /** `list(df.columns)` of the loaded DataFrame. */
  function StoreColumns(s: Store): seq<string> {
    AddColumns(s.raw.columns, DerivedColumns)
  }

  /** The `/columns` response body. */
  datatype ColumnsInfo = ColumnsInfo(columns: seq<string>, mapped: RoleMapping, rowCount: nat)

  /** The store `get_df` answers with: the memoised one, else a fresh load
      of the file, else the missing-file error. */
  function Current(df: Option<Store>, file: Option<Table>, co: Coercions): Result<Store> {
    if df.Some? then Ok(df.value)
    else if file.Some? then Ok(Build(file.value, co))
    else Err(NotFound)
  }

  /** The module-level state of the service. The file at `CSV_PATH` is
      passed to each call as it is at that moment: None when it does not
      exist. */
  class CrimeApi {
    const co: Coercions
    var df: Option<Store>
    var schema: RoleMapping

    /** Once a store is memoised, the schema global is its role mapping. */
    ghost predicate Valid()
      reads this
    {
      df.Some? ==> schema == df.value.schema
    }

    /** The state at import: nothing loaded, every role unmapped. */
    constructor(co: Coercions)
      ensures Valid()
      ensures this.co == co && df == None && schema == Unmapped
    {
      this.co := co;
      df := None;
      schema := Unmapped;
    }

    /** `_load_df`: a missing file raises before any global is touched;
        otherwise the mapping is inferred and the normalised store memoised. */
    method LoadDf(file: Option<Table>) returns (r: Result<Store>)
      requires Valid()
      modifies this
      ensures Valid()
      ensures r == Current(None, file, co)
      ensures r.Err? ==> df == old(df) && schema == old(schema)
      ensures r.Ok? ==> df == Some(r.value) && schema == r.value.schema
    {
      if file.None? {
        return Err(NotFound);
      }
      var store := Build(file.value, co);
      schema := store.schema;
      df := Some(store);
      r := Ok(store);
    }

    /** `get_df`: loads on first use and answers from memory afterwards; a
        failed load leaves nothing memoised, so the next call retries. */
    method GetDf(file: Option<Table>) returns (r: Result<Store>)
      requires Valid()
      modifies this
      ensures Valid()
      ensures r == Current(old(df), file, co)
      ensures df == (if r.Ok? then Some(r.value) else old(df))
      ensures old(df).Some? || r.Err? ==> schema == old(schema)
    {
      if df.None? {
        r := LoadDf(file);
      } else {
        r := Ok(df.value);
      }
    }

    /** `/columns`: the DataFrame's columns, the mapping and the row count. */
    method GetColumns(file: Option<Table>) returns (r: Result<ColumnsInfo>)
      requires Valid()
      modifies this
      ensures Valid()
      ensures var s := Current(old(df), file, co);
        && df == (if s.Ok? then Some(s.value) else old(df))
        && (old(df).Some? || s.Err? ==> schema == old(schema))
      ensures var s := Current(old(df), file, co);
        r == if s.Err? then Err(NotFound)
             else Ok(ColumnsInfo(StoreColumns(s.value), s.value.schema, |s.value.raw.rows|))
    {
      var s := GetDf(file);
      if s.Err? {
        return Err(NotFound);
      }
      r := Ok(ColumnsInfo(StoreColumns(s.value), schema, |s.value.raw.rows|));
    }

    /** `/incidents` over the current store. */
    method GetIncidents(file: Option<Table>, q: Incidents.Query, parse: Incidents.DateParser) returns (r: Result<Incidents.Page>)
      requires Valid()
      requires 1 <= q.limit <= 1000 && 0 <= q.offset
      modifies this
      ensures Valid()
      ensures var s := Current(old(df), file, co);
        && df == (if s.Ok? then Some(s.value) else old(df))
        && (old(df).Some? || s.Err? ==> schema == old(schema))
      ensures var s := Current(old(df), file, co);
        r == if s.Err? then Err(NotFound) else Incidents.Incidents(s.value.records, q, parse)
    {
      var s := GetDf(file);
      if s.Err? {
        return Err(NotFound);
      }
      r := Incidents.ListIncidents(s.value.records, q, parse);
    }

    /** `/stats` over the current store. */
    method GetStats(file: Option<Table>, groupBy: string, startDate: Option<string>, endDate: Option<string>, parse: Incidents.DateParser)
      returns (r: Result<Stats.Counts>)
      requires Valid()
      modifies this
      ensures Valid()
      ensures var s := Current(old(df), file, co);
        && df == (if s.Ok? then Some(s.value) else old(df))
        && (old(df).Some? || s.Err? ==> schema == old(schema))
      ensures var s := Current(old(df), file, co);
        r == if s.Err? then Err(NotFound) else Stats.StatsOf(s.value.records, groupBy, startDate, endDate, parse)
    {
      var s := GetDf(file);
      if s.Err? {
        return Err(NotFound);
      }
      r := Stats.StatsOf(s.value.records, groupBy, startDate, endDate, parse);
    }

    /** `/geojson` over the current store. */
    method GetGeoJson(file: Option<Table>) returns (r: Result<seq<Geo.Feature>>)
      requires Valid()
      modifies this
      ensures Valid()
      ensures var s := Current(old(df), file, co);
        && df == (if s.Ok? then Some(s.value) else old(df))
        && (old(df).Some? || s.Err? ==> schema == old(schema))
      ensures var s := Current(old(df), file, co);
        r == if s.Err? then Err(NotFound) else Geo.GeoJsonOf(s.value.records)
    {
      var s := GetDf(file);
      if s.Err? {
        return Err(NotFound);
      }
      r := Geo.GeoJson(s.value.records);
    }

    /** `/heatmap` over the current store, for `bins` in [5, 400]. */
    method GetHeatmap(file: Option<Table>, bins: int) returns (r: Result<Geo.Heatmap>)
      requires Valid()
      requires 5 <= bins <= 400
      modifies this
      ensures Valid()
      ensures var s := Current(old(df), file, co);
        && df == (if s.Ok? then Some(s.value) else old(df))
        && (old(df).Some? || s.Err? ==> schema == old(schema))
      ensures var s := Current(old(df), file, co);
        r == if s.Err? then Err(NotFound) else Geo.HeatmapOf(s.value.records, bins)
    {
      var s := GetDf(file);
      if s.Err? {
        return Err(NotFound);
      }
      r := Geo.BuildHeatmap(s.value.records, bins);
    }
  }

  /** A request while the file is missing answers 404 and memoises nothing;
      once the file appears it is loaded, and later requests keep answering
      from that first load even when the file has changed since. */
  method RetryAfterMissingFile(co: Coercions, first: Table, later: Table)
    returns (r1: Result<Store>, r2: Result<Store>, r3: Result<Store>)
    ensures r1 == Err(NotFound)
    ensures r2 == Ok(Build(first, co))
    ensures r3 == r2
  {
    var api := new CrimeApi(co);
    r1 := api.GetDf(None);
    r2 := api.GetDf(Some(first));
    r3 := api.GetDf(Some(later));
  }

  /** A handler's request loads the store like `get_df` does: after a
      `/geojson` request, a `/columns` request answers from that load even
      when the file has changed since. */
  method HandlerMemoises(co: Coercions, first: Table, later: Table) returns (r: Result<ColumnsInfo>)
    ensures var s := Build(first, co);
      r == Ok(ColumnsInfo(StoreColumns(s), s.schema, |first.rows|))
  {
    var api := new CrimeApi(co);
    var g := api.GetGeoJson(Some(first));
    assert api.df == Some(Build(first, co));
    r := api.GetColumns(Some(later));
  }

  ghost predicate Distinct(cols: seq<string>) {
    forall i, j :: 0 <= i < j < |cols| ==> cols[i] != cols[j]
  }

  /** Assigning columns never duplicates a name and adds at most one column
      per assignment. */
  lemma {:induction false} AddColumnsDistinct(cols: seq<string>, names: seq<string>)
    requires Distinct(cols)
    ensures Distinct(AddColumns(cols, names))
    ensures |AddColumns(cols, names)| <= |cols| + |names|
    decreases names
  {
    if names != [] {
      var next := if names[0] in cols then cols else cols + [names[0]];
      assert Distinct(next);
      AddColumnsDistinct(next, names[1..]);
    }
  }
}
