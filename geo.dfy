/** The two map views: the GeoJSON feature list of the located records and
    the count grid of `/heatmap`. Coordinates are exact reals. */
module Geo {
  import opened Common
  import opened Records
  import Grouping

  /** Either coordinate column is missing everywhere (`isna().all()`); this
      also holds for a store without rows. */
  predicate NoGeo(recs: seq<Record>) {
    || (forall i | 0 <= i < |recs| :: recs[i].lat.None?)
    || (forall i | 0 <= i < |recs| :: recs[i].lng.None?)
  }

  predicate Located(r: Record) {
    r.lat.Some? && r.lng.Some?
  }

  function LocatedMask(recs: seq<Record>): seq<bool> {
    seq(|recs|, i requires 0 <= i < |recs| => Located(recs[i]))
  }

  // ---------------------------------------------------------------- GeoJSON

  /** A GeoJSON point feature: `[lng, lat]` and the record's properties. */
  datatype Feature = Feature(
    lng: real,
    lat: real,
    id: string,
    date: Option<Instant>,
    category: string,
    description: string,
    city: string,
    state: string)

  function FeatureOf(r: Record): Feature
    requires Located(r)
  {
    Feature(r.lng.value, r.lat.value, r.id, r.dt, r.cat, r.desc, r.city, r.state)
  }

  /** The features of the records with both coordinates, in row order. */
  function Features(recs: seq<Record>): seq<Feature> {
    if recs == [] then []
    else
      var last := recs[|recs| - 1];
      Features(recs[..|recs| - 1]) + (if Located(last) then [FeatureOf(last)] else [])
  }

  /** The `/geojson` response's feature list. */
  function GeoJsonOf(recs: seq<Record>): Result<seq<Feature>> {
    if NoGeo(recs) then Err(NoGeoData) else Ok(Features(recs))
  }

  /** `geojson`: rejects a store without coordinates, then walks the rows and
      skips every row missing either coordinate. */
  method GeoJson(recs: seq<Record>) returns (r: Result<seq<Feature>>)
    ensures r == GeoJsonOf(recs)
  {
    if (forall i | 0 <= i < |recs| :: recs[i].lat.None?) || (forall i | 0 <= i < |recs| :: recs[i].lng.None?) {
      return Err(NoGeoData);
    }
    var features: seq<Feature> := [];
    for i := 0 to |recs|
      invariant features == Features(recs[..i])
    {
      assert recs[..i + 1][..i] == recs[..i];
      if recs[i].lat.None? || recs[i].lng.None? {
        continue;
      }
      features := features + [FeatureOf(recs[i])];
    }
    assert recs[..|recs|] == recs;
    r := Ok(features);
  }

  /** There is one feature per record with both coordinates, in row order,
      placed at `[lng, lat]` and carrying that record's properties. */
  lemma {:induction false} FeaturesSpec(recs: seq<Record>)
    ensures |Features(recs)| == |Select(recs, LocatedMask(recs))|
    ensures var located := Select(recs, LocatedMask(recs));
      forall k :: 0 <= k < |located| ==> Located(located[k]) && Features(recs)[k] == FeatureOf(located[k])
  {
    LocatedSelected(recs);
    if recs != [] {
      var n := |recs| - 1;
      var init, last := recs[..n], recs[n];
      FeaturesSpec(init);
      assert recs == init + [last];
      assert LocatedMask(recs) == LocatedMask(init) + [Located(last)];
      SelectAppend(init, LocatedMask(init), [last], [Located(last)]);
      assert Select([last], [Located(last)]) == if Located(last) then [last] else [];
    }
  }

  lemma LocatedSelected(recs: seq<Record>)
    ensures forall x :: x in Select(recs, LocatedMask(recs)) ==> Located(x)
  {
    SelectSpec(recs, LocatedMask(recs));
  }

  /** The code rejects the store only when a whole coordinate column is
      missing: records that each lack one coordinate, but not the same one,
      yield an empty feature collection rather than an error. */
  lemma GeoJsonWithoutLocatedRecords()
    ensures var recs := [
        Record("0", None, "", "", Some(1.0), None, "", ""),
        Record("1", None, "", "", None, Some(2.0), "", "")];
      GeoJsonOf(recs) == Ok([])
  {
    var recs := [
        Record("0", None, "", "", Some(1.0), None, "", ""),
        Record("1", None, "", "", None, Some(2.0), "", "")];
    assert recs[..1] == [recs[0]] && recs[..1][..0] == [];
    assert Features(recs[..1]) == [];
    assert Features(recs) == [];
    assert !NoGeo(recs) by {
      assert recs[0].lat.Some? && recs[1].lng.Some?;
    }
  }

  // ---------------------------------------------------------------- heatmap

  /** `series.dropna()` */
  function Present(xs: seq<Option<real>>): seq<real> {
    if xs == [] then []
    else
      var last := xs[|xs| - 1];
      Present(xs[..|xs| - 1]) + (if last.Some? then [last.value] else [])
  }

  /** The `_lat` column. */
  function LatColumn(recs: seq<Record>): seq<Option<real>> {
    seq(|recs|, i requires 0 <= i < |recs| => recs[i].lat)
  }

  /** The `_lng` column. */
  function LngColumn(recs: seq<Record>): seq<Option<real>> {
    seq(|recs|, i requires 0 <= i < |recs| => recs[i].lng)
  }

  /** The `_lat` values present, in row order. */
  function Lats(recs: seq<Record>): seq<real> {
    Present(LatColumn(recs))
  }

  /** The `_lng` values present, in row order. */
  function Lngs(recs: seq<Record>): seq<real> {
    Present(LngColumn(recs))
  }

  /** `series.min()` */
  function MinOf(s: seq<real>): (m: real)
    requires s != []
    ensures m in s && forall x :: x in s ==> m <= x
  {
    if |s| == 1 then s[0]
    else
      var rest := MinOf(s[1..]);
      assert forall x :: x in s ==> x == s[0] || x in s[1..];
      if s[0] <= rest then s[0] else rest
  }

  /** `series.max()` */
  function MaxOf(s: seq<real>): (m: real)
    requires s != []
    ensures m in s && forall x :: x in s ==> x <= m
  {
    if |s| == 1 then s[0]
    else
      var rest := MaxOf(s[1..]);
      assert forall x :: x in s ==> x == s[0] || x in s[1..];
      if s[0] >= rest then s[0] else rest
  }

  /** Python's `int(x)`: truncation toward zero. */
  function Trunc(x: real): int {
    if x >= 0.0 then x.Floor else -((-x).Floor)
  }

  /** The bin of value `v`: `min(int((v - lo) / step), bins - 1)`. */
  function CellIndex(v: real, lo: real, step: real, bins: int): int
    requires step > 0.0
  {
    Min(Trunc((v - lo) / step), bins - 1)
  }

  /** The centre of bin `i`: `lo + (i + 0.5) * step`. */
  function Centre(lo: real, i: int, step: real): real {
    lo + (i as real + 0.5) * step
  }

  /** One grid entry of the response. */
  datatype HeatCell = HeatCell(lat: real, lng: real, count: nat)

  datatype Bounds = Bounds(latMin: real, latMax: real, lngMin: real, lngMax: real)

  /** The `/heatmap` response: the bin count, the bounds (absent in the
      degenerate and empty responses) and the grid. */
  datatype Heatmap = Heatmap(bins: int, bounds: Option<Bounds>, grid: seq<HeatCell>)

  /** `zip(lat, lng)` binned: the (row bin, column bin) key of each pair;
      the shorter list decides how many pairs there are. */
  function PairKeys(lat: seq<real>, lng: seq<real>, b: Bounds, bins: int): seq<(int, int)>
    requires b.latMin < b.latMax && b.lngMin < b.lngMax && bins >= 1
  {
    var latStep, lngStep := (b.latMax - b.latMin) / bins as real, (b.lngMax - b.lngMin) / bins as real;
    seq(Min(|lat|, |lng|), k requires 0 <= k < Min(|lat|, |lng|) =>
      (CellIndex(lat[k], b.latMin, latStep, bins), CellIndex(lng[k], b.lngMin, lngStep, bins)))
  }

  /** `grid.items()` turned into response cells placed at bin centres. */
  function Cells(grid: seq<((int, int), nat)>, b: Bounds, bins: int): seq<HeatCell>
    requires bins >= 1
  {
    var latStep, lngStep := (b.latMax - b.latMin) / bins as real, (b.lngMax - b.lngMin) / bins as real;
    seq(|grid|, k requires 0 <= k < |grid| =>
      HeatCell(Centre(b.latMin, grid[k].0.0, latStep), Centre(b.lngMin, grid[k].0.1, lngStep), grid[k].1))
  }

  /** The grid resolution of a `/heatmap` request that names none. */
  const DefaultBins := 50

  /** The `/heatmap` response for `bins` in [5, 400]. */
  function HeatmapOf(recs: seq<Record>, bins: int): Result<Heatmap>
    requires 5 <= bins <= 400
  {
    if NoGeo(recs) then Err(NoGeoData)
    else
      var lat, lng := Lats(recs), Lngs(recs);
      if lat == [] || lng == [] then Ok(Heatmap(bins, None, []))
      else
        var b := Bounds(MinOf(lat), MaxOf(lat), MinOf(lng), MaxOf(lng));
        if b.latMin == b.latMax || b.lngMin == b.lngMax then
          Ok(Heatmap(bins, None, [HeatCell(b.latMin, b.lngMin, |lat|)]))
        else
          Ok(Heatmap(bins, Some(b), Cells(Grouping.Tally(PairKeys(lat, lng, b, bins)), b, bins)))
  }

  /** The grid loop of `heatmap`: one `grid[key] = grid.get(key, 0) + 1`
      per zipped pair, keys kept in first-seen order as a dict keeps them. */
  method FillGrid(lat: seq<real>, lng: seq<real>, b: Bounds, bins: int) returns (grid: seq<((int, int), nat)>)
    requires b.latMin < b.latMax && b.lngMin < b.lngMax && bins >= 1
    ensures grid == Grouping.Tally(PairKeys(lat, lng, b, bins))
  {
    var latStep := (b.latMax - b.latMin) / bins as real;
    var lngStep := (b.lngMax - b.lngMin) / bins as real;
    ghost var keys := PairKeys(lat, lng, b, bins);
    grid := [];
    for k := 0 to Min(|lat|, |lng|)
      invariant grid == Grouping.Tally(keys[..k])
    {
      var i := Min(Trunc((lat[k] - b.latMin) / latStep), bins - 1);
      var j := Min(Trunc((lng[k] - b.lngMin) / lngStep), bins - 1);
      assert (i, j) == keys[k];
      assert keys[..k + 1][..k] == keys[..k];
      grid := Grouping.AddOne(grid, (i, j));
    }
    assert keys[..|keys|] == keys;
  }

  /** The result loop of `heatmap`: each grid entry becomes a cell at the
      centre of its bin. */
  method ReadGrid(grid: seq<((int, int), nat)>, b: Bounds, bins: int) returns (result: seq<HeatCell>)
    requires bins >= 1
    ensures result == Cells(grid, b, bins)
  {
    var latStep := (b.latMax - b.latMin) / bins as real;
    var lngStep := (b.lngMax - b.lngMin) / bins as real;
    result := [];
    for k := 0 to |grid|
      invariant result == Cells(grid, b, bins)[..k]
    {
      var cellLat := b.latMin + (grid[k].0.0 as real + 0.5) * latStep;
      var cellLng := b.lngMin + (grid[k].0.1 as real + 0.5) * lngStep;
      assert Cells(grid, b, bins)[k] == HeatCell(cellLat, cellLng, grid[k].1);
      assert Cells(grid, b, bins)[..k + 1] == Cells(grid, b, bins)[..k] + [Cells(grid, b, bins)[k]];
      result := result + [HeatCell(cellLat, cellLng, grid[k].1)];
    }
  }

  /** `heatmap`: rejects a store without coordinates, answers a single cell
      when either coordinate has no spread, and otherwise bins the pairs. */
  method BuildHeatmap(recs: seq<Record>, bins: int) returns (r: Result<Heatmap>)
    requires 5 <= bins <= 400
    ensures r == HeatmapOf(recs, bins)
  {
    if (forall i | 0 <= i < |recs| :: recs[i].lat.None?) || (forall i | 0 <= i < |recs| :: recs[i].lng.None?) {
      return Err(NoGeoData);
    }
    var lat, lng := Lats(recs), Lngs(recs);
    if lat == [] || lng == [] {
      return Ok(Heatmap(bins, None, []));
    }
    var latMin, latMax := MinOf(lat), MaxOf(lat);
    var lngMin, lngMax := MinOf(lng), MaxOf(lng);
    if latMin == latMax || lngMin == lngMax {
      return Ok(Heatmap(bins, None, [HeatCell(latMin, lngMin, |lat|)]));
    }
    var b := Bounds(latMin, latMax, lngMin, lngMax);
    var grid := FillGrid(lat, lng, b, bins);
    var result := ReadGrid(grid, b, bins);
    r := Ok(Heatmap(bins, Some(b), result));
  }

  /** The positions of a column that hold a value. */
  function PresenceMask(xs: seq<Option<real>>): seq<bool> {
    seq(|xs|, i requires 0 <= i < |xs| => xs[i].Some?)
  }

  /** `dropna` keeps exactly the values the column holds, in order: the
      k-th present value is the value of the k-th entry that holds one. */
  lemma {:induction false} PresentSpec(xs: seq<Option<real>>)
    ensures forall v :: v in Present(xs) <==> Some(v) in xs
    ensures var held := Select(xs, PresenceMask(xs));
      && |Present(xs)| == |held|
      && forall k :: 0 <= k < |held| ==> held[k] == Some(Present(xs)[k])
  {
    if xs != [] {
      var n := |xs| - 1;
      var init, last := xs[..n], xs[n];
      PresentSpec(init);
      assert xs == init + [last];
      assert PresenceMask(xs) == PresenceMask(init) + [last.Some?];
      SelectAppend(init, PresenceMask(init), [last], [last.Some?]);
      assert Select([last], [last.Some?]) == (if last.Some? then [last] else []);
    }
  }

  /** Every value a column holds survives `dropna`. */
  lemma {:induction false} PresentKeeps(xs: seq<Option<real>>, k: int)
    requires 0 <= k < |xs| && xs[k].Some?
    ensures xs[k].value in Present(xs)
  {
    var n := |xs| - 1;
    if k < n {
      PresentKeeps(xs[..n], k);
    }
  }

  /** Once the store has been accepted, both coordinate lists are non-empty,
      so the empty-grid response after `dropna` is never produced. */
  lemma CoordinatesPresent(recs: seq<Record>)
    requires !NoGeo(recs)
    ensures Lats(recs) != [] && Lngs(recs) != []
  {
    PresentSpec(LatColumn(recs));
    PresentSpec(LngColumn(recs));
    var i :| 0 <= i < |recs| && recs[i].lat.Some?;
    var j :| 0 <= j < |recs| && recs[j].lng.Some?;
    assert LatColumn(recs)[i] == Some(recs[i].lat.value);
    assert LngColumn(recs)[j] == Some(recs[j].lng.value);
    assert LatColumn(recs)[i].Some? && LngColumn(recs)[j].Some?;
    PresentKeeps(LatColumn(recs), i);
    PresentKeeps(LngColumn(recs), j);
  }

  /** Binning: a value between the bounds lands in a bin between 0 and
      `bins - 1` whose interval contains it, and the maximum lands in the
      last bin. */
  lemma CellIndexSpec(v: real, lo: real, hi: real, bins: int)
    requires lo < hi && bins >= 1
    requires lo <= v <= hi
    ensures var step := (hi - lo) / bins as real;
      var i := CellIndex(v, lo, step, bins);
      && 0 <= i < bins
      && lo + i as real * step <= v <= lo + (i + 1) as real * step
      && (v == hi ==> i == bins - 1)
  {
    var step := (hi - lo) / bins as real;
    var x := (v - lo) / step;
    var n := bins as real;
    assert step > 0.0;
    assert x * step == v - lo;
    assert n * step == hi - lo;
    assert 0.0 <= x;
    assert x <= n by {
      if x > n {
        MulStrict(n, x, step);
      }
    }
    var f := x.Floor;
    assert Trunc(x) == f;
    var i := CellIndex(v, lo, step, bins);
    assert 0 <= i <= f;
    MulMono(i as real, x, step);
    if f <= bins - 1 {
      assert i == f;
      var next := (i + 1) as real;
      assert x < next;
      MulStrict(x, next, step);
      assert v - lo < next * step;
    } else {
      assert x == n;
      assert (i + 1) as real == n;
      assert v == lo + (i + 1) as real * step;
    }
    if v == hi {
      if x < n {
        MulStrict(x, n, step);
      }
      assert x == n;
      assert f == bins;
    }
  }

  lemma MulMono(a: real, b: real, c: real)
    requires a <= b && c > 0.0
    ensures a * c <= b * c
  {
    assert (b - a) * c >= 0.0;
  }

  lemma MulStrict(a: real, b: real, c: real)
    requires a < b && c > 0.0
    ensures a * c < b * c
  {
    assert (b - a) * c > 0.0;
  }

  /** The centre of any bin lies strictly inside the bounds. */
  lemma CentreInside(lo: real, hi: real, bins: int, i: int)
    requires lo < hi && bins >= 1 && 0 <= i < bins
    ensures lo < Centre(lo, i, (hi - lo) / bins as real) < hi
  {
    var step := (hi - lo) / bins as real;
    assert bins as real * step == hi - lo;
    MulStrict(0.0, i as real + 0.5, step);
    MulStrict(i as real + 0.5, bins as real, step);
  }

  /** The sum of the grid's counts. */
  function CountSum(cells: seq<HeatCell>): nat {
    if cells == [] then 0 else cells[0].count + CountSum(cells[1..])
  }

  lemma {:induction false} CountSumCells(grid: seq<((int, int), nat)>, b: Bounds, bins: int)
    requires bins >= 1
    ensures CountSum(Cells(grid, b, bins)) == Grouping.Total(grid)
  {
    if grid != [] {
      CountSumCells(grid[1..], b, bins);
      assert Cells(grid, b, bins)[1..] == Cells(grid[1..], b, bins);
    }
  }

  /** The bin key of every zipped pair lies in the grid. */
  lemma PairKeysInRange(lat: seq<real>, lng: seq<real>, b: Bounds, bins: int)
    requires b.latMin < b.latMax && b.lngMin < b.lngMax && bins >= 1
    requires forall v :: v in lat ==> b.latMin <= v <= b.latMax
    requires forall v :: v in lng ==> b.lngMin <= v <= b.lngMax
    ensures forall key :: key in PairKeys(lat, lng, b, bins) ==> 0 <= key.0 < bins && 0 <= key.1 < bins
  {
    var keys := PairKeys(lat, lng, b, bins);
    forall k | 0 <= k < |keys| ensures 0 <= keys[k].0 < bins && 0 <= keys[k].1 < bins {
      assert lat[k] in lat && lng[k] in lng;
      CellIndexSpec(lat[k], b.latMin, b.latMax, bins);
      CellIndexSpec(lng[k], b.lngMin, b.lngMax, bins);
    }
  }

  /** Binning pairs whose values lie within the bounds: one cell per
      occupied bin, each with a positive count and placed strictly inside the
      bounds, the counts adding up to the number of pairs. */
  lemma GridSpec(lat: seq<real>, lng: seq<real>, b: Bounds, bins: int)
    requires b.latMin < b.latMax && b.lngMin < b.lngMax && bins >= 1
    requires forall v :: v in lat ==> b.latMin <= v <= b.latMax
    requires forall v :: v in lng ==> b.lngMin <= v <= b.lngMax
    ensures var cells := Cells(Grouping.Tally(PairKeys(lat, lng, b, bins)), b, bins);
      && CountSum(cells) == Min(|lat|, |lng|)
      && (forall c :: c in cells ==> c.count > 0)
      && (forall c :: c in cells ==> b.latMin < c.lat < b.latMax && b.lngMin < c.lng < b.lngMax)
  {
    var keys := PairKeys(lat, lng, b, bins);
    var grid := Grouping.Tally(keys);
    var cells := Cells(grid, b, bins);
    Grouping.TallySpec(keys);
    CountSumCells(grid, b, bins);
    PairKeysInRange(lat, lng, b, bins);
    forall e | e in grid ensures 0 <= e.0.0 < bins && 0 <= e.0.1 < bins {
      assert e.0 in Grouping.Keys(grid);
    }
    CellsInside(grid, b, bins);
    forall c | c in cells ensures c.count > 0 {
      var k :| 0 <= k < |cells| && cells[k] == c;
      assert grid[k] in grid;
    }
  }

  /** Cells built from in-range bins lie strictly inside the bounds. */
  lemma CellsInside(grid: seq<((int, int), nat)>, b: Bounds, bins: int)
    requires b.latMin < b.latMax && b.lngMin < b.lngMax && bins >= 1
    requires forall e :: e in grid ==> 0 <= e.0.0 < bins && 0 <= e.0.1 < bins
    ensures forall c :: c in Cells(grid, b, bins) ==> b.latMin < c.lat < b.latMax && b.lngMin < c.lng < b.lngMax
  {
    var cells := Cells(grid, b, bins);
    forall c | c in cells ensures b.latMin < c.lat < b.latMax && b.lngMin < c.lng < b.lngMax {
      var k :| 0 <= k < |cells| && cells[k] == c;
      assert grid[k] in grid;
      CentreInside(b.latMin, b.latMax, bins, grid[k].0.0);
      CentreInside(b.lngMin, b.lngMax, bins, grid[k].0.1);
    }
  }

  /** The regular grid response: the bounds are the coordinate extremes and
      have a spread; its grid is the binning of `GridSpec`, so its counts add
      up to the number of zipped (lat, lng) pairs, the shorter list's length. */
  lemma HeatmapGridSpec(recs: seq<Record>, bins: int)
    requires 5 <= bins <= 400
    requires HeatmapOf(recs, bins).Ok? && HeatmapOf(recs, bins).value.bounds.Some?
    ensures var h, lat, lng := HeatmapOf(recs, bins).value, Lats(recs), Lngs(recs);
      var b := h.bounds.value;
      && b.latMin in lat && b.latMax in lat && b.lngMin in lng && b.lngMax in lng
      && (forall v :: v in lat ==> b.latMin <= v <= b.latMax)
      && (forall v :: v in lng ==> b.lngMin <= v <= b.lngMax)
      && b.latMin < b.latMax && b.lngMin < b.lngMax
      && CountSum(h.grid) == Min(|lat|, |lng|)
      && (forall c :: c in h.grid ==> c.count > 0)
      && (forall c :: c in h.grid ==> b.latMin < c.lat < b.latMax && b.lngMin < c.lng < b.lngMax)
  {
    var lat, lng := Lats(recs), Lngs(recs);
    var b := Bounds(MinOf(lat), MaxOf(lat), MinOf(lng), MaxOf(lng));
    assert HeatmapOf(recs, bins).value == Heatmap(bins, Some(b), Cells(Grouping.Tally(PairKeys(lat, lng, b, bins)), b, bins));
    GridSpec(lat, lng, b, bins);
  }

  /** Each grid cell is a distinct bin, counting the pairs that fall in it. */
  lemma HeatmapCellCounts(recs: seq<Record>, bins: int)
    requires 5 <= bins <= 400
    requires HeatmapOf(recs, bins).Ok? && HeatmapOf(recs, bins).value.bounds.Some?
    ensures var h := HeatmapOf(recs, bins).value;
      var keys := PairKeys(Lats(recs), Lngs(recs), h.bounds.value, bins);
      var grid := Grouping.Tally(keys);
      && |h.grid| == |grid|
      && Grouping.DistinctKeys(grid)
      && forall k :: 0 <= k < |grid| ==> h.grid[k].count == multiset(keys)[grid[k].0]
  {
    var h := HeatmapOf(recs, bins).value;
    var keys := PairKeys(Lats(recs), Lngs(recs), h.bounds.value, bins);
    Grouping.TallySpec(keys);
    Grouping.TallyEntries(keys);
    var grid := Grouping.Tally(keys);
    forall k | 0 <= k < |grid| ensures h.grid[k].count == multiset(keys)[grid[k].0] {
      assert grid[k] in grid;
    }
  }

  /** When every record has both coordinates or neither, the zipped pairs
      are exactly the located records' (lat, lng), in row order: pair `k` is
      the coordinates of the k-th located record. */
  lemma AlignedPairs(recs: seq<Record>)
    requires forall i :: 0 <= i < |recs| ==> (recs[i].lat.Some? <==> recs[i].lng.Some?)
    ensures var located := Select(recs, LocatedMask(recs));
      && |Lats(recs)| == |located| && |Lngs(recs)| == |located|
      && forall k :: 0 <= k < |located| ==>
           located[k].lat == Some(Lats(recs)[k]) && located[k].lng == Some(Lngs(recs)[k])
  {
    var mask := LocatedMask(recs);
    var latCol, lngCol := LatColumn(recs), LngColumn(recs);
    assert PresenceMask(latCol) == mask;
    assert PresenceMask(lngCol) == mask;
    PresentSpec(latCol);
    PresentSpec(lngCol);
    var lat := (r: Record) => r.lat;
    var lng := (r: Record) => r.lng;
    SelectMap(recs, lat, latCol, mask);
    SelectMap(recs, lng, lngCol, mask);
    var located := Select(recs, mask);
    var heldLat, heldLng := Select(latCol, mask), Select(lngCol, mask);
    forall k | 0 <= k < |located|
      ensures located[k].lat == Some(Lats(recs)[k]) && located[k].lng == Some(Lngs(recs)[k])
    {
      assert heldLat[k] == lat(located[k]) == Some(Lats(recs)[k]);
      assert heldLng[k] == lng(located[k]) == Some(Lngs(recs)[k]);
    }
  }

  /** `lat` and `lng` drop missing values independently, so `zip` can pair
      coordinates of different records: here the first pair is (1, 2),
      though no record lies at latitude 1 and longitude 2. */
  lemma MisalignedPairs()
    ensures var recs := [
        Record("0", None, "", "", Some(1.0), None, "", ""),
        Record("1", None, "", "", None, Some(2.0), "", ""),
        Record("2", None, "", "", Some(3.0), Some(4.0), "", "")];
      && Lats(recs) == [1.0, 3.0] && Lngs(recs) == [2.0, 4.0]
      && forall i :: 0 <= i < |recs| ==> !(recs[i].lat == Some(1.0) && recs[i].lng == Some(2.0))
  {
    var recs := [
        Record("0", None, "", "", Some(1.0), None, "", ""),
        Record("1", None, "", "", None, Some(2.0), "", ""),
        Record("2", None, "", "", Some(3.0), Some(4.0), "", "")];
    var latCol, lngCol := LatColumn(recs), LngColumn(recs);
    assert latCol == [Some(1.0), None, Some(3.0)];
    assert lngCol == [None, Some(2.0), Some(4.0)];
    assert latCol[..2][..1] == [Some(1.0)] && latCol[..2] == [Some(1.0), None] && latCol[..2][..1][..0] == [];
    assert lngCol[..2][..1] == [None] && lngCol[..2] == [None, Some(2.0)] && lngCol[..2][..1][..0] == [];
    assert Present(latCol[..2][..1]) == [1.0];
    assert Present(latCol[..2]) == [1.0];
    assert Present(lngCol[..2][..1]) == [];
    assert Present(lngCol[..2]) == [2.0];
  }

  /** In the degenerate response the single cell counts every present
      latitude, which can exceed the number of records with both
      coordinates: here two latitudes but only one located record. */
  lemma DegenerateCountsLatitudes()
    ensures var recs := [
        Record("0", None, "", "", Some(1.0), Some(5.0), "", ""),
        Record("1", None, "", "", Some(1.0), None, "", "")];
      HeatmapOf(recs, DefaultBins) == Ok(Heatmap(DefaultBins, None, [HeatCell(1.0, 5.0, 2)]))
  {
    var recs := [
        Record("0", None, "", "", Some(1.0), Some(5.0), "", ""),
        Record("1", None, "", "", Some(1.0), None, "", "")];
    var latCol, lngCol := LatColumn(recs), LngColumn(recs);
    assert latCol == [Some(1.0), Some(1.0)] && latCol[..1] == [Some(1.0)] && latCol[..1][..0] == [];
    assert lngCol == [Some(5.0), None] && lngCol[..1] == [Some(5.0)] && lngCol[..1][..0] == [];
    assert Present(latCol[..1]) == [1.0];
    assert Present(lngCol[..1]) == [5.0];
    assert Lats(recs) == [1.0, 1.0];
    assert Lngs(recs) == [5.0];
    assert !NoGeo(recs) by {
      assert recs[0].lat.Some? && recs[0].lng.Some?;
    }
  }
}
