/** The `/incidents` query: AND-composed optional filters over the record
    store, an optional sort by timestamp with missing timestamps last, and
    offset/limit pagination with the total taken before slicing. */
module Incidents {
  import opened Common
  import opened Records
  import Sorting

  /** The query-string parameters of `/incidents`. */
  datatype Query = Query(
    q: Option<string>,
    category: Option<string>,
    city: Option<string>,
    state: Option<string>,
    startDate: Option<string>,
    endDate: Option<string>,
    minLat: Option<real>,
    maxLat: Option<real>,
    minLng: Option<real>,
    maxLng: Option<real>,
    limit: int,
    offset: int,
    sort: string)

  /** The response body: the filtered count and one page of records. */
  datatype Page = Page(total: nat, limit: int, offset: int, items: seq<Record>)

  /** `pd.to_datetime` on a date bound together with the comparison against
      `_dt`: None when either raises, Some(None) when the bound is NaT. */
  type DateParser = string -> Option<Option<Instant>>

  /** A resolved date bound: absent, or the converted value (NaT as None). */
  datatype Bound = NoBound | Bound(at: Option<Instant>)

  /** The bound a date parameter imposes, or None when converting it fails. */
  function ResolveBound(s: Option<string>, parse: DateParser): Option<Bound> {
    if !Given(s) then Some(NoBound)
    else match parse(s.value)
      case None => None
      case Some(at) => Some(Bound(at))
  }

  /** `_dt >= start`; a comparison with a missing value is false. */
  predicate OnOrAfter(dt: Option<Instant>, b: Bound) {
    b.NoBound? || (b.at.Some? && dt.Some? && NotAfter(b.at.value, dt.value))
  }

  /** `_dt <= end`; a comparison with a missing value is false. */
  predicate OnOrBefore(dt: Option<Instant>, b: Bound) {
    b.NoBound? || (b.at.Some? && dt.Some? && NotAfter(dt.value, b.at.value))
  }

  /** `value >= bound` when the bound is given; missing values fail it. */
  predicate AtLeast(v: Option<real>, bound: Option<real>) {
    bound.None? || (v.Some? && bound.value <= v.value)
  }

  /** `value <= bound` when the bound is given; missing values fail it. */
  predicate AtMost(v: Option<real>, bound: Option<real>) {
    bound.None? || (v.Some? && v.value <= bound.value)
  }

  /** The text search: `q` occurs, ignoring case, in the description or the category. */
  predicate TextHit(r: Record, q: string) {
    Contains(Lower(r.desc), Lower(q)) || Contains(Lower(r.cat), Lower(q))
  }

  /** Case-insensitive equality of a derived field with a filter value. */
  predicate SameText(field: string, value: string) {
    Lower(field) == Lower(value)
  }

  /** The text and place filters that are supplied all hold. */
  predicate TextMatches(r: Record, q: Query) {
    && (Given(q.q) ==> TextHit(r, q.q.value))
    && (Given(q.category) ==> SameText(r.cat, q.category.value))
    && (Given(q.city) ==> SameText(r.city, q.city.value))
    && (Given(q.state) ==> SameText(r.state, q.state.value))
  }

  /** The bounding-box filters that are supplied all hold. */
  predicate BoxMatches(r: Record, q: Query) {
    && AtLeast(r.lat, q.minLat)
    && AtMost(r.lat, q.maxLat)
    && AtLeast(r.lng, q.minLng)
    && AtMost(r.lng, q.maxLng)
  }

  /** A record passes the listing filters: every filter that is supplied holds. */
  predicate Matches(r: Record, q: Query, start: Bound, end: Bound) {
    TextMatches(r, q) && OnOrAfter(r.dt, start) && OnOrBefore(r.dt, end) && BoxMatches(r, q)
  }

  function MatchMask(recs: seq<Record>, q: Query, start: Bound, end: Bound): seq<bool> {
    seq(|recs|, i requires 0 <= i < |recs| => Matches(recs[i], q, start, end))
  }

  /** A text or place filter is supplied, so one of the `&=` steps at the
      top of `incidents` runs. */
  predicate TextFiltersGiven(q: Query) {
    Given(q.q) || Given(q.category) || Given(q.city) || Given(q.state)
  }

  /** A bounding-box filter is supplied. */
  predicate BoxFiltersGiven(q: Query) {
    q.minLat.Some? || q.maxLat.Some? || q.minLng.Some? || q.maxLng.Some?
  }

  /** Some `filt &= ...` step of `incidents` runs. */
  predicate AnyFilter(q: Query) {
    TextFiltersGiven(q) || Given(q.startDate) || Given(q.endDate) || BoxFiltersGiven(q)
  }

  /** `pd.Series([True] * len(df))` has a boolean dtype only when the store
      has rows; an empty one becomes boolean once a `&=` step has run.
      Without a boolean dtype `df[filt]` selects columns instead of rows and
      keeps none, so every later access to a derived column raises KeyError. */
  predicate MaskIsBoolean(rows: nat, stepped: bool) {
    rows > 0 || stepped
  }

  /** The records that pass the filters, in row order. */
  function Filtered(recs: seq<Record>, q: Query, start: Bound, end: Bound): seq<Record> {
    Select(recs, MatchMask(recs, q, start, end))
  }

  /** The sort key of a record; only records with a timestamp are sorted by it. */
  function DateKey(r: Record): Instant {
    if r.dt.Some? then r.dt.value else Instant(0, 0, 0, 0)
  }

  /** The order `sort_values("_dt", ascending)` puts timestamps in. */
  function DateOrder(ascending: bool): (Record, Record) -> bool {
    if ascending then (a: Record, b: Record) => NotAfter(DateKey(a), DateKey(b))
    else (a: Record, b: Record) => NotAfter(DateKey(b), DateKey(a))
  }

  function DatedMask(rs: seq<Record>): seq<bool> {
    seq(|rs|, i requires 0 <= i < |rs| => rs[i].dt.Some?)
  }

  function UndatedMask(rs: seq<Record>): seq<bool> {
    seq(|rs|, i requires 0 <= i < |rs| => rs[i].dt.None?)
  }

  /** `sort_values(by="_dt", na_position="last")`: the records with a
      timestamp in order, then those without, in row order. */
  function SortByDate(rs: seq<Record>, ascending: bool): seq<Record> {
    Sorting.InsertionSort(Select(rs, DatedMask(rs)), DateOrder(ascending)) + Select(rs, UndatedMask(rs))
  }

  /** The sort step: "date" ascending, "-date" descending, anything else
      keeps the filtered order. */
  function SortRows(rs: seq<Record>, sort: string): seq<Record> {
    if sort == "date" then SortByDate(rs, true)
    else if sort == "-date" then SortByDate(rs, false)
    else rs
  }

  /** Python's `s[lo:hi]` for 0 <= lo <= hi: bounds past the end are clamped. */
  function Slice<T>(s: seq<T>, lo: int, hi: int): seq<T>
    requires 0 <= lo <= hi
  {
    s[(if lo < |s| then lo else |s|)..(if hi < |s| then hi else |s|)]
  }

  /** The `/incidents` response for a store's records. */
  function Incidents(recs: seq<Record>, q: Query, parse: DateParser): Result<Page>
    requires 1 <= q.limit <= 1000 && 0 <= q.offset
  {
    match ResolveBound(q.startDate, parse)
    case None => Err(InvalidStartDate)
    case Some(start) =>
      match ResolveBound(q.endDate, parse)
      case None => Err(InvalidEndDate)
      case Some(end) =>
        if !MaskIsBoolean(|recs|, AnyFilter(q)) && (q.sort == "date" || q.sort == "-date") then Err(ServerError)
        else Ok(Listing(recs, q, start, end))
  }

  /** The parameters of an `/incidents` request that supplies none: no
      filter, the first 100 records, newest first. */
  const DefaultQuery := Query(None, None, None, None, None, None, None, None, None, None, 100, 0, "-date")

  /** A request without parameters answers 500 for a store without rows;
      otherwise it counts every record and lists the first 100 of the
      store's records sorted newest first, those without a timestamp last. */
  lemma DefaultListing(recs: seq<Record>, parse: DateParser)
    ensures recs == [] ==> Incidents(recs, DefaultQuery, parse) == Err(ServerError)
    ensures recs != [] ==> Incidents(recs, DefaultQuery, parse).Ok?
    ensures recs != [] ==> var p := Incidents(recs, DefaultQuery, parse).value;
      && p.total == |recs|
      && |p.items| == Min(100, |recs|)
      && |SortByDate(recs, false)| == |recs|
      && p.items == SortByDate(recs, false)[..|p.items|]
  {
    var q := DefaultQuery;
    SelectAll(recs, MatchMask(recs, q, NoBound, NoBound));
    PageSpec(recs, q, NoBound, NoBound);
    SortRowsSpec(recs, q.sort);
    FilterExact(recs, q, NoBound, NoBound);
    SortByDateSpec(recs, false);
  }

  /** A record is listed exactly when it is one of the store's records and
      passes every supplied filter, and as many are listed as the mask marks. */
  lemma FilterExact(recs: seq<Record>, q: Query, start: Bound, end: Bound)
    ensures forall x :: x in Filtered(recs, q, start, end) <==> x in recs && Matches(x, q, start, end)
    ensures |Filtered(recs, q, start, end)| == multiset(MatchMask(recs, q, start, end))[true]
  {
    var mask := MatchMask(recs, q, start, end);
    SelectSpec(recs, mask);
    forall x | x in recs && Matches(x, q, start, end)
      ensures x in Filtered(recs, q, start, end)
    {
      var i :| 0 <= i < |recs| && recs[i] == x;
      assert mask[i];
    }
  }

  /** Both directions of the timestamp order compare any two records and chain. */
  lemma DateOrderTotal(ascending: bool)
    ensures Sorting.TotalPreorder(DateOrder(ascending))
  {
    var le := DateOrder(ascending);
    forall a, b, c | le(a, b) && le(b, c) ensures le(a, c) {
      if ascending {
        NotAfterTransitive(DateKey(a), DateKey(b), DateKey(c));
      } else {
        NotAfterTransitive(DateKey(c), DateKey(b), DateKey(a));
      }
    }
  }

  lemma NotAfterTransitive(a: Instant, b: Instant, c: Instant)
    requires NotAfter(a, b) && NotAfter(b, c)
    ensures NotAfter(a, c)
  {
  }

  /** Records with a timestamp come first, in timestamp order (oldest first
      when ascending, newest first otherwise); records without one come after
      all of them. */
  ghost predicate DateOrdered(rs: seq<Record>, ascending: bool) {
    forall i, j :: 0 <= i < j < |rs| && rs[j].dt.Some? ==>
      && rs[i].dt.Some?
      && (if ascending then NotAfter(rs[i].dt.value, rs[j].dt.value) else NotAfter(rs[j].dt.value, rs[i].dt.value))
  }

  /** Sorting the listing only reorders it. */
  lemma SortRowsPermutes(rs: seq<Record>, sort: string)
    ensures multiset(SortRows(rs, sort)) == multiset(rs)
    ensures |SortRows(rs, sort)| == |rs|
  {
    if sort == "date" {
      SortByDateSpec(rs, true);
    } else if sort == "-date" {
      SortByDateSpec(rs, false);
    }
    assert |multiset(SortRows(rs, sort))| == |SortRows(rs, sort)|;
  }

  /** The sort step only reorders the filtered records; "date" and "-date"
      order them by timestamp with the missing ones last, in their original
      order, and any other value leaves the order alone. */
  lemma SortRowsSpec(rs: seq<Record>, sort: string)
    ensures multiset(SortRows(rs, sort)) == multiset(rs)
    ensures |SortRows(rs, sort)| == |rs|
    ensures sort == "date" ==> DateOrdered(SortRows(rs, sort), true)
    ensures sort == "-date" ==> DateOrdered(SortRows(rs, sort), false)
    ensures sort != "date" && sort != "-date" ==> SortRows(rs, sort) == rs
    ensures Select(SortRows(rs, sort), UndatedMask(SortRows(rs, sort))) == Select(rs, UndatedMask(rs))
  {
    if sort == "date" {
      SortByDateSpec(rs, true);
    } else if sort == "-date" {
      SortByDateSpec(rs, false);
    }
    assert |multiset(SortRows(rs, sort))| == |SortRows(rs, sort)|;
  }

  lemma SortByDateSpec(rs: seq<Record>, ascending: bool)
    ensures multiset(SortByDate(rs, ascending)) == multiset(rs)
    ensures DateOrdered(SortByDate(rs, ascending), ascending)
    ensures Select(SortByDate(rs, ascending), UndatedMask(SortByDate(rs, ascending))) == Select(rs, UndatedMask(rs))
  {
    var le := DateOrder(ascending);
    var dated := Select(rs, DatedMask(rs));
    var undated := Select(rs, UndatedMask(rs));
    var sorted := Sorting.InsertionSort(dated, le);
    Sorting.SortPermutes(dated, le);
    SelectPartition(rs, DatedMask(rs), UndatedMask(rs));
    SortedPartDated(rs, ascending);
    UndatedPartUndated(rs);
    DateOrderTotal(ascending);
    Sorting.SortSorted(dated, le);
    ConcatDateOrdered(sorted, undated, ascending);
    UndatedKeepOrder(sorted, undated);
  }

  /** The sorted part holds only records with a timestamp. */
  lemma SortedPartDated(rs: seq<Record>, ascending: bool)
    ensures forall x :: x in Sorting.InsertionSort(Select(rs, DatedMask(rs)), DateOrder(ascending)) ==> x.dt.Some?
  {
    var dated := Select(rs, DatedMask(rs));
    SelectSpec(rs, DatedMask(rs));
    Sorting.SortPermutes(dated, DateOrder(ascending));
    forall x | x in Sorting.InsertionSort(dated, DateOrder(ascending)) ensures x.dt.Some? {
      assert x in multiset(dated);
      assert x in dated;
      var i :| 0 <= i < |rs| && DatedMask(rs)[i] && rs[i] == x;
    }
  }

  /** The tail holds only records without a timestamp. */
  lemma UndatedPartUndated(rs: seq<Record>)
    ensures forall x :: x in Select(rs, UndatedMask(rs)) ==> x.dt.None?
  {
    SelectSpec(rs, UndatedMask(rs));
  }

  /** Timestamp-sorted records followed by undated ones are date-ordered. */
  lemma ConcatDateOrdered(sorted: seq<Record>, undated: seq<Record>, ascending: bool)
    requires forall x :: x in sorted ==> x.dt.Some?
    requires forall x :: x in undated ==> x.dt.None?
    requires Sorting.SortedBy(sorted, DateOrder(ascending))
    ensures DateOrdered(sorted + undated, ascending)
  {
    var out := sorted + undated;
    forall i, j | 0 <= i < j < |out| && out[j].dt.Some?
      ensures out[i].dt.Some?
      ensures if ascending then NotAfter(out[i].dt.value, out[j].dt.value) else NotAfter(out[j].dt.value, out[i].dt.value)
    {
      assert out[j] == sorted[j] && out[i] == sorted[i];
      assert sorted[i] in sorted && sorted[j] in sorted;
      assert DateOrder(ascending)(sorted[i], sorted[j]);
    }
  }

  /** Putting dated records in front leaves the undated ones, in order. */
  lemma UndatedKeepOrder(sorted: seq<Record>, undated: seq<Record>)
    requires forall x :: x in sorted ==> x.dt.Some?
    requires forall x :: x in undated ==> x.dt.None?
    ensures Select(sorted + undated, UndatedMask(sorted + undated)) == undated
  {
    assert UndatedMask(sorted + undated) == UndatedMask(sorted) + UndatedMask(undated);
    SelectAppend(sorted, UndatedMask(sorted), undated, UndatedMask(undated));
    SelectNone(sorted, UndatedMask(sorted));
    SelectAll(undated, UndatedMask(undated));
  }

  /** `s[lo:hi]` takes the elements of `s` from `lo` on, at most `hi - lo`
      of them: a page from `offset` holds the remaining records, at most
      `limit`, each at its offset, all from the listing. */
  lemma SliceSpec<T>(s: seq<T>, lo: int, hi: int)
    requires 0 <= lo <= hi
    ensures |Slice(s, lo, hi)| == if lo >= |s| then 0 else Min(hi - lo, |s| - lo)
    ensures forall k :: 0 <= k < |Slice(s, lo, hi)| ==> Slice(s, lo, hi)[k] == s[lo + k]
    ensures forall x :: x in Slice(s, lo, hi) ==> x in s
  {
  }

  /** `/incidents` answers 400 for a date bound that does not parse (the
      start bound checked first). Otherwise it answers 500 exactly when the
      store has no rows, no filter is supplied and the listing is sorted by
      date; else its total is the number of records passing every supplied
      filter, and its page holds at most `limit` of them from `offset` on,
      each a store record passing every filter. */
  lemma IncidentsSpec(recs: seq<Record>, q: Query, parse: DateParser)
    requires 1 <= q.limit <= 1000 && 0 <= q.offset
    ensures ResolveBound(q.startDate, parse).None? ==> Incidents(recs, q, parse) == Err(InvalidStartDate)
    ensures ResolveBound(q.startDate, parse).Some? && ResolveBound(q.endDate, parse).None? ==>
      Incidents(recs, q, parse) == Err(InvalidEndDate)
    ensures ResolveBound(q.startDate, parse).Some? && ResolveBound(q.endDate, parse).Some? ==>
      && (Incidents(recs, q, parse) == Err(ServerError) <==>
            recs == [] && !AnyFilter(q) && (q.sort == "date" || q.sort == "-date"))
      && (Incidents(recs, q, parse).Ok? || Incidents(recs, q, parse) == Err(ServerError))
    ensures ResolveBound(q.startDate, parse).Some? && ResolveBound(q.endDate, parse).Some? && Incidents(recs, q, parse).Ok? ==>
      var start, end := ResolveBound(q.startDate, parse).value, ResolveBound(q.endDate, parse).value;
      var p := Incidents(recs, q, parse).value;
      && p.total == multiset(MatchMask(recs, q, start, end))[true]
      && p.limit == q.limit && p.offset == q.offset
      && |p.items| == (if q.offset >= p.total then 0 else Min(q.limit, p.total - q.offset))
      && (forall x :: x in p.items ==> x in recs && Matches(x, q, start, end))
  {
    if ResolveBound(q.startDate, parse).Some? && ResolveBound(q.endDate, parse).Some? {
      PageSpec(recs, q, ResolveBound(q.startDate, parse).value, ResolveBound(q.endDate, parse).value);
    }
  }

  /** The page for resolved date bounds. */
  function Listing(recs: seq<Record>, q: Query, start: Bound, end: Bound): Page
    requires 1 <= q.limit <= 1000 && 0 <= q.offset
  {
    var res := SortRows(Filtered(recs, q, start, end), q.sort);
    Page(|res|, q.limit, q.offset, Slice(res, q.offset, q.offset + q.limit))
  }

  /** The total is the number of matching records, whatever the page; the
      page holds at most `limit` of them, taken in sorted order from `offset`,
      and each is a store record that passes every supplied filter. */
  lemma PageSpec(recs: seq<Record>, q: Query, start: Bound, end: Bound)
    requires 1 <= q.limit <= 1000 && 0 <= q.offset
    ensures var p, listed := Listing(recs, q, start, end), SortRows(Filtered(recs, q, start, end), q.sort);
      && p.total == multiset(MatchMask(recs, q, start, end))[true]
      && p.limit == q.limit && p.offset == q.offset
      && |p.items| == (if q.offset >= p.total then 0 else Min(q.limit, p.total - q.offset))
      && (forall k :: 0 <= k < |p.items| ==> p.items[k] == listed[q.offset + k])
      && (forall x :: x in p.items ==> x in recs && Matches(x, q, start, end))
  {
    var listed := SortRows(Filtered(recs, q, start, end), q.sort);
    ListedSpec(recs, q, start, end);
    SliceSpec(listed, q.offset, q.offset + q.limit);
  }

  /** The sorted listing holds as many records as the mask marks, each a
      store record passing every supplied filter. */
  lemma ListedSpec(recs: seq<Record>, q: Query, start: Bound, end: Bound)
    ensures |SortRows(Filtered(recs, q, start, end), q.sort)| == multiset(MatchMask(recs, q, start, end))[true]
    ensures forall x :: x in SortRows(Filtered(recs, q, start, end), q.sort) ==> x in recs && Matches(x, q, start, end)
  {
    var filtered := Filtered(recs, q, start, end);
    var listed := SortRows(filtered, q.sort);
    FilterExact(recs, q, start, end);
    SortRowsPermutes(filtered, q.sort);
    forall x | x in listed ensures x in filtered {
      assert x in multiset(listed);
    }
  }

  /** The text and place steps of the mask, each applied only when its
      parameter is truthy. */
  method NarrowByText(recs: seq<Record>, q: Query, filt0: seq<bool>) returns (filt: seq<bool>)
    requires |filt0| == |recs|
    ensures |filt| == |recs|
    ensures forall i :: 0 <= i < |recs| ==> filt[i] == (filt0[i] && TextMatches(recs[i], q))
  {
    var n := |recs|;
    filt := filt0;
    if Given(q.q) {
      var text := q.q.value;
      filt := seq(n, i requires 0 <= i < n => filt[i] && TextHit(recs[i], text));
    }
    if Given(q.category) {
      var v := q.category.value;
      filt := seq(n, i requires 0 <= i < n => filt[i] && SameText(recs[i].cat, v));
    }
    if Given(q.city) {
      var v := q.city.value;
      filt := seq(n, i requires 0 <= i < n => filt[i] && SameText(recs[i].city, v));
    }
    if Given(q.state) {
      var v := q.state.value;
      filt := seq(n, i requires 0 <= i < n => filt[i] && SameText(recs[i].state, v));
    }
  }

  /** The bounding-box steps of the mask, each applied only when its bound is given. */
  method NarrowByBox(recs: seq<Record>, q: Query, filt0: seq<bool>) returns (filt: seq<bool>)
    requires |filt0| == |recs|
    ensures |filt| == |recs|
    ensures forall i :: 0 <= i < |recs| ==> filt[i] == (filt0[i] && BoxMatches(recs[i], q))
  {
    var n := |recs|;
    filt := filt0;
    if q.minLat.Some? {
      filt := seq(n, i requires 0 <= i < n => filt[i] && AtLeast(recs[i].lat, q.minLat));
    }
    if q.maxLat.Some? {
      filt := seq(n, i requires 0 <= i < n => filt[i] && AtMost(recs[i].lat, q.maxLat));
    }
    if q.minLng.Some? {
      filt := seq(n, i requires 0 <= i < n => filt[i] && AtLeast(recs[i].lng, q.minLng));
    }
    if q.maxLng.Some? {
      filt := seq(n, i requires 0 <= i < n => filt[i] && AtMost(recs[i].lng, q.maxLng));
    }
  }

  /** `incidents`: the mask is narrowed one supplied filter at a time
      (`filt &= ...`), the date bounds are converted where they are applied,
      and the page is copied out item by item. */
  method ListIncidents(recs: seq<Record>, q: Query, parse: DateParser) returns (r: Result<Page>)
    requires 1 <= q.limit <= 1000 && 0 <= q.offset
    ensures r == Incidents(recs, q, parse)
  {
    var n := |recs|;
    var filt := seq(n, i => true);
    var boolean := MaskIsBoolean(n, false);
    filt := NarrowByText(recs, q, filt);
    if TextFiltersGiven(q) {
      boolean := true;
    }
    var sd := NoBound;
    if Given(q.startDate) {
      var converted := parse(q.startDate.value);
      if converted.None? {
        return Err(InvalidStartDate);
      }
      sd := Bound(converted.value);
      filt := seq(n, i requires 0 <= i < n => filt[i] && OnOrAfter(recs[i].dt, sd));
      boolean := true;
    }
    var ed := NoBound;
    if Given(q.endDate) {
      var converted := parse(q.endDate.value);
      if converted.None? {
        return Err(InvalidEndDate);
      }
      ed := Bound(converted.value);
      filt := seq(n, i requires 0 <= i < n => filt[i] && OnOrBefore(recs[i].dt, ed));
      boolean := true;
    }
    filt := NarrowByBox(recs, q, filt);
    if BoxFiltersGiven(q) {
      boolean := true;
    }
    assert filt == MatchMask(recs, q, sd, ed);
    if !boolean && (q.sort == "date" || q.sort == "-date") {
      // `df[filt]` kept no column, so `sort_values(by="_dt")` raises KeyError
      return Err(ServerError);
    }
    var page := Paginate(recs, q, filt, sd, ed);
    r := Ok(page);
  }

  /** The `sort` step of `incidents`: only "date" and "-date" reorder. */
  method SortStep(rows: seq<Record>, sort: string) returns (res: seq<Record>)
    ensures res == SortRows(rows, sort)
  {
    res := rows;
    if sort == "date" {
      res := SortByDate(rows, true);
    } else if sort == "-date" {
      res := SortByDate(rows, false);
    }
  }

  /** The payload loop of `incidents`: one item per record of the page,
      in page order. */
  method PayloadItems(page: seq<Record>) returns (items: seq<Record>)
    ensures items == page
  {
    items := [];
    for k := 0 to |page|
      invariant items == page[..k]
    {
      items := items + [page[k]];
    }
  }

  /** The sort, the count and the page copy of `incidents`, once the mask
      is built. */
  method Paginate(recs: seq<Record>, q: Query, filt: seq<bool>, sd: Bound, ed: Bound) returns (p: Page)
    requires 1 <= q.limit <= 1000 && 0 <= q.offset
    requires filt == MatchMask(recs, q, sd, ed)
    ensures p == Listing(recs, q, sd, ed)
  {
    var rows := Select(recs, filt);
    assert rows == Filtered(recs, q, sd, ed);
    var res := SortStep(rows, q.sort);
    var total := |res|;
    var items := PayloadItems(Slice(res, q.offset, q.offset + q.limit));
    p := Page(total, q.limit, q.offset, items);
  }
}
