/** The `/stats` aggregation: records narrowed by the optional date bounds,
    then counted per category, city or state (largest count first) or per
    calendar day, month or year (oldest first). */
module Stats {
  import opened Common
  import opened Records
  import opened Incidents
  import Grouping
  import Sorting

  /** The accepted values of the `by` parameter. */
  datatype GroupBy = ByCategory | ByDay | ByMonth | ByYear | ByCity | ByState

  function ParseBy(name: string): (g: Option<GroupBy>)
    ensures g.Some? <==> name in ["category", "day", "month", "year", "city", "state"]
  {
    if name == "category" then Some(ByCategory)
    else if name == "day" then Some(ByDay)
    else if name == "month" then Some(ByMonth)
    else if name == "year" then Some(ByYear)
    else if name == "city" then Some(ByCity)
    else if name == "state" then Some(ByState)
    else None
  }

  predicate IsTimeGrouping(g: GroupBy) {
    g == ByDay || g == ByMonth || g == ByYear
  }

  /** A calendar bucket: a day, a month (day 0) or a year (month and day 0). */
  datatype Bucket = Bucket(year: int, month: int, day: int)

  /** The key of one group: a text value or a calendar bucket. */
  datatype StatKey = TextKey(s: string) | TimeKey(b: Bucket)

  /** The `data` list: (key, count) pairs. */
  type Counts = seq<(StatKey, nat)>

  /** `dt.date`, `dt.to_period("M")` or `dt.year` of a timestamp. */
  function BucketOf(t: Instant, g: GroupBy): Bucket {
    if g == ByDay then Bucket(t.year, t.month, t.day)
    else if g == ByMonth then Bucket(t.year, t.month, 0)
    else Bucket(t.year, 0, 0)
  }

  /** The derived text field a text grouping counts. */
  function TextField(r: Record, g: GroupBy): string {
    if g == ByCity then r.city else if g == ByState then r.state else r.cat
  }

  /** The text key of every record, in row order. */
  function TextKeys(rs: seq<Record>, g: GroupBy): seq<StatKey> {
    seq(|rs|, i requires 0 <= i < |rs| => TextKey(TextField(rs[i], g)))
  }

  /** `_dt.dropna()` mapped to buckets, in row order. */
  function DatedBuckets(rs: seq<Record>, g: GroupBy): seq<StatKey> {
    if rs == [] then []
    else (if rs[0].dt.Some? then [TimeKey(BucketOf(rs[0].dt.value, g))] else []) + DatedBuckets(rs[1..], g)
  }

  /** `sort_values("count", ascending=False)` */
  function ByCountDescending(a: (StatKey, nat), b: (StatKey, nat)): bool {
    a.1 >= b.1
  }

  /** Calendar order of buckets (year, then month, then day). */
  predicate BucketNotAfter(a: Bucket, b: Bucket) {
    || a.year < b.year
    || (a.year == b.year && a.month < b.month)
    || (a.year == b.year && a.month == b.month && a.day <= b.day)
  }

  /** `sort_index()` on calendar keys; text keys, which never occur here,
      are put first so that the order is total. */
  function ByKeyAscending(a: (StatKey, nat), b: (StatKey, nat)): bool {
    a.0.TextKey? || (b.0.TimeKey? && BucketNotAfter(a.0.b, b.0.b))
  }

  /** The counts for one grouping of the date-filtered records. */
  function Grouped(rs: seq<Record>, g: GroupBy): Counts {
    if !IsTimeGrouping(g) then
      Sorting.InsertionSort(Grouping.Tally(TextKeys(rs, g)), ByCountDescending)
    else if forall i | 0 <= i < |rs| :: rs[i].dt.None? then
      []
    else
      Sorting.InsertionSort(Grouping.Tally(DatedBuckets(rs, g)), ByKeyAscending)
  }

  function DateMask(recs: seq<Record>, start: Bound, end: Bound): seq<bool> {
    seq(|recs|, i requires 0 <= i < |recs| => OnOrAfter(recs[i].dt, start) && OnOrBefore(recs[i].dt, end))
  }

  /** The `/stats` response data: the date bounds are converted first, then
      the `by` value is checked. */
  function StatsOf(recs: seq<Record>, groupBy: string, startDate: Option<string>, endDate: Option<string>, parse: DateParser): Result<Counts> {
    match ResolveBound(startDate, parse)
    case None => Err(InvalidStartDate)
    case Some(start) =>
      match ResolveBound(endDate, parse)
      case None => Err(InvalidEndDate)
      case Some(end) =>
        var rs := Select(recs, DateMask(recs, start, end));
        match ParseBy(groupBy)
        case None => Err(InvalidBy)
        case Some(g) =>
          if !MaskIsBoolean(|recs|, Given(startDate) || Given(endDate)) then Err(ServerError)
          else Ok(Grouped(rs, g))
  }

  /** `/stats` answers 400 in the handler's order: the start bound, the end
      bound, then the grouping. With valid parameters it answers 500 exactly
      when the store has no rows and no date bound is supplied; otherwise it
      answers the counts of the records inside both bounds. */
  lemma StatsSpec(recs: seq<Record>, groupBy: string, startDate: Option<string>, endDate: Option<string>, parse: DateParser)
    ensures var r := StatsOf(recs, groupBy, startDate, endDate, parse);
      && (ResolveBound(startDate, parse).None? ==> r == Err(InvalidStartDate))
      && (ResolveBound(startDate, parse).Some? && ResolveBound(endDate, parse).None? ==> r == Err(InvalidEndDate))
      && (ResolveBound(startDate, parse).Some? && ResolveBound(endDate, parse).Some? ==>
            (r == Err(InvalidBy) <==> ParseBy(groupBy).None?))
    ensures ResolveBound(startDate, parse).Some? && ResolveBound(endDate, parse).Some? && ParseBy(groupBy).Some? ==>
      var start, end, g := ResolveBound(startDate, parse).value, ResolveBound(endDate, parse).value, ParseBy(groupBy).value;
      var r := StatsOf(recs, groupBy, startDate, endDate, parse);
      && (r == Err(ServerError) <==> recs == [] && !Given(startDate) && !Given(endDate))
      && (r.Ok? <==> r != Err(ServerError))
      && (r.Ok? ==> CountsOfInside(r.value, recs, start, end, g))
  {
    if ResolveBound(startDate, parse).Some? && ResolveBound(endDate, parse).Some? && ParseBy(groupBy).Some? {
      var start, end, g := ResolveBound(startDate, parse).value, ResolveBound(endDate, parse).value, ParseBy(groupBy).value;
      if StatsOf(recs, groupBy, startDate, endDate, parse).Ok? {
        assert StatsOf(recs, groupBy, startDate, endDate, parse).value == Grouped(Select(recs, DateMask(recs, start, end)), g);
        CountsInside(recs, start, end, g);
      }
    }
  }

  /** `data` counts the records inside both bounds: for a text grouping one
      entry per value among them, the counts adding up to their number; for
      a calendar grouping one entry per bucket of those that have a
      timestamp, the counts adding up to the number of those. */
  ghost predicate CountsOfInside(data: Counts, recs: seq<Record>, start: Bound, end: Bound, g: GroupBy) {
    var inside := DateMask(recs, start, end);
    && (!IsTimeGrouping(g) ==>
          && Grouping.Total(data) == multiset(inside)[true]
          && Grouping.Keys(data) ==
               set x | x in recs && OnOrAfter(x.dt, start) && OnOrBefore(x.dt, end) :: TextKey(TextField(x, g)))
    && (IsTimeGrouping(g) ==>
          && Grouping.Total(data) == multiset(DatedMask(Select(recs, inside)))[true]
          && Grouping.Keys(data) ==
               set x | x in recs && OnOrAfter(x.dt, start) && OnOrBefore(x.dt, end) && x.dt.Some? :: TimeKey(BucketOf(x.dt.value, g)))
  }

  /** Grouping the date-filtered records counts the records inside both
      bounds. */
  lemma CountsInside(recs: seq<Record>, start: Bound, end: Bound, g: GroupBy)
    ensures CountsOfInside(Grouped(Select(recs, DateMask(recs, start, end)), g), recs, start, end, g)
  {
    var inside := DateMask(recs, start, end);
    var rs := Select(recs, inside);
    SelectSpec(recs, inside);
    DateFilterExact(recs, start, end);
    if IsTimeGrouping(g) {
      TimeStatsSpec(rs, g);
      DatedBucketsCount(rs, g);
    } else {
      TextStatsSpec(rs, g);
    }
  }

  /** The grouping of a `/stats` request that names none. */
  const DefaultBy := "category"

  /** A request without parameters answers 500 for a store without rows;
      otherwise it counts every record per category: one entry per category
      value, the counts adding up to the number of records. */
  lemma DefaultStats(recs: seq<Record>, parse: DateParser)
    ensures recs == [] ==> StatsOf(recs, DefaultBy, None, None, parse) == Err(ServerError)
    ensures recs != [] ==> StatsOf(recs, DefaultBy, None, None, parse).Ok?
    ensures recs != [] ==> var data := StatsOf(recs, DefaultBy, None, None, parse).value;
      && Grouping.Total(data) == |recs|
      && Grouping.Keys(data) == set x | x in recs :: TextKey(x.cat)
  {
    var inside := DateMask(recs, NoBound, NoBound);
    SelectAll(recs, inside);
    assert ParseBy(DefaultBy) == Some(ByCategory);
    if recs != [] {
      assert StatsOf(recs, DefaultBy, None, None, parse) == Ok(Grouped(recs, ByCategory));
    }
    TextStatsSpec(recs, ByCategory);
    assert forall x :: TextField(x, ByCategory) == x.cat;
  }

  /** One bucket per record with a timestamp. */
  lemma {:induction false} DatedBucketsCount(rs: seq<Record>, g: GroupBy)
    ensures |DatedBuckets(rs, g)| == multiset(DatedMask(rs))[true]
  {
    if rs != [] {
      DatedBucketsCount(rs[1..], g);
      assert DatedMask(rs) == [rs[0].dt.Some?] + DatedMask(rs[1..]);
    }
  }

  /** The date-filtered records are exactly those inside both bounds. */
  lemma DateFilterExact(recs: seq<Record>, start: Bound, end: Bound)
    ensures forall x :: x in Select(recs, DateMask(recs, start, end)) <==>
      x in recs && OnOrAfter(x.dt, start) && OnOrBefore(x.dt, end)
  {
    var mask := DateMask(recs, start, end);
    SelectSpec(recs, mask);
    forall x | x in recs && OnOrAfter(x.dt, start) && OnOrBefore(x.dt, end)
      ensures x in Select(recs, mask)
    {
      var i :| 0 <= i < |recs| && recs[i] == x;
      assert mask[i];
    }
  }

  /** Largest count first. */
  lemma CountOrderTotal()
    ensures Sorting.TotalPreorder(ByCountDescending)
  {
  }

  lemma KeyOrderTotal()
    ensures Sorting.TotalPreorder(ByKeyAscending)
  {
  }

  /** Per category, city or state: one entry per distinct value, each with
      the number of records holding it, largest count first, and the counts
      add up to the number of records. */
  lemma TextStatsSpec(rs: seq<Record>, g: GroupBy)
    requires !IsTimeGrouping(g)
    ensures var data := Grouped(rs, g);
      && Grouping.DistinctKeys(data)
      && Grouping.Keys(data) == (set r | r in rs :: TextKey(TextField(r, g)))
      && (forall e :: e in data ==>
            e.0.TextKey? && e.1 > 0 && e.1 == multiset(TextKeys(rs, g))[e.0])
      && Grouping.Total(data) == |rs|
      && Sorting.SortedBy(data, ByCountDescending)
  {
    var keys := TextKeys(rs, g);
    var t := Grouping.Tally(keys);
    Grouping.SortedTally(keys, ByCountDescending);
    CountOrderTotal();
    Sorting.SortSorted(t, ByCountDescending);
    forall k | k in keys ensures exists r :: r in rs && k == TextKey(TextField(r, g)) {
      var i :| 0 <= i < |keys| && keys[i] == k;
      assert rs[i] in rs;
    }
    forall r | r in rs ensures TextKey(TextField(r, g)) in keys {
      var i :| 0 <= i < |rs| && rs[i] == r;
      assert keys[i] == TextKey(TextField(r, g));
    }
    var data := Grouped(rs, g);
    forall e | e in data ensures e.0.TextKey? {
      assert e.0 in Grouping.Keys(data);
    }
  }

  /** Every record with a timestamp contributes its bucket, in row order, and
      nothing else does. */
  lemma {:induction false} DatedBucketsSpec(rs: seq<Record>, g: GroupBy)
    ensures forall k :: k in DatedBuckets(rs, g) <==>
      exists r :: r in rs && r.dt.Some? && k == TimeKey(BucketOf(r.dt.value, g))
    ensures DatedBuckets(rs, g) == [] <==> forall i :: 0 <= i < |rs| ==> rs[i].dt.None?
  {
    if rs != [] {
      DatedBucketsSpec(rs[1..], g);
      assert rs == [rs[0]] + rs[1..];
      forall k ensures k in DatedBuckets(rs, g) <==>
        exists r :: r in rs && r.dt.Some? && k == TimeKey(BucketOf(r.dt.value, g))
      {
        if exists r :: r in rs && r.dt.Some? && k == TimeKey(BucketOf(r.dt.value, g)) {
          var r :| r in rs && r.dt.Some? && k == TimeKey(BucketOf(r.dt.value, g));
          if r != rs[0] {
            assert r in rs[1..];
          }
        }
      }
      if DatedBuckets(rs, g) == [] {
        forall i | 0 <= i < |rs| ensures rs[i].dt.None? {
          if i > 0 {
            assert rs[i] == rs[1..][i - 1];
          }
        }
      }
      if forall i :: 0 <= i < |rs| ==> rs[i].dt.None? {
        forall i | 0 <= i < |rs[1..]| ensures rs[1..][i].dt.None? {
          assert rs[1..][i] == rs[i + 1];
        }
      }
    }
  }

  /** Two different calendar keys in order are strictly in order. */
  ghost predicate StrictlyChronological(data: Counts) {
    forall i, j :: 0 <= i < j < |data| ==>
      data[i].0.TimeKey? && data[j].0.TimeKey? &&
      BucketNotAfter(data[i].0.b, data[j].0.b) && data[i].0.b != data[j].0.b
  }

  /** Per day, month or year: empty exactly when no record has a timestamp;
      otherwise one entry per bucket some timestamp falls in, each with the
      number of timestamps in it, strictly oldest first, and the counts add
      up to the number of records with a timestamp. */
  lemma TimeStatsSpec(rs: seq<Record>, g: GroupBy)
    requires IsTimeGrouping(g)
    ensures var data := Grouped(rs, g);
      && (data == [] <==> forall i :: 0 <= i < |rs| ==> rs[i].dt.None?)
      && Grouping.Keys(data) == (set r | r in rs && r.dt.Some? :: TimeKey(BucketOf(r.dt.value, g)))
      && (forall e :: e in data ==> e.1 > 0 && e.1 == multiset(DatedBuckets(rs, g))[e.0])
      && Grouping.Total(data) == |DatedBuckets(rs, g)|
      && StrictlyChronological(data)
  {
    var keys := DatedBuckets(rs, g);
    var data := Sorting.InsertionSort(Grouping.Tally(keys), ByKeyAscending);
    DatedBucketsSpec(rs, g);
    Grouping.SortedTally(keys, ByKeyAscending);
    TimeGroupedSorted(rs, g);
    DatedKeys(rs, g);
    Chronological(keys);
  }

  /** The `isna().all()` shortcut agrees with sorting an empty tally, and
      the sorted tally is empty exactly when there are no dated buckets. */
  lemma TimeGroupedSorted(rs: seq<Record>, g: GroupBy)
    requires IsTimeGrouping(g)
    ensures Grouped(rs, g) == Sorting.InsertionSort(Grouping.Tally(DatedBuckets(rs, g)), ByKeyAscending)
    ensures Grouped(rs, g) == [] <==> DatedBuckets(rs, g) == []
  {
    var keys := DatedBuckets(rs, g);
    DatedBucketsSpec(rs, g);
    Grouping.TallySpec(keys);
    Sorting.SortPermutes(Grouping.Tally(keys), ByKeyAscending);
    if keys == [] {
      assert Grouping.Tally(keys) == [];
    }
  }

  lemma DatedKeys(rs: seq<Record>, g: GroupBy)
    ensures (set k | k in DatedBuckets(rs, g)) == set r | r in rs && r.dt.Some? :: TimeKey(BucketOf(r.dt.value, g))
  {
    DatedBucketsSpec(rs, g);
  }

  /** Sorting a tally of calendar keys orders them strictly, oldest first. */
  lemma Chronological(keys: seq<StatKey>)
    requires forall k :: k in keys ==> k.TimeKey?
    ensures StrictlyChronological(Sorting.InsertionSort(Grouping.Tally(keys), ByKeyAscending))
  {
    var data := Sorting.InsertionSort(Grouping.Tally(keys), ByKeyAscending);
    Grouping.SortedTally(keys, ByKeyAscending);
    KeyOrderTotal();
    Sorting.SortSorted(Grouping.Tally(keys), ByKeyAscending);
    forall i, j | 0 <= i < j < |data|
      ensures data[i].0.TimeKey? && data[j].0.TimeKey?
      ensures BucketNotAfter(data[i].0.b, data[j].0.b) && data[i].0.b != data[j].0.b
    {
      assert data[i] in data && data[j] in data;
      assert data[i].0 in Grouping.Keys(data) && data[j].0 in Grouping.Keys(data);
      assert ByKeyAscending(data[i], data[j]);
    }
  }
}
