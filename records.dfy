/** The record store built by `_load_df`: the raw CSV table, the inferred
    role mapping, and one normalised record per row (the derived columns
    `_dt`, `_cat`, `_desc`, `_lat`, `_lng`, `_id`, `_city`, `_state`). */
module Records {
  import opened Common
  import opened Schema

  /** A raw CSV value as `pd.read_csv` produces it; empty fields are NaN. */
  datatype Cell = Missing | Text(s: string) | Number(x: real)

  /** One CSV row: column name to value. */
  type Row = map<string, Cell>

  /** The loaded DataFrame: its column names (distinct, as `read_csv`
      makes them) and its rows in file order. */
  datatype Table = Table(columns: seq<string>, rows: seq<Row>)

  /** The value of `column` in `row`; `read_csv` gives every row every
      column, so the Missing fallback never applies to a loaded table. */
  function CellAt(row: Row, column: string): Cell {
    if column in row then row[column] else Missing
  }

  /** `df[column]` as a sequence of cells, one per row. */
  function Column(t: Table, column: string): seq<Cell> {
    seq(|t.rows|, i requires 0 <= i < |t.rows| => CellAt(t.rows[i], column))
  }

  /** `series.notna().any()` */
  predicate HasValue(col: seq<Cell>) {
    exists i | 0 <= i < |col| :: col[i] != Missing
  }

  /** A naive timestamp: calendar date and microseconds since midnight. */
  datatype Instant = Instant(year: int, month: int, day: int, micros: int)

  /** The chronological order of timestamps. */
  predicate NotAfter(a: Instant, b: Instant) {
    || a.year < b.year
    || (a.year == b.year && a.month < b.month)
    || (a.year == b.year && a.month == b.month && a.day < b.day)
    || (a.year == b.year && a.month == b.month && a.day == b.day && a.micros <= b.micros)
  }

  /** The derived columns of one row. Missing values (NaT, NaN, None) are None. */
  datatype Record = Record(
    id: string,
    dt: Option<Instant>,
    cat: string,
    desc: string,
    lat: Option<real>,
    lng: Option<real>,
    city: string,
    state: string)

  /** The pandas and datetime conversions the loader calls, left
      uninterpreted: each is a total function whose failure is None. */
  datatype Coercions = Coercions(
    // the i-th element of `column.astype(str)`; the column's inferred dtype
    // decides the spelling (1 in an int column is "1", in a float column
    // with blanks "1.0"; NaN is "nan"), hence the column argument.
    toText: (seq<Cell>, nat) -> string,
    // `pd.to_numeric(value, errors="coerce")` element by element.
    toNumber: Cell -> Option<real>,
    // whether `pd.to_datetime(column, errors="coerce")` raises for this column.
    columnToDatetimeRaises: seq<Cell> -> bool,
    // the i-th element of `pd.to_datetime(column, errors="coerce")`; pandas
    // infers one format from the whole column, hence the column argument.
    columnToDatetime: (seq<Cell>, nat) -> Option<Instant>,
    // `datetime.strptime(str(value), f)` for the nine formats f tried by
    // `_maybe_parse_date`, in their order; None where strptime raises.
    strptimeFormats: seq<Cell -> Option<Instant>>,
    // `pd.to_datetime(value, errors="coerce")` on one value; None for NaT or when it raises.
    toDatetime: Cell -> Option<Instant>)

  /** Format `i` is the first of `formats` that parses `cell`. */
  ghost predicate FirstParse(formats: seq<Cell -> Option<Instant>>, cell: Cell, i: int) {
    && 0 <= i < |formats|
    && formats[i](cell).Some?
    && forall i' :: 0 <= i' < i ==> formats[i'](cell).None?
  }

  /** `_maybe_parse_date`: the first format that parses the value wins; when
      none does, the general-purpose parser decides. */
  function MaybeParseDate(formats: seq<Cell -> Option<Instant>>, fallback: Cell -> Option<Instant>, cell: Cell): (r: Option<Instant>)
    ensures (forall i :: 0 <= i < |formats| ==> formats[i](cell).None?) ==> r == fallback(cell)
    ensures (exists i :: 0 <= i < |formats| && formats[i](cell).Some?) ==>
      exists i :: FirstParse(formats, cell, i) && r == formats[i](cell)
  {
    if formats == [] then fallback(cell)
    else if formats[0](cell).Some? then
      assert FirstParse(formats, cell, 0);
      formats[0](cell)
    else
      var r := MaybeParseDate(formats[1..], fallback, cell);
      assert (exists i :: 0 <= i < |formats| && formats[i](cell).Some?) ==>
        exists i :: FirstParse(formats, cell, i) && r == formats[i](cell)
      by {
        if exists i :: 0 <= i < |formats| && formats[i](cell).Some? {
          var i :| 0 <= i < |formats| && formats[i](cell).Some?;
          assert formats[1..][i - 1] == formats[i];
          var k :| FirstParse(formats[1..], cell, k) && r == formats[1..][k](cell);
          assert FirstParse(formats, cell, k + 1);
        }
      }
      r
  }

  /** The `_dt` column: a bulk conversion of the date column (per value
      through `_maybe_parse_date` when the bulk conversion raises), or all
      missing when the date role is unmapped or its column is all NaN. */
  function ParsedDates(t: Table, dateColumn: Option<string>, co: Coercions): (dts: seq<Option<Instant>>)
    ensures |dts| == |t.rows|
  {
    if dateColumn.Some? && dateColumn.value != "" && HasValue(Column(t, dateColumn.value)) then
      var col := Column(t, dateColumn.value);
      if co.columnToDatetimeRaises(col) then
        seq(|col|, i requires 0 <= i < |col| => MaybeParseDate(co.strptimeFormats, co.toDatetime, col[i]))
      else
        seq(|col|, i requires 0 <= i < |col| => co.columnToDatetime(col, i))
    else
      seq(|t.rows|, i => None)
  }

  /** A text role's derived value for row `i`: the mapped column as a
      string, else "". */
  function TextOf(t: Table, i: nat, column: Option<string>, co: Coercions): string {
    if column.Some? && column.value != "" && column.value in t.columns then co.toText(Column(t, column.value), i) else ""
  }

  /** A coordinate role's derived value: the mapped column as a number, else missing. */
  function NumberOf(t: Table, row: Row, column: Option<string>, co: Coercions): Option<real> {
    if column.Some? && column.value != "" && column.value in t.columns then co.toNumber(CellAt(row, column.value)) else None
  }

  /** The id: the mapped column as a string, else the row position as a string. */
  function IdOf(t: Table, i: nat, column: Option<string>, co: Coercions): string
    requires i < |t.rows|
  {
    if column.Some? && column.value != "" && column.value in t.columns then co.toText(Column(t, column.value), i) else NatToString(i)
  }

  /** The derived columns of every row, in row order. */
  function Normalize(t: Table, m: RoleMapping, co: Coercions): seq<Record> {
    var dts := ParsedDates(t, m.date, co);
    seq(|t.rows|, i requires 0 <= i < |t.rows| =>
      var row := t.rows[i];
      Record(
        IdOf(t, i, m.id, co),
        dts[i],
        TextOf(t, i, m.category, co),
        TextOf(t, i, m.description, co),
        NumberOf(t, row, m.lat, co),
        NumberOf(t, row, m.lng, co),
        TextOf(t, i, m.city, co),
        TextOf(t, i, m.state, co)))
  }

  /** The whole store: the raw table, its role mapping and its records. */
  datatype Store = Store(raw: Table, schema: RoleMapping, records: seq<Record>)

  function Build(t: Table, co: Coercions): Store {
    var m := AutoMapColumns(t.columns);
    Store(t, m, Normalize(t, m, co))
  }

  /** A mapped role's column exists and has a non-empty (truthy) name, so
      the loader's `schema[role] and schema[role] in df.columns` guard holds. */
  lemma MappedColumnUsable(columns: seq<string>, role: Role)
    requires AutoMapColumns(columns).Get(role).Some?
    ensures AutoMapColumns(columns).Get(role).value != ""
    ensures AutoMapColumns(columns).Get(role).value in columns
  {
    MappedColumnExists(columns, role);
    var c := AutoMapColumns(columns).Get(role).value;
    var i :| 0 <= i < |Candidates(role)| && Candidates(role)[i] == Lower(c);
    CandidateNonEmpty(role, i);
  }

  lemma CandidateNonEmpty(role: Role, i: int)
    requires 0 <= i < |Candidates(role)|
    ensures Candidates(role)[i] != ""
  {
  }

  /** Every role the mapping names a column for names an existing column
      with a non-empty name. */
  ghost predicate Usable(t: Table, m: RoleMapping) {
    forall role :: m.Get(role).Some? ==> m.Get(role).value != "" && m.Get(role).value in t.columns
  }

  /** The mapping the loader infers is usable. */
  lemma InferredUsable(t: Table)
    ensures Usable(t, AutoMapColumns(t.columns))
  {
    forall role | AutoMapColumns(t.columns).Get(role).Some?
      ensures AutoMapColumns(t.columns).Get(role).value != ""
      ensures AutoMapColumns(t.columns).Get(role).value in t.columns
    {
      MappedColumnUsable(t.columns, role);
    }
  }

  /** Under a usable mapping, a mapped role's field of record `i` is the
      conversion of row `i`'s value in that column. */
  lemma NormalizeMapped(t: Table, m: RoleMapping, co: Coercions, i: nat)
    requires i < |t.rows| && Usable(t, m)
    ensures |Normalize(t, m, co)| == |t.rows|
    ensures var r, row := Normalize(t, m, co)[i], t.rows[i];
      && (m.id.Some? ==> r.id == co.toText(Column(t, m.id.value), i))
      && (m.category.Some? ==> r.cat == co.toText(Column(t, m.category.value), i))
      && (m.description.Some? ==> r.desc == co.toText(Column(t, m.description.value), i))
      && (m.city.Some? ==> r.city == co.toText(Column(t, m.city.value), i))
      && (m.state.Some? ==> r.state == co.toText(Column(t, m.state.value), i))
      && (m.lat.Some? ==> r.lat == co.toNumber(CellAt(row, m.lat.value)))
      && (m.lng.Some? ==> r.lng == co.toNumber(CellAt(row, m.lng.value)))
  {
    assert m.Get(Id) == m.id && m.Get(Category) == m.category && m.Get(Description) == m.description;
    assert m.Get(City) == m.city && m.Get(State) == m.state && m.Get(Lat) == m.lat && m.Get(Lng) == m.lng;
  }

  /** One record per row, in row order; where a role is mapped, the derived
      field of row `i` is the conversion of that row's value in the mapped
      column. */
  lemma MappedFields(t: Table, co: Coercions, i: nat)
    requires i < |t.rows|
    ensures |Build(t, co).records| == |t.rows|
    ensures var m, r, row := AutoMapColumns(t.columns), Build(t, co).records[i], t.rows[i];
      && (m.id.Some? ==> r.id == co.toText(Column(t, m.id.value), i))
      && (m.category.Some? ==> r.cat == co.toText(Column(t, m.category.value), i))
      && (m.description.Some? ==> r.desc == co.toText(Column(t, m.description.value), i))
      && (m.city.Some? ==> r.city == co.toText(Column(t, m.city.value), i))
      && (m.state.Some? ==> r.state == co.toText(Column(t, m.state.value), i))
      && (m.lat.Some? ==> r.lat == co.toNumber(CellAt(row, m.lat.value)))
      && (m.lng.Some? ==> r.lng == co.toNumber(CellAt(row, m.lng.value)))
  {
    InferredUsable(t);
    NormalizeMapped(t, AutoMapColumns(t.columns), co, i);
  }

  /** Under a usable mapping, record `i`'s timestamp is missing unless the
      date role is mapped and its column holds a value; then it is the bulk
      conversion's value, or, when the bulk conversion raises,
      `_maybe_parse_date` of row `i`'s own value. */
  lemma NormalizeDate(t: Table, m: RoleMapping, co: Coercions, i: nat)
    requires i < |t.rows| && Usable(t, m)
    ensures |Normalize(t, m, co)| == |t.rows|
    ensures var r := Normalize(t, m, co)[i];
      && (m.date.None? ==> r.dt == None)
      && (m.date.Some? ==> var col := Column(t, m.date.value);
        && (!HasValue(col) ==> r.dt == None)
        && (HasValue(col) && co.columnToDatetimeRaises(col) ==>
              r.dt == MaybeParseDate(co.strptimeFormats, co.toDatetime, CellAt(t.rows[i], m.date.value)))
        && (HasValue(col) && !co.columnToDatetimeRaises(col) ==> r.dt == co.columnToDatetime(col, i)))
  {
    assert m.Get(Date) == m.date;
  }

  /** The `_dt` value of row `i` in the loaded store, by the same cases. */
  lemma DateField(t: Table, co: Coercions, i: nat)
    requires i < |t.rows|
    ensures |Build(t, co).records| == |t.rows|
    ensures var m, r := AutoMapColumns(t.columns), Build(t, co).records[i];
      && (m.date.None? ==> r.dt == None)
      && (m.date.Some? ==> var col := Column(t, m.date.value);
        && (!HasValue(col) ==> r.dt == None)
        && (HasValue(col) && co.columnToDatetimeRaises(col) ==>
              r.dt == MaybeParseDate(co.strptimeFormats, co.toDatetime, CellAt(t.rows[i], m.date.value)))
        && (HasValue(col) && !co.columnToDatetimeRaises(col) ==> r.dt == co.columnToDatetime(col, i)))
  {
    InferredUsable(t);
    NormalizeDate(t, AutoMapColumns(t.columns), co, i);
  }

  /** No column spells (in any case) a candidate of `role`. */
  ghost predicate NoCandidateColumn(columns: seq<string>, role: Role) {
    forall k :: 0 <= k < |Candidates(role)| ==> !Spelled(columns, Candidates(role)[k])
  }

  /** The loader's default for an unmapped role in record `i`: the row
      position for the id, "" for the text fields, missing for the
      coordinates and the timestamp. */
  predicate HasDefault(r: Record, role: Role, i: nat) {
    match role
    case Id => r.id == NatToString(i)
    case Date => r.dt == None
    case Category => r.cat == ""
    case Description => r.desc == ""
    case City => r.city == ""
    case State => r.state == ""
    case Lat => r.lat == None
    case Lng => r.lng == None
  }

  /** Under any mapping, an unmapped role's field gets the loader's default. */
  lemma NormalizeUnmapped(t: Table, m: RoleMapping, co: Coercions, i: nat, role: Role)
    requires i < |t.rows|
    requires m.Get(role).None?
    ensures HasDefault(Normalize(t, m, co)[i], role, i)
  {
  }

  /** Roles without a matching column get the loader's defaults: "" for the
      text fields, missing for the coordinates and the timestamp, and the
      row position for the id. */
  lemma UnmappedDefaults(t: Table, co: Coercions, i: nat)
    requires i < |t.rows|
    ensures forall role :: NoCandidateColumn(t.columns, role) ==> HasDefault(Build(t, co).records[i], role, i)
  {
    var m := AutoMapColumns(t.columns);
    forall role | NoCandidateColumn(t.columns, role) ensures HasDefault(Build(t, co).records[i], role, i) {
      UnmappedRole(t.columns, role);
      NormalizeUnmapped(t, m, co, i, role);
    }
  }

  lemma UnmappedRole(columns: seq<string>, role: Role)
    requires NoCandidateColumn(columns, role)
    ensures AutoMapColumns(columns).Get(role) == None
  {
    AutoMapSpec(columns, role);
  }

  /** Without an id column, the positional ids of any two rows differ. */
  lemma PositionalIdsDistinct(t: Table, co: Coercions, i: nat, j: nat)
    requires NoCandidateColumn(t.columns, Id)
    requires i < j < |t.rows|
    ensures Build(t, co).records[i].id != Build(t, co).records[j].id
  {
    UnmappedDefaults(t, co, i);
    UnmappedDefaults(t, co, j);
    assert HasDefault(Build(t, co).records[i], Id, i) && HasDefault(Build(t, co).records[j], Id, j);
    if NatToString(i) == NatToString(j) {
      NatToStringInjective(i, j);
    }
  }

  /** A row has a timestamp only when the date role is mapped and its column
      holds at least one value. */
  lemma TimestampNeedsDateColumn(t: Table, co: Coercions, i: nat)
    requires i < |t.rows|
    requires Build(t, co).records[i].dt.Some?
    ensures AutoMapColumns(t.columns).date.Some?
    ensures HasValue(Column(t, AutoMapColumns(t.columns).date.value))
  {
  }
}
