/** Column-role inference (`_auto_map_columns` and its helper `pick`):
    which raw CSV column, if any, plays each of the eight roles the query
    engine reads. */
module Schema {
  import opened Common

  datatype Role = Lat | Lng | Date | Category | Description | Id | City | State

  /** The priority-ordered candidate names of each role, in lower case. */
  function Candidates(role: Role): seq<string> {
    match role
    case Lat => ["latitude", "lat", "y"]
    case Lng => ["longitude", "lon", "lng", "x"]
    case Date => ["date", "datetime", "occurred_on", "timestamp", "reported_date", "reported_at"]
    case Category => ["category", "offense", "crime_type", "offense_type", "type", "ucr", "incident_type"]
    case Description => ["description", "details", "summary", "narrative", "offense_description", "incident_description"]
    case Id => ["id", "incident_id", "case_number", "case_id", "event_number"]
    case City => ["city", "municipality", "jurisdiction"]
    case State => ["state", "province", "region"]
  }

  /** The `schema` dict: each role's column in its original spelling, or None. */
  datatype RoleMapping = RoleMapping(
    lat: Option<string>,
    lng: Option<string>,
    date: Option<string>,
    category: Option<string>,
    description: Option<string>,
    id: Option<string>,
    city: Option<string>,
    state: Option<string>)
  {
    function Get(role: Role): Option<string> {
      match role
      case Lat => lat
      case Lng => lng
      case Date => date
      case Category => category
      case Description => description
      case Id => id
      case City => city
      case State => state
    }
  }

  /** The initial value of the `schema` global, before any load. */
  const Unmapped := RoleMapping(None, None, None, None, None, None, None, None)

  /** `{c.lower(): c for c in columns}`: each lower-cased name maps to the
      column that spells it, a later column overwriting an earlier one. */
  function LowerIndex(columns: seq<string>): map<string, string> {
    if columns == [] then map[]
    else LowerIndex(columns[..|columns| - 1])[Lower(columns[|columns| - 1]) := columns[|columns| - 1]]
  }

  /** Column `j` is the last one whose lower-cased name is `k`. */
  ghost predicate LastSpelling(columns: seq<string>, k: string, j: int) {
    && 0 <= j < |columns|
    && Lower(columns[j]) == k
    && forall j' :: j < j' < |columns| ==> Lower(columns[j']) != k
  }

  ghost predicate Spelled(columns: seq<string>, k: string) {
    exists j :: 0 <= j < |columns| && Lower(columns[j]) == k
  }

  /** The index holds exactly the lower-cased column names, and each maps to
      the last column that lower-cases to it. */
  lemma LowerIndexSpec(columns: seq<string>)
    ensures forall k :: k in LowerIndex(columns) <==> Spelled(columns, k)
    ensures forall k :: k in LowerIndex(columns) ==>
      exists j :: LastSpelling(columns, k, j) && columns[j] == LowerIndex(columns)[k]
  {
    LowerIndexKeys(columns);
    LowerIndexValues(columns);
  }

  lemma {:induction false} LowerIndexKeys(columns: seq<string>)
    ensures forall k :: k in LowerIndex(columns) <==> Spelled(columns, k)
  {
    if columns != [] {
      var n := |columns| - 1;
      var init := columns[..n];
      LowerIndexKeys(init);
      forall k ensures k in LowerIndex(columns) <==> Spelled(columns, k) {
        if Spelled(init, k) {
          var j :| 0 <= j < |init| && Lower(init[j]) == k;
          assert columns[j] == init[j];
        }
        if Spelled(columns, k) && k != Lower(columns[n]) {
          var j :| 0 <= j < |columns| && Lower(columns[j]) == k;
          assert init[j] == columns[j];
        }
      }
    }
  }

  lemma {:induction false} LowerIndexValues(columns: seq<string>)
    ensures forall k :: k in LowerIndex(columns) ==>
      exists j :: LastSpelling(columns, k, j) && columns[j] == LowerIndex(columns)[k]
  {
    if columns != [] {
      var n := |columns| - 1;
      var init := columns[..n];
      LowerIndexValues(init);
      var m := LowerIndex(columns);
      forall k | k in m
        ensures exists j :: LastSpelling(columns, k, j) && columns[j] == m[k]
      {
        if k == Lower(columns[n]) {
          assert LastSpelling(columns, k, n);
        } else {
          var j :| LastSpelling(init, k, j) && init[j] == LowerIndex(init)[k];
          assert LastSpelling(columns, k, j);
        }
      }
    }
  }

  /** Candidate `i` is a key of the index and no earlier candidate is. */
  ghost predicate FirstHit(candidates: seq<string>, index: map<string, string>, i: int) {
    && 0 <= i < |candidates|
    && candidates[i] in index
    && forall i' :: 0 <= i' < i ==> candidates[i'] !in index
  }

  /** `pick(candidates)`: the column of the first candidate that is a key of
      the index, or None when no candidate is. */
  function Pick(candidates: seq<string>, index: map<string, string>): (r: Option<string>)
    ensures r.None? <==> forall i :: 0 <= i < |candidates| ==> candidates[i] !in index
    ensures r.Some? ==> exists i :: FirstHit(candidates, index, i) && r.value == index[candidates[i]]
  {
    if candidates == [] then None
    else if candidates[0] in index then
      assert FirstHit(candidates, index, 0);
      Some(index[candidates[0]])
    else
      var r := Pick(candidates[1..], index);
      assert r.Some? ==> exists i :: FirstHit(candidates, index, i) && r.value == index[candidates[i]] by {
        if r.Some? {
          var i :| FirstHit(candidates[1..], index, i) && r.value == index[candidates[1..][i]];
          assert FirstHit(candidates, index, i + 1);
        }
      }
      r
  }

  /** `_auto_map_columns`: every role picked independently from the same index. */
  function AutoMapColumns(columns: seq<string>): RoleMapping {
    var index := LowerIndex(columns);
    RoleMapping(
      PickRole(Lat, index),
      PickRole(Lng, index),
      PickRole(Date, index),
      PickRole(Category, index),
      PickRole(Description, index),
      PickRole(Id, index),
      PickRole(City, index),
      PickRole(State, index))
  }

  /** `pick` called with the candidates of `role`. */
  function PickRole(role: Role, index: map<string, string>): Option<string> {
    Pick(Candidates(role), index)
  }

  /** Each role of the mapping is picked from that role's candidates. */
  lemma RolePicked(columns: seq<string>, role: Role)
    ensures AutoMapColumns(columns).Get(role) == Pick(Candidates(role), LowerIndex(columns))
  {
    assert AutoMapColumns(columns).Get(role) == PickRole(role, LowerIndex(columns));
  }

  /** No candidate name is listed under two roles. */
  lemma CandidatesDisjoint(r1: Role, r2: Role, i: int, j: int)
    requires r1 != r2
    requires 0 <= i < |Candidates(r1)| && 0 <= j < |Candidates(r2)|
    ensures Candidates(r1)[i] != Candidates(r2)[j]
  {
    match r1
    case Lat | Lng => CoordinateNamesDisjoint(r1, r2, i, j);
    case Date | Category => DateAndCategoryNamesDisjoint(r1, r2, i, j);
    case Description | Id => DescriptionAndIdNamesDisjoint(r1, r2, i, j);
    case City | State => PlaceNamesDisjoint(r1, r2, i, j);
  }

  // The four lemmas below split the comparison of all candidate names by
  // the first role, so that each compares only a quarter of the pairs.

  lemma CoordinateNamesDisjoint(r1: Role, r2: Role, i: int, j: int)
    requires (r1 == Lat || r1 == Lng) && r1 != r2
    requires 0 <= i < |Candidates(r1)| && 0 <= j < |Candidates(r2)|
    ensures Candidates(r1)[i] != Candidates(r2)[j]
  {
  }

  lemma DateAndCategoryNamesDisjoint(r1: Role, r2: Role, i: int, j: int)
    requires (r1 == Date || r1 == Category) && r1 != r2
    requires 0 <= i < |Candidates(r1)| && 0 <= j < |Candidates(r2)|
    ensures Candidates(r1)[i] != Candidates(r2)[j]
  {
  }

  lemma DescriptionAndIdNamesDisjoint(r1: Role, r2: Role, i: int, j: int)
    requires (r1 == Description || r1 == Id) && r1 != r2
    requires 0 <= i < |Candidates(r1)| && 0 <= j < |Candidates(r2)|
    ensures Candidates(r1)[i] != Candidates(r2)[j]
  {
  }

  lemma PlaceNamesDisjoint(r1: Role, r2: Role, i: int, j: int)
    requires (r1 == City || r1 == State) && r1 != r2
    requires 0 <= i < |Candidates(r1)| && 0 <= j < |Candidates(r2)|
    ensures Candidates(r1)[i] != Candidates(r2)[j]
  {
  }

  /** Some column lower-cases to `cands[i]`, and no column lower-cases to
      an earlier candidate. */
  ghost predicate FirstSpelled(columns: seq<string>, cands: seq<string>, i: int) {
    && 0 <= i < |cands|
    && Spelled(columns, cands[i])
    && forall i' :: 0 <= i' < i ==> !Spelled(columns, cands[i'])
  }

  /** `pick` over the index of `columns`: None exactly when no column spells
      any candidate, else the last column spelling the earliest spelled
      candidate. */
  lemma PickSpec(columns: seq<string>, cands: seq<string>)
    ensures Pick(cands, LowerIndex(columns)).None? <==>
      forall i :: 0 <= i < |cands| ==> !Spelled(columns, cands[i])
    ensures Pick(cands, LowerIndex(columns)).Some? ==>
      exists i, j :: FirstSpelled(columns, cands, i)
        && LastSpelling(columns, cands[i], j)
        && Pick(cands, LowerIndex(columns)).value == columns[j]
  {
    var index := LowerIndex(columns);
    LowerIndexSpec(columns);
    var r := Pick(cands, index);
    if r.Some? {
      var i :| FirstHit(cands, index, i) && r.value == index[cands[i]];
      var j :| LastSpelling(columns, cands[i], j) && columns[j] == index[cands[i]];
      assert FirstSpelled(columns, cands, i);
    }
  }

  /** Each role is mapped to the last column spelling (case-insensitively)
      the earliest of its candidates that any column spells, and is unmapped
      exactly when no column spells any of its candidates. */
  lemma AutoMapSpec(columns: seq<string>, role: Role)
    ensures AutoMapColumns(columns).Get(role).None? <==>
      forall i :: 0 <= i < |Candidates(role)| ==> !Spelled(columns, Candidates(role)[i])
    ensures AutoMapColumns(columns).Get(role).Some? ==>
      exists i, j :: FirstSpelled(columns, Candidates(role), i)
        && LastSpelling(columns, Candidates(role)[i], j)
        && AutoMapColumns(columns).Get(role).value == columns[j]
  {
    RolePicked(columns, role);
    PickSpec(columns, Candidates(role));
  }

  /** A mapped role names an existing column whose lower-cased name is one
      of the role's candidates. */
  lemma MappedColumnExists(columns: seq<string>, role: Role)
    requires AutoMapColumns(columns).Get(role).Some?
    ensures AutoMapColumns(columns).Get(role).value in columns
    ensures Lower(AutoMapColumns(columns).Get(role).value) in Candidates(role)
  {
    AutoMapSpec(columns, role);
  }

  /** Two different roles never share a column, because no candidate name is
      listed under two roles. */
  lemma MappedColumnsDistinct(columns: seq<string>, r1: Role, r2: Role)
    requires r1 != r2
    requires AutoMapColumns(columns).Get(r1).Some? && AutoMapColumns(columns).Get(r2).Some?
    ensures AutoMapColumns(columns).Get(r1).value != AutoMapColumns(columns).Get(r2).value
  {
    MappedColumnExists(columns, r1);
    MappedColumnExists(columns, r2);
    var c1, c2 := AutoMapColumns(columns).Get(r1).value, AutoMapColumns(columns).Get(r2).value;
    var i :| 0 <= i < |Candidates(r1)| && Candidates(r1)[i] == Lower(c1);
    var j :| 0 <= j < |Candidates(r2)| && Candidates(r2)[j] == Lower(c2);
    CandidatesDisjoint(r1, r2, i, j);
  }

  /** No two columns have the same lower-cased name. */
  ghost predicate CaseDistinct(columns: seq<string>) {
    forall i, j :: 0 <= i < j < |columns| ==> Lower(columns[i]) != Lower(columns[j])
  }

  /** When no two columns differ only in case, the mapping does not depend
      on the order of the columns. */
  lemma ColumnOrderIrrelevant(c1: seq<string>, c2: seq<string>)
    requires multiset(c1) == multiset(c2)
    requires CaseDistinct(c1)
    ensures AutoMapColumns(c1) == AutoMapColumns(c2)
  {
    LowerIndexSpec(c1);
    LowerIndexSpec(c2);
    var m1, m2 := LowerIndex(c1), LowerIndex(c2);
    forall k ensures Spelled(c1, k) <==> Spelled(c2, k) {
      if Spelled(c1, k) {
        var j :| 0 <= j < |c1| && Lower(c1[j]) == k;
        assert c1[j] in multiset(c2);
        var j' :| 0 <= j' < |c2| && c2[j'] == c1[j];
      }
      if Spelled(c2, k) {
        var j :| 0 <= j < |c2| && Lower(c2[j]) == k;
        assert c2[j] in multiset(c1);
        var j' :| 0 <= j' < |c1| && c1[j'] == c2[j];
      }
    }
    forall k | k in m1 ensures k in m2 && m1[k] == m2[k] {
      var j1 :| LastSpelling(c1, k, j1) && c1[j1] == m1[k];
      var j2 :| LastSpelling(c2, k, j2) && c2[j2] == m2[k];
      assert c2[j2] in multiset(c1);
      var j :| 0 <= j < |c1| && c1[j] == c2[j2];
      assert Lower(c1[j]) == k == Lower(c1[j1]);
      assert j == j1;
    }
    assert m1 == m2;
  }
}
