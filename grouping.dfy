/** Counting occurrences of keys the way a Python dict does it
    (`grid[key] = grid.get(key, 0) + 1`, `value_counts`, `groupby(...).size()`):
    a table of (key, count) entries in the order keys were first seen. */
module Grouping {
  import Sorting

  /** Records one more occurrence of `k`: its entry is incremented in place,
      or a new entry is appended when `k` was not seen before. */
  function AddOne<K(==)>(t: seq<(K, nat)>, k: K): seq<(K, nat)> {
    if t == [] then [(k, 1)]
    else if t[0].0 == k then [(k, t[0].1 + 1)] + t[1..]
    else [t[0]] + AddOne(t[1..], k)
  }

  /** The grouped counts of `ks`, built by adding the keys one at a time. */
  function Tally<K(==)>(ks: seq<K>): seq<(K, nat)> {
    if ks == [] then [] else AddOne(Tally(ks[..|ks| - 1]), ks[|ks| - 1])
  }

  /** The count recorded for `k`, or 0 when the table has no entry for it. */
  function Lookup<K(==)>(t: seq<(K, nat)>, k: K): nat {
    if t == [] then 0 else if t[0].0 == k then t[0].1 else Lookup(t[1..], k)
  }

  /** The sum of all counts. */
  function Total<K>(t: seq<(K, nat)>): nat {
    if t == [] then 0 else t[0].1 + Total(t[1..])
  }

  function Keys<K(==)>(t: seq<(K, nat)>): set<K> {
    set e | e in t :: e.0
  }

  ghost predicate DistinctKeys<K>(t: seq<(K, nat)>) {
    forall i, j :: 0 <= i < j < |t| ==> t[i].0 != t[j].0
  }

  ghost predicate Positive<K>(t: seq<(K, nat)>) {
    forall e :: e in t ==> e.1 > 0
  }

  /** The keys of a table with one more entry in front. */
  lemma KeysCons<K>(e: (K, nat), t: seq<(K, nat)>)
    ensures Keys([e] + t) == {e.0} + Keys(t)
  {
    var r := [e] + t;
    forall x ensures x in Keys(r) <==> x in {e.0} + Keys(t) {
      if x in Keys(r) {
        var d :| d in r && d.0 == x;
        if d != e { assert d in t; }
      }
      if x in Keys(t) {
        var d :| d in t && d.0 == x;
        assert d in r;
      }
      if x == e.0 { assert r[0] == e; }
    }
  }

  /** Splitting a table with distinct keys into its first entry and the rest. */
  lemma TailDistinct<K>(t: seq<(K, nat)>)
    requires DistinctKeys(t) && t != []
    ensures DistinctKeys(t[1..])
    ensures t[0].0 !in Keys(t[1..])
  {
    var tail := t[1..];
    forall i, j | 0 <= i < j < |tail| ensures tail[i].0 != tail[j].0 {
      assert tail[i] == t[i + 1] && tail[j] == t[j + 1];
    }
    forall e | e in tail ensures e.0 != t[0].0 {
      var i :| 0 <= i < |tail| && tail[i] == e;
      assert t[i + 1] == e;
    }
  }

  /** Putting an entry with a fresh key in front of a table with distinct keys. */
  lemma ConsDistinct<K>(e: (K, nat), t: seq<(K, nat)>)
    requires DistinctKeys(t) && e.0 !in Keys(t)
    ensures DistinctKeys([e] + t)
  {
    var r := [e] + t;
    forall i, j | 0 <= i < j < |r| ensures r[i].0 != r[j].0 {
      if i == 0 {
        assert r[j] in t;
      } else {
        assert r[i] == t[i - 1] && r[j] == t[j - 1];
      }
    }
  }

  lemma {:induction false} AddOneKeys<K>(t: seq<(K, nat)>, k: K)
    requires DistinctKeys(t)
    ensures DistinctKeys(AddOne(t, k))
    ensures Keys(AddOne(t, k)) == Keys(t) + {k}
  {
    if t == [] {
      KeysCons((k, 1), []);
    } else {
      assert t == [t[0]] + t[1..];
      KeysCons(t[0], t[1..]);
      TailDistinct(t);
      if t[0].0 == k {
        KeysCons((k, t[0].1 + 1), t[1..]);
        ConsDistinct((k, t[0].1 + 1), t[1..]);
      } else {
        AddOneKeys(t[1..], k);
        KeysCons(t[0], AddOne(t[1..], k));
        ConsDistinct(t[0], AddOne(t[1..], k));
      }
    }
  }

  lemma {:induction false} AddOneCounts<K>(t: seq<(K, nat)>, k: K)
    ensures Total(AddOne(t, k)) == Total(t) + 1
    ensures forall k' :: Lookup(AddOne(t, k), k') == Lookup(t, k') + (if k' == k then 1 else 0)
    ensures Positive(t) ==> Positive(AddOne(t, k))
  {
    if t != [] && t[0].0 != k {
      AddOneCounts(t[1..], k);
      var r := AddOne(t, k);
      if Positive(t) {
        forall e | e in r ensures e.1 > 0 {
          if e != t[0] {
            assert e in AddOne(t[1..], k);
            assert forall d :: d in t[1..] ==> d in t;
          }
        }
      }
    } else if t != [] {
      var r := AddOne(t, k);
      if Positive(t) {
        forall e | e in r ensures e.1 > 0 {
          if e != r[0] {
            assert e in t[1..];
            assert e in t;
          }
        }
      }
    }
  }

  /** The tally of `ks` has one entry per distinct key of `ks`, each with
      that key's number of occurrences, and its counts add up to `|ks|`. */
  lemma TallySpec<K>(ks: seq<K>)
    ensures DistinctKeys(Tally(ks))
    ensures Positive(Tally(ks))
    ensures Keys(Tally(ks)) == set k | k in ks
    ensures Total(Tally(ks)) == |ks|
    ensures forall k :: Lookup(Tally(ks), k) == multiset(ks)[k]
  {
    TallyKeys(ks);
    TallyCounts(ks);
  }

  lemma {:induction false} TallyKeys<K>(ks: seq<K>)
    ensures DistinctKeys(Tally(ks))
    ensures Keys(Tally(ks)) == set k | k in ks
  {
    if ks != [] {
      var init, last := ks[..|ks| - 1], ks[|ks| - 1];
      TallyKeys(init);
      AddOneKeys(Tally(init), last);
      assert ks == init + [last];
      assert (set k | k in ks) == (set k | k in init) + {last};
    }
  }

  lemma {:induction false} TallyCounts<K>(ks: seq<K>)
    ensures Positive(Tally(ks))
    ensures Total(Tally(ks)) == |ks|
    ensures forall k :: Lookup(Tally(ks), k) == multiset(ks)[k]
  {
    if ks != [] {
      var init, last := ks[..|ks| - 1], ks[|ks| - 1];
      TallyCounts(init);
      AddOneCounts(Tally(init), last);
      assert ks == init + [last];
      assert multiset(ks) == multiset(init) + multiset{last};
    }
  }

  /** In a table with distinct keys, an entry's count is the one looked up by its key. */
  lemma {:induction false} LookupEntry<K>(t: seq<(K, nat)>, e: (K, nat))
    requires DistinctKeys(t)
    requires e in t
    ensures e.1 == Lookup(t, e.0)
  {
    if t[0] != e {
      var tail := t[1..];
      assert e in tail;
      var i :| 0 <= i < |tail| && tail[i] == e;
      assert t[i + 1] == e;
      assert DistinctKeys(tail) by {
        forall i, j | 0 <= i < j < |tail| ensures tail[i].0 != tail[j].0 {
          assert tail[i] == t[i + 1] && tail[j] == t[j + 1];
        }
      }
      LookupEntry(tail, e);
    }
  }

  /** Every entry of a tally carries the number of occurrences of its key. */
  lemma TallyEntries<K>(ks: seq<K>)
    ensures forall e :: e in Tally(ks) ==> e.1 == multiset(ks)[e.0] && e.1 > 0
  {
    TallySpec(ks);
    forall e | e in Tally(ks) ensures e.1 == multiset(ks)[e.0] {
      LookupEntry(Tally(ks), e);
      assert Lookup(Tally(ks), e.0) == multiset(ks)[e.0];
    }
  }

  /** Inserting an entry adds its key to the table's keys. */
  lemma {:induction false} InsertKeys<K>(x: (K, nat), s: seq<(K, nat)>, le: ((K, nat), (K, nat)) -> bool)
    ensures Keys(Sorting.Insert(x, s, le)) == Keys(s) + {x.0}
  {
    if s == [] || le(x, s[0]) {
      KeysCons(x, s);
    } else {
      var tail := s[1..];
      assert s == [s[0]] + tail;
      InsertKeys(x, tail, le);
      KeysCons(s[0], tail);
      KeysCons(s[0], Sorting.Insert(x, tail, le));
    }
  }

  /** Inserting an entry adds its count to the total. */
  lemma {:induction false} InsertTotal<K>(x: (K, nat), s: seq<(K, nat)>, le: ((K, nat), (K, nat)) -> bool)
    ensures Total(Sorting.Insert(x, s, le)) == Total(s) + x.1
  {
    if s != [] && !le(x, s[0]) {
      InsertTotal(x, s[1..], le);
      assert Sorting.Insert(x, s, le)[1..] == Sorting.Insert(x, s[1..], le);
    }
  }

  /** Inserting an entry with a fresh key keeps the keys distinct. */
  lemma {:induction false} InsertDistinct<K>(x: (K, nat), s: seq<(K, nat)>, le: ((K, nat), (K, nat)) -> bool)
    requires DistinctKeys(s) && x.0 !in Keys(s)
    ensures DistinctKeys(Sorting.Insert(x, s, le))
  {
    if s == [] || le(x, s[0]) {
      ConsDistinct(x, s);
    } else {
      var tail := s[1..];
      assert s == [s[0]] + tail;
      TailDistinct(s);
      KeysCons(s[0], tail);
      InsertDistinct(x, tail, le);
      var rt := Sorting.Insert(x, tail, le);
      InsertKeys(x, tail, le);
      ConsDistinct(s[0], rt);
    }
  }

  /** Reordering a table with distinct keys keeps its keys distinct, its
      key set and its total. */
  lemma {:induction false} SortTable<K>(s: seq<(K, nat)>, le: ((K, nat), (K, nat)) -> bool)
    requires DistinctKeys(s)
    ensures DistinctKeys(Sorting.InsertionSort(s, le))
    ensures Keys(Sorting.InsertionSort(s, le)) == Keys(s)
    ensures Total(Sorting.InsertionSort(s, le)) == Total(s)
  {
    if s != [] {
      var tail := s[1..];
      assert s == [s[0]] + tail;
      assert DistinctKeys(tail) by {
        forall i, j | 0 <= i < j < |tail| ensures tail[i].0 != tail[j].0 {
          assert tail[i] == s[i + 1] && tail[j] == s[j + 1];
        }
      }
      SortTable(tail, le);
      assert s[0].0 !in Keys(tail) by {
        forall e | e in tail ensures e.0 != s[0].0 {
          var i :| 0 <= i < |tail| && tail[i] == e;
          assert s[i + 1] == e;
        }
      }
      var sorted := Sorting.InsertionSort(tail, le);
      InsertKeys(s[0], sorted, le);
      InsertTotal(s[0], sorted, le);
      InsertDistinct(s[0], sorted, le);
      assert Keys(s) == Keys(tail) + {s[0].0} by {
        forall y ensures y in Keys(s) <==> y in Keys(tail) + {s[0].0} {
          if y in Keys(s) {
            var e :| e in s && e.0 == y;
            if e != s[0] { assert e in tail; }
          }
          if y in Keys(tail) {
            var e :| e in tail && e.0 == y;
            assert e in s;
          }
          if y == s[0].0 { assert s[0] in s; }
        }
      }
    }
  }

  /** A tally put in any order still has one entry per distinct key, each
      with that key's number of occurrences, adding up to `|ks|`. */
  lemma SortedTally<K>(ks: seq<K>, le: ((K, nat), (K, nat)) -> bool)
    ensures var data := Sorting.InsertionSort(Tally(ks), le);
      && DistinctKeys(data)
      && Keys(data) == (set k | k in ks)
      && (forall e :: e in data ==> e.1 > 0 && e.1 == multiset(ks)[e.0])
      && Total(data) == |ks|
  {
    var t := Tally(ks);
    TallySpec(ks);
    TallyEntries(ks);
    SortTable(t, le);
    Sorting.SortPermutes(t, le);
    var data := Sorting.InsertionSort(t, le);
    forall e | e in data ensures e.1 > 0 && e.1 == multiset(ks)[e.0] {
      assert e in multiset(t);
      assert e in t;
    }
  }
}
