/** Shared vocabulary of the crime CSV API: optional values, request
    outcomes, and the string helpers the query engine relies on. */
module Common {

  datatype Option<+T> = None | Some(value: T)

  /** The ways a request fails. NotFound is answered with HTTP 404,
      ServerError with HTTP 500, the others with HTTP 400. */
  datatype Error =
    | NotFound          // the CSV file does not exist
    | InvalidStartDate  // start_date could not be converted or compared
    | InvalidEndDate    // end_date could not be converted or compared
    | InvalidBy         // stats was asked for an unknown grouping
    | NoGeoData         // every latitude or every longitude is missing
    | ServerError       // the handler raised an exception it does not catch

  datatype Result<+T> = Ok(value: T) | Err(error: Error)

  /** Python's `min` of two integers. */
  function Min(a: int, b: int): int {
    if a <= b then a else b
  }

  /** Python truthiness of an optional query string: neither None nor "". */
  predicate Given(s: Option<string>) {
    s.Some? && s.value != ""
  }

  /** `str.lower` on one character, restricted to ASCII letters. */
  function LowerChar(c: char): char {
    if 'A' <= c <= 'Z' then (c as int + 32) as char else c
  }

  function Lower(s: string): string {
    seq(|s|, i requires 0 <= i < |s| => LowerChar(s[i]))
  }

  /** `part` occurs in `s` starting at position `i`. */
  predicate OccursAt(s: string, part: string, i: int) {
    0 <= i <= |s| - |part| && s[i..i + |part|] == part
  }

  /** `part in s` for Python strings: `part` occurs contiguously in `s`. */
  predicate Contains(s: string, part: string) {
    exists i | 0 <= i <= |s| - |part| :: OccursAt(s, part, i)
  }

  function DigitChar(d: nat): char
    requires d < 10
  {
    ('0' as int + d) as char
  }

  /** `str(n)` for a non-negative integer: its decimal spelling. */
  function NatToString(n: nat): string
  {
    if n < 10 then [DigitChar(n)] else NatToString(n / 10) + [DigitChar(n % 10)]
  }

  /** Distinct row positions are spelled differently, so the positional
      identifiers of `df.index.astype(str)` never collide. */
  lemma {:induction false} NatToStringInjective(a: nat, b: nat)
    requires NatToString(a) == NatToString(b)
    ensures a == b
  {
    var s := NatToString(a);
    if a < 10 && b < 10 {
      assert DigitChar(a) == s[0] == DigitChar(b);
    } else if a >= 10 && b >= 10 {
      var pa, pb := NatToString(a / 10), NatToString(b / 10);
      assert pa + [DigitChar(a % 10)] == pb + [DigitChar(b % 10)];
      assert |pa| == |pb|;
      assert DigitChar(a % 10) == s[|s| - 1] == DigitChar(b % 10);
      assert pa == s[..|s| - 1] == pb;
      NatToStringInjective(a / 10, b / 10);
    } else if a < 10 {
      NatToStringLong(b);
    } else {
      NatToStringLong(a);
    }
  }

  /** Numbers of two or more digits have spellings of two or more characters. */
  lemma NatToStringLong(n: nat)
    requires n >= 10
    ensures |NatToString(n)| >= 2
  {
  }

  /** Boolean-mask indexing (`df[mask]`): the elements whose mask entry is
      true, in their original order. */
  function Select<T>(s: seq<T>, mask: seq<bool>): seq<T>
    requires |mask| == |s|
  {
    if s == [] then [] else (if mask[0] then [s[0]] else []) + Select(s[1..], mask[1..])
  }

  /** An element is selected exactly when some position holding it is
      marked, and as many elements are selected as the mask marks. */
  lemma {:induction false} SelectSpec<T>(s: seq<T>, mask: seq<bool>)
    requires |mask| == |s|
    ensures forall x :: x in Select(s, mask) <==> exists i :: 0 <= i < |s| && mask[i] && s[i] == x
    ensures |Select(s, mask)| == multiset(mask)[true]
  {
    if s != [] {
      SelectSpec(s[1..], mask[1..]);
      assert mask == [mask[0]] + mask[1..];
      forall x ensures x in Select(s, mask) <==> exists i :: 0 <= i < |s| && mask[i] && s[i] == x {
        if exists i :: 0 <= i < |s| && mask[i] && s[i] == x {
          var i :| 0 <= i < |s| && mask[i] && s[i] == x;
          if i > 0 {
            assert mask[1..][i - 1] && s[1..][i - 1] == x;
          }
        }
        if x in Select(s[1..], mask[1..]) {
          var i :| 0 <= i < |s[1..]| && mask[1..][i] && s[1..][i] == x;
          assert mask[i + 1] && s[i + 1] == x;
        }
      }
    }
  }

  /** Selection keeps order: selecting from a concatenation concatenates
      the selections. */
  lemma {:induction false} SelectAppend<T>(s1: seq<T>, m1: seq<bool>, s2: seq<T>, m2: seq<bool>)
    requires |m1| == |s1| && |m2| == |s2|
    ensures Select(s1 + s2, m1 + m2) == Select(s1, m1) + Select(s2, m2)
  {
    if s1 != [] {
      SelectAppend(s1[1..], m1[1..], s2, m2);
      assert (s1 + s2)[1..] == s1[1..] + s2;
      assert (m1 + m2)[1..] == m1[1..] + m2;
    } else {
      assert s1 + s2 == s2 && m1 + m2 == m2;
    }
  }

  /** Selecting commutes with mapping: selecting from the images is taking
      the images of the selection. */
  lemma {:induction false} SelectMap<T, U>(s: seq<T>, f: T -> U, image: seq<U>, mask: seq<bool>)
    requires |mask| == |s| && |image| == |s|
    requires forall i :: 0 <= i < |s| ==> image[i] == f(s[i])
    ensures |Select(image, mask)| == |Select(s, mask)|
    ensures forall k :: 0 <= k < |Select(s, mask)| ==> Select(image, mask)[k] == f(Select(s, mask)[k])
  {
    if s != [] {
      SelectMap(s[1..], f, image[1..], mask[1..]);
    }
  }

  /** A mask and its complement split a sequence into two parts that
      together hold every element exactly as often. */
  lemma {:induction false} SelectPartition<T>(s: seq<T>, mask: seq<bool>, rest: seq<bool>)
    requires |mask| == |s| && |rest| == |s|
    requires forall i :: 0 <= i < |s| ==> rest[i] == !mask[i]
    ensures multiset(Select(s, mask)) + multiset(Select(s, rest)) == multiset(s)
  {
    if s != [] {
      SelectPartition(s[1..], mask[1..], rest[1..]);
      var head := [s[0]];
      assert s == head + s[1..];
      assert multiset(Select(s, mask)) == multiset(if mask[0] then head else []) + multiset(Select(s[1..], mask[1..]));
      assert multiset(Select(s, rest)) == multiset(if rest[0] then head else []) + multiset(Select(s[1..], rest[1..]));
    }
  }

  /** A mask that marks nothing selects nothing. */
  lemma {:induction false} SelectNone<T>(s: seq<T>, mask: seq<bool>)
    requires |mask| == |s|
    requires forall i :: 0 <= i < |s| ==> !mask[i]
    ensures Select(s, mask) == []
  {
    if s != [] {
      SelectNone(s[1..], mask[1..]);
    }
  }

  /** A mask that marks everything selects the whole sequence. */
  lemma {:induction false} SelectAll<T>(s: seq<T>, mask: seq<bool>)
    requires |mask| == |s|
    requires forall i :: 0 <= i < |s| ==> mask[i]
    ensures Select(s, mask) == s
  {
    if s != [] {
      SelectAll(s[1..], mask[1..]);
      assert s == [s[0]] + s[1..];
    }
  }
}
