/**
 * The two orders the listing pages rely on: `(city, state)` pairs compared as
 * Python compares tuples of strings (used by `sorted` on the venues page), and
 * primary keys in descending order (`ORDER BY id DESC` on the home page).
 */
module Ordering {
  import opened Text

  /** The key the venues page groups by: a venue's `(city, state)` pair. */
  datatype Location = Location(city: string, state: string)

  /** Python's tuple order: compare cities, and states only when the cities are equal. */
  predicate LocationLess(x: Location, y: Location): (b: bool)
    ensures b ==> x != y
  {
    StringLessIrreflexive(x.city);
    StringLessIrreflexive(x.state);
    StringLess(x.city, y.city) || (x.city == y.city && StringLess(x.state, y.state))
  }

  lemma LocationLessTransitive(x: Location, y: Location, z: Location)
    requires LocationLess(x, y) && LocationLess(y, z)
    ensures LocationLess(x, z)
  {
    if StringLess(x.city, y.city) && StringLess(y.city, z.city) {
      StringLessTransitive(x.city, y.city, z.city);
    } else if x.city == y.city && y.city == z.city {
      StringLessTransitive(x.state, y.state, z.state);
    }
  }

  lemma LocationLessTotal(x: Location, y: Location)
    requires x != y
    ensures LocationLess(x, y) || LocationLess(y, x)
  {
    if x.city != y.city {
      StringLessTotal(x.city, y.city);
    } else {
      StringLessTotal(x.state, y.state);
    }
  }

  lemma LocationLessAsymmetric(x: Location, y: Location)
    requires LocationLess(x, y)
    ensures !LocationLess(y, x) && x != y
  {
    if StringLess(x.city, y.city) {
      StringLessAsymmetric(x.city, y.city);
      StringLessIrreflexive(x.city);
    } else {
      StringLessAsymmetric(x.state, y.state);
      StringLessIrreflexive(x.state);
    }
  }

  /** Strictly ascending: sorted, and therefore without a repeated pair. */
  predicate StrictlyAscending(s: seq<Location>)
  {
    forall i, j :: 0 <= i < j < |s| ==> LocationLess(s[i], s[j])
  }

  predicate Distinct<T(==)>(s: seq<T>)
  {
    forall i, j :: 0 <= i < j < |s| ==> s[i] != s[j]
  }

  function InsertLocation(x: Location, s: seq<Location>): (r: seq<Location>)
    ensures multiset(r) == multiset(s) + multiset{x}
  {
    if s == [] then [x]
    else if LocationLess(x, s[0]) then [x] + s
    else
      assert s == [s[0]] + s[1..];
      [s[0]] + InsertLocation(x, s[1..])
  }

  /** Insertion sort; Python's `sorted` over the dictionary's keys. */
  function SortLocations(s: seq<Location>): (r: seq<Location>)
    ensures multiset(r) == multiset(s)
  {
    if s == [] then []
    else
      assert s == [s[0]] + s[1..];
      InsertLocation(s[0], SortLocations(s[1..]))
  }

  lemma {:induction false} InsertLocationAscending(x: Location, s: seq<Location>)
    requires StrictlyAscending(s) && x !in s
    ensures StrictlyAscending(InsertLocation(x, s))
  {
    if s != [] && !LocationLess(x, s[0]) {
      assert x != s[0];
      LocationLessTotal(x, s[0]);
      var rest := InsertLocation(x, s[1..]);
      assert StrictlyAscending(s[1..]);
      InsertLocationAscending(x, s[1..]);
      forall k | 0 <= k < |rest| ensures LocationLess(s[0], rest[k]) {
        assert rest[k] in multiset(rest);
        if rest[k] != x {
          assert rest[k] in s[1..];
        }
      }
    } else if s != [] {
      forall k | 0 <= k < |s| ensures LocationLess(x, s[k]) {
        if k > 0 {
          LocationLessTransitive(x, s[0], s[k]);
        }
      }
    }
  }

  /** Sorting distinct keys gives the same keys in strictly ascending order. */
  lemma {:induction false} SortLocationsAscending(s: seq<Location>)
    requires Distinct(s)
    ensures StrictlyAscending(SortLocations(s))
    ensures |SortLocations(s)| == |s|
    ensures forall x :: x in SortLocations(s) <==> x in s
  {
    var r := SortLocations(s);
    assert |r| == |multiset(r)| == |multiset(s)| == |s|;
    forall x ensures x in r <==> x in s {
      assert x in r <==> x in multiset(r);
    }
    if s != [] {
      assert Distinct(s[1..]);
      SortLocationsAscending(s[1..]);
      assert s[0] !in s[1..];
      InsertLocationAscending(s[0], SortLocations(s[1..]));
    }
  }

  // ---------------------------------------------------------------------
  // Descending primary keys
  // ---------------------------------------------------------------------

  /** Insert `x` into `s`, keeping larger keys first. */
  function InsertByKeyDescending<T>(x: T, s: seq<T>, key: T -> int): (r: seq<T>)
    ensures multiset(r) == multiset(s) + multiset{x}
  {
    if s == [] then [x]
    else if key(x) > key(s[0]) then [x] + s
    else
      assert s == [s[0]] + s[1..];
      [s[0]] + InsertByKeyDescending(x, s[1..], key)
  }

  /** Insertion sort by descending key; `ORDER BY key DESC`. */
  function SortByKeyDescending<T>(s: seq<T>, key: T -> int): (r: seq<T>)
    ensures multiset(r) == multiset(s)
  {
    if s == [] then []
    else
      assert s == [s[0]] + s[1..];
      InsertByKeyDescending(s[0], SortByKeyDescending(s[1..], key), key)
  }

  /** No two elements share a key. */
  predicate KeysDistinct<T>(s: seq<T>, key: T -> int)
  {
    forall i, j :: 0 <= i < j < |s| ==> key(s[i]) != key(s[j])
  }

  predicate StrictlyDescending<T>(s: seq<T>, key: T -> int)
  {
    forall i, j :: 0 <= i < j < |s| ==> key(s[i]) > key(s[j])
  }

  lemma {:induction false} InsertDescending<T>(x: T, s: seq<T>, key: T -> int)
    requires StrictlyDescending(s, key)
    requires forall y :: y in s ==> key(y) != key(x)
    ensures StrictlyDescending(InsertByKeyDescending(x, s, key), key)
  {
    if s != [] && key(x) <= key(s[0]) {
      assert s[0] in s;
      var rest := InsertByKeyDescending(x, s[1..], key);
      assert StrictlyDescending(s[1..], key);
      assert forall y :: y in s[1..] ==> y in s;
      InsertDescending(x, s[1..], key);
      forall k | 0 <= k < |rest| ensures key(s[0]) > key(rest[k]) {
        assert rest[k] in multiset(rest);
        if rest[k] != x {
          assert rest[k] in s[1..];
        }
      }
    }
  }

  /** Rows with distinct keys come out of the sort in strictly descending key order. */
  lemma {:induction false} SortDescending<T>(s: seq<T>, key: T -> int)
    requires KeysDistinct(s, key)
    ensures StrictlyDescending(SortByKeyDescending(s, key), key)
  {
    if s != [] {
      assert KeysDistinct(s[1..], key);
      SortDescending(s[1..], key);
      var sorted := SortByKeyDescending(s[1..], key);
      forall y | y in sorted ensures key(y) != key(s[0]) {
        assert y in multiset(sorted);
        assert y in s[1..];
        var j :| 0 <= j < |s[1..]| && s[1..][j] == y;
        assert s[j + 1] == y;
      }
      InsertDescending(s[0], sorted, key);
    }
  }

  /**
   * The first `n` rows in descending key order: `ORDER BY key DESC LIMIT n`.
   */
  function TopByKey<T>(s: seq<T>, key: T -> int, n: nat): (r: seq<T>)
    ensures |r| <= n && |r| <= |s|
    ensures forall x :: x in r ==> x in s
  {
    var sorted := SortByKeyDescending(s, key);
    assert |sorted| == |multiset(sorted)| == |multiset(s)| == |s|;
    var r := if |sorted| <= n then sorted else sorted[..n];
    assert forall x :: x in r ==> x in multiset(sorted);
    r
  }

  /**
   * With distinct keys, `TopByKey` returns `min(n, |s|)` rows of `s`, in
   * strictly descending key order, and every row it leaves out has a smaller
   * key than every row it returns.
   */
  lemma TopByKeyIsLargest<T>(s: seq<T>, key: T -> int, n: nat)
    requires KeysDistinct(s, key)
    ensures var r := TopByKey(s, key, n);
      && |r| == (if |s| <= n then |s| else n)
      && StrictlyDescending(r, key)
      && (forall x :: x in r ==> x in s)
      && (forall x, y :: x in s && x !in r && y in r ==> key(x) < key(y))
  {
    var sorted := SortByKeyDescending(s, key);
    var r := TopByKey(s, key, n);
    SortDescending(s, key);
    assert |sorted| == |multiset(sorted)| == |multiset(s)| == |s|;
    forall x | x in s ensures x in sorted {
      assert x in multiset(s);
    }
    forall x | x in r ensures x in s {
      assert x in sorted;
      assert x in multiset(sorted);
    }
    forall x, y | x in s && x !in r && y in r ensures key(x) < key(y) {
      var i :| 0 <= i < |sorted| && sorted[i] == x;
      var j :| 0 <= j < |r| && r[j] == y;
      assert i >= |r|;
      assert sorted[j] == y;
    }
  }
}
