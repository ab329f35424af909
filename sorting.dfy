/** Python's `sorted()` over a set of field names (code-point order) and over
    a set of timestamps. */
module Sorting {

  /** Python's `<` on `str`: lexicographic by code point, a proper prefix first. */
  predicate StrLess(a: string, b: string)
    decreases |a|
  {
    if a == [] then b != []
    else b != [] && (a[0] < b[0] || (a[0] == b[0] && StrLess(a[1..], b[1..])))
  }

  lemma {:induction false} StrLessIrreflexive(a: string)
    ensures !StrLess(a, a)
    decreases |a|
  {
    if a != [] { StrLessIrreflexive(a[1..]); }
  }

  lemma {:induction false} StrLessTransitive(a: string, b: string, c: string)
    requires StrLess(a, b) && StrLess(b, c)
    ensures StrLess(a, c)
    decreases |a|
  {
    if a != [] && a[0] == b[0] && b[0] == c[0] {
      StrLessTransitive(a[1..], b[1..], c[1..]);
    }
  }

  lemma {:induction false} StrLessTotal(a: string, b: string)
    ensures a == b || StrLess(a, b) || StrLess(b, a)
    decreases |a|
  {
    if a != [] && b != [] && a[0] == b[0] {
      StrLessTotal(a[1..], b[1..]);
      if a[1..] == b[1..] {
        assert a == [a[0]] + a[1..] && b == [b[0]] + b[1..];
      }
    }
  }

  /** The elements of a list, as a set. */
  function Elems<T>(s: seq<T>): set<T> {
    set y | y in s
  }

  /** Strictly increasing, hence also free of duplicates. */
  predicate StrictlySorted(s: seq<string>) {
    forall i, j :: 0 <= i < j < |s| ==> StrLess(s[i], s[j])
  }

  /** `r == sorted(list(keys))` for a set of keys. */
  predicate SortedOf(r: seq<string>, keys: set<string>) {
    StrictlySorted(r) && Elems(r) == keys
  }

  /** Inserts a name that is not yet present at its place in a sorted list. */
  function Insert(s: seq<string>, x: string): (r: seq<string>)
    requires StrictlySorted(s) && x !in s
    ensures StrictlySorted(r)
    ensures Elems(r) == Elems(s) + {x}
    ensures |r| == |s| + 1
  {
    if s == [] then [x]
    else if StrLess(x, s[0]) then
      assert forall j :: 0 < j < |s| ==> StrLess(x, s[j]) by {
        forall j | 0 < j < |s| ensures StrLess(x, s[j]) { StrLessTransitive(x, s[0], s[j]); }
      }
      [x] + s
    else
      StrLessTotal(x, s[0]);
      var tail := Insert(s[1..], x);
      assert forall y :: y in tail ==> StrLess(s[0], y) by {
        forall y | y in tail ensures StrLess(s[0], y) {
          assert y in Elems(tail);
          if y != x {
            assert y in Elems(s[1..]);
            var j :| 0 <= j < |s| - 1 && s[1..][j] == y;
            assert s[j + 1] == y;
          }
        }
      }
      var r := [s[0]] + tail;
      assert Elems(r) == {s[0]} + Elems(tail);
      assert Elems(s) == {s[0]} + Elems(s[1..]) by {
        assert s == [s[0]] + s[1..];
      }
      r
  }

  /** `sorted(list(keys))`: repeatedly take some remaining key and insert it. */
  method SortStrings(keys: set<string>) returns (r: seq<string>)
    ensures SortedOf(r, keys)
  {
    r := [];
    var rest := keys;
    while rest != {}
      invariant StrictlySorted(r)
      invariant rest !! Elems(r)
      invariant Elems(r) + rest == keys
      decreases rest
    {
      var x :| x in rest;
      r := Insert(r, x);
      rest := rest - {x};
    }
  }

  /** A sorted, duplicate-free list is determined by its set of elements, so
      any two ways of computing `sorted(set)` agree. */
  lemma {:induction false} SortedOfUnique(a: seq<string>, b: seq<string>, keys: set<string>)
    requires SortedOf(a, keys) && SortedOf(b, keys)
    ensures a == b
    decreases |a|
  {
    assert a != [] ==> a[0] in Elems(a);
    assert b != [] ==> b[0] in Elems(b);
    if a != [] && b != [] {
      assert a[0] in keys && b[0] in keys;
      assert b[0] in a;
      assert a[0] in b;
      if a[0] != b[0] {
        var i :| 0 <= i < |a| && a[i] == b[0];
        var j :| 0 <= j < |b| && b[j] == a[0];
        assert StrLess(a[0], b[0]);
        assert StrLess(b[0], a[0]);
        StrLessTransitive(a[0], b[0], a[0]);
        StrLessIrreflexive(a[0]);
      }
      var k := keys - {a[0]};
      forall x | x in a[1..] ensures x != a[0] {
        StrLessIrreflexive(a[0]);
      }
      forall x | x in b[1..] ensures x != b[0] {
        StrLessIrreflexive(b[0]);
      }
      assert Elems(a[1..]) == k by {
        assert a == [a[0]] + a[1..];
      }
      assert Elems(b[1..]) == k by {
        assert b == [b[0]] + b[1..];
      }
      SortedOfUnique(a[1..], b[1..], k);
      assert a == [a[0]] + a[1..] && b == [b[0]] + b[1..];
    }
  }

  /** Strictly increasing timestamps. */
  predicate Ascending(s: seq<real>) {
    forall i, j :: 0 <= i < j < |s| ==> s[i] < s[j]
  }

  /** Insertion of one timestamp before the first larger one. */
  function InsertTime(s: seq<real>, x: real): seq<real> {
    if s == [] || x < s[0] then [x] + s
    else [s[0]] + InsertTime(s[1..], x)
  }

  /** Insertion adds exactly the inserted timestamp. */
  lemma {:induction false} InsertTimeElems(s: seq<real>, x: real)
    ensures Elems(InsertTime(s, x)) == Elems(s) + {x}
    ensures |InsertTime(s, x)| == |s| + 1
  {
    if s != [] && !(x < s[0]) {
      InsertTimeElems(s[1..], x);
      assert s == [s[0]] + s[1..];
      assert Elems(s) == {s[0]} + Elems(s[1..]);
      assert Elems(InsertTime(s, x)) == {s[0]} + Elems(InsertTime(s[1..], x));
    }
  }

  /** Inserting a timestamp not yet present into an ascending list keeps it
      ascending. */
  lemma {:induction false} InsertTimeAscending(s: seq<real>, x: real)
    requires Ascending(s) && x !in s
    ensures Ascending(InsertTime(s, x))
  {
    if s != [] && x > s[0] {
      var tail := InsertTime(s[1..], x);
      InsertTimeAscending(s[1..], x);
      InsertTimeElems(s[1..], x);
      forall k | 0 <= k < |tail| ensures s[0] < tail[k] {
        assert tail[k] in Elems(tail);
        if tail[k] != x {
          var j :| 0 <= j < |s| - 1 && s[1..][j] == tail[k];
          assert s[j + 1] == tail[k];
        }
      }
      var r := [s[0]] + tail;
      forall i, j | 0 <= i < j < |r| ensures r[i] < r[j] {
        assert r[j] == tail[j - 1];
        if i > 0 {
          assert r[i] == tail[i - 1];
        }
      }
    }
  }

  /** `sorted(times.keys())`: the keys come in the dict's insertion order,
      without repetition, and are inserted one by one. */
  method SortTimes(keys: seq<real>) returns (r: seq<real>)
    requires forall i, j :: 0 <= i < j < |keys| ==> keys[i] != keys[j]
    ensures Ascending(r)
    ensures Elems(r) == Elems(keys)
    ensures |r| == |keys|
  {
    r := [];
    var n := 0;
    while n < |keys|
      invariant n <= |keys|
      invariant Ascending(r)
      invariant Elems(r) == Elems(keys[..n])
      invariant |r| == n
    {
      assert keys[n] !in keys[..n];
      assert keys[n] !in r by { assert keys[n] !in Elems(r); }
      InsertTimeAscending(r, keys[n]);
      InsertTimeElems(r, keys[n]);
      r := InsertTime(r, keys[n]);
      assert keys[..n + 1] == keys[..n] + [keys[n]];
      assert Elems(keys[..n + 1]) == Elems(keys[..n]) + {keys[n]};
      n := n + 1;
    }
    assert keys[..n] == keys;
  }
}
