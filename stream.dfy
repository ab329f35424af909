/** Loops over the decoded message stream that both web back ends share
    verbatim: the `/api/timeseries` extraction with its decimation counter and
    the first-match lookup of a predefined graph by name. */
module Stream {

  import opened Log

  /** Keeps the elements whose position is a multiple of `d`, the first one
      included: `if idx % decimate == 0: series.append(...)` with `idx`
      counting the elements offered. */
  function EveryNth<T>(s: seq<T>, d: int): seq<T>
    requires d != 0
  {
    if s == [] then []
    else EveryNth(s[..|s| - 1], d) + (if (|s| - 1) % d == 0 then [s[|s| - 1]] else [])
  }

  lemma MulMono(a: int, b: int, d: int)
    requires a <= b && d >= 0
    ensures a * d <= b * d
  {
    assert (b - a) * d >= 0;
  }

  lemma {:induction false} NotMultiple(c: int, q: int, r: int, d: int)
    requires 0 < r < d
    ensures c * d != q * d + r
  {
    if c > q {
      MulMono(q + 1, c, d);
    } else {
      MulMono(c, q, d);
    }
  }

  lemma {:induction false} SameMultiple(c: int, q: int, d: int)
    requires d > 0 && (c - 1) * d < q * d <= c * d
    ensures q == c
  {
    if q < c {
      MulMono(q, c - 1, d);
    } else if q > c {
      MulMono(c + 1, q, d);
    }
  }

  /** Appending one element keeps it exactly when its position is a multiple of `d`. */
  lemma EveryNthSnoc<T>(s: seq<T>, x: T, d: int)
    requires d != 0
    ensures EveryNth(s + [x], d) == EveryNth(s, d) + (if |s| % d == 0 then [x] else [])
  {
    assert (s + [x])[..|s|] == s;
  }

  /** Element `j` of the result is `s[j*d]`. */
  ghost predicate Strided<T>(e: seq<T>, s: seq<T>, d: int) {
    forall j :: 0 <= j < |e| ==> 0 <= j * d < |s| && e[j] == s[j * d]
  }

  /** With a positive step `d`, the kept elements are exactly `s[0]`, `s[d]`,
      `s[2d]`, ...: element `j` of the result is `s[j*d]`, and no multiple of
      `d` below `|s|` is missed. */
  lemma {:induction false} EveryNthIndex<T>(s: seq<T>, d: int)
    requires d > 0
    ensures Strided(EveryNth(s, d), s, d)
    ensures |EveryNth(s, d)| * d >= |s|
  {
    if s != [] {
      var n := |s|;
      var init := s[..n - 1];
      assert s == init + [s[n - 1]];
      EveryNthIndex(init, d);
      EveryNthSnoc(init, s[n - 1], d);
      if (n - 1) % d == 0 {
        StrideHit(EveryNth(init, d), init, s[n - 1], d);
      } else {
        StrideMiss(EveryNth(init, d), init, s[n - 1], d);
      }
    }
  }

  /** The step of EveryNthIndex when the new position is a multiple of `d`. */
  lemma StrideHit<T>(e: seq<T>, s: seq<T>, x: T, d: int)
    requires d > 0 && Strided(e, s, d) && |e| * d >= |s| && |s| % d == 0
    ensures Strided(e + [x], s + [x], d) && (|e| + 1) * d >= |s| + 1
  {
    var c := |e|;
    var q := |s| / d;
    assert |s| == q * d;
    if c > 0 {
      assert (c - 1) * d < |s| by { assert 0 <= (c - 1) * d < |s| && e[c - 1] == s[(c - 1) * d]; }
      SameMultiple(c, q, d);
    } else {
      MulMono(0, q, d);
    }
    StridedExtend(e, s, x, d);
    assert (c + 1) * d == c * d + d;
  }

  /** The step of EveryNthIndex when the new position is not a multiple of `d`. */
  lemma StrideMiss<T>(e: seq<T>, s: seq<T>, x: T, d: int)
    requires d > 0 && Strided(e, s, d) && |e| * d >= |s| && |s| % d != 0
    ensures Strided(e, s + [x], d) && |e| * d >= |s| + 1
  {
    var q := |s| / d;
    var r := |s| % d;
    assert |s| == q * d + r;
    NotMultiple(|e|, q, r, d);
    StridedKeep(e, s, x, d);
  }

  lemma StridedExtend<T>(e: seq<T>, s: seq<T>, x: T, d: int)
    requires Strided(e, s, d) && |e| * d == |s|
    ensures Strided(e + [x], s + [x], d)
  {
    forall j | 0 <= j < |e| + 1 ensures 0 <= j * d < |s| + 1 && (e + [x])[j] == (s + [x])[j * d] {
      if j < |e| {
        assert 0 <= j * d < |s| && e[j] == s[j * d];
      }
    }
  }

  lemma StridedKeep<T>(e: seq<T>, s: seq<T>, x: T, d: int)
    requires Strided(e, s, d)
    ensures Strided(e, s + [x], d)
  {
    forall j | 0 <= j < |e| ensures 0 <= j * d < |s| + 1 && e[j] == (s + [x])[j * d] {
      assert 0 <= j * d < |s| && e[j] == s[j * d];
    }
  }

  /** Decimating by 1 keeps everything. */
  lemma EveryNthOne<T>(s: seq<T>)
    ensures EveryNth(s, 1) == s
  {
    EveryNthIndex(s, 1);
  }

  /** Decimation keeps the first sample and returns a subsequence, in order. */
  lemma EveryNthSubsequence<T>(s: seq<T>, d: int)
    requires d > 0
    ensures s != [] ==> EveryNth(s, d) != [] && EveryNth(s, d)[0] == s[0]
    ensures forall j, k :: 0 <= j < k < |EveryNth(s, d)| ==>
              j * d < k * d < |s| && EveryNth(s, d)[j] == s[j * d] && EveryNth(s, d)[k] == s[k * d]
  {
    EveryNthIndex(s, d);
    forall j, k | 0 <= j < k < |EveryNth(s, d)| ensures j * d < k * d {
      MulMono(j + 1, k, d);
    }
  }

  /** The point one message contributes to `/api/timeseries`: none unless it
      has type `msg` and its `field` is present and not None. */
  function Sample(m: Msg, msg: string, field: string): seq<Point> {
    if m.mtype == msg && FieldOf(m, field) != NoneV
    then [Point(Normalize(TimeOf(m)), FieldOf(m, field))] else []
  }

  /** The points `/api/timeseries` counts, in log order. */
  function Samples(log: seq<Msg>, msg: string, field: string): (r: seq<Point>)
    ensures |r| <= |log|
  {
    if log == [] then []
    else Samples(log[..|log| - 1], msg, field) + Sample(log[|log| - 1], msg, field)
  }

  lemma SamplesStep(log: seq<Msg>, i: nat, msg: string, field: string)
    requires i < |log|
    ensures Samples(log[..i + 1], msg, field) == Samples(log[..i], msg, field) + Sample(log[i], msg, field)
  {
    assert log[..i + 1][..i] == log[..i];
  }

  /** The extraction loop of `/api/timeseries`. `None` stands for the
      ZeroDivisionError a zero `decimate` raises at the first counted point. */
  method Timeseries(log: seq<Msg>, msg: string, field: string, decimate: int) returns (r: Option<seq<Point>>)
    ensures decimate != 0 ==> r == Some(EveryNth(Samples(log, msg, field), decimate))
    ensures decimate == 0 ==> (r.None? <==> Samples(log, msg, field) != [])
    ensures decimate == 0 && r.Some? ==> r.value == []
  {
    var series: seq<Point> := [];
    var idx := 0;
    var i := 0;
    while i < |log|
      invariant 0 <= i <= |log|
      invariant idx == |Samples(log[..i], msg, field)|
      invariant decimate != 0 ==> series == EveryNth(Samples(log[..i], msg, field), decimate)
      invariant decimate == 0 ==> idx == 0 && series == []
    {
      var m := log[i];
      SamplesStep(log, i, msg, field);
      assert Sample(m, msg, field) == [] ==> Samples(log[..i + 1], msg, field) == Samples(log[..i], msg, field);
      if m.mtype == msg {
        var t := Normalize(TimeOf(m));
        var v := FieldOf(m, field);
        if v != NoneV {
          if decimate == 0 {
            SamplesPrefix(log, i + 1, msg, field);
            return None;
          }
          EveryNthSnoc(Samples(log[..i], msg, field), Point(t, v), decimate);
          if idx % decimate == 0 {
            series := series + [Point(t, v)];
          }
          idx := idx + 1;
        }
      }
      i := i + 1;
    }
    assert log[..i] == log;
    r := Some(series);
  }

  /** A counted point in a prefix of the log is a counted point of the whole log. */
  lemma {:induction false} SamplesPrefix(log: seq<Msg>, n: nat, msg: string, field: string)
    requires n <= |log|
    ensures Samples(log[..n], msg, field) != [] ==> Samples(log, msg, field) != []
    decreases |log|
  {
    if n < |log| {
      assert log[..|log| - 1][..n] == log[..n];
      SamplesPrefix(log[..|log| - 1], n, msg, field);
    } else {
      assert log[..n] == log;
    }
  }

  /** `defs[i]` is the first definition called `name`, the one the lookup
      below stops at. */
  predicate FirstNamed(defs: seq<GraphDef>, name: string, i: int) {
    0 <= i < |defs| && defs[i].name == name && forall j :: 0 <= j < i ==> defs[j].name != name
  }

  /** `for g in defs: if g.name == name: match = g; break` */
  method FindGraph(defs: seq<GraphDef>, name: string) returns (r: Option<GraphDef>)
    ensures r.None? <==> forall i :: 0 <= i < |defs| ==> defs[i].name != name
    ensures r.Some? ==> exists i :: 0 <= i < |defs| && defs[i] == r.value && defs[i].name == name
                                      && forall j :: 0 <= j < i ==> defs[j].name != name
  {
    var i := 0;
    while i < |defs|
      invariant 0 <= i <= |defs|
      invariant forall j :: 0 <= j < i ==> defs[j].name != name
    {
      if defs[i].name == name {
        return Some(defs[i]);
      }
      i := i + 1;
    }
    return None;
  }
}
