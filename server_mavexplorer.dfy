/** The analysis helpers of the stand-alone Flask server
    (server/mavexplorer_api.py): the row-based per-type summary, and graph
    evaluation through the external expression evaluator with one global
    message counter. */
module ServerMavExplorer {

  import opened Log
  import opened Sorting
  import opened ApiMavExplorer

  // ---------------------------------------------------------------- summary

  /** The row `d` kept for one message: `_time` first, then every int or
      float field of `to_dict()`. */
  function RowOf(m: Msg): map<string, Value> {
    map["_time" := TimeValue(Normalize(TimeOf(m)))] + map k | k in m.fields && IsNumber(m.fields[k]) :: m.fields[k]
  }

  /** A row holds `_time` and exactly the numeric fields besides, with their
      values; a numeric field named `_time` overwrites the timestamp. */
  lemma RowOfMeaning(m: Msg)
    ensures RowOf(m).Keys - {"_time"} == NumericKeys(m) && "_time" in RowOf(m)
    ensures forall k :: k in RowOf(m) && k != "_time" ==> k in m.fields && RowOf(m)[k] == m.fields[k]
    ensures "_time" in m.fields && IsNumber(m.fields["_time"]) ==> RowOf(m)["_time"] == m.fields["_time"]
    ensures !("_time" in m.fields && IsNumber(m.fields["_time"])) ==> RowOf(m)["_time"] == TimeValue(Normalize(TimeOf(m)))
  {
  }

  /** The loop over `to_dict().items()` that fills `d`. */
  method BuildRow(m: Msg) returns (d: map<string, Value>)
    ensures d == RowOf(m)
  {
    d := map["_time" := TimeValue(Normalize(TimeOf(m)))];
    var keys := m.fields.Keys;
    while keys != {}
      invariant keys <= m.fields.Keys
      invariant d == map["_time" := TimeValue(Normalize(TimeOf(m)))]
                     + map k | k in m.fields.Keys - keys && IsNumber(m.fields[k]) :: m.fields[k]
      decreases keys
    {
      var k :| k in keys;
      if IsNumber(m.fields[k]) {
        d := d[k := m.fields[k]];
      }
      keys := keys - {k};
    }
  }

  /** The rows of a sequence of messages, in order. */
  function Rows(ms: seq<Msg>): (r: seq<map<string, Value>>)
    ensures |r| == |ms|
  {
    if ms == [] then [] else Rows(ms[..|ms| - 1]) + [RowOf(ms[|ms| - 1])]
  }

  /** The row lists after `log` has been scanned: one list per type, in log order. */
  ghost predicate Grouped(msgs: map<string, seq<map<string, Value>>>, log: seq<Msg>) {
    msgs.Keys == Types(log) && forall t :: t in msgs ==> msgs[t] == Rows(OfType(log, t))
  }

  lemma OfTypeOther(log: seq<Msg>, m: Msg, t: string)
    requires m.mtype != t
    ensures OfType(log + [m], t) == OfType(log, t)
  {
    assert (log + [m])[..|log|] == log;
  }

  /** The `msgs` dict after `log`: each row appended to the list of its type. */
  function GroupRows(log: seq<Msg>): map<string, seq<map<string, Value>>> {
    if log == [] then map[]
    else
      var prev := GroupRows(log[..|log| - 1]);
      var m := log[|log| - 1];
      prev[m.mtype := (if m.mtype in prev then prev[m.mtype] else []) + [RowOf(m)]]
  }

  lemma GroupRowsGrouped(log: seq<Msg>)
    ensures Grouped(GroupRows(log), log)
  {
    forall t ensures (t in GroupRows(log) <==> t in Types(log))
                     && (t in GroupRows(log) ==> GroupRows(log)[t] == Rows(OfType(log, t))) {
      GroupRowsAt(log, t);
    }
  }

  /** The list kept for type `t`: present exactly when `t` occurs, and then
      the rows of its messages in log order. */
  lemma {:induction false} GroupRowsAt(log: seq<Msg>, t: string)
    ensures t in GroupRows(log) <==> t in Types(log)
    ensures t in GroupRows(log) ==> GroupRows(log)[t] == Rows(OfType(log, t))
  {
    if log != [] {
      var init := log[..|log| - 1];
      var m := log[|log| - 1];
      assert init + [m] == log;
      GroupRowsAt(init, t);
      SnocParts(init, m);
      if t == m.mtype {
        SnocType(init, m, t);
        if t !in GroupRows(init) {
          OfTypeEmpty(init, t);
        }
        RowsSnoc(OfType(init, t), m);
      } else {
        OfTypeOther(init, m, t);
      }
    }
  }

  /** `msgs.setdefault(name, []).append(d)` over the whole log. */
  method CollectRows(log: seq<Msg>) returns (msgs: map<string, seq<map<string, Value>>>)
    ensures Grouped(msgs, log)
  {
    msgs := map[];
    var i := 0;
    while i < |log|
      invariant 0 <= i <= |log|
      invariant msgs == GroupRows(log[..i])
    {
      var m := log[i];
      var d := BuildRow(m);
      PrefixStep(log, i);
      var rows := if m.mtype in msgs then msgs[m.mtype] else [];
      msgs := msgs[m.mtype := rows + [d]];
      i := i + 1;
    }
    assert log[..i] == log;
    GroupRowsGrouped(log);
  }

  lemma RowsSnoc(ms: seq<Msg>, m: Msg)
    ensures Rows(ms + [m]) == Rows(ms) + [RowOf(m)]
  {
    assert (ms + [m])[..|ms|] == ms;
  }

  /** `fields.update(k for k in r.keys() if k != '_time')` over a list of rows. */
  function RowKeys(rows: seq<map<string, Value>>): set<string> {
    if rows == [] then {} else RowKeys(rows[..|rows| - 1]) + (rows[|rows| - 1].Keys - {"_time"})
  }

  method FieldUnion(rows: seq<map<string, Value>>) returns (fields: set<string>)
    ensures fields == RowKeys(rows)
  {
    fields := {};
    var i := 0;
    while i < |rows|
      invariant 0 <= i <= |rows|
      invariant fields == RowKeys(rows[..i])
    {
      assert rows[..i + 1][..i] == rows[..i];
      fields := fields + (rows[i].Keys - {"_time"});
      i := i + 1;
    }
    assert rows[..i] == rows;
  }

  /** The union of the row keys of a type is the set of its numeric fields,
      as the streaming variant collects it. */
  lemma {:induction false} RowKeysNumeric(log: seq<Msg>, t: string)
    ensures RowKeys(Rows(OfType(log, t))) == NumericFields(log, t)
  {
    if log != [] {
      var init := log[..|log| - 1];
      var m := log[|log| - 1];
      RowKeysNumeric(init, t);
      if m.mtype == t {
        assert OfType(log, t) == OfType(init, t) + [m];
        RowOfMeaning(m);
        RowsSnoc(OfType(init, t), m);
        RowKeysSnoc(Rows(OfType(init, t)), RowOf(m));
      } else {
        assert OfType(log, t) == OfType(init, t);
      }
    }
  }

  lemma RowKeysSnoc(rows: seq<map<string, Value>>, r: map<string, Value>)
    ensures RowKeys(rows + [r]) == RowKeys(rows) + (r.Keys - {"_time"})
  {
    assert (rows + [r])[..|rows|] == rows;
  }

  /** `analyze_file_basic` (server): rows per type first, then the sorted
      union of their keys less `_time`. */
  method AnalyzeFileBasic(log: seq<Msg>) returns (out: map<string, TypeSummary>)
    ensures SummaryOf(out, log)
  {
    var msgs := CollectRows(log);
    out := map[];
    var names := msgs.Keys;
    while names != {}
      invariant names <= msgs.Keys
      invariant out.Keys == msgs.Keys - names
      invariant forall t :: t in out ==> out[t].count == CountOf(log, t) && SortedOf(out[t].fields, NumericFields(log, t))
      decreases names
    {
      var name :| name in names;
      var rows := msgs[name];
      var fields := FieldUnion(rows);
      assert |rows| == CountOf(log, name);
      RowKeysNumeric(log, name);
      var sorted := SortStrings(fields);
      out := out[name := TypeSummary(|rows|, sorted)];
      names := names - {name};
    }
  }

  // ---------------------------------------------------------- graph evaluation

  /** What `mavutil.evaluate_expression` does on one call: raise, or return
      a value (None included). */
  datatype EvalOutcome = Raised | Returned(v: Value)

  /** The external evaluator: an expression and the last-seen messages. */
  type Evaluator = (string, map<string, Msg>) -> EvalOutcome

  /** `val`, with an exception read as None. */
  function ValueOf(ev: Evaluator, expr: string, seen: map<string, Msg>): (r: Value)
    ensures ev(expr, seen).Raised? ==> r == NoneV
    ensures ev(expr, seen).Returned? ==> r == ev(expr, seen).v
  {
    match ev(expr, seen)
    case Raised => NoneV
    case Returned(v) => v
  }

  /** `messages` after `add_message` for each message of the log: the last
      message of every type seen so far. */
  function LastSeen(log: seq<Msg>): (r: map<string, Msg>)
    ensures r.Keys == Types(log)
  {
    if log == [] then map[] else LastSeen(log[..|log| - 1])[log[|log| - 1].mtype := log[|log| - 1]]
  }

  /** `messages` right after the message at position `i` was added. */
  function SeenAt(log: seq<Msg>, i: nat): map<string, Msg>
    requires i < |log|
  {
    LastSeen(log[..i + 1])
  }

  lemma SeenAtPrefix(log: seq<Msg>, n: nat, i: nat)
    requires i < n <= |log|
    ensures SeenAt(log[..n], i) == SeenAt(log, i)
  {
    assert log[..n][..i + 1] == log[..i + 1];
  }

  /** The last-seen entry of a type is its last message in the log. */
  lemma {:induction false} LastSeenIsLast(log: seq<Msg>, t: string)
    requires t in LastSeen(log)
    ensures OfType(log, t) != [] && LastSeen(log)[t] == OfType(log, t)[|OfType(log, t)| - 1]
  {
    var init := log[..|log| - 1];
    if log[|log| - 1].mtype != t {
      LastSeenIsLast(init, t);
    }
  }

  /** `_timestamp or time_usec or time`, normalised: the precedence differs
      from the one of `/api/timeseries`. */
  function StampOf(m: Msg): (r: Option<real>)
    ensures Truthy(m.stamp) ==> r == Normalize(m.stamp)
    ensures !Truthy(m.stamp) && Truthy(m.timeUsec) ==> r == Normalize(m.timeUsec)
    ensures !Truthy(m.stamp) && !Truthy(m.timeUsec) ==> r == Normalize(m.time)
  {
    Normalize(Or(Or(m.stamp, m.timeUsec), m.time))
  }

  /** `{expr: [] for expr in graph_def.expressions}` */
  function Initial(exprs: seq<string>): (r: map<string, seq<Point>>)
    ensures r.Keys == Elems(exprs)
    ensures forall e :: e in r ==> r[e] == []
  {
    map e | e in Elems(exprs) :: []
  }

  /** The loop over the expressions for one message, at counter `idx`; None
      is the ZeroDivisionError of `idx % 0`, reached at the first non-None value. */
  function Feed(series: map<string, seq<Point>>, exprs: seq<string>, ev: Evaluator,
                seen: map<string, Msg>, t: Option<real>, idx: int, d: int): (r: Option<map<string, seq<Point>>>)
    requires forall k :: 0 <= k < |exprs| ==> exprs[k] in series
    ensures r.Some? ==> r.value.Keys == series.Keys
  {
    if exprs == [] then Some(series)
    else
      var prev := Feed(series, exprs[..|exprs| - 1], ev, seen, t, idx, d);
      var e := exprs[|exprs| - 1];
      var v := ValueOf(ev, e, seen);
      if prev.None? then None
      else if v == NoneV then prev
      else if d == 0 then None
      else if idx % d == 0 then Some(prev.value[e := prev.value[e] + [Point(t, v)]])
      else prev
  }

  /** The whole loop: `idx` is the position of the message in the log. */
  function Run(log: seq<Msg>, exprs: seq<string>, ev: Evaluator, d: int): (r: Option<map<string, seq<Point>>>)
    ensures r.Some? ==> r.value.Keys == Elems(exprs)
  {
    if log == [] then Some(Initial(exprs))
    else
      var prev := Run(log[..|log| - 1], exprs, ev, d);
      if prev.None? then None
      else
        var m := log[|log| - 1];
        Feed(prev.value, exprs, ev, LastSeen(log), StampOf(m), |log| - 1, d)
  }

  datatype ServerGraph = ServerGraph(name: string, series: map<string, seq<Point>>)

  method FeedMessage(series0: map<string, seq<Point>>, exprs: seq<string>, ev: Evaluator,
                     seen: map<string, Msg>, t: Option<real>, idx: int, d: int)
    returns (r: Option<map<string, seq<Point>>>)
    requires forall k :: 0 <= k < |exprs| ==> exprs[k] in series0
    ensures r == Feed(series0, exprs, ev, seen, t, idx, d)
  {
    var series := series0;
    var k := 0;
    while k < |exprs|
      invariant 0 <= k <= |exprs|
      invariant Feed(series0, exprs[..k], ev, seen, t, idx, d) == Some(series)
    {
      var expr := exprs[k];
      assert exprs[..k + 1][..k] == exprs[..k];
      var val := ValueOf(ev, expr, seen);
      if val == NoneV {
        k := k + 1;
        continue;
      }
      if d == 0 {
        FeedPrefixNone(series0, exprs, ev, seen, t, idx, d, k + 1);
        return None;
      }
      if idx % d == 0 {
        series := series[expr := series[expr] + [Point(t, val)]];
      }
      k := k + 1;
    }
    assert exprs[..k] == exprs;
    r := Some(series);
  }

  lemma {:induction false} FeedPrefixNone(series: map<string, seq<Point>>, exprs: seq<string>, ev: Evaluator,
                                          seen: map<string, Msg>, t: Option<real>, idx: int, d: int, n: nat)
    requires forall k :: 0 <= k < |exprs| ==> exprs[k] in series
    requires n <= |exprs| && Feed(series, exprs[..n], ev, seen, t, idx, d).None?
    ensures Feed(series, exprs, ev, seen, t, idx, d).None?
    decreases |exprs|
  {
    if n < |exprs| {
      assert exprs[..|exprs| - 1][..n] == exprs[..n];
      FeedPrefixNone(series, exprs[..|exprs| - 1], ev, seen, t, idx, d, n);
    } else {
      assert exprs[..n] == exprs;
    }
  }

  lemma {:induction false} RunPrefixNone(log: seq<Msg>, exprs: seq<string>, ev: Evaluator, d: int, n: nat)
    requires n <= |log| && Run(log[..n], exprs, ev, d).None?
    ensures Run(log, exprs, ev, d).None?
    decreases |log|
  {
    if n < |log| {
      assert log[..|log| - 1][..n] == log[..n];
      RunPrefixNone(log[..|log| - 1], exprs, ev, d, n);
    } else {
      assert log[..n] == log;
    }
  }

  /** `evaluate_graph_on_file` (server); None is the ZeroDivisionError that
      escapes when `decimate` is 0 and some expression has a value. */
  method EvaluateGraphOnFile(g: GraphDef, log: seq<Msg>, ev: Evaluator, decimate: int) returns (r: Option<ServerGraph>)
    ensures r.None? <==> Run(log, g.expressions, ev, decimate).None?
    ensures r.Some? ==> r.value.name == g.name && r.value.series == Run(log, g.expressions, ev, decimate).value
  {
    var exprs := g.expressions;
    var series := map e | e in Elems(exprs) :: [];
    var messages: map<string, Msg> := map[];
    var idx := 0;
    var i := 0;
    while i < |log|
      invariant 0 <= i <= |log| && idx == i
      invariant messages == LastSeen(log[..i])
      invariant Run(log[..i], exprs, ev, decimate) == Some(series)
    {
      var m := log[i];
      PrefixStep(log, i);
      messages := messages[m.mtype := m];
      var t := Normalize(Or(Or(m.stamp, m.timeUsec), m.time));
      var fed := FeedMessage(series, exprs, ev, messages, t, idx, decimate);
      if fed.None? {
        RunPrefixNone(log, exprs, ev, decimate, i + 1);
        return None;
      }
      series := fed.value;
      idx := idx + 1;
      i := i + 1;
    }
    assert log[..i] == log;
    r := Some(ServerGraph(g.name, series));
  }

  // --------------------------------------------------------------- properties

  /** Number of occurrences of `e` in `exprs`. */
  function Occ(e: string, exprs: seq<string>): nat {
    if exprs == [] then 0 else Occ(e, exprs[..|exprs| - 1]) + (if exprs[|exprs| - 1] == e then 1 else 0)
  }

  /** `n` copies of one point. */
  function Copies(p: Point, n: nat): (r: seq<Point>)
    ensures |r| == n && forall k :: 0 <= k < n ==> r[k] == p
  {
    if n == 0 then [] else Copies(p, n - 1) + [p]
  }

  /** The series of `e` alone: at every message whose position is a multiple
      of `d` and where `e` evaluates to a value, one point per occurrence of
      `e` in the graph. Nothing another expression does enters it. */
  function PointsOf(log: seq<Msg>, e: string, exprs: seq<string>, ev: Evaluator, d: int): seq<Point>
    requires d != 0
  {
    if log == [] then []
    else
      var i := |log| - 1;
      var v := ValueOf(ev, e, LastSeen(log));
      PointsOf(log[..i], e, exprs, ev, d)
        + (if i % d == 0 && v != NoneV then Copies(Point(StampOf(log[i]), v), Occ(e, exprs)) else [])
  }

  lemma FeedEach(series: map<string, seq<Point>>, exprs: seq<string>, ev: Evaluator,
                  seen: map<string, Msg>, t: Option<real>, idx: int, d: int)
    requires d != 0 && forall k :: 0 <= k < |exprs| ==> exprs[k] in series
    ensures Feed(series, exprs, ev, seen, t, idx, d).Some?
    ensures forall e :: e in series ==>
              Feed(series, exprs, ev, seen, t, idx, d).value[e]
              == series[e] + (if idx % d == 0 && ValueOf(ev, e, seen) != NoneV
                              then Copies(Point(t, ValueOf(ev, e, seen)), Occ(e, exprs)) else [])
  {
    FeedSome(series, exprs, ev, seen, t, idx, d);
    forall e | e in series
      ensures Feed(series, exprs, ev, seen, t, idx, d).value[e]
              == series[e] + (if idx % d == 0 && ValueOf(ev, e, seen) != NoneV
                              then Copies(Point(t, ValueOf(ev, e, seen)), Occ(e, exprs)) else [])
    {
      FeedAt(series, exprs, ev, seen, t, idx, d, e);
    }
  }

  /** With a non-zero `decimate` feeding one message never fails. */
  lemma {:induction false} FeedSome(series: map<string, seq<Point>>, exprs: seq<string>, ev: Evaluator,
                                    seen: map<string, Msg>, t: Option<real>, idx: int, d: int)
    requires d != 0 && forall k :: 0 <= k < |exprs| ==> exprs[k] in series
    ensures Feed(series, exprs, ev, seen, t, idx, d).Some?
  {
    if exprs != [] {
      FeedSome(series, exprs[..|exprs| - 1], ev, seen, t, idx, d);
    }
  }

  /** The series of `e` gains one point per occurrence of `e` when the
      counter is a multiple of `d` and `e` has a value. */
  lemma {:induction false} FeedAt(series: map<string, seq<Point>>, exprs: seq<string>, ev: Evaluator,
                                  seen: map<string, Msg>, t: Option<real>, idx: int, d: int, e: string)
    requires d != 0 && forall k :: 0 <= k < |exprs| ==> exprs[k] in series
    requires e in series
    ensures Feed(series, exprs, ev, seen, t, idx, d).Some?
    ensures Feed(series, exprs, ev, seen, t, idx, d).value[e]
            == series[e] + (if idx % d == 0 && ValueOf(ev, e, seen) != NoneV
                            then Copies(Point(t, ValueOf(ev, e, seen)), Occ(e, exprs)) else [])
  {
    FeedSome(series, exprs, ev, seen, t, idx, d);
    if exprs != [] {
      var init := exprs[..|exprs| - 1];
      FeedAt(series, init, ev, seen, t, idx, d, e);
      var x := exprs[|exprs| - 1];
      if x == e && idx % d == 0 && ValueOf(ev, e, seen) != NoneV {
        var p := Point(t, ValueOf(ev, e, seen));
        assert Copies(p, Occ(e, exprs)) == Copies(p, Occ(e, init)) + [p];
      }
    }
  }

  /** With a non-zero `decimate` the evaluation never fails, the keys are
      exactly the expressions, and each expression's series is PointsOf: one
      global counter drives decimation, and an expression that raises or
      yields None at a message skips that message for itself only. */
  lemma {:induction false} RunPerExpression(log: seq<Msg>, exprs: seq<string>, ev: Evaluator, d: int)
    requires d != 0
    ensures Run(log, exprs, ev, d).Some?
    ensures Run(log, exprs, ev, d).value.Keys == Elems(exprs)
    ensures forall e :: e in Elems(exprs) ==> Run(log, exprs, ev, d).value[e] == PointsOf(log, e, exprs, ev, d)
  {
    if log != [] {
      var init := log[..|log| - 1];
      RunPerExpression(init, exprs, ev, d);
      var m := log[|log| - 1];
      FeedEach(Run(init, exprs, ev, d).value, exprs, ev, LastSeen(log), StampOf(m), |log| - 1, d);
    }
  }

  /** Every stored point comes from a message whose position in the log is a
      multiple of `decimate`, carries that message's timestamp and the value
      the evaluator gave there. */
  lemma {:induction false} PointsFromDecimatedMessages(log: seq<Msg>, e: string, exprs: seq<string>, ev: Evaluator, d: int, k: nat)
    requires d != 0 && k < |PointsOf(log, e, exprs, ev, d)|
    ensures exists i :: 0 <= i < |log| && i % d == 0
              && PointsOf(log, e, exprs, ev, d)[k] == Point(StampOf(log[i]), ValueOf(ev, e, SeenAt(log, i)))
              && ValueOf(ev, e, SeenAt(log, i)) != NoneV
  {
    var i := |log| - 1;
    var init := log[..i];
    var before := PointsOf(init, e, exprs, ev, d);
    assert log[..i + 1] == log;
    if k < |before| {
      PointsFromDecimatedMessages(init, e, exprs, ev, d, k);
      var j :| 0 <= j < |init| && j % d == 0
                && before[k] == Point(StampOf(init[j]), ValueOf(ev, e, SeenAt(init, j)))
                && ValueOf(ev, e, SeenAt(init, j)) != NoneV;
      SeenAtPrefix(log, i, j);
    }
  }

  /** All values None at every message and every expression. */
  ghost predicate AllNone(log: seq<Msg>, exprs: seq<string>, ev: Evaluator) {
    forall i :: 0 <= i < |log| ==> NoneAt(exprs, ev, SeenAt(log, i))
  }

  /** Every expression is None (or raises) on these last-seen messages. */
  ghost predicate NoneAt(exprs: seq<string>, ev: Evaluator, seen: map<string, Msg>) {
    forall k :: 0 <= k < |exprs| ==> ValueOf(ev, exprs[k], seen) == NoneV
  }

  lemma {:induction false} FeedZero(series: map<string, seq<Point>>, exprs: seq<string>, ev: Evaluator,
                                    seen: map<string, Msg>, t: Option<real>, idx: int)
    requires forall k :: 0 <= k < |exprs| ==> exprs[k] in series
    ensures Feed(series, exprs, ev, seen, t, idx, 0).Some? <==> NoneAt(exprs, ev, seen)
    ensures Feed(series, exprs, ev, seen, t, idx, 0).Some? ==> Feed(series, exprs, ev, seen, t, idx, 0).value == series
  {
    if exprs != [] {
      var init := exprs[..|exprs| - 1];
      FeedZero(series, init, ev, seen, t, idx);
      assert forall k :: 0 <= k < |init| ==> init[k] == exprs[k];
    }
  }

  /** A zero `decimate` fails exactly when some expression yields a value at
      some message; otherwise every series stays empty. */
  lemma {:induction false} RunZeroDecimate(log: seq<Msg>, exprs: seq<string>, ev: Evaluator)
    ensures Run(log, exprs, ev, 0).Some? <==> AllNone(log, exprs, ev)
    ensures Run(log, exprs, ev, 0).Some? ==> Run(log, exprs, ev, 0).value == Initial(exprs)
  {
    if log != [] {
      var n := |log| - 1;
      var init := log[..n];
      RunZeroDecimate(init, exprs, ev);
      AllNoneSnoc(log, exprs, ev);
      if Run(init, exprs, ev, 0).Some? {
        FeedZero(Run(init, exprs, ev, 0).value, exprs, ev, LastSeen(log), StampOf(log[n]), n);
      }
    }
  }

  /** All values are None over a log exactly when they are over all but its
      last message and at that last message. */
  lemma AllNoneSnoc(log: seq<Msg>, exprs: seq<string>, ev: Evaluator)
    requires log != []
    ensures AllNone(log, exprs, ev) <==> AllNone(log[..|log| - 1], exprs, ev) && NoneAt(exprs, ev, LastSeen(log))
  {
    var n := |log| - 1;
    var init := log[..n];
    assert log[..n + 1] == log;
    assert SeenAt(log, n) == LastSeen(log);
    if AllNone(log, exprs, ev) {
      forall i | 0 <= i < |init| ensures NoneAt(exprs, ev, SeenAt(init, i)) {
        SeenAtPrefix(log, n, i);
        assert NoneAt(exprs, ev, SeenAt(log, i));
      }
      assert NoneAt(exprs, ev, SeenAt(log, n));
    }
    if AllNone(init, exprs, ev) && NoneAt(exprs, ev, LastSeen(log)) {
      forall i | 0 <= i < |log| ensures NoneAt(exprs, ev, SeenAt(log, i)) {
        if i < n {
          SeenAtPrefix(log, n, i);
          assert NoneAt(exprs, ev, SeenAt(init, i));
        } else {
          assert i == n;
        }
      }
    }
  }
}
