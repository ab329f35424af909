/** The analysis helpers deployed with the serverless back end
    (api/mavexplorer_api.py): graph catalogue filtering, flight-mode records,
    the per-type message summary, and graph evaluation by `msg.field` terms. */
module ApiMavExplorer {

  import opened Log
  import opened Sorting
  import opened Terms
  import opened Stream

  // ---------------------------------------------------------------- catalogue

  /** `str.isspace()`: the ASCII controls 9-13 and 28-31, the space, and the
      Unicode separators Python counts as whitespace. */
  predicate IsSpace(c: char) {
    var k := c as int;
    (9 <= k <= 13) || (28 <= k <= 32) || k == 0x85 || k == 0xA0 || k == 0x1680
    || (0x2000 <= k <= 0x200A) || k == 0x2028 || k == 0x2029 || k == 0x202F
    || k == 0x205F || k == 0x3000
  }

  /** `s` without its leading whitespace. */
  function StripLeft(s: string): string {
    if s != [] && IsSpace(s[0]) then StripLeft(s[1..]) else s
  }

  /** `s` without its trailing whitespace. */
  function StripRight(s: string): string {
    if s != [] && IsSpace(s[|s| - 1]) then StripRight(s[..|s| - 1]) else s
  }

  /** `str.strip()` */
  function Strip(s: string): string {
    StripRight(StripLeft(s))
  }

  lemma {:induction false} StripLeftMeaning(s: string)
    ensures |StripLeft(s)| <= |s| && StripLeft(s) == s[|s| - |StripLeft(s)|..]
    ensures forall k :: 0 <= k < |s| - |StripLeft(s)| ==> IsSpace(s[k])
    ensures StripLeft(s) == [] || !IsSpace(StripLeft(s)[0])
  {
    if s != [] && IsSpace(s[0]) {
      StripLeftMeaning(s[1..]);
      assert forall k :: 1 <= k < |s| ==> s[k] == s[1..][k - 1];
    }
  }

  lemma {:induction false} StripRightMeaning(s: string)
    ensures |StripRight(s)| <= |s| && StripRight(s) == s[..|StripRight(s)|]
    ensures forall k :: |StripRight(s)| <= k < |s| ==> IsSpace(s[k])
    ensures StripRight(s) == [] || !IsSpace(StripRight(s)[|StripRight(s)| - 1])
  {
    if s != [] && IsSpace(s[|s| - 1]) {
      StripRightMeaning(s[..|s| - 1]);
      assert forall k :: 0 <= k < |s| - 1 ==> s[k] == s[..|s| - 1][k];
    }
  }

  /** `str.strip()` removes exactly the leading and trailing whitespace: the
      result is a slice of `s`, everything cut off is whitespace, and the
      result neither starts nor ends with whitespace. */
  lemma StripMeaning(s: string)
    ensures exists i, j :: 0 <= i <= j <= |s| && Strip(s) == s[i..j]
                           && (forall k :: 0 <= k < i ==> IsSpace(s[k]))
                           && (forall k :: j <= k < |s| ==> IsSpace(s[k]))
    ensures Strip(s) == [] || (!IsSpace(Strip(s)[0]) && !IsSpace(Strip(s)[|Strip(s)| - 1]))
  {
    StripLeftMeaning(s);
    var i := |s| - |StripLeft(s)|;
    StripTrailing(s);
    StripEnds(s);
    assert Strip(s) == s[i..i + |Strip(s)|];
  }

  /** What `Strip` cuts off the right is whitespace, and it keeps a slice. */
  lemma StripTrailing(s: string)
    ensures |Strip(s)| <= |StripLeft(s)| <= |s|
    ensures Strip(s) == s[|s| - |StripLeft(s)|..|s| - |StripLeft(s)| + |Strip(s)|]
    ensures forall k :: |s| - |StripLeft(s)| + |Strip(s)| <= k < |s| ==> IsSpace(s[k])
  {
    var l := StripLeft(s);
    StripLeftMeaning(s);
    StripRightMeaning(l);
    var i := |s| - |l|;
    forall k | i + |Strip(s)| <= k < |s|
      ensures IsSpace(s[k])
    {
      assert s[k] == l[k - i];
    }
  }

  /** `Strip` keeps no whitespace at either end. */
  lemma StripEnds(s: string)
    ensures Strip(s) == [] || (!IsSpace(Strip(s)[0]) && !IsSpace(Strip(s)[|Strip(s)| - 1]))
  {
    var l := StripLeft(s);
    StripLeftMeaning(s);
    StripRightMeaning(l);
    if Strip(s) != [] {
      assert Strip(s)[0] == l[0];
    }
  }

  /** One `<graph>` element of mavgraphs.xml: its `name` attribute, the text
      of its `<description>` (None when the element or its text is missing)
      and the texts of its `<expression>` children in document order. */
  datatype GraphElem = GraphElem(
    name: Option<string>,
    description: Option<string>,
    expressionTexts: seq<Option<string>>)

  /** `[t.strip() for t in texts if t]` */
  function Expressions(texts: seq<Option<string>>): seq<string> {
    if texts == [] then []
    else
      var t := texts[|texts| - 1];
      Expressions(texts[..|texts| - 1]) + (if Blank(t) then [] else [Strip(t.value)])
  }

  /** The GraphDefinition a `<graph>` element yields, or None when it has no
      expression with text. The name defaults to 'Unnamed'; whitespace-only
      expressions survive as empty strings. */
  function GraphOf(e: GraphElem, xmlPath: string): Option<GraphDef> {
    var exprs := Expressions(e.expressionTexts);
    if exprs == [] then None
    else
      var name := if e.name.Some? then e.name.value else "Unnamed";
      var desc := if e.description.Some? && e.description.value != [] then Strip(e.description.value) else "";
      Some(GraphDef(name, exprs[0], desc, exprs, xmlPath))
  }

  /** The expression list is empty exactly when every expression text is missing or empty. */
  lemma {:induction false} ExpressionsEmpty(texts: seq<Option<string>>)
    ensures Expressions(texts) == [] <==> forall k :: 0 <= k < |texts| ==> Blank(texts[k])
  {
    if texts != [] {
      var init := texts[..|texts| - 1];
      ExpressionsEmpty(init);
      assert forall k :: 0 <= k < |init| ==> init[k] == texts[k];
    }
  }

  /** The expressions are the stripped texts that are present and non-empty:
      each comes from such a text and each such text contributes. */
  lemma ExpressionsMembers(texts: seq<Option<string>>, x: string)
    ensures x in Expressions(texts) <==> exists k :: 0 <= k < |texts| && !Blank(texts[k]) && x == Strip(texts[k].value)
  {
    if x in Expressions(texts) {
      var k := ExpressionSource(texts, x);
    }
    if exists k :: 0 <= k < |texts| && !Blank(texts[k]) && x == Strip(texts[k].value) {
      var k :| 0 <= k < |texts| && !Blank(texts[k]) && x == Strip(texts[k].value);
      ExpressionKept(texts, k);
    }
  }

  /** The text an expression was stripped from. */
  lemma {:induction false} ExpressionSource(texts: seq<Option<string>>, x: string) returns (k: nat)
    requires x in Expressions(texts)
    ensures k < |texts| && !Blank(texts[k]) && x == Strip(texts[k].value)
  {
    var n := |texts| - 1;
    if x in Expressions(texts[..n]) {
      k := ExpressionSource(texts[..n], x);
      assert texts[..n][k] == texts[k];
    } else {
      k := n;
    }
  }

  /** A present, non-empty text contributes its stripped form. */
  lemma {:induction false} ExpressionKept(texts: seq<Option<string>>, k: nat)
    requires k < |texts| && !Blank(texts[k])
    ensures Strip(texts[k].value) in Expressions(texts)
  {
    var n := |texts| - 1;
    if k < n {
      assert texts[..n][k] == texts[k];
      ExpressionKept(texts[..n], k);
    }
  }

  /** A `<graph>` element is dropped exactly when it has no expression text;
      otherwise its name defaults to 'Unnamed', its first expression is the
      `expression`, and its file is the catalogue's. */
  lemma GraphOfMeaning(e: GraphElem, xmlPath: string)
    ensures GraphOf(e, xmlPath).None? <==> forall k :: 0 <= k < |e.expressionTexts| ==> Blank(e.expressionTexts[k])
    ensures GraphOf(e, xmlPath).Some? ==>
              var g := GraphOf(e, xmlPath).value;
              g.name == (if e.name.Some? then e.name.value else "Unnamed")
              && g.expressions == Expressions(e.expressionTexts) && g.expressions != []
              && g.expression == g.expressions[0] && g.filename == xmlPath
  {
    ExpressionsEmpty(e.expressionTexts);
  }

  /** The catalogue: one GraphDefinition per `<graph>` element that has one,
      in document order. */
  function Catalogue(elems: seq<GraphElem>, xmlPath: string): seq<GraphDef> {
    if elems == [] then []
    else
      var g := GraphOf(elems[|elems| - 1], xmlPath);
      Catalogue(elems[..|elems| - 1], xmlPath) + (if g.Some? then [g.value] else [])
  }

  /** The body of the loop over `<graph>` elements: collect the non-empty
      expression texts, stripped, and build the definition when any remain. */
  method GraphFromElem(e: GraphElem, xmlPath: string) returns (g: Option<GraphDef>)
    ensures g == GraphOf(e, xmlPath)
  {
    var name := if e.name.Some? then e.name.value else "Unnamed";
    var description := if e.description.Some? && e.description.value != [] then Strip(e.description.value) else "";
    var expressions: seq<string> := [];
    var texts := e.expressionTexts;
    var j := 0;
    while j < |texts|
      invariant 0 <= j <= |texts|
      invariant expressions == Expressions(texts[..j])
    {
      var text := texts[j];
      assert texts[..j + 1][..j] == texts[..j];
      if !Blank(text) {
        expressions := expressions + [Strip(text.value)];
      }
      j := j + 1;
    }
    assert texts[..j] == texts;
    if expressions == [] {
      return None;
    }
    g := Some(GraphDef(name, expressions[0], description, expressions, xmlPath));
  }

  /** `load_graph_definitions`: `parsed` is None when no catalogue file exists
      or it fails to parse, which yields the empty list. */
  method LoadGraphDefinitions(parsed: Option<seq<GraphElem>>, xmlPath: string) returns (graphs: seq<GraphDef>)
    ensures parsed.None? ==> graphs == []
    ensures parsed.Some? ==> graphs == Catalogue(parsed.value, xmlPath)
  {
    graphs := [];
    if parsed.None? {
      return;
    }
    var elems := parsed.value;
    var i := 0;
    while i < |elems|
      invariant 0 <= i <= |elems|
      invariant graphs == Catalogue(elems[..i], xmlPath)
    {
      var g := GraphFromElem(elems[i], xmlPath);
      CataloguePrefix(elems, i, xmlPath);
      if g.Some? {
        graphs := graphs + [g.value];
      }
      i := i + 1;
    }
    assert elems[..i] == elems;
  }

  lemma CataloguePrefix(elems: seq<GraphElem>, i: nat, xmlPath: string)
    requires i < |elems|
    ensures Catalogue(elems[..i + 1], xmlPath)
            == Catalogue(elems[..i], xmlPath) + (if GraphOf(elems[i], xmlPath).Some? then [GraphOf(elems[i], xmlPath).value] else [])
  {
    assert elems[..i + 1] == elems[..i] + [elems[i]];
    CatalogueStep(elems[..i], elems[i], xmlPath);
  }

  lemma CatalogueStep(elems: seq<GraphElem>, e: GraphElem, xmlPath: string)
    ensures Catalogue(elems + [e], xmlPath)
            == Catalogue(elems, xmlPath) + (if GraphOf(e, xmlPath).Some? then [GraphOf(e, xmlPath).value] else [])
  {
    assert (elems + [e])[..|elems|] == elems;
  }

  /** A definition is in the catalogue exactly when some `<graph>` element
      yields it: elements without an expression text are the only ones dropped. */
  lemma {:induction false} CatalogueMembers(elems: seq<GraphElem>, xmlPath: string, g: GraphDef)
    ensures g in Catalogue(elems, xmlPath) <==> exists k :: 0 <= k < |elems| && GraphOf(elems[k], xmlPath) == Some(g)
  {
    if elems != [] {
      var init := elems[..|elems| - 1];
      var e := elems[|elems| - 1];
      CatalogueMembers(init, xmlPath, g);
      assert elems == init + [e];
      CatalogueStep(init, e, xmlPath);
      if exists k :: 0 <= k < |elems| && GraphOf(elems[k], xmlPath) == Some(g) {
        var k :| 0 <= k < |elems| && GraphOf(elems[k], xmlPath) == Some(g);
        if k < |init| {
          assert init[k] == elems[k];
        }
      }
      if exists k :: 0 <= k < |init| && GraphOf(init[k], xmlPath) == Some(g) {
        var k :| 0 <= k < |init| && GraphOf(init[k], xmlPath) == Some(g);
        assert elems[k] == init[k];
      }
    }
  }

  // ------------------------------------------------------------- flight modes

  /** One `(mode_name, t1, t2)` entry of the decoder's flight-mode list. */
  datatype ModeSpan = ModeSpan(mode: string, t1: real, t2: real)

  datatype FlightMode = FlightMode(mode: string, start: real, end: real, duration: real)

  /** `extract_flight_modes`: one record per span, in the decoder's order.
      `spans` is None when the decoder raised, which yields []. */
  function ExtractFlightModes(spans: Option<seq<ModeSpan>>): (r: seq<FlightMode>)
    ensures spans.None? ==> r == []
    ensures spans.Some? ==> |r| == |spans.value|
    ensures spans.Some? ==> forall i :: 0 <= i < |r| ==>
              r[i].mode == spans.value[i].mode && r[i].start == spans.value[i].t1
              && r[i].end == spans.value[i].t2 && r[i].duration == r[i].end - r[i].start
  {
    if spans.None? then []
    else seq(|spans.value|, i requires 0 <= i < |spans.value| =>
           FlightMode(spans.value[i].mode, spans.value[i].t1, spans.value[i].t2, spans.value[i].t2 - spans.value[i].t1))
  }

  // ---------------------------------------------------------------- summary

  /** `{'count': n, 'fields': sorted numeric field names}` for one type. */
  datatype TypeSummary = TypeSummary(count: nat, fields: seq<string>)

  datatype Analysis = Analysis(messages: map<string, TypeSummary>, flightModes: seq<FlightMode>)

  /** The keys of one message, other than `_time`, whose value is an int or a float. */
  function NumericKeys(m: Msg): set<string> {
    set k | k in m.fields && k != "_time" && IsNumber(m.fields[k])
  }

  /** The union of NumericKeys over the messages of type `t`. */
  function NumericFields(log: seq<Msg>, t: string): set<string> {
    if log == [] then {}
    else
      var m := log[|log| - 1];
      NumericFields(log[..|log| - 1], t) + (if m.mtype == t then NumericKeys(m) else {})
  }

  /** `k` is a numeric field of type `t` exactly when some message of that
      type carries `k` with an int or float value. */
  lemma {:induction false} NumericFieldsMeaning(log: seq<Msg>, t: string, k: string)
    ensures k in NumericFields(log, t) <==>
            exists i :: 0 <= i < |log| && log[i].mtype == t && k in log[i].fields && k != "_time" && IsNumber(log[i].fields[k])
  {
    if log != [] {
      var init := log[..|log| - 1];
      NumericFieldsMeaning(init, t, k);
      if k in NumericFields(init, t) {
        var i :| 0 <= i < |init| && init[i].mtype == t && k in init[i].fields && k != "_time" && IsNumber(init[i].fields[k]);
        assert log[i] == init[i];
      }
      if exists i :: 0 <= i < |log| && log[i].mtype == t && k in log[i].fields && k != "_time" && IsNumber(log[i].fields[k]) {
        var i :| 0 <= i < |log| && log[i].mtype == t && k in log[i].fields && k != "_time" && IsNumber(log[i].fields[k]);
        if i < |log| - 1 {
          assert init[i] == log[i];
        }
      }
    }
  }

  /** The summary `analyze_file_basic` promises: one entry per type in the
      log, with its message count and its numeric field names sorted. */
  ghost predicate SummaryOf(out: map<string, TypeSummary>, log: seq<Msg>) {
    out.Keys == Types(log)
    && forall t :: t in out ==> out[t].count == CountOf(log, t) && SortedOf(out[t].fields, NumericFields(log, t))
  }

  /** The summary is determined by the log: any two summaries of it agree. */
  lemma SummaryUnique(a: map<string, TypeSummary>, b: map<string, TypeSummary>, log: seq<Msg>)
    requires SummaryOf(a, log) && SummaryOf(b, log)
    ensures a == b
  {
    forall t | t in a ensures a[t] == b[t] {
      SortedOfUnique(a[t].fields, b[t].fields, NumericFields(log, t));
    }
  }

  /** What the scan keeps per type: `{'count': int, 'fields': set()}`. */
  datatype Info = Info(count: nat, fields: set<string>)

  /** `for k, v in m.to_dict().items(): if k != '_time' and isinstance(v, (int, float)): fields.add(k)` */
  method AddNumericKeys(fields: set<string>, m: Msg) returns (r: set<string>)
    ensures r == fields + NumericKeys(m)
  {
    r := fields;
    var keys := m.fields.Keys;
    while keys != {}
      invariant keys <= m.fields.Keys
      invariant r == fields + (NumericKeys(m) - keys)
      decreases keys
    {
      var k :| k in keys;
      if k != "_time" && IsNumber(m.fields[k]) {
        r := r + {k};
      }
      keys := keys - {k};
    }
  }

  /** The per-type table after `log[..i]` has been scanned. */
  ghost predicate Scanned(msgs: map<string, Info>, log: seq<Msg>) {
    msgs.Keys == Types(log) && forall t :: t in msgs ==> ScannedType(msgs[t], log, t)
  }

  /** The entry of type `t`: its message count and its numeric keys. */
  ghost predicate ScannedType(info: Info, log: seq<Msg>, t: string) {
    info.count == CountOf(log, t) && info.fields == NumericFields(log, t)
  }

  lemma ScannedStep(msgs: map<string, Info>, log: seq<Msg>, m: Msg, info: Info)
    requires Scanned(msgs, log)
    requires info == (if m.mtype in msgs then msgs[m.mtype] else Info(0, {}))
    ensures Scanned(msgs[m.mtype := Info(info.count + 1, info.fields + NumericKeys(m))], log + [m])
  {
    var added := Info(info.count + 1, info.fields + NumericKeys(m));
    SnocParts(log, m);
    ScannedNewEntry(msgs, log, m, info);
    ScannedOthers(msgs, log, m, added);
  }

  /** The entry of the appended message's own type. */
  lemma ScannedNewEntry(msgs: map<string, Info>, log: seq<Msg>, m: Msg, info: Info)
    requires Scanned(msgs, log)
    requires info == (if m.mtype in msgs then msgs[m.mtype] else Info(0, {}))
    ensures ScannedType(Info(info.count + 1, info.fields + NumericKeys(m)), log + [m], m.mtype)
  {
    if m.mtype !in msgs {
      OfTypeEmpty(log, m.mtype);
      NumericFieldsAbsent(log, m.mtype);
    }
    SnocType(log, m, m.mtype);
  }

  /** The entries of the other types are untouched and still right. */
  lemma ScannedOthers(msgs: map<string, Info>, log: seq<Msg>, m: Msg, added: Info)
    requires Scanned(msgs, log)
    ensures forall t :: t in msgs && t != m.mtype ==> ScannedType(msgs[m.mtype := added][t], log + [m], t)
  {
    forall t | t in msgs && t != m.mtype
      ensures ScannedType(msgs[m.mtype := added][t], log + [m], t)
    {
      SnocType(log, m, t);
    }
  }

  lemma SnocParts(log: seq<Msg>, m: Msg)
    ensures Types(log + [m]) == Types(log) + {m.mtype}
  {
    assert (log + [m])[..|log|] == log;
  }

  lemma SnocType(log: seq<Msg>, m: Msg, t: string)
    ensures OfType(log + [m], t) == OfType(log, t) + (if m.mtype == t then [m] else [])
    ensures NumericFields(log + [m], t) == NumericFields(log, t) + (if m.mtype == t then NumericKeys(m) else {})
  {
    assert (log + [m])[..|log|] == log;
  }

  lemma ScannedPrefix(msgs: map<string, Info>, log: seq<Msg>, i: nat, info: Info)
    requires i < |log| && Scanned(msgs, log[..i])
    requires info == (if log[i].mtype in msgs then msgs[log[i].mtype] else Info(0, {}))
    ensures Scanned(msgs[log[i].mtype := Info(info.count + 1, info.fields + NumericKeys(log[i]))], log[..i + 1])
  {
    assert log[..i + 1] == log[..i] + [log[i]];
    ScannedStep(msgs, log[..i], log[i], info);
  }

  lemma {:induction false} NumericFieldsAbsent(log: seq<Msg>, t: string)
    requires t !in Types(log)
    ensures NumericFields(log, t) == {}
  {
    if log != [] {
      NumericFieldsAbsent(log[..|log| - 1], t);
    }
  }

  /** The first loop of `analyze_file_basic`: count and collect numeric keys per type. */
  method ScanTypes(log: seq<Msg>) returns (msgs: map<string, Info>)
    ensures Scanned(msgs, log)
  {
    msgs := map[];
    var i := 0;
    while i < |log|
      invariant 0 <= i <= |log|
      invariant Scanned(msgs, log[..i])
    {
      var m := log[i];
      var info := if m.mtype in msgs then msgs[m.mtype] else Info(0, {});
      var fields := AddNumericKeys(info.fields, m);
      ScannedPrefix(msgs, log, i, info);
      msgs := msgs[m.mtype := Info(info.count + 1, fields)];
      i := i + 1;
    }
    assert log[..i] == log;
  }

  /** The second loop: `{'count': ..., 'fields': sorted(list(...))}` per type. */
  method Summarize(msgs: map<string, Info>) returns (summary: map<string, TypeSummary>)
    ensures summary.Keys == msgs.Keys
    ensures forall t :: t in summary ==>
              summary[t].count == msgs[t].count && SortedOf(summary[t].fields, msgs[t].fields)
  {
    summary := map[];
    var names := msgs.Keys;
    while names != {}
      invariant names <= msgs.Keys
      invariant summary.Keys == msgs.Keys - names
      invariant forall t :: t in summary ==>
                  summary[t].count == msgs[t].count && SortedOf(summary[t].fields, msgs[t].fields)
      decreases names
    {
      var name :| name in names;
      var sorted := SortStrings(msgs[name].fields);
      summary := summary[name := TypeSummary(msgs[name].count, sorted)];
      names := names - {name};
    }
  }

  /** `analyze_file_basic`: per type, the number of messages and the sorted
      numeric field names; `modes` is what the decoder's flight-mode list gave. */
  method AnalyzeFileBasic(log: seq<Msg>, modes: Option<seq<ModeSpan>>) returns (out: Analysis)
    ensures SummaryOf(out.messages, log)
    ensures out.flightModes == ExtractFlightModes(modes)
  {
    var msgs := ScanTypes(log);
    var summary := Summarize(msgs);
    out := Analysis(summary, ExtractFlightModes(modes));
  }

  // --------------------------------------------------------------- evaluation

  /** `float(v)`: ints and floats convert; any other value raises. */
  function ToFloat(v: Value): Option<real> {
    match v
    case IntV(i) => Some(i as real)
    case FloatV(r) => Some(r)
    case _ => None
  }

  /** The series built so far and the counter `idx`. */
  datatype ExprState = ExprState(series: seq<Point>, idx: int)

  /** One message through the loop of `evaluate_expression`: other types are
      never received; no `_timestamp` skips it without counting; a None value
      counts without a point; a point is taken when `idx % decimate == 0`; a
      zero `decimate` or a failing `float(v)` raises, which the bare `except`
      turns into a skip without counting. */
  function ExprStep(st: ExprState, m: Msg, msgType: string, field: string, decimate: int): ExprState {
    if m.mtype != msgType || m.stamp.None? then st
    else
      var v := FieldOf(m, field);
      if v == NoneV then st.(idx := st.idx + 1)
      else if decimate == 0 then st
      else if st.idx % decimate != 0 then st.(idx := st.idx + 1)
      else if ToFloat(v).None? then st
      else ExprState(st.series + [Point(m.stamp, FloatV(ToFloat(v).value))], st.idx + 1)
  }

  function ExprRun(log: seq<Msg>, msgType: string, field: string, decimate: int): ExprState {
    if log == [] then ExprState([], 0)
    else ExprStep(ExprRun(log[..|log| - 1], msgType, field, decimate), log[|log| - 1], msgType, field, decimate)
  }

  /** The series `evaluate_expression` returns: only the first term of the
      expression is plotted, and an expression without a term plots nothing. */
  function ExprSeries(expression: string, log: seq<Msg>, decimate: int): seq<Point> {
    var terms := FindAll(expression);
    if terms == [] then [] else ExprRun(log, terms[0].msg, terms[0].field, decimate).series
  }

  method EvaluateExpression(expression: string, log: seq<Msg>, decimate: int) returns (series: seq<Point>)
    ensures series == ExprSeries(expression, log, decimate)
  {
    series := [];
    var matches := FindAll(expression);
    if matches == [] {
      return;
    }
    var msgType := matches[0].msg;
    var field := matches[0].field;
    var idx := 0;
    var i := 0;
    while i < |log|
      invariant 0 <= i <= |log|
      invariant ExprState(series, idx) == ExprRun(log[..i], msgType, field, decimate)
    {
      var m := log[i];
      PrefixStep(log, i);
      i := i + 1;
      if m.mtype != msgType {
        continue;
      }
      if m.stamp.None? {
        continue;
      }
      var t := m.stamp.value;
      var v := FieldOf(m, field);
      if v != NoneV {
        if decimate == 0 {
          continue;
        }
        if idx % decimate == 0 {
          var f := ToFloat(v);
          if f.None? {
            continue;
          }
          series := series + [Point(Some(t), FloatV(f.value))];
        }
      }
      idx := idx + 1;
    }
    assert log[..i] == log;
  }

  /** The messages `evaluate_expression` counts: type `msgType` with a `_timestamp`. */
  function Stamped(log: seq<Msg>, msgType: string): (r: seq<Msg>)
    ensures forall k :: 0 <= k < |r| ==> r[k].mtype == msgType && r[k].stamp.Some?
  {
    if log == [] then []
    else
      var m := log[|log| - 1];
      Stamped(log[..|log| - 1], msgType) + (if m.mtype == msgType && m.stamp.Some? then [m] else [])
  }

  /** The points of those messages whose value is not None. */
  function Plotted(ms: seq<Msg>, field: string): seq<Point> {
    if ms == [] then []
    else
      var m := ms[|ms| - 1];
      var v := FieldOf(m, field);
      Plotted(ms[..|ms| - 1], field)
        + (if v != NoneV && ToFloat(v).Some? then [Point(m.stamp, FloatV(ToFloat(v).value))] else [])
  }

  /** No value of `field` that `float()` would reject. */
  predicate Convertible(log: seq<Msg>, field: string) {
    forall k :: 0 <= k < |log| ==> FieldOf(log[k], field) == NoneV || ToFloat(FieldOf(log[k], field)).Some?
  }

  /** The counter of `evaluate_expression` runs over the stamped messages of
      the type, None values included: with a positive `decimate` and values
      `float()` accepts, the series is every `decimate`-th stamped message,
      starting with the first, less those whose value is None. */
  lemma {:induction false} ExprRunDecimates(log: seq<Msg>, msgType: string, field: string, decimate: int)
    requires decimate > 0 && Convertible(log, field)
    ensures ExprRun(log, msgType, field, decimate).idx == |Stamped(log, msgType)|
    ensures ExprRun(log, msgType, field, decimate).series == Plotted(EveryNth(Stamped(log, msgType), decimate), field)
  {
    if log != [] {
      var init := log[..|log| - 1];
      var m := log[|log| - 1];
      assert Convertible(init, field) by {
        forall k | 0 <= k < |init| ensures FieldOf(init[k], field) == NoneV || ToFloat(FieldOf(init[k], field)).Some? {
          assert init[k] == log[k];
        }
      }
      ExprRunDecimates(init, msgType, field, decimate);
      var s := Stamped(init, msgType);
      if m.mtype == msgType && m.stamp.Some? {
        assert Stamped(log, msgType) == s + [m];
        EveryNthSnoc(s, m, decimate);
        var e := EveryNth(s, decimate);
        assert FieldOf(m, field) == NoneV || ToFloat(FieldOf(m, field)).Some?;
        var st := ExprRun(init, msgType, field, decimate);
        assert ExprRun(log, msgType, field, decimate) == ExprStep(st, m, msgType, field, decimate);
        assert st.idx == |s|;
        if |s| % decimate != 0 {
          assert ExprStep(st, m, msgType, field, decimate).series == st.series;
          assert EveryNth(s + [m], decimate) == e;
        } else {
          assert (e + [m])[..|e|] == e && (e + [m])[|e|] == m;
          assert Plotted(e + [m], field) == Plotted(e, field)
            + (if FieldOf(m, field) != NoneV && ToFloat(FieldOf(m, field)).Some? then [Point(m.stamp, FloatV(ToFloat(FieldOf(m, field)).value))] else []);
        }
      } else {
        assert Stamped(log, msgType) == s;
        assert ExprRun(log, msgType, field, decimate) == ExprRun(init, msgType, field, decimate);
      }
    }
  }

  // --------------------------------------------------------------- graphs

  datatype GraphResult = GraphResult(name: string, description: string, series: map<string, seq<Point>>)

  /** `not expr or not expr.strip()` */
  predicate BlankExpr(e: string) {
    Strip(e) == []
  }

  /** The `msg.field` keys of every term of every non-blank expression. */
  function TermKeys(exprs: seq<string>): set<string> {
    if exprs == [] then {}
    else
      var e := exprs[|exprs| - 1];
      TermKeys(exprs[..|exprs| - 1]) + (if BlankExpr(e) then {} else KeysOf(FindAll(e)))
  }

  lemma TermKeysPrefix(exprs: seq<string>, i: nat)
    requires i < |exprs|
    ensures TermKeys(exprs[..i + 1])
            == TermKeys(exprs[..i]) + (if BlankExpr(exprs[i]) then {} else KeysOf(FindAll(exprs[i])))
  {
    assert exprs[..i + 1][..i] == exprs[..i];
  }

  function KeysOf(terms: seq<Term>): set<string> {
    set k | 0 <= k < |terms| :: Key(terms[k])
  }

  /** The stored series: each key whose evaluation is not empty. */
  function SeriesFor(keys: set<string>, log: seq<Msg>, decimate: int): map<string, seq<Point>> {
    map k | k in keys && ExprSeries(k, log, decimate) != [] :: ExprSeries(k, log, decimate)
  }

  /** With a zero `decimate` the `idx % decimate` raises on the first
      stamped valued message, and the bare `except` drops it: no point is
      ever appended. */
  lemma {:induction false} ExprRunZero(log: seq<Msg>, msgType: string, field: string)
    ensures ExprRun(log, msgType, field, 0).series == []
  {
    if log != [] {
      ExprRunZero(log[..|log| - 1], msgType, field);
    }
  }

  /** So a zero `decimate` stores no series for any key. */
  lemma SeriesForZero(keys: set<string>, log: seq<Msg>)
    ensures SeriesFor(keys, log, 0) == map[]
  {
    forall k | k in keys
      ensures ExprSeries(k, log, 0) == []
    {
      var terms := FindAll(k);
      if terms != [] {
        ExprRunZero(log, terms[0].msg, terms[0].field);
      }
    }
  }

  /** Storing one more key: its series is added when it is not empty. */
  lemma SeriesForAdd(keys: set<string>, k: string, log: seq<Msg>, decimate: int)
    ensures SeriesFor(keys + {k}, log, decimate)
            == if ExprSeries(k, log, decimate) != [] then SeriesFor(keys, log, decimate)[k := ExprSeries(k, log, decimate)]
               else SeriesFor(keys, log, decimate)
  {
  }

  lemma KeysOfStep(terms: seq<Term>, j: nat)
    requires j < |terms|
    ensures KeysOf(terms[..j + 1]) == KeysOf(terms[..j]) + {Key(terms[j])}
  {
    assert forall k :: 0 <= k < j ==> terms[..j + 1][k] == terms[..j][k];
    assert terms[..j + 1][j] == terms[j];
  }

  /** The inner loop: each term is evaluated on its own, under its key. */
  method EvaluateTerms(matches: seq<Term>, log: seq<Msg>, decimate: int, done: set<string>, series0: map<string, seq<Point>>)
    returns (series: map<string, seq<Point>>)
    requires series0 == SeriesFor(done, log, decimate)
    ensures series == SeriesFor(done + KeysOf(matches), log, decimate)
  {
    series := series0;
    var j := 0;
    while j < |matches|
      invariant 0 <= j <= |matches|
      invariant series == SeriesFor(done + KeysOf(matches[..j]), log, decimate)
    {
      var fieldExpr := matches[j].msg + "." + matches[j].field;
      var s := EvaluateExpression(fieldExpr, log, decimate);
      KeysOfStep(matches, j);
      SeriesForAdd(done + KeysOf(matches[..j]), fieldExpr, log, decimate);
      assert done + KeysOf(matches[..j + 1]) == done + KeysOf(matches[..j]) + {fieldExpr};
      if s != [] {
        series := series[fieldExpr := s];
      }
      j := j + 1;
    }
    assert matches[..j] == matches;
  }

  /** `evaluate_graph_on_file`: blank expressions are skipped; every term of
      the others is evaluated on its own under the key `msg.field`, and only
      non-empty series are stored. */
  method EvaluateGraphOnFile(g: GraphDef, log: seq<Msg>, decimate: int) returns (res: GraphResult)
    ensures res.name == g.name && res.description == g.description
    ensures res.series == SeriesFor(TermKeys(g.expressions), log, decimate)
  {
    var series: map<string, seq<Point>> := map[];
    var exprs := g.expressions;
    var i := 0;
    while i < |exprs|
      invariant 0 <= i <= |exprs|
      invariant series == SeriesFor(TermKeys(exprs[..i]), log, decimate)
    {
      var expr := exprs[i];
      TermKeysPrefix(exprs, i);
      if expr == [] || Strip(expr) == [] {
        i := i + 1;
        continue;
      }
      series := EvaluateTerms(FindAll(expr), log, decimate, TermKeys(exprs[..i]), series);
      i := i + 1;
    }
    assert exprs[..i] == exprs;
    res := GraphResult(g.name, g.description, series);
  }

  /** Every stored key is a term of the graph, and it holds exactly the
      series of that term's first-match evaluation. */
  lemma StoredSeriesOfTerm(g: GraphDef, log: seq<Msg>, decimate: int, i: nat, t: Term)
    requires i < |g.expressions| && !BlankExpr(g.expressions[i]) && t in FindAll(g.expressions[i])
    ensures Key(t) in SeriesFor(TermKeys(g.expressions), log, decimate)
            <==> ExprRun(log, t.msg, t.field, decimate).series != []
    ensures Key(t) in SeriesFor(TermKeys(g.expressions), log, decimate)
            ==> SeriesFor(TermKeys(g.expressions), log, decimate)[Key(t)] == ExprRun(log, t.msg, t.field, decimate).series
  {
    TermKeysContain(g.expressions, i, t);
    var k :| 0 <= k < |FindAll(g.expressions[i])| && FindAll(g.expressions[i])[k] == t;
    KeyRoundTrip(t);
  }

  lemma {:induction false} TermKeysContain(exprs: seq<string>, i: nat, t: Term)
    requires i < |exprs| && !BlankExpr(exprs[i]) && t in FindAll(exprs[i])
    ensures Key(t) in TermKeys(exprs)
  {
    var k :| 0 <= k < |FindAll(exprs[i])| && FindAll(exprs[i])[k] == t;
    assert Key(t) in KeysOf(FindAll(exprs[i]));
    if i < |exprs| - 1 {
      TermKeysContain(exprs[..|exprs| - 1], i, t);
    }
  }
}
