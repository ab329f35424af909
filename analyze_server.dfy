/** The stand-alone Flask server (server/analyze_server.py): the per-type CSV
    tables built at upload time by merging messages on their timestamp, the
    token registry, and the download, graph and timeseries handlers. */
module AnalyzeServer {

  import opened Log
  import opened Sorting
  import opened Stream
  import opened ApiMavExplorer
  import opened ServerMavExplorer

  // ------------------------------------------------------------ CSV merge

  /** The time a message is filed under: `time_usec or time or _timestamp`, normalised. */
  function CsvTime(m: Msg): Option<real> {
    Normalize(TimeOf(m))
  }

  /** `rowvals`: the fields of `m` that are listed in `fields`. */
  function RowVals(m: Msg, fields: seq<string>): map<string, Value> {
    map k | k in m.fields && k in fields :: m.fields[k]
  }

  /** The loop over `to_dict().items()` that fills `rowvals`. */
  method RowValues(m: Msg, fields: seq<string>) returns (rowvals: map<string, Value>)
    ensures rowvals == RowVals(m, fields)
  {
    rowvals := map[];
    var keys := m.fields.Keys;
    while keys != {}
      invariant keys <= m.fields.Keys
      invariant rowvals == map k | k in m.fields.Keys - keys && k in fields :: m.fields[k]
      decreases keys
    {
      var k :| k in keys;
      if k in fields {
        rowvals := rowvals[k := m.fields[k]];
      }
      keys := keys - {k};
    }
  }

  /** `times` after the messages of `log`: a message of type `name` with a
      time merges its `rowvals` into the entry of that time, later values
      replacing earlier ones field by field. */
  function Merge(log: seq<Msg>, name: string, fields: seq<string>): (r: map<real, map<string, Value>>)
    ensures forall t, k :: t in r && k in r[t] ==> k in fields
  {
    if log == [] then map[]
    else
      var prev := Merge(log[..|log| - 1], name, fields);
      var m := log[|log| - 1];
      var t := CsvTime(m);
      if m.mtype != name || t.None? then prev
      else prev[t.value := (if t.value in prev then prev[t.value] else map[]) + RowVals(m, fields)]
  }

  /** The keys of `times` in insertion order. */
  function KeyOrder(log: seq<Msg>, name: string): (r: seq<real>)
    ensures forall i, j :: 0 <= i < j < |r| ==> r[i] != r[j]
  {
    if log == [] then []
    else
      var prev := KeyOrder(log[..|log| - 1], name);
      var m := log[|log| - 1];
      var t := CsvTime(m);
      if m.mtype == name && t.Some? && t.value !in prev then prev + [t.value] else prev
  }

  /** The insertion order lists exactly the keys of the merged table. */
  lemma {:induction false} KeyOrderKeys(log: seq<Msg>, name: string, fields: seq<string>)
    ensures Elems(KeyOrder(log, name)) == Merge(log, name, fields).Keys
  {
    if log != [] {
      KeyOrderKeys(log[..|log| - 1], name, fields);
    }
  }

  /** A message of type `name` is filed under time `t`. */
  predicate FiledAt(m: Msg, name: string, t: real) {
    m.mtype == name && CsvTime(m) == Some(t)
  }

  /** A table row exists exactly for the times of messages of the type;
      messages without a time are left out. */
  lemma {:induction false} MergeKeys(log: seq<Msg>, name: string, fields: seq<string>, t: real)
    ensures t in Merge(log, name, fields) <==> exists i :: 0 <= i < |log| && FiledAt(log[i], name, t)
  {
    if log != [] {
      var init := log[..|log| - 1];
      MergeKeys(init, name, fields, t);
      if exists i :: 0 <= i < |init| && FiledAt(init[i], name, t) {
        var i :| 0 <= i < |init| && FiledAt(init[i], name, t);
        assert log[i] == init[i];
      }
      if exists i :: 0 <= i < |log| && FiledAt(log[i], name, t) {
        var i :| 0 <= i < |log| && FiledAt(log[i], name, t);
        if i < |init| {
          assert init[i] == log[i];
        }
      }
    }
  }

  /** Message `m` writes field `f` of the row at time `t`. */
  predicate Writes(m: Msg, name: string, t: real, fields: seq<string>, f: string) {
    FiledAt(m, name, t) && f in fields && f in m.fields
  }

  /** A cell holds a value exactly when some message of the type at that
      time carries the field, and then it holds the value of the last such
      message. */
  lemma MergeLastWrite(log: seq<Msg>, name: string, fields: seq<string>, t: real, f: string)
    ensures (t in Merge(log, name, fields) && f in Merge(log, name, fields)[t])
            <==> exists i :: 0 <= i < |log| && Writes(log[i], name, t, fields, f)
    ensures t in Merge(log, name, fields) && f in Merge(log, name, fields)[t] ==>
              exists i :: 0 <= i < |log| && Writes(log[i], name, t, fields, f)
                && Merge(log, name, fields)[t][f] == log[i].fields[f]
                && forall j :: i < j < |log| ==> !Writes(log[j], name, t, fields, f)
  {
    if exists i :: 0 <= i < |log| && Writes(log[i], name, t, fields, f) {
      var i :| 0 <= i < |log| && Writes(log[i], name, t, fields, f);
      MergeWritten(log, name, fields, t, f, i);
    }
    if t in Merge(log, name, fields) && f in Merge(log, name, fields)[t] {
      var i := MergeWriter(log, name, fields, t, f);
    }
  }

  /** A message that writes a cell leaves it filled for good. */
  lemma {:induction false} MergeWritten(log: seq<Msg>, name: string, fields: seq<string>, t: real, f: string, i: nat)
    requires i < |log| && Writes(log[i], name, t, fields, f)
    ensures t in Merge(log, name, fields) && f in Merge(log, name, fields)[t]
  {
    var n := |log| - 1;
    MergeCellStep(log, name, fields, t, f);
    if i < n && !Writes(log[n], name, t, fields, f) {
      assert log[..n][i] == log[i];
      MergeWritten(log[..n], name, fields, t, f, i);
    }
  }

  /** The message whose value a filled cell holds: the last one writing it. */
  lemma {:induction false} MergeWriter(log: seq<Msg>, name: string, fields: seq<string>, t: real, f: string) returns (i: nat)
    requires t in Merge(log, name, fields) && f in Merge(log, name, fields)[t]
    ensures i < |log| && Writes(log[i], name, t, fields, f)
    ensures Merge(log, name, fields)[t][f] == log[i].fields[f]
    ensures forall j :: i < j < |log| ==> !Writes(log[j], name, t, fields, f)
  {
    var n := |log| - 1;
    var init := log[..n];
    MergeCellStep(log, name, fields, t, f);
    if Writes(log[n], name, t, fields, f) {
      i := n;
    } else {
      i := MergeWriter(init, name, fields, t, f);
      assert log[i] == init[i];
      forall j | i < j < |log| ensures !Writes(log[j], name, t, fields, f) {
        if j < n {
          assert log[j] == init[j];
        }
      }
    }
  }

  /** The cell `(t, f)` after one more message: written by it, or as before. */
  lemma MergeCellStep(log: seq<Msg>, name: string, fields: seq<string>, t: real, f: string)
    requires log != []
    ensures Writes(log[|log| - 1], name, t, fields, f) ==>
              t in Merge(log, name, fields) && f in Merge(log, name, fields)[t]
              && Merge(log, name, fields)[t][f] == log[|log| - 1].fields[f]
    ensures !Writes(log[|log| - 1], name, t, fields, f) ==>
              var before := Merge(log[..|log| - 1], name, fields);
              ((t in Merge(log, name, fields) && f in Merge(log, name, fields)[t]) <==> (t in before && f in before[t]))
              && (t in before && f in before[t] ==> Merge(log, name, fields)[t][f] == before[t][f])
  {
    var m := log[|log| - 1];
    if Writes(m, name, t, fields, f) {
      assert f in RowVals(m, fields);
    }
  }

  /** One CSV line after the header: the time and one cell per field. */
  datatype CsvRow = CsvRow(t: real, cells: seq<Value>)

  datatype CsvTable = CsvTable(header: seq<string>, rows: seq<CsvRow>)

  /** `times[t].get(f, '')` */
  function Cell(row: map<string, Value>, f: string): Value {
    if f in row then row[f] else StrV("")
  }

  /** The table written for one type: header `['_time'] + fields`, then one
      row per key of `merged` in strictly ascending time, each with the
      merged value of every field or `''`. */
  ghost predicate TableOf(table: CsvTable, merged: map<real, map<string, Value>>, fields: seq<string>) {
    table.header == ["_time"] + fields
    && (forall i, j :: 0 <= i < j < |table.rows| ==> table.rows[i].t < table.rows[j].t)
    && (forall i :: 0 <= i < |table.rows| ==> table.rows[i].t in merged)
    && (forall t :: t in merged ==> exists i :: 0 <= i < |table.rows| && table.rows[i].t == t)
    && (forall i :: 0 <= i < |table.rows| ==> |table.rows[i].cells| == |fields|)
    && (forall i, j :: 0 <= i < |table.rows| && 0 <= j < |fields| ==>
          table.rows[i].cells[j] == Cell(merged[table.rows[i].t], fields[j]))
  }

  /** The streaming pass that fills `times` for one type. */
  method MergeTimes(log: seq<Msg>, name: string, fields: seq<string>)
    returns (times: map<real, map<string, Value>>, order: seq<real>)
    ensures times == Merge(log, name, fields) && order == KeyOrder(log, name)
  {
    times := map[];
    order := [];
    var i := 0;
    while i < |log|
      invariant 0 <= i <= |log|
      invariant times == Merge(log[..i], name, fields) && order == KeyOrder(log[..i], name)
    {
      var m := log[i];
      PrefixStep(log, i);
      KeyOrderKeys(log[..i], name, fields);
      i := i + 1;
      if m.mtype != name {
        continue;
      }
      var t := Normalize(TimeOf(m));
      var rowvals := RowValues(m, fields);
      if t.None? {
        continue;
      }
      if t.value !in times {
        times := times[t.value := map[]];
        order := order + [t.value];
      }
      times := times[t.value := times[t.value] + rowvals];
    }
    assert log[..i] == log;
  }

  /** The CSV of one type: merge, then emit the rows over the sorted times. */
  method BuildCsv(log: seq<Msg>, name: string, fields: seq<string>) returns (table: CsvTable)
    ensures TableOf(table, Merge(log, name, fields), fields)
  {
    var times, order := MergeTimes(log, name, fields);
    KeyOrderKeys(log, name, fields);
    var sorted := SortTimes(order);
    var rows: seq<CsvRow> := [];
    var i := 0;
    while i < |sorted|
      invariant 0 <= i <= |sorted|
      invariant |rows| == i
      invariant forall k :: 0 <= k < i ==> rows[k].t == sorted[k]
      invariant forall k :: 0 <= k < i ==> |rows[k].cells| == |fields|
      invariant forall k, j :: 0 <= k < i && 0 <= j < |fields| ==> rows[k].cells[j] == Cell(times[rows[k].t], fields[j])
    {
      var t := sorted[i];
      assert t in Elems(sorted);
      var cells := seq(|fields|, j requires 0 <= j < |fields| => Cell(times[t], fields[j]));
      rows := rows + [CsvRow(t, cells)];
      i := i + 1;
    }
    table := CsvTable(["_time"] + fields, rows);
    forall t | t in times ensures exists k :: 0 <= k < |rows| && rows[k].t == t {
      assert t in Elems(sorted);
      var k :| 0 <= k < |sorted| && sorted[k] == t;
      assert rows[k].t == t;
    }
    forall k | 0 <= k < |rows| ensures rows[k].t in times {
      assert sorted[k] in Elems(sorted);
    }
  }

  /** The names that get a CSV: those whose field list is not empty. */
  function CsvNames(analysis: map<string, TypeSummary>): set<string> {
    set n | n in analysis && analysis[n].fields != []
  }

  /** The CSV files of an upload, one per type with fields. */
  ghost predicate CsvsOf(csvs: map<string, CsvTable>, log: seq<Msg>, analysis: map<string, TypeSummary>) {
    csvs.Keys == CsvNames(analysis)
    && forall n :: n in csvs ==> TableOf(csvs[n], Merge(log, n, analysis[n].fields), analysis[n].fields)
  }

  /** The loop over `out['messages']` writing `csv/<name>.csv`. */
  method BuildAllCsvs(log: seq<Msg>, analysis: map<string, TypeSummary>) returns (csvs: map<string, CsvTable>)
    ensures CsvsOf(csvs, log, analysis)
  {
    csvs := map[];
    var names := analysis.Keys;
    while names != {}
      invariant names <= analysis.Keys
      invariant csvs.Keys == CsvNames(analysis) - names
      invariant forall n :: n in csvs ==> TableOf(csvs[n], Merge(log, n, analysis[n].fields), analysis[n].fields)
      decreases names
    {
      var name :| name in names;
      names := names - {name};
      if analysis[name].fields == [] {
        continue;
      }
      var table := BuildCsv(log, name, analysis[name].fields);
      csvs := csvs[name := table];
    }
  }

  // ------------------------------------------------------------- handlers

  /** `UPLOADS[token]`: the temporary directory and path of the saved log,
      its analysis, the decoded messages the path stands for, and the CSV
      files written under the directory. */
  datatype Upload = Upload(
    tmpdir: string,
    path: string,
    analysis: map<string, TypeSummary>,
    log: seq<Msg>,
    csvs: map<string, CsvTable>)

  /** `{'token': token, 'analysis': out}` */
  datatype Analyzed = Analyzed(token: string, analysis: map<string, TypeSummary>)

  /** `{'msg': msg, 'field': field, 'series': series}` */
  datatype SeriesBody = SeriesBody(msg: string, field: string, series: seq<Point>)

  /** Flask's answer to an exception a handler does not catch. */
  const InternalError := "Internal Server Error"

  class Server {
    /** The process-wide `UPLOADS` dict. */
    var uploads: map<string, Upload>

    /** Every upload holds the analysis of its log and, for each type with
        fields, the CSV file built from that log. */
    ghost predicate Valid()
      reads this
    {
      forall tok :: tok in uploads ==>
        SummaryOf(uploads[tok].analysis, uploads[tok].log)
        && CsvsOf(uploads[tok].csvs, uploads[tok].log, uploads[tok].analysis)
    }

    constructor()
      ensures uploads == map[] && Valid()
    {
      uploads := map[];
    }

    /** `POST /api/analyze`. `hasFile` says whether the request carried a
        file, `decoderInstalled` whether pymavlink imported, `decoded` the
        log the saved file decodes to (None: the decoder raised); `tmpdir`,
        `path` and `token` are the fresh directory, file path and uuid4. */
    method Analyze(hasFile: bool, tmpdir: string, path: string, decoderInstalled: bool,
                   decoded: Option<seq<Msg>>, token: string) returns (r: Reply<Analyzed>)
      requires Valid()
      modifies this
      ensures Valid()
      ensures !hasFile ==> r == Fail(400, "no file uploaded")
      ensures hasFile && !decoderInstalled ==> r == Fail(500, "pymavlink not installed on server")
      ensures hasFile && decoderInstalled && decoded.None? ==> r == Fail(500, "failed to parse log: ")
      ensures r.Fail? ==> uploads == old(uploads)
      ensures hasFile && decoderInstalled && decoded.Some? ==> r.Ok?
      ensures r.Ok? ==> hasFile && decoderInstalled && decoded.Some? && r.body.token == token
                        && token in uploads && uploads == old(uploads)[token := uploads[token]]
                        && uploads[token].tmpdir == tmpdir && uploads[token].path == path
                        && uploads[token].log == decoded.value
                        && uploads[token].analysis == r.body.analysis
                        && SummaryOf(r.body.analysis, decoded.value)
                        && CsvsOf(uploads[token].csvs, decoded.value, r.body.analysis)
    {
      if !hasFile {
        return Fail(400, "no file uploaded");
      }
      if !decoderInstalled {
        return Fail(500, "pymavlink not installed on server");
      }
      if decoded.None? {
        return Fail(500, "failed to parse log: ");
      }
      var log := decoded.value;
      var out := ServerMavExplorer.AnalyzeFileBasic(log);
      var csvs := BuildAllCsvs(log, out);
      uploads := uploads[token := Upload(tmpdir, path, out, log, csvs)];
      r := Ok(Analyzed(token, out));
    }

    /** `GET /api/download`: the CSV written for `msg` at upload time. */
    method Download(token: Option<string>, msg: Option<string>) returns (r: Reply<CsvTable>)
      requires Valid()
      ensures !Authorized(uploads, token) ==> r == Fail(400, "valid token required")
      ensures Authorized(uploads, token) && Blank(msg) ==> r == Fail(400, "msg param required")
      ensures Authorized(uploads, token) && !Blank(msg) ==>
                (msg.value !in uploads[token.value].csvs <==> r == Fail(404, "CSV not found; re-run analysis"))
      ensures Authorized(uploads, token) && !Blank(msg) ==> (r.Ok? <==> msg.value in uploads[token.value].csvs)
      ensures Authorized(uploads, token) && !Blank(msg) ==>
                var u := uploads[token.value];
                (r == Fail(404, "CSV not found; re-run analysis")
                 <==> msg.value !in u.analysis || u.analysis[msg.value].fields == [])
      ensures r.Ok? ==> Authorized(uploads, token) && !Blank(msg) && msg.value in uploads[token.value].csvs
                        && r.body == uploads[token.value].csvs[msg.value]
      ensures r.Ok? ==>
                var u := uploads[token.value];
                var fields := u.analysis[msg.value].fields;
                msg.value in u.analysis && fields != []
                && SortedOf(fields, NumericFields(u.log, msg.value))
                && TableOf(r.body, Merge(u.log, msg.value, fields), fields)
    {
      if !Authorized(uploads, token) {
        return Fail(400, "valid token required");
      }
      if Blank(msg) {
        return Fail(400, "msg param required");
      }
      var csvs := uploads[token.value].csvs;
      if msg.value !in csvs {
        return Fail(404, "CSV not found; re-run analysis");
      }
      r := Ok(csvs[msg.value]);
    }

    /** `GET /api/graph`: `defs` is the catalogue `load_graph_definitions`
        returns and `ev` the expression evaluator. `decimate` is parsed
        before the token is looked at. */
    method GraphEval(token: Option<string>, name: Option<string>, decimateRaw: Option<string>,
                     defs: seq<GraphDef>, ev: Evaluator) returns (r: Reply<ServerGraph>)
      ensures DecimateArg(decimateRaw).None? ==> r == Fail(500, InternalError)
      ensures DecimateArg(decimateRaw).Some? && !Authorized(uploads, token) ==> r == Fail(400, "valid token required")
      ensures DecimateArg(decimateRaw).Some? && Authorized(uploads, token) && Blank(name) ==> r == Fail(400, "name param required")
      ensures DecimateArg(decimateRaw).Some? && Authorized(uploads, token) && !Blank(name) ==>
                ((forall i :: 0 <= i < |defs| ==> defs[i].name != name.value) <==> r == Fail(404, "graph not found"))
      ensures DecimateArg(decimateRaw).Some? && Authorized(uploads, token) && !Blank(name) ==>
                forall i :: FirstNamed(defs, name.value, i) ==>
                  (r.Ok? <==> Run(uploads[token.value].log, defs[i].expressions, ev, DecimateArg(decimateRaw).value).Some?)
                  && (r.Fail? ==> r == Fail(500, "failed to evaluate graph: "))
      ensures r.Ok? ==> DecimateArg(decimateRaw).Some? && Authorized(uploads, token) && !Blank(name)
                        && exists i :: 0 <= i < |defs| && defs[i].name == name.value
                             && (forall j :: 0 <= j < i ==> defs[j].name != name.value)
                             && r.body.name == name.value
                             && Run(uploads[token.value].log, defs[i].expressions, ev, DecimateArg(decimateRaw).value)
                                == Some(r.body.series)
    {
      var decimate := DecimateArg(decimateRaw);
      if decimate.None? {
        return Fail(500, InternalError);
      }
      if !Authorized(uploads, token) {
        return Fail(400, "valid token required");
      }
      if Blank(name) {
        return Fail(400, "name param required");
      }
      var found := FindGraph(defs, name.value);
      if found.None? {
        return Fail(404, "graph not found");
      }
      var res := ServerMavExplorer.EvaluateGraphOnFile(found.value, uploads[token.value].log, ev, decimate.value);
      if res.None? {
        return Fail(500, "failed to evaluate graph: ");
      }
      r := Ok(res.value);
    }

    /** `GET /api/timeseries`: the same extraction loop as the serverless
        back end, behind the same request checks. */
    method Timeseries(token: Option<string>, msg: Option<string>, field: Option<string>, decimateRaw: Option<string>)
      returns (r: Reply<SeriesBody>)
      ensures DecimateArg(decimateRaw).None? ==> r == Fail(500, InternalError)
      ensures DecimateArg(decimateRaw).Some? && !Authorized(uploads, token) ==> r == Fail(400, "valid token required")
      ensures DecimateArg(decimateRaw).Some? && Authorized(uploads, token) && (Blank(msg) || Blank(field)) ==>
                r == Fail(400, "msg and field required")
      ensures r.Ok? ==> DecimateArg(decimateRaw).Some? && Authorized(uploads, token) && !Blank(msg) && !Blank(field)
                        && r.body.msg == msg.value && r.body.field == field.value
                        && (DecimateArg(decimateRaw).value != 0 ==>
                              r.body.series == EveryNth(Samples(uploads[token.value].log, msg.value, field.value), DecimateArg(decimateRaw).value))
                        && (DecimateArg(decimateRaw).value == 0 ==> r.body.series == [])
      ensures DecimateArg(decimateRaw).Some? && Authorized(uploads, token) && !Blank(msg) && !Blank(field) ==>
                (r.Fail? <==> DecimateArg(decimateRaw) == Some(0) && Samples(uploads[token.value].log, msg.value, field.value) != [])
    {
      var decimate := DecimateArg(decimateRaw);
      if decimate.None? {
        return Fail(500, InternalError);
      }
      if !Authorized(uploads, token) {
        return Fail(400, "valid token required");
      }
      if Blank(msg) || Blank(field) {
        return Fail(400, "msg and field required");
      }
      var series := Stream.Timeseries(uploads[token.value].log, msg.value, field.value, decimate.value);
      if series.None? {
        return Fail(500, "failed to extract timeseries: ");
      }
      r := Ok(SeriesBody(msg.value, field.value, series.value));
    }
  }
}
