/** The serverless Flask back end (api/index.py): the token registry filled
    by `/api/analyze` and the read handlers that walk an uploaded log. */
module ApiIndex {

  import opened Log
  import opened Stream
  import opened ApiMavExplorer

  // --------------------------------------------------------------- download

  /** One CSV line: the time (possibly None) and one cell per field. */
  datatype CsvLine = CsvLine(t: Value, cells: seq<Value>)

  datatype CsvDump = CsvDump(header: seq<string>, rows: seq<CsvLine>)

  /** `m.to_dict().get(f, '')`: a field present with value None stays None. */
  function CellOf(m: Msg, f: string): Value {
    if f in m.fields then m.fields[f] else StrV("")
  }

  /** `[t] + [m.to_dict().get(f, '') for f in fields]` */
  function LineOf(m: Msg, fields: seq<string>): CsvLine {
    CsvLine(TimeValue(Normalize(TimeOf(m))), seq(|fields|, j requires 0 <= j < |fields| => CellOf(m, fields[j])))
  }

  /** One line per message, in order. */
  function Lines(ms: seq<Msg>, fields: seq<string>): (r: seq<CsvLine>)
    ensures |r| == |ms|
  {
    seq(|ms|, k requires 0 <= k < |ms| => LineOf(ms[k], fields))
  }

  /** Line `k` of the download is the `k`-th message of the type: its time,
      then each listed field's value, `''` where the message lacks it. */
  lemma LinesMeaning(ms: seq<Msg>, fields: seq<string>, k: nat, j: nat)
    requires k < |ms| && j < |fields|
    ensures Lines(ms, fields)[k].t == TimeValue(Normalize(TimeOf(ms[k])))
    ensures |Lines(ms, fields)[k].cells| == |fields|
    ensures fields[j] in ms[k].fields ==> Lines(ms, fields)[k].cells[j] == ms[k].fields[fields[j]]
    ensures fields[j] !in ms[k].fields ==> Lines(ms, fields)[k].cells[j] == StrV("")
  {
  }

  /** The loop of `download` over `recv_match(type=msg)`. */
  method CsvLines(log: seq<Msg>, msg: string, fields: seq<string>) returns (rows: seq<CsvLine>)
    ensures rows == Lines(OfType(log, msg), fields)
  {
    rows := [];
    var i := 0;
    while i < |log|
      invariant 0 <= i <= |log|
      invariant rows == Lines(OfType(log[..i], msg), fields)
    {
      var m := log[i];
      PrefixStep(log, i);
      if m.mtype == msg {
        var cells: seq<Value> := [];
        var j := 0;
        while j < |fields|
          invariant 0 <= j <= |fields|
          invariant cells == seq(j, k requires 0 <= k < j => CellOf(m, fields[k]))
        {
          cells := cells + [CellOf(m, fields[j])];
          j := j + 1;
        }
        rows := rows + [CsvLine(TimeValue(Normalize(TimeOf(m))), cells)];
        assert OfType(log[..i + 1], msg) == OfType(log[..i], msg) + [m];
      }
      i := i + 1;
    }
    assert log[..i] == log;
  }

  // ------------------------------------------------------------------- dump

  /** `{'timestamp': m._timestamp, 'data': m.to_dict()}` */
  datatype DumpEntry = DumpEntry(timestamp: Option<real>, data: map<string, Value>)

  datatype Dump = Dump(msgType: string, messages: seq<DumpEntry>, count: nat)

  function Entries(ms: seq<Msg>): (r: seq<DumpEntry>)
    ensures |r| == |ms|
  {
    seq(|ms|, k requires 0 <= k < |ms| => DumpEntry(ms[k].stamp, ms[k].fields))
  }

  /** The first `n` elements, or all of them when there are fewer; none for `n <= 0`. */
  function Take<T>(s: seq<T>, n: int): (r: seq<T>)
    ensures |r| <= |s| && (n >= 0 ==> |r| <= n)
    ensures r == s[..|r|]
    ensures |r| < |s| ==> |r| == n || n < 0
  {
    if n <= 0 then [] else if n >= |s| then s else s[..n]
  }

  /** The messages of a type in a prefix of the log are a prefix of those in the whole log. */
  lemma {:induction false} OfTypePrefix(log: seq<Msg>, i: nat, t: string)
    requires i <= |log|
    ensures |OfType(log[..i], t)| <= |OfType(log, t)|
    ensures OfType(log[..i], t) == OfType(log, t)[..|OfType(log[..i], t)|]
    decreases |log|
  {
    if i < |log| {
      var init := log[..|log| - 1];
      assert init[..i] == log[..i];
      OfTypePrefix(init, i, t);
    } else {
      assert log[..i] == log;
    }
  }

  /** The loop of `dump_messages`: `recv_match(type=...)` until `limit` messages. */
  method DumpLoop(log: seq<Msg>, msgType: string, limit: int) returns (messages: seq<DumpEntry>)
    ensures messages == Entries(Take(OfType(log, msgType), limit))
  {
    messages := [];
    var count := 0;
    var i := 0;
    while count < limit && i < |log|
      invariant 0 <= i <= |log|
      invariant messages == Entries(OfType(log[..i], msgType)) && count == |messages|
      invariant limit <= 0 ==> count == 0
      invariant limit > 0 ==> count <= limit
    {
      var m := log[i];
      PrefixStep(log, i);
      if m.mtype == msgType {
        messages := messages + [DumpEntry(m.stamp, m.fields)];
        count := count + 1;
        assert OfType(log[..i + 1], msgType) == OfType(log[..i], msgType) + [m];
      }
      i := i + 1;
    }
    OfTypePrefix(log, i, msgType);
    if i == |log| {
      assert log[..i] == log;
    }
  }

  // ------------------------------------------------------------------ stats

  /** The first `_timestamp` that is not None. */
  function FirstStamp(log: seq<Msg>): Option<real> {
    if log == [] then None
    else
      var prev := FirstStamp(log[..|log| - 1]);
      if prev.Some? then prev else log[|log| - 1].stamp
  }

  /** The last `_timestamp` that is not None. */
  function LastStamp(log: seq<Msg>): Option<real> {
    if log == [] then None
    else if log[|log| - 1].stamp.Some? then log[|log| - 1].stamp
    else LastStamp(log[..|log| - 1])
  }

  /** `first_timestamp` is the stamp of the earliest stamped message, None if there is none. */
  lemma {:induction false} FirstStampMeaning(log: seq<Msg>)
    ensures FirstStamp(log).None? <==> forall i :: 0 <= i < |log| ==> log[i].stamp.None?
    ensures FirstStamp(log).Some? ==> exists i :: 0 <= i < |log| && log[i].stamp == FirstStamp(log)
                                        && forall j :: 0 <= j < i ==> log[j].stamp.None?
  {
    if log != [] {
      var init := log[..|log| - 1];
      FirstStampMeaning(init);
      assert forall i :: 0 <= i < |init| ==> init[i] == log[i];
    }
  }

  /** `last_timestamp` is the stamp of the latest stamped message, None if there is none. */
  lemma {:induction false} LastStampMeaning(log: seq<Msg>)
    ensures LastStamp(log).None? <==> forall i :: 0 <= i < |log| ==> log[i].stamp.None?
    ensures LastStamp(log).Some? ==> exists i :: 0 <= i < |log| && log[i].stamp == LastStamp(log)
                                       && forall j :: i < j < |log| ==> log[j].stamp.None?
  {
    if log != [] {
      var init := log[..|log| - 1];
      LastStampMeaning(init);
      assert forall i :: 0 <= i < |init| ==> init[i] == log[i];
    }
  }

  /** `(last - first) if (first and last) else 0` */
  function Duration(first: Option<real>, last: Option<real>): (r: real)
    ensures Truthy(first) && Truthy(last) ==> r + first.value == last.value
    ensures !(Truthy(first) && Truthy(last)) ==> r == 0.0
  {
    if Truthy(first) && Truthy(last) then last.value - first.value else 0.0
  }

  datatype Stats = Stats(
    totalMessages: nat,
    messageTypes: nat,
    firstTimestamp: Option<real>,
    lastTimestamp: Option<real>,
    durationSeconds: real,
    messagesPerType: map<string, nat>)

  /** The loop of `get_stats`. */
  method ScanStamps(log: seq<Msg>) returns (total: nat, first: Option<real>, last: Option<real>)
    ensures total == |log| && first == FirstStamp(log) && last == LastStamp(log)
  {
    total := 0;
    first := None;
    last := None;
    var i := 0;
    while i < |log|
      invariant 0 <= i <= |log| && total == i
      invariant first == FirstStamp(log[..i]) && last == LastStamp(log[..i])
    {
      var m := log[i];
      PrefixStep(log, i);
      total := total + 1;
      var t := m.stamp;
      if t.Some? {
        if first.None? {
          first := t;
        }
        last := t;
      }
      i := i + 1;
    }
    assert log[..i] == log;
  }

  // ----------------------------------------------------------------- params

  /** A `PARM` message. */
  predicate IsParm(m: Msg) {
    m.mtype == "PARM"
  }

  /** `params` after the PARM messages of `log`; None is the AttributeError
      of a PARM message without a `Name` or a `Value`. */
  function ParamTable(log: seq<Msg>): Option<map<Value, Value>> {
    if log == [] then Some(map[])
    else
      var prev := ParamTable(log[..|log| - 1]);
      var m := log[|log| - 1];
      if prev.None? then None
      else if !IsParm(m) then prev
      else if "Value" !in m.fields || "Name" !in m.fields then None
      else Some(prev.value[m.fields["Name"] := m.fields["Value"]])
  }

  /** The table fails exactly when some PARM message lacks `Name` or `Value`. */
  lemma {:induction false} ParamTableFails(log: seq<Msg>)
    ensures ParamTable(log).None? <==>
            exists i :: 0 <= i < |log| && IsParm(log[i]) && ("Name" !in log[i].fields || "Value" !in log[i].fields)
  {
    if log != [] {
      var init := log[..|log| - 1];
      ParamTableFails(init);
      assert forall i :: 0 <= i < |init| ==> init[i] == log[i];
    }
  }

  /** Message `m` sets parameter `k`. */
  predicate SetsParam(m: Msg, k: Value) {
    IsParm(m) && "Name" in m.fields && "Value" in m.fields && m.fields["Name"] == k
  }

  /** Each name maps to the value of the last PARM message with that name,
      and the names are exactly those of the PARM messages. */
  lemma {:induction false} ParamLastWins(log: seq<Msg>, k: Value)
    requires ParamTable(log).Some?
    ensures k in ParamTable(log).value <==> exists i :: 0 <= i < |log| && SetsParam(log[i], k)
    ensures k in ParamTable(log).value ==>
              exists i :: 0 <= i < |log| && SetsParam(log[i], k) && ParamTable(log).value[k] == log[i].fields["Value"]
                && forall j :: i < j < |log| ==> !SetsParam(log[j], k)
  {
    if log != [] {
      var n := |log| - 1;
      var init := log[..n];
      ParamLastWins(init, k);
      assert forall i :: 0 <= i < n ==> init[i] == log[i];
      if !SetsParam(log[n], k) && k in ParamTable(init).value {
        var i :| 0 <= i < n && SetsParam(init[i], k) && ParamTable(init).value[k] == init[i].fields["Value"]
                 && forall j :: i < j < n ==> !SetsParam(init[j], k);
        assert forall j :: i < j < |log| ==> !SetsParam(log[j], k);
      }
    }
  }

  datatype Params = Params(params: map<Value, Value>, count: nat)

  /** The loop of `get_params`. */
  method ParamLoop(log: seq<Msg>) returns (params: Option<map<Value, Value>>)
    ensures params == ParamTable(log)
  {
    var table: map<Value, Value> := map[];
    var i := 0;
    while i < |log|
      invariant 0 <= i <= |log|
      invariant ParamTable(log[..i]) == Some(table)
    {
      var m := log[i];
      PrefixStep(log, i);
      if IsParm(m) {
        if "Value" !in m.fields || "Name" !in m.fields {
          ParamTablePrefixNone(log, i + 1);
          return None;
        }
        table := table[m.fields["Name"] := m.fields["Value"]];
      }
      i := i + 1;
    }
    assert log[..i] == log;
    params := Some(table);
  }

  lemma {:induction false} ParamTablePrefixNone(log: seq<Msg>, n: nat)
    requires n <= |log| && ParamTable(log[..n]).None?
    ensures ParamTable(log).None?
    decreases |log|
  {
    if n < |log| {
      assert log[..|log| - 1][..n] == log[..n];
      ParamTablePrefixNone(log[..|log| - 1], n);
    } else {
      assert log[..n] == log;
    }
  }

  // --------------------------------------------------------------- registry

  /** `UPLOADS[token]`: the temporary directory and path of the saved log,
      its analysis, and the decoded messages the path stands for. */
  datatype Upload = Upload(tmpdir: string, path: string, analysis: Analysis, log: seq<Msg>)

  datatype Analyzed = Analyzed(token: string, analysis: Analysis)

  datatype SeriesBody = SeriesBody(msg: string, field: string, series: seq<Point>)

  /** Flask's answer to an exception a handler does not catch. */
  const InternalError := "Internal Server Error"

  const TokenError := "valid token required"

  class Api {
    /** The process-wide `UPLOADS` dict. */
    var uploads: map<string, Upload>

    /** Every registered analysis summarises the log its path stands for. */
    ghost predicate Valid()
      reads this
    {
      forall tok :: tok in uploads ==> SummaryOf(uploads[tok].analysis.messages, uploads[tok].log)
    }

    constructor()
      ensures uploads == map[] && Valid()
    {
      uploads := map[];
    }

    /** `POST /api/analyze`. `hasFile` says whether the request carried a
        file, `decoderInstalled` whether pymavlink imported, `decoded` the
        log the saved file decodes to (None: the decoder raised), `modes`
        the decoder's flight-mode list (None: it raised); `tmpdir`, `path`
        and `token` are the fresh directory, file path and uuid4. */
    method Analyze(hasFile: bool, tmpdir: string, path: string, decoderInstalled: bool,
                   decoded: Option<seq<Msg>>, modes: Option<seq<ModeSpan>>, token: string)
      returns (r: Reply<Analyzed>)
      requires Valid()
      modifies this
      ensures Valid()
      ensures !hasFile ==> r == Fail(400, "no file uploaded")
      ensures hasFile && !decoderInstalled ==> r == Fail(500, "pymavlink not installed on server")
      ensures hasFile && decoderInstalled && decoded.None? ==> r == Fail(500, "failed to parse log: ")
      ensures r.Fail? ==> uploads == old(uploads)
      ensures hasFile && decoderInstalled && decoded.Some? ==> r.Ok?
      ensures r.Ok? ==> hasFile && decoderInstalled && decoded.Some? && r.body.token == token
                        && uploads == old(uploads)[token := Upload(tmpdir, path, r.body.analysis, decoded.value)]
                        && SummaryOf(r.body.analysis.messages, decoded.value)
                        && r.body.analysis.flightModes == ExtractFlightModes(modes)
    {
      if !hasFile {
        return Fail(400, "no file uploaded");
      }
      if !decoderInstalled {
        return Fail(500, "pymavlink not installed on server");
      }
      if decoded.None? {
        return Fail(500, "failed to parse log: ");
      }
      var out := ApiMavExplorer.AnalyzeFileBasic(decoded.value, modes);
      uploads := uploads[token := Upload(tmpdir, path, out, decoded.value)];
      r := Ok(Analyzed(token, out));
    }

    /** `GET /api/download`: one CSV line per message of the type, in log order. */
    method Download(token: Option<string>, msg: Option<string>) returns (r: Reply<CsvDump>)
      requires Valid()
      ensures !Authorized(uploads, token) ==> r == Fail(400, TokenError)
      ensures Authorized(uploads, token) && Blank(msg) ==> r == Fail(400, "msg param required")
      ensures Authorized(uploads, token) && !Blank(msg) && msg.value !in uploads[token.value].analysis.messages ==>
                r == Fail(404, "message type " + msg.value + " not found")
      ensures Authorized(uploads, token) && !Blank(msg) && msg.value in uploads[token.value].analysis.messages
              && uploads[token.value].analysis.messages[msg.value].fields == [] ==>
                r == Fail(400, "no numeric fields in message")
      ensures Authorized(uploads, token) && !Blank(msg) && msg.value in uploads[token.value].analysis.messages
              && uploads[token.value].analysis.messages[msg.value].fields != [] ==>
                r.Ok?
      ensures r.Ok? ==> Authorized(uploads, token) && !Blank(msg) && msg.value in uploads[token.value].analysis.messages
                        && var info := uploads[token.value].analysis.messages[msg.value];
                           info.fields != []
                           && r.body.header == ["_time"] + info.fields
                           && r.body.rows == Lines(OfType(uploads[token.value].log, msg.value), info.fields)
                           && |r.body.rows| == info.count
    {
      if !Authorized(uploads, token) {
        return Fail(400, TokenError);
      }
      if Blank(msg) {
        return Fail(400, "msg param required");
      }
      var upload := uploads[token.value];
      if msg.value !in upload.analysis.messages {
        return Fail(404, "message type " + msg.value + " not found");
      }
      var info := upload.analysis.messages[msg.value];
      if info.fields == [] {
        return Fail(400, "no numeric fields in message");
      }
      var rows := CsvLines(upload.log, msg.value, info.fields);
      r := Ok(CsvDump(["_time"] + info.fields, rows));
    }

    /** `GET /api/timeseries`; `decimate` is parsed before the token is looked at. */
    method Timeseries(token: Option<string>, msg: Option<string>, field: Option<string>, decimateRaw: Option<string>)
      returns (r: Reply<SeriesBody>)
      ensures DecimateArg(decimateRaw).None? ==> r == Fail(500, InternalError)
      ensures DecimateArg(decimateRaw).Some? && !Authorized(uploads, token) ==> r == Fail(400, TokenError)
      ensures DecimateArg(decimateRaw).Some? && Authorized(uploads, token) && (Blank(msg) || Blank(field)) ==>
                r == Fail(400, "msg and field required")
      ensures r.Ok? ==> DecimateArg(decimateRaw).Some? && Authorized(uploads, token) && !Blank(msg) && !Blank(field)
                        && r.body.msg == msg.value && r.body.field == field.value
                        && (DecimateArg(decimateRaw).value != 0 ==>
                              r.body.series == EveryNth(Samples(uploads[token.value].log, msg.value, field.value), DecimateArg(decimateRaw).value))
                        && (DecimateArg(decimateRaw).value == 0 ==> r.body.series == [])
      ensures DecimateArg(decimateRaw).Some? && Authorized(uploads, token) && !Blank(msg) && !Blank(field) ==>
                (r.Fail? <==> DecimateArg(decimateRaw) == Some(0) && Samples(uploads[token.value].log, msg.value, field.value) != [])
    {
      var decimate := DecimateArg(decimateRaw);
      if decimate.None? {
        return Fail(500, InternalError);
      }
      if !Authorized(uploads, token) {
        return Fail(400, TokenError);
      }
      if Blank(msg) || Blank(field) {
        return Fail(400, "msg and field required");
      }
      var series := Stream.Timeseries(uploads[token.value].log, msg.value, field.value, decimate.value);
      if series.None? {
        return Fail(500, "failed to extract timeseries: ");
      }
      r := Ok(SeriesBody(msg.value, field.value, series.value));
    }

    /** `GET /api/graph`: `defs` is the catalogue `load_graph_definitions` returns. */
    method GraphEval(token: Option<string>, name: Option<string>, decimateRaw: Option<string>, defs: seq<GraphDef>)
      returns (r: Reply<GraphResult>)
      ensures DecimateArg(decimateRaw).None? ==> r == Fail(500, InternalError)
      ensures DecimateArg(decimateRaw).Some? && !Authorized(uploads, token) ==> r == Fail(400, TokenError)
      ensures DecimateArg(decimateRaw).Some? && Authorized(uploads, token) && Blank(name) ==> r == Fail(400, "name param required")
      ensures DecimateArg(decimateRaw).Some? && Authorized(uploads, token) && !Blank(name) ==>
                ((forall i :: 0 <= i < |defs| ==> defs[i].name != name.value) <==> r == Fail(404, "graph not found"))
      ensures DecimateArg(decimateRaw).Some? && Authorized(uploads, token) && !Blank(name)
              && (exists i :: 0 <= i < |defs| && defs[i].name == name.value) ==>
                r.Ok?
      ensures r.Ok? ==> DecimateArg(decimateRaw).Some? && Authorized(uploads, token) && !Blank(name)
                        && exists i :: 0 <= i < |defs| && defs[i].name == name.value
                             && (forall j :: 0 <= j < i ==> defs[j].name != name.value)
                             && r.body.name == name.value && r.body.description == defs[i].description
                             && r.body.series == SeriesFor(TermKeys(defs[i].expressions), uploads[token.value].log,
                                                           DecimateArg(decimateRaw).value)
    {
      var decimate := DecimateArg(decimateRaw);
      if decimate.None? {
        return Fail(500, InternalError);
      }
      if !Authorized(uploads, token) {
        return Fail(400, TokenError);
      }
      if Blank(name) {
        return Fail(400, "name param required");
      }
      var found := FindGraph(defs, name.value);
      if found.None? {
        return Fail(404, "graph not found");
      }
      var res := ApiMavExplorer.EvaluateGraphOnFile(found.value, uploads[token.value].log, decimate.value);
      r := Ok(res);
    }

    /** `GET /api/messages`: the stored per-type summary. */
    method ListMessages(token: Option<string>) returns (r: Reply<map<string, TypeSummary>>)
      requires Valid()
      ensures !Authorized(uploads, token) <==> r == Fail(400, TokenError)
      ensures Authorized(uploads, token) ==> r.Ok?
      ensures r.Ok? ==> Authorized(uploads, token) && r.body == uploads[token.value].analysis.messages
                        && SummaryOf(r.body, uploads[token.value].log)
    {
      if !Authorized(uploads, token) {
        return Fail(400, TokenError);
      }
      r := Ok(uploads[token.value].analysis.messages);
    }

    /** `GET /api/dump`; `limit` is parsed before the token is looked at. */
    method DumpMessages(token: Option<string>, msgType: Option<string>, limitRaw: Option<string>) returns (r: Reply<Dump>)
      ensures LimitArg(limitRaw).None? ==> r == Fail(500, InternalError)
      ensures LimitArg(limitRaw).Some? && !Authorized(uploads, token) ==> r == Fail(400, TokenError)
      ensures LimitArg(limitRaw).Some? && Authorized(uploads, token) && Blank(msgType) ==> r == Fail(400, "type param required")
      ensures LimitArg(limitRaw).Some? && Authorized(uploads, token) && !Blank(msgType) ==>
                r.Ok? && r.body.msgType == msgType.value
                && r.body.messages == Entries(Take(OfType(uploads[token.value].log, msgType.value), LimitArg(limitRaw).value))
                && r.body.count == |r.body.messages|
    {
      var limit := LimitArg(limitRaw);
      if limit.None? {
        return Fail(500, InternalError);
      }
      if !Authorized(uploads, token) {
        return Fail(400, TokenError);
      }
      if Blank(msgType) {
        return Fail(400, "type param required");
      }
      var messages := DumpLoop(uploads[token.value].log, msgType.value, limit.value);
      r := Ok(Dump(msgType.value, messages, |messages|));
    }

    /** `GET /api/stats` */
    method GetStats(token: Option<string>) returns (r: Reply<Stats>)
      requires Valid()
      ensures !Authorized(uploads, token) <==> r == Fail(400, TokenError)
      ensures Authorized(uploads, token) ==> r.Ok?
      ensures r.Ok? ==> Authorized(uploads, token)
                        && var log := uploads[token.value].log;
                           r.body.totalMessages == |log|
                           && r.body.messageTypes == |Types(log)|
                           && r.body.firstTimestamp == FirstStamp(log)
                           && r.body.lastTimestamp == LastStamp(log)
                           && r.body.durationSeconds == Duration(FirstStamp(log), LastStamp(log))
                           && r.body.messagesPerType.Keys == Types(log)
                           && forall t :: t in r.body.messagesPerType ==> r.body.messagesPerType[t] == CountOf(log, t)
    {
      if !Authorized(uploads, token) {
        return Fail(400, TokenError);
      }
      var upload := uploads[token.value];
      var total, first, last := ScanStamps(upload.log);
      var duration := if Truthy(first) && Truthy(last) then last.value - first.value else 0.0;
      var messages := upload.analysis.messages;
      var perType := map k | k in messages :: messages[k].count;
      r := Ok(Stats(total, |messages|, first, last, duration, perType));
    }

    /** `GET /api/params` */
    method GetParams(token: Option<string>) returns (r: Reply<Params>)
      ensures !Authorized(uploads, token) ==> r == Fail(400, TokenError)
      ensures Authorized(uploads, token) ==>
                (ParamTable(uploads[token.value].log).None? <==> r == Fail(500, "failed to extract params: "))
      ensures Authorized(uploads, token) && ParamTable(uploads[token.value].log).Some? ==> r.Ok?
      ensures r.Ok? ==> Authorized(uploads, token) && ParamTable(uploads[token.value].log) == Some(r.body.params)
                        && r.body.count == |r.body.params|
    {
      if !Authorized(uploads, token) {
        return Fail(400, TokenError);
      }
      var params := ParamLoop(uploads[token.value].log);
      if params.None? {
        return Fail(500, "failed to extract params: ");
      }
      r := Ok(Params(params.value, |params.value|));
    }
  }
}
