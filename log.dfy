/** The decoded flight log as every handler sees it.

    The external log decoder (pymavlink) is not modelled: a decoded log is a
    finite sequence of messages, each with a type name, the field map that
    `to_dict()` returns, and the three timestamp attributes the handlers read
    with `getattr(m, ..., None)`.  Timestamps are exact rationals (`real`). */
module Log {

  datatype Option<T> = None | Some(value: T)

  /** A field value as the decoder reports it. */
  datatype Value = IntV(i: int) | FloatV(r: real) | StrV(s: string) | NoneV

  /** `isinstance(v, (int, float))` */
  predicate IsNumber(v: Value) {
    v.IntV? || v.FloatV?
  }

  datatype Msg = Msg(
    mtype: string,
    fields: map<string, Value>,
    timeUsec: Option<real>,  // getattr(m, 'time_usec', None)
    time: Option<real>,      // getattr(m, 'time', None)
    stamp: Option<real>)     // getattr(m, '_timestamp', None)

  /** One `{'t': t, 'v': v}` point of a series. */
  datatype Point = Point(t: Option<real>, v: Value)

  /** A predefined graph: MAVProxy's GraphDefinition record. */
  datatype GraphDef = GraphDef(
    name: string,
    expression: string,
    description: string,
    expressions: seq<string>,
    filename: string)

  /** A handler's answer: a JSON body, or an HTTP error status with its message. */
  datatype Reply<T> = Ok(body: T) | Fail(status: int, error: string)

  /** Python truthiness of an optional timestamp: None and 0 are false. */
  predicate Truthy(t: Option<real>) {
    t.Some? && t.value != 0.0
  }

  /** Python's `a or b`: `a` when it is truthy, otherwise `b` as it is. */
  function Or(a: Option<real>, b: Option<real>): (r: Option<real>)
    ensures Truthy(a) ==> r == a
    ensures !Truthy(a) ==> r == b
  {
    if Truthy(a) then a else b
  }

  /** `time_usec or time or _timestamp`: the first truthy candidate; the last
      one is taken as it is, so a zero `_timestamp` is kept while a zero
      `time_usec` or `time` falls through. */
  function TimeOf(m: Msg): (r: Option<real>)
    ensures Truthy(m.timeUsec) ==> r == m.timeUsec
    ensures !Truthy(m.timeUsec) && Truthy(m.time) ==> r == m.time
    ensures !Truthy(m.timeUsec) && !Truthy(m.time) ==> r == m.stamp
  {
    Or(Or(m.timeUsec, m.time), m.stamp)
  }

  const MicroThreshold: real := 1000000000000.0

  /** `if t is not None and t > 1e12: t = t / 1e6` (microseconds to seconds). */
  function Normalize(t: Option<real>): (r: Option<real>)
    ensures r.Some? <==> t.Some?
    ensures t.Some? && t.value > MicroThreshold ==> r.value * 1000000.0 == t.value
    ensures t.Some? && t.value <= MicroThreshold ==> r == t
  {
    if t.Some? && t.value > MicroThreshold then Some(t.value / 1000000.0) else t
  }

  /** A timestamp as a CSV cell or JSON value: None stays None. */
  function TimeValue(t: Option<real>): Value {
    if t.Some? then FloatV(t.value) else NoneV
  }

  /** `m.to_dict().get(field)` */
  function FieldOf(m: Msg, field: string): Value {
    if field in m.fields then m.fields[field] else NoneV
  }

  /** The messages of one type, in log order: `recv_match(type=t)` repeated. */
  function OfType(log: seq<Msg>, t: string): (r: seq<Msg>)
    ensures |r| <= |log|
    ensures forall i :: 0 <= i < |r| ==> r[i].mtype == t
  {
    if log == [] then []
    else OfType(log[..|log| - 1], t) + (if log[|log| - 1].mtype == t then [log[|log| - 1]] else [])
  }

  /** Number of messages of type `t`. */
  function CountOf(log: seq<Msg>, t: string): nat {
    |OfType(log, t)|
  }

  /** The set of message types occurring in the log. */
  function Types(log: seq<Msg>): (r: set<string>)
    ensures forall i :: 0 <= i < |log| ==> log[i].mtype in r
  {
    if log == [] then {} else Types(log[..|log| - 1]) + {log[|log| - 1].mtype}
  }

  /** A type has messages exactly when it occurs in the log. */
  lemma {:induction false} OfTypeEmpty(log: seq<Msg>, t: string)
    ensures OfType(log, t) == [] <==> t !in Types(log)
  {
    if log != [] {
      OfTypeEmpty(log[..|log| - 1], t);
    }
  }

  /** Every prefix-recursive summary of `log[..i + 1]` unfolds to `log[..i]` and `log[i]`. */
  lemma PrefixStep(log: seq<Msg>, i: nat)
    requires i < |log|
    ensures log[..i + 1][..i] == log[..i] && log[..i + 1][i] == log[i]
  {
  }

  /** Decimal integer literal as `int()` reads it, restricted to `[+-]?[0-9]+`. */
  function ParseInt(s: string): (r: Option<int>)
    ensures s == [] ==> r.None?
    ensures (forall i :: 0 <= i < |s| ==> '0' <= s[i] <= '9') && s != [] ==> r == Some(Digits(s))
  {
    if s == [] then None
    else if s[0] == '-' || s[0] == '+' then
      var d := s[1..];
      if d != [] && AllDigits(d) then Some(if s[0] == '-' then 0 - Digits(d) as int else Digits(d)) else None
    else if AllDigits(s) then Some(Digits(s))
    else None
  }

  predicate AllDigits(s: string) {
    forall i :: 0 <= i < |s| ==> '0' <= s[i] <= '9'
  }

  function Digits(s: string): nat
    requires AllDigits(s)
  {
    if s == [] then 0 else 10 * Digits(s[..|s| - 1]) + (s[|s| - 1] - '0') as nat
  }

  /** `int(request.args.get('decimate') or 1)`: absent or empty means 1;
      None means `int()` raised. */
  function DecimateArg(raw: Option<string>): (r: Option<int>)
    ensures raw.None? || raw.value == [] ==> r == Some(1)
    ensures raw.Some? && raw.value != [] ==> r == ParseInt(raw.value)
  {
    if raw.None? || raw.value == [] then Some(1) else ParseInt(raw.value)
  }

  /** `int(request.args.get('limit', 100))`: only an absent value means 100;
      an empty one makes `int()` raise. */
  function LimitArg(raw: Option<string>): (r: Option<int>)
    ensures raw.None? ==> r == Some(100)
    ensures raw.Some? && raw.value == [] ==> r.None?
    ensures raw.Some? ==> r == ParseInt(raw.value)
  {
    if raw.None? then Some(100) else ParseInt(raw.value)
  }

  /** `not p` for an optional request parameter. */
  predicate Blank(p: Option<string>) {
    p.None? || p.value == []
  }

  /** `not token or token not in UPLOADS` negated: the token gate of every
      read endpoint. */
  predicate Authorized<U>(uploads: map<string, U>, token: Option<string>) {
    token.Some? && token.value != [] && token.value in uploads
  }
}
