/** Messages and the JSON objects they travel as. */
module MessageWire {
  import opened Wrappers
  import opened Messages

  datatype WireError = Malformed | Ambiguous

  /** Every field optional. An absent `result` or `error` differs from one that is null; any other null reads as
      absent. */
  datatype RawMessage = RawMessage(id: Option<RequestId>, method_: Option<string>, params: Option<Json>,
                                   result: Option<Json>,
                                   error: Option<ResponseError>)

  function IdJson(id: RequestId): Json {
    match id case IdInt(n) => Int(n) case IdStr(s) => Str(s)
  }

  function ErrorJson(e: ResponseError): Json {
    Obj(map["code" := Int(e.code), "message" := Str(e.message), "data" := if e.data.Some? then e.data.value else Null])
  }

  /** The object a message is written as. */
  function ToWire(m: Message): Json {
    var version := Str("2.0");
    match m
    case Request(id, method_, params) =>
      Obj(map["jsonrpc" := version, "id" := IdJson(id), "method" := Str(method_), "params" := params])
    case Notification(method_, params) => Obj(map["jsonrpc" := version, "method" := Str(method_), "params" := params])
    case Response(id, Success(v)) => Obj(map["jsonrpc" := version, "id" := IdJson(id), "result" := v])
    case Response(id, Failure(e)) => Obj(map["jsonrpc" := version, "id" := IdJson(id), "error" := ErrorJson(e)])
  }

  function IdFrom(v: Json): Option<RequestId> {
    match v case Int(n) => Some(IdInt(n)) case Str(s) => Some(IdStr(s)) case _ => None
  }

  function ErrorFrom(v: Json): Option<ResponseError> {
    var (code, message, data) := (v.At("code"), v.At("message"), v.At("data"));
    if code.Int? && message.Str? then Some(ResponseError(code.n, message.s, if data == Null then None
        else Some(data))) else None
  }

  function RawFrom(v: Json): Option<RawMessage> {
    var (id, method_, params, error) := (v.At("id"), v.At("method"), v.At("params"), v.Get("error"));
    if !v.Obj? || (id != Null && IdFrom(id).None?) || (method_ != Null && !method_.Str?)
       || (error.Some? && ErrorFrom(error.value).None?) then None
    else
      Some(RawMessage(if id == Null then None else IdFrom(id), if method_ == Null then None else Some(method_.s),
                      if params == Null then None else Some(params), v.Get("result"),
                      if error.Some? then ErrorFrom(error.value) else None))
  }

  function Classify(raw: RawMessage): Result<Message, WireError> {
    var params := if raw.params.Some? then raw.params.value else Null;
    match (raw.id, raw.method_, raw.result, raw.error)
    case (Some(id), Some(method_), None, None) => Success(Request(id, method_, params))
    case (None, Some(method_), None, None) => Success(Notification(method_, params))
    case (Some(id), None, Some(result), None) => Success(Response(id, Success(result)))
    case (Some(id), None, None, Some(error)) => Success(Response(id, Failure(error)))
    case _ => Failure(Ambiguous)
  }

  function FromWire(v: Json): Result<Message, WireError> {
    var raw := RawFrom(v);
    if raw.None? then Failure(Malformed) else Classify(raw.value)
  }

  /** Error data that is an explicit null. */
  predicate HasNullData(m: Message) {
    m.Response? && m.result.Failure? && m.result.error.data == Some(Null)
  }

  /** Reading back what was written gives the message, except that null error data comes back absent. */
  lemma WireRoundTrip(m: Message)
    ensures FromWire(ToWire(m)).Success?
    ensures FromWire(ToWire(m)) == Success(m) <==> !HasNullData(m)
    ensures HasNullData(m) ==>
              FromWire(ToWire(m)) == Success(Response(m.answers, Failure(m.result.error.(data := None))))
  {
  }

  /** A message is a method without an outcome, or an answered id with exactly one outcome and no method. */
  lemma ClassifyShapes(raw: RawMessage)
    ensures Classify(raw).Success? <==>
              || (raw.method_.Some? && raw.result.None? && raw.error.None?)
              || (raw.method_.None? && raw.id.Some? && (raw.result.Some? <==> raw.error.None?))
    ensures Classify(raw).Success? ==>
              var m := Classify(raw).value;
              && (m.Request? <==> raw.method_.Some? && raw.id.Some?) && (m.Response? <==> raw.method_.None?)
              && (m.Request? ==> Some(m.id) == raw.id) && (m.Response? ==> Some(m.answers) == raw.id)
              && (m.Response? && m.result.Success? ==> Some(m.result.value) == raw.result)
  {
  }

  // ---- Which objects are messages ----

  ghost predicate IsId(v: Json, id: RequestId) {
    match id case IdInt(n) => v == Int(n) case IdStr(s) => v == Str(s)
  }

  ghost predicate IsFault(v: Json, e: ResponseError) {
    && v.At("code") == Int(e.code) && v.At("message") == Str(e.message)
    && (if e.data.Some? then e.data.value != Null && v.At("data") == e.data.value else v.At("data") == Null)
  }

  /** The members that make an object the message `m`: a method and no outcome, with an id when an answer is wanted, or
      an id and exactly one outcome and no method. An absent outcome differs from one that is null; any other member
      may be either. */
  ghost predicate Spells(v: Json, m: Message) {
    v.Obj? &&
    match m
    case Request(id, method_, params) =>
      && IsId(v.At("id"), id) && v.At("method") == Str(method_) && v.At("params") == params
      && v.Get("result").None? && v.Get("error").None?
    case Notification(method_, params) =>
      && v.At("id") == Null && v.At("method") == Str(method_) && v.At("params") == params
      && v.Get("result").None? && v.Get("error").None?
    case Response(id, Success(value)) =>
      && IsId(v.At("id"), id) && v.At("method") == Null && v.Get("result") == Some(value) && v.Get("error").None?
    case Response(id, Failure(e)) =>
      && IsId(v.At("id"), id) && v.At("method") == Null && v.Get("result").None?
      && v.Get("error").Some? && IsFault(v.Get("error").value, e)
  }

  /** Every member a message may have is of its kind. */
  ghost predicate WellTyped(v: Json) {
    && v.Obj? && (v.At("id").Null? || v.At("id").Int? || v.At("id").Str?)
        && (v.At("method").Null? || v.At("method").Str?)
    && (v.Get("error").Some? ==> v.Get("error").value.At("code").Int? && v.Get("error").value.At("message").Str?)
  }

  /** An object is read as a message exactly when its members spell it, and a value is malformed exactly when some
      member is not of its kind. */
  lemma ReadsSpelled(v: Json, m: Message)
    ensures FromWire(v) == Success(m) <==> Spells(v, m)
    ensures FromWire(v) == Failure(Malformed) <==> !WellTyped(v)
  {
  }

  /** A message is written as an object that spells it, a null error data as no data, in version 2.0. */
  lemma WrittenSpells(m: Message)
    ensures ToWire(m).Get("jsonrpc") == Some(Str("2.0"))
    ensures Spells(ToWire(m), if HasNullData(m) then Response(m.answers, Failure(m.result.error.(data := None))) else m)
  {
  }
}
