/** JSON values and the JSON-RPC messages made of them. */
module Messages {
  import opened Wrappers

  datatype Json =
    | Null
    | Bool(b: bool)
    | Int(n: int)
    // A double by its bit pattern.
    | Float(bits: nat)
    | Str(s: string)
    | Arr(items: seq<Json>)
    | Obj(fields: map<string, Json>)
  {
    /** The field, when this is an object that has it. */
    function Get(key: string): Option<Json> {
      if Obj? && key in fields then Some(fields[key]) else None
    }

    /** Indexing: an absent field reads as null. */
    function At(key: string): Json {
      if Obj? && key in fields then fields[key] else Null
    }
  }

  datatype RequestId = IdInt(n: int) | IdStr(s: string)

  datatype ResponseError = ResponseError(code: int, message: string, data: Option<Json>)

  datatype Message =
    | Request(id: RequestId, method_: string, params: Json)
    | Response(answers: RequestId, result: Result<Json, ResponseError>)
    | Notification(method_: string, params: Json)
}
