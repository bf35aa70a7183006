/** The request and response envelopes and the field rules their models enforce when
    they are built from a key-value mapping. */
module Envelope {
  import opened Wrappers
  import opened ByteOrder

  /** A structured payload, as the serializer sees it. */
  datatype Value =
    | Nil
    | Bool(b: bool)
    | Int(i: int)
    | Str(s: string)
    | Bin(bytes: seq<byte>)
    | Array(items: seq<Value>)
    | Map(entries: map<string, Value>)

  /** A dictionary with string keys, as keyword arguments and `.dict()` give them. */
  type Dict = map<string, Value>

  /** The outbound envelope. */
  datatype CallRequest = CallRequest(methodName: string, params: Dict, unifiedMsgOrigin: string)

  /** The inbound envelope. */
  datatype CallResponse = CallResponse(success: bool, data: Dict, errorMessage: string)

  /** One reason a mapping does not make an envelope. */
  datatype FieldError = Missing(field: string) | WrongType(field: string)

  /** The declared type of a field. */
  datatype Kind = BoolKind | StrKind | DictKind

  predicate HasKind(v: Value, kind: Kind)
  {
    match kind
    case BoolKind => v.Bool?
    case StrKind => v.Str?
    case DictKind => v.Map?
  }

  /** Field `name` of `d` is acceptable: present when required, and of its kind when present. */
  predicate FieldOk(d: Dict, name: string, kind: Kind, required: bool)
  {
    (required ==> name in d) && (name in d ==> HasKind(d[name], kind))
  }

  /** `errors` reports field `name` of `d` exactly as it deserves. */
  predicate Reports(errors: seq<FieldError>, d: Dict, name: string, kind: Kind, required: bool)
  {
    && (Missing(name) in errors <==> required && name !in d)
    && (WrongType(name) in errors <==> name in d && !HasKind(d[name], kind))
  }

  /** The errors one field contributes to a validation error. */
  function CheckField(d: Dict, name: string, kind: Kind, required: bool): (errors: seq<FieldError>)
    ensures errors == [] <==> FieldOk(d, name, kind, required)
    ensures |errors| <= 1 && Reports(errors, d, name, kind, required)
  {
    if name in d then (if HasKind(d[name], kind) then [] else [WrongType(name)])
    else if required then [Missing(name)]
    else []
  }

  /** The field of a defaulted dict, or the empty mapping its default factory makes. */
  function DictOrEmpty(d: Dict, name: string): Dict
    requires FieldOk(d, name, DictKind, false)
  {
    if name in d then d[name].entries else map[]
  }

  /** Building a CallRequest from a mapping: `method` and `unified_msg_origin` are required
      strings, `params` a dict defaulting to empty; unknown keys are ignored; a failure lists
      every offending field and nothing else. */
  function RequestFromDict(d: Dict): (r: Result<CallRequest, seq<FieldError>>)
    ensures r.Success? <==>
      && FieldOk(d, "method", StrKind, true)
      && FieldOk(d, "params", DictKind, false)
      && FieldOk(d, "unified_msg_origin", StrKind, true)
    ensures r.Success? ==>
      && r.value.methodName == d["method"].s
      && r.value.params == (if "params" in d then d["params"].entries else map[])
      && r.value.unifiedMsgOrigin == d["unified_msg_origin"].s
    ensures r.Failure? ==>
      && Reports(r.error, d, "method", StrKind, true)
      && Reports(r.error, d, "params", DictKind, false)
      && Reports(r.error, d, "unified_msg_origin", StrKind, true)
      && (forall e | e in r.error :: e.field in {"method", "params", "unified_msg_origin"})
      && (forall i, j | 0 <= i < j < |r.error| :: r.error[i] != r.error[j])
  {
    var errors := CheckField(d, "method", StrKind, true)
      + CheckField(d, "params", DictKind, false)
      + CheckField(d, "unified_msg_origin", StrKind, true);
    if errors != [] then Failure(errors)
    else Success(CallRequest(d["method"].s, DictOrEmpty(d, "params"), d["unified_msg_origin"].s))
  }

  /** Building a CallResponse from a mapping: `success` (a bool) and `error_message`
      (a string) are required, `data` a dict defaulting to empty; unknown keys are ignored;
      a failure lists every offending field and nothing else. */
  function ResponseFromDict(d: Dict): (r: Result<CallResponse, seq<FieldError>>)
    ensures r.Success? <==>
      && FieldOk(d, "success", BoolKind, true)
      && FieldOk(d, "data", DictKind, false)
      && FieldOk(d, "error_message", StrKind, true)
    ensures r.Success? ==>
      && r.value.success == d["success"].b
      && r.value.data == (if "data" in d then d["data"].entries else map[])
      && r.value.errorMessage == d["error_message"].s
    ensures r.Failure? ==>
      && Reports(r.error, d, "success", BoolKind, true)
      && Reports(r.error, d, "data", DictKind, false)
      && Reports(r.error, d, "error_message", StrKind, true)
      && (forall e | e in r.error :: e.field in {"success", "data", "error_message"})
      && (forall i, j | 0 <= i < j < |r.error| :: r.error[i] != r.error[j])
  {
    var errors := CheckField(d, "success", BoolKind, true)
      + CheckField(d, "data", DictKind, false)
      + CheckField(d, "error_message", StrKind, true);
    if errors != [] then Failure(errors)
    else Success(CallResponse(d["success"].b, DictOrEmpty(d, "data"), d["error_message"].s))
  }

  /** The keyword arguments `call_method` passes to CallRequest. */
  function RequestKeywords(methodName: string, params: Dict, unifiedMsgOrigin: string): (d: Dict)
    ensures d.Keys == {"method", "params", "unified_msg_origin"}
  {
    map["method" := Str(methodName), "params" := Map(params), "unified_msg_origin" := Str(unifiedMsgOrigin)]
  }

  /** `request.dict()`: the envelope as the mapping that is serialized. */
  function RequestToDict(request: CallRequest): (d: Dict)
    ensures d.Keys == {"method", "params", "unified_msg_origin"}
  {
    RequestKeywords(request.methodName, request.params, request.unifiedMsgOrigin)
  }

  /** The keyword arguments `call_method` builds always validate, into a request that
      carries exactly the three arguments. */
  lemma KeywordsMakeRequest(methodName: string, params: Dict, unifiedMsgOrigin: string)
    ensures RequestFromDict(RequestKeywords(methodName, params, unifiedMsgOrigin))
         == Success(CallRequest(methodName, params, unifiedMsgOrigin))
  {
  }

  /** `.dict()` and validation are inverse: the serialized mapping of a request rebuilds it. */
  lemma RequestDictRoundTrip(request: CallRequest)
    ensures RequestFromDict(RequestToDict(request)) == Success(request)
  {
    KeywordsMakeRequest(request.methodName, request.params, request.unifiedMsgOrigin);
  }

  /** Keys that are not fields of CallResponse do not change how a response is built. */
  lemma ResponseIgnoresUnknownKeys(d: Dict, key: string, v: Value)
    requires key !in {"success", "data", "error_message"}
    ensures ResponseFromDict(d[key := v]) == ResponseFromDict(d)
  {
  }

  /** Every response mapping that builds without a `data` key gets the empty mapping as its data. */
  lemma ResponseDataDefaultsToEmpty(d: Dict)
    requires "data" !in d && ResponseFromDict(d).Success?
    ensures ResponseFromDict(d).value.data == map[]
  {
  }
}
