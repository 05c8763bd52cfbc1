/** What one call carries: values, errors, the request and response objects, and the methods of a chain. */
module Context {
  import opened Basics
  import opened RouteTree

  const OK: nat := 200
  const UNEXPECTED_ERROR: nat := 422
  const ERROR_HEADER: string := "x-rpc-error"

  /** A value handed to or returned by a handler. `Falsy` stands for null, zero, false and the empty string. */
  datatype Value =
    | Undefined
    | Falsy(tag: nat)
    | Atom(tag: nat)
    | List(items: seq<Value>)
    | HeadersSubset(headers: map<string, Option<string>>)

  /** What a handler can throw. */
  datatype Thrown = Rpc(error: RpcError) | Other(tag: nat)

  datatype RawBody = Text(text: string) | Bytes(bytes: seq<Byte>) | Parsed(tag: nat)

  /** Everything a handler can see or change. No error recorded is the empty map. */
  datatype State = State(
    reqBody: map<string, Value>,
    thrown: map<string, RpcError>,
    statusCode: nat,
    hasErrors: bool,
    headers: map<string, string>,
    respBody: map<string, Value>,
    shared: nat)

  /** The part of a request that a run does not change. */
  datatype Incoming = Incoming(headers: map<string, string>, isBinary: bool)

  /** The compiled functions for a method's parameters; a missing one is a no-op. */
  datatype ParamsCodec = ParamsCodec(
    restore: Option<Value -> Result<Value, nat>>,
    isType: Option<Value -> bool>,
    hasUnknownKeys: Option<Value -> bool>)

  datatype Args = NoArgs | Params(params: Value) | WithHeaders(headers: map<string, string>, params: Value)

  /** What calling a handler does: the parts it may write, the errors it reports on the way, how it ends. */
  datatype Reaction = Reaction(
    reqBody: map<string, Value>,
    respBody: map<string, Value>,
    headers: map<string, string>,
    shared: nat,
    reports: seq<(string, Thrown)>,
    outcome: Result<Value, Thrown>)

  datatype Executable = Executable(
    id: string,
    kind: Kind,
    runOnError: bool,
    validateParams: bool,
    strictTypes: bool,
    hasReturnData: bool,
    headersReturn: bool,
    codec: ParamsCodec,
    headerNames: seq<string>,
    headersAreType: map<string, string> -> bool,
    handler: (State, Args) -> Reaction)

  datatype ExecutionChain = ExecutionChain(methods: seq<Executable>, serializer: Serializer)

  class MionRequest {
    var headers: map<string, string>
    var rawBody: RawBody
    var bodyType: Serializer
    var body: map<string, Value>
    var thrownErrors: map<string, RpcError>

    constructor (headers: map<string, string>, rawBody: RawBody, bodyType: Serializer)
      ensures this.headers == headers && this.rawBody == rawBody && this.bodyType == bodyType
      ensures body == map[] && thrownErrors == map[]
    {
      this.headers, this.rawBody, this.bodyType := headers, rawBody, bodyType;
      body, thrownErrors := map[], map[];
    }
  }

  class MionResponse {
    var statusCode: nat
    var hasErrors: bool
    var headers: map<string, string>
    var body: map<string, Value>
    var rawBody: RawBody
    var serializer: Serializer
    var binSerializer: Option<nat>
    var releaseBinBuffer: Option<nat>

    constructor (headers: map<string, string>)
      ensures IsNew(headers)
    {
      this.headers := headers;
      statusCode, hasErrors, body, rawBody, serializer := OK, false, map[], Text(""), Json;
      binSerializer, releaseBinBuffer := None, None;
    }

    /** As a response starts out. */
    predicate IsNew(headers: map<string, string>)
      reads this
    {
      && this.headers == headers && statusCode == OK && !hasErrors && body == map[] && rawBody == Text("")
      && serializer == Json && binSerializer == None && releaseBinBuffer == None
    }
  }

  class CallContext {
    var path: string
    const request: MionRequest
    var response: MionResponse
    var executionChain: ExecutionChain
    var shared: nat
    var urlQuery: string
    var routesFlowRouteIds: Option<seq<string>>

    constructor (path: string, request: MionRequest, response: MionResponse, chain: ExecutionChain, shared: nat,
                 urlQuery: string, flowIds: Option<seq<string>>)
      ensures this.path == path && this.request == request && this.response == response
      ensures executionChain == chain && this.shared == shared
      ensures this.urlQuery == urlQuery && routesFlowRouteIds == flowIds
    {
      this.path, this.request, this.response, executionChain := path, request, response, chain;
      this.shared, this.urlQuery, routesFlowRouteIds := shared, urlQuery, flowIds;
    }

    function View(): State
      reads this, request, response
    {
      State(request.body, request.thrownErrors, response.statusCode, response.hasErrors, response.headers,
        response.body, shared)
    }

    function In(): Incoming
      reads this, request
    {
      Incoming(request.headers, request.bodyType.Binary?)
    }
  }
}
