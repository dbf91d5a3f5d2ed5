/** `generate_server` (generate.py:262-411): the `APIHandler` and
    `AuthHandler` interfaces, and `handleRequest`'s switch with one branch
    per endpoint. This module holds both the emission and what the emitted
    branches do when a request arrives.

    The emitted Dart's behaviour is modelled as a trace of the actions it
    takes on the request: calls into the handler objects, the one JSON
    reply it writes, and the closing of the response. Anything the
    handlers or the network decide is a parameter (`Env`).
 */
module Server {
  import opened Errors
  import opened PyDict
  import opened Schema
  import opened DartExpr
  import opened Synth
  import opened Enums

  // ---------------------------------------------------------------------
  // The interfaces.

  /** An abstract method: return type, name, and (type, name) parameters. */
  datatype Signature = Signature(resultType: string, member: string, params: seq<(string, string)>)

  /** `endpointType.get("out", "void")` */
  function OutType(e: Endpoint): string {
    if e.output.Some? then e.output.value else "void"
  }

  /** The parameters of a handler method: the token when forwarded, then the
      request when the endpoint takes one. */
  function HandlerParams(tokenType: string, e: Endpoint): seq<(string, string)> {
    (if e.forwardToken then [(tokenType, "token")] else []) +
    (if e.input.Some? then [(e.input.value, "request")] else [])
  }

  /** The handler method of one endpoint. A forwarded token needs the token
      type `config["auth"]["out"]`, a `KeyError` without `auth`. */
  function HandlerSignature(c: Config, name: string, e: Endpoint): (r: Result<Signature>)
    ensures r.Ok? <==> !e.forwardToken || c.auth.Some?
    ensures r.Err? ==> r.error == KeyError("auth")
    ensures r.Ok? ==>
      && r.value.member == name
      && r.value.resultType == OutType(e)
      && |r.value.params| == (if e.forwardToken then 1 else 0) + (if e.input.Some? then 1 else 0)
      && (e.forwardToken ==> r.value.params[0] == (c.auth.value.output, "token"))
      && (e.input.Some? ==> r.value.params[|r.value.params| - 1] == (e.input.value, "request"))
  {
    if e.forwardToken && c.auth.None? then Err(KeyError("auth"))
    else
      var tokenType := if c.auth.Some? then c.auth.value.output else "";
      Ok(Signature(OutType(e), name, HandlerParams(tokenType, e)))
  }

  /** `abstract class APIHandler`: one method per endpoint handled by
      "main", in declaration order. */
  function ApiHandler(c: Config, eps: Dict<string, Endpoint>): (r: Result<seq<Signature>>)
    ensures r.Ok? <==> forall i :: 0 <= i < |eps| && eps[i].1.handledBy == "main" ==>
      HandlerSignature(c, eps[i].0, eps[i].1).Ok?
    ensures r.Err? ==> r.error == KeyError("auth")
    ensures r.Ok? ==> forall i :: 0 <= i < |eps| && eps[i].1.handledBy == "main" ==>
      HandlerSignature(c, eps[i].0, eps[i].1).value in r.value
    ensures r.Ok? ==> forall s :: s in r.value ==>
      exists i :: 0 <= i < |eps| && eps[i].1.handledBy == "main" && s == HandlerSignature(c, eps[i].0, eps[i].1).value
  {
    if |eps| == 0 then Ok([])
    else
      var rest := ApiHandler(c, eps[1..]);
      assert forall i :: 1 <= i < |eps| ==> eps[1..][i - 1] == eps[i];
      if eps[0].1.handledBy != "main" then rest
      else
        var s0 := HandlerSignature(c, eps[0].0, eps[0].1);
        if s0.Err? then Err(s0.error)
        else if rest.Err? then rest
        else Ok([s0.value] + rest.value)
  }

  /** The custom authorisation predicate of an endpoint whose auth level is
      `Custom`: `bool <name>Auth(token[, request])`. */
  function PredicateSignature(a: Auth, name: string, e: Endpoint): Signature {
    Signature("bool", name + "Auth",
      [(a.output, "token")] + (if e.input.Some? then [(e.input.value, "request")] else []))
  }

  /** The members one endpoint contributes to `AuthHandler`: its handler
      method when handled by "auth", then its predicate when its level is
      `Custom`. */
  function AuthMembers(a: Auth, name: string, e: Endpoint): seq<Signature> {
    (if e.handledBy == "auth" then [Signature(OutType(e), name, HandlerParams(a.output, e))] else []) +
    (if e.authLevel == Some("Custom") then [PredicateSignature(a, name, e)] else [])
  }

  /** Every endpoint's members, and nothing else, in endpoint order
      (`AuthMembersAppend`). */
  function AuthMembersOf(a: Auth, eps: Dict<string, Endpoint>): (ms: seq<Signature>)
    ensures forall i :: 0 <= i < |eps| ==> forall s :: s in AuthMembers(a, eps[i].0, eps[i].1) ==> s in ms
    ensures forall s :: s in ms ==> exists i :: 0 <= i < |eps| && s in AuthMembers(a, eps[i].0, eps[i].1)
  {
    if |eps| == 0 then []
    else
      assert forall i :: 1 <= i < |eps| ==> eps[1..][i - 1] == eps[i];
      AuthMembers(a, eps[0].0, eps[0].1) + AuthMembersOf(a, eps[1..])
  }

  /** The members of two runs of endpoints are the first run's followed by
      the second's: with a single endpoint per run, the emitted order is the
      endpoints' order. */
  lemma {:induction false} AuthMembersAppend(a: Auth, p: Dict<string, Endpoint>, q: Dict<string, Endpoint>)
    ensures AuthMembersOf(a, p + q) == AuthMembersOf(a, p) + AuthMembersOf(a, q)
  {
    if |p| == 0 {
      assert p + q == q;
    } else {
      assert (p + q)[1..] == p[1..] + q;
      AuthMembersAppend(a, p[1..], q);
    }
  }

  /** `abstract class AuthHandler`, emitted only with `auth`: token issue
      and validation, then the endpoints' members. */
  function AuthHandler(a: Auth, eps: Dict<string, Endpoint>): seq<Signature> {
    [Signature(a.output, "generateToken", [(a.input, "credentials")]),
     Signature("AuthLevel", "validateToken", [(a.output, "token")])] + AuthMembersOf(a, eps)
  }

  // ---------------------------------------------------------------------
  // The request switch.

  /** The authorisation test a branch runs before calling its handler. */
  datatype Check =
    | NoCheck
    | LevelCheck(level: string)              // tokenLevel < AuthLevel.<level>
    | CustomCheck(guard: string)         // !auth.<name>Auth(token[, reqData])

  /** One `case '/<name>':` of the switch. */
  datatype Branch = Branch(
    name: string,
    reqDecoder: Option<Expr>,    // reqData = <decoder of reqBody['data']>
    readsToken: bool,            // token = reqBody['token']
    check: Check,
    call: Expr,                  // <receiver>.<member>([token, ][reqData])
    respEncoder: Option<Expr>)   // 'data': <encoder of the call's result>

  /** The branch reads the request body at all. */
  predicate ReadsRequest(b: Branch) {
    b.reqDecoder.Some? || b.readsToken
  }

  /** The arguments the handler is called with. */
  function CallArgs(e: Endpoint): seq<Expr> {
    (if e.forwardToken then [Var("token")] else []) +
    (if e.input.Some? then [Var("reqData")] else [])
  }

  /** The object and method that serve an endpoint, or `ValueError` for a
      `handledBy` other than "main" and "auth". `_authorize` is served by
      `auth.generateToken` whatever it says. */
  function Target(name: string, e: Endpoint): (r: Result<(string, string)>)
    ensures r.Err? <==> name != "_authorize" && e.handledBy != "main" && e.handledBy != "auth"
    ensures r.Err? ==> r.error == ValueError(e.handledBy)
    ensures name == "_authorize" ==> r == Ok(("auth", "generateToken"))
    ensures name != "_authorize" && r.Ok? ==>
      r.value == (if e.handledBy == "main" then "handler" else "auth", name)
  {
    if name == "_authorize" then Ok(("auth", "generateToken"))
    else if e.handledBy == "main" then Ok(("handler", name))
    else if e.handledBy == "auth" then Ok(("auth", name))
    else Err(ValueError(e.handledBy))
  }

  function CheckOf(name: string, e: Endpoint): Check {
    match e.authLevel
    case None => NoCheck
    case Some(l) => if l == "Custom" then CustomCheck(name + "Auth") else LevelCheck(l)
  }

  /** One branch. generate.py fails at the first of: the token type without
      `auth`, an undecodable request type, an unknown handler, an
      unencodable response type. */
  function EmitBranch(c: Config, name: string, e: Endpoint, fuel: nat): (r: Result<Branch>)
    ensures r.Ok? <==>
      && (NeedsToken(e) ==> c.auth.Some?)
      && (e.input.Some? ==> FromJson(c, e.input.value, RequestData, fuel).Ok?)
      && Target(name, e).Ok?
      && (e.output.Some? ==> ToJson(c, e.output.value, TargetCall(name, e), fuel).Ok?)
    ensures r.Err? ==>
      if NeedsToken(e) && c.auth.None? then r.error == KeyError("auth")
      else if e.input.Some? && FromJson(c, e.input.value, RequestData, fuel).Err? then
        r == Err(FromJson(c, e.input.value, RequestData, fuel).error)
      else if Target(name, e).Err? then r.error == ValueError(e.handledBy)
      else r == Err(ToJson(c, e.output.value, TargetCall(name, e), fuel).error)
    ensures r.Ok? ==>
      && r.value.name == name
      && r.value.readsToken == NeedsToken(e)
      && r.value.reqDecoder ==
           (if e.input.Some? then Some(FromJson(c, e.input.value, RequestData, fuel).value) else None)
      && r.value.respEncoder ==
           (if e.output.Some? then Some(ToJson(c, e.output.value, TargetCall(name, e), fuel).value) else None)
      && r.value.check == CheckOf(name, e)
      && r.value.call.Call?
      && (r.value.call.receiver, r.value.call.member) == Target(name, e).value
      && r.value.call.args == CallArgs(e)
  {
    if NeedsToken(e) && c.auth.None? then Err(KeyError("auth"))
    else
      var dec :- if e.input.Some? then
                   var d :- FromJson(c, e.input.value, RequestData, fuel); Ok(Some(d))
                 else Ok(None);
      var target :- Target(name, e);
      var call := Call(target.0, target.1, CallArgs(e));
      var enc :- if e.output.Some? then
                   var x :- ToJson(c, e.output.value, call, fuel); Ok(Some(x))
                 else Ok(None);
      Ok(Branch(name, dec, NeedsToken(e), CheckOf(name, e), call, enc))
  }

  /** `reqBody['data']` */
  const RequestData: Expr := Index(Var("reqBody"), "data")

  /** The handler call of an endpoint whose target resolves. */
  function TargetCall(name: string, e: Endpoint): Expr
    requires Target(name, e).Ok?
  {
    Call(Target(name, e).value.0, Target(name, e).value.1, CallArgs(e))
  }

  /** The branches in endpoint order; the first failing endpoint aborts. */
  function Branches(c: Config, eps: Dict<string, Endpoint>, fuel: nat): (r: Result<seq<Branch>>)
    ensures r.Ok? <==> forall i :: 0 <= i < |eps| ==> EmitBranch(c, eps[i].0, eps[i].1, fuel).Ok?
    ensures r.Ok? ==> (|r.value| == |eps| &&
      forall i :: 0 <= i < |eps| ==> r.value[i] == EmitBranch(c, eps[i].0, eps[i].1, fuel).value)
    ensures r.Err? ==>
      exists i :: 0 <= i < |eps| && EmitBranch(c, eps[i].0, eps[i].1, fuel) == Err(r.error) &&
                  forall j :: 0 <= j < i ==> EmitBranch(c, eps[j].0, eps[j].1, fuel).Ok?
  {
    if |eps| == 0 then Ok([])
    else
      var b0 := EmitBranch(c, eps[0].0, eps[0].1, fuel);
      if b0.Err? then Err(b0.error)
      else
        var rest := Branches(c, eps[1..], fuel);
        assert forall i :: 1 <= i < |eps| ==> eps[1..][i - 1] == eps[i];
        if rest.Err? then Err(rest.error)
        else Ok([b0.value] + rest.value)
  }

  datatype ServerDecl = ServerDecl(
    api: seq<Signature>,
    authHandler: Option<seq<Signature>>,
    branches: seq<Branch>)

  /** `generate_server`: the interfaces are built from the declared
      endpoints, the switch from the endpoints after `_authorize` is added. */
  function GenerateServer(c: Config, fuel: nat): Result<ServerDecl> {
    var api :- ApiHandler(c, c.endpoints);
    var authHandler := if c.auth.Some? then Some(AuthHandler(c.auth.value, c.endpoints)) else None;
    var branches :- Branches(c, EndpointsWithAuthorize(c), fuel);
    Ok(ServerDecl(api, authHandler, branches))
  }

  /** The switch's first case for a request URI. */
  function FindBranch(bs: seq<Branch>, uri: string): (r: Option<Branch>)
    ensures r.None? <==> forall i :: 0 <= i < |bs| ==> "/" + bs[i].name != uri
    ensures r.Some? ==> r.value in bs
    ensures r.Some? ==> exists i :: 0 <= i < |bs| && bs[i] == r.value && "/" + bs[i].name == uri &&
                          forall j :: 0 <= j < i ==> "/" + bs[j].name != uri
  {
    if |bs| == 0 then None
    else if "/" + bs[0].name == uri then Some(bs[0])
    else
      var r := FindBranch(bs[1..], uri);
      assert forall i :: 1 <= i < |bs| ==> bs[1..][i - 1] == bs[i];
      r
  }

  // ---------------------------------------------------------------------
  // What the emitted server does with one request.

  /** How a call into a handler object ends. */
  datatype Completion =
    | Returns
    | ThrowsApi(ordinal: int)      // throws an APIException with this index
    | ThrowsOther                  // throws anything else

  /** Everything outside the generated code: whether the body decodes
      (UTF-8, JSON, the request type, the token field), what
      `validateToken` or the custom predicate answers, how the handler
      call (including the conversion of its result) ends, and whether the
      final `jsonEncode(response)` accepts the converted data. That last
      encoding runs after the `try` has closed, so a value it rejects
      (a NaN `double`, a `DateTime` passed through unconverted) escapes
      `handleRequest`. */
  datatype Env = Env(
    bodyOk: bool,
    authCall: Completion,
    tokenLevel: int,           // AuthLevel.values.indexOf(tokenLevel)
    customResult: bool,
    handler: Completion,
    replyEncodes: bool)

  datatype Action =
    | Invoke(receiver: string, member: string)
    | Write(code: int, hasData: bool)        // jsonEncode({['data': ..., ]'code': code})
    | Close
    | Escape                                 // an exception leaves handleRequest

  /** The emitted enums the switch refers to: `APIException`, and
      `AuthLevel` when the schema has `auth`. */
  datatype EnumsInScope = EnumsInScope(apiException: EnumDecl, authLevel: Option<EnumDecl>)

  function InScope(c: Config): EnumsInScope {
    EnumsInScope(ExceptionEnum(c.exceptions),
                 if c.auth.Some? then Some(AuthLevelEnum(c.auth.value.levels)) else None)
  }

  /** Positions of the built-in exceptions in `APIException`. */
  const SuccessIx: nat := 0
  const UnsupportedMethodIx: nat := 1
  const UnsupportedEndpointIx: nat := 2
  const ObjectFormatErrorIx: nat := 3
  const InternalErrorIx: nat := 4
  const UnauthorizedIx: nat := 5

  /** `APIException.values.indexOf(APIException.<built-in k>)` */
  function Code(x: EnumsInScope, k: nat): int
    requires k < 6
  {
    Ordinal(x.apiException, BuiltinLabels[k])
  }

  /** `AuthLevel.values.indexOf(AuthLevel.<l>)`. A name that is not a level
      makes the emitted Dart fail to compile; `indexOf` would give -1. */
  function LevelOrdinal(x: EnumsInScope, l: string): int {
    if x.authLevel.Some? then Ordinal(x.authLevel.value, l) else -1
  }

  function Reply(code: int, hasData: bool): seq<Action> {
    [Write(code, hasData), Close]
  }

  /** The `on APIException` / `catch` clauses around a call, or what
      follows when it returns. */
  function Complete(x: EnumsInScope, done: Completion, onReturn: seq<Action>): seq<Action> {
    match done
    case Returns => onReturn
    case ThrowsApi(k) => Reply(k, false)
    case ThrowsOther => Reply(Code(x, InternalErrorIx), false)
  }

  /** The branch ends in a call (every emitted branch does). */
  predicate HasCall(b: Branch) {
    b.call.Call?
  }

  /** The handler call and its reply. The reply with data is encoded
      outside the `try`: when that encoding fails, nothing is written and
      the response is left open. */
  function CallHandler(x: EnumsInScope, b: Branch, env: Env): seq<Action>
    requires HasCall(b)
  {
    [Invoke(b.call.receiver, b.call.member)] +
    Complete(x, env.handler,
      if b.respEncoder.Some? && !env.replyEncodes then [Escape]
      else Reply(Code(x, SuccessIx), b.respEncoder.Some?))
  }

  function RunBranch(x: EnumsInScope, b: Branch, env: Env): seq<Action>
    requires HasCall(b)
  {
    if ReadsRequest(b) && !env.bodyOk then Reply(Code(x, ObjectFormatErrorIx), false)
    else
      match b.check
      case NoCheck => CallHandler(x, b, env)
      case LevelCheck(l) =>
        [Invoke("auth", "validateToken")] +
        Complete(x, env.authCall,
          if env.tokenLevel < LevelOrdinal(x, l) then Reply(Code(x, UnauthorizedIx), false)
          else CallHandler(x, b, env))
      case CustomCheck(p) =>
        [Invoke("auth", p)] +
        Complete(x, env.authCall,
          if !env.customResult then Reply(Code(x, UnauthorizedIx), false)
          else CallHandler(x, b, env))
  }

  /** `handleRequest` on one request. */
  function Dispatch(x: EnumsInScope, bs: seq<Branch>, httpMethod: string, uri: string, env: Env): seq<Action>
    requires forall b :: b in bs ==> HasCall(b)
  {
    if httpMethod == "OPTIONS" then [Close]
    else if httpMethod != "POST" then Reply(Code(x, UnsupportedMethodIx), false)
    else
      match FindBranch(bs, uri)
      case None => Reply(Code(x, UnsupportedEndpointIx), false)
      case Some(b) => RunBranch(x, b, env)
  }

  // ---------------------------------------------------------------------
  // Properties.

  /** The response is closed exactly once, as the last action; at most one
      reply is written, right before the close; everything earlier is a
      call into a handler object. */
  predicate WellClosed(t: seq<Action>) {
    && |t| > 0
    && t[|t| - 1] == Close
    && (forall i :: 0 <= i < |t| - 1 ==> t[i] != Close)
    && (forall i :: 0 <= i < |t| && t[i].Write? ==> i == |t| - 2)
    && (forall i :: 0 <= i < |t| - 2 ==> t[i].Invoke?)
  }

  /** An exception left `handleRequest` after some handler calls: nothing
      was written and the response was never closed. */
  predicate Escaped(t: seq<Action>) {
    && |t| > 0
    && t[|t| - 1] == Escape
    && (forall i :: 0 <= i < |t| - 1 ==> t[i].Invoke?)
  }

  lemma InvokePrepend(a: Action, t: seq<Action>)
    requires a.Invoke?
    ensures WellClosed(t) ==> WellClosed([a] + t)
    ensures Escaped(t) ==> Escaped([a] + t)
  {
    var u := [a] + t;
    forall i | 1 <= i < |u| ensures u[i] == t[i - 1] { }
  }

  lemma CompleteSettled(x: EnumsInScope, done: Completion, onReturn: seq<Action>)
    requires WellClosed(onReturn) || Escaped(onReturn)
    ensures var t := Complete(x, done, onReturn);
      (WellClosed(t) || Escaped(t)) && (Escaped(t) ==> done == Returns && Escaped(onReturn))
  {
  }

  lemma CallHandlerSettled(x: EnumsInScope, b: Branch, env: Env)
    requires HasCall(b)
    ensures var t := CallHandler(x, b, env);
      && (WellClosed(t) || Escaped(t))
      && (Escaped(t) ==> env.handler == Returns && b.respEncoder.Some? && !env.replyEncodes)
      && |t| >= 2 && t[0] == Invoke(b.call.receiver, b.call.member)
  {
    var ok := if b.respEncoder.Some? && !env.replyEncodes then [Escape]
              else Reply(Code(x, SuccessIx), b.respEncoder.Some?);
    var rest := Complete(x, env.handler, ok);
    CompleteSettled(x, env.handler, ok);
    InvokePrepend(Invoke(b.call.receiver, b.call.member), rest);
    assert !Escaped(Reply(Code(x, SuccessIx), b.respEncoder.Some?));
  }

  lemma CheckedSettled(x: EnumsInScope, b: Branch, env: Env, a: Action, rejected: bool)
    requires HasCall(b) && a.Invoke?
    ensures var t := [a] + Complete(x, env.authCall,
              if rejected then Reply(Code(x, UnauthorizedIx), false) else CallHandler(x, b, env));
      && (WellClosed(t) || Escaped(t))
      && (Escaped(t) ==> env.handler == Returns && b.respEncoder.Some? && !env.replyEncodes)
  {
    var next := if rejected then Reply(Code(x, UnauthorizedIx), false) else CallHandler(x, b, env);
    CallHandlerSettled(x, b, env);
    CompleteSettled(x, env.authCall, next);
    var rest := Complete(x, env.authCall, next);
    InvokePrepend(a, rest);
    assert Escaped([a] + rest) ==> Escaped(rest) by {
      if Escaped([a] + rest) {
        assert forall i :: 0 <= i < |rest| - 1 ==> rest[i] == ([a] + rest)[i + 1];
      }
    }
  }

  /** On every request and every outcome, the emitted server either closes
      the response exactly once, after at most one reply, or lets an
      exception escape with nothing written; the second happens only when
      a handler returned data that the final `jsonEncode` rejects. */
  lemma DispatchWellClosed(x: EnumsInScope, bs: seq<Branch>, httpMethod: string, uri: string, env: Env)
    requires forall b :: b in bs ==> HasCall(b)
    ensures var t := Dispatch(x, bs, httpMethod, uri, env);
      && (WellClosed(t) || Escaped(t))
      && (Escaped(t) ==> env.handler == Returns && !env.replyEncodes)
    ensures env.replyEncodes ==> WellClosed(Dispatch(x, bs, httpMethod, uri, env))
  {
    if httpMethod == "OPTIONS" || httpMethod != "POST" {
    } else if FindBranch(bs, uri).Some? {
      var b := FindBranch(bs, uri).value;
      if ReadsRequest(b) && !env.bodyOk {
      } else {
        match b.check
        case NoCheck => CallHandlerSettled(x, b, env);
        case LevelCheck(l) =>
          CheckedSettled(x, b, env, Invoke("auth", "validateToken"), env.tokenLevel < LevelOrdinal(x, l));
        case CustomCheck(p) =>
          CheckedSettled(x, b, env, Invoke("auth", p), !env.customResult);
      }
    }
  }

  /** The response can be left open: a POST routed to an unchecked branch
      whose handler returns data that the final `jsonEncode` rejects
      calls the handler and then lets the exception escape, with no reply
      and no close. */
  lemma ReplyEncodeLeavesOpen(x: EnumsInScope, bs: seq<Branch>, uri: string, env: Env)
    requires forall b :: b in bs ==> HasCall(b)
    requires FindBranch(bs, uri).Some?
    requires var b := FindBranch(bs, uri).value;
      b.check == NoCheck && (!ReadsRequest(b) || env.bodyOk) && b.respEncoder.Some?
    requires env.handler == Returns && !env.replyEncodes
    ensures var b := FindBranch(bs, uri).value;
      Dispatch(x, bs, "POST", uri, env) == [Invoke(b.call.receiver, b.call.member), Escape]
    ensures !WellClosed(Dispatch(x, bs, "POST", uri, env))
  {
  }

  /** The built-in codes are the first six ordinals of `APIException`,
      whatever exceptions the schema declares. */
  lemma CodeIsIndex(c: Config, k: nat)
    requires k < 6
    ensures Code(InScope(c), k) == k
  {
    BuiltinOrdinals(c.exceptions, k);
  }

  /** Requests the switch never reaches: `OPTIONS` (the CORS preflight) is
      closed with no reply, any other non-POST method gets
      `UnsupportedMethod` (1), and a URI no endpoint matches gets
      `UnsupportedEndpoint` (2). None of them calls a handler. */
  lemma DispatchRejects(c: Config, bs: seq<Branch>, httpMethod: string, uri: string, env: Env)
    requires forall b :: b in bs ==> HasCall(b)
    ensures httpMethod == "OPTIONS" ==> Dispatch(InScope(c), bs, httpMethod, uri, env) == [Close]
    ensures httpMethod != "OPTIONS" && httpMethod != "POST" ==>
      Dispatch(InScope(c), bs, httpMethod, uri, env) == [Write(1, false), Close]
    ensures httpMethod == "POST" && (forall i :: 0 <= i < |bs| ==> "/" + bs[i].name != uri) ==>
      Dispatch(InScope(c), bs, httpMethod, uri, env) == [Write(2, false), Close]
  {
    CodeIsIndex(c, UnsupportedMethodIx);
    CodeIsIndex(c, UnsupportedEndpointIx);
  }

  /** A body that does not decode is answered with `ObjectFormatError` (3)
      before any authorisation or handler call. */
  lemma BadBodyRejected(c: Config, b: Branch, env: Env)
    requires HasCall(b) && ReadsRequest(b) && !env.bodyOk
    ensures RunBranch(InScope(c), b, env) == [Write(3, false), Close]
  {
    CodeIsIndex(c, ObjectFormatErrorIx);
  }

  /** A level check rejects exactly the tokens ranked below the endpoint's
      level, with `Unauthorized` (5) and without calling the handler;
      otherwise the handler is called next. */
  lemma LevelCheckDecides(c: Config, b: Branch, env: Env, l: string)
    requires HasCall(b) && b.check == LevelCheck(l)
    requires !ReadsRequest(b) || env.bodyOk
    requires env.authCall == Returns
    ensures RunBranch(InScope(c), b, env) == [Invoke("auth", "validateToken"), Write(5, false), Close] <==>
      env.tokenLevel < LevelOrdinal(InScope(c), l)
    ensures env.tokenLevel >= LevelOrdinal(InScope(c), l) ==>
      RunBranch(InScope(c), b, env) == [Invoke("auth", "validateToken")] + CallHandler(InScope(c), b, env)
  {
    CodeIsIndex(c, UnauthorizedIx);
    CallHandlerSettled(InScope(c), b, env);
    if env.tokenLevel >= LevelOrdinal(InScope(c), l) {
      var t := RunBranch(InScope(c), b, env);
      assert t[1] == CallHandler(InScope(c), b, env)[0] != Write(5, false);
    }
  }

  /** A custom check rejects exactly when the endpoint's predicate answers
      false. */
  lemma CustomCheckDecides(c: Config, b: Branch, env: Env, p: string)
    requires HasCall(b) && b.check == CustomCheck(p)
    requires !ReadsRequest(b) || env.bodyOk
    requires env.authCall == Returns
    ensures RunBranch(InScope(c), b, env) == [Invoke("auth", p), Write(5, false), Close] <==> !env.customResult
    ensures env.customResult ==>
      RunBranch(InScope(c), b, env) == [Invoke("auth", p)] + CallHandler(InScope(c), b, env)
  {
    CodeIsIndex(c, UnauthorizedIx);
    CallHandlerSettled(InScope(c), b, env);
    if env.customResult {
      var t := RunBranch(InScope(c), b, env);
      assert t[1] == CallHandler(InScope(c), b, env)[0] != Write(5, false);
    }
  }

  /** With the levels declared once, the level check compares positions:
      `levels[i]` admits tokens ranked `i + 1` or higher. */
  lemma LevelOrdinalOfDeclared(c: Config, i: nat)
    requires c.auth.Some? && Distinct(["Unauthorized"] + c.auth.value.levels)
    requires i < |c.auth.value.levels|
    ensures LevelOrdinal(InScope(c), c.auth.value.levels[i]) == i + 1
  {
    AuthLevelOrdinals(c.auth.value.levels, i);
  }

  /** How the handler call ends decides the reply: `Success` (0) with the
      data exactly when the endpoint has a response type, the thrown
      `APIException`'s own index, or `InternalError` (4) for anything else.
      Returned data that the final `jsonEncode` rejects gets no reply and
      leaves the response open. */
  lemma HandlerOutcome(c: Config, b: Branch, env: Env)
    requires HasCall(b)
    ensures env.handler == Returns && (b.respEncoder.None? || env.replyEncodes) ==>
      CallHandler(InScope(c), b, env) ==
        [Invoke(b.call.receiver, b.call.member), Write(0, b.respEncoder.Some?), Close]
    ensures env.handler == Returns && b.respEncoder.Some? && !env.replyEncodes ==>
      CallHandler(InScope(c), b, env) == [Invoke(b.call.receiver, b.call.member), Escape]
    ensures env.handler.ThrowsApi? ==>
      CallHandler(InScope(c), b, env) ==
        [Invoke(b.call.receiver, b.call.member), Write(env.handler.ordinal, false), Close]
    ensures env.handler == ThrowsOther ==>
      CallHandler(InScope(c), b, env) == [Invoke(b.call.receiver, b.call.member), Write(4, false), Close]
  {
    CodeIsIndex(c, SuccessIx);
    CodeIsIndex(c, InternalErrorIx);
  }

  /** An exception thrown by `validateToken` or a custom predicate is
      relayed like one thrown by the handler, which is then not called. */
  lemma AuthCallThrows(c: Config, b: Branch, env: Env)
    requires HasCall(b) && b.check != NoCheck && (!ReadsRequest(b) || env.bodyOk)
    ensures env.authCall == ThrowsOther ==> RunBranch(InScope(c), b, env)[1..] == [Write(4, false), Close]
    ensures env.authCall.ThrowsApi? ==>
      RunBranch(InScope(c), b, env)[1..] == [Write(env.authCall.ordinal, false), Close]
  {
    CodeIsIndex(c, InternalErrorIx);
  }

  /** An emitted branch reads the body exactly when its endpoint has a
      request type, an auth level or a forwarded token. */
  lemma BranchReadsBody(c: Config, name: string, e: Endpoint, fuel: nat)
    requires EmitBranch(c, name, e, fuel).Ok?
    ensures ReadsRequest(EmitBranch(c, name, e, fuel).value) <==> ReadsBody(e)
  {
  }

  /** Routing: with endpoint names declared once, the request for
      `/<name>` runs the branch emitted for that endpoint. */
  lemma RoutesToOwnBranch(c: Config, fuel: nat, n: string)
    requires GenerateServer(c, fuel).Ok?
    requires Distinct(Keys(EndpointsWithAuthorize(c)))
    requires Lookup(EndpointsWithAuthorize(c), n).Some?
    ensures FindBranch(GenerateServer(c, fuel).value.branches, "/" + n) ==
      Some(EmitBranch(c, n, Lookup(EndpointsWithAuthorize(c), n).value, fuel).value)
  {
    var eps := EndpointsWithAuthorize(c);
    var bs := GenerateServer(c, fuel).value.branches;
    assert bs == Branches(c, eps, fuel).value;
    var k := IndexOf(Keys(eps), n);
    FindDistinctName(bs, Keys(eps), k);
  }

  /** Branches named by distinct keys: each key's URI finds its own branch. */
  lemma FindDistinctName(bs: seq<Branch>, names: seq<string>, k: nat)
    requires |bs| == |names| && Distinct(names) && k < |names|
    requires forall i :: 0 <= i < |bs| ==> bs[i].name == names[i]
    ensures FindBranch(bs, "/" + names[k]) == Some(bs[k])
  {
    var r := FindBranch(bs, "/" + names[k]);
    assert "/" + bs[k].name == "/" + names[k];
    var i :| 0 <= i < |bs| && bs[i] == r.value && "/" + bs[i].name == "/" + names[k] &&
             forall j :: 0 <= j < i ==> "/" + bs[j].name != "/" + names[k];
    assert bs[i].name == ("/" + bs[i].name)[1..] == ("/" + names[k])[1..] == names[k];
  }

  /** Every call a branch makes is declared: `handler.<name>` in
      `APIHandler` with as many parameters as arguments; `auth.<name>` and
      the custom predicates in `AuthHandler`; `_authorize` calls
      `generateToken`. */
  lemma BranchCallsDeclared(c: Config, fuel: nat, i: nat)
    requires c.auth.Some? && Distinct(Keys(EndpointsWithAuthorize(c)))
    requires GenerateServer(c, fuel).Ok?
    requires i < |GenerateServer(c, fuel).value.branches|
    ensures var s := GenerateServer(c, fuel).value;
      CallsDeclared(s.api, s.authHandler.value, s.branches[i])
  {
    var s := GenerateServer(c, fuel).value;
    var eps := EndpointsWithAuthorize(c);
    assert s.api == ApiHandler(c, c.endpoints).value;
    assert s.authHandler == Some(AuthHandler(c.auth.value, c.endpoints));
    assert s.branches[i] == EmitBranch(c, eps[i].0, eps[i].1, fuel).value;
    EndpointCallsDeclared(c, c.auth.value, eps, i, fuel, s.api);
  }

  /** The calls of a branch are declared in the interfaces. */
  predicate CallsDeclared(api: seq<Signature>, hs: seq<Signature>, b: Branch) {
    && b.call.Call?
    && (b.call.receiver == "handler" ==>
          exists sig :: sig in api && sig.member == b.call.member && |sig.params| == |b.call.args|)
    && (b.call.receiver == "auth" ==>
          exists sig :: sig in hs && sig.member == b.call.member && |sig.params| == |b.call.args|)
    && (b.check.CustomCheck? ==>
          exists sig :: sig in hs && sig.member == b.check.guard && sig.resultType == "bool")
  }

  lemma EndpointCallsDeclared(c: Config, a: Auth, eps: Dict<string, Endpoint>, i: nat, fuel: nat,
                              api: seq<Signature>)
    requires c.auth == Some(a) && eps == EndpointsWithAuthorize(c) && Distinct(Keys(eps)) && i < |eps|
    requires ApiHandler(c, c.endpoints) == Ok(api)
    requires EmitBranch(c, eps[i].0, eps[i].1, fuel).Ok?
    ensures CallsDeclared(api, AuthHandler(a, c.endpoints), EmitBranch(c, eps[i].0, eps[i].1, fuel).value)
  {
    var (n, e) := eps[i];
    if n == "_authorize" {
      AuthorizeCallDeclared(c, a, eps, i, fuel, api);
    } else {
      DeclaredEndpoint(c, eps, i, n, e);
      var j := IndexOf(Keys(c.endpoints), n);
      OwnCallDeclared(c, a, j, fuel, api);
    }
  }

  /** `_authorize` calls `auth.generateToken(credentials)`. */
  lemma AuthorizeCallDeclared(c: Config, a: Auth, eps: Dict<string, Endpoint>, i: nat, fuel: nat,
                              api: seq<Signature>)
    requires c.auth == Some(a) && eps == EndpointsWithAuthorize(c) && Distinct(Keys(eps)) && i < |eps|
    requires eps[i].0 == "_authorize"
    requires EmitBranch(c, eps[i].0, eps[i].1, fuel).Ok?
    ensures CallsDeclared(api, AuthHandler(a, c.endpoints), EmitBranch(c, eps[i].0, eps[i].1, fuel).value)
  {
    var b := EmitBranch(c, eps[i].0, eps[i].1, fuel).value;
    assert Lookup(eps, "_authorize") == Some(AuthorizeEndpoint(a));
    assert "_authorize" !in Keys(eps)[..i];
    IndexOfAt(Keys(eps), "_authorize", i);
    assert eps[i].1 == AuthorizeEndpoint(a);
    assert AuthHandler(a, c.endpoints)[0].member == "generateToken" && |b.call.args| == 1;
  }

  /** A declared endpoint's call and predicate are in the interfaces. */
  lemma OwnCallDeclared(c: Config, a: Auth, j: nat, fuel: nat, api: seq<Signature>)
    requires c.auth == Some(a) && j < |c.endpoints| && c.endpoints[j].0 != "_authorize"
    requires ApiHandler(c, c.endpoints) == Ok(api)
    requires EmitBranch(c, c.endpoints[j].0, c.endpoints[j].1, fuel).Ok?
    ensures CallsDeclared(api, AuthHandler(a, c.endpoints),
                          EmitBranch(c, c.endpoints[j].0, c.endpoints[j].1, fuel).value)
  {
    var (n, e) := c.endpoints[j];
    var b := EmitBranch(c, n, e, fuel).value;
    var hs := AuthHandler(a, c.endpoints);
    var ms := AuthMembers(a, n, e);
    assert forall sig :: sig in ms ==> sig in hs;
    if b.call.receiver == "handler" {
      assert HandlerSignature(c, n, e).value in api;
    } else {
      assert Signature(OutType(e), n, HandlerParams(a.output, e)) in ms;
    }
    if b.check.CustomCheck? {
      assert PredicateSignature(a, n, e) in ms;
    }
  }

  /** An endpoint of the switch other than `_authorize` is a declared one. */
  lemma DeclaredEndpoint(c: Config, eps: Dict<string, Endpoint>, i: nat, n: string, e: Endpoint)
    requires eps == EndpointsWithAuthorize(c) && Distinct(Keys(eps))
    requires i < |eps| && eps[i] == (n, e) && n != "_authorize"
    ensures 0 <= IndexOf(Keys(c.endpoints), n) && c.endpoints[IndexOf(Keys(c.endpoints), n)] == (n, e)
  {
    assert n !in Keys(eps)[..i];
    IndexOfAt(Keys(eps), n, i);
    assert Lookup(eps, n) == Some(e);
  }
}
