/** `generate_frontend` (generate.py:414-470): the `API` class with one
    static stub per endpoint, the error hook, and the token session; and
    what a stub does when it is called.

    A stub's behaviour is modelled as a trace of events: the POST it sends,
    the error hook it calls, the exception it throws or the value it
    returns. The network and the server's answer are a parameter
    (`Answer`).
 */
module Client {
  import opened Errors
  import opened PyDict
  import opened Schema
  import opened DartExpr
  import opened Synth
  import opened Enums
  import Server

  /** The JSON body a stub posts: `'data'` when the endpoint has a request
      type, `'token'` when it needs the token. */
  datatype Body = Body(data: Option<Expr>, token: Option<Expr>)

  /** `static Future<out> name([in request])`. */
  datatype Stub = Stub(
    name: string,
    resultType: string,          // the `out` type, or `void`
    param: Option<string>,       // the `in` type
    path: string,                // '/name'
    body: Option<Body>,          // absent: a bare POST
    decoder: Option<Expr>)       // decoding of res['data']

  /** `request`, the stub's parameter. */
  const RequestVar: Expr := Var("request")

  /** `_token!`, the stored token. */
  const StoredToken: Expr := NotNull(Var("_token"))

  /** `res['data']` */
  const ResponseData: Expr := Index(Var("res"), "data")

  /** One stub. generate.py fails at the first of: an unencodable request
      type, the token type without `auth`, an unencodable token type, an
      undecodable response type. */
  function EmitStub(c: Config, name: string, e: Endpoint, fuel: nat): (r: Result<Stub>)
    ensures r.Ok? <==>
      && (e.input.Some? ==> ToJson(c, e.input.value, RequestVar, fuel).Ok?)
      && (NeedsToken(e) ==> c.auth.Some? && ToJson(c, c.auth.value.output, StoredToken, fuel).Ok?)
      && (e.output.Some? ==> FromJson(c, e.output.value, ResponseData, fuel).Ok?)
    ensures r.Err? ==>
      if e.input.Some? && ToJson(c, e.input.value, RequestVar, fuel).Err? then
        r == Err(ToJson(c, e.input.value, RequestVar, fuel).error)
      else if NeedsToken(e) && c.auth.None? then r.error == KeyError("auth")
      else if NeedsToken(e) && ToJson(c, c.auth.value.output, StoredToken, fuel).Err? then
        r == Err(ToJson(c, c.auth.value.output, StoredToken, fuel).error)
      else r == Err(FromJson(c, e.output.value, ResponseData, fuel).error)
    ensures r.Ok? ==>
      && r.value.name == name
      && r.value.path == "/" + name
      && r.value.resultType == Server.OutType(e)
      && r.value.param == e.input
      && (r.value.body.Some? <==> ReadsBody(e))
      && (r.value.body.Some? ==>
            && r.value.body.value.data ==
                 (if e.input.Some? then Some(ToJson(c, e.input.value, RequestVar, fuel).value) else None)
            && r.value.body.value.token ==
                 (if NeedsToken(e) then Some(ToJson(c, c.auth.value.output, StoredToken, fuel).value) else None))
      && r.value.decoder ==
           (if e.output.Some? then Some(FromJson(c, e.output.value, ResponseData, fuel).value) else None)
  {
    var data :- if e.input.Some? then
                  var d :- ToJson(c, e.input.value, RequestVar, fuel); Ok(Some(d))
                else Ok(None);
    var token :- if !NeedsToken(e) then Ok(None)
                 else if c.auth.None? then Err(KeyError("auth"))
                 else
                   var t :- ToJson(c, c.auth.value.output, StoredToken, fuel); Ok(Some(t));
    var dec :- if e.output.Some? then
                 var d :- FromJson(c, e.output.value, ResponseData, fuel); Ok(Some(d))
               else Ok(None);
    Ok(Stub(name, Server.OutType(e), e.input, "/" + name,
            if ReadsBody(e) then Some(Body(data, token)) else None, dec))
  }

  /** The stubs in endpoint order; the first failing endpoint aborts. */
  function Stubs(c: Config, eps: Dict<string, Endpoint>, fuel: nat): (r: Result<seq<Stub>>)
    ensures r.Ok? <==> forall i :: 0 <= i < |eps| ==> EmitStub(c, eps[i].0, eps[i].1, fuel).Ok?
    ensures r.Ok? ==> (|r.value| == |eps| &&
      forall i :: 0 <= i < |eps| ==> r.value[i] == EmitStub(c, eps[i].0, eps[i].1, fuel).value)
    ensures r.Err? ==>
      exists i :: 0 <= i < |eps| && EmitStub(c, eps[i].0, eps[i].1, fuel) == Err(r.error) &&
                  forall j :: 0 <= j < i ==> EmitStub(c, eps[j].0, eps[j].1, fuel).Ok?
  {
    if |eps| == 0 then Ok([])
    else
      var s0 := EmitStub(c, eps[0].0, eps[0].1, fuel);
      if s0.Err? then Err(s0.error)
      else
        var rest := Stubs(c, eps[1..], fuel);
        assert forall i :: 1 <= i < |eps| ==> eps[1..][i - 1] == eps[i];
        if rest.Err? then Err(rest.error)
        else Ok([s0.value] + rest.value)
  }

  /** The `API` class: the scheme of every URL, the token session (its
      token type, with `auth`), and the stubs. */
  datatype ClientDecl = ClientDecl(https: bool, host: string, session: Option<string>, stubs: seq<Stub>)

  /** `generate_frontend`: the stubs cover the endpoints after `_authorize`
      is added. */
  function GenerateFrontend(c: Config, fuel: nat): Result<ClientDecl> {
    FrontendOver(c, c.endpoints, fuel)
  }

  /** `generate_frontend` run when `config['endpoints']` is `eps`. */
  function FrontendOver(c: Config, eps: Dict<string, Endpoint>, fuel: nat): Result<ClientDecl> {
    var stubs :- Stubs(c, WithAuthorize(c.auth, eps), fuel);
    Ok(ClientDecl(c.useHttps, c.apiUrl,
                  if c.auth.Some? then Some(c.auth.value.output) else None, stubs))
  }

  // ---------------------------------------------------------------------
  // What a stub does.

  /** What the network and the server decide about one call: whether the
      POST, `jsonDecode` and `res['code'] as int` all succeed, the code,
      and whether `res['data']` decodes. */
  datatype Answer = Answer(transportOk: bool, code: int, decodeOk: bool)

  datatype Event =
    | Send(path: string, hasData: bool, hasToken: bool)
    | Hook(code: int)             // onError?.call(APIException.values[code])
    | Raise(code: int)            // throw APIException.values[code]
    | RangeFault                  // APIException.values[code] out of range
    | Return(decoded: bool)       // returns (the decoded response, or nothing)

  /** `_error(e)`: the hook, when one is set, then the throw. */
  function Fail(hookSet: bool, k: int): seq<Event> {
    (if hookSet then [Hook(k)] else []) + [Raise(k)]
  }

  /** A stub call with the session's token present or not. The `_token!`
      inside the body throws before anything is sent. */
  function CallStub(ex: EnumDecl, st: Stub, tokenSet: bool, hookSet: bool, ans: Answer): seq<Event> {
    var internal := Ordinal(ex, BuiltinLabels[Server.InternalErrorIx]);
    var needsToken := st.body.Some? && st.body.value.token.Some?;
    if needsToken && !tokenSet then Fail(hookSet, internal)
    else
      [Send(st.path, st.body.Some? && st.body.value.data.Some?, needsToken)] +
      if !ans.transportOk then Fail(hookSet, internal)
      else if !(0 <= ans.code < |ex.labels|) then [RangeFault]
      else if ex.labels[ans.code] != BuiltinLabels[Server.SuccessIx] then Fail(hookSet, ans.code)
      else if st.decoder.None? then [Return(false)]
      else if !ans.decodeOk then Fail(hookSet, internal)
      else [Return(true)]
  }

  /** The session: `authorize` stores the token `_authorize` returns and
      keeps the old one when it throws; `clearToken` drops it. */
  function Authorize(ex: EnumDecl, authorizeStub: Stub, tokenSet: bool, hookSet: bool, ans: Answer): (r: (seq<Event>, bool))
    ensures r.0 == CallStub(ex, authorizeStub, tokenSet, hookSet, ans)
    ensures r.1 <==> tokenSet || Return(true) in r.0
  {
    var t := CallStub(ex, authorizeStub, tokenSet, hookSet, ans);
    (t, tokenSet || t[|t| - 1] == Return(true))
  }

  function ClearToken(tokenSet: bool): bool {
    false
  }

  // ---------------------------------------------------------------------
  // Properties.

  /** A call sends at most once and first; it ends with a throw, a range
      fault or a return; the hook fires at most once, right before the
      throw, with the same exception. */
  predicate WellEnded(t: seq<Event>) {
    && |t| > 0
    && (t[|t| - 1].Raise? || t[|t| - 1].RangeFault? || t[|t| - 1].Return?)
    && (forall i :: 0 <= i < |t| && t[i].Send? ==> i == 0)
    && (forall i :: 0 <= i < |t| && t[i].Hook? ==> i == |t| - 2 && t[|t| - 1] == Raise(t[i].code))
    && (forall i :: 0 <= i < |t| - 1 ==> !t[i].Raise? && !t[i].RangeFault? && !t[i].Return?)
  }

  lemma FailWellEnded(hookSet: bool, k: int)
    ensures WellEnded(Fail(hookSet, k)) && !Fail(hookSet, k)[0].Send?
  {
  }

  lemma SendPrepend(s: Event, t: seq<Event>)
    requires s.Send? && WellEnded(t) && !t[0].Send?
    ensures WellEnded([s] + t)
  {
    var u := [s] + t;
    forall i | 1 <= i < |u| ensures u[i] == t[i - 1] { }
  }

  lemma CallStubWellEnded(ex: EnumDecl, st: Stub, tokenSet: bool, hookSet: bool, ans: Answer)
    ensures WellEnded(CallStub(ex, st, tokenSet, hookSet, ans))
  {
    var internal := Ordinal(ex, BuiltinLabels[Server.InternalErrorIx]);
    var needsToken := st.body.Some? && st.body.value.token.Some?;
    FailWellEnded(hookSet, internal);
    if needsToken && !tokenSet {
    } else {
      var s := Send(st.path, st.body.Some? && st.body.value.data.Some?, needsToken);
      var rest := CallStub(ex, st, tokenSet, hookSet, ans)[1..];
      assert CallStub(ex, st, tokenSet, hookSet, ans) == [s] + rest;
      if ans.transportOk && 0 <= ans.code < |ex.labels| {
        FailWellEnded(hookSet, ans.code);
      }
      SendPrepend(s, rest);
    }
  }

  /** The `APIException` enum's labels are distinct, so the test
      `values[code] != Success` is the test `code != 0`. */
  lemma SuccessIsCodeZero(declared: seq<string>, code: int)
    requires 0 <= code < |ExceptionEnum(declared).labels|
    ensures ExceptionEnum(declared).labels[code] == BuiltinLabels[Server.SuccessIx] <==> code == 0
  {
    var ex := ExceptionEnum(declared);
    assert Distinct(ex.labels);
    BuiltinOrdinals(declared, Server.SuccessIx);
  }

  /** How a sent call ends: a failed transport or an undecodable response
      is `InternalError` (4); a code outside the enum is a range fault with
      no hook; any other non-zero code is relayed as that exception;
      `Success` (0) returns, decoding the data exactly when the endpoint
      has a response type. The hook fires exactly on the throws. This holds
      for every call that gets to send: one that needs no token, or one
      made while the session holds it. */
  lemma CallOutcome(declared: seq<string>, st: Stub, tokenSet: bool, hookSet: bool, ans: Answer)
    requires tokenSet || st.body.None? || st.body.value.token.None?
    ensures var t := CallStub(ExceptionEnum(declared), st, tokenSet, hookSet, ans);
      var ok := ans.transportOk && 0 <= ans.code < |ExceptionEnum(declared).labels|;
      && t[0] == Send(st.path, st.body.Some? && st.body.value.data.Some?,
                      st.body.Some? && st.body.value.token.Some?)
      && (!ans.transportOk ==> t[1..] == Fail(hookSet, 4))
      && (ans.transportOk && !(0 <= ans.code < |ExceptionEnum(declared).labels|) ==> t[1..] == [RangeFault])
      && (ok && ans.code != 0 ==> t[1..] == Fail(hookSet, ans.code))
      && (ok && ans.code == 0 && st.decoder.None? ==> t[1..] == [Return(false)])
      && (ok && ans.code == 0 && st.decoder.Some? ==>
            t[1..] == if ans.decodeOk then [Return(true)] else Fail(hookSet, 4))
  {
    BuiltinOrdinals(declared, Server.InternalErrorIx);
    if 0 <= ans.code < |ExceptionEnum(declared).labels| {
      SuccessIsCodeZero(declared, ans.code);
    }
  }

  /** Without a token, a stub that sends one throws `InternalError` (4)
      and sends nothing. */
  lemma MissingTokenFails(declared: seq<string>, st: Stub, hookSet: bool, ans: Answer)
    requires st.body.Some? && st.body.value.token.Some?
    ensures CallStub(ExceptionEnum(declared), st, false, hookSet, ans) == Fail(hookSet, 4)
  {
    BuiltinOrdinals(declared, Server.InternalErrorIx);
  }

  /** The session: after `clearToken` every token-sending stub fails before
      sending; after an `authorize` that returned, every stub sends. A
      failed `authorize` keeps whatever token there was. */
  lemma SessionLaws(ex: EnumDecl, authorizeStub: Stub, st: Stub, tokenSet: bool, hookSet: bool,
                    a1: Answer, a2: Answer)
    ensures var t := CallStub(ex, st, ClearToken(tokenSet), hookSet, a2);
      st.body.Some? && st.body.value.token.Some? ==> forall i :: 0 <= i < |t| ==> !t[i].Send?
    ensures var (t, now) := Authorize(ex, authorizeStub, tokenSet, hookSet, a1);
      Return(true) in t ==> CallStub(ex, st, now, hookSet, a2)[0].Send?
    ensures var (t, now) := Authorize(ex, authorizeStub, tokenSet, hookSet, a1);
      Return(true) !in t ==> now == tokenSet
  {
  }

  /** `_authorize` needs no token: `authorize` works on an empty session. */
  lemma AuthorizeNeedsNoToken(c: Config, fuel: nat)
    requires c.auth.Some?
    requires EmitStub(c, "_authorize", AuthorizeEndpoint(c.auth.value), fuel).Ok?
    ensures var st := EmitStub(c, "_authorize", AuthorizeEndpoint(c.auth.value), fuel).value;
      st.body.Some? && st.body.value.data.Some? && st.body.value.token.None? && st.decoder.Some?
  {
  }

  /** Client and server agree: with both generated and endpoint names
      declared once, the i-th stub posts to the URI that selects the
      server's branch for the same endpoint, sends `data` exactly when
      that branch decodes `reqData`, sends `token` exactly when it reads
      one, and decodes `data` exactly when the branch replies with it. */
  lemma StubMatchesBranch(c: Config, fuel: nat, i: nat)
    requires GenerateFrontend(c, fuel).Ok? && Server.GenerateServer(c, fuel).Ok?
    requires Distinct(Keys(EndpointsWithAuthorize(c)))
    requires i < |EndpointsWithAuthorize(c)|
    ensures var st := GenerateFrontend(c, fuel).value.stubs[i];
      var bs := Server.GenerateServer(c, fuel).value.branches;
      && Server.FindBranch(bs, st.path) == Some(bs[i])
      && (st.body.Some? <==> Server.ReadsRequest(bs[i]))
      && (st.body.Some? ==>
            (st.body.value.data.Some? <==> bs[i].reqDecoder.Some?) &&
            (st.body.value.token.Some? <==> bs[i].readsToken))
      && (st.decoder.Some? <==> bs[i].respEncoder.Some?)
  {
    var eps := EndpointsWithAuthorize(c);
    var stubs := GenerateFrontend(c, fuel).value.stubs;
    var bs := Server.GenerateServer(c, fuel).value.branches;
    assert stubs == Stubs(c, eps, fuel).value;
    assert bs == Server.Branches(c, eps, fuel).value;
    var st := EmitStub(c, eps[i].0, eps[i].1, fuel).value;
    var b := Server.EmitBranch(c, eps[i].0, eps[i].1, fuel).value;
    assert stubs[i] == st && bs[i] == b;
    assert st.body.Some? <==> Server.ReadsRequest(b);
    Server.FindDistinctName(bs, Keys(eps), i);
  }

  /** The i-th stub and the i-th branch convert the same endpoint's types:
      the stub encodes `in` as `request` where the branch decodes `in` from
      `reqBody['data']`, and the branch encodes `out` from the handler's
      result where the stub decodes `out` from `res['data']`. */
  lemma StubBranchConversions(c: Config, fuel: nat, i: nat)
    requires GenerateFrontend(c, fuel).Ok? && Server.GenerateServer(c, fuel).Ok?
    requires i < |EndpointsWithAuthorize(c)|
    ensures var st := GenerateFrontend(c, fuel).value.stubs[i];
      var b := Server.GenerateServer(c, fuel).value.branches[i];
      var e := EndpointsWithAuthorize(c)[i].1;
      && st.param == e.input
      && (e.input.Some? ==>
            && st.body.Some?
            && st.body.value.data == Some(ToJson(c, e.input.value, RequestVar, fuel).value)
            && b.reqDecoder == Some(FromJson(c, e.input.value, Server.RequestData, fuel).value))
      && (e.output.Some? ==>
            && st.decoder == Some(FromJson(c, e.output.value, ResponseData, fuel).value)
            && b.respEncoder == Some(ToJson(c, e.output.value, b.call, fuel).value))
  {
    var eps := EndpointsWithAuthorize(c);
    assert GenerateFrontend(c, fuel).value.stubs == Stubs(c, eps, fuel).value;
    assert Server.GenerateServer(c, fuel).value.branches == Server.Branches(c, eps, fuel).value;
  }
}
