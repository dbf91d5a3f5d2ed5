/** `generate_base` (generate.py:173-260) and `generate`
    (generate.py:472-493): the declarations every target shares, and the
    choice of target.
 */
module Generate {
  import opened Errors
  import opened PyDict
  import opened Schema
  import opened Enums
  import opened Classes
  import Server
  import Client

  /** What `generate_base` emits that the model tracks: `AuthLevel` with
      `auth`, the user enums, the classes, and `APIException`. */
  datatype BaseDecls = BaseDecls(
    authLevel: Option<EnumDecl>,
    enums: seq<EnumDecl>,
    classes: seq<ClassDecl>,
    apiException: EnumDecl)

  /** The user enums in declaration order, each value its own wire string. */
  function UserEnums(es: Dict<string, seq<string>>): (r: seq<EnumDecl>)
    ensures |r| == |es|
    ensures forall i :: 0 <= i < |es| ==> r[i] == UserEnum(es[i].0, es[i].1)
  {
    seq(|es|, i requires 0 <= i < |es| => UserEnum(es[i].0, es[i].1))
  }

  /** The classes in declaration order; the first class that fails aborts. */
  function EmitClasses(c: Config, cs: Dict<string, Dict<string, string>>, fuel: nat): (r: Result<seq<ClassDecl>>)
    ensures r.Ok? <==> forall i :: 0 <= i < |cs| ==> EmitClass(c, cs[i].0, cs[i].1, fuel).Ok?
    ensures r.Ok? ==> (|r.value| == |cs| &&
      forall i :: 0 <= i < |cs| ==> r.value[i] == EmitClass(c, cs[i].0, cs[i].1, fuel).value)
    ensures r.Err? ==>
      exists i :: 0 <= i < |cs| && EmitClass(c, cs[i].0, cs[i].1, fuel) == Err(r.error) &&
                  forall j :: 0 <= j < i ==> EmitClass(c, cs[j].0, cs[j].1, fuel).Ok?
  {
    if |cs| == 0 then Ok([])
    else
      var d0 := EmitClass(c, cs[0].0, cs[0].1, fuel);
      if d0.Err? then Err(d0.error)
      else
        var rest := EmitClasses(c, cs[1..], fuel);
        assert forall i :: 1 <= i < |cs| ==> cs[1..][i - 1] == cs[i];
        if rest.Err? then Err(rest.error)
        else Ok([d0.value] + rest.value)
  }

  /** `generate_base`. */
  function GenerateBase(c: Config, fuel: nat): Result<BaseDecls> {
    var classes :- EmitClasses(c, c.classes, fuel);
    Ok(BaseDecls(
      if c.auth.Some? then Some(AuthLevelEnum(c.auth.value.levels)) else None,
      UserEnums(c.enums),
      classes,
      ExceptionEnum(c.exceptions)))
  }

  /** One generated Dart file. */
  datatype Output = Output(
    base: BaseDecls,
    server: Option<Server.ServerDecl>,
    client: Option<Client.ClientDecl>)

  /** `generate(target, ...)` after the schema is loaded: the shared part,
      then the server (`server`), the client (`frontend`) or both in that
      order (`thaum`). Any other target is rejected after the shared part
      is generated. The first part that fails is the error
      (`GenerateErrors`). */
  function Generate(c: Config, target: string, fuel: nat): (r: Result<Output>)
    ensures r.Ok? ==> target in ["server", "frontend", "thaum"]
    ensures GenerateBase(c, fuel).Ok? && target !in ["server", "frontend", "thaum"] ==>
      r == Err(ValueError("Unsupported target!"))
    ensures r.Ok? ==> (r.value.server.Some? <==> target != "frontend")
    ensures r.Ok? ==> (r.value.client.Some? <==> target != "server")
  {
    var base :- GenerateBase(c, fuel);
    if target == "server" then
      var s :- Server.GenerateServer(c, fuel);
      Ok(Output(base, Some(s), None))
    else if target == "frontend" then
      var f :- Client.GenerateFrontend(c, fuel);
      Ok(Output(base, None, Some(f)))
    else if target == "thaum" then
      var s :- Server.GenerateServer(c, fuel);
      // generate_server has already added `_authorize` to config['endpoints']
      var f :- Client.FrontendOver(c, EndpointsWithAuthorize(c), fuel);
      Ok(Output(base, Some(s), Some(f)))
    else Err(ValueError("Unsupported target!"))
  }

  /** `generate` succeeds exactly when the shared part and every part the
      target asks for do. */
  lemma GenerateSucceeds(c: Config, target: string, fuel: nat)
    ensures Generate(c, target, fuel).Ok? <==>
      && GenerateBase(c, fuel).Ok?
      && target in ["server", "frontend", "thaum"]
      && (target != "frontend" ==> Server.GenerateServer(c, fuel).Ok?)
      && (target == "frontend" ==> Client.GenerateFrontend(c, fuel).Ok?)
      && (target == "thaum" ==> Client.FrontendOver(c, EndpointsWithAuthorize(c), fuel).Ok?)
  {
    TargetParts(c, target, fuel);
  }

  /** The file holds exactly the parts the target asks for, each as its
      own generator produces it. */
  lemma GenerateParts(c: Config, target: string, fuel: nat)
    requires Generate(c, target, fuel).Ok?
    ensures var o := Generate(c, target, fuel).value;
      && o.base == GenerateBase(c, fuel).value
      && (target != "frontend" ==> o.server == Some(Server.GenerateServer(c, fuel).value))
      && (target == "frontend" ==> o.client == Some(Client.GenerateFrontend(c, fuel).value))
      && (target == "thaum" ==> o.client == Some(Client.FrontendOver(c, EndpointsWithAuthorize(c), fuel).value))
  {
    TargetParts(c, target, fuel);
  }

  /** What `generate` returns, target by target. */
  lemma TargetParts(c: Config, target: string, fuel: nat)
    ensures var r := Generate(c, target, fuel);
      var b := GenerateBase(c, fuel);
      var s := Server.GenerateServer(c, fuel);
      var f := Client.GenerateFrontend(c, fuel);
      var g := Client.FrontendOver(c, EndpointsWithAuthorize(c), fuel);
      && (target == "server" ==>
            (r.Ok? <==> b.Ok? && s.Ok?) && (r.Ok? ==> r.value == Output(b.value, Some(s.value), None)))
      && (target == "frontend" ==>
            (r.Ok? <==> b.Ok? && f.Ok?) && (r.Ok? ==> r.value == Output(b.value, None, Some(f.value))))
      && (target == "thaum" ==>
            (r.Ok? <==> b.Ok? && s.Ok? && g.Ok?) && (r.Ok? ==> r.value == Output(b.value, Some(s.value), Some(g.value))))
      && (target !in ["server", "frontend", "thaum"] ==> r.Err?)
  {
  }

  /** The first failing step is the error: the shared part, then the
      target test, then the server, then the client. */
  lemma GenerateErrors(c: Config, target: string, fuel: nat)
    ensures GenerateBase(c, fuel).Err? ==> Generate(c, target, fuel) == Err(GenerateBase(c, fuel).error)
    ensures GenerateBase(c, fuel).Ok? && target in ["server", "thaum"] && Server.GenerateServer(c, fuel).Err? ==>
      Generate(c, target, fuel) == Err(Server.GenerateServer(c, fuel).error)
    ensures GenerateBase(c, fuel).Ok? && target == "frontend" && Client.GenerateFrontend(c, fuel).Err? ==>
      Generate(c, target, fuel) == Err(Client.GenerateFrontend(c, fuel).error)
    ensures var f := Client.FrontendOver(c, EndpointsWithAuthorize(c), fuel);
      GenerateBase(c, fuel).Ok? && target == "thaum" && Server.GenerateServer(c, fuel).Ok? && f.Err? ==>
        Generate(c, target, fuel) == Err(f.error)
  {
  }

  /** Every class is generated exactly when all its field types decode, and
      the run fails with the first class that does not. */
  lemma BaseIffClassesDecode(c: Config, fuel: nat)
    ensures GenerateBase(c, fuel).Ok? <==>
      forall i, j :: 0 <= i < |c.classes| && 0 <= j < |c.classes[i].1| ==>
        Synth.FromJson(c, c.classes[i].1[j].1, JsonField(c.classes[i].1[j].0), fuel).Ok?
  {
    forall i | 0 <= i < |c.classes| {
      EmitClassIffDecodable(c, c.classes[i].0, c.classes[i].1, fuel);
    }
  }

  /** `thaum` generates the same server and client as `server` and
      `frontend` do alone, although its client is generated from the schema
      the server left behind: adding `_authorize` twice is adding it once. */
  lemma ThaumIsBoth(c: Config, fuel: nat)
    requires Generate(c, "thaum", fuel).Ok?
    ensures Generate(c, "server", fuel).Ok? && Generate(c, "frontend", fuel).Ok?
    ensures Generate(c, "thaum", fuel).value.server == Generate(c, "server", fuel).value.server
    ensures Generate(c, "thaum", fuel).value.client == Generate(c, "frontend", fuel).value.client
  {
    WithAuthorizeTwice(c.auth, c.endpoints);
  }

  /** The enums the emitted `handleRequest` refers to: those `generate_base`
      wrote into the same file. */
  function ServerScope(o: Output): Server.EnumsInScope {
    Server.EnumsInScope(o.base.apiException, o.base.authLevel)
  }

  lemma GenerateBaseFirst(c: Config, target: string, fuel: nat)
    requires Generate(c, target, fuel).Ok?
    ensures GenerateBase(c, fuel).Ok? && Generate(c, target, fuel).value.base == GenerateBase(c, fuel).value
  {
  }

  /** Whatever the target, the file declares one `APIException`, the enum
      the client decodes reply codes with, and the server switch that reads
      it answers the built-ins with codes 0 to 5; with `auth`, the file
      declares `AuthLevel`, and the switch ranks the i-th declared level
      `i + 1`. */
  lemma SharedExceptionEnum(c: Config, target: string, fuel: nat)
    requires Generate(c, target, fuel).Ok?
    ensures var o := Generate(c, target, fuel).value;
      o.base.apiException == ExceptionEnum(c.exceptions) && ServerScope(o) == Server.InScope(c)
    ensures var o := Generate(c, target, fuel).value;
      forall k: nat :: k < 6 ==>
        Server.Code(ServerScope(o), k) == k && o.base.apiException.labels[k] == BuiltinLabels[k]
    ensures var o := Generate(c, target, fuel).value;
      o.base.authLevel.Some? <==> c.auth.Some?
    ensures var o := Generate(c, target, fuel).value;
      c.auth.Some? && Distinct(["Unauthorized"] + c.auth.value.levels) ==>
        forall i :: 0 <= i < |c.auth.value.levels| ==>
          Server.LevelOrdinal(ServerScope(o), c.auth.value.levels[i]) == i + 1
  {
    GenerateBaseFirst(c, target, fuel);
    var o := Generate(c, target, fuel).value;
    assert ServerScope(o) == Server.InScope(c);
    forall k: nat | k < 6
      ensures Server.Code(ServerScope(o), k) == k && o.base.apiException.labels[k] == BuiltinLabels[k]
    {
      Server.CodeIsIndex(c, k);
    }
    if c.auth.Some? && Distinct(["Unauthorized"] + c.auth.value.levels) {
      forall i | 0 <= i < |c.auth.value.levels|
        ensures Server.LevelOrdinal(ServerScope(o), c.auth.value.levels[i]) == i + 1
      {
        Server.LevelOrdinalOfDeclared(c, i);
      }
    }
  }
}
