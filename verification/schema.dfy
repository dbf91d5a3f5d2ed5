/** The loaded schema (the YAML configuration), as one immutable record.

    generate.py keeps this in module globals (`config`, `enums`, `classes`,
    `typedefs`, `USE_HTTPS`, `API_URL`); here every operation takes the
    record explicitly. Dict-valued entries keep the YAML declaration order.
 */
module Schema {
  import opened Errors
  import opened PyDict

  /** `config['auth']`: the ordered privilege levels (lowest first, after the
      implicit `Unauthorized`), the credential type and the token type. */
  datatype Auth = Auth(levels: seq<string>, input: string, output: string)

  /** One entry of `config['endpoints']`. Absent keys are `None`/`false`;
      `handledBy` is already defaulted to "main" (generate.py:265, 364). */
  datatype Endpoint = Endpoint(
    input: Option<string>,
    output: Option<string>,
    authLevel: Option<string>,
    forwardToken: bool,
    handledBy: string)

  datatype Config = Config(
    enums: Dict<string, seq<string>>,
    classes: Dict<string, Dict<string, string>>,
    typedefs: map<string, string>,
    extensions: Dict<string, string>,     // class name -> extension name
    exceptions: seq<string>,
    auth: Option<Auth>,
    endpoints: Dict<string, Endpoint>,
    useHttps: bool,
    apiUrl: string)

  /** The enum names known to the type resolver (`enums`, generate.py:176). */
  function EnumNames(c: Config): seq<string> {
    Keys(c.enums)
  }

  /** The class names known to the type resolver (`classes`, generate.py:177). */
  function ClassNames(c: Config): seq<string> {
    Keys(c.classes)
  }

  /** Enums the generator emits itself (generate.py:103). */
  const GeneratedEnums: seq<string> := ["APIException", "AuthLevel"]

  /** The endpoint's request carries a token (generate.py:325, 449). */
  predicate NeedsToken(e: Endpoint) {
    e.authLevel.Some? || e.forwardToken
  }

  /** The endpoint's request has a body at all (generate.py:322, 443). */
  predicate ReadsBody(e: Endpoint) {
    e.input.Some? || NeedsToken(e)
  }

  /** `config['auth']` read as an endpoint: its `in`/`out` keys give the
      request and response types, and it has no auth level of its own. */
  function AuthorizeEndpoint(a: Auth): Endpoint {
    Endpoint(Some(a.input), Some(a.output), None, false, "main")
  }

  /** The endpoint table after `config['endpoints']['_authorize'] =
      config['auth']` (generate.py:300, 425). */
  function EndpointsWithAuthorize(c: Config): (eps: Dict<string, Endpoint>)
    ensures c.auth.None? ==> eps == c.endpoints
    ensures c.auth.Some? ==> Lookup(eps, "_authorize") == Some(AuthorizeEndpoint(c.auth.value))
    ensures forall n :: n != "_authorize" ==> Lookup(eps, n) == Lookup(c.endpoints, n)
    ensures Keys(eps) == if c.auth.None? || "_authorize" in Keys(c.endpoints) then Keys(c.endpoints)
                         else Keys(c.endpoints) + ["_authorize"]
  {
    WithAuthorize(c.auth, c.endpoints)
  }

  /** `config['endpoints']['_authorize'] = config['auth']` on a given
      endpoint table. */
  function WithAuthorize(auth: Option<Auth>, eps: Dict<string, Endpoint>): Dict<string, Endpoint> {
    if auth.Some? then Insert(eps, "_authorize", AuthorizeEndpoint(auth.value)) else eps
  }

  /** Adding `_authorize` twice is adding it once. */
  lemma WithAuthorizeTwice(auth: Option<Auth>, eps: Dict<string, Endpoint>)
    ensures WithAuthorize(auth, WithAuthorize(auth, eps)) == WithAuthorize(auth, eps)
  {
    if auth.Some? {
      InsertTwice(eps, "_authorize", AuthorizeEndpoint(auth.value));
    }
  }
}
