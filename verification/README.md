# thaumaturge code generator — Dafny model

thaumaturge generates one Dart file from a YAML schema: shared declarations
(enums, classes with JSON (de)serialisation, the `APIException` enum), plus an
HTTP server skeleton (`APIHandler`, `AuthHandler`, `handleRequest`), a client
(`class API` with one static stub per endpoint), or both. This project models
the generator, `generate.py`, and proves properties of what it emits.

The model in brief:

- The schema is an immutable `Schema.Config` record. Python dicts are
  insertion-ordered `seq<(K, V)>`. `d[k] = v` keeps an existing key's
  position, and a comprehension keeps the first position and the last value
  of a repeated key (module `PyDict`).
- Type strings are handled as strings, as generate.py handles them:
  - one `baseType` step at each level;
  - the `endswith('?')`, `startswith('List<')` and `startswith('Map<')` tests;
  - Python slicing with negative bounds, `find` and `strip` (modules
    `PyStr`, `TypeNames`).

  A type-expression datatype with a printer (`TypeGrammar`) is used only to
  state properties over every printed type.
- The synthesised Dart expressions form a syntax tree (`DartExpr.Expr`). The
  getter handed in is `Var(name)`. generate.py's identity tests compare the
  emitted text with `'element'`, `'k'` or `'v'`. For such names that text test
  is the structural test `e == Var(name)` (`DartExpr.IdentityTestIsStructural`).
- The Python exceptions a run can raise become `Errors.GenError`:
  `TypeError`, `KeyError`, `ValueError`, and `RecursionLimit` for Python's
  recursion limit. Every generation step returns a `Result`, so the first
  failure aborts the run.
- The recursion limit is a `fuel` argument. Each recursive call spends one
  unit. A typedef cycle such as `A: List<A>` therefore ends in
  `RecursionLimit`, where Python raises `RecursionError`.
- What the emitted server and client do at run time is modelled as a trace:
  - server: handler calls, the one JSON reply and the close, or an exception that escapes `handleRequest` when the final `jsonEncode` rejects the reply;
  - client: the POST, the error hook, the throw or the return.

  What the handlers, the network or the Dart runtime decide is a parameter:
  `Server.Env` and `Client.Answer`.

Modules follow generate.py:

| module | generate.py |
|---|---|
| `PyDict` | Python dicts as ordered pairs, and `reverse` (15-16) |
| `TypeNames` | `baseType`, `isExt`, `extBase`, `mapTypes` (30-47) |
| `Enums` | `generate_enum`, and the `AuthLevel`, user and `APIException` enums (49-75, 191-195, 256-259) |
| `Synth` | `fromString`, `toString`, `fromJson`, `toJson` (81-151) |
| `Classes` | class emission and `generate_copywith` (153-171, 197-254) |
| `Server` | `generate_server` (262-411) |
| `Client` | `generate_frontend` (414-470) |
| `Generate` | `generate_base` and `generate` (173-260, 472-493) |

## Model

| member | source | states |
|---|---|---|
| PyDict.IndexOf | generate.py:353 | `values.indexOf(x)`: the first position holding `x`, or -1 exactly when `x` is absent |
| PyDict.Insert | generate.py:300 | `d[k] = v`: an existing key keeps its place and a new key goes last; `k` then maps to `v`; every other key's lookup is unchanged; no other entry appears |
| PyDict.InsertTwice | generate.py:425 | storing the same value under a key a second time leaves the dict unchanged |
| PyDict.Dedup | generate.py:192 | first-occurrence order of a list: no repeats, and the same elements as the list |
| PyDict.LastValueSpec | generate.py:256-258 | the reference "last pair wins" lookup finds a value exactly for keys that occur, from a pair that no later pair shares its key with |
| PyDict.FromPairsKeys | generate.py:256-258 | a comprehension's keys are the pairs' keys in first-occurrence order |
| PyDict.FromPairsLookup | generate.py:256-258 | looking up a key in a comprehension gives the value of the last pair with that key |
| PyDict.FromPairsLastWins | generate.py:256-258 | a key that occurs maps to the value of some pair with that key that no later pair shares its key with |
| PyDict.FromPairsEntries | generate.py:256-258 | a comprehension's keys are distinct and every entry is one of the pairs |
| PyDict.FromPairsValuesDistinct | generate.py:256-258 | when every key is a function of its value, the resulting values are distinct too |
| PyDict.DedupPrefix | generate.py:192 | deduplicating a longer list extends the deduplication of its prefix |
| PyDict.DedupOfDistinct | generate.py:195 | a list without repeats is its own deduplication |
| PyDict.DedupIndex | generate.py:192 | `x`'s position after deduplication is the number of distinct elements before its first occurrence |
| PyDict.ReverseLookup | generate.py:15-16 | `v in reverse(d)` exactly when `v` is one of `d`'s values; it maps back to the key of the LAST entry holding `v` |
| PyDict.ReverseInverts | generate.py:15-16 | with distinct values, `reverse(d)` maps each value back to its own key |
| PyStr.SliceBound | generate.py:45-46 | a slice bound in range is kept; a negative one in range counts from the end; one past the end clamps to the length, one before the start to 0 |
| PyStr.StripPadded | generate.py:46 | `strip()` removes leading whitespace and leaves a string with visible ends unchanged |
| PyStr.TitleAppend | generate.py:256 | `title()` works word by word: after an uncased character, the two parts are title-cased separately |
| PyStr.DeleteAll | generate.py:256 | `replace(' ', '')` leaves no space |
| PyStr.DeleteAllAppend | generate.py:256 | removing a character distributes over concatenation |
| PyStr.DeleteAllAbsent | generate.py:256 | removing an absent character changes nothing |
| Schema.EndpointsWithAuthorize | generate.py:300 | with `auth`, `_authorize` maps to `config['auth']` read as an endpoint (request `in`, response `out`); no other endpoint changes; the key goes last unless it was declared; without `auth` the table is unchanged |
| Schema.WithAuthorizeTwice | generate.py:424-425 | adding `_authorize` to a table that already has it changes nothing |
| DartExpr.NonVarHasPunctuation | generate.py:111-112 | every emitted expression other than a bare variable contains a character that is not a letter |
| DartExpr.IdentityTestIsStructural | generate.py:111-119 | comparing the emitted text with a letters-only variable name holds exactly when the expression is that variable |
| TypeNames.IsExtDeclared | generate.py:33-34 | `isExt(t)` holds exactly when `t` is the extension name of some declared class |
| TypeNames.ExtBase | generate.py:36-38 | `KeyError` exactly when `baseType(t)` is no extension name; otherwise the class of the last declaration naming that extension |
| TypeNames.MapTypesSplit | generate.py:40-47 | on `Map<K,V>` with a comma-free `K`, `mapTypes` gives `K` unstripped and `V` stripped |
| Synth.FromString | generate.py:81-90 | succeeds exactly for a user enum, `String` or `int` after one typedef step, else `TypeError` of that type; it is the identity exactly for `String` |
| Synth.ToString | generate.py:92-101 | the same key rule as `fromString` for encoding, with the same `TypeError` |
| Synth.FromJson | generate.py:105-128 | decoding never returns the bare getter, at any depth |
| Synth.FromJsonRef | generate.py:121-128 | a leaf decoder always wraps the getter |
| Synth.DecodableIsEncodable | generate.py:105-151 | every type `fromJson` can convert, `toJson` can convert too |
| Synth.EncodableIsDecodable | generate.py:105-151 | every type `toJson` converts, `fromJson` converts too, provided no extension name is also a typedef name |
| Synth.FromJsonRefTotal | generate.py:121-128 | when no extension name is a typedef name, a leaf reference always decodes |
| Synth.NullableStep | generate.py:107-108 | a `T?` type converts in either direction exactly when `T` does |
| Synth.ListStep | generate.py:109-113 | `List<E>` converts in either direction exactly when `E` does |
| Synth.MapStep | generate.py:114-120 | `Map<K, V>` converts in either direction exactly when `K` is an admissible key and `V` converts |
| Synth.RefStep | generate.py:121-128 | any other type string is converted by the leaf rules |
| Synth.NullableGuard | generate.py:107-108 | for `T?`, both directions (also line 133) put the conversion of `T` on `val` under a null test of the getter, and pass its errors on |
| Synth.ToJsonListStep | generate.py:134-138 | list encoding passes the element error on, is the identity when the element encoding is, and otherwise maps the element encoding |
| Synth.ToJsonMapStep | generate.py:139-145 | map encoding checks the key first, then the value; it is the identity when both are, and otherwise maps both |
| Synth.MapKeyRejected | generate.py:114-116 | a map with an inadmissible key type fails in both directions with the key's `TypeError`, before the value type is looked at |
| Synth.GeneratedEnumsAreNotKeys | generate.py:81-103 | `APIException` and `AuthLevel`, absent from the user enums, cannot key a map: `TypeError` in both directions |
| Synth.ReferencePairing | generate.py:121-151 | decoding and encoding agree on a name's kind: enums go by index, classes and extensions by `fromJson`/`toJson`, other names by cast and passthrough |
| Synth.ExtensionDecodesThroughBase | generate.py:125-126 | a declared extension decodes as its base class (the last class naming it), then `.as<Ext>` |
| TypeGrammar.ShapeOfRender | generate.py:105-120 | on a printed type, the one-level tests recover the constructor, a name leaf coming back as its typedef target; `?` wins over `List<` and `Map<`; the map key and value come back from `mapTypes` |
| TypeGrammar.ToJsonIdentity | generate.py:130-151 | `toJson` returns the getter unchanged exactly for names whose typedef target (or the name itself) is no enum, class or extension, lists of identity types, and `String`-keyed maps of identity types |
| TypeGrammar.RefIdentity | generate.py:146-151 | a leaf encoder is the identity exactly for a name that is no enum, class or extension |
| TypeGrammar.ToJsonIdentityNullable | generate.py:132-133 | encoding a nullable type is never the identity |
| TypeGrammar.ListIdentity | generate.py:134-138 | a list encoding is the identity exactly when its element encoding is |
| TypeGrammar.MapIdentity | generate.py:139-145 | a map encoding is the identity exactly when its key and value encodings both are |
| TypeGrammar.NullableListIsNullable | generate.py:107-109 | `List<int>?` is a nullable list, not a list of nullable ints |
| Enums.GenerateEnum | generate.py:49-75 | the enum's labels are the table's keys in order; each label's `ToString` entry and `FromString` entry pair it with its wire string |
| Enums.WireRoundTrip | generate.py:59-75 | with distinct labels and wire strings, a label encodes to its wire string, the wire string decodes back, and the ordinal is the position |
| Enums.SelfTableFacts | generate.py:192-195 | `{v: v for v in vs}` lists each value once, in first-occurrence order, as its own wire string; no wire string repeats |
| Enums.SelfTableOrdinal | generate.py:195 | a value's ordinal is the number of distinct values before its first occurrence, and it round-trips as its own wire string |
| Enums.SelfTableOrdinalDistinct | generate.py:195 | without repeats, a value's ordinal is its position |
| Enums.AuthLevelOrdinals | generate.py:191-192 | `Unauthorized` has ordinal 0, and the i-th configured level has ordinal i + 1 |
| Enums.Ident | generate.py:256 | an exception's label contains no space |
| Enums.IdentWords | generate.py:256 | the label of two words joined by a space is the concatenation of their labels |
| Enums.ExceptionTable | generate.py:256-258 | the label table has distinct labels |
| Enums.ExceptionLabels | generate.py:256-259 | `APIException`'s labels are the built-in labels and then the declared ones, each kept at its first occurrence |
| Enums.BuiltinLabelsComputed | generate.py:257 | the six built-ins title-case to `Success`, `UnsupportedMethod`, `UnsupportedEndpoint`, `ObjectFormatError`, `InternalError`, `Unauthorized` |
| Enums.BuiltinOrdinals | generate.py:256-259 | the six built-ins have ordinals 0-5 in that order, whatever is declared |
| Enums.DeclaredOrdinal | generate.py:256-259 | a declared exception's ordinal is the number of distinct labels before its first occurrence; without clashes, the j-th declared exception has ordinal 6 + j |
| Enums.ExceptionWireString | generate.py:256-259 | a label's wire string is that of the LAST exception with that label, so a clashing declaration only overwrites the wire string |
| Enums.ExceptionWireRoundTrip | generate.py:256-259 | `APIException`'s wire strings are distinct; each entry round-trips and has its position as its ordinal |
| Classes.Fields | generate.py:200-212 | one constructor parameter per field, in order, `required` exactly when the type does not end in `?` |
| Classes.Decoders | generate.py:214-224 | the factory decodes every field from `json['name']`, in order; the first undecodable field aborts with its error |
| Classes.Encoders | generate.py:226-234 | the `toJson` map encodes every field, in order, with the same first-failure rule |
| Classes.ParamType | generate.py:157-159 | a copy-with parameter type always ends in `?` and adds one only when the field's type lacks it |
| Classes.GenerateCopyWith | generate.py:153-171 | the method has the given return type and name, and one parameter per field, in order, with the nullable type |
| Classes.EmitClassIffDecodable | generate.py:197-234 | a class is emitted exactly when every field type decodes (encoding then never fails); constructor, factory and `toJson` list the same fields in order |
| Classes.CopyWithParams | generate.py:247-252 | with an extension there are `copyBaseWith` returning the class and `copyWith` returning the extension, otherwise one `copyWith`; each takes every field, `?`-typed |
| Classes.ApplyCopyWith | generate.py:165-171 | `name ?? this.name`: a non-null argument replaces the field and a null one keeps it |
| Classes.CopyWithLaws | generate.py:167 | no arguments copy unchanged; a set field stays set; copying twice with the same arguments is copying once |
| Server.HandlerSignature | generate.py:264-273 | the method's name and return type (`void` without `out`); `token` first when forwarded and `request` last when there is `in`; `KeyError('auth')` exactly when a token is forwarded without `auth` |
| Server.ApiHandler | generate.py:263-274 | `APIHandler` declares exactly the signatures of the endpoints handled by "main" and fails exactly when one of them fails |
| Server.AuthMembersOf | generate.py:281-296 | every endpoint's "auth" handler method and `Custom` predicate appear in `AuthHandler`, and every member there comes from some endpoint |
| Server.AuthMembersAppend | generate.py:281-296 | the members follow endpoint order: two runs of endpoints give the first run's members, then the second's |
| Server.Target | generate.py:362-369 | `_authorize` calls `auth.generateToken`; "main" calls `handler.<name>`; "auth" calls `auth.<name>`; any other `handledBy` is a `ValueError` |
| Server.EmitBranch | generate.py:319-393 | a branch is emitted exactly when the token type, request decoder, target and response encoder all succeed, failing with the first error in that order; it reads the token exactly when the endpoint needs one; its request decoder is `fromJson(in, reqBody['data'])` exactly with `in`, and its response encoder is `toJson(out, <handler call>)` exactly with `out` |
| Server.Branches | generate.py:319-405 | one branch per endpoint, in order; the first failing endpoint aborts |
| Server.FindBranch | generate.py:318-321 | the switch picks the first branch whose `/<name>` equals the URI, and none exactly when no branch matches |
| Server.DispatchWellClosed | generate.py:302-411 | on every request and every outcome, either the response is closed exactly once, last, with at most one reply right before it and only handler calls earlier, or an exception escapes after handler calls with nothing written and no close; the second happens only when a handler returned data the final `jsonEncode` rejects, so with every reply encodable the response is always closed |
| Server.ReplyEncodeLeavesOpen | generate.py:384-403 | a handler that returns data the final `jsonEncode` (outside the `try`) rejects leaves the response unanswered and open |
| Server.CodeIsIndex | generate.py:256-259 | `APIException.values.indexOf(APIException.<built-in k>)` is k |
| Server.DispatchRejects | generate.py:308-410 | OPTIONS is closed with no reply, another non-POST method gets code 1, and an unknown URI gets code 2; none calls a handler |
| Server.BadBodyRejected | generate.py:327-341 | a body that fails to decode gets code 3 before any check or handler call |
| Server.LevelCheckDecides | generate.py:351-357 | a level check answers code 5 exactly when the token's level ranks below the endpoint's; otherwise the handler is called next |
| Server.CustomCheckDecides | generate.py:346-357 | a custom check answers code 5 exactly when the predicate returns false; otherwise the handler is called next |
| Server.LevelOrdinalOfDeclared | generate.py:353 | with the levels declared once, the i-th level's ordinal is i + 1 |
| Server.HandlerOutcome | generate.py:384-403 | a handler that returns gets code 0, with data exactly when there is `out`, unless the final `jsonEncode` rejects that data, in which case the exception escapes with no reply and no close; an `APIException` is relayed by its ordinal; anything else gets code 4 |
| Server.AuthCallThrows | generate.py:345-400 | an exception from `validateToken` or the predicate is relayed the same way, and the handler is not called |
| Server.BranchReadsBody | generate.py:322-341 | a branch reads the body exactly when its endpoint has `in`, `authLevel` or `forwardToken` |
| Server.RoutesToOwnBranch | generate.py:318-321 | with endpoint names declared once, `/<name>` runs the branch emitted for that endpoint |
| Server.BranchCallsDeclared | generate.py:263-382 | with `auth`, every branch's call and custom predicate is declared in `APIHandler` or `AuthHandler` with matching arity |
| Client.EmitStub | generate.py:430-468 | a stub posts to `/<name>`; it has a body exactly when the endpoint has `in`, `authLevel` or `forwardToken`, `data` is `toJson(in, request)` exactly with `in`, `token` is `toJson(auth.out, _token!)` exactly with a level or forwarded token, and the decoder is `fromJson(out, res['data'])` exactly with `out`; it fails with the first of the request-encode, `auth`, token-encode and response-decode errors |
| Client.Stubs | generate.py:430-470 | one stub per endpoint, in order; the first failing endpoint aborts |
| Client.Authorize | generate.py:427 | the session holds a token afterwards exactly when it held one or `_authorize` returned |
| Client.FailWellEnded | generate.py:419-421 | `_error` calls the hook at most once and always throws |
| Client.CallStubWellEnded | generate.py:437-466 | a call sends at most once, first, and ends with a throw, a range fault or a return; the hook fires only right before the throw |
| Client.SuccessIsCodeZero | generate.py:457 | `values[code] != Success` is the test `code != 0` |
| Client.CallOutcome | generate.py:437-466 | for every call that sends (no token needed, or the session holds it), the POST comes first, with `token` exactly when the stub sends one; then a transport failure or undecodable data is code 4; an out-of-range code is a range fault; a non-zero code is relayed; code 0 returns, decoding exactly when there is `out`; decoding happens only after the code check |
| Client.MissingTokenFails | generate.py:450 | without a stored token, a stub that sends one throws code 4 before sending |
| Client.SessionLaws | generate.py:424-428 | after `clearToken` token-sending stubs never send; after a successful `authorize` every stub sends; a failed `authorize` keeps the old token |
| Client.AuthorizeNeedsNoToken | generate.py:424-427 | the `_authorize` stub sends its credentials, no token, and decodes the returned token |
| Client.StubMatchesBranch | generate.py:439-452 | the i-th stub's path selects the server's branch for the same endpoint; the stub sends `data` and `token` exactly when that branch reads them, and decodes `data` exactly when the branch replies with it |
| Client.StubBranchConversions | generate.py:330-461 | the i-th stub encodes the endpoint's `in` type where the i-th branch decodes that same type, and the branch encodes the `out` type where the stub decodes it |
| Generate.UserEnums | generate.py:194-195 | one enum per declared enum, in order, each value its own wire string |
| Generate.EmitClasses | generate.py:197-254 | one class per declared class, in order; the first failing class aborts with its error |
| Generate.Generate | generate.py:472-493 | only `server`, `frontend` and `thaum` succeed, any other target is `ValueError('Unsupported target!')`; a server is emitted except for `frontend`, a client except for `server` |
| Generate.GenerateSucceeds | generate.py:472-493 | `generate` succeeds exactly when the shared part, the target test and every part the target asks for succeed |
| Generate.GenerateParts | generate.py:482-491 | the file holds `generate_base`'s declarations, `generate_server`'s server unless the target is `frontend`, and `generate_frontend`'s client, built from the extended table for `thaum` |
| Generate.GenerateErrors | generate.py:482-493 | the first failing step is the error: the shared part, then the target test, then the server, then the client |
| Generate.BaseIffClassesDecode | generate.py:197-234 | the shared part is generated exactly when every field type of every class decodes |
| Generate.ThaumIsBoth | generate.py:489-491 | `thaum` emits the same server as `server` and the same client as `frontend`, although its client is built from the table the server already extended |
| Generate.SharedExceptionEnum | generate.py:472-493 | for every target, the file's one `APIException` is the client's decoding enum, and the server switch reading it answers the built-ins with codes 0 to 5; the file declares `AuthLevel` exactly with `auth`, and the switch ranks the i-th declared level i + 1 |

## Left out

- YAML loading (`get_config`) and writing `generated.dart` (generate.py:18-20, 495-496) are I/O. The schema is a parameter, and the output is the declaration records.
- thaum.py is host orchestration (cloning, copying, clean-up) and is not part of this model.
- The text of the output is not modelled, only the structure the generator emits: CORS header lines, `print` logging, imports, `typedef` and field lines, `kApiUseHttps`, commas and whitespace. The printer `DartExpr.Render` produces the synthesised expressions' text; it is used only to relate text tests to structure.
- The `package:http` import is written only for `frontend` (generate.py:480-481), so a `thaum` file lacks it. Imports are not modelled.
- The Dart runtime is not evaluated: `jsonDecode`, HTTP, async, and the emitted conversions themselves. Whether the body decodes, what the handlers do, and what the network answers are parameters of the traces.
- Synth.FromJson: Python's recursion limit is a `fuel` argument. A type nested deeper than the fuel reports `RecursionLimit` instead of the real limit of about 1000 frames. The same holds for every member taking `fuel`.
- PyStr.Title: only ASCII letters are cased. Python's `str.title()` also title-cases other Unicode letters.
- Enums.GenerateEnum: a Dart `const` map literal with a repeated key is a compile error. Here the lookup keeps the last entry (`DecodeWire`). generate.py's own tables never repeat a wire string: self tables drop repeats (`Enums.SelfTableFacts`) and `APIException`'s wire strings are distinct (`Enums.ExceptionWireRoundTrip`).
- TypeGrammar.ToJsonIdentity: stated for types whose leaves are names or aliases of names. A leaf whose typedef stands for a composite type (`Id: List<int>`) is outside the grammar.
- Synth.EncodableIsDecodable: requires that no extension name is also a typedef name. When one is, `isExt` sees the extension but `extBase`'s `baseType` step replaces the name first, and `fromJson` raises `KeyError` where `toJson` succeeds.
- Server.LevelOrdinalOfDeclared: an `authLevel` that is not a declared level is emitted unchecked as `AuthLevel.<name>`. Dart would refuse to compile it; the model reads its ordinal as `indexOf`'s -1.
- Server.BranchCallsDeclared: stated for schemas with `auth` only. Without `auth`, `handleRequest` still names the `AuthHandler` type, which is then never declared. Only the call structure is modelled, not Dart typing.
- Server.RoutesToOwnBranch, Client.StubMatchesBranch and Server.BranchCallsDeclared require distinct endpoint names, including `_authorize`. A YAML mapping cannot repeat a key. If `_authorize` is declared by hand, it is replaced in place.
- Client.CallStub: the token is modelled as present or absent, not by value. A failure while encoding the request counts as a transport failure (code 4), but the trace still records a `Send`: `toJson(request)` is evaluated before `post` is invoked, so in the emitted Dart no request leaves in that case.
- Server.HandlerOutcome: a failure while converting a handler's result with the emitted `toJson` code runs inside the same `try`. It is folded into the handler's outcome (`ThrowsOther`, code 4). The final `jsonEncode(response)` runs outside the `try` and is a separate outcome (`Server.Env.replyEncodes`). What happens to the escaped exception and the open response is up to the code that calls `handleRequest`, which is not generated and not modelled.
- The global state of generate.py (`config`, `enums`, `classes`, `typedefs`, `USE_HTTPS`, `API_URL`) is one immutable record. The in-place `_authorize` injection is the pure `Schema.WithAuthorize`, applied once for `server` and `frontend` and twice for `thaum` (proved harmless by `Generate.ThaumIsBoth`).
- A missing `endpoints` key is modelled as an empty table. With `auth` and no `endpoints`, generate.py would raise `KeyError` at the `_authorize` injection (generate.py:300, 425); the model adds `_authorize` to the empty table instead.
