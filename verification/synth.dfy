/** The serialisation synthesiser (generate.py:81-151): from a type string
    and an access expression, the Dart expression that decodes the value
    from its JSON form (`FromJson`) or encodes it (`ToJson`), and, for map
    keys, the conversion from/to the JSON object's string keys.

    `fuel` stands for Python's recursion limit: every recursive call spends
    one unit, and running out is `RecursionLimit` (a typedef cycle such as
    `A: List<A>` recurses until Python raises `RecursionError`).
 */
module Synth {
  import opened Errors
  import opened PyDict
  import opened PyStr
  import opened Schema
  import opened TypeNames
  import opened DartExpr

  /** No extension name is also a typedef name (the flat namespace). */
  predicate ExtensionsNotTypedefs(c: Config) {
    forall i :: 0 <= i < |c.extensions| ==> c.extensions[i].1 !in c.typedefs
  }

  /** Key types `fromString`/`toString` accept, after one typedef step. */
  predicate AdmissibleKey(c: Config, t: string) {
    var b := BaseType(c, t);
    b in EnumNames(c) || b == "String" || b == "int"
  }

  /** `fromString`: decode a JSON object key. */
  function FromString(c: Config, t: string, getter: Expr): (r: Result<Expr>)
    ensures r.Ok? <==> AdmissibleKey(c, t)
    ensures r.Err? ==> r.error == TypeError(BaseType(c, t))
    ensures r == Ok(getter) <==> BaseType(c, t) == "String" && "String" !in EnumNames(c)
  {
    var b := BaseType(c, t);
    if b in EnumNames(c) then Ok(EnumFromString(b, getter))
    else if b == "String" then Ok(getter)
    else if b == "int" then
      assert Size(IntParse(getter)) > Size(getter);
      Ok(IntParse(getter))
    else Err(TypeError(b))
  }

  /** `toString`: encode a map key as a JSON object key. */
  function ToString(c: Config, t: string, getter: Expr): (r: Result<Expr>)
    ensures r.Ok? <==> AdmissibleKey(c, t)
    ensures r.Err? ==> r.error == TypeError(BaseType(c, t))
    ensures r == Ok(getter) <==> BaseType(c, t) == "String" && "String" !in EnumNames(c)
  {
    var b := BaseType(c, t);
    if b in EnumNames(c) then Ok(EnumToString(b, getter))
    else if b == "String" then Ok(getter)
    else if b == "int" then
      assert Size(IntToString(getter)) > Size(getter);
      Ok(IntToString(getter))
    else Err(TypeError(b))
  }

  /** `fromJson`. Decoding never hands back the bare access expression:
      every leaf wraps it, the nullable case wraps it in a closure, so the
      list and map shortcuts are never taken. */
  function FromJson(c: Config, t: string, getter: Expr, fuel: nat): (r: Result<Expr>)
    ensures r.Ok? ==> r.value != getter
    decreases fuel
  {
    if fuel == 0 then Err(RecursionLimit)
    else
      match ShapeOf(c, t)
      case NullableShape(inner) =>
        var body :- FromJson(c, inner, NullableVar, fuel - 1);
        assert Size(NullGuard(getter, body)) > Size(getter);
        Ok(NullGuard(getter, body))
      case ListShape(et) =>
        var elem :- FromJson(c, et, ElementVar, fuel - 1);
        if elem == ElementVar then Ok(getter)
        else Ok(ListMap(Paren(Cast(getter, "List<dynamic>")), elem))
      case MapShape(kt, vt) =>
        var key :- FromString(c, kt, KeyVar);
        var val :- FromJson(c, vt, ValueVar, fuel - 1);
        if key == KeyVar && val == ValueVar then Ok(getter)
        else Ok(MapEntries(Paren(Cast(getter, "Map<String, dynamic>")), key, val))
      case RefShape(b) => FromJsonRef(c, b, getter)
  }

  /** The leaf cases of `fromJson`: a reference to an enum, a class, an
      extension, or any other name (generate.py:121-128). */
  function FromJsonRef(c: Config, b: string, getter: Expr): (r: Result<Expr>)
    ensures r.Ok? ==> r.value != getter
  {
    if b in EnumNames(c) + GeneratedEnums then Ok(EnumAt(b, Cast(getter, "int")))
    else if b in ClassNames(c) then Ok(ClassFromJson(b, getter))
    else if IsExt(c, b) then
      var base :- ExtBase(c, b);
      Ok(AsExtension(ClassFromJson(base, getter), b))
    else Ok(Cast(getter, b))
  }

  /** `toJson`. */
  function ToJson(c: Config, t: string, getter: Expr, fuel: nat): Result<Expr>
    decreases fuel
  {
    if fuel == 0 then Err(RecursionLimit)
    else
      match ShapeOf(c, t)
      case NullableShape(inner) =>
        var body :- ToJson(c, inner, NullableVar, fuel - 1);
        Ok(NullGuard(getter, body))
      case ListShape(et) =>
        var elem :- ToJson(c, et, ElementVar, fuel - 1);
        if elem == ElementVar then Ok(getter)
        else Ok(ListMap(getter, elem))
      case MapShape(kt, vt) =>
        var key :- ToString(c, kt, KeyVar);
        var val :- ToJson(c, vt, ValueVar, fuel - 1);
        if key == KeyVar && val == ValueVar then Ok(getter)
        else Ok(MapEntries(getter, key, val))
      case RefShape(b) => Ok(ToJsonRef(c, b, getter))
  }

  /** The leaf cases of `toJson` (generate.py:146-151); they never fail. */
  function ToJsonRef(c: Config, b: string, getter: Expr): Expr {
    if b in EnumNames(c) + GeneratedEnums then EnumIndexOf(b, getter)
    else if b in ClassNames(c) || IsExt(c, b) then ToJsonCall(getter)
    else getter
  }

  /** Every type the synthesiser can decode it can also encode: the two
      directions recurse over the same grammar, and the only failure
      `toJson` lacks is `extBase`'s lookup. */
  lemma DecodableIsEncodable(c: Config, t: string, g1: Expr, g2: Expr, fuel: nat)
    requires FromJson(c, t, g1, fuel).Ok?
    ensures ToJson(c, t, g2, fuel).Ok?
  {
    DecodeImpliesEncodeAll(c, fuel);
  }

  /** Conversely, every encodable type is decodable unless an extension's
      name is also a typedef name, which makes `extBase`'s second `baseType`
      step miss the extension table. */
  lemma EncodableIsDecodable(c: Config, t: string, g1: Expr, g2: Expr, fuel: nat)
    requires ExtensionsNotTypedefs(c)
    requires ToJson(c, t, g1, fuel).Ok?
    ensures FromJson(c, t, g2, fuel).Ok?
  {
    EncodeImpliesDecodeAll(c, fuel);
  }

  ghost predicate DecodeImpliesEncode(c: Config, fuel: nat) {
    forall t, g1, g2 :: FromJson(c, t, g1, fuel).Ok? ==> ToJson(c, t, g2, fuel).Ok?
  }

  ghost predicate EncodeImpliesDecode(c: Config, fuel: nat) {
    forall t, g1, g2 :: ToJson(c, t, g1, fuel).Ok? ==> FromJson(c, t, g2, fuel).Ok?
  }

  lemma {:induction false} DecodeImpliesEncodeAll(c: Config, fuel: nat)
    ensures DecodeImpliesEncode(c, fuel)
  {
    if fuel > 0 {
      DecodeImpliesEncodeAll(c, fuel - 1);
      forall t, g1, g2 | FromJson(c, t, g1, fuel).Ok? ensures ToJson(c, t, g2, fuel).Ok? {
        DecodeOneLevel(c, t, g1, g2, fuel);
      }
    }
  }

  lemma {:induction false} EncodeImpliesDecodeAll(c: Config, fuel: nat)
    requires ExtensionsNotTypedefs(c)
    ensures EncodeImpliesDecode(c, fuel)
  {
    if fuel > 0 {
      EncodeImpliesDecodeAll(c, fuel - 1);
      forall t, g1, g2 | ToJson(c, t, g1, fuel).Ok? ensures FromJson(c, t, g2, fuel).Ok? {
        EncodeOneLevel(c, t, g1, g2, fuel);
      }
    }
  }

  /** The induction step: one level of decoding succeeds only if encoding
      that level does, given the claim one level down. */
  lemma DecodeOneLevel(c: Config, t: string, g1: Expr, g2: Expr, fuel: nat)
    requires fuel > 0 && DecodeImpliesEncode(c, fuel - 1)
    requires FromJson(c, t, g1, fuel).Ok?
    ensures ToJson(c, t, g2, fuel).Ok?
  {
    match ShapeOf(c, t)
    case NullableShape(inner) => NullableStep(c, t, g1, g2, fuel, inner);
    case ListShape(et) => ListStep(c, t, g1, g2, fuel, et);
    case MapShape(kt, vt) => MapStep(c, t, g1, g2, fuel, kt, vt);
    case RefShape(b) =>
  }

  lemma EncodeOneLevel(c: Config, t: string, g1: Expr, g2: Expr, fuel: nat)
    requires ExtensionsNotTypedefs(c)
    requires fuel > 0 && EncodeImpliesDecode(c, fuel - 1)
    requires ToJson(c, t, g1, fuel).Ok?
    ensures FromJson(c, t, g2, fuel).Ok?
  {
    match ShapeOf(c, t)
    case NullableShape(inner) => NullableStep(c, t, g2, g1, fuel, inner);
    case ListShape(et) => ListStep(c, t, g2, g1, fuel, et);
    case MapShape(kt, vt) => MapStep(c, t, g2, g1, fuel, kt, vt);
    case RefShape(b) => RefStep(c, t, g2, fuel, b); FromJsonRefTotal(c, b, g2);
  }

  /** Without the name clash, the leaf cases of `fromJson` never fail. */
  lemma FromJsonRefTotal(c: Config, b: string, g: Expr)
    requires ExtensionsNotTypedefs(c)
    ensures FromJsonRef(c, b, g).Ok?
  {
    IsExtDeclared(c, b);
  }

  // One unfolding of both directions for each container shape: each
  // succeeds exactly when its recursive call (and key conversion) does.

  lemma NullableStep(c: Config, t: string, g1: Expr, g2: Expr, fuel: nat, inner: string)
    requires fuel > 0 && ShapeOf(c, t) == NullableShape(inner)
    ensures FromJson(c, t, g1, fuel).Ok? <==> FromJson(c, inner, NullableVar, fuel - 1).Ok?
    ensures ToJson(c, t, g2, fuel).Ok? <==> ToJson(c, inner, NullableVar, fuel - 1).Ok?
  {
  }

  lemma ListStep(c: Config, t: string, g1: Expr, g2: Expr, fuel: nat, et: string)
    requires fuel > 0 && ShapeOf(c, t) == ListShape(et)
    ensures FromJson(c, t, g1, fuel).Ok? <==> FromJson(c, et, ElementVar, fuel - 1).Ok?
    ensures ToJson(c, t, g2, fuel).Ok? <==> ToJson(c, et, ElementVar, fuel - 1).Ok?
  {
  }

  lemma RefStep(c: Config, t: string, g: Expr, fuel: nat, b: string)
    requires fuel > 0 && ShapeOf(c, t) == RefShape(b)
    ensures FromJson(c, t, g, fuel) == FromJsonRef(c, b, g)
    ensures ToJson(c, t, g, fuel) == Ok(ToJsonRef(c, b, g))
  {
  }

  lemma MapStep(c: Config, t: string, g1: Expr, g2: Expr, fuel: nat, kt: string, vt: string)
    requires fuel > 0 && ShapeOf(c, t) == MapShape(kt, vt)
    ensures FromJson(c, t, g1, fuel).Ok? <==> AdmissibleKey(c, kt) && FromJson(c, vt, ValueVar, fuel - 1).Ok?
    ensures ToJson(c, t, g2, fuel).Ok? <==> AdmissibleKey(c, kt) && ToJson(c, vt, ValueVar, fuel - 1).Ok?
  {
  }

  /** The null guard: for a type ending in `?`, both directions wrap the
      getter in a closure that yields `null` for `null` and applies the
      conversion of the type without its `?` to the bound non-null value
      `val`; that conversion's errors are passed on unchanged. */
  lemma NullableGuard(c: Config, t: string, g: Expr, fuel: nat, inner: string)
    requires fuel > 0 && ShapeOf(c, t) == NullableShape(inner)
    ensures FromJson(c, t, g, fuel) == Guard(g, FromJson(c, inner, NullableVar, fuel - 1))
    ensures ToJson(c, t, g, fuel) == Guard(g, ToJson(c, inner, NullableVar, fuel - 1))
  {
  }

  /** A conversion of the non-null value, placed under a null test of `g`. */
  function Guard(g: Expr, body: Result<Expr>): Result<Expr> {
    match body
    case Ok(b) => Ok(NullGuard(g, b))
    case Err(e) => Err(e)
  }

  /** Encoding a list: the element conversion's error is passed on; an
      element conversion that is the identity makes the whole conversion
      the identity; any other is mapped over the list. */
  lemma ToJsonListStep(c: Config, t: string, g: Expr, fuel: nat, et: string)
    requires fuel > 0 && ShapeOf(c, t) == ListShape(et)
    ensures var r := ToJson(c, et, ElementVar, fuel - 1);
      && (r.Err? ==> ToJson(c, t, g, fuel) == r)
      && (r == Ok(ElementVar) ==> ToJson(c, t, g, fuel) == Ok(g))
      && (r.Ok? && r.value != ElementVar ==> ToJson(c, t, g, fuel) == Ok(ListMap(g, r.value)))
  {
  }

  /** Encoding a map: the key conversion is tried first, then the value
      conversion; identity on both makes the whole conversion the identity. */
  lemma ToJsonMapStep(c: Config, t: string, g: Expr, fuel: nat, kt: string, vt: string)
    requires fuel > 0 && ShapeOf(c, t) == MapShape(kt, vt)
    ensures var k := ToString(c, kt, KeyVar);
      var r := ToJson(c, vt, ValueVar, fuel - 1);
      && (k.Err? ==> ToJson(c, t, g, fuel) == Err(k.error))
      && (k.Ok? && r.Err? ==> ToJson(c, t, g, fuel) == Err(r.error))
      && (k == Ok(KeyVar) && r == Ok(ValueVar) ==> ToJson(c, t, g, fuel) == Ok(g))
      && (k.Ok? && r.Ok? && (k.value != KeyVar || r.value != ValueVar) ==>
            ToJson(c, t, g, fuel) == Ok(MapEntries(g, k.value, r.value)))
  {
  }

  /** A map whose key type is not a user enum, `String` or `int` after one
      typedef step is rejected in both directions with the key's `TypeError`,
      before the value type is looked at. */
  lemma MapKeyRejected(c: Config, t: string, g: Expr, fuel: nat, kt: string, vt: string)
    requires fuel > 0 && ShapeOf(c, t) == MapShape(kt, vt)
    requires !AdmissibleKey(c, kt)
    ensures FromJson(c, t, g, fuel) == Err(TypeError(BaseType(c, kt)))
    ensures ToJson(c, t, g, fuel) == Err(TypeError(BaseType(c, kt)))
  {
  }

  /** The enums the generator emits itself are not in the enum list the
      key conversions consult, so they cannot key a map. */
  lemma GeneratedEnumsAreNotKeys(c: Config, n: string)
    requires n in GeneratedEnums && n !in EnumNames(c) && n !in c.typedefs
    ensures !AdmissibleKey(c, n)
    ensures FromString(c, n, KeyVar) == Err(TypeError(n))
    ensures ToString(c, n, KeyVar) == Err(TypeError(n))
  {
  }

  /** Decoding and encoding of a named type agree on its kind: an enum
      (user-declared or generated) travels as its index, a class or an
      extension through `fromJson`/`toJson`, and any other name is cast on
      the way in and passed through on the way out. */
  lemma ReferencePairing(c: Config, b: string, g: Expr)
    ensures b in EnumNames(c) + GeneratedEnums ==>
      FromJsonRef(c, b, g) == Ok(EnumAt(b, Cast(g, "int"))) && ToJsonRef(c, b, g) == EnumIndexOf(b, g)
    ensures b !in EnumNames(c) + GeneratedEnums && b in ClassNames(c) ==>
      FromJsonRef(c, b, g) == Ok(ClassFromJson(b, g)) && ToJsonRef(c, b, g) == ToJsonCall(g)
    ensures b !in EnumNames(c) + GeneratedEnums && b !in ClassNames(c) && IsExt(c, b) ==>
      ToJsonRef(c, b, g) == ToJsonCall(g) &&
      (FromJsonRef(c, b, g).Ok? ==> FromJsonRef(c, b, g).value.AsExtension?)
    ensures b !in EnumNames(c) + GeneratedEnums && b !in ClassNames(c) && !IsExt(c, b) ==>
      FromJsonRef(c, b, g) == Ok(Cast(g, b)) && ToJsonRef(c, b, g) == g
  {
  }

  /** An extension is decoded by decoding its base class, which is the last
      class the extension table maps to it, and then converting with
      `.as<Ext>`. */
  lemma ExtensionDecodesThroughBase(c: Config, b: string, g: Expr)
    requires b !in EnumNames(c) + GeneratedEnums && b !in ClassNames(c)
    requires b !in c.typedefs
    requires exists i :: 0 <= i < |c.extensions| && c.extensions[i].1 == b
    ensures FromJsonRef(c, b, g).Ok?
    ensures exists i :: 0 <= i < |c.extensions| && c.extensions[i].1 == b &&
                        FromJsonRef(c, b, g) == Ok(AsExtension(ClassFromJson(c.extensions[i].0, g), b)) &&
                        (forall j :: i < j < |c.extensions| ==> c.extensions[j].1 != b)
  {
    IsExtDeclared(c, b);
  }
}
