/** The type grammar of the schema (`T?`, `List<T>`, `Map<K, V>`, names)
    as a datatype, with the printer that writes a type the way a schema
    author does. The synthesiser works on the printed strings; the lemmas
    here show that its tests recover the structure of a printed type and
    state the identity, null-guard and key rules over that structure.
 */
module TypeGrammar {
  import opened Errors
  import opened PyDict
  import opened PyStr
  import opened Schema
  import opened TypeNames
  import opened DartExpr
  import opened Synth

  datatype TypeExpr =
    | Named(name: string)
    | Nullable(inner: TypeExpr)
    | ListOf(elem: TypeExpr)
    | MapOf(key: string, value: TypeExpr)

  /** The type as it is written in the schema. */
  function Render(t: TypeExpr): string {
    match t
    case Named(n) => n
    case Nullable(i) => Render(i) + "?"
    case ListOf(e) => "List<" + Render(e) + ">"
    case MapOf(k, v) => "Map<" + k + ", " + Render(v) + ">"
  }

  /** Nesting depth: the number of recursive calls a conversion makes. */
  function Depth(t: TypeExpr): nat {
    match t
    case Named(_) => 0
    case Nullable(i) => 1 + Depth(i)
    case ListOf(e) => 1 + Depth(e)
    case MapOf(_, v) => 1 + Depth(v)
  }

  predicate IsNameChar(ch: char) {
    IsCased(ch) || ('0' <= ch <= '9') || ch == '_'
  }

  /** A Dart identifier as schema authors write type and key names. */
  predicate SimpleName(n: string) {
    |n| > 0 && forall i :: 0 <= i < |n| ==> IsNameChar(n[i])
  }

  /** Typedef names are identifiers, so no composite type string is one. */
  predicate TypedefKeysSimple(c: Config) {
    forall n :: n in c.typedefs ==> SimpleName(n)
  }

  /** Every name in the type is an identifier, and so is what a leaf's
      typedef, if it has one, stands for: a leaf may be an alias of a name
      (`Id` for `int`) but not of a composite type. */
  predicate WellFormed(c: Config, t: TypeExpr) {
    TypedefKeysSimple(c) &&
    match t
    case Named(n) => SimpleName(n) && SimpleName(BaseType(c, n))
    case Nullable(i) => WellFormed(c, i)
    case ListOf(e) => WellFormed(c, e)
    case MapOf(k, v) => SimpleName(k) && WellFormed(c, v)
  }

  /** A printed well-formed type is not empty and neither starts nor ends
      with whitespace. */
  lemma {:induction false} RenderEdges(c: Config, t: TypeExpr)
    requires WellFormed(c, t)
    ensures |Render(t)| > 0
    ensures IsNameChar(Render(t)[0])
    ensures !IsSpace(Render(t)[|Render(t)| - 1])
  {
    match t
    case Named(n) =>
    case Nullable(i) => RenderEdges(c, i);
    case ListOf(e) =>
    case MapOf(k, v) =>
  }

  /** The synthesiser's one-level tests read back exactly the constructor
      the printer wrote: the `?` test wins over `List<`/`Map<`, and the
      map's key and value come back from `mapTypes`. */
  lemma ShapeOfRender(c: Config, t: TypeExpr)
    requires WellFormed(c, t)
    ensures t.Named? ==> ShapeOf(c, Render(t)) == RefShape(BaseType(c, t.name))
    ensures t.Nullable? ==> ShapeOf(c, Render(t)) == NullableShape(Render(t.inner))
    ensures t.ListOf? ==> ShapeOf(c, Render(t)) == ListShape(Render(t.elem))
    ensures t.MapOf? ==> ShapeOf(c, Render(t)) == MapShape(t.key, Render(t.value))
  {
    match t
    case Named(n) => ShapeOfName(c, n);
    case Nullable(i) => ShapeOfNullable(c, i);
    case ListOf(e) => ShapeOfList(c, e);
    case MapOf(k, v) => ShapeOfMap(c, k, v);
  }

  /** A leaf is looked up once in the typedefs, and what it stands for is
      used as the name. */
  lemma ShapeOfName(c: Config, n: string)
    requires SimpleName(n) && SimpleName(BaseType(c, n))
    ensures ShapeOf(c, n) == RefShape(BaseType(c, n))
  {
    var b := BaseType(c, n);
    assert !IsNameChar('?') && !IsNameChar('<');
    assert !EndsWith(b, "?") by { assert b[|b| - 1] != '?'; }
    assert !StartsWith(b, "List<") by { assert |b| < 5 || b[4] != '<'; }
    assert !StartsWith(b, "Map<") by { assert |b| < 4 || b[3] != '<'; }
  }

  lemma ShapeOfNullable(c: Config, i: TypeExpr)
    requires TypedefKeysSimple(c)
    ensures ShapeOf(c, Render(i) + "?") == NullableShape(Render(i))
  {
    var s := Render(i) + "?";
    NotTypedef(c, s, |s| - 1);
    assert EndsWith(s, "?");
    assert Slice(s, 0, -1) == s[..|s| - 1] == Render(i);
  }

  lemma ShapeOfList(c: Config, e: TypeExpr)
    requires TypedefKeysSimple(c)
    ensures ShapeOf(c, "List<" + Render(e) + ">") == ListShape(Render(e))
  {
    var s := "List<" + Render(e) + ">";
    NotTypedef(c, s, 4);
    assert !EndsWith(s, "?") by { assert s[|s| - 1] == '>'; }
    assert s[..5] == "List<";
    assert Slice(s, 5, -1) == s[5..|s| - 1] == Render(e);
  }

  lemma ShapeOfMap(c: Config, k: string, v: TypeExpr)
    requires SimpleName(k) && WellFormed(c, v)
    ensures ShapeOf(c, "Map<" + k + ", " + Render(v) + ">") == MapShape(k, Render(v))
  {
    var s := "Map<" + k + ", " + Render(v) + ">";
    NotTypedef(c, s, 3);
    RenderEdges(c, v);
    assert !EndsWith(s, "?") by { assert s[|s| - 1] == '>'; }
    assert !StartsWith(s, "List<") by { assert s[0] == 'M'; }
    assert s[..4] == "Map<";
    assert ',' !in k by { assert !IsNameChar(','); }
    assert s == "Map<" + k + "," + (" " + Render(v)) + ">";
    MapTypesSplit(c, k, " " + Render(v));
    StripPadded(" ", Render(v));
  }

  /** A string with a non-identifier character is no typedef name. */
  lemma NotTypedef(c: Config, s: string, i: nat)
    requires TypedefKeysSimple(c)
    requires i < |s| && (s[i] == '<' || s[i] == '?')
    ensures s !in c.typedefs
    ensures BaseType(c, s) == s
  {
    assert !IsNameChar(s[i]);
  }

  /** A name that is neither an enum, a class nor an extension. */
  predicate PlainName(c: Config, b: string) {
    b !in EnumNames(c) + GeneratedEnums && b !in ClassNames(c) && !IsExt(c, b)
  }

  /** The types `toJson` passes through untouched: names whose typedef
      target (or the name itself) is plain; lists of such types; and maps
      keyed by a plain `String` whose values are such types. */
  predicate IdentityType(c: Config, t: TypeExpr) {
    match t
    case Named(n) => PlainName(c, BaseType(c, n))
    case Nullable(_) => false
    case ListOf(e) => IdentityType(c, e)
    case MapOf(k, v) => BaseType(c, k) == "String" && "String" !in EnumNames(c) && IdentityType(c, v)
  }

  /** `toJson` hands back the getter itself exactly for the identity types:
      the fallback leaf returns the getter and the list and map shortcuts
      carry that upwards, while a nullable type, an enum, class or
      extension leaf, or any non-`String` key (an `int` key's
      `.toString()`, say) produces a wrapper or an error. */
  lemma ToJsonIdentity(c: Config, t: TypeExpr, g: Expr, fuel: nat)
    requires WellFormed(c, t) && fuel > Depth(t)
    ensures ToJson(c, Render(t), g, fuel) == Ok(g) <==> IdentityType(c, t)
  {
    IdentityAll(c, t);
  }

  ghost predicate IdentityHolds(c: Config, t: TypeExpr) {
    forall g, fuel: nat :: fuel > Depth(t) ==>
      (ToJson(c, Render(t), g, fuel) == Ok(g) <==> IdentityType(c, t))
  }

  lemma {:induction false} IdentityAll(c: Config, t: TypeExpr)
    requires WellFormed(c, t)
    ensures IdentityHolds(c, t)
  {
    match t
    case Named(n) =>
      forall g, fuel: nat | fuel > 0 { ToJsonIdentityName(c, n, g, fuel); }
    case Nullable(i) =>
      forall g, fuel: nat | fuel > Depth(t) { ToJsonIdentityNullable(c, i, g, fuel); }
    case ListOf(e) =>
      IdentityAll(c, e);
      ShapeOfList(c, e);
      forall g, fuel: nat | fuel > Depth(t) { ToJsonIdentityList(c, Render(t), e, g, fuel); }
    case MapOf(k, v) =>
      IdentityAll(c, v);
      ShapeOfMap(c, k, v);
      forall g, fuel: nat | fuel > Depth(t) { ToJsonIdentityMap(c, Render(t), k, v, g, fuel); }
  }

  lemma ToJsonIdentityName(c: Config, n: string, g: Expr, fuel: nat)
    requires SimpleName(n) && SimpleName(BaseType(c, n)) && fuel > 0
    ensures ToJson(c, n, g, fuel) == Ok(g) <==> IdentityType(c, Named(n))
  {
    ShapeOfName(c, n);
    RefStep(c, n, g, fuel, BaseType(c, n));
    RefIdentity(c, BaseType(c, n), g);
  }

  /** The leaf encoder returns the getter exactly for plain names. */
  lemma RefIdentity(c: Config, b: string, g: Expr)
    ensures ToJsonRef(c, b, g) == g <==> PlainName(c, b)
  {
    assert Size(EnumIndexOf(b, g)) > Size(g) && Size(ToJsonCall(g)) > Size(g);
  }

  lemma ToJsonIdentityNullable(c: Config, i: TypeExpr, g: Expr, fuel: nat)
    requires WellFormed(c, i) && fuel > Depth(i) + 1
    ensures ToJson(c, Render(i) + "?", g, fuel) != Ok(g)
  {
    ShapeOfNullable(c, i);
    NullableGuard(c, Render(i) + "?", g, fuel, Render(i));
    var r := ToJson(c, Render(i), NullableVar, fuel - 1);
    if r.Ok? {
      assert Size(NullGuard(g, r.value)) > Size(g);
    }
  }

  lemma ToJsonIdentityList(c: Config, t: string, e: TypeExpr, g: Expr, fuel: nat)
    requires ShapeOf(c, t) == ListShape(Render(e))
    requires fuel > Depth(e) + 1
    requires ToJson(c, Render(e), ElementVar, fuel - 1) == Ok(ElementVar) <==> IdentityType(c, e)
    ensures ToJson(c, t, g, fuel) == Ok(g) <==> IdentityType(c, e)
  {
    ToJsonListStep(c, t, g, fuel, Render(e));
    ListIdentity(g, ToJson(c, Render(e), ElementVar, fuel - 1), ToJson(c, t, g, fuel));
  }

  /** A list conversion is the identity exactly when its element
      conversion is. */
  lemma ListIdentity(g: Expr, elem: Result<Expr>, out: Result<Expr>)
    requires elem.Err? ==> out == elem
    requires elem == Ok(ElementVar) ==> out == Ok(g)
    requires elem.Ok? && elem.value != ElementVar ==> out == Ok(ListMap(g, elem.value))
    ensures out == Ok(g) <==> elem == Ok(ElementVar)
  {
    if elem.Ok? {
      assert Size(ListMap(g, elem.value)) > Size(g);
    }
  }

  lemma ToJsonIdentityMap(c: Config, t: string, k: string, v: TypeExpr, g: Expr, fuel: nat)
    requires ShapeOf(c, t) == MapShape(k, Render(v))
    requires fuel > Depth(v) + 1
    requires ToJson(c, Render(v), ValueVar, fuel - 1) == Ok(ValueVar) <==> IdentityType(c, v)
    ensures ToJson(c, t, g, fuel) == Ok(g) <==>
      BaseType(c, k) == "String" && "String" !in EnumNames(c) && IdentityType(c, v)
  {
    ToJsonMapStep(c, t, g, fuel, k, Render(v));
    MapIdentity(g, ToString(c, k, KeyVar), ToJson(c, Render(v), ValueVar, fuel - 1), ToJson(c, t, g, fuel));
  }

  /** A map conversion is the identity exactly when its key and value
      conversions both are. */
  lemma MapIdentity(g: Expr, key: Result<Expr>, val: Result<Expr>, out: Result<Expr>)
    requires key.Err? ==> out == Err(key.error)
    requires key.Ok? && val.Err? ==> out == Err(val.error)
    requires key == Ok(KeyVar) && val == Ok(ValueVar) ==> out == Ok(g)
    requires key.Ok? && val.Ok? && (key.value != KeyVar || val.value != ValueVar) ==>
      out == Ok(MapEntries(g, key.value, val.value))
    ensures out == Ok(g) <==> key == Ok(KeyVar) && val == Ok(ValueVar)
  {
    if key.Ok? && val.Ok? {
      assert Size(MapEntries(g, key.value, val.value)) > Size(g);
    }
  }

  /** `List<int>?` is a nullable list, not a list of nullable ints: the `?`
      test comes before the `List<` test. */
  lemma NullableListIsNullable(c: Config)
    requires TypedefKeysSimple(c)
    ensures ShapeOf(c, "List<int>?") == NullableShape("List<int>")
  {
    var t := ListOf(Named("int"));
    assert Render(t) == "List<int>";
    assert Render(t) + "?" == "List<int>?";
    ShapeOfNullable(c, t);
  }
}
