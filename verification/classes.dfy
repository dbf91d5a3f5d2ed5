/** Class emission (generate.py:197-254) and `generate_copywith`
    (generate.py:153-171): for each declared class, its fields with their
    `required` flags, the `fromJson` factory's per-field decoders, the
    `toJson` map's per-field encoders, the `as<Ext>` getter when the class
    has an extension, and the copy-with methods.
 */
module Classes {
  import opened Errors
  import opened PyDict
  import opened PyStr
  import opened Schema
  import opened DartExpr
  import opened Synth

  /** A constructor parameter `this.name`, `required` unless nullable. */
  datatype Field = Field(name: string, typ: string, required: bool)

  /** A copy-with method: the type it returns, its name, and its named
      parameters with their (nullable) types. */
  datatype CopyWith = CopyWith(resultType: string, member: string, params: seq<(string, string)>)

  datatype ClassDecl = ClassDecl(
    name: string,
    fields: seq<Field>,
    decoders: seq<(string, Expr)>,      // fromJson: field name -> decoding of json['name']
    encoders: seq<(string, Expr)>,      // toJson: 'name' -> encoding of the field
    asExtension: Option<string>,        // `Ext get asExt => Ext(...)`
    copyWiths: seq<CopyWith>)

  /** The `json['name']` access the factory decodes a field from. */
  function JsonField(n: string): Expr {
    Index(Var("json"), n)
  }

  /** The constructor's parameter list. */
  function Fields(data: Dict<string, string>): (fs: seq<Field>)
    ensures |fs| == |data|
    ensures forall i :: 0 <= i < |data| ==>
      fs[i].name == data[i].0 && fs[i].typ == data[i].1 && (fs[i].required <==> !EndsWith(data[i].1, "?"))
  {
    seq(|data|, i requires 0 <= i < |data| => Field(data[i].0, data[i].1, !EndsWith(data[i].1, "?")))
  }

  /** The factory's decoders, field by field; the first field whose type
      cannot be decoded aborts generation with that field's error. */
  function Decoders(c: Config, data: Dict<string, string>, fuel: nat): (r: Result<seq<(string, Expr)>>)
    ensures r.Ok? <==> forall i :: 0 <= i < |data| ==> FromJson(c, data[i].1, JsonField(data[i].0), fuel).Ok?
    ensures r.Ok? ==> (|r.value| == |data| &&
      forall i :: 0 <= i < |data| ==>
        r.value[i] == (data[i].0, FromJson(c, data[i].1, JsonField(data[i].0), fuel).value))
    ensures r.Err? ==>
      exists i :: 0 <= i < |data| && FromJson(c, data[i].1, JsonField(data[i].0), fuel) == Err(r.error) &&
                  forall j :: 0 <= j < i ==> FromJson(c, data[j].1, JsonField(data[j].0), fuel).Ok?
  {
    if |data| == 0 then Ok([])
    else
      var d0 := FromJson(c, data[0].1, JsonField(data[0].0), fuel);
      if d0.Err? then Err(d0.error)
      else
        var rest := Decoders(c, data[1..], fuel);
        if rest.Err? then
          assert forall i :: 1 <= i < |data| ==> data[1..][i - 1] == data[i];
          Err(rest.error)
        else
          Ok([(data[0].0, d0.value)] + rest.value)
  }

  /** The `toJson` map's encoders, field by field, with the same
      first-failure rule. */
  function Encoders(c: Config, data: Dict<string, string>, fuel: nat): (r: Result<seq<(string, Expr)>>)
    ensures r.Ok? <==> forall i :: 0 <= i < |data| ==> ToJson(c, data[i].1, Var(data[i].0), fuel).Ok?
    ensures r.Ok? ==> (|r.value| == |data| &&
      forall i :: 0 <= i < |data| ==>
        r.value[i] == (data[i].0, ToJson(c, data[i].1, Var(data[i].0), fuel).value))
    ensures r.Err? ==>
      exists i :: 0 <= i < |data| && ToJson(c, data[i].1, Var(data[i].0), fuel) == Err(r.error) &&
                  forall j :: 0 <= j < i ==> ToJson(c, data[j].1, Var(data[j].0), fuel).Ok?
  {
    if |data| == 0 then Ok([])
    else
      var e0 := ToJson(c, data[0].1, Var(data[0].0), fuel);
      if e0.Err? then Err(e0.error)
      else
        var rest := Encoders(c, data[1..], fuel);
        if rest.Err? then
          assert forall i :: 1 <= i < |data| ==> data[1..][i - 1] == data[i];
          Err(rest.error)
        else
          Ok([(data[0].0, e0.value)] + rest.value)
  }

  /** The type a copy-with parameter is declared with: nullable, adding a
      `?` only when the field's type lacks one. */
  function ParamType(t: string): (p: string)
    ensures EndsWith(p, "?")
    ensures EndsWith(t, "?") ==> p == t
    ensures !EndsWith(t, "?") ==> p[..|p| - 1] == t
  {
    if EndsWith(t, "?") then t
    else
      var p := t + "?";
      assert p[|p| - 1..] == "?";
      p
  }

  /** `generate_copywith(type, name, fields)` */
  function GenerateCopyWith(resultType: string, member: string, data: Dict<string, string>): (m: CopyWith)
    ensures m.resultType == resultType && m.member == member
    ensures |m.params| == |data|
    ensures forall i :: 0 <= i < |data| ==>
      m.params[i].0 == data[i].0 && m.params[i].1 == ParamType(data[i].1)
  {
    CopyWith(resultType, member, seq(|data|, i requires 0 <= i < |data| => (data[i].0, ParamType(data[i].1))))
  }

  /** The copy-with methods of a class: `copyBaseWith` returning the class
      and `copyWith` returning its extension when it has one, otherwise a
      single `copyWith` returning the class. */
  function CopyWiths(name: string, ext: Option<string>, data: Dict<string, string>): seq<CopyWith> {
    match ext
    case Some(e) => [GenerateCopyWith(name, "copyBaseWith", data), GenerateCopyWith(e, "copyWith", data)]
    case None => [GenerateCopyWith(name, "copyWith", data)]
  }

  /** One class of `generate_base`. */
  function EmitClass(c: Config, name: string, data: Dict<string, string>, fuel: nat): Result<ClassDecl> {
    var dec :- Decoders(c, data, fuel);
    var enc :- Encoders(c, data, fuel);
    var ext := Lookup(c.extensions, name);
    Ok(ClassDecl(name, Fields(data), dec, enc, ext, CopyWiths(name, ext, data)))
  }

  /** A class is emitted exactly when every field type decodes: encoding
      follows from decoding, so a field's encoder never fails where its
      decoder succeeded. Every field is then listed, in order, in the
      constructor, the factory and the `toJson` map. */
  lemma EmitClassIffDecodable(c: Config, name: string, data: Dict<string, string>, fuel: nat)
    ensures EmitClass(c, name, data, fuel).Ok? <==>
      forall i :: 0 <= i < |data| ==> FromJson(c, data[i].1, JsonField(data[i].0), fuel).Ok?
    ensures EmitClass(c, name, data, fuel).Ok? ==>
      var d := EmitClass(c, name, data, fuel).value;
      |d.fields| == |d.decoders| == |d.encoders| == |data| &&
      forall i :: 0 <= i < |data| ==>
        d.fields[i].name == d.decoders[i].0 == d.encoders[i].0 == data[i].0
  {
    if forall i :: 0 <= i < |data| ==> FromJson(c, data[i].1, JsonField(data[i].0), fuel).Ok? {
      forall i | 0 <= i < |data| ensures ToJson(c, data[i].1, Var(data[i].0), fuel).Ok? {
        DecodableIsEncodable(c, data[i].1, JsonField(data[i].0), Var(data[i].0), fuel);
      }
    }
  }

  /** Every copy-with method takes every field as an optional named
      parameter: a nullable field keeps its type, a required one gets a
      `?`. With an extension there are two methods with the same
      parameters, `copyBaseWith` returning the class and `copyWith`
      returning the extension; otherwise one `copyWith` returning the class. */
  lemma CopyWithParams(name: string, ext: Option<string>, data: Dict<string, string>)
    ensures var ms := CopyWiths(name, ext, data);
      && |ms| == (if ext.Some? then 2 else 1)
      && ms[|ms| - 1].member == "copyWith"
      && ms[|ms| - 1].resultType == (if ext.Some? then ext.value else name)
      && (ext.Some? ==> ms[0] == CopyWith(name, "copyBaseWith", ms[1].params))
      && forall m :: m in ms ==>
           |m.params| == |data| &&
           forall i :: 0 <= i < |data| ==>
             m.params[i].0 == data[i].0 && EndsWith(m.params[i].1, "?") &&
             (Fields(data)[i].required <==> m.params[i].1 != data[i].1)
  {
    var ms := CopyWiths(name, ext, data);
    forall m, i | m in ms && 0 <= i < |data|
      ensures Fields(data)[i].required <==> m.params[i].1 != data[i].1
    {
      var t := data[i].1;
      if !EndsWith(t, "?") {
        assert |ParamType(t)| == |t| + 1;
      }
    }
  }

  // ---------------------------------------------------------------------
  // What the emitted copy-with method does: `name: name ?? this.name` for
  // every field. An argument left out is `null`.

  /** The field values of the copy: each argument that is not null, or the
      current value. */
  function ApplyCopyWith<V>(current: seq<Option<V>>, args: seq<Option<V>>): (r: seq<Option<V>>)
    requires |args| == |current|
    ensures |r| == |current|
    ensures forall i :: 0 <= i < |current| ==> (args[i].Some? ==> r[i] == args[i])
    ensures forall i :: 0 <= i < |current| ==> (args[i].None? ==> r[i] == current[i])
  {
    seq(|current|, i requires 0 <= i < |current| => if args[i].Some? then args[i] else current[i])
  }

  /** Copying with no arguments copies every field; copying cannot set a
      field to null; copying twice with the same arguments is copying once. */
  lemma CopyWithLaws<V>(current: seq<Option<V>>, args: seq<Option<V>>)
    requires |args| == |current|
    ensures ApplyCopyWith(current, seq(|current|, _ => None)) == current
    ensures forall i :: 0 <= i < |current| && current[i].Some? ==> ApplyCopyWith(current, args)[i].Some?
    ensures ApplyCopyWith(ApplyCopyWith(current, args), args) == ApplyCopyWith(current, args)
  {
  }
}
