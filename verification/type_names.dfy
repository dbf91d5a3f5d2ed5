/** Type-string handling (generate.py:15-47): one-step typedef
    substitution, extension lookup through the reversed extension table,
    and the comma split of a `Map<K, V>` type string.
 */
module TypeNames {
  import opened Errors
  import opened PyDict
  import opened PyStr
  import opened Schema

  /** `baseType`: ONE step of typedef substitution; a typedef whose target
      is itself a typedef is not followed further here. */
  function BaseType(c: Config, t: string): string {
    if t in c.typedefs then c.typedefs[t] else t
  }

  /** `isExt`: `t` is the name of some class's extension. Note that, unlike
      `extBase`, it does not apply `baseType` first. */
  predicate IsExt(c: Config, t: string) {
    Lookup(Reverse(c.extensions), t).Some?
  }

  /** `isExt` holds exactly for the declared extension names. */
  lemma IsExtDeclared(c: Config, t: string)
    ensures IsExt(c, t) <==> exists i :: 0 <= i < |c.extensions| && c.extensions[i].1 == t
  {
    ReverseLookup(c.extensions, t);
  }

  /** `extBase`: the class whose extension is `baseType(t)`; a name that is
      not an extension name raises `KeyError`. When two classes name the
      same extension, the later declaration wins. */
  function ExtBase(c: Config, t: string): (r: Result<string>)
    ensures r.Err? <==> !IsExt(c, BaseType(c, t))
    ensures r.Err? ==> r.error == KeyError(BaseType(c, t))
    ensures r.Ok? ==>
      exists i :: 0 <= i < |c.extensions| && c.extensions[i] == (r.value, BaseType(c, t)) &&
        forall j :: i < j < |c.extensions| ==> c.extensions[j].1 != BaseType(c, t)
  {
    var b := BaseType(c, t);
    ReverseLookup(c.extensions, b);
    match Lookup(Reverse(c.extensions), b)
    case None => Err(KeyError(b))
    case Some(k) => Ok(k)
  }

  /** `mapTypes`: after one typedef step, the key is everything between
      `Map<` and the first comma (not stripped) and the value everything
      between that comma and the last character (stripped). */
  function MapTypes(c: Config, t: string): (string, string) {
    var m := BaseType(c, t);
    var comma := Find(m, ',');
    (Slice(m, 4, comma), Strip(Slice(m, comma + 1, -1)))
  }

  /** On `Map<K,V>` with a comma-free key `K`, `mapTypes` returns `K` and the
      stripped `V`. */
  lemma MapTypesSplit(c: Config, k: string, v: string)
    requires ',' !in k
    requires "Map<" + k + "," + v + ">" !in c.typedefs
    ensures MapTypes(c, "Map<" + k + "," + v + ">") == (k, Strip(v))
  {
    var m := "Map<" + k + "," + v + ">";
    assert BaseType(c, m) == m;
    var n := 4 + |k|;
    assert m[n] == ',';
    assert m[..n] == "Map<" + k;
    assert ',' !in m[..n] by {
      assert forall i :: 0 <= i < n ==> m[..n][i] == (if i < 4 then "Map<"[i] else k[i - 4]);
    }
    PyDict.IndexOfAt(m, ',', n);
    assert Find(m, ',') == n;
    assert Slice(m, 4, n) == m[4..n] == k;
    assert Slice(m, n + 1, -1) == m[n + 1..|m| - 1] == v;
  }

  /** What one level of `fromJson`/`toJson` sees in a type string, after one
      typedef step: the `endswith('?')` test comes first, then the
      `startswith('List<')` and `startswith('Map<')` tests, and anything else
      is a reference to a named type. */
  datatype Shape =
    | NullableShape(inner: string)
    | ListShape(elem: string)
    | MapShape(key: string, value: string)
    | RefShape(name: string)

  function ShapeOf(c: Config, t: string): Shape {
    var b := BaseType(c, t);
    if EndsWith(b, "?") then NullableShape(Slice(b, 0, -1))
    else if StartsWith(b, "List<") then ListShape(Slice(b, 5, -1))
    else if StartsWith(b, "Map<") then
      var (k, v) := MapTypes(c, b);
      MapShape(k, v)
    else RefShape(b)
  }
}
