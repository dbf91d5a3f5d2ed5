/** Enum emission (generate.py:49-75) and the three enums generate.py
    declares: `AuthLevel` (generate.py:191-192), each user enum
    (generate.py:194-195) and `APIException` (generate.py:256-259).

    `generate_enum` writes, from an ordered label -> wire-string table, the
    Dart enum (labels in table order, so a label's ordinal is its position),
    a wire-string -> label map behind `<Name>FromString` and a label ->
    wire-string map behind `<Name>ToString`. `<Name>FromString` of a string
    not in its map fails Dart's `!` null check; that is `None` here.
 */
module Enums {
  import opened Errors
  import opened PyDict
  import opened PyStr

  /** One emitted enum: its labels in declaration order and the two maps. */
  datatype EnumDecl = EnumDecl(
    name: string,
    labels: seq<string>,
    fromString: Dict<string, string>,    // wire string -> label
    toString: Dict<string, string>)      // label -> wire string

  /** `generate_enum(buf, name, values)` */
  function GenerateEnum(name: string, values: Dict<string, string>): (d: EnumDecl)
    ensures d.name == name && d.labels == Keys(values)
    ensures |d.fromString| == |d.toString| == |d.labels|
    ensures forall i :: 0 <= i < |d.labels| ==>
      d.toString[i] == (d.labels[i], values[i].1) && d.fromString[i] == (values[i].1, d.labels[i])
  {
    EnumDecl(name, Keys(values), seq(|values|, i requires 0 <= i < |values| => (values[i].1, values[i].0)), values)
  }

  /** `Name.values.indexOf(label)`: the label's ordinal, or -1. */
  function Ordinal(d: EnumDecl, tag: string): int {
    IndexOf(d.labels, tag)
  }

  /** `NameFromString(s)`: the Dart map literal keeps the last entry for a
      repeated key. */
  function DecodeWire(d: EnumDecl, s: string): Option<string> {
    Lookup(FromPairs(d.fromString), s)
  }

  /** `NameToString(label)` */
  function EncodeWire(d: EnumDecl, tag: string): Option<string> {
    Lookup(d.toString, tag)
  }

  /** With distinct wire strings, each label's wire string decodes back to
      the label and each label encodes to its own wire string. */
  lemma WireRoundTrip(name: string, values: Dict<string, string>, i: nat)
    requires Distinct(Keys(values)) && Distinct(Values(values))
    requires i < |values|
    ensures var d := GenerateEnum(name, values);
      && EncodeWire(d, values[i].0) == Some(values[i].1)
      && DecodeWire(d, values[i].1) == Some(values[i].0)
      && Ordinal(d, values[i].0) == i
  {
    var d := GenerateEnum(name, values);
    assert FromPairs(d.fromString) == Reverse(values);
    ReverseInverts(values, i);
    IndexOfAt(d.labels, values[i].0, i);
    LookupDistinct(values, i);
  }

  /** In a dict with distinct keys, looking up the i-th key finds the i-th value. */
  lemma LookupDistinct(d: Dict<string, string>, i: nat)
    requires Distinct(Keys(d)) && i < |d|
    ensures Lookup(d, d[i].0) == Some(d[i].1)
  {
    IndexOfAt(Keys(d), d[i].0, i);
  }

  /** `{v: v for v in vs}`: the table whose labels are their own wire strings. */
  function SelfTable(vs: seq<string>): Dict<string, string> {
    FromPairs(seq(|vs|, i requires 0 <= i < |vs| => (vs[i], vs[i])))
  }

  /** A self table lists each value once, in order of first occurrence,
      with itself as its wire string, so no wire string repeats. */
  lemma SelfTableFacts(vs: seq<string>)
    ensures var t := SelfTable(vs);
      && Keys(t) == Dedup(vs)
      && (forall i :: 0 <= i < |t| ==> t[i].1 == t[i].0)
      && Values(t) == Keys(t)
      && Distinct(Values(t))
  {
    var ps := seq(|vs|, i requires 0 <= i < |vs| => (vs[i], vs[i]));
    FromPairsEntries(ps);
    FromPairsKeys(ps);
    assert Keys(ps) == vs;
    var t := FromPairs(ps);
    forall i | 0 <= i < |t| ensures t[i].1 == t[i].0 {
      assert t[i] in ps;
    }
  }

  /** The `AuthLevel` enum: `Unauthorized` first, then the configured levels
      in order, each label its own wire string. */
  function AuthLevelEnum(levels: seq<string>): EnumDecl {
    GenerateEnum("AuthLevel", SelfTable(["Unauthorized"] + levels))
  }

  /** A user enum: its values in order, each its own wire string. */
  function UserEnum(name: string, vs: seq<string>): EnumDecl {
    GenerateEnum(name, SelfTable(vs))
  }

  /** In an enum built from a value list, each value is a label that is
      its own wire string, and its ordinal is the number of distinct values
      before its first occurrence. */
  lemma SelfTableOrdinal(name: string, vs: seq<string>, i: nat)
    requires i < |vs|
    ensures var d := GenerateEnum(name, SelfTable(vs));
      && Ordinal(d, vs[i]) == |Dedup(vs[..IndexOf(vs, vs[i])])|
      && EncodeWire(d, vs[i]) == Some(vs[i])
      && DecodeWire(d, vs[i]) == Some(vs[i])
  {
    var t := SelfTable(vs);
    SelfTableFacts(vs);
    DedupIndex(vs, vs[i]);
    var j := IndexOf(Keys(t), vs[i]);
    assert 0 <= j && t[j].0 == vs[i] && t[j].1 == vs[i];
    WireRoundTrip(name, t, j);
  }

  /** With no repeated values, a value's ordinal is its position. */
  lemma SelfTableOrdinalDistinct(name: string, vs: seq<string>, i: nat)
    requires Distinct(vs) && i < |vs|
    ensures Ordinal(GenerateEnum(name, SelfTable(vs)), vs[i]) == i
  {
    SelfTableOrdinal(name, vs, i);
    DedupOfDistinct(vs[..IndexOf(vs, vs[i])]);
    IndexOfAt(vs, vs[i], i);
  }

  /** `AuthLevel.Unauthorized` has ordinal 0 and a level listed once, not
      named `Unauthorized`, right after its predecessors has ordinal one
      more than its position among the levels. */
  lemma AuthLevelOrdinals(levels: seq<string>, i: nat)
    requires Distinct(["Unauthorized"] + levels) && i < |levels|
    ensures Ordinal(AuthLevelEnum(levels), "Unauthorized") == 0
    ensures Ordinal(AuthLevelEnum(levels), levels[i]) == i + 1
  {
    var vs := ["Unauthorized"] + levels;
    SelfTableOrdinalDistinct("AuthLevel", vs, 0);
    SelfTableOrdinalDistinct("AuthLevel", vs, i + 1);
  }

  // ---------------------------------------------------------------------
  // APIException

  /** The built-in exceptions, in the order of their ordinals. */
  const BuiltinExceptions: seq<string> :=
    ["Success", "Unsupported method", "Unsupported endpoint", "Object format error", "Internal error", "Unauthorized"]

  /** Their Dart labels. */
  const BuiltinLabels: seq<string> :=
    ["Success", "UnsupportedMethod", "UnsupportedEndpoint", "ObjectFormatError", "InternalError", "Unauthorized"]

  /** `exception.title().replace(' ', '')` */
  function Ident(e: string): (r: string)
    ensures ' ' !in r
  {
    DeleteAll(Title(e), ' ')
  }

  /** The labels of a list of exceptions. */
  function Idents(es: seq<string>): (ids: seq<string>)
    ensures |ids| == |es|
    ensures forall i :: 0 <= i < |es| ==> ids[i] == Ident(es[i])
  {
    seq(|es|, i requires 0 <= i < |es| => Ident(es[i]))
  }

  /** The exception list the enum is built from. */
  function AllExceptions(declared: seq<string>): seq<string> {
    BuiltinExceptions + declared
  }

  /** The comprehension's (label, wire string) pairs, before dict insertion. */
  function LabelPairs(all: seq<string>): (ps: seq<(string, string)>)
    ensures |ps| == |all|
    ensures forall i :: 0 <= i < |ps| ==> ps[i] == (Ident(all[i]), all[i])
    ensures Keys(ps) == Idents(all)
  {
    seq(|all|, i requires 0 <= i < |all| => (Ident(all[i]), all[i]))
  }

  function ExceptionPairs(declared: seq<string>): seq<(string, string)> {
    LabelPairs(AllExceptions(declared))
  }

  /** `exceptions = {e.title().replace(' ', ''): e for e in ...}` */
  function ExceptionTable(declared: seq<string>): (t: Dict<string, string>)
    ensures Distinct(Keys(t))
  {
    FromPairsEntries(ExceptionPairs(declared));
    FromPairs(ExceptionPairs(declared))
  }

  function ExceptionEnum(declared: seq<string>): EnumDecl {
    GenerateEnum("APIException", ExceptionTable(declared))
  }

  /** The enum's labels: the labels of the built-ins, then of the declared
      exceptions, each kept at its first occurrence. */
  lemma ExceptionLabels(declared: seq<string>)
    ensures ExceptionEnum(declared).labels == Dedup(BuiltinLabels + Idents(declared))
  {
    FromPairsKeys(ExceptionPairs(declared));
    ExceptionPairKeys(declared);
  }

  lemma ExceptionPairKeys(declared: seq<string>)
    ensures Keys(ExceptionPairs(declared)) == Idents(AllExceptions(declared)) == BuiltinLabels + Idents(declared)
  {
    BuiltinLabelsComputed();
    assert Idents(AllExceptions(declared)) == Idents(BuiltinExceptions) + Idents(declared);
  }

  lemma BuiltinLabelsDistinct()
    ensures Distinct(BuiltinLabels)
  {
  }

  /** The six built-ins keep ordinals 0 to 5 in their listed order, whatever
      is declared after them. */
  lemma BuiltinOrdinals(declared: seq<string>, k: nat)
    requires k < 6
    ensures Ordinal(ExceptionEnum(declared), BuiltinLabels[k]) == k
  {
    var ids := BuiltinLabels + Idents(declared);
    ExceptionLabels(declared);
    BuiltinLabelsDistinct();
    DedupPrefix(BuiltinLabels, Idents(declared));
    DedupOfDistinct(BuiltinLabels);
    var labels := Dedup(ids);
    assert labels[..6] == BuiltinLabels;
    assert labels[k] == BuiltinLabels[k];
    assert BuiltinLabels[k] !in labels[..k] by {
      assert labels[..k] == BuiltinLabels[..k];
    }
    IndexOfAt(labels, BuiltinLabels[k], k);
  }

  /** A declared exception's label has, as its ordinal, the number of
      distinct labels before the label's first occurrence; when no two
      labels coincide, the j-th declared exception has ordinal 6 + j. */
  lemma DeclaredOrdinal(declared: seq<string>, j: nat)
    requires j < |declared|
    ensures var ids := BuiltinLabels + Idents(declared);
      Ordinal(ExceptionEnum(declared), Ident(declared[j])) == |Dedup(ids[..IndexOf(ids, Ident(declared[j]))])|
    ensures Distinct(BuiltinLabels + Idents(declared)) ==>
      Ordinal(ExceptionEnum(declared), Ident(declared[j])) == 6 + j
  {
    var ids := BuiltinLabels + Idents(declared);
    var x := Ident(declared[j]);
    assert ids[6 + j] == x;
    ExceptionLabels(declared);
    DedupIndex(ids, x);
    if Distinct(ids) {
      IndexOfAt(ids, x, 6 + j);
      DedupOfDistinct(ids[..6 + j]);
    }
  }

  /** A label's wire string is the LAST exception in the list with that
      label: a declared exception whose label equals an earlier one
      overwrites its wire string (and, by `BuiltinOrdinals` and
      `DeclaredOrdinal`, keeps the earlier ordinal). */
  lemma ExceptionWireString(declared: seq<string>, x: string)
    requires x in BuiltinLabels + Idents(declared)
    ensures var all := AllExceptions(declared);
      exists i :: 0 <= i < |all| && Ident(all[i]) == x &&
                  EncodeWire(ExceptionEnum(declared), x) == Some(all[i]) &&
                  (forall j :: i < j < |all| ==> Ident(all[j]) != x)
  {
    ExceptionPairKeys(declared);
    LabelTableLastWins(AllExceptions(declared), x);
  }

  lemma LabelTableLastWins(all: seq<string>, x: string)
    requires x in Idents(all)
    ensures exists i :: 0 <= i < |all| && Ident(all[i]) == x &&
                        Lookup(FromPairs(LabelPairs(all)), x) == Some(all[i]) &&
                        (forall j :: i < j < |all| ==> Ident(all[j]) != x)
  {
    var ps := LabelPairs(all);
    FromPairsLastWins(ps, x);
    var i :| 0 <= i < |ps| && ps[i].0 == x && Lookup(FromPairs(ps), x) == Some(ps[i].1) &&
             (forall j :: i < j < |ps| ==> ps[j].0 != x);
    assert ps[i] == (Ident(all[i]), all[i]);
  }

  /** The wire strings of `APIException` are distinct, so every wire string
      decodes to its own label and every label encodes to its wire string. */
  lemma ExceptionWireRoundTrip(declared: seq<string>, i: nat)
    requires i < |ExceptionTable(declared)|
    ensures Distinct(Values(ExceptionTable(declared)))
    ensures var t := ExceptionTable(declared);
      && EncodeWire(ExceptionEnum(declared), t[i].0) == Some(t[i].1)
      && DecodeWire(ExceptionEnum(declared), t[i].1) == Some(t[i].0)
      && Ordinal(ExceptionEnum(declared), t[i].0) == i
  {
    var ps := ExceptionPairs(declared);
    FromPairsValuesDistinct(ps, Ident);
    WireRoundTrip("APIException", ExceptionTable(declared), i);
  }

  /** Title-casing and dropping spaces treats words separately. */
  lemma IdentWords(a: string, b: string)
    ensures Ident(a + " " + b) == Ident(a) + Ident(b)
  {
    TitleSpace(a);
    TitleAppend(a + " ", b);
    DeleteAllAppend(Title(a) + " ", Title(b), ' ');
    DeleteAllAppend(Title(a), " ", ' ');
  }

  lemma TitleSpace(a: string)
    ensures Title(a + " ") == Title(a) + " "
  {
  }

  /** A word whose title-cased form has no space is only title-cased. */
  lemma IdentWord(w: string, tw: string)
    requires Title(w) == tw && ' ' !in tw
    ensures Ident(w) == tw
  {
    DeleteAllAbsent(tw, ' ');
  }

  /** Two words joined by a space: their labels concatenated. */
  lemma IdentPhrase(a: string, b: string, ta: string, tb: string, s: string, r: string)
    requires Ident(a) == ta && Ident(b) == tb
    requires s == a + " " + b && r == ta + tb
    ensures Ident(s) == r
  {
    IdentWords(a, b);
  }

  /** The literal spellings the phrase lemmas below rely on. They are kept
      in a lemma of their own: proved next to the title-casing facts, the
      same sequence equalities exhaust the solver. */
  lemma Spellings()
    ensures "Unsupported" + " " + "method" == "Unsupported method"
    ensures "Unsupported" + "Method" == "UnsupportedMethod"
    ensures "Unsupported" + " " + "endpoint" == "Unsupported endpoint"
    ensures "Unsupported" + "Endpoint" == "UnsupportedEndpoint"
    ensures "Object" + " " + "format" == "Object format"
    ensures "Object" + "Format" == "ObjectFormat"
    ensures "Object format" + " " + "error" == "Object format error"
    ensures "ObjectFormat" + "Error" == "ObjectFormatError"
    ensures "Internal" + " " + "error" == "Internal error"
    ensures "Internal" + "Error" == "InternalError"
  {
  }

  /** The six built-in exceptions get the labels the server and client
      code refer to. */
  lemma BuiltinLabelsComputed()
    ensures Idents(BuiltinExceptions) == BuiltinLabels
  {
    BuiltinIdent0(); BuiltinIdent1(); BuiltinIdent2();
    BuiltinIdent3(); BuiltinIdent4(); BuiltinIdent5();
    SixLabels(BuiltinExceptions, BuiltinLabels);
  }

  lemma SixLabels(es: seq<string>, ls: seq<string>)
    requires |es| == 6 && |ls| == 6
    requires Ident(es[0]) == ls[0] && Ident(es[1]) == ls[1] && Ident(es[2]) == ls[2]
    requires Ident(es[3]) == ls[3] && Ident(es[4]) == ls[4] && Ident(es[5]) == ls[5]
    ensures Idents(es) == ls
  {
  }

  lemma BuiltinIdent0() ensures Ident(BuiltinExceptions[0]) == BuiltinLabels[0] {
    assert BuiltinExceptions[0] == "Success";
    assert BuiltinLabels[0] == "Success";
    IdentSuccess();
  }

  lemma BuiltinIdent1() ensures Ident(BuiltinExceptions[1]) == BuiltinLabels[1] {
    assert BuiltinExceptions[1] == "Unsupported method";
    assert BuiltinLabels[1] == "UnsupportedMethod";
    IdentUnsupportedMethod();
  }

  lemma BuiltinIdent2() ensures Ident(BuiltinExceptions[2]) == BuiltinLabels[2] {
    assert BuiltinExceptions[2] == "Unsupported endpoint";
    assert BuiltinLabels[2] == "UnsupportedEndpoint";
    IdentUnsupportedEndpoint();
  }

  lemma BuiltinIdent3() ensures Ident(BuiltinExceptions[3]) == BuiltinLabels[3] {
    assert BuiltinExceptions[3] == "Object format error";
    assert BuiltinLabels[3] == "ObjectFormatError";
    IdentObjectFormatError();
  }

  lemma BuiltinIdent4() ensures Ident(BuiltinExceptions[4]) == BuiltinLabels[4] {
    assert BuiltinExceptions[4] == "Internal error";
    assert BuiltinLabels[4] == "InternalError";
    IdentInternalError();
  }

  lemma BuiltinIdent5() ensures Ident(BuiltinExceptions[5]) == BuiltinLabels[5] {
    assert BuiltinExceptions[5] == "Unauthorized";
    assert BuiltinLabels[5] == "Unauthorized";
    IdentUnauthorized();
  }

  lemma IdentSuccess() ensures Ident("Success") == "Success" {
    assert Title("Success") == "Success";
    IdentWord("Success", "Success");
  }

  lemma IdentUnauthorized() ensures Ident("Unauthorized") == "Unauthorized" {
    assert Title("Unauthorized") == "Unauthorized";
    IdentWord("Unauthorized", "Unauthorized");
  }

  lemma IdentUnsupported() ensures Ident("Unsupported") == "Unsupported" {
    assert Title("Unsupported") == "Unsupported";
    IdentWord("Unsupported", "Unsupported");
  }

  lemma IdentMethod() ensures Ident("method") == "Method" {
    assert Title("method") == "Method";
    IdentWord("method", "Method");
  }

  lemma IdentEndpoint() ensures Ident("endpoint") == "Endpoint" {
    assert Title("endpoint") == "Endpoint";
    IdentWord("endpoint", "Endpoint");
  }

  lemma IdentObject() ensures Ident("Object") == "Object" {
    assert Title("Object") == "Object";
    IdentWord("Object", "Object");
  }

  lemma IdentFormat() ensures Ident("format") == "Format" {
    assert Title("format") == "Format";
    IdentWord("format", "Format");
  }

  lemma IdentError() ensures Ident("error") == "Error" {
    assert Title("error") == "Error";
    IdentWord("error", "Error");
  }

  lemma IdentInternal() ensures Ident("Internal") == "Internal" {
    assert Title("Internal") == "Internal";
    IdentWord("Internal", "Internal");
  }

  lemma IdentUnsupportedMethod() ensures Ident("Unsupported method") == "UnsupportedMethod" {
    IdentUnsupported();
    IdentMethod();
    Spellings();
    IdentPhrase("Unsupported", "method", "Unsupported", "Method", "Unsupported method", "UnsupportedMethod");
  }

  lemma IdentUnsupportedEndpoint() ensures Ident("Unsupported endpoint") == "UnsupportedEndpoint" {
    IdentUnsupported();
    IdentEndpoint();
    Spellings();
    IdentPhrase("Unsupported", "endpoint", "Unsupported", "Endpoint", "Unsupported endpoint", "UnsupportedEndpoint");
  }

  lemma IdentObjectFormat() ensures Ident("Object format") == "ObjectFormat" {
    IdentObject();
    IdentFormat();
    Spellings();
    IdentPhrase("Object", "format", "Object", "Format", "Object format", "ObjectFormat");
  }

  lemma IdentObjectFormatError() ensures Ident("Object format error") == "ObjectFormatError" {
    IdentObjectFormat();
    IdentError();
    Spellings();
    IdentPhrase("Object format", "error", "ObjectFormat", "Error", "Object format error", "ObjectFormatError");
  }

  lemma IdentInternalError() ensures Ident("Internal error") == "InternalError" {
    IdentInternal();
    IdentError();
    Spellings();
    IdentPhrase("Internal", "error", "Internal", "Error", "Internal error", "InternalError");
  }
}
