/** The Dart expressions the serialisation synthesiser emits, as a syntax
    tree, with the printer that produces the text generate.py writes.

    `Var(name)` is an access expression passed in by the caller and
    returned unchanged: the synthesiser's identity tests (`== 'element'`,
    `== 'k'`, `== 'v'`) compare the emitted text with the bare variable
    name, and `IdentityTestIsStructural` shows that for such names the
    text comparison is exactly the structural test `e == Var(name)`.
 */
module DartExpr {
  import PyStr

  datatype Expr =
    | Var(name: string)                                  // name
    | Index(target: Expr, field: string)                 // target['field']
    | NotNull(operand: Expr)                             // operand!
    | Paren(operand: Expr)                               // (operand)
    | Cast(operand: Expr, to: string)                    // operand as T
    | NullGuard(scrutinee: Expr, body: Expr)             // (){ final val = e; return val == null ? null : body; }()
    | ListMap(source: Expr, body: Expr)                  // source.map((element) => body).toList()
    | MapEntries(source: Expr, keyConv: Expr, valueConv: Expr)  // source.map((k, v) => MapEntry(keyConv, valueConv))
    | EnumAt(enumName: string, index: Expr)              // T.values[index]
    | EnumIndexOf(enumName: string, operand: Expr)       // T.values.indexOf(operand)
    | ClassFromJson(className: string, operand: Expr)    // T.fromJson(operand)
    | AsExtension(operand: Expr, extName: string)        // operand.asX
    | ToJsonCall(operand: Expr)                          // operand.toJson()
    | EnumFromString(enumName: string, operand: Expr)    // TFromString(operand)
    | EnumToString(enumName: string, operand: Expr)      // TToString(operand)
    | IntParse(operand: Expr)                            // int.parse(operand)
    | IntToString(operand: Expr)                         // (operand).toString()
    | Call(receiver: string, member: string, args: seq<Expr>)  // receiver.member(args)

  /** The variables the synthesiser binds inside the code it emits. */
  const ElementVar: Expr := Var("element")
  const KeyVar: Expr := Var("k")
  const ValueVar: Expr := Var("v")
  const NullableVar: Expr := Var("val")

  function JoinArgs(args: seq<Expr>): string
    decreases args
  {
    if |args| == 0 then ""
    else if |args| == 1 then Render(args[0])
    else Render(args[0]) + ", " + JoinArgs(args[1..])
  }

  /** The text generate.py writes for each expression. */
  function Render(e: Expr): string
    decreases e
  {
    match e
    case Var(n) => n
    case Index(t, k) => Render(t) + "['" + k + "']"
    case NotNull(x) => Render(x) + "!"
    case Paren(x) => "(" + Render(x) + ")"
    case Cast(x, t) => Render(x) + " as " + t
    case NullGuard(s, b) =>
      "(){ final val = " + Render(s) + "; return val == null ? null : " + Render(b) + "; }()"
    case ListMap(s, b) => Render(s) + ".map((element) => " + Render(b) + ").toList()"
    case MapEntries(s, k, v) =>
      Render(s) + ".map((k, v) => MapEntry(" + Render(k) + ", " + Render(v) + "))"
    case EnumAt(t, i) => t + ".values[" + Render(i) + "]"
    case EnumIndexOf(t, x) => t + ".values.indexOf(" + Render(x) + ")"
    case ClassFromJson(t, x) => t + ".fromJson(" + Render(x) + ")"
    case AsExtension(x, t) => Render(x) + ".as" + t
    case ToJsonCall(x) => Render(x) + ".toJson()"
    case EnumFromString(t, x) => t + "FromString(" + Render(x) + ")"
    case EnumToString(t, x) => t + "ToString(" + Render(x) + ")"
    case IntParse(x) => "int.parse(" + Render(x) + ")"
    case IntToString(x) => "(" + Render(x) + ").toString()"
    case Call(r, m, args) => r + "." + m + "(" + JoinArgs(args) + ")"
  }

  /** Number of constructors in an expression: wrapping an expression in
      any constructor makes it strictly larger, so never equal to itself. */
  function Size(e: Expr): nat
    decreases e
  {
    match e
    case Var(_) => 1
    case Index(t, _) => 1 + Size(t)
    case NotNull(x) => 1 + Size(x)
    case Paren(x) => 1 + Size(x)
    case Cast(x, _) => 1 + Size(x)
    case NullGuard(s, b) => 1 + Size(s) + Size(b)
    case ListMap(s, b) => 1 + Size(s) + Size(b)
    case MapEntries(s, k, v) => 1 + Size(s) + Size(k) + Size(v)
    case EnumAt(_, i) => 1 + Size(i)
    case EnumIndexOf(_, x) => 1 + Size(x)
    case ClassFromJson(_, x) => 1 + Size(x)
    case AsExtension(x, _) => 1 + Size(x)
    case ToJsonCall(x) => 1 + Size(x)
    case EnumFromString(_, x) => 1 + Size(x)
    case EnumToString(_, x) => 1 + Size(x)
    case IntParse(x) => 1 + Size(x)
    case IntToString(x) => 1 + Size(x)
    case Call(_, _, args) => 1
  }

  predicate IsLetter(c: char) {
    PyStr.IsCased(c)
  }

  predicate AllLetters(s: string) {
    forall i :: 0 <= i < |s| ==> IsLetter(s[i])
  }

  /** Every emitted expression other than a bare variable contains
      punctuation or a space somewhere in its text. */
  lemma NonVarHasPunctuation(e: Expr)
    requires !e.Var?
    ensures exists i :: 0 <= i < |Render(e)| && !IsLetter(Render(e)[i])
  {
    var r := Render(e);
    match e {
      case Index(t, k) => assert r[|Render(t)|] == '[';
      case NotNull(x) => assert r[|Render(x)|] == '!';
      case Paren(x) => assert r[0] == '(';
      case Cast(x, t) => assert r[|Render(x)|] == ' ';
      case NullGuard(s, b) => assert r[0] == '(';
      case ListMap(s, b) => assert r[|Render(s)|] == '.';
      case MapEntries(s, k, v) => assert r[|Render(s)|] == '.';
      case EnumAt(t, i) => assert r[|t|] == '.';
      case EnumIndexOf(t, x) => assert r[|t|] == '.';
      case ClassFromJson(t, x) => assert r[|t|] == '.';
      case AsExtension(x, t) => assert r[|Render(x)|] == '.';
      case ToJsonCall(x) => assert r[|Render(x)|] == '.';
      case EnumFromString(t, x) => assert r[|t| + 10] == '(';
      case EnumToString(t, x) => assert r[|t| + 8] == '(';
      case IntParse(x) => assert r[3] == '.';
      case IntToString(x) => assert r[0] == '(';
      case Call(rc, m, args) => assert r[|rc|] == '.';
    }
  }

  /** Comparing the emitted text with a variable name made of letters is the
      same as asking whether the expression is that variable. */
  lemma IdentityTestIsStructural(e: Expr, name: string)
    requires AllLetters(name)
    ensures Render(e) == name <==> e == Var(name)
  {
    if !e.Var? && Render(e) == name {
      NonVarHasPunctuation(e);
    }
  }
}
