/** The filter AST and its compilation to LogsQL text (backend/internal/query/ast.go).
    Text is a sequence of code points: every delimiter the language knows is ASCII. */
module QueryAst {
  import opened Common

  /** Go's Expr is an open interface: Nil is the nil interface value and Foreign
      any implementation the compiler does not know. */
  datatype Expr =
    | And(l: Expr, r: Expr)
    | Or(l: Expr, r: Expr)
    | Not(e: Expr)
    | Filter(field: string, op: string, value: string)
    | Phrase(text: string)
    | Nil
    | Foreign

  datatype CompileError = UnknownExpr | BadField | UnknownOp

  const OP_EQ := "eq"
  const OP_NEQ := "neq"
  const OP_MATCH := "match"
  const OP_GT := "gt"
  const OP_GE := "ge"
  const OP_LT := "lt"
  const OP_LE := "le"
  const OP_EXISTS := "exists"

  predicate IsAlnum(c: char) {
    'a' <= c <= 'z' || 'A' <= c <= 'Z' || '0' <= c <= '9'
  }

  predicate BareChar(c: char) {
    IsAlnum(c) || c == '_' || c == '.' || c == '-' || c == '/' || c == '@' || c == '+' || c == '~'
  }

  predicate FieldChar(c: char) {
    IsAlnum(c) || c == '_' || c == '.'
  }

  predicate Bare(v: string) {
    v != "" && v != "AND" && v != "OR" && v != "NOT" && forall i :: 0 <= i < |v| ==> BareChar(v[i])
  }

  predicate FieldName(f: string) {
    f != "" && forall i :: 0 <= i < |f| ==> FieldChar(f[i])
  }

  function EscapeChar(c: char): string {
    if c == '"' || c == '\\' then ['\\', c] else [c]
  }

  function Escape(s: string): string {
    if s == "" then "" else EscapeChar(s[0]) + Escape(s[1..])
  }

  lemma {:induction false} EscapeAppend(a: string, b: string)
    ensures Escape(a + b) == Escape(a) + Escape(b)
  {
    if a == "" {
      assert a + b == b;
    } else {
      EscapeAppend(a[1..], b);
      assert (a + b)[0] == a[0] && (a + b)[1..] == a[1..] + b;
      Assoc(EscapeChar(a[0]), Escape(a[1..]), Escape(b));
    }
  }

  function ValueText(v: string): string {
    if Bare(v) then v else "\"" + Escape(v) + "\""
  }

  /** The text between "field:" and the value; None marks an unknown op. */
  function OpText(op: string): Option<string> {
    if op == "" || op == OP_EQ then Some("")
    else if op == OP_NEQ then Some("!=")
    else if op == OP_MATCH then Some("~")
    else if op == OP_GT then Some(">")
    else if op == OP_GE then Some(">=")
    else if op == OP_LT then Some("<")
    else if op == OP_LE then Some("<=")
    else None
  }

  /** The first error met in text order, if any. */
  function Check(e: Expr): Option<CompileError> {
    match e
    case And(l, r) => if Check(l).Some? then Check(l) else Check(r)
    case Or(l, r) => if Check(l).Some? then Check(l) else Check(r)
    case Not(x) => Check(x)
    case Filter(f, op, _) =>
      if !FieldName(f) then Some(BadField)
      else if op != OP_EXISTS && OpText(op).None? then Some(UnknownOp)
      else None
    case Phrase(_) => None
    case Nil => Some(UnknownExpr)
    case Foreign => Some(UnknownExpr)
  }

  /** An AST the compiler accepts. */
  predicate Valid(e: Expr) {
    Check(e).None?
  }

  function Render(e: Expr): string
    decreases e, 0
  {
    match e
    case And(l, r) => RenderChild(l) + " AND " + RenderChild(r)
    case Or(l, r) => Render(l) + " OR " + Render(r)
    case Not(x) => "NOT (" + Render(x) + ")"
    case Filter(f, op, v) =>
      if op == OP_EXISTS then f + ":*"
      else f + ":" + (if OpText(op).Some? then OpText(op).value else "") + ValueText(v)
    case Phrase(t) => ValueText(t)
    case Nil => ""
    case Foreign => ""
  }

  function RenderChild(e: Expr): string
    decreases e, 1
  {
    if e.Or? then "(" + Render(e) + ")" else Render(e)
  }

  function Compiled(e: Expr): Result<string, CompileError> {
    if e.Nil? then Ok("")
    else if Check(e).Some? then Err(Check(e).value)
    else Ok(Render(e))
  }

  method IsBare(v: string) returns (bare: bool)
    ensures bare == Bare(v)
    ensures bare <==> v != "" && v != "AND" && v != "OR" && v != "NOT" && forall i :: 0 <= i < |v| ==>
              'a' <= v[i] <= 'z' || 'A' <= v[i] <= 'Z' || '0' <= v[i] <= '9' || v[i] in "_.-/@+~"
  {
    if v == "" || v == "AND" || v == "OR" || v == "NOT" {
      return false;
    }
    for i := 0 to |v|
      invariant forall j :: 0 <= j < i ==> BareChar(v[j])
    {
      var c := v[i];
      var ok := 'a' <= c <= 'z' || 'A' <= c <= 'Z' || '0' <= c <= '9'
                || c == '_' || c == '.' || c == '-' || c == '/' || c == '@' || c == '+' || c == '~';
      if !ok {
        return false;
      }
    }
    return true;
  }

  method ValidField(f: string) returns (ok: bool)
    ensures ok == FieldName(f)
    ensures ok <==> f != "" && forall i :: 0 <= i < |f| ==>
              'a' <= f[i] <= 'z' || 'A' <= f[i] <= 'Z' || '0' <= f[i] <= '9' || f[i] in "_."
  {
    if f == "" {
      return false;
    }
    for i := 0 to |f|
      invariant forall j :: 0 <= j < i ==> FieldChar(f[j])
    {
      var c := f[i];
      if !('a' <= c <= 'z' || 'A' <= c <= 'Z' || '0' <= c <= '9' || c == '_' || c == '.') {
        return false;
      }
    }
    return true;
  }

  method Quote(s: string) returns (q: string)
    ensures q == "\"" + Escape(s) + "\""
  {
    q := "\"";
    for i := 0 to |s|
      invariant q == "\"" + Escape(s[..i])
    {
      EscapeAppend(s[..i], [s[i]]);
      assert s[..i + 1] == s[..i] + [s[i]];
      if s[i] == '"' || s[i] == '\\' {
        q := q + ['\\', s[i]];
      } else {
        q := q + [s[i]];
      }
    }
    assert s[..|s|] == s;
    q := q + "\"";
  }

  method ValueOut(v: string) returns (t: string)
    ensures t == ValueText(v)
    ensures t == v <==> v != "" && v != "AND" && v != "OR" && v != "NOT" && forall i :: 0 <= i < |v| ==>
              'a' <= v[i] <= 'z' || 'A' <= v[i] <= 'Z' || '0' <= v[i] <= '9' || v[i] in "_.-/@+~"
  {
    var bare := IsBare(v);
    if bare {
      t := v;
    } else {
      t := Quote(v);
      QuotedDiffers(v);
    }
  }

  lemma {:induction false} EscapeLonger(s: string)
    ensures |Escape(s)| >= |s|
  {
    if s == "" {
    } else {
      EscapeLonger(s[1..]);
    }
  }

  lemma QuotedDiffers(v: string)
    ensures "\"" + Escape(v) + "\"" != v
  {
    EscapeLonger(v);
    assert |"\"" + Escape(v) + "\""| > |v|;
  }

  /** Go's strings.Builder, as far as the compiler uses it. */
  class Builder {
    var text: string

    constructor ()
      ensures text == ""
    {
      text := "";
    }

    method Write(s: string)
      modifies this
      ensures text == old(text) + s
    {
      text := text + s;
    }
  }

  method CompileFilter(b: Builder, e: Expr) returns (err: Option<CompileError>)
    requires e.Filter?
    modifies b
    ensures err == Check(e)
    ensures err.None? ==> b.text == old(b.text) + Render(e)
    ensures err.Some? ==> b.text == old(b.text)
  {
    var ok := ValidField(e.field);
    if !ok {
      return Some(BadField);
    }
    if e.op == "exists" {
      b.Write(e.field + ":*");
      return None;
    }
    var between;
    match e.op {
      case "" => between := ":";
      case "eq" => between := ":";
      case "neq" => between := ":!=";
      case "match" => between := ":~";
      case "gt" => between := ":>";
      case "ge" => between := ":>=";
      case "lt" => between := ":<";
      case "le" => between := ":<=";
      case _ => return Some(UnknownOp);
    }
    var v := ValueOut(e.value);
    assert between == ":" + OpText(e.op).value;
    assert e.field + between == e.field + ":" + OpText(e.op).value;
    b.Write(e.field + between + v);
    return None;
  }

  method CompileTo(b: Builder, e: Expr) returns (err: Option<CompileError>)
    modifies b
    ensures err == Check(e)
    ensures err.None? ==> b.text == old(b.text) + Render(e)
    decreases e, 0
  {
    ghost var t := b.text;
    match e
    case And(l, r) =>
      err := CompileChild(b, l);
      if err.Some? {
        return;
      }
      b.Write(" AND ");
      err := CompileChild(b, r);
      assert err.None? ==> b.text == t + Render(e);
    case Or(l, r) =>
      err := CompileTo(b, l);
      if err.Some? {
        return;
      }
      b.Write(" OR ");
      err := CompileTo(b, r);
      assert err.None? ==> b.text == t + Render(e);
    case Not(x) =>
      b.Write("NOT (");
      err := CompileTo(b, x);
      if err.Some? {
        return;
      }
      b.Write(")");
      assert b.text == t + Render(e);
    case Phrase(t) =>
      var v := ValueOut(t);
      b.Write(v);
      err := None;
    case Filter(_, _, _) =>
      err := CompileFilter(b, e);
    case Nil =>
      err := Some(UnknownExpr);
    case Foreign =>
      err := Some(UnknownExpr);
  }

  method CompileChild(b: Builder, e: Expr) returns (err: Option<CompileError>)
    modifies b
    ensures err == Check(e)
    ensures err.None? ==> b.text == old(b.text) + RenderChild(e)
    decreases e, 1
  {
    if e.Or? {
      b.Write("(");
      err := CompileTo(b, e);
      if err.Some? {
        return;
      }
      b.Write(")");
    } else {
      err := CompileTo(b, e);
    }
  }

  method Compile(e: Expr) returns (r: Result<string, CompileError>)
    ensures r == Compiled(e)
  {
    if e.Nil? {
      return Ok("");
    }
    var b := new Builder();
    var err := CompileTo(b, e);
    if err.Some? {
      return Err(err.value);
    }
    assert "" + Render(e) == Render(e);
    return Ok(b.text);
  }
}
