/** Where a user's text can end up in a compiled query: inside closed quotes or in
    bare tokens, whatever it contains (backend/internal/query/ast.go). */
module QueryContainment {
  import opened Common
  import opened QueryAst

  /** A reader of LogsQL text that knows quotes, escapes and parentheses. sane
      stays true while depth has never gone below zero and every character
      outside quotes was one Compile may put there; a '*' only after a colon. */
  datatype Scan = Scan(quoted: bool, escaped: bool, depth: int, colon: bool, sane: bool)

  /** What may stand outside quotes, besides parentheses and the star of an existence
      test: letters, digits, the other characters of bare tokens, and the operators. */
  predicate Unquoted(c: char) {
    'a' <= c <= 'z' || 'A' <= c <= 'Z' || '0' <= c <= '9' || c in "_.-/@+~" || c in ":!=><" || c == ' '
  }

  function Read(st: Scan, c: char): Scan {
    if st.quoted then
      if st.escaped then st.(escaped := false)
      else if c == '\\' then st.(escaped := true)
      else if c == '"' then st.(quoted := false, colon := false)
      else st
    else if c == '"' then st.(quoted := true)
    else if c == '(' then st.(depth := st.depth + 1, colon := false)
    else if c == ')' then st.(depth := st.depth - 1, colon := false, sane := st.sane && st.depth > 0)
    else st.(colon := c == ':', sane := st.sane && (Unquoted(c) || (c == '*' && st.colon)))
  }

  function ReadAll(st: Scan, s: string): Scan
    decreases |s|
  {
    if s == "" then st else ReadAll(Read(st, s[0]), s[1..])
  }

  /** Outside quotes, at a depth, with nothing out of place so far. */
  function Outside(depth: nat, colon: bool): Scan {
    Scan(false, false, depth, colon, true)
  }

  lemma {:induction false} ReadAllAppend(st: Scan, a: string, b: string)
    ensures ReadAll(st, a + b) == ReadAll(ReadAll(st, a), b)
    decreases |a|
  {
    if a == "" {
      assert a + b == b;
    } else {
      assert (a + b)[0] == a[0] && (a + b)[1..] == a[1..] + b;
      ReadAllAppend(Read(st, a[0]), a[1..], b);
    }
  }

  lemma {:induction false} ReadBare(d: nat, colon: bool, v: string)
    requires v != "" && forall i :: 0 <= i < |v| ==> BareChar(v[i])
    ensures ReadAll(Outside(d, colon), v) == Outside(d, false)
  {
    if |v| > 1 {
      assert BareChar(v[0]);
      ReadBare(d, false, v[1..]);
    } else {
      assert v == [v[0]] && BareChar(v[0]);
      assert v[1..] == "";
    }
  }

  lemma {:induction false} ReadEscaped(st: Scan, v: string)
    requires st.quoted && !st.escaped
    ensures ReadAll(st, Escape(v)) == st
  {
    if v == "" {
    } else {
      var h := EscapeChar(v[0]);
      ReadAllAppend(st, h, Escape(v[1..]));
      assert h[1..] == if |h| == 2 then [v[0]] else "";
      assert |h| == 2 ==> h[1..][1..] == "";
      ReadEscaped(st, v[1..]);
    }
  }

  lemma ReadOne(st: Scan, c: char)
    ensures ReadAll(st, [c]) == Read(st, c)
  {
    assert [c][1..] == "";
  }

  lemma ReadValueText(d: nat, colon: bool, v: string)
    ensures ReadAll(Outside(d, colon), ValueText(v)) == Outside(d, false)
  {
    var st := Outside(d, colon);
    if Bare(v) {
      ReadBare(d, colon, v);
    } else {
      var inside := st.(quoted := true);
      ReadAllAppend(st, "\"" + Escape(v), "\"");
      ReadAllAppend(st, "\"", Escape(v));
      ReadOne(st, '"');
      ReadEscaped(inside, v);
      ReadOne(inside, '"');
    }
  }

  lemma ReadOp(d: nat, op: string)
    requires OpText(op).Some?
    ensures exists colon :: ReadAll(Outside(d, true), OpText(op).value) == Outside(d, colon)
  {
    var st := Outside(d, true);
    var o := OpText(op).value;
    if o == "" {
      assert ReadAll(st, o) == Outside(d, true);
    } else if |o| == 1 {
      ReadOne(st, o[0]);
      assert o == [o[0]];
      assert ReadAll(st, o) == Outside(d, false);
    } else {
      ReadAllAppend(st, [o[0]], [o[1]]);
      ReadOne(st, o[0]);
      ReadOne(Outside(d, false), o[1]);
      assert o == [o[0]] + [o[1]];
      assert ReadAll(st, o) == Outside(d, false);
    }
  }

  lemma ReadFilterText(d: nat, colon: bool, e: Expr)
    requires e.Filter? && Valid(e)
    ensures ReadAll(Outside(d, colon), Render(e)) == Outside(d, false)
  {
    var st := Outside(d, colon);
    assert forall i :: 0 <= i < |e.field| ==> FieldChar(e.field[i]) && BareChar(e.field[i]);
    ReadBare(d, colon, e.field);
    ReadOne(Outside(d, false), ':');
    ReadAllAppend(st, e.field, ":");
    if e.op == OP_EXISTS {
      ReadAllAppend(st, e.field + ":", "*");
      ReadOne(Outside(d, true), '*');
      Assoc(e.field, ":", "*");
      assert ":" + "*" == ":*";
    } else {
      var o := OpText(e.op).value;
      ReadOp(d, e.op);
      var c :| ReadAll(Outside(d, true), o) == Outside(d, c);
      ReadAllAppend(st, e.field + ":", o);
      ReadAllAppend(st, e.field + ":" + o, ValueText(e.value));
      ReadValueText(d, c, e.value);
    }
  }

  /** Text that leaves the reader where it was, whether or not a colon precedes it. */
  predicate Neutral(d: nat, s: string) {
    && ReadAll(Outside(d, true), s) == Outside(d, false)
    && ReadAll(Outside(d, false), s) == Outside(d, false)
  }

  lemma {:induction false} ReadWords(d: nat, s: string)
    requires s != "" && forall i :: 0 <= i < |s| ==> IsAlnum(s[i]) || s[i] == ' '
    ensures Neutral(d, s)
    decreases |s|
  {
    assert Read(Outside(d, true), s[0]) == Read(Outside(d, false), s[0]) == Outside(d, false);
    if |s| > 1 {
      ReadWords(d, s[1..]);
    } else {
      assert s[1..] == "";
    }
  }

  lemma ReadPaired(d: nat, x: string)
    requires Neutral(d + 1, x)
    ensures Neutral(d, "(" + x + ")")
  {
    forall colon: bool
      ensures ReadAll(Outside(d, colon), "(" + x + ")") == Outside(d, false)
    {
      var st := Outside(d, colon);
      ReadAllAppend(st, "(" + x, ")");
      ReadAllAppend(st, "(", x);
      ReadOne(st, '(');
      ReadOne(Outside(d + 1, false), ')');
    }
  }

  lemma ReadTwo(d: nat, a: string, b: string)
    requires Neutral(d, a) && Neutral(d, b)
    ensures Neutral(d, a + b)
  {
    ReadAllAppend(Outside(d, true), a, b);
    ReadAllAppend(Outside(d, false), a, b);
  }

  lemma ReadJoined(d: nat, a: string, sep: string, b: string)
    requires Neutral(d, a) && Neutral(d, b)
    requires sep == " AND " || sep == " OR "
    ensures Neutral(d, a + sep + b)
  {
    ReadWords(d, sep);
    ReadTwo(d, a, sep);
    ReadTwo(d, a + sep, b);
  }

  lemma {:induction false} Contained(d: nat, e: Expr)
    requires Valid(e)
    ensures Neutral(d, Render(e))
    decreases e, 0
  {
    match e
    case And(a, b) =>
      ContainedChild(d, a);
      ContainedChild(d, b);
      ReadJoined(d, RenderChild(a), " AND ", RenderChild(b));
    case Or(a, b) =>
      Contained(d, a);
      Contained(d, b);
      ReadJoined(d, Render(a), " OR ", Render(b));
    case Not(x) =>
      Contained(d + 1, x);
      ReadPaired(d, Render(x));
      ReadWords(d, "NOT ");
      ReadTwo(d, "NOT ", "(" + Render(x) + ")");
      NotSplit(Render(x));
    case Filter(_, _, _) =>
      ReadFilterText(d, true, e);
      ReadFilterText(d, false, e);
    case Phrase(t) =>
      ReadValueText(d, true, t);
      ReadValueText(d, false, t);
  }

  lemma NotSplit(x: string)
    ensures "NOT (" + x + ")" == "NOT " + ("(" + x + ")")
  {
  }

  lemma {:induction false} ContainedChild(d: nat, e: Expr)
    requires Valid(e)
    ensures Neutral(d, RenderChild(e))
    decreases e, 1
  {
    if e.Or? {
      Contained(d + 1, e);
      ReadPaired(d, Render(e));
    } else {
      Contained(d, e);
    }
  }

  /** Whatever the values hold, the compiled text ends outside quotes at depth 0,
      never closes a parenthesis it did not open, and has nothing outside quotes
      but bare-token characters, the operators, and a '*' right after a colon. */
  lemma CompiledIsContained(e: Expr)
    requires Compiled(e).Ok?
    ensures ReadAll(Outside(0, false), Compiled(e).value) == Outside(0, false)
  {
    if e != Nil {
      Contained(0, e);
    }
  }
}
