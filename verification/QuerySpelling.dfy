/** The query language as users write it, exactly: implicit AND, NOT with or without
    parentheses, any grouping, quoting and spacing. Every spelling is read as the tree it
    stands for, with NOT binding tighter than AND and AND tighter than OR, and every
    accepted text is a spelling of its tree (backend/internal/query/parse.go). */
module QuerySpelling {
  import opened Common
  import opened QueryAst
  import opened QueryParser
  import opened QueryRoundTrip

  /** How a query is written. The numbers count spaces; and says whether the word AND
      is there; raw is the text between quotes, escapes included. */
  datatype Spelling =
    | Both(l: Spelling, gap: nat, and: bool, after: nat, r: Spelling)
    | Either(l: Spelling, gap: nat, after: nat, r: Spelling)
    | No(after: nat, x: Spelling)
    | Group(before: nat, x: Spelling, behind: nat)
    | Word(t: string)
    | Quote(raw: string)
    | Pair(field: string, op: string, value: string)
    | QuotedPair(field: string, op: string, raw: string)
    | Has(field: string)
  {
    /** This is an operand of AND or NOT when q follows. What may follow depends only on
        how the operand ends: a quote or parenthesis ends itself, a bare token needs a
        separator. */
    predicate Operand(q: string)
      decreases this, 0
    {
      match this
      case No(n, x) => x.Operand(q) && (n >= 1 || Opens(x.Text() + q))
      case Group(_, x, n) => x.Query(Spaces(n) + (")" + q))
      case Word(t) => Token(t) && Ends(q)
      case Quote(raw) => Raw(raw)
      case Pair(f, op, v) =>
        FieldToken(f) && BareOperand(op, v) && Ends(q) && (op == OP_EQ && v == "*" ==> Opens(q))
      case QuotedPair(f, op, raw) => FieldToken(f) && op != "" && OpText(op).Some? && Raw(raw)
      case Has(f) => FieldToken(f) && Delim(q)
      case _ => false
    }

    /** A chain of operands. Without the word AND the next one must not be one of the
        words that would separate. */
    predicate Chain(q: string)
      decreases this, 1
    {
      if Both? then
        var s := r.Text() + q;
        && l.Chain(Spaces(gap) + (if and then "AND" + (Spaces(after) + s) else s)) && r.Operand(q)
        && if and then after >= 1 || Opens(s) else !Keyword(s, "OR") && !Keyword(s, "AND")
      else Operand(q)
    }

    predicate Query(q: string)
      decreases this, 2
    {
      && EndsChain(q)
      && if Either? then
           var s := r.Text() + q;
           l.Query(Spaces(gap) + ("OR" + (Spaces(after) + s))) && r.Chain(q) && (after >= 1 || Opens(s))
         else Chain(q)
    }

    function Text(): string {
      match this
      case Both(l, gap, and, after, r) =>
        l.Text() + (Spaces(gap) + ((if and then "AND" + Spaces(after) else "") + r.Text()))
      case Either(l, gap, after, r) => l.Text() + (Spaces(gap) + ("OR" + (Spaces(after) + r.Text())))
      case No(after, x) => "NOT" + (Spaces(after) + x.Text())
      case Group(before, x, behind) => "(" + (Spaces(before) + (x.Text() + (Spaces(behind) + ")")))
      case Word(t) => t
      case Quote(raw) => "\"" + (raw + "\"")
      case Pair(f, op, v) => f + (":" + Comparison(op, v))
      case QuotedPair(f, op, raw) => f + (":" + Comparison(op, "\"" + (raw + "\"")))
      case Has(f) => f + (":" + "*")
    }

    function Tree(): Expr {
      match this
      case Both(l, _, _, _, r) => And(l.Tree(), r.Tree())
      case Either(l, _, _, r) => Or(l.Tree(), r.Tree())
      case No(_, x) => Not(x.Tree())
      case Group(_, x, _) => x.Tree()
      case Word(t) => Phrase(t)
      case Quote(raw) => Phrase(Unraw(raw))
      case Pair(f, op, v) => Filter(f, op, v)
      case QuotedPair(f, op, raw) => Filter(f, op, Unraw(raw))
      case Has(f) => Filter(f, OP_EXISTS, "")
    }
  }

  predicate Opens(s: string) {
    s != "" && s[0] == '('
  }

  /** What ends a bare token. */
  predicate Ends(q: string) {
    q == "" || Stop(q[0], false)
  }

  /** An unquoted word: no separator, quote in front or the word NOT. */
  predicate Token(t: string) {
    t != "" && t[0] != '"' && t != "NOT" && forall i :: 0 <= i < |t| ==> !Stop(t[i], true)
  }

  /** A field name as the parser takes it, empty and keywords included. */
  predicate FieldToken(f: string) {
    (f != "" ==> f[0] != '"') && forall i :: 0 <= i < |f| ==> !Stop(f[i], true)
  }

  function Comparison(op: string, v: string): string {
    (if OpText(op).Some? then OpText(op).value else "") + v
  }

  /** An unquoted value, of any characters a token can have, that reads as what it is
      and not as part of an operator. */
  predicate BareOperand(op: string, v: string) {
    && op != "" && OpText(op).Some? && v != "" && v[0] != '"'
    && (forall i :: 0 <= i < |v| ==> !Stop(v[i], false))
    && OpAt(Comparison(op, v)) == (op, |OpText(op).value|)
  }

  /** The text between quotes: a backslash takes the next character, whatever it is. */
  predicate Raw(r: string) {
    if r == "" then true
    else if r[0] == '\\' then |r| > 1 && Raw(r[2..])
    else r[0] != '"' && Raw(r[1..])
  }

  function Unraw(r: string): string {
    if r == "" then ""
    else if r[0] == '\\' && |r| > 1 then [r[1]] + Unraw(r[2..])
    else [r[0]] + Unraw(r[1..])
  }

  function Spaces(n: nat): string {
    if n == 0 then "" else " " + Spaces(n - 1)
  }

  // ----- spaces -----

  lemma SkipSpace(l: Expr, s: string)
    ensures Ws(" " + s) == Ws(s)
    ensures UnaryG(" " + s) == UnaryG(s) && AndG(" " + s) == AndG(s) && OrG(" " + s) == OrG(s)
    ensures AndTail(l, " " + s) == AndTail(l, s) && OrTail(l, " " + s) == OrTail(l, s)
  {
    assert (" " + s)[1..] == s;
    assert Ws(" " + s) == Ws(s);
    UnarySpace(s);
    AndTailStep(l, s);
    AndTailStep(l, " " + s);
    OrTailStep(l, s);
    OrTailStep(l, " " + s);
    hide Ws, UnaryG, AndG, AndTail, OrTail, AfterAnd, Keyword;
    assert OrG(" " + s) == OrG(s);
  }

  lemma SpacesStep(n: nat, s: string)
    ensures Spaces(n) + s == if n == 0 then s else " " + (Spaces(n - 1) + s)
  {
    if n == 0 {
      EmptyLeft(s);
    } else {
      Assoc(" ", Spaces(n - 1), s);
    }
  }

  lemma {:induction false} SkipSpaces(l: Expr, n: nat, s: string)
    ensures var t := Spaces(n) + s;
            && Ws(t) == Ws(s) && UnaryG(t) == UnaryG(s) && AndG(t) == AndG(s) && OrG(t) == OrG(s)
            && AndTail(l, t) == AndTail(l, s) && OrTail(l, t) == OrTail(l, s)
  {
    hide Ws, UnaryG, AndG, OrG, AndTail, OrTail, Spaces;
    SpacesStep(n, s);
    if n == 0 {
    } else {
      SkipSpaces(l, n - 1, s);
      SkipSpace(l, Spaces(n - 1) + s);
    }
  }

  lemma {:induction false} WsCuts(s: string) returns (n: nat)
    ensures s == Spaces(n) + Ws(s)
  {
    if s != "" && s[0] == ' ' {
      var m := WsCuts(s[1..]);
      n := m + 1;
      SpacesStep(n, Ws(s));
      assert s == " " + s[1..];
    } else {
      n := 0;
      EmptyLeft(s);
    }
  }

  // ----- quoted text -----

  lemma {:induction false} QuotedReads(r: string, q: string)
    requires Raw(r)
    ensures Quoted(r + ("\"" + q)) == Ok(Unquoted(Unraw(r), q))
  {
    var s := "\"" + q;
    if r == "" {
      EmptyLeft(s);
      assert s[1..] == q;
    } else if r[0] == '\\' {
      QuotedReads(r[2..], q);
      CutFront(r, s, 2);
    } else {
      QuotedReads(r[1..], q);
      CutFront(r, s, 1);
    }
  }

  lemma QuotedStep(s: string)
    requires Quoted(s).Ok?
    ensures s != ""
    ensures s[0] == '\\' && |s| > 1 ==> Quoted(s[2..]).Ok? && Quoted(s) == Keep(s[1], Quoted(s[2..]))
    ensures s[0] != '\\' && s[0] != '"' ==> Quoted(s[1..]).Ok? && Quoted(s) == Keep(s[0], Quoted(s[1..]))
    ensures s[0] == '\\' ==> |s| > 1
    ensures s[0] == '"' ==> Quoted(s) == Ok(Unquoted("", s[1..]))
  {
    assert |s| == 1 ==> s[1..] == "";
  }

  lemma RawStep(r: string)
    requires r != ""
    ensures r[0] == '\\' ==> Raw(r) == (|r| > 1 && Raw(r[2..]))
    ensures r[0] != '\\' ==> Raw(r) == (r[0] != '"' && Raw(r[1..]))
    ensures r[0] == '\\' && |r| > 1 ==> Unraw(r) == [r[1]] + Unraw(r[2..])
    ensures r[0] != '\\' ==> Unraw(r) == [r[0]] + Unraw(r[1..])
  {
  }

  lemma {:induction false} QuotedCuts(s: string) returns (r: string)
    requires Quoted(s).Ok?
    ensures Raw(r) && Quoted(s).value.text == Unraw(r) && s == r + ("\"" + Quoted(s).value.rest)
  {
    hide Quoted, Raw, Unraw;
    QuotedStep(s);
    var rest := Quoted(s).value.rest;
    if s[0] == '"' {
      r := "";
      NoRaw();
      assert s == "\"" + s[1..];
      EmptyLeft(s);
    } else {
      var n := if s[0] == '\\' then 2 else 1;
      var u := QuotedCuts(s[n..]);
      r := s[..n] + u;
      Refront(s, n, u, "\"" + rest);
      RawStep(r);
    }
  }

  lemma NoRaw()
    ensures Raw("") && Unraw("") == ""
  {
  }

  // ----- leaves -----

  /** The start of an operand. */
  predicate Firm(s: string) {
    s != "" && s[0] != ' ' && s[0] != ')'
  }

  lemma UnaryTerm(s: string)
    requires Firm(s) && s[0] != '(' && !Keyword(s, "NOT")
    ensures UnaryG(s) == if s[0] == '"' then TermG(s) else WordG(s)
  {
    assert Ws(s) == s;
    UnaryStep(s);
    TermStep(s);
    hide UnaryG, TermG, WordG;
  }

  lemma NoNot(t: string, q: string)
    requires forall i :: 0 <= i < |t| ==> !Stop(t[i], true)
    requires (Ends(q) && t != "NOT") || (q != "" && q[0] == ':')
    ensures !Keyword(t + q, "NOT")
  {
    var s := t + q;
    assert forall i :: 0 <= i < |t| ==> s[i] == t[i];
    if |t| < 3 {
      assert q != "" ==> s[|t|] == q[0] != "NOT"[|t|];
    } else if |t| > 3 {
      assert s[3] == t[3];
    } else {
      assert Starts(s, "NOT") ==> t == "NOT";
      assert q != "" ==> s[3] == q[0];
    }
  }

  lemma ReadWordToken(t: string, q: string)
    requires Token(t) && Ends(q)
    ensures Firm(t + q) && UnaryG(t + q) == Ok(Parsed(Phrase(t), q))
  {
    var s := t + q;
    NoNot(t, q);
    assert s[0] == t[0] && !Stop(t[0], true);
    UnaryTerm(s);
    SpanAt(s, |t|, true) by {
      assert forall i :: 0 <= i < |t| ==> s[i] == t[i];
    }
    assert s[..|t|] == t && s[|t|..] == q;
    hide UnaryG, Keyword, Span, FilterG;
  }

  lemma ReadQuote(raw: string, q: string)
    requires Raw(raw)
    ensures var s := ("\"" + (raw + "\"")) + q;
            Firm(s) && UnaryG(s) == Ok(Parsed(Phrase(Unraw(raw)), q))
  {
    var t := raw + ("\"" + q);
    var s := "\"" + t;
    Assoc("\"", raw + "\"", q);
    Assoc(raw, "\"", q);
    QuotedReads(raw, q);
    assert s[0] == '"' && s[1..] == t && Ws(s) == s;
    UnaryTerm(s);
    TermStep(s);
    hide UnaryG, TermG, WordG, Quoted;
  }

  /** A field and a colon make the term a filter. */
  lemma ReadFieldToken(f: string, tail: string)
    requires FieldToken(f)
    ensures var s := f + (":" + tail);
            Firm(s) && UnaryG(s) == FilterG(f, tail)
  {
    var q := ":" + tail;
    var s := f + q;
    NoNot(f, q);
    assert f != "" ==> s[0] == f[0] && !Stop(f[0], true);
    assert f == "" ==> s[0] == ':';
    UnaryTerm(s);
    SpanAt(s, |f|, true) by {
      assert forall i :: 0 <= i < |f| ==> s[i] == f[i];
    }
    assert s[..|f|] == f && s[|f|] == ':' && s[|f| + 1..] == tail;
    hide UnaryG, Keyword, Span, FilterG;
  }

  lemma ReadBare(f: string, op: string, v: string, q: string)
    requires BareOperand(op, v) && Ends(q) && (op == OP_EQ && v == "*" ==> Opens(q))
    ensures FilterG(f, Comparison(op, v) + q) == Ok(Parsed(Filter(f, op, v), q))
  {
    var o := OpText(op).value;
    var t := v + q;
    var s := o + t;
    Assoc(o, v, q);
    SameOp(Comparison(op, v), q);
    assert s[|o|..] == t;
    assert t[0] == v[0] && (|v| > 1 ==> t[1] == v[1]) && (|v| == 1 && q != "" ==> t[1] == q[0]);
    assert |v| > 1 ==> !Stop(v[1], false);
    SpanAt(t, |v|, false) by {
      assert forall i :: 0 <= i < |v| ==> t[i] == v[i];
    }
    assert t[..|v|] == v && t[|v|..] == q;
    hide OpAt, Span, Quoted, OpText;
  }

  lemma SameOp(s: string, q: string)
    requires s != "" && Ends(q)
    ensures OpAt(s + q) == OpAt(s)
  {
    assert (s + q)[0] == s[0];
    assert |s + q| > 1 ==> (s + q)[1] == if |s| > 1 then s[1] else q[0];
  }

  lemma ReadQuotedOperand(f: string, op: string, raw: string, q: string)
    requires op != "" && OpText(op).Some? && Raw(raw)
    ensures FilterG(f, Comparison(op, "\"" + (raw + "\"")) + q) == Ok(Parsed(Filter(f, op, Unraw(raw)), q))
  {
    var o := OpText(op).value;
    var u := raw + ("\"" + q);
    var t := "\"" + u;
    Assoc(o, "\"" + (raw + "\""), q);
    Assoc("\"", raw + "\"", q);
    Assoc(raw, "\"", q);
    ReadOp(op, t);
    assert t[0] == '"' && t[1..] == u;
    QuotedReads(raw, q);
    hide OpAt, Span, Quoted, OpText;
  }

  lemma ReadHas(f: string, q: string)
    requires Delim(q)
    ensures FilterG(f, "*" + q) == Ok(Parsed(Filter(f, OP_EXISTS, ""), q))
  {
    var s := "*" + q;
    assert s[0] == '*' && s[1..] == q && s[0..] == s && (|s| > 1 ==> s[1] == q[0]);
    hide Span, Quoted;
  }

  lemma ReadLeafText(w: Spelling, q: string)
    requires w.Operand(q) && (w.Word? || w.Quote? || w.Pair? || w.QuotedPair? || w.Has?)
    ensures Firm(w.Text() + q) && UnaryG(w.Text() + q) == Ok(Parsed(w.Tree(), q))
  {
    hide UnaryG, FilterG, Comparison, BareOperand, Raw, Unraw, Firm, Token, FieldToken, Ends, Delim, OpText;
    match w
    case Word(t) =>
      ReadWordToken(t, q);
    case Quote(raw) =>
      ReadQuote(raw, q);
    case Pair(f, op, v) =>
      FieldText(f, Comparison(op, v), q);
      ReadFieldToken(f, Comparison(op, v) + q);
      ReadBare(f, op, v, q);
    case QuotedPair(f, op, raw) =>
      var v := Comparison(op, "\"" + (raw + "\""));
      FieldText(f, v, q);
      ReadFieldToken(f, v + q);
      ReadQuotedOperand(f, op, raw, q);
    case Has(f) =>
      FieldText(f, "*", q);
      ReadFieldToken(f, "*" + q);
      ReadHas(f, q);
  }

  lemma FieldText(f: string, v: string, q: string)
    ensures (f + (":" + v)) + q == f + (":" + (v + q))
  {
    Assoc(f, ":" + v, q);
    Assoc(":", v, q);
  }

  // ----- separators -----

  lemma KeywordAt(kw: string, n: nat, s: string)
    requires n >= 1 || Opens(s)
    ensures Keyword(kw + (Spaces(n) + s), kw)
  {
    var u := Spaces(n) + s;
    assert u != "" && (u[0] == ' ' || u[0] == '(');
    assert (kw + u)[|kw|] == u[0];
  }

  /** An operand right after a chain is joined to it. */
  lemma JoinOperand(l: Expr, s: string)
    requires Firm(s) && !Keyword(s, "OR") && !Keyword(s, "AND")
    ensures AndTail(l, s) == var x := UnaryG(s); if x.Err? then x else AndTail(And(l, x.value.e), x.value.rest)
  {
    AndTailStep(l, s);
    assert Ws(s) == s && AfterAnd(s) == s;
    hide AndTail, UnaryG, Ws, Keyword;
  }

  /** ... and so is one behind the word AND. */
  lemma JoinAnd(l: Expr, n: nat, s: string)
    requires n >= 1 || Opens(s)
    ensures AndTail(l, "AND" + (Spaces(n) + s)) ==
            var x := UnaryG(s); if x.Err? then x else AndTail(And(l, x.value.e), x.value.rest)
  {
    hide AndTail, UnaryG, Ws, Keyword, Spaces;
    var u := Spaces(n) + s;
    var t := "AND" + u;
    SkipSpaces(l, n, s);
    AndTailStep(l, t);
    KeywordAt("AND", n, s);
    AndStart(u);
  }

  lemma AndStart(u: string)
    ensures var t := "AND" + u;
            t != "" && t[0] != ')' && Ws(t) == t && t[3..] == u && !Keyword(t, "OR")
  {
    assert ("AND" + u)[0] == 'A';
  }

  lemma JoinOr(l: Expr, n: nat, s: string)
    requires n >= 1 || Opens(s)
    ensures var t := "OR" + (Spaces(n) + s);
            && Ws(t) == t && Keyword(t, "OR")
            && OrTail(l, t) == var x := AndG(s); if x.Err? then x else OrTail(Or(l, x.value.e), x.value.rest)
  {
    hide OrTail, AndG, Ws, Keyword, Spaces;
    var u := Spaces(n) + s;
    var t := "OR" + u;
    SkipSpaces(l, n, s);
    OrTailStep(l, t);
    KeywordAt("OR", n, s);
    OrStart(u);
  }

  lemma OrStart(u: string)
    ensures var t := "OR" + u;
            Ws(t) == t && t[2..] == u
  {
    assert ("OR" + u)[0] == 'O';
  }

  lemma ReadNo(n: nat, s: string)
    requires n >= 1 || Opens(s)
    ensures var t := "NOT" + (Spaces(n) + s);
            && Firm(t)
            && UnaryG(t) == var r := UnaryG(s); if r.Err? then r else Ok(Parsed(Not(r.value.e), r.value.rest))
  {
    hide UnaryG, Ws, Keyword, Spaces;
    var u := Spaces(n) + s;
    var t := "NOT" + u;
    SkipSpaces(Nil, n, s);
    UnaryStep(t);
    KeywordAt("NOT", n, s);
    NotStart(u);
  }

  lemma NotStart(u: string)
    ensures var t := "NOT" + u;
            Firm(t) && Ws(t) == t && t[3..] == u
  {
    assert ("NOT" + u)[0] == 'N';
  }

  // ----- every spelling is read as its tree -----

  lemma {:induction false} ReadsOperand(w: Spelling, q: string)
    requires w.Operand(q)
    ensures Firm(w.Text() + q) && UnaryG(w.Text() + q) == Ok(Parsed(w.Tree(), q))
    decreases w, 0
  {
    hide UnaryG, OrG, AndG, AndTail, OrTail, Firm, Ws, Keyword, Spaces, TermG;
    match w
    case No(n, x) =>
      ReadsOperand(x, q);
      ReadNo(n, x.Text() + q);
      Assoc("NOT", Spaces(n) + x.Text(), q);
      Assoc(Spaces(n), x.Text(), q);
    case Group(before, x, behind) =>
      ReadsGroup(before, x, behind, q);
    case _ =>
      ReadLeafText(w, q);
  }

  lemma ReadsGroup(before: nat, x: Spelling, behind: nat, q: string)
    requires x.Query(Spaces(behind) + (")" + q))
    ensures var t := Group(before, x, behind).Text() + q;
            Firm(t) && UnaryG(t) == Ok(Parsed(x.Tree(), q))
    decreases x, 3
  {
    hide UnaryG, OrG, AndG, AndTail, OrTail, Ws, Keyword, Spaces;
    var close := ")" + q;
    var inner := Spaces(before) + (x.Text() + Spaces(behind));
    CloseGroup(x.Tree(), behind, q);
    ReadsOr(x, Spaces(behind) + close);
    SkipSpaces(Nil, before, x.Text() + (Spaces(behind) + close));
    UnaryParen(inner, q);
    GroupText(Spaces(before), x.Text(), Spaces(behind), q);
  }

  lemma GroupText(a: string, x: string, b: string, q: string)
    ensures ("(" + (a + (x + (b + ")")))) + q == "(" + ((a + (x + b)) + (")" + q))
    ensures (a + (x + b)) + (")" + q) == a + (x + (b + (")" + q)))
  {
    calc {
      (a + (x + b)) + (")" + q);
      { Assoc(a, x + b, ")" + q); }
      a + ((x + b) + (")" + q));
      { Assoc(x, b, ")" + q); }
      a + (x + (b + (")" + q)));
    }
    calc {
      ("(" + (a + (x + (b + ")")))) + q;
      { Assoc("(", a + (x + (b + ")")), q); }
      "(" + ((a + (x + (b + ")"))) + q);
      { Assoc(a, x + (b + ")"), q); }
      "(" + (a + ((x + (b + ")")) + q));
      { Assoc(x, b + ")", q); }
      "(" + (a + (x + ((b + ")") + q)));
      { Assoc(b, ")", q); }
      "(" + (a + (x + (b + (")" + q))));
    }
  }

  lemma CloseGroup(e: Expr, n: nat, q: string)
    ensures var t := Spaces(n) + (")" + q);
            && OrTail(e, t) == Ok(Parsed(e, ")" + q))
            && Ws(")" + q) == ")" + q && (")" + q)[1..] == q
  {
    CloseOr(Ok(e), q);
    SkipSpaces(e, n, ")" + q);
    hide OrTail, Spaces;
  }

  lemma {:induction false} ReadsAnd(w: Spelling, q: string)
    requires w.Chain(q)
    ensures AndG(w.Text() + q) == AndTail(w.Tree(), q)
    decreases w, 1
  {
    hide UnaryG, OrG, AndTail, OrTail, Firm, Ws, Keyword, Spaces;
    if w.Both? {
      var s := w.r.Text() + q;
      var t := (if w.and then "AND" + (Spaces(w.after) + s) else s);
      ReadsOperand(w.r, q);
      ReadsAnd(w.l, Spaces(w.gap) + t);
      SkipSpaces(w.l.Tree(), w.gap, t);
      if w.and {
        JoinAnd(w.l.Tree(), w.after, s);
      } else {
        JoinOperand(w.l.Tree(), s);
      }
      BothText(w, q);
      hide AndG;
    } else {
      ReadsOperand(w, q);
    }
  }

  lemma BothText(w: Spelling, q: string)
    requires w.Both?
    ensures var s := w.r.Text() + q;
            w.Text() + q == w.l.Text() + (Spaces(w.gap) + (if w.and then "AND" + (Spaces(w.after) + s) else s))
  {
    hide Spaces;
    var a := if w.and then "AND" + Spaces(w.after) else "";
    var r := w.r.Text();
    Assoc(w.l.Text(), Spaces(w.gap) + (a + r), q);
    Assoc(Spaces(w.gap), a + r, q);
    Assoc(a, r, q);
    Assoc("AND", Spaces(w.after), r + q);
    EmptyLeft(r + q);
  }

  lemma {:induction false} ReadsOr(w: Spelling, q: string)
    requires w.Query(q)
    ensures OrG(w.Text() + q) == OrTail(w.Tree(), q)
    decreases w, 2
  {
    hide UnaryG, AndG, AndTail, OrTail, Firm, Ws, Keyword, Spaces, EndsChain;
    if w.Either? {
      var s := w.r.Text() + q;
      ReadsAnd(w.r, q);
      StopChain(w.r.Tree(), Or(w.l.Tree(), w.r.Tree()), q);
      var t := "OR" + (Spaces(w.after) + s);
      JoinOr(w.l.Tree(), w.after, s);
      SkipSpaces(w.l.Tree(), w.gap, t);
      ReadsOr(w.l, Spaces(w.gap) + t);
      EitherText(w, q);
      hide OrG;
    } else {
      ReadsAnd(w, q);
      StopChain(w.Tree(), w.Tree(), q);
    }
  }

  lemma EitherText(w: Spelling, q: string)
    requires w.Either?
    ensures w.Text() + q == w.l.Text() + (Spaces(w.gap) + ("OR" + (Spaces(w.after) + (w.r.Text() + q))))
  {
    hide Spaces;
    var r := w.r.Text();
    Assoc(w.l.Text(), Spaces(w.gap) + ("OR" + (Spaces(w.after) + r)), q);
    Assoc(Spaces(w.gap), "OR" + (Spaces(w.after) + r), q);
    Assoc("OR", Spaces(w.after) + r, q);
    Assoc(Spaces(w.after), r, q);
  }

  /** Every spelling is read as its tree, whatever spaces surround it: the word AND and
      the number of spaces make no difference, and parentheses only where they group. */
  lemma SpellingReads(w: Spelling, before: nat, behind: nat)
    requires w.Query(Spaces(behind))
    ensures ParseText(Spaces(before) + (w.Text() + Spaces(behind))) == Ok(w.Tree())
  {
    hide UnaryG, AndG, OrG, AndTail, OrTail, Keyword, Spaces;
    EndOfText(w.Tree(), behind);
    ReadsOr(w, Spaces(behind));
    SkipSpaces(Nil, before, w.Text() + Spaces(behind));
  }

  lemma EndOfText(e: Expr, n: nat)
    ensures OrTail(e, Spaces(n)) == Ok(Parsed(e, "")) && Ws("") == ""
  {
    SkipSpaces(e, n, "");
    assert Spaces(n) + "" == Spaces(n);
    OrTailStep(e, "");
    hide OrTail, Spaces;
  }

  // ----- every accepted text is a spelling -----

  lemma SpanCuts(s: string, colon: bool)
    ensures var n := Span(s, colon);
            && n <= |s| && s == s[..n] + s[n..]
            && (forall i :: 0 <= i < |s[..n]| ==> !Stop(s[..n][i], colon))
            && (s[n..] != "" ==> Stop(s[n..][0], colon))
  {
    var n := Span(s, colon);
    SplitAt(s, n);
    assert n < |s| ==> s[n..][0] == s[n];
  }

  lemma OpCuts(s: string)
    ensures var (op, k) := OpAt(s);
            && op != "" && op != OP_EXISTS && OpText(op).Some? && k == |OpText(op).value| <= |s|
            && s == OpText(op).value + s[k..]
  {
    var (op, k) := OpAt(s);
    assert s == s[..k] + s[k..];
    assert k == 1 ==> s[..1] == [s[0]];
    assert k == 2 ==> s[..2] == [s[0], s[1]];
  }

  /** The rest of a filter after its field and colon. */
  lemma FilterCuts(f: string, s: string) returns (w: Spelling)
    requires FieldToken(f) && FilterG(f, s).Ok?
    ensures w.Pair? || w.QuotedPair? || w.Has?
    ensures w.Operand(FilterG(f, s).value.rest) && w.Tree() == FilterG(f, s).value.e
    ensures f + (":" + s) == w.Text() + FilterG(f, s).value.rest
  {
    var (op, k) := OpAt(s);
    var t := s[k..];
    OpCuts(s);
    var rest := FilterG(f, s).value.rest;
    if op == OP_EQ && ExistsMark(t) {
      w := Has(f);
      assert s == t && t == "*" + rest;
      FieldText(f, "*", rest);
    } else if t != "" && t[0] == '"' {
      w := QuotedCutsOperand(f, op, t);
      hide OpText, OpAt, Quoted, Span, ExistsMark;
      FieldText(f, Comparison(op, "\"" + (w.raw + "\"")), rest);
    } else {
      w := BareCuts(f, s);
      hide OpText, OpAt, Quoted, Span, ExistsMark;
    }
  }

  lemma QuotedCutsOperand(f: string, op: string, t: string) returns (w: Spelling)
    requires FieldToken(f) && op != "" && OpText(op).Some? && t != "" && t[0] == '"' && ValueG(f, op, t).Ok?
    ensures w.QuotedPair? && w.field == f && w.op == op
    ensures w.Operand(ValueG(f, op, t).value.rest) && w.Tree() == ValueG(f, op, t).value.e
    ensures OpText(op).value + t == Comparison(op, "\"" + (w.raw + "\"")) + ValueG(f, op, t).value.rest
  {
    hide Quoted, Span;
    var raw := QuotedCuts(t[1..]);
    w := QuotedPair(f, op, raw);
    var rest := ValueG(f, op, t).value.rest;
    assert t == "\"" + t[1..];
    Assoc("\"", raw + "\"", rest);
    Assoc(raw, "\"", rest);
    Assoc(OpText(op).value, "\"" + (raw + "\""), rest);
  }

  /** A bare value and its operator, read from s. */
  lemma BareParts(s: string)
    requires var (op, k) := OpAt(s);
             k <= |s| && Span(s[k..], false) > 0 && s[k..][0] != '"'
    ensures var (op, k) := OpAt(s);
            var n := Span(s[k..], false);
            && n <= |s[k..]|
            && var v, rest := s[k..][..n], s[k..][n..];
            && BareOperand(op, v) && Ends(rest) && s == Comparison(op, v) + rest && s[k..] == v + rest
  {
    var (op, k) := OpAt(s);
    var t := s[k..];
    OpCuts(s);
    SpanCuts(t, false);
    var v, rest := t[..Span(t, false)], t[Span(t, false)..];
    assert v[0] == t[0];
    hide OpText, OpAt, Span;
    Assoc(OpText(op).value, v, rest);
    SameOp(Comparison(op, v), rest);
  }

  lemma NotTheMark(v: string, rest: string)
    requires !ExistsMark(v + rest) && Ends(rest) && v == "*"
    ensures Opens(rest)
  {
    assert rest != "" ==> (v + rest)[1] == rest[0];
  }

  lemma BareCuts(f: string, s: string) returns (w: Spelling)
    requires FieldToken(f) && FilterG(f, s).Ok?
    requires var (op, k) := OpAt(s);
             k <= |s| && !(op == OP_EQ && ExistsMark(s[k..])) && (s[k..] == "" || s[k..][0] != '"')
    ensures w.Pair? && w.Operand(FilterG(f, s).value.rest) && w.Tree() == FilterG(f, s).value.e
    ensures f + (":" + s) == w.Text() + FilterG(f, s).value.rest
  {
    hide OpText, OpAt, Quoted, Span, ExistsMark, BareOperand, FieldToken, Ends, Opens, Comparison;
    var (op, k) := OpAt(s);
    var t := s[k..];
    assert t != "" by { assert Span("", false) == 0 by { NoSpan(); } }
    BareParts(s);
    var v, rest := t[..Span(t, false)], t[Span(t, false)..];
    w := Pair(f, op, v);
    FieldText(f, Comparison(op, v), rest);
    if op == OP_EQ && v == "*" {
      NotTheMark(v, rest);
    }
  }

  lemma NoSpan()
    ensures Span("", false) == 0
  {
  }

  lemma TermCuts(t: string) returns (w: Spelling)
    requires Ws(t) == t && !Keyword(t, "NOT") && TermG(t).Ok?
    ensures w.Operand(TermG(t).value.rest) && w.Tree() == TermG(t).value.e
    ensures t == w.Text() + TermG(t).value.rest
    ensures !w.Both? && !w.Either?
  {
    TermStep(t);
    hide TermG;
    if t != "" && t[0] == '"' {
      var raw := QuotedCuts(t[1..]);
      w := Quote(raw);
      var rest := Quoted(t[1..]).value.rest;
      assert t == "\"" + t[1..];
      Assoc("\"", raw + "\"", rest);
      Assoc(raw, "\"", rest);
    } else {
      w := WordCuts(t);
    }
  }

  lemma WordCuts(t: string) returns (w: Spelling)
    requires !Keyword(t, "NOT") && WordG(t).Ok? && (t == "" || t[0] != '"')
    ensures w.Operand(WordG(t).value.rest) && w.Tree() == WordG(t).value.e
    ensures t == w.Text() + WordG(t).value.rest
    ensures !w.Both? && !w.Either?
  {
    hide FilterG, Quoted;
    SpanCuts(t, true);
    var n := Span(t, true);
    var v, q := t[..n], t[n..];
    if q != "" && q[0] == ':' {
      assert q == ":" + q[1..] && q[1..] == t[n + 1..];
      w := FilterCuts(v, t[n + 1..]);
    } else {
      w := Word(v);
      assert |v| == 3 && q != "" ==> t[3] == q[0];
      assert v == "NOT" ==> Starts(t, "NOT");
    }
  }

  lemma OperandFirm(w: Spelling, q: string)
    requires w.Operand(q)
    ensures Firm(w.Text() + q)
  {
    ReadsOperand(w, q);
  }

  /** After a keyword the spaces that follow it are all there is in between. */
  lemma KeywordGap(t: string, kw: string, n: nat, s: string)
    requires Keyword(t, kw) && t[|kw|..] == Spaces(n) + s && Firm(s)
    ensures (n >= 1 || Opens(s)) && t == kw + (Spaces(n) + s)
  {
    var u := t[|kw|..];
    assert t[..|kw|] == kw;
    SplitAt(t, |kw|);
    if n == 0 {
      EmptyLeft(s);
      assert u == s && t[|kw|] == u[0];
    }
  }

  lemma AndParts(s: string)
    requires AndG(s).Ok?
    ensures UnaryG(s).Ok? && |UnaryG(s).value.rest| < |s|
    ensures AndG(s) == AndTail(UnaryG(s).value.e, UnaryG(s).value.rest)
    ensures |AndG(s).value.rest| < |s|
  {
    hide UnaryG, AndTail;
  }

  lemma OrParts(s: string)
    requires OrG(s).Ok?
    ensures AndG(s).Ok? && |AndG(s).value.rest| < |s|
    ensures OrG(s) == OrTail(AndG(s).value.e, AndG(s).value.rest)
    ensures |OrG(s).value.rest| < |s|
  {
    hide AndG, OrTail;
  }

  lemma UnaryShorter(s: string)
    ensures UnaryG(s).Ok? ==> |UnaryG(s).value.rest| < |s|
    ensures |Ws(s)| <= |s| && |AfterAnd(s)| <= |s|
  {
  }

  lemma {:induction false} UnaryCuts(s: string) returns (n: nat, w: Spelling)
    requires UnaryG(s).Ok?
    ensures var rest := UnaryG(s).value.rest;
            w.Operand(rest) && w.Tree() == UnaryG(s).value.e && s == Spaces(n) + (w.Text() + rest)
    ensures !w.Both? && !w.Either?
    decreases |s|, 0
  {
    hide UnaryG, OrG, TermG, Spaces, Keyword, Firm, Spelling.Query;
    n := WsCuts(s);
    var t := Ws(s);
    UnaryStep(s);
    UnaryShorter(s);
    if Keyword(t, "NOT") {
      var rest := UnaryG(s).value.rest;
      KeywordLong(t, "NOT");
      var m, x := UnaryCuts(t[3..]);
      w := No(m, x);
      OperandFirm(x, rest);
      KeywordGap(t, "NOT", m, x.Text() + rest);
      Assoc("NOT", Spaces(m) + x.Text(), rest);
      Assoc(Spaces(m), x.Text(), rest);
    } else if t != "" && t[0] == '(' {
      var before, x, behind := OrCuts(t[1..]);
      w := GroupCuts(t, before, x, behind);
    } else {
      assert Ws(t) == t;
      w := TermCuts(t);
    }
  }

  lemma KeywordLong(t: string, kw: string)
    requires Keyword(t, kw)
    ensures |kw| <= |t|
  {
  }

  lemma GroupCuts(t: string, before: nat, x: Spelling, behind: nat) returns (w: Spelling)
    requires t != "" && t[0] == '(' && OrG(t[1..]).Ok?
    requires var u := OrG(t[1..]).value.rest;
             Ws(u) == u && u != "" && u[0] == ')' &&
             x.Query(Spaces(behind) + u) && t[1..] == Spaces(before) + (x.Text() + (Spaces(behind) + u))
    ensures var u := OrG(t[1..]).value.rest;
            w == Group(before, x, behind) && w.Operand(u[1..]) && t == w.Text() + u[1..]
  {
    hide OrG, Spaces, Spelling.Query, Ws;
    var u := OrG(t[1..]).value.rest;
    w := Group(before, x, behind);
    GroupWhole(t, Spaces(before), x.Text(), Spaces(behind), u);
  }

  lemma GroupWhole(t: string, a: string, x: string, b: string, u: string)
    requires t != "" && t[0] == '(' && u != "" && u[0] == ')' && t[1..] == a + (x + (b + u))
    ensures u == ")" + u[1..] && t == ("(" + (a + (x + (b + ")")))) + u[1..]
  {
    var rest := u[1..];
    assert u == ")" + rest;
    assert t == "(" + t[1..];
    GroupText(a, x, b, rest);
  }

  lemma {:induction false} AndCuts(s: string) returns (n: nat, w: Spelling, g: nat)
    requires AndG(s).Ok?
    ensures var rest := AndG(s).value.rest;
            && w.Chain(Spaces(g) + rest) && w.Tree() == AndG(s).value.e
            && s == Spaces(n) + (w.Text() + (Spaces(g) + rest))
            && EndsChain(Spaces(g) + rest) && Ws(rest) == rest && !w.Either?
    decreases |s|, 2
  {
    hide UnaryG, AndG, AndTail, Spaces, Spelling.Operand, EndsChain;
    AndParts(s);
    var x: Spelling;
    n, x := UnaryCuts(s);
    w, g := TailCuts(x, UnaryG(s).value.rest);
  }

  lemma StopHere(n: nat, t: string)
    requires Ws(t) == t && (t == "" || t[0] == ')' || Keyword(t, "OR"))
    ensures EndsChain(Spaces(n) + t)
  {
    hide Spaces;
    SkipSpaces(Nil, n, t);
  }

  lemma WsTwice(s: string)
    ensures Ws(Ws(s)) == Ws(s)
  {
  }

  lemma {:induction false} TailCuts(l: Spelling, s: string) returns (w: Spelling, g: nat)
    requires l.Chain(s) && AndTail(l.Tree(), s).Ok? && !l.Either?
    ensures var rest := AndTail(l.Tree(), s).value.rest;
            && w.Chain(Spaces(g) + rest) && w.Tree() == AndTail(l.Tree(), s).value.e
            && l.Text() + s == w.Text() + (Spaces(g) + rest)
            && EndsChain(Spaces(g) + rest) && Ws(rest) == rest && !w.Either?
    decreases |s|, 1
  {
    hide UnaryG, AndTail, Spaces, Spelling.Operand, Spelling.Chain, Spelling.Text, Keyword, Ws, AfterAnd, EndsChain;
    AndTailStep(l.Tree(), s);
    var gap := WsCuts(s);
    var t := Ws(s);
    WsTwice(s);
    if t == "" || t[0] == ')' || Keyword(t, "OR") {
      w, g := l, gap;
      StopHere(gap, t);
    } else {
      var u := AfterAnd(t);
      UnaryShorter(s);
      UnaryShorter(t);
      UnaryShorter(u);
      var m, r := UnaryCuts(u);
      var x := JoinCuts(l, gap, t, m, r);
      w, g := TailCuts(x, UnaryG(u).value.rest);
    }
  }

  /** A chain with the operand found behind it is a chain. */
  lemma JoinCuts(l: Spelling, gap: nat, t: string, m: nat, r: Spelling) returns (x: Spelling)
    requires l.Chain(Spaces(gap) + t) && Ws(t) == t && t != "" && t[0] != ')' && !Keyword(t, "OR")
    requires UnaryG(AfterAnd(t)).Ok?
    requires var rest := UnaryG(AfterAnd(t)).value.rest;
             r.Operand(rest) && AfterAnd(t) == Spaces(m) + (r.Text() + rest)
    ensures var rest := UnaryG(AfterAnd(t)).value.rest;
            && x.Both? && x.l == l && x.r == r && x.Chain(rest) && x.Tree() == And(l.Tree(), r.Tree())
            && l.Text() + (Spaces(gap) + t) == x.Text() + rest
  {
    hide UnaryG, Spelling.Operand, Keyword, Firm;
    var rest := UnaryG(AfterAnd(t)).value.rest;
    var s := r.Text() + rest;
    OperandFirm(r, rest);
    if Keyword(t, "AND") {
      KeywordGap(t, "AND", m, s);
      x := Both(l, gap, true, m, r);
    } else {
      NoGap(t, m, s);
      x := Both(l, gap, false, 0, r);
    }
    BothText(x, rest);
  }

  lemma NoGap(t: string, m: nat, s: string)
    requires Ws(t) == t && t != "" && t == Spaces(m) + s
    ensures t == s
  {
    if m > 0 {
      SpacesStep(m, s);
      assert false;
    } else {
      EmptyLeft(s);
    }
  }

  lemma {:induction false} OrCuts(s: string) returns (n: nat, w: Spelling, g: nat)
    requires OrG(s).Ok?
    ensures var rest := OrG(s).value.rest;
            && w.Query(Spaces(g) + rest) && w.Tree() == OrG(s).value.e
            && s == Spaces(n) + (w.Text() + (Spaces(g) + rest)) && Ws(rest) == rest
    decreases |s|, 4
  {
    hide AndG, OrG, OrTail, Spaces, Spelling.Chain, EndsChain;
    OrParts(s);
    var x: Spelling;
    var h: nat;
    n, x, h := AndCuts(s);
    var rest := AndG(s).value.rest;
    SkipSpaces(x.Tree(), h, rest);
    w, g := OrTailCuts(x, h, rest);
  }

  lemma {:induction false} OrTailCuts(l: Spelling, h: nat, t: string) returns (w: Spelling, g: nat)
    requires l.Query(Spaces(h) + t) && Ws(t) == t && OrTail(l.Tree(), t).Ok?
    ensures var rest := OrTail(l.Tree(), t).value.rest;
            && w.Query(Spaces(g) + rest) && w.Tree() == OrTail(l.Tree(), t).value.e
            && l.Text() + (Spaces(h) + t) == w.Text() + (Spaces(g) + rest) && Ws(rest) == rest
    decreases |t|, 3
  {
    hide AndG, OrTail, Spaces, Spelling.Chain, Keyword, EndsChain;
    OrTailStep(l.Tree(), t);
    if !Keyword(t, "OR") {
      w, g := l, h;
    } else {
      KeywordLong(t, "OR");
      var u := t[2..];
      AndParts(u);
      var m, r, k := AndCuts(u);
      var rest := AndG(u).value.rest;
      var x := OrJoin(l, h, t, m, r, k);
      w, g := OrTailCuts(x, k, rest);
    }
  }

  lemma OrJoin(l: Spelling, h: nat, t: string, m: nat, r: Spelling, k: nat) returns (x: Spelling)
    requires l.Query(Spaces(h) + t) && Keyword(t, "OR") && |t| >= 2 && AndG(t[2..]).Ok?
    requires var q := Spaces(k) + AndG(t[2..]).value.rest;
             r.Chain(q) && !r.Either? && EndsChain(q) && t[2..] == Spaces(m) + (r.Text() + q)
    ensures var q := Spaces(k) + AndG(t[2..]).value.rest;
            && x == Either(l, h, m, r) && x.Query(q)
            && l.Text() + (Spaces(h) + t) == x.Text() + q
  {
    hide AndG, Spelling.Chain, Keyword, EndsChain, Firm;
    var q := Spaces(k) + AndG(t[2..]).value.rest;
    var s := r.Text() + q;
    ChainFirm(r, q);
    KeywordGap(t, "OR", m, s);
    x := Either(l, h, m, r);
    EitherText(x, q);
  }

  lemma {:induction false} ChainFirm(w: Spelling, q: string)
    requires w.Chain(q)
    ensures Firm(w.Text() + q)
    decreases w
  {
    if w.Both? {
      hide Spaces, Firm, Keyword, Spelling.Operand;
      var s := w.r.Text() + q;
      ChainFirm(w.l, Spaces(w.gap) + (if w.and then "AND" + (Spaces(w.after) + s) else s));
      BothText(w, q);
    } else {
      OperandFirm(w, q);
    }
  }

  /** s is a spelling of e, with spaces around it. */
  ghost predicate Spells(s: string, e: Expr) {
    exists w: Spelling, before: nat, behind: nat ::
      w.Query(Spaces(behind)) && w.Tree() == e && s == Spaces(before) + (w.Text() + Spaces(behind))
  }

  lemma AcceptedIsSpelled(s: string)
    requires ParseText(s).Ok?
    ensures Spells(s, ParseText(s).value)
  {
    hide OrG, Spaces, Spelling.Query, Spelling.Text, Spelling.Tree;
    var n, w, g := OrCuts(s);
    NothingAfter(g, OrG(s).value.rest);
    hide Ws;
    assert w.Query(Spaces(g)) && s == Spaces(n) + (w.Text() + Spaces(g));
  }

  lemma NothingAfter(g: nat, rest: string)
    ensures rest == "" ==> Spaces(g) + rest == Spaces(g)
  {
  }

  /** The accepted language, exactly: parsing yields a tree precisely on its spellings. */
  lemma AcceptsExactly(s: string, e: Expr)
    ensures ParseText(s) == Ok(e) <==> Spells(s, e)
  {
    hide ParseText, Spaces, Spelling.Query, Spelling.Text, Spelling.Tree;
    if ParseText(s) == Ok(e) {
      AcceptedIsSpelled(s);
      hide Spells;
    } else if Spells(s, e) {
      var w: Spelling, before: nat, behind: nat :|
        w.Query(Spaces(behind)) && w.Tree() == e && s == Spaces(before) + (w.Text() + Spaces(behind));
      SpellingReads(w, before, behind);
    }
  }
}
