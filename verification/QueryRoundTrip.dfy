/** Compiling and parsing back: what Parse returns on every compiled text, when
    that is the tree that was compiled, and what recompiling a user's query does. */
module QueryRoundTrip {
  import opened Common
  import opened QueryAst
  import opened QueryParser

  // ----- the canonical tree: chains nested to the left, ops spelled out -----

  function CanonLeaf(e: Expr): Expr {
    if !e.Filter? then e
    else if e.op == OP_EXISTS then Filter(e.field, OP_EXISTS, "")
    else if e.op == "" then Filter(e.field, OP_EQ, e.value)
    else e
  }

  function LeftNest(e: Expr): Expr
    decreases e, 0
  {
    match e
    case And(a, b) => GraftAnd(LeftNest(a), b)
    case Or(a, b) => GraftOr(LeftNest(a), b)
    case Not(x) => Not(LeftNest(x))
    case _ => CanonLeaf(e)
  }

  function GraftAnd(l: Expr, e: Expr): Expr
    decreases e, 1
  {
    if e.And? then GraftAnd(GraftAnd(l, e.l), e.r) else And(l, LeftNest(e))
  }

  function GraftOr(l: Expr, e: Expr): Expr
    decreases e, 1
  {
    if e.Or? then GraftOr(GraftOr(l, e.l), e.r) else Or(l, LeftNest(e))
  }

  /** A filter the compiler prints as "field:~..." although it is not a match. */
  predicate TildeEq(e: Expr) {
    e.Filter? && (e.op == "" || e.op == OP_EQ) && Bare(e.value) && e.value[0] == '~'
  }

  predicate HasTildeEq(e: Expr) {
    match e
    case And(a, b) => HasTildeEq(a) || HasTildeEq(b)
    case Or(a, b) => HasTildeEq(a) || HasTildeEq(b)
    case Not(x) => HasTildeEq(x)
    case _ => TildeEq(e)
  }

  // ----- what the parser reads from compiled text -----

  function RereadLeaf(e: Expr): Result<Expr, ParseError> {
    if !TildeEq(e) then Ok(CanonLeaf(e))
    else if |e.value| == 1 then Err(MissingValue)
    else Ok(Filter(e.field, OP_MATCH, e.value[1..]))
  }

  function Reread(e: Expr): Result<Expr, ParseError>
    decreases e, 0
  {
    match e
    case And(a, b) => var l :- Reread(a); ChainAnd(l, b)
    case Or(a, b) => var l :- Reread(a); ChainOr(l, b)
    case Not(x) => var y :- Reread(x); Ok(Not(y))
    case _ => RereadLeaf(e)
  }

  function ChainAnd(l: Expr, e: Expr): Result<Expr, ParseError>
    decreases e, 1
  {
    if e.And? then
      var m :- ChainAnd(l, e.l);
      ChainAnd(m, e.r)
    else
      var r :- Reread(e);
      Ok(And(l, r))
  }

  function ChainOr(l: Expr, e: Expr): Result<Expr, ParseError>
    decreases e, 1
  {
    if e.Or? then
      var m :- ChainOr(l, e.l);
      ChainOr(m, e.r)
    else
      var r :- Reread(e);
      Ok(Or(l, r))
  }

  // ----- tokens followed by a delimiter -----

  /** What can follow an operand: the end, a space or a closing parenthesis. */
  predicate Delim(q: string) {
    q == "" || q[0] == ' ' || q[0] == ')'
  }

  /** What ends a chain: the end, a closing parenthesis or the word OR. */
  predicate EndsChain(q: string) {
    Ws(q) == "" || Ws(q)[0] == ')' || Keyword(Ws(q), "OR")
  }

  lemma QuotedKeep(c: char, t: string)
    requires t != ""
    ensures Quoted(EscapeChar(c) + t) == Keep(c, Quoted(t))
  {
    var s := EscapeChar(c) + t;
    assert s[|EscapeChar(c)|..] == t;
  }

  lemma {:induction false} QuotedEscape(v: string, q: string)
    ensures Quoted(Escape(v) + "\"" + q) == Ok(Unquoted(v, q))
  {
    if v == "" {
      assert Escape(v) + "\"" + q == "\"" + q;
      assert ("\"" + q)[1..] == q;
    } else {
      var t := Escape(v[1..]) + "\"" + q;
      Assoc(EscapeChar(v[0]), Escape(v[1..]), "\"");
      Assoc(EscapeChar(v[0]), Escape(v[1..]) + "\"", q);
      QuotedKeep(v[0], t);
      QuotedEscape(v[1..], q);
      assert [v[0]] + v[1..] == v;
    }
  }

  lemma QuotedValue(v: string, q: string)
    requires !Bare(v)
    ensures var t := ValueText(v) + q;
            t != "" && t[0] == '"' && Quoted(t[1..]) == Ok(Unquoted(v, q))
  {
    QuotedEscape(v, q);
    hide Quoted, Escape, Bare;
    assert ("\"" + Escape(v) + "\"" + q)[1..] == Escape(v) + "\"" + q;
  }

  lemma BareSpan(v: string, q: string, colon: bool)
    requires forall i :: 0 <= i < |v| ==> BareChar(v[i])
    requires Delim(q) || (colon && q[0] == ':')
    ensures Span(v + q, colon) == |v|
  {
    SpanAt(v + q, |v|, colon);
  }

  /** A keyword is read only where a whole token spells it and no colon follows. */
  lemma KeywordToken(v: string, q: string, kw: string)
    requires kw in {"NOT", "OR", "AND"}
    requires forall i :: 0 <= i < |v| ==> BareChar(v[i])
    requires Delim(q) || q[0] == ':'
    requires v != kw || (q != "" && q[0] == ':')
    ensures !Keyword(v + q, kw)
  {
    var s := v + q;
    assert forall i :: 0 <= i < |kw| ==> IsAlnum(kw[i]);
    if |v| < |kw| {
      assert q != "" ==> s[|v|] == q[0];
    } else if |v| > |kw| {
      assert s[|kw|] == v[|kw|];
      assert BareChar(v[|kw|]);
    } else {
      assert Starts(s, kw) ==> v == kw;
      assert q != "" ==> s[|kw|] == q[0];
    }
  }

  lemma ReadBareValue(f: string, op: string, v: string, q: string)
    requires forall i :: 0 <= i < |v| ==> BareChar(v[i])
    requires Delim(q)
    ensures ValueG(f, op, v + q) == if v == "" then Err(MissingValue) else Ok(Parsed(Filter(f, op, v), q))
  {
    var t := v + q;
    BareSpan(v, q, false);
    hide Span, Quoted;
    assert t[..|v|] == v && t[|v|..] == q;
    assert v != "" ==> t[0] == v[0] && BareChar(v[0]);
  }

  lemma ReadValue(f: string, op: string, v: string, q: string)
    requires Delim(q)
    ensures ValueG(f, op, ValueText(v) + q) == Ok(Parsed(Filter(f, op, v), q))
  {
    if Bare(v) {
      ReadBareValue(f, op, v, q);
    } else {
      QuotedValue(v, q);
      hide Span, Quoted, ValueText;
    }
  }

  /** The operator text is read back, given the first character of what follows. */
  lemma ReadOp(op: string, t: string)
    requires OpText(op).Some? && t != ""
    requires t[0] == '"' || BareChar(t[0])
    requires (op == "" || op == OP_EQ) ==> t[0] != '~'
    ensures var s := OpText(op).value + t;
            OpAt(s) == (if op == "" then OP_EQ else op, |OpText(op).value|) && s[|OpText(op).value|..] == t
  {
    var s := OpText(op).value + t;
    var k := |OpText(op).value|;
    assert s[k] == t[0];
    assert forall i :: 0 <= i < k ==> s[i] == OpText(op).value[i];
    assert s[k..] == t;
  }

  lemma ValueStart(v: string, q: string)
    ensures var t := ValueText(v) + q;
            t != "" && (t[0] == '"' || (Bare(v) && BareChar(t[0]) && t[0] == v[0]))
  {
  }

  /** The text of a filter after "field:". */
  function Operand(e: Expr): string
    requires e.Filter?
  {
    if e.op == OP_EXISTS then "*"
    else (if OpText(e.op).Some? then OpText(e.op).value else "") + ValueText(e.value)
  }

  lemma ReadTilde(e: Expr, q: string)
    requires TildeEq(e) && Delim(q)
    ensures FilterG(e.field, e.value + q) == Outcome(RereadLeaf(e), q)
  {
    var s := e.value + q;
    var w := e.value[1..];
    assert s[1..] == w + q && s[0] == '~';
    assert OpAt(s) == (OP_MATCH, 1);
    ReadBareValue(e.field, OP_MATCH, w, q);
    hide OpAt, ValueG;
  }

  lemma ReadFilter(e: Expr, q: string)
    requires e.Filter? && Valid(e) && Delim(q)
    ensures FilterG(e.field, Operand(e) + q) == Outcome(RereadLeaf(e), q)
  {
    var s := Operand(e) + q;
    if e.op == OP_EXISTS {
      assert s[1..] == q;
      assert s[0] == '*' && ExistsMark(s);
      assert s[0..] == s;
      assert OpAt(s) == (OP_EQ, 0);
    } else if TildeEq(e) {
      assert s == e.value + q;
      ReadTilde(e, q);
    } else {
      var o := OpText(e.op).value;
      var t := ValueText(e.value) + q;
      Assoc(o, ValueText(e.value), q);
      ValueStart(e.value, q);
      assert !ExistsMark(t);
      ReadOp(e.op, t);
      ReadValue(e.field, if e.op == "" then OP_EQ else e.op, e.value, q);
      hide OpAt, ExistsMark, ValueG, ValueText, OpText, Bare;
    }
  }

  /** What a leaf's text cannot be taken for. */
  predicate Opaque(s: string) {
    s != "" && s[0] != ' ' && s[0] != '(' && s[0] != ')'
    && !Keyword(s, "NOT") && !Keyword(s, "OR") && !Keyword(s, "AND")
  }

  lemma OpaqueToken(v: string, q: string)
    requires v != "" && forall i :: 0 <= i < |v| ==> BareChar(v[i])
    requires Delim(q) || q[0] == ':'
    requires v in {"NOT", "OR", "AND"} ==> q != "" && q[0] == ':'
    ensures Opaque(v + q)
  {
    KeywordToken(v, q, "NOT");
    KeywordToken(v, q, "OR");
    KeywordToken(v, q, "AND");
    assert (v + q)[0] == v[0] && BareChar(v[0]);
  }

  lemma ReadWord(t: string, q: string)
    requires t != "" && forall i :: 0 <= i < |t| ==> BareChar(t[i])
    requires Delim(q)
    ensures WordG(t + q) == Ok(Parsed(Phrase(t), q))
  {
    BareSpan(t, q, true);
    hide Span, FilterG;
    assert (t + q)[..|t|] == t && (t + q)[|t|..] == q;
  }

  lemma TermWord(s: string)
    requires Opaque(s) && s[0] != '"'
    ensures TermG(s) == WordG(s)
  {
    assert Ws(s) == s;
    hide Opaque, WordG;
  }

  lemma TermQuoted(s: string, t: string, q: string)
    requires s != "" && s[0] == '"' && Quoted(s[1..]) == Ok(Unquoted(t, q))
    ensures TermG(s) == Ok(Parsed(Phrase(t), q)) && Opaque(s)
  {
    hide Quoted, WordG;
    assert Ws(s) == s && Opaque(s);
  }

  lemma ReadPhrase(t: string, q: string)
    requires Delim(q)
    ensures Opaque(ValueText(t) + q)
    ensures TermG(ValueText(t) + q) == Ok(Parsed(Phrase(t), q))
  {
    ValueStart(t, q);
    if Bare(t) {
      OpaqueToken(t, q);
      ReadWord(t, q);
      TermWord(t + q);
    } else {
      QuotedValue(t, q);
      hide Bare;
      TermQuoted(ValueText(t) + q, t, q);
    }
  }

  /** A field name and a colon make the term a filter. */
  lemma ReadField(f: string, tail: string)
    requires FieldName(f)
    ensures var s := f + ":" + tail;
            Opaque(s) && TermG(s) == FilterG(f, tail)
  {
    var s := f + ":" + tail;
    var q := ":" + tail;
    Assoc(f, ":", tail);
    assert forall i :: 0 <= i < |f| ==> FieldChar(f[i]) && BareChar(f[i]);
    OpaqueToken(f, q);
    BareSpan(f, q, true);
    assert s[0] == f[0] && BareChar(f[0]);
    TermWord(s);
    hide Span, FilterG, Opaque, FieldName, TermG;
    assert s[..|f|] == f && s[|f|] == ':' && s[|f| + 1..] == tail;
  }

  lemma FilterText(e: Expr)
    requires e.Filter?
    ensures Render(e) == e.field + ":" + Operand(e)
  {
    if e.op != OP_EXISTS {
      var o := if OpText(e.op).Some? then OpText(e.op).value else "";
      Assoc(e.field + ":", o, ValueText(e.value));
    }
  }

  lemma ReadFilterTerm(e: Expr, q: string)
    requires e.Filter? && Valid(e) && Delim(q)
    ensures Opaque(Render(e) + q)
    ensures TermG(Render(e) + q) == Outcome(RereadLeaf(e), q)
  {
    var tail := Operand(e) + q;
    ReadFilter(e, q);
    ReadField(e.field, tail);
    FilterText(e);
    Assoc(e.field + ":", Operand(e), q);
    hide *;
  }

  // ----- operands, chains and whole expressions -----

  function ThenAnd(r: Result<Expr, ParseError>, q: string): Result<Parsed, ParseError> {
    if r.Err? then Err(r.error) else AndTail(r.value, q)
  }

  function ThenOr(r: Result<Expr, ParseError>, q: string): Result<Parsed, ParseError> {
    if r.Err? then Err(r.error) else OrTail(r.value, q)
  }

  /** The start of an operand: nothing an AND chain would stop at or skip. */
  predicate Solid(s: string) {
    s != "" && s[0] != ' ' && s[0] != ')' && !Keyword(s, "OR") && !Keyword(s, "AND")
  }

  lemma UnarySpace(s: string)
    ensures UnaryG(" " + s) == UnaryG(s) && AndG(" " + s) == AndG(s)
  {
    assert (" " + s)[1..] == s;
    assert Ws(" " + s) == Ws(s);
    UnaryStep(s);
    UnaryStep(" " + s);
  }

  /** "NOT (" and "(" before an expression, ")" after it. */
  lemma UnaryParen(x: string, q: string)
    ensures UnaryG("(" + (x + (")" + q))) ==
            var r := OrG(x + (")" + q));
            if r.Err? then r
            else if Ws(r.value.rest) == "" || Ws(r.value.rest)[0] != ')' then Err(MissingParen)
            else Ok(Parsed(r.value.e, Ws(r.value.rest)[1..]))
    ensures Solid("(" + (x + (")" + q)))
  {
    var s := "(" + (x + (")" + q));
    assert s[0] == '(' && s[1..] == x + (")" + q);
    assert Ws(s) == s && !Keyword(s, "NOT");
    UnaryStep(s);
  }

  lemma UnaryNot(s: string)
    requires s != "" && s[0] == '('
    ensures UnaryG("NOT " + s) ==
            var r := UnaryG(s); if r.Err? then r else Ok(Parsed(Not(r.value.e), r.value.rest))
    ensures Solid("NOT " + s)
  {
    var t := "NOT " + s;
    assert Ws(t) == t && Keyword(t, "NOT");
    assert t[3..] == " " + s;
    UnarySpace(s);
    UnaryStep(t);
  }

  lemma CloseOr(r: Result<Expr, ParseError>, q: string)
    ensures ThenOr(r, ")" + q) == Outcome(r, ")" + q)
    ensures Delim(")" + q) && EndsChain(")" + q) && Ws(")" + q) == ")" + q && (")" + q)[1..] == q
  {
  }

  lemma ReadParen(e: Expr, q: string)
    requires OrG(Render(e) + (")" + q)) == ThenOr(Reread(e), ")" + q)
    ensures UnaryG("(" + (Render(e) + (")" + q))) == Outcome(Reread(e), q)
    ensures Solid("(" + (Render(e) + (")" + q)))
  {
    CloseOr(Reread(e), q);
    UnaryParen(Render(e), q);
    hide UnaryG, OrG, Render, Reread, OrTail, Solid;
  }

  lemma UnaryLeaf(s: string)
    requires Opaque(s)
    ensures UnaryG(s) == TermG(s) && Solid(s)
  {
    assert Ws(s) == s;
    UnaryStep(s);
  }

  lemma ReadLeaf(e: Expr, q: string)
    requires Valid(e) && Delim(q) && (e.Filter? || e.Phrase?)
    ensures UnaryG(Render(e) + q) == Outcome(Reread(e), q)
    ensures Solid(Render(e) + q)
  {
    if e.Filter? {
      ReadFilterTerm(e, q);
    } else {
      ReadPhrase(e.text, q);
    }
    UnaryLeaf(Render(e) + q);
    hide UnaryG, TermG, Opaque, Solid, ValueText;
  }

  lemma ReadNot(x: Expr, q: string)
    requires OrG(Render(x) + (")" + q)) == ThenOr(Reread(x), ")" + q)
    ensures UnaryG(Render(Not(x)) + q) == Outcome(Reread(Not(x)), q)
    ensures Solid(Render(Not(x)) + q)
  {
    ReadParen(x, q);
    UnaryNot("(" + (Render(x) + (")" + q)));
    NotText(Render(x), q);
    hide UnaryG, OrG, Solid, OrTail;
  }

  lemma {:induction false} ReadOperand(e: Expr, q: string)
    requires Valid(e) && Delim(q) && !e.And?
    ensures UnaryG(RenderChild(e) + q) == Outcome(Reread(e), q)
    ensures Solid(RenderChild(e) + q)
    decreases e, if e.Or? then 3 else 0
  {
    hide UnaryG, OrG, TermG, OrTail, Solid, Opaque;
    if e.Or? {
      CloseOr(Reread(e), q);
      ReadOr(e, ")" + q);
      ReadParen(e, q);
      ParenText("", Render(e), q);
      assert "" + "(" == "(" && "" + ("(" + (Render(e) + (")" + q))) == "(" + (Render(e) + (")" + q));
    } else if e.Not? {
      CloseOr(Reread(e.e), q);
      ReadOr(e.e, ")" + q);
      ReadNot(e.e, q);
    } else {
      ReadLeaf(e, q);
    }
  }

  lemma NotText(x: string, q: string)
    ensures ("NOT (" + x + ")") + q == "NOT " + ("(" + (x + (")" + q)))
  {
    assert "NOT (" == "NOT " + "(";
    ParenText("NOT ", x, q);
  }

  lemma ParenText(h: string, x: string, q: string)
    ensures (h + "(" + x + ")") + q == h + ("(" + (x + (")" + q)))
  {
  }

  lemma JoinText(a: string, sep: string, b: string, q: string)
    ensures (a + sep + b) + q == a + (sep + (b + q))
  {
  }

  lemma AndSep(l: Expr, s: string)
    requires Solid(s)
    ensures AndTail(l, " AND " + s) ==
            var x := UnaryG(s); if x.Err? then x else AndTail(And(l, x.value.e), x.value.rest)
  {
    var t := "AND " + s;
    assert (" AND " + s)[1..] == t;
    assert Ws(" AND " + s) == t;
    assert Keyword(t, "AND") && !Keyword(t, "OR");
    assert t[3..] == " " + s;
    UnarySpace(s);
    AndTailStep(l, " AND " + s);
  }

  lemma {:induction false} ReadAnd(e: Expr, q: string)
    requires Valid(e) && Delim(q)
    ensures AndG(RenderChild(e) + q) == ThenAnd(Reread(e), q)
    decreases e, if e.Or? then 4 else 1
  {
    if e.And? {
      var t := " AND " + (RenderChild(e.r) + q);
      ReadAnd(e.l, t);
      JoinText(RenderChild(e.l), " AND ", RenderChild(e.r), q);
      var l := Reread(e.l);
      if l.Ok? {
        ReadAndTail(l.value, e.r, q);
      }
    } else {
      ReadOperand(e, q);
    }
  }

  lemma {:induction false} ReadAndTail(l: Expr, e: Expr, q: string)
    requires Valid(e) && Delim(q)
    ensures AndTail(l, " AND " + (RenderChild(e) + q)) == ThenAnd(ChainAnd(l, e), q)
    decreases e, if e.Or? then 4 else 1
  {
    if e.And? {
      var t := " AND " + (RenderChild(e.r) + q);
      ReadAndTail(l, e.l, t);
      JoinText(RenderChild(e.l), " AND ", RenderChild(e.r), q);
      var m := ChainAnd(l, e.l);
      if m.Ok? {
        ReadAndTail(m.value, e.r, q);
      }
    } else {
      ReadOperand(e, q);
      AndSep(l, RenderChild(e) + q);
    }
  }

  lemma OrSep(l: Expr, s: string)
    ensures Delim(" OR " + s) && EndsChain(" OR " + s)
    ensures OrTail(l, " OR " + s) ==
            var x := AndG(s); if x.Err? then x else OrTail(Or(l, x.value.e), x.value.rest)
  {
    var t := "OR " + s;
    assert (" OR " + s)[1..] == t;
    assert Ws(" OR " + s) == t;
    assert Keyword(t, "OR");
    assert t[2..] == " " + s;
    UnarySpace(s);
    OrTailStep(l, " OR " + s);
  }

  /** Where a chain ends, the tail has nothing to read. */
  lemma StopChain(l: Expr, m: Expr, q: string)
    requires EndsChain(q)
    ensures AndTail(l, q) == Ok(Parsed(l, Ws(q))) && OrTail(m, Ws(q)) == OrTail(m, q)
  {
    AndTailStep(l, q);
    assert Ws(Ws(q)) == Ws(q);
    OrTailStep(m, q);
    OrTailStep(m, Ws(q));
    hide OrTail, AndTail, Ws, AndG;
  }

  lemma {:induction false} ReadOr(e: Expr, q: string)
    requires Valid(e) && Delim(q) && EndsChain(q)
    ensures OrG(Render(e) + q) == ThenOr(Reread(e), q)
    decreases e, 2
  {
    hide UnaryG, AndTail, Solid, Ws;
    if e.Or? {
      var t := " OR " + (Render(e.r) + q);
      OrSep(e, Render(e.r) + q);
      ReadOr(e.l, t);
      JoinText(Render(e.l), " OR ", Render(e.r), q);
      var l := Reread(e.l);
      if l.Ok? {
        ReadOrTail(l.value, e.r, q);
      }
    } else {
      ReadAnd(e, q);
      if Reread(e).Ok? {
        StopChain(Reread(e).value, Reread(e).value, q);
      }
    }
  }

  lemma {:induction false} ReadOrTail(l: Expr, e: Expr, q: string)
    requires Valid(e) && Delim(q) && EndsChain(q)
    ensures OrTail(l, " OR " + (Render(e) + q)) == ThenOr(ChainOr(l, e), q)
    decreases e, 2
  {
    hide UnaryG, AndTail, Solid, Ws;
    if e.Or? {
      var t := " OR " + (Render(e.r) + q);
      OrSep(l, Render(e.r) + q);
      ReadOrTail(l, e.l, t);
      JoinText(Render(e.l), " OR ", Render(e.r), q);
      var m := ChainOr(l, e.l);
      if m.Ok? {
        ReadOrTail(m.value, e.r, q);
      }
    } else {
      OrSep(l, Render(e) + q);
      ReadAnd(e, q);
      if Reread(e).Ok? {
        StopChain(Reread(e).value, Or(l, Reread(e).value), q);
      }
    }
  }

  /** What Parse makes of every text Compile can produce. */
  lemma ParseCompiled(e: Expr)
    requires Valid(e)
    ensures ParseText(Render(e)) == Reread(e)
  {
    assert Render(e) + "" == Render(e);
    ReadOr(e, "");
    var r := Reread(e);
    if r.Ok? {
      OrTailStep(r.value, "");
    }
  }

  // ----- the round trip holds exactly when no filter is printed as another -----

  lemma {:induction false} RereadIsLeftNest(e: Expr)
    ensures Reread(e) == Ok(LeftNest(e)) <==> !HasTildeEq(e)
    decreases e, 0
  {
    match e
    case And(a, b) =>
      RereadIsLeftNest(a);
      if Reread(a).Ok? {
        ChainIsGraft(true, Reread(a).value, LeftNest(a), b);
      }
    case Or(a, b) =>
      RereadIsLeftNest(a);
      if Reread(a).Ok? {
        ChainIsGraft(false, Reread(a).value, LeftNest(a), b);
      }
    case Not(x) =>
      RereadIsLeftNest(x);
    case _ =>
  }

  lemma {:induction false} ChainIsGraft(and: bool, l: Expr, m: Expr, e: Expr)
    ensures and ==> (ChainAnd(l, e) == Ok(GraftAnd(m, e)) <==> l == m && !HasTildeEq(e))
    ensures !and ==> (ChainOr(l, e) == Ok(GraftOr(m, e)) <==> l == m && !HasTildeEq(e))
    decreases e, 1
  {
    if and && e.And? {
      ChainIsGraft(true, l, m, e.l);
      if ChainAnd(l, e.l).Ok? {
        ChainIsGraft(true, ChainAnd(l, e.l).value, GraftAnd(m, e.l), e.r);
      }
    } else if !and && e.Or? {
      ChainIsGraft(false, l, m, e.l);
      if ChainOr(l, e.l).Ok? {
        ChainIsGraft(false, ChainOr(l, e.l).value, GraftOr(m, e.l), e.r);
      }
    } else {
      RereadIsLeftNest(e);
    }
  }

  /** Compile, then parse: the tree comes back, left-nested and with its ops
      spelled out, exactly when no equality filter has a bare value starting
      with '~'. */
  lemma RoundTrip(e: Expr)
    requires Valid(e)
    ensures ParseText(Render(e)) == Ok(LeftNest(e)) <==> !HasTildeEq(e)
  {
    ParseCompiled(e);
    RereadIsLeftNest(e);
  }
}
