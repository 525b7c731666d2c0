/** The query language in plain text: what each tree compiles to and what each form of
    query is read as, character by character (backend/internal/query). */
module QueryText {
  import opened Common
  import opened QueryAst
  import opened QueryParser
  import opened QueryRoundTrip
  import opened QuerySpelling

  // ----- compiled text -----

  /** A value comes out as it is if it is a nonempty non-keyword of letters, digits and
      six other characters, and in quotes otherwise. */
  lemma ValueTextIs(v: string)
    ensures var safe := v != "" && v != "AND" && v != "OR" && v != "NOT" && forall i :: 0 <= i < |v| ==>
              'a' <= v[i] <= 'z' || 'A' <= v[i] <= 'Z' || '0' <= v[i] <= '9' || v[i] in "_.-/@+~";
            ValueText(v) == if safe then v else "\"" + Escape(v) + "\""
  {
    hide Escape;
  }

  /** In quotes, a quote and a backslash get a backslash in front and nothing else changes. */
  lemma EscapeIs(a: string, c: char, b: string)
    ensures Escape("") == ""
    ensures Escape(a + [c] + b) == Escape(a) + (if c == '"' || c == '\\' then "\\" + [c] else [c]) + Escape(b)
  {
    EscapeAppend(a, [c]);
    EscapeAppend(a + [c], b);
    assert [c][1..] == "";
    assert Escape([c]) == EscapeChar(c) + "" == EscapeChar(c);
    assert "\\" + [c] == ['\\', c];
  }

  predicate FieldLike(f: string) {
    f != "" && forall i :: 0 <= i < |f| ==>
      'a' <= f[i] <= 'z' || 'A' <= f[i] <= 'Z' || '0' <= f[i] <= '9' || f[i] == '_' || f[i] == '.'
  }

  /** The eight ops and the empty one, in front of the value. */
  lemma FilterTexts(f: string, v: string)
    requires FieldLike(f)
    ensures Compiled(Filter(f, "", v)) == Ok(f + ":" + ValueText(v))
    ensures Compiled(Filter(f, "eq", v)) == Ok(f + ":" + ValueText(v))
    ensures Compiled(Filter(f, "neq", v)) == Ok(f + ":!=" + ValueText(v))
    ensures Compiled(Filter(f, "match", v)) == Ok(f + ":~" + ValueText(v))
    ensures Compiled(Filter(f, "gt", v)) == Ok(f + ":>" + ValueText(v))
    ensures Compiled(Filter(f, "ge", v)) == Ok(f + ":>=" + ValueText(v))
    ensures Compiled(Filter(f, "lt", v)) == Ok(f + ":<" + ValueText(v))
    ensures Compiled(Filter(f, "le", v)) == Ok(f + ":<=" + ValueText(v))
    ensures Compiled(Filter(f, "exists", v)) == Ok(f + ":*")
  {
    hide Compiled, ValueText, OpText, FieldLike;
    OpTexts();
    OneFilter(f, "", "", ":", v);
    OneFilter(f, "eq", "", ":", v);
    OneFilter(f, "neq", "!=", ":!=", v);
    OneFilter(f, "match", "~", ":~", v);
    OneFilter(f, "gt", ">", ":>", v);
    OneFilter(f, "ge", ">=", ":>=", v);
    OneFilter(f, "lt", "<", ":<", v);
    OneFilter(f, "le", "<=", ":<=", v);
    ExistsText(f, v);
  }

  lemma OpTexts()
    ensures OpText("") == Some("") && OpText("eq") == Some("") && OpText("neq") == Some("!=")
    ensures OpText("match") == Some("~") && OpText("gt") == Some(">") && OpText("ge") == Some(">=")
    ensures OpText("lt") == Some("<") && OpText("le") == Some("<=")
  {
  }

  lemma OneFilter(f: string, op: string, o: string, c: string, v: string)
    requires FieldLike(f) && OpText(op) == Some(o) && op != "exists" && c == ":" + o
    ensures Compiled(Filter(f, op, v)) == Ok(f + c + ValueText(v))
  {
    assert FieldName(f);
    hide ValueText, FieldName, OpText;
    Assoc(f, ":", o);
  }

  lemma ExistsText(f: string, v: string)
    requires FieldLike(f)
    ensures Compiled(Filter(f, "exists", v)) == Ok(f + ":*")
  {
    assert FieldName(f);
  }

  /** A filter is refused for its field, or else for its op, and for nothing else. */
  lemma FilterErrors(f: string, op: string, v: string)
    ensures Compiled(Filter(f, op, v)) == Err(BadField) <==> !FieldLike(f)
    ensures Compiled(Filter(f, op, v)) == Err(UnknownOp) <==>
            FieldLike(f) && op !in {"", "eq", "neq", "match", "gt", "ge", "lt", "le", "exists"}
    ensures Compiled(Filter(f, op, v)).Ok? || Compiled(Filter(f, op, v)).error in {BadField, UnknownOp}
  {
    assert FieldLike(f) == FieldName(f);
    hide Render;
  }

  /** Trees: AND and OR between their operands, an OR under an AND in parentheses, NOT
      always with parentheses; the first error on the way. */
  lemma TreeTexts(a: Expr, b: Expr)
    requires a != Nil && b != Nil
    ensures var ca, cb := Compiled(a), Compiled(b);
            && Compiled(And(a, b)) ==
               (if ca.Err? then ca else if cb.Err? then cb
                else Ok((if a.Or? then "(" + ca.value + ")" else ca.value) + " AND " +
                        (if b.Or? then "(" + cb.value + ")" else cb.value)))
            && Compiled(Or(a, b)) ==
               (if ca.Err? then ca else if cb.Err? then cb else Ok(ca.value + " OR " + cb.value))
            && Compiled(Not(a)) == (if ca.Err? then ca else Ok("NOT (" + ca.value + ")"))
  {
    assert Render(And(a, b)) == RenderChild(a) + " AND " + RenderChild(b);
    assert RenderChild(a) == (if a.Or? then "(" + Render(a) + ")" else Render(a));
    assert RenderChild(b) == (if b.Or? then "(" + Render(b) + ")" else Render(b));
    assert Render(Or(a, b)) == Render(a) + " OR " + Render(b);
    assert Render(Not(a)) == "NOT (" + Render(a) + ")";
    hide Render, RenderChild;
  }

  lemma LeafTexts(t: string)
    ensures Compiled(Phrase(t)) == Ok(ValueText(t))
    ensures Compiled(Nil) == Ok("") && Compiled(Foreign) == Err(UnknownExpr)
  {
  }

  // ----- what is read -----

  /** A word no part of which means anything. */
  predicate Simple(w: string) {
    && w != "" && w != "AND" && w != "OR" && w != "NOT" && w[0] != '"'
    && forall i :: 0 <= i < |w| ==> w[i] != ' ' && w[i] != '(' && w[i] != ')' && w[i] != ':'
  }

  lemma SimpleToken(w: string, q: string)
    requires Simple(w) && Ends(q)
    ensures Token(w) && !Keyword(w + q, "AND") && !Keyword(w + q, "OR") && !Keyword(w + q, "NOT")
  {
    WordIsWord(w, q, "AND");
    WordIsWord(w, q, "OR");
    WordIsWord(w, q, "NOT");
  }

  lemma WordIsWord(w: string, q: string, kw: string)
    requires Simple(w) && Ends(q) && (kw == "AND" || kw == "OR" || kw == "NOT")
    ensures !Keyword(w + q, kw)
  {
    var s := w + q;
    assert forall i :: 0 <= i < |w| ==> s[i] == w[i];
    if |w| < |kw| {
      assert q != "" ==> s[|w|] == q[0] != kw[|w|];
    } else if |w| > |kw| {
      assert s[|kw|] == w[|kw|];
    } else {
      assert Starts(s, kw) ==> w == kw;
    }
  }

  /** A spelling read by itself. */
  lemma Reads(w: Spelling)
    requires w.Query("")
    ensures ParseText(w.Text()) == Ok(w.Tree())
  {
    hide Spelling.Query, Spelling.Text, Spelling.Tree, ParseText;
    assert Spaces(0) == "";
    SpellingReads(w, 0, 0);
    assert w.Text() + "" == w.Text();
    EmptyLeft(w.Text());
  }

  lemma Blank()
    ensures Spaces(0) == "" && Spaces(1) == " " && Spaces(2) == "  "
  {
    assert Spaces(1) == " " + Spaces(0);
    assert Spaces(2) == " " + Spaces(1);
  }

  lemma AtEnd()
    ensures EndsChain("") && Ends("") && Delim("") && Ends(" ") && Ends(")")
  {
  }

  lemma IsQuery(w: Spelling, q: string)
    requires w.Chain(q) && EndsChain(q) && !w.Either?
    ensures w.Query(q)
  {
  }

  lemma IsChain(w: Spelling, q: string)
    requires w.Operand(q) && !w.Both? && !w.Either?
    ensures w.Chain(q)
  {
  }

  /** Two parts joined by a space, or by a space, the word AND and a space. */
  lemma IsBoth(l: Spelling, and: bool, r: Spelling, q: string)
    requires r.Operand(q)
    requires if and then l.Chain(" AND " + (r.Text() + q))
             else l.Chain(" " + (r.Text() + q)) && !Keyword(r.Text() + q, "OR") && !Keyword(r.Text() + q, "AND")
    ensures Both(l, 1, and, 1, r).Chain(q)
    ensures Both(l, 1, and, 1, r).Text() == l.Text() + (if and then " AND " else " ") + r.Text()
  {
    hide Spelling.Operand, Keyword;
    Blank();
    var s := r.Text() + q;
    Assoc(" ", "AND ", s);
    Assoc("AND", " ", s);
    assert " " + "AND " == " AND " && "AND" + " " == "AND ";
    assert " " + ("AND" + (" " + s)) == " AND " + s;
    Assoc(l.Text(), " AND ", r.Text());
    Assoc(l.Text(), " ", r.Text());
    assert " " + (("AND" + " ") + r.Text()) == " AND " + r.Text();
    EmptyLeft(r.Text());
  }

  lemma IsEither(l: Spelling, r: Spelling, q: string)
    requires l.Query(" OR " + (r.Text() + q)) && r.Chain(q) && EndsChain(q)
    ensures Either(l, 1, 1, r).Query(q)
    ensures Either(l, 1, 1, r).Text() == l.Text() + " OR " + r.Text()
  {
    hide Spelling.Chain, EndsChain;
    Blank();
    var s := r.Text() + q;
    assert " " + ("OR" + (" " + s)) == " OR " + s;
    assert " " + ("OR" + (" " + r.Text())) == " OR " + r.Text();
    Assoc(l.Text(), " OR ", r.Text());
  }

  lemma OrAhead(s: string)
    ensures EndsChain(" OR " + s)
  {
    OrSep(Nil, s);
  }

  lemma SpaceEnds(s: string)
    ensures Ends(" " + s) && Ends(" AND " + s) && Ends(" OR " + s)
  {
  }

  lemma OneWord(a: string)
    requires Simple(a)
    ensures ParseText(a) == Ok(Phrase(a))
  {
    hide ParseText, EndsChain, Ends, Delim, Simple;
    AtEnd();
    WordOperand(a, "");
    IsChain(Word(a), "");
    IsQuery(Word(a), "");
    Reads(Word(a));
  }

  lemma WordOperand(a: string, q: string)
    requires Simple(a) && Ends(q)
    ensures Word(a).Operand(q) && Word(a).Chain(q) && !Keyword(a + q, "AND") && !Keyword(a + q, "OR")
  {
    SimpleToken(a, q);
  }

  lemma NoOperand(a: string, q: string)
    requires Simple(a) && Ends(q)
    ensures No(1, Word(a)).Operand(q) && No(1, Word(a)).Chain(q)
    ensures No(1, Word(a)).Text() == "NOT " + a
    ensures !Keyword(("NOT " + a) + q, "AND") && !Keyword(("NOT " + a) + q, "OR")
  {
    SimpleToken(a, q);
    Blank();
    assert "NOT" + (" " + a) == "NOT " + a;
    assert (("NOT " + a) + q)[0] == 'N';
  }

  lemma GroupOperand(x: Spelling, q: string)
    requires x.Query(")" + q)
    ensures Group(0, x, 0).Operand(q) && Group(0, x, 0).Chain(q)
    ensures Group(0, x, 0).Text() == "(" + x.Text() + ")"
    ensures !Keyword(("(" + x.Text() + ")") + q, "AND") && !Keyword(("(" + x.Text() + ")") + q, "OR")
  {
    hide Spelling.Query;
    Blank();
    EmptyLeft(")" + q);
    EmptyLeft(")");
    EmptyLeft(x.Text() + ")");
    Assoc("(", x.Text(), ")");
    assert (("(" + x.Text() + ")") + q)[0] == '(';
  }

  /** Two words with a space or AND between them are both meant, with OR one of them. */
  lemma TwoWords(a: string, b: string)
    requires Simple(a) && Simple(b)
    ensures ParseText(a + " " + b) == Ok(And(Phrase(a), Phrase(b)))
    ensures ParseText(a + " AND " + b) == Ok(And(Phrase(a), Phrase(b)))
    ensures ParseText(a + " OR " + b) == Ok(Or(Phrase(a), Phrase(b)))
  {
    hide ParseText, Keyword, Simple, EndsChain, Ends, Delim, Spelling.Operand, Spelling.Chain, Spelling.Query;
    AtEnd();
    assert b + "" == b;
    SpaceEnds(b);
    WordOperand(b, "");
    WordOperand(a, " " + b);
    WordOperand(a, " AND " + b);
    WordOperand(a, " OR " + b);
    IsBoth(Word(a), false, Word(b), "");
    IsBoth(Word(a), true, Word(b), "");
    IsQuery(Both(Word(a), 1, false, 1, Word(b)), "");
    IsQuery(Both(Word(a), 1, true, 1, Word(b)), "");
    OrAhead(b);
    IsQuery(Word(a), " OR " + b);
    IsEither(Word(a), Word(b), "");
    Reads(Both(Word(a), 1, false, 1, Word(b)));
    Reads(Both(Word(a), 1, true, 1, Word(b)));
    Reads(Either(Word(a), 1, 1, Word(b)));
  }

  /** NOT binds tighter than AND and AND tighter than OR; chains lean to the left. */
  lemma ThreeWords(a: string, b: string, d: string)
    requires Simple(a) && Simple(b) && Simple(d)
    ensures ParseText(a + " " + b + " OR " + d) == Ok(Or(And(Phrase(a), Phrase(b)), Phrase(d)))
    ensures ParseText(a + " OR " + (b + " " + d)) == Ok(Or(Phrase(a), And(Phrase(b), Phrase(d))))
    ensures ParseText(a + " " + b + " " + d) == Ok(And(And(Phrase(a), Phrase(b)), Phrase(d)))
    ensures ParseText(a + " OR " + b + " OR " + d) == Ok(Or(Or(Phrase(a), Phrase(b)), Phrase(d)))
  {
    hide ParseText, Keyword, Simple, EndsChain, Ends, Delim, Spelling.Operand, Spelling.Chain, Spelling.Query;
    AtEnd();
    assert d + "" == d && (b + " " + d) + "" == b + " " + d;
    SpaceEnds(d);
    SpaceEnds(b + (" " + d));
    SpaceEnds(b + (" OR " + d));
    SpaceEnds(b + " " + d);
    OrAhead(d);
    OrAhead(b + " " + d);
    OrAhead(b + (" OR " + d));
    WordOperand(d, "");
    WordOperand(b, " " + d);
    WordOperand(b, " OR " + d);
    WordOperand(a, " " + (b + (" " + d)));
    WordOperand(a, " " + (b + (" OR " + d)));
    WordOperand(a, " OR " + (b + (" OR " + d)));
    WordOperand(a, " OR " + (b + " " + d));
    var ab := Both(Word(a), 1, false, 1, Word(b));
    var bd := Both(Word(b), 1, false, 1, Word(d));
    IsBoth(Word(a), false, Word(b), " OR " + d);
    IsQuery(ab, " OR " + d);
    IsEither(ab, Word(d), "");
    Reads(Either(ab, 1, 1, Word(d)));
    IsBoth(Word(b), false, Word(d), "");
    IsQuery(Word(a), " OR " + (b + " " + d));
    IsEither(Word(a), bd, "");
    Reads(Either(Word(a), 1, 1, bd));
    IsBoth(Word(a), false, Word(b), " " + d);
    IsBoth(ab, false, Word(d), "");
    IsQuery(Both(ab, 1, false, 1, Word(d)), "");
    Reads(Both(ab, 1, false, 1, Word(d)));
    assert ab.Text() == a + " " + b && ab.Tree() == And(Phrase(a), Phrase(b));
    IsQuery(Word(a), " OR " + (b + (" OR " + d)));
    IsEither(Word(a), Word(b), " OR " + d);
    IsEither(Either(Word(a), 1, 1, Word(b)), Word(d), "");
    Reads(Either(Either(Word(a), 1, 1, Word(b)), 1, 1, Word(d)));
  }

  /** NOT takes one operand, with or without parentheses, and parentheses group. */
  lemma NotAndGroup(a: string, b: string, d: string)
    requires Simple(a) && Simple(b) && Simple(d)
    ensures ParseText("NOT " + a) == Ok(Not(Phrase(a)))
    ensures ParseText("NOT " + a + " " + b) == Ok(And(Not(Phrase(a)), Phrase(b)))
    ensures ParseText("(" + a + ")") == Ok(Phrase(a))
    ensures ParseText("(" + (a + " OR " + b) + ")" + " " + d) == Ok(And(Or(Phrase(a), Phrase(b)), Phrase(d)))
  {
    hide ParseText, Keyword, Simple, EndsChain, Ends, Delim, Spelling.Operand, Spelling.Chain, Spelling.Query;
    AtEnd();
    NoOperand(a, "");
    IsQuery(No(1, Word(a)), "");
    Reads(No(1, Word(a)));
    SpaceEnds(b);
    assert b + "" == b && d + "" == d;
    WordOperand(b, "");
    NoOperand(a, " " + b);
    IsBoth(No(1, Word(a)), false, Word(b), "");
    IsQuery(Both(No(1, Word(a)), 1, false, 1, Word(b)), "");
    Reads(Both(No(1, Word(a)), 1, false, 1, Word(b)));
    CloseEnds("");
    WordOperand(a, ")" + "");
    IsQuery(Word(a), ")" + "");
    GroupOperand(Word(a), "");
    IsQuery(Group(0, Word(a), 0), "");
    Reads(Group(0, Word(a), 0));
    GroupedOr(a, b, d);
  }

  lemma CloseEnds(q: string)
    ensures EndsChain(")" + q) && Ends(")" + q)
  {
    CloseOr(Ok(Nil), q);
  }

  lemma GroupedOr(a: string, b: string, d: string)
    requires Simple(a) && Simple(b) && Simple(d)
    ensures ParseText("(" + (a + " OR " + b) + ")" + " " + d) == Ok(And(Or(Phrase(a), Phrase(b)), Phrase(d)))
  {
    hide ParseText, Keyword, Simple, EndsChain, Ends, Delim, Spelling.Operand, Spelling.Chain, Spelling.Query;
    AtEnd();
    var q := ")" + (" " + d);
    CloseEnds(" " + d);
    SpaceEnds(b + q);
    assert d + "" == d;
    WordOperand(d, "");
    WordOperand(b, q);
    WordOperand(a, " OR " + (b + q));
    OrAhead(b + q);
    IsQuery(Word(a), " OR " + (b + q));
    IsEither(Word(a), Word(b), q);
    var g := Group(0, Either(Word(a), 1, 1, Word(b)), 0);
    GroupOperand(Either(Word(a), 1, 1, Word(b)), " " + d);
    IsBoth(g, false, Word(d), "");
    IsQuery(Both(g, 1, false, 1, Word(d)), "");
    Reads(Both(g, 1, false, 1, Word(d)));
    assert Word(a).Text() == a && Word(b).Text() == b && Word(d).Text() == d;
    assert g.Text() == "(" + (a + " OR " + b) + ")";
    assert Both(g, 1, false, 1, Word(d)).Text() == "(" + (a + " OR " + b) + ")" + " " + d;
    assert Either(Word(a), 1, 1, Word(b)).Tree() == Or(Phrase(a), Phrase(b));
    hide Spelling.Text;
  }

  // ----- quotes and filters -----

  /** A quoted phrase; a backslash takes the next character as it is. */
  lemma QuotedPhrase(x: string, c: char, y: string)
    requires forall i :: 0 <= i < |x| ==> x[i] != '"' && x[i] != '\\'
    requires forall i :: 0 <= i < |y| ==> y[i] != '"' && y[i] != '\\'
    ensures ParseText("\"" + x + "\"") == Ok(Phrase(x))
    ensures ParseText("\"" + (x + "\\" + [c] + y) + "\"") == Ok(Phrase(x + [c] + y))
  {
    hide ParseText, EndsChain;
    AtEnd();
    PlainRaw(x, "");
    PlainRaw(y, "");
    assert x + "" == x && y + "" == y && Raw("") && Unraw("") == "";
    PlainRaw(x, "\\" + [c] + y);
    EscapedRaw(c, y);
    assert x + ("\\" + [c] + y) == x + "\\" + [c] + y && x + ([c] + y) == x + [c] + y;
    hide Raw, Unraw;
    QuoteReads(x);
    QuoteReads(x + "\\" + [c] + y);
  }

  lemma QuoteReads(raw: string)
    requires Raw(raw)
    ensures ParseText("\"" + raw + "\"") == Ok(Phrase(Unraw(raw)))
  {
    hide ParseText, EndsChain, Raw, Unraw;
    AtEnd();
    IsChain(Quote(raw), "");
    IsQuery(Quote(raw), "");
    Reads(Quote(raw));
    Assoc("\"", raw, "\"");
  }

  lemma {:induction false} PlainRaw(x: string, r: string)
    requires forall i :: 0 <= i < |x| ==> x[i] != '"' && x[i] != '\\'
    ensures Raw(x + r) == Raw(r) && Unraw(x + r) == x + Unraw(r)
  {
    if x == "" {
      EmptyLeft(r);
      EmptyLeft(Unraw(r));
    } else {
      PlainRaw(x[1..], r);
      CutFront(x, r, 1);
      assert (x + r)[0] == x[0];
      assert [x[0]] + x[1..] == x;
      Assoc([x[0]], x[1..], Unraw(r));
      hide Unraw;
      assert Unraw(x + r) == [x[0]] + Unraw(x[1..] + r) by { PlainStep(x + r); }
    }
  }

  lemma PlainStep(s: string)
    requires s != "" && s[0] != '\\'
    ensures Unraw(s) == [s[0]] + Unraw(s[1..])
  {
  }

  lemma EscapedRaw(c: char, y: string)
    requires Raw(y)
    ensures Raw("\\" + [c] + y) && Unraw("\\" + [c] + y) == [c] + Unraw(y)
  {
    var s := "\\" + [c] + y;
    assert s[0] == '\\' && s[1] == c && s[2..] == y;
  }

  /** A value of a filter: a letter or digit first, no separator. */
  predicate PlainValue(v: string) {
    && v != "" && ('a' <= v[0] <= 'z' || 'A' <= v[0] <= 'Z' || '0' <= v[0] <= '9')
    && forall i :: 0 <= i < |v| ==> v[i] != ' ' && v[i] != '(' && v[i] != ')'
  }

  predicate PlainField(f: string) {
    f != "" && f[0] != '"' && forall i :: 0 <= i < |f| ==> f[i] != ' ' && f[i] != '(' && f[i] != ')' && f[i] != ':'
  }

  /** The operators as they are written, with bare and quoted values, and the star. */
  lemma FiltersRead(f: string, v: string)
    requires PlainField(f) && PlainValue(v)
    ensures ParseText(f + ":" + v) == Ok(Filter(f, "eq", v))
    ensures ParseText(f + ":!=" + v) == Ok(Filter(f, "neq", v))
    ensures ParseText(f + ":~" + v) == Ok(Filter(f, "match", v))
    ensures ParseText(f + ":>" + v) == Ok(Filter(f, "gt", v))
    ensures ParseText(f + ":>=" + v) == Ok(Filter(f, "ge", v))
    ensures ParseText(f + ":<" + v) == Ok(Filter(f, "lt", v))
    ensures ParseText(f + ":<=" + v) == Ok(Filter(f, "le", v))
    ensures ParseText(f + ":*") == Ok(Filter(f, "exists", ""))
  {
    hide ParseText, PlainField, PlainValue, OpText;
    OpTexts();
    PairReads(f, "eq", "", ":", v);
    PairReads(f, "neq", "!=", ":!=", v);
    PairReads(f, "match", "~", ":~", v);
    PairReads(f, "gt", ">", ":>", v);
    PairReads(f, "ge", ">=", ":>=", v);
    PairReads(f, "lt", "<", ":<", v);
    PairReads(f, "le", "<=", ":<=", v);
    HasReads(f);
  }

  lemma OpBefore(op: string, o: string, v: string)
    requires PlainValue(v) && OpText(op) == Some(o) && op != "" && op != "exists"
    ensures OpAt(o + v) == (op, |o|)
  {
    assert forall i :: 0 <= i < |o| ==> (o + v)[i] == o[i];
    assert (o + v)[|o|] == v[0];
  }

  lemma PairReads(f: string, op: string, o: string, c: string, v: string)
    requires PlainField(f) && PlainValue(v) && OpText(op) == Some(o) && op != "" && op != "exists" && c == ":" + o
    ensures ParseText(f + c + v) == Ok(Filter(f, op, v))
  {
    OpBefore(op, o, v);
    hide ParseText, EndsChain, OpAt, OpText;
    AtEnd();
    IsChain(Pair(f, op, v), "");
    IsQuery(Pair(f, op, v), "");
    Reads(Pair(f, op, v));
    Assoc(":", o, v);
    Assoc(f, c, v);
  }

  lemma HasReads(f: string)
    requires PlainField(f)
    ensures ParseText(f + ":*") == Ok(Filter(f, "exists", ""))
  {
    hide ParseText, EndsChain;
    AtEnd();
    IsChain(Has(f), "");
    IsQuery(Has(f), "");
    Reads(Has(f));
    assert ":" + "*" == ":*";
  }
}
