/** What recompiling a query keeps: its text, its meaning and its tree up to the
    nesting of chains (backend/internal/api/query.go, parseRange). */
module QueryMeaning {
  import opened Common
  import opened QueryAst
  import opened QueryParser
  import opened QueryRoundTrip

  /** A tree the parser could have built from explicit text: chains nested to
      the left and every leaf in its one spelling. */
  predicate Canonical(e: Expr) {
    match e
    case And(a, b) => Canonical(a) && Canonical(b) && !b.And?
    case Or(a, b) => Canonical(a) && Canonical(b) && !b.Or?
    case Not(x) => Canonical(x)
    case _ => CanonLeaf(e) == e
  }

  /** Truth of a tree under an interpretation of its leaves. An empty op means
      equality and an existence test has no use for a value. */
  function Eval(e: Expr, atom: Expr -> bool): bool {
    match e
    case And(a, b) => Eval(a, atom) && Eval(b, atom)
    case Or(a, b) => Eval(a, atom) || Eval(b, atom)
    case Not(x) => !Eval(x, atom)
    case _ => atom(CanonLeaf(e))
  }

  /** Left-nesting keeps the compiled text, validity, meaning and tilde filters,
      and makes the tree canonical. */
  lemma {:induction false} LeftNestKeeps(e: Expr, atom: Expr -> bool)
    ensures Valid(LeftNest(e)) == Valid(e)
    ensures Valid(e) ==> Render(LeftNest(e)) == Render(e)
    ensures Eval(LeftNest(e), atom) == Eval(e, atom)
    ensures HasTildeEq(LeftNest(e)) == HasTildeEq(e)
    ensures Canonical(LeftNest(e)) && LeftNest(e).And? == e.And? && LeftNest(e).Or? == e.Or?
    decreases e, 0
  {
    match e
    case And(a, b) =>
      LeftNestKeeps(a, atom);
      GraftAndKeeps(LeftNest(a), b, atom);
    case Or(a, b) =>
      LeftNestKeeps(a, atom);
      GraftOrKeeps(LeftNest(a), b, atom);
    case Not(x) =>
      LeftNestKeeps(x, atom);
    case _ =>
  }

  lemma {:induction false} GraftAndKeeps(l: Expr, e: Expr, atom: Expr -> bool)
    requires Canonical(l)
    ensures var g := GraftAnd(l, e);
            && g.And? && Canonical(g)
            && Valid(g) == (Valid(l) && Valid(e))
            && (Valid(g) ==> Render(g) == RenderChild(l) + " AND " + RenderChild(e))
            && Eval(g, atom) == (Eval(l, atom) && Eval(e, atom))
            && HasTildeEq(g) == (HasTildeEq(l) || HasTildeEq(e))
    decreases e, 1
  {
    if e.And? {
      GraftAndKeeps(l, e.l, atom);
      GraftAndKeeps(GraftAnd(l, e.l), e.r, atom);
      JoinText(RenderChild(l), " AND ", RenderChild(e.l), " AND " + RenderChild(e.r));
      Assoc(RenderChild(l) + " AND " + RenderChild(e.l), " AND ", RenderChild(e.r));
      Assoc(RenderChild(l), " AND ", RenderChild(e.l) + (" AND " + RenderChild(e.r)));
      Assoc(RenderChild(e.l), " AND ", RenderChild(e.r));
    } else {
      LeftNestKeeps(e, atom);
    }
  }

  lemma {:induction false} GraftOrKeeps(l: Expr, e: Expr, atom: Expr -> bool)
    requires Canonical(l)
    ensures var g := GraftOr(l, e);
            && g.Or? && Canonical(g)
            && Valid(g) == (Valid(l) && Valid(e))
            && (Valid(g) ==> Render(g) == Render(l) + " OR " + Render(e))
            && Eval(g, atom) == (Eval(l, atom) || Eval(e, atom))
            && HasTildeEq(g) == (HasTildeEq(l) || HasTildeEq(e))
    decreases e, 1
  {
    if e.Or? {
      GraftOrKeeps(l, e.l, atom);
      GraftOrKeeps(GraftOr(l, e.l), e.r, atom);
      JoinText(Render(l), " OR ", Render(e.l), " OR " + Render(e.r));
      Assoc(Render(l) + " OR " + Render(e.l), " OR ", Render(e.r));
      Assoc(Render(l), " OR ", Render(e.l) + (" OR " + Render(e.r)));
      Assoc(Render(e.l), " OR ", Render(e.r));
    } else {
      LeftNestKeeps(e, atom);
    }
  }

  /** The canonical trees are exactly the ones left-nesting does not change. */
  lemma {:induction false} CanonicalIffFixed(e: Expr)
    ensures Canonical(e) <==> LeftNest(e) == e
  {
    LeftNestKeeps(e, x => true);
    if Canonical(e) {
      CanonicalFixed(e);
    }
  }

  lemma {:induction false} CanonicalFixed(e: Expr)
    requires Canonical(e)
    ensures LeftNest(e) == e
  {
    match e
    case And(a, b) =>
      CanonicalFixed(a);
      CanonicalFixed(b);
    case Or(a, b) =>
      CanonicalFixed(a);
      CanonicalFixed(b);
    case Not(x) =>
      CanonicalFixed(x);
    case _ =>
  }

  /** On canonical trees the round trip is exact. */
  lemma ExactRoundTrip(e: Expr)
    requires Valid(e) && Canonical(e)
    ensures ParseText(Render(e)) == Ok(e) <==> !HasTildeEq(e)
  {
    RoundTrip(e);
    CanonicalFixed(e);
  }

  // ----- what the parser can build -----

  /** A tree Compile can reject only for a field name. */
  predicate Known(e: Expr) {
    match e
    case And(a, b) => Known(a) && Known(b)
    case Or(a, b) => Known(a) && Known(b)
    case Not(x) => Known(x)
    case Filter(_, op, _) => op == OP_EXISTS || (op != "" && OpText(op).Some?)
    case Phrase(_) => true
    case _ => false
  }

  lemma {:induction false} KnownRejects(e: Expr)
    requires Known(e)
    ensures Check(e) == None || Check(e) == Some(BadField)
  {
    match e
    case And(a, b) =>
      KnownRejects(a);
      KnownRejects(b);
    case Or(a, b) =>
      KnownRejects(a);
      KnownRejects(b);
    case Not(x) =>
      KnownRejects(x);
    case _ =>
  }

  predicate KnownResult(r: Result<Parsed, ParseError>) {
    r.Ok? ==> Known(r.value.e)
  }

  lemma ValueKnown(f: string, op: string, t: string)
    requires op != "" && OpText(op).Some?
    ensures KnownResult(ValueG(f, op, t))
  {
    hide Span, Quoted, OpText;
  }

  lemma FilterKnown(f: string, s: string)
    ensures KnownResult(FilterG(f, s))
  {
    var (op, k) := OpAt(s);
    assert op != "" && OpText(op).Some?;
    ValueKnown(f, op, s[k..]);
    hide OpAt, ValueG, OpText, ExistsMark;
  }

  lemma WordKnown(t: string)
    ensures KnownResult(WordG(t))
  {
    var n := Span(t, true);
    assert n <= |t| && Known(Phrase(t[..n]));
    hide Span, FilterG, Known;
    if n < |t| {
      FilterKnown(t[..n], t[n + 1..]);
    }
  }

  lemma TermKnown(s: string)
    ensures KnownResult(TermG(s))
  {
    TermStep(s);
    WordKnown(Ws(s));
    hide TermG, Ws, Quoted, WordG;
  }

  lemma {:induction false} UnaryKnown(s: string)
    ensures KnownResult(UnaryG(s))
    decreases |s|, 0
  {
    UnaryStep(s);
    var t := Ws(s);
    TermKnown(t);
    if Keyword(t, "NOT") {
      UnaryKnown(t[3..]);
    } else if t != "" && t[0] == '(' {
      OrKnown(t[1..]);
    }
  }

  lemma {:induction false} AndTailKnown(l: Expr, s: string)
    requires Known(l)
    ensures KnownResult(AndTail(l, s))
    decreases |s|, 1
  {
    AndTailStep(l, s);
    var t := AfterAnd(Ws(s));
    UnaryKnown(t);
    assert |t| <= |s|;
    assert UnaryG(t).Ok? ==> |UnaryG(t).value.rest| < |t|;
    hide AndTail, UnaryG, Ws, Keyword, AfterAnd;
    var x := UnaryG(t);
    if x.Ok? {
      AndTailKnown(And(l, x.value.e), x.value.rest);
    }
  }

  lemma {:induction false} OrKnown(s: string)
    ensures KnownResult(OrG(s))
    decreases |s|, 3
  {
    AndKnown(s);
    var x := AndG(s);
    if x.Ok? {
      OrTailKnown(x.value.e, x.value.rest);
    }
  }

  lemma {:induction false} AndKnown(s: string)
    ensures KnownResult(AndG(s))
    decreases |s|, 1
  {
    UnaryKnown(s);
    var x := UnaryG(s);
    if x.Ok? {
      AndTailKnown(x.value.e, x.value.rest);
    }
  }

  lemma {:induction false} OrTailKnown(l: Expr, s: string)
    requires Known(l)
    ensures KnownResult(OrTail(l, s))
    decreases |s|, 2
  {
    OrTailStep(l, s);
    if !Keyword(Ws(s), "OR") {
    } else {
      var t := Ws(s)[2..];
      AndKnown(t);
      var x := AndG(t);
      if x.Ok? {
        OrTailKnown(Or(l, x.value.e), x.value.rest);
      }
    }
  }

  // ----- recompilation -----

  /** A query that parses compiles, unless a field name is bad; and if none of its
      equality filters has a bare value starting with '~', the compiled text parses
      to a tree with the same meaning and compiles to itself. */
  lemma Recompile(s: string, atom: Expr -> bool)
    requires ParseText(s).Ok?
    ensures var c := Compiled(ParseText(s).value);
            c == Err(BadField) || (c.Ok? && c.value != "")
    ensures var e := ParseText(s).value;
            Compiled(e).Ok? && !HasTildeEq(e) ==>
              var again := ParseText(Compiled(e).value);
              && again.Ok?
              && Eval(again.value, atom) == Eval(e, atom)
              && Compiled(again.value) == Compiled(e)
              && Canonical(again.value)
  {
    var e := ParseText(s).value;
    OrKnown(s);
    KnownRejects(e);
    if Compiled(e).Ok? {
      RenderNotEmpty(e);
      RoundTrip(e);
      LeftNestKeeps(e, atom);
    }
  }

  // ----- recompiling with tilde filters -----

  /** Some equality filter has the value "~", of which recompiling leaves no value. */
  predicate HasLoneTilde(e: Expr) {
    match e
    case And(a, b) => HasLoneTilde(a) || HasLoneTilde(b)
    case Or(a, b) => HasLoneTilde(a) || HasLoneTilde(b)
    case Not(x) => HasLoneTilde(x)
    case _ => TildeEq(e) && |e.value| == 1
  }

  /** The tree with each equality filter on a bare "~v" replaced by a match filter on v. */
  function Untilde(e: Expr): Expr {
    match e
    case And(a, b) => And(Untilde(a), Untilde(b))
    case Or(a, b) => Or(Untilde(a), Untilde(b))
    case Not(x) => Not(Untilde(x))
    case Filter(f, op, v) => if TildeEq(e) then Filter(f, OP_MATCH, v[1..]) else e
    case _ => e
  }

  lemma {:induction false} RereadIs(e: Expr)
    ensures Reread(e) == if HasLoneTilde(e) then Err(MissingValue) else Ok(LeftNest(Untilde(e)))
    decreases e, 0
  {
    match e
    case And(a, b) =>
      RereadIs(a);
      ChainIs(true, LeftNest(Untilde(a)), b);
    case Or(a, b) =>
      RereadIs(a);
      ChainIs(false, LeftNest(Untilde(a)), b);
    case Not(x) =>
      RereadIs(x);
    case _ =>
  }

  lemma {:induction false} ChainIs(and: bool, l: Expr, e: Expr)
    ensures and ==> ChainAnd(l, e) == if HasLoneTilde(e) then Err(MissingValue) else Ok(GraftAnd(l, Untilde(e)))
    ensures !and ==> ChainOr(l, e) == if HasLoneTilde(e) then Err(MissingValue) else Ok(GraftOr(l, Untilde(e)))
    decreases e, 1
  {
    if and && e.And? {
      ChainIs(true, l, e.l);
      ChainIs(true, GraftAnd(l, Untilde(e.l)), e.r);
    } else if !and && e.Or? {
      ChainIs(false, l, e.l);
      ChainIs(false, GraftOr(l, Untilde(e.l)), e.r);
    } else {
      RereadIs(e);
    }
  }

  lemma {:induction false} UntildeSettles(e: Expr)
    ensures Valid(Untilde(e)) == Valid(e) && !HasTildeEq(Untilde(e))
  {
    match e
    case And(a, b) =>
      UntildeSettles(a);
      UntildeSettles(b);
    case Or(a, b) =>
      UntildeSettles(a);
      UntildeSettles(b);
    case Not(x) =>
      UntildeSettles(x);
    case _ =>
  }

  /** Recompiling any query whatever: the compiled text fails to parse exactly if some
      equality filter has the value "~"; otherwise it means, under every interpretation,
      what the query means with its tilde filters read as match filters, and the tree
      it parses to survives every further recompilation. */
  lemma RecompileAny(s: string, atom: Expr -> bool)
    requires ParseText(s).Ok? && Compiled(ParseText(s).value).Ok?
    ensures var e := ParseText(s).value;
            var again := ParseText(Compiled(e).value);
            && (again.Err? <==> HasLoneTilde(e))
            && (again.Ok? ==>
                  && Eval(again.value, atom) == Eval(Untilde(e), atom)
                  && Canonical(again.value) && Compiled(again.value).Ok?
                  && ParseText(Compiled(again.value).value) == Ok(again.value))
  {
    var e := ParseText(s).value;
    OrKnown(s);
    KnownNotNil(e);
    ParseCompiled(e);
    RereadIs(e);
    UntildeSettles(e);
    var u := LeftNest(Untilde(e));
    LeftNestKeeps(Untilde(e), atom);
    if !HasLoneTilde(e) {
      KnownStays(e);
      LeftNestNotNil(Untilde(e));
      ExactRoundTrip(u);
    }
    hide ParseText, Eval, HasLoneTilde, LeftNest, Untilde, Canonical, Reread, Render, HasTildeEq;
  }

  lemma KnownNotNil(e: Expr)
    requires Known(e)
    ensures e != Nil
  {
  }

  lemma KnownStays(e: Expr)
    requires Known(e)
    ensures Untilde(e) != Nil
  {
  }

  lemma {:induction false} LeftNestNotNil(e: Expr)
    ensures e != Nil ==> LeftNest(e) != Nil
  {
    match e
    case And(a, b) =>
      GraftNotNil(LeftNest(a), b);
    case Or(a, b) =>
      GraftNotNil(LeftNest(a), b);
    case _ =>
  }

  lemma {:induction false} GraftNotNil(l: Expr, e: Expr)
    ensures GraftAnd(l, e) != Nil && GraftOr(l, e) != Nil
    decreases e
  {
    if e.And? {
      GraftNotNil(GraftAnd(l, e.l), e.r);
    } else if e.Or? {
      GraftNotNil(GraftOr(l, e.l), e.r);
    }
  }

  lemma {:induction false} RenderNotEmpty(e: Expr)
    requires Valid(e)
    ensures Render(e) != "" && !e.Nil?
  {
  }

  lemma ParseLeaf(s: string, e: Expr)
    requires Opaque(s) && TermG(s) == Ok(Parsed(e, ""))
    ensures ParseText(s) == Ok(e)
  {
    UnaryLeaf(s);
    AndTailStep(e, "");
    OrTailStep(e, "");
    assert Ws("") == "" && !Keyword("", "OR");
    assert AndG(s) == AndTail(e, "");
    hide Ws, Keyword, AndG, UnaryG, TermG, AndTail, OrTail, Opaque;
  }

  lemma ParseQuotedFilter(f: string, v: string)
    requires FieldName(f)
    ensures ParseText(f + ":" + ("\"" + (Escape(v) + "\""))) == Ok(Filter(f, OP_EQ, v))
  {
    var tail := "\"" + (Escape(v) + "\"");
    ReadField(f, tail);
    QuotedEscape(v, "");
    assert tail[0] == '"' && tail[1..] == Escape(v) + "\"" + "" && tail[0..] == tail;
    assert OpAt(tail) == (OP_EQ, 0);
    hide Quoted, Escape, OpAt;
    assert FilterG(f, tail) == Ok(Parsed(Filter(f, OP_EQ, v), ""));
    hide FilterG, TermG, Opaque;
    ParseLeaf(f + ":" + tail, Filter(f, OP_EQ, v));
  }

  /** A quoted value that is bare and starts with '~' makes an equality filter;
      its compiled text makes a match filter, which some interpretation tells
      from it. */
  lemma TildeChangesMeaning(f: string, v: string)
    requires FieldName(f) && Bare(v) && v[0] == '~' && |v| > 1
    ensures var e := Filter(f, OP_EQ, v);
            var m := Filter(f, OP_MATCH, v[1..]);
            && ParseText(f + ":" + ("\"" + (Escape(v) + "\""))) == Ok(e)
            && Compiled(e).Ok? && ParseText(Compiled(e).value) == Ok(m)
            && exists atom: Expr -> bool :: Eval(m, atom) != Eval(e, atom)
  {
    ParseQuotedFilter(f, v);
    TildeReread(f, v);
    OtherLeaf(Filter(f, OP_EQ, v), Filter(f, OP_MATCH, v[1..]));
    hide ParseText, Compiled, Escape, Eval;
  }

  lemma TildeReread(f: string, v: string)
    requires FieldName(f) && Bare(v) && v[0] == '~' && |v| > 1
    ensures var c := Compiled(Filter(f, OP_EQ, v));
            c.Ok? && ParseText(c.value) == Ok(Filter(f, OP_MATCH, v[1..]))
  {
    var e := Filter(f, OP_EQ, v);
    assert Valid(e) && TildeEq(e);
    assert Reread(e) == RereadLeaf(e);
    ParseCompiled(e);
    hide ParseText, Render, Reread;
  }

  lemma OtherLeaf(e: Expr, m: Expr)
    requires e.Filter? && m.Filter? && CanonLeaf(e) == e && CanonLeaf(m) == m && e != m
    ensures exists atom: Expr -> bool :: Eval(m, atom) != Eval(e, atom)
  {
    var atom := (x: Expr) => x == e;
    assert Eval(m, atom) != Eval(e, atom);
  }
}
