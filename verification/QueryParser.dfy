/** The recursive-descent parser for the filter language
    (backend/internal/query/parse.go). The grammar functions read a text and
    return the tree with the text left over; class Parser is the code's own
    parser object, whose pos every method advances. */
module QueryParser {
  import opened Common
  import opened QueryAst

  datatype ParseError = Unexpected | MissingParen | EmptyTerm | MissingValue | UnterminatedQuote

  datatype Parsed = Parsed(e: Expr, rest: string)

  datatype Unquoted = Unquoted(text: string, rest: string)

  predicate Stop(c: char, colon: bool) {
    c == ' ' || c == ')' || c == '(' || (colon && c == ':')
  }

  function Ws(s: string): (r: string)
    ensures |r| <= |s|
    ensures r == s[|s| - |r|..] && (r != "" ==> r[0] != ' ')
  {
    if s != "" && s[0] == ' ' then Ws(s[1..]) else s
  }

  predicate Starts(s: string, p: string) {
    |p| <= |s| && forall i :: 0 <= i < |p| ==> s[i] == p[i]
  }

  predicate Keyword(s: string, kw: string) {
    Starts(s, kw) && (|s| == |kw| || s[|kw|] == ' ' || s[|kw|] == '(' || s[|kw|] == ')')
  }

  /** How far a bare token reaches. */
  function Span(s: string, colon: bool): (n: nat)
    ensures n <= |s|
    ensures forall i :: 0 <= i < n ==> !Stop(s[i], colon)
    ensures n < |s| ==> Stop(s[n], colon)
  {
    if s == "" || Stop(s[0], colon) then 0 else 1 + Span(s[1..], colon)
  }

  /** What follows an opening quote, up to the closing one. */
  function Quoted(s: string): (r: Result<Unquoted, ParseError>)
    ensures r.Ok? ==> |r.value.rest| < |s|
  {
    if s == "" then Err(UnterminatedQuote)
    else if s[0] == '\\' && |s| > 1 then Keep(s[1], Quoted(s[2..]))
    else if s[0] == '"' then Ok(Unquoted("", s[1..]))
    else Keep(s[0], Quoted(s[1..]))
  }

  function Keep(c: char, r: Result<Unquoted, ParseError>): Result<Unquoted, ParseError> {
    Prepend([c], r)
  }

  function Prepend(p: string, r: Result<Unquoted, ParseError>): Result<Unquoted, ParseError> {
    if r.Err? then r else Ok(Unquoted(p + r.value.text, r.value.rest))
  }

  /** The operator that follows the colon, and its length. */
  function OpAt(s: string): (r: (string, nat))
    ensures r.1 <= |s|
  {
    var equals := |s| > 1 && s[1] == '=';
    if s == "" then (OP_EQ, 0)
    else if s[0] == '!' && equals then (OP_NEQ, 2)
    else if s[0] == '~' then (OP_MATCH, 1)
    else if s[0] == '>' then (if equals then (OP_GE, 2) else (OP_GT, 1))
    else if s[0] == '<' then (if equals then (OP_LE, 2) else (OP_LT, 1))
    else (OP_EQ, 0)
  }

  predicate ExistsMark(t: string) {
    t != "" && t[0] == '*' && (|t| == 1 || t[1] == ' ' || t[1] == ')')
  }

  function FilterG(field: string, s: string): (r: Result<Parsed, ParseError>)
    ensures r.Ok? ==> |r.value.rest| <= |s|
  {
    var (op, k) := OpAt(s);
    var t := s[k..];
    if op == OP_EQ && ExistsMark(t) then Ok(Parsed(Filter(field, OP_EXISTS, ""), t[1..]))
    else ValueG(field, op, t)
  }

  /** A filter's value, quoted or bare. */
  function ValueG(field: string, op: string, t: string): (r: Result<Parsed, ParseError>)
    ensures r.Ok? ==> |r.value.rest| < |t|
  {
    if t != "" && t[0] == '"' then
      var q :- Quoted(t[1..]);
      Ok(Parsed(Filter(field, op, q.text), q.rest))
    else
      var n := Span(t, false);
      if n == 0 then Err(MissingValue) else Ok(Parsed(Filter(field, op, t[..n]), t[n..]))
  }

  function TermG(s: string): (r: Result<Parsed, ParseError>)
    ensures r.Ok? ==> |r.value.rest| < |s|
  {
    var t := Ws(s);
    if t != "" && t[0] == '"' then
      var q :- Quoted(t[1..]);
      Ok(Parsed(Phrase(q.text), q.rest))
    else WordG(t)
  }

  /** An unquoted term: a filter if a colon ends its first token. */
  function WordG(t: string): (r: Result<Parsed, ParseError>)
    ensures r.Ok? ==> |r.value.rest| < |t|
  {
    var n := Span(t, true);
    if n < |t| && t[n] == ':' then FilterG(t[..n], t[n + 1..])
    else if n == 0 then Err(EmptyTerm)
    else Ok(Parsed(Phrase(t[..n]), t[n..]))
  }

  function UnaryG(s: string): (r: Result<Parsed, ParseError>)
    ensures r.Ok? ==> |r.value.rest| < |s|
    decreases |s|, 0
  {
    var t := Ws(s);
    if Keyword(t, "NOT") then
      var x :- UnaryG(t[3..]);
      Ok(Parsed(Not(x.e), x.rest))
    else if t != "" && t[0] == '(' then
      var x :- OrG(t[1..]);
      var u := Ws(x.rest);
      if u == "" || u[0] != ')' then Err(MissingParen) else Ok(Parsed(x.e, u[1..]))
    else TermG(t)
  }

  function AndG(s: string): (r: Result<Parsed, ParseError>)
    ensures r.Ok? ==> |r.value.rest| < |s|
    decreases |s|, 2
  {
    var x :- UnaryG(s);
    AndTail(x.e, x.rest)
  }

  /** The separator between two operands is optional. */
  function AfterAnd(t: string): (r: string)
    ensures |r| <= |t|
  {
    if Keyword(t, "AND") then t[3..] else t
  }

  /** The AND chain after its first operand; a bare space is an AND too. */
  function AndTail(l: Expr, s: string): (r: Result<Parsed, ParseError>)
    ensures r.Ok? ==> |r.value.rest| <= |s|
    decreases |s|, 1
  {
    var t := Ws(s);
    if t == "" || t[0] == ')' || Keyword(t, "OR") then Ok(Parsed(l, t))
    else
      var x :- UnaryG(AfterAnd(t));
      AndTail(And(l, x.e), x.rest)
  }

  function OrG(s: string): (r: Result<Parsed, ParseError>)
    ensures r.Ok? ==> |r.value.rest| < |s|
    decreases |s|, 4
  {
    var x :- AndG(s);
    OrTail(x.e, x.rest)
  }

  function OrTail(l: Expr, s: string): (r: Result<Parsed, ParseError>)
    ensures r.Ok? ==> |r.value.rest| <= |s|
    decreases |s|, 3
  {
    var t := Ws(s);
    if !Keyword(t, "OR") then Ok(Parsed(l, t))
    else
      var x :- AndG(t[2..]);
      OrTail(Or(l, x.e), x.rest)
  }

  function ParseText(s: string): Result<Expr, ParseError> {
    var x :- OrG(s);
    if Ws(x.rest) == "" then Ok(x.e) else Err(Unexpected)
  }

  lemma UnaryStep(s: string)
    ensures var t := Ws(s);
            UnaryG(s) ==
            if Keyword(t, "NOT") then
              (var x := UnaryG(t[3..]); if x.Err? then x else Ok(Parsed(Not(x.value.e), x.value.rest)))
            else if t != "" && t[0] == '(' then
              (var x := OrG(t[1..]);
               if x.Err? then x
               else if Ws(x.value.rest) == "" || Ws(x.value.rest)[0] != ')' then Err(MissingParen)
               else Ok(Parsed(x.value.e, Ws(x.value.rest)[1..])))
            else TermG(t)
  {
  }

  lemma TermStep(s: string)
    ensures TermG(s).Ok? ==> |TermG(s).value.rest| < |s|
    ensures var t := Ws(s);
            TermG(s) ==
            if t != "" && t[0] == '"' then
              (var q := Quoted(t[1..]);
               if q.Err? then Err(q.error) else Ok(Parsed(Phrase(q.value.text), q.value.rest)))
            else WordG(t)
  {
    hide Ws, Quoted, WordG;
  }

  lemma AndTailStep(l: Expr, s: string)
    ensures var t := Ws(s);
            AndTail(l, s) ==
            if t == "" || t[0] == ')' || Keyword(t, "OR") then Ok(Parsed(l, t))
            else
              var x := UnaryG(AfterAnd(t));
              if x.Err? then x else AndTail(And(l, x.value.e), x.value.rest)
  {
  }

  lemma OrTailStep(l: Expr, s: string)
    ensures var t := Ws(s);
            OrTail(l, s) ==
            if !Keyword(t, "OR") then Ok(Parsed(l, t))
            else
              var x := AndG(t[2..]);
              if x.Err? then x else OrTail(Or(l, x.value.e), x.value.rest)
  {
  }

  lemma {:induction false} SpanAt(s: string, n: nat, colon: bool)
    requires n <= |s|
    requires forall i :: 0 <= i < n ==> !Stop(s[i], colon)
    requires n == |s| || Stop(s[n], colon)
    ensures Span(s, colon) == n
  {
    var m := Span(s, colon);
    assert m < |s| ==> Stop(s[m], colon);
  }

  /** A method's result and what it left unread, as the grammar functions put it. */
  function Outcome(r: Result<Expr, ParseError>, rest: string): Result<Parsed, ParseError> {
    if r.Ok? then Ok(Parsed(r.value, rest)) else Err(r.error)
  }

  class Parser {
    const src: string
    var pos: nat
    ghost var rest: string  // the text still to be read

    constructor (s: string)
      ensures src == s && pos == 0 && rest == s && Valid()
    {
      src := s;
      pos := 0;
      rest := s;
    }

    ghost predicate Valid()
      reads this
    {
      pos <= |src| && rest == src[pos..]
    }

    method Advance(n: nat)
      requires Valid() && n <= |rest|
      modifies this
      ensures Valid() && rest == old(rest)[n..] && |rest| == old(|rest|) - n
    {
      pos := pos + n;
      rest := rest[n..];
    }

    method SkipWs()
      requires Valid()
      modifies this
      ensures Valid() && rest == Ws(old(rest)) && |rest| <= old(|rest|)
    {
      ghost var goal := Ws(rest);
      while pos < |src| && src[pos] == ' '
        invariant Valid() && Ws(rest) == goal && |rest| <= |old(rest)|
        decreases |src| - pos
      {
        Advance(1);
      }
    }

    method HasPrefix(p: string) returns (b: bool)
      requires Valid()
      ensures b == Starts(rest, p)
    {
      b := p <= src[pos..];
      assert b ==> rest[..|p|] == p;
      assert Starts(rest, p) ==> rest[..|p|] == p;
    }

    /** The next character, or None at the end (the code's zero byte). */
    method Peek() returns (c: Option<char>)
      requires Valid()
      ensures c == if rest == "" then None else Some(rest[0])
    {
      c := if pos < |src| then Some(src[pos]) else None;
    }

    method KeywordPeek(kw: string) returns (b: bool)
      requires Valid()
      ensures b == Keyword(rest, kw)
    {
      var p := HasPrefix(kw);
      if !p {
        return false;
      }
      var after := pos + |kw|;
      if after < |src| {
        var c := src[after];
        assert c == rest[|kw|];
        if c != ' ' && c != '(' && c != ')' {
          return false;
        }
      }
      return true;
    }

    method TakeKeyword(kw: string) returns (b: bool)
      requires Valid()
      modifies this
      ensures Valid() && b == Keyword(old(rest), kw)
      ensures rest == (if b then old(rest)[|kw|..] else old(rest))
      ensures |rest| == old(|rest|) - if b then |kw| else 0
    {
      b := KeywordPeek(kw);
      if b {
        Advance(|kw|);
      }
    }

    method TakeQuoted() returns (r: Result<string, ParseError>)
      requires Valid() && rest != "" && rest[0] == '"'
      modifies this
      ensures Valid()
      ensures Quoted(old(rest)[1..]) == if r.Ok? then Ok(Unquoted(r.value, rest)) else Err(r.error)
    {
      ghost var goal := Quoted(rest[1..]);
      Advance(1);
      var b := "";
      assert goal.Ok? ==> "" + goal.value.text == goal.value.text;
      while pos < |src|
        invariant Valid() && goal == Prepend(b, Quoted(rest))
        decreases |src| - pos
      {
        var c := src[pos];
        if c == '\\' && pos + 1 < |src| {
          PrependKeep(b, rest[1], Quoted(rest[2..]));
          b := b + [src[pos + 1]];
          Advance(2);
        } else if c == '"' {
          Advance(1);
          assert b + "" == b;
          return Ok(b);
        } else {
          PrependKeep(b, rest[0], Quoted(rest[1..]));
          b := b + [c];
          Advance(1);
        }
      }
      return Err(UnterminatedQuote);
    }

    /** Takes a bare token. */
    method TakeSpan(colon: bool) returns (tok: string)
      requires Valid()
      modifies this
      ensures Valid()
      ensures var n := Span(old(rest), colon);
              n <= |old(rest)| && tok == old(rest)[..n] && rest == old(rest)[n..]
    {
      var start := pos;
      ghost var s := rest;
      while pos < |src| && !Stop(src[pos], colon)
        invariant Valid() && start <= pos && rest == s[pos - start..]
        invariant forall i :: 0 <= i < pos - start ==> !Stop(s[i], colon)
        decreases |src| - pos
      {
        Advance(1);
      }
      SpanAt(s, pos - start, colon);
      assert s[..pos - start] == src[start..pos];
      tok := src[start..pos];
    }

    /** Takes the operator after the colon, if there is one. */
    method TakeOp() returns (op: string)
      requires Valid()
      modifies this
      ensures Valid() && op == OpAt(old(rest)).0 && rest == old(rest)[OpAt(old(rest)).1..]
    {
      var neq := HasPrefix("!=");
      var match_ := HasPrefix("~");
      var ge := HasPrefix(">=");
      var le := HasPrefix("<=");
      var gt := HasPrefix(">");
      var lt := HasPrefix("<");
      if neq {
        Advance(2);
        op := OP_NEQ;
      } else if match_ {
        Advance(1);
        op := OP_MATCH;
      } else if ge {
        Advance(2);
        op := OP_GE;
      } else if le {
        Advance(2);
        op := OP_LE;
      } else if gt {
        Advance(1);
        op := OP_GT;
      } else if lt {
        Advance(1);
        op := OP_LT;
      } else {
        op := OP_EQ;
      }
    }

    method ParseFilter(field: string) returns (r: Result<Expr, ParseError>)
      requires Valid() && rest != "" && rest[0] == ':'
      modifies this
      ensures Valid() && FilterG(field, old(rest)[1..]) == Outcome(r, rest)
    {
      Advance(1);
      var op := TakeOp();
      ghost var t := rest;
      var c := Peek();
      hide OpAt, ValueG;
      if op == OP_EQ && c == Some('*') {
        var after := pos + 1;
        assert after < |src| ==> src[after] == t[1];
        if after >= |src| || src[after] == ' ' || src[after] == ')' {
          assert ExistsMark(t);
          Advance(1);
          return Ok(Filter(field, OP_EXISTS, ""));
        }
      }
      r := ParseValue(field, op);
    }

    method ParseValue(field: string, op: string) returns (r: Result<Expr, ParseError>)
      requires Valid()
      modifies this
      ensures Valid() && ValueG(field, op, old(rest)) == Outcome(r, rest)
    {
      hide Valid, Quoted, Span;
      var c := Peek();
      if c == Some('"') {
        var q := TakeQuoted();
        if q.Err? {
          return Err(q.error);
        }
        return Ok(Filter(field, op, q.value));
      }
      var v := TakeSpan(false);
      if v == "" {
        return Err(MissingValue);
      }
      return Ok(Filter(field, op, v));
    }

    method ParseTerm() returns (r: Result<Expr, ParseError>)
      requires Valid()
      modifies this
      ensures Valid() && TermG(old(rest)) == Outcome(r, rest)
      ensures r.Ok? ==> |rest| < old(|rest|)
    {
      TermStep(rest);
      hide Valid, Ws, Quoted, TermG, WordG;
      SkipWs();
      var c := Peek();
      if c == Some('"') {
        var q := TakeQuoted();
        if q.Err? {
          return Err(q.error);
        }
        return Ok(Phrase(q.value));
      }
      r := ParseWord();
    }

    method ParseWord() returns (r: Result<Expr, ParseError>)
      requires Valid()
      modifies this
      ensures Valid() && WordG(old(rest)) == Outcome(r, rest)
      ensures r.Ok? ==> |rest| < old(|rest|)
    {
      hide Valid, Span, FilterG;
      ghost var t := rest;
      ghost var n := Span(t, true);
      assert WordG(t).Ok? ==> |WordG(t).value.rest| < |t|;
      var tok := TakeSpan(true);
      assert n < |t| ==> rest[0] == t[n] && rest[1..] == t[n + 1..];
      var c := Peek();
      if c == Some(':') {
        r := ParseFilter(tok);
        return;
      }
      if tok == "" {
        return Err(EmptyTerm);
      }
      return Ok(Phrase(tok));
    }

    method ParseUnary() returns (r: Result<Expr, ParseError>)
      requires Valid()
      modifies this
      ensures Valid() && UnaryG(old(rest)) == Outcome(r, rest)
      ensures r.Ok? ==> |rest| < old(|rest|)
      decreases |rest|, 0
    {
      UnaryStep(rest);
      hide Valid, Ws, Keyword, UnaryG, OrG, TermG;
      SkipWs();
      var neg := TakeKeyword("NOT");
      if neg {
        r := ParseUnary();
        if r.Ok? {
          r := Ok(Not(r.value));
        }
        return;
      }
      var c := Peek();
      if c == Some('(') {
        Advance(1);
        r := ParseOr();
        if r.Err? {
          return;
        }
        SkipWs();
        c := Peek();
        if c != Some(')') {
          return Err(MissingParen);
        }
        Advance(1);
        return;
      }
      r := ParseTerm();
    }

    method ParseAnd() returns (r: Result<Expr, ParseError>)
      requires Valid()
      modifies this
      ensures Valid() && AndG(old(rest)) == Outcome(r, rest)
      ensures r.Ok? ==> |rest| < old(|rest|)
      decreases |rest|, 1
    {
      ghost var goal := AndG(rest);
      hide Valid, Ws, Keyword, UnaryG, AndTail;
      r := ParseUnary();
      if r.Err? {
        return;
      }
      var l := r.value;
      while true
        invariant Valid() && |rest| < |old(rest)| && goal == AndTail(l, rest)
        decreases |rest|
      {
        AndTailStep(l, rest);
        SkipWs();
        var c := Peek();
        var stop := KeywordPeek("OR");
        if c == None || c == Some(')') || stop {
          return Ok(l);
        }
        var sep := TakeKeyword("AND");
        r := ParseUnary();
        if r.Err? {
          return;
        }
        l := And(l, r.value);
      }
    }

    method ParseOr() returns (r: Result<Expr, ParseError>)
      requires Valid()
      modifies this
      ensures Valid() && OrG(old(rest)) == Outcome(r, rest)
      ensures r.Ok? ==> |rest| < old(|rest|)
      decreases |rest|, 2
    {
      ghost var goal := OrG(rest);
      hide Valid, Ws, Keyword, AndG, OrTail;
      r := ParseAnd();
      if r.Err? {
        return;
      }
      var l := r.value;
      while true
        invariant Valid() && |rest| < |old(rest)| && goal == OrTail(l, rest)
        decreases |rest|
      {
        OrTailStep(l, rest);
        SkipWs();
        var more := TakeKeyword("OR");
        if !more {
          return Ok(l);
        }
        r := ParseAnd();
        if r.Err? {
          return;
        }
        l := Or(l, r.value);
      }
    }
  }

  lemma PrependKeep(b: string, c: char, r: Result<Unquoted, ParseError>)
    ensures Prepend(b, Keep(c, r)) == Prepend(b + [c], r)
  {
    if r.Ok? {
      assert b + ([c] + r.value.text) == b + [c] + r.value.text;
    }
  }

  method Parse(s: string) returns (r: Result<Expr, ParseError>)
    ensures r == ParseText(s)
  {
    var p := new Parser(s);
    r := p.ParseOr();
    if r.Err? {
      return;
    }
    p.SkipWs();
    if p.pos < |p.src| {
      return Err(Unexpected);
    }
  }
}
