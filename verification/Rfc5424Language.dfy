/** The language the RFC 5424 parser accepts: a text is accepted exactly if it is
    written as below with a stamp the clock knows, and then it means what is said here. */
module Rfc5424Language {
  import opened Common
  import opened Decimal
  import opened Syslog
  import opened Rfc5424
  import opened Rfc5424RoundTrip

  /** The text between the quotes of a value: no quote that is not escaped, and no
      backslash at the end, which would escape the closing quote. */
  predicate Quotable(t: Bytes) {
    if t == [] then true
    else if t[0] == 92 then |t| > 1 && Quotable(if t[1] == 34 || t[1] == 92 || t[1] == 93 then t[2..] else t[1..])
    else t[0] != 34 && Quotable(t[1..])
  }

  /** A backslash before any other byte stands for itself. */
  function Unescape(t: Bytes): Bytes {
    if t == [] then []
    else if t[0] == 92 && |t| > 1 && (t[1] == 34 || t[1] == 92 || t[1] == 93) then [t[1]] + Unescape(t[2..])
    else [t[0]] + Unescape(t[1..])
  }

  /** A param as written: its name and the text between its quotes. */
  type Written = (Bytes, Bytes)

  predicate ValidWritten(ps: seq<Written>) {
    forall k :: 0 <= k < |ps| ==> Clean(ps[k].0, NAME_STOPS) && Quotable(ps[k].1)
  }

  datatype Section = Section(id: Bytes, params: seq<Written>) {
    predicate Valid() {
      Clean(id, ID_STOPS) && ValidWritten(params)
    }
  }

  /** data None is the nil value; the tokens may be "-". */
  datatype Sentence = Sentence(
    pri: Bytes, version: Bytes, stamp: Bytes, host: Bytes, app: Bytes, proc: Bytes, id: Bytes,
    data: Option<seq<Section>>, message: Option<Bytes>)
  {
    predicate Valid() {
      && AllDigits(pri) && 1 <= |pri| <= 3 && Value(pri) <= MAX_PRI
      && AllDigits(version) && 1 <= |version| <= 3
      && IsToken(stamp) && IsToken(host) && IsToken(app) && IsToken(proc) && IsToken(id)
      && ValidData(data)
    }

    function Text(): Bytes {
      var body := PutSections(data, PutRest(message));
      var header := host + ([SPACE] + (app + ([SPACE] + (proc + ([SPACE] + (id + ([SPACE] + body)))))));
      PriText(pri) + (version + ([SPACE] + (stamp + ([SPACE] + header))))
    }
  }

  predicate IsToken(t: Bytes) {
    t != [] && Clean(t, {SPACE})
  }

  predicate ValidSections(es: seq<Section>) {
    forall k :: 0 <= k < |es| ==> es[k].Valid()
  }

  predicate ValidData(d: Option<seq<Section>>) {
    d.Some? ==> d.value != [] && ValidSections(d.value)
  }

  function PutWritten(ps: seq<Written>, rest: Bytes): Bytes {
    if ps == [] then rest
    else [SPACE] + (ps[0].0 + ([EQUALS, QUOTE] + (ps[0].1 + ([QUOTE] + PutWritten(ps[1..], rest)))))
  }

  function PutSome(es: seq<Section>, rest: Bytes): Bytes {
    if es == [] then rest
    else [OPEN] + (es[0].id + PutWritten(es[0].params, [CLOSE] + PutSome(es[1..], rest)))
  }

  function PutSections(d: Option<seq<Section>>, rest: Bytes): Bytes {
    if d.None? then [DASH] + rest else PutSome(d.value, rest)
  }

  function PutRest(m: Option<Bytes>): Bytes {
    if m.None? then [] else [SPACE] + m.value
  }

  // ----- meaning -----

  function Meant(ps: seq<Written>, fields: Fields): Fields {
    if ps == [] then fields else Meant(ps[1..], fields[ps[0].0 := Unescape(ps[0].1)])
  }

  function MeantBy(es: seq<Section>, fields: Fields): Fields {
    if es == [] then fields else MeantBy(es[1..], Meant(es[0].params, fields))
  }

  function FieldsOf(d: Option<seq<Section>>): Fields {
    if d.None? then map[] else MeantBy(d.value, map[])
  }

  function MessageOf(m: Option<Bytes>): Bytes {
    if m.None? then [] else TrimBom(m.value)
  }

  // ----- values -----

  lemma {:induction false} QuotedReads(t: Bytes, rest: Bytes)
    requires Quotable(t)
    ensures ParamValue(t + ([QUOTE] + rest)) == Some((Unescape(t), rest))
  {
    var s := [QUOTE] + rest;
    var b := t + s;
    if t == [] {
      EmptyLeft(s);
      CutFront([QUOTE], rest, 1);
      EmptyLeft(rest);
    } else if t[0] == BACKSLASH && t[1] in ESCAPED {
      QuotedReads(t[2..], rest);
      CutFront(t, s, 2);
    } else {
      QuotedReads(t[1..], rest);
      CutFront(t, s, 1);
    }
  }

  lemma {:induction false} QuotedCuts(b: Bytes) returns (t: Bytes)
    requires ParamValue(b).Some?
    ensures Quotable(t) && ParamValue(b).value.0 == Unescape(t)
    ensures b == t + ([QUOTE] + ParamValue(b).value.1)
  {
    if b[0] == BACKSLASH && |b| > 1 && b[1] in ESCAPED {
      var u := QuotedCuts(b[2..]);
      t := b[..2] + u;
      assert t[2..] == u && b == b[..2] + b[2..];
    } else if b[0] == QUOTE {
      t := [];
      assert b == [QUOTE] + b[1..];
    } else {
      var u := QuotedCuts(b[1..]);
      t := [b[0]] + u;
      assert t[1..] == u && b == [b[0]] + b[1..];
      if b[0] == BACKSLASH {
        LastIsPlain(b[1..], u);
      }
    }
  }

  /** A backslash kept for itself is followed by something within the value. */
  lemma LastIsPlain(b: Bytes, u: Bytes)
    requires b != [] && b[0] !in ESCAPED && ParamValue(b).Some?
    requires b == u + ([QUOTE] + ParamValue(b).value.1)
    ensures u != [] && u[0] == b[0]
  {
  }

  // ----- params and elements -----

  lemma WrittenReads(name: Bytes, t: Bytes, rest: Bytes)
    requires Clean(name, NAME_STOPS) && Quotable(t)
    ensures Param(name + ([EQUALS, QUOTE] + (t + ([QUOTE] + rest)))) == Ok(((name, Unescape(t)), rest))
  {
    hide ParamValue, Unescape, Quotable;
    var v := t + ([QUOTE] + rest);
    var s := [EQUALS, QUOTE] + v;
    UntilSplit(name, s, NAME_STOPS);
    CutBack(name, s, 1);
    assert s[1..] == [QUOTE] + v && s[1..][1..] == v;
    QuotedReads(t, rest);
  }

  lemma {:induction false} WrittenParams(ps: seq<Written>, rest: Bytes, fields: Fields)
    requires ValidWritten(ps) && rest != [] && rest[0] == CLOSE
    ensures Params(PutWritten(ps, rest), fields) == Ok((Meant(ps, fields), rest))
  {
    hide Param, Unescape, Quotable, Clean;
    if ps == [] {
    } else {
      var (name, t) := ps[0];
      var tail := PutWritten(ps[1..], rest);
      var more := fields[name := Unescape(t)];
      WrittenParams(ps[1..], rest, more);
      assert Meant(ps, fields) == Meant(ps[1..], more);
      WrittenReads(name, t, tail);
      var text := name + ([EQUALS, QUOTE] + (t + ([QUOTE] + tail)));
      assert PutWritten(ps, rest) == [SPACE] + text;
      hide PutWritten, Meant, Params;
      ParamsAt(text, fields);
    }
  }

  lemma ParamCuts(b: Bytes) returns (p: Written)
    requires Param(b).Ok?
    ensures Clean(p.0, NAME_STOPS) && Quotable(p.1)
    ensures Param(b).value.0 == (p.0, Unescape(p.1))
    ensures b == p.0 + ([EQUALS, QUOTE] + (p.1 + ([QUOTE] + Param(b).value.1)))
  {
    hide ParamValue, Quotable, Unescape;
    var n := Until(b, NAME_STOPS);
    UntilCuts(b, NAME_STOPS);
    var v := b[n + 1..];
    assert b[n..] == [EQUALS] + v && v == [QUOTE] + v[1..];
    var t := QuotedCuts(v[1..]);
    p := (b[..n], t);
    assert [EQUALS] + ([QUOTE] + v[1..]) == [EQUALS, QUOTE] + v[1..];
  }

  lemma {:induction false} ParamsCut(b: Bytes, fields: Fields) returns (ps: seq<Written>)
    requires Params(b, fields).Ok?
    ensures ValidWritten(ps)
    ensures Params(b, fields).value.0 == Meant(ps, fields)
    ensures b == PutWritten(ps, Params(b, fields).value.1)
    decreases |b|
  {
    ps := [];
    if b == [] || b[0] != SPACE {
    } else {
      hide Param, Unescape, Quotable;
      var c := b[1..];
      assert b == [SPACE] + c;
      ParamsAt(c, fields);
      var p := ParamCuts(c);
      ParamShorter(c);
      var more := ParamsCut(Param(c).value.1, fields[p.0 := Unescape(p.1)]);
      ps := [p] + more;
      assert ps[1..] == more;
    }
  }

  lemma WrittenStart(ps: seq<Written>, rest: Bytes)
    requires rest != [] && rest[0] == CLOSE
    ensures PutWritten(ps, rest) != [] && PutWritten(ps, rest)[0] in ID_STOPS
  {
  }

  lemma {:induction false} SectionsRead(es: seq<Section>, rest: Bytes, fields: Fields)
    requires ValidSections(es) && (rest == [] || rest[0] == SPACE)
    ensures Elements(PutSome(es, rest), fields) == Ok((MeantBy(es, fields), rest))
  {
    if es == [] {
    } else {
      hide Params, PutWritten, Meant;
      assert es[0].Valid();
      var tail := PutSome(es[1..], rest);
      var b := PutWritten(es[0].params, [CLOSE] + tail);
      WrittenStart(es[0].params, [CLOSE] + tail);
      ElementsAt(es[0].id, b, fields);
      WrittenParams(es[0].params, [CLOSE] + tail, fields);
      CutFront([CLOSE], tail, 1);
      EmptyLeft(tail);
      SectionsRead(es[1..], rest, Meant(es[0].params, fields));
    }
  }

  lemma FirstSection(b: Bytes, fields: Fields) returns (e: Section, rest: Bytes)
    requires Elements(b, fields).Ok? && b != [] && b[0] == OPEN
    ensures e.Valid() && |rest| < |b|
    ensures b == [OPEN] + (e.id + PutWritten(e.params, [CLOSE] + rest))
    ensures Elements(b, fields) == Elements(rest, Meant(e.params, fields))
  {
    hide Params, PutWritten, Meant, ValidWritten;
    var c := b[1..];
    var n := Until(c, ID_STOPS);
    assert b == [OPEN] + c;
    UntilCuts(c, ID_STOPS);
    assert c[n..] != [];
    ElementsAt(c[..n], c[n..], fields);
    var ps := ParamsCut(c[n..], fields);
    ParamsShorter(c[n..], fields);
    var after := Params(c[n..], fields).value.1;
    assert after == [CLOSE] + after[1..];
    e, rest := Section(c[..n], ps), after[1..];
  }

  lemma {:induction false} SectionsCut(b: Bytes, fields: Fields) returns (es: seq<Section>)
    requires Elements(b, fields).Ok?
    ensures ValidSections(es) && (es == [] <==> b == [] || b[0] != OPEN)
    ensures Elements(b, fields).value.0 == MeantBy(es, fields)
    ensures b == PutSome(es, Elements(b, fields).value.1)
    decreases |b|
  {
    es := [];
    if b == [] || b[0] != OPEN {
    } else {
      var e, rest := FirstSection(b, fields);
      hide Elements, PutWritten, Meant, Section.Valid;
      var more := SectionsCut(rest, Meant(e.params, fields));
      es := [e] + more;
      assert es[1..] == more;
    }
  }

  lemma DataCuts(b: Bytes) returns (d: Option<seq<Section>>)
    requires StructuredData(b).Ok?
    ensures ValidData(d) && StructuredData(b).value.0 == FieldsOf(d)
    ensures b == PutSections(d, StructuredData(b).value.1)
  {
    hide Elements, MeantBy, PutSome;
    if b[0] == DASH {
      d := None;
      assert b == [DASH] + b[1..];
    } else {
      var es := SectionsCut(b, map[]);
      d := Some(es);
    }
  }

  lemma DataMeans(d: Option<seq<Section>>, rest: Bytes)
    requires ValidData(d) && (rest == [] || rest[0] == SPACE)
    ensures StructuredData(PutSections(d, rest)) == Ok((FieldsOf(d), rest))
  {
    if d.None? {
      CutFront([DASH], rest, 1);
      EmptyLeft(rest);
    } else {
      SectionsRead(d.value, rest, map[]);
      hide Elements;
    }
  }

  // ----- the whole message -----

  lemma RestReads(m: Option<Bytes>)
    ensures var b := PutRest(m);
            (b == [] || b[0] == SPACE) && Message(b) == Ok(MessageOf(m))
  {
    if m.Some? {
      assert PutRest(m)[1..] == m.value;
    }
  }

  lemma WordReads(t: Bytes, rest: Bytes)
    requires IsToken(t)
    ensures Token(t + ([SPACE] + rest)) == Ok((t, rest))
  {
    TokenReads(t, rest);
  }

  lemma WordCuts(b: Bytes)
    requires Token(b).Ok?
    ensures IsToken(Token(b).value.0) && b == Token(b).value.0 + ([SPACE] + Token(b).value.1)
  {
    UntilCuts(b, {SPACE});
    var n := Until(b, {SPACE});
    assert b[n..] == [SPACE] + b[n + 1..];
  }

  lemma VersionCuts(b: Bytes) returns (v: Bytes)
    requires Version(b).Ok?
    ensures AllDigits(v) && 1 <= |v| <= 3 && b == v + ([SPACE] + Version(b).value)
  {
    var n := Digits(b);
    v := b[..n];
    SplitAt(b, n);
    assert b[n..] == [SPACE] + b[n + 1..];
  }

  function Sense(clock: Clock, s: Sentence): Result<Parsed, Error>
    requires s.Valid()
  {
    var ts :- Stamp(clock, s.stamp);
    Ok(Parsed(FormatRfc5424, ts, NilValue(s.host), NilValue(s.app), NilValue(s.proc), NilValue(s.id),
              Some(Value(s.pri) / 8), Some(Value(s.pri) % 8), MessageOf(s.message), FieldsOf(s.data), s.Text()))
  }

  /** Every sentence is understood, unless the clock does not know its stamp. */
  lemma SentenceReads(clock: Clock, s: Sentence)
    requires s.Valid()
    ensures Parsing(clock, s.Text()) == Sense(clock, s)
  {
    hide Pri, PriText, Version, Token, StructuredData, Message, PutSections, PutRest, Stamp,
         FieldsOf, MessageOf, NilValue;
    hide IsToken, ValidData, AllDigits, Value;
    var end := PutRest(s.message);
    RestReads(s.message);
    var b0 := PutSections(s.data, end);
    DataMeans(s.data, end);
    var b1 := s.id + ([SPACE] + b0);
    var b2 := s.proc + ([SPACE] + b1);
    var b3 := s.app + ([SPACE] + b2);
    var b4 := s.host + ([SPACE] + b3);
    var b5 := s.stamp + ([SPACE] + b4);
    WordReads(s.id, b0);
    WordReads(s.proc, b1);
    WordReads(s.app, b2);
    WordReads(s.host, b3);
    WordReads(s.stamp, b4);
    VersionReads(s.version, b5);
    PriReads(s.pri, s.version + ([SPACE] + b5));
  }

  lemma MessageCuts(b: Bytes) returns (m: Option<Bytes>)
    requires Message(b).Ok?
    ensures b == PutRest(m)
  {
    m := None;
    if b != [] {
      m := Some(b[1..]);
      assert b == [SPACE] + b[1..];
    }
  }

  /** Every accepted text is a sentence. */
  lemma AcceptedIsSentence(clock: Clock, raw: Bytes) returns (s: Sentence)
    requires Parsing(clock, raw).Ok?
    ensures s.Valid() && raw == s.Text() && Parsing(clock, raw) == Sense(clock, s)
  {
    hide Pri, PriText, Version, Token, StructuredData, Message, PutSections, PutRest, Stamp,
         FieldsOf, MessageOf, NilValue;
    hide IsToken, ValidData, AllDigits, Value;
    var pri := PriConsumes(raw);
    var b0 := Pri(raw).value.1;
    var version := VersionCuts(b0);
    var (stamp, b2) := Token(Version(b0).value).value;
    WordCuts(Version(b0).value);
    var (host, b3) := Token(b2).value;
    WordCuts(b2);
    var (app, b4) := Token(b3).value;
    WordCuts(b3);
    var (proc, b5) := Token(b4).value;
    WordCuts(b4);
    var (id, b6) := Token(b5).value;
    WordCuts(b5);
    var data := DataCuts(b6);
    var message := MessageCuts(StructuredData(b6).value.1);
    s := Sentence(pri, version, stamp, host, app, proc, id, data, message);
    SentenceReads(clock, s);
  }

  /** The accepted language, exactly. */
  lemma AcceptsExactly(clock: Clock, raw: Bytes)
    ensures Parsing(clock, raw).Ok? <==>
            exists s: Sentence :: s.Valid() && raw == s.Text() && Stamp(clock, s.stamp).Ok?
  {
    hide Parsing, Stamp;
    if Parsing(clock, raw).Ok? {
      var s := AcceptedIsSentence(clock, raw);
    }
    if s: Sentence :| s.Valid() && raw == s.Text() && Stamp(clock, s.stamp).Ok? {
      SentenceReads(clock, s);
    }
  }
}
