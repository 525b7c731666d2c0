/** The RFC 5424 parser (backend/internal/parser/rfc5424.go). The functions say what a
    text means by its unread rest; the methods are the code's index loops. */
module Rfc5424 {
  import opened Common
  import opened Decimal
  import opened Syslog

  const QUOTE: byte := 34
  const EQUALS: byte := 61
  const BACKSLASH: byte := 92
  const BOM: Bytes := [0xEF, 0xBB, 0xBF]

  const ID_STOPS: set<byte> := {SPACE, CLOSE}
  const NAME_STOPS: set<byte> := {EQUALS, CLOSE, SPACE}
  const ESCAPED: set<byte> := {BACKSLASH, QUOTE, CLOSE}

  datatype Error =
    | MissingPri | InvalidVersion | TruncatedHeader | EmptyHeaderField | InvalidTimestamp
    | MissingData | JunkAfterNil | NotAnElement | UnterminatedId | InvalidName | Unquoted
    | UnterminatedValue | UnterminatedElement | JunkAfterData | NoSpaceBeforeMessage

  /** time.Parse for RFC 3339 stamps is not modelled: any partial function will do. */
  type Clock = Bytes -> Option<int>

  // ----- tokens -----

  /** The leading space-delimited token and what follows its space. */
  function Token(b: Bytes): Result<(Bytes, Bytes), Error> {
    var n := Until(b, {SPACE});
    if n == |b| then Err(TruncatedHeader)
    else if n == 0 then Err(EmptyHeaderField)
    else Ok((b[..n], b[n + 1..]))
  }

  function NilValue(b: Bytes): Bytes {
    if b == [DASH] then [] else b
  }

  // ----- structured data -----

  /** A quoted value without its opening quote: the value, and what follows the
      closing quote. */
  function ParamValue(b: Bytes): Option<(Bytes, Bytes)> {
    if b == [] then None
    else if b[0] == BACKSLASH && |b| > 1 then
      if b[1] in ESCAPED then Prepend(b[1], ParamValue(b[2..])) else Prepend(b[0], ParamValue(b[1..]))
    else if b[0] == QUOTE then Some(([], b[1..]))
    else Prepend(b[0], ParamValue(b[1..]))
  }

  function Prepend(c: byte, r: Option<(Bytes, Bytes)>): Option<(Bytes, Bytes)> {
    if r.Some? then Some(([c] + r.value.0, r.value.1)) else None
  }

  type Fields = map<Bytes, Bytes>

  /** One name="value", without the space before it. */
  function Param(b: Bytes): Result<((Bytes, Bytes), Bytes), Error> {
    var n := Until(b, NAME_STOPS);
    if n == |b| || b[n] != EQUALS then Err(InvalidName)
    else
      var v := b[n + 1..];
      if v == [] || v[0] != QUOTE then Err(Unquoted)
      else
        var r := ParamValue(v[1..]);
        if r.None? then Err(UnterminatedValue) else Ok(((b[..n], r.value.0), r.value.1))
  }

  /** The params of an element, each after one space. */
  function Params(b: Bytes, fields: Fields): Result<(Fields, Bytes), Error>
    decreases |b|
  {
    if b == [] || b[0] != SPACE then Ok((fields, b))
    else
      var r := Param(b[1..]);
      if r.Err? then Err(r.error)
      else
        var ((name, value), rest) := r.value;
        ParamShorter(b[1..]);
        Params(rest, fields[name := value])
  }

  lemma ParamShorter(b: Bytes)
    ensures Param(b).Ok? ==> |Param(b).value.1| < |b|
  {
    if Param(b).Ok? {
      ValueShorter(b[Until(b, NAME_STOPS) + 1..][1..]);
    }
  }

  lemma {:induction false} ValueShorter(b: Bytes)
    ensures ParamValue(b).Some? ==> |ParamValue(b).value.1| < |b|
  {
    if b == [] {
    } else if b[0] == BACKSLASH && |b| > 1 && b[1] in ESCAPED {
      ValueShorter(b[2..]);
    } else {
      ValueShorter(b[1..]);
    }
  }

  lemma {:induction false} ParamsShorter(b: Bytes, fields: Fields)
    ensures Params(b, fields).Ok? ==> |Params(b, fields).value.1| <= |b|
    decreases |b|
  {
    if b == [] || b[0] != SPACE || Param(b[1..]).Err? {
    } else {
      var ((name, value), rest) := Param(b[1..]).value;
      ParamShorter(b[1..]);
      ParamsShorter(rest, fields[name := value]);
    }
  }

  /** The elements of the structured data, and what follows the last. */
  function Elements(b: Bytes, fields: Fields): Result<(Fields, Bytes), Error>
    decreases |b|
  {
    if b == [] || b[0] != OPEN then Ok((fields, b))
    else
      var n := Until(b[1..], ID_STOPS);
      if n == |b| - 1 then Err(UnterminatedId)
      else
        var r := Params(b[1..][n..], fields);
        if r.Err? then Err(r.error)
        else
          var (more, rest) := r.value;
          ParamsShorter(b[1..][n..], fields);
          if rest == [] || rest[0] != CLOSE then Err(UnterminatedElement) else Elements(rest[1..], more)
  }

  function AfterData(r: (Fields, Bytes), junk: Error): Result<(Fields, Bytes), Error> {
    if r.1 != [] && r.1[0] != SPACE then Err(junk) else Ok(r)
  }

  function StructuredData(b: Bytes): Result<(Fields, Bytes), Error> {
    if b == [] then Err(MissingData)
    else if b[0] == DASH then AfterData((map[], b[1..]), JunkAfterNil)
    else if b[0] != OPEN then Err(NotAnElement)
    else
      var r := Elements(b, map[]);
      if r.Err? then r else AfterData(r.value, JunkAfterData)
  }

  // ----- the whole message -----

  /** VERSION and its space: 1 to 3 digits, leading zeros included. */
  function Version(b: Bytes): Result<Bytes, Error> {
    var n := Digits(b);
    if n == 0 || n > 3 || n == |b| || b[n] != SPACE then Err(InvalidVersion) else Ok(b[n + 1..])
  }

  function Stamp(clock: Clock, tok: Bytes): Result<int, Error> {
    if tok == [DASH] then Ok(0)
    else if clock(tok).Some? then Ok(clock(tok).value)
    else Err(InvalidTimestamp)
  }

  function TrimBom(b: Bytes): Bytes {
    if |b| >= 3 && b[..3] == BOM then b[3..] else b
  }

  function Message(b: Bytes): Result<Bytes, Error> {
    if b == [] then Ok([])
    else if b[0] != SPACE then Err(NoSpaceBeforeMessage)
    else Ok(TrimBom(b[1..]))
  }

  /** The four tokens after the timestamp: host, app name, process id, message id. */
  function Header(b: Bytes): Result<((Bytes, Bytes, Bytes, Bytes), Bytes), Error> {
    var (host, b1) :- Token(b);
    var (app, b2) :- Token(b1);
    var (proc, b3) :- Token(b2);
    var (id, b4) :- Token(b3);
    Ok(((NilValue(host), NilValue(app), NilValue(proc), NilValue(id)), b4))
  }

  function Body(b: Bytes): Result<(Fields, Bytes), Error> {
    var (fields, rest) :- StructuredData(b);
    var msg :- Message(rest);
    Ok((fields, msg))
  }

  function Parsing(clock: Clock, raw: Bytes): Result<Parsed, Error> {
    if Pri(raw).None? then Err(MissingPri)
    else
      var (pri, b0) := Pri(raw).value;
      var b1 :- Version(b0);
      var (tok, b2) :- Token(b1);
      var ts :- Stamp(clock, tok);
      var ((host, app, proc, id), b3) :- Header(b2);
      var (fields, msg) :- Body(b3);
      Ok(Parsed(FormatRfc5424, ts, host, app, proc, id, Some(pri / 8), Some(pri % 8), msg, fields, raw))
  }

  // ----- the code -----

  method NextToken(b: Bytes) returns (r: Result<(Bytes, Bytes), Error>)
    ensures r == Token(b)
  {
    var i := SkipUntil(b, 0, {SPACE});
    assert b[0..] == b;
    if i == |b| {
      return Err(TruncatedHeader);
    }
    if i == 0 {
      return Err(EmptyHeaderField);
    }
    return Ok((b[..i], b[i + 1..]));
  }

  /** What reading a value from i yields, when val has been read since start. */
  predicate ReadSoFar(b: Bytes, start: nat, i: nat, val: Bytes)
    requires start <= |b| && i <= |b|
  {
    ParamValue(b[start..]) ==
    var r := ParamValue(b[i..]);
    if r.Some? then Some((val + r.value.0, r.value.1)) else None
  }

  lemma ReadOn(b: Bytes, start: nat, i: nat, val: Bytes, c: byte, j: nat)
    requires start <= |b| && i < j <= |b| && ReadSoFar(b, start, i, val)
    requires ParamValue(b[i..]) == Prepend(c, ParamValue(b[j..]))
    ensures ReadSoFar(b, start, j, val + [c])
  {
    var r := ParamValue(b[j..]);
    if r.Some? {
      Assoc(val, [c], r.value.0);
    }
  }

  /** One step of ParamValue at index i. */
  lemma ValueStep(b: Bytes, i: nat)
    requires i < |b|
    ensures ParamValue(b[i..]) ==
            if b[i] == BACKSLASH && i + 1 < |b| then
              if b[i + 1] in ESCAPED then Prepend(b[i + 1], ParamValue(b[i + 2..]))
              else Prepend(b[i], ParamValue(b[i + 1..]))
            else if b[i] == QUOTE then Some(([], b[i + 1..]))
            else Prepend(b[i], ParamValue(b[i + 1..]))
  {
    var t := b[i..];
    assert t[1..] == b[i + 1..];
    assert |t| > 1 ==> t[1] == b[i + 1] && t[2..] == b[i + 2..];
  }

  /** The value loop: from just after the opening quote at start. */
  method ReadValue(b: Bytes, start: nat) returns (val: Bytes, i: nat, closed: bool)
    requires start <= |b|
    ensures i <= |b|
    ensures ParamValue(b[start..]) == if closed then Some((val, b[i..])) else None
  {
    hide ParamValue;
    val, i, closed := [], start, false;
    assert ReadSoFar(b, start, start, []) by { NothingRead(b, start); }
    while i < |b|
      invariant start <= i <= |b|
      invariant ReadSoFar(b, start, i, val)
    {
      var c := b[i];
      ValueStep(b, i);
      if c == BACKSLASH && i + 1 < |b| {
        if b[i + 1] in ESCAPED {
          ReadOn(b, start, i, val, b[i + 1], i + 2);
          val := val + [b[i + 1]];
          i := i + 2;
          continue;
        }
        ReadOn(b, start, i, val, c, i + 1);
        val := val + [c];
        i := i + 1;
        continue;
      }
      if c == QUOTE {
        assert val + [] == val;
        return val, i + 1, true;
      }
      ReadOn(b, start, i, val, c, i + 1);
      val := val + [c];
      i := i + 1;
    }
    NoValueAtEnd(b);
  }

  lemma NothingRead(b: Bytes, start: nat)
    requires start <= |b|
    ensures ReadSoFar(b, start, start, [])
  {
    var r := ParamValue(b[start..]);
    if r.Some? {
      EmptyLeft(r.value.0);
    }
  }

  lemma NoValueAtEnd(b: Bytes)
    ensures ParamValue(b[|b|..]) == None
  {
  }

  lemma ParamStep(b: Bytes, i: nat, n: nat)
    requires i <= |b| && n == i + Until(b[i..], NAME_STOPS)
    ensures n <= |b|
    ensures n == |b| || b[n] != EQUALS ==> Param(b[i..]) == Err(InvalidName)
    ensures n < |b| && b[n] == EQUALS ==>
              Param(b[i..]) ==
              if n + 1 == |b| || b[n + 1] != QUOTE then Err(Unquoted)
              else
                var r := ParamValue(b[n + 2..]);
                if r.None? then Err(UnterminatedValue) else Ok(((b[i..n], r.value.0), r.value.1))
  {
    var t := b[i..];
    assert n < |b| ==> t[n - i] == b[n] && t[n - i + 1..] == b[n + 1..];
    assert n + 1 < |b| ==> b[n + 1..][0] == b[n + 1] && b[n + 1..][1..] == b[n + 2..];
    assert t[..n - i] == b[i..n];
  }

  lemma ParamsStep(b: Bytes, i: nat, fields: Fields)
    requires i < |b| && b[i] == SPACE
    ensures Params(b[i..], fields) ==
            var r := Param(b[i + 1..]);
            if r.Err? then Err(r.error) else Params(r.value.1, fields[r.value.0.0 := r.value.0.1])
  {
    assert b[i..][1..] == b[i + 1..];
    ParamShorter(b[i + 1..]);
  }

  /** The params loop, from just after an element's id. */
  method ReadParams(b: Bytes, start: nat, before: Fields) returns (r: Result<(Fields, nat), Error>)
    requires start <= |b|
    ensures r.Ok? ==> start <= r.value.1 <= |b|
    ensures Params(b[start..], before) == if r.Ok? then Ok((r.value.0, b[r.value.1..])) else Err(r.error)
  {
    hide Params, Param, ParamValue;
    var fields, i := before, start;
    while i < |b| && b[i] == SPACE
      invariant start <= i <= |b|
      invariant Params(b[start..], before) == Params(b[i..], fields)
      decreases |b| - i
    {
      ParamsStep(b, i, fields);
      i := i + 1;
      var ns := i;
      i := SkipUntil(b, i, NAME_STOPS);
      ParamStep(b, ns, i);
      if i >= |b| || b[i] != EQUALS {
        return Err(InvalidName);
      }
      var name := b[ns..i];
      i := i + 1;
      if i >= |b| || b[i] != QUOTE {
        return Err(Unquoted);
      }
      i := i + 1;
      var val, next, closed := ReadValue(b, i);
      if !closed {
        return Err(UnterminatedValue);
      }
      ValueAdvances(b, i, val, next);
      fields := fields[name := val];
      i := next;
    }
    ParamsEnd(b, i, fields);
    return Ok((fields, i));
  }

  lemma ValueAdvances(b: Bytes, i: nat, val: Bytes, next: nat)
    requires i <= |b| && next <= |b| && ParamValue(b[i..]) == Some((val, b[next..]))
    ensures i < next
  {
    ValueShorter(b[i..]);
  }

  lemma ParamsEnd(b: Bytes, i: nat, fields: Fields)
    requires i <= |b| && (i == |b| || b[i] != SPACE)
    ensures Params(b[i..], fields) == Ok((fields, b[i..]))
  {
  }

  lemma ElementsStep(b: Bytes, i: nat, n: nat, fields: Fields)
    requires i < |b| && b[i] == OPEN && n == i + 1 + Until(b[i + 1..], ID_STOPS)
    ensures n <= |b|
    ensures Elements(b[i..], fields) ==
            if n == |b| then Err(UnterminatedId)
            else
              var r := Params(b[n..], fields);
              if r.Err? then Err(r.error)
              else if r.value.1 == [] || r.value.1[0] != CLOSE then Err(UnterminatedElement)
              else Elements(r.value.1[1..], r.value.0)
  {
    assert b[i..][1..] == b[i + 1..];
    assert b[i + 1..][n - i - 1..] == b[n..];
    ParamsShorter(b[n..], fields);
  }

  lemma ElementsEnd(b: Bytes, i: nat, fields: Fields)
    requires i <= |b| && (i == |b| || b[i] != OPEN)
    ensures Elements(b[i..], fields) == Ok((fields, b[i..]))
  {
  }

  method ParseStructuredData(b: Bytes) returns (r: Result<(Fields, Bytes), Error>)
    ensures r == StructuredData(b)
  {
    hide Elements, Params;
    if b == [] {
      return Err(MissingData);
    }
    if b[0] == DASH {
      var rest := b[1..];
      if rest != [] && rest[0] != SPACE {
        return Err(JunkAfterNil);
      }
      return Ok((map[], rest));
    }
    if b[0] != OPEN {
      return Err(NotAnElement);
    }
    var fields, i := map[], 0;
    assert b[0..] == b;
    while i < |b| && b[i] == OPEN
      invariant 0 <= i <= |b|
      invariant Elements(b, map[]) == Elements(b[i..], fields)
      decreases |b| - i
    {
      var n := SkipUntil(b, i + 1, ID_STOPS);
      ElementsStep(b, i, n, fields);
      if n >= |b| {
        return Err(UnterminatedId);
      }
      var p := ReadParams(b, n, fields);
      if p.Err? {
        return Err(p.error);
      }
      fields, i := p.value.0, p.value.1;
      if i >= |b| || b[i] != CLOSE {
        return Err(UnterminatedElement);
      }
      assert b[i..][1..] == b[i + 1..];
      i := i + 1;
    }
    ElementsEnd(b, i, fields);
    var rest := b[i..];
    if rest != [] && rest[0] != SPACE {
      return Err(JunkAfterData);
    }
    return Ok((fields, rest));
  }

  method Parse(clock: Clock, raw: Bytes) returns (r: Result<Parsed, Error>)
    ensures r == Parsing(clock, raw)
  {
    hide StructuredData, Digits, Token, Pri, TrimBom;
    var pri, rest, ok := ParsePri(raw);
    if !ok {
      return Err(MissingPri);
    }
    var out := Parsed(FormatRfc5424, 0, [], [], [], [], Some(pri / 8), Some(pri % 8), [], map[], raw);
    var i := 0;
    while i < |rest| && IsDigit(rest[i])
      invariant 0 <= i <= |rest|
      invariant forall k :: 0 <= k < i ==> IsDigit(rest[k])
    {
      i := i + 1;
    }
    DigitsAt(rest, i);
    if i == 0 || i > 3 || i >= |rest| || rest[i] != SPACE {
      return Err(InvalidVersion);
    }
    rest := rest[i + 1..];

    var tok: Bytes;
    var next :- NextToken(rest);
    tok, rest := next.0, next.1;
    if tok != [DASH] {
      var ts := clock(tok);
      if ts.None? {
        return Err(InvalidTimestamp);
      }
      out := out.(timestamp := ts.value);
    }
    next :- NextToken(rest);
    tok, rest := next.0, next.1;
    out := out.(hostname := NilValue(tok));
    next :- NextToken(rest);
    tok, rest := next.0, next.1;
    out := out.(appName := NilValue(tok));
    next :- NextToken(rest);
    tok, rest := next.0, next.1;
    out := out.(processID := NilValue(tok));
    next :- NextToken(rest);
    tok, rest := next.0, next.1;
    out := out.(messageID := NilValue(tok));

    var data :- ParseStructuredData(rest);
    rest := data.1;
    out := out.(fields := data.0);
    if |rest| > 0 {
      if rest[0] != SPACE {
        return Err(NoSpaceBeforeMessage);
      }
      out := out.(message := TrimBom(rest[1..]));
    }
    return Ok(out);
  }
}
