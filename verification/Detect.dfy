/** Format detection (backend/internal/parser/detect.go) and how far it agrees with the
    parser it selects. */
module Detect {
  import opened Common
  import opened Decimal
  import opened Syslog
  import Rfc5424

  const BRACE: byte := 123
  const ZERO: byte := 48

  /** A version as detection wants it: like the parser's, but no leading zero. */
  predicate Versioned(b: Bytes) {
    b != [] && IsDigit(b[0]) && b[0] != ZERO && Digits(b) <= 3 && Digits(b) < |b| && b[Digits(b)] == SPACE
  }

  function Sniff(raw: Bytes): Format {
    if raw == [] then FormatUnknown
    else if raw[0] == BRACE then FormatJson
    else if raw[0] != LT then FormatUnknown
    else
      var t := raw[1..];
      var n := Digits(t);
      if n == 0 || n == |t| || t[n] != GT then FormatUnknown
      else if Versioned(t[n + 1..]) then FormatRfc5424
      else FormatRfc3164
  }

  method DetectFormat(raw: Bytes) returns (f: Format)
    ensures f == Sniff(raw)
  {
    if raw == [] {
      return FormatUnknown;
    }
    if raw[0] == BRACE {
      return FormatJson;
    }
    if raw[0] != LT {
      return FormatUnknown;
    }
    ghost var t := raw[1..];
    var i := 1;
    while i < |raw| && IsDigit(raw[i])
      invariant 1 <= i <= |raw|
      invariant forall k :: 0 <= k < i - 1 ==> IsDigit(t[k])
    {
      assert t[i - 1] == raw[i];
      i := i + 1;
    }
    DigitsAt(t, i - 1);
    if i == 1 || i >= |raw| || raw[i] != GT {
      return FormatUnknown;
    }
    var rest := raw[i + 1..];
    assert rest == t[i..];
    if |rest| >= 2 && IsDigit(rest[0]) && rest[0] != ZERO {
      var j := 1;
      while j < |rest| && IsDigit(rest[j])
        invariant 1 <= j <= |rest|
        invariant forall k :: 0 <= k < j ==> IsDigit(rest[k])
      {
        j := j + 1;
      }
      DigitsAt(rest, j);
      if j <= 3 && j < |rest| && rest[j] == SPACE {
        return FormatRfc5424;
      }
    }
    return FormatRfc3164;
  }

  /** With a priority the parsers accept, detection says rfc5424 exactly if the RFC 5424
      parser will accept the version and it does not start with 0; otherwise rfc3164. */
  lemma DetectsVersion(raw: Bytes)
    requires Pri(raw).Some?
    ensures var rest := Pri(raw).value.1;
            Sniff(raw) == if Rfc5424.Version(rest).Ok? && rest[0] != ZERO then FormatRfc5424 else FormatRfc3164
  {
    var rest := Pri(raw).value.1;
    var n := Digits(raw[1..]);
    assert rest == raw[1..][n + 1..];
    assert rest != [] && IsDigit(rest[0]) <==> Digits(rest) > 0;
  }

  /** A message the RFC 5424 parser accepts is detected as such, unless its version
      starts with 0: then it goes to the RFC 3164 parser. */
  lemma AcceptedIsDetected(clock: Rfc5424.Clock, raw: Bytes)
    requires Rfc5424.Parsing(clock, raw).Ok?
    ensures var rest := Pri(raw).value.1;
            Sniff(raw) == if rest[0] == ZERO then FormatRfc3164 else FormatRfc5424
  {
    DetectsVersion(raw);
  }

  predicate Early(e: Rfc5424.Error) {
    e == Rfc5424.MissingPri || e == Rfc5424.InvalidVersion
  }

  lemma {:induction false} ParamsLate(b: Bytes, fields: Rfc5424.Fields)
    ensures Rfc5424.Params(b, fields).Err? ==> !Early(Rfc5424.Params(b, fields).error)
    decreases |b|
  {
    if b == [] || b[0] != SPACE || Rfc5424.Param(b[1..]).Err? {
    } else {
      var ((name, value), rest) := Rfc5424.Param(b[1..]).value;
      Rfc5424.ParamShorter(b[1..]);
      ParamsLate(rest, fields[name := value]);
    }
  }

  lemma {:induction false} ElementsLate(b: Bytes, fields: Rfc5424.Fields)
    ensures Rfc5424.Elements(b, fields).Err? ==> !Early(Rfc5424.Elements(b, fields).error)
    decreases |b|
  {
    if b == [] || b[0] != OPEN {
    } else {
      var t := b[1..];
      var n := Until(t, Rfc5424.ID_STOPS);
      ParamsLate(t[n..], fields);
      Rfc5424.ParamsShorter(t[n..], fields);
      if n < |t| && Rfc5424.Params(t[n..], fields).Ok? {
        var (more, rest) := Rfc5424.Params(t[n..], fields).value;
        if rest != [] {
          ElementsLate(rest[1..], more);
        }
      }
    }
  }

  lemma BodyLate(b: Bytes)
    ensures Rfc5424.Body(b).Err? ==> !Early(Rfc5424.Body(b).error)
  {
    ElementsLate(b, map[]);
    hide Rfc5424.Elements;
  }

  lemma HeaderLate(b: Bytes)
    ensures Rfc5424.Header(b).Err? ==> !Early(Rfc5424.Header(b).error)
  {
  }

  /** Only the PRI and VERSION stages fail with their own errors. */
  lemma StageErrors(clock: Rfc5424.Clock, raw: Bytes)
    ensures var r := Rfc5424.Parsing(clock, raw);
            && (r == Err(Rfc5424.MissingPri) <==> Pri(raw).None?)
            && (r == Err(Rfc5424.InvalidVersion) <==> Pri(raw).Some? && Rfc5424.Version(Pri(raw).value.1).Err?)
  {
    hide Pri, Rfc5424.Body, Rfc5424.Header, Digits;
    if Pri(raw).Some? && Rfc5424.Version(Pri(raw).value.1).Ok? {
      var b1 := Rfc5424.Version(Pri(raw).value.1).value;
      if Rfc5424.Token(b1).Ok? {
        var b2 := Rfc5424.Token(b1).value.1;
        HeaderLate(b2);
        if Rfc5424.Header(b2).Ok? {
          BodyLate(Rfc5424.Header(b2).value.1);
        }
      }
    }
  }

  /** A message detected as RFC 5424 is never refused for its version, and for its
      priority exactly if that has more than three digits or exceeds 191. */
  lemma DetectedIsVersioned(clock: Rfc5424.Clock, raw: Bytes)
    requires Sniff(raw) == FormatRfc5424
    ensures var ds := raw[1..][..Digits(raw[1..])];
            var r := Rfc5424.Parsing(clock, raw);
            && AllDigits(ds)
            && (r == Err(Rfc5424.MissingPri) <==> |ds| > 3 || Value(ds) > MAX_PRI)
            && r != Err(Rfc5424.InvalidVersion)
  {
    hide Rfc5424.Parsing;
    StageErrors(clock, raw);
    if Pri(raw).Some? {
      DetectsVersion(raw);
    }
  }
}
