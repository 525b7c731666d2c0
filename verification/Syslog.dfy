/** What both syslog parsers share: the parsed record, the PRI prefix, and scanning
    to a separator (backend/internal/parser). */
module Syslog {
  import opened Common
  import opened Decimal

  const LT: byte := 60
  const GT: byte := 62
  const DASH: byte := 45
  const OPEN: byte := 91
  const CLOSE: byte := 93
  const MAX_PRI := 191

  datatype Format = FormatRfc3164 | FormatRfc5424 | FormatJson | FormatUnknown

  /** timestamp is an instant, 0 being the zero time: none. */
  datatype Parsed = Parsed(
    format: Format, timestamp: int,
    hostname: Bytes, appName: Bytes, processID: Bytes, messageID: Bytes,
    facility: Option<nat>, severity: Option<nat>,
    message: Bytes, fields: map<Bytes, Bytes>, raw: Bytes)

  /** Index of the first byte in stops, or the length if there is none. */
  function Until(b: Bytes, stops: set<byte>): (n: nat)
    ensures n <= |b| && (n < |b| ==> b[n] in stops)
    ensures forall i :: 0 <= i < n ==> b[i] !in stops
  {
    if b == [] || b[0] in stops then 0 else 1 + Until(b[1..], stops)
  }

  lemma UntilIs(b: Bytes, stops: set<byte>, n: nat)
    requires n <= |b| && (n < |b| ==> b[n] in stops)
    requires forall i :: 0 <= i < n ==> b[i] !in stops
    ensures Until(b, stops) == n
  {
    assert Until(b, stops) < |b| ==> b[Until(b, stops)] in stops;
  }

  predicate Clean(b: Bytes, stops: set<byte>) {
    forall i :: 0 <= i < |b| ==> b[i] !in stops
  }

  /** Scanning a + b, with no stop in a and b starting with one. */
  lemma UntilSplit(a: Bytes, b: Bytes, stops: set<byte>)
    requires Clean(a, stops) && (b == [] || b[0] in stops)
    ensures Until(a + b, stops) == |a| && (a + b)[..|a|] == a && (a + b)[|a|..] == b
  {
    UntilIs(a + b, stops, |a|);
  }

  lemma UntilCuts(b: Bytes, stops: set<byte>)
    ensures var n := Until(b, stops);
            && Clean(b[..n], stops) && b[..n] + b[n..] == b && (b[n..] == [] || b[n..][0] in stops)
  {
    var n := Until(b, stops);
    SplitAt(b, n);
    assert n < |b| ==> b[n..][0] == b[n];
  }

  /** The scanning loop of the parsers. */
  method SkipUntil(b: Bytes, start: nat, stops: set<byte>) returns (i: nat)
    requires start <= |b|
    ensures i == start + Until(b[start..], stops) && i <= |b|
  {
    i := start;
    while i < |b| && b[i] !in stops
      invariant start <= i <= |b|
      invariant forall k :: start <= k < i ==> b[k] !in stops
    {
      i := i + 1;
    }
    UntilIs(b[start..], stops, i - start);
  }

  // ----- PRI -----

  /** "<ddd>" with 1 to 3 digits and a value of at most 191, and what follows. */
  function Pri(b: Bytes): Option<(nat, Bytes)> {
    if b == [] || b[0] != LT then None
    else
      var t := b[1..];
      var n := Digits(t);
      if 1 <= n <= 3 && n < |t| && t[n] == GT && Value(t[..n]) <= MAX_PRI then Some((Value(t[..n]), t[n + 1..]))
      else None
  }

  method ParsePri(b: Bytes) returns (pri: nat, rest: Bytes, ok: bool)
    ensures ok <==> Pri(b).Some?
    ensures ok ==> (pri, rest) == Pri(b).value
    ensures !ok ==> rest == b
  {
    if b == [] || b[0] != LT {
      return 0, b, false;
    }
    ghost var t := b[1..];
    var v, i := 0, 1;
    while i < |b| && IsDigit(b[i])
      invariant 1 <= i <= |b| && i <= 4
      invariant forall k :: 0 <= k < i - 1 ==> IsDigit(t[k])
      invariant v == Value(t[..i - 1])
      decreases |b| - i
    {
      assert t[i - 1] == b[i] && t[..i][..i - 1] == t[..i - 1];
      v := v * 10 + (b[i] - 48) as nat;
      i := i + 1;
      if i > 4 {
        DigitsBeyond(t, 3);
        return 0, b, false;
      }
    }
    DigitsAt(t, i - 1);
    if i == 1 || i >= |b| || b[i] != GT || v > MAX_PRI {
      return 0, b, false;
    }
    return v, b[i + 1..], true;
  }

  predicate AllDigits(ds: Bytes) {
    forall i :: 0 <= i < |ds| ==> IsDigit(ds[i])
  }

  function PriText(ds: Bytes): Bytes {
    [LT] + ds + [GT]
  }

  lemma PriAt(t: Bytes)
    ensures Pri([LT] + t) == var n := Digits(t);
                             if 1 <= n <= 3 && n < |t| && t[n] == GT && Value(t[..n]) <= MAX_PRI
                               then Some((Value(t[..n]), t[n + 1..]))
                             else None
  {
    CutFront([LT], t, 1);
    EmptyLeft(t);
  }

  lemma PriTextThen(ds: Bytes, rest: Bytes)
    ensures PriText(ds) + rest == [LT] + (ds + ([GT] + rest))
  {
    Assoc([LT] + ds, [GT], rest);
    Assoc([LT], ds, [GT] + rest);
  }

  /** Every text of the shape "<digits>" followed by anything: PRI accepts it exactly
      if there are 1 to 3 digits worth at most 191. */
  lemma PriReads(ds: Bytes, rest: Bytes)
    requires AllDigits(ds)
    ensures Pri(PriText(ds) + rest) == if 1 <= |ds| <= 3 && Value(ds) <= MAX_PRI then Some((Value(ds), rest)) else None
  {
    hide Value, Digits, Pri, PriText;
    var t := ds + ([GT] + rest);
    PriTextThen(ds, rest);
    PriAt(t);
    GtAfter(ds, rest);
    DigitsAt(t, |ds|);
  }

  lemma GtAfter(ds: Bytes, rest: Bytes)
    ensures var t := ds + ([GT] + rest);
            && t[..|ds|] == ds && t[|ds|] == GT && t[|ds| + 1..] == rest
            && forall i :: 0 <= i < |ds| ==> t[i] == ds[i]
  {
    var t := ds + ([GT] + rest);
    assert t[..|ds|] == ds && t[|ds| + 1..] == rest;
  }

  /** Conversely, what PRI accepts has that shape. */
  lemma PriConsumes(b: Bytes) returns (ds: Bytes)
    requires Pri(b).Some?
    ensures AllDigits(ds) && 1 <= |ds| <= 3 && Value(ds) == Pri(b).value.0 <= MAX_PRI
    ensures b == PriText(ds) + Pri(b).value.1
  {
    var t := b[1..];
    ds := t[..Digits(t)];
  }

  /** The decimal digits of n. */
  function Itoa(n: nat): (ds: Bytes)
    ensures AllDigits(ds) && Value(ds) == n && |ds| >= 1
    ensures (n < 10 ==> |ds| == 1) && (n < 100 ==> |ds| <= 2) && (n < 1000 ==> |ds| <= 3)
  {
    var d := (48 + n % 10) as byte;
    if n < 10 then ValueOf([], d); [d]
    else ValueOf(Itoa(n / 10), d); Itoa(n / 10) + [d]
  }

  lemma ValueOf(ds: Bytes, d: byte)
    requires AllDigits(ds) && IsDigit(d)
    ensures AllDigits(ds + [d]) && Value(ds + [d]) == Value(ds) * 10 + (d - 48) as nat
  {
    assert (ds + [d])[..|ds|] == ds && Value([]) == 0;
  }
}
