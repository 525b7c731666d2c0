/** The BSD syslog parser (backend/internal/parser/rfc3164.go): every prefix is optional
    and it never fails. What it returns is the input cut into pieces, and what is
    printed in the usual shape is read back. */
module Rfc3164 {
  import opened Common
  import opened Decimal
  import opened Syslog

  const COLON: byte := 58
  const DOT: byte := 46
  const MAX_HOST := 255
  const MAX_TAG := 48
  const STAMP_LEN := 15

  /** bsd reads "Mmm dd hh:mm:ss" in either day padding and infers the year, iso reads
      RFC 3339; which stamps they accept is not modelled. */
  datatype Clocks = Clocks(bsd: Bytes -> Option<int>, iso: Bytes -> Option<int>)

  // ----- what each prefix is -----

  /** The instant of a leading timestamp and its length. */
  function Timestamp(k: Clocks, b: Bytes): Option<(int, nat)> {
    var i := Until(b, {SPACE});
    if |b| >= STAMP_LEN && k.bsd(b[..STAMP_LEN]).Some? then Some((k.bsd(b[..STAMP_LEN]).value, STAMP_LEN))
    else if i < |b| && 9 < i <= 35 && k.iso(b[..i]).Some? then Some((k.iso(b[..i]).value, i))
    else None
  }

  predicate HostLike(t: Bytes) {
    1 <= |t| <= MAX_HOST && Clean(t, {SPACE, COLON}) && exists j :: 0 <= j < |t| && t[j] !in {DASH, DOT}
  }

  /** A leading host name: up to a space, which is not consumed. */
  function Hostname(b: Bytes): Option<(Bytes, Bytes)> {
    var i := Until(b, {SPACE});
    if i < |b| && HostLike(b[..i]) then Some((b[..i], b[i..])) else None
  }

  function TrimSpace(b: Bytes): Bytes {
    if b != [] && b[0] == SPACE then TrimSpace(b[1..]) else b
  }

  predicate IsTagChar(c: byte) {
    97 <= c <= 122 || 65 <= c <= 90 || IsDigit(c) || c == 95 || c == DOT || c == 47 || c == DASH
  }

  predicate TagLike(t: Bytes) {
    1 <= |t| <= MAX_TAG && forall i :: 0 <= i < |t| ==> IsTagChar(t[i])
  }

  const TAG_STOPS: set<byte> := {COLON, OPEN, SPACE}

  /** What follows a tag: an optional [pid] and a colon. The result is the pid and what
      follows the colon. */
  function PidColon(b: Bytes): Option<(Bytes, Bytes)> {
    if b != [] && b[0] == OPEN then
      var j := Until(b, {CLOSE});
      if 2 <= j < |b| && j + 1 < |b| && b[j + 1] == COLON then Some((b[1..j], b[j + 2..])) else None
    else if b != [] && b[0] == COLON then Some(([], b[1..]))
    else None
  }

  /** Tag, pid and message. */
  function Split(b: Bytes): (Bytes, Bytes, Bytes) {
    var t := TrimSpace(b);
    var i := Until(t, TAG_STOPS);
    if TagLike(t[..i]) && PidColon(t[i..]).Some? then
      var (pid, rest) := PidColon(t[i..]).value;
      (t[..i], pid, TrimSpace(rest))
    else ([], [], t)
  }

  /** After a timestamp: one space, then a host name if there is one. */
  function HostPart(b: Bytes): (Bytes, Bytes) {
    var c := if b != [] && b[0] == SPACE then b[1..] else b;
    if Hostname(c).Some? then Hostname(c).value else ([], c)
  }

  function Parsing(k: Clocks, raw: Bytes): Parsed {
    var pri := Pri(raw);
    var b := if pri.Some? then pri.value.1 else raw;
    var ts := Timestamp(k, b);
    var (host, rest) := if ts.Some? then HostPart(b[ts.value.1..]) else ([], b);
    var (tag, pid, msg) := Split(rest);
    Parsed(FormatRfc3164, if ts.Some? then ts.value.0 else 0, host, tag, pid, [],
           if pri.Some? then Some(pri.value.0 / 8) else None,
           if pri.Some? then Some(pri.value.0 % 8) else None, msg, map[], raw)
  }

  // ----- the code -----

  method TrimLeftSpace(b: Bytes) returns (r: Bytes)
    ensures r == TrimSpace(b)
  {
    var i := 0;
    assert b[0..] == b;
    while i < |b| && b[i] == SPACE
      invariant 0 <= i <= |b| && TrimSpace(b[i..]) == TrimSpace(b)
    {
      assert b[i..][1..] == b[i + 1..];
      i := i + 1;
    }
    return b[i..];
  }

  method ParseTimestamp(k: Clocks, b: Bytes) returns (ts: int, rest: Bytes, ok: bool)
    ensures ok <==> Timestamp(k, b).Some?
    ensures ok ==> ts == Timestamp(k, b).value.0 && rest == b[Timestamp(k, b).value.1..]
    ensures !ok ==> ts == 0 && rest == b
  {
    if |b| >= STAMP_LEN {
      var t := k.bsd(b[..STAMP_LEN]);
      if t.Some? {
        return t.value, b[STAMP_LEN..], true;
      }
    }
    var i := Until(b, {SPACE});
    if i < |b| && 9 < i <= 35 {
      var t := k.iso(b[..i]);
      if t.Some? {
        return t.value, b[i..], true;
      }
    }
    return 0, b, false;
  }

  method ParseHostname(b: Bytes) returns (host: Bytes, rest: Bytes, ok: bool)
    ensures ok <==> Hostname(b).Some?
    ensures ok ==> (host, rest) == Hostname(b).value
    ensures !ok ==> rest == b
  {
    var i := Until(b, {SPACE});
    if i == |b| || i == 0 || i > MAX_HOST {
      return [], b, false;
    }
    var tok := b[..i];
    for k := 0 to |tok|
      invariant Clean(tok[..k], {COLON})
    {
      if tok[k] == COLON {
        return [], b, false;
      }
    }
    var j := 0;
    while j < |tok| && tok[j] in {DASH, DOT}
      invariant 0 <= j <= |tok|
      invariant forall k :: 0 <= k < j ==> tok[k] in {DASH, DOT}
    {
      j := j + 1;
    }
    assert tok[..|tok|] == tok;
    if j == |tok| {
      return [], b, false;
    }
    assert HostLike(tok);
    return tok, b[i..], true;
  }

  method SplitTagMessage(b: Bytes) returns (tag: Bytes, pid: Bytes, msg: Bytes)
    ensures (tag, pid, msg) == Split(b)
  {
    hide TrimSpace, IsTagChar;
    var t := TrimLeftSpace(b);
    if t == [] {
      return [], [], [];
    }
    var i := SkipUntil(t, 0, TAG_STOPS);
    assert t[0..] == t;
    if i == 0 || i > MAX_TAG {
      return [], [], t;
    }
    for k := 0 to i
      invariant forall m :: 0 <= m < k ==> IsTagChar(t[m])
    {
      if !IsTagChar(t[k]) {
        assert !IsTagChar(t[..i][k]);
        return [], [], t;
      }
    }
    assert TagLike(t[..i]);
    var rest := t[i..];
    pid := [];
    if |rest| > 0 && rest[0] == OPEN {
      var j := Until(rest, {CLOSE});
      if j == |rest| || j < 2 {
        return [], [], t;
      }
      pid := rest[1..j];
      rest := rest[j + 1..];
    }
    if rest == [] || rest[0] != COLON {
      return [], [], t;
    }
    msg := TrimLeftSpace(rest[1..]);
    tag := t[..i];
  }

  method Parse(k: Clocks, raw: Bytes) returns (out: Parsed)
    ensures out == Parsing(k, raw)
  {
    hide Pri, Timestamp, Hostname, Split;
    out := Parsed(FormatRfc3164, 0, [], [], [], [], None, None, [], map[], raw);
    var rest := raw;
    var pri, rem, ok := ParsePri(rest);
    if ok {
      out := out.(facility := Some(pri / 8), severity := Some(pri % 8));
      rest := rem;
    }
    var ts: int;
    ts, rem, ok := ParseTimestamp(k, rest);
    if ok {
      out := out.(timestamp := ts);
      if |rem| > 0 && rem[0] == SPACE {
        rem := rem[1..];
      }
      rest := rem;
      var host;
      host, rem, ok := ParseHostname(rest);
      if ok {
        out := out.(hostname := host);
        rest := rem;
      }
    }
    var tag, pid, msg := SplitTagMessage(rest);
    out := out.(appName := tag, processID := pid, message := msg);
  }

  // ----- nothing of the input is lost -----

  /** pid None is no brackets; tagged says whether there is a tag and its colon. */
  datatype Tail = Tail(pad: Bytes, tag: Bytes, pid: Option<Bytes>, space: Bytes, msg: Bytes) {
    predicate Tagged() {
      tag != []
    }

    function Text(): Bytes {
      pad + if Tagged() then tag + PutPid(pid, [COLON] + (space + msg)) else msg
    }

    predicate Valid() {
      && Spaces(pad) && (msg != [] ==> msg[0] != SPACE)
      && if Tagged() then TagLike(tag) && Spaces(space) && (pid.Some? ==> pid.value != [] && Clean(pid.value, {CLOSE}))
         else pid == None && space == []
    }
  }

  predicate Spaces(b: Bytes) {
    forall i :: 0 <= i < |b| ==> b[i] == SPACE
  }

  function PutPid(pid: Option<Bytes>, rest: Bytes): Bytes {
    match pid
    case None => rest
    case Some(p) => [OPEN] + (p + ([CLOSE] + rest))
  }

  lemma {:induction false} TrimCuts(b: Bytes) returns (pad: Bytes)
    ensures b == pad + TrimSpace(b) && Spaces(pad)
    ensures TrimSpace(b) != [] ==> TrimSpace(b)[0] != SPACE
  {
    if b != [] && b[0] == SPACE {
      var more := TrimCuts(b[1..]);
      pad := [SPACE] + more;
    } else {
      pad := [];
    }
  }

  lemma {:induction false} TrimsSpaces(pad: Bytes, rest: Bytes)
    requires Spaces(pad) && (rest != [] ==> rest[0] != SPACE)
    ensures TrimSpace(pad + rest) == rest
  {
    if pad == [] {
      EmptyLeft(rest);
    } else {
      TrimsSpaces(pad[1..], rest);
      CutFront(pad, rest, 1);
    }
  }

  function PidOf(pid: Option<Bytes>): Bytes {
    if pid.Some? then pid.value else []
  }

  lemma PidColonCuts(b: Bytes) returns (pid: Option<Bytes>)
    requires PidColon(b).Some?
    ensures b == PutPid(pid, [COLON] + PidColon(b).value.1) && PidColon(b).value.0 == PidOf(pid)
    ensures pid.Some? ==> pid.value != [] && Clean(pid.value, {CLOSE})
  {
    var (p, rest) := PidColon(b).value;
    if b[0] == OPEN {
      var j := Until(b, {CLOSE});
      pid := Some(p);
      assert b[j + 1..] == [COLON] + rest;
      assert b[j..] == [CLOSE] + b[j + 1..];
      assert b[1..] == p + b[j..];
      assert b == [OPEN] + b[1..];
    } else {
      pid := None;
      assert b == [COLON] + rest;
    }
  }

  lemma PidColonReads(pid: Option<Bytes>, rest: Bytes)
    requires pid.Some? ==> pid.value != [] && Clean(pid.value, {CLOSE})
    ensures var b := PutPid(pid, [COLON] + rest);
            && b != [] && b[0] in TAG_STOPS
            && PidColon(b) == Some((PidOf(pid), rest))
  {
    var b := PutPid(pid, [COLON] + rest);
    if pid.Some? {
      var s := [CLOSE] + ([COLON] + rest);
      Assoc([OPEN], pid.value, s);
      UntilSplit([OPEN] + pid.value, s, {CLOSE});
      var j := |pid.value| + 1;
      assert b[1..j] == pid.value && b[j + 1] == COLON && b[j + 2..] == rest;
    } else {
      assert b[1..] == rest;
    }
  }

  /** Split loses nothing: its input is spaces, then either the message or a tag, a
      pid in brackets if there is one, a colon, spaces and the message. */
  lemma SplitCuts(b: Bytes) returns (t: Tail)
    ensures t.Valid() && b == t.Text()
    ensures Split(b) == (t.tag, PidOf(t.pid), t.msg)
  {
    hide TrimSpace, PidColon, IsTagChar;
    var pad := TrimCuts(b);
    var c := TrimSpace(b);
    var i := Until(c, TAG_STOPS);
    UntilCuts(c, TAG_STOPS);
    if TagLike(c[..i]) && PidColon(c[i..]).Some? {
      var rest := PidColon(c[i..]).value.1;
      var pid := PidColonCuts(c[i..]);
      var space := TrimCuts(rest);
      t := Tail(pad, c[..i], pid, space, TrimSpace(rest));
    } else {
      t := Tail(pad, [], None, [], c);
    }
  }

  lemma TagStopsAreNoTag(t: Bytes)
    requires TagLike(t)
    ensures Clean(t, TAG_STOPS) && t[0] != SPACE
  {
  }

  /** Conversely, every tag, pid and message written that way is recovered. */
  lemma SplitReads(t: Tail)
    requires t.Valid() && t.Tagged()
    ensures Split(t.Text()) == (t.tag, PidOf(t.pid), t.msg)
  {
    hide TrimSpace, PidColon, IsTagChar, TagLike;
    var after := t.space + t.msg;
    var b := PutPid(t.pid, [COLON] + after);
    PidColonReads(t.pid, after);
    TagStopsAreNoTag(t.tag);
    TrimsSpaces(t.pad, t.tag + b);
    UntilSplit(t.tag, b, TAG_STOPS);
    TrimsSpaces(t.space, t.msg);
  }

  /** What is read as tagged even if it was meant as a message. */
  predicate LooksTagged(m: Bytes) {
    var i := Until(m, TAG_STOPS);
    TagLike(m[..i]) && PidColon(m[i..]).Some?
  }

  /** Every tail is recovered exactly if it has a tag or its message does not look as if
      it had one. */
  lemma SplitExactly(t: Tail)
    requires t.Valid()
    ensures Split(t.Text()) == (t.tag, PidOf(t.pid), t.msg) <==> t.Tagged() || !LooksTagged(t.msg)
  {
    if t.Tagged() {
      SplitReads(t);
    } else {
      TrimsSpaces(t.pad, t.msg);
      hide TrimSpace, PidColon, IsTagChar;
    }
  }

  // ----- the whole message -----

  /** gap is the space after the timestamp. */
  datatype Pieces = Pieces(pri: Bytes, stamp: Bytes, gap: Bytes, host: Bytes, tail: Tail) {
    function Text(): Bytes {
      pri + (stamp + (gap + (host + tail.Text())))
    }
  }

  lemma HostnameCuts(b: Bytes)
    requires Hostname(b).Some?
    ensures b == Hostname(b).value.0 + Hostname(b).value.1
  {
    SplitAt(b, Until(b, {SPACE}));
  }

  lemma HostPartCuts(b: Bytes) returns (gap: Bytes)
    ensures gap in {[], [SPACE]} && b == gap + (HostPart(b).0 + HostPart(b).1)
    ensures HostPart(b).0 == [] || HostLike(HostPart(b).0)
  {
    hide HostLike;
    gap := if b != [] && b[0] == SPACE then [SPACE] else [];
    var c := if b != [] && b[0] == SPACE then b[1..] else b;
    assert b == gap + c;
    if Hostname(c).Some? {
      HostnameCuts(c);
    } else {
      EmptyLeft(c);
    }
  }

  lemma TimestampFits(k: Clocks, b: Bytes)
    requires Timestamp(k, b).Some?
    ensures var (ts, n) := Timestamp(k, b).value;
            && 9 < n <= |b|
            && (k.bsd(b[..n]) == Some(ts) || k.iso(b[..n]) == Some(ts))
  {
  }

  /** Parsing is total and lossless: the input is the PRI text, the timestamp, at most
      one space, the host name, and the tail, and these are the fields returned. */
  lemma Lossless(k: Clocks, raw: Bytes) returns (p: Pieces)
    ensures raw == p.Text() && p.tail.Valid()
    ensures var out := Parsing(k, raw);
            && out.hostname == p.host && out.appName == p.tail.tag && out.processID == PidOf(p.tail.pid)
            && out.message == p.tail.msg
            && (if p.pri == [] then out.facility == out.severity == None
                else exists ds :: PriOf(p.pri, ds, out))
            && (if p.stamp == [] then out.timestamp == 0 && p.gap == p.host == []
                else k.bsd(p.stamp) == Some(out.timestamp) || k.iso(p.stamp) == Some(out.timestamp))
            && p.gap in {[], [SPACE]} && (p.host == [] || HostLike(p.host))
  {
    hide Pri, Timestamp, HostPart, Split, HostLike, Tail.Text, Tail.Valid;
    var b := if Pri(raw).Some? then Pri(raw).value.1 else raw;
    var pri := [];
    if Pri(raw).Some? {
      var ds := PriConsumes(raw);
      pri := PriText(ds);
      assert PriOf(pri, ds, Parsing(k, raw));
    } else {
      EmptyLeft(raw);
    }
    var ts := Timestamp(k, b);
    if ts.Some? {
      TimestampFits(k, b);
      var n := ts.value.1;
      SplitAt(b, n);
      var gap := HostPartCuts(b[n..]);
      var tail := SplitCuts(HostPart(b[n..]).1);
      p := Pieces(pri, b[..n], gap, HostPart(b[n..]).0, tail);
    } else {
      var tail := SplitCuts(b);
      EmptyLeft(b);
      p := Pieces(pri, [], [], [], tail);
    }
  }

  /** The PRI text spells the facility and severity. */
  predicate PriOf(pri: Bytes, ds: Bytes, out: Parsed) {
    && AllDigits(ds) && 1 <= |ds| <= 3 && pri == PriText(ds)
    && out.facility.Some? && out.severity.Some? && out.severity.value < 8
    && Value(ds) == out.facility.value * 8 + out.severity.value <= MAX_PRI
  }

  /** A stamp in the BSD form, of fixed length. */
  predicate BsdStamp(k: Clocks, stamp: Bytes) {
    |stamp| == STAMP_LEN && k.bsd(stamp).Some?
  }

  /** A stamp in the ISO form in front of rest: the BSD form is tried first. */
  predicate IsoStamp(k: Clocks, stamp: Bytes, rest: Bytes) {
    && 9 < |stamp| <= 35 && Clean(stamp, {SPACE}) && k.iso(stamp).Some?
    && (|stamp + rest| >= STAMP_LEN ==> k.bsd((stamp + rest)[..STAMP_LEN]).None?)
  }

  function PutPri(pri: Option<Bytes>): Bytes {
    if pri.Some? then PriText(pri.value) else []
  }

  /** Conversely, header and tail are read back: with or without a PRI, a stamp in either
      form, with or without a host, and every tail the split can recover. */
  lemma RoundTrip(k: Clocks, pri: Option<Bytes>, stamp: Bytes, host: Bytes, t: Tail)
    requires pri.Some? ==> AllDigits(pri.value) && 1 <= |pri.value| <= 3 && Value(pri.value) <= MAX_PRI
    requires pri.None? ==> stamp != [] && stamp[0] != LT
    requires BsdStamp(k, stamp) || IsoStamp(k, stamp, [SPACE] + (host + t.Text()))
    requires (host == [] || HostLike(host)) && t.Valid() && t.pad != [] && (t.Tagged() || !LooksTagged(t.msg))
    ensures var raw := Pieces(PutPri(pri), stamp, [SPACE], host, t).Text();
            var ts := if BsdStamp(k, stamp) then k.bsd(stamp).value else k.iso(stamp).value;
            Parsing(k, raw) == Parsed(FormatRfc3164, ts, host, t.tag, PidOf(t.pid), [],
                                      if pri.Some? then Some(Value(pri.value) / 8) else None,
                                      if pri.Some? then Some(Value(pri.value) % 8) else None, t.msg, map[], raw)
  {
    var body := host + t.Text();
    var b := stamp + ([SPACE] + body);
    assert stamp != [] ==> b[0] == stamp[0];
    PriPart(pri, b);
    StampReads(k, stamp, body);
    HostReads(host, t);
    SplitExactly(t);
    hide Pri, Timestamp, HostPart, Split, HostLike, Tail.Text, Tail.Valid, BsdStamp, IsoStamp, PutPri, LooksTagged;
  }

  lemma PriPart(pri: Option<Bytes>, b: Bytes)
    requires pri.Some? ==> AllDigits(pri.value) && 1 <= |pri.value| <= 3 && Value(pri.value) <= MAX_PRI
    requires pri.None? ==> b != [] && b[0] != LT
    ensures Pri(PutPri(pri) + b) == if pri.Some? then Some((Value(pri.value), b)) else None
    ensures pri.None? ==> PutPri(pri) + b == b
  {
    if pri.Some? {
      PriReads(pri.value, b);
      hide Pri;
    } else {
      EmptyLeft(b);
    }
  }

  lemma StampReads(k: Clocks, stamp: Bytes, body: Bytes)
    requires BsdStamp(k, stamp) || IsoStamp(k, stamp, [SPACE] + body)
    ensures var b := stamp + ([SPACE] + body);
            var ts := if BsdStamp(k, stamp) then k.bsd(stamp).value else k.iso(stamp).value;
            Timestamp(k, b) == Some((ts, |stamp|)) && b[|stamp|..] == [SPACE] + body
  {
    var rest := [SPACE] + body;
    CutFront(stamp, rest, |stamp|);
    EmptyLeft(rest);
    assert stamp[..|stamp|] == stamp && stamp[|stamp|..] == [];
    if !BsdStamp(k, stamp) {
      UntilSplit(stamp, rest, {SPACE});
    }
  }

  lemma HostReads(host: Bytes, t: Tail)
    requires (host == [] || HostLike(host)) && t.Valid() && t.pad != []
    ensures HostPart([SPACE] + (host + t.Text())) == (host, t.Text())
  {
    var c := host + t.Text();
    CutFront([SPACE], c, 1);
    EmptyLeft(c);
    assert t.Text()[0] == t.pad[0] == SPACE;
    UntilSplit(host, t.Text(), {SPACE});
  }
}
