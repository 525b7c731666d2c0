/** Syslog messages byte by byte: what the parsers and detection make of them, with the
    bytes written out (backend/internal/parser). */
module SyslogBytes {
  import opened Common
  import opened Decimal
  import opened Syslog
  import Rfc5424
  import Rfc5424Language
  import Rfc5424RoundTrip
  import Rfc3164
  import Detect

  predicate Decimals(ds: Bytes) {
    forall i :: 0 <= i < |ds| ==> 48 <= ds[i] <= 57
  }

  /** "<", one to three digits of value at most 191, ">". */
  lemma PriBytes(ds: Bytes, rest: Bytes)
    requires Decimals(ds)
    ensures Pri(([60] + ds + [62]) + rest) ==
            if 1 <= |ds| <= 3 && Value(ds) <= 191 then Some((Value(ds), rest)) else None
  {
    PriReads(ds, rest);
  }

  /** Without "<" and digits up to ">" there is no priority. */
  lemma NoPriBytes(b: Bytes)
    ensures b == [] || b[0] != 60 ==> Pri(b) == None
    ensures |b| >= 2 && !(48 <= b[1] <= 57) ==> Pri(b) == None
  {
    assert |b| >= 2 ==> b[1..][0] == b[1];
  }

  // ----- RFC 5424 -----

  /** In a value, a backslash before a quote, a backslash or a closing bracket stands for
      that byte; before any other byte it stands for itself. */
  lemma EscapeBytes(c: byte, b: Bytes)
    ensures var one := Rfc5424.ParamValue([92, c] + b);
            if c == 34 || c == 92 || c == 93
            then one == (if Rfc5424.ParamValue(b).Some?
                         then Some(([c] + Rfc5424.ParamValue(b).value.0, Rfc5424.ParamValue(b).value.1)) else None)
            else var r := Rfc5424.ParamValue([c] + b);
                 one == if r.Some? then Some(([92] + r.value.0, r.value.1)) else None
  {
    var s := [92, c] + b;
    assert s[2..] == b && s[1..] == [c] + b;
  }

  /** Any other byte stands for itself, and a quote ends the value. */
  lemma PlainBytes(c: byte, b: Bytes)
    requires c != 92
    ensures Rfc5424.ParamValue([34] + b) == Some(([], b)) && Rfc5424.ParamValue([]) == None
    ensures c != 34 ==> var r := Rfc5424.ParamValue(b);
                        Rfc5424.ParamValue([c] + b) == if r.Some? then Some(([c] + r.value.0, r.value.1)) else None
  {
    CutFront([c], b, 1);
    CutFront([34], b, 1);
    EmptyLeft(b);
    assert ([34] + b)[1..] == b && ([c] + b)[1..] == b;
  }

  predicate Field(t: Bytes) {
    t != [] && forall i :: 0 <= i < |t| ==> t[i] != 32
  }

  function Said(t: Bytes): Bytes {
    if t == [45] then [] else t
  }

  function Marked(msg: Bytes): Bytes {
    if |msg| >= 3 && msg[0] == 0xEF && msg[1] == 0xBB && msg[2] == 0xBF then msg[3..] else msg
  }

  lemma FieldIsToken(t: Bytes)
    requires Field(t)
    ensures Rfc5424Language.IsToken(t) && Rfc5424.NilValue(t) == Said(t)
  {
  }

  lemma MarkIs(msg: Bytes)
    ensures Rfc5424.TrimBom(msg) == Marked(msg)
  {
    assert |msg| >= 3 ==> msg[..3] == [msg[0], msg[1], msg[2]];
  }

  /** "<PRI>VERSION STAMP HOST APP PROC ID - MESSAGE": no structured data. */
  lemma PlainMessage(clock: Rfc5424.Clock, ds: Bytes, v: Bytes, stamp: Bytes, host: Bytes, app: Bytes, proc: Bytes,
        id: Bytes, msg: Bytes)
    requires Decimals(ds) && 1 <= |ds| <= 3 && Value(ds) <= 191 && Decimals(v) && 1 <= |v| <= 3
    requires Field(stamp) && Field(host) && Field(app) && Field(proc) && Field(id)
    ensures var raw := ([60] + ds + [62]) + (v + ([32] + (stamp + ([32] + (host + ([32] + (app + ([32] +
                       (proc + ([32] + (id + ([32] + ([45] + ([32] + msg))))))))))))));
            Rfc5424.Parsing(clock, raw) ==
            if stamp != [45] && clock(stamp).None? then Err(Rfc5424.InvalidTimestamp)
            else Ok(Parsed(FormatRfc5424, if stamp == [45] then 0 else clock(stamp).value,
                           Said(host), Said(app), Said(proc), Said(id),
                           Some(Value(ds) / 8), Some(Value(ds) % 8), Marked(msg), map[], raw))
  {
    hide Value;
    FieldIsToken(stamp);
    FieldIsToken(host);
    FieldIsToken(app);
    FieldIsToken(proc);
    FieldIsToken(id);
    MarkIs(msg);
    hide Rfc5424Language.IsToken, Rfc5424.NilValue, Rfc5424.TrimBom, Rfc5424.Parsing, Said, Marked, Decimals, Field;
    var s := Rfc5424Language.Sentence(ds, v, stamp, host, app, proc, id, None, Some(msg));
    AllDigitsAre(ds);
    AllDigitsAre(v);
    Rfc5424Language.SentenceReads(clock, s);
  }

  lemma AllDigitsAre(ds: Bytes)
    ensures AllDigits(ds) == Decimals(ds)
  {
  }

  /** The same with one element of one param, whose value needs no escape. */
  lemma DataMessage(clock: Rfc5424.Clock, ds: Bytes, v: Bytes, stamp: Bytes, host: Bytes, app: Bytes, proc: Bytes,
        id: Bytes, sd: Bytes, name: Bytes, x: Bytes, msg: Bytes)
    requires Decimals(ds) && 1 <= |ds| <= 3 && Value(ds) <= 191 && Decimals(v) && 1 <= |v| <= 3
    requires Field(stamp) && Field(host) && Field(app) && Field(proc) && Field(id)
    requires forall i :: 0 <= i < |sd| ==> sd[i] != 32 && sd[i] != 93
    requires forall i :: 0 <= i < |name| ==> name[i] != 32 && name[i] != 93 && name[i] != 61
    requires forall i :: 0 <= i < |x| ==> x[i] != 34 && x[i] != 92
    ensures var raw := ([60] + ds + [62]) + (v + ([32] + (stamp + ([32] + (host + ([32] + (app + ([32] +
                       (proc + ([32] + (id + ([32] + ([91] + (sd + ([32] + (name + ([61, 34] + (x + ([34] +
                       ([93] + ([32] + msg)))))))))))))))))))));
            Rfc5424.Parsing(clock, raw) ==
            if stamp != [45] && clock(stamp).None? then Err(Rfc5424.InvalidTimestamp)
            else Ok(Parsed(FormatRfc5424, if stamp == [45] then 0 else clock(stamp).value,
                           Said(host), Said(app), Said(proc), Said(id),
                           Some(Value(ds) / 8), Some(Value(ds) % 8), Marked(msg), map[name := x], raw))
  {
    hide Value;
    FieldIsToken(stamp);
    FieldIsToken(host);
    FieldIsToken(app);
    FieldIsToken(proc);
    FieldIsToken(id);
    MarkIs(msg);
    PlainValue(x);
    var e := Rfc5424Language.Section(sd, [(name, x)]);
    OneElement(sd, name, x, [32] + msg);
    assert Rfc5424Language.ValidData(Some([e]));
    assert Rfc5424Language.FieldsOf(Some([e])) == map[name := x];
    var body := [91] + (sd + ([32] + (name + ([61, 34] + (x + ([34] + ([93] + ([32] + msg))))))));
    assert Rfc5424Language.PutSections(Some([e]), [32] + msg) == body;
    hide Rfc5424Language.ValidData, Rfc5424Language.FieldsOf, Rfc5424Language.PutSections;
    hide Rfc5424Language.IsToken, Rfc5424.NilValue, Rfc5424.TrimBom, Rfc5424.Parsing, Said, Marked, Decimals, Field;
    hide Rfc5424Language.PutSome, Rfc5424Language.MeantBy, Rfc5424Language.Section.Valid;
    var s := Rfc5424Language.Sentence(ds, v, stamp, host, app, proc, id, Some([e]), Some(msg));
    AllDigitsAre(ds);
    AllDigitsAre(v);
    Rfc5424Language.SentenceReads(clock, s);
  }

  lemma {:induction false} PlainValue(x: Bytes)
    requires forall i :: 0 <= i < |x| ==> x[i] != 34 && x[i] != 92
    ensures Rfc5424Language.Quotable(x) && Rfc5424Language.Unescape(x) == x
  {
    if x == [] {
    } else {
      PlainValue(x[1..]);
      assert [x[0]] + x[1..] == x;
    }
  }

  lemma OneElement(sd: Bytes, name: Bytes, x: Bytes, rest: Bytes)
    requires forall i :: 0 <= i < |sd| ==> sd[i] != 32 && sd[i] != 93
    requires forall i :: 0 <= i < |name| ==> name[i] != 32 && name[i] != 93 && name[i] != 61
    requires Rfc5424Language.Quotable(x) && Rfc5424Language.Unescape(x) == x
    ensures var e := Rfc5424Language.Section(sd, [(name, x)]);
            && e.Valid()
            && Rfc5424Language.MeantBy([e], map[]) == map[name := x]
            && Rfc5424Language.PutSome([e], rest) ==
               [91] + (sd + ([32] + (name + ([61, 34] + (x + ([34] + ([93] + rest)))))))
  {
    hide Rfc5424Language.Quotable, Rfc5424Language.Unescape;
    var e := Rfc5424Language.Section(sd, [(name, x)]);
    assert [e][1..] == [] && [(name, x)][1..] == [];
    assert Rfc5424Language.Meant([(name, x)], map[]) == map[name := x];
    assert Rfc5424Language.PutSome([], rest) == rest;
    assert Rfc5424Language.PutWritten([(name, x)], [93] + rest) ==
           [32] + (name + ([61, 34] + (x + ([34] + ([93] + rest)))));
  }

  /** An element may have no params; its id runs up to a space or a closing bracket. */
  lemma IdBytes(sd: Bytes, rest: Bytes, fields: Rfc5424.Fields)
    requires forall i :: 0 <= i < |sd| ==> sd[i] != 32 && sd[i] != 93
    ensures Rfc5424.Elements([91] + (sd + ([93] + rest)), fields) == Rfc5424.Elements(rest, fields)
  {
    Rfc5424RoundTrip.ElementsAt(sd, [93] + rest, fields);
    CutFront([93], rest, 1);
    EmptyLeft(rest);
    hide Rfc5424.Elements;
  }

  /** A param name ends at "=" only: a space or closing bracket before it is an error. */
  lemma NameBytes(n: Bytes, c: byte, rest: Bytes)
    requires forall i :: 0 <= i < |n| ==> n[i] != 32 && n[i] != 93 && n[i] != 61
    requires c == 32 || c == 93
    ensures Rfc5424.Param(n + ([c] + rest)) == Err(Rfc5424.InvalidName)
  {
    UntilSplit(n, [c] + rest, Rfc5424.NAME_STOPS);
    assert (n + ([c] + rest))[|n|] == c;
  }

  // ----- RFC 3164 -----

  /** A tag: up to 48 letters, digits, underscores, dots, slashes and dashes. */
  predicate TagBytes(t: Bytes) {
    1 <= |t| <= 48 && forall i :: 0 <= i < |t| ==>
      97 <= t[i] <= 122 || 65 <= t[i] <= 90 || 48 <= t[i] <= 57 || t[i] == 95 || t[i] == 46 || t[i] == 47 || t[i] == 45
  }

  lemma TagIs(t: Bytes)
    ensures TagBytes(t) == Rfc3164.TagLike(t)
  {
  }

  /** "TAG: message" and "TAG[PID]: message". */
  lemma TaggedBytes(t: Bytes, pid: Bytes, msg: Bytes)
    requires TagBytes(t) && pid != [] && (forall i :: 0 <= i < |pid| ==> pid[i] != 93) && (msg != [] ==> msg[0] != 32)
    ensures Rfc3164.Split(t + ([58] + ([32] + msg))) == (t, [], msg)
    ensures Rfc3164.Split(t + ([91] + (pid + ([93] + ([58] + ([32] + msg)))))) == (t, pid, msg)
  {
    TagIs(t);
    assert t != [];
    hide Rfc3164.TagLike, Rfc3164.Split, TagBytes;
    var a := Rfc3164.Tail([], t, None, [32], msg);
    var b := Rfc3164.Tail([], t, Some(pid), [32], msg);
    EmptyLeft(t + ([58] + ([32] + msg)));
    EmptyLeft(t + ([91] + (pid + ([93] + ([58] + ([32] + msg))))));
    Rfc3164.SplitReads(a);
    Rfc3164.SplitReads(b);
  }

  /** Without a tag in front of a colon or bracket, all of it is message. */
  lemma UntaggedBytes(t: Bytes, rest: Bytes)
    requires t != [] && !TagBytes(t) && forall i :: 0 <= i < |t| ==> t[i] != 58 && t[i] != 91 && t[i] != 32
    requires rest == [] || rest[0] == 58 || rest[0] == 91 || rest[0] == 32
    ensures Rfc3164.Split(t + rest) == ([], [], t + rest)
  {
    TagIs(t);
    hide Rfc3164.TagLike, TagBytes, Rfc3164.PidColon;
    UntilSplit(t, rest, Rfc3164.TAG_STOPS);
    assert Rfc3164.TrimSpace(t + rest) == t + rest;
  }

  /** A tag needs its colon, and brackets need something between them. */
  lemma NoColonBytes(t: Bytes, rest: Bytes)
    requires TagBytes(t)
    ensures Rfc3164.Split(t + ([32] + rest)) == ([], [], t + ([32] + rest))
    ensures Rfc3164.Split(t + ([91] + ([93] + rest))) == ([], [], t + ([91] + ([93] + rest)))
    ensures Rfc3164.Split(t) == ([], [], t)
  {
    TagIs(t);
    Rfc3164.TagStopsAreNoTag(t);
    EmptyPid(rest);
    hide Rfc3164.TagLike, TagBytes, Rfc3164.PidColon;
    NotSplit(t, [32] + rest);
    NotSplit(t, [91] + ([93] + rest));
    NotSplit(t, []);
    assert t + [] == t;
  }

  lemma EmptyPid(rest: Bytes)
    ensures Rfc3164.PidColon([91] + ([93] + rest)).None? && Rfc3164.PidColon([32] + rest).None?
    ensures Rfc3164.PidColon([]).None?
  {
    UntilSplit([91], [93] + rest, {CLOSE});
  }

  lemma NotSplit(t: Bytes, s: Bytes)
    requires t != [] && t[0] != 32 && Clean(t, Rfc3164.TAG_STOPS) && Rfc3164.PidColon(s).None?
    requires s == [] || s[0] == 91 || s[0] == 32
    ensures Rfc3164.Split(t + s) == ([], [], t + s)
  {
    hide Rfc3164.TagLike, Rfc3164.PidColon;
    UntilSplit(t, s, Rfc3164.TAG_STOPS);
    assert Rfc3164.TrimSpace(t + s) == t + s;
  }

  /** A host name: up to 255 bytes before a space, without a colon, and not of dashes and
      dots only. */
  lemma HostBytes(h: Bytes, rest: Bytes)
    requires forall i :: 0 <= i < |h| ==> h[i] != 32
    ensures Rfc3164.Hostname(h + ([32] + rest)) ==
            if 1 <= |h| <= 255 && (forall i :: 0 <= i < |h| ==> h[i] != 58)
               && (exists i :: 0 <= i < |h| && h[i] != 45 && h[i] != 46)
            then Some((h, [32] + rest)) else None
  {
    UntilSplit(h, [32] + rest, {SPACE});
    var b := h + ([32] + rest);
    if 1 <= |h| <= 255 && (forall i :: 0 <= i < |h| ==> h[i] != 58)
       && (exists i :: 0 <= i < |h| && h[i] != 45 && h[i] != 46) {
      var i :| 0 <= i < |h| && h[i] != 45 && h[i] != 46;
      assert h[i] !in {DASH, Rfc3164.DOT};
      assert Rfc3164.HostLike(h);
    } else {
      assert !Rfc3164.HostLike(h);
    }
    hide Rfc3164.HostLike;
  }

  /** A timestamp: the first 15 bytes in the BSD form, else 10 to 35 bytes before a space
      in the ISO form. */
  lemma StampBytes(k: Rfc3164.Clocks, b: Bytes, stamp: Bytes, rest: Bytes)
    requires b == stamp + ([32] + rest) && forall i :: 0 <= i < |stamp| ==> stamp[i] != 32
    ensures Rfc3164.Timestamp(k, b) ==
            if |b| >= 15 && k.bsd(b[..15]).Some? then Some((k.bsd(b[..15]).value, 15))
            else if 10 <= |stamp| <= 35 && k.iso(stamp).Some? then Some((k.iso(stamp).value, |stamp|))
            else None
  {
    UntilSplit(stamp, [32] + rest, {SPACE});
  }

  // ----- detection -----

  /** What every text is detected as: JSON by its brace; syslog by "<", digits and ">",
      of which RFC 5424 by one to three digits without a leading zero and a space. */
  lemma DetectBytes(raw: Bytes, ds: Bytes, v: Bytes, rest: Bytes)
    requires Decimals(ds) && Decimals(v) && (rest != [] ==> !(48 <= rest[0] <= 57))
    ensures raw == [] ==> Detect.Sniff(raw) == FormatUnknown
    ensures raw != [] && raw[0] == 123 ==> Detect.Sniff(raw) == FormatJson
    ensures raw != [] && raw[0] != 123 && raw[0] != 60 ==> Detect.Sniff(raw) == FormatUnknown
    ensures Detect.Sniff([60] + ([62] + rest)) == FormatUnknown
    ensures rest == [] || rest[0] != 62 ==> Detect.Sniff([60] + (ds + rest)) == FormatUnknown
    ensures ds != [] ==>
              Detect.Sniff([60] + (ds + ([62] + (v + rest)))) ==
              if 1 <= |v| <= 3 && v[0] != 48 && rest != [] && rest[0] == 32 then FormatRfc5424 else FormatRfc3164
  {
    hide Detect.Sniff, Decimals;
    SniffOther(raw);
    SniffSyslog([62] + rest);
    NoDigits([62] + rest);
    SniffSyslog(ds + rest);
    DigitsThen(ds, rest);
    if ds != [] {
      VersionDetected(ds, v, rest);
    }
  }

  lemma NoDigits(b: Bytes)
    ensures b != [] && b[0] == 62 ==> Digits(b) == 0
  {
  }

  lemma VersionDetected(ds: Bytes, v: Bytes, rest: Bytes)
    requires Decimals(ds) && Decimals(v) && (rest != [] ==> !(48 <= rest[0] <= 57)) && ds != []
    ensures Detect.Sniff([60] + (ds + ([62] + (v + rest)))) ==
            if 1 <= |v| <= 3 && v[0] != 48 && rest != [] && rest[0] == 32 then FormatRfc5424 else FormatRfc3164
  {
    hide Detect.Sniff, Digits, Detect.Versioned, Decimals;
    var u := v + rest;
    SniffSyslog(ds + ([62] + u));
    DigitsThen(ds, [62] + u);
    GtBehind(ds, u);
    VersionBytes(v, rest);
  }

  lemma GtBehind(ds: Bytes, u: Bytes)
    ensures var t := ds + ([62] + u);
            |ds| < |t| && t[|ds|] == 62 && t[|ds| + 1..] == u
  {
    var t := ds + ([62] + u);
    assert t[|ds| + 1..] == u;
  }

  lemma VersionBytes(v: Bytes, rest: Bytes)
    requires Decimals(v) && (rest != [] ==> !(48 <= rest[0] <= 57))
    ensures Detect.Versioned(v + rest) <==> 1 <= |v| <= 3 && v[0] != 48 && rest != [] && rest[0] == 32
  {
    hide Digits;
    var u := v + rest;
    DigitsThen(v, rest);
    assert v != [] ==> u[0] == v[0];
    assert v == [] && rest != [] ==> u[0] == rest[0];
    assert v == [] && rest == [] ==> u == [];
  }

  lemma SniffOther(raw: Bytes)
    ensures raw == [] ==> Detect.Sniff(raw) == FormatUnknown
    ensures raw != [] && raw[0] == 123 ==> Detect.Sniff(raw) == FormatJson
    ensures raw != [] && raw[0] != 123 && raw[0] != 60 ==> Detect.Sniff(raw) == FormatUnknown
  {
  }

  lemma SniffSyslog(t: Bytes)
    ensures Digits(t) <= |t|
    ensures Detect.Sniff([60] + t) ==
            var n := Digits(t);
            if n == 0 || n == |t| || t[n] != 62 then FormatUnknown
            else if Detect.Versioned(t[n + 1..]) then FormatRfc5424
            else FormatRfc3164
  {
    hide Detect.Sniff, Detect.Versioned, Digits;
    var raw := [60] + t;
    assert raw[0] == 60 && raw[1..] == t;
    SniffOf(raw);
  }

  lemma SniffOf(raw: Bytes)
    requires raw != [] && raw[0] == 60
    ensures Digits(raw[1..]) <= |raw[1..]|
    ensures Detect.Sniff(raw) ==
            var t := raw[1..];
            var n := Digits(t);
            if n == 0 || n == |t| || t[n] != 62 then FormatUnknown
            else if Detect.Versioned(t[n + 1..]) then FormatRfc5424
            else FormatRfc3164
  {
    hide Detect.Versioned;
  }

  lemma DigitsThen(ds: Bytes, rest: Bytes)
    requires Decimals(ds) && (rest != [] ==> !(48 <= rest[0] <= 57))
    ensures Digits(ds + rest) == |ds|
    ensures rest != [] ==> (ds + rest)[|ds|] == rest[0]
  {
    assert forall i :: 0 <= i < |ds| ==> (ds + rest)[i] == ds[i];
    DigitsAt(ds + rest, |ds|);
  }
}
