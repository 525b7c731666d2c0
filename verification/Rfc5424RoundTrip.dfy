/** A printer for RFC 5424 messages and what the parser makes of it: every record that
    can be printed is read back, and every accepted message can be printed again.
    Each Put function prints its item in front of the text that follows it. */
module Rfc5424RoundTrip {
  import opened Common
  import opened Decimal
  import opened Syslog
  import opened Rfc5424

  datatype Element = Element(id: Bytes, params: seq<(Bytes, Bytes)>) {
    predicate Valid() {
      Clean(id, ID_STOPS) && ValidParams(params)
    }
  }

  predicate ValidParams(ps: seq<(Bytes, Bytes)>) {
    forall k :: 0 <= k < |ps| ==> Clean(ps[k].0, NAME_STOPS)
  }

  /** bom asks for a byte order mark in front of the message. */
  datatype Record = Record(
    pri: nat, version: Bytes, stamp: Bytes, host: Bytes, app: Bytes, proc: Bytes, id: Bytes,
    data: seq<Element>, message: Option<Bytes>, bom: bool)
  {
    predicate Valid() {
      && pri <= MAX_PRI && 1 <= |version| <= 3 && AllDigits(version)
      && Clean(stamp, {SPACE}) && Clean(host, {SPACE}) && Clean(app, {SPACE})
      && Clean(proc, {SPACE}) && Clean(id, {SPACE})
      && forall k :: 0 <= k < |data| ==> data[k].Valid()
    }
  }

  // ----- the printer -----

  function Word(t: Bytes): Bytes {
    if t == [] then [DASH] else t
  }

  function PutToken(t: Bytes, rest: Bytes): Bytes {
    Word(t) + ([SPACE] + rest)
  }

  /** A value and its closing quote, with ", \ and ] escaped (section 6.3.3). */
  function PutValue(v: Bytes, rest: Bytes): Bytes {
    if v == [] then [QUOTE] + rest
    else if v[0] == 34 || v[0] == 92 || v[0] == 93 then [92, v[0]] + PutValue(v[1..], rest)
    else [v[0]] + PutValue(v[1..], rest)
  }

  function PutParam(name: Bytes, value: Bytes, rest: Bytes): Bytes {
    name + ([EQUALS, QUOTE] + PutValue(value, rest))
  }

  function PutParams(ps: seq<(Bytes, Bytes)>, rest: Bytes): Bytes {
    if ps == [] then rest else [SPACE] + PutParam(ps[0].0, ps[0].1, PutParams(ps[1..], rest))
  }

  function PutElements(es: seq<Element>, rest: Bytes): Bytes {
    if es == [] then rest
    else [OPEN] + (es[0].id + PutParams(es[0].params, [CLOSE] + PutElements(es[1..], rest)))
  }

  function PutData(es: seq<Element>, rest: Bytes): Bytes {
    if es == [] then [DASH] + rest else PutElements(es, rest)
  }

  predicate StartsWithBom(m: Bytes) {
    |m| >= 3 && m[..3] == BOM
  }

  /** A message that starts with a byte order mark of its own gets another. */
  function PutMessage(m: Option<Bytes>, bom: bool): Bytes {
    match m
    case None => []
    case Some(m) => [SPACE] + if bom || StartsWithBom(m) then BOM + m else m
  }

  function Print(r: Record): Bytes
    requires r.pri <= MAX_PRI
  {
    var body := PutData(r.data, PutMessage(r.message, r.bom));
    var header := PutToken(r.host, PutToken(r.app, PutToken(r.proc, PutToken(r.id, body))));
    PriText(Itoa(r.pri)) + (r.version + ([SPACE] + PutToken(r.stamp, header)))
  }

  // ----- what the fields come to -----

  function Fold(ps: seq<(Bytes, Bytes)>, fields: Fields): Fields {
    if ps == [] then fields else Fold(ps[1..], fields[ps[0].0 := ps[0].1])
  }

  function FoldAll(es: seq<Element>, fields: Fields): Fields {
    if es == [] then fields else FoldAll(es[1..], Fold(es[0].params, fields))
  }

  function AllParams(es: seq<Element>): seq<(Bytes, Bytes)> {
    if es == [] then [] else es[0].params + AllParams(es[1..])
  }

  predicate LastAt(ps: seq<(Bytes, Bytes)>, j: nat) {
    j < |ps| && forall k :: j < k < |ps| ==> ps[k].0 != ps[j].0
  }

  lemma {:induction false} FoldMeans(ps: seq<(Bytes, Bytes)>, fields: Fields)
    ensures forall j: nat :: LastAt(ps, j) ==> ps[j].0 in Fold(ps, fields) && Fold(ps, fields)[ps[j].0] == ps[j].1
    ensures forall n :: (forall k :: 0 <= k < |ps| ==> ps[k].0 != n) ==>
              (n in Fold(ps, fields) <==> n in fields) && (n in fields ==> Fold(ps, fields)[n] == fields[n])
  {
    if ps == [] {
    } else {
      var tail, more := ps[1..], fields[ps[0].0 := ps[0].1];
      FoldMeans(tail, more);
      assert Fold(ps, fields) == Fold(tail, more);
      hide Fold;
      forall j: nat | LastAt(ps, j)
        ensures ps[j].0 in Fold(ps, fields) && Fold(ps, fields)[ps[j].0] == ps[j].1
      {
        if j > 0 {
          assert LastAt(tail, j - 1) && tail[j - 1] == ps[j];
        } else {
          assert forall k :: 0 <= k < |tail| ==> tail[k].0 == ps[k + 1].0;
        }
      }
      forall n | forall k :: 0 <= k < |ps| ==> ps[k].0 != n
        ensures (n in Fold(ps, fields) <==> n in fields) && (n in fields ==> Fold(ps, fields)[n] == fields[n])
      {
        assert forall k :: 0 <= k < |tail| ==> tail[k].0 == ps[k + 1].0;
      }
    }
  }

  lemma {:induction false} FoldAppend(a: seq<(Bytes, Bytes)>, b: seq<(Bytes, Bytes)>, fields: Fields)
    ensures Fold(a + b, fields) == Fold(b, Fold(a, fields))
  {
    if a == [] {
      assert a + b == b;
    } else {
      FoldAppend(a[1..], b, fields[a[0].0 := a[0].1]);
      assert (a + b)[1..] == a[1..] + b;
    }
  }

  lemma {:induction false} FoldAllIsFold(es: seq<Element>, fields: Fields)
    ensures FoldAll(es, fields) == Fold(AllParams(es), fields)
  {
    if es == [] {
    } else {
      FoldAllIsFold(es[1..], Fold(es[0].params, fields));
      FoldAppend(es[0].params, AllParams(es[1..]), fields);
    }
  }

  // ----- reading what was printed -----

  lemma TokenReads(t: Bytes, rest: Bytes)
    requires Clean(t, {SPACE})
    ensures Token(PutToken(t, rest)) == Ok((Word(t), rest))
  {
    var w, s := Word(t), [SPACE] + rest;
    UntilSplit(w, s, {SPACE});
    CutBack(w, s, 1);
    CutFront([SPACE], rest, 1);
    EmptyLeft(rest);
  }

  lemma {:induction false} ValueReads(v: Bytes, rest: Bytes)
    ensures ParamValue(PutValue(v, rest)) == Some((v, rest))
  {
    var b := PutValue(v, rest);
    if v == [] {
      CutFront([QUOTE], rest, 1);
      EmptyLeft(rest);
      assert b[1..] == rest;
    } else {
      var t := PutValue(v[1..], rest);
      ValueReads(v[1..], rest);
      assert [v[0]] + v[1..] == v;
      if v[0] == 34 || v[0] == 92 || v[0] == 93 {
        assert b[2..] == t;
      } else {
        assert b[1..] == t;
      }
    }
  }

  lemma ParamReads(name: Bytes, value: Bytes, rest: Bytes)
    requires Clean(name, NAME_STOPS)
    ensures Param(PutParam(name, value, rest)) == Ok(((name, value), rest))
  {
    hide ParamValue, PutValue;
    var v := PutValue(value, rest);
    var s := [EQUALS, QUOTE] + v;
    UntilSplit(name, s, NAME_STOPS);
    CutBack(name, s, 1);
    assert s[1..] == [QUOTE] + v && s[1..][1..] == v;
    ValueReads(value, rest);
  }

  lemma ParamsAt(b: Bytes, fields: Fields)
    ensures Params([SPACE] + b, fields) ==
            var r := Param(b);
            if r.Err? then Err(r.error) else Params(r.value.1, fields[r.value.0.0 := r.value.0.1])
  {
    CutFront([SPACE], b, 1);
    EmptyLeft(b);
    ParamShorter(b);
  }

  lemma {:induction false} ParamsRead(ps: seq<(Bytes, Bytes)>, rest: Bytes, fields: Fields)
    requires ValidParams(ps) && rest != [] && rest[0] == CLOSE
    ensures Params(PutParams(ps, rest), fields) == Ok((Fold(ps, fields), rest))
  {
    if ps == [] {
    } else {
      var tail := PutParams(ps[1..], rest);
      ParamReads(ps[0].0, ps[0].1, tail);
      ParamsAt(PutParam(ps[0].0, ps[0].1, tail), fields);
      ParamsRead(ps[1..], rest, fields[ps[0].0 := ps[0].1]);
    }
  }

  lemma ParamsStart(ps: seq<(Bytes, Bytes)>, rest: Bytes)
    requires rest != [] && rest[0] == CLOSE
    ensures var b := PutParams(ps, rest); b != [] && b[0] in ID_STOPS
  {
  }

  lemma ElementsAt(id: Bytes, b: Bytes, fields: Fields)
    requires Clean(id, ID_STOPS) && b != [] && b[0] in ID_STOPS
    ensures Elements([OPEN] + (id + b), fields) ==
            var r := Params(b, fields);
            if r.Err? then Err(r.error)
            else if r.value.1 == [] || r.value.1[0] != CLOSE then Err(UnterminatedElement)
            else Elements(r.value.1[1..], r.value.0)
  {
    hide Params;
    CutFront([OPEN], id + b, 1);
    EmptyLeft(id + b);
    UntilSplit(id, b, ID_STOPS);
    ParamsShorter(b, fields);
  }

  lemma {:induction false} ElementsRead(es: seq<Element>, rest: Bytes, fields: Fields)
    requires (forall k :: 0 <= k < |es| ==> es[k].Valid()) && (rest == [] || rest[0] == SPACE)
    ensures Elements(PutElements(es, rest), fields) == Ok((FoldAll(es, fields), rest))
  {
    if es == [] {
    } else {
      hide Params, PutParams, Fold;
      assert es[0].Valid();
      var tail := PutElements(es[1..], rest);
      var b := PutParams(es[0].params, [CLOSE] + tail);
      ParamsStart(es[0].params, [CLOSE] + tail);
      ElementsAt(es[0].id, b, fields);
      ParamsRead(es[0].params, [CLOSE] + tail, fields);
      CutFront([CLOSE], tail, 1);
      EmptyLeft(tail);
      ElementsRead(es[1..], rest, Fold(es[0].params, fields));
    }
  }

  lemma DataReads(es: seq<Element>, rest: Bytes)
    requires (forall k :: 0 <= k < |es| ==> es[k].Valid()) && (rest == [] || rest[0] == SPACE)
    ensures StructuredData(PutData(es, rest)) == Ok((FoldAll(es, map[]), rest))
  {
    hide Elements;
    if es == [] {
      CutFront([DASH], rest, 1);
      EmptyLeft(rest);
    } else {
      ElementsRead(es, rest, map[]);
    }
  }

  function Text(m: Option<Bytes>): Bytes {
    if m.Some? then m.value else []
  }

  lemma MessageReads(m: Option<Bytes>, bom: bool)
    ensures var b := PutMessage(m, bom);
            (b == [] || b[0] == SPACE) && Message(b) == Ok(Text(m))
  {
    if m.Some? {
      var b := PutMessage(m, bom);
      if bom || StartsWithBom(m.value) {
        assert b[1..] == BOM + m.value;
        assert (BOM + m.value)[..3] == BOM && (BOM + m.value)[3..] == m.value;
      } else {
        assert b[1..] == m.value;
      }
    }
  }

  lemma VersionReads(v: Bytes, rest: Bytes)
    requires 1 <= |v| <= 3 && AllDigits(v)
    ensures Version(v + ([SPACE] + rest)) == Ok(rest)
  {
    var b := v + ([SPACE] + rest);
    DigitsAt(b, |v|);
    CutBack(v, [SPACE] + rest, 1);
    CutFront([SPACE], rest, 1);
    EmptyLeft(rest);
  }

  lemma NilOfWord(t: Bytes)
    ensures NilValue(Word(t)) == NilValue(t)
  {
  }

  lemma HeaderReads(host: Bytes, app: Bytes, proc: Bytes, id: Bytes, rest: Bytes)
    requires Clean(host, {SPACE}) && Clean(app, {SPACE}) && Clean(proc, {SPACE}) && Clean(id, {SPACE})
    ensures Header(PutToken(host, PutToken(app, PutToken(proc, PutToken(id, rest))))) ==
            Ok(((NilValue(host), NilValue(app), NilValue(proc), NilValue(id)), rest))
  {
    hide Token, NilValue, PutToken, Word;
    TokenReads(host, PutToken(app, PutToken(proc, PutToken(id, rest))));
    TokenReads(app, PutToken(proc, PutToken(id, rest)));
    TokenReads(proc, PutToken(id, rest));
    TokenReads(id, rest);
    NilOfWord(host);
    NilOfWord(app);
    NilOfWord(proc);
    NilOfWord(id);
  }

  /** The record a printed message stands for. */
  function Reading(clock: Clock, r: Record): Result<Parsed, Error>
    requires r.pri <= MAX_PRI
  {
    var ts :- Stamp(clock, Word(r.stamp));
    Ok(Parsed(FormatRfc5424, ts, NilValue(r.host), NilValue(r.app), NilValue(r.proc), NilValue(r.id),
              Some(r.pri / 8), Some(r.pri % 8), Text(r.message), Fold(AllParams(r.data), map[]), Print(r)))
  }

  /** Round trip: a printed record is read back, its priority split into facility and
      severity, "-" as empty, and the params of all its elements folded into one map
      with the last value of each name. The stamp is the only thing that can fail. */
  lemma RoundTrip(clock: Clock, r: Record)
    requires r.Valid()
    ensures Parsing(clock, Print(r)) == Reading(clock, r)
  {
    hide Pri, PriText, Version, Token, Header, StructuredData, Message, PutToken, PutData,
         PutMessage, Itoa, Stamp, FoldAll, Fold;
    var end := PutMessage(r.message, r.bom);
    MessageReads(r.message, r.bom);
    var body := PutData(r.data, end);
    DataReads(r.data, end);
    FoldAllIsFold(r.data, map[]);
    var header := PutToken(r.host, PutToken(r.app, PutToken(r.proc, PutToken(r.id, body))));
    HeaderReads(r.host, r.app, r.proc, r.id, body);
    TokenReads(r.stamp, header);
    VersionReads(r.version, PutToken(r.stamp, header));
    ItoaFits(r.pri);
    PriReads(Itoa(r.pri), r.version + ([SPACE] + PutToken(r.stamp, header)));
  }

  lemma ItoaFits(pri: nat)
    requires pri <= MAX_PRI
    ensures AllDigits(Itoa(pri)) && 1 <= |Itoa(pri)| <= 3 && Value(Itoa(pri)) == pri
  {
  }

  // ----- printing what was read -----

  lemma TokenCleans(b: Bytes)
    ensures Token(b).Ok? ==> Clean(Token(b).value.0, {SPACE}) && Token(b).value.0 != []
  {
    UntilCuts(b, {SPACE});
  }

  /** NilValue never yields "-", so printing and reading its result gives it back. */
  lemma NilSettles(t: Bytes)
    ensures NilValue(NilValue(t)) == NilValue(t) && (Clean(t, {SPACE}) ==> Clean(NilValue(t), {SPACE}))
  {
  }

  predicate CleanNames(fields: Fields) {
    forall n :: n in fields ==> Clean(n, NAME_STOPS)
  }

  lemma ParamCleans(b: Bytes)
    ensures Param(b).Ok? ==> Clean(Param(b).value.0.0, NAME_STOPS)
  {
    UntilCuts(b, NAME_STOPS);
  }

  lemma {:induction false} ParamsClean(b: Bytes, fields: Fields)
    requires CleanNames(fields)
    ensures Params(b, fields).Ok? ==> CleanNames(Params(b, fields).value.0)
    decreases |b|
  {
    if b == [] || b[0] != SPACE || Param(b[1..]).Err? {
    } else {
      var ((name, value), rest) := Param(b[1..]).value;
      ParamShorter(b[1..]);
      ParamCleans(b[1..]);
      ParamsClean(rest, fields[name := value]);
    }
  }

  lemma {:induction false} ElementsClean(b: Bytes, fields: Fields)
    requires CleanNames(fields)
    ensures Elements(b, fields).Ok? ==> CleanNames(Elements(b, fields).value.0)
    decreases |b|
  {
    if b == [] || b[0] != OPEN || Elements(b, fields).Err? {
    } else {
      var n := 1 + Until(b[1..], ID_STOPS);
      assert b[0..] == b && b[1..][n - 1..] == b[n..];
      ElementsStep(b, 0, n, fields);
      ParamsClean(b[n..], fields);
      ParamsShorter(b[n..], fields);
      var (more, rest) := Params(b[n..], fields).value;
      ElementsClean(rest[1..], more);
    }
  }

  lemma DataClean(b: Bytes)
    ensures StructuredData(b).Ok? ==> CleanNames(StructuredData(b).value.0)
  {
    ElementsClean(b, map[]);
  }

  predicate CleanTokens(p: Parsed) {
    && Clean(p.hostname, {SPACE}) && Clean(p.appName, {SPACE})
    && Clean(p.processID, {SPACE}) && Clean(p.messageID, {SPACE})
    && NilValue(p.hostname) == p.hostname && NilValue(p.appName) == p.appName
    && NilValue(p.processID) == p.processID && NilValue(p.messageID) == p.messageID
  }

  lemma HeaderCleans(b: Bytes)
    ensures Header(b).Ok? ==>
              var ((host, app, proc, id), rest) := Header(b).value;
              forall t :: t in {host, app, proc, id} ==> Clean(t, {SPACE}) && NilValue(t) == t
  {
    if Header(b).Ok? {
      var (t1, b1) := Token(b).value;
      var (t2, b2) := Token(b1).value;
      var (t3, b3) := Token(b2).value;
      var (t4, b4) := Token(b3).value;
      TokenCleans(b);
      TokenCleans(b1);
      TokenCleans(b2);
      TokenCleans(b3);
      NilSettles(t1);
      NilSettles(t2);
      NilSettles(t3);
      NilSettles(t4);
    }
  }

  /** What an accepted message looks like, and the token its timestamp came from. */
  lemma Accepted(clock: Clock, raw: Bytes) returns (stamp: Bytes)
    requires Parsing(clock, raw).Ok?
    ensures var p := Parsing(clock, raw).value;
            && Printable(p, stamp) && p.format == FormatRfc5424 && Stamp(clock, Word(stamp)) == Ok(p.timestamp)
  {
    hide Version, Header, StructuredData, Token, Message, NilValue;
    var b1 := Version(Pri(raw).value.1).value;
    var (tok, b2) := Token(b1).value;
    var b3 := Header(b2).value.1;
    TokenCleans(b1);
    HeaderCleans(b2);
    DataClean(b3);
    stamp := tok;
  }

  /** The fields as params, in some order. */
  ghost function Pairs(fields: Fields): seq<(Bytes, Bytes)> {
    if fields == map[] then []
    else
      var n :| n in fields;
      [(n, fields[n])] + Pairs(fields - {n})
  }

  lemma PairsStep(fields: Fields) returns (n: Bytes)
    requires fields != map[]
    ensures n in fields && |fields - {n}| < |fields|
    ensures Pairs(fields) == [(n, fields[n])] + Pairs(fields - {n})
    ensures Pairs(fields)[1..] == Pairs(fields - {n})
  {
    n := Pairs(fields)[0].0;
    assert (fields - {n}).Keys == fields.Keys - {n};
  }

  lemma FoldStep(p: (Bytes, Bytes), ps: seq<(Bytes, Bytes)>, onto: Fields)
    ensures Fold([p] + ps, onto) == Fold(ps, onto[p.0 := p.1])
  {
    CutFront([p], ps, 1);
    EmptyLeft(ps);
  }

  lemma MoveOne(fields: Fields, onto: Fields, n: Bytes)
    requires n in fields
    ensures onto[n := fields[n]] + (fields - {n}) == onto + fields
  {
  }

  lemma {:induction false} PairsFold(fields: Fields, onto: Fields)
    ensures Fold(Pairs(fields), onto) == onto + fields
    decreases |fields|
  {
    if fields == map[] {
      assert onto + fields == onto;
    } else {
      var n := PairsStep(fields);
      hide Pairs, Fold;
      FoldStep((n, fields[n]), Pairs(fields - {n}), onto);
      PairsFold(fields - {n}, onto[n := fields[n]]);
      MoveOne(fields, onto, n);
    }
  }

  lemma {:induction false} PairsClean(fields: Fields)
    requires CleanNames(fields)
    ensures ValidParams(Pairs(fields))
    decreases |fields|
  {
    if fields == map[] {
    } else {
      var n := PairsStep(fields);
      hide Pairs, Clean;
      PairsClean(fields - {n});
    }
  }

  /** An accepted message printed again, with its fields in one element. */
  ghost function Reprint(p: Parsed, stamp: Bytes): Record
    requires p.facility.Some? && p.severity.Some?
  {
    Record(p.facility.value * 8 + p.severity.value, [49], stamp, p.hostname, p.appName, p.processID, p.messageID,
           if p.fields == map[] then [] else [Element([120], Pairs(p.fields))], Some(p.message), false)
  }

  /** Stability: every accepted message, whatever escapes, elements and duplicates it
      was written with, is accepted again after printing and means the same. */
  lemma Stable(clock: Clock, raw: Bytes) returns (stamp: Bytes)
    requires Parsing(clock, raw).Ok?
    ensures var p := Parsing(clock, raw).value;
            && p.facility.Some? && p.severity.Some?
            && var r := Reprint(p, stamp);
            && r.Valid()
            && Parsing(clock, Print(r)) == Ok(p.(raw := Print(r)))
  {
    hide Parsing, Reprint, Record.Valid, Print, CleanTokens, CleanNames;
    stamp := Accepted(clock, raw);
    var p := Parsing(clock, raw).value;
    ReprintValid(p, stamp);
    RoundTrip(clock, Reprint(p, stamp));
    ReprintReads(clock, p, stamp);
  }

  predicate Printable(p: Parsed, stamp: Bytes) {
    && p.facility.Some? && p.severity.Some? && p.severity.value < 8
    && p.facility.value * 8 + p.severity.value <= MAX_PRI
    && CleanTokens(p) && CleanNames(p.fields) && Clean(stamp, {SPACE})
  }

  lemma ReprintValid(p: Parsed, stamp: Bytes)
    requires Printable(p, stamp)
    ensures Reprint(p, stamp).Valid() && Reprint(p, stamp).pri <= MAX_PRI
  {
    hide Pairs, CleanNames;
    PairsClean(p.fields);
    hide ValidParams;
  }

  lemma ReprintReads(clock: Clock, p: Parsed, stamp: Bytes)
    requires Printable(p, stamp) && p.format == FormatRfc5424 && Stamp(clock, Word(stamp)) == Ok(p.timestamp)
    requires Reprint(p, stamp).pri <= MAX_PRI
    ensures Reading(clock, Reprint(p, stamp)) == Ok(p.(raw := Print(Reprint(p, stamp))))
  {
    ReprintFields(p, stamp);
    hide Pairs, CleanNames, Clean, Stamp, Fold, AllParams, Print, NilValue;
  }

  lemma ReprintFields(p: Parsed, stamp: Bytes)
    requires p.facility.Some? && p.severity.Some?
    ensures Fold(AllParams(Reprint(p, stamp).data), map[]) == p.fields
  {
    PairsFold(p.fields, map[]);
    assert map[] + p.fields == p.fields;
    if p.fields != map[] {
      hide Pairs;
      var e := Element([120], Pairs(p.fields));
      assert AllParams([e]) == e.params + [];
      assert e.params + [] == e.params;
    }
  }
}
