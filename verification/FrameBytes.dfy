/** Frames byte by byte: what one call delivers of a line or a counted frame, with the
    bytes written out (backend/internal/ingestion/frame.go). */
module FrameBytes {
  import opened Common
  import opened Decimal
  import opened Frame
  import opened FrameTheorems
  import opened FrameMixed

  /** The text of a line: no LF, no NUL, and not up to ten digits followed by a space. */
  predicate LineText(t: Bytes) {
    && (forall i :: 0 <= i < |t| ==> t[i] != 10 && t[i] != 0)
    && forall n :: 1 <= n <= 10 && n < |t| && (forall i :: 0 <= i < n ==> 48 <= t[i] <= 57) ==> t[n] != 32
  }

  lemma LineTextIsLine(t: Bytes, e: byte)
    requires LineText(t) && (e == 10 || e == 0)
    ensures Line(t, e).Valid()
  {
    var s := t + [e];
    var d := Digits(s);
    assert forall i :: 0 <= i < |t| ==> s[i] == t[i];
    assert d <= |t| by { assert s[|t|] == e; }
    if LooksCounted(s) {
      assert s[d] == 32 && d < |t|;
      assert forall i :: 0 <= i < d ==> 48 <= t[i] <= 57;
      assert false;
    }
  }

  lemma CallOn(c: Config, t: Bytes, e: byte, rest: Bytes)
    requires c.Valid() && LineText(t) && (e == 10 || e == 0)
    ensures var w := (t + [e]) + rest;
            && Read(c, State([], false, w)).0 == FrameOutcome(c, t, FirstLen(c, 0, w))
            && Read(c, State([], false, w)).1.pending + Read(c, State([], false, w)).1.stream == rest
  {
    hide Read, LineText, FirstLen, FrameOutcome, After;
    var w := (t + [e]) + rest;
    LineTextIsLine(t, e);
    LineTurn(c, 0, t, e, rest);
    EmptyWhole(w, 0);
    SplitAt(rest, After(c, 0, w));
  }

  /** A line that does not end in CR is delivered as it is, by an LF or a NUL, and refused
      exactly if it is longer than the limit. */
  lemma PlainLine(c: Config, t: Bytes, e: byte, rest: Bytes)
    requires c.Valid() && LineText(t) && (e == 10 || e == 0) && (t != [] ==> t[|t| - 1] != 13)
    ensures var (o, r) := Read(c, State([], false, (t + [e]) + rest));
            && o == (if |t| <= c.max then Msg(t) else Oversized)
            && r.pending + r.stream == rest
  {
    CallOn(c, t, e, rest);
    hide Read, LineText, FirstLen, Lands;
  }

  /** One CR in front of the delimiter is removed, and only one. */
  lemma CrLine(c: Config, t: Bytes, e: byte, rest: Bytes)
    requires c.Valid() && LineText(t + [13]) && (e == 10 || e == 0) && |t| + 1 <= c.max
    ensures var (o, r) := Read(c, State([], false, ((t + [13]) + [e]) + rest));
            o == Msg(t) && r.pending + r.stream == rest
  {
    CallOn(c, t + [13], e, rest);
    hide Read, LineText, FirstLen, Lands;
    assert (t + [13])[..|t|] == t;
  }

  lemma SecondCrStays(c: Config, t: Bytes, rest: Bytes)
    requires c.Valid() && LineText(t + [13] + [13]) && |t| + 2 <= c.max
    ensures Read(c, State([], false, ((t + [13] + [13]) + [10]) + rest)).0 == Msg(t + [13])
  {
    CrLine(c, t + [13], 10, rest);
  }

  /** A line over the limit by more than its CR is refused; what follows is kept. */
  lemma LongLine(c: Config, t: Bytes, e: byte, rest: Bytes)
    requires c.Valid() && LineText(t) && (e == 10 || e == 0) && |t| > c.max + 1
    ensures var (o, r) := Read(c, State([], false, (t + [e]) + rest));
            o == Oversized && r.pending + r.stream == rest
  {
    CallOn(c, t, e, rest);
    hide Read, LineText, FirstLen, Lands;
  }

  /** The number that digits spell, most significant first. */
  lemma {:induction false} NumberIs(ds: Bytes, d: byte)
    requires (forall i :: 0 <= i < |ds| ==> 48 <= ds[i] <= 57) && 48 <= d <= 57
    ensures Value([]) == 0 && Value([d]) == d as int - 48
    ensures Value(ds + [d]) == 10 * Value(ds) + (d as int - 48)
  {
    assert (ds + [d])[..|ds|] == ds && [d][..0] == [];
    assert Value([]) == 0;
  }

  /** One to ten digits and a space announce a payload of that many bytes, whatever they
      are: delivered, or skipped if there are more than the limit. */
  lemma CountedBytes(c: Config, ds: Bytes, p: Bytes, rest: Bytes)
    requires c.Valid() && 1 <= |ds| <= 10 && (forall i :: 0 <= i < |ds| ==> 48 <= ds[i] <= 57) && Value(ds) == |p|
    ensures Read(c, State([], false, (ds + ([32] + p)) + rest)) ==
            (if |p| > c.max then Oversized else Msg(p), State([], false, rest))
  {
    hide Read, Value;
    EmptyWhole((ds + ([32] + p)) + rest, 0);
    CountedTurn(c, ds, p, rest);
  }

  /** A stream that ends inside an announced payload ends the connection: with the error
      it ended with, or unexpectedly if it was closed after the first payload byte. */
  lemma CutOff(c: Config, ds: Bytes, p: Bytes)
    requires c.Valid() && 1 <= |ds| <= 10 && (forall i :: 0 <= i < |ds| ==> 48 <= ds[i] <= 57) && |p| < Value(ds)
    ensures Read(c, State([], false, ds + ([32] + p))).0 ==
            Fatal(if Value(ds) <= c.max && p != [] && c.fate == Eof then UnexpectedEof else c.fate)
  {
    hide Read, Value;
    NextCounted(c, ds, p);
  }

  /** Bytes without a delimiter are never delivered as a line. */
  lemma NoDelimiter(c: Config, t: Bytes)
    requires c.Valid() && LineText(t) && (t == [] || !(48 <= t[0] <= 57))
    ensures Read(c, State([], false, t)) == (Fatal(c.fate), State([], false, []))
  {
    assert forall i :: 0 <= i < |t| ==> !IsDelim(t[i]);
    DelimIs(t, |t|);
    hide Read, DelimAt;
    EmptyLeft(t);
    ReadBuffered(c, State([], false, t));
  }
}
