/** The whole of a connection, exactly: what is delivered from every stream, how far the
    reader is ahead after each frame, and which mixtures of octet-counted and delimited
    frames come back. */
module FrameMixed {
  import opened Common
  import opened Decimal
  import opened Frame
  import opened FrameTheorems

  // ----- how far a call reads ahead -----

  /** How many bytes past the delimiter at k have been buffered when it is found, if a
      bytes are buffered at a check: the reader takes slices until it has the delimiter,
      or drops what is over the limit and then skips byte by byte. */
  function Ahead(c: Config, a: nat, k: nat, w: Bytes): (n: nat)
    requires c.Valid() && a <= |w| && k < |w|
    ensures n <= |w| - k - 1
    decreases |w| - a
  {
    if a > k then a - k - 1
    else if a > c.max then 0
    else
      SliceMoves(c, w[a..]);
      Ahead(c, a + SliceLen(c, w[a..]), k, w)
  }

  lemma SliceMoves(c: Config, s: Bytes)
    requires c.Valid() && s != []
    ensures SliceLen(c, s) > 0
  {
  }

  /** How many bytes a failed probe hands back, in front of a delimiter. */
  function Probed(w: Bytes): nat {
    Min(Digits(w), MAX_DIGITS) + 1
  }

  /** The frame starts with a digit and so with a probe. */
  predicate Probes(m: nat, w: Bytes) {
    m == 0 && w != [] && IsDigit(w[0])
  }

  lemma ProbedFits(w: Bytes)
    requires DelimAt(w) < |w|
    ensures Probed(w) <= DelimAt(w) + 1 && Digits(w) <= DelimAt(w)
  {
    assert IsDelim(w[DelimAt(w)]);
  }

  /** How far ahead the call ends that splits the first frame off w, of which m bytes are
      buffered. A probe is followed by a slice before anything is checked. */
  function After(c: Config, m: nat, w: Bytes): (n: nat)
    requires c.Valid() && m <= |w| && DelimAt(w) < |w|
    ensures n <= |w| - DelimAt(w) - 1
  {
    var k := DelimAt(w);
    if Probes(m, w) then
      ProbedFits(w);
      Ahead(c, Probed(w) + SliceLen(c, w[Probed(w)..]), k, w)
    else Ahead(c, m, k, w)
  }

  /** The buffered length at the first check of that frame. */
  function FirstLen(c: Config, m: nat, w: Bytes): nat {
    if Probes(m, w) then Probed(w) + c.chunk else m
  }

  lemma {:induction false} ReadMoreAhead(c: Config, p: Bytes, s: Bytes)
    requires c.Valid() && DelimAt(p + s) < |p + s|
    ensures |p| + SliceLen(c, s) <= |p + s|
    ensures |ReadMore(c, State(p, false, s)).1.pending| == Ahead(c, |p| + SliceLen(c, s), DelimAt(p + s), p + s)
    decreases |s|, |p|, 0
  {
    hide Read, ReadMore, DelimAt, SliceLen, SliceEnds;
    var n := SliceLen(c, s);
    ReadMoreStep(c, State(p, false, s));
    SliceKeeps(c, p, s);
    if !SliceEnds(c, s) {
      ReadAhead(c, p + s[..n], s[n..]);
    } else {
      assert s[..n] == s && |p + s| == |p| + n;
      assert DelimAt(p + s) < |p| + n;
    }
  }

  lemma {:induction false} ReadAhead(c: Config, p: Bytes, s: Bytes)
    requires c.Valid() && DelimAt(p + s) < |p + s|
    requires p != [] || s == [] || !IsDigit(s[0])
    ensures |Read(c, State(p, false, s)).1.pending| == Ahead(c, |p|, DelimAt(p + s), p + s)
    decreases |s|, |p|, 1
  {
    hide Read, ReadMore, DelimAt, SliceLen, SliceEnds, Probe;
    ReadStep(c, State(p, false, s));
    DelimInFront(p, s);
    if DelimAt(p) < |p| {
    } else if |p| > c.max {
      ReadDiscarding(c, s);
    } else {
      ReadMoreAhead(c, p, s);
      CutBack(p, s, 0);
      assert (p + s)[|p|..] == s;
    }
  }

  /** What a failed probe hands back, in closed form. */
  lemma ProbeHands(c: Config, w: Bytes)
    requires c.Valid() && DelimAt(w) < |w| && w != [] && IsDigit(w[0]) && !LooksCounted(w)
    ensures Probed(w) <= |w| && Probe(c, w) == (None, State(w[..Probed(w)], false, w[Probed(w)..]))
  {
    ProbedFits(w);
    AtoiFits(w[..if Digits(w) <= MAX_DIGITS then Digits(w) else 0]) by {
      DigitsFacts(w);
    }
    hide DelimAt, Atoi, Counted, Value;
  }

  lemma PendingProbed(c: Config, w: Bytes)
    requires c.Valid() && DelimAt(w) < |w| && !LooksCounted(w) && Probes(0, w)
    ensures |Read(c, State([], false, w)).1.pending| == After(c, 0, w)
  {
    hide Read, ReadMore, DelimAt, Ahead, SliceLen, Probe, LooksCounted, Digits, Probed;
    ReadStep(c, State([], false, w));
    EmptyNoDelim();
    ProbeHands(c, w);
    var n := Probed(w);
    var p, s := w[..n], w[n..];
    SplitAt(w, n);
    ReadMoreAhead(c, p, s);
  }

  lemma PendingAfter(c: Config, m: nat, w: Bytes)
    requires c.Valid() && m <= |w| && DelimAt(w) < |w| && (m == 0 ==> !LooksCounted(w))
    ensures |Read(c, State(w[..m], false, w[m..])).1.pending| == After(c, m, w)
  {
    hide Read, ReadMore, DelimAt, Ahead, SliceLen, Probe, LooksCounted, Digits;
    SplitAt(w, m);
    EmptyWhole(w, m);
    if Probes(m, w) {
      PendingProbed(c, w);
    } else {
      ReadAhead(c, w[..m], w[m..]);
    }
  }

  lemma FirstLenIs(c: Config, m: nat, w: Bytes)
    requires c.Valid() && m <= |w| && DelimAt(w) < |w| && (m == 0 ==> !LooksCounted(w))
    ensures FirstLen(c, m, w) == FirstCheck(c, State(w[..m], false, w[m..]))
  {
    hide DelimAt, Probe, LooksCounted, Digits;
    EmptyWhole(w, m);
    if Probes(m, w) {
      ProbeHands(c, w);
    }
  }

  /** One call, exactly: for any stream, any buffer size and anything already buffered,
      unless an octet count is up next, the call delivers or refuses the first
      delimited frame and ends with exactly After bytes of the rest buffered. */
  lemma ReadsExactly(c: Config, m: nat, w: Bytes)
    requires c.Valid() && m <= |w| && DelimAt(w) < |w| && (m == 0 ==> !LooksCounted(w))
    ensures var k := DelimAt(w);
            var n, rest := After(c, m, w), w[k + 1..];
            Read(c, State(w[..m], false, w[m..])) ==
            (FrameOutcome(c, w[..k], FirstLen(c, m, w)), State(rest[..n], false, rest[n..]))
  {
    hide Read, DelimAt, FrameOutcome, After, FirstLen, FirstCheck, LooksCounted;
    SplitAt(w, m);
    EmptyWhole(w, m);
    NextDelimited(c, State(w[..m], false, w[m..]));
    PendingAfter(c, m, w);
    FirstLenIs(c, m, w);
    var next := Read(c, State(w[..m], false, w[m..])).1;
    Halves(next.pending, next.stream);
  }

  lemma EmptyWhole(w: Bytes, m: nat)
    ensures m == 0 ==> w[..m] == [] && w[m..] == w
  {
  }

  lemma Halves(a: Bytes, b: Bytes)
    ensures (a + b)[..|a|] == a && (a + b)[|a|..] == b
  {
  }

  // ----- everything a stream delivers -----

  /** What is delivered from the bytes w, of which m are buffered. */
  function Delivered(c: Config, m: nat, w: Bytes): seq<Outcome>
    requires c.Valid() && m <= |w|
    decreases |w|
  {
    if m == 0 && LooksCounted(w) then
      var d := Digits(w);
      var (o, r) := Counted(c, Value(w[..d]), w[d + 1..]);
      if o.Fatal? then [o] else [o] + Delivered(c, 0, r.stream)
    else
      var k := DelimAt(w);
      if k == |w| then [Fatal(c.fate)]
      else [FrameOutcome(c, w[..k], FirstLen(c, m, w))] + Delivered(c, After(c, m, w), w[k + 1..])
  }

  lemma CountedReads(c: Config, w: Bytes)
    requires c.Valid() && LooksCounted(w)
    ensures Digits(w) < |w|
    ensures Read(c, State([], false, w)) == Counted(c, Value(w[..Digits(w)]), w[Digits(w) + 1..])
    ensures var (o, r) := Counted(c, Value(w[..Digits(w)]), w[Digits(w) + 1..]);
            r.pending == [] && !r.discarding && |r.stream| < |w|
  {
    hide Read, Value;
    var d := Digits(w);
    DigitsFacts(w);
    NextCounted(c, w[..d], w[d + 1..]);
    assert w[d..] == [SPACE] + w[d + 1..];
  }

  /** Every stream, exactly: the outcomes of a connection are those of its frames, each
      delimited or counted according to how far the reader is ahead when it comes. */
  lemma {:induction false} StreamExactly(c: Config, m: nat, w: Bytes)
    requires c.Valid() && m <= |w|
    ensures Run(c, State(w[..m], false, w[m..])) == Delivered(c, m, w)
    decreases |w|
  {
    hide Read, DelimAt, Counted, Value, FrameOutcome, After, LooksCounted, FirstLen, Digits;
    EmptyWhole(w, m);
    if m == 0 && LooksCounted(w) {
      CountedReads(c, w);
      var (o, r) := Counted(c, Value(w[..Digits(w)]), w[Digits(w) + 1..]);
      EmptyWhole(r.stream, 0);
      StreamExactly(c, 0, r.stream);
    } else if DelimAt(w) == |w| {
      NoFrame(c, m, w);
    } else {
      ReadsExactly(c, m, w);
      NotFatal(c, w[..DelimAt(w)], FirstLen(c, m, w));
      StreamExactly(c, After(c, m, w), w[DelimAt(w) + 1..]);
    }
  }

  lemma NoFrame(c: Config, m: nat, w: Bytes)
    requires c.Valid() && m <= |w| && DelimAt(w) == |w| && (m == 0 ==> !LooksCounted(w))
    ensures Read(c, State(w[..m], false, w[m..])).0 == Fatal(c.fate)
  {
    hide Read, DelimAt, LooksCounted;
    SplitAt(w, m);
    EmptyWhole(w, m);
    NextDelimited(c, State(w[..m], false, w[m..]));
  }

  lemma NotFatal(c: Config, f: Bytes, start: nat)
    requires c.chunk >= 1
    ensures !FrameOutcome(c, f, start).Fatal?
  {
  }

  // ----- when a call ends with nothing buffered -----

  /** Where the slice starts that brings in the byte at k, if slices are full. */
  function SliceStart(c: Config, a: nat, k: nat): (e: nat)
    requires c.Valid() && a <= k
    ensures a <= e <= k < e + c.chunk
    decreases k - a
  {
    if k < a + c.chunk then a else SliceStart(c, a + c.chunk, k)
  }

  lemma LfPast(a: nat, w: Bytes)
    requires a <= DelimAt(w) < |w|
    ensures var k, lf := DelimAt(w), LfAt(w[a..]);
            k - a <= lf <= |w| - a && (lf == k - a <==> w[k] == LF)
  {
    hide LfAt, DelimAt;
    SplitAt(w, a);
    DelimInFront(w[..a], w[a..]);
    LfFrom(w[a..]);
  }

  lemma LfFrom(s: Bytes)
    requires DelimAt(s) < |s|
    ensures DelimAt(s) <= LfAt(s) <= |s| && (LfAt(s) == DelimAt(s) <==> s[DelimAt(s)] == LF)
  {
    assert LfAt(s) < |s| ==> IsDelim(s[LfAt(s)]);
  }

  /** One slice: before the delimiter it is full, and the one with the delimiter ends
      there exactly if the delimiter is an LF, fills it, or ends the stream. */
  lemma SliceAt(c: Config, a: nat, w: Bytes)
    requires c.Valid() && a <= DelimAt(w) < |w|
    ensures var k, n := DelimAt(w), SliceLen(c, w[a..]);
            && (k >= a + c.chunk ==> n == c.chunk)
            && (k < a + c.chunk ==> a + n > k)
            && (k < a + c.chunk ==> (a + n == k + 1 <==> w[k] == LF || a + c.chunk == k + 1 || k + 1 == |w|))
  {
    hide LfAt, DelimAt;
    LfPast(a, w);
  }

  lemma AheadStep(c: Config, a: nat, k: nat, w: Bytes)
    requires c.Valid() && a <= |w| && k < |w|
    ensures a + SliceLen(c, w[a..]) <= |w|
    ensures Ahead(c, a, k, w) ==
            if a > k then a - k - 1 else if a > c.max then 0 else Ahead(c, a + SliceLen(c, w[a..]), k, w)
  {
  }

  lemma StartStep(c: Config, a: nat, k: nat)
    requires c.Valid() && a <= k
    ensures SliceStart(c, a, k) == if k < a + c.chunk then a else SliceStart(c, a + c.chunk, k)
    ensures a <= SliceStart(c, a, k) <= k < SliceStart(c, a, k) + c.chunk
  {
  }

  lemma {:induction false} AheadZero(c: Config, a: nat, w: Bytes)
    requires c.Valid() && a <= DelimAt(w) < |w|
    ensures var k := DelimAt(w);
            var e := SliceStart(c, a, k);
            Ahead(c, a, k, w) == 0 <==> w[k] == LF || k + 1 == |w| || e > c.max || e + c.chunk == k + 1
    decreases |w| - a, 1
  {
    hide DelimAt, SliceLen, Ahead, SliceStart;
    var k := DelimAt(w);
    AheadStep(c, a, k, w);
    StartStep(c, a, k);
    if a <= c.max {
      UncheckedZero(c, a, w);
    }
  }

  /** The same after a slice taken without a check, as a failed probe does. */
  lemma {:induction false} UncheckedZero(c: Config, a: nat, w: Bytes)
    requires c.Valid() && a <= DelimAt(w) < |w|
    ensures a + SliceLen(c, w[a..]) <= |w|
    ensures var k := DelimAt(w);
            var e := SliceStart(c, a, k);
            Ahead(c, a + SliceLen(c, w[a..]), k, w) == 0 <==>
            w[k] == LF || k + 1 == |w| || e + c.chunk == k + 1 || (e > c.max && e > a)
    decreases |w| - a, 0
  {
    hide DelimAt, SliceLen, Ahead, SliceStart;
    var k := DelimAt(w);
    SliceAt(c, a, w);
    AheadStep(c, a, k, w);
    StartStep(c, a, k);
    var next := a + SliceLen(c, w[a..]);
    if k >= a + c.chunk {
      AheadZero(c, next, w);
      StartStep(c, next, k);
    } else {
      AheadStep(c, next, k, w);
    }
  }

  /** Nothing is buffered after the first frame of w: the frame ends what there is; or the
      probe did not take its delimiter and it is an LF, or it is too long and dropped
      before its delimiter came, or the delimiter ends a full slice. */
  predicate LeavesNothing(c: Config, w: Bytes)
    requires c.Valid() && DelimAt(w) < |w|
  {
    var k := DelimAt(w);
    var a := if Probes(0, w) then Probed(w) else 0;
    k + 1 == |w| ||
    (a <= k &&
     var e := SliceStart(c, a, k);
     w[k] == LF || e + c.chunk == k + 1 || (e > c.max && e > a))
  }

  lemma CleanAfter(c: Config, w: Bytes)
    requires c.Valid() && DelimAt(w) < |w|
    ensures After(c, 0, w) == 0 <==> LeavesNothing(c, w)
  {
    hide DelimAt, SliceLen, Digits, SliceStart, Probed;
    var k := DelimAt(w);
    if Probes(0, w) {
      ProbedFits(w);
      var a := Probed(w);
      if a <= k {
        UncheckedZero(c, a, w);
        hide Ahead;
      } else {
        SliceAll(c, w[a..]);
      }
    } else {
      AheadZero(c, 0, w);
      hide Ahead;
    }
  }

  /** When a call that starts with nothing buffered ends so. */
  lemma CleanExactly(c: Config, w: Bytes)
    requires c.Valid() && DelimAt(w) < |w| && !LooksCounted(w)
    ensures Read(c, State([], false, w)).1.pending == [] <==> LeavesNothing(c, w)
  {
    hide Read, DelimAt, After, FirstLen, FrameOutcome, LeavesNothing, LooksCounted;
    EmptyWhole(w, 0);
    PendingAfter(c, 0, w);
    CleanAfter(c, w);
  }

  lemma SliceAll(c: Config, s: Bytes)
    requires c.Valid()
    ensures SliceLen(c, s) == 0 <==> s == []
  {
  }

  // ----- frames on the wire -----

  /** A frame on the wire: an octet count with its payload, or a line with its delimiter.
      What looks like an octet count is no line. */
  datatype WireFrame = CountedFrame(digits: Bytes, payload: Bytes) | Line(text: Bytes, end: byte) {
    predicate Valid() {
      match this
      case CountedFrame(ds, p) =>
        0 < |ds| <= MAX_DIGITS && (forall i :: 0 <= i < |ds| ==> IsDigit(ds[i])) && Value(ds) == |p|
      case Line(t, e) =>
        IsDelim(e) && (forall i :: 0 <= i < |t| ==> !IsDelim(t[i])) && !LooksCounted(t + [e])
    }

    function Octets(): Bytes {
      match this
      case CountedFrame(ds, p) => ds + ([SPACE] + p)
      case Line(t, e) => t + [e]
    }
  }

  function Wire(fs: seq<WireFrame>): Bytes {
    if fs == [] then [] else fs[0].Octets() + Wire(fs[1..])
  }

  predicate AllValid(fs: seq<WireFrame>) {
    forall i :: 0 <= i < |fs| ==> fs[i].Valid()
  }

  lemma LineSplits(t: Bytes, e: byte, rest: Bytes)
    requires Line(t, e).Valid()
    ensures var w := (t + [e]) + rest;
            && DelimAt(w) == |t| < |w| && w[..|t|] == t && w[|t|] == e && w[|t| + 1..] == rest
            && !LooksCounted(w)
  {
    var w := (t + [e]) + rest;
    assert forall i :: 0 <= i < |t| ==> w[i] == t[i];
    assert w[|t|] == e;
    DelimIs(w, |t|);
    assert w[..|t|] == t && w[|t| + 1..] == rest;
    SameDigits(t + [e], rest);
    hide DelimAt;
  }

  lemma SameDigits(s: Bytes, rest: Bytes)
    requires s != [] && !IsDigit(s[|s| - 1])
    ensures Digits(s + rest) == Digits(s) < |s| && LooksCounted(s + rest) == LooksCounted(s)
  {
    var d := Digits(s);
    assert d < |s|;
    assert forall i :: 0 <= i <= d ==> (s + rest)[i] == s[i];
    DigitsAt(s + rest, d);
  }

  /** How far the reader is ahead after the first frame. */
  function Next(c: Config, m: nat, fs: seq<WireFrame>): (n: nat)
    requires c.Valid() && fs != [] && AllValid(fs) && m <= |Wire(fs)|
    ensures n <= |Wire(fs[1..])|
  {
    match fs[0]
    case CountedFrame(_, _) => 0
    case Line(t, e) =>
      LineSplits(t, e, Wire(fs[1..]));
      After(c, m, Wire(fs))
  }

  function Expected(c: Config, m: nat, fs: seq<WireFrame>): Outcome
    requires c.Valid() && fs != []
  {
    match fs[0]
    case CountedFrame(_, p) => if |p| > c.max then Oversized else Msg(p)
    case Line(t, _) => FrameOutcome(c, t, FirstLen(c, m, Wire(fs)))
  }

  function Outcomes(c: Config, m: nat, fs: seq<WireFrame>): seq<Outcome>
    requires c.Valid() && AllValid(fs) && m <= |Wire(fs)|
    decreases |fs|
  {
    if fs == [] then [Fatal(c.fate)] else [Expected(c, m, fs)] + Outcomes(c, Next(c, m, fs), fs[1..])
  }

  /** No counted frame comes while the reader is ahead. */
  predicate Readable(c: Config, m: nat, fs: seq<WireFrame>)
    requires c.Valid() && AllValid(fs) && m <= |Wire(fs)|
    decreases |fs|
  {
    fs == [] || ((fs[0].CountedFrame? ==> m == 0) && Readable(c, Next(c, m, fs), fs[1..]))
  }

  lemma CountedWire(ds: Bytes, p: Bytes, rest: Bytes)
    requires CountedFrame(ds, p).Valid()
    ensures var w := CountedFrame(ds, p).Octets() + rest;
            && LooksCounted(w) && Digits(w) == |ds| && w[..|ds|] == ds && w[|ds| + 1..] == p + rest
            && (p + rest)[..|p|] == p && (p + rest)[|p|..] == rest
  {
    var w := (ds + ([SPACE] + p)) + rest;
    assert forall i :: 0 <= i < |ds| ==> w[i] == ds[i];
    assert w[|ds|] == SPACE;
    DigitsAt(w, |ds|);
    assert w[..|ds|] == ds && w[|ds| + 1..] == p + rest;
    Halves(p, rest);
    hide Digits, Value;
  }

  /** One counted frame taken off in its turn. */
  lemma DeliverCounted(c: Config, ds: Bytes, p: Bytes, rest: Bytes)
    requires c.Valid() && CountedFrame(ds, p).Valid()
    ensures Delivered(c, 0, CountedFrame(ds, p).Octets() + rest) ==
            [if |p| > c.max then Oversized else Msg(p)] + Delivered(c, 0, rest)
  {
    hide Digits, Value, LooksCounted, DelimAt, After, FrameOutcome;
    CountedWire(ds, p, rest);
  }

  lemma DeliverLine(c: Config, m: nat, t: Bytes, e: byte, rest: Bytes)
    requires c.Valid() && Line(t, e).Valid() && m <= |t| + 1 + |rest|
    ensures var w := (t + [e]) + rest;
            && DelimAt(w) < |w| && After(c, m, w) <= |rest|
            && Delivered(c, m, w) == [FrameOutcome(c, t, FirstLen(c, m, w))] + Delivered(c, After(c, m, w), rest)
  {
    hide LooksCounted, DelimAt, After, FrameOutcome;
    LineSplits(t, e, rest);
  }

  /** Mixed framing: if no counted frame comes while the reader is ahead, every frame
      comes back once and in order, one over the limit as one Oversized that leaves the
      others alone. */
  lemma MixedFraming(c: Config, m: nat, fs: seq<WireFrame>)
    requires c.Valid() && AllValid(fs) && m <= |Wire(fs)| && Readable(c, m, fs)
    ensures Run(c, State(Wire(fs)[..m], false, Wire(fs)[m..])) == Outcomes(c, m, fs)
  {
    StreamExactly(c, m, Wire(fs));
    DeliveredMixed(c, m, fs);
    hide Run, Outcomes, Delivered, Readable;
  }

  lemma {:induction false} DeliveredMixed(c: Config, m: nat, fs: seq<WireFrame>)
    requires c.Valid() && AllValid(fs) && m <= |Wire(fs)| && Readable(c, m, fs)
    ensures Delivered(c, m, Wire(fs)) == Outcomes(c, m, fs)
    decreases |fs|
  {
    if fs == [] {
      EmptyNoDelim();
    } else {
      hide Delivered, After, FrameOutcome, WireFrame.Valid;
      DeliveredMixed(c, Next(c, m, fs), fs[1..]);
      match fs[0]
      case CountedFrame(ds, p) =>
        DeliverCounted(c, ds, p, Wire(fs[1..]));
      case Line(t, e) =>
        DeliverLine(c, m, t, e, Wire(fs[1..]));
    }
  }

  /** A counted frame that comes while the reader is ahead is read as a line that starts
      with its count: its payload is not what is delivered. */
  lemma HiddenCount(c: Config, m: nat, ds: Bytes, p: Bytes, rest: Bytes)
    requires c.Valid() && CountedFrame(ds, p).Valid() && 0 < m <= |ds| + 1 + |p| + |rest|
    ensures var all := Delivered(c, m, CountedFrame(ds, p).Octets() + rest);
            all != [] && all[0] != Msg(p)
  {
    hide Delivered, Digits, Value, After, FirstLen, TrimCr;
    var w := CountedFrame(ds, p).Octets() + rest;
    DeliveredAhead(c, m, w);
    if DelimAt(w) < |w| {
      OtherText(ds, p, rest);
    }
  }

  lemma DeliveredAhead(c: Config, m: nat, w: Bytes)
    requires c.Valid() && 0 < m <= |w|
    ensures Delivered(c, m, w) != []
    ensures var k := DelimAt(w);
            Delivered(c, m, w)[0] == if k == |w| then Fatal(c.fate) else FrameOutcome(c, w[..k], FirstLen(c, m, w))
  {
    hide DelimAt, After, FrameOutcome, LooksCounted;
  }

  /** The first delimiter is past the count; in the payload or behind it. */
  lemma PastCount(ds: Bytes, p: Bytes, rest: Bytes)
    requires CountedFrame(ds, p).Valid()
    ensures var w := CountedFrame(ds, p).Octets() + rest;
            var k := DelimAt(w);
            k < |w| ==> k > |ds| && (k - |ds| - 1 < |p| ==> p[k - |ds| - 1] == w[k])
  {
    hide Value;
    var w := CountedFrame(ds, p).Octets() + rest;
    var k := DelimAt(w);
    if k < |w| {
      assert IsDelim(w[k]);
      assert k < |ds| ==> w[k] == ds[k] && IsDigit(ds[k]);
      assert w[|ds|] == SPACE;
      hide DelimAt;
    }
  }

  /** The line that starts with the count is longer than the payload, or ends inside it. */
  lemma OtherText(ds: Bytes, p: Bytes, rest: Bytes)
    requires CountedFrame(ds, p).Valid()
    ensures var w := CountedFrame(ds, p).Octets() + rest;
            DelimAt(w) < |w| ==> TrimCr(w[..DelimAt(w)]) != p
  {
    hide Value;
    var w := CountedFrame(ds, p).Octets() + rest;
    PastCount(ds, p, rest);
    var k := DelimAt(w);
    if k < |w| {
      NoDelimBefore(w);
      hide DelimAt, WireFrame.Octets, WireFrame.Valid;
      var t, j := TrimCr(w[..k]), k - |ds| - 1;
      if j < |p| {
        assert |t| == |p| ==> t[j] != p[j];
      }
    }
  }

  lemma NoDelimBefore(w: Bytes)
    requires DelimAt(w) < |w|
    ensures var k := DelimAt(w);
            var t := TrimCr(w[..k]);
            k - 1 <= |t| && IsDelim(w[k]) && forall i :: 0 <= i < |t| ==> !IsDelim(t[i])
  {
    var t := TrimCr(w[..DelimAt(w)]);
    assert forall i :: 0 <= i < |t| ==> t[i] == w[i];
  }

  predicate WithinLimit(c: Config, fs: seq<WireFrame>) {
    forall i :: 0 <= i < |fs| && fs[i].CountedFrame? ==> |fs[i].payload| <= c.max
  }

  /** Conversely, a counted frame within the limit that comes while the reader is ahead
      spoils what is delivered: the frames come back exactly if none does. */
  lemma MixedExactly(c: Config, m: nat, fs: seq<WireFrame>)
    requires c.Valid() && AllValid(fs) && m <= |Wire(fs)| && WithinLimit(c, fs)
    ensures Run(c, State(Wire(fs)[..m], false, Wire(fs)[m..])) == Outcomes(c, m, fs) <==> Readable(c, m, fs)
  {
    StreamExactly(c, m, Wire(fs));
    if Readable(c, m, fs) {
      DeliveredMixed(c, m, fs);
    } else {
      HiddenSpoils(c, m, fs);
    }
    hide Run, Outcomes, Delivered, Readable;
  }

  lemma {:induction false} HiddenSpoils(c: Config, m: nat, fs: seq<WireFrame>)
    requires c.Valid() && AllValid(fs) && m <= |Wire(fs)| && WithinLimit(c, fs) && !Readable(c, m, fs)
    ensures Delivered(c, m, Wire(fs)) != Outcomes(c, m, fs)
    decreases |fs|
  {
    hide Delivered, After, FrameOutcome, WireFrame.Valid;
    var f, rest := fs[0], Wire(fs[1..]);
    if f.CountedFrame? && m > 0 {
      HiddenCount(c, m, f.digits, f.payload, rest);
      assert Outcomes(c, m, fs)[0] == Msg(f.payload);
    } else {
      HiddenSpoils(c, Next(c, m, fs), fs[1..]);
      match f
      case CountedFrame(ds, p) =>
        DeliverCounted(c, ds, p, rest);
        SameTail(Expected(c, m, fs), Delivered(c, 0, rest), Outcomes(c, Next(c, m, fs), fs[1..]));
      case Line(t, e) =>
        DeliverLine(c, m, t, e, rest);
        SameTail(Expected(c, m, fs), Delivered(c, Next(c, m, fs), rest), Outcomes(c, Next(c, m, fs), fs[1..]));
    }
  }

  lemma SameTail<T>(x: T, a: seq<T>, b: seq<T>)
    ensures [x] + a == [x] + b ==> a == b
  {
    if [x] + a == [x] + b {
      assert ([x] + a)[1..] == a && ([x] + b)[1..] == b;
    }
  }

  // ----- frames taken in their turn, whatever their size -----

  /** Each call takes exactly the next frame: the outcome is the frame's and what is left
      is what follows it. */
  predicate InTurn(c: Config, m: nat, fs: seq<WireFrame>)
    requires c.Valid() && AllValid(fs) && m <= |Wire(fs)|
    decreases |fs|
  {
    fs == [] ||
    (var (o, r) := Read(c, State(Wire(fs)[..m], false, Wire(fs)[m..]));
     && o == Expected(c, m, fs)
     && |r.pending| <= |Wire(fs[1..])|
     && r.pending + r.stream == Wire(fs[1..])
     && InTurn(c, |r.pending|, fs[1..]))
  }

  /** A counted frame over the limit that is refused at its own end even when it is read
      as a line: its last byte is its only delimiter. */
  predicate EndsItself(c: Config, f: WireFrame) {
    f.CountedFrame? && |f.payload| > c.max && DelimAt(f.Octets()) + 1 == |f.Octets()|
  }

  lemma EndsItselfSplits(c: Config, f: WireFrame, rest: Bytes)
    requires EndsItself(c, f)
    ensures var w := f.Octets() + rest;
            DelimAt(w) == |f.Octets()| - 1 < |w| && w[DelimAt(w) + 1..] == rest
  {
    hide DelimAt;
    DelimInFront(f.Octets(), rest);
    Halves(f.Octets(), rest);
  }

  /** Every counted frame comes while nothing is buffered, or ends itself. */
  predicate Aligned(c: Config, m: nat, fs: seq<WireFrame>)
    requires c.Valid() && AllValid(fs) && m <= |Wire(fs)|
    decreases |fs|
  {
    if fs == [] then true
    else if fs[0].Line? || m == 0 then Aligned(c, Next(c, m, fs), fs[1..])
    else
      EndsItself(c, fs[0]) &&
      (EndsItselfSplits(c, fs[0], Wire(fs[1..]));
       Aligned(c, After(c, m, Wire(fs)), fs[1..]))
  }

  /** A call that meets a counted frame while the reader is ahead takes it, with the
      outcome it should have, exactly if it ends itself. */
  lemma HiddenTurn(c: Config, m: nat, ds: Bytes, p: Bytes, rest: Bytes)
    requires c.Valid() && CountedFrame(ds, p).Valid() && 0 < m <= |ds| + 1 + |p| + |rest|
    ensures var f := CountedFrame(ds, p);
            var w := f.Octets() + rest;
            var (o, r) := Read(c, State(w[..m], false, w[m..]));
            o == (if |p| > c.max then Oversized else Msg(p)) && r.pending + r.stream == rest <==> EndsItself(c, f)
  {
    hide Read, DelimAt, After, FirstLen, Value, FrameOutcome, TrimCr, LooksCounted;
    var f := CountedFrame(ds, p);
    var w := f.Octets() + rest;
    var k := DelimAt(w);
    SplitAt(w, m);
    if k == |w| {
      DelimInFront(f.Octets(), rest);
      NextDelimited(c, State(w[..m], false, w[m..]));
    } else {
      ReadsExactly(c, m, w);
      SplitAt(w[k + 1..], After(c, m, w));
      OtherText(ds, p, rest);
      DelimInFront(f.Octets(), rest);
      SameRest(f.Octets(), rest, k);
      if k + 1 == |f.Octets()| {
        LongText(c, ds, p, w[..k], FirstLen(c, m, w));
      }
    }
  }

  lemma SameRest(f: Bytes, rest: Bytes, k: nat)
    requires k < |f + rest|
    ensures (f + rest)[k + 1..] == rest <==> k + 1 == |f|
  {
    if k + 1 == |f| {
      Halves(f, rest);
    } else {
      assert |(f + rest)[k + 1..]| != |rest|;
    }
  }

  lemma LongText(c: Config, ds: Bytes, p: Bytes, text: Bytes, start: nat)
    requires c.Valid() && |ds| > 0 && |text| == |ds| + |p|
    ensures |p| > c.max ==> FrameOutcome(c, text, start) == Oversized
    ensures |p| <= c.max ==> FrameOutcome(c, text, start) in {Oversized, Msg(TrimCr(text))}
  {
    hide Lands;
  }

  lemma LineTurn(c: Config, m: nat, t: Bytes, e: byte, rest: Bytes)
    requires c.Valid() && Line(t, e).Valid() && m <= |t| + 1 + |rest|
    ensures var w := (t + [e]) + rest;
            && DelimAt(w) < |w| && After(c, m, w) <= |rest|
            && Read(c, State(w[..m], false, w[m..])) ==
               (FrameOutcome(c, t, FirstLen(c, m, w)), State(rest[..After(c, m, w)], false, rest[After(c, m, w)..]))
  {
    hide Read, LooksCounted, DelimAt, After, FrameOutcome, FirstLen;
    LineSplits(t, e, rest);
    ReadsExactly(c, m, (t + [e]) + rest);
  }

  lemma CountedTurn(c: Config, ds: Bytes, p: Bytes, rest: Bytes)
    requires c.Valid() && CountedFrame(ds, p).Valid()
    ensures var w := CountedFrame(ds, p).Octets() + rest;
            Read(c, State(w[..0], false, w[0..])) ==
            (if |p| > c.max then Oversized else Msg(p), State([], false, rest))
  {
    hide Read, Digits, Value, LooksCounted;
    var w := CountedFrame(ds, p).Octets() + rest;
    CountedWire(ds, p, rest);
    EmptyWhole(w, 0);
    CountedReads(c, w);
  }

  /** The frames of any list, of any size, are taken in their turn exactly if it is
      aligned. */
  lemma {:induction false} InTurnExactly(c: Config, m: nat, fs: seq<WireFrame>)
    requires c.Valid() && AllValid(fs) && m <= |Wire(fs)|
    ensures InTurn(c, m, fs) <==> Aligned(c, m, fs)
    decreases |fs|
  {
    if fs == [] {
    } else {
      hide Read, After, FrameOutcome, WireFrame.Valid, DelimAt, EndsItself, FirstLen;
      var f, rest := fs[0], Wire(fs[1..]);
      match f
      case Line(t, e) =>
        LineTurn(c, m, t, e, rest);
        SplitAt(rest, After(c, m, Wire(fs)));
        InTurnExactly(c, After(c, m, Wire(fs)), fs[1..]);
      case CountedFrame(ds, p) =>
        if m == 0 {
          CountedTurn(c, ds, p, rest);
          EmptyLeft(rest);
          InTurnExactly(c, 0, fs[1..]);
        } else {
          HiddenTurn(c, m, ds, p, rest);
          if EndsItself(c, f) {
            EndsItselfSplits(c, f, rest);
            PendingAfter(c, m, Wire(fs));
            InTurnExactly(c, After(c, m, Wire(fs)), fs[1..]);
          }
        }
    }
  }

  // ----- streams of lines only -----

  /** No frame of the stream looks like an octet count where one would be looked for. */
  predicate LinesOnly(w: Bytes)
    decreases |w|
  {
    !LooksCounted(w) && (DelimAt(w) < |w| ==> LinesOnly(w[DelimAt(w) + 1..]))
  }

  /** The outcomes of the lines of a stream, of which m bytes are buffered. */
  function LineOutcomes(c: Config, m: nat, w: Bytes): seq<Outcome>
    requires c.Valid() && m <= |w|
    decreases |w|
  {
    var k := DelimAt(w);
    if k == |w| then [Fatal(c.fate)]
    else [FrameOutcome(c, w[..k], FirstLen(c, m, w))] + LineOutcomes(c, After(c, m, w), w[k + 1..])
  }

  /** A stream of lines is delivered as its split, lines of max + 1 bytes ending in CR
      included, whatever the buffer size. */
  lemma LinesExactly(c: Config, m: nat, w: Bytes)
    requires c.Valid() && m <= |w| && LinesOnly(w)
    ensures Run(c, State(w[..m], false, w[m..])) == LineOutcomes(c, m, w)
  {
    StreamExactly(c, m, w);
    LinesDelivered(c, m, w);
    hide Run, LineOutcomes, Delivered, LinesOnly;
  }

  lemma {:induction false} LinesDelivered(c: Config, m: nat, w: Bytes)
    requires c.Valid() && m <= |w| && LinesOnly(w)
    ensures Delivered(c, m, w) == LineOutcomes(c, m, w)
    decreases |w|
  {
    hide DelimAt, After, FrameOutcome, LooksCounted, FirstLen;
    if DelimAt(w) >= |w| {
    } else {
      LinesDelivered(c, After(c, m, w), w[DelimAt(w) + 1..]);
    }
  }

  // ----- what that means for lists a sender would write -----

  /** A line the reader never runs ahead on: ended by an LF and not of up to ten digits
      only. */
  predicate Neat(f: WireFrame) {
    f.Line? ==> f.end == LF && !(1 <= |f.text| <= MAX_DIGITS && Digits(f.text) == |f.text|)
  }

  lemma NeatLeavesNothing(c: Config, t: Bytes, rest: Bytes)
    requires c.Valid() && Line(t, LF).Valid() && Neat(Line(t, LF))
    ensures DelimAt((t + [LF]) + rest) < |(t + [LF]) + rest|
    ensures After(c, 0, (t + [LF]) + rest) == 0
  {
    hide DelimAt, After, LooksCounted;
    var w := (t + [LF]) + rest;
    LineSplits(t, LF, rest);
    LineDigits(t, LF, rest);
    CleanAfter(c, w);
    hide Digits;
  }

  lemma LineDigits(t: Bytes, e: byte, rest: Bytes)
    requires !IsDigit(e)
    ensures Digits((t + [e]) + rest) == Digits(t)
  {
    var w, d := (t + [e]) + rest, Digits(t);
    assert forall i :: 0 <= i < |t| ==> w[i] == t[i];
    assert w[|t|] == e;
    DigitsAt(w, d);
  }

  lemma NeatNext(c: Config, fs: seq<WireFrame>)
    requires c.Valid() && fs != [] && AllValid(fs) && Neat(fs[0])
    ensures Next(c, 0, fs) == 0
  {
    if fs[0].Line? {
      NeatEnd(fs[0].text, fs[0].end);
      hide After, Neat;
      NeatLeavesNothing(c, fs[0].text, Wire(fs[1..]));
    }
  }

  /** Lists of counted frames and neat lines always come back. */
  lemma {:induction false} NeatReadable(c: Config, fs: seq<WireFrame>)
    requires c.Valid() && AllValid(fs) && forall i :: 0 <= i < |fs| ==> Neat(fs[i])
    ensures Readable(c, 0, fs)
    decreases |fs|
  {
    hide Next, WireFrame.Valid, Neat, Wire;
    if fs == [] {
    } else {
      NeatNext(c, fs);
      NeatReadable(c, fs[1..]);
    }
  }

  lemma NeatEnd(t: Bytes, e: byte)
    requires Neat(Line(t, e))
    ensures e == LF
  {
  }

  /** A counted frame within the limit right behind a line is delivered exactly if the
      line leaves nothing buffered: the probe must not have taken its delimiter, and
      this must be an LF or the last byte of a full slice, unless the line was too
      long and dropped before. */
  lemma CountBehindLine(c: Config, t: Bytes, e: byte, f: WireFrame)
    requires c.Valid() && Line(t, e).Valid() && f.CountedFrame? && f.Valid() && |f.payload| <= c.max
    ensures var w := (t + [e]) + f.Octets();
            && DelimAt(w) < |w|
            && (Run(c, State([], false, w)) ==
                [FrameOutcome(c, t, FirstLen(c, 0, w)), Msg(f.payload), Fatal(c.fate)]
                <==> LeavesNothing(c, w))
  {
    hide Run, LeavesNothing, After, FirstLen, LooksCounted, DelimAt, FrameOutcome;
    var fs := [Line(t, e), f];
    var w := (t + [e]) + f.Octets();
    assert fs[1..] == [f] && [f][1..] == [];
    assert Wire([f]) == f.Octets() by { assert f.Octets() + [] == f.Octets(); }
    assert Wire(fs) == w;
    LineSplits(t, e, f.Octets());
    CleanAfter(c, w);
    EmptyWhole(w, 0);
    MixedExactly(c, 0, fs);
    PairOutcomes(c, fs);
  }

  lemma PairOutcomes(c: Config, fs: seq<WireFrame>)
    requires c.Valid() && AllValid(fs) && |fs| == 2 && fs[0].Line? && fs[1].CountedFrame? && |fs[1].payload| <= c.max
    ensures DelimAt(Wire(fs)) < |Wire(fs)|
    ensures Outcomes(c, 0, fs) == [Expected(c, 0, fs), Msg(fs[1].payload), Fatal(c.fate)]
    ensures Readable(c, 0, fs) <==> After(c, 0, Wire(fs)) == 0
  {
    hide After, FrameOutcome, WireFrame.Valid, DelimAt, LooksCounted;
    LineSplits(fs[0].text, fs[0].end, Wire(fs[1..]));
    var tail := fs[1..];
    var n := Next(c, 0, fs);
    assert tail[1..] == [] && tail[0] == fs[1];
    assert Outcomes(c, n, tail) == [Expected(c, n, tail)] + Outcomes(c, Next(c, n, tail), tail[1..]);
    assert Readable(c, n, tail) <==> n == 0;
  }

  /** A line of up to ten digits hides the counted frame behind it whatever its
      delimiter: its failed probe takes the delimiter and one more slice. */
  lemma DigitLineHides(c: Config, ds: Bytes, e: byte, f: WireFrame)
    requires c.Valid() && 0 < |ds| <= MAX_DIGITS && (forall i :: 0 <= i < |ds| ==> IsDigit(ds[i])) && IsDelim(e)
    requires f.CountedFrame? && f.Valid()
    ensures var w := (ds + [e]) + f.Octets();
            && DelimAt(w) < |w| && !LeavesNothing(c, w)
  {
    var w := (ds + [e]) + f.Octets();
    NotCounted(ds, e);
    LineSplits(ds, e, f.Octets());
    LineDigits(ds, e, f.Octets());
    DigitsAt(ds, |ds|);
    hide DelimAt, Digits, Value;
    assert w[0] == ds[0] && IsDigit(ds[0]);
    assert Probed(w) == |ds| + 1;
  }

  /** A counted frame hidden behind a line, with no delimiter in it, is dropped as an
      unterminated line when the stream ends. */
  lemma HiddenIsLost(c: Config, t: Bytes, e: byte, f: WireFrame)
    requires c.Valid() && Line(t, e).Valid() && f.CountedFrame? && f.Valid() && DelimAt(f.Octets()) == |f.Octets()|
    ensures var w := (t + [e]) + f.Octets();
            && DelimAt(w) < |w|
            && (!LeavesNothing(c, w) ==>
                  Run(c, State([], false, w)) == [FrameOutcome(c, t, FirstLen(c, 0, w)), Fatal(c.fate)])
  {
    hide Run, LeavesNothing, After, FirstLen, LooksCounted, DelimAt, FrameOutcome;
    var rest := f.Octets();
    var w := (t + [e]) + rest;
    LineSplits(t, e, rest);
    CleanAfter(c, w);
    EmptyWhole(w, 0);
    StreamExactly(c, 0, w);
    DeliverLine(c, 0, t, e, rest);
  }

  /** A line of digits hides the counted frame right behind it; by itself that frame is
      delivered. */
  lemma DigitLineHidesCount(c: Config, ds: Bytes, f: WireFrame)
    requires c.Valid() && 0 < |ds| <= MAX_DIGITS && (forall i :: 0 <= i < |ds| ==> IsDigit(ds[i]))
    requires f.CountedFrame? && f.Valid() && DelimAt(f.Octets()) == |f.Octets()|
    ensures Run(c, State([], false, (ds + [LF]) + f.Octets())) == [Verdict(c, ds), Fatal(c.fate)]
    ensures Run(c, State([], false, f.Octets())) == [Expected(c, 0, [f]), Fatal(c.fate)]
  {
    NotCounted(ds, LF);
    hide Run, LeavesNothing, DelimAt, Value, Verdict, LooksCounted;
    var w := (ds + [LF]) + f.Octets();
    DigitLineHides(c, ds, LF, f);
    HiddenIsLost(c, ds, LF, f);
    LineDigits(ds, LF, f.Octets());
    DigitsAt(ds, |ds|);
    assert w[0] == ds[0];
    assert FirstLen(c, 0, w) == |ds| + 1 + c.chunk;
    LandsPast(c, |ds| + 1 + c.chunk, |ds|);
    assert FrameOutcome(c, ds, |ds| + 1 + c.chunk) == Verdict(c, ds);
    OneFrame(c, f);
  }

  lemma OneFrame(c: Config, f: WireFrame)
    requires c.Valid() && f.CountedFrame? && f.Valid()
    ensures Run(c, State([], false, f.Octets())) == [Expected(c, 0, [f]), Fatal(c.fate)]
  {
    hide Run, WireFrame.Octets;
    assert [f][1..] == [] && f.Octets() + [] == f.Octets();
    assert Wire([f]) == f.Octets();
    EmptyWhole(f.Octets(), 0);
    assert Readable(c, 0, [f]);
    MixedFraming(c, 0, [f]);
  }

  lemma NotCounted(t: Bytes, e: byte)
    requires IsDelim(e) && forall i :: 0 <= i < |t| ==> IsDigit(t[i])
    ensures Line(t, e).Valid()
  {
    DigitsAt(t + [e], |t|);
  }

  /** So does a line ended by NUL, unless the NUL ends a full slice or the line is
      dropped before it comes. */
  lemma NulLineHides(c: Config, t: Bytes, f: WireFrame)
    requires c.Valid() && Line(t, NUL).Valid() && (t == [] || !IsDigit(t[0])) && f.CountedFrame? && f.Valid()
    ensures var w := (t + [NUL]) + f.Octets();
            && DelimAt(w) < |w|
            && (LeavesNothing(c, w) <==> (|t| + 1) % c.chunk == 0 || |t| / c.chunk * c.chunk > c.max)
  {
    var w := (t + [NUL]) + f.Octets();
    LineSplits(t, NUL, f.Octets());
    hide DelimAt, Digits, Value, LooksCounted;
    assert w[0] == (if t == [] then NUL else t[0]);
    StartIs(c, 0, |t|);
  }

  lemma {:induction false} StartIs(c: Config, q: nat, k: nat)
    requires c.Valid() && q * c.chunk <= k
    ensures SliceStart(c, q * c.chunk, k) == k / c.chunk * c.chunk
    ensures SliceStart(c, q * c.chunk, k) + c.chunk == k + 1 <==> (k + 1) % c.chunk == 0
    decreases k - q * c.chunk
  {
    hide SliceStart;
    var a := q * c.chunk;
    assert a + c.chunk == (q + 1) * c.chunk;
    StartStep(c, a, k);
    if k < a + c.chunk {
      DivIs(k, c.chunk, q, k - a);
      if k + 1 == a + c.chunk {
        DivIs(k + 1, c.chunk, q + 1, 0);
      } else {
        DivIs(k + 1, c.chunk, q, k + 1 - a);
      }
    } else {
      StartIs(c, q + 1, k);
    }
  }
}
