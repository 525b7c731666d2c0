/** What a connection delivers, said without the reader: the delimiter split of the
    stream, the octet-counted frames, and any mixture of the two. */
module FrameTheorems {
  import opened Common
  import opened Decimal
  import opened Frame

  lemma DelimIs(b: Bytes, k: nat)
    requires k <= |b| && (k < |b| ==> IsDelim(b[k]))
    requires forall i :: 0 <= i < k ==> !IsDelim(b[i])
    ensures DelimAt(b) == k
  {
    assert DelimAt(b) < |b| ==> IsDelim(b[DelimAt(b)]);
  }

  /** The lengths a frame's buffered part can have when the reader checks it
      against the limit are start, start + chunk, start + 2 * chunk, ... */
  predicate Lands(c: Config, start: nat, target: nat)
    requires c.chunk >= 1
    decreases target - start
  {
    if start >= target then start == target else Lands(c, start + c.chunk, target)
  }

  /** The outcome for a delimited frame. A frame of max + 1 bytes is refused before
      its trailing CR can be stripped if the reader checks it just then. */
  function FrameOutcome(c: Config, frame: Bytes, start: nat): Outcome
    requires c.chunk >= 1
  {
    if |frame| == c.max + 1 && Lands(c, start, c.max + 1) then Oversized else Verdict(c, frame)
  }

  /** One call split the first frame off the bytes w. */
  predicate SplitsFirst(c: Config, w: Bytes, start: nat, res: (Outcome, State))
    requires c.chunk >= 1
  {
    var k := DelimAt(w);
    if k == |w| then res == (Fatal(c.fate), State([], false, []))
    else
      && res.0 == FrameOutcome(c, w[..k], start)
      && res.1.pending + res.1.stream == w[k + 1..]
      && !res.1.discarding
  }

  /** An LF that ends pending, or is still to be read, leaves nothing in pending:
      it ends the slice it came in. */
  predicate LfEmpties(r: State, res: (Outcome, State)) {
    var w := r.pending + r.stream;
    var k := DelimAt(w);
    |r.pending| <= k + 1 <= |w| && w[k] == LF ==> res.1.pending == []
  }

  lemma {:induction false} ReadDiscarding(c: Config, s: Bytes)
    requires c.Valid()
    ensures DelimAt(s) <= |s|
    ensures Read(c, State([], true, s)) ==
            if DelimAt(s) == |s| then (Fatal(c.fate), State([], false, []))
            else (Oversized, State([], false, s[DelimAt(s) + 1..]))
    decreases |s|
  {
    if s == [] || IsDelim(s[0]) {
    } else {
      ReadDiscarding(c, s[1..]);
      assert s[1..][DelimAt(s[1..])..] == s[1 + DelimAt(s[1..])..];
    }
  }

  lemma DelimInFront(p: Bytes, s: Bytes)
    ensures DelimAt(p + s) == if DelimAt(p) < |p| then DelimAt(p) else |p| + DelimAt(s)
  {
    var k := if DelimAt(p) < |p| then DelimAt(p) else |p| + DelimAt(s);
    forall i | 0 <= i < k
      ensures !IsDelim((p + s)[i])
    {
      if i >= |p| {
        assert (p + s)[i] == s[i - |p|];
      }
    }
    DelimIs(p + s, k);
  }

  lemma LandsPast(c: Config, start: nat, target: nat)
    requires c.chunk >= 1 && target < start
    ensures !Lands(c, start, target)
  {
  }

  lemma DeliverSplits(c: Config, p: Bytes, s: Bytes, start: nat)
    requires c.Valid() && DelimAt(p) < |p|
    requires DelimAt(p) < start
    ensures SplitsFirst(c, p + s, start, Deliver(c, State(p, false, s)))
  {
    hide DelimAt, Lands, Verdict, TrimCr;
    DelimInFront(p, s);
    var k := DelimAt(p);
    if c.max + 1 < start {
      LandsPast(c, start, c.max + 1);
    }
    CutFront(p, s, k);
    CutFront(p, s, k + 1);
  }

  lemma LongFrame(c: Config, f: Bytes, start: nat)
    requires c.chunk >= 1 && c.max < start <= |f|
    ensures FrameOutcome(c, f, start) == Oversized
  {
  }

  /** What a dropped frame leaves behind. */
  lemma DropLeaves(p: Bytes, s: Bytes, k: nat)
    requires k < |s|
    ensures (p + s)[|p| + k + 1..] == s[k + 1..] && |(p + s)[..|p| + k]| == |p| + k
    ensures [] + s[k + 1..] == s[k + 1..]
  {
    CutBack(p, s, k + 1);
    EmptyLeft(s[k + 1..]);
  }

  /** Dropping a buffered part over the limit loses nothing but the frame. */
  lemma DropSplits(c: Config, p: Bytes, s: Bytes)
    requires c.Valid() && DelimAt(p) == |p| && |p| > c.max
    ensures SplitsFirst(c, p + s, |p|, Read(c, State([], true, s)))
    ensures LfEmpties(State(p, false, s), Read(c, State([], true, s)))
  {
    hide Read, DelimAt, FrameOutcome;
    ReadDiscarding(c, s);
    DelimInFront(p, s);
    var k := DelimAt(s);
    if k < |s| {
      LongFrame(c, (p + s)[..|p| + k], |p|);
      DropLeaves(p, s, k);
    } else {
      assert |p + s| == |p| + k;
    }
  }

  /** The state after one slice holds the same bytes. */
  lemma SliceKeeps(c: Config, p: Bytes, s: Bytes)
    ensures var n := SliceLen(c, s);
            (p + s[..n]) + s[n..] == p + s && |p + s[..n]| == |p| + n
    ensures SliceEnds(c, s) ==> SliceLen(c, s) == |s|
    ensures !SliceEnds(c, s) ==> SliceLen(c, s) == c.chunk || (SliceLen(c, s) > 0 && s[SliceLen(c, s) - 1] == LF)
  {
  }

  /** No delimiter can stand between two full slices. */
  lemma LandsNext(c: Config, p: Bytes, s: Bytes, target: nat)
    requires c.Valid() && !SliceEnds(c, s) && DelimAt(p + s) == target
    ensures var n := SliceLen(c, s);
            Lands(c, |p| + c.chunk, target) == Lands(c, |p| + n, target)
  {
    var n := SliceLen(c, s);
    SliceKeeps(c, p, s);
    if n < c.chunk {
      assert (p + s)[|p| + n - 1] == LF;
      assert target < |p| + n;
    }
  }

  lemma {:induction false} ReadMoreSplits(c: Config, r: State)
    requires c.Valid() && !r.discarding
    ensures SplitsFirst(c, r.pending + r.stream, |r.pending| + c.chunk, ReadMore(c, r))
    ensures DelimAt(r.pending) == |r.pending| ==> LfEmpties(r, ReadMore(c, r))
    decreases |r.stream|, |r.pending|, 0
  {
    hide Read, ReadMore, Deliver, DelimAt, SliceLen, SliceEnds, SplitsFirst, LfEmpties;
    var p, s := r.pending, r.stream;
    ReadMoreStep(c, r);
    var n := SliceLen(c, s);
    var next := State(p + s[..n], false, s[n..]);
    SliceKeeps(c, p, s);
    if !SliceEnds(c, s) {
      ReadBuffered(c, next);
      ShiftStart(c, p, s, Read(c, next));
      if DelimAt(p) == |p| {
        LfStays(c, p, s, Read(c, next));
      }
    } else {
      assert next.pending == p + s && next.stream == [];
      EndSplits(c, p, s);
    }
  }

  /** The last slice of the stream: its frame, or the end. */
  lemma EndSplits(c: Config, p: Bytes, s: Bytes)
    requires c.Valid() && SliceEnds(c, s)
    ensures var w := p + s;
            var res := if DelimAt(w) < |w| then Deliver(c, State(w, false, []))
                       else (Fatal(c.fate), State([], false, []));
            && SplitsFirst(c, w, |p| + c.chunk, res)
            && (DelimAt(p) == |p| ==> LfEmpties(State(p, false, s), res))
  {
    var w := p + s;
    DelimInFront(p, s);
    assert |w| < |p| + c.chunk;
    if DelimAt(w) < |w| {
      DeliverSplits(c, w, [], |p| + c.chunk);
      assert w + [] == w;
    }
    assert LfAt(s) == |s|;
    hide Deliver, SplitsFirst, LfAt, DelimAt;
  }

  /** A check between two slices and one a full buffer later see the same frames. */
  lemma ShiftStart(c: Config, p: Bytes, s: Bytes, res: (Outcome, State))
    requires c.Valid() && !SliceEnds(c, s)
    requires SplitsFirst(c, p + s, |p| + SliceLen(c, s), res)
    ensures SplitsFirst(c, p + s, |p| + c.chunk, res)
  {
    if DelimAt(p + s) == c.max + 1 {
      LandsNext(c, p, s, c.max + 1);
    }
    hide DelimAt, SliceLen, SliceEnds, Lands;
  }

  lemma LfStays(c: Config, p: Bytes, s: Bytes, res: (Outcome, State))
    requires c.Valid() && DelimAt(p) == |p|
    requires var n := SliceLen(c, s); LfEmpties(State(p + s[..n], false, s[n..]), res)
    ensures LfEmpties(State(p, false, s), res)
  {
    SliceLf(c, p, s);
    SliceKeeps(c, p, s);
    hide DelimAt, SliceLen;
  }

  /** The slice that brings in an LF delimiter ends with it. */
  lemma SliceLf(c: Config, p: Bytes, s: Bytes)
    requires DelimAt(p) == |p|
    ensures var n := SliceLen(c, s); var k := DelimAt(p + s);
            k < |p + s| && (p + s)[k] == LF && k < |p| + n ==> k == |p| + n - 1
  {
    DelimInFront(p, s);
    var k := DelimAt(s);
    if k < |s| && s[k] == LF {
      assert LfAt(s) <= k;
      assert LfAt(s) < |s| ==> IsDelim(s[LfAt(s)]);
      assert LfAt(s) == k;
    }
  }

  /** A call that does not start with the octet-count probe. */
  lemma {:induction false} ReadBuffered(c: Config, r: State)
    requires c.Valid() && !r.discarding
    requires r.pending != [] || r.stream == [] || !IsDigit(r.stream[0])
    ensures SplitsFirst(c, r.pending + r.stream, |r.pending|, Read(c, r))
    ensures LfEmpties(r, Read(c, r))
    decreases |r.stream|, |r.pending|, 1
  {
    hide Read, ReadMore, Probe, Deliver, DelimAt, SplitsFirst, LfEmpties, Lands;
    var p, s := r.pending, r.stream;
    ReadStep(c, r);
    if DelimAt(p) < |p| {
      DeliverSplits(c, p, s, |p|);
      BufferedEmpties(c, r);
    } else if |p| > c.max {
      DropSplits(c, p, s);
    } else {
      ReadMoreSplits(c, r);
      LandsOn(c, p + s, |p|, Read(c, r));
    }
  }

  lemma BufferedEmpties(c: Config, r: State)
    requires DelimAt(r.pending) < |r.pending|
    ensures LfEmpties(r, Deliver(c, r))
  {
    DelimInFront(r.pending, r.stream);
    hide DelimAt;
  }

  lemma LandsOn(c: Config, w: Bytes, len: nat, res: (Outcome, State))
    requires c.chunk >= 1 && len <= c.max && SplitsFirst(c, w, len + c.chunk, res)
    ensures SplitsFirst(c, w, len, res)
  {
    hide DelimAt;
    assert Lands(c, len, c.max + 1) == Lands(c, len + c.chunk, c.max + 1);
  }

  // ----- one call, from any state between calls -----

  /** The next frame starts with an octet count: 1 to 10 digits and a space. */
  predicate LooksCounted(s: Bytes) {
    0 < Digits(s) <= MAX_DIGITS && Digits(s) < |s| && s[Digits(s)] == SPACE
  }

  /** The buffered length at the reader's first check of a frame: a failed probe
      is followed by a slice before anything is checked. */
  function FirstCheck(c: Config, r: State): nat {
    if r.pending == [] && r.stream != [] && IsDigit(r.stream[0]) then |Probe(c, r.stream).1.pending| + c.chunk
    else |r.pending|
  }

  lemma {:induction false} ValueBound(ds: Bytes)
    requires forall i :: 0 <= i < |ds| ==> IsDigit(ds[i])
    ensures Value(ds) < Pow10(|ds|)
  {
    if ds == [] {
    } else {
      ValueBound(ds[..|ds| - 1]);
      assert IsDigit(ds[|ds| - 1]);
    }
  }

  function Pow10(n: nat): nat {
    if n == 0 then 1 else 10 * Pow10(n - 1)
  }

  lemma {:induction false} Pow10Grows(m: nat, n: nat)
    requires m <= n
    ensures Pow10(m) <= Pow10(n)
    decreases n - m
  {
    if m == n {
    } else {
      Pow10Grows(m + 1, n);
    }
  }

  /** A probed count always fits a 64-bit int. */
  lemma AtoiFits(ds: Bytes)
    requires |ds| <= MAX_DIGITS && forall i :: 0 <= i < |ds| ==> IsDigit(ds[i])
    ensures Atoi(ds) == Some(Value(ds))
  {
    ValueBound(ds);
    Pow10Grows(|ds|, MAX_DIGITS);
    assert Pow10(5) == 100_000;
    assert Pow10(10) == 10_000_000_000;
  }

  lemma DigitsNoDelim(s: Bytes)
    requires forall i :: 0 <= i < |s| ==> IsDigit(s[i])
    ensures DelimAt(s) == |s|
  {
    forall i | 0 <= i < |s|
      ensures !IsDelim(s[i])
    {
      assert IsDigit(s[i]);
    }
    DelimIs(s, |s|);
  }

  /** A probe that finds no octet count loses nothing: it ran into the end of a
      stream of digits, or moved the bytes it read to pending. */
  lemma ProbeFails(c: Config, s: Bytes)
    requires c.Valid() && s != [] && IsDigit(s[0]) && !LooksCounted(s)
    ensures var (o, r) := Probe(c, s);
            if o.Some? then DelimAt(s) == |s| && o == Some(Fatal(c.fate)) && r == State([], false, [])
            else r.pending + r.stream == s && !r.discarding
  {
    hide Probe, DelimAt, Counted, Value;
    var d := Digits(s);
    DigitsFacts(s);
    if d > MAX_DIGITS {
      var ds := s[..MAX_DIGITS + 1];
      ProbeLong(c, ds, s[MAX_DIGITS + 1..]);
      SplitAt(s, MAX_DIGITS + 1);
    } else if s[d..] == [] {
      ProbeAt(c, s[..d], []);
      DigitsNoDelim(s[..d]);
      assert s[..d] + [] == s[..d];
    } else {
      ProbeBack(c, s[..d], s[d..]);
    }
  }

  lemma ProbeBack(c: Config, ds: Bytes, rest: Bytes)
    requires |ds| <= MAX_DIGITS && (forall i :: 0 <= i < |ds| ==> IsDigit(ds[i]))
    requires rest != [] && !IsDigit(rest[0]) && !(rest[0] == SPACE && |ds| > 0)
    ensures var (o, r) := Probe(c, ds + rest);
            o.None? && r.pending + r.stream == ds + rest && !r.discarding
  {
    hide Probe, Counted, Value;
    ProbeAt(c, ds, rest);
    Assoc(ds, [rest[0]], rest[1..]);
    assert [rest[0]] + rest[1..] == rest;
  }

  /** Delimited framing: unless the bytes still to be read start with an octet
      count, one call takes the first LF- or NUL-terminated frame off what is
      pending and to come, strips one CR, refuses it if it is too long, and never
      delivers an unterminated tail. */
  lemma NextDelimited(c: Config, r: State)
    requires c.Valid() && !r.discarding
    requires r.pending == [] ==> !LooksCounted(r.stream)
    ensures SplitsFirst(c, r.pending + r.stream, FirstCheck(c, r), Read(c, r))
    ensures r.pending != [] || r.stream == [] || !IsDigit(r.stream[0]) ==> LfEmpties(r, Read(c, r))
  {
    hide SplitsFirst, LfEmpties, DelimAt, Read, ReadMore, Probe, LooksCounted, Deliver;
    var s := r.stream;
    if r.pending == [] && s != [] && IsDigit(s[0]) {
      ReadStep(c, r);
      ProbeFails(c, s);
      assert [] + s == s;
      var (o, p) := Probe(c, s);
      EmptyNoDelim();
      if o.Some? {
        EndOnly(c, s, FirstCheck(c, r));
      } else {
        ReadMoreSplits(c, p);
      }
    } else {
      ReadBuffered(c, r);
    }
  }

  lemma EmptyNoDelim()
    ensures DelimAt([]) == 0
  {
  }

  lemma EndOnly(c: Config, s: Bytes, start: nat)
    requires c.chunk >= 1 && DelimAt(s) == |s|
    ensures SplitsFirst(c, s, start, (Fatal(c.fate), State([], false, [])))
  {
  }

  /** Octet counting: a count of n and a space are followed by a frame of exactly
      n bytes, whatever they are. */
  lemma NextCounted(c: Config, ds: Bytes, body: Bytes)
    requires c.Valid() && 0 < |ds| <= MAX_DIGITS && forall i :: 0 <= i < |ds| ==> IsDigit(ds[i])
    ensures Read(c, State([], false, ds + ([SPACE] + body))) == Counted(c, Value(ds), body)
  {
    var s := ds + ([SPACE] + body);
    ProbeAt(c, ds, [SPACE] + body);
    AtoiFits(ds);
    EmptyNoDelim();
    assert s[0] == ds[0] && IsDigit(s[0]) && ([SPACE] + body)[1..] == body;
    ReadStep(c, State([], false, s));
    hide Read, ReadMore, Probe, Counted, DelimAt, Value;
  }

  // ----- whole connections -----

  /** The outcomes of the delimited frames of a stream, in order. */
  function SplitOutcomes(c: Config, w: Bytes): seq<Outcome>
    decreases |w|
  {
    var k := DelimAt(w);
    if k == |w| then [Fatal(c.fate)] else [Verdict(c, w[..k])] + SplitOutcomes(c, w[k + 1..])
  }

  /** No frame of the stream starts with an octet count, and none is one byte over
      the limit only because of its CR. */
  predicate PlainStream(c: Config, w: Bytes)
    decreases |w|
  {
    var k := DelimAt(w);
    && !LooksCounted(w)
    && (k < |w| ==> (k == c.max + 1 ==> w[k - 1] != CR) && PlainStream(c, w[k + 1..]))
  }

  lemma PlainOutcome(c: Config, f: Bytes, start: nat)
    requires c.chunk >= 1 && (|f| == c.max + 1 ==> f[|f| - 1] != CR)
    ensures FrameOutcome(c, f, start) == Verdict(c, f)
  {
  }

  /** A stream of delimited frames is delivered as its plain split, for any buffer
      size and wherever the slices fall; the unterminated tail is dropped. */
  lemma {:induction false} DelimitedStream(c: Config, r: State)
    requires c.Valid() && !r.discarding && PlainStream(c, r.pending + r.stream)
    ensures Run(c, r) == SplitOutcomes(c, r.pending + r.stream)
    decreases r.Size()
  {
    var w := r.pending + r.stream;
    if r.pending == [] {
      EmptyLeft(r.stream);
    }
    NextDelimited(c, r);
    var (o, next) := Read(c, r);
    var k := DelimAt(w);
    if k < |w| {
      PlainOutcome(c, w[..k], FirstCheck(c, r));
      hide Read, FrameOutcome, Lands, FirstCheck, LooksCounted;
      assert !o.Fatal?;
      assert |next.pending + next.stream| == next.Size();
      DelimitedStream(c, next);
    }
  }
}
