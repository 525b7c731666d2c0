/** Deframing a TCP syslog stream, sections 3.4.1 and 3.4.2 of RFC 6587
    (backend/internal/ingestion/frame.go). Read is one call of next as a function
    of the reader's state; class FrameReader is the code's own reader. */
module Frame {
  import opened Common
  import opened Decimal

  const NUL: byte := 0
  const LF: byte := 10
  const CR: byte := 13
  const MAX_DIGITS := 10
  const MAX_INT := 0x7fff_ffff_ffff_ffff

  /** How a connection's byte stream can end. */
  datatype ReadError = Eof | IdleTimeout | Broken | UnexpectedEof

  datatype Outcome = Msg(bytes: Bytes) | Oversized | Fatal(err: ReadError)

  /** chunk is the size of the buffered reader, fate what reading past the last
      byte reports. */
  datatype Config = Config(max: nat, chunk: nat, fate: ReadError) {
    predicate Valid() {
      chunk >= 1 && fate != UnexpectedEof
    }
  }

  /** pending holds bytes read but not returned, stream the bytes still to come. */
  datatype State = State(pending: Bytes, discarding: bool, stream: Bytes) {
    predicate Valid() {
      discarding ==> pending == []
    }

    function Size(): nat {
      |pending| + |stream|
    }
  }

  predicate IsDelim(b: byte) {
    b == LF || b == NUL
  }

  /** Index of the first delimiter, or the length if there is none. */
  function DelimAt(b: Bytes): (k: nat)
    ensures k <= |b| && (k < |b| ==> IsDelim(b[k]))
    ensures forall i :: 0 <= i < k ==> !IsDelim(b[i])
  {
    if b == [] || IsDelim(b[0]) then 0 else 1 + DelimAt(b[1..])
  }

  function LfAt(b: Bytes): (k: nat)
    ensures k <= |b| && (k < |b| ==> b[k] == LF)
    ensures forall i :: 0 <= i < k ==> b[i] != LF
  {
    if b == [] || b[0] == LF then 0 else 1 + LfAt(b[1..])
  }

  function TrimCr(b: Bytes): Bytes {
    if b != [] && b[|b| - 1] == CR then b[..|b| - 1] else b
  }

  /** strconv.Atoi on a 64-bit platform. */
  function Atoi(ds: Bytes): Option<nat>
    requires forall i :: 0 <= i < |ds| ==> IsDigit(ds[i])
  {
    if Value(ds) <= MAX_INT then Some(Value(ds)) else None
  }

  /** How much ReadSlice takes: through the first LF, a full buffer, or the rest. */
  function SliceLen(c: Config, s: Bytes): (n: nat)
    ensures n <= |s| && n <= c.chunk
  {
    if LfAt(s) < |s| && LfAt(s) < c.chunk then LfAt(s) + 1
    else if |s| >= c.chunk then c.chunk
    else |s|
  }

  /** ReadSlice met the end of the stream before an LF or a full buffer. */
  predicate SliceEnds(c: Config, s: Bytes) {
    LfAt(s) == |s| && |s| < c.chunk
  }

  function Verdict(c: Config, frame: Bytes): Outcome {
    if |TrimCr(frame)| > c.max then Oversized else Msg(TrimCr(frame))
  }

  /** Returns the first frame of pending. */
  function Deliver(c: Config, r: State): (Outcome, State)
    requires DelimAt(r.pending) < |r.pending|
  {
    var k := DelimAt(r.pending);
    (Verdict(c, r.pending[..k]), r.(pending := r.pending[k + 1..]))
  }

  function BodyError(c: Config, body: Bytes): ReadError {
    if body != [] && c.fate == Eof then UnexpectedEof else c.fate
  }

  /** An octet-counted frame whose count is n, after the space. */
  function Counted(c: Config, n: nat, body: Bytes): (Outcome, State) {
    if n > c.max then
      if |body| < n then (Fatal(c.fate), State([], false, []))
      else (Oversized, State([], false, body[n..]))
    else if |body| < n then (Fatal(BodyError(c, body)), State([], false, []))
    else (Msg(body[..n]), State([], false, body[n..]))
  }

  /** The speculative octet count: decided, or bytes handed back to pending. */
  function Probe(c: Config, s: Bytes): (Option<Outcome>, State) {
    var d := Digits(s);
    if d > MAX_DIGITS then (None, State(s[..MAX_DIGITS + 1], false, s[MAX_DIGITS + 1..]))
    else if d == |s| then (Some(Fatal(c.fate)), State([], false, []))
    else if s[d] == SPACE && d > 0 && Atoi(s[..d]).Some? then
      var (o, r) := Counted(c, Atoi(s[..d]).value, s[d + 1..]);
      (Some(o), r)
    else (None, State(s[..d + 1], false, s[d + 1..]))
  }

  function Read(c: Config, r: State): (res: (Outcome, State))
    requires c.Valid() && r.Valid()
    ensures res.1.Valid() && !res.1.discarding
    ensures res.1.Size() <= r.Size()
    ensures !res.0.Fatal? ==> res.1.Size() < r.Size()
    decreases |r.stream|, |r.pending|, 1
  {
    if DelimAt(r.pending) < |r.pending| then Deliver(c, r)
    else if r.discarding then
      if r.stream == [] then (Fatal(c.fate), r.(discarding := false))
      else if IsDelim(r.stream[0]) then (Oversized, State([], false, r.stream[1..]))
      else Read(c, r.(stream := r.stream[1..]))
    else if |r.pending| > c.max then Read(c, State([], true, r.stream))
    else if r.pending == [] && r.stream != [] && IsDigit(r.stream[0]) then
      var (o, p) := Probe(c, r.stream);
      if o.Some? then (o.value, p) else ReadMore(c, p)
    else ReadMore(c, r)
  }

  /** Appends one slice to pending and goes on. */
  function ReadMore(c: Config, r: State): (res: (Outcome, State))
    requires c.Valid() && !r.discarding
    ensures res.1.Valid() && !res.1.discarding
    ensures res.1.Size() <= r.Size()
    ensures !res.0.Fatal? ==> res.1.Size() < r.Size()
    decreases |r.stream|, |r.pending|, 0
  {
    var n := SliceLen(c, r.stream);
    var next := State(r.pending + r.stream[..n], false, r.stream[n..]);
    if !SliceEnds(c, r.stream) then Read(c, next)
    else if DelimAt(next.pending) < |next.pending| then Deliver(c, next)
    else (Fatal(c.fate), State([], false, next.stream))
  }

  /** Everything a connection delivers: outcomes up to the first fatal one. */
  function Run(c: Config, r: State): seq<Outcome>
    requires c.Valid() && r.Valid()
    decreases r.Size()
  {
    var (o, next) := Read(c, r);
    if o.Fatal? then [o] else [o] + Run(c, next)
  }

  lemma ReadStep(c: Config, r: State)
    requires c.Valid() && r.Valid()
    ensures DelimAt(r.pending) <= |r.pending|
    ensures Read(c, r) ==
            if DelimAt(r.pending) < |r.pending| then Deliver(c, r)
            else if r.discarding then
              if r.stream == [] then (Fatal(c.fate), r.(discarding := false))
              else if IsDelim(r.stream[0]) then (Oversized, State([], false, r.stream[1..]))
              else Read(c, r.(stream := r.stream[1..]))
            else if |r.pending| > c.max then Read(c, State([], true, r.stream))
            else if r.pending == [] && r.stream != [] && IsDigit(r.stream[0]) then
              var (o, p) := Probe(c, r.stream);
              if o.Some? then (o.value, p) else ReadMore(c, p)
            else ReadMore(c, r)
    ensures !Probe(c, r.stream).1.discarding
    ensures r.stream != [] && IsDigit(r.stream[0]) && Probe(c, r.stream).0.None? ==>
              |Probe(c, r.stream).1.stream| < |r.stream|
  {
  }

  lemma ReadMoreStep(c: Config, r: State)
    requires c.Valid() && !r.discarding
    ensures var n := SliceLen(c, r.stream);
            n <= |r.stream| &&
            var next := State(r.pending + r.stream[..n], false, r.stream[n..]);
            && (!SliceEnds(c, r.stream) ==> |next.stream| < |r.stream|)
            && DelimAt(next.pending) <= |next.pending|
            && ReadMore(c, r) ==
               if !SliceEnds(c, r.stream) then Read(c, next)
               else if DelimAt(next.pending) < |next.pending| then Deliver(c, next)
               else (Fatal(c.fate), State([], false, next.stream))
  {
  }

  lemma ProbeAt(c: Config, ds: Bytes, rest: Bytes)
    requires |ds| <= MAX_DIGITS && forall i :: 0 <= i < |ds| ==> IsDigit(ds[i])
    requires rest == [] || !IsDigit(rest[0])
    ensures Probe(c, ds + rest) ==
            if rest == [] then (Some(Fatal(c.fate)), State([], false, []))
            else if rest[0] == SPACE && |ds| > 0 && Atoi(ds).Some? then
              var (o, r) := Counted(c, Atoi(ds).value, rest[1..]);
              (Some(o), r)
            else (None, State(ds + [rest[0]], false, rest[1..]))
  {
    var s := ds + rest;
    DigitsAt(s, |ds|);
    assert s[..|ds|] == ds;
    if rest != [] {
      assert s[|ds|] == rest[0] && s[|ds| + 1..] == rest[1..] && s[..|ds| + 1] == ds + [rest[0]];
    }
    hide Digits, Counted, Atoi;
  }

  lemma ProbeLong(c: Config, ds: Bytes, rest: Bytes)
    requires |ds| == MAX_DIGITS + 1 && forall i :: 0 <= i < |ds| ==> IsDigit(ds[i])
    ensures Probe(c, ds + rest) == (None, State(ds, false, rest))
  {
    var s := ds + rest;
    DigitsBeyond(s, MAX_DIGITS);
    assert s[..MAX_DIGITS + 1] == ds && s[MAX_DIGITS + 1..] == rest;
  }

  class FrameReader {
    const cfg: Config
    var pending: Bytes
    var discarding: bool
    var stream: Bytes  // what the connection will still deliver

    constructor (cfg: Config, stream: Bytes)
      ensures this.cfg == cfg && Now() == State([], false, stream)
    {
      this.cfg := cfg;
      this.pending := [];
      this.discarding := false;
      this.stream := stream;
    }

    ghost function Now(): State
      reads this
    {
      State(pending, discarding, stream)
    }

    method ReadByte() returns (b: Option<byte>)
      modifies this`stream
      ensures b.None? ==> old(stream) == [] && stream == []
      ensures b.Some? ==> old(stream) != [] && b.value == old(stream)[0] && stream == old(stream)[1..]
    {
      if stream == [] {
        return None;
      }
      b := Some(stream[0]);
      stream := stream[1..];
    }

    /** Takes a slice; ended says the stream ran out before it was complete. */
    method ReadSlice() returns (slice: Bytes, ended: bool)
      modifies this`stream
      ensures var n := SliceLen(cfg, old(stream));
              slice == old(stream)[..n] && stream == old(stream)[n..]
      ensures ended == SliceEnds(cfg, old(stream))
    {
      var n := SliceLen(cfg, stream);
      ended := SliceEnds(cfg, stream);
      slice := stream[..n];
      stream := stream[n..];
    }

    method TakeCounted(n: nat) returns (o: Outcome)
      requires pending == [] && !discarding
      modifies this`stream
      ensures (o, Now()) == Counted(cfg, n, old(stream))
    {
      if n > cfg.max {
        if |stream| < n {
          stream := [];
          return Fatal(cfg.fate);
        }
        stream := stream[n..];
        return Oversized;
      }
      if n == 0 {
        return Msg([]);
      }
      if |stream| < n {
        o := Fatal(BodyError(cfg, stream));
        stream := [];
        return;
      }
      o := Msg(stream[..n]);
      stream := stream[n..];
    }

    method TryOctetCounted() returns (o: Option<Outcome>)
      requires pending == [] && !discarding
      modifies this`pending, this`stream
      ensures (o, Now()) == Probe(cfg, old(stream))
    {
      ghost var s := stream;
      var digits: Bytes := [];
      assert s == digits + stream;
      hide Probe, Counted, BodyError, Value;
      while true
        invariant pending == [] && !discarding
        invariant s == digits + stream && |digits| <= MAX_DIGITS
        invariant forall i :: 0 <= i < |digits| ==> IsDigit(digits[i])
        decreases |stream|
      {
        ghost var t := stream;
        var b := ReadByte();
        if b.None? {
          ProbeAt(cfg, digits, t);
          return Some(Fatal(cfg.fate));
        }
        if IsDigit(b.value) {
          Assoc(digits, [b.value], stream);
          assert [b.value] + stream == t;
          digits := digits + [b.value];
          if |digits| > MAX_DIGITS {
            ProbeLong(cfg, digits, stream);
            pending := digits;
            return None;
          }
          continue;
        }
        ProbeAt(cfg, digits, t);
        if b.value == SPACE && |digits| > 0 {
          var n := Atoi(digits);
          if n.None? {
            pending := digits + [b.value];
            return None;
          }
          var oc := TakeCounted(n.value);
          return Some(oc);
        }
        pending := digits + [b.value];
        return None;
      }
    }

    /** Returns the frame that ends at the first delimiter of pending. */
    method TakePending() returns (o: Outcome)
      requires DelimAt(pending) < |pending|
      modifies this`pending
      ensures (o, Now()) == Deliver(cfg, old(Now()))
    {
      var k := DelimAt(pending);
      var msg := pending[..k];
      pending := pending[k + 1..];
      if msg != [] && msg[|msg| - 1] == CR {
        msg := msg[..|msg| - 1];
      }
      if |msg| > cfg.max {
        return Oversized;
      }
      return Msg(msg);
    }

    method Next() returns (o: Outcome)
      requires cfg.Valid() && Now().Valid()
      modifies this
      ensures (o, Now()) == Read(cfg, old(Now()))
    {
      ghost var goal := Read(cfg, Now());
      hide Read, ReadMore, Probe, Deliver, DelimAt, SliceLen, SliceEnds;
      while true
        invariant Now().Valid() && goal == Read(cfg, Now())
        decreases |stream|, |pending|
      {
        ReadStep(cfg, Now());
        var k := DelimAt(pending);
        if k < |pending| {
          o := TakePending();
          return;
        }
        if discarding {
          var b := ReadByte();
          if b.None? {
            discarding := false;
            return Fatal(cfg.fate);
          }
          if IsDelim(b.value) {
            discarding := false;
            return Oversized;
          }
          continue;
        }
        if |pending| > cfg.max {
          discarding := true;
          pending := [];
          continue;
        }
        if pending == [] && stream != [] && IsDigit(stream[0]) {
          var decided := TryOctetCounted();
          if decided.Some? {
            return decided.value;
          }
        }
        ReadMoreStep(cfg, Now());
        var slice, ended := ReadSlice();
        pending := pending + slice;
        if ended {
          k := DelimAt(pending);
          if k < |pending| {
            o := TakePending();
            return;
          }
          pending := [];
          return Fatal(cfg.fate);
        }
      }
    }
  }
}
