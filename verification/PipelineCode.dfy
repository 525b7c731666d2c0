/** The pipeline's sequential pieces as code: the batcher's loop, the writer's retry
    loop and the counters they feed. */
module PipelineCode {
  import opened Common
  import opened Pipeline
  import opened PipelineShape
  import Normalizer

  // ----- the batcher's accumulation -----

  /** A batch that left the batcher: sent to the writers, or dropped. */
  datatype Piece = Piece(batch: seq<Entry>, sent: bool)

  /** What happens before the next entry: whether the flush interval runs out, and
      whether the hard deadline wins the select of a flush. */
  datatype Turn = Turn(tick: bool, tickGone: bool, fullGone: bool)

  class BatchBuffer {
    const c: Config
    var batch: seq<Entry>
    var batchBytes: nat

    ghost predicate Valid()
      reads this
    {
      c.Valid() && batchBytes == ByteSize(batch) && |batch| < c.maxEntries && batchBytes < c.maxBytes
    }

    constructor (c: Config)
      requires c.Valid()
      ensures Valid() && batch == [] && this.c == c
    {
      this.c := c;
      batch := [];
      batchBytes := 0;
    }

    /** Hands out the open batch, if it has entries, and starts a new one; gone says that
        the hard deadline won the select, so that the batch is dropped. */
    method Flush(gone: bool) returns (out: seq<Piece>)
      requires c.Valid() && batchBytes == ByteSize(batch)
      modifies this
      ensures Valid() && batch == []
      ensures out == if old(batch) == [] then [] else [Piece(old(batch), !gone)]
    {
      out := if batch == [] then [] else [Piece(batch, !gone)];
      batch := [];
      batchBytes := 0;
    }

    /** Appends one entry; the batch is handed out exactly if it has reached a limit, which
        is also when the transition system's batcher flushes. */
    method Add(e: Entry, gone: bool) returns (out: seq<Piece>)
      requires Valid()
      modifies this
      ensures Valid()
      ensures if |old(batch)| + 1 >= c.maxEntries || ByteSize(old(batch)) + e.size >= c.maxBytes
              then out == [Piece(old(batch) + [e], !gone)] && batch == []
              else out == [] && batch == old(batch) + [e]
      ensures Collect(c, old(batch), e).Flushing? <==> out != []
    {
      assert (batch + [e])[..|batch|] == batch;
      batch := batch + [e];
      batchBytes := batchBytes + e.size;
      if |batch| >= c.maxEntries || batchBytes >= c.maxBytes {
        out := Flush(gone);
      } else {
        out := [];
      }
    }

    /** One turn of the batcher: the flush interval may run out, then an entry comes. */
    method Take(t: Turn, e: Entry) returns (out: seq<Piece>)
      requires Valid()
      modifies this
      ensures Valid()
      ensures Pieced(out) + batch == old(batch) + [e]
      ensures Sound(c, out, t.tickGone || t.fullGone, t.tick)
      ensures var b := if t.tick then [] else old(batch);
              var ticked := if t.tick && old(batch) != [] then [Piece(old(batch), !t.tickGone)] else [];
              if |b| + 1 >= c.maxEntries || ByteSize(b) + e.size >= c.maxBytes
              then out == ticked + [Piece(b + [e], !t.fullGone)] && batch == []
              else out == ticked && batch == b + [e]
    {
      hide Pieced, ByteSize, BatchOk, Collect;
      ghost var was := batch;
      var ticked := [];
      ZeroBytes();
      if t.tick {
        ticked := Flush(t.tickGone);
      }
      ghost var b := batch;
      var more := Add(e, t.fullGone);
      out := ticked + more;
      assert ticked + [] == ticked;
      TurnKeeps(c, was, t, e, b, ticked, more, batch);
    }
  }

  lemma ZeroBytes()
    ensures ByteSize([]) == 0
  {
  }

  /** A turn from the open batch was: what the tick and the new entry hand out. */
  lemma TurnKeeps(c: Config, was: seq<Entry>, t: Turn, e: Entry, b: seq<Entry>, ticked: seq<Piece>, more: seq<Piece>,
        rest: seq<Entry>)
    requires c.Valid() && |was| < c.maxEntries && ByteSize(was) < c.maxBytes
    requires b == if t.tick then [] else was
    requires ticked == if t.tick && was != [] then [Piece(was, !t.tickGone)] else []
    requires if |b| + 1 >= c.maxEntries || ByteSize(b) + e.size >= c.maxBytes
             then more == [Piece(b + [e], !t.fullGone)] && rest == []
             else more == [] && rest == b + [e]
    ensures Pieced(ticked + more) + rest == was + [e]
    ensures Sound(c, ticked + more, t.tickGone || t.fullGone, t.tick)
  {
    hide Pieced, ByteSize, BatchOk, Collect, Sound;
    var gone := t.tickGone || t.fullGone;
    TickPieces(was, t, b, ticked);
    if t.tick && was != [] {
      PartialOk(c, was);
      SoundOne(c, was, !t.tickGone, gone, t.tick);
    } else {
      SoundNone(c, gone, t.tick);
    }
    MorePieces(ticked, b, e, !t.fullGone);
    if more == [] {
      assert ticked + [] == ticked;
    } else {
      ZeroBytes();
      ByteSizeAdds(b, [e]);
      CollectOk(c, b, e);
      CollectsAll(c, b, e);
      SoundOne(c, b + [e], !t.fullGone, gone, t.tick);
      SoundBoth(c, ticked, more, gone, t.tick);
    }
  }

  lemma TickPieces(was: seq<Entry>, t: Turn, b: seq<Entry>, ticked: seq<Piece>)
    requires b == if t.tick then [] else was
    requires ticked == if t.tick && was != [] then [Piece(was, !t.tickGone)] else []
    ensures Pieced(ticked) + b == was
  {
    hide Pieced;
    PiecedFew(was, !t.tickGone, []);
    EmptyLeft(was);
  }

  lemma MorePieces(ticked: seq<Piece>, b: seq<Entry>, e: Entry, sent: bool)
    ensures Pieced(ticked) + (b + [e]) == (Pieced(ticked) + b) + [e]
    ensures Pieced(ticked + [Piece(b + [e], sent)]) + [] == Pieced(ticked) + (b + [e])
  {
    hide Pieced;
    PiecedFew(b + [e], sent, ticked);
    Assoc(Pieced(ticked), b, [e]);
  }

  lemma SoundNone(c: Config, gone: bool, ticked: bool)
    ensures Sound(c, [], gone, ticked)
  {
  }

  lemma SoundOne(c: Config, b: seq<Entry>, sent: bool, gone: bool, ticked: bool)
    requires BatchOk(c, b) && (sent || gone) && (|b| >= c.maxEntries || ByteSize(b) >= c.maxBytes || ticked)
    ensures Sound(c, [Piece(b, sent)], gone, ticked)
  {
  }

  lemma SoundBoth(c: Config, a: seq<Piece>, b: seq<Piece>, gone: bool, ticked: bool)
    requires Sound(c, a, gone, ticked) && Sound(c, b, gone, ticked)
    ensures Sound(c, a + b, gone, ticked)
  {
  }

  lemma CollectsAll(c: Config, b: seq<Entry>, e: Entry)
    ensures Collect(c, b, e).Flushing? <==> |b| + 1 >= c.maxEntries || ByteSize(b + [e]) >= c.maxBytes
  {
  }

  /** Every batch is within its bounds, none was dropped unless the deadline was there, and
      none was handed on below both limits unless there was a tick. */
  predicate Sound(c: Config, out: seq<Piece>, gone: bool, ticked: bool) {
    forall p :: p in out ==>
      && BatchOk(c, p.batch) && (p.sent || gone)
      && (|p.batch| >= c.maxEntries || ByteSize(p.batch) >= c.maxBytes || ticked)
  }

  /** The entries of the pieces, in order. */
  function Pieced(ps: seq<Piece>): seq<Entry> {
    if ps == [] then [] else Pieced(ps[..|ps| - 1]) + ps[|ps| - 1].batch
  }

  lemma {:induction false} PiecedAppend(a: seq<Piece>, b: seq<Piece>)
    ensures Pieced(a + b) == Pieced(a) + Pieced(b)
    decreases |b|
  {
    if b == [] {
      assert a + b == a;
    } else {
      PiecedAppend(a, b[..|b| - 1]);
      CutBack(a, b, |b| - 1);
      Assoc(Pieced(a), Pieced(b[..|b| - 1]), b[|b| - 1].batch);
    }
  }

  lemma PiecedFew(b: seq<Entry>, sent: bool, front: seq<Piece>)
    ensures Pieced([]) == [] && Pieced([Piece(b, sent)]) == b && Pieced(front + [Piece(b, sent)]) == Pieced(front) + b
  {
    assert [Piece(b, sent)][..0] == [];
    PiecedAppend(front, [Piece(b, sent)]);
  }

  lemma Extend(out: seq<Piece>, more: seq<Piece>, open: seq<Entry>, rest: seq<Entry>, es: seq<Entry>, k: nat)
    requires k < |es| && Pieced(out) + open == es[..k] && Pieced(more) + rest == open + [es[k]]
    ensures Pieced(out + more) + rest == es[..k + 1]
  {
    PiecedAppend(out, more);
    calc {
      Pieced(out) + Pieced(more) + rest;
      { Assoc(Pieced(out), Pieced(more), rest); }
      Pieced(out) + (open + [es[k]]);
      { Assoc(Pieced(out), open, [es[k]]); }
      es[..k] + [es[k]];
      es[..k + 1];
    }
  }

  predicate Deadline(turns: seq<Turn>) {
    exists t :: t in turns && (t.tickGone || t.fullGone)
  }

  predicate Ticks(turns: seq<Turn>) {
    exists t :: t in turns && t.tick
  }

  /** The batcher on a stream of entries that then closes. The loop itself sees the hard
      deadline after stop entries, if there are so many; closing says whether the
      deadline wins the last flush. The pieces are the stream cut up, each sent within
      its bounds or dropped; after the hard exit the rest is lost. Without the deadline
      everything is sent, and without ticks only the last piece is below both limits. */
  method BatcherLoop(c: Config, es: seq<Entry>, turns: seq<Turn>, stop: nat, closing: bool)
    returns (out: seq<Piece>, lost: seq<Entry>)
    requires c.Valid() && |turns| == |es|
    ensures Pieced(out) + lost == es && lost == es[Min(stop, |es|)..]
    ensures forall p :: p in out && p.sent ==> BatchOk(c, p.batch)
    ensures stop > |es| && !closing && !Deadline(turns) ==> forall p :: p in out ==> p.sent
    ensures !Ticks(turns) ==> forall k :: 0 <= k < |out| - 1 ==>
              |out[k].batch| >= c.maxEntries || ByteSize(out[k].batch) >= c.maxBytes
  {
    hide Pieced, ByteSize, BatchOk;
    var buf := new BatchBuffer(c);
    out := [];
    PiecedFew([], false, []);
    var k := 0;
    while k < |es| && k < stop
      invariant 0 <= k <= |es| && k <= stop
      invariant buf.Valid() && buf.c == c && fresh(buf)
      invariant Pieced(out) + buf.batch == es[..k]
      invariant Sound(c, out, Deadline(turns), Ticks(turns))
      decreases |es| - k
    {
      ghost var open := buf.batch;
      assert turns[k] in turns;
      var more := buf.Take(turns[k], es[k]);
      Extend(out, more, open, buf.batch, es, k);
      out := out + more;
      k := k + 1;
    }
    PiecedFew(buf.batch, false, out);
    PiecedFew(buf.batch, !closing, out);
    assert buf.batch == [] ==> out + [] == out && Pieced(out) + [] == Pieced(out);
    if buf.batch != [] {
      PartialOk(c, buf.batch);
    }
    var hard := stop <= |es|;
    var last := buf.Flush(hard || closing);
    out := out + last;
    lost := es[k..];
    SplitAt(es, k);
  }

  /** A batch of entries the normalizer made under its default limits stays below the
      batch's byte limit plus one entry's. */
  lemma NormalizedBatch(c: Config, b: seq<Entry>, raw: seq<Normalizer.Entry>, made: seq<Normalizer.Entry>)
    requires BatchOk(c, b) && |raw| == |made| == |b|
    requires forall k :: 0 <= k < |b| ==>
               Normalizer.Enforced(Normalizer.Limits(65_536, 262_144), raw[k], made[k])
               && b[k].size == |made[k].message| + |made[k].raw| + 128
    ensures ByteSize(b) < c.maxBytes + 262_144
  {
    forall k | 0 <= k < |b|
      ensures b[k].size <= 262_144
    {
      Normalizer.ApproxBound(Normalizer.Limits(65_536, 262_144), raw[k], made[k]);
    }
    BatchBytes(c, b, 262_144);
  }

  // ----- counters -----

  function Get<K(==)>(m: map<K, nat>, k: K): nat {
    if k in m then m[k] else 0
  }

  /** counts groups es by source: exactly the sources that occur, with how often. */
  ghost predicate Grouped(counts: map<nat, nat>, es: seq<Entry>) {
    forall i: nat :: Get(counts, i) == |Only(i, es)|
  }

  method GroupBySource(batch: seq<Entry>) returns (counts: map<nat, nat>, size: nat)
    ensures Grouped(counts, batch) && size == ByteSize(batch)
  {
    counts := map[];
    size := 0;
    for k := 0 to |batch|
      invariant Grouped(counts, batch[..k]) && size == ByteSize(batch[..k])
    {
      var e := batch[k];
      assert batch[..k + 1][..k] == batch[..k];
      counts := counts[e.src := Get(counts, e.src) + 1];
      size := size + e.size;
    }
    assert batch[..|batch|] == batch;
  }

  class Counters {
    var stored: map<nat, nat>
    var dropped: map<(nat, Reason), nat>
    var bytesStored: nat

    /** messages_stored_total of each source grows by its entries in the batch. */
    method CountStored(batch: seq<Entry>)
      modifies this`stored, this`bytesStored
      ensures forall i: nat :: Get(stored, i) == Get(old(stored), i) + |Only(i, batch)|
      ensures bytesStored == old(bytesStored) + ByteSize(batch)
    {
      var counts, size := GroupBySource(batch);
      var m: map<nat, nat> := stored;
      var keys := counts.Keys;
      while keys != {}
        invariant keys <= counts.Keys
        invariant forall i: nat :: Get(m, i) == Get(stored, i) + if i in keys then 0 else Get(counts, i)
        decreases |keys|
      {
        var i :| i in keys;
        m := m[i := Get(m, i) + counts[i]];
        keys := keys - {i};
      }
      stored := m;
      bytesStored := bytesStored + size;
    }

    /** messages_dropped_total of each source, for one reason. */
    method DropEntries(batch: seq<Entry>, r: Reason)
      modifies this`dropped
      ensures forall i: nat, q: Reason ::
                Get(dropped, (i, q)) == Get(old(dropped), (i, q)) + if q == r then |Only(i, batch)| else 0
    {
      var counts, _ := GroupBySource(batch);
      var keys := counts.Keys;
      while keys != {}
        invariant keys <= counts.Keys
        invariant forall i: nat, q: Reason :: i in keys || q != r ==> Get(dropped, (i, q)) == Get(old(dropped), (i, q))
        invariant forall i: nat :: i !in keys ==> Get(dropped, (i, r)) == Get(old(dropped), (i, r)) + Get(counts, i)
        decreases |keys|
      {
        var i :| i in keys;
        dropped := dropped[(i, r) := Get(dropped, (i, r)) + counts[i]];
        keys := keys - {i};
      }
    }

    /** Writes a batch with retries. outcomes[k] is what attempt k would return and
        cancelled[k] whether the hard deadline wins the wait before it. The batch
        ends in exactly one counter: stored, or dropped for one reason. */
    method WriteBatch(batch: seq<Entry>, outcomes: seq<WriteOutcome>, cancelled: seq<bool>)
      requires |outcomes| == |cancelled| == 3
      modifies this
      ensures var r := Resolve(outcomes, cancelled, 0);
              && (forall i: nat :: Get(stored, i) == Get(old(stored), i) + if r.None? then |Only(i, batch)| else 0)
              && (forall i: nat, q: Reason ::
                    Get(dropped, (i, q)) == Get(old(dropped), (i, q)) + if r == Some(q) then |Only(i, batch)| else 0)
              && bytesStored == old(bytesStored) + if r.None? then ByteSize(batch) else 0
    {
      var lastErr := Unavailable;
      var attempt := 0;
      while attempt < WRITE_ATTEMPTS
        invariant 0 <= attempt <= WRITE_ATTEMPTS
        invariant lastErr == Unavailable
        invariant attempt > 0 ==> outcomes[attempt - 1] == Unavailable
        invariant attempt == 0 ==> Resolve(outcomes, cancelled, 0) == Resolve(outcomes, cancelled, attempt)
        invariant 0 < attempt < WRITE_ATTEMPTS ==>
                    Resolve(outcomes, cancelled, 0) ==
                    if cancelled[attempt] then Some(Shutdown) else Resolve(outcomes, cancelled, attempt)
        invariant attempt == WRITE_ATTEMPTS ==> Resolve(outcomes, cancelled, 0) == Some(WriteFailed)
        invariant stored == old(stored) && dropped == old(dropped) && bytesStored == old(bytesStored)
      {
        if attempt > 0 && cancelled[attempt] {
          DropEntries(batch, Shutdown);
          return;
        }
        var err := outcomes[attempt];
        if err == Accepted {
          CountStored(batch);
          return;
        }
        lastErr := err;
        if err == BadRequest {
          break;
        }
        attempt := attempt + 1;
      }
      var reason := if lastErr == BadRequest then StorageRejected else WriteFailed;
      DropEntries(batch, reason);
    }
  }

  /** How a batch is resolved from attempt k on: None is stored. */
  function Resolve(outcomes: seq<WriteOutcome>, cancelled: seq<bool>, k: nat): Option<Reason>
    requires |outcomes| == |cancelled| == WRITE_ATTEMPTS && k < WRITE_ATTEMPTS
    decreases WRITE_ATTEMPTS - k
  {
    if outcomes[k] == Accepted then None
    else if outcomes[k] == BadRequest then Some(StorageRejected)
    else if k + 1 == WRITE_ATTEMPTS then Some(WriteFailed)
    else if cancelled[k + 1] then Some(Shutdown)
    else Resolve(outcomes, cancelled, k + 1)
  }

  /** A batch is stored exactly if one of at most three attempts reaches storage and
      is accepted, rejected exactly if one is reached and refused, given up exactly if
      all three were reached and failed, and abandoned exactly if the deadline wins a
      wait after one or two failures. */
  lemma ResolveMeans(outcomes: seq<WriteOutcome>, cancelled: seq<bool>)
    requires |outcomes| == |cancelled| == 3
    ensures var r := Resolve(outcomes, cancelled, 0);
            var o, x := outcomes, cancelled;
            var second := o[0] == Unavailable && !x[1];
            var third := second && o[1] == Unavailable && !x[2];
            && (r == None <==> o[0] == Accepted || (second && o[1] == Accepted) || (third && o[2] == Accepted))
            && (r == Some(StorageRejected) <==>
                  o[0] == BadRequest || (second && o[1] == BadRequest) || (third && o[2] == BadRequest))
            && (r == Some(WriteFailed) <==> third && o[2] == Unavailable)
            && (r == Some(Shutdown) <==>
                  (o[0] == Unavailable && x[1]) || (second && o[1] == Unavailable && x[2]))
  {
    var o, x := outcomes, cancelled;
    assert Resolve(o, x, 2) ==
           if o[2] == Accepted then None else if o[2] == BadRequest then Some(StorageRejected) else Some(WriteFailed);
  }

  // ----- the retry loop is a run of the transition system -----

  /** The steps worker w takes from attempt k to the end of its batch. */
  function WriterRun(w: nat, outcomes: seq<WriteOutcome>, cancelled: seq<bool>, k: nat): seq<Step>
    requires |outcomes| == |cancelled| == WRITE_ATTEMPTS && k < WRITE_ATTEMPTS
    decreases WRITE_ATTEMPTS - k
  {
    [WriteAt(w, Attempt(outcomes[k]))] +
    if outcomes[k] != Unavailable || k + 1 == WRITE_ATTEMPTS then []
    else if cancelled[k + 1] then [WriteAt(w, Abandon)]
    else [WriteAt(w, Retry)] + WriterRun(w, outcomes, cancelled, k + 1)
  }

  lemma CountNone(ss: seq<Source>, es: seq<Entry>, r: Reason)
    ensures DropEntries(CountStored(ss, []), [], r) == ss
    ensures DropEntries(CountStored(ss, es), [], r) == CountStored(ss, es)
    ensures DropEntries(CountStored(ss, []), es, r) == DropEntries(ss, es, r)
  {
    assert CountStored(ss, []) == ss;
  }

  function Settled(ss: seq<Source>, b: seq<Entry>, r: Option<Reason>): seq<Source> {
    if r.None? then CountStored(ss, b) else DropEntries(ss, b, r.value)
  }

  /** A worker that has just taken a batch, left to itself, settles the whole batch
      exactly once, as WriteBatch does, and touches nothing else. */
  lemma {:induction false} WriterSettles(c: Config, st: State, w: nat, b: seq<Entry>,
        outcomes: seq<WriteOutcome>, cancelled: seq<bool>, k: nat)
    requires |outcomes| == |cancelled| == WRITE_ATTEMPTS && k < WRITE_ATTEMPTS
    requires w < |st.workers| && st.workers[w] == Writing(b, k) && (true in cancelled ==> st.hard)
    ensures Exec(c, st, WriterRun(w, outcomes, cancelled, k)) ==
            Some(st.(workers := st.workers[w := Idle],
                     sources := Settled(st.sources, b, Resolve(outcomes, cancelled, k))))
    decreases WRITE_ATTEMPTS - k
  {
    hide CountStored, DropEntries, Exec;
    var attempt := WriteAt(w, Attempt(outcomes[k]));
    var st1 := Apply(c, st, attempt);
    ExecOne(c, st, attempt);
    CountNone(st.sources, b, Write(st, st.workers[w], Attempt(outcomes[k])).reason);
    if outcomes[k] != Unavailable || k + 1 == WRITE_ATTEMPTS {
      assert WriterRun(w, outcomes, cancelled, k) == [attempt];
    } else {
      var next := WriteAt(w, if cancelled[k + 1] then Abandon else Retry);
      var st2 := Apply(c, st1, next);
      ExecOne(c, st1, next);
      CountNone(st1.sources, b, Write(st1, st1.workers[w], next.write).reason);
      if cancelled[k + 1] {
        ExecAppend(c, st, [attempt], [next]);
        assert st2.workers == st.workers[w := Idle];
      } else {
        var rest := WriterRun(w, outcomes, cancelled, k + 1);
        WriterSettles(c, st2, w, b, outcomes, cancelled, k + 1);
        assert st2.workers[w := Idle] == st.workers[w := Idle];
        assert WriterRun(w, outcomes, cancelled, k) == [attempt] + ([next] + rest);
        assert st2.sources == st.sources;
        ExecAppend(c, st1, [next], rest);
        ExecAppend(c, st, [attempt], [next] + rest);
      }
    }
  }
}
