/** What every reachable state of the pipeline looks like: bounds, closed channels,
    and which goroutines can still be where. */
module PipelineShape {
  import opened Common
  import opened Pipeline

  /** A batch handed to the writers: nonempty, within the entry limit, and below
      the byte limit without its last entry. */
  predicate BatchOk(c: Config, b: seq<Entry>) {
    1 <= |b| <= c.maxEntries && ByteSize(b[..|b| - 1]) < c.maxBytes
  }

  predicate Owned(i: nat, s: Source, es: seq<Entry>) {
    forall k :: 0 <= k < |es| ==> es[k].src == i && es[k].no < |s.admitted|
  }

  predicate SourceOk(c: Config, i: nat, s: Source, soft: bool, hard: bool) {
    && |s.queue| <= c.capacity
    && Owned(i, s, s.queue) && Owned(i, s, s.Hand())
    && (forall k :: 0 <= k < |s.admitted| ==> s.admitted[k].no == k && s.admitted[k].src == i)
    && (forall n :: n in s.evicted ==> n < |s.admitted|)
    && (s.disp.Holding? ==> s.disp.ret != ToExit && (s.disp.ret == ToDrain ==> soft))
    && (s.disp.Draining? || s.disp.Exited? ==> soft)
    && (s.disp.Dumping? ==> hard)
    && (!soft ==> s.dropped.shutdown == 0)
    && (!hard ==> s.lost == 0)
  }

  predicate SourcesOk(c: Config, st: State) {
    && |st.sources| == |c.policies|
    && (forall i :: 0 <= i < |st.sources| ==> SourceOk(c, i, st.sources[i], st.soft, st.hard))
    && (st.hard ==> st.soft)
  }

  predicate BatcherOk(c: Config, st: State) {
    match st.batcher
    case Collecting(b) => |b| < c.maxEntries && ByteSize(b) < c.maxBytes
    case Flushing(b, after) => BatchOk(c, b) && (after == Exit ==> st.inClosed && st.inq == [])
    case Swallowing => st.hard
    case Closed => st.inClosed && st.inq == []
  }

  predicate ChannelsOk(c: Config, st: State) {
    && |st.inq| <= IN_CAPACITY
    && |st.batches| <= 2 * c.workers
    && (forall k :: 0 <= k < |st.batches| ==> BatchOk(c, st.batches[k]))
    && (st.inClosed ==> forall i :: 0 <= i < |st.sources| ==> st.sources[i].disp.Exited?)
  }

  predicate WorkerOk(c: Config, st: State, w: Worker) {
    match w
    case Idle => true
    case Writing(b, k) => BatchOk(c, b) && k < WRITE_ATTEMPTS
    case Waiting(b, k) => BatchOk(c, b) && 1 <= k < WRITE_ATTEMPTS
    case Gone => st.batcher.Closed? && st.batches == []
  }

  predicate WorkersOk(c: Config, st: State) {
    |st.workers| == c.workers && forall k :: 0 <= k < |st.workers| ==> WorkerOk(c, st, st.workers[k])
  }

  predicate Shape(c: Config, st: State) {
    c.Valid() && SourcesOk(c, st) && ChannelsOk(c, st) && BatcherOk(c, st) && WorkersOk(c, st)
  }

  lemma InitShape(c: Config)
    requires c.Valid()
    ensures Shape(c, Init(c))
  {
  }

  lemma AdmitOk(c: Config, i: nat, s: Source, call: Call, soft: bool, hard: bool)
    requires SourceOk(c, i, s, soft, hard) && |s.queue| < c.capacity
    ensures SourceOk(c, i, Admit(i, s, call), soft, hard)
  {
  }

  lemma EvictOk(c: Config, i: nat, s: Source, soft: bool, hard: bool)
    requires SourceOk(c, i, s, soft, hard) && s.queue != []
    ensures SourceOk(c, i, Evict(s), soft, hard)
  {
  }

  /** SourceOk says nothing of the producers, and lets every reason but shutdown grow. */
  lemma CallsOk(c: Config, i: nat, s: Source, calls: seq<Call>, r: Reason, soft: bool, hard: bool)
    requires SourceOk(c, i, s, soft, hard) && (r == Shutdown ==> soft)
    ensures SourceOk(c, i, s.(calls := calls), soft, hard)
    ensures SourceOk(c, i, s.(calls := calls).Drop(r), soft, hard)
  {
  }

  lemma SelectOk(c: Config, i: nat, s: Source, soft: bool, hard: bool, j: nat)
    requires SourceOk(c, i, s, soft, hard) && IntakeEnabled(c, s, soft, Select(j))
    ensures SourceOk(c, i, Intake(c, i, s, soft, Select(j)), soft, hard)
  {
    hide SourceOk;
    var t := Finished(s, j);
    CallsOk(c, i, s, t.calls, QueueFull, soft, hard);
    if |s.queue| < c.capacity {
      AdmitOk(c, i, t, s.calls[j], soft, hard);
    }
    var u := s.(calls := s.calls[j := s.calls[j].(phase := Retrying)]);
    CallsOk(c, i, s, u.calls, QueueFull, soft, hard);
    CallsOk(c, i, s, s.calls[j := s.calls[j].(phase := Evicting)], QueueFull, soft, hard);
    if u.queue != [] {
      EvictOk(c, i, u, soft, hard);
    }
  }

  lemma IntakeOk(c: Config, i: nat, s: Source, soft: bool, hard: bool, a: IntakeStep)
    requires SourceOk(c, i, s, soft, hard) && IntakeEnabled(c, s, soft, a)
    ensures SourceOk(c, i, Intake(c, i, s, soft, a), soft, hard)
  {
    match a
    case Select(j) =>
      SelectOk(c, i, s, soft, hard, j);
    case SelectShutdown(j) =>
      CallsOk(c, i, s, Finished(s, j).calls, Shutdown, soft, hard);
    case _ =>
  }

  lemma IntakeKeepsDispatcher(c: Config, i: nat, s: Source, soft: bool, a: IntakeStep)
    requires IntakeEnabled(c, s, soft, a)
    ensures Intake(c, i, s, soft, a).disp == s.disp
  {
  }

  lemma DispatchOk(c: Config, i: nat, s: Source, room: bool, soft: bool, hard: bool, a: DispatchStep)
    requires SourceOk(c, i, s, soft, hard) && DispatchEnabled(s, room, soft, hard, a) && (hard ==> soft)
    ensures var (t, out) := Dispatch(s, room, soft, hard, a);
            && SourceOk(c, i, t, soft, hard)
            && |out| <= (if room then 1 else 0)
            && (s.disp.Exited? ==> false)
  {
  }

  /** Counting touches the counters only. */
  lemma CountOneOk(c: Config, i: nat, s: Source, n: nat, r: Reason, soft: bool, hard: bool)
    requires SourceOk(c, i, s, soft, hard) && (r == Shutdown && n > 0 ==> soft)
    ensures SourceOk(c, i, s.(dropped := s.dropped.Bump(r, n)), soft, hard)
    ensures SourceOk(c, i, s.(stored := s.stored + n), soft, hard)
    ensures hard || n == 0 ==> SourceOk(c, i, s.(lost := s.lost + n), soft, hard)
  {
  }

  lemma OnlyNone(i: nat, es: seq<Entry>)
    ensures es == [] ==> Only(i, es) == []
  {
  }

  lemma CountingOk(c: Config, st: State, es: seq<Entry>, r: Reason)
    requires SourcesOk(c, st) && (r == Shutdown && es != [] ==> st.soft)
    ensures SourcesOk(c, st.(sources := DropEntries(st.sources, es, r)))
    ensures SourcesOk(c, st.(sources := CountStored(st.sources, es)))
    ensures st.hard || es == [] ==> SourcesOk(c, st.(sources := Lose(st.sources, es)))
  {
    hide SourceOk, Only, Drops.Bump;
    forall i | 0 <= i < |st.sources|
      ensures SourceOk(c, i, DropEntries(st.sources, es, r)[i], st.soft, st.hard)
      ensures SourceOk(c, i, CountStored(st.sources, es)[i], st.soft, st.hard)
      ensures st.hard || es == [] ==> SourceOk(c, i, Lose(st.sources, es)[i], st.soft, st.hard)
    {
      OnlyNone(i, es);
      CountOneOk(c, i, st.sources[i], |Only(i, es)|, r, st.soft, st.hard);
    }
  }

  lemma SourcesBatch(c: Config, st: State, a: BatchStep)
    requires SourcesOk(c, st) && BatchEnabled(st, c, a) && (st.batcher.Swallowing? ==> st.hard)
    ensures SourcesOk(c, Apply(c, st, BatchNow(a)))
  {
    var f := Batch(c, st, a);
    assert (f.dropped != [] ==> st.hard) && (f.lost != [] ==> st.hard);
    hide Batch, DropEntries, Lose, SourceOk;
    CountingOk(c, st, f.dropped, Shutdown);
    var mid := st.(sources := DropEntries(st.sources, f.dropped, Shutdown));
    CountingOk(c, mid, f.lost, WriteFailed);
    assert |DropEntries(st.sources, f.dropped, Shutdown)| == |Lose(mid.sources, f.lost)| == |st.sources| by {
      SameDispatchers(st.sources, f.dropped, Shutdown);
      SameDispatchers(mid.sources, f.lost, Shutdown);
    }
  }

  lemma SourcesWrite(c: Config, st: State, w: nat, a: WriteStep)
    requires SourcesOk(c, st) && w < |st.workers| && WriteEnabled(st, st.workers[w], a)
    ensures SourcesOk(c, Apply(c, st, WriteAt(w, a)))
  {
    var f := Write(st, st.workers[w], a);
    assert f.reason == Shutdown && f.dropped != [] ==> st.hard;
    hide Write, DropEntries, CountStored, SourceOk;
    CountingOk(c, st, f.stored, WriteFailed);
    var mid := st.(sources := CountStored(st.sources, f.stored));
    CountingOk(c, mid, f.dropped, f.reason);
    assert |CountStored(st.sources, f.stored)| == |DropEntries(mid.sources, f.dropped, f.reason)| == |st.sources| by {
      SameDispatchers(st.sources, f.stored, f.reason);
      SameDispatchers(mid.sources, f.dropped, f.reason);
    }
  }

  /** A cancellation allows more. */
  lemma CancelOk(c: Config, i: nat, s: Source, soft: bool, hard: bool)
    requires SourceOk(c, i, s, soft, hard)
    ensures SourceOk(c, i, s, true, hard) && SourceOk(c, i, s, soft, true)
  {
  }

  lemma SourcesStep(c: Config, st: State, step: Step)
    requires Shape(c, st) && Enabled(c, st, step)
    ensures SourcesOk(c, Apply(c, st, step))
  {
    hide SourceOk, Intake, Dispatch, ByteSize, BatchOk, WorkersOk, ChannelsOk;
    match step
    case IntakeAt(i, a) =>
      IntakeOk(c, i, st.sources[i], st.soft, st.hard, a);
    case DispatchAt(i, a) =>
      DispatchOk(c, i, st.sources[i], |st.inq| < IN_CAPACITY, st.soft, st.hard, a);
    case BatchNow(a) =>
      SourcesBatch(c, st, a);
      hide Apply;
    case WriteAt(w, a) =>
      SourcesWrite(c, st, w, a);
      hide Apply;
    case CloseIn =>
    case _ =>
      forall i | 0 <= i < |st.sources|
        ensures SourceOk(c, i, st.sources[i], true, st.hard) && SourceOk(c, i, st.sources[i], st.soft, true)
      {
        CancelOk(c, i, st.sources[i], st.soft, st.hard);
      }
  }

  lemma SameDispatchers(ss: seq<Source>, es: seq<Entry>, r: Reason)
    ensures |CountStored(ss, es)| == |DropEntries(ss, es, r)| == |Lose(ss, es)| == |ss|
    ensures forall i :: 0 <= i < |ss| ==>
              && CountStored(ss, es)[i].disp == ss[i].disp
              && DropEntries(ss, es, r)[i].disp == ss[i].disp
              && Lose(ss, es)[i].disp == ss[i].disp
  {
  }

  lemma CollectOk(c: Config, b: seq<Entry>, e: Entry)
    requires c.Valid() && |b| < c.maxEntries && ByteSize(b) < c.maxBytes
    ensures match Collect(c, b, e)
            case Collecting(x) => x == b + [e] && |x| < c.maxEntries && ByteSize(x) < c.maxBytes
            case Flushing(x, after) =>
              x == b + [e] && BatchOk(c, x) && after == Continue && (|x| >= c.maxEntries || ByteSize(x) >= c.maxBytes)
            case _ => false
  {
    assert (b + [e])[..|b|] == b;
  }

  lemma PartialOk(c: Config, b: seq<Entry>)
    requires b != [] && |b| < c.maxEntries && ByteSize(b) < c.maxBytes
    ensures BatchOk(c, b)
  {
  }

  lemma BatcherStepOk(c: Config, st: State, a: BatchStep)
    requires c.Valid() && BatcherOk(c, st) && BatchEnabled(st, c, a)
    ensures var f := Batch(c, st, a);
            && BatcherOk(c, st.(batcher := f.batcher, inq := f.inq))
            && |f.inq| <= |st.inq|
            && (f.emit == [] || (|st.batches| < 2 * c.workers && |f.emit| == 1 && BatchOk(c, f.emit[0])))
  {
    var b := st.batcher;
    if b.Collecting? && b.batch != [] {
      PartialOk(c, b.batch);
    }
    if a.Receive? {
      CollectOk(c, b.batch, st.inq[0]);
    }
    assert ByteSize([]) == 0;
    hide ByteSize, BatchOk, Collect;
  }

  lemma BatchStepOk(c: Config, st: State, a: BatchStep)
    requires Shape(c, st) && BatchEnabled(st, c, a)
    ensures var next := Apply(c, st, BatchNow(a));
            ChannelsOk(c, next) && BatcherOk(c, next)
  {
    hide Batch, BatchOk, DropEntries, Lose, Flat, WorkersOk, SourcesOk;
    var f := Batch(c, st, a);
    BatcherStepOk(c, st, a);
    SameDispatchers(st.sources, f.dropped, Shutdown);
    SameDispatchers(DropEntries(st.sources, f.dropped, Shutdown), f.lost, Shutdown);
  }

  lemma ChannelsStep(c: Config, st: State, step: Step)
    requires Shape(c, st) && Enabled(c, st, step)
    ensures ChannelsOk(c, Apply(c, st, step)) && BatcherOk(c, Apply(c, st, step))
  {
    match step
    case IntakeAt(i, a) =>
      IntakeKeepsDispatcher(c, i, st.sources[i], st.soft, a);
      hide ByteSize, BatchOk, WorkersOk, Intake;
    case DispatchAt(i, a) =>
      DispatchOk(c, i, st.sources[i], |st.inq| < IN_CAPACITY, st.soft, st.hard, a);
      hide ByteSize, BatchOk, WorkersOk;
    case BatchNow(a) =>
      BatchStepOk(c, st, a);
      hide ByteSize, BatchOk, WorkersOk;
    case _ =>
      hide ByteSize, BatchOk;
  }

  lemma WorkersStep(c: Config, st: State, step: Step)
    requires Shape(c, st) && Enabled(c, st, step)
    ensures WorkersOk(c, Apply(c, st, step))
  {
  }

  /** Every step keeps the shape. */
  lemma ShapeStep(c: Config, st: State, step: Step)
    requires Shape(c, st) && Enabled(c, st, step)
    ensures Shape(c, Apply(c, st, step))
  {
    SourcesStep(c, st, step);
    ChannelsStep(c, st, step);
    WorkersStep(c, st, step);
  }

  lemma {:induction false} ShapeOverRuns(c: Config, from: State, steps: seq<Step>)
    requires Shape(c, from) && Exec(c, from, steps).Some?
    ensures Shape(c, Exec(c, from, steps).value)
  {
    if steps == [] {
    } else {
      ShapeOverRuns(c, from, steps[..|steps| - 1]);
      ShapeStep(c, Exec(c, from, steps[..|steps| - 1]).value, steps[|steps| - 1]);
    }
  }

  /** A goroutine is about to send on a channel that has been closed. */
  predicate SendsOnClosed(st: State) {
    || (st.inClosed && exists i :: 0 <= i < |st.sources| && st.sources[i].disp.Holding?)
    || (st.batcher.Flushing? && exists w :: 0 <= w < |st.workers| && st.workers[w].Gone?)
  }

  /** No run sends on a closed channel, overfills a queue or channel, or hands the
      writers a batch outside its bounds. */
  lemma SafeOverRuns(c: Config, steps: seq<Step>)
    requires c.Valid() && Exec(c, Init(c), steps).Some?
    ensures var st := Exec(c, Init(c), steps).value;
            && !SendsOnClosed(st)
            && (forall i :: 0 <= i < |st.sources| ==> |st.sources[i].queue| <= c.capacity)
            && |st.inq| <= 1024 && |st.batches| <= 2 * c.workers
            && (forall k :: 0 <= k < |st.batches| ==> BatchOk(c, st.batches[k]))
  {
    InitShape(c);
    ShapeOverRuns(c, Init(c), steps);
  }

  /** Entries of at most a bytes make batches of fewer than maxBytes + a. */
  lemma BatchBytes(c: Config, b: seq<Entry>, a: nat)
    requires BatchOk(c, b) && forall k :: 0 <= k < |b| ==> b[k].size <= a
    ensures ByteSize(b) < c.maxBytes + a
  {
  }

  /** The size of a batch is the sum of its entries' sizes. */
  lemma {:induction false} ByteSizeAdds(a: seq<Entry>, b: seq<Entry>)
    ensures ByteSize(a + b) == ByteSize(a) + ByteSize(b)
    ensures ByteSize([]) == 0 && forall e: Entry :: ByteSize([e]) == e.size
    decreases |b|
  {
    forall e: Entry
      ensures ByteSize([e]) == e.size
    {
      assert [e][..0] == [] && ByteSize([]) == 0;
    }
    if b == [] {
      assert a + b == a;
    } else {
      var n := |b| - 1;
      ByteSizeAdds(a, b[..n]);
      assert (a + b)[..|a + b| - 1] == a + b[..n];
    }
  }

  // ----- why a batch is handed on -----

  /** The last step of the batcher in a run. */
  function LastBatch(steps: seq<Step>): Option<BatchStep> {
    if steps == [] then None
    else if steps[|steps| - 1].BatchNow? then Some(steps[|steps| - 1].batch)
    else LastBatch(steps[..|steps| - 1])
  }

  /** The batcher is about to hand its batch on exactly if it has just reached a limit, or
      a tick or the closed channel found it nonempty; any other batch it holds is below
      both limits. */
  lemma {:induction false} FlushCause(c: Config, steps: seq<Step>)
    requires c.Valid() && Exec(c, Init(c), steps).Some?
    ensures match Exec(c, Init(c), steps).value.batcher
            case Flushing(b, after) =>
              && b != []
              && (|| (LastBatch(steps) == Some(Receive) && (|b| >= c.maxEntries || ByteSize(b) >= c.maxBytes))
                  || LastBatch(steps) == Some(Tick) || LastBatch(steps) == Some(SeeClosed))
            case Collecting(b) =>
              && |b| < c.maxEntries && ByteSize(b) < c.maxBytes
              && (LastBatch(steps) in {Some(Tick), Some(Emit), Some(FlushDrop)} ==> b == [])
            case _ => true
  {
    if steps == [] {
      assert ByteSize([]) == 0;
    } else {
      var front, last := steps[..|steps| - 1], steps[|steps| - 1];
      FlushCause(c, front);
      InitShape(c);
      ShapeOverRuns(c, Init(c), front);
      var st := Exec(c, Init(c), front).value;
      assert BatcherOk(c, st);
      hide Shape;
      if last.BatchNow? {
        BatchCause(c, st, last.batch);
      } else {
        SameBatcher(c, st, last);
      }
      hide Apply, Enabled, BatcherOk, ByteSize;
    }
  }

  lemma SameBatcher(c: Config, st: State, step: Step)
    requires Enabled(c, st, step) && !step.BatchNow?
    ensures Apply(c, st, step).batcher == st.batcher
  {
  }

  lemma BatchCause(c: Config, st: State, a: BatchStep)
    requires c.Valid() && BatcherOk(c, st) && BatchEnabled(st, c, a)
    ensures match Apply(c, st, BatchNow(a)).batcher
            case Flushing(b, _) =>
              && b != []
              && (a == Tick || a == SeeClosed || (a == Receive && (|b| >= c.maxEntries || ByteSize(b) >= c.maxBytes)))
            case Collecting(b) =>
              |b| < c.maxEntries && ByteSize(b) < c.maxBytes && (a in {Tick, Emit, FlushDrop} ==> b == [])
            case _ => true
  {
    if a.Receive? {
      CollectOk(c, st.batcher.batch, st.inq[0]);
    }
    assert ByteSize([]) == 0;
    hide ByteSize, Collect, BatchOk, DropEntries, Lose, Flat;
  }
}
