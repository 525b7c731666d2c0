/** When each counter of a source moves: what messages_received, messages_stored and
    messages_dropped by reason count, step by step
    (backend/internal/ingestion/pipeline.go). */
module PipelineMetrics {
  import opened Common
  import opened Pipeline
  import opened PipelineShape

  /** A select that turns a message away or takes one back from a full queue. */
  predicate FullAt(c: Config, s: Source, a: IntakeStep) {
    a.Select? && a.j < |s.calls| &&
    match s.policy
    case Block => false
    case DropNewest => |s.queue| >= c.capacity
    case DropOldest =>
      match s.calls[a.j].phase
      case First => false
      case Evicting => s.queue != []
      case Retrying => |s.queue| >= c.capacity
  }

  lemma SelectCounts(c: Config, i: nat, s: Source, soft: bool, j: nat)
    requires IntakeEnabled(c, s, soft, Select(j))
    ensures var t := Intake(c, i, s, soft, Select(j));
            && t.received == s.received && t.stored == s.stored && t.lost == s.lost
            && t.dropped == s.dropped.(queueFull := s.dropped.queueFull + if FullAt(c, s, Select(j)) then 1 else 0)
  {
  }

  /** What an intake step counts. */
  lemma IntakeCounts(c: Config, i: nat, s: Source, soft: bool, a: IntakeStep)
    requires IntakeEnabled(c, s, soft, a)
    ensures var t := Intake(c, i, s, soft, a);
            var d := s.dropped;
            && t.received == s.received + (if a.Arrive? || a == Reject then 1 else 0)
            && t.stored == s.stored && t.lost == s.lost
            && t.dropped == Drops(
                 d.queueFull + (if FullAt(c, s, a) then 1 else 0), d.tooLarge + (if a == Oversize then 1 else 0),
                 d.parseError + (if a == Reject then 1 else 0), d.writeFailed, d.rejected,
                 d.shutdown + if a.SelectShutdown? then 1 else 0)
  {
    if a.Select? {
      SelectCounts(c, i, s, soft, a.j);
      hide Intake, FullAt;
    }
  }

  /** A dispatcher counts the entry it gives up and those it dumps. */
  lemma DispatchCounts(s: Source, room: bool, soft: bool, hard: bool, a: DispatchStep)
    requires DispatchEnabled(s, room, soft, hard, a)
    ensures var t := Dispatch(s, room, soft, hard, a).0;
            var d := s.dropped;
            && t.received == s.received && t.stored == s.stored && t.lost == s.lost
            && t.dropped == Drops(d.queueFull, d.tooLarge, d.parseError, d.writeFailed, d.rejected,
                                  d.shutdown + if a == GiveUp || a == DumpTake then 1 else 0)
  {
  }

  /** Counting a batch credits each source with its own entries, under one reason. */
  lemma DropCounts(ss: seq<Source>, es: seq<Entry>, r: Reason, i: nat)
    requires i < |ss|
    ensures |DropEntries(ss, es, r)| == |ss|
    ensures var n, d, t := |Only(i, es)|, ss[i].dropped, DropEntries(ss, es, r)[i];
            && t.received == ss[i].received && t.stored == ss[i].stored && t.lost == ss[i].lost
            && t.dropped == Drops(
                 d.queueFull + (if r == QueueFull then n else 0), d.tooLarge + (if r == TooLarge then n else 0),
                 d.parseError + (if r == ParseError then n else 0), d.writeFailed + (if r == WriteFailed then n else 0),
                 d.rejected + (if r == StorageRejected then n else 0), d.shutdown + if r == Shutdown then n else 0)
  {
    hide Only;
  }

  lemma StoreCounts(ss: seq<Source>, es: seq<Entry>, i: nat)
    requires i < |ss|
    ensures |CountStored(ss, es)| == |Lose(ss, es)| == |ss|
    ensures CountStored(ss, es)[i] == ss[i].(stored := ss[i].stored + |Only(i, es)|)
    ensures Lose(ss, es)[i] == ss[i].(lost := ss[i].lost + |Only(i, es)|)
  {
    hide Only;
  }

  /** The batcher counts as shutdown drops the open batch at its hard exit and a batch
      whose flush the deadline wins. */
  lemma BatchCounts(c: Config, st: State, a: BatchStep, i: nat)
    requires BatchEnabled(st, c, a) && i < |st.sources|
    ensures var next := Apply(c, st, BatchNow(a));
            |next.sources| == |st.sources| &&
            var s, t, d := st.sources[i], next.sources[i], st.sources[i].dropped;
            && t.received == s.received && t.stored == s.stored
            && t.dropped == d.(shutdown := d.shutdown +
                 if a == BatchHard || a == FlushDrop then |Only(i, st.batcher.batch)| else 0)
  {
    var f := Batch(c, st, a);
    OnlyNone(i, []);
    assert f.dropped == if a == BatchHard || a == FlushDrop then st.batcher.batch else [];
    hide Batch, DropEntries, Lose, Only, Flat;
    DropCounts(st.sources, f.dropped, Shutdown, i);
    StoreCounts(DropEntries(st.sources, f.dropped, Shutdown), f.lost, i);
  }

  /** A writer counts its batch as stored when an attempt is accepted, as rejected when one
      is refused, as failed at the third failure, and as a shutdown drop when the
      deadline wins a wait. */
  lemma WriteCounts(c: Config, st: State, w: nat, a: WriteStep, i: nat)
    requires Shape(c, st) && w < |st.workers| && WriteEnabled(st, st.workers[w], a) && i < |st.sources|
    ensures var next := Apply(c, st, WriteAt(w, a));
            |next.sources| == |st.sources| &&
            var s, t, d := st.sources[i], next.sources[i], st.sources[i].dropped;
            var n := |Only(i, st.workers[w].Entries())|;
            && t.received == s.received && t.lost == s.lost
            && t.stored == s.stored + (if a == Attempt(Accepted) then n else 0)
            && t.dropped == d.(
                 rejected := d.rejected + (if a == Attempt(BadRequest) then n else 0),
                 writeFailed := d.writeFailed +
                   (if a == Attempt(Unavailable) && st.workers[w].attempt == 2 then n else 0),
                 shutdown := d.shutdown + if a == Abandon then n else 0)
  {
    assert WorkerOk(c, st, st.workers[w]);
    hide Shape, Only, BatchOk;
    var worker := st.workers[w];
    var f := Write(st, worker, a);
    OnlyNone(i, []);
    WriteMeans(st, worker, a);
    hide Write, DropEntries, CountStored;
    StoreCounts(st.sources, f.stored, i);
    DropCounts(CountStored(st.sources, f.stored), f.dropped, f.reason, i);
  }

  lemma WriteMeans(st: State, w: Worker, a: WriteStep)
    requires WriteEnabled(st, w, a) && (w.Writing? ==> w.attempt <= 2)
    ensures var f := Write(st, w, a);
            && f.stored == (if a == Attempt(Accepted) then w.Entries() else [])
            && f.dropped == (if a in {Attempt(BadRequest), Abandon} || (a == Attempt(Unavailable) && w.attempt == 2)
                             then w.Entries() else [])
            && f.reason == (if a == Attempt(BadRequest) then StorageRejected
                            else if a == Abandon then Shutdown
                            else WriteFailed)
  {
  }

  // ----- what a goroutine does next -----

  /** A dispatcher takes from the front of its queue and sends just what it took. Once it
      gives an entry up, or sees the hard deadline, it sends nothing until it has emptied
      its queue; it leaves only with an empty queue. */
  lemma DispatcherTurns(c: Config, i: nat, s: Source, room: bool, soft: bool, hard: bool, a: DispatchStep)
    requires SourceOk(c, i, s, soft, hard) && DispatchEnabled(s, room, soft, hard, a)
    ensures var (t, out) := Dispatch(s, room, soft, hard, a);
            && (a == Take ==> s.queue != [] && t.disp.Holding? && s.queue == [t.disp.e] + t.queue && out == [])
            && (a == Send ==> out == [s.disp.e] && t.queue == s.queue && !t.disp.Exited?)
            && (a == GiveUp || a == SeeHard ==> t.disp.Dumping? && t.queue == s.queue && out == [])
            && (s.disp.Dumping? ==> out == [] && (t.disp.Dumping? || s.queue == []))
            && (a == DumpTake ==> s.queue != [] && t.queue == s.queue[1..])
            && (a == SeeSoft ==> t.disp == Draining && t.queue == s.queue)
            && (s.disp.Draining? ==> t.disp.Exited? || (t.disp.Holding? && t.disp.ret == ToDrain))
            && (t.disp.Exited? ==> t.queue == [])
  {
  }

  /** A worker takes the oldest batch and makes its first attempt; a failed attempt is
      followed by a wait and the next attempt on the same batch, up to the third; a
      resolved batch leaves the worker idle. */
  lemma WorkerTurns(st: State, w: Worker, a: WriteStep)
    requires WriteEnabled(st, w, a) && (w.Writing? ==> w.attempt <= 2)
    ensures var f := Write(st, w, a);
            && (a == TakeBatch ==>
                  st.batches != [] && f.worker == Writing(st.batches[0], 0) && f.batches == st.batches[1..])
            && (a != TakeBatch ==> f.batches == st.batches)
            && (a == Attempt(Unavailable) ==>
                  f.worker == if w.attempt == 2 then Idle else Waiting(w.batch, w.attempt + 1))
            && (a == Retry ==> f.worker == Writing(w.batch, w.attempt))
            && (a in {Attempt(Accepted), Attempt(BadRequest), Abandon} ==> f.worker == Idle)
            && (a == Leave ==> f.worker == Gone && st.batches == [] && st.batcher.Closed?)
  {
  }
}
