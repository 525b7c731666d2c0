/** Shutdown of the pipeline: it always quiesces, it is never stuck on the way, and a
    graceful stop accounts for every message without a shutdown drop. */
module PipelineDrain {
  import opened Pipeline
  import opened PipelineShape
  import opened PipelineAccount

  // ----- a measure every step but an arrival decreases -----

  function DispatcherRank(d: Dispatcher): nat {
    match d
    case Exited => 0
    case Draining => 1
    case Looping => 2
    case Dumping(to) => if to == ToExit then 1 else if to == ToDrain then 2 else 3
    case Holding(_, ret) => 15 + if ret == ToLoop then 2 else if ret == ToDrain then 1 else 0
  }

  function CallRank(a: Call): nat {
    match a.phase
    case First => 19
    case Evicting => 18
    case Retrying => 17
  }

  function CallsRank(calls: seq<Call>): nat {
    if calls == [] then 0 else CallsRank(calls[..|calls| - 1]) + CallRank(calls[|calls| - 1])
  }

  function SourceRank(s: Source): nat {
    CallsRank(s.calls) + 16 * |s.queue| + DispatcherRank(s.disp)
  }

  function SourcesRank(ss: seq<Source>): nat {
    if ss == [] then 0 else SourcesRank(ss[..|ss| - 1]) + SourceRank(ss[|ss| - 1])
  }

  function BatcherRank(b: Batcher): nat {
    match b
    case Collecting(es) => 12 * |es| + 2
    case Flushing(es, _) => 12 * |es| + 1
    case Swallowing => 1
    case Closed => 0
  }

  function AttemptsLeft(k: nat): nat {
    if k < WRITE_ATTEMPTS then WRITE_ATTEMPTS - k else 0
  }

  function WorkerRank(w: Worker): nat {
    match w
    case Idle => 1
    case Writing(_, k) => 3 + 2 * AttemptsLeft(k)
    case Waiting(_, k) => 4 + 2 * AttemptsLeft(k)
    case Gone => 0
  }

  function WorkersRank(ws: seq<Worker>): nat {
    if ws == [] then 0 else WorkersRank(ws[..|ws| - 1]) + WorkerRank(ws[|ws| - 1])
  }

  function Rank(st: State): nat {
    SourcesRank(st.sources) + 14 * |st.inq| + (if st.inClosed then 0 else 1) + BatcherRank(st.batcher)
    + 9 * |st.batches| + WorkersRank(st.workers) + (if st.soft then 0 else 1) + (if st.hard then 0 else 1)
  }

  predicate Arrival(step: Step) {
    step.IntakeAt? && (step.intake.Arrive? || step.intake.Reject? || step.intake.Oversize?)
  }

  /** A step that is neither an arrival nor the tick of an empty batch. */
  predicate Progress(st: State, step: Step) {
    !Arrival(step) && !(step == BatchNow(Tick) && st.batcher == Collecting([]))
  }

  lemma {:induction false} CallsUpdate(calls: seq<Call>, j: nat, a: Call)
    requires j < |calls|
    ensures CallsRank(calls[j := a]) + CallRank(calls[j]) == CallsRank(calls) + CallRank(a)
    ensures CallsRank(calls[..j] + calls[j + 1..]) + CallRank(calls[j]) == CallsRank(calls)
  {
    var n := |calls| - 1;
    if j < n {
      CallsUpdate(calls[..n], j, a);
      assert calls[j := a][..n] == calls[..n][j := a];
      var cut := calls[..j] + calls[j + 1..];
      assert cut[..|cut| - 1] == calls[..n][..j] + calls[..n][j + 1..];
    } else {
      assert calls[j := a][..n] == calls[..n];
      assert calls[..j] + calls[j + 1..] == calls[..n];
    }
  }

  lemma {:induction false} SourcesUpdate(ss: seq<Source>, i: nat, s: Source)
    requires i < |ss|
    ensures SourcesRank(ss[i := s]) + SourceRank(ss[i]) == SourcesRank(ss) + SourceRank(s)
  {
    var n := |ss| - 1;
    if i < n {
      SourcesUpdate(ss[..n], i, s);
      assert ss[i := s][..n] == ss[..n][i := s];
    } else {
      assert ss[i := s][..n] == ss[..n];
    }
  }

  lemma {:induction false} WorkersUpdate(ws: seq<Worker>, k: nat, w: Worker)
    requires k < |ws|
    ensures WorkersRank(ws[k := w]) + WorkerRank(ws[k]) == WorkersRank(ws) + WorkerRank(w)
  {
    var n := |ws| - 1;
    if k < n {
      WorkersUpdate(ws[..n], k, w);
      assert ws[k := w][..n] == ws[..n][k := w];
    } else {
      assert ws[k := w][..n] == ws[..n];
    }
  }

  lemma {:induction false} SameRank(ss: seq<Source>, ts: seq<Source>)
    requires |ss| == |ts| && forall i :: 0 <= i < |ss| ==> SourceRank(ss[i]) == SourceRank(ts[i])
    ensures SourcesRank(ss) == SourcesRank(ts)
  {
    if ss == [] {
    } else {
      SameRank(ss[..|ss| - 1], ts[..|ts| - 1]);
    }
  }

  /** Counting moves nothing. */
  lemma CountingRank(ss: seq<Source>, es: seq<Entry>, r: Reason)
    ensures SourcesRank(CountStored(ss, es)) == SourcesRank(ss)
    ensures SourcesRank(DropEntries(ss, es, r)) == SourcesRank(ss)
    ensures SourcesRank(Lose(ss, es)) == SourcesRank(ss)
  {
    SameRank(ss, CountStored(ss, es));
    SameRank(ss, DropEntries(ss, es, r));
    SameRank(ss, Lose(ss, es));
  }

  lemma IntakeRank(c: Config, i: nat, s: Source, soft: bool, a: IntakeStep)
    requires IntakeEnabled(c, s, soft, a) && (a.Select? || a.SelectShutdown?)
    ensures SourceRank(Intake(c, i, s, soft, a)) < SourceRank(s)
  {
    hide CallsRank;
    var j := a.j;
    CallsUpdate(s.calls, j, s.calls[j].(phase := Evicting));
    CallsUpdate(s.calls, j, s.calls[j].(phase := Retrying));
  }

  lemma DispatchRank(c: Config, i: nat, s: Source, room: bool, soft: bool, hard: bool, a: DispatchStep)
    requires SourceOk(c, i, s, soft, hard) && DispatchEnabled(s, room, soft, hard, a)
    ensures var (t, out) := Dispatch(s, room, soft, hard, a);
            SourceRank(t) + 14 * |out| < SourceRank(s)
  {
    hide CallsRank;
  }

  lemma BatchRank(c: Config, st: State, a: BatchStep)
    requires BatcherOk(c, st) && BatchEnabled(st, c, a) && !(a == Tick && st.batcher == Collecting([]))
    ensures var f := Batch(c, st, a);
            BatcherRank(f.batcher) + 14 * |f.inq| + 9 * |f.emit| < BatcherRank(st.batcher) + 14 * |st.inq|
  {
    hide ByteSize;
  }

  lemma WriteRank(c: Config, st: State, w: Worker, a: WriteStep)
    requires WorkerOk(c, st, w) && WriteEnabled(st, w, a)
    ensures var f := Write(st, w, a);
            WorkerRank(f.worker) + 9 * |f.batches| < WorkerRank(w) + 9 * |st.batches|
  {
  }

  /** Every step but an arrival and an idle tick brings the pipeline closer to rest,
      whatever has been cancelled. */
  lemma RankStep(c: Config, st: State, step: Step)
    requires Shape(c, st) && Enabled(c, st, step) && Progress(st, step)
    ensures Rank(Apply(c, st, step)) < Rank(st)
  {
    hide SourcesRank, WorkersRank, SourceRank, WorkerRank, BatcherRank;
    hide Intake, Dispatch, Batch, Write, CountStored, DropEntries, Lose, Flat;
    match step
    case IntakeAt(i, a) =>
      IntakeRank(c, i, st.sources[i], st.soft, a);
      SourcesUpdate(st.sources, i, Intake(c, i, st.sources[i], st.soft, a));
    case DispatchAt(i, a) =>
      var room := |st.inq| < IN_CAPACITY;
      DispatchRank(c, i, st.sources[i], room, st.soft, st.hard, a);
      SourcesUpdate(st.sources, i, Dispatch(st.sources[i], room, st.soft, st.hard, a).0);
    case BatchNow(a) =>
      var f := Batch(c, st, a);
      BatchRank(c, st, a);
      CountingRank(st.sources, f.dropped, Shutdown);
      CountingRank(DropEntries(st.sources, f.dropped, Shutdown), f.lost, Shutdown);
    case WriteAt(k, a) =>
      var f := Write(st, st.workers[k], a);
      WriteRank(c, st, st.workers[k], a);
      WorkersUpdate(st.workers, k, f.worker);
      CountingRank(st.sources, f.stored, f.reason);
      CountingRank(CountStored(st.sources, f.stored), f.dropped, f.reason);
    case CloseIn =>
    case SoftCancel =>
    case HardCancel =>
  }

  // ----- never stuck -----

  /** Stop can return: every goroutine has exited and no producer is waiting. */
  predicate Final(st: State) {
    && (forall i :: 0 <= i < |st.sources| ==> st.sources[i].disp.Exited? && st.sources[i].calls == [])
    && st.batcher.Closed?
    && (forall k :: 0 <= k < |st.workers| ==> st.workers[k].Gone?)
  }

  /** A step the pipeline can take by itself. */
  predicate Next(c: Config, st: State, step: Step) {
    Enabled(c, st, step) && Progress(st, step) && step != HardCancel
  }

  lemma WorkerMoves(c: Config, st: State, k: nat) returns (step: Step)
    requires Shape(c, st) && k < |st.workers| && !st.workers[k].Gone?
    requires st.batches != [] || st.batcher.Closed?
    ensures Next(c, st, step)
  {
    match st.workers[k]
    case Idle => step := WriteAt(k, if st.batches != [] then TakeBatch else Leave);
    case Writing(_, _) => step := WriteAt(k, Attempt(Accepted));
    case Waiting(_, _) => step := WriteAt(k, Retry);
  }

  lemma BatcherMoves(c: Config, st: State) returns (step: Step)
    requires Shape(c, st) && !st.batcher.Closed? && (st.inq != [] || st.inClosed)
    ensures Next(c, st, step)
  {
    match st.batcher
    case Collecting(_) => step := BatchNow(if st.inq != [] then Receive else SeeClosed);
    case Swallowing => step := BatchNow(if st.inq != [] then Swallow else SwallowEnd);
    case Flushing(_, _) =>
      if |st.batches| < 2 * c.workers {
        step := BatchNow(Emit);
      } else {
        assert WorkerOk(c, st, st.workers[0]);
        step := WorkerMoves(c, st, 0);
      }
  }

  lemma DispatcherMoves(c: Config, st: State, i: nat) returns (step: Step)
    requires Shape(c, st) && st.soft && i < |st.sources| && !st.sources[i].disp.Exited?
    ensures Next(c, st, step)
  {
    var s := st.sources[i];
    match s.disp
    case Looping => step := DispatchAt(i, SeeSoft);
    case Draining => step := DispatchAt(i, if s.queue != [] then Take else DrainEnd);
    case Dumping(_) => step := DispatchAt(i, if s.queue != [] then DumpTake else DumpEnd);
    case Holding(_, _) =>
      if |st.inq| < IN_CAPACITY {
        step := DispatchAt(i, Send);
      } else {
        step := BatcherMoves(c, st);
      }
  }

  /** After the soft cancel some step is always possible until all have exited. */
  lemma NoDeadlock(c: Config, st: State) returns (step: Step)
    requires Shape(c, st) && st.soft && !Final(st)
    ensures Next(c, st, step)
  {
    if i: nat :| i < |st.sources| && st.sources[i].calls != [] {
      step := IntakeAt(i, if st.sources[i].policy == Block then SelectShutdown(0) else Select(0));
    } else if i: nat :| i < |st.sources| && !st.sources[i].disp.Exited? {
      step := DispatcherMoves(c, st, i);
    } else if !st.inClosed {
      step := CloseIn;
    } else if !st.batcher.Closed? {
      step := BatcherMoves(c, st);
    } else {
      var k: nat :| k < |st.workers| && !st.workers[k].Gone?;
      step := WorkerMoves(c, st, k);
    }
  }

  lemma FinalRests(c: Config, st: State, step: Step)
    requires Shape(c, st) && st.soft && Final(st)
    ensures !Next(c, st, step)
  {
  }

  // ----- where a stop ends -----

  lemma {:induction false} NoneInWorkers(i: nat, ws: seq<Worker>)
    requires forall k :: 0 <= k < |ws| ==> ws[k].Gone?
    ensures InWorkers(i, ws) == 0
  {
    if ws == [] {
    } else {
      NoneInWorkers(i, ws[..|ws| - 1]);
    }
  }

  /** At rest the only messages unaccounted for are those left on a queue. */
  lemma FinalAccount(c: Config, st: State, i: nat)
    requires Shape(c, st) && Final(st) && i < |st.sources| && Balanced(st, i)
    ensures st.sources[i].received == |st.sources[i].queue| + Left(st.sources[i])
    ensures st.inq == [] && st.batches == []
  {
    NoneInWorkers(i, st.workers);
    assert WorkerOk(c, st, st.workers[0]);
  }

  /** A graceful stop under way: no producer left when it began, no hard deadline. */
  predicate Quiet(st: State) {
    && st.soft && !st.hard
    && forall i :: 0 <= i < |st.sources| ==> QuietSource(st.sources[i])
  }

  predicate QuietSource(s: Source) {
    s.calls == [] && (s.disp.Exited? ==> s.queue == []) && s.dropped.shutdown == 0
  }

  lemma QuietStart(c: Config, st: State)
    requires Shape(c, st) && !st.soft
    requires forall i :: 0 <= i < |st.sources| ==> st.sources[i].calls == []
    ensures Quiet(Apply(c, st, SoftCancel))
  {
    forall i | 0 <= i < |st.sources|
      ensures QuietSource(st.sources[i])
    {
      assert SourceOk(c, i, st.sources[i], st.soft, st.hard);
    }
  }

  lemma QuietCounting(ss: seq<Source>, es: seq<Entry>, r: Reason)
    requires forall i :: 0 <= i < |ss| ==> QuietSource(ss[i])
    requires r == Shutdown ==> es == []
    ensures |DropEntries(ss, es, r)| == |CountStored(ss, es)| == |Lose(ss, es)| == |ss|
    ensures forall i :: 0 <= i < |ss| ==>
              QuietSource(DropEntries(ss, es, r)[i]) && QuietSource(CountStored(ss, es)[i])
              && QuietSource(Lose(ss, es)[i])
  {
  }

  /** Steps the environment of a graceful stop allows: no new intake, no deadline. */
  predicate Calm(step: Step) {
    !Arrival(step) && step != HardCancel
  }

  lemma QuietStep(c: Config, st: State, step: Step)
    requires Shape(c, st) && Quiet(st) && Enabled(c, st, step) && Calm(step)
    ensures Quiet(Apply(c, st, step))
  {
    match step
    case IntakeAt(i, a) =>
      assert false;
    case DispatchAt(i, a) =>
      assert QuietSource(st.sources[i]);
    case BatchNow(a) =>
      var f := Batch(c, st, a);
      BatchConserves(c, st, a);
      hide Batch, DropEntries, Lose, Flat, QuietSource;
      QuietCounting(st.sources, f.dropped, Shutdown);
      QuietCounting(DropEntries(st.sources, f.dropped, Shutdown), f.lost, WriteFailed);
    case WriteAt(k, a) =>
      var f := Write(st, st.workers[k], a);
      assert f.reason == Shutdown ==> f.dropped == [];
      hide Write, DropEntries, CountStored, QuietSource;
      QuietCounting(st.sources, f.stored, WriteFailed);
      QuietCounting(CountStored(st.sources, f.stored), f.dropped, f.reason);
    case _ =>
  }

  /** How many of a run's steps were progress. */
  function Moves(c: Config, from: State, steps: seq<Step>): nat {
    if steps == [] then 0
    else
      var front := steps[..|steps| - 1];
      Moves(c, from, front) +
      if Exec(c, from, front).Some? && Progress(Exec(c, from, front).value, steps[|steps| - 1]) then 1 else 0
  }

  /** Without arrivals the pipeline makes at most Rank moves, from any state and
      whatever is cancelled on the way. */
  lemma {:induction false} Quiesces(c: Config, from: State, steps: seq<Step>)
    requires Shape(c, from) && Exec(c, from, steps).Some?
    requires forall k :: 0 <= k < |steps| ==> !Arrival(steps[k])
    ensures Moves(c, from, steps) + Rank(Exec(c, from, steps).value) <= Rank(from)
  {
    if steps == [] {
    } else {
      var front, last := steps[..|steps| - 1], steps[|steps| - 1];
      Quiesces(c, from, front);
      ShapeOverRuns(c, from, front);
      var st := Exec(c, from, front).value;
      if Progress(st, last) {
        RankStep(c, st, last);
      } else {
        IdleTick(c, st);
      }
    }
  }

  lemma IdleTick(c: Config, st: State)
    requires st.batcher == Collecting([])
    ensures Rank(Apply(c, st, BatchNow(Tick))) == Rank(st)
  {
    hide SourcesRank, WorkersRank, DropEntries, Lose;
    CountingRank(st.sources, [], Shutdown);
    CountingRank(DropEntries(st.sources, [], Shutdown), [], Shutdown);
  }

  lemma {:induction false} QuietOverRuns(c: Config, from: State, steps: seq<Step>)
    requires Shape(c, from) && Quiet(from) && Exec(c, from, steps).Some?
    requires forall k :: 0 <= k < |steps| ==> Calm(steps[k])
    ensures Quiet(Exec(c, from, steps).value)
  {
    if steps == [] {
    } else {
      var front := steps[..|steps| - 1];
      QuietOverRuns(c, from, front);
      ShapeOverRuns(c, from, front);
      QuietStep(c, Exec(c, from, front).value, steps[|steps| - 1]);
    }
  }

  lemma {:induction false} BalanceContinues(c: Config, from: State, steps: seq<Step>, i: nat)
    requires Shape(c, from) && i < |from.sources| && Balanced(from, i) && Exec(c, from, steps).Some?
    ensures |Exec(c, from, steps).value.sources| == |from.sources|
    ensures Balanced(Exec(c, from, steps).value, i)
  {
    if steps == [] {
    } else {
      var front := steps[..|steps| - 1];
      BalanceContinues(c, from, front, i);
      ShapeOverRuns(c, from, front);
      ShapeOverRuns(c, from, steps);
      BalanceStep(c, Exec(c, from, front).value, steps[|steps| - 1], i);
    }
  }

  /** A graceful stop. Let the listeners be closed (no call in progress, no arrivals)
      when Stop cancels intake, and let the deadline not pass. Then the pipeline makes
      a bounded number of moves, always has one until everything has exited, and
      in the end every queue and channel is empty and every message received is
      stored or dropped for a reason other than shutdown. */
  lemma GracefulStop(c: Config, steps: seq<Step>, more: seq<Step>, i: nat)
    requires c.Valid() && Exec(c, Init(c), steps).Some? && i < |c.policies|
    requires var st := Exec(c, Init(c), steps).value;
             !st.soft && forall k :: 0 <= k < |st.sources| ==> st.sources[k].calls == []
    requires var st := Apply(c, Exec(c, Init(c), steps).value, SoftCancel);
             Exec(c, st, more).Some? && forall k :: 0 <= k < |more| ==> Calm(more[k])
    ensures var st := Apply(c, Exec(c, Init(c), steps).value, SoftCancel);
            var end := Exec(c, st, more).value;
            && Moves(c, st, more) <= Rank(st)
            && (Final(end) || exists step :: Next(c, end, step))
            && |end.sources| == |c.policies|
            && var s := end.sources[i];
            && s.dropped.shutdown == 0 && s.lost == 0
            && (Final(end) ==>
                  && s.queue == [] && end.inq == [] && end.batches == []
                  && s.received == s.stored + s.dropped.queueFull + s.dropped.parseError
                                   + s.dropped.writeFailed + s.dropped.rejected)
  {
    hide Rank, Moves, Balanced, Shape, Left;
    InitShape(c);
    ShapeOverRuns(c, Init(c), steps);
    BalanceOverRuns(c, steps, i);
    var at := Exec(c, Init(c), steps).value;
    var st := Apply(c, at, SoftCancel);
    QuietStart(c, at);
    ShapeStep(c, at, SoftCancel);
    BalanceStep(c, at, SoftCancel, i);
    Quiesces(c, st, more);
    ShapeOverRuns(c, st, more);
    QuietOverRuns(c, st, more);
    BalanceContinues(c, st, more, i);
    EndOfStop(c, Exec(c, st, more).value, i);
  }

  lemma EndOfStop(c: Config, end: State, i: nat)
    requires Shape(c, end) && Quiet(end) && i < |end.sources| && Balanced(end, i)
    ensures Final(end) || exists step :: Next(c, end, step)
    ensures |end.sources| == |c.policies|
    ensures var s := end.sources[i];
            && s.dropped.shutdown == 0 && s.lost == 0
            && (Final(end) ==>
                  && s.queue == [] && end.inq == [] && end.batches == []
                  && s.received == s.stored + s.dropped.queueFull + s.dropped.parseError
                                   + s.dropped.writeFailed + s.dropped.rejected)
  {
    assert SourceOk(c, i, end.sources[i], end.soft, end.hard) && QuietSource(end.sources[i]);
    if Final(end) {
      FinalAccount(c, end, i);
    } else {
      var step := NoDeadlock(c, end);
    }
  }
}
