/** Nothing is lost and nothing is invented: the metrics balance in every reachable
    state, and before the hard deadline each source's entries move in order. */
module PipelineAccount {
  import opened Common
  import opened Pipeline
  import opened PipelineShape

  // ----- sequences of entries -----

  lemma {:induction false} OnlyAppend(i: nat, a: seq<Entry>, b: seq<Entry>)
    ensures Only(i, a + b) == Only(i, a) + Only(i, b)
    decreases |b|
  {
    if b == [] {
      assert a + b == a;
    } else {
      OnlyAppend(i, a, b[..|b| - 1]);
      assert (a + b)[..|a + b| - 1] == a + b[..|b| - 1];
    }
  }

  lemma OnlyOne(i: nat, e: Entry)
    ensures Only(i, [e]) == if e.src == i then [e] else []
  {
    assert [e][..0] == [];
  }

  lemma {:induction false} FlatAppend(a: seq<seq<Entry>>, b: seq<seq<Entry>>)
    ensures Flat(a + b) == Flat(a) + Flat(b)
  {
    if a == [] {
      assert a + b == b;
    } else {
      FlatAppend(a[1..], b);
      CutFront(a, b, 1);
      assert (a + b)[0] == a[0];
      Assoc(a[0], Flat(a[1..]), Flat(b));
    }
  }

  lemma FlatOne(b: seq<Entry>)
    ensures Flat([b]) == b
  {
  }

  function InWorkers(i: nat, ws: seq<Worker>): nat {
    if ws == [] then 0
    else InWorkers(i, ws[..|ws| - 1]) + |Only(i, ws[|ws| - 1].Entries())|
  }

  lemma {:induction false} InWorkersUpdate(i: nat, ws: seq<Worker>, k: nat, w: Worker)
    requires k < |ws|
    ensures InWorkers(i, ws[k := w]) + |Only(i, ws[k].Entries())| == InWorkers(i, ws) + |Only(i, w.Entries())|
  {
    var n := |ws| - 1;
    if k < n {
      InWorkersUpdate(i, ws[..n], k, w);
      assert ws[k := w][..n] == ws[..n][k := w];
    } else {
      assert ws[k := w][..n] == ws[..n];
    }
  }

  // ----- accounting -----

  /** Entries of source i that are still somewhere in the pipeline. */
  function InFlight(st: State, i: nat): nat
    requires i < |st.sources|
  {
    Upstream(st.sources[i]) + Downstream(st, i)
  }

  /** ... before the shared channel: producers, queue and the dispatcher's hand. */
  function Upstream(s: Source): nat {
    |s.calls| + |s.queue| + |s.Hand()|
  }

  /** ... from the shared channel on. */
  function Downstream(st: State, i: nat): nat {
    |Only(i, st.inq)| + |Only(i, st.batcher.Entries())| + |Only(i, Flat(st.batches))| + InWorkers(i, st.workers)
  }

  /** What has left the pipeline: stored, dropped and counted, or lost. */
  function Left(s: Source): nat {
    s.stored + s.dropped.Counted() + s.lost
  }

  predicate Balanced(st: State, i: nat)
    requires i < |st.sources|
  {
    st.sources[i].received == InFlight(st, i) + Left(st.sources[i])
  }

  lemma SelectBalance(c: Config, i: nat, s: Source, soft: bool, j: nat)
    requires IntakeEnabled(c, s, soft, Select(j))
    ensures var t := Intake(c, i, s, soft, Select(j));
            t.received == s.received && Upstream(s) + Left(s) == Upstream(t) + Left(t)
  {
    var t, u := Intake(c, i, s, soft, Select(j)), Finished(s, j);
    assert |u.calls| == |s.calls| - 1;
    hide Finished;
  }

  lemma IntakeBalance(c: Config, i: nat, s: Source, soft: bool, a: IntakeStep)
    requires IntakeEnabled(c, s, soft, a)
    ensures var t := Intake(c, i, s, soft, a);
            t.received + Upstream(s) + Left(s) == s.received + Upstream(t) + Left(t)
  {
    if a.Select? {
      SelectBalance(c, i, s, soft, a.j);
      hide Intake, Upstream, Left;
    }
  }

  lemma DispatchBalance(c: Config, i: nat, s: Source, room: bool, soft: bool, hard: bool, a: DispatchStep)
    requires SourceOk(c, i, s, soft, hard) && DispatchEnabled(s, room, soft, hard, a)
    ensures var (t, out) := Dispatch(s, room, soft, hard, a);
            && t.received == s.received
            && Upstream(t) + Left(t) + |out| == Upstream(s) + Left(s)
            && Only(i, out) == out && forall k: nat :: k != i ==> Only(k, out) == []
  {
    if a.Send? {
      forall k: nat
        ensures Only(k, [s.disp.e]) == if k == i then [s.disp.e] else []
      {
        OnlyOne(k, s.disp.e);
      }
    }
  }

  /** Entries leave the batcher's end of the shared channel in order: to the batches
      channel, into a counted drop, into the loss, or they are still there. */
  lemma BatchConserves(c: Config, st: State, a: BatchStep)
    requires BatchEnabled(st, c, a)
    ensures var f := Batch(c, st, a);
            st.batcher.Entries() + st.inq == Flat(f.emit) + f.dropped + f.lost + (f.batcher.Entries() + f.inq)
    ensures var f := Batch(c, st, a); !st.hard ==> f.dropped == [] && (st.batcher.Swallowing? || f.lost == [])
  {
    if a.Receive? {
      assert st.inq == [st.inq[0]] + st.inq[1..];
    } else if a.Emit? {
      FlatOne(st.batcher.batch);
    }
  }

  lemma BatchCounts(c: Config, st: State, a: BatchStep, i: nat)
    requires BatchEnabled(st, c, a)
    ensures var f := Batch(c, st, a);
            |Only(i, st.batcher.Entries())| + |Only(i, st.inq)| ==
            |Only(i, Flat(f.emit))| + |Only(i, f.dropped)| + |Only(i, f.lost)|
            + |Only(i, f.batcher.Entries())| + |Only(i, f.inq)|
  {
    var f := Batch(c, st, a);
    BatchConserves(c, st, a);
    hide Only, Batch, Flat;
    OnlyAppend(i, st.batcher.Entries(), st.inq);
    OnlyAppend(i, f.batcher.Entries(), f.inq);
    OnlyAppend(i, Flat(f.emit) + f.dropped + f.lost, f.batcher.Entries() + f.inq);
    OnlyAppend(i, Flat(f.emit) + f.dropped, f.lost);
    OnlyAppend(i, Flat(f.emit), f.dropped);
  }

  lemma FlatFirst(i: nat, bs: seq<seq<Entry>>)
    requires bs != []
    ensures |Only(i, Flat(bs))| == |Only(i, bs[0])| + |Only(i, Flat(bs[1..]))|
  {
    hide Only;
    OnlyAppend(i, bs[0], Flat(bs[1..]));
  }

  /** A writer step takes batches, resolves one, or passes it on: never two of these. */
  lemma WriteCounts(st: State, w: Worker, a: WriteStep, i: nat)
    requires WriteEnabled(st, w, a)
    ensures var f := Write(st, w, a);
            |Only(i, w.Entries())| + |Only(i, Flat(st.batches))| ==
            |Only(i, f.worker.Entries())| + |Only(i, Flat(f.batches))| + |Only(i, f.stored)| + |Only(i, f.dropped)|
  {
    hide Only, Flat;
    OnlyNone(i, []);
    if a.TakeBatch? {
      FlatFirst(i, st.batches);
    }
  }

  /** The grouping counters credit each source with exactly its own entries. */
  lemma CreditAt(ss: seq<Source>, es: seq<Entry>, r: Reason, i: nat)
    requires i < |ss|
    ensures |CountStored(ss, es)| == |DropEntries(ss, es, r)| == |Lose(ss, es)| == |ss|
    ensures var n := |Only(i, es)|;
            && Left(CountStored(ss, es)[i]) == Left(ss[i]) + n
            && (r != TooLarge ==> Left(DropEntries(ss, es, r)[i]) == Left(ss[i]) + n)
            && Left(Lose(ss, es)[i]) == Left(ss[i]) + n
    ensures forall t | t in {CountStored(ss, es)[i], DropEntries(ss, es, r)[i], Lose(ss, es)[i]} ::
              t.received == ss[i].received && Upstream(t) == Upstream(ss[i])
  {
    hide Only;
  }

  lemma BalanceBatch(c: Config, st: State, a: BatchStep, i: nat)
    requires BatchEnabled(st, c, a) && i < |st.sources| && Balanced(st, i)
    ensures Balanced(Apply(c, st, BatchNow(a)), i)
  {
    hide Only, Flat, Batch, Left, Upstream, DropEntries, Lose, InWorkers;
    var f := Batch(c, st, a);
    BatchCounts(c, st, a, i);
    FlatAppend(st.batches, f.emit);
    OnlyAppend(i, Flat(st.batches), Flat(f.emit));
    CreditAt(st.sources, f.dropped, Shutdown, i);
    CreditAt(DropEntries(st.sources, f.dropped, Shutdown), f.lost, Shutdown, i);
  }

  lemma WriteReason(st: State, w: Worker, a: WriteStep)
    requires WriteEnabled(st, w, a)
    ensures Write(st, w, a).reason in {WriteFailed, StorageRejected, Shutdown}
  {
  }

  lemma BalanceWrite(c: Config, st: State, k: nat, a: WriteStep, i: nat)
    requires k < |st.workers| && WriteEnabled(st, st.workers[k], a) && i < |st.sources| && Balanced(st, i)
    ensures Balanced(Apply(c, st, WriteAt(k, a)), i)
  {
    hide Only, Flat, Write, Left, Upstream, DropEntries, CountStored, InWorkers;
    var f := Write(st, st.workers[k], a);
    WriteCounts(st, st.workers[k], a, i);
    InWorkersUpdate(i, st.workers, k, f.worker);
    WriteReason(st, st.workers[k], a);
    CreditAt(st.sources, f.stored, f.reason, i);
    CreditAt(CountStored(st.sources, f.stored), f.dropped, f.reason, i);
  }

  lemma BalanceDispatch(c: Config, st: State, k: nat, a: DispatchStep, i: nat)
    requires Enabled(c, st, DispatchAt(k, a)) && i < |st.sources| && Balanced(st, i)
    requires SourceOk(c, k, st.sources[k], st.soft, st.hard)
    ensures Balanced(Apply(c, st, DispatchAt(k, a)), i)
  {
    hide Only, Flat, Dispatch, SourceOk, Upstream, Left, InWorkers;
    var room := |st.inq| < IN_CAPACITY;
    DispatchBalance(c, k, st.sources[k], room, st.soft, st.hard, a);
    var (t, out) := Dispatch(st.sources[k], room, st.soft, st.hard, a);
    OnlyAppend(i, st.inq, out);
  }

  lemma BalanceStep(c: Config, st: State, step: Step, i: nat)
    requires Shape(c, st) && Enabled(c, st, step) && i < |st.sources| && Balanced(st, i)
    ensures Balanced(Apply(c, st, step), i)
  {
    match step
    case IntakeAt(k, a) =>
      IntakeBalance(c, k, st.sources[k], st.soft, a);
      hide Only, Flat, Intake, Upstream, Left;
    case DispatchAt(k, a) =>
      BalanceDispatch(c, st, k, a, i);
    case BatchNow(a) =>
      BalanceBatch(c, st, a, i);
    case WriteAt(k, a) =>
      BalanceWrite(c, st, k, a, i);
    case _ =>
  }

  lemma {:induction false} InitBalanced(c: Config, i: nat)
    requires i < |c.policies|
    ensures i < |Init(c).sources| && Balanced(Init(c), i)
  {
    NoWork(i, c.workers);
    assert Init(c).sources[i] == NewSource(c.policies[i]);
  }

  lemma {:induction false} NoWork(i: nat, n: nat)
    ensures InWorkers(i, seq(n, k => Idle)) == 0
  {
    if n == 0 {
    } else {
      NoWork(i, n - 1);
      assert seq(n, k => Idle)[..n - 1] == seq(n - 1, k => Idle);
    }
  }

  lemma {:induction false} BalanceOverRuns(c: Config, steps: seq<Step>, i: nat)
    requires c.Valid() && Exec(c, Init(c), steps).Some? && i < |c.policies|
    ensures |Exec(c, Init(c), steps).value.sources| == |c.policies|
    ensures Balanced(Exec(c, Init(c), steps).value, i)
  {
    InitShape(c);
    if steps == [] {
      InitBalanced(c, i);
    } else {
      var front := steps[..|steps| - 1];
      BalanceOverRuns(c, front, i);
      ShapeOverRuns(c, Init(c), front);
      ShapeOverRuns(c, Init(c), steps);
      BalanceStep(c, Exec(c, Init(c), front).value, steps[|steps| - 1], i);
    }
  }

  /** On every run, hard deadline or not: the messages a source has received are in
      flight, stored, dropped and counted, or lost, each exactly once; and none is
      lost before the hard deadline. */
  lemma AccountOverRuns(c: Config, steps: seq<Step>, i: nat)
    requires c.Valid() && Exec(c, Init(c), steps).Some? && i < |c.policies|
    ensures var st := Exec(c, Init(c), steps).value;
            && |st.sources| == |c.policies|
            && var s := st.sources[i];
            && s.received == InFlight(st, i) + s.stored + s.dropped.Counted() + s.lost
            && (!st.hard ==> s.lost == 0)
  {
    InitShape(c);
    ShapeOverRuns(c, Init(c), steps);
    BalanceOverRuns(c, steps, i);
  }

  // ----- order -----

  /** The admitted entries whose numbers are not evicted, in order. */
  function Keep(admitted: seq<Entry>, evicted: set<nat>): seq<Entry> {
    if admitted == [] then []
    else
      var n := |admitted| - 1;
      Keep(admitted[..n], evicted) + if n in evicted then [] else [admitted[n]]
  }

  /** Everything past the dispatchers, oldest first. */
  function Line(st: State): seq<Entry> {
    st.emitted + (st.batcher.Entries() + st.inq)
  }

  /** Source i's surviving entries, in admission order, are its part of the line,
      then the dispatcher's hand, then the queue. */
  predicate InOrder(st: State, i: nat)
    requires i < |st.sources|
  {
    var s := st.sources[i];
    Only(i, Line(st)) + s.Hand() + s.queue == Keep(s.admitted, s.evicted)
  }

  predicate Numbered(a: seq<Entry>) {
    forall k :: 0 <= k < |a| ==> a[k].no == k
  }

  lemma {:induction false} KeepBounded(a: seq<Entry>, ev: set<nat>)
    requires Numbered(a)
    ensures forall k :: 0 <= k < |Keep(a, ev)| ==> Keep(a, ev)[k].no < |a| && Keep(a, ev)[k].no !in ev
  {
    if a == [] {
    } else {
      KeepBounded(a[..|a| - 1], ev);
    }
  }

  /** Evicting an entry takes out it and nothing else. */
  lemma {:induction false} KeepEvict(a: seq<Entry>, ev: set<nat>, x: seq<Entry>, h: Entry, y: seq<Entry>)
    requires Numbered(a) && Keep(a, ev) == x + [h] + y
    ensures Keep(a, ev + {h.no}) == x + y
    decreases |a|
  {
    if a == [] {
    } else {
      var n := |a| - 1;
      KeepBounded(a, ev);
      assert (x + [h] + y)[|x|] == h;
      if n in ev {
        KeepEvict(a[..n], ev, x, h, y);
      } else if y == [] {
        assert Keep(a, ev)[..|x|] == x && Keep(a, ev)[|x|] == h;
        KeepBounded(a[..n], ev);
        KeepIgnores(a[..n], ev, n);
        assert Keep(a[..n], ev) == x;
        assert h == a[n];
        assert x + y == x;
      } else {
        var m := |y| - 1;
        assert x + [h] + y == (x + [h] + y[..m]) + [y[m]];
        assert Keep(a[..n], ev) == x + [h] + y[..m] && y[m] == a[n];
        KeepEvict(a[..n], ev, x, h, y[..m]);
        KeepBounded(a[..n], ev);
        assert Keep(a[..n], ev)[|x|] == h;
        assert x + y == x + y[..m] + [y[m]];
      }
    }
  }

  lemma {:induction false} KeepIgnores(a: seq<Entry>, ev: set<nat>, n: nat)
    requires n >= |a|
    ensures Keep(a, ev + {n}) == Keep(a, ev)
    decreases |a|
  {
    if a == [] {
    } else {
      KeepIgnores(a[..|a| - 1], ev, n);
    }
  }

  lemma KeepAdmit(a: seq<Entry>, ev: set<nat>, e: Entry)
    requires forall n :: n in ev ==> n < |a|
    ensures Keep(a + [e], ev) == Keep(a, ev) + [e]
  {
    assert (a + [e])[..|a|] == a;
  }

  lemma OrderAdmit(c: Config, i: nat, s: Source, call: Call, line: seq<Entry>)
    requires SourceOk(c, i, s, true, true) && line + s.Hand() + s.queue == Keep(s.admitted, s.evicted)
    ensures var t := Admit(i, s, call);
            t.Hand() == s.Hand() && line + s.Hand() + t.queue == Keep(t.admitted, t.evicted)
  {
    var e := Entry(i, |s.admitted|, call.msg, call.size);
    KeepAdmit(s.admitted, s.evicted, e);
    Assoc(line + s.Hand(), s.queue, [e]);
  }

  lemma OrderEvict(c: Config, i: nat, s: Source, line: seq<Entry>)
    requires SourceOk(c, i, s, true, true) && s.queue != []
    requires line + s.Hand() + s.queue == Keep(s.admitted, s.evicted)
    ensures var t := Evict(s);
            t.Hand() == s.Hand() && line + s.Hand() + t.queue == Keep(t.admitted, t.evicted)
  {
    var h, y := s.queue[0], s.queue[1..];
    assert s.queue == [h] + y;
    Assoc(line + s.Hand(), [h], y);
    KeepEvict(s.admitted, s.evicted, line + s.Hand(), h, y);
  }

  /** The looser facts about a source that hold whatever has been cancelled. */
  lemma Loosen(c: Config, i: nat, s: Source, soft: bool, hard: bool)
    requires SourceOk(c, i, s, soft, hard)
    ensures SourceOk(c, i, s, true, true)
  {
  }

  lemma OrderIntake(c: Config, i: nat, s: Source, soft: bool, hard: bool, a: IntakeStep, line: seq<Entry>)
    requires SourceOk(c, i, s, soft, hard) && IntakeEnabled(c, s, soft, a)
    requires line + s.Hand() + s.queue == Keep(s.admitted, s.evicted)
    ensures var t := Intake(c, i, s, soft, a);
            line + t.Hand() + t.queue == Keep(t.admitted, t.evicted)
  {
    hide Keep, SourceOk;
    Loosen(c, i, s, soft, hard);
    if a.Select? {
      var t := Finished(s, a.j);
      CallsOk(c, i, s, t.calls, QueueFull, true, true);
      OrderAdmit(c, i, t, s.calls[a.j], line);
      var u := s.(calls := s.calls[a.j := s.calls[a.j].(phase := Retrying)]);
      CallsOk(c, i, s, u.calls, QueueFull, true, true);
      if u.queue != [] {
        OrderEvict(c, i, u, line);
      }
    }
  }

  lemma OrderDispatch(c: Config, i: nat, s: Source, room: bool, soft: bool, a: DispatchStep, line: seq<Entry>)
    requires SourceOk(c, i, s, soft, false) && DispatchEnabled(s, room, soft, false, a)
    requires line + s.Hand() + s.queue == Keep(s.admitted, s.evicted)
    ensures var (t, out) := Dispatch(s, room, soft, false, a);
            && line + out + t.Hand() + t.queue == Keep(t.admitted, t.evicted)
  {
    assert !s.disp.Dumping?;
    hide Keep, SourceOk;
    var (t, out) := Dispatch(s, room, soft, false, a);
    assert line + [] == line;
    if a.Take? {
      assert s.queue == [s.queue[0]] + s.queue[1..];
      Assoc(line, [s.queue[0]], s.queue[1..]);
    } else if a.Send? {
      assert line + out + [] == line + out;
    } else {
      assert out == [] && t.Hand() == s.Hand() && t.queue == s.queue;
    }
  }

  lemma OrderStep(c: Config, st: State, step: Step, i: nat)
    requires Shape(c, st) && Enabled(c, st, step) && !Apply(c, st, step).hard
    requires i < |st.sources| && InOrder(st, i)
    ensures InOrder(Apply(c, st, step), i)
  {
    var next := Apply(c, st, step);
    match step
    case IntakeAt(k, a) =>
      if k == i {
        OrderIntake(c, i, st.sources[i], st.soft, st.hard, a, Only(i, Line(st)));
      }
    case DispatchAt(k, a) =>
      OrderDispatchAt(c, st, k, a, i);
    case BatchNow(a) =>
      BatchConserves(c, st, a);
      OrderBatch(c, st, a);
    case WriteAt(k, a) =>
    case _ =>
  }

  lemma OrderDispatchAt(c: Config, st: State, k: nat, a: DispatchStep, i: nat)
    requires SourcesOk(c, st) && Enabled(c, st, DispatchAt(k, a)) && !st.hard
    requires i < |st.sources| && InOrder(st, i)
    ensures InOrder(Apply(c, st, DispatchAt(k, a)), i)
  {
    hide Only, Dispatch, Keep;
    var room := |st.inq| < IN_CAPACITY;
    var s := st.sources[k];
    assert SourceOk(c, k, s, st.soft, st.hard);
    hide SourceOk;
    var (t, out) := Dispatch(s, room, st.soft, st.hard, a);
    DispatchBalance(c, k, s, room, st.soft, st.hard, a);
    if k == i {
      OrderDispatch(c, i, s, room, st.soft, a, Only(i, Line(st)));
    }
    OnlyAppend(i, Line(st), out);
    var next := Apply(c, st, DispatchAt(k, a));
    Assoc(st.batcher.Entries(), st.inq, out);
    Assoc(st.emitted, st.batcher.Entries() + st.inq, out);
    assert Line(next) == Line(st) + out;
    assert k != i ==> Only(i, Line(next)) == Only(i, Line(st));
  }

  /** Before the hard deadline the batcher only moves the line along. */
  lemma OrderBatch(c: Config, st: State, a: BatchStep)
    requires BatchEnabled(st, c, a) && !st.hard && !st.batcher.Swallowing?
    ensures Line(Apply(c, st, BatchNow(a))) == Line(st)
  {
    hide Batch, DropEntries, Lose;
    var f := Batch(c, st, a);
    BatchConserves(c, st, a);
    Assoc(st.emitted, Flat(f.emit), f.batcher.Entries() + f.inq);
  }

  /** Per-source order, in every state before the hard deadline and under every
      interleaving: the admitted entries that were not evicted are, in order, the
      ones given to the writers, the open batch, the shared channel, the
      dispatcher's hand and the queue. */
  lemma {:induction false} OrderOverRuns(c: Config, steps: seq<Step>, i: nat)
    requires c.Valid() && Exec(c, Init(c), steps).Some? && i < |c.policies|
    requires !Exec(c, Init(c), steps).value.hard
    ensures |Exec(c, Init(c), steps).value.sources| == |c.policies|
    ensures InOrder(Exec(c, Init(c), steps).value, i)
  {
    InitShape(c);
    if steps == [] {
      assert Init(c).sources[i] == NewSource(c.policies[i]);
    } else {
      var front := steps[..|steps| - 1];
      OrderOverRuns(c, front, i);
      ShapeOverRuns(c, Init(c), front);
      ShapeOverRuns(c, Init(c), steps);
      OrderStep(c, Exec(c, Init(c), front).value, steps[|steps| - 1], i);
    }
  }

  /** The entries of the batches the writers took, in the order they took them. */
  function Taken(c: Config, steps: seq<Step>): seq<Entry> {
    if steps == [] then []
    else
      var front, last := steps[..|steps| - 1], steps[|steps| - 1];
      var st := Exec(c, Init(c), front);
      Taken(c, front) +
      if last.WriteAt? && last.write == TakeBatch && st.Some? && st.value.batches != [] then st.value.batches[0] else []
  }

  lemma TakenStep(c: Config, st: State, step: Step, taken: seq<Entry>)
    requires Enabled(c, st, step) && st.emitted == taken + Flat(st.batches)
    ensures var next := Apply(c, st, step);
            var more := if step.WriteAt? && step.write == TakeBatch then st.batches[0] else [];
            next.emitted == (taken + more) + Flat(next.batches)
  {
    hide Intake, Dispatch, DropEntries, CountStored, Lose, Collect;
    assert taken + [] == taken;
    match step
    case BatchNow(a) =>
      var f := Batch(c, st, a);
      FlatAppend(st.batches, f.emit);
      Assoc(taken, Flat(st.batches), Flat(f.emit));
      hide Flat, Batch;
    case WriteAt(k, a) =>
      if a == TakeBatch {
        Assoc(taken, st.batches[0], Flat(st.batches[1..]));
      }
    case _ =>
  }

  /** The writers take the batches in the order the batcher emitted them, none skipped
      and none twice. */
  lemma {:induction false} TakenOverRuns(c: Config, steps: seq<Step>)
    requires Exec(c, Init(c), steps).Some?
    ensures var st := Exec(c, Init(c), steps).value;
            st.emitted == Taken(c, steps) + Flat(st.batches)
  {
    if steps == [] {
    } else {
      var front := steps[..|steps| - 1];
      TakenOverRuns(c, front);
      var st := Exec(c, Init(c), front).value;
      TakenStep(c, st, steps[|steps| - 1], Taken(c, front));
      hide Flat, Apply;
    }
  }
}
