/** The two ways a message can leave the pipeline uncounted: discarded by the batcher
    after the hard deadline, or left on the queue of a dispatcher that has exited. When
    each happens is said exactly, and so when everything is stored or counted. */
module PipelineExits {
  import opened Common
  import opened Pipeline
  import opened PipelineShape
  import opened PipelineAccount
  import opened PipelineQueue
  import opened PipelineDrain

  // ----- discarded after the hard deadline -----

  /** The one way out that is neither storage nor a counted drop: once the batcher has
      seen the hard deadline, what it reads from the shared channel is discarded. */
  lemma SwallowLoses(c: Config, st: State)
    requires Shape(c, st) && st.batcher.Swallowing? && st.inq != [] && st.inq[0].src < |st.sources|
    ensures st.hard && Enabled(c, st, BatchNow(Swallow))
    ensures var i, end := st.inq[0].src, Apply(c, st, BatchNow(Swallow));
            && |end.sources| == |st.sources|
            && end.sources[i] == st.sources[i].(lost := st.sources[i].lost + 1)
            && end.inq == st.inq[1..]
  {
    assert ByteSize([]) == 0;
    NoneDropped(st.sources);
    OneLost(st.sources, st.inq[0]);
    hide DropEntries, Lose, Only, ByteSize, SourcesOk, WorkersOk;
  }

  lemma NoneDropped(ss: seq<Source>)
    ensures DropEntries(ss, [], Shutdown) == ss
  {
  }

  lemma OneLost(ss: seq<Source>, e: Entry)
    requires e.src < |ss|
    ensures |Lose(ss, [e])| == |ss| && Lose(ss, [e])[e.src] == ss[e.src].(lost := ss[e.src].lost + 1)
  {
    OnlyOne(e.src, e);
  }

  /** From the batcher's hard exit on, what is lost or about to be. */
  function Doomed(st: State, i: nat): nat
    requires i < |st.sources|
  {
    st.sources[i].lost + |Only(i, st.inq)|
  }

  predicate Discarding(b: Batcher) {
    b.Swallowing? || b.Closed?
  }

  lemma CountingKeepsLost(ss: seq<Source>, es: seq<Entry>, r: Reason, i: nat)
    requires i < |ss|
    ensures |CountStored(ss, es)| == |DropEntries(ss, es, r)| == |Lose(ss, es)| == |ss|
    ensures CountStored(ss, es)[i].lost == DropEntries(ss, es, r)[i].lost == ss[i].lost
    ensures Lose(ss, es)[i].lost == ss[i].lost + |Only(i, es)|
  {
    hide Only;
  }

  lemma BatchLost(c: Config, st: State, a: BatchStep, i: nat)
    requires BatchEnabled(st, c, a) && i < |st.sources|
    ensures var next, f := Apply(c, st, BatchNow(a)), Batch(c, st, a);
            && |next.sources| == |st.sources| && next.batcher == f.batcher && next.inq == f.inq
            && next.sources[i].lost == st.sources[i].lost + |Only(i, f.lost)|
  {
    hide Batch, Only, DropEntries, Lose, Flat;
    var f := Batch(c, st, a);
    CountingKeepsLost(st.sources, f.dropped, Shutdown, i);
    CountingKeepsLost(DropEntries(st.sources, f.dropped, Shutdown), f.lost, Shutdown, i);
  }

  lemma WriteLost(c: Config, st: State, k: nat, a: WriteStep, i: nat)
    requires Enabled(c, st, WriteAt(k, a)) && i < |st.sources|
    ensures var next := Apply(c, st, WriteAt(k, a));
            && |next.sources| == |st.sources| && next.batcher == st.batcher && next.inq == st.inq
            && next.sources[i].lost == st.sources[i].lost
  {
    hide Write, Only, DropEntries, CountStored;
    var f := Write(st, st.workers[k], a);
    CountingKeepsLost(st.sources, f.stored, f.reason, i);
    CountingKeepsLost(CountStored(st.sources, f.stored), f.dropped, f.reason, i);
  }

  lemma DispatchLost(c: Config, st: State, k: nat, a: DispatchStep, i: nat)
    requires Enabled(c, st, DispatchAt(k, a)) && i < |st.sources|
    requires SourceOk(c, k, st.sources[k], st.soft, st.hard)
    ensures var next := Apply(c, st, DispatchAt(k, a));
            && |next.sources| == |st.sources| && next.batcher == st.batcher
            && next.sources[i].lost == st.sources[i].lost
            && |Only(i, next.inq)| == |Only(i, st.inq)| + if k == i && a == Send then 1 else 0
  {
    hide Only, Dispatch, SourceOk, DispatchEnabled, Left, Upstream;
    var room := |st.inq| < IN_CAPACITY;
    DispatchBalance(c, k, st.sources[k], room, st.soft, st.hard, a);
    SendsOne(st.sources[k], room, st.soft, st.hard, a);
    var (t, out) := Dispatch(st.sources[k], room, st.soft, st.hard, a);
    OnlyAppend(i, st.inq, out);
    assert |Only(i, out)| == if k == i && a == Send then 1 else 0;
  }

  lemma SendsOne(s: Source, room: bool, soft: bool, hard: bool, a: DispatchStep)
    requires DispatchEnabled(s, room, soft, hard, a)
    ensures var (t, out) := Dispatch(s, room, soft, hard, a);
            |out| == (if a == Send then 1 else 0) && t.lost == s.lost
  {
  }

  lemma IntakeLost(c: Config, i: nat, s: Source, soft: bool, a: IntakeStep)
    requires IntakeEnabled(c, s, soft, a)
    ensures Intake(c, i, s, soft, a).lost == s.lost
  {
  }

  /** What each step loses: only the batcher reading after its hard exit does. */
  lemma LostStep(c: Config, st: State, step: Step, i: nat)
    requires Shape(c, st) && Enabled(c, st, step) && i < |st.sources|
    ensures var next := Apply(c, st, step);
            && |next.sources| == |st.sources|
            && next.sources[i].lost == st.sources[i].lost + if Loses(st, step, i) then 1 else 0
  {
    hide Only, SourceOk, BatcherOk, ChannelsOk, WorkersOk, Batch, Write, Dispatch, Intake, IntakeEnabled;
    match step
    case BatchNow(a) =>
      BatchLost(c, st, a, i);
      BatchLoses(c, st, a, i);
      hide Apply;
    case WriteAt(k, a) =>
      WriteLost(c, st, k, a, i);
      hide Apply;
    case DispatchAt(k, a) =>
      DispatchLost(c, st, k, a, i);
      hide Apply;
    case IntakeAt(k, a) =>
      IntakeLost(c, k, st.sources[k], st.soft, a);
    case _ =>
  }

  lemma BatchLoses(c: Config, st: State, a: BatchStep, i: nat)
    requires BatchEnabled(st, c, a)
    ensures |Only(i, Batch(c, st, a).lost)| == if Loses(st, BatchNow(a), i) then 1 else 0
  {
    if a == Swallow {
      OnlyOne(i, st.inq[0]);
    } else {
      OnlyNone(i, Batch(c, st, a).lost);
    }
    hide Only, Collect, ByteSize;
  }

  /** The batcher reads one of source i's entries and throws it away. */
  predicate Loses(st: State, step: Step, i: nat) {
    step == BatchNow(Swallow) && st.inq != [] && st.inq[0].src == i
  }

  function Losses(c: Config, from: State, steps: seq<Step>, i: nat): nat {
    if steps == [] then 0
    else
      var front := steps[..|steps| - 1];
      var mid := Exec(c, from, front);
      Losses(c, from, front, i) + if mid.Some? && Loses(mid.value, steps[|steps| - 1], i) then 1 else 0
  }

  /** Over any run, what source i loses is counted by the batcher's discarding reads of
      its entries. */
  lemma {:induction false} LostOverRuns(c: Config, from: State, steps: seq<Step>, i: nat)
    requires Shape(c, from) && i < |from.sources| && Exec(c, from, steps).Some?
    ensures var end := Exec(c, from, steps).value;
            && |end.sources| == |from.sources|
            && end.sources[i].lost == from.sources[i].lost + Losses(c, from, steps, i)
  {
    if steps == [] {
    } else {
      var front := steps[..|steps| - 1];
      LostOverRuns(c, from, front, i);
      ShapeOverRuns(c, from, front);
      hide Shape, Apply, Enabled;
      LostStep(c, Exec(c, from, front).value, steps[|steps| - 1], i);
    }
  }

  lemma DoomedStep(c: Config, st: State, step: Step, i: nat)
    requires Shape(c, st) && Enabled(c, st, step) && i < |st.sources| && Discarding(st.batcher)
    ensures var next := Apply(c, st, step);
            && |next.sources| == |st.sources| && Discarding(next.batcher)
            && Doomed(next, i) == Doomed(st, i) + if step == DispatchAt(i, Send) then 1 else 0
  {
    LostStep(c, st, step, i);
    match step
    case BatchNow(a) =>
      BatchLost(c, st, a, i);
      if a == Swallow {
        assert st.inq == [st.inq[0]] + st.inq[1..];
        OnlyAppend(i, [st.inq[0]], st.inq[1..]);
        OnlyOne(i, st.inq[0]);
      }
      hide Apply, Only;
    case WriteAt(k, a) =>
      WriteLost(c, st, k, a, i);
      hide Apply;
    case DispatchAt(k, a) =>
      assert SourceOk(c, k, st.sources[k], st.soft, st.hard);
      DispatchLost(c, st, k, a, i);
      hide Apply;
    case _ =>
  }

  function Sends(steps: seq<Step>, i: nat): nat {
    if steps == [] then 0
    else Sends(steps[..|steps| - 1], i) + if steps[|steps| - 1] == DispatchAt(i, Send) then 1 else 0
  }

  lemma {:induction false} NoSends(steps: seq<Step>, i: nat)
    ensures Sends(steps, i) == 0 <==> DispatchAt(i, Send) !in steps
  {
    if steps == [] {
    } else {
      var front := steps[..|steps| - 1];
      NoSends(front, i);
      assert steps == front + [steps[|steps| - 1]];
    }
  }

  /** From the batcher's hard exit on, everything on the shared channel and everything
      still sent there is lost. */
  lemma {:induction false} DoomedOverRuns(c: Config, from: State, steps: seq<Step>, i: nat)
    requires Shape(c, from) && i < |from.sources| && Exec(c, from, steps).Some? && Discarding(from.batcher)
    ensures var end := Exec(c, from, steps).value;
            && |end.sources| == |from.sources| && Discarding(end.batcher)
            && Doomed(end, i) == Doomed(from, i) + Sends(steps, i)
  {
    if steps == [] {
    } else {
      var front := steps[..|steps| - 1];
      DoomedOverRuns(c, from, front, i);
      ShapeOverRuns(c, from, front);
      hide Shape, Apply, Enabled, Doomed;
      DoomedStep(c, Exec(c, from, front).value, steps[|steps| - 1], i);
    }
  }

  /** Without a hard exit of the batcher nothing is lost; until then it is not
      discarding. */
  lemma {:induction false} NothingLostYet(c: Config, steps: seq<Step>, i: nat)
    requires c.Valid() && Exec(c, Init(c), steps).Some? && i < |c.policies|
    requires BatchNow(BatchHard) !in steps
    ensures var st := Exec(c, Init(c), steps).value;
            |st.sources| == |c.policies| && st.sources[i].lost == 0 && !st.batcher.Swallowing?
  {
    InitShape(c);
    if steps == [] {
      assert Init(c).sources[i] == NewSource(c.policies[i]);
    } else {
      var front, last := steps[..|steps| - 1], steps[|steps| - 1];
      assert steps == front + [last];
      ExecLast(c, steps);
      NothingLostYet(c, front, i);
      ShapeOverRuns(c, Init(c), front);
      var st := Exec(c, Init(c), front).value;
      LostStep(c, st, last, i);
      hide Shape, Exec;
      NeverSwallowing(c, st, last);
      hide Apply, Enabled;
    }
  }

  lemma NeverSwallowing(c: Config, st: State, step: Step)
    requires Enabled(c, st, step) && !st.batcher.Swallowing? && step != BatchNow(BatchHard)
    ensures !Apply(c, st, step).batcher.Swallowing? && step != BatchNow(Swallow)
  {
  }

  /** Step n is the batcher's hard exit, after which it never collects again. */
  predicate HardExitAt(steps: seq<Step>, n: nat) {
    n < |steps| && steps[n] == BatchNow(BatchHard) && BatchNow(BatchHard) !in steps[..n]
  }

  /** The run's hard exit finds one of source i's entries on the shared channel, or the
      dispatcher sends one later. */
  ghost predicate Exposed(c: Config, steps: seq<Step>, i: nat) {
    exists n: nat :: HardExitAt(steps, n) && ExposedFrom(c, steps, i, n)
  }

  predicate ExposedFrom(c: Config, steps: seq<Step>, i: nat, n: nat)
    requires HardExitAt(steps, n)
  {
    || (Exec(c, Init(c), steps[..n]).Some? && Only(i, Exec(c, Init(c), steps[..n]).value.inq) != [])
    || DispatchAt(i, Send) in steps[n + 1..]
  }

  lemma HardExit(c: Config, st: State, i: nat)
    requires Shape(c, st) && BatchEnabled(st, c, BatchHard) && i < |st.sources|
    ensures var next := Apply(c, st, BatchNow(BatchHard));
            |next.sources| == |st.sources| && next.batcher.Swallowing? && next.inq == st.inq
            && next.sources[i].lost == st.sources[i].lost
  {
    LostStep(c, st, BatchNow(BatchHard), i);
  }

  /** What a run with a hard exit loses of source i in the end. */
  lemma LostAfterExit(c: Config, steps: seq<Step>, i: nat, n: nat)
    requires c.Valid() && Exec(c, Init(c), steps).Some? && i < |c.policies| && HardExitAt(steps, n)
    ensures var end := Exec(c, Init(c), steps).value;
            && |end.sources| == |c.policies|
            && Exec(c, Init(c), steps[..n]).Some?
            && Doomed(end, i) == |Only(i, Exec(c, Init(c), steps[..n]).value.inq)| + Sends(steps[n + 1..], i)
  {
    hide Exec, Apply, Enabled, Only;
    var front, back := steps[..n], steps[n + 1..];
    assert steps == (front + [steps[n]]) + back;
    ExecAppend(c, Init(c), front + [steps[n]], back);
    ExecAppend(c, Init(c), front, [steps[n]]);
    NothingLostYet(c, front, i);
    InitShape(c);
    ShapeOverRuns(c, Init(c), front);
    var st := Exec(c, Init(c), front).value;
    ExecOne(c, st, steps[n]);
    assert BatchEnabled(st, c, BatchHard) by { EnabledBatch(c, st, BatchHard); }
    HardExit(c, st, i);
    ShapeStep(c, st, steps[n]);
    hide Shape;
    DoomedOverRuns(c, Apply(c, st, steps[n]), back, i);
  }

  lemma EnabledBatch(c: Config, st: State, a: BatchStep)
    ensures Enabled(c, st, BatchNow(a)) == BatchEnabled(st, c, a)
  {
  }

  /** The first step of a kind in a run. */
  lemma {:induction false} FirstOf(steps: seq<Step>, step: Step) returns (n: nat)
    requires step in steps
    ensures n < |steps| && steps[n] == step && step !in steps[..n]
  {
    var front := steps[..|steps| - 1];
    if step in front {
      n := FirstOf(front, step);
      assert front[..n] == steps[..n];
    } else {
      n := |steps| - 1;
    }
  }

  /** A run at rest has lost something of source i exactly if it was exposed: at the
      batcher's hard exit one of its entries was on the shared channel, or its
      dispatcher sent one afterwards. */
  lemma LostExactly(c: Config, steps: seq<Step>, i: nat)
    requires c.Valid() && Exec(c, Init(c), steps).Some? && i < |c.policies|
    requires Final(Exec(c, Init(c), steps).value)
    ensures var end := Exec(c, Init(c), steps).value;
            |end.sources| == |c.policies| && (end.sources[i].lost > 0 <==> Exposed(c, steps, i))
  {
    hide Only, Exec;
    if BatchNow(BatchHard) !in steps {
      NothingLostYet(c, steps, i);
      assert !Exposed(c, steps, i);
    } else {
      var n := FirstOf(steps, BatchNow(BatchHard));
      LostAfterExit(c, steps, i, n);
      InitShape(c);
      ShapeOverRuns(c, Init(c), steps);
      EmptyAtRest(c, Exec(c, Init(c), steps).value, i);
      NoSends(steps[n + 1..], i);
      assert HardExitAt(steps, n);
      assert forall m: nat :: HardExitAt(steps, m) ==> m == n;
    }
  }

  lemma EmptyAtRest(c: Config, st: State, i: nat)
    requires Shape(c, st) && Final(st)
    ensures st.inq == [] && Only(i, st.inq) == []
  {
  }

  // ----- left on a queue nobody reads -----

  /** Source i is past its dispatcher, which left when n entries had been admitted: what
      came later and was not evicted is on the queue. While the queue is empty again,
      a producer has just evicted and is about to send. */
  predicate Unread(s: Source, n: nat) {
    && s.disp.Exited? && Tail(s) && n <= |s.admitted| - |s.queue|
    && (forall k :: n <= k < |s.admitted| - |s.queue| ==> k in s.evicted)
    && (s.queue == [] && |s.admitted| > n ==>
          s.policy == DropOldest && exists j :: 0 <= j < |s.calls| && s.calls[j].phase == Retrying)
    && (s.policy != DropOldest ==> forall j :: 0 <= j < |s.calls| ==> s.calls[j].phase == First)
  }

  lemma UnreadCalls(s: Source, calls: seq<Call>, r: Reason, n: nat)
    requires Unread(s, n)
    requires s.policy != DropOldest ==> forall j :: 0 <= j < |calls| ==> calls[j].phase == First
    requires s.queue != [] || |s.admitted| == n ||
             exists j :: 0 <= j < |calls| && calls[j].phase == Retrying
    ensures Unread(s.(calls := calls), n) && Unread(s.(calls := calls).Drop(r), n)
  {
  }

  lemma UnreadAdmit(i: nat, s: Source, call: Call, calls: seq<Call>, n: nat)
    requires Unread(s, n)
    requires s.policy != DropOldest ==> forall j :: 0 <= j < |calls| ==> calls[j].phase == First
    ensures Unread(Admit(i, s.(calls := calls), call), n)
  {
    var u := s.(calls := calls);
    CallsTail(s, calls);
    AdmitTail(i, u, call);
    assert |Admit(i, u, call).admitted| - |Admit(i, u, call).queue| == |s.admitted| - |s.queue|;
    hide Tail;
  }

  lemma UnreadEvict(s: Source, calls: seq<Call>, n: nat)
    requires Unread(s, n) && s.queue != [] && s.policy == DropOldest
    requires exists j :: 0 <= j < |calls| && calls[j].phase == Retrying
    ensures Unread(Evict(s.(calls := calls)), n)
  {
    var u := s.(calls := calls);
    CallsTail(s, calls);
    EvictTail(u);
    assert s.queue[0].no == |s.admitted| - |s.queue| by {
      assert s.queue[0] == s.admitted[|s.admitted| - |s.queue|];
    }
    hide Tail;
  }

  lemma UnreadSame(s: Source, t: Source, n: nat)
    requires Unread(s, n) && t.disp == s.disp && t.queue == s.queue && t.admitted == s.admitted
    requires t.evicted == s.evicted && t.policy == s.policy && t.calls == s.calls
    ensures Unread(t, n)
  {
  }

  /** A select of drop_oldest that does not return has just evicted, found nothing to
      evict, or seen a full queue. */
  lemma SelectMoves(c: Config, i: nat, s: Source, soft: bool, j: nat)
    requires IntakeEnabled(c, s, soft, Select(j)) && c.Valid()
    ensures var t := Intake(c, i, s, soft, Select(j));
            |t.calls| == |s.calls| ==>
              t.calls[j].phase == Retrying || (s.queue != [] && t == s.(calls := t.calls))
  {
  }

  lemma UnreadSelect(c: Config, i: nat, s: Source, soft: bool, j: nat, n: nat)
    requires IntakeEnabled(c, s, soft, Select(j)) && c.Valid() && Unread(s, n)
    ensures Unread(Intake(c, i, s, soft, Select(j)), n)
    ensures s.admitted <= Intake(c, i, s, soft, Select(j)).admitted
  {
    var t, u := Intake(c, i, s, soft, Select(j)), Finished(s, j);
    SelectCases(c, i, s, soft, j);
    SelectMoves(c, i, s, soft, j);
    FinishedFirst(s, j);
    hide Intake, Finished;
    if |s.queue| < c.capacity && t == Admit(i, u, s.calls[j]) {
      UnreadAdmit(i, s, s.calls[j], u.calls, n);
      hide Unread;
    } else if t == u.Drop(QueueFull) && |s.queue| >= c.capacity {
      UnreadCalls(s, u.calls, QueueFull, n);
      hide Unread;
    } else if t == s.(calls := t.calls) {
      UnreadCalls(s, t.calls, QueueFull, n);
      hide Unread;
    } else {
      assert t.calls[j].phase == Retrying;
      UnreadEvict(s, t.calls, n);
      hide Unread;
    }
  }

  lemma FinishedFirst(s: Source, j: nat)
    requires j < |s.calls|
    ensures var calls := Finished(s, j).calls;
            (forall k :: 0 <= k < |s.calls| ==> s.calls[k].phase == First) ==>
              forall k :: 0 <= k < |calls| ==> calls[k].phase == First
  {
  }

  lemma UnreadIntake(c: Config, i: nat, s: Source, soft: bool, a: IntakeStep, n: nat)
    requires IntakeEnabled(c, s, soft, a) && c.Valid() && Unread(s, n)
    ensures Unread(Intake(c, i, s, soft, a), n)
    ensures s.admitted <= Intake(c, i, s, soft, a).admitted
  {
    match a
    case Arrive(size) =>
      var more := s.calls + [Call(s.received, size, First)];
      assert forall j :: 0 <= j < |s.calls| ==> more[j] == s.calls[j];
      UnreadCalls(s, more, QueueFull, n);
      UnreadSame(s.(calls := more), Intake(c, i, s, soft, a), n);
    case Select(j) =>
      UnreadSelect(c, i, s, soft, j, n);
    case SelectShutdown(j) =>
      FinishedFirst(s, j);
      UnreadCalls(s, Finished(s, j).calls, Shutdown, n);
    case _ =>
      UnreadSame(s, Intake(c, i, s, soft, a), n);
  }

  lemma UnreadStep(c: Config, st: State, step: Step, i: nat, n: nat)
    requires c.Valid() && Enabled(c, st, step) && i < |st.sources| && Unread(st.sources[i], n)
    ensures var next := Apply(c, st, step);
            && |next.sources| == |st.sources| && Unread(next.sources[i], n)
            && st.sources[i].admitted <= next.sources[i].admitted
  {
    var s := st.sources[i];
    if step.IntakeAt? && step.i == i {
      UnreadIntake(c, i, s, st.soft, step.intake, n);
      hide Unread, Intake;
    } else if step.DispatchAt? && step.i == i {
      assert false;
    } else {
      ElsewhereSameQueue(c, st, step, i);
      hide Apply, Enabled;
      UnreadSame(s, Apply(c, st, step).sources[i], n);
      hide Unread;
    }
  }

  lemma {:induction false} UnreadOverRuns(c: Config, from: State, steps: seq<Step>, i: nat, n: nat)
    requires c.Valid() && Exec(c, from, steps).Some? && i < |from.sources| && Unread(from.sources[i], n)
    ensures var end := Exec(c, from, steps).value;
            && |end.sources| == |from.sources| && Unread(end.sources[i], n)
            && from.sources[i].admitted <= end.sources[i].admitted
  {
    if steps == [] {
    } else {
      var front := steps[..|steps| - 1];
      UnreadOverRuns(c, from, front, i, n);
      hide Unread, Apply, Enabled;
      UnreadStep(c, Exec(c, from, front).value, steps[|steps| - 1], i, n);
    }
  }

  function Below(n: nat): (b: set<nat>)
    ensures forall k: nat :: k in b <==> k < n
  {
    if n == 0 then {} else Below(n - 1) + {n - 1}
  }

  lemma {:induction false} KeepTail(a: seq<Entry>, ev: set<nat>, j: nat)
    requires j <= |a|
    requires forall k :: 0 <= k < |a| ==> (k in ev <==> k < j)
    ensures Keep(a, ev) == a[j..]
  {
    if a == [] {
    } else {
      var n := |a| - 1;
      KeepTail(a[..n], ev, if j < n then j else n);
      if j <= n {
        assert a[j..] == a[..n][j..] + [a[n]];
      }
    }
  }

  /** The queue of a departed dispatcher is exactly what was admitted since, minus
      evictions, in order. */
  lemma UnreadIs(s: Source, n: nat)
    requires Unread(s, n)
    ensures s.queue == Keep(s.admitted, s.evicted + Below(n))
  {
    KeepTail(s.admitted, s.evicted + Below(n), |s.admitted| - |s.queue|);
  }

  predicate Phased(s: Source) {
    s.policy != DropOldest ==> forall j :: 0 <= j < |s.calls| ==> s.calls[j].phase == First
  }

  lemma PhasedIntake(c: Config, i: nat, s: Source, soft: bool, a: IntakeStep)
    requires IntakeEnabled(c, s, soft, a) && Phased(s)
    ensures Phased(Intake(c, i, s, soft, a))
  {
  }

  lemma PhasedDispatch(s: Source, room: bool, soft: bool, hard: bool, a: DispatchStep)
    requires DispatchEnabled(s, room, soft, hard, a) && Phased(s)
    ensures Phased(Dispatch(s, room, soft, hard, a).0)
  {
  }

  lemma PhasedStep(c: Config, st: State, step: Step, i: nat)
    requires Enabled(c, st, step) && i < |st.sources| && Phased(st.sources[i])
    ensures |Apply(c, st, step).sources| == |st.sources| && Phased(Apply(c, st, step).sources[i])
  {
    if step.IntakeAt? && step.i == i {
      PhasedIntake(c, i, st.sources[i], st.soft, step.intake);
      hide Phased, Intake;
    } else if step.DispatchAt? && step.i == i {
      PhasedDispatch(st.sources[i], |st.inq| < IN_CAPACITY, st.soft, st.hard, step.dispatch);
      hide Phased, Dispatch;
    } else {
      ElsewhereSameQueue(c, st, step, i);
      hide Apply, Enabled;
    }
  }

  lemma {:induction false} PhasedOverRuns(c: Config, steps: seq<Step>, i: nat)
    requires Exec(c, Init(c), steps).Some? && i < |c.policies|
    ensures var st := Exec(c, Init(c), steps).value;
            |st.sources| == |c.policies| && Phased(st.sources[i])
  {
    if steps == [] {
      assert Init(c).sources[i] == NewSource(c.policies[i]);
    } else {
      var front := steps[..|steps| - 1];
      ExecLast(c, steps);
      PhasedOverRuns(c, front, i);
      hide Exec, Apply, Enabled, Phased;
      PhasedStep(c, Exec(c, Init(c), front).value, steps[|steps| - 1], i);
    }
  }

  /** A dispatcher leaves behind an empty queue. */
  lemma ExitEmpty(c: Config, st: State, step: Step, i: nat)
    requires Shape(c, st) && Enabled(c, st, step) && i < |st.sources| && !st.sources[i].disp.Exited?
    ensures var next := Apply(c, st, step);
            |next.sources| == |st.sources| && (next.sources[i].disp.Exited? ==> next.sources[i].queue == [])
  {
    var s := st.sources[i];
    if step.DispatchAt? && step.i == i {
      assert SourceOk(c, i, s, st.soft, st.hard);
      ExitsEmpty(c, i, s, |st.inq| < IN_CAPACITY, st.soft, st.hard, step.dispatch);
      hide SourceOk, Dispatch;
    } else if step.IntakeAt? && step.i == i {
      IntakeKeepsDispatcher(c, i, s, st.soft, step.intake);
      hide Intake;
    } else {
      ElsewhereSameQueue(c, st, step, i);
      hide Apply, Enabled;
    }
  }

  lemma ExitsEmpty(c: Config, i: nat, s: Source, room: bool, soft: bool, hard: bool, a: DispatchStep)
    requires SourceOk(c, i, s, soft, hard) && DispatchEnabled(s, room, soft, hard, a)
    ensures var t := Dispatch(s, room, soft, hard, a).0; t.disp.Exited? ==> t.queue == []
  {
  }

  /** Source i at step n of a run. */
  function SourceAt(c: Config, steps: seq<Step>, i: nat, n: nat): Option<Source> {
    if n > |steps| then None
    else
      var st := Exec(c, Init(c), steps[..n]);
      if st.Some? && i < |st.value.sources| then Some(st.value.sources[i]) else None
  }

  predicate LeftAt(c: Config, steps: seq<Step>, i: nat, n: nat) {
    SourceAt(c, steps, i, n).Some? && SourceAt(c, steps, i, n).value.disp.Exited?
  }

  lemma SourceAtFront(c: Config, steps: seq<Step>, i: nat, n: nat)
    requires steps != [] && n < |steps|
    ensures SourceAt(c, steps[..|steps| - 1], i, n) == SourceAt(c, steps, i, n)
  {
    assert steps[..|steps| - 1][..n] == steps[..n];
  }

  /** The step at which dispatcher i left. */
  lemma {:induction false} ExitPoint(c: Config, steps: seq<Step>, i: nat) returns (n: nat)
    requires c.Valid() && Exec(c, Init(c), steps).Some? && i < |c.policies| && LeftAt(c, steps, i, |steps|)
    ensures n <= |steps| && LeftAt(c, steps, i, n)
    ensures var s := SourceAt(c, steps, i, n).value; Unread(s, |s.admitted|)
    ensures forall m: nat :: m < n ==> !LeftAt(c, steps, i, m)
  {
    hide Exec, Unread;
    assert steps[..|steps|] == steps;
    if steps == [] {
      NotLeftYet(c, steps, i);
      assert false;
    } else {
      var front := steps[..|steps| - 1];
      FrontRuns(c, steps);
      assert front[..|front|] == front;
      if LeftAt(c, front, i, |front|) {
        n := ExitPoint(c, front, i);
        forall m: nat | m <= n
          ensures LeftAt(c, front, i, m) == LeftAt(c, steps, i, m)
          ensures SourceAt(c, front, i, m) == SourceAt(c, steps, i, m)
        {
          SourceAtFront(c, steps, i, m);
        }
      } else {
        n := |steps|;
        JustLeft(c, steps, i);
        forall m: nat | m < n
          ensures !LeftAt(c, steps, i, m)
        {
          NotLeftBefore(c, steps, i, m);
        }
      }
    }
  }

  lemma NotLeftYet(c: Config, steps: seq<Step>, i: nat)
    requires i < |c.policies| && steps == []
    ensures !LeftAt(c, steps, i, 0)
  {
    assert steps[..0] == steps;
    assert Exec(c, Init(c), steps) == Some(Init(c));
    assert Init(c).sources[i] == NewSource(c.policies[i]);
  }

  lemma FrontRuns(c: Config, steps: seq<Step>)
    requires steps != [] && Exec(c, Init(c), steps).Some?
    ensures Exec(c, Init(c), steps[..|steps| - 1]).Some?
  {
  }

  lemma JustLeft(c: Config, steps: seq<Step>, i: nat)
    requires c.Valid() && steps != [] && Exec(c, Init(c), steps).Some? && i < |c.policies|
    requires LeftAt(c, steps, i, |steps|) && !LeftAt(c, steps[..|steps| - 1], i, |steps| - 1)
    ensures var s := SourceAt(c, steps, i, |steps|).value; Unread(s, |s.admitted|)
  {
    var front := steps[..|steps| - 1];
    assert steps[..|steps|] == steps && front[..|front|] == front;
    ExecLast(c, steps);
    OffersOverRuns(c, front, i);
    OffersOverRuns(c, steps, i);
    PhasedOverRuns(c, steps, i);
    InitShape(c);
    ShapeOverRuns(c, Init(c), front);
    hide Exec, Apply, Enabled, Shape, Tail, Offers;
    ExitEmpty(c, Exec(c, Init(c), front).value, steps[|steps| - 1], i);
  }

  lemma StaysLeft(c: Config, st: State, step: Step, i: nat)
    requires Enabled(c, st, step) && i < |st.sources| && st.sources[i].disp.Exited?
    ensures |Apply(c, st, step).sources| == |st.sources| && Apply(c, st, step).sources[i].disp.Exited?
  {
    if step.IntakeAt? && step.i == i {
      IntakeKeepsDispatcher(c, i, st.sources[i], st.soft, step.intake);
      hide Intake;
    } else if step.DispatchAt? && step.i == i {
    } else {
      ElsewhereSameQueue(c, st, step, i);
      hide Apply, Enabled;
    }
  }

  /** A dispatcher that has left stays away. */
  lemma {:induction false} LeftForGood(c: Config, steps: seq<Step>, i: nat, m: nat)
    requires Exec(c, Init(c), steps).Some? && i < |c.policies| && m <= |steps| && LeftAt(c, steps, i, m)
    ensures LeftAt(c, steps, i, |steps|)
  {
    assert steps[..|steps|] == steps;
    if m == |steps| {
    } else {
      var front := steps[..|steps| - 1];
      assert front[..|front|] == front;
      ExecLast(c, steps);
      SourceAtFront(c, steps, i, m);
      LeftForGood(c, front, i, m);
      hide Exec, Apply, Enabled;
      StaysLeft(c, Exec(c, Init(c), front).value, steps[|steps| - 1], i);
    }
  }

  lemma NotLeftBefore(c: Config, steps: seq<Step>, i: nat, m: nat)
    requires Exec(c, Init(c), steps).Some? && i < |c.policies| && m < |steps|
    requires !LeftAt(c, steps[..|steps| - 1], i, |steps| - 1)
    ensures !LeftAt(c, steps, i, m)
  {
    if LeftAt(c, steps, i, m) {
      ExecLast(c, steps);
      SourceAtFront(c, steps, i, m);
      LeftForGood(c, steps[..|steps| - 1], i, m);
      assert false;
    }
  }

  /** Something was admitted to source i's queue after its dispatcher had left. */
  ghost predicate Late(c: Config, steps: seq<Step>, i: nat) {
    exists n: nat :: LateSince(c, steps, i, n)
  }

  predicate LateSince(c: Config, steps: seq<Step>, i: nat, n: nat) {
    LeftAt(c, steps, i, n) && SourceAt(c, steps, i, |steps|).Some? &&
    |SourceAt(c, steps, i, n).value.admitted| < |SourceAt(c, steps, i, |steps|).value.admitted|
  }

  /** From a point where the dispatcher had left to the end of the run. */
  lemma UnreadFrom(c: Config, steps: seq<Step>, i: nat, n: nat, k: nat)
    requires c.Valid() && Exec(c, Init(c), steps).Some? && i < |c.policies| && n <= |steps|
    requires SourceAt(c, steps, i, n).Some? && Unread(SourceAt(c, steps, i, n).value, k)
    ensures SourceAt(c, steps, i, |steps|).Some?
    ensures var s, t := SourceAt(c, steps, i, n).value, SourceAt(c, steps, i, |steps|).value;
            Unread(t, k) && s.admitted <= t.admitted
  {
    hide Unread, Exec;
    assert steps[..|steps|] == steps && steps == steps[..n] + steps[n..];
    ExecAppend(c, Init(c), steps[..n], steps[n..]);
    UnreadOverRuns(c, Exec(c, Init(c), steps[..n]).value, steps[n..], i, k);
  }

  /** A run at rest has left something on source i's queue exactly if something was
      admitted there after its dispatcher had left, and then exactly that minus
      evictions. */
  lemma StrandedExactly(c: Config, steps: seq<Step>, i: nat) returns (n: nat)
    requires c.Valid() && Exec(c, Init(c), steps).Some? && i < |c.policies|
    requires Final(Exec(c, Init(c), steps).value)
    ensures SourceAt(c, steps, i, |steps|).Some? && LeftAt(c, steps, i, n)
    ensures forall m: nat :: m < n ==> !LeftAt(c, steps, i, m)
    ensures var s, t := SourceAt(c, steps, i, n).value, SourceAt(c, steps, i, |steps|).value;
            && t.queue == Keep(t.admitted, t.evicted + Below(|s.admitted|))
            && (t.queue != [] <==> Late(c, steps, i))
  {
    OffersOverRuns(c, steps, i);
    assert steps[..|steps|] == steps;
    n := ExitPoint(c, steps, i);
    var s := SourceAt(c, steps, i, n).value;
    UnreadFrom(c, steps, i, n, |s.admitted|);
    var t := SourceAt(c, steps, i, |steps|).value;
    UnreadIs(t, |s.admitted|);
    hide Exec, Keep, Tail;
    if t.queue != [] {
      assert LateSince(c, steps, i, n);
    }
    if m: nat :| LateSince(c, steps, i, m) {
      LateMeansMore(c, steps, i, n, m);
    }
  }

  /** Once the dispatcher has left, admissions only add up. */
  lemma LateMeansMore(c: Config, steps: seq<Step>, i: nat, n: nat, m: nat)
    requires c.Valid() && Exec(c, Init(c), steps).Some? && i < |c.policies| && n <= m <= |steps|
    requires LeftAt(c, steps, i, n) && LeftAt(c, steps, i, m)
    requires var s := SourceAt(c, steps, i, n).value; Unread(s, |s.admitted|)
    ensures |SourceAt(c, steps, i, n).value.admitted| <= |SourceAt(c, steps, i, m).value.admitted|
  {
    var front := steps[..m];
    assert front[..n] == steps[..n] && front[..|front|] == front;
    hide Exec, Unread;
    UnreadFrom(c, front, i, n, |SourceAt(c, steps, i, n).value.admitted|);
  }

  /** When the contract holds. At rest, every message source i received is stored or
      counted as dropped exactly if the source was not exposed to the batcher's hard
      exit and nothing was admitted after its dispatcher had left. */
  lemma ContractExactly(c: Config, steps: seq<Step>, i: nat)
    requires c.Valid() && Exec(c, Init(c), steps).Some? && i < |c.policies|
    requires Final(Exec(c, Init(c), steps).value)
    ensures var end := Exec(c, Init(c), steps).value;
            && |end.sources| == |c.policies|
            && var s := end.sources[i];
            && (s.received == s.stored + s.dropped.Counted() <==> !Exposed(c, steps, i) && !Late(c, steps, i))
  {
    hide Exposed, Late, Exec, Balanced, Shape;
    assert steps[..|steps|] == steps;
    LostExactly(c, steps, i);
    var n := StrandedExactly(c, steps, i);
    BalanceOverRuns(c, steps, i);
    InitShape(c);
    ShapeOverRuns(c, Init(c), steps);
    FinalAccount(c, Exec(c, Init(c), steps).value, i);
  }

  /** A message that arrives at a queue with room after its dispatcher has left, whatever
      the policy and whoever is still running, is put on the queue and counted nowhere;
      if the pipeline was at rest it is at rest again. */
  lemma LateArrivalIsStranded(c: Config, st: State, i: nat, size: nat)
    requires Shape(c, st) && i < |st.sources| && st.sources[i].disp.Exited?
    requires |st.sources[i].queue| < c.capacity
    ensures var s := st.sources[i];
            var arrive, send := IntakeAt(i, Arrive(size)), IntakeAt(i, Select(|s.calls|));
            && Enabled(c, st, arrive) && Enabled(c, Apply(c, st, arrive), send)
            && var end := Apply(c, Apply(c, st, arrive), send);
            && |end.sources| == |st.sources|
            && end.sources[i] == Admit(i, s.(received := s.received + 1), Call(s.received, size, First))
            && (Final(st) ==> Final(end) && forall step :: !Next(c, end, step))
  {
    var s := st.sources[i];
    var arrive, send := IntakeAt(i, Arrive(size)), IntakeAt(i, Select(|s.calls|));
    var mid := Apply(c, st, arrive);
    var end := Apply(c, mid, send);
    assert st.soft by { assert SourceOk(c, i, s, st.soft, st.hard); }
    LateSend(c, i, s, size, st.soft);
    ShapeStep(c, st, arrive);
    ShapeStep(c, mid, send);
    hide Shape, Next, Intake, SourceOk;
    if Final(st) {
      forall step: Step
        ensures !Next(c, end, step)
      {
        FinalRests(c, end, step);
      }
    }
  }

  lemma LateSend(c: Config, i: nat, s: Source, size: nat, soft: bool)
    requires |s.queue| < c.capacity
    ensures var mid := Intake(c, i, s, soft, Arrive(size));
            && IntakeEnabled(c, mid, soft, Select(|s.calls|))
            && mid.calls == s.calls + [Call(s.received, size, First)]
            && Intake(c, i, mid, soft, Select(|s.calls|)) ==
               Admit(i, s.(received := s.received + 1), Call(s.received, size, First))
  {
    var mid := Intake(c, i, s, soft, Arrive(size));
    assert mid.calls[..|s.calls|] + mid.calls[|s.calls| + 1..] == s.calls;
  }

  /** ... and there it stays, in every further run, unless a later message evicts it. */
  lemma StaysStranded(c: Config, from: State, steps: seq<Step>, i: nat, n: nat, k: nat)
    requires c.Valid() && Exec(c, from, steps).Some? && i < |from.sources| && Unread(from.sources[i], n)
    requires n <= k < |from.sources[i].admitted|
    ensures var end := Exec(c, from, steps).value;
            && |end.sources| == |from.sources|
            && var e, t := from.sources[i].admitted[k], end.sources[i];
            k !in t.evicted <==> e in t.queue
  {
    UnreadOverRuns(c, from, steps, i, n);
    hide Exec;
    var t := Exec(c, from, steps).value.sources[i];
    var j := |t.admitted| - |t.queue|;
    assert t.admitted[k] == from.sources[i].admitted[k];
    if k >= j {
      assert t.queue[k - j] == t.admitted[k];
    } else {
      forall m | 0 <= m < |t.queue|
        ensures t.queue[m] != t.admitted[k]
      {
        assert t.queue[m] == t.admitted[j + m];
      }
    }
  }

  // ----- a run that loses its one message -----

  /** Whatever the settings, the policy and the size of the message, there is a run on which
      the one message received is neither stored nor counted as dropped: the hard
      deadline falls while it is on the shared channel. */
  lemma LossRun(c: Config, size: nat) returns (steps: seq<Step>)
    requires c.Valid() && |c.policies| == 1
    ensures Exec(c, Init(c), steps).Some?
    ensures var end := Exec(c, Init(c), steps).value;
            |end.sources| == 1 &&
            var s := end.sources[0];
            && s.received == 1 && s.lost == 1 && s.stored == 0 && s.dropped == Drops(0, 0, 0, 0, 0, 0)
            && InFlight(end, 0) == 0
  {
    var send := [IntakeAt(0, Arrive(size)), IntakeAt(0, Select(0)), DispatchAt(0, Take), DispatchAt(0, Send)];
    var e := Entry(0, 0, 0, size);
    var mid := SentOne(c, e, send);
    var stop := [SoftCancel, HardCancel, BatchNow(BatchHard)];
    var at := StoppedHard(c, mid, e, stop);
    steps := send + stop + [BatchNow(Swallow)];
    ExecAppend(c, Init(c), send, stop);
    ExecAppend(c, Init(c), send + stop, [BatchNow(Swallow)]);
    InitShape(c);
    ShapeOverRuns(c, Init(c), send + stop);
    SwallowLoses(c, at);
    ExecOne(c, at, BatchNow(Swallow));
    var end := Apply(c, at, BatchNow(Swallow));
    BalanceOverRuns(c, steps, 0);
    hide Exec, Apply, Enabled, Shape;
  }

  lemma SentOne(c: Config, e: Entry, steps: seq<Step>) returns (end: State)
    requires c.Valid() && |c.policies| == 1 && e == Entry(0, 0, 0, e.size)
    requires steps == [IntakeAt(0, Arrive(e.size)), IntakeAt(0, Select(0)), DispatchAt(0, Take), DispatchAt(0, Send)]
    ensures Exec(c, Init(c), steps) == Some(end)
    ensures end == Init(c).(sources := [NewSource(c.policies[0]).(received := 1, admitted := [e])], inq := [e])
  {
    var s := NewSource(c.policies[0]);
    var s0 := Init(c);
    hide Intake, Dispatch;
    var s1 := s0.(sources := [s.(received := 1, calls := [Call(0, e.size, First)])]);
    var s2 := s0.(sources := [s.(received := 1, queue := [e], admitted := [e])]);
    var s3 := s0.(sources := [s.(received := 1, disp := Holding(e, ToLoop), admitted := [e])]);
    end := s0.(sources := [s.(received := 1, admitted := [e])], inq := [e]);
    assert s0.sources == [s] by { assert |s0.sources| == 1 && s0.sources[0] == s; }
    SourcePassage(c, s, e);
    OnlyIntake(c, s0, s, Arrive(e.size));
    OnlyIntake(c, s1, s1.sources[0], Select(0));
    OnlyDispatch(c, s2, s2.sources[0], Take);
    OnlyDispatch(c, s3, s3.sources[0], Send);
    assert s0.inq + [] == s0.inq && s0.inq + [e] == [e];
    ExecOne(c, s0, steps[0]);
    hide Exec, Apply, Enabled;
    Chain(c, s0, [steps[0]], s1, steps[1], s2);
    assert [steps[0]] + [steps[1]] == steps[..2] && steps[..2] + [steps[2]] == steps[..3]
           && steps[..3] + [steps[3]] == steps;
    Chain(c, s0, steps[..2], s2, steps[2], s3);
    Chain(c, s0, steps[..3], s3, steps[3], end);
  }

  /** The one entry through its source. */
  lemma SourcePassage(c: Config, s: Source, e: Entry)
    requires c.Valid() && |c.policies| == 1 && s == NewSource(c.policies[0]) && e == Entry(0, 0, 0, e.size)
    ensures var s1 := s.(received := 1, calls := [Call(0, e.size, First)]);
            var s2 := s.(received := 1, queue := [e], admitted := [e]);
            var s3 := s.(received := 1, disp := Holding(e, ToLoop), admitted := [e]);
            && Intake(c, 0, s, false, Arrive(e.size)) == s1
            && IntakeEnabled(c, s1, false, Select(0)) && Intake(c, 0, s1, false, Select(0)) == s2
            && DispatchEnabled(s2, true, false, false, Take) && Dispatch(s2, true, false, false, Take) == (s3, [])
            && DispatchEnabled(s3, true, false, false, Send)
            && Dispatch(s3, true, false, false, Send) == (s.(received := 1, admitted := [e]), [e])
  {
    assert [] + [e] == [e] && [e][1..] == [] && [] + [Call(0, e.size, First)] == [Call(0, e.size, First)];
    assert [Call(0, e.size, First)][..0] + [Call(0, e.size, First)][1..] == [];
  }

  lemma OnlyIntake(c: Config, st: State, s: Source, a: IntakeStep)
    requires st.sources == [s] && IntakeEnabled(c, s, st.soft, a)
    ensures Enabled(c, st, IntakeAt(0, a))
    ensures Apply(c, st, IntakeAt(0, a)) == st.(sources := [Intake(c, 0, s, st.soft, a)])
  {
  }

  lemma OnlyDispatch(c: Config, st: State, s: Source, a: DispatchStep)
    requires st.sources == [s] && DispatchEnabled(s, |st.inq| < IN_CAPACITY, st.soft, st.hard, a)
    ensures Enabled(c, st, DispatchAt(0, a))
    ensures var (t, out) := Dispatch(s, |st.inq| < IN_CAPACITY, st.soft, st.hard, a);
            Apply(c, st, DispatchAt(0, a)) == st.(sources := [t], inq := st.inq + out)
  {
  }

  lemma StoppedHard(c: Config, st: State, e: Entry, steps: seq<Step>) returns (end: State)
    requires c.Valid() && |c.policies| == 1 && e == Entry(0, 0, 0, e.size)
    requires st == Init(c).(sources := [NewSource(c.policies[0]).(received := 1, admitted := [e])], inq := [e])
    requires steps == [SoftCancel, HardCancel, BatchNow(BatchHard)]
    ensures Exec(c, st, steps) == Some(end)
    ensures end == st.(soft := true, hard := true, batcher := Swallowing)
  {
    var s1 := Apply(c, st, steps[0]);
    var s2 := Apply(c, s1, steps[1]);
    end := Apply(c, s2, steps[2]);
    ExecOne(c, st, steps[0]);
    assert [steps[0]] + [steps[1]] == steps[..2] && steps[..2] + [steps[2]] == steps;
    Chain(c, st, [steps[0]], s1, steps[1], s2);
    Chain(c, st, steps[..2], s2, steps[2], end);
  }

  lemma Chain(c: Config, from: State, front: seq<Step>, mid: State, step: Step, end: State)
    requires Exec(c, from, front) == Some(mid) && Enabled(c, mid, step) && end == Apply(c, mid, step)
    ensures Exec(c, from, front + [step]) == Some(end)
  {
    assert (front + [step])[..|front|] == front;
  }
}
