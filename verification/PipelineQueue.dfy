/** What each overflow policy promises for a source's queue, at the granularity of the
    selects in enqueue and under any interleaving. */
module PipelineQueue {
  import opened Common
  import opened Pipeline
  import opened PipelineShape

  predicate Arrives(step: Step, i: nat) {
    step.IntakeAt? && step.i == i && step.intake.Arrive?
  }

  /** How many messages source i received. */
  function Receipts(steps: seq<Step>, i: nat): nat {
    if steps == [] then 0
    else
      var last := steps[|steps| - 1];
      Receipts(steps[..|steps| - 1], i) + if Arrives(last, i) || last == IntakeAt(i, Reject) then 1 else 0
  }

  datatype Offer = Offer(msg: nat, size: nat)

  /** The messages that producers brought to source i's queue, in order. */
  function Offered(steps: seq<Step>, i: nat): seq<Offer> {
    if steps == [] then []
    else
      var front, last := steps[..|steps| - 1], steps[|steps| - 1];
      Offered(front, i) + if Arrives(last, i) then [Offer(Receipts(front, i), last.intake.size)] else []
  }

  /** Source i has one producer: none arrives while another is in enqueue. */
  predicate OneProducer(c: Config, steps: seq<Step>, i: nat) {
    steps == [] ||
    (var front, last := steps[..|steps| - 1], steps[|steps| - 1];
     OneProducer(c, front, i) &&
     (Arrives(last, i) && Exec(c, Init(c), front).Some? && i < |Exec(c, Init(c), front).value.sources| ==>
        Exec(c, Init(c), front).value.sources[i].calls == []))
  }

  /** Only an intake or dispatch of source i touches its queue. */
  predicate SameQueue(s: Source, t: Source) {
    && t.policy == s.policy && t.calls == s.calls && t.queue == s.queue && t.received == s.received
    && t.disp == s.disp
    && t.admitted == s.admitted && t.evicted == s.evicted && t.dropped.queueFull == s.dropped.queueFull
  }

  lemma CountingSameQueue(ss: seq<Source>, es: seq<Entry>, r: Reason, i: nat)
    requires i < |ss| && r != QueueFull
    ensures |CountStored(ss, es)| == |DropEntries(ss, es, r)| == |Lose(ss, es)| == |ss|
    ensures SameQueue(ss[i], CountStored(ss, es)[i])
    ensures SameQueue(ss[i], DropEntries(ss, es, r)[i])
    ensures SameQueue(ss[i], Lose(ss, es)[i])
  {
  }

  lemma ElsewhereSameQueue(c: Config, st: State, step: Step, i: nat)
    requires Enabled(c, st, step) && i < |st.sources|
    requires !(step.IntakeAt? && step.i == i) && !(step.DispatchAt? && step.i == i)
    ensures |Apply(c, st, step).sources| == |st.sources|
    ensures SameQueue(st.sources[i], Apply(c, st, step).sources[i])
  {
    match step
    case BatchNow(a) =>
      var f := Batch(c, st, a);
      hide Batch, DropEntries, Lose;
      CountingSameQueue(st.sources, f.dropped, Shutdown, i);
      CountingSameQueue(DropEntries(st.sources, f.dropped, Shutdown), f.lost, Shutdown, i);
    case WriteAt(w, a) =>
      var f := Write(st, st.workers[w], a);
      assert f.reason != QueueFull;
      hide Write, DropEntries, CountStored;
      CountingSameQueue(st.sources, f.stored, Shutdown, i);
      CountingSameQueue(CountStored(st.sources, f.stored), f.dropped, f.reason, i);
    case _ =>
  }

  // ----- every offered entry is admitted or refused, once -----

  /** The queue is the tail of everything admitted; what was evicted lies before it. */
  predicate Tail(s: Source) {
    && |s.queue| <= |s.admitted|
    && s.queue == s.admitted[|s.admitted| - |s.queue|..]
    && (forall k :: 0 <= k < |s.admitted| ==> s.admitted[k].no == k)
    && (forall n :: n in s.evicted ==> n < |s.admitted| - |s.queue|)
  }

  /** Entries turned away at a full queue; evictions are the other queue_full drops. */
  function Refused(s: Source): int {
    s.dropped.queueFull - |s.evicted|
  }

  /** n entries were offered: each is admitted, refused or still in enqueue. */
  predicate Offers(s: Source, n: nat) {
    && Refused(s) >= 0
    && (s.policy != Block ==> n == |s.admitted| + |s.calls| + Refused(s))
    && (s.policy == Block ==> s.dropped.queueFull == 0)
    && (s.policy != DropOldest ==> s.evicted == {})
  }

  /** A single producer's enqueue under drop_oldest never finds the queue full again
      after its eviction, so it never refuses the new entry. */
  predicate Solo(c: Config, s: Source) {
    && |s.calls| <= 1
    && (s.calls != [] && s.calls[0].phase == Retrying ==> |s.queue| < c.capacity)
    && (s.policy == DropOldest ==> Refused(s) == 0)
  }

  lemma AdmitTail(i: nat, s: Source, call: Call)
    requires Tail(s)
    ensures Tail(Admit(i, s, call))
  {
    var t := Admit(i, s, call);
    CutFront(s.admitted, [Entry(i, |s.admitted|, call.msg, call.size)], |s.admitted| - |s.queue|);
    assert |t.admitted| - |t.queue| == |s.admitted| - |s.queue|;
  }

  lemma EvictTail(s: Source)
    requires Tail(s) && s.queue != []
    ensures Tail(Evict(s)) && |Evict(s).evicted| == |s.evicted| + 1
  {
    var k := |s.admitted| - |s.queue|;
    assert s.queue[0] == s.admitted[k] && s.queue[1..] == s.admitted[k + 1..];
    assert s.queue[0].no !in s.evicted;
  }

  /** The four things a select can do: admit the entry, refuse it, move on with the
      queue as it was, or evict. */
  lemma SelectCases(c: Config, i: nat, s: Source, soft: bool, j: nat)
    requires IntakeEnabled(c, s, soft, Select(j)) && c.Valid()
    ensures Finished(s, j) == s.(calls := Finished(s, j).calls)
    ensures var t, u := Intake(c, i, s, soft, Select(j)), Finished(s, j);
            && |u.calls| == |s.calls| - 1
            && (|| (|s.queue| < c.capacity && t == Admit(i, u, s.calls[j]))
                || (|s.queue| >= c.capacity && s.policy != Block && t == u.Drop(QueueFull)
                    && (s.policy == DropOldest ==> s.calls[j].phase == Retrying))
                || (s.policy == DropOldest && |t.calls| == |s.calls| && t == s.(calls := t.calls))
                || (s.policy == DropOldest && |t.calls| == |s.calls| && s.queue != []
                    && t == Evict(s.(calls := t.calls))))
  {
  }

  lemma SelectOffers(c: Config, i: nat, s: Source, soft: bool, j: nat, n: nat)
    requires IntakeEnabled(c, s, soft, Select(j)) && c.Valid() && Tail(s) && Offers(s, n)
    ensures var t := Intake(c, i, s, soft, Select(j));
            Tail(t) && Offers(t, n) && t.policy == s.policy
  {
    hide Tail, Intake, Finished;
    var t, u := Intake(c, i, s, soft, Select(j)), Finished(s, j);
    SelectCases(c, i, s, soft, j);
    CallsTail(s, t.calls);
    CallsTail(s, u.calls);
    AdmitTail(i, u, s.calls[j]);
    if s.queue != [] {
      EvictTail(s.(calls := t.calls));
    }
  }

  lemma IntakeOffers(c: Config, i: nat, s: Source, soft: bool, a: IntakeStep, n: nat)
    requires IntakeEnabled(c, s, soft, a) && c.Valid() && Tail(s) && Offers(s, n)
    ensures var t := Intake(c, i, s, soft, a);
            Tail(t) && Offers(t, if a.Arrive? then n + 1 else n) && t.policy == s.policy
  {
    if a.Select? {
      SelectOffers(c, i, s, soft, a.j, n);
      hide Tail, Offers, Intake;
    }
  }

  lemma CallsTail(s: Source, calls: seq<Call>)
    ensures Tail(s.(calls := calls)) == Tail(s) && Tail(s.(calls := calls).Drop(QueueFull)) == Tail(s)
  {
  }

  lemma IntakeSolo(c: Config, i: nat, s: Source, soft: bool, a: IntakeStep)
    requires IntakeEnabled(c, s, soft, a) && c.Valid() && Tail(s) && |s.queue| <= c.capacity
    requires Solo(c, s) && (a.Arrive? ==> s.calls == [])
    ensures Solo(c, Intake(c, i, s, soft, a))
  {
    if a.Select? && s.queue != [] {
      EvictTail(s);
    }
    hide Tail;
  }

  lemma DispatchOffers(c: Config, s: Source, room: bool, soft: bool, hard: bool, a: DispatchStep, n: nat)
    requires DispatchEnabled(s, room, soft, hard, a) && Tail(s) && Offers(s, n)
    ensures var t := Dispatch(s, room, soft, hard, a).0;
            Tail(t) && Offers(t, n) && t.policy == s.policy && (Solo(c, s) ==> Solo(c, t))
  {
    if s.queue != [] {
      assert s.queue[1..] == s.admitted[|s.admitted| - |s.queue| + 1..];
    }
  }

  /** With any number of producers, every entry offered to a queue that may refuse is
      admitted or refused exactly once, and every queue_full drop is one refusal or
      one eviction. A blocking queue does neither. */
  lemma {:induction false} OffersOverRuns(c: Config, steps: seq<Step>, i: nat)
    requires c.Valid() && Exec(c, Init(c), steps).Some? && i < |c.policies|
    ensures var st := Exec(c, Init(c), steps).value;
            && |st.sources| == |c.policies| && st.sources[i].policy == c.policies[i]
            && Tail(st.sources[i]) && Offers(st.sources[i], |Offered(steps, i)|)
  {
    if steps == [] {
    } else {
      var front, last := steps[..|steps| - 1], steps[|steps| - 1];
      OffersOverRuns(c, front, i);
      var st := Exec(c, Init(c), front).value;
      hide Tail, Offers, Exec;
      assert Exec(c, Init(c), steps) == Some(Apply(c, st, last)) by { ExecLast(c, steps); }
      OffersStep(c, st, last, i, |Offered(front, i)|);
    }
  }

  lemma ExecLast(c: Config, steps: seq<Step>)
    requires steps != [] && Exec(c, Init(c), steps).Some?
    ensures var front, last := steps[..|steps| - 1], steps[|steps| - 1];
            && Exec(c, Init(c), front).Some? && Enabled(c, Exec(c, Init(c), front).value, last)
            && Exec(c, Init(c), steps) == Some(Apply(c, Exec(c, Init(c), front).value, last))
  {
  }

  lemma OffersStep(c: Config, st: State, step: Step, i: nat, n: nat)
    requires c.Valid() && Enabled(c, st, step) && i < |st.sources| && Tail(st.sources[i]) && Offers(st.sources[i], n)
    ensures var next := Apply(c, st, step);
            && |next.sources| == |st.sources| && next.sources[i].policy == st.sources[i].policy
            && Tail(next.sources[i]) && Offers(next.sources[i], if Arrives(step, i) then n + 1 else n)
  {
    if step.IntakeAt? && step.i == i {
      IntakeOffers(c, i, st.sources[i], st.soft, step.intake, n);
      hide Tail, Offers, Intake;
    } else if step.DispatchAt? && step.i == i {
      DispatchOffers(c, st.sources[i], |st.inq| < IN_CAPACITY, st.soft, st.hard, step.dispatch, n);
      hide Tail, Offers, Dispatch;
    } else {
      ElsewhereSameQueue(c, st, step, i);
      hide Apply, Enabled;
    }
  }

  lemma SoloStep(c: Config, st: State, step: Step, i: nat)
    requires Shape(c, st) && Enabled(c, st, step) && i < |st.sources| && Tail(st.sources[i]) && Solo(c, st.sources[i])
    requires Arrives(step, i) ==> st.sources[i].calls == []
    ensures |Apply(c, st, step).sources| == |st.sources| && Solo(c, Apply(c, st, step).sources[i])
  {
    var s := st.sources[i];
    assert |s.queue| <= c.capacity by { assert SourceOk(c, i, s, st.soft, st.hard); }
    if step.IntakeAt? && step.i == i {
      IntakeSolo(c, i, s, st.soft, step.intake);
      hide Tail, Solo, Intake;
    } else if step.DispatchAt? && step.i == i {
      SoloDispatch(c, s, |st.inq| < IN_CAPACITY, st.soft, st.hard, step.dispatch);
      hide Tail, Solo, Dispatch;
    } else {
      ElsewhereSameQueue(c, st, step, i);
      hide Apply, Enabled, Tail;
    }
  }

  lemma SoloDispatch(c: Config, s: Source, room: bool, soft: bool, hard: bool, a: DispatchStep)
    requires DispatchEnabled(s, room, soft, hard, a) && Solo(c, s)
    ensures Solo(c, Dispatch(s, room, soft, hard, a).0)
  {
  }

  /** With one producer, drop_oldest never turns the new entry away, whatever the
      dispatchers, the batcher, the writers and Stop do in between: everything offered
      is admitted, and queue_full counts evictions only. */
  lemma {:induction false} DropOldestAdmits(c: Config, steps: seq<Step>, i: nat)
    requires c.Valid() && Exec(c, Init(c), steps).Some? && i < |c.policies| && c.policies[i] == DropOldest
    requires OneProducer(c, steps, i)
    ensures var st := Exec(c, Init(c), steps).value;
            && |st.sources| == |c.policies|
            && Solo(c, st.sources[i])
            && |Offered(steps, i)| == |st.sources[i].admitted| + |st.sources[i].calls|
            && st.sources[i].dropped.queueFull == |st.sources[i].evicted|
  {
    OffersOverRuns(c, steps, i);
    if steps == [] {
    } else {
      var front, last := steps[..|steps| - 1], steps[|steps| - 1];
      ExecLast(c, steps);
      DropOldestAdmits(c, front, i);
      OffersOverRuns(c, front, i);
      InitShape(c);
      ShapeOverRuns(c, Init(c), front);
      hide Shape, Exec, Apply, Enabled, Tail;
      SoloStep(c, Exec(c, Init(c), front).value, last, i);
    }
  }

  // ----- what a full queue holds -----

  /** Which messages the entries are. */
  function Messages(es: seq<Entry>): seq<Offer> {
    seq(|es|, k requires 0 <= k < |es| => Offer(es[k].msg, es[k].size))
  }

  /** The queue of a source nobody dispatches, after offers by one producer. */
  predicate Holds(c: Config, s: Source, offered: seq<Offer>)
    requires c.Valid()
  {
    && |s.calls| <= 1 && |s.calls| <= |offered|
    && var settled := offered[..|offered| - |s.calls|];
    && (s.calls != [] ==> Offer(s.calls[0].msg, s.calls[0].size) == offered[|offered| - 1])
    && (s.calls != [] && s.calls[0].phase != First ==> s.policy == DropOldest && |settled| >= c.capacity)
    && match s.policy
       case DropOldest =>
         var k := if s.calls != [] && s.calls[0].phase == Retrying then Min(|settled|, c.capacity - 1)
                  else Min(|settled|, c.capacity);
         Messages(s.queue) == settled[|settled| - k..]
       case _ => Messages(s.queue) == settled[..Min(|settled|, c.capacity)]
  }

  lemma MessagesAdmit(i: nat, s: Source, call: Call)
    ensures Messages(Admit(i, s, call).queue) == Messages(s.queue) + [Offer(call.msg, call.size)]
  {
  }

  lemma FirstKept(settled: seq<Offer>, x: Offer, cap: nat)
    ensures (settled + [x])[..Min(|settled| + 1, cap)] ==
            if |settled| < cap then settled[..Min(|settled|, cap)] + [x] else settled[..Min(|settled|, cap)]
  {
  }

  lemma NewestHolds(c: Config, i: nat, s: Source, soft: bool, offered: seq<Offer>)
    requires c.Valid() && s.policy == DropNewest && Holds(c, s, offered) && |s.calls| == 1
    ensures Holds(c, Intake(c, i, s, soft, Select(0)), offered)
  {
    var n, u := |offered|, Finished(s, 0);
    var settled, x := offered[..n - 1], offered[n - 1];
    MessagesAdmit(i, u, s.calls[0]);
    SplitAt(offered, n - 1);
    assert offered[n - 1..] == [x] && offered[..n] == offered;
    FirstKept(settled, x, c.capacity);
    assert |Messages(s.queue)| == |s.queue| == Min(|settled|, c.capacity);
    hide Messages;
  }

  lemma OldestSends(c: Config, i: nat, s: Source, soft: bool, offered: seq<Offer>)
    requires c.Valid() && s.policy == DropOldest && Holds(c, s, offered) && |s.calls| == 1
    requires s.calls[0].phase != Evicting && |s.queue| < c.capacity
    ensures Holds(c, Intake(c, i, s, soft, Select(0)), offered)
  {
    var n, u := |offered|, Finished(s, 0);
    var settled, x := offered[..n - 1], offered[n - 1];
    MessagesAdmit(i, u, s.calls[0]);
    SplitAt(offered, n - 1);
    assert offered[n - 1..] == [x] && offered[..n] == offered;
    assert |Messages(s.queue)| == |s.queue|;
    hide Messages;
    CutFront(settled, [x], |settled| - |s.queue|);
  }

  /** A full queue moves on to its eviction, which takes the oldest entry. */
  lemma OldestEvicts(c: Config, i: nat, s: Source, soft: bool, offered: seq<Offer>)
    requires c.Valid() && s.policy == DropOldest && Holds(c, s, offered) && |s.calls| == 1
    requires s.calls[0].phase == Evicting || (s.calls[0].phase == First && |s.queue| >= c.capacity)
    ensures Holds(c, Intake(c, i, s, soft, Select(0)), offered)
  {
    var settled := offered[..|offered| - 1];
    assert |Messages(s.queue)| == |s.queue|;
    if s.calls[0].phase == Evicting {
      assert Messages(s.queue[1..]) == Messages(s.queue)[1..];
      assert settled[|settled| - c.capacity..][1..] == settled[|settled| - c.capacity + 1..];
    }
    hide Messages;
  }

  lemma RetryHasRoom(c: Config, s: Source, offered: seq<Offer>)
    requires c.Valid() && s.policy == DropOldest && Holds(c, s, offered) && |s.calls| == 1
    ensures s.calls[0].phase == Retrying ==> |s.queue| < c.capacity
  {
    assert |Messages(s.queue)| == |s.queue|;
  }

  lemma ArriveHolds(c: Config, i: nat, s: Source, soft: bool, size: nat, offered: seq<Offer>)
    requires c.Valid() && Holds(c, s, offered) && s.calls == []
    ensures Holds(c, Intake(c, i, s, soft, Arrive(size)), offered + [Offer(s.received, size)])
  {
    hide Messages, Min;
    assert (offered + [Offer(s.received, size)])[..|offered|] == offered;
    assert offered[..|offered|] == offered;
  }

  lemma IntakeHolds(c: Config, i: nat, s: Source, soft: bool, a: IntakeStep, offered: seq<Offer>)
    requires IntakeEnabled(c, s, soft, a) && c.Valid() && s.policy != Block && Holds(c, s, offered)
    requires a.Arrive? ==> s.calls == []
    ensures Holds(c, Intake(c, i, s, soft, a), offered + if a.Arrive? then [Offer(s.received, a.size)] else [])
  {
    assert offered + [] == offered;
    match a
    case Arrive(size) =>
      ArriveHolds(c, i, s, soft, size, offered);
      hide Holds, Intake;
    case Select(j) =>
      assert j == 0;
      if s.policy == DropNewest {
        NewestHolds(c, i, s, soft, offered);
      } else {
        RetryHasRoom(c, s, offered);
        if s.calls[0].phase != Evicting && |s.queue| < c.capacity {
          OldestSends(c, i, s, soft, offered);
        } else {
          OldestEvicts(c, i, s, soft, offered);
        }
      }
      hide Holds, Intake;
    case _ =>
      hide Messages, Min;
  }

  predicate Undisturbed(steps: seq<Step>, i: nat) {
    forall k :: 0 <= k < |steps| ==> !(steps[k].DispatchAt? && steps[k].i == i)
  }

  lemma HoldsStep(c: Config, st: State, step: Step, i: nat, offered: seq<Offer>)
    requires c.Valid() && Enabled(c, st, step) && i < |st.sources|
    requires !(step.DispatchAt? && step.i == i) && st.sources[i].policy != Block && Holds(c, st.sources[i], offered)
    requires Arrives(step, i) ==> st.sources[i].calls == []
    ensures |Apply(c, st, step).sources| == |st.sources|
    ensures var more := if Arrives(step, i) then [Offer(st.sources[i].received, step.intake.size)] else [];
            Holds(c, Apply(c, st, step).sources[i], offered + more)
  {
    if step.IntakeAt? && step.i == i {
      IntakeHolds(c, i, st.sources[i], st.soft, step.intake, offered);
      hide Holds, Intake;
    } else {
      ElsewhereSameQueue(c, st, step, i);
      hide Apply, Enabled;
      assert offered + [] == offered;
    }
  }

  lemma ReceiptStep(c: Config, st: State, step: Step, i: nat)
    requires Enabled(c, st, step) && i < |st.sources|
    ensures |Apply(c, st, step).sources| == |st.sources|
    ensures Apply(c, st, step).sources[i].received ==
            st.sources[i].received + if Arrives(step, i) || step == IntakeAt(i, Reject) then 1 else 0
  {
    if step.IntakeAt? && step.i == i {
    } else if step.DispatchAt? && step.i == i {
    } else {
      ElsewhereSameQueue(c, st, step, i);
      hide Apply, Enabled;
    }
  }

  lemma {:induction false} ReceiptsOverRuns(c: Config, steps: seq<Step>, i: nat)
    requires Exec(c, Init(c), steps).Some? && i < |c.policies|
    ensures var st := Exec(c, Init(c), steps).value;
            |st.sources| == |c.policies| && st.sources[i].received == Receipts(steps, i)
  {
    if steps == [] {
      assert Init(c).sources[i] == NewSource(c.policies[i]);
    } else {
      var front := steps[..|steps| - 1];
      ExecLast(c, steps);
      ReceiptsOverRuns(c, front, i);
      hide Exec, Apply, Enabled;
      ReceiptStep(c, Exec(c, Init(c), front).value, steps[|steps| - 1], i);
    }
  }

  /** Later offers are later messages, and all are among the first n. */
  predicate Rising(all: seq<Offer>, n: nat) {
    && (forall j :: 0 <= j < |all| ==> all[j].msg < n)
    && (forall j, k :: 0 <= j < k < |all| ==> all[j].msg < all[k].msg)
  }

  lemma RisingOn(all: seq<Offer>, n: nat, size: nat)
    requires Rising(all, n)
    ensures Rising(all, n + 1) && Rising(all + [Offer(n, size)], n + 1) && Rising(all + [], n)
  {
    assert all + [] == all;
  }

  /** No two offers are the same message. */
  lemma {:induction false} OffersDiffer(steps: seq<Step>, i: nat)
    ensures Rising(Offered(steps, i), Receipts(steps, i))
  {
    if steps == [] {
    } else {
      var front, last := steps[..|steps| - 1], steps[|steps| - 1];
      OffersDiffer(front, i);
      RisingOn(Offered(front, i), Receipts(front, i), if Arrives(last, i) then last.intake.size else 0);
      hide Rising;
      assert !Arrives(last, i) ==> Offered(front, i) + [] == Offered(front, i);
    }
  }

  lemma {:induction false} HoldsOverRuns(c: Config, steps: seq<Step>, i: nat)
    requires c.Valid() && Exec(c, Init(c), steps).Some? && i < |c.policies| && c.policies[i] != Block
    requires OneProducer(c, steps, i) && Undisturbed(steps, i)
    ensures var st := Exec(c, Init(c), steps).value;
            && |st.sources| == |c.policies| && st.sources[i].policy == c.policies[i]
            && Holds(c, st.sources[i], Offered(steps, i))
  {
    OffersOverRuns(c, steps, i);
    if steps == [] {
    } else {
      var front, last := steps[..|steps| - 1], steps[|steps| - 1];
      ExecLast(c, steps);
      HoldsOverRuns(c, front, i);
      ReceiptsOverRuns(c, front, i);
      hide Holds, Exec, Apply, Enabled, Tail, Offers;
      HoldsStep(c, Exec(c, Init(c), front).value, last, i, Offered(front, i));
    }
  }

  /** When nothing is dispatched and the one producer is between calls, drop_newest
      holds the first messages offered up to capacity and drop_oldest the last, in order. */
  lemma FullQueueHolds(c: Config, steps: seq<Step>, i: nat)
    requires c.Valid() && Exec(c, Init(c), steps).Some? && i < |c.policies|
    requires OneProducer(c, steps, i) && Undisturbed(steps, i)
    ensures var st, all := Exec(c, Init(c), steps).value, Offered(steps, i);
            var k := Min(|all|, c.capacity);
            && |st.sources| == |c.policies|
            && (st.sources[i].calls == [] && c.policies[i] == DropNewest ==> Messages(st.sources[i].queue) == all[..k])
            && (st.sources[i].calls == [] && c.policies[i] == DropOldest ==>
                  Messages(st.sources[i].queue) == all[|all| - k..])
            && Rising(all, Receipts(steps, i))
  {
    OffersOverRuns(c, steps, i);
    if c.policies[i] != Block {
      HoldsOverRuns(c, steps, i);
    }
    var all := Offered(steps, i);
    OffersDiffer(steps, i);
    assert all[..|all|] == all;
  }
}
