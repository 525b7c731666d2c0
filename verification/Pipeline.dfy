/** The ingestion pipeline (backend/internal/ingestion/pipeline.go) as a labelled
    transition system: one step for each select, channel operation, cancellation,
    write attempt or goroutine exit, taken in any order. Sources, producers and
    workers are unbounded in number. */
module Pipeline {
  import opened Common

  const IN_CAPACITY := 1024
  const WRITE_ATTEMPTS := 3

  datatype Policy = Block | DropOldest | DropNewest

  datatype Reason = QueueFull | TooLarge | ParseError | WriteFailed | StorageRejected | Shutdown

  /** src is the source's index, no its admission number there and msg says which of the
      source's messages it is, in order of receipt. */
  datatype Entry = Entry(src: nat, no: nat, msg: nat, size: nat)

  datatype Config = Config(policies: seq<Policy>, capacity: nat, workers: nat, maxEntries: nat, maxBytes: nat) {
    predicate Valid() {
      |policies| >= 1 && capacity >= 1 && workers >= 1 && maxEntries >= 1 && maxBytes >= 1
    }
  }

  // ----- the parts of the state -----

  /** Where a producer is in enqueue: drop_oldest has three selects. */
  datatype Phase = First | Evicting | Retrying

  datatype Call = Call(msg: nat, size: nat, phase: Phase)

  /** Where a dispatcher goes when a nested call returns. */
  datatype Return = ToLoop | ToDrain | ToExit

  datatype Dispatcher = Looping | Holding(e: Entry, ret: Return) | Draining | Dumping(to: Return) | Exited

  /** messages_dropped_total by reason. */
  datatype Drops = Drops(
    queueFull: nat, tooLarge: nat, parseError: nat, writeFailed: nat, rejected: nat, shutdown: nat) {
    function Bump(r: Reason, n: nat): Drops {
      match r
      case QueueFull => this.(queueFull := queueFull + n)
      case TooLarge => this.(tooLarge := tooLarge + n)
      case ParseError => this.(parseError := parseError + n)
      case WriteFailed => this.(writeFailed := writeFailed + n)
      case StorageRejected => this.(rejected := rejected + n)
      case Shutdown => this.(shutdown := shutdown + n)
    }

    /** Drops of received messages: an oversized frame is never received. */
    function Counted(): nat {
      queueFull + parseError + writeFailed + rejected + shutdown
    }
  }

  /** admitted and evicted are the history of the queue: every entry put on it, and
      the admission numbers drop_oldest took back. lost counts entries read from
      the shared channel and discarded uncounted. */
  datatype Source = Source(
    policy: Policy, calls: seq<Call>, queue: seq<Entry>, disp: Dispatcher,
    admitted: seq<Entry>, evicted: set<nat>,
    received: nat, stored: nat, dropped: Drops, lost: nat)
  {
    function Drop(r: Reason): Source {
      this.(dropped := dropped.Bump(r, 1))
    }

    function Hand(): seq<Entry> {
      if disp.Holding? then [disp.e] else []
    }
  }

  datatype After = Continue | Exit

  datatype Batcher = Collecting(batch: seq<Entry>) | Flushing(batch: seq<Entry>, after: After) | Swallowing | Closed {
    function Entries(): seq<Entry> {
      if Collecting? || Flushing? then batch else []
    }
  }

  datatype Worker = Idle | Writing(batch: seq<Entry>, attempt: nat) | Waiting(batch: seq<Entry>, attempt: nat) | Gone {
    function Entries(): seq<Entry> {
      if Writing? || Waiting? then batch else []
    }
  }

  /** emitted is the history of the batches channel, flattened. */
  datatype State = State(
    sources: seq<Source>, inq: seq<Entry>, inClosed: bool,
    batcher: Batcher, batches: seq<seq<Entry>>, emitted: seq<Entry>,
    workers: seq<Worker>, soft: bool, hard: bool)

  datatype WriteOutcome = Accepted | BadRequest | Unavailable

  // ----- enqueue -----

  datatype IntakeStep = Arrive(size: nat) | Reject | Oversize | Select(j: nat) | SelectShutdown(j: nat)

  predicate IntakeEnabled(c: Config, s: Source, soft: bool, a: IntakeStep) {
    match a
    case Arrive(_) => true
    case Reject => true
    case Oversize => true
    case Select(j) => j < |s.calls| && (s.policy == Block ==> |s.queue| < c.capacity)
    case SelectShutdown(j) => j < |s.calls| && s.policy == Block && soft
  }

  function Finished(s: Source, j: nat): Source
    requires j < |s.calls|
  {
    s.(calls := s.calls[..j] + s.calls[j + 1..])
  }

  function Admit(i: nat, s: Source, call: Call): Source {
    var e := Entry(i, |s.admitted|, call.msg, call.size);
    s.(queue := s.queue + [e], admitted := s.admitted + [e])
  }

  function Evict(s: Source): Source
    requires s.queue != []
  {
    s.(queue := s.queue[1..], evicted := s.evicted + {s.queue[0].no}).Drop(QueueFull)
  }

  /** A select whose only alternative to sending is to drop the new entry. */
  function SendOrDrop(c: Config, i: nat, s: Source, j: nat): Source
    requires j < |s.calls|
  {
    var t := Finished(s, j);
    if |s.queue| < c.capacity then Admit(i, t, s.calls[j]) else t.Drop(QueueFull)
  }

  function Intake(c: Config, i: nat, s: Source, soft: bool, a: IntakeStep): Source
    requires IntakeEnabled(c, s, soft, a)
  {
    match a
    case Arrive(size) => s.(received := s.received + 1, calls := s.calls + [Call(s.received, size, First)])
    case Reject => s.(received := s.received + 1).Drop(ParseError)
    case Oversize => s.Drop(TooLarge)
    case SelectShutdown(j) => Finished(s, j).Drop(Shutdown)
    case Select(j) =>
      var call := s.calls[j];
      if s.policy != DropOldest || call.phase == Retrying then SendOrDrop(c, i, s, j)
      else if call.phase == First then
        if |s.queue| < c.capacity then SendOrDrop(c, i, s, j)
        else s.(calls := s.calls[j := call.(phase := Evicting)])
      else
        var t := s.(calls := s.calls[j := call.(phase := Retrying)]);
        if t.queue == [] then t else Evict(t)
  }

  // ----- dispatchers -----

  datatype DispatchStep = Take | SeeSoft | SeeHard | Send | GiveUp | DrainEnd | DumpTake | DumpEnd

  predicate DispatchEnabled(s: Source, room: bool, soft: bool, hard: bool, a: DispatchStep) {
    match a
    case Take => (s.disp.Looping? || s.disp.Draining?) && s.queue != []
    case SeeSoft => s.disp.Looping? && soft
    case SeeHard => s.disp.Looping? && hard
    case Send => s.disp.Holding? && room
    case GiveUp => s.disp.Holding? && hard
    case DrainEnd => s.disp.Draining? && s.queue == []
    case DumpTake => s.disp.Dumping? && s.queue != []
    case DumpEnd => s.disp.Dumping? && s.queue == []
  }

  function Resume(r: Return): Dispatcher {
    match r
    case ToLoop => Looping
    case ToDrain => Draining
    case ToExit => Exited
  }

  /** The source after the step, and what it put on the shared channel. */
  function Dispatch(s: Source, room: bool, soft: bool, hard: bool, a: DispatchStep): (Source, seq<Entry>)
    requires DispatchEnabled(s, room, soft, hard, a)
  {
    match a
    case Take =>
      var ret := if s.disp.Looping? then ToLoop else ToDrain;
      (s.(queue := s.queue[1..], disp := Holding(s.queue[0], ret)), [])
    case SeeSoft => (s.(disp := Draining), [])
    case SeeHard => (s.(disp := Dumping(ToExit)), [])
    case Send => (s.(disp := Resume(s.disp.ret)), [s.disp.e])
    case GiveUp => (s.(disp := Dumping(s.disp.ret)).Drop(Shutdown), [])
    case DrainEnd => (s.(disp := Exited), [])
    case DumpTake => (s.(queue := s.queue[1..]).Drop(Shutdown), [])
    case DumpEnd => (s.(disp := Resume(s.disp.to)), [])
  }

  // ----- the batcher -----

  datatype BatchStep = Receive | SeeClosed | Tick | BatchHard | Emit | FlushDrop | Swallow | SwallowEnd

  function ByteSize(b: seq<Entry>): nat {
    if b == [] then 0 else ByteSize(b[..|b| - 1]) + b[|b| - 1].size
  }

  /** A batch with one more entry: flushed if it has reached a limit. */
  function Collect(c: Config, b: seq<Entry>, e: Entry): Batcher {
    var more := b + [e];
    if |more| >= c.maxEntries || ByteSize(more) >= c.maxBytes then Flushing(more, Continue) else Collecting(more)
  }

  /** What a batcher step did besides changing the batcher. */
  datatype BatchEffect = BatchEffect(
    batcher: Batcher, inq: seq<Entry>, emit: seq<seq<Entry>>, dropped: seq<Entry>, lost: seq<Entry>)

  predicate BatchEnabled(st: State, c: Config, a: BatchStep) {
    var b := st.batcher;
    match a
    case Receive => b.Collecting? && st.inq != []
    case SeeClosed => b.Collecting? && st.inq == [] && st.inClosed
    case Tick => b.Collecting?
    case BatchHard => b.Collecting? && st.hard
    case Emit => b.Flushing? && |st.batches| < 2 * c.workers
    case FlushDrop => b.Flushing? && st.hard
    case Swallow => b.Swallowing? && st.inq != []
    case SwallowEnd => b.Swallowing? && st.inq == [] && st.inClosed
  }

  function Flushed(after: After): Batcher {
    if after == Continue then Collecting([]) else Closed
  }

  function Batch(c: Config, st: State, a: BatchStep): BatchEffect
    requires BatchEnabled(st, c, a)
  {
    var b := st.batcher;
    match a
    case Receive => BatchEffect(Collect(c, b.batch, st.inq[0]), st.inq[1..], [], [], [])
    case SeeClosed => BatchEffect(if b.batch == [] then Closed else Flushing(b.batch, Exit), st.inq, [], [], [])
    case Tick => BatchEffect(if b.batch == [] then b else Flushing(b.batch, Continue), st.inq, [], [], [])
    case BatchHard => BatchEffect(Swallowing, st.inq, [], b.batch, [])
    case Emit => BatchEffect(Flushed(b.after), st.inq, [b.batch], [], [])
    case FlushDrop => BatchEffect(Flushed(b.after), st.inq, [], b.batch, [])
    case Swallow => BatchEffect(Swallowing, st.inq[1..], [], [], [st.inq[0]])
    case SwallowEnd => BatchEffect(Closed, st.inq, [], [], [])
  }

  // ----- the writer pool -----

  datatype WriteStep = TakeBatch | Leave | Attempt(outcome: WriteOutcome) | Retry | Abandon

  /** What a writer step did: batches stored or dropped for a reason. */
  datatype WriteEffect = WriteEffect(
    worker: Worker, batches: seq<seq<Entry>>, stored: seq<Entry>, dropped: seq<Entry>, reason: Reason)

  predicate WriteEnabled(st: State, w: Worker, a: WriteStep) {
    match a
    case TakeBatch => w.Idle? && st.batches != []
    case Leave => w.Idle? && st.batches == [] && st.batcher.Closed?
    case Attempt(_) => w.Writing?
    case Retry => w.Waiting?
    case Abandon => w.Waiting? && st.hard
  }

  function Write(st: State, w: Worker, a: WriteStep): WriteEffect
    requires WriteEnabled(st, w, a)
  {
    match a
    case TakeBatch => WriteEffect(Writing(st.batches[0], 0), st.batches[1..], [], [], WriteFailed)
    case Leave => WriteEffect(Gone, st.batches, [], [], WriteFailed)
    case Attempt(o) =>
      if o == Accepted then WriteEffect(Idle, st.batches, w.batch, [], WriteFailed)
      else if o == BadRequest then WriteEffect(Idle, st.batches, [], w.batch, StorageRejected)
      else if w.attempt + 1 < WRITE_ATTEMPTS then
        WriteEffect(Waiting(w.batch, w.attempt + 1), st.batches, [], [], WriteFailed)
      else WriteEffect(Idle, st.batches, [], w.batch, WriteFailed)
    case Retry => WriteEffect(Writing(w.batch, w.attempt), st.batches, [], [], WriteFailed)
    case Abandon => WriteEffect(Idle, st.batches, [], w.batch, Shutdown)
  }

  // ----- the whole system -----

  /** The entries of one source, in order. */
  function Only(i: nat, es: seq<Entry>): seq<Entry> {
    if es == [] then []
    else Only(i, es[..|es| - 1]) + if es[|es| - 1].src == i then [es[|es| - 1]] else []
  }

  function Flat(bs: seq<seq<Entry>>): seq<Entry> {
    if bs == [] then [] else bs[0] + Flat(bs[1..])
  }

  function CountStored(ss: seq<Source>, es: seq<Entry>): seq<Source> {
    seq(|ss|, i requires 0 <= i < |ss| => ss[i].(stored := ss[i].stored + |Only(i, es)|))
  }

  function DropEntries(ss: seq<Source>, es: seq<Entry>, r: Reason): seq<Source> {
    seq(|ss|, i requires 0 <= i < |ss| => ss[i].(dropped := ss[i].dropped.Bump(r, |Only(i, es)|)))
  }

  function Lose(ss: seq<Source>, es: seq<Entry>): seq<Source> {
    seq(|ss|, i requires 0 <= i < |ss| => ss[i].(lost := ss[i].lost + |Only(i, es)|))
  }

  datatype Step =
    | IntakeAt(i: nat, intake: IntakeStep)
    | DispatchAt(i: nat, dispatch: DispatchStep)
    | CloseIn
    | BatchNow(batch: BatchStep)
    | WriteAt(w: nat, write: WriteStep)
    | SoftCancel
    | HardCancel

  predicate Enabled(c: Config, st: State, step: Step) {
    match step
    case IntakeAt(i, a) => i < |st.sources| && IntakeEnabled(c, st.sources[i], st.soft, a)
    case DispatchAt(i, a) =>
      i < |st.sources| && DispatchEnabled(st.sources[i], |st.inq| < IN_CAPACITY, st.soft, st.hard, a)
    case CloseIn => !st.inClosed && forall i :: 0 <= i < |st.sources| ==> st.sources[i].disp.Exited?
    case BatchNow(a) => BatchEnabled(st, c, a)
    case WriteAt(w, a) => w < |st.workers| && WriteEnabled(st, st.workers[w], a)
    case SoftCancel => !st.soft
    case HardCancel => st.soft && !st.hard
  }

  function Apply(c: Config, st: State, step: Step): State
    requires Enabled(c, st, step)
  {
    match step
    case IntakeAt(i, a) => st.(sources := st.sources[i := Intake(c, i, st.sources[i], st.soft, a)])
    case DispatchAt(i, a) =>
      var (s, out) := Dispatch(st.sources[i], |st.inq| < IN_CAPACITY, st.soft, st.hard, a);
      st.(sources := st.sources[i := s], inq := st.inq + out)
    case CloseIn => st.(inClosed := true)
    case BatchNow(a) =>
      var f := Batch(c, st, a);
      st.(batcher := f.batcher, inq := f.inq, batches := st.batches + f.emit, emitted := st.emitted + Flat(f.emit),
          sources := Lose(DropEntries(st.sources, f.dropped, Shutdown), f.lost))
    case WriteAt(w, a) =>
      var f := Write(st, st.workers[w], a);
      st.(workers := st.workers[w := f.worker], batches := f.batches,
          sources := DropEntries(CountStored(st.sources, f.stored), f.dropped, f.reason))
    case SoftCancel => st.(soft := true)
    case HardCancel => st.(hard := true)
  }

  function NewSource(p: Policy): Source {
    Source(p, [], [], Looping, [], {}, 0, 0, Drops(0, 0, 0, 0, 0, 0), 0)
  }

  function Init(c: Config): State {
    State(seq(|c.policies|, i requires 0 <= i < |c.policies| => NewSource(c.policies[i])),
          [], false, Collecting([]), [], [], seq(c.workers, i => Idle), false, false)
  }

  /** The state a run of steps leads to, if every step was enabled in its turn. */
  function Exec(c: Config, from: State, steps: seq<Step>): Option<State> {
    if steps == [] then Some(from)
    else
      var st := Exec(c, from, steps[..|steps| - 1]);
      if st.Some? && Enabled(c, st.value, steps[|steps| - 1]) then Some(Apply(c, st.value, steps[|steps| - 1]))
      else None
  }

  lemma {:induction false} ExecAppend(c: Config, from: State, a: seq<Step>, b: seq<Step>)
    ensures Exec(c, from, a + b) == if Exec(c, from, a).Some? then Exec(c, Exec(c, from, a).value, b) else None
    decreases |b|
  {
    if b == [] {
      assert a + b == a;
    } else {
      ExecAppend(c, from, a, b[..|b| - 1]);
      assert (a + b)[..|a + b| - 1] == a + b[..|b| - 1];
    }
  }

  lemma ExecOne(c: Config, from: State, step: Step)
    ensures Exec(c, from, [step]) == if Enabled(c, from, step) then Some(Apply(c, from, step)) else None
  {
    assert [step][..0] == [];
  }
}
