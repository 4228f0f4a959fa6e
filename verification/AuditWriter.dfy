/** The asynchronous audit writer (internal/audit/writer.go): any number of Enqueue and
    Close calls and one worker, interleaved at every lock, flag, channel and store
    access. A record is named by the Enqueue call that hands it over. */
module AuditWriter {

  /** Where an Enqueue call stands. Every call but a Done one holds the read lock. */
  datatype CallPc = Checking | Adding | Sending | Sent | Inlining | Inlined | Done(inline: bool)

  /** Where a Close call stands. Locked, Marked and Shut hold the write lock. */
  datatype ClosePc = Locked | Marked | Shut | Waiting | ReturnedNil(started: bool) | ReturnedAtOnce | TimedOut

  datatype Worker = NotStarted | Idle | Holding(id: nat) | Appended(id: nat) | Exited

  /** sent, handed and inlined are histories: the calls whose send completed, those the
      worker gave to the store, and those that appended on their own after Close. */
  datatype State = State(
    capacity: nat, calls: map<nat, CallPc>, closers: map<nat, ClosePc>,
    closed: bool, channelClosed: bool, panicked: bool,
    queue: seq<nat>, worker: Worker, inflight: int,
    sent: seq<nat>, handed: seq<nat>, inlined: seq<nat>)

  datatype Step =
    | Start
    | RLock(id: nat) | Check(id: nat) | Add(id: nat) | Send(id: nat) | AppendInline(id: nat) | RUnlock(id: nat)
    | Lock(c: nat) | CheckClosed(c: nat) | CloseChannel(c: nat) | Unlock(c: nat) | Drained(c: nat) | Timeout(c: nat)
    | Receive | Append | MarkDone | Exit

  function Init(capacity: nat): State {
    State(capacity, map[], map[], false, false, false, [], NotStarted, 0, [], [], [])
  }

  predicate HoldsRead(pc: CallPc) { !pc.Done? }

  predicate HoldsWrite(pc: ClosePc) { pc.Locked? || pc.Marked? || pc.Shut? }

  ghost predicate NoReader(s: State) { forall id :: id in s.calls ==> !HoldsRead(s.calls[id]) }

  ghost predicate NoWriter(s: State) { forall c :: c in s.closers ==> !HoldsWrite(s.closers[c]) }

  predicate CallAt(s: State, id: nat, pc: CallPc) { id in s.calls && s.calls[id] == pc }

  predicate CloserAt(s: State, c: nat, pc: ClosePc) { c in s.closers && s.closers[c] == pc }

  ghost predicate Enabled(s: State, t: Step) {
    match t
    case Start => s.worker.NotStarted?
    case RLock(id) => id !in s.calls && NoWriter(s)
    case Check(id) => CallAt(s, id, Checking)
    case Add(id) => CallAt(s, id, Adding)
    case Send(id) => CallAt(s, id, Sending) && (s.channelClosed || |s.queue| < s.capacity)
    case AppendInline(id) => CallAt(s, id, Inlining)
    case RUnlock(id) => CallAt(s, id, Sent) || CallAt(s, id, Inlined)
    case Lock(c) => c !in s.closers && NoReader(s) && NoWriter(s)
    case CheckClosed(c) => CloserAt(s, c, Locked)
    case CloseChannel(c) => CloserAt(s, c, Marked)
    case Unlock(c) => CloserAt(s, c, Shut)
    case Drained(c) => CloserAt(s, c, Waiting) && (s.worker.NotStarted? || s.worker.Exited?)
    case Timeout(c) => CloserAt(s, c, Waiting)
    case Receive => s.worker.Idle? && s.queue != []
    case Append => s.worker.Holding?
    case MarkDone => s.worker.Appended?
    case Exit => s.worker.Idle? && s.queue == [] && s.channelClosed
  }

  function At(s: State, id: nat, pc: CallPc): State { s.(calls := s.calls[id := pc]) }

  function To(s: State, c: nat, pc: ClosePc): State { s.(closers := s.closers[c := pc]) }

  ghost function Apply(s: State, t: Step): State
    requires Enabled(s, t)
  {
    match t
    case Start => s.(worker := Idle)
    case RLock(id) => At(s, id, Checking)
    case Check(id) => At(s, id, if s.closed then Inlining else Adding)
    case Add(id) => At(s, id, Sending).(inflight := s.inflight + 1)
    case Send(id) =>
      if s.channelClosed then s.(panicked := true)
      else At(s, id, Sent).(queue := s.queue + [id], sent := s.sent + [id])
    case AppendInline(id) => At(s, id, Inlined).(inlined := s.inlined + [id])
    case RUnlock(id) => At(s, id, Done(s.calls[id].Inlined?))
    case Lock(c) => To(s, c, Locked)
    case CheckClosed(c) => if s.closed then To(s, c, ReturnedAtOnce) else To(s, c, Marked).(closed := true)
    case CloseChannel(c) =>
      if s.channelClosed then s.(panicked := true) else To(s, c, Shut).(channelClosed := true)
    case Unlock(c) => To(s, c, Waiting)
    case Drained(c) => To(s, c, ReturnedNil(s.worker.Exited?))
    case Timeout(c) => To(s, c, TimedOut)
    case Receive => s.(worker := Holding(s.queue[0]), queue := s.queue[1..])
    case Append => s.(worker := Appended(s.worker.id), handed := s.handed + [s.worker.id])
    case MarkDone => s.(worker := Idle, inflight := s.inflight - 1)
    case Exit => s.(worker := Exited)
  }

  ghost predicate StepAt(ss: seq<State>, ts: seq<Step>, i: nat)
    requires |ss| == |ts| + 1 && i < |ts|
  {
    Enabled(ss[i], ts[i]) && ss[i + 1] == Apply(ss[i], ts[i])
  }

  ghost predicate Run(capacity: nat, ss: seq<State>, ts: seq<Step>) {
    && |ss| == |ts| + 1 && ss[0] == Init(capacity)
    && forall i: nat :: i < |ts| ==> StepAt(ss, ts, i)
  }

  // What every step keeps.

  /** The lock discipline: a writer excludes readers and other writers. */
  ghost predicate Exclusive(s: State) {
    forall c :: c in s.closers && HoldsWrite(s.closers[c]) ==>
      NoReader(s) && forall d :: d in s.closers && HoldsWrite(s.closers[d]) ==> d == c
  }

  /** The closed flag, the channel and the Close calls agree, and nobody is about to
      send once the flag is up. */
  ghost predicate Flags(s: State) {
    && !s.panicked
    && (s.channelClosed ==> s.closed)
    && (forall c :: c in s.closers && s.closers[c].Marked? ==> s.closed && !s.channelClosed)
    && (forall c :: c in s.closers && (s.closers[c].Shut? || s.closers[c].Waiting? || s.closers[c].ReturnedNil?) ==>
          s.channelClosed)
    && (s.closed ==> forall id :: id in s.calls ==> !s.calls[id].Adding? && !s.calls[id].Sending?)
    && (s.worker.Exited? ==> s.channelClosed && s.queue == [])
    && (forall c :: c in s.closers && s.closers[c] == ReturnedNil(true) ==> s.worker.Exited?)
  }

  /** The record the worker has taken but not yet given to the store. */
  function InHand(w: Worker): seq<nat> { if w.Holding? then [w.id] else [] }

  ghost predicate Distinct(q: seq<nat>) { forall i, j :: 0 <= i < j < |q| ==> q[i] != q[j] }

  /** First in, first out: the worker's store calls, its hand and the queue are, in this
      order, exactly what was sent. */
  ghost predicate Fifo(s: State) {
    && s.sent == s.handed + InHand(s.worker) + s.queue
    && |s.queue| <= s.capacity
    && (s.worker.NotStarted? ==> s.handed == [])
  }

  /** Each Enqueue call sent at most once, and exactly if its position says so. */
  ghost predicate SentOnce(s: State) {
    && Distinct(s.sent)
    && forall id :: id in s.sent <==> CallAt(s, id, Sent) || CallAt(s, id, Done(false))
  }

  /** Likewise for the records appended after Close. */
  ghost predicate InlinedOnce(s: State) {
    && Distinct(s.inlined)
    && forall id :: id in s.inlined <==> CallAt(s, id, Inlined) || CallAt(s, id, Done(true))
  }

  function Senders(calls: map<nat, CallPc>): set<nat> { set id | id in calls && calls[id] == Sending }

  /** What the wait group counts. */
  ghost predicate Counts(s: State) {
    s.inflight == |Senders(s.calls)| + |s.queue| + if s.worker.Holding? || s.worker.Appended? then 1 else 0
  }

  ghost predicate Inv(s: State) { Exclusive(s) && Flags(s) && Fifo(s) && SentOnce(s) && InlinedOnce(s) && Counts(s) }

  lemma ExclusiveStep(s: State, t: Step)
    requires Exclusive(s) && Enabled(s, t)
    ensures Exclusive(Apply(s, t))
  {
  }

  lemma FlagsStep(s: State, t: Step)
    requires Exclusive(s) && Flags(s) && Enabled(s, t)
    ensures Flags(Apply(s, t))
  {
  }

  lemma FifoStep(s: State, t: Step)
    requires Flags(s) && Fifo(s) && Enabled(s, t)
    ensures Fifo(Apply(s, t))
  {
    match t
    case Send(id) => assert s.sent + [id] == s.handed + InHand(s.worker) + (s.queue + [id]);
    case Receive => assert s.queue == [s.queue[0]] + s.queue[1..];
      assert s.handed + [] + s.queue == s.handed + [s.queue[0]] + s.queue[1..];
    case Append => assert s.handed + [s.worker.id] + s.queue == s.handed + [s.worker.id] + [] + s.queue;
    case _ => var s' := Apply(s, t); assert s'.sent == s.sent && s'.handed == s.handed && s'.queue == s.queue;
  }

  lemma Snoc(q: seq<nat>, x: nat)
    requires Distinct(q) && x !in q
    ensures Distinct(q + [x]) && forall y :: y in q + [x] <==> y in q || y == x
  {
  }

  lemma SentOnceStep(s: State, t: Step)
    requires Flags(s) && SentOnce(s) && Enabled(s, t)
    ensures SentOnce(Apply(s, t))
  {
    if t.Send? && !s.channelClosed { Snoc(s.sent, t.id); } else { assert Apply(s, t).sent == s.sent; }
  }

  lemma InlinedOnceStep(s: State, t: Step)
    requires InlinedOnce(s) && Enabled(s, t)
    ensures InlinedOnce(Apply(s, t))
  {
    if t.AppendInline? { Snoc(s.inlined, t.id); } else { assert Apply(s, t).inlined == s.inlined; }
  }

  lemma SendersWith(calls: map<nat, CallPc>, id: nat, pc: CallPc)
    ensures pc == Sending ==> Senders(calls[id := pc]) == Senders(calls) - {id} + {id}
    ensures pc != Sending ==> Senders(calls[id := pc]) == Senders(calls) - {id}
  {
  }

  lemma SendersUpdate(calls: map<nat, CallPc>, id: nat, pc: CallPc)
    ensures |Senders(calls[id := pc])| ==
            |Senders(calls)| - (if id in calls && calls[id] == Sending then 1 else 0) + if pc == Sending then 1 else 0
  {
    var others := Senders(calls) - {id};
    SendersWith(calls, id, pc);
    if id in Senders(calls) { assert Senders(calls) == others + {id}; } else { assert Senders(calls) == others; }
  }

  lemma CountsStep(s: State, t: Step)
    requires Flags(s) && Counts(s) && Enabled(s, t)
    ensures Counts(Apply(s, t))
  {
    match t
    case Add(id) => SendersUpdate(s.calls, id, Sending);
    case Send(id) => SendersUpdate(s.calls, id, Sent);
    case RLock(id) => SendersUpdate(s.calls, id, Checking);
    case Check(id) => SendersUpdate(s.calls, id, Apply(s, t).calls[id]);
    case AppendInline(id) => SendersUpdate(s.calls, id, Inlined);
    case RUnlock(id) => SendersUpdate(s.calls, id, Apply(s, t).calls[id]);
    case _ =>
  }

  lemma StepKeeps(s: State, t: Step)
    requires Inv(s) && Enabled(s, t)
    ensures Inv(Apply(s, t))
  {
    ExclusiveStep(s, t);
    FlagsStep(s, t);
    FifoStep(s, t);
    SentOnceStep(s, t);
    InlinedOnceStep(s, t);
    CountsStep(s, t);
  }

  lemma {:induction false} RunInvariant(capacity: nat, ss: seq<State>, ts: seq<Step>, i: nat)
    requires Run(capacity, ss, ts) && i < |ss|
    ensures Inv(ss[i]) && ss[i].capacity == capacity
  {
    if i > 0 {
      RunInvariant(capacity, ss, ts, i - 1);
      assert StepAt(ss, ts, i - 1);
      StepKeeps(ss[i - 1], ts[i - 1]);
    } else {
      assert Senders(ss[0].calls) == {};
    }
  }

  // What callers may rely on.

  /** No interleaving sends on a closed channel or closes it twice, and every finished
      Enqueue is in exactly one place: with the store, in the worker's hand, or queued. */
  lemma NothingLostOrDoubled(capacity: nat, ss: seq<State>, ts: seq<Step>, i: nat)
    requires Run(capacity, ss, ts) && i < |ss|
    ensures !ss[i].panicked && 0 <= ss[i].inflight && |ss[i].queue| <= capacity
    ensures ss[i].sent == ss[i].handed + InHand(ss[i].worker) + ss[i].queue
    ensures Distinct(ss[i].sent + ss[i].inlined)
    ensures forall id :: id in ss[i].calls && ss[i].calls[id].Done? ==>
              (if ss[i].calls[id].inline then id in ss[i].inlined else id in ss[i].sent)
  {
    RunInvariant(capacity, ss, ts, i);
    var s := ss[i];
    var all := s.sent + s.inlined;
    forall i, j | 0 <= i < j < |all| ensures all[i] != all[j] {
      if i < |s.sent| <= j { assert all[i] in s.sent && all[j] in s.inlined; }
    }
  }

  /** Flush: the wait group is at zero exactly when nobody is between accepting and
      sending, nothing is queued and the worker is between records; then the store has
      every sent record, in the order sent. */
  lemma FlushMeansPersisted(capacity: nat, ss: seq<State>, ts: seq<Step>, i: nat)
    requires Run(capacity, ss, ts) && i < |ss|
    ensures ss[i].inflight == 0 <==>
            ss[i].queue == [] && !ss[i].worker.Holding? && !ss[i].worker.Appended? && forall id :: !CallAt(ss[i], id, Sending)
    ensures ss[i].inflight == 0 ==> ss[i].handed == ss[i].sent
  {
    RunInvariant(capacity, ss, ts, i);
    var s := ss[i];
    if s.inflight == 0 {
      assert Senders(s.calls) == {};
      forall id ensures !CallAt(s, id, Sending) { assert id !in Senders(s.calls); }
    }
    if forall id :: !CallAt(s, id, Sending) {
      forall id ensures id !in Senders(s.calls) { assert !CallAt(s, id, Sending); }
      assert Senders(s.calls) == {};
    }
  }

  /** The Close call that waited for the worker: when it returns nil, the store has every
      accepted record exactly if the worker was started or nothing was ever sent. */
  lemma CloseDrainsIff(capacity: nat, ss: seq<State>, ts: seq<Step>, i: nat, c: nat)
    requires Run(capacity, ss, ts) && i < |ts| && ts[i] == Drained(c)
    ensures ss[i + 1].handed == ss[i + 1].sent <==> ss[i].worker != NotStarted || ss[i].sent == []
  {
    RunInvariant(capacity, ss, ts, i);
    assert StepAt(ss, ts, i);
  }

  lemma ExitedHasNothing(s: State)
    requires Flags(s) && Fifo(s) && s.worker.Exited?
    ensures s.handed == s.sent
  {
  }

  lemma DrainedStep(s: State, t: Step, c: nat)
    requires Flags(s) && Enabled(s, t) && CloserAt(s, c, ReturnedNil(true))
    ensures CloserAt(Apply(s, t), c, ReturnedNil(true)) && Apply(s, t).sent == s.sent
  {
  }

  /** From then on nothing is ever queued again: at every later moment, and so at the
      return of every later Close, all that was sent is with the store. */
  lemma {:induction false} DrainedForGood(capacity: nat, ss: seq<State>, ts: seq<Step>, i: nat, j: nat, c: nat)
    requires Run(capacity, ss, ts) && i <= j < |ss| && CloserAt(ss[i], c, ReturnedNil(true))
    ensures CloserAt(ss[j], c, ReturnedNil(true)) && ss[j].handed == ss[j].sent == ss[i].sent
  {
    RunInvariant(capacity, ss, ts, j);
    if i < j {
      DrainedForGood(capacity, ss, ts, i, j - 1, c);
      RunInvariant(capacity, ss, ts, j - 1);
      assert StepAt(ss, ts, j - 1);
      DrainedStep(ss[j - 1], ts[j - 1], c);
    }
    ExitedHasNothing(ss[j]);
  }

  /** A blocked send is never stuck behind a running worker: it can send, or the worker
      can move. */
  lemma BlockedSendProgresses(capacity: nat, ss: seq<State>, ts: seq<Step>, i: nat, id: nat)
    requires Run(capacity, ss, ts) && i < |ss| && 0 < capacity
    requires CallAt(ss[i], id, Sending) && !ss[i].worker.NotStarted?
    ensures Enabled(ss[i], Send(id)) || Enabled(ss[i], Receive) || Enabled(ss[i], Append) || Enabled(ss[i], MarkDone)
  {
    RunInvariant(capacity, ss, ts, i);
  }

  predicate WorkerStep(t: Step) { t.Receive? || t.Append? || t.MarkDone? || t.Exit? }

  /** How many worker steps are left, at most. */
  function Remaining(s: State): nat {
    4 * |s.queue| + match s.worker case Holding(_) => 4 case Appended(_) => 3 case Idle => 1 case _ => 0
  }

  /** Once the channel is closed a started worker can, by its own steps alone, hand
      over everything and exit: a waiting Close can always complete. */
  lemma {:induction false} WorkerCanFinish(s: State) returns (ss: seq<State>, ts: seq<Step>)
    requires Inv(s) && s.channelClosed && !s.worker.NotStarted?
    ensures |ss| == |ts| + 1 && ss[0] == s && forall i: nat :: i < |ts| ==> WorkerStep(ts[i]) && StepAt(ss, ts, i)
    ensures var e := ss[|ts|]; e.worker.Exited? && e.sent == e.handed == s.sent && e.closers == s.closers
    decreases Remaining(s)
  {
    if s.worker.Exited? {
      return [s], [];
    }
    var t := match s.worker case Holding(_) => Append case Appended(_) => MarkDone
             case _ => if s.queue == [] then Exit else Receive;
    var s' := Apply(s, t);
    StepKeeps(s, t);
    var rest, steps := WorkerCanFinish(s');
    ss, ts := [s] + rest, [t] + steps;
    forall i: nat | i < |ts| ensures WorkerStep(ts[i]) && StepAt(ss, ts, i) {
      if i > 0 { assert StepAt(rest, steps, i - 1); }
    }
  }

  /** A run with one more step. */
  lemma Then(capacity: nat, ss: seq<State>, ts: seq<Step>, t: Step) returns (ss': seq<State>, ts': seq<Step>, s': State)
    requires Run(capacity, ss, ts) && Enabled(ss[|ts|], t)
    ensures s' == Apply(ss[|ts|], t)
    ensures Run(capacity, ss', ts') && ss'[|ts'|] == s'
  {
    s' := Apply(ss[|ts|], t);
    ss', ts' := ss + [s'], ts + [t];
    forall i: nat | i < |ts'| ensures StepAt(ss', ts', i) {
      assert i < |ts| ==> StepAt(ss, ts, i);
    }
  }

  // Runs in which the documented promise of Close fails.

  /** One record through Enqueue, up to the return of the call. */
  lemma EnqueueOnce(ss: seq<State>, ts: seq<Step>, w: Worker) returns (ss': seq<State>, ts': seq<Step>, s': State)
    requires Run(1, ss, ts) && ss[|ts|] == Init(1).(worker := w)
    ensures Run(1, ss', ts') && ss'[|ts'|] == s'
    ensures s' == Init(1).(worker := w, calls := map[0 := Done(false)], queue := [0], sent := [0], inflight := 1)
  {
    ss', ts', s' := Then(1, ss, ts, RLock(0));
    ss', ts', s' := Then(1, ss', ts', Check(0));
    ss', ts', s' := Then(1, ss', ts', Add(0));
    ss', ts', s' := Then(1, ss', ts', Send(0));
    ss', ts', s' := Then(1, ss', ts', RUnlock(0));
  }

  /** The first Close, up to its wait for the worker. */
  lemma CloseOnce(ss: seq<State>, ts: seq<Step>, s: State) returns (ss': seq<State>, ts': seq<Step>, s': State)
    requires Run(1, ss, ts) && ss[|ts|] == s && NoReader(s) && s.closers == map[] && !s.closed && !s.channelClosed
    ensures Run(1, ss', ts') && ss'[|ts'|] == s'
    ensures s' == s.(closers := map[0 := Waiting], closed := true, channelClosed := true)
  {
    ss', ts', s' := Then(1, ss, ts, Lock(0));
    ss', ts', s' := Then(1, ss', ts', CheckClosed(0));
    ss', ts', s' := Then(1, ss', ts', CloseChannel(0));
    ss', ts', s' := Then(1, ss', ts', Unlock(0));
  }

  /** A second Close returns nil at once, while the first is still waiting and the
      accepted record is still in the queue. */
  lemma RepeatedCloseReturnsEarly() returns (ss: seq<State>, ts: seq<Step>, s: State)
    ensures Run(1, ss, ts) && ss[|ts|] == s
    ensures CloserAt(s, 1, ReturnedAtOnce) && CallAt(s, 0, Done(false)) && s.sent == [0] && s.handed == []
  {
    ss, ts, s := Then(1, [Init(1)], [], Start);
    ss, ts, s := EnqueueOnce(ss, ts, Idle);
    ss, ts, s := CloseOnce(ss, ts, s);
    ss, ts, s := Then(1, ss, ts, Lock(1));
    ss, ts, s := Then(1, ss, ts, CheckClosed(1));
  }

  /** Without Start there is no worker to wait for, and Close returns nil with the
      record still queued. */
  lemma CloseWithoutStartLosesQueue() returns (ss: seq<State>, ts: seq<Step>, s: State)
    ensures Run(1, ss, ts) && ss[|ts|] == s
    ensures CloserAt(s, 0, ReturnedNil(false)) && CallAt(s, 0, Done(false)) && s.sent == [0] && s.handed == []
  {
    ss, ts, s := EnqueueOnce([Init(1)], [], NotStarted);
    ss, ts, s := CloseOnce(ss, ts, s);
    ss, ts, s := Then(1, ss, ts, Drained(0));
  }
}
