/** What the callers of the audit writer (internal/audit/writer.go) can conclude about its
    queue from what they see of their own Enqueue and Close calls. */
module AuditDrain {
  import opened AuditWriter

  /** Two moments that no Enqueue or Close caller can tell apart. */
  ghost predicate Alike(s: State, t: State) {
    && t.capacity == s.capacity && t.calls == s.calls && t.closers == s.closers
    && t.sent == s.sent && t.inlined == s.inlined && (t.worker.NotStarted? <==> s.worker.NotStarted?)
  }

  ghost predicate Reachable(capacity: nat, s: State) {
    exists ss: seq<State>, ts: seq<Step> :: Run(capacity, ss, ts) && ss[|ts|] == s
  }

  /** In every execution that looks like this one, all that was sent is with the store. */
  ghost predicate KnownDrained(capacity: nat, s: State) {
    forall t :: Reachable(capacity, t) && Alike(s, t) ==> t.handed == t.sent
  }

  /** s with a worker that stopped just before giving the last record to the store. */
  ghost predicate Lags(s: State, t: State) {
    && s.sent != [] && t == s.(worker := t.worker, queue := [], handed := t.handed, inflight := t.inflight)
    && t.worker == Holding(s.sent[|s.sent| - 1]) && t.handed == s.sent[..|s.sent| - 1]
    && s.handed == s.sent && !s.worker.NotStarted?
  }

  /** What a caller sees of one step, when the worker it does not see stands still. */
  lemma LagStep(s: State, t: State, step: Step)
    requires Inv(s) && Lags(s, t) && Enabled(s, step)
    requires Apply(s, step).sent == s.sent
    requires forall c :: !CloserAt(Apply(s, step), c, ReturnedNil(true))
    ensures WorkerStep(step) ==> Lags(Apply(s, step), t)
    ensures !WorkerStep(step) ==> Enabled(t, step) && Lags(Apply(s, step), Apply(t, step))
  {
    assert !step.Send? && !step.Receive?;
    assert step.Drained? ==> !CloserAt(Apply(s, step), step.c, ReturnedNil(true));
  }

  lemma SentGrows(s: State, t: Step)
    requires Inv(s) && Enabled(s, t)
    ensures s.sent <= Apply(s, t).sent
  {
  }

  lemma {:induction false} SentGrowsAlong(capacity: nat, ss: seq<State>, ts: seq<Step>, i: nat)
    requires Run(capacity, ss, ts) && i < |ss|
    ensures ss[i].sent <= ss[|ts|].sent
    decreases |ss| - i
  {
    if i < |ts| {
      RunInvariant(capacity, ss, ts, i);
      assert StepAt(ss, ts, i);
      SentGrows(ss[i], ts[i]);
      SentGrowsAlong(capacity, ss, ts, i + 1);
    }
  }

  /** A nil return after a drained queue is still there at the end of the run. */
  lemma NotDrainedBefore(capacity: nat, ss: seq<State>, ts: seq<Step>, i: nat)
    requires Run(capacity, ss, ts) && i < |ss|
    requires forall c :: !CloserAt(ss[|ts|], c, ReturnedNil(true))
    ensures forall c :: !CloserAt(ss[i], c, ReturnedNil(true))
  {
    forall c ensures !CloserAt(ss[i], c, ReturnedNil(true)) {
      if CloserAt(ss[i], c, ReturnedNil(true)) { DrainedForGood(capacity, ss, ts, i, |ts|, c); }
    }
  }

  /** t is where the run stands that holds its worker back before the last of all. */
  ghost predicate Tracks(all: seq<nat>, s: State, t: State) {
    if s.handed == all then Lags(s, t) else t == s
  }

  predicate Skipped(all: seq<nat>, s: State, step: Step) {
    if s.handed == all then WorkerStep(step) else step.Append? && s.worker.Holding? && s.handed + [s.worker.id] == all
  }

  lemma Reaches(s: State, step: Step, all: seq<nat>)
    requires Inv(s) && Enabled(s, step) && s.handed != all
    ensures Apply(s, step).handed == all <==> Skipped(all, s, step)
  {
  }

  lemma TrackStep(all: seq<nat>, s: State, t: State, step: Step)
    requires Inv(s) && Enabled(s, step) && Tracks(all, s, t)
    requires Inv(Apply(s, step)) && s.sent <= Apply(s, step).sent <= all
    requires forall c :: !CloserAt(Apply(s, step), c, ReturnedNil(true))
    ensures Skipped(all, s, step) ==> Tracks(all, Apply(s, step), t)
    ensures !Skipped(all, s, step) ==> Enabled(t, step) && Tracks(all, Apply(s, step), Apply(t, step))
  {
    if s.handed == all {
      LagStep(s, t, step);
    } else {
      Reaches(s, step, all);
    }
  }

  /** The same run with the worker held back before the last record of all. */
  lemma {:induction false} HeldBack(capacity: nat, ss: seq<State>, ts: seq<Step>, i: nat)
    returns (us: seq<State>, vs: seq<Step>)
    requires Run(capacity, ss, ts) && i < |ss| && ss[|ts|].sent != []
    requires forall c :: !CloserAt(ss[|ts|], c, ReturnedNil(true))
    ensures Run(capacity, us, vs) && Tracks(ss[|ts|].sent, ss[i], us[|vs|])
  {
    if i == 0 {
      us, vs := [ss[0]], [];
      return;
    }
    us, vs := HeldBack(capacity, ss, ts, i - 1);
    OnTrack(capacity, ss, ts, i - 1, us[|vs|]);
    if !Skipped(ss[|ts|].sent, ss[i - 1], ts[i - 1]) {
      var u;
      us, vs, u := Then(capacity, us, vs, ts[i - 1]);
    }
  }

  lemma OnTrack(capacity: nat, ss: seq<State>, ts: seq<Step>, i: nat, t: State)
    requires Run(capacity, ss, ts) && i < |ts| && Tracks(ss[|ts|].sent, ss[i], t)
    requires forall c :: !CloserAt(ss[|ts|], c, ReturnedNil(true))
    ensures Skipped(ss[|ts|].sent, ss[i], ts[i]) ==> Tracks(ss[|ts|].sent, ss[i + 1], t)
    ensures !Skipped(ss[|ts|].sent, ss[i], ts[i]) ==>
              Enabled(t, ts[i]) && Tracks(ss[|ts|].sent, ss[i + 1], Apply(t, ts[i]))
  {
    RunInvariant(capacity, ss, ts, i);
    RunInvariant(capacity, ss, ts, i + 1);
    assert StepAt(ss, ts, i);
    SentGrows(ss[i], ts[i]);
    SentGrowsAlong(capacity, ss, ts, i + 1);
    NotDrainedBefore(capacity, ss, ts, i + 1);
    TrackStep(ss[|ts|].sent, ss[i], t, ts[i]);
  }

  /** At any moment, and so at the return of a repeated Close: callers can be sure that
      all they sent is with the store iff they sent nothing, or a Close call that found
      the worker started has returned nil. */
  lemma KnownDrainedIff(capacity: nat, ss: seq<State>, ts: seq<Step>)
    requires Run(capacity, ss, ts)
    ensures KnownDrained(capacity, ss[|ts|]) <==> ss[|ts|].sent == [] || exists c :: CloserAt(ss[|ts|], c, ReturnedNil(true))
  {
    var s := ss[|ts|];
    if s.sent == [] || exists c :: CloserAt(s, c, ReturnedNil(true)) {
      forall t | Reachable(capacity, t) && Alike(s, t) ensures t.handed == t.sent {
        var us, vs :| Run(capacity, us, vs) && us[|vs|] == t;
        RunInvariant(capacity, us, vs, |vs|);
        if s.sent != [] {
          var c :| CloserAt(s, c, ReturnedNil(true));
          assert CloserAt(t, c, ReturnedNil(true));
          ExitedHasNothing(t);
        }
      }
    } else {
      RunInvariant(capacity, ss, ts, |ts|);
      var us, vs := HeldBack(capacity, ss, ts, |ts|);
      var t := us[|vs|];
      assert Reachable(capacity, t) && Alike(s, t) && t.handed != t.sent;
    }
  }
}
