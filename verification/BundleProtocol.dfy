/** Cold loads, invalidations and refreshes of the bundle cache, interleaved with each
    other and with publishes at every store read and cache write
    (internal/bundle/bundle.go). */
module BundleProtocol {
  import opened Base
  import opened PolicyControl
  import opened BundleCache
  import E = Engine

  /** An in-flight call: a refresh that has read the active bundle, a call that is about
      to compile it, a call that is about to write the cache. */
  datatype Op = Comparing(ref: Bundle) | Loading(ref: Bundle) | Storing(ref: Bundle, pol: E.Policy)

  /** past holds every bundle that has been an org's active one. */
  datatype State = State(src: Source, cache: map<string, Entry>, ops: map<nat, Op>, past: set<Bundle>)

  /** A load that finds no active bundle ends without touching the cache, so it is not a
      step; Fail is any other error or time-out of a call. */
  datatype Step =
    | PutVersion(v: Version)
    | Point(b: Bundle)
    | BeginLoad(op: nat, org: string)
    | BeginRefresh(op: nat, org: string)
    | Compare(op: nat)
    | Compile(op: nat)
    | Store(op: nat)
    | Fail(op: nat)

  const INIT := State(Source(map[], map[]), map[], map[], {})

  function KeyFor(v: Version): Key { Key(v.orgId, v.policyId, v.hash) }

  /** A refresh that finds the hash it already has stops there. */
  predicate Unchanged(s: State, op: nat)
    requires op in s.ops
  {
    var ref := s.ops[op].ref;
    ref.orgId in s.cache && s.cache[ref.orgId].hash == ref.hash
  }

  ghost predicate Enabled(compile: Compiler, s: State, t: Step) {
    match t
    case PutVersion(v) => v.hash != "" && forall k :: k in s.src.versions ==> k.hash != v.hash
    case Point(b) => KeyOf(b) in s.src.versions
    case BeginLoad(op, org) => op !in s.ops && org in s.src.active
    case BeginRefresh(op, org) => op !in s.ops && org in s.src.active
    case Compare(op) => op in s.ops && s.ops[op].Comparing?
    case Compile(op) =>
      op in s.ops && s.ops[op].Loading? && KeyOf(s.ops[op].ref) in s.src.versions
      && compile(s.src.versions[KeyOf(s.ops[op].ref)]).Some?
    case Store(op) => op in s.ops && s.ops[op].Storing?
    case Fail(op) => op in s.ops
  }

  ghost function Apply(compile: Compiler, s: State, t: Step): State
    requires Enabled(compile, s, t)
  {
    match t
    case PutVersion(v) => s.(src := s.src.(versions := s.src.versions[KeyFor(v) := v]))
    case Point(b) => s.(src := s.src.(active := s.src.active[b.orgId := b]), past := s.past + {b})
    case BeginLoad(op, org) => s.(ops := s.ops[op := Loading(s.src.active[org])])
    case BeginRefresh(op, org) => s.(ops := s.ops[op := Comparing(s.src.active[org])])
    case Compare(op) =>
      s.(ops := if Unchanged(s, op) then s.ops - {op} else s.ops[op := Loading(s.ops[op].ref)])
    case Compile(op) =>
      var ref := s.ops[op].ref;
      s.(ops := s.ops[op := Storing(ref, compile(s.src.versions[KeyOf(ref)]).value)])
    case Store(op) =>
      var ref := s.ops[op].ref;
      s.(cache := s.cache[ref.orgId := Entry(ref.hash, s.ops[op].pol)], ops := s.ops - {op})
    case Fail(op) => s.(ops := s.ops - {op})
  }

  ghost predicate StepAt(compile: Compiler, ss: seq<State>, ts: seq<Step>, i: nat)
    requires |ss| == |ts| + 1 && i < |ts|
  {
    Enabled(compile, ss[i], ts[i]) && ss[i + 1] == Apply(compile, ss[i], ts[i])
  }

  ghost predicate Steps(compile: Compiler, ss: seq<State>, ts: seq<Step>) {
    |ss| == |ts| + 1 && forall i: nat :: i < |ts| ==> StepAt(compile, ss, ts, i)
  }

  ghost predicate Run(compile: Compiler, ss: seq<State>, ts: seq<Step>) { Steps(compile, ss, ts) && ss[0] == INIT }

  // What every step keeps.

  ghost predicate Stored(src: Source, past: set<Bundle>) {
    && Addressed(src)
    && (forall o :: o in src.active ==> src.active[o] in past)
    && (forall b :: b in past ==> KeyOf(b) in src.versions && b.orgId in src.active)
  }

  ghost predicate CompiledFrom(compile: Compiler, src: Source, b: Bundle, pol: E.Policy) {
    KeyOf(b) in src.versions && compile(src.versions[KeyOf(b)]) == Some(pol)
  }

  ghost predicate OpsSound(compile: Compiler, s: State) {
    forall op :: op in s.ops ==>
      && s.ops[op].ref in s.past
      && (s.ops[op].Storing? ==> CompiledFrom(compile, s.src, s.ops[op].ref, s.ops[op].pol))
  }

  ghost predicate EntrySound(compile: Compiler, s: State, org: string) {
    org in s.cache ==> exists b :: b in s.past && b.orgId == org && b.hash == s.cache[org].hash
                                   && CompiledFrom(compile, s.src, b, s.cache[org].pol)
  }

  ghost predicate Inv(compile: Compiler, s: State) {
    Stored(s.src, s.past) && OpsSound(compile, s) && forall o :: EntrySound(compile, s, o)
  }

  lemma StoredStep(compile: Compiler, s: State, t: Step)
    requires Stored(s.src, s.past) && Enabled(compile, s, t)
    ensures var s' := Apply(compile, s, t); Stored(s'.src, s'.past)
  {
    var s' := Apply(compile, s, t);
    forall j, k ensures !Clash(s'.src, j, k) { assert !Clash(s.src, j, k); }
  }

  /** Versions are immutable, so what was compiled stays the compilation. */
  lemma CompiledStays(compile: Compiler, s: State, t: Step, b: Bundle, pol: E.Policy)
    requires Enabled(compile, s, t) && CompiledFrom(compile, s.src, b, pol)
    ensures CompiledFrom(compile, Apply(compile, s, t).src, b, pol)
  {
  }

  lemma OpsStep(compile: Compiler, s: State, t: Step)
    requires Inv(compile, s) && Enabled(compile, s, t)
    ensures OpsSound(compile, Apply(compile, s, t))
  {
    var s' := Apply(compile, s, t);
    forall op | op in s'.ops && s'.ops[op].Storing?
      ensures CompiledFrom(compile, s'.src, s'.ops[op].ref, s'.ops[op].pol)
    {
      OpStep(compile, s, t, op);
    }
  }

  lemma OpStep(compile: Compiler, s: State, t: Step, op: nat)
    requires Inv(compile, s) && Enabled(compile, s, t)
    requires op in Apply(compile, s, t).ops && Apply(compile, s, t).ops[op].Storing?
    ensures var s' := Apply(compile, s, t); CompiledFrom(compile, s'.src, s'.ops[op].ref, s'.ops[op].pol)
  {
    var s' := Apply(compile, s, t);
    if op in s.ops && s.ops[op] == s'.ops[op] { CompiledStays(compile, s, t, s.ops[op].ref, s.ops[op].pol); }
  }

  lemma EntryStep(compile: Compiler, s: State, t: Step, org: string)
    requires Inv(compile, s) && Enabled(compile, s, t)
    ensures EntrySound(compile, Apply(compile, s, t), org)
  {
    var s' := Apply(compile, s, t);
    if t.Store? && s.ops[t.op].ref.orgId == org {
      assert CompiledFrom(compile, s'.src, s.ops[t.op].ref, s'.cache[org].pol);
    } else if org in s.cache {
      assert EntrySound(compile, s, org);
      var b :| b in s.past && b.orgId == org && b.hash == s.cache[org].hash && CompiledFrom(compile, s.src, b, s.cache[org].pol);
      CompiledStays(compile, s, t, b, s.cache[org].pol);
    }
  }

  lemma StepKeeps(compile: Compiler, s: State, t: Step)
    requires Inv(compile, s) && Enabled(compile, s, t)
    ensures Inv(compile, Apply(compile, s, t))
  {
    StoredStep(compile, s, t);
    OpsStep(compile, s, t);
    forall o ensures EntrySound(compile, Apply(compile, s, t), o) { EntryStep(compile, s, t, o); }
  }

  lemma {:induction false} StepsInvariant(compile: Compiler, ss: seq<State>, ts: seq<Step>, i: nat)
    requires Steps(compile, ss, ts) && Inv(compile, ss[0]) && i < |ss|
    ensures Inv(compile, ss[i])
  {
    if i > 0 {
      StepsInvariant(compile, ss, ts, i - 1);
      assert StepAt(compile, ss, ts, i - 1);
      StepKeeps(compile, ss[i - 1], ts[i - 1]);
    }
  }

  lemma RunInvariant(compile: Compiler, ss: seq<State>, ts: seq<Step>, i: nat)
    requires Run(compile, ss, ts) && i < |ss|
    ensures Inv(compile, ss[i])
  {
    StepsInvariant(compile, ss, ts, i);
  }

  lemma {:induction false} PastWasActive(compile: Compiler, ss: seq<State>, ts: seq<Step>, i: nat, b: Bundle) returns (j: nat)
    requires Run(compile, ss, ts) && i < |ss| && b in ss[i].past
    ensures j <= i && b.orgId in ss[j].src.active && ss[j].src.active[b.orgId] == b
  {
    if i > 0 {
      assert StepAt(compile, ss, ts, i - 1);
      if b in ss[i - 1].past {
        j := PastWasActive(compile, ss, ts, i - 1, b);
      } else {
        j := i;
      }
    } else {
      assert false;
    }
  }

  /** Coherence: at every moment of every run, each cached policy is the compilation of
      the very version its entry names and cites that version, and that version was the
      org's active one at some earlier moment j. */
  lemma CacheCoherent(compile: Compiler, ss: seq<State>, ts: seq<Step>, i: nat, org: string) returns (j: nat)
    requires Cites(compile) && Run(compile, ss, ts) && i < |ss| && org in ss[i].cache
    ensures j <= i && org in ss[j].src.active
    ensures var e, b := ss[i].cache[org], ss[j].src.active[org];
            b.hash == e.hash == e.pol.version && CompiledFrom(compile, ss[i].src, b, e.pol)
  {
    RunInvariant(compile, ss, ts, i);
    assert EntrySound(compile, ss[i], org);
    var e := ss[i].cache[org];
    var b :| b in ss[i].past && b.orgId == org && b.hash == e.hash && CompiledFrom(compile, ss[i].src, b, e.pol);
    j := PastWasActive(compile, ss, ts, i, b);
  }

  /** An org that is served once is served ever after: no error, race or unpublish
      evicts, and only a completed load replaces an entry. */
  lemma {:induction false} NeverEvicted(compile: Compiler, ss: seq<State>, ts: seq<Step>, i: nat, j: nat, org: string)
    requires Run(compile, ss, ts) && i <= j < |ss| && org in ss[i].cache
    ensures org in ss[j].cache
    ensures (forall k :: i <= k < j ==> !ts[k].Store?) ==> ss[j].cache == ss[i].cache
  {
    if i < j {
      NeverEvicted(compile, ss, ts, i, j - 1, org);
      assert StepAt(compile, ss, ts, j - 1);
    }
  }

  // Convergence once publishing has stopped.

  ghost predicate Compilable(compile: Compiler, src: Source, b: Bundle) {
    KeyOf(b) in src.versions && compile(src.versions[KeyOf(b)]).Some?
  }

  /** Every call in flight for the org that can still get through is working on the hash
      that is active now. */
  ghost predicate Harmless(compile: Compiler, s: State, org: string) {
    forall op :: op in s.ops && s.ops[op].ref.orgId == org && Compilable(compile, s.src, s.ops[op].ref) ==>
      org in s.src.active && s.ops[op].ref.hash == s.src.active[org].hash
  }

  /** The step by which a call for the org ends without an error. */
  ghost predicate Completes(s: State, t: Step, org: string) {
    match t
    case Store(op) => op in s.ops && s.ops[op].ref.orgId == org
    case Compare(op) => op in s.ops && s.ops[op].ref.orgId == org && Unchanged(s, op)
    case _ => false
  }

  predicate Publishes(t: Step, org: string) { t.Point? && t.b.orgId == org }

  lemma HarmlessStep(compile: Compiler, s: State, t: Step, org: string)
    requires Inv(compile, s) && Enabled(compile, s, t) && Harmless(compile, s, org) && !Publishes(t, org)
    ensures Harmless(compile, Apply(compile, s, t), org)
  {
    var s' := Apply(compile, s, t);
    forall op | op in s'.ops && s'.ops[op].ref.orgId == org && Compilable(compile, s'.src, s'.ops[op].ref)
      ensures org in s'.src.active && s'.ops[op].ref.hash == s'.src.active[org].hash
    {
      if op in s.ops { assert s'.ops[op].ref == s.ops[op].ref && KeyOf(s.ops[op].ref) in s.src.versions; }
    }
  }

  /** A completed call for the org leaves an entry with the hash the call was about. */
  lemma CompletedEntry(compile: Compiler, s: State, t: Step, org: string)
    requires Inv(compile, s) && Enabled(compile, s, t) && Completes(s, t, org)
    ensures var s', ref := Apply(compile, s, t), s.ops[t.op].ref;
            && org in s'.cache && s'.cache[org].hash == ref.hash && CompiledFrom(compile, s'.src, ref, s'.cache[org].pol)
  {
    var ref := s.ops[t.op].ref;
    if t.Compare? {
      assert EntrySound(compile, s, org);
      var b :| b in s.past && b.orgId == org && b.hash == s.cache[org].hash && CompiledFrom(compile, s.src, b, s.cache[org].pol);
      assert !Clash(s.src, KeyOf(b), KeyOf(ref));
    }
  }

  lemma CompletedIsCurrent(compile: Compiler, s: State, t: Step, org: string)
    requires Inv(compile, s) && Enabled(compile, s, t) && Harmless(compile, s, org) && Completes(s, t, org)
    ensures var s' := Apply(compile, s, t); Current(compile, s'.src, s'.cache, org)
  {
    var ref := s.ops[t.op].ref;
    CompletedEntry(compile, s, t, org);
    assert Compilable(compile, s.src, ref) && s.ops[t.op].ref.hash == s.src.active[org].hash;
    assert !Clash(s.src, KeyOf(ref), KeyOf(s.src.active[org]));
  }

  lemma CurrentStep(compile: Compiler, s: State, t: Step, org: string)
    requires Inv(compile, s) && Enabled(compile, s, t) && Harmless(compile, s, org) && !Publishes(t, org)
    requires Current(compile, s.src, s.cache, org)
    ensures var s' := Apply(compile, s, t); Current(compile, s'.src, s'.cache, org)
  {
    if t.Store? && s.ops[t.op].ref.orgId == org { CompletedIsCurrent(compile, s, t, org); }
  }

  ghost predicate NoPublish(ts: seq<Step>, org: string) { forall n :: 0 <= n < |ts| ==> !Publishes(ts[n], org) }

  lemma {:induction false} StaysHarmless(compile: Compiler, ss: seq<State>, ts: seq<Step>, j: nat, org: string)
    requires Steps(compile, ss, ts) && Inv(compile, ss[0]) && j < |ss| && Harmless(compile, ss[0], org) && NoPublish(ts, org)
    ensures Harmless(compile, ss[j], org)
  {
    if j > 0 {
      StaysHarmless(compile, ss, ts, j - 1, org);
      StepsInvariant(compile, ss, ts, j - 1);
      assert StepAt(compile, ss, ts, j - 1);
      HarmlessStep(compile, ss[j - 1], ts[j - 1], org);
    }
  }

  /** Convergence: nothing is published for the org from some moment on, and the calls
      then in flight for it are harmless. Then after any load or refresh of the org that
      ends without an error, at k, the org is served its active bundle and stays so,
      whatever other calls, errors and other orgs' publishes do. */
  lemma {:induction false} Converges(compile: Compiler, ss: seq<State>, ts: seq<Step>, k: nat, j: nat, org: string)
    requires Steps(compile, ss, ts) && Inv(compile, ss[0]) && k < j < |ss|
    requires Harmless(compile, ss[0], org) && NoPublish(ts, org) && Completes(ss[k], ts[k], org)
    ensures Current(compile, ss[j].src, ss[j].cache, org)
    decreases j
  {
    if k < j - 1 { Converges(compile, ss, ts, k, j - 1, org); }
    CurrentNext(compile, ss, ts, j - 1, org);
  }

  lemma CurrentNext(compile: Compiler, ss: seq<State>, ts: seq<Step>, j: nat, org: string)
    requires Steps(compile, ss, ts) && Inv(compile, ss[0]) && Harmless(compile, ss[0], org) && NoPublish(ts, org)
    requires j < |ts| && (Completes(ss[j], ts[j], org) || Current(compile, ss[j].src, ss[j].cache, org))
    ensures Current(compile, ss[j + 1].src, ss[j + 1].cache, org)
  {
    StepsInvariant(compile, ss, ts, j);
    StaysHarmless(compile, ss, ts, j, org);
    assert StepAt(compile, ss, ts, j);
    if Completes(ss[j], ts[j], org) {
      CompletedIsCurrent(compile, ss[j], ts[j], org);
    } else {
      CurrentStep(compile, ss[j], ts[j], org);
    }
  }

  /** A continuation from s that publishes nothing for the org, and in which a call for it
      has completed at k. */
  ghost predicate Continues(compile: Compiler, s: State, ss: seq<State>, ts: seq<Step>, k: nat, org: string) {
    && Steps(compile, ss, ts) && ss[0] == s && NoPublish(ts, org)
    && k < |ts| && Completes(ss[k], ts[k], org)
  }

  ghost predicate AlwaysCurrent(compile: Compiler, s: State, org: string) {
    forall ss: seq<State>, ts: seq<Step>, k: nat :: Continues(compile, s, ss, ts, k, org) ==>
      Current(compile, ss[|ts|].src, ss[|ts|].cache, org)
  }

  /** The condition is exact: if it fails, some call in flight can still put its own
      hash into the cache, in at most three steps of its own. */
  lemma ConvergesIff(compile: Compiler, s: State, org: string)
    requires Inv(compile, s)
    ensures AlwaysCurrent(compile, s, org) <==> Harmless(compile, s, org)
  {
    if Harmless(compile, s, org) {
      forall ss: seq<State>, ts: seq<Step>, k: nat | Continues(compile, s, ss, ts, k, org)
        ensures Current(compile, ss[|ts|].src, ss[|ts|].cache, org)
      {
        Converges(compile, ss, ts, k, |ts|, org);
      }
    } else {
      var op :| op in s.ops && s.ops[op].ref.orgId == org && Compilable(compile, s.src, s.ops[op].ref)
                && !(org in s.src.active && s.ops[op].ref.hash == s.src.active[org].hash);
      var ss, ts := CallGetsThrough(compile, s, op);
      assert Continues(compile, s, ss, ts, |ts| - 1, org);
    }
  }

  lemma Append(compile: Compiler, ss: seq<State>, ts: seq<Step>, t: Step) returns (ss': seq<State>, ts': seq<Step>)
    requires Steps(compile, ss, ts) && Enabled(compile, ss[|ts|], t)
    ensures Steps(compile, ss', ts') && ss' == ss + [Apply(compile, ss[|ts|], t)] && ts' == ts + [t]
  {
    ss', ts' := ss + [Apply(compile, ss[|ts|], t)], ts + [t];
    forall i: nat | i < |ts'| ensures StepAt(compile, ss', ts', i) {
      if i < |ts| { assert StepAt(compile, ss, ts, i); }
    }
  }

  predicate Quiet(ts: seq<Step>) { forall n :: 0 <= n < |ts| ==> !ts[n].Point? && !ts[n].Fail? }

  /** The last step of a quiet continuation put ref's hash into the cache. */
  ghost predicate GotThrough(s: State, ss: seq<State>, ts: seq<Step>, ref: Bundle)
    requires |ss| == |ts| + 1
  {
    && 0 < |ts| && Quiet(ts) && Completes(ss[|ts| - 1], ts[|ts| - 1], ref.orgId)
    && ref.orgId in ss[|ts|].cache && ss[|ts|].cache[ref.orgId].hash == ref.hash && ss[|ts|].src == s.src
  }

  lemma StoreGetsThrough(compile: Compiler, s: State, ss: seq<State>, ts: seq<Step>, op: nat)
    returns (ss': seq<State>, ts': seq<Step>)
    requires Steps(compile, ss, ts) && Quiet(ts) && op in ss[|ts|].ops && ss[|ts|].ops[op].Storing? && ss[|ts|].src == s.src
    ensures Steps(compile, ss', ts') && ss <= ss' && |ts'| == |ts| + 1 && GotThrough(s, ss', ts', ss[|ts|].ops[op].ref)
  {
    ss', ts' := Append(compile, ss, ts, Store(op));
  }

  lemma LoadGetsThrough(compile: Compiler, s: State, ss: seq<State>, ts: seq<Step>, op: nat)
    returns (ss': seq<State>, ts': seq<Step>)
    requires Steps(compile, ss, ts) && Quiet(ts) && op in ss[|ts|].ops && ss[|ts|].ops[op].Loading? && ss[|ts|].src == s.src
    requires Compilable(compile, s.src, ss[|ts|].ops[op].ref)
    ensures Steps(compile, ss', ts') && ss <= ss' && |ts'| == |ts| + 2 && GotThrough(s, ss', ts', ss[|ts|].ops[op].ref)
  {
    ss', ts' := Append(compile, ss, ts, Compile(op));
    ss', ts' := StoreGetsThrough(compile, s, ss', ts', op);
  }

  /** Left to itself, a call whose version compiles ends with its hash in the cache. */
  lemma CallGetsThrough(compile: Compiler, s: State, op: nat) returns (ss: seq<State>, ts: seq<Step>)
    requires Inv(compile, s) && op in s.ops && Compilable(compile, s.src, s.ops[op].ref)
    ensures Steps(compile, ss, ts) && ss[0] == s && |ts| <= 3 && GotThrough(s, ss, ts, s.ops[op].ref)
  {
    ss, ts := [s], [];
    match s.ops[op] {
      case Storing(_, _) => ss, ts := StoreGetsThrough(compile, s, ss, ts, op);
      case Loading(_) => ss, ts := LoadGetsThrough(compile, s, ss, ts, op);
      case Comparing(_) =>
        ss, ts := Append(compile, ss, ts, Compare(op));
        if !Unchanged(s, op) { ss, ts := LoadGetsThrough(compile, s, ss, ts, op); }
    }
  }

  // A call in flight across a publish.

  function DemoCompile(v: Version): Option<E.Policy> { Some(E.Policy(v.hash, [], [])) }

  function DemoVersion(h: string): Version { Version(h, "pol", "org", "", [], [], "", "", "", 0) }

  function DemoBundle(h: string): Bundle { Bundle("org", "pol", h, 0) }

  lemma Then(ss: seq<State>, ts: seq<Step>, t: Step) returns (ss': seq<State>, ts': seq<Step>, s': State)
    requires Run(DemoCompile, ss, ts) && Enabled(DemoCompile, ss[|ts|], t)
    ensures s' == Apply(DemoCompile, ss[|ts|], t)
    ensures Run(DemoCompile, ss', ts') && ss' == ss + [s'] && ts' == ts + [t]
  {
    ss', ts' := Append(DemoCompile, ss, ts, t);
    s' := ss'[|ts'|];
  }

  /** Publishes "h1", starts a load, and publishes "h2" before the load goes on. */
  lemma LoadAcrossPublish() returns (ss: seq<State>, ts: seq<Step>, s: State)
    ensures Run(DemoCompile, ss, ts) && ss[|ts|] == s && s.cache == map[]
    ensures s.ops == map[0 := Loading(DemoBundle("h1"))] && s.src.active == map["org" := DemoBundle("h2")]
    ensures s.src.versions == map[KeyOf(DemoBundle("h1")) := DemoVersion("h1"), KeyOf(DemoBundle("h2")) := DemoVersion("h2")]
  {
    ss, ts, s := Then([INIT], [], PutVersion(DemoVersion("h1")));
    ss, ts, s := Then(ss, ts, Point(DemoBundle("h1")));
    ss, ts, s := Then(ss, ts, BeginLoad(0, "org"));
    assert s.src.versions == map[KeyOf(DemoBundle("h1")) := DemoVersion("h1")];
    assert "h1" != "h2";
    ss, ts, s := Then(ss, ts, PutVersion(DemoVersion("h2")));
    ss, ts, s := Then(ss, ts, Point(DemoBundle("h2")));
  }

  /** The condition on calls in flight is not met by every run: a cold load that read the old bundle
      may write it after a later load has already cached the new one, and the org is
      served the replaced policy until the next refresh. */
  lemma LateLoadServesReplacedBundle() returns (ss: seq<State>, ts: seq<Step>, s: State)
    ensures Run(DemoCompile, ss, ts) && ss[|ts|] == s && s.ops == map[]
    ensures |ts| > 2 && Completes(ss[|ts| - 3], ts[|ts| - 3], "org")
    ensures "org" in s.cache && s.cache["org"].hash == "h1" && "org" in s.src.active && s.src.active["org"].hash == "h2"
  {
    ss, ts, s := LoadAcrossPublish();
    ss, ts, s := Then(ss, ts, BeginLoad(1, "org"));
    ss, ts, s := Then(ss, ts, Compile(1));
    ss, ts, s := Then(ss, ts, Store(1));
    ss, ts, s := Then(ss, ts, Compile(0));
    ss, ts, s := Then(ss, ts, Store(0));
    assert s.ops == map[];
  }
}
