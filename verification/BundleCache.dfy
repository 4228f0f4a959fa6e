/** The per-org cache of compiled bundles (internal/bundle/bundle.go): the provider's
    methods, and their store reads and cache writes interleaved with publishes. */
module BundleCache {
  import opened Base
  import opened PolicyControl
  import PolicyRules
  import P = Predicates
  import E = Engine

  datatype Key = Key(org: string, policyId: string, hash: string)

  function KeyOf(b: Bundle): Key { Key(b.orgId, b.policyId, b.hash) }

  datatype Entry = Entry(hash: string, pol: E.Policy)

  type Compiler = Version -> Option<E.Policy>

  /** A compiled bundle cites the version it was compiled from. */
  ghost predicate Cites(compile: Compiler) {
    forall v: Version :: v.hash != "" && compile(v).Some? ==> compile(v).value.version == v.hash
  }

  /** What the service compiles a published version to. */
  function Compiled(v: Version): Option<E.Policy> {
    var local := PolicyRules.LocalPart(v.rules);
    if v.hash != "" && PolicyRules.Loadable(local)
    then Some(E.Policy(v.hash, PolicyRules.BuildAll(local), PolicyRules.BudgetPart(v.rules)))
    else None
  }

  /** What a version says: for every request the outcomes of its rules, in order, and the
      first of its budgets that governs the agent, cited under its hash. */
  ghost predicate Says(v: Version, pol: E.Policy) {
    && pol.version == v.hash
    && forall money: P.ParseMoney, x: P.Input ::
         && P.Results(money, pol.predicates, x) == PolicyRules.Interpret(money, v.rules, x)
         && E.ApplicableBudget(pol.budgets, x.agentId) == PolicyRules.FirstBudgetRule(v.rules, x.agentId)
  }

  /** A published version compiles exactly if the loader takes its local rules, and to a
      policy that says what the version says. */
  lemma CompiledSays(v: Version)
    requires v.hash != "" && PolicyRules.NineTypes(v.rules)
    ensures Compiled(v).Some? <==> PolicyRules.Loadable(PolicyRules.LocalPart(v.rules))
    ensures Compiled(v).Some? ==> Says(v, Compiled(v).value)
  {
    if Compiled(v).Some? {
      forall money: P.ParseMoney, x: P.Input
        ensures P.Results(money, Compiled(v).value.predicates, x) == PolicyRules.Interpret(money, v.rules, x)
        ensures E.ApplicableBudget(Compiled(v).value.budgets, x.agentId) == PolicyRules.FirstBudgetRule(v.rules, x.agentId)
      {
        PolicyRules.CompiledResults(money, v.rules, x);
        PolicyRules.CompiledBudget(v.rules, x.agentId);
      }
    }
  }

  /** So an org that is current is served what its published version says. */
  lemma ServedSays(src: Source, cache: map<string, Entry>, org: string)
    requires Addressed(src) && Current(v => Compiled(v), src, cache, org)
    requires PolicyRules.NineTypes(src.versions[KeyOf(src.active[org])].rules)
    ensures Cites(v => Compiled(v)) && Says(src.versions[KeyOf(src.active[org])], cache[org].pol)
  {
    CompiledSays(src.versions[KeyOf(src.active[org])]);
  }

  method CompileVersion(v: Version, hash: PolicyRules.ContentVersion) returns (p: Option<E.Policy>)
    requires v.hash != ""
    ensures p == Compiled(v)
    ensures p.Some? ==> p.value.version == v.hash
    ensures PolicyRules.NineTypes(v.rules) ==>
              (p.Some? <==> PolicyRules.Loadable(PolicyRules.LocalPart(v.rules))) && (p.Some? ==> Says(v, p.value))
  {
    if PolicyRules.NineTypes(v.rules) { CompiledSays(v); }
    p := PolicyRules.CompileRules(v.hash, v.rules, hash);
  }

  /** What the control-plane store holds: immutable versions and the active bundles. */
  datatype Source = Source(versions: map<Key, Version>, active: map<string, Bundle>)

  /** Two stored versions under one hash. */
  ghost predicate Clash(src: Source, j: Key, k: Key) {
    j in src.versions && k in src.versions && j.hash == k.hash && j != k
  }

  /** Versions sit under their own key, active bundles name stored versions, and a hash
      determines the version it names: the store's content-addressing invariant. */
  ghost predicate Addressed(src: Source) {
    && (forall k :: k in src.versions ==> src.versions[k].hash == k.hash != "")
    && (forall o :: o in src.active ==> src.active[o].orgId == o && KeyOf(src.active[o]) in src.versions)
    && (forall j, k :: !Clash(src, j, k))
  }

  /** The org's policy is the compilation of the version its entry names. */
  ghost predicate Backed(compile: Compiler, src: Source, org: string, e: Entry) {
    exists p :: Key(org, p, e.hash) in src.versions && compile(src.versions[Key(org, p, e.hash)]) == Some(e.pol)
  }

  /** The org is served what the store says is active. */
  ghost predicate Current(compile: Compiler, src: Source, cache: map<string, Entry>, org: string) {
    && org in cache && org in src.active && cache[org].hash == src.active[org].hash
    && KeyOf(src.active[org]) in src.versions
    && compile(src.versions[KeyOf(src.active[org])]) == Some(cache[org].pol)
  }

  ghost predicate AllBacked(compile: Compiler, src: Source, cache: map<string, Entry>) {
    forall o :: o in cache ==> Backed(compile, src, o, cache[o])
  }

  /** The two store calls a load makes may each fail. */
  datatype Faults = Faults(active: bool, version: bool)

  datatype Loaded = Served(pol: E.Policy) | NoActiveBundle | Failed

  /** What reading and compiling the active bundle of an org gives. */
  function Fetch(compile: Compiler, src: Source, org: string, f: Faults): Option<Entry> {
    if f.active || org !in src.active then None
    else
      var ref := src.active[org];
      if f.version || KeyOf(ref) !in src.versions then None
      else
        match compile(src.versions[KeyOf(ref)])
        case None => None
        case Some(pol) => Some(Entry(ref.hash, pol))
  }

  /** What a refresh leaves in the cache for an org that has entry e. */
  function Refreshed(compile: Compiler, src: Source, org: string, e: Entry, f: Faults): Entry {
    match Fetch(compile, src, org, f)
    case None => e
    case Some(x) => if x.hash == e.hash then e else x
  }

  class Provider {
    const compile: Compiler
    var src: Source
    var cache: map<string, Entry>

    ghost predicate Valid()
      reads this
    {
      Cites(compile) && Addressed(src) && AllBacked(compile, src, cache)
    }

    constructor (compile: Compiler, src: Source)
      requires Cites(compile) && Addressed(src)
      ensures Valid() && cache == map[] && this.src == src && this.compile == compile
    {
      this.compile, this.src, cache := compile, src, map[];
    }

    method CompileRef(ref: Bundle, f: Faults) returns (p: Option<E.Policy>)
      ensures p == if f.version || KeyOf(ref) !in src.versions then None else compile(src.versions[KeyOf(ref)])
    {
      if f.version || KeyOf(ref) !in src.versions {
        return None;
      }
      p := compile(src.versions[KeyOf(ref)]);
    }

    /** Fetches, compiles and caches the active bundle; on any error nothing changes. */
    method Load(org: string, f: Faults) returns (r: Loaded)
      requires Valid()
      modifies this`cache
      ensures Valid()
      ensures match Fetch(compile, src, org, f)
              case Some(e) => r == Served(e.pol) && cache == old(cache)[org := e] && Current(compile, src, cache, org)
              case None => cache == old(cache) && !r.Served? && (r.NoActiveBundle? <==> !f.active && org !in src.active)
    {
      if f.active {
        return Failed;
      }
      if org !in src.active {
        return NoActiveBundle;
      }
      var ref := src.active[org];
      var p := CompileRef(ref, f);
      if p.None? {
        return Failed;
      }
      cache := cache[org := Entry(ref.hash, p.value)];
      assert Key(org, ref.policyId, ref.hash) == KeyOf(ref);
      r := Served(p.value);
    }

    /** A hot read touches no store and changes nothing; a cold one is a Load. */
    method Active(org: string, f: Faults) returns (r: Loaded)
      requires Valid()
      modifies this`cache
      ensures Valid()
      ensures org in old(cache) ==> cache == old(cache) && r == Served(cache[org].pol)
      ensures r.Served? ==> org in cache && r.pol == cache[org].pol && r.pol.version == cache[org].hash
      ensures org !in old(cache) && Fetch(compile, src, org, f).Some? ==> r.Served? && Current(compile, src, cache, org)
      ensures !r.Served? ==> cache == old(cache)
    {
      if org in cache {
        r := Served(cache[org].pol);
      } else {
        r := Load(org, f);
      }
    }

    /** On error the bundle that was cached keeps serving. */
    method Invalidate(org: string, f: Faults) returns (ok: bool)
      requires Valid()
      modifies this`cache
      ensures Valid()
      ensures ok <==> Fetch(compile, src, org, f).Some?
      ensures if ok then Current(compile, src, cache, org) else cache == old(cache)
      ensures forall o :: o != org ==> (o in cache <==> o in old(cache)) && (o in cache ==> cache[o] == old(cache)[o])
    {
      var r := Load(org, f);
      ok := r.Served?;
    }

    method RefreshOrg(org: string, f: Faults)
      requires Valid()
      modifies this`cache
      ensures Valid()
      ensures org in old(cache) ==> cache == old(cache)[org := Refreshed(compile, src, org, old(cache)[org], f)]
      ensures org !in old(cache) ==>
                match Fetch(compile, src, org, f)
                case None => cache == old(cache)
                case Some(x) => cache == old(cache)[org := x]
    {
      if f.active || org !in src.active {
        return;
      }
      var ref := src.active[org];
      if org in cache && cache[org].hash == ref.hash {
        return;
      }
      var p := CompileRef(ref, f);
      if p.None? {
        return;
      }
      assert Key(org, ref.policyId, ref.hash) == KeyOf(ref);
      cache := cache[org := Entry(ref.hash, p.value)];
    }

    /** Refreshes the orgs cached at the start, in any order. Nothing is ever evicted,
        and every org whose store calls and compilation succeed is current afterwards. */
    method RefreshAll(faults: string -> Faults)
      requires Valid()
      modifies this`cache
      ensures Valid()
      ensures cache == Pass(compile, src, old(cache), {}, faults)
      ensures forall o :: o in cache && Fetch(compile, src, o, faults(o)).Some? ==> Current(compile, src, cache, o)
    {
      ghost var was := cache;
      var orgs := cache.Keys;
      assert cache == Pass(compile, src, was, orgs, faults);
      while orgs != {}
        invariant Valid() && orgs <= was.Keys
        invariant cache == Pass(compile, src, was, orgs, faults)
        decreases |orgs|
      {
        var o :| o in orgs;
        PassOne(compile, src, was, orgs, faults, o);
        RefreshOrg(o, faults(o));
        orgs := orgs - {o};
      }
      PassIsCurrent(compile, src, was, faults);
    }
  }

  /** The cache when every org but those left has been refreshed. */
  ghost function Pass(compile: Compiler, src: Source, was: map<string, Entry>, left: set<string>, faults: string -> Faults)
    : map<string, Entry>
  {
    map o | o in was :: if o in left then was[o] else Refreshed(compile, src, o, was[o], faults(o))
  }

  lemma PassOne(compile: Compiler, src: Source, was: map<string, Entry>, left: set<string>, faults: string -> Faults, o: string)
    requires o in left && left <= was.Keys
    ensures var now := Pass(compile, src, was, left, faults);
            now[o] == was[o] &&
            Pass(compile, src, was, left - {o}, faults) == now[o := Refreshed(compile, src, o, now[o], faults(o))]
  {
  }

  /** A refresh that succeeds leaves the active bundle, also when it kept the entry
      because the hash had not changed. */
  lemma RefreshedIsCurrent(compile: Compiler, src: Source, org: string, e: Entry, f: Faults)
    requires Addressed(src) && Backed(compile, src, org, e) && Fetch(compile, src, org, f).Some?
    ensures Refreshed(compile, src, org, e, f) == Fetch(compile, src, org, f).value
  {
    var ref := src.active[org];
    if ref.hash == e.hash {
      var p :| Key(org, p, e.hash) in src.versions && compile(src.versions[Key(org, p, e.hash)]) == Some(e.pol);
      assert !Clash(src, KeyOf(ref), Key(org, p, e.hash));
    }
  }

  lemma PassIsCurrent(compile: Compiler, src: Source, was: map<string, Entry>, faults: string -> Faults)
    requires Addressed(src) && AllBacked(compile, src, was)
    ensures var cache := Pass(compile, src, was, {}, faults);
            forall o :: o in cache && Fetch(compile, src, o, faults(o)).Some? ==> Current(compile, src, cache, o)
  {
    var cache := Pass(compile, src, was, {}, faults);
    forall o | o in cache && Fetch(compile, src, o, faults(o)).Some? ensures Current(compile, src, cache, o) {
      RefreshedIsCurrent(compile, src, o, was[o], faults(o));
    }
  }

  /** src is what the control plane's version index and bundle pointers say. */
  ghost predicate ViewOf(src: Source, seen: Index, bundles: map<string, Bundle>) {
    && (forall k :: k in src.versions <==> k.hash in Lookup(seen, PolicyRef(k.org, k.policyId)))
    && (forall k :: k in src.versions ==> src.versions[k] == Lookup(seen, PolicyRef(k.org, k.policyId))[k.hash])
    && src.active == bundles
  }

  lemma StoredUnderKey(hash: Content -> string, versions: Versions, seen: Index, src: Source, k: Key)
    requires forall r :: History(hash, r, versions, seen)
    requires ViewOf(src, seen, src.active) && k in src.versions
    ensures var v := src.versions[k];
            v.hash == k.hash && v.orgId == k.org && v.policyId == k.policyId && v.hash == hash(VersionContent(v))
  {
    var r := PolicyRef(k.org, k.policyId);
    assert History(hash, r, versions, seen);
    assert src.versions[k] in ListOf(versions, r);
  }

  /** The control plane's invariant gives the provider the store it relies on. */
  lemma ServiceIsAddressed(hash: Content -> string, policies: map<PolicyRef, PolicyControl.Policy>, versions: Versions,
                           seen: Index, bundles: map<string, Bundle>, src: Source)
    requires Injective(hash) && (forall c :: hash(c) != "") && forall r :: History(hash, r, versions, seen)
    requires Named(policies, seen, bundles) && ViewOf(src, seen, bundles)
    ensures Addressed(src)
  {
    forall k | k in src.versions ensures src.versions[k].hash == k.hash != "" {
      StoredUnderKey(hash, versions, seen, src, k);
      assert hash(VersionContent(src.versions[k])) != "";
    }
    forall j, k ensures !Clash(src, j, k) {
      if j in src.versions && k in src.versions && j.hash == k.hash {
        StoredUnderKey(hash, versions, seen, src, j);
        StoredUnderKey(hash, versions, seen, src, k);
        assert VersionContent(src.versions[j]) == VersionContent(src.versions[k]);
      }
    }
  }
}
