/** Policy authoring, content-addressed publishing and rollback
    (internal/policyctl/service.go, store.go, policyctl.go). */
module PolicyControl {
  import opened Base
  import PolicyRules

  type Rule = PolicyRules.Rule

  datatype PolicyRef = PolicyRef(org: string, id: string)
  datatype Status = Draft | Published

  /** The working copy; None is Go's nil list. */
  datatype Policy = Policy(
    id: string, orgId: string, name: string, agents: Option<seq<string>>, rules: Option<seq<Rule>>,
    status: Status, active: string, createdAt: int, updatedAt: int)

  datatype Version = Version(
    hash: string, policyId: string, orgId: string, name: string, agents: seq<string>, rules: seq<Rule>,
    signature: string, author: string, parent: string, publishedAt: int)

  datatype Bundle = Bundle(orgId: string, policyId: string, hash: string, updatedAt: int)

  /** What is hashed and signed: identity and content, nil lists read as empty. */
  datatype Content = Content(policyId: string, orgId: string, name: string, agents: seq<string>, rules: seq<Rule>)

  function OrEmpty<T>(s: Option<seq<T>>): seq<T> { match s case None => [] case Some(x) => x }

  function WorkingContent(p: Policy): Content { Content(p.id, p.orgId, p.name, OrEmpty(p.agents), OrEmpty(p.rules)) }

  function VersionContent(v: Version): Content { Content(v.policyId, v.orgId, v.name, v.agents, v.rules) }

  /** What is hashed is exactly a policy's identity and content. */
  predicate SameContent(p: Policy, v: Version) {
    && v.policyId == p.id && v.orgId == p.orgId && v.name == p.name
    && v.agents == (match p.agents case None => [] case Some(x) => x)
    && v.rules == (match p.rules case None => [] case Some(x) => x)
  }

  lemma SameContentIff(p: Policy, v: Version)
    ensures VersionContent(v) == WorkingContent(p) <==> SameContent(p, v)
  {
  }

  datatype Error = Invalid | Exists | PolicyNotFound | VersionNotFound | StoreFailed
  datatype Result<+T> = Ok(value: T) | Err(error: Error)

  type Versions = map<PolicyRef, seq<Version>>
  type Index = map<PolicyRef, map<string, Version>>

  ghost predicate Injective(hash: Content -> string) { forall a, b :: hash(a) == hash(b) ==> a == b }

  /** One policy's version list: hashes are the content hashes of the versions' own
      fields and pairwise different, and each parent is absent or an earlier version. */
  ghost predicate WellFormedHistory(hash: Content -> string, r: PolicyRef, vs: seq<Version>) {
    && (forall i :: 0 <= i < |vs| ==>
          vs[i].orgId == r.org && vs[i].policyId == r.id && vs[i].hash == hash(VersionContent(vs[i])))
    && (forall i, j :: 0 <= i < j < |vs| ==> vs[i].hash != vs[j].hash)
    && (forall i :: 0 <= i < |vs| && vs[i].parent != "" ==> exists j :: 0 <= j < i && vs[j].hash == vs[i].parent)
  }

  /** The hash index and the list hold the same versions. */
  ghost predicate Indexed(vs: seq<Version>, seen: map<string, Version>) {
    && (forall v :: v in vs ==> v.hash in seen && seen[v.hash] == v)
    && (forall h :: h in seen ==> seen[h] in vs && seen[h].hash == h)
  }

  function Lookup(seen: Index, r: PolicyRef): map<string, Version> { if r in seen then seen[r] else map[] }

  function ListOf(versions: Versions, r: PolicyRef): seq<Version> { if r in versions then versions[r] else [] }

  /** Published versions are never changed or removed. */
  ghost predicate Preserves(seen: Index, seen': Index) {
    forall r, h :: h in Lookup(seen, r) ==> h in Lookup(seen', r) && Lookup(seen', r)[h] == Lookup(seen, r)[h]
  }

  ghost predicate History(hash: Content -> string, r: PolicyRef, versions: Versions, seen: Index) {
    WellFormedHistory(hash, r, ListOf(versions, r)) && Indexed(ListOf(versions, r), Lookup(seen, r))
  }

  /** Active pointers and bundles name stored versions of existing policies. */
  ghost predicate Named(policies: map<PolicyRef, Policy>, seen: Index, bundles: map<string, Bundle>) {
    && (forall r :: r in policies ==> policies[r].orgId == r.org && policies[r].id == r.id)
    && (forall r :: r in policies && policies[r].active != "" ==> policies[r].active in Lookup(seen, r))
    && (forall o :: o in bundles ==>
          var r := PolicyRef(o, bundles[o].policyId);
          bundles[o].orgId == o && r in policies && bundles[o].hash != "" && bundles[o].hash in Lookup(seen, r))
  }

  /** A bundle's hash is its policy's active hash. */
  ghost predicate InSync(policies: map<PolicyRef, Policy>, bundles: map<string, Bundle>) {
    forall o :: o in bundles ==>
      PolicyRef(o, bundles[o].policyId) in policies && policies[PolicyRef(o, bundles[o].policyId)].active == bundles[o].hash
  }

  /** Which of the store calls of a publish or rollback fail: looking up the version,
      storing a new one, writing the policy, pointing the org's bundle. */
  datatype Faults = Faults(lookup: bool, version: bool, policy: bool, bundle: bool)

  const NO_FAULTS := Faults(false, false, false, false)

  /** The bundle write is lost after the policy write, and the org serves another version
      of the same policy. */
  predicate Desyncs(bundles: map<string, Bundle>, ref: PolicyRef, h: string, f: Faults) {
    !f.policy && f.bundle && ref.org in bundles && bundles[ref.org].policyId == ref.id && bundles[ref.org].hash != h
  }

  type Validator = (string, string, Option<seq<string>>, Option<seq<Rule>>) -> bool

  class Service {
    var policies: map<PolicyRef, Policy>
    var versions: Versions
    var seen: Index
    var bundles: map<string, Bundle>

    /** Foreign code: the prefixed content hash, the validator (which sees nil lists),
        and the signer. */
    const hash: Content -> string
    const validate: Validator
    const sign: Content -> string

    ghost predicate Valid()
      reads this
    {
      && (forall c :: hash(c) != "")
      && (forall r :: History(hash, r, versions, seen))
      && Named(policies, seen, bundles)
    }

    constructor (hash: Content -> string, sign: Content -> string, validate: Validator)
      requires forall c :: hash(c) != ""
      ensures Valid() && policies == map[] && versions == map[] && seen == map[] && bundles == map[]
      ensures InSync(policies, bundles) && this.hash == hash && this.sign == sign && this.validate == validate
    {
      policies, versions, seen, bundles := map[], map[], map[], map[];
      this.hash, this.sign, this.validate := hash, sign, validate;
    }

    method Create(org: string, name: string, agents: Option<seq<string>>, rules: Option<seq<Rule>>, id: string, now: int)
      returns (r: Result<Policy>)
      requires Valid()
      modifies this`policies
      ensures Valid() && (InSync(old(policies), bundles) ==> InSync(policies, bundles))
      ensures r.Ok? <==> org != "" && name != "" && PolicyRef(org, id) !in old(policies)
      ensures r.Err? ==> policies == old(policies)
      ensures r.Ok? ==> r.value == Policy(id, org, name, agents, rules, Draft, "", now, now)
                        && policies == old(policies)[PolicyRef(org, id) := r.value]
    {
      if org == "" || name == "" {
        return Err(Invalid);
      }
      var p := Policy(id, org, name, agents, rules, Draft, "", now, now);
      if PolicyRef(org, id) in policies {
        return Err(Exists);
      }
      policies := policies[PolicyRef(org, id) := p];
      r := Ok(p);
    }

    /** Replaces the working copy; what is active, and what serves, does not move. */
    method Update(org: string, id: string, name: string, agents: Option<seq<string>>, rules: Option<seq<Rule>>, now: int)
      returns (r: Result<Policy>)
      requires Valid()
      modifies this`policies
      ensures Valid() && (InSync(old(policies), bundles) ==> InSync(policies, bundles))
      ensures r.Ok? <==> PolicyRef(org, id) in old(policies)
      ensures r.Err? ==> policies == old(policies)
      ensures r.Ok? ==>
                var p := old(policies)[PolicyRef(org, id)];
                && r.value == p.(name := if name == "" then p.name else name, agents := agents, rules := rules, updatedAt := now)
                && policies == old(policies)[PolicyRef(org, id) := r.value]
    {
      if PolicyRef(org, id) !in policies {
        return Err(PolicyNotFound);
      }
      var p := policies[PolicyRef(org, id)];
      if name != "" {
        p := p.(name := name);
      }
      p := p.(agents := agents, rules := rules, updatedAt := now);
      policies := policies[PolicyRef(org, id) := p];
      r := Ok(p);
    }

    /** Stores a version under its hash unless that hash is already there. */
    method PutVersion(v: Version) returns (created: bool)
      modifies this`versions, this`seen
      ensures created <==> v.hash !in Lookup(old(seen), PolicyRef(v.orgId, v.policyId))
      ensures var r := PolicyRef(v.orgId, v.policyId);
              if created then
                && versions == old(versions)[r := ListOf(old(versions), r) + [v]]
                && seen == old(seen)[r := Lookup(old(seen), r)[v.hash := v]]
              else versions == old(versions) && forall q :: Lookup(seen, q) == Lookup(old(seen), q)
    {
      var r := PolicyRef(v.orgId, v.policyId);
      if r !in seen {
        seen := seen[r := map[]];
      }
      if v.hash in seen[r] {
        return false;
      }
      seen := seen[r := seen[r][v.hash := v]];
      versions := versions[r := ListOf(versions, r) + [v]];
      created := true;
    }

    /** The stored version of content c, minted now if there is none yet. */
    method Mint(ref: PolicyRef, c: Content, author: string, parent: string, now: int) returns (v: Version)
      requires Valid() && c.orgId == ref.org && c.policyId == ref.id
      requires parent == "" || parent in Lookup(seen, ref)
      modifies this`versions, this`seen
      ensures Valid() && Preserves(old(seen), seen)
      ensures v.hash == hash(c) && v.hash in Lookup(seen, ref) && v == Lookup(seen, ref)[v.hash]
      ensures Injective(hash) ==> VersionContent(v) == c
      ensures if hash(c) in Lookup(old(seen), ref) then versions == old(versions) && seen == old(seen)
              else v == Version(hash(c), ref.id, ref.org, c.name, c.agents, c.rules, sign(c), author, parent, now)
                   && versions == old(versions)[ref := ListOf(old(versions), ref) + [v]]
    {
      var known := Lookup(seen, ref);
      assert History(hash, ref, versions, seen);
      if hash(c) in known {
        v := known[hash(c)];
        assert v in ListOf(versions, ref) && v.hash == hash(VersionContent(v));
        return;
      }
      v := Version(hash(c), c.policyId, c.orgId, c.name, c.agents, c.rules, sign(c), author, parent, now);
      assert VersionContent(v) == c;
      PutKeepsHistory(hash, versions, seen, ref, v);
      PutKeepsNames(policies, seen, bundles, ref, v);
      assert PolicyRef(v.orgId, v.policyId) == ref;
      var _ := PutVersion(v);
      assert (versions, seen) == Put(old(versions), old(seen), ref, v);
    }

    /** Marks the working copy published at version h, then points the org's bundle there.
        If the second write fails after the first, the bundle lags behind exactly when it
        served another version of this policy. */
    method Designate(ref: PolicyRef, p: Policy, h: string, now: int, f: Faults) returns (ok: bool)
      requires Valid() && ref in policies && p.orgId == ref.org && p.id == ref.id
      requires h != "" && h in Lookup(seen, ref)
      modifies this`policies, this`bundles
      ensures Valid() && ok == (!f.policy && !f.bundle)
      ensures policies == if f.policy then old(policies)
                          else old(policies)[ref := p.(status := Published, active := h, updatedAt := now)]
      ensures bundles == if ok then old(bundles)[ref.org := Bundle(ref.org, ref.id, h, now)] else old(bundles)
      ensures InSync(old(policies), old(bundles)) ==> (InSync(policies, bundles) <==> !Desyncs(old(bundles), ref, h, f))
    {
      if f.policy {
        return false;
      }
      policies := policies[ref := p.(status := Published, active := h, updatedAt := now)];
      if f.bundle {
        return false;
      }
      bundles := bundles[p.orgId := Bundle(p.orgId, p.id, h, now)];
      ok := true;
    }

    /** Publishing content that was published before returns that very version; other
        content becomes one new version whose parent is what was active. Either way the
        policy and the org's bundle then name it. A failing store call stops it where it
        is, and publishing again picks up from there. */
    method Publish(org: string, id: string, author: string, now: int, f: Faults) returns (r: Result<Version>)
      requires Valid()
      modifies this
      ensures Valid() && Preserves(old(seen), seen)
      ensures Reaches(org, id, f, old(policies), old(seen)) || (r.Err? && versions == old(versions) && seen == old(seen)
                && policies == old(policies) && bundles == old(bundles))
      ensures r.Ok? <==> Reaches(org, id, f, old(policies), old(seen)) && !f.policy && !f.bundle
      ensures Reaches(org, id, f, old(policies), old(seen)) ==>
                var ref := PolicyRef(org, id);
                var p := old(policies)[ref];
                var c := WorkingContent(p);
                && hash(c) in Lookup(seen, ref)
                && (r.Ok? ==> r.value.hash == hash(c) && r.value == Lookup(seen, ref)[hash(c)])
                && policies == (if f.policy then old(policies)
                                else old(policies)[ref := p.(status := Published, active := hash(c), updatedAt := now)])
                && bundles == (if r.Ok? then old(bundles)[org := Bundle(org, id, hash(c), now)] else old(bundles))
                && (Injective(hash) ==> SameContent(p, Lookup(seen, ref)[hash(c)]))
                && (if hash(c) in Lookup(old(seen), ref) then versions == old(versions) && seen == old(seen)
                    else
                      && Lookup(seen, ref)[hash(c)] ==
                         Version(hash(c), id, org, c.name, c.agents, c.rules, sign(c), author, p.active, now)
                      && versions == old(versions)[ref := ListOf(old(versions), ref) + [Lookup(seen, ref)[hash(c)]]])
                && (InSync(old(policies), old(bundles)) ==>
                      (InSync(policies, bundles) <==> !Desyncs(old(bundles), ref, hash(c), f)))
    {
      var ref := PolicyRef(org, id);
      if ref !in policies {
        return Err(PolicyNotFound);
      }
      var p := policies[ref];
      if !validate(p.orgId, p.name, p.agents, p.rules) {
        return Err(Invalid);
      }
      var c := WorkingContent(p);
      if f.lookup || (hash(c) !in Lookup(seen, ref) && f.version) {
        return Err(StoreFailed);
      }
      var v := Mint(ref, c, author, p.active, now);
      SameContentIff(p, v);
      var ok := Designate(ref, p, v.hash, now, f);
      r := if ok then Ok(v) else Err(StoreFailed);
    }

    /** The publish gets as far as writing the policy. */
    ghost predicate Reaches(org: string, id: string, f: Faults, policies: map<PolicyRef, Policy>, seen: Index) {
      var ref := PolicyRef(org, id);
      && ref in policies && validate(org, policies[ref].name, policies[ref].agents, policies[ref].rules)
      && !f.lookup && (hash(WorkingContent(policies[ref])) in Lookup(seen, ref) || !f.version)
    }

    /** Restores a stored version as working copy, active version and serving bundle;
        no version is created. */
    method Rollback(org: string, id: string, h: string, now: int, f: Faults) returns (r: Result<Version>)
      requires Valid()
      modifies this`policies, this`bundles
      ensures Valid()
      ensures var found := PolicyRef(org, id) in old(policies) && !f.lookup && h in Lookup(seen, PolicyRef(org, id));
              && (r.Ok? <==> found && !f.policy && !f.bundle)
              && (!found ==> policies == old(policies) && bundles == old(bundles))
              && (found ==>
                    var ref := PolicyRef(org, id);
                    var v := Lookup(seen, ref)[h];
                    && v.hash == h && (r.Ok? ==> r.value == v)
                    && policies == (if f.policy then old(policies) else old(policies)[ref := old(policies)[ref].(
                         name := v.name, agents := Some(v.agents), rules := Some(v.rules),
                         status := Published, active := h, updatedAt := now)])
                    && bundles == (if r.Ok? then old(bundles)[org := Bundle(org, id, h, now)] else old(bundles))
                    && (!f.policy ==> hash(WorkingContent(policies[ref])) == h)
                    && (InSync(old(policies), old(bundles)) ==>
                          (InSync(policies, bundles) <==> !Desyncs(old(bundles), ref, h, f))))
    {
      var ref := PolicyRef(org, id);
      if ref !in policies {
        return Err(PolicyNotFound);
      }
      if f.lookup {
        return Err(StoreFailed);
      }
      if h !in Lookup(seen, ref) {
        return Err(VersionNotFound);
      }
      var target := Lookup(seen, ref)[h];
      assert History(hash, ref, versions, seen);
      assert target in ListOf(versions, ref) && target.hash == h;
      var p := policies[ref].(name := target.name, agents := Some(target.agents), rules := Some(target.rules));
      var ok := Designate(ref, p, target.hash, now, f);
      assert !f.policy ==> WorkingContent(policies[ref]) == VersionContent(target);
      r := if ok then Ok(target) else Err(StoreFailed);
    }

    /** Publishing right after a rollback gives back the rolled-back version and creates
        nothing, provided its content still validates. */
    method RollbackThenPublish(org: string, id: string, h: string, author: string, now: int, later: int)
      returns (back: Result<Version>, again: Result<Version>)
      requires Valid()
      modifies this
      ensures Valid()
      ensures back.Ok? && validate(org, back.value.name, Some(back.value.agents), Some(back.value.rules)) ==>
                && again == back && versions == old(versions) && seen == old(seen)
                && PolicyRef(org, id) in policies && policies[PolicyRef(org, id)].active == h
                && org in bundles && bundles[org].policyId == id && bundles[org].hash == h
    {
      back := Rollback(org, id, h, now, NO_FAULTS);
      again := Publish(org, id, author, later, NO_FAULTS);
    }

    /** Every run, whatever store calls fail: any list of operations keeps Valid and every
        version ever stored; and without a lost bundle write, bundles stay in sync. */
    method Run(ops: seq<Operation>)
      requires Valid()
      modifies this
      ensures Valid() && Preserves(old(seen), seen)
      ensures InSync(old(policies), old(bundles)) && (forall o :: o in ops ==> !LosesBundle(o)) ==> InSync(policies, bundles)
    {
      for i := 0 to |ops|
        invariant Valid() && Preserves(old(seen), seen)
        invariant InSync(old(policies), old(bundles)) && (forall o :: o in ops ==> !LosesBundle(o)) ==> InSync(policies, bundles)
      {
        assert ops[i] in ops;
        match ops[i] {
          case DoCreate(org, name, agents, rules, id, now) =>
            var _ := Create(org, name, agents, rules, id, now);
          case DoUpdate(org, id, name, agents, rules, now) =>
            var _ := Update(org, id, name, agents, rules, now);
          case DoPublish(org, id, author, now, f) =>
            var _ := Publish(org, id, author, now, f);
          case DoRollback(org, id, h, now, f) =>
            var _ := Rollback(org, id, h, now, f);
        }
      }
    }
  }

  predicate LosesBundle(o: Operation) { (o.DoPublish? || o.DoRollback?) && !o.f.policy && o.f.bundle }

  datatype Operation =
    | DoCreate(org: string, name: string, agents: Option<seq<string>>, rules: Option<seq<Rule>>, id: string, now: int)
    | DoUpdate(org: string, id: string, name: string, agents: Option<seq<string>>, rules: Option<seq<Rule>>, now: int)
    | DoPublish(org: string, id: string, author: string, now: int, f: Faults)
    | DoRollback(org: string, id: string, hash: string, now: int, f: Faults)

  function Put(versions: Versions, seen: Index, r: PolicyRef, v: Version): (Versions, Index) {
    (versions[r := ListOf(versions, r) + [v]], seen[r := Lookup(seen, r)[v.hash := v]])
  }

  lemma PutKeepsHistory(hash: Content -> string, versions: Versions, seen: Index, r: PolicyRef, v: Version)
    requires forall q :: History(hash, q, versions, seen)
    requires v.orgId == r.org && v.policyId == r.id && v.hash == hash(VersionContent(v))
    requires v.hash !in Lookup(seen, r) && (v.parent == "" || v.parent in Lookup(seen, r))
    ensures forall q :: History(hash, q, Put(versions, seen, r, v).0, Put(versions, seen, r, v).1)
  {
    assert History(hash, r, versions, seen);
    HistoryGrows(hash, r, ListOf(versions, r), Lookup(seen, r), v);
    forall q ensures History(hash, q, Put(versions, seen, r, v).0, Put(versions, seen, r, v).1) {
      assert History(hash, q, versions, seen);
    }
  }

  lemma PutKeepsNames(policies: map<PolicyRef, Policy>, seen: Index, bundles: map<string, Bundle>, r: PolicyRef, v: Version)
    requires Named(policies, seen, bundles) && v.hash !in Lookup(seen, r)
    ensures Named(policies, seen[r := Lookup(seen, r)[v.hash := v]], bundles)
    ensures Preserves(seen, seen[r := Lookup(seen, r)[v.hash := v]])
  {
  }

  lemma HistoryGrows(hash: Content -> string, r: PolicyRef, vs: seq<Version>, seen: map<string, Version>, v: Version)
    requires WellFormedHistory(hash, r, vs) && Indexed(vs, seen)
    requires v.orgId == r.org && v.policyId == r.id && v.hash == hash(VersionContent(v)) && v.hash !in seen
    requires v.parent == "" || v.parent in seen
    ensures WellFormedHistory(hash, r, vs + [v]) && Indexed(vs + [v], seen[v.hash := v])
  {
    forall i | 0 <= i < |vs| ensures vs[i].hash != v.hash { assert vs[i] in vs; }
    ParentsGrow(vs, seen, v);
    assert (vs + [v])[|vs|] == v;
    assert forall w :: w in vs + [v] <==> w in vs || w == v;
  }

  lemma ParentsGrow(vs: seq<Version>, seen: map<string, Version>, v: Version)
    requires Indexed(vs, seen) && (v.parent == "" || v.parent in seen)
    requires forall i :: 0 <= i < |vs| && vs[i].parent != "" ==> exists j :: 0 <= j < i && vs[j].hash == vs[i].parent
    ensures forall i :: 0 <= i <= |vs| && (vs + [v])[i].parent != "" ==>
              exists j :: 0 <= j < i && (vs + [v])[j].hash == (vs + [v])[i].parent
  {
    var ws := vs + [v];
    forall i | 0 <= i <= |vs| && ws[i].parent != "" ensures exists j :: 0 <= j < i && ws[j].hash == ws[i].parent {
      if i < |vs| {
        var j :| 0 <= j < i && vs[j].hash == vs[i].parent;
        assert ws[j].hash == ws[i].parent;
      } else {
        var j :| 0 <= j < |vs| && vs[j] == seen[v.parent];
        assert ws[j].hash == v.parent;
      }
    }
  }

  /** path follows parent links through the list. */
  ghost predicate ParentPath(vs: seq<Version>, path: seq<nat>) {
    && (forall k :: 0 <= k < |path| ==> path[k] < |vs|)
    && forall k :: 0 <= k < |path| - 1 ==> vs[path[k + 1]].hash == vs[path[k]].parent != ""
  }

  lemma HashFindsIndex(vs: seq<Version>, i: nat, j: nat)
    requires forall a, b :: 0 <= a < b < |vs| ==> vs[a].hash != vs[b].hash
    requires i < |vs| && j < |vs| && vs[i].hash == vs[j].hash
    ensures i == j
  {
  }

  /** Parent links never come back: along any chain of parents the versions are strictly
      older, so lineage is acyclic and ends. */
  lemma {:induction false} LineageAcyclic(hash: Content -> string, r: PolicyRef, vs: seq<Version>, path: seq<nat>, a: nat, b: nat)
    requires WellFormedHistory(hash, r, vs) && ParentPath(vs, path) && a < b < |path|
    ensures path[b] < path[a] && vs[path[a]].hash != vs[path[b]].hash
    decreases b
  {
    if a < b - 1 { LineageAcyclic(hash, r, vs, path, a, b - 1); }
    var child, parent := path[b - 1], path[b];
    assert vs[path[b - 1 + 1]].hash == vs[path[b - 1]].parent;
    var j :| 0 <= j < child && vs[j].hash == vs[child].parent;
    HashFindsIndex(vs, j, parent);
  }

  /** Create a policy and publish it. */
  method PublishedOnce(hash: Content -> string, sign: Content -> string, validate: Validator)
    returns (s: Service, first: Result<Version>)
    requires (forall c :: hash(c) != "") && validate("org", "before", None, None)
    ensures fresh(s) && s.Valid() && first.Ok? && s.hash == hash && s.validate == validate
    ensures var h := hash(Content("pol", "org", "before", [], []));
            && s.policies == map[PolicyRef("org", "pol") := Policy("pol", "org", "before", None, None, Published, h, 0, 0)]
            && s.bundles == map["org" := Bundle("org", "pol", h, 0)]
  {
    s := new Service(hash, sign, validate);
    var created := s.Create("org", "before", None, None, "pol", 0);
    first := s.Publish("org", "pol", "author", 0, NO_FAULTS);
  }

  /** Rename it and publish again: the second publish writes the policy and loses the
      bundle write, so policy and bundle disagree. */
  method LostBundleWriteDesyncs(hash: Content -> string, sign: Content -> string, validate: Validator)
    returns (s: Service, first: Result<Version>, second: Result<Version>)
    requires Injective(hash) && forall c :: hash(c) != ""
    requires validate("org", "before", None, None) && validate("org", "after", None, None)
    ensures fresh(s) && s.Valid() && first.Ok? && second.Err? && !InSync(s.policies, s.bundles)
  {
    var ref := PolicyRef("org", "pol");
    s, first := PublishedOnce(hash, sign, validate);
    var updated := s.Update("org", "pol", "after", None, None, 0);
    ghost var p := s.policies[ref];
    assert hash(Content("pol", "org", "before", [], [])) != hash(WorkingContent(p));
    second := s.Publish("org", "pol", "author", 0, Faults(false, false, false, true));
    assert "org" in s.bundles && s.policies[ref].active == hash(WorkingContent(p)) != s.bundles["org"].hash;
  }
}
