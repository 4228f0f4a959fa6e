/** The per-org hash-chained decision log (internal/audit/audit.go, memory.go, crypto.go). */
module AuditChain {
  import opened Base

  const GENESIS := "rh_genesis/1"
  const HASH_PREFIX := "rh_"
  const CIPHER_PREFIX := "enc:v1:"

  datatype Explanation = Explanation(summary: string, matchedRules: Option<seq<string>>)

  /** The fields that are encrypted at rest. */
  datatype Sensitive = Sensitive(amount: string, targetType: string, targetId: string)

  /** The other hashed fields; None is Go's nil list. */
  datatype Content = Content(
    apiKeyId: string, agentId: string, action: string, currency: string, jurisdiction: string, verdict: string,
    policyVersionHash: string, explanation: Explanation, obligations: Option<seq<string>>, signature: string,
    latencyMs: int, evaluatedAt: string, shadow: bool)

  /** createdAt 0 is the zero time. */
  datatype Record = Record(
    decisionId: string, orgId: string, sensitive: Sensitive, content: Content,
    seqNo: int, prevHash: string, recordHash: string, createdAt: int, retainUntil: int)

  datatype HashView = HashView(prevHash: string, decisionId: string, orgId: string, sensitive: Sensitive, content: Content)

  function Filled(l: Option<seq<string>>): Option<seq<string>> { if l.None? then Some([]) else l }

  function Normalised(c: Content): Content {
    c.(obligations := Filled(c.obligations), explanation := c.explanation.(matchedRules := Filled(c.explanation.matchedRules)))
  }

  function View(prev: string, r: Record): HashView {
    HashView(prev, r.decisionId, r.orgId, r.sensitive, Normalised(r.content))
  }

  // The record hash: a digest of the canonical view, in prefixed lowercase hex.

  type Nibble = n: nat | n < 16

  type Digest = HashView -> seq<Nibble>

  /** What a record's view hashes to. */
  type Hasher = HashView -> string

  function HexDigit(n: Nibble): char { "0123456789abcdef"[n] }

  function Hex(d: seq<Nibble>): string { seq(|d|, i requires 0 <= i < |d| => HexDigit(d[i])) }

  function RecordHasher(digest: Digest): Hasher { (v: HashView) => HASH_PREFIX + Hex(digest(v)) }

  /** Different views hash differently, and no view hashes to the chain's sentinel. */
  ghost predicate Sound(hash: Hasher) {
    && (forall v, w :: hash(v) == hash(w) ==> v == w)
    && (forall v :: hash(v) != GENESIS)
  }

  /** Lowercase hexadecimal. */
  lemma HexDigitIs(n: Nibble)
    ensures HexDigit(n) as int == if n < 10 then '0' as int + n else 'a' as int + n - 10
  {
  }

  lemma HexInjective(a: seq<Nibble>, b: seq<Nibble>)
    requires Hex(a) == Hex(b)
    ensures a == b
  {
    assert |a| == |Hex(a)| == |b|;
    forall i | 0 <= i < |a| ensures a[i] == b[i] {
      assert HexDigit(a[i]) == Hex(a)[i] == Hex(b)[i] == HexDigit(b[i]);
    }
  }

  /** A collision-free digest, rendered as the service renders it, is sound: in
      particular the sentinel is no record's hash, since 'g' is not a hex digit. */
  lemma RecordHasherSound(digest: Digest)
    requires forall v, w :: digest(v) == digest(w) ==> v == w
    ensures Sound(RecordHasher(digest))
  {
    var hash := RecordHasher(digest);
    forall v, w | hash(v) == hash(w) ensures v == w {
      assert Hex(digest(v)) == hash(v)[3..];
      assert Hex(digest(w)) == hash(w)[3..];
      HexInjective(digest(v), digest(w));
    }
    forall v ensures hash(v) != GENESIS {
      if |hash(v)| > 3 { assert hash(v)[3] == HexDigit(digest(v)[0]) != 'g' == GENESIS[3]; }
    }
  }

  function ComputeRecordHash(hash: Hasher, prev: string, r: Record): string { hash(View(prev, r)) }

  predicate VerifyChainLink(hash: Hasher, r: Record) { ComputeRecordHash(hash, r.prevHash, r) == r.recordHash }

  // What a chain commits to.

  function PrevOf(log: seq<Record>, i: nat): string
    requires i <= |log|
  {
    if i == 0 then GENESIS else log[i - 1].recordHash
  }

  predicate LinkedAt(log: seq<Record>, i: nat)
    requires i < |log|
  {
    log[i].prevHash == PrevOf(log, i)
  }

  ghost predicate Linked(log: seq<Record>) { forall i: nat :: i < |log| ==> LinkedAt(log, i) }

  ghost predicate Verifies(hash: Hasher, log: seq<Record>) { forall i :: 0 <= i < |log| ==> VerifyChainLink(hash, log[i]) }

  /** The same list, a nil one being empty. */
  predicate SameList(a: Option<seq<string>>, b: Option<seq<string>>) {
    match (a, b)
    case (Some(x), Some(y)) => x == y
    case (None, Some(y)) => y == []
    case (Some(x), None) => x == []
    case (None, None) => true
  }

  /** What the hash covers of a record's content: all of it. */
  predicate SameContent(a: Content, b: Content) {
    && a.apiKeyId == b.apiKeyId && a.agentId == b.agentId && a.action == b.action && a.currency == b.currency
    && a.jurisdiction == b.jurisdiction && a.verdict == b.verdict && a.policyVersionHash == b.policyVersionHash
    && a.explanation.summary == b.explanation.summary
    && SameList(a.explanation.matchedRules, b.explanation.matchedRules) && SameList(a.obligations, b.obligations)
    && a.signature == b.signature && a.latencyMs == b.latencyMs && a.evaluatedAt == b.evaluatedAt && a.shadow == b.shadow
  }

  /** The same decision, as far as it is tamper-evident: whose, about what, and how it
      was decided. Sequence number and retention are the store's own. */
  predicate SameDecision(a: Record, b: Record) {
    && a.decisionId == b.decisionId && a.orgId == b.orgId
    && a.sensitive.amount == b.sensitive.amount
    && a.sensitive.targetType == b.sensitive.targetType && a.sensitive.targetId == b.sensitive.targetId
    && SameContent(a.content, b.content)
  }

  predicate SameRecord(a: Record, b: Record) {
    a.prevHash == b.prevHash && a.recordHash == b.recordHash && SameDecision(a, b)
  }

  ghost predicate SameHashed(a: seq<Record>, b: seq<Record>) {
    |a| == |b| && forall i :: 0 <= i < |a| ==> SameRecord(a[i], b[i])
  }

  /** What is hashed is exactly the predecessor and the decision. */
  lemma ViewIff(p: string, a: Record, q: string, b: Record)
    ensures View(p, a) == View(q, b) <==> p == q && SameDecision(a, b)
  {
    ContentIff(a.content, b.content);
  }

  lemma ContentIff(a: Content, b: Content)
    ensures Normalised(a) == Normalised(b) <==> SameContent(a, b)
  {
  }

  /** Tampering shows: put any other decision, or another predecessor, under the hash of
      a record that verifies, and it no longer verifies. */
  lemma TamperedFails(hash: Hasher, r: Record, t: Record)
    requires Sound(hash) && VerifyChainLink(hash, r) && t.recordHash == r.recordHash
    ensures VerifyChainLink(hash, t) <==> t.prevHash == r.prevHash && SameDecision(t, r)
  {
    ViewIff(t.prevHash, t, r.prevHash, r);
  }

  /** Commitment: a fully linked and verifying log is determined, record by record and
      hashed field by hashed field, by the hash of its last record (the sentinel when it
      is empty). So no record can be altered, dropped, inserted or moved under it. */
  lemma {:induction false} LastHashCommits(hash: Hasher, a: seq<Record>, b: seq<Record>)
    requires Sound(hash)
    requires Linked(a) && Verifies(hash, a) && Linked(b) && Verifies(hash, b)
    requires PrevOf(a, |a|) == PrevOf(b, |b|)
    ensures SameHashed(a, b)
    decreases |a|
  {
    if a != [] && b != [] {
      var m, n := |a| - 1, |b| - 1;
      SameLastRecord(hash, a, b);
      PrefixIsChain(hash, a, m);
      PrefixIsChain(hash, b, n);
      LastHashCommits(hash, a[..m], b[..n]);
      SameHashedSnoc(a, b);
    } else {
      NonEmptyIsNotGenesis(hash, a);
      NonEmptyIsNotGenesis(hash, b);
    }
  }

  lemma SameHashedSnoc(a: seq<Record>, b: seq<Record>)
    requires |a| == |b| > 0 && SameHashed(a[..|a| - 1], b[..|b| - 1])
    requires SameRecord(a[|a| - 1], b[|b| - 1])
    ensures SameHashed(a, b)
  {
    var m := |a| - 1;
    forall i | 0 <= i < m ensures SameRecord(a[i], b[i]) {
      assert a[..m][i] == a[i] && b[..m][i] == b[i];
    }
  }

  lemma NonEmptyIsNotGenesis(hash: Hasher, log: seq<Record>)
    requires Sound(hash) && Verifies(hash, log)
    ensures PrevOf(log, |log|) == GENESIS <==> log == []
  {
    if log != [] { assert VerifyChainLink(hash, log[|log| - 1]); }
  }

  lemma SameLastRecord(hash: Hasher, a: seq<Record>, b: seq<Record>)
    requires Sound(hash) && a != [] && b != []
    requires Linked(a) && Verifies(hash, a) && Linked(b) && Verifies(hash, b)
    requires PrevOf(a, |a|) == PrevOf(b, |b|)
    ensures SameRecord(a[|a| - 1], b[|b| - 1]) && PrevOf(a, |a| - 1) == PrevOf(b, |b| - 1)
  {
    var x, y := a[|a| - 1], b[|b| - 1];
    assert VerifyChainLink(hash, x) && VerifyChainLink(hash, y);
    ViewIff(x.prevHash, x, y.prevHash, y);
    assert LinkedAt(a, |a| - 1) && LinkedAt(b, |b| - 1);
  }

  /** What the chain alone does not show: cutting records off the end leaves a chain. */
  lemma PrefixIsChain(hash: Hasher, log: seq<Record>, n: nat)
    requires n <= |log| && Linked(log) && Verifies(hash, log)
    ensures Linked(log[..n]) && Verifies(hash, log[..n]) && PrevOf(log[..n], n) == PrevOf(log, n)
  {
    forall i: nat | i < n ensures LinkedAt(log[..n], i) { assert LinkedAt(log, i); }
  }

  // Encryption at rest.

  /** encrypt takes the fresh nonce; both directions may fail. */
  datatype Encryptor = Encryptor(encrypt: (string, int) -> Option<string>, decrypt: string -> Option<string>)

  predicate GivesBack(enc: Encryptor, x: string, n: int) {
    enc.encrypt(x, n).Some? ==> enc.decrypt(enc.encrypt(x, n).value) == Some(x)
  }

  predicate MisreadsNever(enc: Encryptor, x: string, n: int) {
    enc.encrypt(x, n).Some? && enc.decrypt(enc.encrypt(x, n).value).Some? ==> GivesBack(enc, x, n)
  }

  /** Decrypting what was encrypted never gives another value. */
  ghost predicate NeverWrong(enc: Encryptor) { forall x, n :: MisreadsNever(enc, x, n) }

  /** Decrypting what was encrypted gives it back. */
  ghost predicate RoundTrips(enc: Encryptor) { forall x, n :: GivesBack(enc, x, n) }

  predicate Marked(s: string) { CIPHER_PREFIX <= s }

  function NopEncryptor(): Encryptor {
    Encryptor((x: string, n: int) => Some(x), (s: string) => if Marked(s) then None else Some(s))
  }

  /** The no-op encryptor keeps its contract exactly on values that do not look like
      ciphertext: it cannot read back a plaintext that carries the cipher prefix. */
  lemma NopRoundTripsIff(x: string, n: int)
    ensures NeverWrong(NopEncryptor())
    ensures NopEncryptor().encrypt(x, n) == Some(x)
    ensures NopEncryptor().decrypt(x) == Some(x) <==> !Marked(x)
  {
  }

  /** A marked plaintext is stored and cannot be read back. */
  lemma NopLosesMarkedValue(n: int)
    ensures NopEncryptor().encrypt(CIPHER_PREFIX, n) == Some(CIPHER_PREFIX) && NopEncryptor().decrypt(CIPHER_PREFIX) == None
    ensures !RoundTrips(NopEncryptor())
  {
    assert !GivesBack(NopEncryptor(), CIPHER_PREFIX, n);
  }

  function Seal(enc: Encryptor, s: Sensitive, n: (int, int, int)): Option<Sensitive> {
    var a, t, i := enc.encrypt(s.amount, n.0), enc.encrypt(s.targetType, n.1), enc.encrypt(s.targetId, n.2);
    if a.Some? && t.Some? && i.Some? then Some(Sensitive(a.value, t.value, i.value)) else None
  }

  function Unseal(enc: Encryptor, s: Sensitive): Option<Sensitive> {
    var a, t, i := enc.decrypt(s.amount), enc.decrypt(s.targetType), enc.decrypt(s.targetId);
    if a.Some? && t.Some? && i.Some? then Some(Sensitive(a.value, t.value, i.value)) else None
  }

  /** The decrypted copy of a stored record. */
  function Open(enc: Encryptor, r: Record): Option<Record> {
    match Unseal(enc, r.sensitive)
    case None => None
    case Some(s) => Some(r.(sensitive := s))
  }

  lemma UnsealSealed(enc: Encryptor, s: Sensitive, n: (int, int, int))
    requires NeverWrong(enc) && Seal(enc, s, n).Some?
    ensures var back := Unseal(enc, Seal(enc, s, n).value);
            (back == None || back == Some(s)) && (RoundTrips(enc) ==> back == Some(s))
  {
    assert MisreadsNever(enc, s.amount, n.0) && MisreadsNever(enc, s.targetType, n.1) && MisreadsNever(enc, s.targetId, n.2);
    if RoundTrips(enc) {
      assert GivesBack(enc, s.amount, n.0) && GivesBack(enc, s.targetType, n.1) && GivesBack(enc, s.targetId, n.2);
    }
  }

  // One org's log as stored.

  ghost predicate Increasing(log: seq<Record>) { forall i, j :: 0 <= i < j < |log| ==> log[i].seqNo < log[j].seqNo }

  ghost predicate DistinctIds(log: seq<Record>) { forall i, j :: 0 <= i < j < |log| ==> log[i].decisionId != log[j].decisionId }

  /** Whatever decrypts, verifies; with a working encryptor everything decrypts. */
  ghost predicate Genuine(hash: Hasher, enc: Encryptor, org: string, r: Record) {
    && r.orgId == org && r.seqNo > 0
    && (RoundTrips(enc) ==> Open(enc, r).Some?)
    && (Open(enc, r).Some? ==> VerifyChainLink(hash, Open(enc, r).value))
  }

  ghost predicate GoodLog(hash: Hasher, enc: Encryptor, org: string, log: seq<Record>, last: int) {
    && Linked(log) && Increasing(log) && DistinctIds(log)
    && forall r :: r in log ==> Genuine(hash, enc, org, r) && r.seqNo <= last
  }

  function LogOf(byOrg: map<string, seq<Record>>, org: string): seq<Record> { if org in byOrg then byOrg[org] else [] }

  ghost predicate AllGood(hash: Hasher, enc: Encryptor, byOrg: map<string, seq<Record>>, last: int) {
    forall o :: GoodLog(hash, enc, o, LogOf(byOrg, o), last)
  }

  datatype GetResult = Found(record: Record) | NotFound | DecryptFailed

  class MemStore {
    const hash: Hasher
    const enc: Encryptor
    var last: int
    var byOrg: map<string, seq<Record>>

    ghost predicate Valid()
      reads this
    {
      NeverWrong(enc) && last >= 0 && AllGood(hash, enc, byOrg, last)
    }

    constructor (hash: Hasher, enc: Encryptor)
      requires NeverWrong(enc)
      ensures Valid() && byOrg == map[] && last == 0 && this.hash == hash && this.enc == enc
    {
      this.hash, this.enc, last, byOrg := hash, enc, 0, map[];
    }

    /** Position of a decision in the org's log. */
    method Find(org: string, id: string) returns (k: int)
      ensures -1 <= k < |LogOf(byOrg, org)|
      ensures if k < 0 then forall r :: r in LogOf(byOrg, org) ==> r.decisionId != id
              else LogOf(byOrg, org)[k].decisionId == id
    {
      var log := LogOf(byOrg, org);
      for i := 0 to |log|
        invariant forall j :: 0 <= j < i ==> log[j].decisionId != id
      {
        if log[i].decisionId == id {
          return i;
        }
      }
      k := -1;
    }

    /** Appends a decision at the end of its org's chain, or does nothing if the org
        already logged it. The record handed back is what a reader will decrypt. */
    method Append(r: Record, now: int, nonces: (int, int, int)) returns (ok: bool, out: Record)
      requires Valid()
      modifies this
      ensures Valid()
      ensures var log := LogOf(old(byOrg), r.orgId);
              if exists x :: x in log && x.decisionId == r.decisionId then
                ok && out == r && byOrg == old(byOrg) && last == old(last)
              else if Seal(enc, r.sensitive, nonces).None? then
                !ok && out == r && byOrg == old(byOrg) && last == old(last) + 1
              else
                && ok && last == old(last) + 1
                && out == r.(seqNo := last, prevHash := PrevOf(log, |log|),
                             recordHash := ComputeRecordHash(hash, PrevOf(log, |log|), r),
                             createdAt := if r.createdAt == 0 then now else r.createdAt)
                && byOrg == old(byOrg)[r.orgId := log + [out.(sensitive := Seal(enc, r.sensitive, nonces).value)]]
                && VerifyChainLink(hash, out)
    {
      var k := Find(r.orgId, r.decisionId);
      var log := LogOf(byOrg, r.orgId);
      if k >= 0 {
        assert log[k] in log;
        return true, r;
      }
      var prev := GENESIS;
      if |log| > 0 {
        prev := log[|log| - 1].recordHash;
      }
      var recordHash := ComputeRecordHash(hash, prev, r);
      last := last + 1;
      out := r.(seqNo := last, prevHash := prev, recordHash := recordHash,
                createdAt := if r.createdAt == 0 then now else r.createdAt);
      var sealed := Seal(enc, r.sensitive, nonces);
      if sealed.None? {
        SkipKeeps(hash, enc, byOrg, old(last));
        return false, r;
      }
      var stored := out.(sensitive := sealed.value);
      UnsealSealed(enc, r.sensitive, nonces);
      StoreKeeps(hash, enc, byOrg, old(last), r.orgId, stored);
      byOrg := byOrg[r.orgId := log + [stored]];
      ok := true;
    }

    /** Whatever Get returns passes VerifyChainLink; with a working encryptor it finds
        and decrypts every logged decision. */
    method Get(org: string, id: string) returns (g: GetResult)
      requires Valid()
      ensures g.NotFound? <==> forall r :: r in LogOf(byOrg, org) ==> r.decisionId != id
      ensures g.Found? ==> g.record.orgId == org && g.record.decisionId == id && VerifyChainLink(hash, g.record)
                           && exists r :: r in LogOf(byOrg, org) && Open(enc, r) == Some(g.record)
      ensures RoundTrips(enc) ==> !g.DecryptFailed?
    {
      var k := Find(org, id);
      if k < 0 {
        return NotFound;
      }
      assert GoodLog(hash, enc, org, LogOf(byOrg, org), last);
      var r := LogOf(byOrg, org)[k];
      assert r in LogOf(byOrg, org) && Genuine(hash, enc, org, r);
      match Open(enc, r) {
        case None => g := DecryptFailed;
        case Some(x) => g := Found(x);
      }
    }

    /** Every run of appends, whatever fails along the way: each org's log only grows. */
    method AppendAll(rs: seq<Record>, now: int, nonces: seq<(int, int, int)>)
      requires Valid() && |nonces| == |rs|
      modifies this
      ensures Valid()
      ensures forall o :: LogOf(old(byOrg), o) <= LogOf(byOrg, o)
      ensures old(last) <= last <= old(last) + |rs|
    {
      for i := 0 to |rs|
        invariant Valid()
        invariant forall o :: LogOf(old(byOrg), o) <= LogOf(byOrg, o)
        invariant old(last) <= last <= old(last) + i
      {
        var _, _ := Append(rs[i], now, nonces[i]);
      }
    }
  }

  // What the store keeps is what the last hash commits to.

  predicate AllOpen(enc: Encryptor, log: seq<Record>) { forall r :: r in log ==> Open(enc, r).Some? }

  /** The records as a reader decrypts them. */
  function Decrypted(enc: Encryptor, log: seq<Record>): seq<Record>
    requires AllOpen(enc, log)
  {
    seq(|log|, i requires 0 <= i < |log| => Open(enc, log[i]).value)
  }

  /** Decrypting keeps every link. */
  lemma DecryptedLinks(enc: Encryptor, log: seq<Record>)
    requires Linked(log) && AllOpen(enc, log)
    ensures var plain := Decrypted(enc, log); Linked(plain) && PrevOf(plain, |plain|) == PrevOf(log, |log|)
  {
    var plain := Decrypted(enc, log);
    forall i: nat | i < |plain| ensures LinkedAt(plain, i) { assert LinkedAt(log, i); }
  }

  lemma DecryptedVerifies(hash: Hasher, enc: Encryptor, org: string, log: seq<Record>)
    requires AllOpen(enc, log) && forall r :: r in log ==> Genuine(hash, enc, org, r)
    ensures Verifies(hash, Decrypted(enc, log))
  {
    var plain := Decrypted(enc, log);
    forall i | 0 <= i < |plain| ensures VerifyChainLink(hash, plain[i]) { assert Genuine(hash, enc, org, log[i]); }
  }

  /** With a working encryptor the log that appends build decrypts to a chain: linked from
      the sentinel, every record verifying, ending in the stored last hash. */
  lemma DecryptedIsChain(hash: Hasher, enc: Encryptor, org: string, log: seq<Record>, last: int)
    requires GoodLog(hash, enc, org, log, last) && RoundTrips(enc)
    ensures AllOpen(enc, log)
    ensures var plain := Decrypted(enc, log);
            Linked(plain) && Verifies(hash, plain) && PrevOf(plain, |plain|) == PrevOf(log, |log|)
  {
    forall r | r in log ensures Open(enc, r).Some? { assert Genuine(hash, enc, org, r); }
    DecryptedLinks(enc, log);
    DecryptedVerifies(hash, enc, org, log);
  }

  /** Two stores, perhaps encrypting differently, whose logs of an org end in the same
      hash: what readers decrypt from them agrees in every hashed field. */
  lemma StoredLogsCommit(s: MemStore, t: MemStore, org: string)
    requires s.Valid() && t.Valid() && s.hash == t.hash && Sound(s.hash) && RoundTrips(s.enc) && RoundTrips(t.enc)
    requires PrevOf(LogOf(s.byOrg, org), |LogOf(s.byOrg, org)|) == PrevOf(LogOf(t.byOrg, org), |LogOf(t.byOrg, org)|)
    ensures AllOpen(s.enc, LogOf(s.byOrg, org)) && AllOpen(t.enc, LogOf(t.byOrg, org))
    ensures SameHashed(Decrypted(s.enc, LogOf(s.byOrg, org)), Decrypted(t.enc, LogOf(t.byOrg, org)))
  {
    var a, b := LogOf(s.byOrg, org), LogOf(t.byOrg, org);
    assert GoodLog(s.hash, s.enc, org, a, s.last) && GoodLog(t.hash, t.enc, org, b, t.last);
    DecryptedIsChain(s.hash, s.enc, org, a, s.last);
    DecryptedIsChain(t.hash, t.enc, org, b, t.last);
    LastHashCommits(s.hash, Decrypted(s.enc, a), Decrypted(t.enc, b));
  }

  lemma AppendKeeps(hash: Hasher, enc: Encryptor, org: string, log: seq<Record>, last: int, r: Record)
    requires GoodLog(hash, enc, org, log, last) && Genuine(hash, enc, org, r) && r.seqNo == last + 1
    requires r.prevHash == PrevOf(log, |log|) && forall x :: x in log ==> x.decisionId != r.decisionId
    ensures GoodLog(hash, enc, org, log + [r], last + 1)
  {
    var longer := log + [r];
    forall i: nat | i < |longer| ensures LinkedAt(longer, i) {
      if i < |log| { assert LinkedAt(log, i); }
    }
    assert forall x :: x in longer ==> x in log || x == r;
    forall i | 0 <= i < |log| ensures log[i].seqNo < r.seqNo && log[i].decisionId != r.decisionId { assert log[i] in log; }
  }

  lemma SkipKeeps(hash: Hasher, enc: Encryptor, byOrg: map<string, seq<Record>>, last: int)
    requires AllGood(hash, enc, byOrg, last)
    ensures AllGood(hash, enc, byOrg, last + 1)
  {
    forall o ensures GoodLog(hash, enc, o, LogOf(byOrg, o), last + 1) { assert GoodLog(hash, enc, o, LogOf(byOrg, o), last); }
  }

  lemma StoreKeeps(hash: Hasher, enc: Encryptor, byOrg: map<string, seq<Record>>, last: int, org: string, r: Record)
    requires AllGood(hash, enc, byOrg, last) && Genuine(hash, enc, org, r) && r.seqNo == last + 1
    requires r.prevHash == PrevOf(LogOf(byOrg, org), |LogOf(byOrg, org)|)
    requires forall x :: x in LogOf(byOrg, org) ==> x.decisionId != r.decisionId
    ensures AllGood(hash, enc, byOrg[org := LogOf(byOrg, org) + [r]], last + 1)
  {
    SkipKeeps(hash, enc, byOrg, last);
    assert GoodLog(hash, enc, org, LogOf(byOrg, org), last);
    AppendKeeps(hash, enc, org, LogOf(byOrg, org), last, r);
    var byOrg' := byOrg[org := LogOf(byOrg, org) + [r]];
    forall o ensures GoodLog(hash, enc, o, LogOf(byOrg', o), last + 1) {
      assert GoodLog(hash, enc, o, LogOf(byOrg, o), last + 1);
    }
  }
}
