/** Cursor-paginated listing of an org's decisions, in its two implementations
    (internal/audit/memory.go, postgres.go). */
module Pagination {
  import opened Base
  import opened AuditChain

  const DEFAULT_LIMIT := 50
  const MAX_LIMIT := 200

  /** None is the zero time; a cursor of zero or less is no cursor. */
  datatype Filter = Filter(agentId: string, verdict: string, from: Option<int>, to: Option<int>, limit: int, cursor: int)

  /** next is 0 when the listing is exhausted. */
  datatype Page = Page(records: seq<Record>, next: int)

  /** RFC 3339 parsing of evaluated_at. */
  type TimeParser = string -> Option<int>

  function ClampLimit(n: int): (r: nat)
    ensures 1 <= r <= MAX_LIMIT && (1 <= n <= MAX_LIMIT ==> r == n)
    ensures (n <= 0 ==> r == 50) && (n > MAX_LIMIT ==> r == 200)
  {
    if n <= 0 then DEFAULT_LIMIT else if n > MAX_LIMIT then MAX_LIMIT else n
  }

  predicate Within(f: Filter, ts: int) { (f.from.Some? ==> f.from.value <= ts) && (f.to.Some? ==> ts < f.to.value) }

  predicate Bounded(f: Filter) { f.from.Some? || f.to.Some? }

  predicate Selected(f: Filter, c: Content) {
    (f.agentId != "" ==> c.agentId == f.agentId) && (f.verdict != "" ==> c.verdict == f.verdict)
  }

  /** The in-memory filter: with a time bound, a timestamp that does not parse matches
      nothing. */
  predicate Matches(parse: TimeParser, f: Filter, r: Record) {
    && Selected(f, r.content)
    && (Bounded(f) ==> parse(r.content.evaluatedAt).Some? && Within(f, parse(r.content.evaluatedAt).value))
  }

  function Keep(parse: TimeParser, f: Filter): Record -> bool {
    (r: Record) => (f.cursor > 0 ==> r.seqNo < f.cursor) && Matches(parse, f, r)
  }

  /** What is kept of a log, newest first. */
  function Hits<T>(log: seq<T>, keep: T -> bool): seq<T> {
    if log == [] then []
    else
      var n := |log| - 1;
      (if keep(log[n]) then [log[n]] else []) + Hits(log[..n], keep)
  }

  function PageOf(hits: seq<Record>, limit: nat): Page
    requires limit > 0
  {
    if |hits| > limit then Page(hits[..limit], hits[limit - 1].seqNo) else Page(hits, 0)
  }

  /** The decrypted page, or an error if one of its records does not decrypt. */
  function OpenPage(enc: Encryptor, p: Page): Option<Page> {
    if AllOpen(enc, p.records) then Some(Page(Decrypted(enc, p.records), p.next)) else None
  }

  /** plain holds the decrypted copies of stored, in order. */
  ghost predicate Opens(enc: Encryptor, stored: seq<Record>, plain: seq<Record>) {
    |stored| == |plain| && forall i :: 0 <= i < |stored| ==> Open(enc, stored[i]) == Some(plain[i])
  }

  lemma OpensPage(enc: Encryptor, p: Page, plain: seq<Record>)
    requires Opens(enc, p.records, plain)
    ensures OpenPage(enc, p) == Some(Page(plain, p.next))
  {
    assert AllOpen(enc, p.records);
    assert OpenPage(enc, p).value.records == plain;
  }

  // The two implementations.

  lemma HitsStep<T>(log: seq<T>, keep: T -> bool, n: nat)
    requires n < |log|
    ensures Hits(log[..n + 1], keep) == (if keep(log[n]) then [log[n]] else []) + Hits(log[..n], keep)
  {
    assert log[..n + 1][..n] == log[..n];
  }

  lemma HitsAfter(taken: seq<Record>, log: seq<Record>, keep: Record -> bool, n: nat)
    requires n < |log|
    ensures taken + Hits(log[..n + 1], keep) ==
            if keep(log[n]) then taken + [log[n]] + Hits(log[..n], keep) else taken + Hits(log[..n], keep)
  {
    HitsStep(log, keep, n);
  }

  /** One hit beyond a full page: the page is what was taken, and more is to come. */
  lemma FullPage(taken: seq<Record>, ex: Record, rest: seq<Record>, limit: nat)
    requires limit > 0 && |taken| == limit
    ensures PageOf(taken + [ex] + rest, limit) == Page(taken, taken[limit - 1].seqNo)
  {
    assert (taken + [ex] + rest)[..limit] == taken;
  }

  /** A hit that still fits is on the page. */
  lemma OnPage(taken: seq<Record>, ex: Record, rest: seq<Record>, limit: nat)
    requires limit > 0 && |taken| < limit
    ensures ex in PageOf(taken + [ex] + rest, limit).records
  {
    assert PageOf(taken + [ex] + rest, limit).records[|taken|] == ex;
  }

  /** MemStore.List: scan newest first, stop at the first hit beyond a full page. */
  method ListInMemory(store: MemStore, parse: TimeParser, org: string, f: Filter) returns (page: Option<Page>)
    ensures page == InMemoryPage(store.enc, Hits(LogOf(store.byOrg, org), Keep(parse, f)), ClampLimit(f.limit))
  {
    page := Scan(store.enc, LogOf(store.byOrg, org), Keep(parse, f), ClampLimit(f.limit));
  }

  lemma OpensSnoc(enc: Encryptor, taken: seq<Record>, plain: seq<Record>, ex: Record)
    requires Opens(enc, taken, plain) && Open(enc, ex).Some?
    ensures Opens(enc, taken + [ex], plain + [Open(enc, ex).value])
  {
  }

  lemma ScanStops(enc: Encryptor, taken: seq<Record>, plain: seq<Record>, ex: Record, rest: seq<Record>, limit: nat)
    requires limit > 0 && |taken| == limit && Opens(enc, taken, plain)
    ensures OpenPage(enc, PageOf(taken + [ex] + rest, limit)) == Some(Page(plain, plain[limit - 1].seqNo))
  {
    FullPage(taken, ex, rest, limit);
    OpensPage(enc, PageOf(taken + [ex] + rest, limit), plain);
    assert Open(enc, taken[limit - 1]) == Some(plain[limit - 1]);
  }

  lemma ScanEnds(enc: Encryptor, taken: seq<Record>, plain: seq<Record>, limit: nat)
    requires limit > 0 && |taken| <= limit && Opens(enc, taken, plain)
    ensures OpenPage(enc, PageOf(taken, limit)) == Some(Page(plain, 0))
  {
    OpensPage(enc, PageOf(taken, limit), plain);
  }

  method Scan(enc: Encryptor, log: seq<Record>, keep: Record -> bool, limit: nat) returns (page: Option<Page>)
    requires limit > 0
    ensures page == InMemoryPage(enc, Hits(log, keep), limit)
  {
    ghost var taken: seq<Record>, hits := [], Hits(log, keep);
    var records: seq<Record> := [];
    var i := |log|;
    assert log[..i] == log;
    while i > 0
      invariant 0 <= i <= |log| && |taken| <= limit
      invariant hits == taken + Hits(log[..i], keep)
      invariant Opens(enc, taken, records)
    {
      i := i - 1;
      HitsAfter(taken, log, keep, i);
      var ex := log[i];
      if keep(ex) {
        if |records| == limit {
          ScanStops(enc, taken, records, ex, Hits(log[..i], keep), limit);
          return Some(Page(records, records[|records| - 1].seqNo));
        }
        var x := Open(enc, ex);
        if x.None? {
          OnPage(taken, ex, Hits(log[..i], keep), limit);
          return None;
        }
        OpensSnoc(enc, taken, records, ex);
        records := records + [x.value];
        taken := taken + [ex];
      }
    }
    assert hits == taken;
    ScanEnds(enc, taken, records, limit);
    page := Some(Page(records, 0));
  }

  /** A table row: the record and the timestamp column filled in when it was inserted. */
  datatype Row = Row(record: Record, evaluatedAtTs: int)

  function RowKeep(f: Filter): Row -> bool {
    (r: Row) => Selected(f, r.record.content) && Within(f, r.evaluatedAtTs) && (f.cursor > 0 ==> r.record.seqNo < f.cursor)
  }

  function Records(rows: seq<Row>): seq<Record> { seq(|rows|, i requires 0 <= i < |rows| => rows[i].record) }

  function First(hits: seq<Record>, n: nat): seq<Record> { if |hits| > n then hits[..n] else hits }

  /** PostgresStore.List: fetch one row more than a page, decrypt all of them, trim. */
  method ListPostgres(rows: seq<Row>, enc: Encryptor, f: Filter) returns (page: Option<Page>)
    ensures var hits, limit := Records(Hits(rows, RowKeep(f))), ClampLimit(f.limit);
            page == PostgresPage(enc, hits, limit)
  {
    page := FetchAndTrim(enc, Records(Hits(rows, RowKeep(f))), ClampLimit(f.limit));
  }

  /** hits is the answer of the query without its LIMIT. */
  method FetchAndTrim(enc: Encryptor, hits: seq<Record>, limit: nat) returns (page: Option<Page>)
    requires limit > 0
    ensures page == PostgresPage(enc, hits, limit)
  {
    var fetched := First(hits, limit + 1);
    var records: seq<Record> := [];
    for i := 0 to |fetched|
      invariant Opens(enc, fetched[..i], records)
    {
      assert fetched[..i + 1] == fetched[..i] + [fetched[i]];
      match Open(enc, fetched[i]) {
        case None => return None;
        case Some(x) => records := records + [x];
      }
    }
    assert fetched[..|fetched|] == fetched;
    assert AllOpen(enc, fetched);
    var next := 0;
    if |records| > limit {
      records := records[..limit];
      next := records[|records| - 1].seqNo;
    }
    assert PageOf(hits, limit).records <= fetched;
    OpensPage(enc, PageOf(hits, limit), records);
    page := Some(Page(records, next));
  }

  ghost predicate NewestFirst(idx: seq<Record>) { forall a, b :: 0 <= a < b < |idx| ==> idx[a].seqNo >= idx[b].seqNo }

  lemma NewestIsLast(log: seq<Record>, idx: seq<Record>)
    requires Increasing(log) && NewestFirst(idx) && multiset(idx) == multiset(log) && |idx| > 0
    ensures log != [] && idx[0] == log[|log| - 1]
  {
    assert idx[0] in multiset(log);
    assert log[|log| - 1] in multiset(idx);
    var j :| 0 <= j < |log| && log[j] == idx[0];
    var k :| 0 <= k < |idx| && idx[k] == log[|log| - 1];
  }

  lemma WithoutNewest(log: seq<Record>, idx: seq<Record>)
    requires log != [] && idx != [] && multiset(idx) == multiset(log) && idx[0] == log[|log| - 1]
    ensures multiset(idx[1..]) == multiset(log[..|log| - 1])
  {
    assert idx == [idx[0]] + idx[1..];
    assert log == log[..|log| - 1] + [log[|log| - 1]];
    assert multiset(idx[1..]) == multiset(idx) - multiset{idx[0]};
    assert multiset(log[..|log| - 1]) == multiset(log) - multiset{idx[0]};
  }

  /** Sorting a log by descending seq visits it backwards, whatever the sort does. */
  lemma {:induction false} SortedIsReversed(log: seq<Record>, idx: seq<Record>, i: nat)
    requires Increasing(log) && NewestFirst(idx) && multiset(idx) == multiset(log) && i < |idx|
    ensures i < |log| && idx[i] == log[|log| - 1 - i]
    decreases |log|
  {
    NewestIsLast(log, idx);
    if i > 0 {
      WithoutNewest(log, idx);
      SortedIsReversed(log[..|log| - 1], idx[1..], i - 1);
    }
  }

  /** The two filters agree on a row unless its timestamp did not parse, the filter has a
      time bound, and the row's insertion time happens to lie within it. */
  lemma FiltersDifferIff(parse: TimeParser, f: Filter, row: Row)
    requires parse(row.record.content.evaluatedAt).Some? ==> row.evaluatedAtTs == parse(row.record.content.evaluatedAt).value
    ensures RowKeep(f)(row) != Keep(parse, f)(row.record) <==>
            parse(row.record.content.evaluatedAt).None? && Bounded(f) && RowKeep(f)(row)
  {
  }

  /** Both implementations list the same records when every evaluated_at parses; the
      pages then differ only if the row after the page fails to decrypt. */
  lemma {:induction false} SameHits(parse: TimeParser, f: Filter, rows: seq<Row>)
    requires forall r :: r in rows ==> parse(r.record.content.evaluatedAt) == Some(r.evaluatedAtTs)
    ensures Records(Hits(rows, RowKeep(f))) == Hits(Records(rows), Keep(parse, f))
  {
    if rows != [] {
      var n := |rows| - 1;
      FiltersDifferIff(parse, f, rows[n]);
      SameHits(parse, f, rows[..n]);
      assert Records(rows)[..n] == Records(rows[..n]);
      assert forall a, b :: Records(a + b) == Records(a) + Records(b);
      assert Records([rows[n]]) == [rows[n].record];
    }
  }

  /** What the two implementations answer, given the selected records. */
  function InMemoryPage(enc: Encryptor, hits: seq<Record>, limit: nat): Option<Page>
    requires limit > 0
  {
    OpenPage(enc, PageOf(hits, limit))
  }

  function PostgresPage(enc: Encryptor, hits: seq<Record>, limit: nat): Option<Page>
    requires limit > 0
  {
    if AllOpen(enc, First(hits, limit + 1)) then OpenPage(enc, PageOf(hits, limit)) else None
  }

  lemma HitsPagesAgreeIff(enc: Encryptor, hits: seq<Record>, limit: nat)
    requires limit > 0
    ensures InMemoryPage(enc, hits, limit) == PostgresPage(enc, hits, limit) <==>
            |hits| <= limit || Open(enc, hits[limit]).Some? || !AllOpen(enc, hits[..limit])
  {
    if |hits| > limit {
      assert First(hits, limit + 1) == hits[..limit] + [hits[limit]];
    }
  }

  /** When every evaluated_at parses, the two listings return the same page, or both fail,
      exactly if no row follows the page, the row after it decrypts, or the page itself
      does not decrypt. */
  lemma PagesAgreeIff(parse: TimeParser, f: Filter, enc: Encryptor, rows: seq<Row>)
    requires forall r :: r in rows ==> parse(r.record.content.evaluatedAt) == Some(r.evaluatedAtTs)
    ensures var hits, limit := Hits(Records(rows), Keep(parse, f)), ClampLimit(f.limit);
            InMemoryPage(enc, hits, limit) == PostgresPage(enc, Records(Hits(rows, RowKeep(f))), limit) <==>
            |hits| <= limit || Open(enc, hits[limit]).Some? || !AllOpen(enc, hits[..limit])
  {
    SameHits(parse, f, rows);
    HitsPagesAgreeIff(enc, Hits(Records(rows), Keep(parse, f)), ClampLimit(f.limit));
  }

  function DemoRecord(id: string, amount: string, n: int): Record {
    Record(id, "org", Sensitive(amount, "", ""),
           Content("", "", "", "", "", "", "", Explanation("", Some([])), Some([]), "", 0, "", false), n, "", "", 0, 0)
  }

  /** Two records, a page of one, no encryption key, and an older amount that looks like
      ciphertext: in memory the page is served, with SQL it fails. */
  lemma PagesDiffer(parse: TimeParser)
    ensures var f := Filter("", "", None, None, 1, 0);
            var rows := [Row(DemoRecord("d1", CIPHER_PREFIX, 1), 0), Row(DemoRecord("d2", "1.00", 2), 0)];
            && InMemoryPage(NopEncryptor(), Hits(Records(rows), Keep(parse, f)), 1) ==
               Some(Page([DemoRecord("d2", "1.00", 2)], 2))
            && PostgresPage(NopEncryptor(), Records(Hits(rows, RowKeep(f))), 1) == None
  {
    var f := Filter("", "", None, None, 1, 0);
    var older, newer := DemoRecord("d1", CIPHER_PREFIX, 1), DemoRecord("d2", "1.00", 2);
    var rows := [Row(older, 0), Row(newer, 0)];
    var hits := Hits(Records(rows), Keep(parse, f));
    TwoHits(Records(rows), Keep(parse, f));
    TwoHits(rows, RowKeep(f));
    assert Records(Hits(rows, RowKeep(f))) == hits == [newer, older];
    assert !Marked("1.00") && !Marked("") && Marked(CIPHER_PREFIX);
    OpensPage(NopEncryptor(), PageOf(hits, 1), [newer]);
    assert older in First(hits, 2) && Open(NopEncryptor(), older).None?;
  }

  lemma TwoHits<T>(log: seq<T>, keep: T -> bool)
    requires |log| == 2 && keep(log[0]) && keep(log[1])
    ensures Hits(log, keep) == [log[1], log[0]]
  {
    var one := log[..1];
    assert one[0] == log[0] && Hits(one[..0], keep) == [];
    assert Hits(one, keep) == [log[0]];
  }

  // Following cursors.

  /** The hits are exactly the kept records. */
  lemma {:induction false} HitsAreKept<T>(log: seq<T>, keep: T -> bool, r: T)
    ensures r in Hits(log, keep) <==> r in log && keep(r)
  {
    if log != [] {
      HitsAreKept(log[..|log| - 1], keep, r);
      assert log == log[..|log| - 1] + [log[|log| - 1]];
    }
  }

  /** A record is listed exactly if it is in the log, below the cursor, of the agent and
      verdict asked for, and evaluated within the bounds, each as far as the filter says. */
  lemma ListedIff(parse: TimeParser, f: Filter, log: seq<Record>, r: Record)
    ensures r in Hits(log, Keep(parse, f)) <==>
            && r in log && (f.cursor <= 0 || r.seqNo < f.cursor)
            && f.agentId in {"", r.content.agentId} && f.verdict in {"", r.content.verdict}
            && ((f.from == None && f.to == None)
                || exists t :: parse(r.content.evaluatedAt) == Some(t)
                     && (f.from == None || f.from.value <= t) && (f.to == None || t < f.to.value))
  {
    HitsAreKept(log, Keep(parse, f), r);
    var at := parse(r.content.evaluatedAt);
    if at.Some? { assert at == Some(at.value); }
  }

  /** Each of them once, newest first. */
  lemma {:induction false} HitsNewestFirst(log: seq<Record>, keep: Record -> bool)
    requires Increasing(log)
    ensures forall i, j :: 0 <= i < j < |Hits(log, keep)| ==> Hits(log, keep)[i].seqNo > Hits(log, keep)[j].seqNo
  {
    if log != [] {
      var n := |log| - 1;
      HitsNewestFirst(log[..n], keep);
      forall r | r in Hits(log[..n], keep) ensures r.seqNo < log[n].seqNo { HitsAreKept(log[..n], keep, r); }
    }
  }

  lemma {:induction false} HitsAgree<T>(log: seq<T>, p: T -> bool, q: T -> bool)
    requires forall r :: r in log ==> p(r) == q(r)
    ensures Hits(log, p) == Hits(log, q)
  {
    if log != [] { HitsAgree(log[..|log| - 1], p, q); }
  }

  lemma {:induction false} NoHits<T>(log: seq<T>, keep: T -> bool)
    requires forall r :: r in log ==> !keep(r)
    ensures Hits(log, keep) == []
  {
    if log != [] { NoHits(log[..|log| - 1], keep); }
  }

  lemma {:induction false} HitsConcat<T>(a: seq<T>, b: seq<T>, keep: T -> bool)
    ensures Hits(a + b, keep) == Hits(b, keep) + Hits(a, keep)
    decreases |b|
  {
    if b == [] {
      assert a + b == a;
    } else {
      var n := |b| - 1;
      var newest := if keep(b[n]) then [b[n]] else [];
      assert (a + b)[..|a + b| - 1] == a + b[..n];
      HitsConcat(a, b[..n], keep);
      assert newest + (Hits(b[..n], keep) + Hits(a, keep)) == newest + Hits(b[..n], keep) + Hits(a, keep);
    }
  }

  function From(f: Filter, cursor: int): Filter { f.(cursor := cursor) }

  ghost predicate Proper(log: seq<Record>) { Increasing(log) && forall r :: r in log ==> r.seqNo > 0 }

  /** Resuming at the newest hit gives the hits of the older records. */
  lemma ResumeAtNewest(parse: TimeParser, f: Filter, log: seq<Record>, c: int)
    requires Proper(log) && log != [] && Keep(parse, From(f, c))(log[|log| - 1])
    ensures var n := |log| - 1;
            Hits(log, Keep(parse, From(f, log[n].seqNo))) == Hits(log[..n], Keep(parse, From(f, c)))
  {
    var n := |log| - 1;
    assert log[n] in log;
    HitsAgree(log[..n], Keep(parse, From(f, log[n].seqNo)), Keep(parse, From(f, c)));
  }

  /** Resuming below the newest record is resuming on the older ones. */
  lemma ResumeBelow(parse: TimeParser, f: Filter, log: seq<Record>, r: Record)
    requires Proper(log) && log != [] && r in log[..|log| - 1]
    ensures Hits(log, Keep(parse, From(f, r.seqNo))) == Hits(log[..|log| - 1], Keep(parse, From(f, r.seqNo)))
  {
  }

  lemma SuffixAfter(head: seq<Record>, tail: seq<Record>, j: nat)
    requires j < |tail|
    ensures (head + tail)[|head| + j] == tail[j] && (head + tail)[|head| + j + 1..] == tail[j + 1..]
  {
  }

  /** Where the hits of the older records lie among all hits. */
  lemma OlderHits(log: seq<Record>, keep: Record -> bool, j: nat)
    requires log != [] && j < |Hits(log[..|log| - 1], keep)|
    ensures var hits, older := Hits(log, keep), Hits(log[..|log| - 1], keep);
            var k := if keep(log[|log| - 1]) then j + 1 else j;
            |hits| - k == |older| - j && hits[k] == older[j] && hits[k + 1..] == older[j + 1..]
  {
    SuffixAfter(if keep(log[|log| - 1]) then [log[|log| - 1]] else [], Hits(log[..|log| - 1], keep), j);
  }

  /** Resuming at the k-th hit's seq gives the hits after it. */
  lemma {:induction false} ResumeAt(parse: TimeParser, f: Filter, log: seq<Record>, c: int, k: nat)
    requires Proper(log) && k < |Hits(log, Keep(parse, From(f, c)))|
    ensures var hits := Hits(log, Keep(parse, From(f, c)));
            hits[k] in log && Hits(log, Keep(parse, From(f, hits[k].seqNo))) == hits[k + 1..]
  {
    var n, keep := |log| - 1, Keep(parse, From(f, c));
    var hits := Hits(log, keep);
    if keep(log[n]) && k == 0 {
      ResumeAtNewest(parse, f, log, c);
      assert hits[1..] == Hits(log[..n], keep);
    } else {
      var j := if keep(log[n]) then k - 1 else k;
      ResumeAt(parse, f, log[..n], c, j);
      OlderHits(log, keep, j);
      ResumeBelow(parse, f, log, hits[k]);
    }
  }

  /** Records appended later lie above every cursor taken from the log, so they do not
      show up on a resumed page. */
  lemma AppendsInvisible(parse: TimeParser, f: Filter, log: seq<Record>, longer: seq<Record>, r: Record)
    requires log <= longer && Proper(longer) && r in log
    ensures Hits(longer, Keep(parse, From(f, r.seqNo))) == Hits(log, Keep(parse, From(f, r.seqNo)))
  {
    var keep, added := Keep(parse, From(f, r.seqNo)), longer[|log|..];
    assert longer == log + added;
    HitsConcat(log, added, keep);
    forall x | x in added ensures !keep(x) {
      var i, j :| 0 <= i < |log| && log[i] == r && 0 <= j < |added| && added[j] == x;
      assert longer[i] == r && longer[|log| + j] == x;
    }
    NoHits(added, keep);
  }

  function PageAt(parse: TimeParser, f: Filter, log: seq<Record>, cursor: int): Page {
    PageOf(Hits(log, Keep(parse, From(f, cursor))), ClampLimit(f.limit))
  }

  /** A reader's session: page after page, following the cursor, while the log grows. */
  ghost predicate Session(parse: TimeParser, f: Filter, logs: seq<seq<Record>>, pages: seq<Page>) {
    && |logs| == |pages| > 0
    && (forall k :: 0 <= k < |logs| ==> logs[0] <= logs[k] && Proper(logs[k]))
    && pages[0] == PageAt(parse, f, logs[0], 0)
    && forall k: nat :: 0 < k < |pages| ==> Continues(parse, f, logs, pages, k)
  }

  predicate Continues(parse: TimeParser, f: Filter, logs: seq<seq<Record>>, pages: seq<Page>, k: nat)
    requires 0 < k < |pages| == |logs|
  {
    pages[k - 1].next != 0 && pages[k] == PageAt(parse, f, logs[k], pages[k - 1].next)
  }

  function Concat(pages: seq<Page>): seq<Record> {
    if pages == [] then [] else Concat(pages[..|pages| - 1]) + pages[|pages| - 1].records
  }

  ghost predicate SoFar(hits: seq<Record>, pages: seq<Page>)
    requires |pages| > 0
  {
    var got, next := Concat(pages), pages[|pages| - 1].next;
    && got <= hits && (next == 0 <==> got == hits)
    && |pages| <= |hits| + 1 && (next != 0 ==> |got| >= |pages| && got[|got| - 1].seqNo == next)
  }

  lemma PageExtends(hits: seq<Record>, got: seq<Record>, limit: nat)
    requires limit > 0 && got <= hits && forall r :: r in hits ==> r.seqNo > 0
    ensures var p := PageOf(hits[|got|..], limit);
            && got + p.records <= hits && (p.next == 0 <==> got + p.records == hits)
            && (p.next != 0 ==> |p.records| > 0 && p.records[|p.records| - 1].seqNo == p.next)
  {
    var rest := hits[|got|..];
    assert hits == got + rest;
    if |rest| > limit { assert rest[limit - 1] in hits; }
  }

  lemma SoFarNext(hits: seq<Record>, pages: seq<Page>, page: Page)
    requires |pages| > 0 && SoFar(hits, pages) && pages[|pages| - 1].next != 0
    requires Concat(pages) + page.records <= hits && (page.next == 0 <==> Concat(pages) + page.records == hits)
    requires page.next != 0 ==> |page.records| > 0 && page.records[|page.records| - 1].seqNo == page.next
    ensures SoFar(hits, pages + [page])
  {
    assert (pages + [page])[..|pages|] == pages;
    assert Concat(pages + [page]) == Concat(pages) + page.records;
  }

  lemma ResumedHits(parse: TimeParser, f: Filter, log: seq<Record>, longer: seq<Record>, got: seq<Record>, next: int)
    requires log <= longer && Proper(log) && Proper(longer)
    requires 0 < |got| && got <= Hits(log, Keep(parse, From(f, 0))) && got[|got| - 1].seqNo == next
    ensures Hits(longer, Keep(parse, From(f, next))) == Hits(log, Keep(parse, From(f, 0)))[|got|..]
  {
    var k, hits := |got| - 1, Hits(log, Keep(parse, From(f, 0)));
    assert got[k] == hits[k];
    ResumeAt(parse, f, log, 0, k);
    AppendsInvisible(parse, f, log, longer, hits[k]);
  }

  lemma SessionPrefix(parse: TimeParser, f: Filter, logs: seq<seq<Record>>, pages: seq<Page>, n: nat)
    requires Session(parse, f, logs, pages) && 0 < n <= |pages|
    ensures Session(parse, f, logs[..n], pages[..n])
  {
    forall k: nat | 0 < k < n ensures Continues(parse, f, logs[..n], pages[..n], k) {
      assert Continues(parse, f, logs, pages, k);
    }
  }

  lemma HitsPositive(parse: TimeParser, f: Filter, log: seq<Record>)
    requires Proper(log)
    ensures forall r :: r in Hits(log, Keep(parse, f)) ==> r.seqNo > 0
  {
    forall r | r in Hits(log, Keep(parse, f)) ensures r.seqNo > 0 { HitsAreKept(log, Keep(parse, f), r); }
  }

  lemma FirstPage(parse: TimeParser, f: Filter, log: seq<Record>, page: Page)
    requires Proper(log) && page == PageAt(parse, f, log, 0)
    ensures SoFar(Hits(log, Keep(parse, From(f, 0))), [page])
  {
    var hits := Hits(log, Keep(parse, From(f, 0)));
    HitsPositive(parse, From(f, 0), log);
    assert Concat([page]) == [] + page.records && hits[0..] == hits;
    PageExtends(hits, [], ClampLimit(f.limit));
  }

  lemma SoFarPage(hits: seq<Record>, pages: seq<Page>, limit: nat)
    requires |pages| > 0 && limit > 0 && SoFar(hits, pages) && pages[|pages| - 1].next != 0
    requires forall r :: r in hits ==> r.seqNo > 0
    ensures SoFar(hits, pages + [PageOf(hits[|Concat(pages)|..], limit)])
  {
    PageExtends(hits, Concat(pages), limit);
    SoFarNext(hits, pages, PageOf(hits[|Concat(pages)|..], limit));
  }

  lemma NextPage(parse: TimeParser, f: Filter, log: seq<Record>, longer: seq<Record>, pages: seq<Page>, page: Page)
    requires log <= longer && Proper(log) && Proper(longer) && |pages| > 0 && pages[|pages| - 1].next != 0
    requires SoFar(Hits(log, Keep(parse, From(f, 0))), pages) && page == PageAt(parse, f, longer, pages[|pages| - 1].next)
    ensures SoFar(Hits(log, Keep(parse, From(f, 0))), pages + [page])
  {
    HitsPositive(parse, From(f, 0), log);
    ResumedHits(parse, f, log, longer, Concat(pages), pages[|pages| - 1].next);
    SoFarPage(Hits(log, Keep(parse, From(f, 0))), pages, ClampLimit(f.limit));
  }

  /** Completeness: a session that follows cursors until none is left has seen exactly
      the records that matched when it began, each once and newest first, no matter what
      was appended meanwhile; and every session ends, after at most one page more than
      there are matching records. */
  lemma {:induction false} SessionComplete(parse: TimeParser, f: Filter, logs: seq<seq<Record>>, pages: seq<Page>)
    requires Session(parse, f, logs, pages)
    ensures SoFar(Hits(logs[0], Keep(parse, From(f, 0))), pages)
    decreases |pages|
  {
    var n := |pages| - 1;
    if n == 0 {
      FirstPage(parse, f, logs[0], pages[0]);
      assert pages == [pages[0]];
    } else {
      SessionPrefix(parse, f, logs, pages, n);
      SessionComplete(parse, f, logs[..n], pages[..n]);
      assert Continues(parse, f, logs, pages, n);
      NextPage(parse, f, logs[0], logs[n], pages[..n], pages[n]);
      assert pages == pages[..n] + [pages[n]];
    }
  }

  // The pages a reader actually gets are decrypted.

  /** A session with the in-memory listing: each answer a page, following its cursor. */
  ghost predicate Reading(enc: Encryptor, parse: TimeParser, f: Filter, logs: seq<seq<Record>>, shown: seq<Page>) {
    && |logs| == |shown| > 0
    && (forall k :: 0 <= k < |logs| ==> logs[0] <= logs[k] && Proper(logs[k]))
    && OpenPage(enc, PageAt(parse, f, logs[0], 0)) == Some(shown[0])
    && forall k: nat :: 0 < k < |shown| ==> Resumes(enc, parse, f, logs, shown, k)
  }

  predicate Resumes(enc: Encryptor, parse: TimeParser, f: Filter, logs: seq<seq<Record>>, shown: seq<Page>, k: nat)
    requires 0 < k < |shown| == |logs|
  {
    shown[k - 1].next != 0 && OpenPage(enc, PageAt(parse, f, logs[k], shown[k - 1].next)) == Some(shown[k])
  }

  /** The stored pages behind the shown ones. */
  function Stored(parse: TimeParser, f: Filter, logs: seq<seq<Record>>, shown: seq<Page>): seq<Page>
    requires |logs| == |shown|
  {
    seq(|shown|, k requires 0 <= k < |shown| => PageAt(parse, f, logs[k], if k == 0 then 0 else shown[k - 1].next))
  }

  lemma OpenPageOpens(enc: Encryptor, p: Page, shown: Page)
    requires OpenPage(enc, p) == Some(shown)
    ensures shown.next == p.next && Opens(enc, p.records, shown.records)
  {
    forall i | 0 <= i < |p.records| ensures Open(enc, p.records[i]) == Some(shown.records[i]) {
      assert p.records[i] in p.records;
    }
  }

  lemma OpensConcat(enc: Encryptor, a: seq<Record>, a': seq<Record>, b: seq<Record>, b': seq<Record>)
    requires Opens(enc, a, a') && Opens(enc, b, b')
    ensures Opens(enc, a + b, a' + b')
  {
  }

  predicate ShownAt(enc: Encryptor, stored: seq<Page>, shown: seq<Page>, k: nat)
    requires k < |stored| == |shown|
  {
    OpenPage(enc, stored[k]) == Some(shown[k])
  }

  /** Every shown page is the decrypted stored one. */
  ghost predicate AllShown(enc: Encryptor, stored: seq<Page>, shown: seq<Page>) {
    |stored| == |shown| && forall k: nat :: k < |shown| ==> ShownAt(enc, stored, shown, k)
  }

  lemma ShownButLast(enc: Encryptor, stored: seq<Page>, shown: seq<Page>)
    requires AllShown(enc, stored, shown) && shown != []
    ensures var n := |shown| - 1;
            && AllShown(enc, stored[..n], shown[..n])
            && Opens(enc, stored[n].records, shown[n].records) && stored[n].next == shown[n].next
  {
    var n := |shown| - 1;
    forall k: nat | k < n ensures ShownAt(enc, stored[..n], shown[..n], k) { assert ShownAt(enc, stored, shown, k); }
    assert ShownAt(enc, stored, shown, n);
    OpenPageOpens(enc, stored[n], shown[n]);
  }

  lemma {:induction false} ConcatOpens(enc: Encryptor, stored: seq<Page>, shown: seq<Page>)
    requires AllShown(enc, stored, shown)
    ensures Opens(enc, Concat(stored), Concat(shown))
    decreases |shown|
  {
    if shown != [] {
      var n := |shown| - 1;
      ShownButLast(enc, stored, shown);
      ConcatOpens(enc, stored[..n], shown[..n]);
      OpensConcat(enc, Concat(stored[..n]), Concat(shown[..n]), stored[n].records, shown[n].records);
    }
  }

  lemma ReadingIsSession(enc: Encryptor, parse: TimeParser, f: Filter, logs: seq<seq<Record>>, shown: seq<Page>)
    requires Reading(enc, parse, f, logs, shown)
    ensures var stored := Stored(parse, f, logs, shown);
            Session(parse, f, logs, stored) && AllShown(enc, stored, shown)
  {
    var stored := Stored(parse, f, logs, shown);
    forall k: nat | k < |shown| ensures ShownAt(enc, stored, shown, k) && stored[k].next == shown[k].next {
      if k > 0 { assert Resumes(enc, parse, f, logs, shown, k); }
      OpenPageOpens(enc, stored[k], shown[k]);
    }
    forall k: nat | 0 < k < |shown| ensures Continues(parse, f, logs, stored, k) {
      assert Resumes(enc, parse, f, logs, shown, k);
    }
  }

  lemma ReadingOpens(enc: Encryptor, parse: TimeParser, f: Filter, logs: seq<seq<Record>>, shown: seq<Page>)
    requires Reading(enc, parse, f, logs, shown)
    ensures var stored := Stored(parse, f, logs, shown);
            && Session(parse, f, logs, stored) && Opens(enc, Concat(stored), Concat(shown))
            && stored[|stored| - 1].next == shown[|shown| - 1].next
  {
    var stored := Stored(parse, f, logs, shown);
    ReadingIsSession(enc, parse, f, logs, shown);
    ShownButLast(enc, stored, shown);
    ConcatOpens(enc, stored, shown);
  }

  /** A reader that follows cursors until none is left has been shown the decrypted copies
      of exactly the records that matched at the start, each once, newest first; before
      that, of their newest part; and it is done after at most one page more than there
      are matching records. */
  lemma ReadingComplete(enc: Encryptor, parse: TimeParser, f: Filter, logs: seq<seq<Record>>, shown: seq<Page>)
    requires Reading(enc, parse, f, logs, shown)
    ensures var hits, got := Hits(logs[0], Keep(parse, From(f, 0))), Concat(shown);
            && |got| <= |hits| && Opens(enc, hits[..|got|], got) && |shown| <= |hits| + 1
            && (shown[|shown| - 1].next == 0 <==> |got| == |hits|)
  {
    var stored := Stored(parse, f, logs, shown);
    ReadingOpens(enc, parse, f, logs, shown);
    SessionComplete(parse, f, logs, stored);
    SoFarShown(enc, Hits(logs[0], Keep(parse, From(f, 0))), stored, shown);
  }

  lemma SoFarShown(enc: Encryptor, hits: seq<Record>, stored: seq<Page>, shown: seq<Page>)
    requires |stored| == |shown| > 0 && stored[|stored| - 1].next == shown[|shown| - 1].next
    requires SoFar(hits, stored) && Opens(enc, Concat(stored), Concat(shown))
    ensures var got := Concat(shown);
            && |got| <= |hits| && Opens(enc, hits[..|got|], got) && |shown| <= |hits| + 1
            && (shown[|shown| - 1].next == 0 <==> |got| == |hits|)
  {
    assert Concat(stored) == hits[..|Concat(stored)|];
    if |Concat(stored)| == |hits| { assert Concat(stored) == hits; }
  }
}
