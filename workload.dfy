/** The scenarios of main_test.go, restated as verified methods and lemmas
    on the model: shorten then resolve, shorten twice, and the metrics of a
    ten-request workload. */
module Workload {
  import opened Wrappers
  import opened Ranking
  import opened KeyDerivation
  import opened Decimal
  import opened Counters
  import opened Shortener

  /** Shortening a URL and then following the returned short URL redirects
      to that URL; a URL that does not parse is rejected before any lookup
      and changes nothing. */
  method ShortenThenResolve(s: Service, url: string) returns (target: Option<string>)
    requires s.Valid()
    modifies s, s.metrics
    ensures s.Valid()
    ensures s.urlParse(url).Some? ==>
      var host := s.urlParse(url).value;
      && target == Some(url)
      && s.db == old(s.db)[DeriveKey(s.blake2b, url) := url]
      && s.metrics.counts == Bump(old(s.metrics.counts), host)
      && s.metrics.requests == old(s.metrics.requests) + [host]
    ensures s.urlParse(url).None? ==>
      && target == None
      && s.db == old(s.db)
      && s.metrics.counts == old(s.metrics.counts)
      && s.metrics.requests == old(s.metrics.requests)
  {
    var r := s.Shorten(url);
    if r.Failure? {
      return None;
    }
    var blurb := BlurbOf(s.listenAddr, r.value);
    target := s.Resolve(blurb.value);
  }

  /** Shortening the same URL twice gives the same short URL both times; the
      second request leaves the store as the first left it and bumps the
      host's counter once more. */
  method ShortenTwice(s: Service, url: string) returns (r1: Result<string, ShortenError>, r2: Result<string, ShortenError>)
    requires s.Valid()
    modifies s, s.metrics
    ensures s.Valid()
    ensures r1 == r2
    ensures s.urlParse(url).Some? ==>
      var host := s.urlParse(url).value;
      && r1 == Success(ShortUrl(s.listenAddr, DeriveKey(s.blake2b, url)))
      && s.db == old(s.db)[DeriveKey(s.blake2b, url) := url]
      && s.metrics.counts == Bump(Bump(old(s.metrics.counts), host), host)
      && s.metrics.requests == old(s.metrics.requests) + [host, host]
    ensures s.urlParse(url).None? ==>
      && r1 == Failure(InvalidUrl)
      && s.db == old(s.db)
      && s.metrics.counts == old(s.metrics.counts)
      && s.metrics.requests == old(s.metrics.requests)
  {
    r1 := s.Shorten(url);
    ghost var between := s.db;
    r2 := s.Shorten(url);
    assert s.db == between;
  }

  /** Two different URLs whose keys collide: the second shorten overwrites
      the first mapping, so the first short URL now redirects to the second
      URL. */
  method ShortenColliding(s: Service, u1: string, u2: string) returns (target: Option<string>)
    requires s.Valid()
    requires s.urlParse(u1).Some? && s.urlParse(u2).Some?
    requires u1 != u2 && DeriveKey(s.blake2b, u1) == DeriveKey(s.blake2b, u2)
    modifies s, s.metrics
    ensures s.Valid()
    ensures target == Some(u2)
  {
    var r1 := s.Shorten(u1);
    var r2 := s.Shorten(u2);
    var blurb := BlurbOf(s.listenAddr, r1.value);
    target := s.Resolve(blurb.value);
  }

  const Expected: string := "youtube.com: 4\nlinkedin.com: 3\ngithub.com: 2\n"

  /** The request bodies of the metrics test, in order. */
  const TestUrls: seq<string> := [
    "https://github.com/cheerioskun/constellation",
    "https://linkedin.com/in/hemant-pandey-hx",
    "https://linkedin.com/company/infracloudio/",
    "https://linkedin.com/feed/",
    "https://youtube.com/watch?v=dQw4w9WgXcQ",
    "https://youtube.com/watch?v=dQw4w9WgXcQ",
    "https://youtube.com/watch?v=kPaJfAUwViY",
    "https://youtube.com/watch?v=LcWoP6KtZKw",
    "https://gobyexample.com/for",
    "https://github.com/gin-gonic/gin/tree/master/docs"
  ]

  /** The host `url.Parse` finds in each of TestUrls. */
  const TestHosts: seq<string> := [
    "github.com", "linkedin.com", "linkedin.com", "linkedin.com", "youtube.com",
    "youtube.com", "youtube.com", "youtube.com", "gobyexample.com", "github.com"
  ]

  /** The counters after the ten requests of the test workload. */
  const TestCounts: map<string, nat> :=
    map["github.com" := 2, "linkedin.com" := 3, "youtube.com" := 4, "gobyexample.com" := 1]

  /** The four hosts of the workload are different strings. */
  lemma TestHostsDistinct()
    ensures "github.com" != "linkedin.com" && "github.com" != "youtube.com" && "github.com" != "gobyexample.com"
    ensures "linkedin.com" != "youtube.com" && "linkedin.com" != "gobyexample.com" && "youtube.com" != "gobyexample.com"
  {
    assert |"github.com"| == 10 && |"linkedin.com"| == 12 && |"youtube.com"| == 11 && |"gobyexample.com"| == 15;
  }

  /** Counting ten requests to four different hosts gh, li ×3, yt ×4, go, gh. */
  lemma TallyOfRequests(gh: string, li: string, yt: string, go: string)
    requires gh != li && gh != yt && gh != go && li != yt && li != go && yt != go
    ensures Tally([gh, li, li, li, yt, yt, yt, yt, go, gh]) == map[gh := 2, li := 3, yt := 4, go := 1]
  {
    BumpsOfFirstFour(gh, li);
    BumpsOfYoutube(gh, li, yt);
    BumpsOfLastTwo(gh, li, yt, go);
    var p0: seq<string> := [];
    TallySnoc(p0, gh);
    var p1 := p0 + [gh];
    TallySnoc(p1, li);
    var p2 := p1 + [li];
    TallySnoc(p2, li);
    var p3 := p2 + [li];
    TallySnoc(p3, li);
    var p4 := p3 + [li];
    TallySnoc(p4, yt);
    var p5 := p4 + [yt];
    TallySnoc(p5, yt);
    var p6 := p5 + [yt];
    TallySnoc(p6, yt);
    var p7 := p6 + [yt];
    TallySnoc(p7, yt);
    var p8 := p7 + [yt];
    TallySnoc(p8, go);
    var p9 := p8 + [go];
    TallySnoc(p9, gh);
    var p10 := p9 + [gh];
    RequestsInOrder(gh, li, yt, go);
  }

  lemma RequestsInOrder(gh: string, li: string, yt: string, go: string)
    ensures [] + [gh] + [li] + [li] + [li] + [yt] + [yt] + [yt] + [yt] + [go] + [gh]
         == [gh, li, li, li, yt, yt, yt, yt, go, gh]
  {
  }

  lemma BumpsOfFirstFour(gh: string, li: string)
    requires gh != li
    ensures Bump(map[], gh) == map[gh := 1]
    ensures Bump(map[gh := 1], li) == map[gh := 1, li := 1]
    ensures Bump(map[gh := 1, li := 1], li) == map[gh := 1, li := 2]
    ensures Bump(map[gh := 1, li := 2], li) == map[gh := 1, li := 3]
  {
  }

  lemma BumpsOfYoutube(gh: string, li: string, yt: string)
    requires gh != li && gh != yt && li != yt
    ensures Bump(map[gh := 1, li := 3], yt) == map[gh := 1, li := 3, yt := 1]
    ensures Bump(map[gh := 1, li := 3, yt := 1], yt) == map[gh := 1, li := 3, yt := 2]
    ensures Bump(map[gh := 1, li := 3, yt := 2], yt) == map[gh := 1, li := 3, yt := 3]
    ensures Bump(map[gh := 1, li := 3, yt := 3], yt) == map[gh := 1, li := 3, yt := 4]
  {
  }

  lemma BumpsOfLastTwo(gh: string, li: string, yt: string, go: string)
    requires gh != li && gh != yt && gh != go && li != yt && li != go && yt != go
    ensures Bump(map[gh := 1, li := 3, yt := 4], go) == map[gh := 1, li := 3, yt := 4, go := 1]
    ensures Bump(map[gh := 1, li := 3, yt := 4, go := 1], gh) == map[gh := 2, li := 3, yt := 4, go := 1]
  {
  }

  /** The sort and the first three lines for four different hosts with the
      counts of the workload, in first-seen order. */
  lemma FirstSeenReport(gh: string, li: string, yt: string, go: string)
    ensures var counts := map[gh := 2, li := 3, yt := 4, go := 1];
            gh != li && gh != yt && gh != go && li != yt && li != go && yt != go ==>
            Render(TopEntries(Flatten([gh, li, yt, go], counts))) == yt + ": 4\n" + li + ": 3\n" + gh + ": 2\n"
  {
    var counts := map[gh := 2, li := 3, yt := 4, go := 1];
    if gh != li && gh != yt && gh != go && li != yt && li != go && yt != go {
      var eg, el, ey, eo := Entry(gh, 2), Entry(li, 3), Entry(yt, 4), Entry(go, 1);
      var flat := Flatten([gh, li, yt, go], counts);
      assert flat == [eg, el, ey, eo];
      SortWorkload(eg, el, ey, eo);
      assert TopEntries(flat) == [ey, el, eg];
      RenderWorkload(yt, li, gh);
    }
  }

  lemma SortWorkload(eg: Entry, el: Entry, ey: Entry, eo: Entry)
    requires eg.count == 2 && el.count == 3 && ey.count == 4 && eo.count == 1
    ensures SortByCountDesc([eg, el, ey, eo]) == [ey, el, eg, eo]
  {
    SortCons([eg, el, ey, eo]);
    SortLastThree(el, ey, eo);
    InsertPast(eg, [ey, el, eo]);
    InsertPast(eg, [el, eo]);
    InsertFront(eg, [eo]);
  }

  lemma SortLastThree(el: Entry, ey: Entry, eo: Entry)
    requires el.count == 3 && ey.count == 4 && eo.count == 1
    ensures SortByCountDesc([el, ey, eo]) == [ey, el, eo]
  {
    SortCons([el, ey, eo]);
    SortCons([ey, eo]);
    SortCons([eo]);
    InsertFront(eo, []);
    InsertFront(ey, [eo]);
    InsertPast(el, [ey, eo]);
    InsertFront(el, [eo]);
  }

  lemma SortCons(s: seq<Entry>)
    requires s != []
    ensures SortByCountDesc(s) == Insert(s[0], SortByCountDesc(s[1..]))
  {
  }

  lemma InsertFront(e: Entry, s: seq<Entry>)
    requires s == [] || e.count >= s[0].count
    ensures Insert(e, s) == [e] + s
  {
  }

  lemma InsertPast(e: Entry, s: seq<Entry>)
    requires s != [] && e.count < s[0].count
    ensures Insert(e, s) == [s[0]] + Insert(e, s[1..])
  {
  }

  lemma RenderWorkload(yt: string, li: string, gh: string)
    ensures Render([Entry(yt, 4), Entry(li, 3), Entry(gh, 2)]) == yt + ": 4\n" + li + ": 3\n" + gh + ": 2\n"
  {
    RenderThree(Entry(yt, 4), Entry(li, 3), Entry(gh, 2));
    LineOf(yt, 4, ": 4\n");
    LineOf(li, 3, ": 3\n");
    LineOf(gh, 2, ": 2\n");
  }

  lemma RenderThree(a: Entry, b: Entry, c: Entry)
    ensures Render([a, b, c]) == Line(a) + Line(b) + Line(c)
  {
    assert [a][..0] == [];
    assert Render([a]) == Line(a);
    assert [a, b][..1] == [a];
    assert Render([a, b]) == Line(a) + Line(b);
    assert [a, b, c][..2] == [a, b];
  }

  lemma LineOf(name: string, n: nat, tail: string)
    requires tail == ": " + NatToString(n) + "\n"
    ensures Line(Entry(name, n)) == name + tail
  {
  }

  /** For four different hosts with distinct counts, every visit order gives
      the first-seen report. */
  lemma ReportOfFour(gh: string, li: string, yt: string, go: string, rangeOrder: seq<string>)
    requires gh != li && gh != yt && gh != go && li != yt && li != go && yt != go
    requires Enumerates(rangeOrder, {gh, li, yt, go})
    ensures Render(TopEntries(Flatten(rangeOrder, map[gh := 2, li := 3, yt := 4, go := 1])))
         == yt + ": 4\n" + li + ": 3\n" + gh + ": 2\n"
  {
    var counts := map[gh := 2, li := 3, yt := 4, go := 1];
    var firstSeen := [gh, li, yt, go];
    assert counts.Keys == {gh, li, yt, go};
    assert Enumerates(firstSeen, counts.Keys);
    ReportIgnoresRangeOrder(rangeOrder, firstSeen, counts);
    FirstSeenReport(gh, li, yt, go);
  }

  /** The expected report, for every order in which Range may visit the
      counters: no two hosts of the workload share a count. */
  lemma WorkloadReport(rangeOrder: seq<string>)
    requires Enumerates(rangeOrder, TestCounts.Keys)
    ensures Render(TopEntries(Flatten(rangeOrder, TestCounts))) == Expected
  {
    var gh, li, yt, go := "github.com", "linkedin.com", "youtube.com", "gobyexample.com";
    TestHostsDistinct();
    assert TestCounts == map[gh := 2, li := 3, yt := 4, go := 1];
    assert TestCounts.Keys == {gh, li, yt, go};
    ReportOfFour(gh, li, yt, go, rangeOrder);
    ExpectedLines();
  }

  lemma ExpectedLines()
    ensures Expected == "youtube.com" + ": 4\n" + "linkedin.com" + ": 3\n" + "github.com" + ": 2\n"
  {
  }

  /** TestFunctionalE2E, second case: the ten shorten requests on a fresh
      service, then the metrics report, for any visit order of Range. */
  method MetricsWorkload(blake2b: KeyedHash, urlParse: string -> Option<string>, listenAddr: string,
                         rangeOrder: seq<string>) returns (report: string)
    requires forall i | 0 <= i < |TestUrls| :: urlParse(TestUrls[i]) == Some(TestHosts[i])
    requires Enumerates(rangeOrder, TestCounts.Keys)
    ensures report == Expected
  {
    var s := new Service(blake2b, urlParse, listenAddr);
    var results := ShortenAll(s, TestUrls, TestHosts);
    assert [] + TestHosts == TestHosts;
    TestHostsDistinct();
    var gh, li, yt, go := "github.com", "linkedin.com", "youtube.com", "gobyexample.com";
    assert TestHosts == [gh, li, li, li, yt, yt, yt, yt, go, gh];
    TallyOfRequests(gh, li, yt, go);
    assert s.metrics.counts == TestCounts;
    report := s.Metrics(rangeOrder);
    WorkloadReport(rangeOrder);
  }

  /** The store after `db.Store` of each URL under its derived key, in order. */
  function StoreAll(db: map<string, string>, blake2b: KeyedHash, urls: seq<string>): (r: map<string, string>)
    ensures forall u | u in urls :: DeriveKey(blake2b, u) in r
    ensures forall key | key in db :: key in r
    ensures urls != [] ==> r[DeriveKey(blake2b, urls[|urls| - 1])] == urls[|urls| - 1]
    ensures KeyedByDigest(blake2b, db) ==> KeyedByDigest(blake2b, r)
  {
    if urls == [] then db
    else
      var last := urls[|urls| - 1];
      StoreAll(db, blake2b, urls[..|urls| - 1])[DeriveKey(blake2b, last) := last]
  }

  /** Shorten every URL of a batch in turn, each one parsing to its host:
      every request succeeds with the short URL of its key, the store holds
      every URL's key, and the counters record the hosts in request order. */
  method ShortenAll(s: Service, urls: seq<string>, hosts: seq<string>) returns (results: seq<Result<string, ShortenError>>)
    requires s.Valid()
    requires |hosts| == |urls| && forall i | 0 <= i < |urls| :: s.urlParse(urls[i]) == Some(hosts[i])
    modifies s, s.metrics
    ensures s.Valid()
    ensures |results| == |urls|
    ensures results == ShortResults(s.listenAddr, s.blake2b, urls)
    ensures s.db == StoreAll(old(s.db), s.blake2b, urls)
    ensures s.metrics.requests == old(s.metrics.requests) + hosts
    ensures s.metrics.counts == Tally(old(s.metrics.requests) + hosts)
  {
    results := [];
    ghost var db0, requests0 := s.db, s.metrics.requests;
    var i := 0;
    while i < |urls|
      invariant i <= |urls|
      invariant Shortened(s, db0, requests0, urls, hosts, i, results)
    {
      results := ShortenNext(s, db0, requests0, urls, hosts, i, results);
      i := i + 1;
    }
    assert urls[..i] == urls && hosts[..i] == hosts;
  }

  /** The state after the first i requests of a batch: the service is
      valid, the answers so far are the short URLs, the store and the
      counters have taken those requests in order. */
  ghost predicate Shortened(s: Service, db0: map<string, string>, requests0: seq<string>,
                            urls: seq<string>, hosts: seq<string>, i: nat,
                            results: seq<Result<string, ShortenError>>)
    reads s, s.metrics
  {
    && i <= |urls| && i <= |hosts|
    && s.Valid()
    && results == ShortResults(s.listenAddr, s.blake2b, urls[..i])
    && s.db == StoreAll(db0, s.blake2b, urls[..i])
    && s.metrics.requests == requests0 + hosts[..i]
    && s.metrics.counts == Tally(requests0 + hosts[..i])
  }

  /** The i-th request of a batch, one more turn of the loop of ShortenAll. */
  method ShortenNext(s: Service, ghost db0: map<string, string>, ghost requests0: seq<string>,
                     urls: seq<string>, hosts: seq<string>, i: nat,
                     results: seq<Result<string, ShortenError>>)
    returns (next: seq<Result<string, ShortenError>>)
    requires i < |urls| && i < |hosts| && s.urlParse(urls[i]) == Some(hosts[i])
    requires Shortened(s, db0, requests0, urls, hosts, i, results)
    modifies s, s.metrics
    ensures Shortened(s, db0, requests0, urls, hosts, i + 1, next)
  {
    AppendNext(requests0, hosts, i);
    StoreAllNext(db0, s.blake2b, urls, i);
    ShortResultsNext(s.listenAddr, s.blake2b, urls, i);
    TallySnoc(requests0 + hosts[..i], hosts[i]);
    var r := s.Shorten(urls[i]);
    next := results + [r];
  }

  /** The answers of successful shorten requests for a batch of URLs. */
  function ShortResults(listenAddr: string, blake2b: KeyedHash, urls: seq<string>): seq<Result<string, ShortenError>> {
    seq(|urls|, i requires 0 <= i < |urls| => Success(ShortUrl(listenAddr, DeriveKey(blake2b, urls[i]))))
  }

  /** One answer per URL of the batch, each a short URL whose route carries
      that URL's key, so every short URL of ShortenAll resolves through it. */
  lemma ShortResultsRoute(listenAddr: string, blake2b: KeyedHash, urls: seq<string>)
    ensures |ShortResults(listenAddr, blake2b, urls)| == |urls|
    ensures forall i | 0 <= i < |urls| ::
      ShortResults(listenAddr, blake2b, urls)[i].Success?
      && BlurbOf(listenAddr, ShortResults(listenAddr, blake2b, urls)[i].value) == Some(DeriveKey(blake2b, urls[i]))
  {
  }

  lemma ShortResultsNext(listenAddr: string, blake2b: KeyedHash, urls: seq<string>, i: nat)
    requires i < |urls|
    ensures ShortResults(listenAddr, blake2b, urls[..i + 1])
         == ShortResults(listenAddr, blake2b, urls[..i]) + [Success(ShortUrl(listenAddr, DeriveKey(blake2b, urls[i])))]
  {
    var longer, shorter := ShortResults(listenAddr, blake2b, urls[..i + 1]), ShortResults(listenAddr, blake2b, urls[..i]);
    forall j | 0 <= j < i ensures longer[j] == shorter[j] {
      assert urls[..i + 1][j] == urls[..i][j];
    }
  }

  lemma StoreAllNext(db: map<string, string>, blake2b: KeyedHash, urls: seq<string>, i: nat)
    requires i < |urls|
    ensures StoreAll(db, blake2b, urls[..i + 1])
         == StoreAll(db, blake2b, urls[..i])[DeriveKey(blake2b, urls[i]) := urls[i]]
  {
    assert urls[..i + 1][..i] == urls[..i];
  }

  lemma AppendNext(a: seq<string>, s: seq<string>, i: nat)
    requires i < |s|
    ensures a + s[..i + 1] == a + s[..i] + [s[i]]
  {
    assert s[..i + 1] == s[..i] + [s[i]];
  }
}
