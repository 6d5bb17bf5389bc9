/** The shorten, resolve and metrics operations of handlers.go with the HTTP
    layer removed: the short-key store `db`, the host counters `metrics`,
    and the three handlers as methods. */
module Shortener {
  import opened Wrappers
  import opened KeyDerivation
  import opened Ranking
  import opened Counters

  /** The one way a shorten request fails once its JSON body is bound:
      `url.Parse` returns an error (HTTP 400). */
  datatype ShortenError = InvalidUrl

  /** What the `/long/:blurb` route takes as the key of a short URL of this
      service: the rest of the URL after its fixed prefix. */
  function BlurbOf(listenAddr: string, u: string): Option<string> {
    var prefix := "http://" + listenAddr + "/long/";
    if prefix <= u then Some(u[|prefix|..]) else None
  }

  /** The short URL ShortHandler answers with, `"http://%s/long/%s"`. The
      route reads back exactly the key it carries. */
  function ShortUrl(listenAddr: string, key: string): (u: string)
    ensures BlurbOf(listenAddr, u) == Some(key)
  {
    var u := "http://" + listenAddr + "/long/" + key;
    assert u[|"http://" + listenAddr + "/long/"|..] == key;
    u
  }

  /** Every URL of the store sits under the key derived from it. */
  ghost predicate KeyedByDigest(blake2b: KeyedHash, db: map<string, string>) {
    forall key | key in db :: DeriveKey(blake2b, db[key]) == key
  }

  /** Storing a URL under its own derived key keeps the store keyed by digest. */
  lemma StoreKeepsKeyed(blake2b: KeyedHash, db: map<string, string>, url: string)
    requires KeyedByDigest(blake2b, db)
    ensures KeyedByDigest(blake2b, db[DeriveKey(blake2b, url) := url])
  {
  }

  class Service {
    /** Keyed BLAKE2b-256. */
    const blake2b: KeyedHash
    /** `url.Parse`, reduced to the host of the parsed URL or None on an error. */
    const urlParse: string -> Option<string>
    /** `ServerListenAddr`, the address placed after `http://` in short URLs. */
    const listenAddr: string
    /** The short-key store (`db`). */
    var db: map<string, string>
    /** The host counters (`metrics`). */
    const metrics: CounterMap

    /** Every stored URL sits under its own derived key, and the counters
        count the successful shorten requests per host. */
    ghost predicate Valid()
      reads this, metrics
    {
      && metrics.Valid()
      && KeyedByDigest(blake2b, db)
    }

    constructor (blake2b: KeyedHash, urlParse: string -> Option<string>, listenAddr: string)
      ensures Valid() && fresh(metrics)
      ensures this.blake2b == blake2b && this.urlParse == urlParse && this.listenAddr == listenAddr
      ensures db == map[] && metrics.counts == map[] && metrics.requests == []
    {
      this.blake2b := blake2b;
      this.urlParse := urlParse;
      this.listenAddr := listenAddr;
      db := map[];
      metrics := new CounterMap();
    }

    /** ShortHandler. A URL that does not parse changes nothing. Otherwise
        the URL is stored under its derived key (overwriting what was there),
        the host's counter goes up by one and the short URL is returned. */
    method Shorten(url: string) returns (r: Result<string, ShortenError>)
      requires Valid()
      modifies this, metrics
      ensures Valid()
      ensures urlParse(url).None? ==>
        && r == Failure(InvalidUrl)
        && db == old(db)
        && metrics.counts == old(metrics.counts)
        && metrics.requests == old(metrics.requests)
      ensures urlParse(url).Some? ==>
        var key, host := DeriveKey(blake2b, url), urlParse(url).value;
        && r == Success(ShortUrl(listenAddr, key))
        && db == old(db)[key := url]
        && metrics.counts == Bump(old(metrics.counts), host)
        && metrics.requests == old(metrics.requests) + [host]
      ensures (urlParse(url).Some? && DeriveKey(blake2b, url) in old(db)
               && old(db)[DeriveKey(blake2b, url)] == url) ==> db == old(db)
    {
      var parsed := urlParse(url);
      if parsed.None? {
        return Failure(InvalidUrl);
      }
      var key := DeriveKey(blake2b, url);
      var shortUrl := ShortUrl(listenAddr, key);
      Store(key, url);
      r := Success(shortUrl);
      metrics.Increment(parsed.value);
    }

    /** `db.Store`: put the URL under its derived key, replacing any URL
        stored there before. */
    method Store(key: string, url: string)
      requires Valid() && key == DeriveKey(blake2b, url)
      modifies this
      ensures Valid()
      ensures db == old(db)[key := url]
      ensures key in old(db) && old(db)[key] == url ==> db == old(db)
    {
      StoreKeepsKeyed(blake2b, db, url);
      if key in db && db[key] == url {
        assert db[key := url] == db;
      }
      db := db[key := url];
    }

    /** LongHandler: the stored URL for a key, or None (HTTP 404). A found
        target always derives back to the key it was found under. */
    method Resolve(blurb: string) returns (target: Option<string>)
      requires Valid()
      ensures target.Some? <==> blurb in db
      ensures target.Some? ==> target.value == db[blurb] && DeriveKey(blake2b, target.value) == blurb
    {
      if blurb in db {
        target := Some(db[blurb]);
      } else {
        target := None;
      }
    }

    /** MetricsHandler: flatten the counters in the order Range visits them,
        sort them stably by count, highest first, and print at most three
        lines. */
    method Metrics(rangeOrder: seq<string>) returns (report: string)
      requires Enumerates(rangeOrder, metrics.counts.Keys)
      ensures report == Render(TopEntries(Flatten(rangeOrder, metrics.counts)))
    {
      var flat := FlattenCounters(rangeOrder, metrics.counts);
      var sorted := SortByCountDesc(flat);
      report := WriteTop(sorted);
    }
  }

  /** The Range callback of MetricsHandler: one entry per visited counter,
      appended in visit order. */
  method FlattenCounters(rangeOrder: seq<string>, counts: map<string, nat>) returns (flat: seq<Entry>)
    requires forall x | x in rangeOrder :: x in counts
    ensures flat == Flatten(rangeOrder, counts)
  {
    flat := [];
    var n := 0;
    while n < |rangeOrder|
      invariant 0 <= n <= |rangeOrder|
      invariant flat == Flatten(rangeOrder[..n], counts)
    {
      var name := rangeOrder[n];
      flat := flat + [Entry(name, counts[name])];
      n := n + 1;
      assert rangeOrder[..n][..n - 1] == rangeOrder[..n - 1];
    }
    assert rangeOrder[..n] == rangeOrder;
  }

  /** The output loop of MetricsHandler: one line per entry, stopping at the
      fourth. */
  method WriteTop(sorted: seq<Entry>) returns (report: string)
    ensures report == Render(if |sorted| <= TopN then sorted else sorted[..TopN])
  {
    report := "";
    var i := 0;
    while i < |sorted|
      invariant 0 <= i <= |sorted| && i <= TopN
      invariant report == Render(sorted[..i])
    {
      if i == TopN {
        break;
      }
      report := report + Line(sorted[i]);
      i := i + 1;
      assert sorted[..i][..i - 1] == sorted[..i - 1];
    }
    assert i == |sorted| ==> sorted[..i] == sorted;
  }
}
