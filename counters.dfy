/** The per-host request counters: a map from host to counter, bumped by
    `IncrementCounter` on every successful shorten request. */
module Counters {

  /** The current count of key, zero when it has no counter yet. */
  function CountOf(counts: map<string, nat>, key: string): nat {
    if key in counts then counts[key] else 0
  }

  /** One IncrementCounter on a snapshot of the counters: the key gets a
      counter if it had none, that counter goes up by one, and no other
      counter changes. */
  function Bump(counts: map<string, nat>, key: string): (r: map<string, nat>)
    ensures r.Keys == counts.Keys + {key}
    ensures r[key] == CountOf(counts, key) + 1
    ensures forall k | k in counts && k != key :: r[k] == counts[k]
  {
    counts[key := CountOf(counts, key) + 1]
  }

  /** The counters a sequence of increments leaves behind, starting from no
      counters: one load-or-store-then-add per element. */
  function Tally(requests: seq<string>): (counts: map<string, nat>)
    ensures requests != [] ==> requests[|requests| - 1] in counts
  {
    if requests == [] then map[]
    else
      var before := Tally(requests[..|requests| - 1]);
      var key := requests[|requests| - 1];
      Bump(before, key)
  }

  lemma TallySnoc(requests: seq<string>, key: string)
    ensures Tally(requests + [key]) == Bump(Tally(requests), key)
  {
    assert (requests + [key])[..|requests|] == requests;
  }

  /** The tally has a counter exactly for the keys that were incremented, and
      each counter holds the number of times its key was. */
  lemma {:induction false} TallyCounts(requests: seq<string>)
    ensures forall k :: k in Tally(requests) <==> k in requests
    ensures forall k | k in Tally(requests) :: Tally(requests)[k] == multiset(requests)[k]
  {
    if requests != [] {
      var init, key := requests[..|requests| - 1], requests[|requests| - 1];
      TallyCounts(init);
      assert requests == init + [key];
      assert multiset(requests) == multiset(init) + multiset{key};
    }
  }

  class CounterMap {
    /** The counters (`sync.Map` of `*atomic.Int64`). */
    var counts: map<string, nat>
    /** Every key ever incremented, in order, one element per call. */
    ghost var requests: seq<string>

    /** The counters are those the increments so far leave behind (by
        TallyCounts: one counter per incremented key, holding its number of
        increments). */
    ghost predicate Valid()
      reads this
    {
      counts == Tally(requests)
    }

    constructor ()
      ensures Valid()
      ensures counts == map[] && requests == []
    {
      counts := map[];
      requests := [];
    }

    /** `IncrementCounter`: load-or-store a zero counter, then add one. */
    method Increment(key: string)
      requires Valid()
      modifies this
      ensures Valid()
      ensures requests == old(requests) + [key]
      ensures counts == Bump(old(counts), key)
      ensures key !in old(counts) ==> counts[key] == 1
      ensures forall k | k in old(counts) :: k in counts && old(counts)[k] <= counts[k]
    {
      ghost var before := counts;
      if key !in counts {
        counts := counts[key := 0];
      }
      counts := counts[key := counts[key] + 1];
      assert counts == Bump(before, key);
      TallySnoc(requests, key);
      requests := requests + [key];
    }
  }
}
