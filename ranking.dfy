/** The top-3 report of the metrics endpoint: the counters flattened into a
    list in the map's iteration order, sorted by count, highest first, by a
    stable sort, cut to three entries and printed one per line. */
module Ranking {
  import opened Decimal

  /** One flattened counter: a host and its count. */
  datatype Entry = Entry(name: string, count: nat)

  /** The report lists at most this many hosts. */
  const TopN: nat := 3

  predicate SortedByCountDesc(s: seq<Entry>) {
    forall i, j | 0 <= i < j < |s| :: s[i].count >= s[j].count
  }

  /** Puts e in front of the first entry whose count is not greater than its
      own, so that e stays ahead of the entries of equal count. */
  function Insert(e: Entry, s: seq<Entry>): (r: seq<Entry>)
    ensures |r| == |s| + 1
  {
    if s == [] || e.count >= s[0].count then [e] + s else [s[0]] + Insert(e, s[1..])
  }

  lemma {:induction false} InsertPermutes(e: Entry, s: seq<Entry>)
    ensures multiset(Insert(e, s)) == multiset(s) + multiset{e}
  {
    if s != [] && e.count < s[0].count {
      InsertPermutes(e, s[1..]);
      assert s == [s[0]] + s[1..];
    }
  }

  lemma {:induction false} InsertSorted(e: Entry, s: seq<Entry>)
    requires SortedByCountDesc(s)
    ensures SortedByCountDesc(Insert(e, s))
  {
    if s != [] && e.count < s[0].count {
      var t := Insert(e, s[1..]);
      InsertSorted(e, s[1..]);
      InsertPermutes(e, s[1..]);
      forall k | 0 <= k < |t| ensures t[k].count <= s[0].count {
        assert t[k] in multiset(t);
        assert t[k] == e || t[k] in multiset(s[1..]);
      }
      ConsSorted(s[0], t);
    }
  }

  /** An entry that counts at least as much as every entry of a sorted list
      can go in front of it. */
  lemma ConsSorted(x: Entry, t: seq<Entry>)
    requires SortedByCountDesc(t)
    requires forall k | 0 <= k < |t| :: t[k].count <= x.count
    ensures SortedByCountDesc([x] + t)
  {
    var r := [x] + t;
    forall i, j | 0 <= i < j < |r| ensures r[i].count >= r[j].count {
      assert r[j] == t[j - 1];
      if i > 0 {
        assert r[i] == t[i - 1];
      }
    }
  }

  /** The model of `sort.SliceStable` with the ordering `Count > Count`:
      insertion sort, each entry placed ahead of the later entries of equal
      count. */
  function SortByCountDesc(s: seq<Entry>): (r: seq<Entry>)
    ensures |r| == |s|
  {
    if s == [] then [] else Insert(s[0], SortByCountDesc(s[1..]))
  }

  /** The sort is a permutation of its input. */
  lemma {:induction false} SortPermutes(s: seq<Entry>)
    ensures multiset(SortByCountDesc(s)) == multiset(s)
  {
    if s != [] {
      SortPermutes(s[1..]);
      InsertPermutes(s[0], SortByCountDesc(s[1..]));
      assert s == [s[0]] + s[1..];
    }
  }

  lemma {:induction false} SortSorted(s: seq<Entry>)
    ensures SortedByCountDesc(SortByCountDesc(s))
  {
    if s != [] {
      SortSorted(s[1..]);
      InsertSorted(s[0], SortByCountDesc(s[1..]));
    }
  }

  /** The entries of s whose count is c, in the order of s. */
  function WithCount(s: seq<Entry>, c: int): seq<Entry> {
    if s == [] then [] else (if s[0].count == c then [s[0]] else []) + WithCount(s[1..], c)
  }

  /** r keeps the entries of s and, among those of equal count, their order.
      As r is a permutation of s exactly when this holds for every count, it
      states "stable permutation" in one predicate. */
  ghost predicate SameTies(s: seq<Entry>, r: seq<Entry>) {
    forall c :: WithCount(s, c) == WithCount(r, c)
  }

  lemma {:induction false} WithCountAppend(a: seq<Entry>, b: seq<Entry>, c: int)
    ensures WithCount(a + b, c) == WithCount(a, c) + WithCount(b, c)
  {
    if a != [] {
      WithCountAppend(a[1..], b, c);
      assert (a + b)[0] == a[0];
      assert (a + b)[1..] == a[1..] + b;
    } else {
      assert a + b == b;
    }
  }

  lemma {:induction false} WithCountMembers(s: seq<Entry>, c: int)
    ensures forall x :: x in WithCount(s, c) <==> x in s && x.count == c
  {
    if s != [] {
      WithCountMembers(s[1..], c);
      assert s == [s[0]] + s[1..];
    }
  }

  lemma {:induction false} InsertTies(e: Entry, t: seq<Entry>, c: int)
    ensures WithCount(Insert(e, t), c) == (if e.count == c then [e] else []) + WithCount(t, c)
  {
    if t == [] || e.count >= t[0].count {
      assert ([e] + t)[1..] == t;
    } else {
      InsertTies(e, t[1..], c);
      var r := Insert(e, t);
      var rest := WithCount(t[1..], c);
      assert r[0] == t[0] && r[1..] == Insert(e, t[1..]);
      if e.count == c {
        assert WithCount(r, c) == [e] + rest;
        assert WithCount(t, c) == rest;
      } else if t[0].count == c {
        assert WithCount(r, c) == [t[0]] + rest;
        assert WithCount(t, c) == [t[0]] + rest;
      } else {
        assert WithCount(r, c) == rest;
        assert WithCount(t, c) == rest;
      }
    }
  }

  /** The sort is stable: entries of equal count keep their input order. */
  lemma {:induction false} SortKeepsTies(s: seq<Entry>)
    ensures SameTies(s, SortByCountDesc(s))
  {
    if s != [] {
      SortKeepsTies(s[1..]);
      SortSorted(s[1..]);
      forall c ensures WithCount(s, c) == WithCount(SortByCountDesc(s), c) {
        InsertTies(s[0], SortByCountDesc(s[1..]), c);
      }
    }
  }

  lemma SortedHeadIsMax(r: seq<Entry>, x: Entry)
    requires SortedByCountDesc(r) && x in r
    ensures x.count <= r[0].count
  {
    var i :| 0 <= i < |r| && r[i] == x;
  }

  lemma HeadHasTies(r: seq<Entry>)
    requires r != []
    ensures WithCount(r, r[0].count) != [] && WithCount([], r[0].count) == []
  {
  }

  /** Two sorted lists with the same ties are equal. */
  lemma {:induction false} SortedSameTiesEqual(r1: seq<Entry>, r2: seq<Entry>)
    requires SortedByCountDesc(r1) && SortedByCountDesc(r2)
    requires SameTies(r1, r2)
    ensures r1 == r2
    decreases |r1|
  {
    if r1 == [] && r2 != [] {
      HeadHasTies(r2);
      assert false;
    } else if r1 != [] && r2 == [] {
      HeadHasTies(r1);
      assert false;
    } else if r1 != [] {
      SameHead(r1, r2);
      SameTiesTail(r1, r2);
      SortedSameTiesEqual(r1[1..], r2[1..]);
      assert r1 == [r1[0]] + r1[1..] && r2 == [r2[0]] + r2[1..];
    }
  }

  /** Two non-empty sorted lists with the same ties start alike: both heads
      have the top count, and each is the first entry of that count. */
  lemma SameHead(r1: seq<Entry>, r2: seq<Entry>)
    requires r1 != [] && r2 != []
    requires SortedByCountDesc(r1) && SortedByCountDesc(r2)
    requires SameTies(r1, r2)
    ensures r1[0] == r2[0]
  {
    var c1, c2 := r1[0].count, r2[0].count;
    WithCountMembers(r1, c2);
    WithCountMembers(r2, c1);
    assert r1[0] in WithCount(r1, c1);
    assert r2[0] in WithCount(r2, c2);
    SortedHeadIsMax(r2, r1[0]);
    SortedHeadIsMax(r1, r2[0]);
    assert c1 == c2;
    assert WithCount(r1, c1)[0] == r1[0] && WithCount(r2, c1)[0] == r2[0];
  }

  /** Dropping an equal head keeps the ties equal. */
  lemma SameTiesTail(r1: seq<Entry>, r2: seq<Entry>)
    requires r1 != [] && r2 != [] && r1[0] == r2[0]
    requires SameTies(r1, r2)
    ensures SameTies(r1[1..], r2[1..])
  {
    forall c ensures WithCount(r1[1..], c) == WithCount(r2[1..], c) {
      var h := if r1[0].count == c then [r1[0]] else [];
      var w1, w2 := WithCount(r1[1..], c), WithCount(r2[1..], c);
      assert WithCount(r1, c) == h + w1;
      assert WithCount(r2, c) == h + w2;
      assert WithCount(r1, c) == WithCount(r2, c);
      assert (h + w1)[|h|..] == w1 && (h + w2)[|h|..] == w2;
    }
  }

  /** Any stable sort by count, highest first, gives SortByCountDesc: the
      model does not depend on the algorithm behind `sort.SliceStable`. */
  lemma StableSortIsUnique(s: seq<Entry>, r: seq<Entry>)
    requires SortedByCountDesc(r) && SameTies(s, r)
    ensures r == SortByCountDesc(s)
  {
    SortSorted(s);
    SortKeepsTies(s);
    SortedSameTiesEqual(r, SortByCountDesc(s));
  }

  /** The entries the report lists: the first TopN of the sorted list. */
  function TopEntries(flat: seq<Entry>): (r: seq<Entry>)
    ensures |r| == if |flat| <= TopN then |flat| else TopN
    ensures r <= SortByCountDesc(flat)
  {
    var sorted := SortByCountDesc(flat);
    if |sorted| <= TopN then sorted else sorted[..TopN]
  }

  /** The report holds at most TopN entries, highest count first, and is a
      prefix of the stably sorted list. */
  lemma RankingShape(flat: seq<Entry>)
    ensures |TopEntries(flat)| == if |flat| <= TopN then |flat| else TopN
    ensures TopEntries(flat) <= SortByCountDesc(flat)
    ensures SortedByCountDesc(TopEntries(flat))
  {
    SortSorted(flat);
  }

  /** The listed entries are entries of the flattened list, and no entry left
      out has a higher count than a listed one. */
  lemma RankingIsTop(flat: seq<Entry>)
    ensures multiset(TopEntries(flat)) <= multiset(flat)
    ensures forall x, y | x in TopEntries(flat) && y in multiset(flat) - multiset(TopEntries(flat)) :: y.count <= x.count
  {
    var sorted := SortByCountDesc(flat);
    var r := TopEntries(flat);
    var rest := sorted[|r|..];
    SortSorted(flat);
    SortPermutes(flat);
    assert sorted == r + rest;
    assert multiset(sorted) == multiset(r) + multiset(rest);
    SortedSplit(r, rest);
    forall x, y | x in r && y in multiset(flat) - multiset(r) ensures y.count <= x.count {
      assert y in multiset(rest);
    }
  }

  /** In a list sorted by count, every entry of a prefix counts at least as
      much as every entry after it. */
  lemma SortedSplit(r: seq<Entry>, rest: seq<Entry>)
    requires SortedByCountDesc(r + rest)
    ensures forall x, y | x in r && y in rest :: y.count <= x.count
  {
    forall x, y | x in r && y in rest ensures y.count <= x.count {
      var i :| 0 <= i < |r| && r[i] == x;
      var j :| 0 <= j < |rest| && rest[j] == y;
      assert (r + rest)[i] == x && (r + rest)[|r| + j] == y;
    }
  }

  /** Among equal counts the listed entries are the first ones of the
      flattened list, in its order. */
  lemma RankingKeepsTies(flat: seq<Entry>)
    ensures forall c :: WithCount(TopEntries(flat), c) <= WithCount(flat, c)
  {
    var sorted := SortByCountDesc(flat);
    var r := TopEntries(flat);
    var rest := sorted[|r|..];
    SortKeepsTies(flat);
    assert sorted == r + rest;
    forall c ensures WithCount(r, c) <= WithCount(flat, c) {
      WithCountAppend(r, rest, c);
    }
  }

  /** One line of the report, as `"%s: %d\n"` prints it. */
  function Line(e: Entry): (line: string)
    ensures e.name <= line && |line| > |e.name| && line[|line| - 1] == '\n'
  {
    e.name + ": " + NatToString(e.count) + "\n"
  }

  /** A line reads back as the host, ": ", the digits of the count and a
      newline. */
  lemma LineParses(e: Entry)
    ensures var line := Line(e);
      && |line| >= |e.name| + 4
      && line[|e.name|..|e.name| + 2] == ": "
      && IsDigits(line[|e.name| + 2..|line| - 1])
      && DigitsValue(line[|e.name| + 2..|line| - 1]) == e.count
  {
    var digits := NatToString(e.count);
    NatToStringRoundTrip(e.count);
    assert Line(e)[|e.name| + 2..|Line(e)| - 1] == digits;
  }

  /** The output of the print loop: the lines of the entries, in order. */
  function Render(es: seq<Entry>): (out: string)
    ensures |out| >= 4 * |es|
    ensures es != [] ==> out[|out| - 1] == '\n'
    ensures es == [] ==> out == []
  {
    if es == [] then "" else Render(es[..|es| - 1]) + Line(es[|es| - 1])
  }

  /** When no host contains a newline, the report has one line per entry. */
  lemma {:induction false} RenderLineCount(es: seq<Entry>)
    requires forall i | 0 <= i < |es| :: '\n' !in es[i].name
    ensures multiset(Render(es))['\n'] == |es|
  {
    if es != [] {
      var e := es[|es| - 1];
      RenderLineCount(es[..|es| - 1]);
      LineNewlines(e);
      assert multiset(Render(es)) == multiset(Render(es[..|es| - 1])) + multiset(Line(e));
    }
  }

  /** A line holds exactly one newline when its host holds none. */
  lemma LineNewlines(e: Entry)
    requires '\n' !in e.name
    ensures multiset(Line(e))['\n'] == 1
  {
    var digits := NatToString(e.count);
    assert forall i | 0 <= i < |digits| :: digits[i] != '\n';
    assert '\n' !in digits;
    assert multiset(Line(e)) == multiset(e.name) + multiset(": ") + multiset(digits) + multiset("\n");
  }

  /** `order` lists every key of the counter map exactly once: the visit
      order of `sync.Map.Range`, which Go leaves unspecified. */
  predicate Enumerates(order: seq<string>, keys: set<string>) {
    && (forall i, j | 0 <= i < j < |order| :: order[i] != order[j])
    && (forall x | x in order :: x in keys)
    && (forall x | x in keys :: x in order)
  }

  /** The flattened list the Range callback appends, in the visit order. */
  function Flatten(order: seq<string>, counts: map<string, nat>): (flat: seq<Entry>)
    requires forall x | x in order :: x in counts
    ensures |flat| == |order|
    ensures forall i | 0 <= i < |order| :: flat[i] == Entry(order[i], counts[order[i]])
  {
    if order == [] then []
    else Flatten(order[..|order| - 1], counts) + [Entry(order[|order| - 1], counts[order[|order| - 1]])]
  }

  /** No two hosts share a count. */
  ghost predicate DistinctCounts(counts: map<string, nat>) {
    forall a, b | a in counts && b in counts && a != b :: counts[a] != counts[b]
  }

  /** With distinct counts, the entries of count c in the flattened list are
      the one host of that count, whatever the visit order. */
  lemma {:induction false} FlattenTies(order: seq<string>, counts: map<string, nat>, c: int)
    requires forall x | x in order :: x in counts
    requires forall i, j | 0 <= i < j < |order| :: order[i] != order[j]
    requires DistinctCounts(counts)
    ensures (forall k | k in order :: counts[k] != c) ==> WithCount(Flatten(order, counts), c) == []
    ensures forall k | k in order && counts[k] == c :: WithCount(Flatten(order, counts), c) == [Entry(k, c)]
  {
    if order != [] {
      var init, last := order[..|order| - 1], order[|order| - 1];
      FlattenTies(init, counts, c);
      var e := Entry(last, counts[last]);
      WithCountAppend(Flatten(init, counts), [e], c);
      assert WithCount([e], c) == if counts[last] == c then [e] else [];
      SplitLast(order);
    }
  }

  /** A list without repeats is its last element after a list without
      repeats that does not hold it. */
  lemma SplitLast(order: seq<string>)
    requires order != []
    requires forall i, j | 0 <= i < j < |order| :: order[i] != order[j]
    ensures forall k | k in order :: k in order[..|order| - 1] || k == order[|order| - 1]
    ensures order[|order| - 1] !in order[..|order| - 1]
  {
    var init, last := order[..|order| - 1], order[|order| - 1];
    assert order == init + [last];
    forall k | k in init ensures k != last {
      var i :| 0 <= i < |init| && init[i] == k;
      assert order[i] == k;
    }
  }

  /** When no two hosts share a count, the report does not depend on the
      order in which `sync.Map.Range` visits the counters. */
  lemma ReportIgnoresRangeOrder(o1: seq<string>, o2: seq<string>, counts: map<string, nat>)
    requires Enumerates(o1, counts.Keys) && Enumerates(o2, counts.Keys)
    requires DistinctCounts(counts)
    ensures TopEntries(Flatten(o1, counts)) == TopEntries(Flatten(o2, counts))
  {
    var f1, f2 := Flatten(o1, counts), Flatten(o2, counts);
    forall c ensures WithCount(f1, c) == WithCount(f2, c) {
      FlattenTies(o1, counts, c);
      FlattenTies(o2, counts, c);
      if k :| k in counts && counts[k] == c {
        assert k in o1 && k in o2;
      }
    }
    SortSorted(f1);
    SortKeepsTies(f1);
    StableSortIsUnique(f2, SortByCountDesc(f1));
  }
}
