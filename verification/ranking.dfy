/**
  Ranking the histogram (main.go:47-59, 195-209): its items are collected
  in Go's map iteration order, sorted by descending count with the unstable
  `sort.Sort`, and cut to the top N. Neither the iteration order nor the
  order of equal counts is fixed by Go, so a result is specified as any
  ordering of the items with non-increasing counts.
*/
module Ranking {
  import opened Base
  import opened Histogram

  /** `FirstnameCount` (main.go:48-51). */
  datatype Entry = Entry(firstname: string, count: int)

  /** The run-time failure of `final[0:cnt]` when `cnt` exceeds the slice's capacity. */
  datatype Panic = SliceBoundsOutOfRange(high: int, capacity: int)

  /** `FirstnameCounts.Less` (main.go:59): a larger count sorts first. */
  predicate Less(a: Entry, b: Entry) {
    a.count > b.count
  }

  /** What `sort.Sort` guarantees: no entry is Less than one placed before it. */
  predicate Sorted(es: seq<Entry>) {
    forall i, j :: 0 <= i < j < |es| ==> !Less(es[j], es[i])
  }

  function Names(es: seq<Entry>): (ns: seq<string>)
    ensures |ns| == |es| && forall i :: 0 <= i < |es| ==> ns[i] == es[i].firstname
  {
    seq(|es|, i requires 0 <= i < |es| => es[i].firstname)
  }

  /** `es` lists every item of `h`, each exactly once. */
  predicate ListsItems(h: Hist, es: seq<Entry>) {
    && (forall i :: 0 <= i < |es| ==> es[i].firstname in h && es[i].count == h[es[i].firstname])
    && Distinct(Names(es))
    && (forall k :: k in h ==> k in Names(es))
  }

  /** A possible value of `final` after `sort.Sort` (main.go:196-205). */
  predicate IsRanking(h: Hist, es: seq<Entry>) {
    ListsItems(h, es) && Sorted(es)
  }

  /** A possible order of Go's `range` over the map: every key once. */
  ghost predicate IsIteration(h: Hist, order: seq<string>) {
    Distinct(order) && forall k :: k in h <==> k in order
  }

  /** The loop at main.go:198-203: one entry per key, in iteration order. */
  function Collect(h: Hist, order: seq<string>): (es: seq<Entry>)
    requires IsIteration(h, order)
    ensures ListsItems(h, es)
  {
    var es := seq(|order|, i requires 0 <= i < |order| => Entry(order[i], h[order[i]]));
    assert Names(es) == order;
    es
  }

  /** Places one entry into a sorted list. */
  function Insert(e: Entry, es: seq<Entry>): (r: seq<Entry>)
    requires Sorted(es)
    ensures Sorted(r)
    ensures multiset(r) == multiset(es) + multiset{e}
    decreases |es|
  {
    if |es| == 0 then [e]
    else if !Less(es[0], e) then
      assert es == [es[0]] + es[1..];
      [e] + es
    else
      var tail := Insert(e, es[1..]);
      assert es == [es[0]] + es[1..];
      HeadBeforeTail(es[0], e, es[1..], tail);
      [es[0]] + tail
  }

  /** An entry ranked no lower than everything in `rest` and than `e` may lead their sorted merge. */
  lemma HeadBeforeTail(head: Entry, e: Entry, rest: seq<Entry>, tail: seq<Entry>)
    requires Sorted([head] + rest) && Sorted(tail) && !Less(e, head)
    requires multiset(tail) == multiset(rest) + multiset{e}
    ensures Sorted([head] + tail)
  {
    forall i | 0 <= i < |tail|
      ensures !Less(tail[i], head)
    {
      assert tail[i] in multiset(rest) + multiset{e} by {
        assert tail[i] in multiset(tail);
      }
      if tail[i] != e {
        assert tail[i] in multiset(rest);
        var j :| 0 <= j < |rest| && rest[j] == tail[i];
        var hr := [head] + rest;
        assert hr[0] == head && hr[j + 1] == rest[j];
        assert !Less(hr[j + 1], hr[0]);
      }
    }
    var r := [head] + tail;
    forall i, j | 0 <= i < j < |r|
      ensures !Less(r[j], r[i])
    {
      if i > 0 {
        assert r[i] == tail[i - 1] && r[j] == tail[j - 1];
      } else {
        assert r[j] == tail[j - 1];
      }
    }
  }

  /** A sort by descending count: one of the results `sort.Sort` may give. */
  function SortByCount(es: seq<Entry>): (r: seq<Entry>)
    ensures Sorted(r)
    ensures multiset(r) == multiset(es)
    decreases |es|
  {
    if |es| == 0 then []
    else
      assert es == es[..|es| - 1] + [es[|es| - 1]];
      Insert(es[|es| - 1], SortByCount(es[..|es| - 1]))
  }

  /** Rearranging a list of items keeps it a list of the same items. */
  lemma PermutationListsItems(h: Hist, a: seq<Entry>, b: seq<Entry>)
    requires ListsItems(h, a) && multiset(a) == multiset(b)
    ensures ListsItems(h, b)
  {
    forall i | 0 <= i < |b|
      ensures b[i].firstname in h && b[i].count == h[b[i].firstname]
    {
      assert b[i] in multiset(a);
    }
    forall k | k in h
      ensures k in Names(b)
    {
      var i :| 0 <= i < |a| && Names(a)[i] == k;
      assert a[i] in multiset(b);
      var j :| 0 <= j < |b| && b[j] == a[i];
      assert Names(b)[j] == k;
    }
    forall i, j | 0 <= i < j < |b|
      ensures Names(b)[i] != Names(b)[j]
    {
      if Names(b)[i] == Names(b)[j] {
        assert b[i] == b[j];
        RepeatedMultiplicity(b, i, j);
        EntriesDistinct(h, a);
        DistinctMultiplicity(a, b[i]);
        assert false;
      }
    }
  }

  lemma EntriesDistinct(h: Hist, es: seq<Entry>)
    requires ListsItems(h, es)
    ensures Distinct(es)
  {
    forall i, j | 0 <= i < j < |es|
      ensures es[i] != es[j]
    {
      assert Names(es)[i] != Names(es)[j];
    }
  }

  /** Collecting the map and sorting it yields a ranking, whatever the iteration order. */
  function Rank(h: Hist, order: seq<string>): (r: seq<Entry>)
    requires IsIteration(h, order)
    ensures IsRanking(h, r)
  {
    var es := Collect(h, order);
    var r := SortByCount(es);
    PermutationListsItems(h, es, r);
    r
  }

  /** Some order in which `range` can visit a set of keys: each key exactly once. */
  ghost function SomeIteration(keys: set<string>): (order: seq<string>)
    ensures Distinct(order)
    ensures forall k :: k in keys <==> k in order
    decreases keys
  {
    if keys == {} then []
    else
      var x :| x in keys;
      var rest := SomeIteration(keys - {x});
      assert x !in rest;
      [x] + rest
  }

  /** Every histogram has an iteration order, hence a ranking. */
  lemma RankingExists(h: Hist)
    ensures exists r :: IsRanking(h, r)
  {
    var order := SomeIteration(h.Keys);
    var r := Rank(h, order);
  }

  /** A list of the items of `h` has one entry per key. */
  lemma ListsItemsLength(h: Hist, es: seq<Entry>)
    requires ListsItems(h, es)
    ensures |es| == |h|
  {
    DistinctCardinality(Names(es));
    assert (set x | x in Names(es)) == h.Keys;
  }

  /**
    `if cnt > 0 { final = final[0:cnt] }` (main.go:207-209). The slice was
    made with capacity `len(firstnameHist)` and filled to exactly that
    length, so a bound beyond the length is beyond the capacity and panics.
  */
  function TopN(ranked: seq<Entry>, cnt: int): (r: Result<seq<Entry>, Panic>)
    ensures r.Ok? <==> cnt <= |ranked|
    ensures r.Ok? ==> |r.value| == (if cnt <= 0 then |ranked| else cnt)
    ensures r.Ok? ==> r.value == ranked[..|r.value|]
  {
    if cnt > 0 then
      if cnt <= |ranked| then Ok(ranked[0..cnt]) else Fail(SliceBoundsOutOfRange(cnt, |ranked|))
    else Ok(ranked)
  }

  /**
    What the cut keeps of a ranking: the whole ranking when `cnt <= 0`;
    otherwise `cnt` distinct items of the histogram, in non-increasing
    order, none with a smaller count than any item left out. It fails
    exactly when `cnt` exceeds the number of distinct names.
  */
  lemma TopNKeepsHighest(h: Hist, ranked: seq<Entry>, cnt: int)
    requires IsRanking(h, ranked)
    ensures TopN(ranked, cnt).Fail? <==> cnt > |h|
    ensures cnt <= 0 ==> TopN(ranked, cnt) == Ok(ranked)
    ensures TopN(ranked, cnt).Ok? ==>
      var kept := TopN(ranked, cnt).value;
      && |kept| == (if cnt <= 0 then |h| else cnt)
      && Sorted(kept)
      && Distinct(Names(kept))
      && (forall i :: 0 <= i < |kept| ==> kept[i].firstname in h && kept[i].count == h[kept[i].firstname])
      && (forall i, k :: 0 <= i < |kept| && k in h && k !in Names(kept) ==> h[k] <= kept[i].count)
  {
    ListsItemsLength(h, ranked);
    var r := TopN(ranked, cnt);
    if r.Ok? {
      var kept := r.value;
      assert Names(kept) == Names(ranked)[..|kept|];
      forall i, k | 0 <= i < |kept| && k in h && k !in Names(kept)
        ensures h[k] <= kept[i].count
      {
        var j :| 0 <= j < |ranked| && Names(ranked)[j] == k;
      }
    }
  }

  /** Sum of the counts of a list of entries. */
  function CountSum(es: seq<Entry>): int
    decreases |es|
  {
    if |es| == 0 then 0 else CountSum(es[..|es| - 1]) + es[|es| - 1].count
  }

  /** Sum over the names of `order` of their multiplicity in `m`. */
  function MultiplicitySum(order: seq<string>, m: multiset<string>): nat
    decreases |order|
  {
    if |order| == 0 then 0 else MultiplicitySum(order[..|order| - 1], m) + m[order[|order| - 1]]
  }

  lemma {:induction false} MultiplicitySumEmpty(order: seq<string>)
    ensures MultiplicitySum(order, multiset{}) == 0
    decreases |order|
  {
    if |order| > 0 {
      MultiplicitySumEmpty(order[..|order| - 1]);
    }
  }

  lemma {:induction false} MultiplicitySumAdd(order: seq<string>, m: multiset<string>, x: string)
    ensures MultiplicitySum(order, m + multiset{x}) == MultiplicitySum(order, m) + multiset(order)[x]
    decreases |order|
  {
    if |order| > 0 {
      var init := order[..|order| - 1];
      MultiplicitySumAdd(init, m, x);
      assert order == init + [order[|order| - 1]];
    }
  }

  /** Summing the multiplicities of `ks` over a list naming each of its keys once gives |ks|. */
  lemma {:induction false} MultiplicitySumCovers(order: seq<string>, ks: seq<string>)
    requires Distinct(order)
    requires forall x :: x in ks ==> x in order
    ensures MultiplicitySum(order, multiset(ks)) == |ks|
    decreases |ks|
  {
    if |ks| == 0 {
      MultiplicitySumEmpty(order);
    } else {
      var init := ks[..|ks| - 1];
      var x := ks[|ks| - 1];
      assert ks == init + [x];
      MultiplicitySumCovers(order, init);
      MultiplicitySumAdd(order, multiset(init), x);
      DistinctMultiplicity(order, x);
    }
  }

  lemma {:induction false} CountSumIsMultiplicitySum(es: seq<Entry>, ks: seq<string>)
    requires forall i :: 0 <= i < |es| ==> es[i].count == multiset(ks)[es[i].firstname]
    ensures CountSum(es) == MultiplicitySum(Names(es), multiset(ks))
    decreases |es|
  {
    if |es| > 0 {
      var init := es[..|es| - 1];
      CountSumIsMultiplicitySum(init, ks);
      assert Names(es)[..|es| - 1] == Names(init);
    }
  }

  /** The counts of any ranking of a histogram add up to the number of observed keys. */
  lemma RankingTotal(ks: seq<string>, es: seq<Entry>)
    requires ListsItems(Tally(map[], ks), es)
    ensures CountSum(es) == |ks|
  {
    var h := Tally(map[], ks);
    TallyCounts(ks);
    forall i | 0 <= i < |es|
      ensures es[i].count == multiset(ks)[es[i].firstname]
    {
      assert Count(h, es[i].firstname) == multiset(ks)[es[i].firstname];
    }
    CountSumIsMultiplicitySum(es, ks);
    forall x | x in ks
      ensures x in Names(es)
    {
      assert x in h;
    }
    MultiplicitySumCovers(Names(es), ks);
  }
}
