/**
 * `RestaurantService.advancedSearch`: filter the catalog, push the survivors into a
 * priority queue ordered by the restaurant comparator, then poll at most `limit`
 * of them (5 when no limit is given).
 *
 * The catalog is the list the data loader holds; it is passed in as a value, so the
 * search cannot change it. The priority queue is a sequence whose least element is
 * found by a linear scan; which of several fully tied least elements `poll` returns
 * is left open, as `PriorityQueue` leaves it open.
 */
module RestaurantService {
  import opened Wrappers
  import opened Strings
  import opened Model
  import opened RestaurantComparator

  /** The bound used when the options carry no limit. */
  const DefaultLimit: int := 5

  /** `options.getLimit() == null ? 5 : options.getLimit()`. */
  function Limit(options: RestaurantSearchOptions): (k: int)
    ensures options.limit.None? ==> k == DefaultLimit
    ensures options.limit.Some? ==> k == options.limit.value
  {
    match options.limit
    case None => DefaultLimit
    case Some(l) => l
  }

  /** `s.toLowerCase().contains(sub.toLowerCase())`. */
  predicate ContainsIgnoreCase(s: string, sub: string) {
    Contains(ToLower(s), ToLower(sub))
  }

  /** The five filter lambdas: each present option constrains its field. */
  predicate Matches(r: Restaurant, options: RestaurantSearchOptions) {
    && (options.rating.None? || r.rating >= options.rating.value)
    && (options.distance.None? || r.distance <= options.distance.value)
    && (options.price.None? || r.price <= options.price.value)
    && (options.name.None? || ContainsIgnoreCase(r.name, options.name.value))
    && (options.cuisine.None? || ContainsIgnoreCase(r.cuisine, options.cuisine.value))
  }

  /** The stream after the five filters, in catalog order. As a multiset it holds every
      matching restaurant as often as the catalog does, and nothing else. */
  function Survivors(catalog: seq<Restaurant>, options: RestaurantSearchOptions): (pool: seq<Restaurant>)
    ensures forall r :: multiset(pool)[r] == if Matches(r, options) then multiset(catalog)[r] else 0
  {
    if catalog == [] then []
    else
      var init, last := catalog[..|catalog| - 1], catalog[|catalog| - 1];
      assert catalog == init + [last];
      Survivors(init, options) + (if Matches(last, options) then [last] else [])
  }

  /** Non-decreasing under the comparator. */
  predicate Sorted(rs: seq<Restaurant>) {
    forall i, j :: 0 <= i < j < |rs| ==> LessEq(rs[i], rs[j])
  }

  /** How many restaurants `k` polls of a queue of `n` return. */
  function ResultSize(k: int, n: nat): nat {
    if k <= 0 then 0 else if k < n then k else n
  }

  /** `res` is what polling `k` times from a priority queue over `pool` can give:
      min(k, |pool|) elements (none when k <= 0), drawn from the pool, in comparator
      order, and no restaurant left in the pool ranks strictly before a returned one. */
  ghost predicate IsRankedTopK(res: seq<Restaurant>, pool: seq<Restaurant>, k: int) {
    && |res| == ResultSize(k, |pool|)
    && multiset(res) <= multiset(pool)
    && Sorted(res)
    && forall x, y :: x in multiset(pool) - multiset(res) && y in res ==> !Less(x, y)
  }

  /** `PriorityQueue.poll` on a non-empty queue: removes and returns a least element. */
  method Poll(queue: seq<Restaurant>) returns (head: Restaurant, rest: seq<Restaurant>)
    requires |queue| > 0
    ensures multiset(queue) == multiset(rest) + multiset{head}
    ensures forall x :: x in queue ==> LessEq(head, x)
  {
    var m, j := 0, 1;
    while j < |queue|
      invariant 0 <= m < j <= |queue|
      invariant forall i :: 0 <= i < j ==> LessEq(queue[m], queue[i])
    {
      if Less(queue[j], queue[m]) {
        forall i | 0 <= i < j ensures LessEq(queue[j], queue[i]) {
          LessEqTransitive(queue[j], queue[m], queue[i]);
        }
        m := j;
      } else {
        CompareAntisymmetric(queue[j], queue[m]);
      }
      j := j + 1;
    }
    head := queue[m];
    rest := queue[..m] + queue[m + 1..];
    RemoveAt(queue, m);
    forall x | x in queue ensures LessEq(head, x) {
      var i :| 0 <= i < |queue| && queue[i] == x;
    }
  }

  /** Taking out the element at `m` leaves the others. */
  lemma RemoveAt(queue: seq<Restaurant>, m: nat)
    requires m < |queue|
    ensures multiset(queue) == multiset(queue[..m] + queue[m + 1..]) + multiset{queue[m]}
  {
    assert queue == queue[..m] + [queue[m]] + queue[m + 1..];
  }

  method AdvancedSearch(catalog: seq<Restaurant>, options: RestaurantSearchOptions)
    returns (res: seq<Restaurant>)
    ensures IsRankedTopK(res, Survivors(catalog, options), Limit(options))
  {
    var limit := Limit(options);

    // the filtered stream, forEach(queue::add)
    var queue: seq<Restaurant> := [];
    var j := 0;
    while j < |catalog|
      invariant 0 <= j <= |catalog|
      invariant queue == Survivors(catalog[..j], options)
    {
      SurvivorsPrefix(catalog, options, j);
      if Matches(catalog[j], options) {
        queue := queue + [catalog[j]];
      }
      j := j + 1;
    }
    WholePrefix(catalog);
    res := PollUpTo(queue, limit);
  }

  /** One more catalog entry through the filters. */
  lemma SurvivorsPrefix(catalog: seq<Restaurant>, options: RestaurantSearchOptions, j: nat)
    requires j < |catalog|
    ensures Survivors(catalog[..j + 1], options)
         == Survivors(catalog[..j], options) + (if Matches(catalog[j], options) then [catalog[j]] else [])
  {
    SurvivorsLast(catalog[..j + 1], options);
    assert catalog[..j + 1][..j] == catalog[..j];
  }

  lemma WholePrefix<T>(s: seq<T>)
    ensures s[..|s|] == s
  {
  }

  /** The counted loop `for (int i = 0; i < limit; i++) if (!queue.isEmpty())
      res.add(queue.poll());` over a queue holding `pool`. */
  method PollUpTo(pool: seq<Restaurant>, limit: int) returns (res: seq<Restaurant>)
    ensures IsRankedTopK(res, pool, limit)
  {
    var queue := pool;
    res := [];
    var i := 0;
    while i < limit
      invariant 0 <= i <= (if limit > 0 then limit else 0)
      invariant multiset(res) + multiset(queue) == multiset(pool)
      invariant |res| == ResultSize(i, |pool|)
      invariant Sorted(res)
      invariant forall x, y :: x in queue && y in res ==> LessEq(y, x)
    {
      if |queue| > 0 {
        var head, rest := Poll(queue);
        PolledStaysOrdered(res, queue, head, rest);
        PolledCount(pool, res, queue, head, rest);
        res, queue := res + [head], rest;
      }
      i := i + 1;
    }
    PolledAll(pool, limit, i, res, queue);
  }

  /** When the loop ends, the polled prefix is a ranked top `limit` of the pool. */
  lemma PolledAll(pool: seq<Restaurant>, limit: int, i: int, res: seq<Restaurant>, queue: seq<Restaurant>)
    requires i == (if limit > 0 then limit else 0)
    requires multiset(res) + multiset(queue) == multiset(pool)
    requires |res| == ResultSize(i, |pool|)
    requires Sorted(res)
    requires forall x, y :: x in queue && y in res ==> LessEq(y, x)
    ensures IsRankedTopK(res, pool, limit)
  {
    assert multiset(pool) - multiset(res) == multiset(queue);
    forall x, y | x in multiset(pool) - multiset(res) && y in res ensures !Less(x, y) {
      assert x in queue;
      CompareAntisymmetric(x, y);
    }
  }

  /** One poll moves one restaurant from the queue to the result. */
  lemma PolledCount(pool: seq<Restaurant>, res: seq<Restaurant>, queue: seq<Restaurant>,
                    head: Restaurant, rest: seq<Restaurant>)
    requires multiset(res) + multiset(queue) == multiset(pool)
    requires multiset(queue) == multiset(rest) + multiset{head}
    ensures multiset(res + [head]) + multiset(rest) == multiset(pool)
    ensures |rest| == |queue| - 1
  {
    assert |multiset(queue)| == |multiset(rest)| + 1;
  }

  /** One poll keeps the polled prefix sorted and ahead of what remains queued. */
  lemma PolledStaysOrdered(res: seq<Restaurant>, queue: seq<Restaurant>, head: Restaurant, rest: seq<Restaurant>)
    requires Sorted(res)
    requires forall x, y :: x in queue && y in res ==> LessEq(y, x)
    requires multiset(queue) == multiset(rest) + multiset{head}
    requires forall x :: x in queue ==> LessEq(head, x)
    ensures Sorted(res + [head])
    ensures forall x, y :: x in rest && y in res + [head] ==> LessEq(y, x)
  {
    assert head in multiset(queue);
    forall x | x in rest ensures x in queue {
      assert x in multiset(queue);
    }
  }

  // ---------------------------------------------------------------------------
  // Properties of the ranked search
  // ---------------------------------------------------------------------------

  /** Filter soundness: every returned restaurant satisfies each present filter
      (and comes from the catalog); absent filters are not consulted. */
  lemma ResultsSatisfyFilters(catalog: seq<Restaurant>, options: RestaurantSearchOptions,
                              res: seq<Restaurant>, k: int)
    requires IsRankedTopK(res, Survivors(catalog, options), k)
    ensures multiset(res) <= multiset(catalog)
    ensures forall r :: r in res ==>
      && (options.rating.Some? ==> r.rating >= options.rating.value)
      && (options.distance.Some? ==> r.distance <= options.distance.value)
      && (options.price.Some? ==> r.price <= options.price.value)
      && (options.name.Some? ==> Contains(ToLower(r.name), ToLower(options.name.value)))
      && (options.cuisine.Some? ==> Contains(ToLower(r.cuisine), ToLower(options.cuisine.value)))
  {
    var pool := Survivors(catalog, options);
    forall r | r in res ensures Matches(r, options) {
      assert multiset(res)[r] > 0;
      assert multiset(pool)[r] > 0;
    }
    forall r ensures multiset(res)[r] <= multiset(catalog)[r] {
      assert multiset(res)[r] <= multiset(pool)[r];
    }
  }

  /** With no filter set, every catalog entry survives, in catalog order. */
  lemma {:induction false} NoFiltersKeepAll(catalog: seq<Restaurant>, options: RestaurantSearchOptions)
    requires options.name.None? && options.rating.None? && options.distance.None?
    requires options.price.None? && options.cuisine.None?
    ensures Survivors(catalog, options) == catalog
  {
    if catalog != [] {
      var init, last := catalog[..|catalog| - 1], catalog[|catalog| - 1];
      NoFiltersKeepAll(init, options);
      SurvivorsLast(catalog, options);
      assert Matches(last, options);
      SplitLast(catalog);
    }
  }

  lemma SplitLast<T>(s: seq<T>)
    requires s != []
    ensures s == s[..|s| - 1] + [s[|s| - 1]]
  {
  }

  /** One unfolding of `Survivors`. */
  lemma SurvivorsLast(catalog: seq<Restaurant>, options: RestaurantSearchOptions)
    requires catalog != []
    ensures Survivors(catalog, options)
         == Survivors(catalog[..|catalog| - 1], options)
            + (if Matches(catalog[|catalog| - 1], options) then [catalog[|catalog| - 1]] else [])
  {
  }

  /** A catalog in which nothing passes the filters gives an empty pool. */
  lemma NoneMatch(catalog: seq<Restaurant>, options: RestaurantSearchOptions)
    requires forall i :: 0 <= i < |catalog| ==> !Matches(catalog[i], options)
    ensures Survivors(catalog, options) == []
  {
    var pool := Survivors(catalog, options);
    forall r | r in catalog ensures !Matches(r, options) {
      var i :| 0 <= i < |catalog| && catalog[i] == r;
    }
    forall r ensures multiset(pool)[r] == 0 {
      if r in catalog {
        assert !Matches(r, options);
      }
    }
    assert multiset(pool) == multiset{};
  }

  /** Without full ties, a sorted arrangement of a multiset is unique. */
  lemma {:induction false} SortedArrangementUnique(a: seq<Restaurant>, b: seq<Restaurant>)
    requires Sorted(a) && Sorted(b) && multiset(a) == multiset(b)
    requires forall x, y :: x in a && y in a && Compare(x, y) == 0 ==> x == y
    ensures a == b
  {
    if a != [] {
      SortedHeadsAgree(a, b);
      SortedTail(a);
      SortedTail(b);
      TailMultisets(a, b);
      assert forall z :: z in a[1..] ==> z in a;
      SortedArrangementUnique(a[1..], b[1..]);
      assert a == [a[0]] + a[1..] && b == [b[0]] + b[1..];
    }
  }

  /** Sequences with one multiset and one first element agree on the rest as a multiset. */
  lemma TailMultisets(a: seq<Restaurant>, b: seq<Restaurant>)
    requires a != [] && b != [] && a[0] == b[0] && multiset(a) == multiset(b)
    ensures multiset(a[1..]) == multiset(b[1..])
  {
    assert a == [a[0]] + a[1..] && b == [b[0]] + b[1..];
    assert multiset(a[1..]) == multiset(a) - multiset{a[0]};
    assert multiset(b[1..]) == multiset(b) - multiset{a[0]};
  }

  /** Two tie-free sorted arrangements of one multiset start alike. */
  lemma SortedHeadsAgree(a: seq<Restaurant>, b: seq<Restaurant>)
    requires a != [] && Sorted(a) && Sorted(b) && multiset(a) == multiset(b)
    requires forall x, y :: x in a && y in a && Compare(x, y) == 0 ==> x == y
    ensures b != [] && a[0] == b[0]
  {
    assert |a| == |multiset(a)| == |multiset(b)| == |b|;
    var x, y := a[0], b[0];
    assert y in multiset(a) && x in multiset(b);
    var i :| 0 <= i < |a| && a[i] == y;
    var j :| 0 <= j < |b| && b[j] == x;
    assert LessEq(x, y) by {
      if i > 0 { assert LessEq(a[0], a[i]); }
    }
    assert LessEq(y, x) by {
      if j > 0 { assert LessEq(b[0], b[j]); }
    }
    CompareAntisymmetric(x, y);
  }

  lemma SortedTail(a: seq<Restaurant>)
    requires a != [] && Sorted(a)
    ensures Sorted(a[1..])
  {
    forall i, j | 0 <= i < j < |a| - 1 ensures LessEq(a[1..][i], a[1..][j]) {
      assert a[1..][i] == a[i + 1] && a[1..][j] == a[j + 1];
    }
  }

  // ---------------------------------------------------------------------------
  // The six-restaurant test catalog
  // ---------------------------------------------------------------------------

  function Fixture(): seq<Restaurant> {
    [ Restaurant(1, "Deliciousgenix", 4, 1, 10, 11, "Spanish"),
      Restaurant(2, "Cuts Delicious", 3, 9, 25, 8, "Korean"),
      Restaurant(3, "Fine Delicious", 4, 5, 45, 4, "Italian"),
      Restaurant(4, "Local Delicious", 5, 4, 20, 12, "Greek"),
      Restaurant(5, "Deliciouszilla", 4, 1, 15, 2, "Chinese"),
      Restaurant(6, "Wish Chow", 3, 1, 40, 1, "American") ]
  }

  /** The expected answer of the default search over the test catalog. */
  function FixtureTopFive(): seq<Restaurant> {
    var f := Fixture();
    [f[0], f[4], f[5], f[3], f[2]]
  }

  /** With empty options the default bound of 5 applies and the ranking is fully
      determined: Deliciousgenix, Deliciouszilla, Wish Chow, Local Delicious,
      Fine Delicious (Cuts Delicious, the farthest, is cut off). */
  lemma FixtureDefaultSearch(res: seq<Restaurant>)
    requires IsRankedTopK(res, Survivors(Fixture(), NoOptions()), Limit(NoOptions()))
    ensures res == FixtureTopFive()
  {
    NoFiltersKeepAll(Fixture(), NoOptions());
    FixtureLeavesOutFarthest(res);
    var e := FixtureTopFive();
    FixtureTopFiveRanked();
    forall x | x in res ensures x in e {
      assert x in multiset(e);
    }
    SortedArrangementUnique(res, e);
  }

  /** The expected answer is in comparator order and has no full ties. */
  lemma FixtureTopFiveRanked()
    ensures Sorted(FixtureTopFive())
    ensures forall x, y :: x in FixtureTopFive() && y in FixtureTopFive() && Compare(x, y) == 0 ==> x == y
  {
    var e := FixtureTopFive();
    forall i, j | 0 <= i < j < 5 ensures LessEq(e[i], e[j]) {
      assert e[i].distance < e[j].distance
          || (e[i].distance == e[j].distance && e[i].rating > e[j].rating)
          || (e[i].distance == e[j].distance && e[i].rating == e[j].rating && e[i].price < e[j].price);
    }
    forall x, y | x in e && y in e && Compare(x, y) == 0 ensures x == y {
      CompareZeroIsTie(x, y);
    }
  }

  /** Of the six, the one left out of a top five is Cuts Delicious (distance 9). */
  lemma FixtureLeavesOutFarthest(res: seq<Restaurant>)
    requires IsRankedTopK(res, Fixture(), 5)
    ensures multiset(res) == multiset(FixtureTopFive())
  {
    var f := Fixture();
    var x := LeftOverOne(f, res);
    assert x in f by {
      assert x in multiset(f) - multiset(res);
    }
    if x != f[1] {
      FarthestIsWorst(x);
      FarthestPolled(f, res, x);
      assert false;
    }
    FixtureWithoutFarthest();
  }

  /** When `x` is the one left over, every other restaurant of the pool was returned. */
  lemma FarthestPolled(pool: seq<Restaurant>, res: seq<Restaurant>, x: Restaurant)
    requires |pool| > 1 && pool[1] != x
    requires multiset(pool) - multiset(res) == multiset{x}
    ensures pool[1] in res
  {
    assert multiset(pool)[pool[1]] > 0 && multiset{x}[pool[1]] == 0;
    assert multiset(res)[pool[1]] > 0;
  }

  /** From a pool one longer than a sub-multiset of it, exactly one element is left. */
  lemma LeftOverOne<T>(pool: seq<T>, res: seq<T>) returns (x: T)
    requires multiset(res) <= multiset(pool) && |pool| == |res| + 1
    ensures multiset(pool) - multiset(res) == multiset{x}
    ensures multiset(res) == multiset(pool) - multiset{x}
  {
    var left := multiset(pool) - multiset(res);
    assert multiset(pool) == multiset(res) + left;
    assert |left| == 1;
    x :| x in left;
    assert left == multiset{x} + (left - multiset{x});
  }

  /** Every restaurant of the test catalog but Cuts Delicious ranks ahead of it. */
  lemma FarthestIsWorst(x: Restaurant)
    requires x in Fixture() && x != Fixture()[1]
    ensures Less(x, Fixture()[1]) && x in multiset(FixtureTopFive())
  {
  }

  lemma FixtureWithoutFarthest()
    ensures multiset(Fixture()) - multiset{Fixture()[1]} == multiset(FixtureTopFive())
  {
    var f := Fixture();
    assert f == [f[0], f[1], f[2], f[3], f[4], f[5]];
    assert multiset(f) == multiset{f[0], f[1], f[2], f[3], f[4], f[5]};
  }

  /** Filters that no restaurant passes give an empty result, not an error. */
  lemma FixtureNoMatches(res: seq<Restaurant>)
    requires IsRankedTopK(res, Survivors(Fixture(), NoOptions().(rating := Some(5), price := Some(1))), 5)
    ensures res == []
  {
    var options := NoOptions().(rating := Some(5), price := Some(1));
    FixtureNoTopRatedBargain();
    var f := Fixture();
    forall i | 0 <= i < |f| ensures !Matches(f[i], options) {
    }
    NoMatchNoResult(f, options, res, 5);
  }

  /** No restaurant of the test catalog has rating 5 and price at most 1. */
  lemma FixtureNoTopRatedBargain()
    ensures forall i :: 0 <= i < |Fixture()| ==> Fixture()[i].rating < 5 || Fixture()[i].price > 1
  {
  }

  /** When no catalog entry passes the filters, the search returns nothing. */
  lemma NoMatchNoResult(catalog: seq<Restaurant>, options: RestaurantSearchOptions, res: seq<Restaurant>, k: int)
    requires forall i :: 0 <= i < |catalog| ==> !Matches(catalog[i], options)
    requires IsRankedTopK(res, Survivors(catalog, options), k)
    ensures res == []
  {
    NoneMatch(catalog, options);
  }
}
