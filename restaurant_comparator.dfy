/**
 * `RestaurantComparator.compare`: distance ascending, then rating descending, then
 * price ascending, each step a Java `Integer.compare`.
 */
module RestaurantComparator {
  import opened Model

  /** Java's `Integer.compare(x, y)`: -1, 0 or 1. */
  function IntegerCompare(x: int, y: int): (r: int)
    ensures r == -1 || r == 0 || r == 1
    ensures r < 0 <==> x < y
    ensures r == 0 <==> x == y
  {
    if x < y then -1 else if x == y then 0 else 1
  }

  /** The comparator's chain of early returns. */
  function Compare(a: Restaurant, b: Restaurant): int {
    var byDistance := IntegerCompare(a.distance, b.distance);
    if byDistance != 0 then byDistance
    else
      var byRating := IntegerCompare(b.rating, a.rating);
      if byRating != 0 then byRating
      else
        var byPrice := IntegerCompare(a.price, b.price);
        if byPrice != 0 then byPrice
        else 0
  }

  /** `a` is polled before `b`. */
  predicate Less(a: Restaurant, b: Restaurant) {
    Compare(a, b) < 0
  }

  /** `a` may be polled before `b`. */
  predicate LessEq(a: Restaurant, b: Restaurant) {
    Compare(a, b) <= 0
  }

  /** The ranking key (distance, -rating, price) that the comparator orders by. */
  function Key(r: Restaurant): (int, int, int) {
    (r.distance, -r.rating, r.price)
  }

  /** Lexicographic order on keys: an independent statement of the ranking. */
  predicate LexLess(x: (int, int, int), y: (int, int, int)) {
    || x.0 < y.0
    || (x.0 == y.0 && x.1 < y.1)
    || (x.0 == y.0 && x.1 == y.1 && x.2 < y.2)
  }

  /** The comparator returns only -1, 0 and 1, and it is the lexicographic order on
      (distance, -rating, price): negative exactly when `a`'s key is smaller, zero
      exactly when the three fields agree. */
  lemma CompareIsLexicographic(a: Restaurant, b: Restaurant)
    ensures Compare(a, b) in {-1, 0, 1}
    ensures Compare(a, b) < 0 <==> LexLess(Key(a), Key(b))
    ensures Compare(a, b) > 0 <==> LexLess(Key(b), Key(a))
    ensures Compare(a, b) == 0 <==> Key(a) == Key(b)
  {
  }

  /** A smaller distance wins whatever the rating and the price. */
  lemma CloserFirst(a: Restaurant, b: Restaurant)
    requires a.distance < b.distance
    ensures Less(a, b)
  {
  }

  /** At equal distance, the higher rating wins. */
  lemma HigherRatedFirst(a: Restaurant, b: Restaurant)
    requires a.distance == b.distance && a.rating > b.rating
    ensures Less(a, b)
  {
  }

  /** At equal distance and rating, the lower price wins. */
  lemma CheaperFirst(a: Restaurant, b: Restaurant)
    requires a.distance == b.distance && a.rating == b.rating && a.price < b.price
    ensures Less(a, b)
  {
  }

  /** Zero means a full tie on the three keys; the other fields play no part. */
  lemma CompareZeroIsTie(a: Restaurant, b: Restaurant)
    ensures Compare(a, b) == 0 <==>
            (a.distance == b.distance && a.rating == b.rating && a.price == b.price)
  {
  }

  /** Antisymmetry: swapping the arguments negates the result. */
  lemma CompareAntisymmetric(a: Restaurant, b: Restaurant)
    ensures Compare(a, b) == -Compare(b, a)
  {
  }

  /** Totality: of any two restaurants one may come first. */
  lemma LessEqTotal(a: Restaurant, b: Restaurant)
    ensures LessEq(a, b) || LessEq(b, a)
  {
  }

  /** Transitivity of the preorder and of its strict part. */
  lemma LessEqTransitive(a: Restaurant, b: Restaurant, c: Restaurant)
    requires LessEq(a, b) && LessEq(b, c)
    ensures LessEq(a, c)
    ensures Less(a, b) || Less(b, c) ==> Less(a, c)
  {
  }
}
