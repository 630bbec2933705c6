/**
 The rating trigger: `rating_count` and the average kept to two decimals, updated one rating at a time.
 Averages are in hundredths. PostgreSQL's `ROUND(numeric, 2)` rounds halves away from zero, and its
 quotient carries enough digits that rounding it equals rounding the exact quotient.
 */
module Rating {
  import opened Quotients

  /** `rating_count` and `100 * rating_avg` of a driver row. */
  datatype Score = Score(count: nat, hundredths: int)

  const UNRATED := Score(0, 500)

  predicate ValidStars(stars: int) {
    1 <= stars <= 5
  }

  /** `ROUND(n / d)` for non-negative `n`. */
  function RoundedQuotient(n: int, d: int): int
    requires d > 0
  {
    (2 * n + d) / (2 * d)
  }

  function ApplyRating(s: Score, stars: int): Score {
    Score(s.count + 1, RoundedQuotient(s.hundredths * s.count + 100 * stars, s.count + 1))
  }

  function AfterRatings(s: Score, ratings: seq<int>): Score {
    if ratings == [] then s else ApplyRating(AfterRatings(s, ratings[..|ratings| - 1]), ratings[|ratings| - 1])
  }

  function Total(ratings: seq<int>): int {
    if ratings == [] then 0 else Total(ratings[..|ratings| - 1]) + ratings[|ratings| - 1]
  }

  ghost predicate AllValid(ratings: seq<int>) {
    forall i :: 0 <= i < |ratings| ==> ValidStars(ratings[i])
  }

  /** The rounded quotient is within half a unit of the exact one. */
  lemma RoundingError(n: int, d: int)
    requires d > 0
    ensures var q := RoundedQuotient(n, d); -d <= 2 * (q * d - n) <= d
  {
    var q := RoundedQuotient(n, d);
    var r := (2 * n + d) % (2 * d);
    assert 2 * n + d == 2 * d * q + r;
    assert 2 * d * q == 2 * (q * d);
  }

  lemma RoundingKeepsBounds(n: int, d: int, lo: int, hi: int)
    requires d > 0 && lo * d <= n <= hi * d
    ensures lo <= RoundedQuotient(n, d) <= hi
  {
    var q := RoundedQuotient(n, d);
    RoundingError(n, d);
    SmallerProducts(q, lo, d);
    SmallerProducts(hi, q, d);
  }

  lemma SmallerProducts(a: int, b: int, d: int)
    requires d > 0
    ensures a < b ==> a * d <= b * d - d
  {
    if a < b {
      var k := b - a - 1;
      assert k * d >= 0;
      assert b * d == (a + k + 1) * d == a * d + k * d + d;
    }
  }

  /** The count is the number of ratings. */
  lemma {:induction false} CountIsExact(ratings: seq<int>)
    ensures AfterRatings(UNRATED, ratings).count == |ratings|
  {
    if ratings != [] {
      CountIsExact(ratings[..|ratings| - 1]);
    }
  }

  /** From the first rating on, the average lies in [1.00, 5.00]. */
  lemma {:induction false} AverageStaysInRange(ratings: seq<int>)
    requires AllValid(ratings) && ratings != []
    ensures 100 <= AfterRatings(UNRATED, ratings).hundredths <= 500
  {
    var before := ratings[..|ratings| - 1];
    var s := AfterRatings(UNRATED, before);
    var stars := ratings[|ratings| - 1];
    CountIsExact(before);
    if before != [] {
      AverageStaysInRange(before);
    }
    WeightedBounds(s, stars);
    RoundingKeepsBounds(s.hundredths * s.count + 100 * stars, s.count + 1, 100, 500);
  }

  lemma ProductIsNonNegative(a: int, b: int)
    requires a >= 0 && b >= 0
    ensures a * b >= 0
  {}

  lemma WeightedBounds(s: Score, stars: int)
    requires ValidStars(stars) && (s.count > 0 ==> 100 <= s.hundredths <= 500)
    ensures 100 * (s.count + 1) <= s.hundredths * s.count + 100 * stars <= 500 * (s.count + 1)
  {
    if s.count > 0 {
      ProductIsNonNegative(s.hundredths - 100, s.count);
      ProductIsNonNegative(500 - s.hundredths, s.count);
      assert (s.hundredths - 100) * s.count == s.hundredths * s.count - 100 * s.count;
      assert (500 - s.hundredths) * s.count == 500 * s.count - s.hundredths * s.count;
    }
  }

  /** `4 * n * (stored average - exact mean)`, in hundredths, after `n` ratings. */
  function Drift(ratings: seq<int>): int {
    4 * (|ratings| * AfterRatings(UNRATED, ratings).hundredths - 100 * Total(ratings))
  }

  /** The stored average is within (n + 1) / 4 hundredths of the exact mean, and a little less: the first
      rating is stored exactly. */
  lemma {:induction false} DriftIsBounded(ratings: seq<int>)
    requires ratings != []
    ensures var n := |ratings|; -(n * (n + 1) - 2) <= Drift(ratings) <= n * (n + 1) - 2
  {
    var before, stars := ratings[..|ratings| - 1], ratings[|ratings| - 1];
    var s := AfterRatings(UNRATED, before);
    CountIsExact(before);
    RoundingError(s.hundredths * s.count + 100 * stars, s.count + 1);
    DriftStep(s.count, s.hundredths, Total(before), stars, ApplyRating(s, stars).hundredths);
    if before != [] {
      DriftIsBounded(before);
    }
  }

  lemma DriftStep(m: nat, a: int, total: int, stars: int, q: int)
    ensures 4 * ((m + 1) * q - 100 * (total + stars)) ==
            4 * (q * (m + 1) - (a * m + 100 * stars)) + 4 * (m * a - 100 * total)
    ensures (m + 1) * (m + 2) == m * (m + 1) + 2 * (m + 1)
  {}

  /** The stored average moves exactly when the rating moves the average it continues from by half a hundredth or more
      upwards, or by more than that downwards. */
  lemma SmallMovesAreLost(s: Score, stars: int)
    ensures ApplyRating(s, stars).hundredths == s.hundredths <==>
            -(s.count + 1) <= 2 * (100 * stars - s.hundredths) < s.count + 1
  {
    var d := s.count + 1;
    var n := s.hundredths * s.count + 100 * stars;
    var gap := 2 * (100 * stars - s.hundredths);
    assert s.hundredths * d == s.hundredths * s.count + s.hundredths;
    QuotientIff(2 * n + d, 2 * d, s.hundredths, gap + d);
  }

  /** From the 800th rating on the stored average never moves again, whatever riders say. */
  lemma {:induction false} AverageFreezes(ratings: seq<int>, later: seq<int>)
    requires AllValid(ratings) && AllValid(later) && |ratings| >= 800
    ensures AfterRatings(UNRATED, ratings + later).hundredths == AfterRatings(UNRATED, ratings).hundredths
  {
    if later == [] {
      assert ratings + later == ratings;
    } else {
      var before := later[..|later| - 1];
      var all := ratings + later;
      assert all[..|all| - 1] == ratings + before;
      AverageFreezes(ratings, before);
      AverageStaysInRange(ratings + before);
      CountIsExact(ratings + before);
      SmallMovesAreLost(AfterRatings(UNRATED, ratings + before), later[|later| - 1]);
    }
  }

  // ---------- how long the average can move ----------

  function Ones(n: nat): (ratings: seq<int>)
    ensures |ratings| == n && AllValid(ratings)
  {
    if n == 0 then [] else Ones(n - 1) + [1]
  }

  lemma RatingsSnoc(ratings: seq<int>, stars: int)
    ensures AfterRatings(UNRATED, ratings + [stars]) == ApplyRating(AfterRatings(UNRATED, ratings), stars)
    ensures Total(ratings + [stars]) == Total(ratings) + stars
  {
    assert (ratings + [stars])[..|ratings|] == ratings;
  }

  lemma {:induction false} OnesAverageOne(n: nat)
    requires n >= 1
    ensures AfterRatings(UNRATED, Ones(n)) == Score(n, 100)
  {
    RatingsSnoc(Ones(n - 1), 1);
    if n > 1 {
      OnesAverageOne(n - 1);
      SmallMovesAreLost(Score(n - 1, 100), 1);
    }
  }

  /** Whether a next rating can still move the average after `n` ratings. */
  ghost predicate FrozenAfter(n: nat) {
    forall ratings: seq<int>, stars: int :: |ratings| == n && AllValid(ratings) && ValidStars(stars) ==>
      AfterRatings(UNRATED, ratings + [stars]).hundredths == AfterRatings(UNRATED, ratings).hundredths
  }

  lemma StillMoves(n: nat) returns (stars: int)
    requires n < 800
    ensures ValidStars(stars)
    ensures AfterRatings(UNRATED, Ones(n) + [stars]).hundredths != AfterRatings(UNRATED, Ones(n)).hundredths
  {
    stars := if n == 0 then 1 else 5;
    RatingsSnoc(Ones(n), stars);
    if n > 0 {
      OnesAverageOne(n);
    }
    SmallMovesAreLost(AfterRatings(UNRATED, Ones(n)), stars);
  }

  /** The average is frozen after `n` ratings if and only if `n` is at least 800: after 799 ones a five still moves it. */
  lemma FrozenIffEightHundred(n: nat)
    ensures FrozenAfter(n) <==> n >= 800
  {
    if n >= 800 {
      forall ratings: seq<int>, stars: int | |ratings| == n && AllValid(ratings) && ValidStars(stars)
        ensures AfterRatings(UNRATED, ratings + [stars]).hundredths == AfterRatings(UNRATED, ratings).hundredths
      {
        AverageFreezes(ratings, [stars]);
      }
    } else {
      var stars := StillMoves(n);
      var ratings := Ones(n);
      assert |ratings| == n && AllValid(ratings);
    }
  }

  // ---------- when the stored average is exact ----------

  /** The stored average is the exact mean. */
  predicate Exact(ratings: seq<int>) {
    |ratings| * AfterRatings(UNRATED, ratings).hundredths == 100 * Total(ratings)
  }

  /** The exact mean is a whole number of hundredths. */
  predicate Representable(ratings: seq<int>) {
    ratings != [] ==> 100 * Total(ratings) % |ratings| == 0
  }

  lemma ExactQuotient(n: int, d: int)
    requires d > 0
    ensures RoundedQuotient(n, d) * d == n <==> n % d == 0
  {
    var q, r := n / d, n % d;
    assert n == d * q + r;
    if r == 0 {
      assert 2 * n + d == 2 * d * q + d;
      QuotientIsUnique(2 * n + d, 2 * d, q, d);
    } else if RoundedQuotient(n, d) * d == n {
      QuotientIsUnique(n, d, RoundedQuotient(n, d), 0);
      assert false;
    }
  }

  lemma ScoreStep(s: Score, total: int, stars: int)
    requires s.count * s.hundredths == 100 * total
    ensures var next, n := ApplyRating(s, stars), 100 * (total + stars);
            next.count * next.hundredths == n <==> n % next.count == 0
  {
    var n := 100 * (total + stars);
    assert s.hundredths * s.count + 100 * stars == n;
    ExactQuotient(n, s.count + 1);
    var q := RoundedQuotient(n, s.count + 1);
    assert ApplyRating(s, stars) == Score(s.count + 1, q);
    assert (s.count + 1) * q == q * (s.count + 1);
  }

  /** From an exact average one more rating gives an exact average exactly when that average can be stored. */
  lemma ExactStep(ratings: seq<int>, stars: int)
    requires Exact(ratings)
    ensures Exact(ratings + [stars]) <==> Representable(ratings + [stars])
  {
    RatingsSnoc(ratings, stars);
    CountIsExact(ratings);
    ScoreStep(AfterRatings(UNRATED, ratings), Total(ratings), stars);
  }

  ghost predicate AlwaysExact(ratings: seq<int>) {
    ratings == [] || (AlwaysExact(ratings[..|ratings| - 1]) && Exact(ratings))
  }

  ghost predicate AlwaysRepresentable(ratings: seq<int>) {
    ratings == [] || (AlwaysRepresentable(ratings[..|ratings| - 1]) && Representable(ratings))
  }

  lemma {:induction false} AlwaysExactIsExact(ratings: seq<int>)
    requires AlwaysExact(ratings)
    ensures Exact(ratings)
  {}

  /** The stored average is the exact mean after every one of the ratings if and only if every one of those means is
      a whole number of hundredths. */
  lemma {:induction false} AlwaysExactIffRepresentable(ratings: seq<int>)
    ensures AlwaysExact(ratings) <==> AlwaysRepresentable(ratings)
  {
    if ratings != [] {
      var before, last := ratings[..|ratings| - 1], ratings[|ratings| - 1];
      assert ratings == before + [last];
      AlwaysExactIffRepresentable(before);
      if AlwaysExact(before) {
        AlwaysExactIsExact(before);
        ExactStep(before, last);
      }
    }
  }

  lemma FiveOnesThenTwoAndOne()
    ensures Ones(5) + [2] + [1] == [1, 1, 1, 1, 1, 2, 1]
  {
    OnesAre(5);
  }

  /** Otherwise it drifts: seven ratings store 1.15 where their exact mean rounds to 1.14. */
  lemma SevenRatingsDrift()
    ensures var ratings := [1, 1, 1, 1, 1, 2, 1];
            && AfterRatings(UNRATED, ratings).hundredths == 115
            && RoundedQuotient(100 * Total(ratings), |ratings|) == 114
  {
    FiveOnesThenTwoAndOne();
    OnesAverageOne(5);
    OnesTotal(5);
    RatingsSnoc(Ones(5), 2);
    assert ApplyRating(Score(5, 100), 2) == Score(6, 117);
    RatingsSnoc(Ones(5) + [2], 1);
    assert ApplyRating(Score(6, 117), 1) == Score(7, 115);
  }

  lemma {:induction false} OnesAre(n: nat)
    ensures forall i :: 0 <= i < n ==> Ones(n)[i] == 1
  {
    if n > 0 {
      OnesAre(n - 1);
    }
  }

  lemma {:induction false} OnesTotal(n: nat)
    ensures Total(Ones(n)) == n
  {
    if n > 0 {
      OnesTotal(n - 1);
      RatingsSnoc(Ones(n - 1), 1);
    }
  }

  // ---------- when the stored average is the rounded mean ----------

  /** The stored average is the exact mean, rounded. */
  predicate Rounded(ratings: seq<int>) {
    ratings != [] ==> AfterRatings(UNRATED, ratings).hundredths == RoundedQuotient(100 * Total(ratings), |ratings|)
  }

  /** The error the stored average carries into the next rating, times the number of ratings. */
  function Carried(ratings: seq<int>): int {
    |ratings| * AfterRatings(UNRATED, ratings).hundredths - 100 * Total(ratings)
  }

  /** Where `100 * total / n` lies between the two values at which its rounding changes, on a scale of `2 * n`. */
  function Place(total: int, n: nat): int
    requires n > 0
  {
    (200 * total + n) % (2 * n)
  }

  lemma RoundedAfter(x: int, d: int, n: nat)
    requires n > 0
    ensures RoundedQuotient(x + d, n) == RoundedQuotient(x, n) <==> 0 <= (2 * x + n) % (2 * n) + 2 * d < 2 * n
  {
    var q, r := RoundedQuotient(x, n), (2 * x + n) % (2 * n);
    assert 2 * x + n == 2 * n * q + r;
    QuotientIff(2 * (x + d) + n, 2 * n, q, r + 2 * d);
  }

  lemma ApplyRounds(s: Score, n: nat, total: int, stars: int)
    requires s.count == n
    ensures ApplyRating(s, stars).hundredths == RoundedQuotient(100 * (total + stars) + (n * s.hundredths - 100 * total), n + 1)
  {
    assert s.hundredths * n == n * s.hundredths;
    assert 100 * (total + stars) + (n * s.hundredths - 100 * total) == s.hundredths * n + 100 * stars;
  }

  /** The next stored average rounds the exact sum and the error carried. */
  lemma NextAverage(ratings: seq<int>, stars: int)
    ensures AfterRatings(UNRATED, ratings + [stars]).hundredths ==
            RoundedQuotient(100 * (Total(ratings) + stars) + Carried(ratings), |ratings| + 1)
  {
    RatingsSnoc(ratings, stars);
    CountIsExact(ratings);
    ApplyRounds(AfterRatings(UNRATED, ratings), |ratings|, Total(ratings), stars);
  }

  /** One more rating leaves the stored average at the rounded mean exactly when the error carried so far does not push
      the new mean over the next value at which its rounding changes. */
  lemma RoundedIffTheErrorFits(ratings: seq<int>, stars: int)
    ensures Rounded(ratings + [stars]) <==>
            0 <= Place(Total(ratings) + stars, |ratings| + 1) + 2 * Carried(ratings) < 2 * (|ratings| + 1)
  {
    NextAverage(ratings, stars);
    RatingsSnoc(ratings, stars);
    RoundedAfter(100 * (Total(ratings) + stars), Carried(ratings), |ratings| + 1);
  }
}
