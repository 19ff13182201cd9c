/** Generalised multiplayer Elo (multielo/multielo.py), over the reals.

    The logistic curve `1 / (1 + 10 ** (x / d))` is not modelled: a rater is
    configured with an arbitrary `winProbability` function of the rating
    difference (the divisor `d` folded into it), and the properties below rely
    only on what makes that curve a win probability (`Logistic`): P(x) + P(-x) == 1
    and 0 < P(x) < 1. The score function is an arbitrary function of the number
    of players, checked at every call by `ValidateActualScores`. */
module MultiElo {
  import opened Wrappers
  import opened Sums

  datatype ScoreError = NotSummingToOne | MinimumNotZero | NotDecreasing

  /** The `ValueError`s raised on the way to new ratings. `ShapeMismatch` is
      numpy's broadcasting error when the score function returns a vector whose
      length is not the number of players. */
  datatype EloError =
    | InvalidScores(reason: ScoreError)
    | ExpectedNotSummingToOne
    | ShapeMismatch

  /** A `MultiElo` instance: the K factor, the pairwise win probability as a
      function of the opponent's rating minus one's own, and the score function. */
  datatype Rater = Rater(k: real, winProbability: real -> real, scoreFunction: nat -> seq<real>)

  /** What the logistic curve guarantees and the proofs rely on. */
  ghost predicate Logistic(p: real -> real)
  {
    && (forall x, y {:trigger p(x), p(y)} :: x == -y ==> p(x) + p(y) == 1.0)
    && (forall x :: 0.0 < p(x) < 1.0)
  }

  function Abs(x: real): real
  {
    if x < 0.0 then -x else x
  }

  /** `numpy.allclose(a, b)` with its default tolerances rtol = 1e-05, atol = 1e-08. */
  predicate AllClose(a: real, b: real)
  {
    Abs(a - b) <= 0.00000001 + 0.00001 * Abs(b)
  }

  /** Python's `min` of a non-empty sequence. */
  function Min(s: seq<real>): (m: real)
    requires |s| > 0
    ensures m in s
    ensures forall i :: 0 <= i < |s| ==> m <= s[i]
  {
    if |s| == 1 then s[0]
    else
      var m' := Min(s[..|s| - 1]);
      if s[|s| - 1] < m' then s[|s| - 1] else m'
  }

  /** `numpy.all(numpy.diff(s) < 0)`. */
  predicate StrictlyDecreasing(s: seq<real>)
  {
    forall i :: 0 <= i < |s| - 1 ==> s[i + 1] - s[i] < 0.0
  }

  lemma {:induction false} StrictlyDecreasingPairs(s: seq<real>, i: nat, j: nat)
    requires StrictlyDecreasing(s)
    requires i < j < |s|
    ensures s[j] < s[i]
    decreases j - i
  {
    if i + 1 < j {
      StrictlyDecreasingPairs(s, i + 1, j);
    }
  }

  /** `MultiElo._validate_actual_scores`: `None` when the scores pass, otherwise
      the first check that fails. A vector that passes has at least two entries,
      ends in 0 and is strictly decreasing from a first place above 0. */
  function ValidateActualScores(scores: seq<real>): (r: Option<ScoreError>)
    ensures r == Some(NotSummingToOne) <==> !AllClose(1.0, Sum(scores))
    ensures r == Some(MinimumNotZero) <==> AllClose(1.0, Sum(scores)) && |scores| > 0 && Min(scores) != 0.0
    ensures r.None? <==> AllClose(1.0, Sum(scores)) && |scores| > 0 && Min(scores) == 0.0 && StrictlyDecreasing(scores)
    ensures r == Some(NotDecreasing) <==>
              AllClose(1.0, Sum(scores)) && |scores| > 0 && Min(scores) == 0.0 && !StrictlyDecreasing(scores)
    ensures r == Some(NotDecreasing) ==>
              exists i :: 0 <= i < |scores| - 1 && scores[i] <= scores[i + 1]
    ensures r.None? ==> |scores| >= 2 && StrictlyDecreasing(scores)
    ensures r.None? ==> scores[|scores| - 1] == 0.0 && scores[0] > 0.0
    ensures r.None? ==> forall i :: 0 <= i < |scores| ==> scores[i] >= 0.0
  {
    if !AllClose(1.0, Sum(scores)) then Some(NotSummingToOne)
    else
      if Min(scores) != 0.0 then Some(MinimumNotZero)
      else if !StrictlyDecreasing(scores) then Some(NotDecreasing)
      else
        ValidScoresShape(scores);
        None
  }

  lemma {:induction false} ValidScoresShape(scores: seq<real>)
    requires AllClose(1.0, Sum(scores)) && |scores| > 0
    requires Min(scores) == 0.0 && StrictlyDecreasing(scores)
    ensures |scores| >= 2
    ensures scores[|scores| - 1] == 0.0 && scores[0] > 0.0
    ensures forall i :: 0 <= i < |scores| ==> scores[i] >= 0.0
  {
    var last := |scores| - 1;
    SumSingleton(scores);
    var z :| 0 <= z < |scores| && scores[z] == 0.0;
    if z < last {
      StrictlyDecreasingPairs(scores, z, last);
    }
    StrictlyDecreasingPairs(scores, 0, last);
  }

  /** `MultiElo.get_actual_scores(n)`: the score function's vector for `n`
      players, provided it passes validation. */
  function ActualScores(rater: Rater, n: nat): (r: Result<seq<real>, EloError>)
    ensures r.Success? <==> ValidateActualScores(rater.scoreFunction(n)).None?
    ensures r.Success? ==> r.value == rater.scoreFunction(n)
  {
    var scores := rater.scoreFunction(n);
    match ValidateActualScores(scores)
    case Some(e) => Failure(InvalidScores(e))
    case None => Success(scores)
  }

  ghost predicate Square(m: seq<seq<real>>)
  {
    forall i :: 0 <= i < |m| ==> |m[i]| == |m|
  }

  /** A square matrix with a zero diagonal whose opposite entries add up to 1:
      the shape of the pairwise win-probability matrix. */
  ghost predicate Complementary(m: seq<seq<real>>)
  {
    && Square(m)
    && (forall i :: 0 <= i < |m| ==> m[i][i] == 0.0)
    && (forall i, j :: 0 <= i < |m| && 0 <= j < |m| && i != j ==> m[i][j] + m[j][i] == 1.0)
  }

  /** The matrix `logistic_mx` after `fill_diagonal(logistic_mx, 0)`: entry
      (i, j) is the probability that player i beats player j. */
  function PairwiseMatrix(p: real -> real, ratings: seq<real>): (m: seq<seq<real>>)
    ensures |m| == |ratings| && Square(m)
    ensures forall i :: 0 <= i < |m| ==> m[i][i] == 0.0
    ensures Logistic(p) ==> Complementary(m)
  {
    var n := |ratings|;
    seq(n, i requires 0 <= i < n =>
      seq(n, j requires 0 <= j < n => if i == j then 0.0 else p(ratings[j] - ratings[i])))
  }

  function RowSums(m: seq<seq<real>>): seq<real>
  {
    seq(|m|, i requires 0 <= i < |m| => Sum(m[i]))
  }

  function Total(m: seq<seq<real>>): real
  {
    Sum(RowSums(m))
  }

  /** The matrix without its last row and column. */
  function Leading(m: seq<seq<real>>): seq<seq<real>>
    requires Square(m) && |m| > 0
  {
    seq(|m| - 1, i requires 0 <= i < |m| - 1 => m[i][..|m| - 1])
  }

  /** The last column without its last entry. */
  function LastColumn(m: seq<seq<real>>): seq<real>
    requires Square(m) && |m| > 0
  {
    seq(|m| - 1, i requires 0 <= i < |m| - 1 => m[i][|m| - 1])
  }

  lemma {:induction false} TotalSplit(m: seq<seq<real>>)
    requires Square(m) && |m| > 0
    ensures Total(m) == Total(Leading(m)) + Sum(LastColumn(m)) + Sum(m[|m| - 1])
  {
    var n := |m| - 1;
    var rows := RowSums(m);
    assert rows[..n] == Add(RowSums(Leading(m)), LastColumn(m)) by {
      forall i | 0 <= i < n
        ensures rows[i] == RowSums(Leading(m))[i] + LastColumn(m)[i]
      {
        assert m[i][..|m[i]| - 1] == Leading(m)[i];
      }
    }
    SumAdd(RowSums(Leading(m)), LastColumn(m));
  }

  /** The last row and the last column of a complementary matrix add up to
      one per opponent. */
  lemma {:induction false} CrossSum(m: seq<seq<real>>)
    requires Complementary(m) && |m| > 0
    ensures Sum(LastColumn(m)) + Sum(m[|m| - 1]) == (|m| - 1) as real
  {
    var n := |m| - 1;
    var row := m[n][..n];
    assert Sum(m[n]) == Sum(row) + m[n][n];
    assert Add(LastColumn(m), row) == Constant(n, 1.0);
    SumAdd(LastColumn(m), row);
    SumConstant(n, 1.0);
  }

  /** The entries of an n-by-n complementary matrix add up to n(n-1)/2, the
      number of head-to-head pairs. */
  lemma {:induction false} ComplementaryTotal(m: seq<seq<real>>)
    requires Complementary(m)
    decreases |m|
    ensures Total(m) == Pairs(|m|)
  {
    if |m| > 0 {
      TotalSplit(m);
      CrossSum(m);
      ComplementaryTotal(Leading(m));
    }
  }

  /** `n * (n - 1) / 2`, the number of head-to-head pairs among `n` players,
      counted pair by pair (`PairsProduct` gives the closed form). */
  function Pairs(n: nat): (r: real)
    ensures r >= 0.0
    ensures n >= 2 ==> r >= 1.0
  {
    if n == 0 then 0.0 else Pairs(n - 1) + (n - 1) as real
  }

  lemma {:induction false} PairsProduct(n: nat)
    ensures Pairs(n) == (n as real) * ((n - 1) as real) / 2.0
  {
    if n > 0 {
      PairsProduct(n - 1);
      assert ((n - 1) as real) * ((n - 2) as real) / 2.0 + (n - 1) as real
          == (n as real) * ((n - 1) as real) / 2.0;
    }
  }

  /** `scale_factor = self.k * (n - 1)`. */
  function ScaleFactor(k: real, n: nat): real
  {
    k * ((n - 1) as real)
  }

  /** `MultiElo.get_expected_scores`: each player's summed win probabilities
      divided by the number of pairs, provided they sum to (nearly) 1. With
      fewer than two players the division is 0 / 0 (or the sum empty) in numpy,
      which fails that final check. */
  function ExpectedScores(p: real -> real, ratings: seq<real>): (r: Result<seq<real>, EloError>)
    ensures r.Success? ==> |r.value| == |ratings| >= 2 && AllClose(1.0, Sum(r.value))
  {
    var n := |ratings|;
    if n < 2 then Failure(ExpectedNotSummingToOne)
    else
      var expected := DivideBy(RowSums(PairwiseMatrix(p, ratings)), Pairs(n));
      if !AllClose(1.0, Sum(expected)) then Failure(ExpectedNotSummingToOne)
      else Success(expected)
  }

  /** `initial_ratings + scale_factor * (actual_scores - expected_scores)`. */
  function Adjusted(ratings: seq<real>, actual: seq<real>, expected: seq<real>, scale: real): seq<real>
    requires |actual| == |ratings| && |expected| == |ratings|
  {
    seq(|ratings|, i requires 0 <= i < |ratings| => ratings[i] + Change(scale, actual[i], expected[i]))
  }

  /** One player's rating change: the scale factor times actual minus
      expected score. */
  function Change(scale: real, actual: real, expected: real): real
  {
    scale * (actual - expected)
  }

  /** What a call adds to the rating total when the expected scores sum to 1:
      the scale factor times the excess of the actual score total over 1. */
  function Drift(scale: real, actual: seq<real>): real
  {
    scale * (Sum(actual) - 1.0)
  }

  /** `MultiElo.get_new_ratings`: ratings in finishing order in, new ratings in
      the same order out. */
  function GetNewRatings(rater: Rater, ratings: seq<real>): (r: Result<seq<real>, EloError>)
    ensures r.Success? ==> |r.value| == |ratings| >= 2
    ensures r.Success? ==> ValidateActualScores(rater.scoreFunction(|ratings|)).None?
  {
    var n := |ratings|;
    var actual :- ActualScores(rater, n);
    var expected :- ExpectedScores(rater.winProbability, ratings);
    if |actual| != n then Failure(ShapeMismatch)
    else Success(Adjusted(ratings, actual, expected, ScaleFactor(rater.k, n)))
  }

  lemma {:induction false} SumAdjusted(ratings: seq<real>, actual: seq<real>, expected: seq<real>, scale: real)
    requires |actual| == |ratings| && |expected| == |ratings|
    ensures Sum(Adjusted(ratings, actual, expected, scale))
         == Sum(ratings) + scale * (Sum(actual) - Sum(expected))
  {
    if ratings != [] {
      var n := |ratings| - 1;
      var adjusted := Adjusted(ratings, actual, expected, scale);
      var prefix := Adjusted(ratings[..n], actual[..n], expected[..n], scale);
      assert adjusted[..n] == prefix by {
        forall t | 0 <= t < n
          ensures adjusted[t] == prefix[t]
        {
        }
      }
      SumAdjusted(ratings[..n], actual[..n], expected[..n], scale);
      Distribute(scale, Sum(actual[..n]) - Sum(expected[..n]), actual[n] - expected[n]);
    }
  }

  lemma Distribute(c: real, x: real, y: real)
    ensures c * x + c * y == c * (x + y)
  {
  }

  /** The expected scores of at least two players sum to exactly 1, so the
      final check of `get_expected_scores` never fails. */
  lemma {:induction false} ExpectedScoresSumToOne(p: real -> real, ratings: seq<real>)
    requires Logistic(p) && |ratings| >= 2
    ensures ExpectedScores(p, ratings).Success?
    ensures Sum(ExpectedScores(p, ratings).value) == 1.0
  {
    var n := |ratings|;
    var m := PairwiseMatrix(p, ratings);
    ComplementaryTotal(m);
    var pairs := Pairs(n);
    var e := DivideBy(RowSums(m), pairs);
    SumDivideBy(RowSums(m), pairs);
    assert Sum(e) == pairs / pairs;
    DivideSelf(pairs);
    assert AllClose(1.0, Sum(e));
  }

  lemma DivideSelf(x: real)
    requires x != 0.0
    ensures x / x == 1.0
  {
  }

  /** Every expected score is positive: a player meets at least one opponent
      and beats each with positive probability. */
  lemma {:induction false} ExpectedScoresPositive(p: real -> real, ratings: seq<real>, i: nat)
    requires Logistic(p) && i < |ratings| && ExpectedScores(p, ratings).Success?
    ensures ExpectedScores(p, ratings).value[i] > 0.0
  {
    RowSumPositive(p, ratings, i);
    ExpectedScoreRow(p, ratings, i);
    DividePositive(Sum(PairwiseMatrix(p, ratings)[i]), Pairs(|ratings|));
  }

  /** With at least one opponent, a player's summed win probabilities are
      positive. */
  lemma {:induction false} RowSumPositive(p: real -> real, ratings: seq<real>, i: nat)
    requires Logistic(p) && 2 <= |ratings| && i < |ratings|
    ensures Sum(PairwiseMatrix(p, ratings)[i]) > 0.0
  {
    var row := PairwiseMatrix(p, ratings)[i];
    var j := if i == 0 then 1 else 0;
    assert row[j] == p(ratings[j] - ratings[i]);
    forall t | 0 <= t < |row|
      ensures row[t] >= 0.0
    {
      if t != i {
        assert row[t] == p(ratings[t] - ratings[i]);
      }
    }
    PositiveRow(row, j);
  }

  lemma DividePositive(x: real, d: real)
    requires x > 0.0 && d > 0.0
    ensures x / d > 0.0
  {
  }

  /** A row of win probabilities with one entry strictly inside (0, 1) and no
      negative entry has a positive sum. */
  lemma {:induction false} PositiveRow(row: seq<real>, j: nat)
    requires j < |row| && row[j] > 0.0
    requires forall t :: 0 <= t < |row| ==> row[t] >= 0.0
    ensures Sum(row) > 0.0
  {
    var n := |row| - 1;
    if j == n {
      NonNegativeSum(row[..n]);
    } else {
      PositiveRow(row[..n], j);
    }
  }

  lemma {:induction false} NonNegativeSum(s: seq<real>)
    requires forall t :: 0 <= t < |s| ==> s[t] >= 0.0
    ensures Sum(s) >= 0.0
  {
    if s != [] {
      NonNegativeSum(s[..|s| - 1]);
    }
  }

  lemma {:induction false} PairwiseRowReversed(p: real -> real, ratings: seq<real>, i: nat)
    requires i < |ratings|
    ensures PairwiseMatrix(p, Reverse(ratings))[i] == Reverse(PairwiseMatrix(p, ratings)[|ratings| - 1 - i])
  {
    var n := |ratings|;
    var row' := PairwiseMatrix(p, Reverse(ratings))[i];
    var row := PairwiseMatrix(p, ratings)[n - 1 - i];
    forall j | 0 <= j < n
      ensures row'[j] == Reverse(row)[j]
    {
      var rev := Reverse(ratings);
      assert rev[j] == ratings[n - 1 - j] && rev[i] == ratings[n - 1 - i];
      assert Reverse(row)[j] == row[n - 1 - j];
    }
  }

  lemma {:induction false} RowSumsReversed(p: real -> real, ratings: seq<real>)
    ensures RowSums(PairwiseMatrix(p, Reverse(ratings))) == Reverse(RowSums(PairwiseMatrix(p, ratings)))
  {
    var n := |ratings|;
    var m := PairwiseMatrix(p, ratings);
    var m' := PairwiseMatrix(p, Reverse(ratings));
    forall i | 0 <= i < n
      ensures RowSums(m')[i] == Reverse(RowSums(m))[i]
    {
      PairwiseRowReversed(p, ratings, i);
      SumReverse(m[n - 1 - i]);
    }
  }

  /** Reversing the input reverses the expected scores (and fails exactly
      when the original fails). */
  lemma {:induction false} ExpectedScoresReversed(p: real -> real, ratings: seq<real>)
    ensures ExpectedScores(p, Reverse(ratings)) ==
      match ExpectedScores(p, ratings)
      case Success(e) => Success(Reverse(e))
      case Failure(err) => Failure(err)
  {
    var n := |ratings|;
    if n >= 2 {
      var sums := RowSums(PairwiseMatrix(p, ratings));
      RowSumsReversed(p, ratings);
      var e := DivideBy(sums, Pairs(n));
      assert DivideBy(Reverse(sums), Pairs(n)) == Reverse(e);
      SumReverse(e);
    }
  }

  /** P(0) == 1/2 follows from P(x) + P(-x) == 1. */
  lemma EvenOdds(p: real -> real)
    requires Logistic(p)
    ensures p(0.0) == 0.5
  {
    assert p(0.0) + p(0.0) == 1.0;
  }

  lemma {:induction false} EqualRatingsRowSum(p: real -> real, ratings: seq<real>, i: nat)
    requires Logistic(p) && i < |ratings|
    requires forall t :: 0 <= t < |ratings| ==> ratings[t] == ratings[0]
    ensures Sum(PairwiseMatrix(p, ratings)[i]) == ((|ratings| - 1) as real) / 2.0
  {
    var n := |ratings|;
    EvenOdds(p);
    var row := PairwiseMatrix(p, ratings)[i];
    forall j | 0 <= j < n
      ensures row[j] == Constant(n, 0.5)[i := 0.0][j]
    {
      assert ratings[j] - ratings[i] == 0.0;
    }
    assert row == Constant(n, 0.5)[i := 0.0];
    SumUpdate(Constant(n, 0.5), i, 0.0);
    SumConstant(n, 0.5);
  }

  /** With all ratings equal every expected score is exactly 1/n. */
  lemma {:induction false} ExpectedScoresEqualRatings(p: real -> real, ratings: seq<real>)
    requires Logistic(p) && |ratings| >= 2
    requires forall i :: 0 <= i < |ratings| ==> ratings[i] == ratings[0]
    ensures ExpectedScores(p, ratings) == Success(Constant(|ratings|, 1.0 / (|ratings| as real)))
  {
    var n := |ratings|;
    var m := PairwiseMatrix(p, ratings);
    var e := DivideBy(RowSums(m), Pairs(n));
    forall i | 0 <= i < n
      ensures e[i] == 1.0 / (n as real)
    {
      EqualRatingsRowSum(p, ratings, i);
      EqualShare(n);
    }
    assert e == Constant(n, 1.0 / (n as real));
    ExpectedScoresSumToOne(p, ratings);
  }

  /** Half of one's n - 1 games over all pairs is a 1/n share. */
  lemma {:induction false} EqualShare(n: nat)
    requires n >= 2
    ensures (((n - 1) as real) / 2.0) / Pairs(n) == 1.0 / (n as real)
  {
    PairsProduct(n);
    var half := ((n - 1) as real) / 2.0;
    assert Pairs(n) == (n as real) * half;
    Cancel(half, n as real);
  }

  lemma Cancel(a: real, b: real)
    requires a != 0.0 && b != 0.0
    ensures a / (b * a) == 1.0 / b
  {
  }

  /** The ratings a call hands out minus the ratings it takes in:
      K(n-1) times the excess of the actual over the expected score total. */
  lemma {:induction false} RatingChangesSum(rater: Rater, ratings: seq<real>)
    requires Logistic(rater.winProbability)
    requires GetNewRatings(rater, ratings).Success?
    ensures Sum(GetNewRatings(rater, ratings).value)
         == Sum(ratings) + Drift(ScaleFactor(rater.k, |ratings|), rater.scoreFunction(|ratings|))
  {
    var n := |ratings|;
    ExpectedScoresSumToOne(rater.winProbability, ratings);
    NewRatingsAdjusted(rater, ratings);
    AdjustedTotal(ratings, rater.scoreFunction(n), ExpectedScores(rater.winProbability, ratings).value, ScaleFactor(rater.k, n));
  }

  /** Adjusting with expected scores that sum to 1 changes the rating total by
      the scale times the excess of the actual score total over 1. */
  lemma {:induction false} AdjustedTotal(ratings: seq<real>, actual: seq<real>, expected: seq<real>, scale: real)
    requires |actual| == |ratings| && |expected| == |ratings| && Sum(expected) == 1.0
    ensures Sum(Adjusted(ratings, actual, expected, scale)) == Sum(ratings) + Drift(scale, actual)
  {
    SumAdjusted(ratings, actual, expected, scale);
  }

  /** Zero sum: when the score function's scores add up to exactly 1, a
      matchup only redistributes rating points. */
  lemma {:induction false} ZeroSum(rater: Rater, ratings: seq<real>)
    requires Logistic(rater.winProbability)
    requires Sum(rater.scoreFunction(|ratings|)) == 1.0
    requires GetNewRatings(rater, ratings).Success?
    ensures Sum(GetNewRatings(rater, ratings).value) == Sum(ratings)
  {
    RatingChangesSum(rater, ratings);
    NoDrift(ScaleFactor(rater.k, |ratings|), rater.scoreFunction(|ratings|));
  }

  lemma NoDrift(scale: real, actual: seq<real>)
    requires Sum(actual) == 1.0
    ensures Drift(scale, actual) == 0.0
  {
  }

  /** Under `Logistic`, `get_new_ratings` fails exactly when the score
      function's vector for n players fails validation or has the wrong length
      (which rules out fewer than two players). */
  lemma {:induction false} GetNewRatingsSucceeds(rater: Rater, ratings: seq<real>)
    requires Logistic(rater.winProbability)
    ensures GetNewRatings(rater, ratings).Success? <==>
      ValidateActualScores(rater.scoreFunction(|ratings|)).None? && |rater.scoreFunction(|ratings|)| == |ratings|
  {
    if ValidateActualScores(rater.scoreFunction(|ratings|)).None? && |rater.scoreFunction(|ratings|)| == |ratings| {
      ExpectedScoresSumToOne(rater.winProbability, ratings);
    }
  }

  /** Player i's expected score is row i of the matrix over the pair count. */
  lemma {:induction false} ExpectedScoreRow(p: real -> real, ratings: seq<real>, i: nat)
    requires ExpectedScores(p, ratings).Success? && i < |ratings|
    ensures ExpectedScores(p, ratings).value[i] == Sum(PairwiseMatrix(p, ratings)[i]) / Pairs(|ratings|)
  {
  }

  /** Player i's win probabilities against each opponent, in table order,
      player i itself skipped. */
  function Opponents(p: real -> real, ratings: seq<real>, i: nat): (r: seq<real>)
    requires i < |ratings|
    ensures |r| == |ratings| - 1
  {
    seq(|ratings| - 1, j requires 0 <= j < |ratings| - 1 =>
      p(ratings[if j < i then j else j + 1] - ratings[i]))
  }

  /** A player's expected score: their summed win probabilities against the
      n - 1 opponents over the number of pairs, n(n - 1)/2 by `PairsProduct`. */
  lemma {:induction false} ExpectedScoreAt(p: real -> real, ratings: seq<real>, i: nat)
    requires ExpectedScores(p, ratings).Success? && i < |ratings|
    ensures ExpectedScores(p, ratings).value[i]
         == Sum(Opponents(p, ratings, i)) / Pairs(|ratings|)
  {
    ExpectedScoreRow(p, ratings, i);
    RowOpponents(p, ratings, i);
  }

  /** The row of the matrix sums to what the opponents give: its only other
      entry is the zero on the diagonal. */
  lemma {:induction false} RowOpponents(p: real -> real, ratings: seq<real>, i: nat)
    requires i < |ratings|
    ensures Sum(PairwiseMatrix(p, ratings)[i]) == Sum(Opponents(p, ratings, i))
  {
    var row := PairwiseMatrix(p, ratings)[i];
    var opp := Opponents(p, ratings, i);
    var spliced := opp[..i] + [0.0] + opp[i..];
    assert row == spliced by {
      forall j | 0 <= j < |row|
        ensures row[j] == spliced[j]
      {
        if j > i {
          assert spliced[j] == opp[j - 1];
        }
      }
    }
    assert Sum(spliced) == Sum(opp[..i]) + Sum(opp[i..]) by {
      SumAppend(opp[..i] + [0.0], opp[i..]);
      SumAppend(opp[..i], [0.0]);
      SumSingleton([0.0]);
    }
    SumAppend(opp[..i], opp[i..]);
    assert opp[..i] + opp[i..] == opp;
  }

  /** tests/test_elo.py: with K = 32 two players rated 1000 end at 1016 and 984. */
  lemma {:induction false} TwoEqualPlayers(rater: Rater)
    requires Logistic(rater.winProbability)
    requires rater.k == 32.0 && rater.scoreFunction(2) == [1.0, 0.0]
    ensures ExpectedScores(rater.winProbability, [1000.0, 1000.0]) == Success([0.5, 0.5])
    ensures GetNewRatings(rater, [1000.0, 1000.0]) == Success([1016.0, 984.0])
  {
    var ratings := [1000.0, 1000.0];
    ExpectedScoresEqualRatings(rater.winProbability, ratings);
    assert Constant(2, 1.0 / 2.0) == [0.5, 0.5];
    var scores := [1.0, 0.0];
    assert scores[..1] == [1.0] && [1.0][..0] == [];
    assert Sum(scores) == 1.0;
    assert ValidateActualScores(scores).None?;
    assert Adjusted(ratings, scores, [0.5, 0.5], 32.0) == [1016.0, 984.0];
  }

  /** Proof helper that only unfolds `GetNewRatings`: a successful call
      returns `Adjusted` of the score function's vector and the expected
      scores. */
  lemma {:induction false} NewRatingsAdjusted(rater: Rater, ratings: seq<real>)
    requires GetNewRatings(rater, ratings).Success?
    ensures ExpectedScores(rater.winProbability, ratings).Success?
    ensures |rater.scoreFunction(|ratings|)| == |ratings|
    ensures GetNewRatings(rater, ratings).value
         == Adjusted(ratings, rater.scoreFunction(|ratings|), ExpectedScores(rater.winProbability, ratings).value,
                     ScaleFactor(rater.k, |ratings|))
  {
  }

  /** All players equally rated: the rating changes strictly decrease with
      finishing position (for a positive K), and last place always loses. */
  lemma {:induction false} EqualRatingsMonotoneDeltas(rater: Rater, ratings: seq<real>, i: nat, j: nat)
    requires Logistic(rater.winProbability) && rater.k > 0.0
    requires forall t :: 0 <= t < |ratings| ==> ratings[t] == ratings[0]
    requires GetNewRatings(rater, ratings).Success?
    requires i < j < |ratings|
    ensures GetNewRatings(rater, ratings).value[i] - ratings[i]
          > GetNewRatings(rater, ratings).value[j] - ratings[j]
    ensures GetNewRatings(rater, ratings).value[|ratings| - 1] < ratings[|ratings| - 1]
  {
    var n := |ratings|;
    var scores := rater.scoreFunction(n);
    var expected := ExpectedScores(rater.winProbability, ratings).value;
    NewRatingsAdjusted(rater, ratings);
    ExpectedScoresEqualRatings(rater.winProbability, ratings);
    assert expected[i] == expected[j];
    ExpectedScoresPositive(rater.winProbability, ratings, n - 1);
    ScaleFactorPositive(rater.k, n);
    StrictlyDecreasingPairs(scores, i, j);
    AdjustedOrder(ratings, scores, expected, ScaleFactor(rater.k, n), i, j);
    AdjustedLoss(ratings, scores, expected, ScaleFactor(rater.k, n), n - 1);
  }

  /** A larger actual score against the same expected score earns the larger
      change. */
  lemma {:induction false} AdjustedOrder(ratings: seq<real>, actual: seq<real>, expected: seq<real>, scale: real, i: nat, j: nat)
    requires |actual| == |ratings| && |expected| == |ratings| && i < |ratings| && j < |ratings|
    requires scale > 0.0 && expected[i] == expected[j] && actual[i] > actual[j]
    ensures Adjusted(ratings, actual, expected, scale)[i] - ratings[i]
          > Adjusted(ratings, actual, expected, scale)[j] - ratings[j]
  {
    ScaleMonotone(scale, actual[i] - expected[i], actual[j] - expected[j]);
  }

  /** Scoring below expectation loses rating points. */
  lemma {:induction false} AdjustedLoss(ratings: seq<real>, actual: seq<real>, expected: seq<real>, scale: real, i: nat)
    requires |actual| == |ratings| && |expected| == |ratings| && i < |ratings|
    requires scale > 0.0 && actual[i] < expected[i]
    ensures Adjusted(ratings, actual, expected, scale)[i] < ratings[i]
  {
    ScaleMonotone(scale, 0.0, actual[i] - expected[i]);
  }

  lemma {:induction false} ScaleFactorPositive(k: real, n: nat)
    requires k > 0.0 && n >= 2
    ensures ScaleFactor(k, n) > 0.0
  {
  }

  lemma ScaleMonotone(scale: real, x: real, y: real)
    requires scale > 0.0 && x > y
    ensures scale * x > scale * y
  {
  }
}
