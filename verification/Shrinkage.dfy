// Shrinkage of estimated returns towards their mean, and the final blend of the shrunk covariance.
module Shrinkage {
  const MIN_ASSETS_FOR_MEAN := 3
  const MIN_ASSETS_FOR_COVARIANCE := 2
  const NOISE_VARIANCE := 25.0
  const FLOOR := 0.000000000000000001

  // Multiplication under a name, so that proofs about sums of products can leave it unexpanded.
  function Times(x: real, y: real): real {
    x * y
  }

  lemma Swap(x: real, y: real)
    ensures Times(x, y) == Times(y, x)
  {
  }

  lemma Zero(x: real)
    ensures Times(x, 0.0) == 0.0
  {
  }

  // ------------------------------------------------------------------ expected returns

  function Sum(x: seq<real>): real {
    if x == [] then 0.0 else x[0] + Sum(x[1..])
  }

  function Mean(x: seq<real>): real
    requires x != []
  {
    Sum(x) / |x| as real
  }

  // The sum of squared deviations from a given centre.
  function Spread(x: seq<real>, centre: real): real {
    if x == [] then 0.0
    else Times(x[0] - centre, x[0] - centre) + Spread(x[1..], centre)
  }

  function Dispersion(x: seq<real>): real
    requires x != []
  {
    Spread(x, Mean(x))
  }

  // A value moved towards `centre` by the given share of its distance to it.
  function Moved(value: real, centre: real, share: real): real {
    value - Times(share, value - centre)
  }

  function Pull(x: seq<real>, centre: real, share: real): (y: seq<real>)
    ensures |y| == |x| && forall i :: 0 <= i < |x| ==> y[i] == Moved(x[i], centre, share)
  {
    seq(|x|, i requires 0 <= i < |x| => Moved(x[i], centre, share))
  }

  function Clamped(x: real): (share: real)
    ensures 0.0 <= share <= 1.0
    ensures 0.0 <= x <= 1.0 ==> share == x
  {
    var atLeast := if x >= 0.0 then x else 0.0;
    if atLeast <= 1.0 then atLeast else 1.0
  }

  function ShrinkExpectedReturns(raw: seq<real>): seq<real> {
    if |raw| < MIN_ASSETS_FOR_MEAN then raw
    else
      var mean := Mean(raw);
      var dispersion := Spread(raw, mean);
      if dispersion < 0.000000000001 then raw
      else Pull(raw, mean, Clamped((|raw| - 2) as real * NOISE_VARIANCE / dispersion))
  }

  // The share of each deviation that is removed; zero where the values are handed back as they are.
  function Share(raw: seq<real>): (share: real)
    ensures 0.0 <= share <= 1.0
  {
    if |raw| < MIN_ASSETS_FOR_MEAN || Dispersion(raw) < 0.000000000001 then 0.0
    else Clamped((|raw| - 2) as real * NOISE_VARIANCE / Dispersion(raw))
  }

  // Nothing moves exactly for few or equal values; everything collapses on the mean exactly when the
  // assumed noise explains the whole dispersion; in between the noise is that share of the dispersion.
  lemma ShareExtremes(raw: seq<real>)
    requires raw != []
    ensures Share(raw) == 0.0 <==> |raw| < MIN_ASSETS_FOR_MEAN || Dispersion(raw) < 0.000000000001
    ensures Share(raw) == 1.0 <==>
              |raw| >= MIN_ASSETS_FOR_MEAN
              && 0.000000000001 <= Dispersion(raw) <= (|raw| - 2) as real * NOISE_VARIANCE
    ensures 0.0 < Share(raw) < 1.0 ==> Times(Share(raw), Dispersion(raw)) == (|raw| - 2) as real * NOISE_VARIANCE
  {
    if |raw| >= MIN_ASSETS_FOR_MEAN && Dispersion(raw) >= 0.000000000001 {
      Ratio((|raw| - 2) as real * NOISE_VARIANCE, Dispersion(raw));
    }
  }

  lemma Ratio(a: real, b: real)
    requires a > 0.0 && b > 0.0
    ensures a / b > 0.0 && (a / b >= 1.0 <==> b <= a)
    ensures Times(a / b, b) == a
  {
    assert a / b * b == a;
  }

  lemma ShrinkIsPull(raw: seq<real>)
    requires raw != []
    ensures ShrinkExpectedReturns(raw) == Pull(raw, Mean(raw), Share(raw))
  {
    if Share(raw) == 0.0 {
      ShareExtremes(raw);
      assert Pull(raw, Mean(raw), 0.0) == raw;
    }
  }

  lemma PullTail(x: seq<real>, centre: real, share: real)
    requires x != []
    ensures Pull(x, centre, share)[1..] == Pull(x[1..], centre, share)
  {
    hide Moved;
  }

  lemma {:induction false} SumOfPull(x: seq<real>, centre: real, share: real)
    ensures Sum(Pull(x, centre, share)) == Sum(x) - Times(share, Sum(x) - Times(|x| as real, centre))
  {
    if x == [] {
      Swap(0.0, centre);
      Zero(centre);
      Zero(share);
      hide Times;
    } else {
      SumOfPull(x[1..], centre, share);
      PullTail(x, centre, share);
      SumStep(|x[1..]|, centre);
      Distribute(share, x[0] - centre, Sum(x[1..]) - Times(|x[1..]| as real, centre));
      hide Times;
    }
  }

  lemma SumStep(n: nat, centre: real)
    ensures Times((n + 1) as real, centre) == Times(n as real, centre) + centre
  {
    assert (n + 1) as real == n as real + 1.0;
  }

  lemma Distribute(x: real, a: real, b: real)
    ensures Times(x, a + b) == Times(x, a) + Times(x, b)
  {
  }

  lemma {:induction false} SpreadOfPull(x: seq<real>, centre: real, share: real)
    ensures Spread(Pull(x, centre, share), centre)
            == Times(Times(1.0 - share, 1.0 - share), Spread(x, centre))
  {
    if x == [] {
      Zero(Times(1.0 - share, 1.0 - share));
    } else {
      SpreadOfPull(x[1..], centre, share);
      PullTail(x, centre, share);
      SquareStep(x[0], centre, share, Spread(x[1..], centre));
    }
    hide Times, Moved;
  }

  lemma SquareStep(value: real, centre: real, share: real, tail: real)
    ensures var left := Times(1.0 - share, 1.0 - share);
            var d, moved := value - centre, Moved(value, centre, share) - centre;
            Times(moved, moved) + Times(left, tail) == Times(left, Times(d, d) + tail)
  {
    var rest, d := 1.0 - share, value - centre;
    assert Moved(value, centre, share) - centre == rest * d;
    assert (rest * d) * (rest * d) == rest * rest * (d * d);
  }

  lemma MeanOfPull(x: seq<real>, share: real)
    requires x != []
    ensures Mean(Pull(x, Mean(x), share)) == Mean(x)
  {
    SumOfPull(x, Mean(x), share);
    assert Times(|x| as real, Mean(x)) == Sum(x);
    assert Times(share, 0.0) == 0.0;
    hide Times;
  }

  // The mean stays; the dispersion shrinks by the square of what is left of each deviation.
  lemma MeanKeptDispersionScaled(raw: seq<real>)
    requires raw != []
    ensures |ShrinkExpectedReturns(raw)| == |raw|
    ensures Mean(ShrinkExpectedReturns(raw)) == Mean(raw)
    ensures Dispersion(ShrinkExpectedReturns(raw)) == Times(Times(1.0 - Share(raw), 1.0 - Share(raw)), Dispersion(raw))
  {
    ShrinkIsPull(raw);
    hide ShrinkExpectedReturns, Share, Mean, Spread, Pull, Times;
    MeanOfPull(raw, Share(raw));
    SpreadOfPull(raw, Mean(raw), Share(raw));
  }

  lemma MovedBetween(value: real, centre: real, share: real)
    requires 0.0 <= share <= 1.0
    ensures value <= centre ==> value <= Moved(value, centre, share) <= centre
    ensures value >= centre ==> centre <= Moved(value, centre, share) <= value
  {
    hide Times;
    Part(share, value - centre);
  }

  lemma MovedInOrder(low: real, high: real, centre: real, share: real)
    requires 0.0 <= share <= 1.0 && low <= high
    ensures Moved(low, centre, share) <= Moved(high, centre, share)
    ensures low < high ==> (Moved(low, centre, share) < Moved(high, centre, share) <==> share < 1.0)
  {
    hide Times;
    Part(share, high - low);
    Distribute(share, high - low, low - centre);
    assert (high - low) + (low - centre) == high - centre;
  }

  lemma Part(share: real, d: real)
    requires 0.0 <= share <= 1.0
    ensures d >= 0.0 ==> 0.0 <= Times(share, d) <= d
    ensures d <= 0.0 ==> d <= Times(share, d) <= 0.0
    ensures d > 0.0 ==> (Times(share, d) < d <==> share < 1.0)
  {
    Whole(share, d);
    SignOf(share, d);
    SignOf(1.0 - share, d);
    hide Times;
  }

  lemma SignOf(x: real, d: real)
    requires x >= 0.0
    ensures d >= 0.0 ==> Times(x, d) >= 0.0
    ensures d <= 0.0 ==> Times(x, d) <= 0.0
    ensures d > 0.0 ==> (Times(x, d) > 0.0 <==> x > 0.0)
  {
  }

  lemma Whole(share: real, x: real)
    ensures Times(share, x) + Times(1.0 - share, x) == x
  {
  }

  // No value leaves the stretch between its raw value and the mean, and no two values change places.
  lemma BetweenAndInOrder(raw: seq<real>, i: nat, j: nat)
    requires i < |raw| && j < |raw|
    ensures var y, mean := ShrinkExpectedReturns(raw), Mean(raw);
            |y| == |raw|
            && (raw[i] <= mean ==> raw[i] <= y[i] <= mean)
            && (raw[i] >= mean ==> mean <= y[i] <= raw[i])
            && (raw[i] <= raw[j] ==> y[i] <= y[j])
            && (raw[i] < raw[j] ==> (y[i] < y[j] <==> Share(raw) < 1.0))
  {
    ShrinkIsPull(raw);
    hide ShrinkExpectedReturns, Share, Mean, Moved;
    MovedBetween(raw[i], Mean(raw), Share(raw));
    if raw[i] <= raw[j] {
      MovedInOrder(raw[i], raw[j], Mean(raw), Share(raw));
    }
  }

  // ------------------------------------------------------------------ the covariance blend

  ghost predicate SquareOf(m: seq<seq<real>>, n: nat) {
    |m| == n && forall i :: 0 <= i < n ==> |m[i]| == n
  }

  // The constant-correlation target: the sample's own variances, one correlation for every pair.
  function Target(cov: seq<seq<real>>, deviations: seq<real>, correlation: real): (m: seq<seq<real>>)
    requires SquareOf(cov, |deviations|)
    ensures SquareOf(m, |deviations|)
    ensures forall i, j :: 0 <= i < |m| && 0 <= j < |m| ==>
              m[i][j] == if i == j then cov[i][i] else Times(correlation, Times(deviations[i], deviations[j]))
  {
    var n := |deviations|;
    seq(n, i requires 0 <= i < n =>
      seq(n, j requires 0 <= j < n =>
        if i == j then cov[i][i] else Times(correlation, Times(deviations[i], deviations[j]))))
  }

  function Mix(share: real, a: seq<seq<real>>, b: seq<seq<real>>): (m: seq<seq<real>>)
    requires SquareOf(a, |a|) && SquareOf(b, |a|)
    ensures SquareOf(m, |a|)
    ensures forall i, j :: 0 <= i < |m| && 0 <= j < |m| ==>
              m[i][j] == Times(share, a[i][j]) + Times(1.0 - share, b[i][j])
  {
    var n := |a|;
    seq(n, i requires 0 <= i < n =>
      seq(n, j requires 0 <= j < n => Times(share, a[i][j]) + Times(1.0 - share, b[i][j])))
  }

  // The sample moved towards its target by a share that is cut to [0, 1].
  function Blend(cov: seq<seq<real>>, share: real, deviations: seq<real>, correlation: real): (m: seq<seq<real>>)
    requires SquareOf(cov, |deviations|)
    ensures SquareOf(m, |deviations|)
  {
    Mix(Clamped(share), Target(cov, deviations, correlation), cov)
  }

  ghost predicate Symmetric(m: seq<seq<real>>)
    requires SquareOf(m, |m|)
  {
    forall i, j :: 0 <= i < |m| && 0 <= j < |m| ==> m[i][j] == m[j][i]
  }

  // The blend keeps every variance and keeps symmetry.
  lemma BlendKeepsVariances(cov: seq<seq<real>>, share: real, deviations: seq<real>, correlation: real)
    requires SquareOf(cov, |deviations|)
    ensures var m := Blend(cov, share, deviations, correlation);
            (forall i :: 0 <= i < |m| ==> m[i][i] == cov[i][i])
            && (Symmetric(cov) ==> Symmetric(m))
  {
    hide Times;
    var m := Blend(cov, share, deviations, correlation);
    var target := Target(cov, deviations, correlation);
    forall i | 0 <= i < |m| ensures m[i][i] == cov[i][i] {
      Whole(Clamped(share), cov[i][i]);
    }
    if Symmetric(cov) {
      forall i, j | 0 <= i < |m| && 0 <= j < |m| ensures m[i][j] == m[j][i] {
        Swap(deviations[i], deviations[j]);
        assert target[i][j] == target[j][i];
      }
    }
  }

  // Each covariance moves by the share of its distance to the target's value, the share cut to [0, 1].
  lemma BlendStaysBetween(
    cov: seq<seq<real>>, share: real, deviations: seq<real>, correlation: real, i: nat, j: nat)
    requires SquareOf(cov, |deviations|) && i < |cov| && j < |cov| && i != j
    ensures var m := Blend(cov, share, deviations, correlation);
            var goal := Times(correlation, Times(deviations[i], deviations[j]));
            (cov[i][j] <= m[i][j] <= goal || goal <= m[i][j] <= cov[i][j])
            && (share <= 0.0 ==> m[i][j] == cov[i][j]) && (share >= 1.0 ==> m[i][j] == goal)
            && (0.0 <= share <= 1.0 ==> m[i][j] - cov[i][j] == Times(share, goal - cov[i][j]))
  {
    hide Times;
    var goal := Times(correlation, Times(deviations[i], deviations[j]));
    MovedBetween(cov[i][j], goal, Clamped(share));
    BlendIsMove(cov[i][j], goal, Clamped(share));
    MoveFrom(cov[i][j], goal, Clamped(share));
  }

  lemma MoveFrom(value: real, goal: real, share: real)
    ensures Moved(value, goal, share) - value == Times(share, goal - value)
    ensures share == 0.0 ==> Moved(value, goal, share) == value
    ensures share == 1.0 ==> Moved(value, goal, share) == goal
  {
  }

  lemma BlendIsMove(value: real, goal: real, share: real)
    ensures Times(share, goal) + Times(1.0 - share, value) == Moved(value, goal, share)
  {
  }

  // ------------------------------------------------------------------ the quadratic form of the blend

  ghost function RowForm(row: seq<real>, w: seq<real>, upTo: nat): real
    requires upTo <= |row| && upTo <= |w|
  {
    if upTo == 0 then 0.0 else RowForm(row, w, upTo - 1) + Times(w[upTo - 1], row[upTo - 1])
  }

  ghost function Form(m: seq<seq<real>>, w: seq<real>, upTo: nat): real
    requires SquareOf(m, |w|) && upTo <= |w|
  {
    if upTo == 0 then 0.0 else Form(m, w, upTo - 1) + Times(w[upTo - 1], RowForm(m[upTo - 1], w, |w|))
  }

  // No weighting of the assets gets a negative variance.
  ghost predicate PositiveSemidefinite(m: seq<seq<real>>)
    requires SquareOf(m, |m|)
  {
    forall w: seq<real> :: |w| == |m| ==> Form(m, w, |m|) >= 0.0
  }

  lemma {:induction false} RowOfMix(share: real, a: seq<real>, b: seq<real>, c: seq<real>, w: seq<real>, upTo: nat)
    requires |a| == |b| == |c| == |w| && upTo <= |w|
    requires forall j :: 0 <= j < |c| ==> c[j] == Times(share, a[j]) + Times(1.0 - share, b[j])
    ensures RowForm(c, w, upTo) == Times(share, RowForm(a, w, upTo)) + Times(1.0 - share, RowForm(b, w, upTo))
  {
    if upTo == 0 {
    } else {
      var j := upTo - 1;
      RowOfMix(share, a, b, c, w, j);
      Weighted(share, w[j], a[j], b[j], RowForm(a, w, j), RowForm(b, w, j));
      hide Times;
    }
  }

  lemma Weighted(share: real, w: real, x: real, y: real, p: real, q: real)
    ensures Times(share, p) + Times(1.0 - share, q) + Times(w, Times(share, x) + Times(1.0 - share, y))
            == Times(share, p + Times(w, x)) + Times(1.0 - share, q + Times(w, y))
  {
    var rest := 1.0 - share;
    assert w * (share * x + rest * y) == share * (w * x) + rest * (w * y);
  }

  lemma {:induction false} FormOfMix(share: real, a: seq<seq<real>>, b: seq<seq<real>>, w: seq<real>, upTo: nat)
    requires SquareOf(a, |w|) && SquareOf(b, |w|) && upTo <= |w|
    ensures Form(Mix(share, a, b), w, upTo) == Times(share, Form(a, w, upTo)) + Times(1.0 - share, Form(b, w, upTo))
  {
    hide Times;
    if upTo == 0 {
      Zero(share);
      Zero(1.0 - share);
    } else {
      var i := upTo - 1;
      FormOfMix(share, a, b, w, i);
      RowOfMix(share, a[i], b[i], Mix(share, a, b)[i], w, |w|);
      Weighted(share, w[i], RowForm(a[i], w, |w|), RowForm(b[i], w, |w|), Form(a, w, i), Form(b, w, i));
    }
  }

  // The weights scaled by the deviations: their running sum and sum of squares.
  ghost function Scaled(deviations: seq<real>, w: seq<real>, upTo: nat): real
    requires upTo <= |deviations| && upTo <= |w|
  {
    if upTo == 0 then 0.0
    else Scaled(deviations, w, upTo - 1) + Times(w[upTo - 1], deviations[upTo - 1])
  }

  ghost function ScaledSquares(deviations: seq<real>, w: seq<real>, upTo: nat): real
    requires upTo <= |deviations| && upTo <= |w|
  {
    if upTo == 0 then 0.0
    else
      var a := Times(w[upTo - 1], deviations[upTo - 1]);
      ScaledSquares(deviations, w, upTo - 1) + Times(a, a)
  }

  // The square roots of the variances, where a variance below the floor counts as the floor.
  ghost predicate AreDeviations(deviations: seq<real>, cov: seq<seq<real>>)
    requires SquareOf(cov, |deviations|)
  {
    forall i :: 0 <= i < |deviations| ==>
      deviations[i] > 0.0
      && Times(deviations[i], deviations[i]) == if cov[i][i] >= FLOOR then cov[i][i] else FLOOR
  }

  // No deviation was raised to the floor: each squares to its variance.
  ghost predicate Unfloored(deviations: seq<real>, cov: seq<seq<real>>)
    requires SquareOf(cov, |deviations|)
  {
    forall i :: 0 <= i < |deviations| ==> Times(deviations[i], deviations[i]) == cov[i][i]
  }

  lemma UnflooredIffAboveFloor(deviations: seq<real>, cov: seq<seq<real>>)
    requires SquareOf(cov, |deviations|) && AreDeviations(deviations, cov)
    ensures Unfloored(deviations, cov) <==> forall i :: 0 <= i < |cov| ==> cov[i][i] >= FLOOR
  {
    hide Times;
    forall i | 0 <= i < |cov| ensures Times(deviations[i], deviations[i]) == cov[i][i] <==> cov[i][i] >= FLOOR {
    }
  }

  // Row i of the target: every weight through the common correlation, and its own once more in full.
  lemma {:induction false} RowOfTarget(
    cov: seq<seq<real>>, deviations: seq<real>, correlation: real, w: seq<real>, i: nat, upTo: nat)
    requires SquareOf(cov, |deviations|) && AreDeviations(deviations, cov) && Unfloored(deviations, cov)
    requires |w| == |deviations| && i < |w| && upTo <= |w|
    ensures RowForm(Target(cov, deviations, correlation)[i], w, upTo)
            == Times(deviations[i],
                     Times(correlation, Scaled(deviations, w, upTo))
                     + (if i < upTo then Times(1.0 - correlation, Times(w[i], deviations[i])) else 0.0))
  {
    hide Times;
    if upTo == 0 {
      Zero(correlation);
      Zero(deviations[i]);
    } else {
      var j := upTo - 1;
      RowOfTarget(cov, deviations, correlation, w, i, j);
      var sum := Scaled(deviations, w, j);
      if i == j {
        RowStepOwn(deviations[i], correlation, sum, w[i]);
      } else {
        var own := if i < j then Times(1.0 - correlation, Times(w[i], deviations[i])) else 0.0;
        RowStepOther(deviations[i], correlation, sum, own, w[j], deviations[j]);
      }
    }
  }

  lemma RowStepOther(d: real, correlation: real, sum: real, own: real, w: real, e: real)
    ensures Times(d, Times(correlation, sum) + own) + Times(w, Times(correlation, Times(d, e)))
            == Times(d, Times(correlation, sum + Times(w, e)) + own)
  {
    assert w * (correlation * (d * e)) == d * (correlation * (w * e));
  }

  lemma RowStepOwn(d: real, correlation: real, sum: real, w: real)
    ensures Times(d, Times(correlation, sum) + 0.0) + Times(w, Times(d, d))
            == Times(d, Times(correlation, sum + Times(w, d)) + Times(1.0 - correlation, Times(w, d)))
  {
    assert w * (d * d) == d * (w * d);
  }

  // The target's quadratic form is a square of the scaled sum and a sum of scaled squares.
  lemma {:induction false} FormOfTarget(
    cov: seq<seq<real>>, deviations: seq<real>, correlation: real, w: seq<real>, upTo: nat)
    requires SquareOf(cov, |deviations|) && AreDeviations(deviations, cov) && Unfloored(deviations, cov)
    requires |w| == |deviations| && upTo <= |w|
    ensures Form(Target(cov, deviations, correlation), w, upTo)
            == Times(correlation, Times(Scaled(deviations, w, upTo), Scaled(deviations, w, |w|)))
               + Times(1.0 - correlation, ScaledSquares(deviations, w, upTo))
  {
    hide Times;
    var all := Scaled(deviations, w, |w|);
    if upTo == 0 {
      Swap(0.0, all);
      Zero(all);
      Zero(correlation);
      Zero(1.0 - correlation);
    } else {
      var i := upTo - 1;
      FormOfTarget(cov, deviations, correlation, w, i);
      RowOfTarget(cov, deviations, correlation, w, i, |w|);
      FormStep(correlation, Scaled(deviations, w, i), all, ScaledSquares(deviations, w, i), w[i], deviations[i]);
    }
  }

  lemma FormStep(correlation: real, sum: real, all: real, squares: real, w: real, d: real)
    ensures var a, rest := Times(w, d), 1.0 - correlation;
            Times(correlation, Times(sum, all)) + Times(rest, squares)
            + Times(w, Times(d, Times(correlation, all) + Times(rest, a)))
            == Times(correlation, Times(sum + a, all)) + Times(rest, squares + Times(a, a))
  {
    var a, rest := w * d, 1.0 - correlation;
    assert w * (d * (correlation * all + rest * a)) == a * (correlation * all + rest * a);
    assert a * (correlation * all + rest * a) == correlation * (a * all) + rest * (a * a);
  }

  // The Cauchy-Schwarz inequality for the scaled weights.
  lemma {:induction false} SumSquared(deviations: seq<real>, w: seq<real>, upTo: nat)
    requires upTo <= |deviations| && upTo <= |w|
    ensures ScaledSquares(deviations, w, upTo) >= 0.0
    ensures Times(Scaled(deviations, w, upTo), Scaled(deviations, w, upTo))
            <= Times(upTo as real, ScaledSquares(deviations, w, upTo))
  {
    hide Times;
    if upTo == 0 {
      Zero(0.0);
    } else {
      SumSquared(deviations, w, upTo - 1);
      OneMore(Scaled(deviations, w, upTo - 1), ScaledSquares(deviations, w, upTo - 1), upTo - 1,
              Times(w[upTo - 1], deviations[upTo - 1]));
    }
  }

  lemma OneMore(sum: real, squares: real, n: nat, a: real)
    requires Times(sum, sum) <= Times(n as real, squares) && squares >= 0.0
    ensures squares + Times(a, a) >= 0.0
    ensures Times(sum + a, sum + a) <= Times((n + 1) as real, squares + Times(a, a))
  {
    var k := n as real;
    ExpandSquare(sum, a);
    ExpandProduct(k, squares, Times(a, a));
    CrossTerm(sum, squares, k, a);
    Nonnegative(a);
    hide Times;
  }

  lemma Nonnegative(a: real)
    ensures Times(a, a) >= 0.0
  {
  }

  lemma ExpandSquare(x: real, y: real)
    ensures Times(x + y, x + y) == Times(x, x) + 2.0 * Times(x, y) + Times(y, y)
  {
  }

  lemma ExpandProduct(k: real, x: real, y: real)
    ensures Times(k + 1.0, x + y) == Times(k, x) + x + Times(k, y) + y
  {
  }

  lemma CrossTerm(sum: real, squares: real, k: real, a: real)
    requires Times(sum, sum) <= Times(k, squares) && squares >= 0.0 && (k == 0.0 || k >= 1.0)
    ensures 2.0 * Times(sum, a) <= squares + Times(k, Times(a, a))
  {
    if k == 0.0 {
      assert sum > 0.0 ==> sum * sum > 0.0;
      assert sum < 0.0 ==> sum * sum > 0.0;
    } else {
      var left, right := 2.0 * (sum * a), squares + k * (a * a);
      Nonnegative(k * a - sum);
      assert (k * a - sum) * (k * a - sum) == k * (k * (a * a)) - k * (2.0 * (sum * a)) + sum * sum;
      assert k * right == k * squares + k * (k * (a * a));
      Cancel(k, left, right);
    }
  }

  lemma Cancel(k: real, left: real, right: real)
    requires k > 0.0 && Times(k, left) <= Times(k, right)
    ensures left <= right
  {
    SignOf(k, left - right);
  }

  // Form and bound together: with a common correlation of at least -1/(n - 1) and at most 1 the target
  // is positive semidefinite.
  lemma TargetPositive(cov: seq<seq<real>>, deviations: seq<real>, correlation: real, w: seq<real>)
    requires SquareOf(cov, |deviations|) && AreDeviations(deviations, cov) && Unfloored(deviations, cov)
    requires |w| == |deviations| >= MIN_ASSETS_FOR_COVARIANCE
    requires correlation <= 1.0 && Times((|w| - 1) as real, correlation) >= -1.0
    ensures Form(Target(cov, deviations, correlation), w, |w|) >= 0.0
  {
    var n := |w|;
    var sum, squares := Scaled(deviations, w, n), ScaledSquares(deviations, w, n);
    FormOfTarget(cov, deviations, correlation, w, n);
    SumSquared(deviations, w, n);
    Nonnegative(sum);
    CommonCorrelation(n as real, correlation, Times(sum, sum), squares);
    hide Times;
  }

  lemma CommonCorrelation(n: real, correlation: real, sum2: real, squares: real)
    requires correlation <= 1.0 && Times(n - 1.0, correlation) >= -1.0
    requires 0.0 <= sum2 <= Times(n, squares) && squares >= 0.0
    ensures Times(correlation, sum2) + Times(1.0 - correlation, squares) >= 0.0
  {
    SignOf(1.0 - correlation, squares);
    if correlation >= 0.0 {
      SignOf(correlation, sum2);
    } else {
      SignOf(-correlation, Times(n, squares) - sum2);
      SignOf(Times(n - 1.0, correlation) + 1.0, squares);
      Regroup(n, correlation, sum2, squares);
    }
    hide Times;
  }

  lemma Regroup(n: real, correlation: real, sum2: real, squares: real)
    ensures Times(correlation, sum2) + Times(1.0 - correlation, squares)
            == Times(-correlation, Times(n, squares) - sum2) + Times(Times(n - 1.0, correlation) + 1.0, squares)
  {
    assert correlation * (n * squares) == (n * correlation) * squares;
  }

  // ------------------------------------------------------------------ the mean correlation

  function Correlation(cov: seq<seq<real>>, deviations: seq<real>, i: nat, j: nat): real
    requires SquareOf(cov, |deviations|) && AreDeviations(deviations, cov)
    requires i < |cov| && j < |cov|
  {
    SignOf(deviations[i], deviations[j]);
    cov[i][j] / Times(deviations[i], deviations[j])
  }

  // Row i of the correlation matrix summed over the other assets.
  function OffRow(cov: seq<seq<real>>, deviations: seq<real>, i: nat, upTo: nat): real
    requires SquareOf(cov, |deviations|) && AreDeviations(deviations, cov)
    requires i < |cov| && upTo <= |cov|
  {
    if upTo == 0 then 0.0
    else OffRow(cov, deviations, i, upTo - 1)
         + (if i == upTo - 1 then 0.0 else Correlation(cov, deviations, i, upTo - 1))
  }

  function OffSum(cov: seq<seq<real>>, deviations: seq<real>, upTo: nat): real
    requires SquareOf(cov, |deviations|) && AreDeviations(deviations, cov) && upTo <= |cov|
  {
    if upTo == 0 then 0.0
    else OffSum(cov, deviations, upTo - 1) + OffRow(cov, deviations, upTo - 1, |cov|)
  }

  function MeanCorrelation(cov: seq<seq<real>>, deviations: seq<real>): real
    requires SquareOf(cov, |deviations|) && AreDeviations(deviations, cov)
    requires |cov| >= MIN_ASSETS_FOR_COVARIANCE
  {
    OffSum(cov, deviations, |cov|) / (|cov| * (|cov| - 1)) as real
  }

  ghost function Inverses(deviations: seq<real>): (w: seq<real>)
    requires forall i :: 0 <= i < |deviations| ==> deviations[i] > 0.0
    ensures |w| == |deviations| && forall i :: 0 <= i < |w| ==> w[i] == 1.0 / deviations[i]
  {
    seq(|deviations|, i requires 0 <= i < |deviations| => 1.0 / deviations[i])
  }

  lemma CorrelationAsProduct(cov: seq<seq<real>>, deviations: seq<real>, i: nat, j: nat)
    requires SquareOf(cov, |deviations|) && AreDeviations(deviations, cov)
    requires i < |cov| && j < |cov|
    ensures var w := Inverses(deviations);
            Correlation(cov, deviations, i, j) == Times(w[i], Times(w[j], cov[i][j]))
    ensures i == j ==> Correlation(cov, deviations, i, j) <= 1.0
  {
    Quotient(deviations[i], deviations[j], cov[i][j]);
    SignOf(deviations[i], deviations[j]);
    hide Times;
  }

  lemma Quotient(d: real, e: real, c: real)
    requires d > 0.0 && e > 0.0
    ensures Times(d, e) > 0.0 && c / Times(d, e) == Times(1.0 / d, Times(1.0 / e, c))
    ensures c <= Times(d, e) ==> c / Times(d, e) <= 1.0
  {
    SignOf(d, e);
    AtMostOne(c, Times(d, e));
    var x := (1.0 / d) * ((1.0 / e) * c);
    assert (1.0 / d) * d == 1.0 && (1.0 / e) * e == 1.0;
    assert x * (d * e) == ((1.0 / d) * d) * (((1.0 / e) * e) * c);
    assert x * (d * e) == c;
  }

  lemma AtMostOne(c: real, whole: real)
    requires whole > 0.0
    ensures c <= whole ==> c / whole <= 1.0
    ensures c / whole <= 1.0 ==> c <= whole
  {
    SignOf(whole, c / whole - 1.0);
    assert whole * (c / whole) == c;
    assert Times(whole, c / whole - 1.0) == c - whole;
    hide Times;
  }

  lemma {:induction false} RowOfInverses(cov: seq<seq<real>>, deviations: seq<real>, i: nat, upTo: nat)
    requires SquareOf(cov, |deviations|) && AreDeviations(deviations, cov)
    requires i < |cov| && upTo <= |cov|
    ensures var w := Inverses(deviations);
            Times(w[i], RowForm(cov[i], w, upTo))
            <= OffRow(cov, deviations, i, upTo) + (if i < upTo then 1.0 else 0.0)
  {
    hide Times, Correlation;
    var w := Inverses(deviations);
    if upTo == 0 {
      Zero(w[i]);
    } else {
      var j := upTo - 1;
      RowOfInverses(cov, deviations, i, j);
      CorrelationAsProduct(cov, deviations, i, j);
      Distribute(w[i], RowForm(cov[i], w, j), Times(w[j], cov[i][j]));
    }
  }

  lemma {:induction false} FormOfInverses(cov: seq<seq<real>>, deviations: seq<real>, upTo: nat)
    requires SquareOf(cov, |deviations|) && AreDeviations(deviations, cov) && upTo <= |cov|
    ensures Form(cov, Inverses(deviations), upTo) <= OffSum(cov, deviations, upTo) + upTo as real
  {
    hide Times;
    if upTo == 0 {
    } else {
      FormOfInverses(cov, deviations, upTo - 1);
      RowOfInverses(cov, deviations, upTo - 1, |cov|);
    }
  }

  // A weighting of two assets against each other.
  ghost function Pair(n: nat, p: nat, q: nat, x: real, y: real): (w: seq<real>)
    ensures |w| == n && forall k :: 0 <= k < n ==> w[k] == if k == p then x else if k == q then y else 0.0
  {
    seq(n, k requires 0 <= k < n => if k == p then x else if k == q then y else 0.0)
  }

  lemma {:induction false} RowOfPair(row: seq<real>, p: nat, q: nat, x: real, y: real, upTo: nat)
    requires p != q && p < |row| && q < |row| && upTo <= |row|
    ensures RowForm(row, Pair(|row|, p, q, x, y), upTo)
            == (if p < upTo then Times(x, row[p]) else 0.0) + (if q < upTo then Times(y, row[q]) else 0.0)
  {
    hide Times;
    if upTo == 0 {
    } else {
      RowOfPair(row, p, q, x, y, upTo - 1);
      Swap(0.0, row[upTo - 1]);
      Zero(row[upTo - 1]);
    }
  }

  lemma {:induction false} FormOfPair(m: seq<seq<real>>, p: nat, q: nat, x: real, y: real, upTo: nat)
    requires SquareOf(m, |m|) && p != q && p < |m| && q < |m| && upTo <= |m|
    ensures Form(m, Pair(|m|, p, q, x, y), upTo)
            == (if p < upTo then Times(x, Times(x, m[p][p]) + Times(y, m[p][q])) else 0.0)
               + (if q < upTo then Times(y, Times(x, m[q][p]) + Times(y, m[q][q])) else 0.0)
  {
    hide Times;
    if upTo == 0 {
    } else {
      var i := upTo - 1;
      FormOfPair(m, p, q, x, y, i);
      RowOfPair(m[i], p, q, x, y, |m|);
      var form := RowForm(m[i], Pair(|m|, p, q, x, y), |m|);
      Swap(0.0, form);
      Zero(form);
    }
  }

  lemma CorrelationAtMostOne(cov: seq<seq<real>>, deviations: seq<real>, p: nat, q: nat)
    requires SquareOf(cov, |deviations|) && AreDeviations(deviations, cov)
    requires PositiveSemidefinite(cov) && Symmetric(cov)
    requires p != q && p < |cov| && q < |cov|
    ensures Correlation(cov, deviations, p, q) <= 1.0
  {
    var w := Inverses(deviations);
    var x, y := w[p], -w[q];
    FormOfPair(cov, p, q, x, y, |cov|);
    assert Form(cov, Pair(|cov|, p, q, x, y), |cov|) >= 0.0;
    CorrelationAsProduct(cov, deviations, p, q);
    CorrelationAsProduct(cov, deviations, p, p);
    CorrelationAsProduct(cov, deviations, q, q);
    AgainstEachOther(w[p], w[q], cov[p][p], cov[p][q], cov[q][q]);
    hide Times, Correlation;
  }

  lemma AgainstEachOther(x: real, y: real, a: real, b: real, c: real)
    ensures Times(x, Times(x, a) + Times(-y, b)) + Times(-y, Times(x, b) + Times(-y, c))
            == Times(x, Times(x, a)) - 2.0 * Times(x, Times(y, b)) + Times(y, Times(y, c))
  {
    assert y * (x * b) == x * (y * b);
  }

  lemma {:induction false} OffRowBound(cov: seq<seq<real>>, deviations: seq<real>, i: nat, upTo: nat)
    requires SquareOf(cov, |deviations|) && AreDeviations(deviations, cov)
    requires PositiveSemidefinite(cov) && Symmetric(cov)
    requires i < |cov| && upTo <= |cov|
    ensures OffRow(cov, deviations, i, upTo) <= upTo as real - (if i < upTo then 1.0 else 0.0)
  {
    hide Correlation, PositiveSemidefinite, Symmetric;
    if upTo == 0 {
    } else {
      OffRowBound(cov, deviations, i, upTo - 1);
      if i != upTo - 1 {
        CorrelationAtMostOne(cov, deviations, i, upTo - 1);
      }
    }
  }

  lemma {:induction false} OffSumBound(cov: seq<seq<real>>, deviations: seq<real>, upTo: nat)
    requires SquareOf(cov, |deviations|) && AreDeviations(deviations, cov)
    requires PositiveSemidefinite(cov) && Symmetric(cov) && upTo <= |cov|
    ensures OffSum(cov, deviations, upTo) <= Times(upTo as real, (|cov| - 1) as real)
  {
    hide PositiveSemidefinite, Symmetric, OffRow, Times;
    if upTo == 0 {
      Swap(0.0, (|cov| - 1) as real);
      Zero((|cov| - 1) as real);
    } else {
      OffSumBound(cov, deviations, upTo - 1);
      OffRowBound(cov, deviations, upTo - 1, |cov|);
      SumStep(upTo - 1, (|cov| - 1) as real);
    }
  }

  lemma MeanCorrelationInRange(cov: seq<seq<real>>, deviations: seq<real>)
    requires SquareOf(cov, |deviations|) && AreDeviations(deviations, cov)
    requires PositiveSemidefinite(cov) && Symmetric(cov) && |cov| >= MIN_ASSETS_FOR_COVARIANCE
    ensures MeanCorrelation(cov, deviations) <= 1.0
    ensures Times((|cov| - 1) as real, MeanCorrelation(cov, deviations)) >= -1.0
  {
    var n := |cov|;
    OffSumBound(cov, deviations, n);
    FormOfInverses(cov, deviations, n);
    assert Form(cov, Inverses(deviations), n) >= 0.0;
    hide OffSum, PositiveSemidefinite, Symmetric;
    Average(OffSum(cov, deviations, n), n);
  }

  lemma Average(sum: real, n: nat)
    requires n >= 2 && -(n as real) <= sum <= Times(n as real, (n - 1) as real)
    ensures sum / (n * (n - 1)) as real <= 1.0
    ensures Times((n - 1) as real, sum / (n * (n - 1)) as real) >= -1.0
  {
    var a, b := n as real, (n - 1) as real;
    Pairs(n);
    SignOf(a, b);
    AtMostOne(sum, Times(a, b));
    RestOfAll(a, b, sum);
    hide Times;
  }

  lemma Pairs(n: nat)
    requires n >= 1
    ensures (n * (n - 1)) as real == Times(n as real, (n - 1) as real)
  {
  }

  lemma RestOfAll(a: real, b: real, sum: real)
    requires a > 0.0 && b > 0.0 && sum >= -a
    ensures Times(a, b) > 0.0 && Times(b, sum / Times(a, b)) >= -1.0
  {
    SignOf(a, b);
    var mean := sum / Times(a, b);
    Undo(a, b, sum);
    Distribute(a, Times(b, mean), 1.0);
    Swap(a, 1.0);
    One(a);
    Zero(a);
    Cancel(a, 0.0, Times(b, mean) + 1.0);
    hide Times;
  }

  lemma Undo(a: real, b: real, sum: real)
    requires Times(a, b) > 0.0
    ensures Times(a, Times(b, sum / Times(a, b))) == sum
  {
    var whole := a * b;
    assert whole * (sum / whole) == sum;
    assert a * (b * (sum / whole)) == whole * (sum / whole);
  }

  lemma One(x: real)
    ensures Times(1.0, x) == x
  {
  }

  lemma MixIsPositive(cov: seq<seq<real>>, share: real, deviations: seq<real>, correlation: real, w: seq<real>)
    requires SquareOf(cov, |deviations|) && AreDeviations(deviations, cov) && Unfloored(deviations, cov)
    requires |w| == |deviations| >= MIN_ASSETS_FOR_COVARIANCE
    requires correlation <= 1.0 && Times((|w| - 1) as real, correlation) >= -1.0
    requires 0.0 <= share <= 1.0 && Form(cov, w, |w|) >= 0.0
    ensures Form(Mix(share, Target(cov, deviations, correlation), cov), w, |w|) >= 0.0
  {
    hide Times, Form, AreDeviations, Unfloored;
    var target := Target(cov, deviations, correlation);
    FormOfMix(share, target, cov, w, |w|);
    TargetPositive(cov, deviations, correlation, w);
    SignOf(share, Form(target, w, |w|));
    SignOf(1.0 - share, Form(cov, w, |w|));
  }

  // Whatever the share, a covariance blended with the target of its deviations and the mean correlation of
  // any covariance of the same assets is again a covariance: no weighting of the assets gets a negative
  // variance. No variance of the blended one may be below the floor.
  lemma BlendStaysPositive(
    cov: seq<seq<real>>, share: real, deviations: seq<real>, raw: seq<seq<real>>, rawDeviations: seq<real>)
    requires SquareOf(cov, |deviations|) && AreDeviations(deviations, cov) && Unfloored(deviations, cov)
    requires PositiveSemidefinite(cov) && |cov| >= MIN_ASSETS_FOR_COVARIANCE
    requires |rawDeviations| == |deviations| && SquareOf(raw, |deviations|) && AreDeviations(rawDeviations, raw)
    requires PositiveSemidefinite(raw) && Symmetric(raw)
    ensures PositiveSemidefinite(Blend(cov, share, deviations, MeanCorrelation(raw, rawDeviations)))
  {
    hide Times, MeanCorrelation, Symmetric, AreDeviations, Unfloored, Form;
    var correlation := MeanCorrelation(raw, rawDeviations);
    MeanCorrelationInRange(raw, rawDeviations);
    var m := Blend(cov, share, deviations, correlation);
    forall w: seq<real> | |w| == |m| ensures Form(m, w, |m|) >= 0.0 {
      assert Form(cov, w, |w|) >= 0.0;
      MixIsPositive(cov, Clamped(share), deviations, correlation, w);
    }
  }

  // For any deviations and correlation: every share gives a covariance exactly if the target is one.
  lemma BlendPositiveIff(cov: seq<seq<real>>, deviations: seq<real>, correlation: real)
    requires SquareOf(cov, |deviations|) && PositiveSemidefinite(cov)
    ensures (forall share :: PositiveSemidefinite(Blend(cov, share, deviations, correlation)))
      <==> PositiveSemidefinite(Target(cov, deviations, correlation))
  {
    hide Times, Form;
    var target := Target(cov, deviations, correlation);
    if PositiveSemidefinite(target) {
      forall share ensures PositiveSemidefinite(Blend(cov, share, deviations, correlation)) {
        var s := Clamped(share);
        forall w: seq<real> | |w| == |cov| ensures Form(Mix(s, target, cov), w, |w|) >= 0.0 {
          FormOfMix(s, target, cov, w, |w|);
          assert Form(target, w, |target|) >= 0.0 && Form(cov, w, |cov|) >= 0.0;
          SignOf(s, Form(target, w, |w|));
          SignOf(1.0 - s, Form(cov, w, |w|));
        }
      }
    }
    if forall share :: PositiveSemidefinite(Blend(cov, share, deviations, correlation)) {
      FullBlend(cov, deviations, correlation);
      assert PositiveSemidefinite(Blend(cov, 1.0, deviations, correlation));
    }
  }

  lemma FullBlend(cov: seq<seq<real>>, deviations: seq<real>, correlation: real)
    requires SquareOf(cov, |deviations|)
    ensures Blend(cov, 1.0, deviations, correlation) == Target(cov, deviations, correlation)
  {
    hide Times;
    var m, target := Blend(cov, 1.0, deviations, correlation), Target(cov, deviations, correlation);
    forall i | 0 <= i < |m| ensures m[i] == target[i] {
      forall j | 0 <= j < |m| ensures m[i][j] == target[i][j] {
        One(target[i][j]);
        Swap(1.0 - 1.0, cov[i][j]);
        Zero(cov[i][j]);
      }
    }
  }

  // An asset without variance that still covaries with another allows a weighting of negative variance.
  lemma NegativeWeighting(m: seq<seq<real>>, p: nat, q: nat) returns (w: seq<real>)
    requires SquareOf(m, |m|) && p != q && p < |m| && q < |m|
    requires m[p][p] == 0.0 && m[p][q] == m[q][p] != 0.0
    ensures |w| == |m| && Form(m, w, |m|) < 0.0
  {
    var c := m[p][q];
    var x := -(m[q][q] + 1.0) / (2.0 * c);
    w := Pair(|m|, p, q, x, 1.0);
    FormOfPair(m, p, q, x, 1.0, |m|);
    Below(x, c, m[q][q]);
    hide Times;
  }

  // So in a covariance it covaries with none.
  lemma NoVarianceNoCovariance(m: seq<seq<real>>, p: nat, q: nat)
    requires SquareOf(m, |m|) && Symmetric(m) && PositiveSemidefinite(m)
    requires p != q && p < |m| && q < |m| && m[p][p] == 0.0
    ensures m[p][q] == 0.0
  {
    if m[p][q] != 0.0 {
      var w := NegativeWeighting(m, p, q);
    }
  }

  lemma Below(x: real, c: real, v: real)
    requires c != 0.0 && x == -(v + 1.0) / (2.0 * c)
    ensures Times(x, Times(x, 0.0) + Times(1.0, c)) + Times(1.0, Times(x, c) + Times(1.0, v)) == -1.0
  {
    assert x * (2.0 * c) == -(v + 1.0);
  }

  // With an asset that does not vary, no positive share of a target with a non-zero correlation would do.
  lemma ZeroVarianceBreaksBlend(
    cov: seq<seq<real>>, share: real, deviations: seq<real>, correlation: real, p: nat, q: nat)
    requires SquareOf(cov, |deviations|) && AreDeviations(deviations, cov)
    requires PositiveSemidefinite(cov) && Symmetric(cov)
    requires share > 0.0 && correlation != 0.0
    requires p != q && p < |cov| && q < |cov| && cov[p][p] == 0.0
    ensures !PositiveSemidefinite(Blend(cov, share, deviations, correlation))
  {
    hide Times;
    var m := Blend(cov, share, deviations, correlation);
    BlendKeepsVariances(cov, share, deviations, correlation);
    NoVarianceNoCovariance(cov, p, q);
    var s, goal := Clamped(share), Times(correlation, Times(deviations[p], deviations[q]));
    assert m[p][q] == Times(s, goal) + Times(1.0 - s, 0.0);
    Zero(1.0 - s);
    NonZero(deviations[p], deviations[q]);
    NonZero(correlation, Times(deviations[p], deviations[q]));
    NonZero(s, goal);
    if PositiveSemidefinite(m) {
      NoVarianceNoCovariance(m, p, q);
    }
  }

  lemma NonZero(x: real, y: real)
    requires x != 0.0 && y != 0.0
    ensures Times(x, y) != 0.0
  {
    assert x * y / y == x;
  }
}
