// The shrunk covariance from the returns themselves: the estimated intensity with its loop over pairs,
// what division by a variance of zero does to it, and whether the result is still a covariance.
module CovarianceShrinkage {
  import opened Shrinkage

  // A floating-point number that may be infinite or not a number (IEEE 754, section 6); the finite ones
  // are exact here.
  datatype Float = Number(x: real) | Infinite(positive: bool) | NaN

  function Ratio(a: real, b: real): Float
    requires a >= 0.0 && b >= 0.0
  {
    if b != 0.0 then Number(a / b) else if a > 0.0 then Infinite(true) else NaN
  }

  // `root` is the square root; a function, because it is only known where it is used.
  function RootOf(root: real -> real, f: Float): Float {
    if f.Number? then Number(root(f.x)) else f
  }

  function Scale(f: Float, y: real): Float {
    match f
    case Number(x) => Number(x * y)
    case Infinite(positive) => if y == 0.0 then NaN else Infinite(positive == (y > 0.0))
    case NaN => NaN
  }

  function Plus(f: Float, g: Float): Float {
    match f
    case NaN => NaN
    case Number(x) => if g.Number? then Number(x + g.x) else g
    case Infinite(p) => if g.Number? || g == f then f else NaN
  }

  // ------------------------------------------------------------------ moments of the returns

  function Centred(x: seq<real>): (y: seq<real>)
    ensures |y| == |x|
  {
    if x == [] then [] else seq(|x|, t requires 0 <= t < |x| => x[t] - Mean(x))
  }

  lemma {:induction false} SumOfShifted(x: seq<real>, y: seq<real>, c: real)
    requires |x| == |y| && forall i :: 0 <= i < |x| ==> y[i] == x[i] - c
    ensures Sum(y) == Sum(x) - Times(|x| as real, c)
  {
    if x == [] {
      Swap(0.0, c);
      Zero(c);
    } else {
      SumOfShifted(x[1..], y[1..], c);
      SumStep(|x[1..]|, c);
    }
  }

  // Centred returns average zero, and keep every difference between two days.
  lemma CentredMeans(x: seq<real>)
    requires x != []
    ensures Mean(Centred(x)) == 0.0
    ensures forall s, t :: 0 <= s < |x| && 0 <= t < |x| ==> Centred(x)[t] - Centred(x)[s] == x[t] - x[s]
  {
    SumOfShifted(x, Centred(x), Mean(x));
    assert Times(|x| as real, Mean(x)) == Sum(x);
  }

  ghost predicate Rectangular(rows: seq<seq<real>>, t: nat) {
    forall i :: 0 <= i < |rows| ==> |rows[i]| == t
  }

  function CentredAll(history: seq<seq<real>>): (rows: seq<seq<real>>)
    ensures |rows| == |history| && forall i :: 0 <= i < |rows| ==> |rows[i]| == |history[i]|
  {
    seq(|history|, i requires 0 <= i < |history| => Centred(history[i]))
  }

  function Dot(u: seq<real>, v: seq<real>): real
    requires |u| == |v|
  {
    if u == [] then 0.0 else Times(u[0], v[0]) + Dot(u[1..], v[1..])
  }

  function PerDay(sum: real, t: nat): real
    requires t > 0
  {
    sum / t as real
  }

  // The sample covariance of centred returns.
  function Raw(rows: seq<seq<real>>, t: nat): (m: seq<seq<real>>)
    requires t > 0 && Rectangular(rows, t)
    ensures SquareOf(m, |rows|)
    ensures forall i, j :: 0 <= i < |m| && 0 <= j < |m| ==> m[i][j] == PerDay(Dot(rows[i], rows[j]), t)
  {
    seq(|rows|, i requires 0 <= i < |rows| =>
      seq(|rows|, j requires 0 <= j < |rows| => PerDay(Dot(rows[i], rows[j]), t)))
  }

  // The summed squared deviation of the products of two assets from their covariance.
  function Fluctuation(u: seq<real>, v: seq<real>, covariance: real): real
    requires |u| == |v|
  {
    if u == [] then 0.0
    else
      var d := Times(u[0], v[0]) - covariance;
      Times(d, d) + Fluctuation(u[1..], v[1..], covariance)
  }

  // How the squares of the first asset move with the products of both.
  function CoFluctuation(u: seq<real>, v: seq<real>, variance: real, covariance: real): real
    requires |u| == |v|
  {
    if u == [] then 0.0
    else Times(Times(u[0], u[0]) - variance, Times(u[0], v[0]) - covariance)
         + CoFluctuation(u[1..], v[1..], variance, covariance)
  }

  function Pi(rows: seq<seq<real>>, t: nat, i: nat, j: nat): real
    requires t > 0 && Rectangular(rows, t) && i < |rows| && j < |rows|
  {
    PerDay(Fluctuation(rows[i], rows[j], Raw(rows, t)[i][j]), t)
  }

  function Asymptotic(rows: seq<seq<real>>, t: nat, i: nat, j: nat): real
    requires t > 0 && Rectangular(rows, t) && i < |rows| && j < |rows|
  {
    PerDay(CoFluctuation(rows[i], rows[j], Raw(rows, t)[i][i], Raw(rows, t)[i][j]), t)
  }

  // Sums over a row, and over all rows, of a matrix given entry by entry.
  function RowSum(entry: (nat, nat) -> real, i: nat, upTo: nat): real {
    if upTo == 0 then 0.0 else RowSum(entry, i, upTo - 1) + entry(i, upTo - 1)
  }

  function TotalSum(entry: (nat, nat) -> real, n: nat, upTo: nat): real {
    if upTo == 0 then 0.0 else TotalSum(entry, n, upTo - 1) + RowSum(entry, upTo - 1, n)
  }

  function PiSum(rows: seq<seq<real>>, t: nat): real
    requires t > 0 && Rectangular(rows, t)
  {
    TotalSum((i: nat, j: nat) => if i < |rows| && j < |rows| then Pi(rows, t, i, j) else 0.0, |rows|, |rows|)
  }

  function PiTrace(rows: seq<seq<real>>, t: nat, upTo: nat): real
    requires t > 0 && Rectangular(rows, t) && upTo <= |rows|
  {
    if upTo == 0 then 0.0 else PiTrace(rows, t, upTo - 1) + Pi(rows, t, upTo - 1, upTo - 1)
  }

  // The squared distance of the sample from its target.
  function Gap(raw: seq<seq<real>>, target: seq<seq<real>>): real
    requires SquareOf(raw, |raw|) && SquareOf(target, |raw|)
  {
    TotalSum((i: nat, j: nat) =>
               if i < |raw| && j < |raw| then Times(target[i][j] - raw[i][j], target[i][j] - raw[i][j]) else 0.0,
             |raw|, |raw|)
  }

  lemma {:induction false} DotSelf(v: seq<real>)
    ensures Dot(v, v) >= 0.0
    ensures Dot(v, v) == 0.0 ==> forall k :: 0 <= k < |v| ==> v[k] == 0.0
  {
    if v == [] {
    } else {
      DotSelf(v[1..]);
      Nonnegative(v[0]);
      if v[0] != 0.0 {
        NonZero(v[0], v[0]);
      }
    }
  }

  lemma PerDayKeepsSign(sum: real, t: nat)
    requires t > 0
    ensures sum >= 0.0 ==> PerDay(sum, t) >= 0.0
    ensures PerDay(sum, t) == 0.0 <==> sum == 0.0
  {
    assert PerDay(sum, t) * t as real == sum;
  }

  // A variance is never negative, and zero only for an asset that never moves.
  lemma Variances(rows: seq<seq<real>>, t: nat, i: nat)
    requires t > 0 && Rectangular(rows, t) && i < |rows|
    ensures Raw(rows, t)[i][i] >= 0.0
    ensures Raw(rows, t)[i][i] == 0.0 ==> forall k :: 0 <= k < t ==> rows[i][k] == 0.0
  {
    DotSelf(rows[i]);
    PerDayKeepsSign(Dot(rows[i], rows[i]), t);
  }

  // ------------------------------------------------------------------ the loop over pairs

  // What one pair adds: two ratios of deviations, each times how the pair fluctuates together.
  function PairTerm(rows: seq<seq<real>>, t: nat, root: real -> real, correlation: real, i: nat, j: nat): Float
    requires t > 0 && Rectangular(rows, t) && i < |rows| && j < |rows|
  {
    Variances(rows, t, i);
    Variances(rows, t, j);
    var vi, vj := Raw(rows, t)[i][i], Raw(rows, t)[j][j];
    Scale(Plus(Scale(RootOf(root, Ratio(vj, vi)), Asymptotic(rows, t, i, j)),
               Scale(RootOf(root, Ratio(vi, vj)), Asymptotic(rows, t, j, i))),
          correlation / 2.0)
  }

  // The running value of the loop, row by row and within a row.
  function RhoRow(rows: seq<seq<real>>, t: nat, root: real -> real, correlation: real, start: Float, i: nat, upTo: nat): Float
    requires t > 0 && Rectangular(rows, t) && i < |rows| && upTo <= |rows|
    decreases upTo
  {
    if upTo == 0 then start
    else
      var before := RhoRow(rows, t, root, correlation, start, i, upTo - 1);
      if i == upTo - 1 then before else Plus(before, PairTerm(rows, t, root, correlation, i, upTo - 1))
  }

  function Rho(rows: seq<seq<real>>, t: nat, root: real -> real, correlation: real, upTo: nat): Float
    requires t > 0 && Rectangular(rows, t) && upTo <= |rows|
    decreases upTo
  {
    if upTo == 0 then Number(PiTrace(rows, t, |rows|))
    else RhoRow(rows, t, root, correlation, Rho(rows, t, root, correlation, upTo - 1), upTo - 1, |rows|)
  }

  method RhoHat(rows: seq<seq<real>>, t: nat, root: real -> real, correlation: real) returns (rho: Float)
    requires t > 0 && Rectangular(rows, t)
    ensures rho == Rho(rows, t, root, correlation, |rows|)
  {
    hide PairTerm, PiTrace, Plus;
    rho := Number(PiTrace(rows, t, |rows|));
    for i := 0 to |rows|
      invariant rho == Rho(rows, t, root, correlation, i)
    {
      ghost var start := rho;
      for j := 0 to |rows|
        invariant rho == RhoRow(rows, t, root, correlation, start, i, j)
      {
        if i == j {
          continue;
        }
        rho := Plus(rho, PairTerm(rows, t, root, correlation, i, j));
      }
    }
  }

  lemma {:induction false} StillCoFluctuation(u: seq<real>, v: seq<real>, covariance: real)
    requires |u| == |v| && forall k :: 0 <= k < |u| ==> u[k] == 0.0
    ensures CoFluctuation(u, v, 0.0, covariance) == 0.0
  {
    if u == [] {
    } else {
      StillCoFluctuation(u[1..], v[1..], covariance);
      Zero(0.0);
      Swap(0.0, Times(u[0], v[0]) - covariance);
      Zero(Times(u[0], v[0]) - covariance);
    }
  }

  // One asset of the pair not moving at all is what makes its term no number: the ratio of deviations is
  // infinite, or no number itself, and the factor beside it is zero.
  lemma PairTermNumber(rows: seq<seq<real>>, t: nat, root: real -> real, correlation: real, i: nat, j: nat)
    requires t > 0 && Rectangular(rows, t) && i < |rows| && j < |rows|
    ensures var raw := Raw(rows, t); var term := PairTerm(rows, t, root, correlation, i, j);
            if raw[i][i] == 0.0 || raw[j][j] == 0.0 then term == NaN else term.Number?
  {
    Variances(rows, t, i);
    Variances(rows, t, j);
    var raw := Raw(rows, t);
    if raw[i][i] == 0.0 {
      StillCoFluctuation(rows[i], rows[j], raw[i][j]);
      PerDayKeepsSign(0.0, t);
      assert Asymptotic(rows, t, i, j) == 0.0;
    }
    if raw[j][j] == 0.0 {
      StillCoFluctuation(rows[j], rows[i], raw[j][i]);
      PerDayKeepsSign(0.0, t);
      assert Asymptotic(rows, t, j, i) == 0.0;
    }
  }

  // Some asset never moves.
  ghost predicate Still(rows: seq<seq<real>>, t: nat, upTo: nat)
    requires t > 0 && Rectangular(rows, t) && upTo <= |rows|
  {
    exists i :: 0 <= i < upTo && Raw(rows, t)[i][i] == 0.0
  }

  ghost predicate Touches(rows: seq<seq<real>>, t: nat, i: nat, j: nat)
    requires t > 0 && Rectangular(rows, t) && i < |rows| && j < |rows|
  {
    j != i && (Raw(rows, t)[i][i] == 0.0 || Raw(rows, t)[j][j] == 0.0)
  }

  lemma PlusNumber(f: Float, g: Float)
    requires !f.Infinite? && !g.Infinite?
    ensures !Plus(f, g).Infinite? && (Plus(f, g) == NaN <==> f == NaN || g == NaN)
  {
  }

  lemma TouchesIsNaN(rows: seq<seq<real>>, t: nat, root: real -> real, correlation: real, i: nat, j: nat)
    requires t > 0 && Rectangular(rows, t) && i < |rows| && j < |rows|
    ensures var term := PairTerm(rows, t, root, correlation, i, j);
            !term.Infinite? && (Touches(rows, t, i, j) <==> i != j && term == NaN)
  {
    hide PairTerm, Raw;
    PairTermNumber(rows, t, root, correlation, i, j);
  }

  lemma {:induction false} RhoRowNumber(
    rows: seq<seq<real>>, t: nat, root: real -> real, correlation: real, start: Float, i: nat, upTo: nat)
    requires t > 0 && Rectangular(rows, t) && i < |rows| && upTo <= |rows| && !start.Infinite?
    ensures var rho := RhoRow(rows, t, root, correlation, start, i, upTo);
            !rho.Infinite? && (rho == NaN <==> (start == NaN || exists j :: 0 <= j < upTo && Touches(rows, t, i, j)))
    decreases upTo
  {
    hide PairTerm, Touches, Raw, Plus;
    if upTo == 0 {
    } else {
      var j := upTo - 1;
      RhoRowNumber(rows, t, root, correlation, start, i, j);
      TouchesIsNaN(rows, t, root, correlation, i, j);
      PlusNumber(RhoRow(rows, t, root, correlation, start, i, j), PairTerm(rows, t, root, correlation, i, j));
      assert (exists k :: 0 <= k < upTo && Touches(rows, t, i, k))
        <==> (Touches(rows, t, i, j) || exists k :: 0 <= k < j && Touches(rows, t, i, k));
    }
  }

  // With at least two assets every asset is in some pair, already of the first row.
  lemma FirstRowTouches(rows: seq<seq<real>>, t: nat, i: nat)
    requires t > 0 && Rectangular(rows, t) && |rows| >= 2 && i < |rows|
    ensures i == 0 && Still(rows, t, |rows|) ==> exists j :: 0 <= j < |rows| && Touches(rows, t, i, j)
    ensures (exists j :: 0 <= j < |rows| && Touches(rows, t, i, j)) ==> Still(rows, t, |rows|)
  {
    if i == 0 && Still(rows, t, |rows|) {
      var k :| 0 <= k < |rows| && Raw(rows, t)[k][k] == 0.0;
      assert Touches(rows, t, i, if k == 0 then 1 else k);
    }
  }

  lemma {:induction false} RhoNumber(rows: seq<seq<real>>, t: nat, root: real -> real, correlation: real, upTo: nat)
    requires t > 0 && Rectangular(rows, t) && upTo <= |rows| && |rows| >= 2
    ensures var rho := Rho(rows, t, root, correlation, upTo);
            !rho.Infinite? && (upTo == 0 ==> rho.Number?)
            && (upTo >= 1 ==> (rho == NaN <==> Still(rows, t, |rows|)))
    decreases upTo
  {
    hide RhoRow, Raw, PiTrace, Still, Touches;
    if upTo == 0 {
    } else {
      RhoNumber(rows, t, root, correlation, upTo - 1);
      RhoRowNumber(rows, t, root, correlation, Rho(rows, t, root, correlation, upTo - 1), upTo - 1, |rows|);
      FirstRowTouches(rows, t, upTo - 1);
    }
  }

  // ------------------------------------------------------------------ the shrunk covariance

  function Floored(variance: real): real {
    if variance >= FLOOR then variance else FLOOR
  }

  function Deviations(m: seq<seq<real>>, root: real -> real): (deviations: seq<real>)
    requires SquareOf(m, |m|)
    ensures |deviations| == |m| && forall i :: 0 <= i < |m| ==> deviations[i] == root(Floored(m[i][i]))
  {
    seq(|m|, i requires 0 <= i < |m| => root(Floored(m[i][i])))
  }

  ghost predicate IsRootAt(root: real -> real, x: real) {
    root(x) >= 0.0 && Times(root(x), root(x)) == x
  }

  // `root` is right at every variance of the matrix.
  ghost predicate RootsFit(root: real -> real, m: seq<seq<real>>)
    requires SquareOf(m, |m|)
  {
    forall i :: 0 <= i < |m| ==> IsRootAt(root, Floored(m[i][i]))
  }

  lemma RootsAreDeviations(root: real -> real, m: seq<seq<real>>)
    requires SquareOf(m, |m|) && RootsFit(root, m)
    ensures AreDeviations(Deviations(m, root), m)
  {
    var d := Deviations(m, root);
    forall i | 0 <= i < |m| ensures d[i] > 0.0 && Times(d[i], d[i]) == Floored(m[i][i]) {
      assert IsRootAt(root, Floored(m[i][i]));
      if d[i] == 0.0 {
        Zero(d[i]);
      }
    }
  }

  // The result; NoNumbers stands for a matrix without a single number in it.
  datatype Shrunk = NoNumbers | Matrix(m: seq<seq<real>>)

  ghost predicate Shaped(history: seq<seq<real>>, cov: seq<seq<real>>, t: nat, root: real -> real) {
    && SquareOf(cov, |history|) && Rectangular(history, t)
    && RootsFit(root, cov)
    && (t > 0 ==> Rectangular(CentredAll(history), t) && RootsFit(root, Raw(CentredAll(history), t)))
  }

  // The mean correlation of the returns, and the intensity before it is cut to [0, 1].
  function Common(history: seq<seq<real>>, t: nat, root: real -> real): real
    requires t > 0 && |history| >= MIN_ASSETS_FOR_COVARIANCE
    requires Rectangular(CentredAll(history), t) && RootsFit(root, Raw(CentredAll(history), t))
  {
    var raw := Raw(CentredAll(history), t);
    RootsAreDeviations(root, raw);
    MeanCorrelation(raw, Deviations(raw, root))
  }

  function GapOf(history: seq<seq<real>>, t: nat, root: real -> real): real
    requires t > 0 && |history| >= MIN_ASSETS_FOR_COVARIANCE
    requires Rectangular(CentredAll(history), t) && RootsFit(root, Raw(CentredAll(history), t))
  {
    var raw := Raw(CentredAll(history), t);
    Gap(raw, Target(raw, Deviations(raw, root), Common(history, t, root)))
  }

  function ShrinkCovariance(history: seq<seq<real>>, cov: seq<seq<real>>, t: nat, root: real -> real): Shrunk
    requires Shaped(history, cov, t, root)
  {
    if |history| < MIN_ASSETS_FOR_COVARIANCE || t < 3 then Matrix(cov)
    else
      var rows := CentredAll(history);
      var gap := GapOf(history, t, root);
      if gap < FLOOR then Matrix(cov)
      else
        var correlation := Common(history, t, root);
        match Rho(rows, t, root, correlation, |rows|)
        case NaN => NoNumbers
        case Infinite(positive) => Matrix(Blend(cov, if positive then 0.0 else 1.0, Deviations(cov, root), correlation))
        case Number(rho) =>
          Matrix(Blend(cov, (PiSum(rows, t) - rho) / gap / t as real, Deviations(cov, root), correlation))
  }

  // The early returns aside, the result has no numbers exactly when some asset never moves.
  lemma NumbersUnlessStill(history: seq<seq<real>>, cov: seq<seq<real>>, t: nat, root: real -> real)
    requires Shaped(history, cov, t, root)
    ensures ShrinkCovariance(history, cov, t, root).NoNumbers?
      <==> |history| >= MIN_ASSETS_FOR_COVARIANCE && t >= 3 && GapOf(history, t, root) >= FLOOR
           && Still(CentredAll(history), t, |history|)
  {
    if |history| >= MIN_ASSETS_FOR_COVARIANCE && t >= 3 {
      hide Rho, Still, GapOf, Common, PiSum, Blend;
      var rows := CentredAll(history);
      RhoNumber(rows, t, root, Common(history, t, root), |rows|);
    }
  }

  // The estimated loss of a share, up to what does not depend on it: the squared distance to the target
  // and the sampling error, which the target removes but for what it has in common with the sample.
  function Loss(share: real, gap: real, t: nat, errors: real): real {
    Times(Times(gap, t as real), Times(share, share)) - 2.0 * Times(errors, share)
  }

  lemma Parabola(k: real, share: real, s: real, gap: real, t: nat, errors: real)
    requires gap > 0.0 && t > 0 && k == errors / gap / t as real
    requires share == Clamped(k) && 0.0 <= s <= 1.0
    ensures Loss(share, gap, t, errors) <= Loss(s, gap, t, errors)
  {
    var whole := Times(gap, t as real);
    SignOf(gap, t as real);
    assert errors == Times(whole, k) by {
      assert gap * (errors / gap) == errors;
      assert t as real * (errors / gap / t as real) == errors / gap;
      assert whole * k == gap * (t as real * k);
    }
    Nearest(k, share, s);
    SignOf(whole, Times(s - k, s - k) - Times(share - k, share - k));
    CompleteSquare(whole, k, s);
    CompleteSquare(whole, k, share);
    Distribute(whole, Times(s - k, s - k), -Times(share - k, share - k));
    Negate(whole, Times(share - k, share - k));
    hide Times;
  }

  lemma Negate(x: real, y: real)
    ensures Times(x, -y) == -Times(x, y)
  {
  }

  lemma CompleteSquare(whole: real, k: real, s: real)
    ensures Times(whole, Times(s, s)) - 2.0 * Times(Times(whole, k), s)
            == Times(whole, Times(s - k, s - k)) - Times(whole, Times(k, k))
  {
    assert whole * ((s - k) * (s - k)) == whole * (s * s) - 2.0 * (whole * k * s) + whole * (k * k);
  }

  lemma Nearest(k: real, share: real, s: real)
    requires share == Clamped(k) && 0.0 <= s <= 1.0
    ensures Times(share - k, share - k) <= Times(s - k, s - k)
  {
    if k < 0.0 {
      Larger(share - k, s - k);
    } else if k > 1.0 {
      Larger(k - share, k - s);
    } else {
      Nonnegative(s - k);
    }
  }

  lemma Larger(x: real, y: real)
    requires 0.0 <= x <= y
    ensures Times(x, x) <= Times(y, y)
  {
    assert y * y - x * x == (y - x) * (y + x);
  }

  // Past the early returns and while the estimate is a number, the result is the blend with the share
  // that loses least of all shares from 0 to 1.
  lemma ShareLosesLeast(history: seq<seq<real>>, cov: seq<seq<real>>, t: nat, root: real -> real, rho: real)
    returns (share: real)
    requires Shaped(history, cov, t, root) && |history| >= MIN_ASSETS_FOR_COVARIANCE && t >= 3
    requires GapOf(history, t, root) >= FLOOR
    requires Rho(CentredAll(history), t, root, Common(history, t, root), |history|) == Number(rho)
    ensures 0.0 <= share <= 1.0
    ensures ShrinkCovariance(history, cov, t, root)
            == Matrix(Blend(cov, share, Deviations(cov, root), Common(history, t, root)))
    ensures var gap, errors := GapOf(history, t, root), PiSum(CentredAll(history), t) - rho;
            forall s :: 0.0 <= s <= 1.0 ==> Loss(share, gap, t, errors) <= Loss(s, gap, t, errors)
  {
    hide Rho, PiSum, GapOf, Common, Loss, Raw, Mix, Target, RootsFit;
    var gap, errors := GapOf(history, t, root), PiSum(CentredAll(history), t) - rho;
    var k := errors / gap / t as real;
    share := Clamped(k);
    assert Clamped(share) == share;
    forall s | 0.0 <= s <= 1.0 ensures Loss(share, gap, t, errors) <= Loss(s, gap, t, errors) {
      Parabola(k, share, s, gap, t, errors);
    }
  }

  // ------------------------------------------------------------------ the sample is a covariance

  lemma {:induction false} DotSwaps(u: seq<real>, v: seq<real>)
    requires |u| == |v|
    ensures Dot(u, v) == Dot(v, u)
  {
    if u == [] {
    } else {
      Swap(u[0], v[0]);
      DotSwaps(u[1..], v[1..]);
    }
  }

  function PlusScaled(v: seq<real>, k: real, r: seq<real>): (w: seq<real>)
    requires |v| == |r|
    ensures |w| == |v| && forall i :: 0 <= i < |v| ==> w[i] == v[i] + Times(k, r[i])
  {
    seq(|v|, i requires 0 <= i < |v| => v[i] + Times(k, r[i]))
  }

  lemma {:induction false} DotPlusScaled(u: seq<real>, v: seq<real>, k: real, r: seq<real>)
    requires |u| == |v| == |r|
    ensures Dot(u, PlusScaled(v, k, r)) == Dot(u, v) + Times(k, Dot(u, r))
  {
    if u == [] {
      Zero(k);
    } else {
      DotPlusScaled(u[1..], v[1..], k, r[1..]);
      assert PlusScaled(v, k, r)[1..] == PlusScaled(v[1..], k, r[1..]);
      DistributeScaled(u[0], v[0], k, r[0], Dot(u[1..], r[1..]));
      hide Times;
    }
  }

  lemma DistributeScaled(u: real, v: real, k: real, r: real, rest: real)
    ensures Times(u, v + Times(k, r)) + Times(k, rest) == Times(u, v) + Times(k, Times(u, r) + rest)
  {
    assert u * (k * r) == k * (u * r);
  }

  // The returns of a weighting of the first assets.
  ghost function Combined(rows: seq<seq<real>>, t: nat, w: seq<real>, upTo: nat): (v: seq<real>)
    requires Rectangular(rows, t) && |w| == |rows| && upTo <= |w|
    ensures |v| == t
  {
    if upTo == 0 then seq(t, k => 0.0) else PlusScaled(Combined(rows, t, w, upTo - 1), w[upTo - 1], rows[upTo - 1])
  }

  lemma {:induction false} DotZeros(u: seq<real>, zeros: seq<real>)
    requires |u| == |zeros| && forall k :: 0 <= k < |zeros| ==> zeros[k] == 0.0
    ensures Dot(u, zeros) == 0.0
  {
    if u == [] {
    } else {
      Zero(u[0]);
      DotZeros(u[1..], zeros[1..]);
    }
  }

  lemma PerDayPlusScaled(x: real, k: real, y: real, t: nat)
    requires t > 0
    ensures PerDay(x + Times(k, y), t) == PerDay(x, t) + Times(k, PerDay(y, t))
  {
    var n := t as real;
    var whole, p, q := (x + Times(k, y)) / n, x / n, y / n;
    assert p * n == x && q * n == y && whole * n == x + k * y;
    assert (p + k * q) * n == p * n + k * (q * n);
    assert (whole - (p + k * q)) * n == 0.0;
    if whole != p + k * q {
      NonZero(whole - (p + k * q), n);
    }
  }

  // Row i of the sample against a weighting is asset i against that weighting's returns.
  lemma {:induction false} RowOfRaw(rows: seq<seq<real>>, t: nat, w: seq<real>, i: nat, upTo: nat)
    requires t > 0 && Rectangular(rows, t) && |w| == |rows| && i < |rows| && upTo <= |w|
    ensures RowForm(Raw(rows, t)[i], w, upTo) == PerDay(Dot(rows[i], Combined(rows, t, w, upTo)), t)
  {
    hide Times, PerDay;
    if upTo == 0 {
      DotZeros(rows[i], Combined(rows, t, w, 0));
      PerDayKeepsSign(0.0, t);
    } else {
      var j := upTo - 1;
      RowOfRaw(rows, t, w, i, j);
      DotPlusScaled(rows[i], Combined(rows, t, w, j), w[j], rows[j]);
      PerDayPlusScaled(Dot(rows[i], Combined(rows, t, w, j)), w[j], Dot(rows[i], rows[j]), t);
    }
  }

  // So its form is the mean square of the weighting's returns.
  lemma {:induction false} FormOfRaw(rows: seq<seq<real>>, t: nat, w: seq<real>, upTo: nat)
    requires t > 0 && Rectangular(rows, t) && |w| == |rows| && upTo <= |w|
    ensures Form(Raw(rows, t), w, upTo)
            == PerDay(Dot(Combined(rows, t, w, |w|), Combined(rows, t, w, upTo)), t)
  {
    hide Times, PerDay, Dot, RowForm;
    var all := Combined(rows, t, w, |w|);
    if upTo == 0 {
      DotZeros(all, Combined(rows, t, w, 0));
      PerDayKeepsSign(0.0, t);
    } else {
      var i := upTo - 1;
      FormOfRaw(rows, t, w, i);
      RowOfRaw(rows, t, w, i, |w|);
      DotSwaps(rows[i], all);
      DotPlusScaled(all, Combined(rows, t, w, i), w[i], rows[i]);
      PerDayPlusScaled(Dot(all, Combined(rows, t, w, i)), w[i], Dot(all, rows[i]), t);
    }
  }

  lemma RawIsCovariance(rows: seq<seq<real>>, t: nat)
    requires t > 0 && Rectangular(rows, t)
    ensures PositiveSemidefinite(Raw(rows, t)) && Symmetric(Raw(rows, t))
  {
    hide Times, Form;
    var raw := Raw(rows, t);
    forall w: seq<real> | |w| == |raw| ensures Form(raw, w, |raw|) >= 0.0 {
      FormOfRaw(rows, t, w, |w|);
      DotSelf(Combined(rows, t, w, |w|));
      PerDayKeepsSign(Dot(Combined(rows, t, w, |w|), Combined(rows, t, w, |w|)), t);
    }
    forall i, j | 0 <= i < |raw| && 0 <= j < |raw| ensures raw[i][j] == raw[j][i] {
      DotSwaps(rows[i], rows[j]);
    }
  }

  // ------------------------------------------------------------------ what the result is

  ghost predicate AboveFloor(m: seq<seq<real>>)
    requires SquareOf(m, |m|)
  {
    forall i :: 0 <= i < |m| ==> m[i][i] >= FLOOR
  }

  // Past the early returns the result is a blend.
  lemma SomeShare(history: seq<seq<real>>, cov: seq<seq<real>>, t: nat, root: real -> real) returns (share: real)
    requires Shaped(history, cov, t, root)
    requires ShrinkCovariance(history, cov, t, root).Matrix? && ShrinkCovariance(history, cov, t, root).m != cov
    ensures |history| >= MIN_ASSETS_FOR_COVARIANCE && t >= 3
    ensures ShrinkCovariance(history, cov, t, root).m == Blend(cov, share, Deviations(cov, root), Common(history, t, root))
  {
    hide Rho, PiSum, Gap, Blend, Common;
    var rows, gap, correlation := CentredAll(history), GapOf(history, t, root), Common(history, t, root);
    match Rho(rows, t, root, correlation, |rows|)
    case Infinite(positive) => share := if positive then 0.0 else 1.0;
    case Number(rho) => share := (PiSum(rows, t) - rho) / gap / t as real;
  }

  // Whatever the returns: the result keeps every variance and symmetry, and with no variance below the
  // floor it is again a covariance, of which no weighting of the assets has a negative variance.
  lemma ShrunkStaysCovariance(history: seq<seq<real>>, cov: seq<seq<real>>, t: nat, root: real -> real)
    requires Shaped(history, cov, t, root) && PositiveSemidefinite(cov) && Symmetric(cov)
    requires ShrinkCovariance(history, cov, t, root).Matrix?
    ensures var m := ShrinkCovariance(history, cov, t, root).m;
            SquareOf(m, |cov|) && Symmetric(m) && (forall i :: 0 <= i < |m| ==> m[i][i] == cov[i][i])
            && (AboveFloor(cov) ==> PositiveSemidefinite(m))
  {
    hide Times, PositiveSemidefinite, Symmetric, Rho, PiSum, Gap, AreDeviations, Unfloored, Blend, MeanCorrelation;
    var m := ShrinkCovariance(history, cov, t, root).m;
    if m != cov {
      var share := SomeShare(history, cov, t, root);
      var raw := Raw(CentredAll(history), t);
      var d, rawD := Deviations(cov, root), Deviations(raw, root);
      RootsAreDeviations(root, raw);
      RootsAreDeviations(root, cov);
      BlendKeepsVariances(cov, share, d, MeanCorrelation(raw, rawD));
      RawIsCovariance(CentredAll(history), t);
      if AboveFloor(cov) {
        UnflooredIffAboveFloor(d, cov);
        BlendStaysPositive(cov, share, d, raw, rawD);
      }
    }
  }

  // ------------------------------------------------------------------ below the floor

  // The premise on variances is needed. Four days of one asset that hardly moves, by parts in a million
  // million, and of two that move as one; their roots are the numbers the code computes.
  const ALMOST_STILL: seq<real> := [-0.000000000001, 0.000000000005, -0.000000000001, -0.000000000003]
  const MOVING: seq<real> := [0.05, -0.01, -0.01, -0.03]
  const EXAMPLE: seq<seq<real>> := [ALMOST_STILL, MOVING, MOVING]
  const EXAMPLE_DEVIATIONS: seq<real> := [0.000000001, 0.03, 0.03]

  function ExampleRoot(x: real): real {
    if x == 0.0009 then 0.03
    else if x == FLOOR then 0.000000001
    else if x == 100000000000000000000.0 then 10000000000.0
    else if x == 0.00000000000000000001 then 0.0000000001
    else if x == 1.0 then 1.0
    else 0.0
  }

  lemma Sum4(a: real, b: real, c: real, d: real)
    ensures Sum([a, b, c, d]) == a + b + c + d
  {
    assert [a, b, c, d][1..] == [b, c, d] && [b, c, d][1..] == [c, d] && [c, d][1..] == [d] && [d][1..] == [];
    assert Sum([d]) == d && Sum([c, d]) == c + Sum([d]) && Sum([b, c, d]) == b + Sum([c, d]);
  }

  function Square(x: real): real {
    Times(x, x)
  }

  function Both(u: real, v: real, variance: real, covariance: real): real {
    Times(Times(u, u) - variance, Times(u, v) - covariance)
  }

  // The sums over four days, written out.
  lemma FourDays(u: seq<real>, v: seq<real>, variance: real, covariance: real)
    requires |u| == |v| == 4
    ensures Dot(u, v) == Times(u[0], v[0]) + Times(u[1], v[1]) + Times(u[2], v[2]) + Times(u[3], v[3])
    ensures Fluctuation(u, v, covariance)
            == Square(Times(u[0], v[0]) - covariance) + Square(Times(u[1], v[1]) - covariance)
               + Square(Times(u[2], v[2]) - covariance) + Square(Times(u[3], v[3]) - covariance)
    ensures CoFluctuation(u, v, variance, covariance)
            == Both(u[0], v[0], variance, covariance) + Both(u[1], v[1], variance, covariance)
               + Both(u[2], v[2], variance, covariance) + Both(u[3], v[3], variance, covariance)
  {
    hide Times;
    var u1, v1 := u[1..], v[1..];
    var u2, v2 := u1[1..], v1[1..];
    var u3, v3 := u2[1..], v2[1..];
    assert u3[1..] == [] && v3[1..] == [];
    assert Dot(u3, v3) == Times(u[3], v[3]) && Dot(u2, v2) == Times(u[2], v[2]) + Dot(u3, v3);
    assert Dot(u1, v1) == Times(u[1], v[1]) + Dot(u2, v2);
    assert Fluctuation(u3, v3, covariance) == Square(Times(u[3], v[3]) - covariance);
    assert Fluctuation(u2, v2, covariance)
      == Square(Times(u[2], v[2]) - covariance) + Fluctuation(u3, v3, covariance);
    assert Fluctuation(u1, v1, covariance)
      == Square(Times(u[1], v[1]) - covariance) + Fluctuation(u2, v2, covariance);
    assert CoFluctuation(u3, v3, variance, covariance) == Both(u[3], v[3], variance, covariance);
    assert CoFluctuation(u2, v2, variance, covariance)
      == Both(u[2], v[2], variance, covariance) + CoFluctuation(u3, v3, variance, covariance);
    assert CoFluctuation(u1, v1, variance, covariance)
      == Both(u[1], v[1], variance, covariance) + CoFluctuation(u2, v2, variance, covariance);
  }

  lemma ExampleIsCentred()
    ensures CentredAll(EXAMPLE) == EXAMPLE && Rectangular(EXAMPLE, 4)
  {
    Sum4(-0.000000000001, 0.000000000005, -0.000000000001, -0.000000000003);
    Sum4(0.05, -0.01, -0.01, -0.03);
    assert Mean(ALMOST_STILL) == 0.0 && Mean(MOVING) == 0.0;
    assert Centred(ALMOST_STILL) == ALMOST_STILL && Centred(MOVING) == MOVING;
    assert CentredAll(EXAMPLE) == EXAMPLE;
  }

  lemma StillWithItself()
    ensures Dot(ALMOST_STILL, ALMOST_STILL) == 0.000000000000000000000036
    ensures Fluctuation(ALMOST_STILL, ALMOST_STILL, 0.000000000000000000000009) == 0.000000000000000000000000000000000000000000000384
  {
    FourDays(ALMOST_STILL, ALMOST_STILL, 0.0, 0.000000000000000000000009);
  }

  lemma StillWithMoving()
    ensures Dot(ALMOST_STILL, MOVING) == 0.0
    ensures Fluctuation(ALMOST_STILL, MOVING, 0.0) == 0.0000000000000000000000000132
    ensures CoFluctuation(ALMOST_STILL, MOVING, 0.000000000000000000000009, 0.0) == -0.00000000000000000000000000000000000048
  {
    FourDays(ALMOST_STILL, MOVING, 0.000000000000000000000009, 0.0);
  }

  lemma MovingWithStill()
    ensures Dot(MOVING, ALMOST_STILL) == 0.0
    ensures Fluctuation(MOVING, ALMOST_STILL, 0.0) == 0.0000000000000000000000000132
    ensures CoFluctuation(MOVING, ALMOST_STILL, 0.0009, 0.0) == -0.000000000000000048
  {
    FourDays(MOVING, ALMOST_STILL, 0.0009, 0.0);
  }

  lemma MovingWithItself()
    ensures Dot(MOVING, MOVING) == 0.0036
    ensures Fluctuation(MOVING, MOVING, 0.0009) == 0.00000384
    ensures CoFluctuation(MOVING, MOVING, 0.0009, 0.0009) == 0.00000384
  {
    FourDays(MOVING, MOVING, 0.0009, 0.0009);
  }

  lemma ExampleSums()
    ensures Rectangular(EXAMPLE, 4)
    ensures forall i: nat, j: nat :: i < 3 && j < 3 ==>
      Raw(EXAMPLE, 4)[i][j] == if i > 0 && j > 0 then 0.0009 else if i == j then 0.000000000000000000000009 else 0.0
    ensures forall i: nat, j: nat :: i < 3 && j < 3 ==>
      Pi(EXAMPLE, 4, i, j) == if i > 0 && j > 0 then 0.00000096 else if i == j then 0.000000000000000000000000000000000000000000000096 else 0.0000000000000000000000000033
    ensures forall i: nat, j: nat :: i < 3 && j < 3 && i != j ==>
      Asymptotic(EXAMPLE, 4, i, j) == if i > 0 && j > 0 then 0.00000096 else if i == 0 then -0.00000000000000000000000000000000000012 else -0.000000000000000012
  {
    StillWithItself();
    StillWithMoving();
    MovingWithStill();
    MovingWithItself();
    hide Dot, Fluctuation, CoFluctuation;
  }

  lemma ExampleShaped()
    ensures Shaped(EXAMPLE, Raw(EXAMPLE, 4), 4, ExampleRoot)
    ensures PositiveSemidefinite(Raw(EXAMPLE, 4)) && Symmetric(Raw(EXAMPLE, 4))
    ensures Deviations(Raw(EXAMPLE, 4), ExampleRoot) == EXAMPLE_DEVIATIONS
  {
    ExampleIsCentred();
    ExampleSums();
    RawIsCovariance(EXAMPLE, 4);
    hide Raw, PositiveSemidefinite, Symmetric;
    assert IsRootAt(ExampleRoot, 0.0009) && IsRootAt(ExampleRoot, FLOOR);
    assert Floored(0.0009) == 0.0009 && Floored(0.000000000000000000000009) == FLOOR;
  }

  // What the example's covariance is known by.
  ghost predicate ExampleMatrix(m: seq<seq<real>>) {
    && SquareOf(m, 3)
    && forall i: nat, j: nat :: i < 3 && j < 3 ==>
         m[i][j] == if i > 0 && j > 0 then 0.0009 else if i == j then 0.000000000000000000000009 else 0.0
  }

  lemma ExampleCorrelationAt(m: seq<seq<real>>, i: nat, j: nat)
    requires ExampleMatrix(m) && AreDeviations(EXAMPLE_DEVIATIONS, m) && i < 3 && j < 3 && i != j
    ensures Correlation(m, EXAMPLE_DEVIATIONS, i, j) == if i > 0 && j > 0 then 1.0 else 0.0
  {
    SignOf(EXAMPLE_DEVIATIONS[i], EXAMPLE_DEVIATIONS[j]);
  }

  // A row of three correlations without the asset's own, written out.
  lemma ThreeOff(m: seq<seq<real>>, d: seq<real>, i: nat)
    requires |d| == 3 && SquareOf(m, 3) && AreDeviations(d, m) && i < 3
    ensures OffRow(m, d, i, 3)
            == (if i == 0 then 0.0 else Correlation(m, d, i, 0)) + (if i == 1 then 0.0 else Correlation(m, d, i, 1))
               + (if i == 2 then 0.0 else Correlation(m, d, i, 2))
  {
    hide AreDeviations, Correlation;
    assert OffRow(m, d, i, 1) == if i == 0 then 0.0 else Correlation(m, d, i, 0);
    assert OffRow(m, d, i, 2) == OffRow(m, d, i, 1) + (if i == 1 then 0.0 else Correlation(m, d, i, 1));
  }

  lemma ExampleMeanCorrelation(m: seq<seq<real>>)
    requires ExampleMatrix(m) && AreDeviations(EXAMPLE_DEVIATIONS, m)
    ensures MeanCorrelation(m, EXAMPLE_DEVIATIONS) == 1.0 / 3.0
  {
    hide AreDeviations, Correlation;
    var d := EXAMPLE_DEVIATIONS;
    ExampleCorrelationAt(m, 0, 1);
    ExampleCorrelationAt(m, 0, 2);
    ExampleCorrelationAt(m, 1, 0);
    ExampleCorrelationAt(m, 1, 2);
    ExampleCorrelationAt(m, 2, 0);
    ExampleCorrelationAt(m, 2, 1);
    hide ExampleMatrix;
    ThreeOff(m, d, 0);
    ThreeOff(m, d, 1);
    ThreeOff(m, d, 2);
    hide OffRow;
    assert OffSum(m, d, 1) == 0.0;
    assert OffSum(m, d, 2) == 1.0;
    assert OffSum(m, d, 3) == 2.0;
  }

  lemma ExampleCorrelation()
    ensures Shaped(EXAMPLE, Raw(EXAMPLE, 4), 4, ExampleRoot)
    ensures Common(EXAMPLE, 4, ExampleRoot) == 1.0 / 3.0
  {
    ExampleIsCentred();
    ExampleSums();
    ExampleShaped();
    assert ExampleMatrix(Raw(EXAMPLE, 4));
    RootsAreDeviations(ExampleRoot, Raw(EXAMPLE, 4));
    hide Raw, Deviations, AreDeviations, PositiveSemidefinite, Symmetric, RootsFit, ExampleMatrix, MeanCorrelation;
    ExampleMeanCorrelation(Raw(EXAMPLE, 4));
  }

  // A sum over three by three entries.
  lemma NineEntries(entry: (nat, nat) -> real)
    ensures TotalSum(entry, 3, 3)
            == entry(0, 0) + entry(0, 1) + entry(0, 2) + entry(1, 0) + entry(1, 1) + entry(1, 2)
               + entry(2, 0) + entry(2, 1) + entry(2, 2)
  {
    forall i: nat ensures RowSum(entry, i, 3) == entry(i, 0) + entry(i, 1) + entry(i, 2) {
      assert RowSum(entry, i, 1) == entry(i, 0) && RowSum(entry, i, 2) == RowSum(entry, i, 1) + entry(i, 1);
    }
    assert TotalSum(entry, 3, 1) == RowSum(entry, 0, 3);
    assert TotalSum(entry, 3, 2) == TotalSum(entry, 3, 1) + RowSum(entry, 1, 3);
  }

  lemma ExampleGapAt(m: seq<seq<real>>, i: nat, j: nat)
    requires ExampleMatrix(m) && i < 3 && j < 3
    ensures var d := Target(m, EXAMPLE_DEVIATIONS, 1.0 / 3.0)[i][j] - m[i][j];
      Times(d, d) == if i == j then 0.0 else if i > 0 && j > 0 then 0.00000036 else 0.0000000000000000000001
  {
  }

  lemma ExampleGapOf(m: seq<seq<real>>)
    requires ExampleMatrix(m)
    ensures Gap(m, Target(m, EXAMPLE_DEVIATIONS, 1.0 / 3.0)) == 0.0000007200000000000004
  {
    var target := Target(m, EXAMPLE_DEVIATIONS, 1.0 / 3.0);
    var entry := (i: nat, j: nat) =>
      if i < |m| && j < |m| then Times(target[i][j] - m[i][j], target[i][j] - m[i][j]) else 0.0;
    assert Gap(m, target) == TotalSum(entry, 3, 3);
    NineEntries(entry);
    hide TotalSum, Target, RowSum, Gap;
    forall i: nat, j: nat | i < 3 && j < 3
      ensures entry(i, j) == if i == j then 0.0 else if i > 0 && j > 0 then 0.00000036 else 0.0000000000000000000001
    {
      ExampleGapAt(m, i, j);
    }
  }

  lemma ExampleGap()
    ensures Shaped(EXAMPLE, Raw(EXAMPLE, 4), 4, ExampleRoot)
    ensures GapOf(EXAMPLE, 4, ExampleRoot) == 0.0000007200000000000004
  {
    ExampleIsCentred();
    ExampleSums();
    ExampleShaped();
    ExampleCorrelation();
    assert ExampleMatrix(Raw(EXAMPLE, 4));
    hide Raw, Deviations, PositiveSemidefinite, Symmetric, RootsFit, Common, Gap, Target, ExampleMatrix;
    ExampleGapOf(Raw(EXAMPLE, 4));
  }

  lemma ExamplePi()
    ensures Rectangular(EXAMPLE, 4)
    ensures PiSum(EXAMPLE, 4) == 0.000003840000000000000000013200000000000000000096
    ensures PiTrace(EXAMPLE, 4, 3) == 0.000001920000000000000000000000000000000000000096
  {
    ExampleSums();
    hide Pi, Raw;
    var entry := (i: nat, j: nat) => if i < 3 && j < 3 then Pi(EXAMPLE, 4, i, j) else 0.0;
    assert PiSum(EXAMPLE, 4) == TotalSum(entry, 3, 3);
    NineEntries(entry);
    assert PiTrace(EXAMPLE, 4, 1) == Pi(EXAMPLE, 4, 0, 0);
    assert PiTrace(EXAMPLE, 4, 2) == PiTrace(EXAMPLE, 4, 1) + Pi(EXAMPLE, 4, 1, 1);
  }

  lemma ExamplePairs(i: nat, j: nat)
    requires i < 3 && j < 3 && i != j
    ensures Rectangular(EXAMPLE, 4)
    ensures PairTerm(EXAMPLE, 4, ExampleRoot, 1.0 / 3.0, i, j)
            == Number(if i > 0 && j > 0 then 0.00000032 else -0.0000000000000000000000000004)
  {
    ExampleSums();
    hide Raw, Asymptotic;
    assert Ratio(0.0009, 0.000000000000000000000009) == Number(100000000000000000000.0);
    assert Ratio(0.000000000000000000000009, 0.0009) == Number(0.00000000000000000001);
  }

  // The loop over three assets, written out.
  lemma ThreePairs(rows: seq<seq<real>>, t: nat, root: real -> real, c: real, start: real,
                   a: real, b: real, d: real, e: real, f: real, g: real)
    requires t > 0 && Rectangular(rows, t) && |rows| == 3 && PiTrace(rows, t, 3) == start
    requires PairTerm(rows, t, root, c, 0, 1) == Number(a) && PairTerm(rows, t, root, c, 0, 2) == Number(b)
    requires PairTerm(rows, t, root, c, 1, 0) == Number(d) && PairTerm(rows, t, root, c, 1, 2) == Number(e)
    requires PairTerm(rows, t, root, c, 2, 0) == Number(f) && PairTerm(rows, t, root, c, 2, 1) == Number(g)
    ensures Rho(rows, t, root, c, 3) == Number(start + a + b + d + e + f + g)
  {
    hide PairTerm, PiTrace;
    var r0 := Number(start);
    assert RhoRow(rows, t, root, c, r0, 0, 1) == r0;
    assert RhoRow(rows, t, root, c, r0, 0, 2) == Number(start + a);
    assert RhoRow(rows, t, root, c, r0, 0, 3) == Number(start + a + b);
    var r1 := Number(start + a + b);
    assert RhoRow(rows, t, root, c, r1, 1, 1) == Number(start + a + b + d);
    assert RhoRow(rows, t, root, c, r1, 1, 2) == Number(start + a + b + d);
    assert RhoRow(rows, t, root, c, r1, 1, 3) == Number(start + a + b + d + e);
    var r2 := Number(start + a + b + d + e);
    assert RhoRow(rows, t, root, c, r2, 2, 1) == Number(start + a + b + d + e + f);
    assert RhoRow(rows, t, root, c, r2, 2, 2) == Number(start + a + b + d + e + f + g);
    assert RhoRow(rows, t, root, c, r2, 2, 3) == Number(start + a + b + d + e + f + g);
    assert Rho(rows, t, root, c, 0) == r0;
    hide RhoRow;
    assert Rho(rows, t, root, c, 1) == r1;
    assert Rho(rows, t, root, c, 2) == r2;
  }

  lemma ExampleRho()
    ensures Rectangular(EXAMPLE, 4)
    ensures Rho(EXAMPLE, 4, ExampleRoot, 1.0 / 3.0, 3) == Number(0.000002559999999999999999998400000000000000000096)
  {
    ExamplePi();
    ExamplePairs(0, 1);
    ExamplePairs(0, 2);
    ExamplePairs(1, 0);
    ExamplePairs(1, 2);
    ExamplePairs(2, 0);
    ExamplePairs(2, 1);
    hide PairTerm, PiTrace, PiSum;
    var c, x, y := 1.0 / 3.0, -0.0000000000000000000000000004, 0.00000032;
    var start := 0.000001920000000000000000000000000000000000000096;
    ThreePairs(EXAMPLE, 4, ExampleRoot, c, start, x, x, x, y, x, y);
  }

  lemma ExampleBlend(raw: seq<seq<real>>, share: real)
    requires SquareOf(raw, 3) && Symmetric(raw) && 0.4 <= share <= 0.5
    requires raw[0][0] == 0.000000000000000000000009 && raw[0][1] == 0.0 && raw[1][1] == 0.0009
    ensures !PositiveSemidefinite(Blend(raw, share, EXAMPLE_DEVIATIONS, 1.0 / 3.0))
  {
    var d, c := EXAMPLE_DEVIATIONS, 1.0 / 3.0;
    var m := Blend(raw, share, d, c);
    BlendKeepsVariances(raw, share, d, c);
    assert m[0][1] == share * 0.00000000001;
    FormOfPair(m, 0, 1, -400000000000.0, 1.0, 3);
    hide Form, Blend, Symmetric;
    var w := Pair(3, 0, 1, -400000000000.0, 1.0);
    assert Form(m, w, 3) < 0.0;
  }

  // Shrinking the sample covariance of these returns gives numbers, and they are no covariance: selling
  // enough of the asset that hardly moves against one that moves gets a negative variance.
  lemma AlmostStillBreaksResult()
    ensures Shaped(EXAMPLE, Raw(EXAMPLE, 4), 4, ExampleRoot)
    ensures PositiveSemidefinite(Raw(EXAMPLE, 4)) && Symmetric(Raw(EXAMPLE, 4)) && !Still(CentredAll(EXAMPLE), 4, 3)
    ensures var result := ShrinkCovariance(EXAMPLE, Raw(EXAMPLE, 4), 4, ExampleRoot);
            result.Matrix? && SquareOf(result.m, 3) && !PositiveSemidefinite(result.m)
  {
    ExampleIsCentred();
    ExampleSums();
    ExampleShaped();
    ExampleCorrelation();
    ExampleGap();
    ExamplePi();
    ExampleRho();
    hide Raw, Deviations, Common, GapOf, PiSum, PiTrace, Rho, RootsFit, Blend, PositiveSemidefinite, Symmetric;
    var raw := Raw(EXAMPLE, 4);
    var share := (0.000003840000000000000000013200000000000000000096 - 0.000002559999999999999999998400000000000000000096) / 0.0000007200000000000004 / 4.0;
    assert 0.4 <= share <= 0.5;
    var m := Blend(raw, share, EXAMPLE_DEVIATIONS, 1.0 / 3.0);
    assert ShrinkCovariance(EXAMPLE, raw, 4, ExampleRoot) == Matrix(m);
    ExampleBlend(raw, share);
  }
}
