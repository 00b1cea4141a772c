/**
 Price indicators. The loops keep running sums and smoothed averages; the functions they are
 proved against read the price window itself.
 */
module Indicators {
  import opened Options

  /** A period may be any number; only a whole one names elements of a series. */
  predicate Whole(x: real) {
    x == x.Floor as real
  }

  // ---------------------------------------------------------------- simple moving average

  /** Outside the series a value counts as zero. */
  function ValueAt(values: seq<real>, k: int): real {
    if 0 <= k < |values| then values[k] else 0.0
  }

  /** The sum of the values with index `lo` up to, but not including, `hi`. */
  function WindowSum(values: seq<real>, lo: int, hi: int): real
    requires lo <= hi
    decreases hi - lo
  {
    if lo == hi then 0.0 else WindowSum(values, lo, hi - 1) + ValueAt(values, hi - 1)
  }

  lemma {:induction false} WindowSplit(values: seq<real>, lo: int, mid: int, hi: int)
    requires lo <= mid <= hi
    ensures WindowSum(values, lo, hi) == WindowSum(values, lo, mid) + WindowSum(values, mid, hi)
    decreases hi - mid
  {
    if mid == hi {
    } else {
      WindowSplit(values, lo, mid, hi - 1);
    }
  }

  function Mean(sum: real, period: real): (r: real)
    requires period != 0.0
    ensures sum >= 0.0 && period > 0.0 ==> r >= 0.0
  {
    sum / period
  }

  /**
   What is summed for the first `n` values. A whole positive period sums the last `period` of them, and a
   fractional one all of them. A whole negative period looks ahead: it sums as many values at the start of the
   series less as many from `n` on.
   */
  function Summed(values: seq<real>, period: real, n: nat): real {
    var p := period.Floor;
    if !Whole(period) || n <= p then WindowSum(values, 0, n)
    else if p >= 0 then WindowSum(values, n - p, n)
    else WindowSum(values, 0, -p) - WindowSum(values, n, n - p)
  }

  /** Nothing before there are `period` values. A period of zero gives NaN, which is nothing to compare with either. */
  function SmaAt(values: seq<real>, period: real, i: nat): Option<real>
    requires i < |values|
  {
    if (i + 1) as real < period || period == 0.0 then None
    else Some(Mean(Summed(values, period, i + 1), period))
  }

  method Sma(values: seq<real>, period: real) returns (result: array<Option<real>>)
    ensures result.Length == |values|
    ensures forall i :: 0 <= i < |values| ==> result[i] == SmaAt(values, period, i)
  {
    hide Summed, Mean;
    result := new Option<real>[|values|](_ => None);
    var windowSum := 0.0;
    NothingSummed(values, period);
    for i := 0 to |values|
      invariant windowSum == Summed(values, period, i)
      invariant forall j :: 0 <= j < i ==> result[j] == SmaAt(values, period, j)
      invariant forall j :: i <= j < |values| ==> result[j] == None
    {
      windowSum := windowSum + values[i];
      if i as real >= period {
        windowSum := windowSum - if Whole(period) then ValueAt(values, i - period.Floor) else 0.0;
      }
      SummedStep(values, period, i);
      if i as real >= period - 1.0 {
        result[i] := if period == 0.0 then None else Some(Mean(windowSum, period));
      }
    }
  }

  lemma NothingSummed(values: seq<real>, period: real)
    ensures Summed(values, period, 0) == 0.0
  {
  }

  /** One value comes in, and the one `period` before it goes out. */
  lemma SummedStep(values: seq<real>, period: real, n: nat)
    requires n < |values|
    ensures Summed(values, period, n + 1)
              == Summed(values, period, n) + values[n]
                   - if Whole(period) && n >= period.Floor then ValueAt(values, n - period.Floor) else 0.0
  {
    var p := period.Floor;
    if !Whole(period) || n < p {
      assert WindowSum(values, 0, n + 1) == WindowSum(values, 0, n) + values[n];
    } else if p >= 0 {
      FirstOut(values, n - p, n + 1);
    } else {
      FirstOut(values, n, n + 1 - p);
    }
  }

  lemma FirstOut(values: seq<real>, lo: int, hi: int)
    requires lo < hi
    ensures WindowSum(values, lo, hi) == ValueAt(values, lo) + WindowSum(values, lo + 1, hi)
    ensures WindowSum(values, lo, hi) == WindowSum(values, lo, hi - 1) + ValueAt(values, hi - 1)
  {
    WindowSplit(values, lo, lo + 1, hi);
    assert WindowSum(values, lo, lo) == 0.0;
  }

  // ---------------------------------------------------------------- averages, in plain sums

  function Total(values: seq<real>): real {
    if values == [] then 0.0 else values[0] + Total(values[1..])
  }

  lemma {:induction false} TotalNext(values: seq<real>, x: real)
    ensures Total(values + [x]) == Total(values) + x
  {
    if values == [] {
      assert values + [x] == [x];
      assert [x][1..] == [];
    } else {
      assert (values + [x])[1..] == values[1..] + [x];
      TotalNext(values[1..], x);
    }
  }

  function Least(a: int, b: int): int {
    if a <= b then a else b
  }

  /** A window sums the elements it reaches. */
  lemma {:induction false} WindowTotal(values: seq<real>, lo: int, hi: int)
    requires 0 <= lo <= hi && lo <= |values|
    ensures WindowSum(values, lo, hi) == Total(values[lo..Least(hi, |values|)])
    decreases hi
  {
    if lo == hi {
    } else {
      WindowTotal(values, lo, hi - 1);
      if hi <= |values| {
        assert values[lo..hi] == values[lo..hi - 1] + [values[hi - 1]];
        TotalNext(values[lo..hi - 1], values[hi - 1]);
      }
    }
  }

  /** A whole positive period gives the plain mean of the last `period` values, once there are that many. */
  lemma SmaIsMean(values: seq<real>, period: nat, i: nat)
    requires 1 <= period && i < |values|
    ensures SmaAt(values, period as real, i)
              == if i + 1 < period then None else Some(Total(values[i + 1 - period..i + 1]) / period as real)
  {
    if period <= i + 1 {
      WindowTotal(values, i + 1 - period, i + 1);
    }
  }

  /** A fractional period divides the sum of all values so far. */
  lemma SmaOfFraction(values: seq<real>, period: real, i: nat)
    requires !Whole(period) && i < |values|
    ensures SmaAt(values, period, i)
              == if (i + 1) as real < period then None else Some(Total(values[..i + 1]) / period)
  {
    assert period != 0.0;
    WindowTotal(values, 0, i + 1);
    assert values[0..i + 1] == values[..i + 1];
  }

  /** A whole negative period gives what the next values exceed the first ones by, per period. */
  lemma SmaAhead(values: seq<real>, ahead: nat, i: nat)
    requires 1 <= ahead && i < |values|
    ensures SmaAt(values, -(ahead as real), i)
              == Some((Total(values[i + 1..Least(i + 1 + ahead, |values|)]) - Total(values[..Least(ahead, |values|)]))
                      / ahead as real)
  {
    var period := -(ahead as real);
    assert period.Floor + ahead == 0;
    WindowTotal(values, 0, ahead);
    WindowTotal(values, i + 1, i + 1 + ahead);
    assert values[0..Least(ahead, |values|)] == values[..Least(ahead, |values|)];
    var first, next := Total(values[..Least(ahead, |values|)]), Total(values[i + 1..Least(i + 1 + ahead, |values|)]);
    assert SmaAt(values, period, i) == Some(Mean(first - next, period));
    Negated(first, next, ahead as real);
  }

  lemma Negated(a: real, b: real, c: real)
    requires c > 0.0
    ensures Mean(a - b, -c) == (b - a) / c
  {
    var q := (b - a) / c;
    assert q * c == b - a;
    Divided(a - b, -c, q);
  }

  // ---------------------------------------------------------------- Wilder's RSI

  function Change(closes: seq<real>, i: int): real {
    ValueAt(closes, i) - ValueAt(closes, i - 1)
  }

  function Gain(closes: seq<real>, i: int): (gain: real)
    ensures gain >= 0.0
  {
    if Change(closes, i) >= 0.0 then Change(closes, i) else 0.0
  }

  function Loss(closes: seq<real>, i: int): (loss: real)
    ensures loss >= 0.0
  {
    if Change(closes, i) < 0.0 then -Change(closes, i) else 0.0
  }

  function GainSum(closes: seq<real>, n: int): (sum: real)
    ensures sum >= 0.0
  {
    if n <= 0 then 0.0 else GainSum(closes, n - 1) + Gain(closes, n)
  }

  function LossSum(closes: seq<real>, n: int): (sum: real)
    ensures sum >= 0.0
  {
    if n <= 0 then 0.0 else LossSum(closes, n - 1) + Loss(closes, n)
  }

  /** One step of Wilder's smoothing: the old average weighs `period - 1` times as much as the new value. */
  function Smooth(average: real, value: real, period: int): (r: real)
    requires period != 0
    ensures period >= 1 && average >= 0.0 && value >= 0.0 ==> r >= 0.0
    ensures period <= -1 && average <= 0.0 && value >= 0.0 ==> r <= 0.0
  {
    var weighed := average * (period - 1) as real;
    assert period <= -1 && average <= 0.0 ==> weighed >= 0.0;
    (weighed + value) / period as real
  }

  function AvgGain(closes: seq<real>, period: int, i: int): (average: real)
    requires period != 0 && period <= i
    ensures if period >= 1 then average >= 0.0 else average <= 0.0
    decreases i - period
  {
    if i == period then Mean(GainSum(closes, period), period as real)
    else Smooth(AvgGain(closes, period, i - 1), Gain(closes, i), period)
  }

  function AvgLoss(closes: seq<real>, period: int, i: int): (average: real)
    requires period != 0 && period <= i
    ensures if period >= 1 then average >= 0.0 else average <= 0.0
    decreases i - period
  {
    if i == period then Mean(LossSum(closes, period), period as real)
    else Smooth(AvgLoss(closes, period, i - 1), Loss(closes, i), period)
  }

  predicate OneSign(a: real, b: real) {
    (a >= 0.0 && b >= 0.0) || (a <= 0.0 && b <= 0.0)
  }

  lemma RatioOfOneSign(a: real, b: real)
    requires OneSign(a, b) && b != 0.0
    ensures a / b >= 0.0
  {
    var q := a / b;
    assert q * b == a;
  }

  /** The averages have one sign, so that the ratio is never negative. */
  function RsiFromAverages(avgGain: real, avgLoss: real): real
    requires OneSign(avgGain, avgLoss)
  {
    if avgLoss == 0.0 then 100.0
    else
      var rs := avgGain / avgLoss;
      RatioOfOneSign(avgGain, avgLoss);
      100.0 - 100.0 / (1.0 + rs)
  }

  /** The index at bar `i`. There is none for a fractional period, and for a period of zero it is NaN. */
  function RsiAt(closes: seq<real>, period: real, i: int): Option<real> {
    var n := period.Floor;
    if !Whole(period) || n == 0 || i < n then None
    else Some(RsiFromAverages(AvgGain(closes, n, i), AvgLoss(closes, n, i)))
  }

  /**
   A negative index names no element of the result, nor does a fractional one; with a period of zero every
   average is zero divided by zero.
   */
  method Rsi(closes: seq<real>, period: real) returns (result: array<Option<real>>)
    ensures result.Length == |closes|
    ensures forall i :: 0 <= i < |closes| ==> result[i] == RsiAt(closes, period, i)
  {
    hide Mean, Smooth, RsiFromAverages;
    result := new Option<real>[|closes|](_ => None);
    if |closes| as real < period + 1.0 || !Whole(period) || period == 0.0 {
      return;
    }
    var n := period.Floor;
    var avgGain, avgLoss := 0.0, 0.0;
    var i := 1;
    while i <= n
      modifies {}
      invariant 1 <= i && (i <= n + 1 || i == 1)
      invariant avgGain == GainSum(closes, i - 1)
      invariant avgLoss == LossSum(closes, i - 1)
    {
      var change := ValueAt(closes, i) - ValueAt(closes, i - 1);
      if change >= 0.0 {
        avgGain := avgGain + change;
      } else {
        avgLoss := avgLoss + -change;
      }
      i := i + 1;
    }
    avgGain, avgLoss := Mean(avgGain, period), Mean(avgLoss, period);
    if n >= 0 {
      result[n] := Some(RsiFromAverages(avgGain, avgLoss));
    }
    i := n + 1;
    while i < |closes|
      invariant n < i <= |closes|
      invariant avgGain == AvgGain(closes, n, i - 1)
      invariant avgLoss == AvgLoss(closes, n, i - 1)
      invariant forall j :: 0 <= j < i && j < |closes| ==> result[j] == RsiAt(closes, period, j)
      invariant forall j :: 0 <= j < |closes| && i <= j ==> result[j] == None
    {
      var change := ValueAt(closes, i) - ValueAt(closes, i - 1);
      var gain := if change >= 0.0 then change else 0.0;
      var loss := if change < 0.0 then -change else 0.0;
      avgGain, avgLoss := Smooth(avgGain, gain, n), Smooth(avgLoss, loss, n);
      if i >= 0 {
        result[i] := Some(RsiFromAverages(avgGain, avgLoss));
      }
      i := i + 1;
    }
  }

  /** Before the first bar nothing has moved, and a negative period reads 100 there. */
  lemma {:induction false} NothingMoved(closes: seq<real>, period: int, i: int)
    requires period <= i < 0
    ensures AvgGain(closes, period, i) == 0.0 && AvgLoss(closes, period, i) == 0.0
    ensures RsiAt(closes, period as real, i) == Some(100.0)
    decreases i - period
  {
    if i == period {
    } else {
      NothingMoved(closes, period, i - 1);
    }
  }

  /** The share of the gains in all movement; 100 when nothing was lost. */
  lemma RsiIsShare(avgGain: real, avgLoss: real)
    requires OneSign(avgGain, avgLoss)
    ensures avgLoss != 0.0 ==> RsiFromAverages(avgGain, avgLoss) * (avgGain + avgLoss) == 100.0 * avgGain
    ensures 0.0 <= RsiFromAverages(avgGain, avgLoss) <= 100.0
  {
    if avgLoss != 0.0 {
      var rs := avgGain / avgLoss;
      RatioOfOneSign(avgGain, avgLoss);
      assert rs * avgLoss == avgGain;
      var q := 100.0 / (1.0 + rs);
      assert q * (1.0 + rs) == 100.0;
      ShareOfTotal(avgGain, avgLoss, rs, q);
    }
  }

  lemma ShareOfTotal(g: real, l: real, rs: real, q: real)
    requires rs >= 0.0 && rs * l == g && q * (1.0 + rs) == 100.0
    ensures (100.0 - q) * (g + l) == 100.0 * g
    ensures 0.0 <= 100.0 - q <= 100.0
  {
    assert q * (g + l) == q * (1.0 + rs) * l;
    if q < 0.0 {
      assert false;
    }
  }

  /** From index `period` on there is a value, for a negative period at every bar, and it is a percentage. */
  lemma RsiBounds(closes: seq<real>, period: real, i: nat)
    ensures RsiAt(closes, period, i).Some? <==> Whole(period) && (period < 0.0 || 1.0 <= period <= i as real)
    ensures RsiAt(closes, period, i).Some? ==> 0.0 <= RsiAt(closes, period, i).value <= 100.0
  {
    var n := period.Floor;
    if Whole(period) && n != 0 && n <= i {
      RsiIsShare(AvgGain(closes, n, i), AvgLoss(closes, n, i));
    }
  }

  // ---------------------------------------------------------------- the index, in plain sums

  /** The price rises of the first `n` bars after the first, zero where the price did not rise. */
  function Rises(closes: seq<real>, n: nat): (rises: seq<real>)
    requires n < |closes|
    ensures |rises| == n
  {
    seq(n, k requires 0 <= k < n => Max(closes[k + 1] - closes[k], 0.0))
  }

  function Falls(closes: seq<real>, n: nat): (falls: seq<real>)
    requires n < |closes|
    ensures |falls| == n
  {
    seq(n, k requires 0 <= k < n => Max(closes[k] - closes[k + 1], 0.0))
  }

  function Product(a: real, b: real): real {
    a * b
  }

  function Power(w: real, n: nat): real {
    if n == 0 then 1.0 else Product(w, Power(w, n - 1))
  }

  /** The sum of the moves, each weighted with `w` to the power of its age. */
  function Decayed(moves: seq<real>, w: real): real {
    if moves == [] then 0.0 else Product(Power(w, |moves| - 1), moves[0]) + Decayed(moves[1..], w)
  }

  /** Wilder's weights: the first `period` moves count alike, and everything decays with each later move. */
  function Weighted(moves: seq<real>, period: nat): real
    requires 1 <= period <= |moves|
  {
    var w := (period - 1) as real / period as real;
    Product(Power(w, |moves| - period), Total(moves[..period])) + Decayed(moves[period..], w)
  }

  lemma {:induction false} DecayedNext(moves: seq<real>, x: real, w: real)
    ensures Decayed(moves + [x], w) == Product(w, Decayed(moves, w)) + x
  {
    if moves == [] {
      assert moves + [x] == [x];
      assert [x][1..] == [];
    } else {
      assert (moves + [x])[1..] == moves[1..] + [x];
      DecayedNext(moves[1..], x, w);
      Regroup(w, Power(w, |moves| - 1), moves[0], Decayed(moves[1..], w));
    }
  }

  lemma Regroup(w: real, p: real, x: real, d: real)
    ensures Product(w, Product(p, x) + d) == Product(Product(w, p), x) + Product(w, d)
  {
  }

  /** The next move makes everything before it older. */
  lemma WeightedNext(moves: seq<real>, x: real, period: nat)
    requires 1 <= period <= |moves|
    ensures var w := (period - 1) as real / period as real;
            Weighted(moves + [x], period) == Product(w, Weighted(moves, period)) + x
  {
    var w := (period - 1) as real / period as real;
    var all := moves + [x];
    assert all[..period] == moves[..period] && all[period..] == moves[period..] + [x];
    DecayedNext(moves[period..], x, w);
    Regroup(w, Power(w, |moves| - period), Total(moves[..period]), Decayed(moves[period..], w));
  }

  lemma {:induction false} SumsAreTotals(closes: seq<real>, n: nat)
    requires n < |closes|
    ensures GainSum(closes, n) == Total(Rises(closes, n)) && LossSum(closes, n) == Total(Falls(closes, n))
  {
    if n == 0 {
    } else {
      SumsAreTotals(closes, n - 1);
      assert Rises(closes, n) == Rises(closes, n - 1) + [Gain(closes, n)];
      assert Falls(closes, n) == Falls(closes, n - 1) + [Loss(closes, n)];
      TotalNext(Rises(closes, n - 1), Gain(closes, n));
      TotalNext(Falls(closes, n - 1), Loss(closes, n));
    }
  }

  /** One smoothing, in numbers: what was there counts `period - 1` times, what is new once. */
  lemma SmoothTimes(average: real, value: real, period: nat)
    requires period >= 1
    ensures Product(Smooth(average, value, period), period as real) == Product(average, (period - 1) as real) + value
  {
    Restored(average * (period - 1) as real + value, period as real);
  }

  lemma WeightTimes(average: real, weighted: real, period: nat)
    requires period >= 1 && Product(average, period as real) == weighted
    ensures Product(average, (period - 1) as real) == Product((period - 1) as real / period as real, weighted)
  {
    var w := (period - 1) as real / period as real;
    assert w * period as real == (period - 1) as real;
    assert average * (w * period as real) == w * (average * period as real);
  }

  lemma MeanTimes(sum: real, period: nat)
    requires period >= 1
    ensures Product(Mean(sum, period as real), period as real) == sum
  {
    Restored(sum, period as real);
  }

  /** The averages are the weighted sums of all rises and of all falls, divided by the period. */
  lemma {:induction false} AveragesAreWeighted(closes: seq<real>, period: nat, i: nat)
    requires 1 <= period <= i < |closes|
    ensures Product(AvgGain(closes, period, i), period as real) == Weighted(Rises(closes, i), period)
    ensures Product(AvgLoss(closes, period, i), period as real) == Weighted(Falls(closes, i), period)
    decreases i
  {
    hide Weighted, Smooth, Mean, Product;
    if i == period {
      SumsAreTotals(closes, period);
      MeanTimes(GainSum(closes, period), period);
      MeanTimes(LossSum(closes, period), period);
      WeightedSeed(Rises(closes, period), period);
      WeightedSeed(Falls(closes, period), period);
    } else {
      var up, down := Rises(closes, i - 1), Falls(closes, i - 1);
      AveragesAreWeighted(closes, period, i - 1);
      assert Rises(closes, i) == up + [Gain(closes, i)];
      assert Falls(closes, i) == down + [Loss(closes, i)];
      AverageNext(AvgGain(closes, period, i - 1), up, Gain(closes, i), period);
      AverageNext(AvgLoss(closes, period, i - 1), down, Loss(closes, i), period);
    }
  }

  lemma AverageNext(average: real, moves: seq<real>, x: real, period: nat)
    requires 1 <= period <= |moves| && Product(average, period as real) == Weighted(moves, period)
    ensures Product(Smooth(average, x, period), period as real) == Weighted(moves + [x], period)
  {
    hide Weighted, Smooth, Product;
    WeightedNext(moves, x, period);
    SmoothTimes(average, x, period);
    WeightTimes(average, Weighted(moves, period), period);
  }

  lemma WeightedSeed(moves: seq<real>, period: nat)
    requires 1 <= period == |moves|
    ensures Weighted(moves, period) == Total(moves)
  {
    assert moves[..period] == moves && moves[period..] == [];
  }

  /** The index is the share of the weighted rises in all weighted moves, and 100 where nothing has fallen. */
  lemma RsiIsWeightedShare(closes: seq<real>, period: nat, i: nat)
    requires 1 <= period <= i < |closes|
    ensures var up, down := Weighted(Rises(closes, i), period), Weighted(Falls(closes, i), period);
            var r := RsiAt(closes, period as real, i);
            && r.Some?
            && Product(r.value, up + down) == Product(100.0, up)
            && (down == 0.0 ==> r == Some(100.0))
  {
    hide AvgGain, AvgLoss, Weighted, Rises, Falls, RsiFromAverages, Product;
    AveragesAreWeighted(closes, period, i);
    ScaledShare(AvgGain(closes, period, i), AvgLoss(closes, period, i), period as real,
                Weighted(Rises(closes, i), period), Weighted(Falls(closes, i), period));
  }

  lemma ScaledShare(g: real, l: real, p: real, up: real, down: real)
    requires p > 0.0 && g >= 0.0 && l >= 0.0 && Product(g, p) == up && Product(l, p) == down
    ensures var r := RsiFromAverages(g, l);
            Product(r, up + down) == Product(100.0, up) && (down == 0.0 ==> r == 100.0)
  {
    RsiIsShare(g, l);
    RsiOfNoLoss(g);
    var r := RsiFromAverages(g, l);
    hide RsiFromAverages;
    if l == 0.0 {
      assert r == 100.0 && down == 0.0;
    } else {
      ShareScales(r, g, l, p);
    }
  }

  lemma ShareScales(r: real, g: real, l: real, p: real)
    requires p > 0.0 && l > 0.0 && r * (g + l) == 100.0 * g
    ensures Product(r, g * p + l * p) == Product(100.0, g * p) && l * p > 0.0
  {
    assert r * (g * p + l * p) == r * (g + l) * p;
  }

  // ---------------------------------------------------------------- prices turned upside down

  function Mirror(closes: seq<real>, k: real): seq<real> {
    seq(|closes|, i requires 0 <= i < |closes| => k - closes[i])
  }

  /** The changes are mirrored, at the first bar only if there is nothing to mirror them about. */
  lemma MirrorChange(closes: seq<real>, k: real, n: int)
    requires n < |closes| && (1 <= n || k == 0.0)
    ensures Gain(Mirror(closes, k), n) == Loss(closes, n)
    ensures Loss(Mirror(closes, k), n) == Gain(closes, n)
  {
  }

  lemma {:induction false} MirrorSums(closes: seq<real>, k: real, n: int)
    requires n < |closes|
    ensures GainSum(Mirror(closes, k), n) == LossSum(closes, n)
    ensures LossSum(Mirror(closes, k), n) == GainSum(closes, n)
    decreases n
  {
    if n <= 0 {
    } else {
      MirrorSums(closes, k, n - 1);
      MirrorChange(closes, k, n);
    }
  }

  lemma {:induction false} MirrorAverages(closes: seq<real>, k: real, period: int, i: int)
    requires period != 0 && period <= i < |closes| && (period >= 1 || k == 0.0)
    ensures AvgGain(Mirror(closes, k), period, i) == AvgLoss(closes, period, i)
    ensures AvgLoss(Mirror(closes, k), period, i) == AvgGain(closes, period, i)
    decreases i - period
  {
    hide Mean, Smooth;
    if i == period {
      MirrorSums(closes, k, period);
    } else {
      MirrorAverages(closes, k, period, i - 1);
      MirrorChange(closes, k, i);
    }
  }

  lemma ShareUnique(x: real, y: real, total: real, amount: real)
    requires total != 0.0 && x * total == amount && y * total == amount
    ensures x == y
  {
    assert (x - y) * total == 0.0;
  }

  lemma RsiSwap(g: real, l: real)
    requires OneSign(g, l) && g + l != 0.0
    ensures RsiFromAverages(l, g) == 100.0 - RsiFromAverages(g, l)
  {
    hide RsiFromAverages;
    RsiIsShare(g, l);
    RsiIsShare(l, g);
    RsiOfNoLoss(g);
    RsiOfNoLoss(l);
    var x, y := RsiFromAverages(g, l), RsiFromAverages(l, g);
    if g == 0.0 {
      ShareUnique(x, 0.0, l, 0.0);
    } else if l == 0.0 {
      ShareUnique(y, 0.0, g, 0.0);
    } else {
      ShareUnique(y, 100.0 - x, g + l, 100.0 * l);
    }
  }

  lemma RsiOfNoLoss(gain: real)
    ensures RsiFromAverages(gain, 0.0) == 100.0
  {
  }

  /** The index of the mirrored prices is the mirrored index, except that where nothing has moved both read 100. */
  ghost predicate Mirrored(closes: seq<real>, k: real, period: int, i: int)
    requires period != 0 && period <= i
  {
    var r, r' := RsiAt(closes, period as real, i), RsiAt(Mirror(closes, k), period as real, i);
    && r.Some? && r'.Some?
    && if AvgGain(closes, period, i) == 0.0 && AvgLoss(closes, period, i) == 0.0
       then r.value == r'.value == 100.0
       else r'.value == 100.0 - r.value
  }

  lemma RsiMirror(closes: seq<real>, k: real, period: int, i: nat)
    requires period != 0 && period <= i < |closes| && (period >= 1 || k == 0.0)
    ensures Mirrored(closes, k, period, i)
  {
    MirrorAverages(closes, k, period, i);
    hide RsiFromAverages;
    var g, l := AvgGain(closes, period, i), AvgLoss(closes, period, i);
    if g + l != 0.0 {
      RsiSwap(g, l);
    } else {
      RsiOfNoLoss(g);
    }
  }

  /** A negative period compares the first close with zero, so that it only sees mirroring about zero. */
  lemma RsiMirrorExactly(k: real, period: int)
    requires period != 0
    ensures (forall closes: seq<real>, i: nat | period <= i < |closes| :: Mirrored(closes, k, period, i))
            <==> period >= 1 || k == 0.0
  {
    if period >= 1 || k == 0.0 {
      forall closes: seq<real>, i: nat | period <= i < |closes|
        ensures Mirrored(closes, k, period, i)
      {
        RsiMirror(closes, k, period, i);
      }
    } else {
      HalfwayNotMirrored(k, period);
      assert |[k / 2.0]| == 1;
    }
  }

  /** One close in the middle is its own mirror image, and its index, 0 or 100, is not its own. */
  lemma HalfwayNotMirrored(k: real, period: int)
    requires period <= -1 && k != 0.0
    ensures !Mirrored([k / 2.0], k, period, 0)
  {
    var closes := [k / 2.0];
    assert Mirror(closes, k) == closes;
    FirstAverages(closes, period);
    var r := RsiAt(closes, period as real, 0).value;
    if k > 0.0 {
      RsiOfNoLoss(AvgGain(closes, period, 0));
      assert r == 100.0;
    } else {
      RsiIsShare(AvgGain(closes, period, 0), AvgLoss(closes, period, 0));
      ShareUnique(r, 0.0, AvgLoss(closes, period, 0), 0.0);
    }
  }

  lemma FirstAverages(closes: seq<real>, period: int)
    requires period <= -1 && closes != []
    ensures AvgGain(closes, period, 0) != 0.0 <==> closes[0] > 0.0
    ensures AvgLoss(closes, period, 0) != 0.0 <==> closes[0] < 0.0
  {
    NothingMoved(closes, period, -1);
    SmoothFromZero(Gain(closes, 0), period);
    SmoothFromZero(Loss(closes, 0), period);
  }

  lemma SmoothFromZero(value: real, period: int)
    requires period != 0
    ensures Smooth(0.0, value, period) == 0.0 <==> value == 0.0
  {
    var r := Smooth(0.0, value, period);
    assert r * period as real == value;
  }

  // ---------------------------------------------------------------- Donchian channel

  /** A price, or the infinity that a search for an extreme starts from. */
  datatype Level = Infinite | At(value: real)

  datatype DonchianChannel = DonchianChannel(upper: Option<Level>, lower: Option<Level>)

  /** `k` is an index from `lo` up to `hi` at which there is a value. */
  predicate Within(values: seq<real>, lo: int, hi: int, k: int) {
    lo <= k < hi && 0 <= k < |values|
  }

  /** The greatest of the values with an index from `lo` up to `hi`; minus infinity when there are none. */
  ghost predicate IsHighest(values: seq<real>, lo: int, hi: int, upper: Level) {
    match upper
    case Infinite => forall k :: !Within(values, lo, hi, k)
    case At(value) =>
      && (exists k :: Within(values, lo, hi, k) && values[k] == value)
      && (forall k | Within(values, lo, hi, k) :: values[k] <= value)
  }

  /** The least of them; plus infinity when there are none. */
  ghost predicate IsLowest(values: seq<real>, lo: int, hi: int, lower: Level) {
    match lower
    case Infinite => forall k :: !Within(values, lo, hi, k)
    case At(value) =>
      && (exists k :: Within(values, lo, hi, k) && values[k] == value)
      && (forall k | Within(values, lo, hi, k) :: values[k] >= value)
  }

  /**
   Bar `i` sees the highest high and the lowest low of the `period` bars before it, and nothing before there are
   that many. Where no bars are asked for, there is nothing to exceed. A fractional period sets no bar.
   */
  ghost predicate IsChannelAt(highs: seq<real>, lows: seq<real>, period: real, i: nat, bar: DonchianChannel) {
    var p := period.Floor;
    if !Whole(period) || i < p then bar == DonchianChannel(None, None)
    else
      && bar.upper.Some? && IsHighest(highs, i - p, i, bar.upper.value)
      && bar.lower.Some? && IsLowest(lows, i - p, i, bar.lower.value)
  }

  method Donchian(highs: seq<real>, lows: seq<real>, period: real) returns (result: array<DonchianChannel>)
    ensures result.Length == |highs|
    ensures forall i :: 0 <= i < |highs| ==> IsChannelAt(highs, lows, period, i, result[i])
  {
    hide IsHighest, IsLowest;
    result := new DonchianChannel[|highs|](_ => DonchianChannel(None, None));
    if !Whole(period) {
      return;
    }
    var p := period.Floor;
    var i := p;
    while i < |highs|
      invariant p <= i
      invariant forall k :: 0 <= k < i && k < |highs| ==> IsChannelAt(highs, lows, period, k, result[k])
      invariant forall k :: 0 <= k < |highs| && i <= k ==> result[k] == DonchianChannel(None, None)
    {
      var upper, lower := Infinite, Infinite;
      var j := i - p;
      NoneYet(highs, lows, j, i);
      while j < i
        modifies {}
        invariant i - p <= j && (j <= i || j == i - p)
        invariant IsHighest(highs, i - p, j, upper) && IsLowest(lows, i - p, j, lower)
      {
        HigherOrNot(highs, i - p, j, upper);
        LowerOrNot(lows, i - p, j, lower);
        if 0 <= j < |highs| && (upper.Infinite? || highs[j] > upper.value) { upper := At(highs[j]); }
        if 0 <= j < |lows| && (lower.Infinite? || lows[j] < lower.value) { lower := At(lows[j]); }
        j := j + 1;
      }
      if i >= 0 {
        NoneAhead(highs, lows, i - p, j, i, upper, lower);
        result[i] := DonchianChannel(Some(upper), Some(lower));
      }
      i := i + 1;
    }
  }

  lemma NoneYet(highs: seq<real>, lows: seq<real>, lo: int, hi: int)
    ensures IsHighest(highs, lo, lo, Infinite) && IsLowest(lows, lo, lo, Infinite)
  {
  }

  /** A search over nothing may as well stop before it starts. */
  lemma NoneAhead(highs: seq<real>, lows: seq<real>, lo: int, j: int, hi: int, upper: Level, lower: Level)
    requires j == hi || hi <= lo == j
    requires IsHighest(highs, lo, j, upper) && IsLowest(lows, lo, j, lower)
    ensures IsHighest(highs, lo, hi, upper) && IsLowest(lows, lo, hi, lower)
  {
  }

  lemma WithinStep(values: seq<real>, lo: int, j: int, next: int)
    requires lo <= j && next == j + 1
    ensures forall k :: Within(values, lo, j, k) ==> Within(values, lo, next, k)
    ensures forall k :: Within(values, lo, next, k) ==> Within(values, lo, j, k) || k == j
    ensures Within(values, lo, next, j) <==> 0 <= j < |values|
  {
  }

  lemma HigherOrNot(values: seq<real>, lo: int, j: int, upper: Level)
    requires lo <= j && IsHighest(values, lo, j, upper)
    ensures IsHighest(values, lo, j + 1,
              if 0 <= j < |values| && (upper.Infinite? || values[j] > upper.value) then At(values[j]) else upper)
  {
    WithinStep(values, lo, j, j + 1);
  }

  lemma LowerOrNot(values: seq<real>, lo: int, j: int, lower: Level)
    requires lo <= j && IsLowest(values, lo, j, lower)
    ensures IsLowest(values, lo, j + 1,
              if 0 <= j < |values| && (lower.Infinite? || values[j] < lower.value) then At(values[j]) else lower)
  {
    WithinStep(values, lo, j, j + 1);
  }
}
