/** Progress arithmetic (app/utils/helpers.py), on exact numbers. */
module Progress {
  import opened Common
  import opened Executor
  import opened Counting

  /** Python's round(): to the nearest integer, ties to the even one. */
  function RoundHalfEven(x: real): (r: int)
    ensures r as real - 0.5 <= x <= r as real + 0.5
    ensures (x == r as real - 0.5 || x == r as real + 0.5) ==> r % 2 == 0
  {
    var f := x.Floor;
    var d := x - f as real;
    if d < 0.5 || (d == 0.5 && f % 2 == 0) then f else f + 1
  }

  /** math.ceil() */
  function Ceiling(x: real): (c: int)
    ensures (c - 1) as real < x <= c as real
  {
    if x.Floor as real == x then x.Floor else x.Floor + 1
  }

  function CalculateProgress(processed: int, total: int): int {
    if total <= 0 then 0 else Min(100, RoundHalfEven(processed as real / total as real * 100.0))
  }

  function CalculateSpeed(processed: int, elapsed: real): int {
    if elapsed <= 0.0 then 0 else RoundHalfEven(processed as real / elapsed)
  }

  function EstimateTimeRemaining(processed: int, total: int, elapsed: real): int {
    if processed <= 0 || total <= 0 || elapsed <= 0.0 then 0
    else
      var rate := processed as real / elapsed;
      var remaining := Max(0, total - processed);
      if rate > 0.0 then Ceiling(remaining as real / rate) else 0
  }

  lemma RoundMonotone(x: real, y: real)
    requires x <= y
    ensures RoundHalfEven(x) <= RoundHalfEven(y)
  {
  }

  lemma Percentage(processed: int, total: int)
    requires total > 0
    ensures processed as real / total as real * 100.0 * total as real == 100.0 * processed as real
  {
    var q := processed as real / total as real;
    assert q * total as real == processed as real;
  }

  lemma TimesKeepsOrder(a: real, b: real, c: real)
    requires c > 0.0
    ensures a <= b <==> a * c <= b * c
  {
    if a <= b {
      assert (b - a) * c >= 0.0;
    } else {
      assert (a - b) * c > 0.0;
    }
  }

  lemma TimesMonotone(a: real, b: real, c: real)
    requires a <= b && c > 0.0
    ensures a * c <= b * c
  {
    TimesKeepsOrder(a, b, c);
  }

  lemma Cross(m: real, t: real, x: real, lo: real, hi: real, z: real)
    requires t > 0.0 && x * t == m && lo <= x <= hi
    ensures lo * t <= m <= hi * t
    ensures x >= z <==> m >= z * t
  {
    TimesMonotone(lo, x, t);
    TimesMonotone(x, hi, t);
    TimesKeepsOrder(z, x, t);
  }

  /** Rounding a quotient x == m / t, compared by cross-multiplication. */
  lemma RoundedQuotient(m: real, t: real, r: int, x: real)
    requires t > 0.0 && x * t == m && r == RoundHalfEven(x)
    ensures (r as real - 0.5) * t <= m <= (r as real + 0.5) * t
    ensures r >= 100 <==> m >= 99.5 * t
    ensures m >= 0.0 ==> r >= 0
  {
    assert r >= 100 <==> x >= 99.5;
    assert x >= 0.0 ==> r >= 0;
    Cross(m, t, x, r as real - 0.5, r as real + 0.5, 99.5);
    Cross(m, t, x, r as real - 0.5, r as real + 0.5, 0.0);
  }

  /** The reported percentage is between 0 and 100, within half a point of the exact ratio
      below the clamp, and 100 exactly from 99.5 percent on. */
  lemma ProgressExactly(processed: nat, total: int)
    requires total > 0
    ensures
      var p := CalculateProgress(processed, total);
      && 0 <= p <= 100
      && (p < 100 ==>
            (p as real - 0.5) * total as real <= 100.0 * processed as real <= (p as real + 0.5) * total as real)
      && (p == 100 <==> 100.0 * processed as real >= 99.5 * total as real)
  {
    var x := processed as real / total as real * 100.0;
    var p, r := CalculateProgress(processed, total), RoundHalfEven(x);
    assert p == Min(100, r);
    Percentage(processed, total);
    hide CalculateProgress, RoundHalfEven;
    RoundedQuotient(100.0 * processed as real, total as real, r, x);
    assert p < 100 ==> p == r;
  }

  /** More rows never mean less progress. */
  lemma ProgressMonotone(a: int, b: int, total: int)
    requires a <= b
    ensures CalculateProgress(a, total) <= CalculateProgress(b, total)
  {
    if total > 0 {
      Percentage(a, total);
      Percentage(b, total);
      TimesKeepsOrder(a as real / total as real * 100.0, b as real / total as real * 100.0, total as real);
      RoundMonotone(a as real / total as real * 100.0, b as real / total as real * 100.0);
    }
  }

  /** Dividing by a rate, multiplied out. */
  lemma DividedByRate(remaining: real, p: real, elapsed: real)
    requires p > 0.0 && elapsed > 0.0 && remaining >= 0.0
    ensures p / elapsed > 0.0
    ensures remaining / (p / elapsed) * p == remaining * elapsed
    ensures remaining / (p / elapsed) >= 0.0
  {
    var rate := p / elapsed;
    assert rate * elapsed == p;
    assert rate > 0.0 by { TimesKeepsOrder(rate, 0.0, elapsed); }
    var x := remaining / rate;
    assert x * rate == remaining;
    Regroup(x, rate, elapsed);
    TimesKeepsOrder(0.0, x, rate);
  }

  lemma Regroup(x: real, y: real, z: real)
    ensures x * (y * z) == (x * y) * z
  {
  }

  /** The estimate is the least whole number of seconds that covers the remaining rows at
      the average speed so far. */
  lemma EtaIsLeast(processed: int, total: int, elapsed: real)
    requires processed > 0 && total > 0 && elapsed > 0.0
    ensures
      var eta := EstimateTimeRemaining(processed, total, elapsed);
      var needed := Max(0, total - processed) as real * elapsed;
      eta >= 0 && eta as real * processed as real >= needed > (eta - 1) as real * processed as real
  {
    var p, remaining := processed as real, Max(0, total - processed) as real;
    DividedByRate(remaining, p, elapsed);
    var x := remaining / (p / elapsed);
    var eta := EstimateTimeRemaining(processed, total, elapsed);
    assert eta == Ceiling(x);
    hide EstimateTimeRemaining, Ceiling;
    CeilingTimes(x, p, remaining * elapsed);
  }

  lemma CeilingTimes(x: real, p: real, m: real)
    requires p > 0.0 && x >= 0.0 && x * p == m
    ensures Ceiling(x) >= 0 && Ceiling(x) as real * p >= m > (Ceiling(x) - 1) as real * p
  {
    var c := Ceiling(x);
    hide Ceiling;
    assert (c - 1) as real < x <= c as real;
    Between((c - 1) as real, x, c as real, p, m);
  }

  lemma Between(lo: real, x: real, hi: real, p: real, m: real)
    requires p > 0.0 && lo < x <= hi && x * p == m
    ensures lo * p < m <= hi * p
  {
    TimesKeepsOrder(x, lo, p);
    TimesKeepsOrder(x, hi, p);
  }

  /** The estimate is 0 exactly when nothing is left. */
  lemma EtaZeroExactly(processed: int, total: int, elapsed: real)
    requires processed > 0 && total > 0 && elapsed > 0.0
    ensures EstimateTimeRemaining(processed, total, elapsed) == 0 <==> processed >= total
  {
    hide EstimateTimeRemaining;
    EtaIsLeast(processed, total, elapsed);
    var eta, p := EstimateTimeRemaining(processed, total, elapsed), processed as real;
    var needed := Max(0, total - processed) as real * elapsed;
    if processed >= total {
      assert needed == 0.0;
      TimesKeepsOrder(0.0, (eta - 1) as real, p);
    } else {
      TimesKeepsOrder(Max(0, total - processed) as real, 0.0, elapsed);
      assert needed > 0.0;
    }
  }

  /** At a fixed elapsed time the estimate never grows with the rows done. */
  lemma EtaAntitone(a: int, b: int, total: int, elapsed: real)
    requires 1 <= a <= b && total > 0 && elapsed > 0.0
    ensures EstimateTimeRemaining(b, total, elapsed) <= EstimateTimeRemaining(a, total, elapsed)
  {
    hide EstimateTimeRemaining;
    EtaIsLeast(a, total, elapsed);
    EtaIsLeast(b, total, elapsed);
    var x, y := EstimateTimeRemaining(a, total, elapsed), EstimateTimeRemaining(b, total, elapsed);
    var restA, restB := Max(0, total - a) as real, Max(0, total - b) as real;
    TimesMonotone(restB, restA, elapsed);
    CoveredLater(x as real, (y - 1) as real, a as real, b as real, restA * elapsed, restB * elapsed);
  }

  /** x seconds at the lower speed cover more than needed at the higher one. */
  lemma CoveredLater(x: real, y1: real, a: real, b: real, neededA: real, neededB: real)
    requires 0.0 <= x && 0.0 < a <= b && neededB <= neededA
    requires x * a >= neededA && neededB > y1 * b
    ensures y1 < x
  {
    Swapped(x, a, b);
    TimesKeepsOrder(x, y1, b);
  }

  lemma Swapped(x: real, a: real, b: real)
    requires 0.0 <= x && a <= b
    ensures x * a <= x * b
  {
    if x > 0.0 {
      TimesMonotone(a, b, x);
    }
  }

  /** As many rows as seconds make a speed of one. */
  lemma OneRowASecond(elapsed: nat)
    requires elapsed > 0
    ensures CalculateSpeed(elapsed, elapsed as real) == 1
  {
    assert elapsed as real / elapsed as real == 1.0;
  }

  lemma SpeedNonNegative(processed: nat, elapsed: real)
    ensures CalculateSpeed(processed, elapsed) >= 0
  {
    if elapsed > 0.0 {
      var x := processed as real / elapsed;
      assert x * elapsed == processed as real;
      TimesKeepsOrder(0.0, x, elapsed);
    }
  }

  lemma EtaNonNegative(processed: nat, total: int, elapsed: real)
    ensures EstimateTimeRemaining(processed, total, elapsed) >= 0
  {
    if processed > 0 && total > 0 && elapsed > 0.0 {
      EtaIsLeast(processed, total, elapsed);
    }
  }

  /** PROGRESS OVER A RUN. The totals a run reports increase strictly up to its final total,
      so the percentages never fall and stay in range. */
  lemma ReportedProgress(w: World, total: int, i: nat, j: nat)
    requires ReportsOk(w) && i < j < |w.reports|
    ensures w.reports[i].total < w.reports[j].total <= w.total
    ensures 0 <= CalculateProgress(w.reports[i].total, total) <= CalculateProgress(w.reports[j].total, total) <= 100
  {
    ProgressMonotone(w.reports[i].total, w.reports[j].total, total);
    if total > 0 {
      ProgressExactly(w.reports[i].total, total);
      ProgressExactly(w.reports[j].total, total);
    }
  }
}
