/**
  The time-weighted mean of the sampled memory, as `measure` computes it
  (bench/measure_command.py): trapezoids over the sampling intervals, divided by the span.
 */
module MeanRss {
  import opened Wrappers

  datatype Sample = Sample(elapsed: int, rss: int)

  /** Twice the area under the samples, so that it stays an integer. */
  function DoubleArea(samples: seq<Sample>): int {
    if |samples| < 2 then 0 else
      (samples[1].elapsed - samples[0].elapsed) * (samples[0].rss + samples[1].rss) + DoubleArea(samples[1..])
  }

  function Span(samples: seq<Sample>): int
    requires samples != []
  {
    samples[|samples| - 1].elapsed - samples[0].elapsed
  }

  /** No mean for fewer than two samples or an empty span. */
  function Mean(samples: seq<Sample>): Option<real> {
    if |samples| < 2 || Span(samples) == 0 then None
    else Some(DoubleArea(samples) as real / 2.0 / Span(samples) as real)
  }

  /** A monotonic clock. */
  predicate InOrder(samples: seq<Sample>) {
    forall i | 0 < i < |samples| :: samples[i - 1].elapsed <= samples[i].elapsed
  }

  lemma {:induction false} SpanIsNotNegative(samples: seq<Sample>)
    requires samples != [] && InOrder(samples)
    ensures Span(samples) >= 0
  {
    if |samples| > 1 {
      assert forall i | 0 < i < |samples| - 1 :: samples[1..][i - 1] == samples[i] && samples[1..][i] == samples[i + 1];
      SpanIsNotNegative(samples[1..]);
      assert samples[1 - 1].elapsed <= samples[1].elapsed;
    }
  }

  lemma Scale(dt: int, x: int, y: int)
    requires dt >= 0 && x <= y
    ensures x * dt <= y * dt
  {
  }

  lemma Distribute(k: int, x: int, y: int)
    ensures k * (x + y) == k * x + k * y
  {
  }

  /** The bounds of one trapezoid and of the area behind it add up. */
  lemma AddTrapezoid(dt: int, sum: int, area: int, span: int, lo: int, hi: int)
    requires dt >= 0 && lo <= sum <= hi && lo * span <= area <= hi * span
    ensures lo * (dt + span) <= dt * sum + area <= hi * (dt + span)
  {
    Scale(dt, lo, sum);
    Scale(dt, sum, hi);
    Distribute(lo, dt, span);
    Distribute(hi, dt, span);
  }

  predicate Within(samples: seq<Sample>, lo: int, hi: int)
    requires samples != []
  {
    lo * Span(samples) <= DoubleArea(samples) <= hi * Span(samples)
  }

  lemma AddInterval(samples: seq<Sample>, lo: int, hi: int)
    requires |samples| > 1 && samples[0].elapsed <= samples[1].elapsed
    requires lo <= samples[0].rss + samples[1].rss <= hi && Within(samples[1..], lo, hi)
    ensures Within(samples, lo, hi)
  {
    var dt, span := samples[1].elapsed - samples[0].elapsed, Span(samples[1..]);
    AddTrapezoid(dt, samples[0].rss + samples[1].rss, DoubleArea(samples[1..]), span, lo, hi);
    assert Span(samples) == dt + span;
  }

  /** The interval lengths telescope: the area lies between those of the two constant functions. */
  lemma {:induction false} AreaBounds(samples: seq<Sample>, lo: int, hi: int)
    requires samples != [] && InOrder(samples)
    requires forall i | 0 <= i < |samples| :: lo <= samples[i].rss <= hi
    ensures Within(samples, 2 * lo, 2 * hi)
  {
    if |samples| > 1 {
      var rest := samples[1..];
      assert forall i | 0 < i < |rest| :: rest[i - 1] == samples[i] && rest[i] == samples[i + 1];
      AreaBounds(rest, lo, hi);
      assert samples[1 - 1].elapsed <= samples[1].elapsed;
      AddInterval(samples, 2 * lo, 2 * hi);
    }
  }

  lemma QuotientBounds(x: real, s: real, l: real, h: real)
    requires s > 0.0 && l * s <= x <= h * s
    ensures l <= x / s <= h
  {
    var q := x / s;
    assert q * s == x;
    if q < l {
      ScaleReal(s, q, l);
    }
    if h < q {
      ScaleReal(s, h, q);
    }
  }

  lemma ScaleReal(s: real, x: real, y: real)
    requires s > 0.0 && x < y
    ensures x * s < y * s
  {
  }

  lemma HalfOfProduct(k: int, n: int)
    ensures ((2 * k) * n) as real / 2.0 == k as real * n as real
  {
    assert ((2 * k) * n) as real == (2 * (k * n)) as real;
    assert (k * n) as real == k as real * n as real;
  }

  lemma Quotient(area: int, span: int, lo: int, hi: int)
    requires span > 0 && (2 * lo) * span <= area <= (2 * hi) * span
    ensures lo as real <= area as real / 2.0 / span as real <= hi as real
  {
    HalfOfProduct(lo, span);
    HalfOfProduct(hi, span);
    QuotientBounds(area as real / 2.0, span as real, lo as real, hi as real);
  }

  /** Main result: for timestamps in order there is a mean exactly if time passed, and it lies
      between any bounds of the samples; so between their minimum and maximum, and it is the
      common value of equal samples. */
  lemma MeanIsBetween(samples: seq<Sample>, lo: int, hi: int)
    requires InOrder(samples) && forall i | 0 <= i < |samples| :: lo <= samples[i].rss <= hi
    ensures Mean(samples).Some? <==> samples != [] && Span(samples) > 0
    ensures Mean(samples).Some? ==> lo as real <= Mean(samples).value <= hi as real
  {
    if samples != [] {
      SpanIsNotNegative(samples);
      AreaBounds(samples, lo, hi);
      if Span(samples) > 0 {
        Quotient(DoubleArea(samples), Span(samples), lo, hi);
      }
    }
  }

  lemma MeanOfEqualSamples(samples: seq<Sample>, v: int)
    requires InOrder(samples) && forall i | 0 <= i < |samples| :: samples[i].rss == v
    requires samples != [] && Span(samples) > 0
    ensures Mean(samples) == Some(v as real)
  {
    MeanIsBetween(samples, v, v);
  }

  /** The mean of two samples is half their sum; of one sample, or at one instant, there is none. */
  lemma MeanOfTwo(a: Sample, b: Sample)
    ensures Mean([]) == None && Mean([a]) == None
    ensures Mean([a, b]) == if b.elapsed == a.elapsed then None else Some((a.rss + b.rss) as real / 2.0)
  {
    var s := [a, b];
    assert s[1..] == [b] && DoubleArea([b]) == 0;
    if a.elapsed != b.elapsed {
      HalfQuotient(b.elapsed - a.elapsed, a.rss + b.rss);
    }
  }

  lemma HalfQuotient(dt: int, sum: int)
    requires dt != 0
    ensures (dt * sum) as real / 2.0 / dt as real == sum as real / 2.0
  {
    var x, d := sum as real / 2.0, dt as real;
    assert (dt * sum) as real == d * sum as real;
    assert (dt * sum) as real / 2.0 == d * x;
    CancelFactor(x, d);
  }

  lemma CancelFactor(x: real, d: real)
    requires d != 0.0
    ensures d * x / d == x
  {
  }

  // ---- splitting --------------------------------------------------------------------------

  lemma {:induction false} AreaSplits(a: seq<Sample>, s: Sample, b: seq<Sample>)
    ensures DoubleArea(a + [s] + b) == DoubleArea(a + [s]) + DoubleArea([s] + b)
  {
    if a == [] {
      assert a + [s] + b == [s] + b && a + [s] == [s];
    } else {
      var x, y := a + [s] + b, a + [s];
      assert x[1..] == a[1..] + [s] + b && y[1..] == a[1..] + [s];
      AreaSplits(a[1..], s, b);
      assert x[0] == y[0] && x[1] == y[1];
    }
  }

  /** Main result: the measurement can be cut at any sample; the mean of the whole is the mean of
      the means of the parts, weighted by their spans. */
  lemma MeansCombine(a: seq<Sample>, s: Sample, b: seq<Sample>)
    requires Mean(a + [s]).Some? && Mean([s] + b).Some? && Mean(a + [s] + b).Some?
    ensures Weighted(a + [s] + b) == Weighted(a + [s]) + Weighted([s] + b)
  {
    AreaSplits(a, s, b);
    var x := Restore(a + [s]);
    var y := Restore([s] + b);
    var z := Restore(a + [s] + b);
    Halves(DoubleArea(a + [s]), DoubleArea([s] + b));
  }

  lemma Halves(m: int, n: int)
    ensures (m + n) as real / 2.0 == m as real / 2.0 + n as real / 2.0
  {
  }

  /** The mean times the time it is about. */
  function Weighted(samples: seq<Sample>): real
    requires Mean(samples).Some?
  {
    Product(Mean(samples).value, Span(samples) as real)
  }

  function Product(x: real, y: real): real {
    x * y
  }

  lemma Restore(x: seq<Sample>) returns (w: real)
    requires Mean(x).Some?
    ensures w == Weighted(x) && w == DoubleArea(x) as real / 2.0
  {
    w := Weighted(x);
    Undivide(DoubleArea(x) as real / 2.0, Span(x) as real);
  }

  lemma Undivide(x: real, s: real)
    requires s != 0.0
    ensures Product(x / s, s) == x
  {
  }
}
