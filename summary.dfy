/** The per-track summary row of the CSV export: average and maximum speed, total
    distance and the number of speed samples. */
module Summary {

  /** Python's `sum`: the samples added left to right, starting from 0. */
  function Sum(s: seq<real>): real
  {
    if s == [] then 0.0 else Sum(s[..|s| - 1]) + s[|s| - 1]
  }

  /** Python's `max` on a non-empty list: scans left to right, keeping the larger value. */
  function Max(s: seq<real>): (m: real)
    requires s != []
    ensures m in s
    ensures forall i :: 0 <= i < |s| ==> s[i] <= m
  {
    if |s| == 1 then s[0]
    else
      var m := Max(s[..|s| - 1]);
      assert forall i :: 0 <= i < |s| - 1 ==> s[..|s| - 1][i] == s[i];
      if s[|s| - 1] > m then s[|s| - 1] else m
  }

  /** `sum(samples) / len(samples)` */
  function Mean(s: seq<real>): real
    requires s != []
  {
    Sum(s) / (|s| as real)
  }

  /** `n` copies of `b` added up. */
  function Repeat(n: nat, b: real): real
  {
    if n == 0 then 0.0 else Repeat(n - 1, b) + b
  }

  lemma {:induction false} RepeatIsProduct(n: nat, b: real)
    ensures Repeat(n, b) == (n as real) * b
  {
    if n > 0 {
      RepeatIsProduct(n - 1, b);
      assert ((n - 1) as real + 1.0) * b == ((n - 1) as real) * b + b;
    }
  }

  /** A sum of samples that all lie in `[lo, hi]` lies between `|s|` copies of
      `lo` and `|s|` copies of `hi`. */
  lemma {:induction false} SumBounds(s: seq<real>, lo: real, hi: real)
    requires forall i :: 0 <= i < |s| ==> lo <= s[i] <= hi
    ensures Repeat(|s|, lo) <= Sum(s) <= Repeat(|s|, hi)
  {
    if s != [] {
      var init := s[..|s| - 1];
      assert forall i :: 0 <= i < |init| ==> init[i] == s[i];
      SumBounds(init, lo, hi);
    }
  }

  /** Multiplying by a positive factor keeps a strict order. */
  lemma MulStrict(x: real, y: real, z: real)
    requires x < y && z > 0.0
    ensures x * z < y * z
  {
    assert y * z - x * z == (y - x) * z;
  }

  /** Adding the average up once per sample gives back the sum. */
  lemma MeanRepeat(s: seq<real>)
    requires s != []
    ensures Repeat(|s|, Mean(s)) == Sum(s)
  {
    var d := |s| as real;
    RepeatIsProduct(|s|, Mean(s));
    assert (Sum(s) / d) * d == Sum(s);
  }

  /** Dividing by a positive count keeps bounds on a sum. */
  lemma Quotient(a: real, n: nat, lo: real, hi: real)
    requires n > 0 && Repeat(n, lo) <= a <= Repeat(n, hi)
    ensures lo <= a / (n as real) <= hi
  {
    var d := n as real;
    var q := a / d;
    assert q * d == a;
    RepeatIsProduct(n, lo);
    RepeatIsProduct(n, hi);
    if q < lo {
      MulStrict(q, lo, d);
    }
    if hi < q {
      MulStrict(hi, q, d);
    }
  }

  /** The smallest sample. */
  function Min(s: seq<real>): (m: real)
    requires s != []
    ensures m in s
    ensures forall i :: 0 <= i < |s| ==> m <= s[i]
  {
    if |s| == 1 then s[0]
    else
      var m := Min(s[..|s| - 1]);
      assert forall i :: 0 <= i < |s| - 1 ==> s[..|s| - 1][i] == s[i];
      if s[|s| - 1] < m then s[|s| - 1] else m
  }

  /** The average lies between any lower bound of the samples and their maximum. */
  lemma MeanBounds(s: seq<real>, lo: real)
    requires s != []
    requires forall i :: 0 <= i < |s| ==> lo <= s[i]
    ensures lo <= Mean(s) <= Max(s)
  {
    SumBounds(s, lo, Max(s));
    Quotient(Sum(s), |s|, lo, Max(s));
  }

  /** One row of the CSV export (columns `player_id`, `average_speed_kmh`,
      `max_speed_kmh`, `total_distance_m`, `num_speed_samples`). */
  datatype Row = Row(playerId: int, averageSpeedKmh: real, maxSpeedKmh: real, totalDistanceM: real, numSpeedSamples: nat)

  /** The row of one track from its speed samples and its total distance. */
  function SummaryRow(playerId: int, samples: seq<real>, totalDistance: real): (r: Row)
    requires samples != []
    ensures r.playerId == playerId && r.totalDistanceM == totalDistance
    ensures r.numSpeedSamples == |samples| && r.numSpeedSamples >= 1
    ensures r.maxSpeedKmh in samples
    ensures r.averageSpeedKmh <= r.maxSpeedKmh
    ensures forall i :: 0 <= i < |samples| ==> samples[i] <= r.maxSpeedKmh
    ensures exists i :: 0 <= i < |samples| && samples[i] <= r.averageSpeedKmh
    ensures (forall i :: 0 <= i < |samples| ==> samples[i] >= 0.0) ==> r.averageSpeedKmh >= 0.0
  {
    MeanBounds(samples, Min(samples));
    Row(playerId, Mean(samples), Max(samples), totalDistance, |samples|)
  }

  /** The row's average is `sum(samples) / len(samples)`: added up once per sample
      it gives back the sum of the samples. */
  lemma RowAverage(playerId: int, samples: seq<real>, totalDistance: real)
    requires samples != []
    ensures var r := SummaryRow(playerId, samples, totalDistance);
      Repeat(r.numSpeedSamples, r.averageSpeedKmh) == Sum(samples)
  {
    var r := SummaryRow(playerId, samples, totalDistance);
    assert r.averageSpeedKmh == Mean(samples) && r.numSpeedSamples == |samples|;
    MeanRepeat(samples);
  }
}
