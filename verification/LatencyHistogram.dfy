/**
 The latency histogram of the writer: fine bins, coarse bins and one overflow bin,
 and percentiles read from it, against the order statistics of the observations.
 */
module LatencyHistogram {

  const FINE_WIDTH: nat := 100
  const FINE_BINS: nat := 10_000
  const COARSE_WIDTH: nat := 10_000
  const COARSE_BINS: nat := 9_900
  const BINS: nat := FINE_BINS + COARSE_BINS + 1
  const FINE_LIMIT: nat := FINE_BINS * FINE_WIDTH

  function BinOf(elapsed: nat): (b: nat)
    ensures b < BINS
  {
    if elapsed < FINE_LIMIT then elapsed / FINE_WIDTH
    else
      var b := FINE_BINS + (elapsed - FINE_LIMIT) / COARSE_WIDTH;
      if b < BINS - 1 then b else BINS - 1
  }

  function LowerEdge(b: nat): nat {
    if b < FINE_BINS then b * FINE_WIDTH else FINE_LIMIT + (b - FINE_BINS) * COARSE_WIDTH
  }

  // What is reported for a bin other than the last
  function UpperEdge(b: nat): nat {
    if b < FINE_BINS then (b + 1) * FINE_WIDTH else FINE_LIMIT + (b - FINE_BINS + 1) * COARSE_WIDTH
  }

  lemma BinEdges(x: nat)
    ensures LowerEdge(BinOf(x)) <= x
    ensures BinOf(x) < BINS - 1 ==> x < UpperEdge(BinOf(x))
  {
  }

  lemma BinMonotone(x: nat, y: nat)
    requires x <= y
    ensures BinOf(x) <= BinOf(y)
  {
  }

  lemma EdgeMonotone(a: nat, b: nat)
    requires a <= b
    ensures UpperEdge(a) <= UpperEdge(b) && LowerEdge(a) < UpperEdge(a)
    ensures a < b ==> UpperEdge(a) <= LowerEdge(b)
  {
  }

  // Counting observations

  function Count(obs: seq<nat>, p: nat -> bool): (n: nat)
    ensures n <= |obs|
  {
    if |obs| == 0 then 0 else Count(obs[..|obs| - 1], p) + (if p(obs[|obs| - 1]) then 1 else 0)
  }

  function InBin(b: nat): nat -> bool { (x: nat) => BinOf(x) == b }

  function BelowBin(b: nat): nat -> bool { (x: nat) => BinOf(x) < b }

  function AtMost(v: nat): nat -> bool { (x: nat) => x <= v }

  function Below(v: nat): nat -> bool { (x: nat) => x < v }

  lemma {:induction false} CountImplies(obs: seq<nat>, p: nat -> bool, q: nat -> bool)
    requires forall x: nat :: p(x) ==> q(x)
    ensures Count(obs, p) <= Count(obs, q)
  {
    if |obs| > 0 {
      CountImplies(obs[..|obs| - 1], p, q);
    }
  }

  lemma {:induction false} CountAdd(obs: seq<nat>, p: nat -> bool, q: nat -> bool, r: nat -> bool)
    requires forall x: nat :: r(x) <==> p(x) || q(x)
    requires forall x: nat :: !(p(x) && q(x))
    ensures Count(obs, r) == Count(obs, p) + Count(obs, q)
  {
    if |obs| > 0 {
      CountAdd(obs[..|obs| - 1], p, q, r);
    }
  }

  lemma {:induction false} CountAll(obs: seq<nat>, p: nat -> bool)
    requires forall x :: x in obs ==> p(x)
    ensures Count(obs, p) == |obs|
  {
    if |obs| > 0 {
      CountAll(obs[..|obs| - 1], p);
    }
  }

  lemma {:induction false} CountNone(obs: seq<nat>, p: nat -> bool)
    requires Count(obs, p) > 0
    ensures exists x: nat :: x in obs && p(x)
  {
    if Count(obs[..|obs| - 1], p) > 0 {
      CountNone(obs[..|obs| - 1], p);
      var x :| x in obs[..|obs| - 1] && p(x);
      assert x in obs && p(x);
    } else {
      assert obs[|obs| - 1] in obs && p(obs[|obs| - 1]);
    }
  }

  // The nearest-rank order statistic

  // v is the r-th smallest observation.
  ghost predicate IsRank(obs: seq<nat>, r: nat, v: nat) {
    Count(obs, Below(v)) < r <= Count(obs, AtMost(v))
  }

  lemma {:induction false} RankFrom(obs: seq<nat>, r: nat, low: nat, high: nat) returns (v: nat)
    requires low <= high && r <= Count(obs, AtMost(high)) && Count(obs, Below(low)) < r
    ensures IsRank(obs, r, v)
    decreases high - low
  {
    if r <= Count(obs, AtMost(low)) {
      v := low;
    } else {
      CountImplies(obs, Below(low + 1), AtMost(low));
      v := RankFrom(obs, r, low + 1, high);
    }
  }

  function Maximum(obs: seq<nat>): nat {
    if |obs| == 0 then 0
    else
      var m, x := Maximum(obs[..|obs| - 1]), obs[|obs| - 1];
      if m < x then x else m
  }

  lemma {:induction false} MaximumIsOne(obs: seq<nat>)
    requires |obs| > 0
    ensures Maximum(obs) in obs
  {
    var rest, x := obs[..|obs| - 1], obs[|obs| - 1];
    if |rest| > 0 {
      MaximumIsOne(rest);
      var i :| 0 <= i < |rest| && rest[i] == Maximum(rest);
      assert obs[i] == Maximum(rest);
    }
  }

  lemma {:induction false} MaximumBounds(obs: seq<nat>)
    ensures forall x :: x in obs ==> x <= Maximum(obs)
  {
    if |obs| > 0 {
      MaximumBounds(obs[..|obs| - 1]);
      assert obs == obs[..|obs| - 1] + [obs[|obs| - 1]];
    }
  }

  // Every rank between 1 and the number of observations names an observation.
  lemma RankExists(obs: seq<nat>, r: nat) returns (v: nat)
    requires 1 <= r <= |obs|
    ensures IsRank(obs, r, v) && v in obs
  {
    MaximumBounds(obs);
    CountAll(obs, AtMost(Maximum(obs)));
    if Count(obs, Below(0)) > 0 {
      CountNone(obs, Below(0));
    }
    v := RankFrom(obs, r, 0, Maximum(obs));
    var same := (x: nat) => x == v;
    CountAdd(obs, Below(v), same, AtMost(v));
    CountNone(obs, same);
  }

  // Percentiles

  function Rank(samples: nat, numerator: nat): nat {
    (samples * numerator + 99) / 100
  }

  function Reported(bin: nat, maximum: nat): nat {
    if bin == BINS - 1 then maximum else UpperEdge(bin)
  }

  // It is the least rank that covers the fraction.
  lemma RankIsLeast(samples: nat, numerator: nat)
    requires samples > 0 && numerator > 0
    ensures 0 < Rank(samples, numerator)
    ensures 100 * (Rank(samples, numerator) - 1) < samples * numerator <= 100 * Rank(samples, numerator)
  {}

  datatype LatencySummary = LatencySummary(samples: nat, p50: nat, p95: nat, p99: nat, maximum: nat)

  // The bin where the cumulative count reaches the rank is the bin of the
  // observation of that rank.
  lemma RankBin(obs: seq<nat>, r: nat, b: nat, v: nat)
    requires b < BINS && Count(obs, BelowBin(b)) < r <= Count(obs, BelowBin(b + 1))
    requires IsRank(obs, r, v)
    ensures BinOf(v) == b
  {
    if BinOf(v) < b {
      forall x: nat
        ensures AtMost(v)(x) ==> BelowBin(b)(x)
      {
        if x <= v {
          BinMonotone(x, v);
        }
      }
      CountImplies(obs, AtMost(v), BelowBin(b));
    } else if BinOf(v) > b {
      forall x: nat
        ensures BelowBin(b + 1)(x) ==> Below(v)(x)
      {
        if x >= v {
          BinMonotone(v, x);
        }
      }
      CountImplies(obs, BelowBin(b + 1), Below(v));
    }
  }

  class Histogram {
    const bins: array<nat>
    var samples: nat
    var maximum: nat
    ghost var observations: seq<nat>

    ghost predicate Valid()
      reads this, bins
    {
      && bins.Length == BINS
      && (forall b :: 0 <= b < BINS ==> bins[b] == Count(observations, InBin(b)))
      && samples == |observations|
      && maximum == Maximum(observations)
    }

    constructor ()
      ensures Valid() && observations == [] && fresh(bins)
    {
      bins := new nat[BINS](i => 0);
      samples, maximum, observations := 0, 0, [];
    }

    method Observe(elapsed: nat)
      requires Valid()
      modifies this, bins
      ensures Valid() && observations == old(observations) + [elapsed]
    {
      var bin := BinOf(elapsed);
      bins[bin] := bins[bin] + 1;
      samples := samples + 1;
      maximum := if maximum < elapsed then elapsed else maximum;
      observations := observations + [elapsed];
      assert observations[..|observations| - 1] == old(observations);
    }

    // The value reported for a percentile: the observation of that rank lies in
    // the reported bin, below the reported value unless the bin is the last.
    method Percentile(numerator: nat) returns (value: nat, ghost bin: nat)
      requires Valid() && samples > 0 && 1 <= numerator <= 100
      ensures ReportsPercentile(observations, numerator, maximum, value)
      ensures ReportsRank(observations, Rank(samples, numerator), value)
      ensures value <= maximum <==> RankBelowMaximum(observations, Rank(samples, numerator))
      ensures bin < BINS && value == Reported(bin, maximum)
      ensures Count(observations, BelowBin(bin)) < Rank(samples, numerator) <= Count(observations, BelowBin(bin + 1))
      ensures forall v: nat :: IsRank(observations, Rank(samples, numerator), v) ==>
        BinOf(v) == bin && LowerEdge(bin) <= v && (bin < BINS - 1 ==> v < value)
    {
      hide BinOf;
      var rank := Rank(samples, numerator);
      var cumulative := 0;
      var index := 0;
      NothingBelowFirst(observations);
      CountAll(observations, BelowBin(BINS));
      while index < bins.Length
        invariant 0 <= index <= BINS
        invariant cumulative == Count(observations, BelowBin(index)) < rank
      {
        CountAdd(observations, BelowBin(index), InBin(index), BelowBin(index + 1));
        cumulative := cumulative + bins[index];
        if cumulative >= rank {
          forall v: nat | IsRank(observations, rank, v)
            ensures BinOf(v) == index && LowerEdge(index) <= v && (index < BINS - 1 ==> v < UpperEdge(index))
          {
            RankBin(observations, rank, index, v);
            BinEdges(v);
          }
          RankIsWithin(observations, rank, index);
          PercentileReported(observations, numerator, index);
          return Reported(index, maximum), index;
        }
        index := index + 1;
      }
      assert false;
    }

    // Percentiles are ordered, across all bin boundaries.
    method Summarize() returns (summary: LatencySummary)
      requires Valid()
      ensures summary.samples == |observations| && summary.maximum == Maximum(observations)
      ensures samples > 0 ==>
        && summary.maximum in observations
        && (forall x :: x in observations ==> x <= summary.maximum)
        && ReportsPercentile(observations, 50, summary.maximum, summary.p50)
        && ReportsPercentile(observations, 95, summary.maximum, summary.p95)
        && ReportsPercentile(observations, 99, summary.maximum, summary.p99)
      ensures samples == 0 ==> summary == LatencySummary(0, 0, 0, 0, 0)
      ensures samples > 0 ==> summary.p50 <= summary.p95 <= summary.p99
      ensures samples > 0 ==>
        && ReportsRank(observations, Rank(samples, 50), summary.p50)
        && ReportsRank(observations, Rank(samples, 95), summary.p95)
        && ReportsRank(observations, Rank(samples, 99), summary.p99)
      // Each stays within the reported maximum exactly under its condition.
      ensures samples > 0 ==>
        && (summary.p50 <= summary.maximum <==> RankBelowMaximum(observations, Rank(samples, 50)))
        && (summary.p95 <= summary.maximum <==> RankBelowMaximum(observations, Rank(samples, 95)))
        && (summary.p99 <= summary.maximum <==> RankBelowMaximum(observations, Rank(samples, 99)))
    {
      hide Count, ReportsRank, ReportsPercentile, RankBelowMaximum, Reported;
      summary := LatencySummary(samples, 0, 0, 0, maximum);
      if samples == 0 {
        return;
      }
      MaximumBounds(observations);
      MaximumIsOne(observations);
      ghost var b50: nat, b95: nat, b99: nat;
      var p50, p95, p99: nat;
      p50, b50 := Percentile(50);
      p95, b95 := Percentile(95);
      p99, b99 := Percentile(99);
      ReportedMonotone(observations, Rank(samples, 50), b50, Rank(samples, 95), b95);
      ReportedMonotone(observations, Rank(samples, 95), b95, Rank(samples, 99), b99);
      summary := LatencySummary(samples, p50, p95, p99, maximum);
    }
  }

  // v is the percentile by nearest rank: the observations below it are less than the
  // fraction, and with those equal to it they reach it.
  ghost predicate IsPercentile(obs: seq<nat>, numerator: nat, v: nat) {
    && v in obs
    && 100 * Count(obs, Below(v)) < |obs| * numerator <= 100 * Count(obs, AtMost(v))
  }

  // What is reported for an observation: the end of its 100 ns bin below 1 ms, of its
  // 10 us bin below 100 ms, and the largest observation from there on
  function ReportedFor(v: nat, maximum: nat): nat {
    if v < 1_000_000 then (v / 100 + 1) * 100
    else if v < 100_000_000 then 1_000_000 + ((v - 1_000_000) / 10_000 + 1) * 10_000
    else maximum
  }

  // value is what is reported for the percentile, which exists.
  ghost predicate ReportsPercentile(obs: seq<nat>, numerator: nat, maximum: nat, value: nat) {
    exists v :: IsPercentile(obs, numerator, v) && value == ReportedFor(v, maximum)
  }

  lemma PercentileReported(obs: seq<nat>, numerator: nat, bin: nat)
    requires |obs| > 0 && 1 <= numerator <= 100 && bin < BINS
    requires Count(obs, BelowBin(bin)) < Rank(|obs|, numerator) <= Count(obs, BelowBin(bin + 1))
    ensures ReportsPercentile(obs, numerator, Maximum(obs), Reported(bin, Maximum(obs)))
  {
    hide Count, Rank, Maximum;
    var r := Rank(|obs|, numerator);
    RankIsLeast(|obs|, numerator);
    assert r <= |obs|;
    var v := RankExists(obs, r);
    RankBin(obs, r, bin, v);
    assert IsPercentile(obs, numerator, v);
  }

  // value is what the histogram reports for the r-th smallest observation.
  ghost predicate ReportsRank(obs: seq<nat>, r: nat, value: nat) {
    forall v: nat :: IsRank(obs, r, v) ==>
      if BinOf(v) < BINS - 1 then v < value == UpperEdge(BinOf(v)) else value == Maximum(obs)
  }

  // The r-th smallest observation lies in the last bin, or in an earlier bin than
  // the largest observation.
  ghost predicate RankBelowMaximum(obs: seq<nat>, r: nat) {
    exists v: nat :: IsRank(obs, r, v) && (BinOf(v) == BINS - 1 || BinOf(v) < BinOf(Maximum(obs)))
  }

  // What is reported for a rank stays within the maximum if and only if its bin is
  // the last or comes before the maximum's bin.
  lemma PercentileWithinMaximum(obs: seq<nat>, r: nat, b: nat)
    requires 0 < |obs| && b < BINS
    requires Count(obs, BelowBin(b)) < r <= Count(obs, BelowBin(b + 1))
    ensures Reported(b, Maximum(obs)) <= Maximum(obs) <==> b == BINS - 1 || b < BinOf(Maximum(obs))
  {
    hide BinOf, Count;
    var top := Maximum(obs);
    BinEdges(top);
    if b < BINS - 1 {
      if b < BinOf(top) {
        EdgeMonotone(b, BinOf(top));
      } else {
        EdgeMonotone(BinOf(top), b);
      }
    }
  }

  lemma RankIsWithin(obs: seq<nat>, r: nat, b: nat)
    requires 0 < |obs| && b < BINS && r <= |obs|
    requires Count(obs, BelowBin(b)) < r <= Count(obs, BelowBin(b + 1))
    ensures Reported(b, Maximum(obs)) <= Maximum(obs) <==> RankBelowMaximum(obs, r)
  {
    hide BinOf, Count, IsRank;
    PercentileWithinMaximum(obs, r, b);
    var v := RankExists(obs, r);
    RankBin(obs, r, b, v);
    forall u: nat | IsRank(obs, r, u)
      ensures BinOf(u) == b
    {
      RankBin(obs, r, b, u);
    }
  }

  lemma NothingBelowFirst(obs: seq<nat>)
    ensures Count(obs, BelowBin(0)) == 0
  {
    if Count(obs, BelowBin(0)) > 0 {
      CountNone(obs, BelowBin(0));
    }
  }

  // A larger rank never reports a smaller value: an observation in the last bin
  // is at least as large as every edge.
  lemma ReportedMonotone(obs: seq<nat>, r: nat, b: nat, r': nat, b': nat)
    requires r <= r' && b < BINS && b' < BINS
    requires Count(obs, BelowBin(b)) < r <= Count(obs, BelowBin(b + 1))
    requires Count(obs, BelowBin(b')) < r' <= Count(obs, BelowBin(b' + 1))
    ensures Reported(b, Maximum(obs)) <= Reported(b', Maximum(obs))
  {
    hide BinOf;
    if b' < b {
      CountImplies(obs, BelowBin(b' + 1), BelowBin(b));
    } else if b < b' == BINS - 1 {
      CountAdd(obs, BelowBin(b'), InBin(b'), BelowBin(b' + 1));
      CountNone(obs, InBin(b'));
      var x :| x in obs && InBin(b')(x);
      MaximumBounds(obs);
      BinEdges(x);
      EdgeMonotone(b, b');
    } else {
      EdgeMonotone(b, b');
    }
  }

  function Total(counts: seq<nat>): nat {
    if |counts| == 0 then 0 else Total(counts[..|counts| - 1]) + counts[|counts| - 1]
  }

  lemma {:induction false} TotalBelow(obs: seq<nat>, counts: seq<nat>)
    requires forall b :: 0 <= b < |counts| ==> counts[b] == Count(obs, InBin(b))
    ensures Total(counts) == Count(obs, BelowBin(|counts|))
  {
    hide BinOf, Count;
    if |counts| == 0 {
      NothingBelowFirst(obs);
    } else {
      var n := |counts| - 1;
      TotalBelow(obs, counts[..n]);
      CountAdd(obs, BelowBin(n), InBin(n), BelowBin(n + 1));
    }
  }

  // The bins of a histogram add up to the number of observations.
  lemma BinsAddUp(h: Histogram)
    requires h.Valid()
    ensures Total(h.bins[..]) == h.samples
  {
    hide BinOf, Count;
    TotalBelow(h.observations, h.bins[..]);
    CountAll(h.observations, BelowBin(BINS));
  }

  // A reported percentile can exceed the reported maximum: the summary of a single
  // observation of 0 ns.
  method PercentileMayExceedMaximum() returns (summary: LatencySummary)
    ensures summary == LatencySummary(1, 100, 100, 100, 0)
  {
    var h := new Histogram();
    h.Observe(0);
    assert h.observations == [0] && [0][..0] == [];
    assert Maximum([0]) == 0 && Count([0], AtMost(0)) == 1 && Count([0], Below(0)) == 0;
    assert IsRank([0], 1, 0) && BinOf(0) == 0;
    summary := h.Summarize();
  }
}
