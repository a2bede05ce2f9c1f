/** Scoring how regularly one host contacts another. Times are in seconds. */
module Beacons {
  import opened Bytes
  import opened Stats

  datatype BeaconConfig = BeaconConfig(minConnections: nat, minInterval: real, maxInterval: real, threshold: real)

  const DEFAULT_THRESHOLD := 0.75
  const MAX_SIZES := 512

  datatype BeaconResult = BeaconResult(connections: nat, meanSec: real, cv: real, madRatio: real, periodicity: real,
                                       sizeScore: real, score: real)

  /** How alike the amounts sent are; neutral until there are enough of them. */
  function SizeScore(sizes: seq<real>, sqrt: Root): real {
    if |sizes| >= 3 then 1.0 - Clamp(CoeffVar(sizes, sqrt), 0.0, 1.0) else 0.5
  }

  /** The more favourable of the two measures of spread. */
  function Dispersion(gaps: seq<real>, sqrt: Root): real {
    if MadRatio(gaps) < CoeffVar(gaps, sqrt) then MadRatio(gaps) else CoeffVar(gaps, sqrt)
  }

  function Periodicity(gaps: seq<real>, sqrt: Root): real {
    1.0 - Clamp(Dispersion(gaps, sqrt), 0.0, 1.0)
  }

  /** Enough connections, at intervals the detector considers. */
  predicate Eligible(starts: seq<real>, cfg: BeaconConfig) {
    |starts| >= cfg.minConnections && Gaps(starts) != [] && cfg.minInterval <= Mean(Gaps(starts)) <= cfg.maxInterval
  }

  function Judged(starts: seq<real>, sizes: seq<real>, cfg: BeaconConfig, sqrt: Root): Option<BeaconResult> {
    if !Eligible(starts, cfg) then None
    else
      var gaps := Gaps(starts);
      var periodicity, sizeScore := Periodicity(gaps, sqrt), SizeScore(sizes, sqrt);
      Some(BeaconResult(|starts|, Mean(gaps), CoeffVar(gaps, sqrt), MadRatio(gaps), periodicity, sizeScore,
                        0.75 * periodicity + 0.25 * sizeScore))
  }

  /** The score always lies in the unit interval, and so does each of its two axes. */
  lemma ScoreInUnit(starts: seq<real>, sizes: seq<real>, cfg: BeaconConfig, sqrt: Root)
    requires Judged(starts, sizes, cfg, sqrt).Some?
    ensures var r := Judged(starts, sizes, cfg, sqrt).value;
            0.0 <= r.score <= 1.0 && 0.0 <= r.periodicity <= 1.0 && 0.0 <= r.sizeScore <= 1.0
  {
    hide MadRatio, CoeffVar, Eligible;
  }

  /** The gaps are regular to a degree exactly when either measure of spread is small enough. */
  lemma PeriodicityReads(gaps: seq<real>, sqrt: Root, p: real)
    requires 0.0 < p <= 1.0
    ensures Periodicity(gaps, sqrt) >= p <==> MadRatio(gaps) <= 1.0 - p || CoeffVar(gaps, sqrt) <= 1.0 - p
  {
    hide MadRatio, CoeffVar;
  }

  /** Three sizes or more are alike to a degree exactly when they spread little; fewer say nothing either way. */
  lemma SizesRead(sizes: seq<real>, sqrt: Root, s: real)
    requires 0.0 < s <= 1.0
    ensures SizeScore(sizes, sqrt) >= s <==> if |sizes| < 3 then s <= 0.5 else CoeffVar(sizes, sqrt) <= 1.0 - s
  {
    hide CoeffVar;
  }

  /** A source is judged exactly when it is eligible, and regularity weighs three times what alike sizes do. */
  lemma JudgedReads(starts: seq<real>, sizes: seq<real>, cfg: BeaconConfig, sqrt: Root)
    ensures Judged(starts, sizes, cfg, sqrt).Some?
            <==> |starts| >= cfg.minConnections && |starts| >= 2 && cfg.minInterval <= Mean(Gaps(starts)) <= cfg.maxInterval
    ensures Judged(starts, sizes, cfg, sqrt).Some? ==>
              var r := Judged(starts, sizes, cfg, sqrt).value;
              4.0 * r.score == 3.0 * Periodicity(Gaps(starts), sqrt) + SizeScore(sizes, sqrt)
  {
    hide MadRatio, CoeffVar, Periodicity, SizeScore, Mean;
    if |starts| >= 2 {
      assert |Gaps(starts)| == |starts| - 1;
    }
  }

  /**
   With too few sizes to judge, an eligible source is reported exactly when one measure of spread is
   within what the threshold leaves: at the default of 0.75, a sixth.
   */
  lemma ReportedExactly(starts: seq<real>, sizes: seq<real>, cfg: BeaconConfig, sqrt: Root)
    requires |sizes| < 3 && Eligible(starts, cfg) && 0.125 < cfg.threshold <= 0.875
    ensures var r := Judged(starts, sizes, cfg, sqrt);
            var slack := 3.5 - 4.0 * cfg.threshold;
            r.Some? && (r.value.score >= cfg.threshold
                        <==> 3.0 * MadRatio(Gaps(starts)) <= slack || 3.0 * CoeffVar(Gaps(starts), sqrt) <= slack)
  {
    hide MadRatio, CoeffVar, Periodicity;
    PeriodicityReads(Gaps(starts), sqrt, (4.0 * cfg.threshold - 0.5) / 3.0);
  }

  /**
   If more than half of the gaps are one value, then whatever the outliers, and whatever the sizes
   and the square root, an eligible source scores at least the default threshold.
   */
  lemma RegularIsReported(starts: seq<real>, sizes: seq<real>, cfg: BeaconConfig, sqrt: Root, period: real)
    requires Eligible(starts, cfg) && Majority(Gaps(starts), period)
    ensures Judged(starts, sizes, cfg, sqrt).Some? && Judged(starts, sizes, cfg, sqrt).value.score >= DEFAULT_THRESHOLD
  {
    MajorityMadRatio(Gaps(starts), period);
    ScoreAxes(Gaps(starts), sizes, sqrt);
    hide MadRatio, CoeffVar, SizeScore, Majority;
  }

  lemma ScoreAxes(gaps: seq<real>, sizes: seq<real>, sqrt: Root)
    requires MadRatio(gaps) == 0.0
    ensures Periodicity(gaps, sqrt) == 1.0 && SizeScore(sizes, sqrt) >= 0.0
  {
    hide MadRatio, CoeffVar;
  }

  /** How many leading times are before the cutoff. */
  function Before(xs: seq<real>, cutoff: real): (n: nat)
    ensures n <= |xs| && (forall i | 0 <= i < n :: xs[i] < cutoff) && (n < |xs| ==> xs[n] >= cutoff)
  {
    if xs == [] || xs[0] >= cutoff then 0 else 1 + Before(xs[1..], cutoff)
  }

  lemma {:induction false} BeforeIs(xs: seq<real>, cutoff: real, n: nat)
    requires n <= |xs| && (forall i | 0 <= i < n :: xs[i] < cutoff) && (n < |xs| ==> xs[n] >= cutoff)
    ensures Before(xs, cutoff) == n
  {
    if n > 0 {
      BeforeIs(xs[1..], cutoff, n - 1);
    }
  }

  /** Trimming leaves exactly the times at or after the cutoff if and only if no stale time follows a fresh one. */
  lemma TrimExactIff(xs: seq<real>, cutoff: real)
    ensures (forall x | x in xs[Before(xs, cutoff)..] :: x >= cutoff)
            <==> (forall i, j | 0 <= i < j < |xs| && xs[j] < cutoff :: xs[i] < cutoff)
  {
    var n := Before(xs, cutoff);
    forall j | n <= j < |xs| ensures xs[j] in xs[n..] {
      assert xs[n..][j - n] == xs[j];
    }
  }

  /** The last `n` elements, or all of them. */
  function Latest(xs: seq<real>, n: nat): seq<real> {
    if |xs| > n then xs[|xs| - n..] else xs
  }

  class BeaconTrack {
    var starts: seq<real>
    var sizes: seq<real>
    ghost var sent: seq<real> // every size ever recorded

    /** The sizes kept are the latest ones. */
    ghost predicate Valid()
      reads this
    {
      sizes == Latest(sent, MAX_SIZES)
    }

    constructor ()
      ensures Valid() && starts == [] && sent == []
    {
      starts, sizes, sent := [], [], [];
    }

    method RecordStart(at: real)
      requires Valid()
      modifies this`starts
      ensures Valid() && starts == old(starts) + [at]
    {
      starts := starts + [at];
    }

    method RecordSize(bytes: real)
      requires Valid()
      modifies this`sizes, this`sent
      ensures Valid() && sent == old(sent) + [bytes] && sizes == sent[if |sent| <= 512 then 0 else |sent| - 512..]
    {
      sizes := sizes + [bytes];
      sent := sent + [bytes];
      if |sizes| > MAX_SIZES {
        sizes := sizes[|sizes| - MAX_SIZES..];
      }
      assert sizes == Latest(sent, MAX_SIZES);
    }

    /** Drop leading times before the cutoff. */
    method Trim(cutoff: real)
      requires Valid()
      modifies this`starts
      ensures Valid() && starts == old(starts)[Before(old(starts), cutoff)..]
    {
      var i := 0;
      while i < |starts| && starts[i] < cutoff
        invariant 0 <= i <= |starts| && forall j | 0 <= j < i :: starts[j] < cutoff
      {
        i := i + 1;
      }
      BeforeIs(starts, cutoff, i);
      starts := starts[i..];
    }

    method ScoreSizes(sqrt: Root) returns (s: real)
      ensures s == SizeScore(sizes, sqrt)
    {
      s := 0.5;
      if |sizes| >= 3 {
        var spread := ComputeCoeffVar(sizes, sqrt);
        s := 1.0 - Clamp(spread, 0.0, 1.0);
      }
    }

    /** Both measures of spread, and the more favourable one turned into a score. */
    method ScoreGaps(gaps: seq<real>, sqrt: Root) returns (cv: real, mad: real, periodicity: real)
      ensures cv == CoeffVar(gaps, sqrt) && mad == MadRatio(gaps) && periodicity == Periodicity(gaps, sqrt)
    {
      hide CoeffVar, MadRatio, Clamp;
      cv := ComputeCoeffVar(gaps, sqrt);
      mad := ComputeMadRatio(gaps);
      var dispersion := cv;
      if mad < dispersion {
        dispersion := mad;
      }
      periodicity := 1.0 - Clamp(dispersion, 0.0, 1.0);
    }

    method Score(cfg: BeaconConfig, sqrt: Root) returns (r: Option<BeaconResult>, report: bool)
      requires Valid()
      ensures r == Judged(starts, sizes, cfg, sqrt)
      ensures report == (r.Some? && r.value.score >= cfg.threshold)
    {
      hide Mean, CoeffVar, MadRatio, Gaps, Latest, SizeScore, Periodicity;
      r, report := None, false;
      if |starts| < cfg.minConnections {
        return;
      }
      var gaps := ComputeGaps(starts);
      if |gaps| == 0 {
        return;
      }
      var m := ComputeMean(gaps);
      if m < cfg.minInterval || m > cfg.maxInterval {
        return;
      }
      var cv, mad, periodicity := ScoreGaps(gaps, sqrt);
      var sizeScore := ScoreSizes(sqrt);
      r := Some(BeaconResult(|starts|, m, cv, mad, periodicity, sizeScore, 0.75 * periodicity + 0.25 * sizeScore));
      report := r.value.score >= cfg.threshold;
    }
  }

  /**
   Three starts, the last recorded out of order: trimming drops the stale one in front and leaves the
   one behind the fresh one.
   */
  method StaleStartSurvives(first: real, early: real, cutoff: real, late: real)
    returns (t: BeaconTrack, ghost recorded: seq<real>)
    requires first < cutoff && early < cutoff <= late
    ensures t.Valid() && recorded == [first, late, early]
    ensures t.starts == recorded[Before(recorded, cutoff)..] == [late, early]
  {
    t := new BeaconTrack();
    t.RecordStart(first);
    t.RecordStart(late);
    t.RecordStart(early);
    recorded := t.starts;
    BeforeIs(recorded, cutoff, 1);
    t.Trim(cutoff);
  }

  method ComputeCoeffVar(xs: seq<real>, sqrt: Root) returns (cv: real)
    ensures cv == CoeffVar(xs, sqrt)
  {
    var m := ComputeMean(xs);
    if m == 0.0 {
      return 0.0;
    }
    var s := ComputeStdDev(xs, sqrt);
    return s / m;
  }
}
