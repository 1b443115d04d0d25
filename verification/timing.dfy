/** Signal timing policy: pure functions from a vehicle count to a green
    duration, a density class, a cycle length, a phase, and an efficiency
    score. Nothing here has state; the one random primitive of the system
    (the simulated vehicle count) is represented by the `Draw` type of the
    values it can produce. */
module Timing {

  datatype Density = Low | Medium | High

  datatype Phase = Green | Yellow | Red

  /** More than 40 vehicles is high density. */
  const HighAbove: int := 40
  /** From 20 vehicles up to the high threshold is medium density. */
  const MediumFrom: int := 20

  const LowGreen: int := 25
  const MediumGreen: int := 45
  const HighGreen: int := 70

  /** A cycle's countdown starts at its green time plus 10 seconds. Under
      the phase thresholds below, countdown values g+10 down to 9 show
      green, 8 to 4 yellow and 3 to 1 red; how long each phase is seen
      depends on the ticker's sampling. */
  const CycleExtra: int := 10

  /** A countdown above 8 shows green, above 3 (up to 8) yellow, else red. */
  const GreenAbove: int := 8
  const YellowAbove: int := 3

  /** The simulated vehicle count is drawn uniformly from 1..80 inclusive. */
  const SimMin: int := 1
  const SimMax: int := 80

  /** The values the vehicle-count simulator can return. */
  type Draw = v: int | SimMin <= v <= SimMax witness SimMin

  // ---------------------------------------------------------------------
  // Green time and density
  // ---------------------------------------------------------------------

  /** Green duration for a vehicle count. */
  function GreenTime(vehicleCount: int): (g: int)
    ensures g == LowGreen || g == MediumGreen || g == HighGreen
    ensures g >= LowGreen
  {
    if vehicleCount > HighAbove then HighGreen
    else if vehicleCount >= MediumFrom then MediumGreen
    else LowGreen
  }

  /** Density class for a vehicle count; uses the same thresholds as `GreenTime`. */
  function Classify(vehicleCount: int): (d: Density)
    ensures d == High <==> vehicleCount > HighAbove
    ensures d == Medium <==> MediumFrom <= vehicleCount <= HighAbove
    ensures d == Low <==> vehicleCount < MediumFrom
  {
    if vehicleCount > HighAbove then High
    else if vehicleCount >= MediumFrom then Medium
    else Low
  }

  /** The green duration that belongs to each density tier. */
  function TierGreenTime(d: Density): int
  {
    match d
    case Low => LowGreen
    case Medium => MediumGreen
    case High => HighGreen
  }

  /** The three green-time tiers, each characterised in both directions. */
  lemma GreenTimeTiers(v: int)
    ensures GreenTime(v) == HighGreen <==> v > HighAbove
    ensures GreenTime(v) == MediumGreen <==> MediumFrom <= v <= HighAbove
    ensures GreenTime(v) == LowGreen <==> v < MediumFrom
  {
  }

  /** More vehicles never shorten the green. */
  lemma GreenTimeMonotone(v: int, w: int)
    requires v <= w
    ensures GreenTime(v) <= GreenTime(w)
  {
  }

  /** Density and green time always move together: each density names
      exactly one green-time tier. */
  lemma DensityMatchesGreenTime(v: int)
    ensures GreenTime(v) == TierGreenTime(Classify(v))
    ensures Classify(v) == High <==> GreenTime(v) == HighGreen
    ensures Classify(v) == Medium <==> GreenTime(v) == MediumGreen
    ensures Classify(v) == Low <==> GreenTime(v) == LowGreen
  {
  }

  // ---------------------------------------------------------------------
  // Density colours
  // ---------------------------------------------------------------------

  /** The stored text of a density class. */
  function DensityName(d: Density): string
  {
    match d
    case Low => "Low"
    case Medium => "Medium"
    case High => "High"
  }

  /** Colour used to display a density text; unknown text is gray. */
  function DensityColor(name: string): (color: string)
    ensures color == "green" <==> name == "Low"
    ensures color == "amber" <==> name == "Medium"
    ensures color == "red" <==> name == "High"
    ensures color == "gray" <==> name != "Low" && name != "Medium" && name != "High"
  {
    var palette := map["Low" := "green", "Medium" := "amber", "High" := "red"];
    if name in palette then palette[name] else "gray"
  }

  /** Every density class has a colour of its own, never the fallback. */
  lemma ColorOfDensity(d: Density)
    ensures d == Low ==> DensityColor(DensityName(d)) == "green"
    ensures d == Medium ==> DensityColor(DensityName(d)) == "amber"
    ensures d == High ==> DensityColor(DensityName(d)) == "red"
    ensures DensityColor(DensityName(d)) != "gray"
  {
  }

  // ---------------------------------------------------------------------
  // Phases and cycles
  // ---------------------------------------------------------------------

  /** Phase shown for a countdown. The thresholds are fixed: the green time
      is accepted but plays no part. */
  function PhaseOf(countdown: int, greenTime: int): (p: Phase)
    ensures p == Green <==> countdown > GreenAbove
    ensures p == Yellow <==> YellowAbove < countdown <= GreenAbove
    ensures p == Red <==> countdown <= YellowAbove
  {
    if countdown > GreenAbove then Green
    else if countdown > YellowAbove then Yellow
    else Red
  }

  /** Position of a phase in a cycle, counting down: green, then yellow, then red. */
  function PhaseRank(p: Phase): nat
  {
    match p
    case Red => 0
    case Yellow => 1
    case Green => 2
  }

  /** The phase does not depend on the green time. */
  lemma PhaseIgnoresGreenTime(c: int, g1: int, g2: int)
    ensures PhaseOf(c, g1) == PhaseOf(c, g2)
  {
  }

  /** As the countdown runs down the phase only moves forward through
      green, yellow, red; it never returns to an earlier phase. */
  lemma PhaseOrder(c1: int, c2: int, g: int)
    requires c1 <= c2
    ensures PhaseRank(PhaseOf(c1, g)) <= PhaseRank(PhaseOf(c2, g))
  {
  }

  /** Length of a full cycle: the green time plus a fixed 10 seconds. */
  function CycleLength(greenTime: int): (c: int)
    ensures c - greenTime == CycleExtra
  {
    greenTime + CycleExtra
  }

  /** How the countdown values of a cycle of green time `g` >= -1 divide
      among the phases: 9..g+10 (g + 2 values) show green, 4..8 (5 values)
      yellow and 1..3 (3 values) red. The fixed thresholds, not the 10
      seconds, decide the yellow and red shares. */
  lemma CyclePhaseSplit(g: int, c: int)
    requires g >= -1 && 1 <= c <= CycleLength(g)
    ensures PhaseOf(c, g) == Green <==> GreenAbove < c <= g + 10
    ensures PhaseOf(c, g) == Yellow <==> YellowAbove < c <= GreenAbove
    ensures PhaseOf(c, g) == Red <==> 1 <= c <= YellowAbove
    ensures CycleLength(g) - GreenAbove == g + 2
    ensures GreenAbove - YellowAbove == 5 && YellowAbove == 3
  {
  }

  /** A cycle starts in green exactly when its green time is at least -1,
      which every tier green time is. */
  lemma CycleStartsGreen(g: int)
    ensures PhaseOf(CycleLength(g), g) == Green <==> g >= -1
    ensures forall v: int :: PhaseOf(CycleLength(GreenTime(v)), GreenTime(v)) == Green
  {
  }

  /** Every cycle started from a simulated count has a cycle length (its
      starting countdown) of 35 to 80. */
  lemma SimulatedCycleBounds(v: Draw)
    ensures 35 <= CycleLength(GreenTime(v)) <= 80
  {
  }

  // ---------------------------------------------------------------------
  // Efficiency score
  // ---------------------------------------------------------------------

  function Min(a: int, b: int): int { if a <= b then a else b }

  function Max(a: int, b: int): int { if a >= b then a else b }

  /** Quotient truncated toward zero, as converting a negative ratio to an
      integer does. */
  function TruncDiv(a: int, b: int): (q: int)
    requires b > 0
    ensures a >= 0 ==> 0 <= q && q * b <= a < q * b + b
    ensures a < 0 ==> q <= 0 && q * b - b < a <= q * b
  {
    if a >= 0 then
      FloorBounds(a, b);
      a / b
    else
      var q := (-a) / b;
      FloorBounds(-a, b);
      assert (-q) * b == -(q * b);
      -q
  }

  /** The floor quotient of a non-negative numerator brackets it between
      consecutive multiples of the divisor. */
  lemma FloorBounds(n: int, b: int)
    requires n >= 0 && b > 0
    ensures 0 <= n / b
    ensures (n / b) * b <= n < (n / b) * b + b
  {
    var q, r := n / b, n % b;
    assert n == b * q + r && 0 <= r < b;
    assert b * q == q * b;
  }

  /** How closely a green time matches the ideal, out of 100: the smaller of
      the two as a truncated percentage of the larger. */
  function TimingScore(greenTime: int, ideal: int): (t: int)
    requires ideal >= 0
    ensures t <= 100
    ensures greenTime >= 0 ==> t >= 0
    ensures ideal > 0 ==> (t == 100 <==> greenTime == ideal)
    ensures ideal > 0 && greenTime >= 0 ==>
      t * Max(greenTime, ideal) <= 100 * Min(greenTime, ideal) < (t + 1) * Max(greenTime, ideal)
    ensures ideal > 0 && greenTime < 0 ==>
      (t - 1) * Max(greenTime, ideal) < 100 * Min(greenTime, ideal) <= t * Max(greenTime, ideal)
  {
    if ideal == 0 then 100
    else
      var lo := Min(greenTime, ideal);
      var hi := Max(greenTime, ideal);
      PercentOfLarger(lo, hi);
      var t := TruncDiv(100 * lo, hi);
      assert (t + 1) * hi == t * hi + hi && (t - 1) * hi == t * hi - hi;
      t
  }

  /** The score truncates rather than rounds: 25 s against 60 s is 41.67%,
      scored 41; 45 s against 70 s is 64.29%, scored 64. */
  lemma TimingScoreTruncates()
    ensures TimingScore(60, 25) == 41
    ensures TimingScore(45, 70) == 64
  {
  }

  /** Multiplying by a non-negative factor keeps an inequality. */
  lemma MulMonotone(a: int, b: int, c: int)
    requires a <= b && c >= 0
    ensures a * c <= b * c
  {
  }

  /** The truncated percentage of `lo` in `hi` is at most 100, and exactly
      100 only when the two are equal. */
  lemma PercentOfLarger(lo: int, hi: int)
    requires 0 < hi && lo <= hi
    ensures TruncDiv(100 * lo, hi) <= 100
    ensures TruncDiv(100 * lo, hi) == 100 <==> lo == hi
  {
    var q := TruncDiv(100 * lo, hi);
    if lo < 0 {
      assert q <= 0;
    } else {
      assert q * hi <= 100 * lo < q * hi + hi;
      if q >= 101 {
        MulMonotone(101, q, hi);
        assert false;
      }
      if lo == hi {
        if q <= 99 {
          MulMonotone(q, 99, hi);
          assert false;
        }
      } else {
        if q >= 100 {
          MulMonotone(100, q, hi);
          assert false;
        }
      }
    }
  }

  /** Bonus for a phase that suits the load; the two cases are alternatives. */
  function PhaseBonus(vehicleCount: int, phase: Phase): (b: int)
    ensures b == 0 || b == 5 || b == 10
    ensures b == 10 <==> vehicleCount > HighAbove && phase == Green
    ensures b == 5 <==> vehicleCount < 10 && phase == Red
  {
    if vehicleCount > 40 && phase == Green then 10
    else if vehicleCount < 10 && phase == Red then 5
    else 0
  }

  /** Penalty for a heavy load given a short green; the first matching case wins. */
  function ThroughputPenalty(vehicleCount: int, greenTime: int): (pen: int)
    ensures pen == 0 || pen == 15 || pen == 20
    ensures pen == 20 <==> vehicleCount > 50 && greenTime < 45
    ensures pen == 15 <==> !(vehicleCount > 50 && greenTime < 45) && vehicleCount > 30 && greenTime < 25
    ensures pen > 0 ==> greenTime < MediumGreen
  {
    if vehicleCount > 50 && greenTime < 45 then 20
    else if vehicleCount > 30 && greenTime < 25 then 15
    else 0
  }

  function Clamp(x: int, lo: int, hi: int): int
    requires lo <= hi
  {
    if x < lo then lo else if x > hi then hi else x
  }

  /** Efficiency score of a signal, clamped to 0..100: the timing score,
      raised by the phase bonus and lowered by the throughput penalty. */
  function Efficiency(vehicleCount: int, greenTime: int, phase: Phase): (score: int)
    ensures 0 <= score <= 100
    ensures greenTime >= 0 && PhaseBonus(vehicleCount, phase) == 0 && ThroughputPenalty(vehicleCount, greenTime) == 0 ==>
      score == TimingScore(greenTime, GreenTime(vehicleCount))
  {
    var ideal := GreenTime(vehicleCount);
    var timing := TimingScore(greenTime, ideal);
    Clamp(timing + PhaseBonus(vehicleCount, phase) - ThroughputPenalty(vehicleCount, greenTime), 0, 100)
  }

  /** A signal timed exactly as the policy prescribes scores 100, whatever its phase. */
  lemma IdealTimingScoresFull(v: int, p: Phase)
    ensures Efficiency(v, GreenTime(v), p) == 100
  {
  }

  /** A mistimed signal without a phase bonus scores below 100. */
  lemma MistimingLosesScore(v: int, g: int, p: Phase)
    requires g != GreenTime(v)
    requires PhaseBonus(v, p) == 0
    ensures Efficiency(v, g, p) < 100
  {
  }

  /** Both penalty conditions can hold at once; only the first penalty applies. */
  lemma PenaltyIsNotCumulative()
    ensures ThroughputPenalty(60, 20) == 20
  {
  }

  /** Worked scores. 60 vehicles at 20 s against an ideal of 70 s time at
      28 and lose the single penalty of 20: 8 on yellow, 18 with the green
      bonus (a cumulative 35 would clamp both to 0 and 3). 5 vehicles at
      40 s against 25 s time at 62 and gain the red bonus: 67. */
  lemma EfficiencyExamples()
    ensures Efficiency(60, 20, Yellow) == 8
    ensures Efficiency(60, 20, Green) == 18
    ensures Efficiency(5, 40, Red) == 67
  {
  }
}
