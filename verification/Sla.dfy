/** The SLA card of the compliance dashboard: counting, the fallback for what was not sampled, and rounding. */
module Sla {

  const SLA_MS: int := 24 * 60 * 60 * 1000

  function OnTime(latencies: seq<int>): (n: nat)
    ensures n <= |latencies|
  {
    if latencies == [] then 0
    else OnTime(latencies[..|latencies| - 1]) + if latencies[|latencies| - 1] <= SLA_MS then 1 else 0
  }

  /** The places of the reviews that took at most a day. */
  function WithinADay(latencies: seq<int>): set<nat> {
    set i: nat | i < |latencies| && latencies[i] <= 86_400_000
  }

  lemma {:induction false} OnTimeIsWithinADay(latencies: seq<int>)
    ensures OnTime(latencies) == |WithinADay(latencies)|
  {
    if latencies == [] {
      assert WithinADay(latencies) == {};
    } else {
      var last := |latencies| - 1;
      OnTimeIsWithinADay(latencies[..last]);
      assert WithinADay(latencies)
          == WithinADay(latencies[..last]) + if latencies[last] <= 86_400_000 then {last} else {};
    }
  }

  /** Math.round: halves go up. */
  function Round(x: real): int {
    (x + 0.5).Floor
  }

  /** The reported rate is tenths of a percent over ten. */
  function Rate(onTime: nat, late: nat, missed: nat): real {
    var denom := if onTime + late + missed == 0 then 1 else onTime + late + missed;
    Round(onTime as real / denom as real * 100.0 * 10.0) as real / 10.0
  }

  function Max(a: nat, b: nat): nat {
    if a >= b then a else b
  }

  /** Nine tenths of the reviews that were not sampled count as on time. */
  method CountReviews(latencies: seq<int>, reviewsCompleted: nat) returns (onTime: nat, late: nat)
    ensures onTime + late == Max(|latencies|, reviewsCompleted)
    ensures var rest := Max(|latencies|, reviewsCompleted) - |latencies|;
            10 * (onTime - |WithinADay(latencies)|) <= 9 * rest < 10 * (onTime - |WithinADay(latencies)|) + 10
  {
    onTime, late := 0, 0;
    for i := 0 to |latencies|
      invariant onTime == OnTime(latencies[..i]) && onTime + late == i
    {
      assert latencies[..i + 1][..i] == latencies[..i];
      if latencies[i] <= SLA_MS {
        onTime := onTime + 1;
      } else {
        late := late + 1;
      }
    }
    assert latencies[..|latencies|] == latencies;
    OnTimeIsWithinADay(latencies);
    if onTime + late < reviewsCompleted {
      var remaining := reviewsCompleted - (onTime + late);
      onTime := onTime + remaining * 9 / 10;
      late := late + (remaining - remaining * 9 / 10);
    }
  }

  lemma ShareOf(part: nat, whole: nat)
    requires part <= whole && whole >= 1
    ensures 0.0 <= part as real / whole as real <= 1.0
  {
  }

  /** The rate is a percentage, and within half a tenth of the exact one, for all counts including none. */
  lemma RateIsAccurate(onTime: nat, late: nat, missed: nat)
    ensures 0.0 <= Rate(onTime, late, missed) <= 100.0
    ensures onTime + late + missed == 0 ==> Rate(onTime, late, missed) == 0.0
    ensures onTime + late + missed >= 1 ==>
              var exact := onTime as real / (onTime + late + missed) as real * 100.0;
              -0.05 < Rate(onTime, late, missed) - exact <= 0.05
  {
    if onTime + late + missed >= 1 {
      ShareOf(onTime, onTime + late + missed);
    }
  }
}
