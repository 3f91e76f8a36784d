/** The rule "extend to a target only when the remaining time to live is below a threshold", over runs of writes. */
module InstanceTtl {

  /** One contract's policy. The threshold is at least one ledger and at most the target. */
  datatype Policy = Policy(threshold: nat, extendTo: nat)

  predicate IsPolicy(p: Policy) {
    1 <= p.threshold <= p.extendTo
  }

  /** `compliance-aggregator`, `policy-engine`, and the persistent entries of the others. */
  const WEEKLY := Policy(120_960, 1_555_200)

  /** `multisig-admin`. */
  const DAILY := Policy(17_280, 518_400)

  const LEDGERS_PER_DAY := 17_280

  /** The remaining ledgers after an extending write. */
  function Extend(p: Policy, remaining: int): int {
    if remaining < p.threshold then p.extendTo else remaining
  }

  /** The remaining ledgers when the last of the writes arrives, each `gaps[i]` ledgers after the write before it,
      the first write having found `remaining`. */
  function Arrival(p: Policy, remaining: int, gaps: seq<nat>): int {
    if gaps == [] then remaining
    else Extend(p, Arrival(p, remaining, gaps[..|gaps| - 1])) - gaps[|gaps| - 1]
  }

  /** No write of the run finds the state lapsed. */
  ghost predicate Survives(p: Policy, remaining: int, gaps: seq<nat>) {
    forall i :: 0 <= i <= |gaps| ==> Arrival(p, remaining, gaps[..i]) >= 0
  }

  ghost predicate GapsWithin(gaps: seq<nat>, gap: nat) {
    forall i :: 0 <= i < |gaps| ==> gaps[i] <= gap
  }

  /** Writes at most `gap` ledgers apart keep the state alive in every run, whatever the first write finds. */
  ghost predicate Guarantees(p: Policy, gap: nat) {
    forall remaining: nat, gaps: seq<nat> :: GapsWithin(gaps, gap) ==> Survives(p, remaining, gaps)
  }

  lemma ThresholdSuffices(p: Policy, remaining: nat, gaps: seq<nat>)
    requires IsPolicy(p) && GapsWithin(gaps, p.threshold)
    ensures Survives(p, remaining, gaps)
  {
    forall i | 0 <= i <= |gaps|
      ensures Arrival(p, remaining, gaps[..i]) >= 0
    {
      if i > 0 {
        assert gaps[..i][..i - 1] == gaps[..i - 1] && gaps[..i][i - 1] == gaps[i - 1];
      }
    }
  }

  /** From the target down to exactly the threshold, in steps no larger than the threshold: no write on the way
      extends. */
  lemma {:induction false} Descend(p: Policy, level: nat) returns (gaps: seq<nat>)
    requires IsPolicy(p) && p.threshold <= level <= p.extendTo
    ensures GapsWithin(gaps, p.threshold) && Arrival(p, p.extendTo, gaps) == level
    decreases p.extendTo - level
  {
    if level == p.extendTo {
      gaps := [];
    } else {
      var step := if level + p.threshold <= p.extendTo then p.threshold else p.extendTo - level;
      var before := Descend(p, level + step);
      gaps := before + [step];
      assert gaps[..|gaps| - 1] == before;
    }
  }

  /** A run right after a full extension whose gaps are within `gap` and whose last write comes too late. */
  lemma LargerGapsCanLapse(p: Policy, gap: nat) returns (gaps: seq<nat>)
    requires IsPolicy(p) && gap > p.threshold
    ensures GapsWithin(gaps, gap) && !Survives(p, p.extendTo, gaps)
  {
    var before := Descend(p, p.threshold);
    gaps := before + [gap];
    assert gaps[..|gaps| - 1] == before && gaps[..|gaps|] == gaps;
    assert Arrival(p, p.extendTo, gaps) == p.threshold - gap < 0;
  }

  /** The guaranteed gap between writes is exactly the threshold. */
  lemma GuaranteedGapIsThreshold(p: Policy, gap: nat)
    requires IsPolicy(p)
    ensures Guarantees(p, gap) <==> gap <= p.threshold
  {
    if gap <= p.threshold {
      forall remaining: nat, gaps: seq<nat> | GapsWithin(gaps, gap)
        ensures Survives(p, remaining, gaps)
      {
        ThresholdSuffices(p, remaining, gaps);
      }
    } else {
      var gaps := LargerGapsCanLapse(p, gap);
    }
  }

  /** So the documented figures are not guaranteed: writing every 83 days does not keep the weekly policies alive,
      and writing every 30 days does not keep the daily one alive; 7 days and 1 day do. */
  lemma DocumentedGapsAreNotGuaranteed()
    ensures !Guarantees(WEEKLY, 83 * LEDGERS_PER_DAY) && Guarantees(WEEKLY, 7 * LEDGERS_PER_DAY)
    ensures !Guarantees(DAILY, 30 * LEDGERS_PER_DAY) && Guarantees(DAILY, 1 * LEDGERS_PER_DAY)
    ensures forall gap: nat :: Guarantees(WEEKLY, gap) <==> gap <= 120_960
    ensures forall gap: nat :: Guarantees(DAILY, gap) <==> gap <= 17_280
  {
    forall gap: nat
      ensures Guarantees(WEEKLY, gap) <==> gap <= 120_960
      ensures Guarantees(DAILY, gap) <==> gap <= 17_280
    {
      GuaranteedGapIsThreshold(WEEKLY, gap);
      GuaranteedGapIsThreshold(DAILY, gap);
    }
    GuaranteedGapIsThreshold(WEEKLY, 83 * LEDGERS_PER_DAY);
    GuaranteedGapIsThreshold(WEEKLY, 7 * LEDGERS_PER_DAY);
    GuaranteedGapIsThreshold(DAILY, 30 * LEDGERS_PER_DAY);
    GuaranteedGapIsThreshold(DAILY, 1 * LEDGERS_PER_DAY);
  }

  /** How long the state lives on in silence: after any run of writes, one more arrives in time exactly within the
      target if the last write extended, and otherwise within what that write found. */
  lemma SilenceSurvivedExactly(p: Policy, remaining: int, gaps: seq<nat>, gap: nat)
    ensures var found := Arrival(p, remaining, gaps);
      Arrival(p, remaining, gaps + [gap]) >= 0 <==> gap <= if found < p.threshold then p.extendTo else found
  {
    assert (gaps + [gap])[..|gaps|] == gaps;
  }

  /** A first write that finds less than a week keeps the weekly policies alive for exactly 90 days of silence, and one
      that finds less than a day keeps the daily one alive for exactly 30. */
  lemma SilenceAfterExtension(remaining: nat, gap: nat)
    ensures remaining < 7 * 17_280 ==> (Survives(WEEKLY, remaining, [gap]) <==> gap <= 90 * 17_280)
    ensures remaining < 17_280 ==> (Survives(DAILY, remaining, [gap]) <==> gap <= 30 * 17_280)
  {
    hide Survives;
    OneGap(WEEKLY, remaining, gap);
    OneGap(DAILY, remaining, gap);
  }

  lemma OneGap(p: Policy, remaining: nat, gap: nat)
    ensures Survives(p, remaining, [gap]) <==> gap <= if remaining < p.threshold then p.extendTo else remaining
  {
    assert [gap][..0] == [] && [gap][..1] == [gap] && [] + [gap] == [gap];
    assert Arrival(p, remaining, []) == remaining;
    SilenceSurvivedExactly(p, remaining, [], gap);
    hide Arrival;
    assert Survives(p, remaining, [gap]) <==>
      Arrival(p, remaining, [gap][..0]) >= 0 && Arrival(p, remaining, [gap][..1]) >= 0;
  }
}
