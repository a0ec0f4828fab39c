/**
 * The scorer: hit counting against the draw result (`isCorrectNumber`,
 * `calculateHits`), the histogram of prize tiers 11..15
 * (`calculatePerformance`) and the prize total (`calculateTotalPrizes`).
 */
module Scorer {
  import opened Rules
  import opened Sequences

  /** Whether a number is among the draw result's slots (unset slots hold 0). */
  function IsCorrectNumber(gameResult: seq<int>, n: int): (correct: bool)
    ensures correct <==> exists k :: 0 <= k < |gameResult| && gameResult[k] == n
    ensures InPool(n) && (forall k :: 0 <= k < |gameResult| ==> !InPool(gameResult[k])) ==> !correct
  {
    n in gameResult
  }

  /** How many of the combination's numbers the draw result holds, counted in combination order. */
  function Hits(combo: seq<int>, gameResult: seq<int>): (hits: nat)
    ensures hits <= |combo|
  {
    if combo == [] then
      0
    else
      (if IsCorrectNumber(gameResult, combo[0]) then 1 else 0) + Hits(combo[1..], gameResult)
  }

  /** For a combination without repeats, the hit count is the size of the set intersection. */
  lemma {:induction false} HitsIsIntersectionSize(combo: seq<int>, gameResult: seq<int>)
    requires Distinct(combo)
    ensures Hits(combo, gameResult) == |Values(combo) * Values(gameResult)|
  {
    if combo != [] {
      var first, rest := combo[0], combo[1..];
      assert Distinct(rest) by {
        forall a, b | 0 <= a < b < |rest| ensures rest[a] != rest[b] {
          assert rest[a] == combo[a + 1] && rest[b] == combo[b + 1];
        }
      }
      HitsIsIntersectionSize(rest, gameResult);
      var common := Values(rest) * Values(gameResult);
      assert first !in common by {
        forall k | 0 <= k < |rest| ensures rest[k] != first {
          assert rest[k] == combo[k + 1];
        }
      }
      assert forall x :: x in combo <==> x == first || x in rest;
      if first in gameResult {
        assert Values(combo) * Values(gameResult) == common + {first};
        assert |common + {first}| == |common| + 1;
      } else {
        assert Values(combo) * Values(gameResult) == common;
      }
    }
  }

  /** A combination scores every one of its numbers exactly when each is in the result. */
  lemma {:induction false} AllHitIffEveryNumberCorrect(combo: seq<int>, gameResult: seq<int>)
    ensures Hits(combo, gameResult) == |combo| <==>
            forall k :: 0 <= k < |combo| ==> IsCorrectNumber(gameResult, combo[k])
  {
    if combo != [] {
      AllHitIffEveryNumberCorrect(combo[1..], gameResult);
      assert forall k :: 1 <= k < |combo| ==> combo[k] == combo[1..][k - 1];
    }
  }

  /** A slot still 0 (not yet entered) never matches: dropping it leaves every hit count unchanged. */
  lemma {:induction false} UnsetSlotNeverMatches(combo: seq<int>, gameResult: seq<int>, k: int)
    requires 0 <= k < |gameResult| && gameResult[k] == 0
    requires forall x :: x in combo ==> InPool(x)
    ensures Hits(combo, gameResult) == Hits(combo, gameResult[..k] + gameResult[k + 1..])
  {
    if combo != [] {
      UnsetSlotNeverMatches(combo[1..], gameResult, k);
      assert gameResult == gameResult[..k] + [0] + gameResult[k + 1..];
      assert combo[0] in combo;
    }
  }

  /** Number of combinations scoring exactly `tier` hits (the combinations processed last counted last). */
  function TierCount(combinations: seq<seq<int>>, gameResult: seq<int>, tier: int): (count: nat)
    ensures count <= |combinations|
  {
    if combinations == [] then
      0
    else
      var last := |combinations| - 1;
      TierCount(combinations[..last], gameResult, tier) + (if Hits(combinations[last], gameResult) == tier then 1 else 0)
  }

  /** Number of combinations scoring more than 10 hits, the ones the histogram keeps. */
  function ScoringCount(combinations: seq<seq<int>>, gameResult: seq<int>): (count: nat)
    ensures count <= |combinations|
  {
    if combinations == [] then
      0
    else
      var last := |combinations| - 1;
      ScoringCount(combinations[..last], gameResult) + (if Hits(combinations[last], gameResult) >= MinPrizeHits then 1 else 0)
  }

  /** The five buckets add up to the number of scoring combinations: nothing above 15 is lost. */
  lemma {:induction false} BucketsSumToScoring(combinations: seq<seq<int>>, gameResult: seq<int>)
    requires forall c :: c in combinations ==> |c| <= PickCount
    ensures TierCount(combinations, gameResult, 11) + TierCount(combinations, gameResult, 12)
            + TierCount(combinations, gameResult, 13) + TierCount(combinations, gameResult, 14)
            + TierCount(combinations, gameResult, 15)
            == ScoringCount(combinations, gameResult)
  {
    if combinations != [] {
      var last := |combinations| - 1;
      assert forall c :: c in combinations[..last] ==> c in combinations;
      BucketsSumToScoring(combinations[..last], gameResult);
      assert combinations[last] in combinations;
    }
  }

  /** At most every combination scores, and all do exactly when each has at least 11 hits. */
  lemma {:induction false} ScoringCountIsAll(combinations: seq<seq<int>>, gameResult: seq<int>)
    ensures ScoringCount(combinations, gameResult) <= |combinations|
    ensures ScoringCount(combinations, gameResult) == |combinations| <==>
            forall k :: 0 <= k < |combinations| ==> Hits(combinations[k], gameResult) >= MinPrizeHits
  {
    if combinations != [] {
      var last := |combinations| - 1;
      ScoringCountIsAll(combinations[..last], gameResult);
      assert forall k :: 0 <= k < last ==> combinations[..last][k] == combinations[k];
    }
  }

  /** The count a performance table holds for a tier; an absent tier counts nothing. */
  function Bucket(performance: map<int, nat>, tier: int): nat {
    if tier in performance then performance[tier] else 0
  }

  /**
   * `calculatePerformance`: starts every tier 11..15 at 0 and, for each
   * combination in order, bumps the bucket of its hit count when that is
   * above 10.
   */
  method CalculatePerformance(combinations: seq<seq<int>>, gameResult: seq<int>) returns (performance: map<int, nat>)
    requires forall c :: c in combinations ==> |c| <= PickCount
    ensures performance.Keys == Tiers
    ensures forall t :: t in performance ==> performance[t] == TierCount(combinations, gameResult, t)
  {
    performance := map[11 := 0, 12 := 0, 13 := 0, 14 := 0, 15 := 0];
    for i := 0 to |combinations|
      invariant performance.Keys == Tiers
      invariant forall t :: t in performance ==> performance[t] == TierCount(combinations[..i], gameResult, t)
    {
      assert combinations[..i + 1][..i] == combinations[..i];
      assert combinations[i] in combinations;
      var hits := Hits(combinations[i], gameResult);
      if hits > 10 {
        performance := performance[hits := performance[hits] + 1];
      }
    }
    assert combinations[..|combinations|] == combinations;
  }

  /** The prize table: tiers 11..13 fixed, tiers 14 and 15 as entered. */
  function PrizeTable(prize14: int, prize15: int): (prizes: map<int, int>)
    ensures prizes.Keys == Tiers
    ensures prizes[14] == prize14 && prizes[15] == prize15
    ensures prizes[11] < prizes[12] < prizes[13]
  {
    map[11 := Prize11, 12 := Prize12, 13 := Prize13, 14 := prize14, 15 := prize15]
  }

  /** Sum over the tiers from `tier` up to 15 of bucket count times prize. */
  function Weighted(performance: map<int, nat>, prizes: map<int, int>, tier: int): int
    decreases PickCount + 1 - tier
  {
    if tier > PickCount then
      0
    else
      (if tier in prizes then Bucket(performance, tier) * prizes[tier] else 0) + Weighted(performance, prizes, tier + 1)
  }

  /**
   * `calculateTotalPrizes`: walks the performance keys in ascending order and
   * accumulates count times prize.
   */
  method CalculateTotalPrizes(performance: map<int, nat>, prize14: int, prize15: int) returns (totalPrizes: int)
    requires performance.Keys <= Tiers
    ensures totalPrizes == Weighted(performance, PrizeTable(prize14, prize15), MinPrizeHits)
  {
    var prizes := PrizeTable(prize14, prize15);
    totalPrizes := 0;
    for hits := MinPrizeHits to PickCount + 1
      invariant totalPrizes + Weighted(performance, prizes, hits) == Weighted(performance, prizes, MinPrizeHits)
    {
      if hits in performance {
        totalPrizes := totalPrizes + performance[hits] * prizes[hits];
      }
    }
  }

  /** The prize total in closed form: 6, 12 and 30 per win in tiers 11..13, the entered prizes above. */
  lemma TotalPrizesClosedForm(performance: map<int, nat>, prize14: int, prize15: int)
    ensures Weighted(performance, PrizeTable(prize14, prize15), MinPrizeHits)
            == Prize11 * Bucket(performance, 11) + Prize12 * Bucket(performance, 12)
               + Prize13 * Bucket(performance, 13) + prize14 * Bucket(performance, 14)
               + prize15 * Bucket(performance, 15)
  {
  }


  /**
   * The total is linear in each tier's prize: replacing the prize of one
   * tier changes the total by that tier's count times the difference, and
   * by nothing else.
   */
  lemma {:induction false} TotalPrizesLinear(performance: map<int, nat>, prizes: map<int, int>, tier: int, prize: int, from: int)
    requires tier in prizes && MinPrizeHits <= tier <= PickCount
    ensures Weighted(performance, prizes[tier := prize], from)
            == Weighted(performance, prizes, from)
               + (if from <= tier then Bucket(performance, tier) * (prize - prizes[tier]) else 0)
    decreases PickCount + 1 - from
  {
    if from <= PickCount {
      TotalPrizesLinear(performance, prizes, tier, prize, from + 1);
      var updated := prizes[tier := prize];
      var count := Bucket(performance, from);
      if from == tier {
        assert count * prize == count * prizes[tier] + count * (prize - prizes[tier]);
        assert Weighted(performance, updated, from) == count * prize + Weighted(performance, updated, from + 1);
        assert Weighted(performance, prizes, from) == count * prizes[tier] + Weighted(performance, prizes, from + 1);
      } else {
        assert (from in updated) == (from in prizes);
        assert from in prizes ==> updated[from] == prizes[from];
      }
    }
  }

  /** Hits add up over the two parts of a split combination. */
  lemma {:induction false} HitsAppend(front: seq<int>, back: seq<int>, gameResult: seq<int>)
    ensures Hits(front + back, gameResult) == Hits(front, gameResult) + Hits(back, gameResult)
  {
    if front != [] {
      HitsAppend(front[1..], back, gameResult);
      assert (front + back)[0] == front[0];
      assert (front + back)[1..] == front[1..] + back;
    } else {
      assert front + back == back;
    }
  }

  /** A combination none of whose numbers is in the result scores nothing. */
  lemma {:induction false} NoNumberCorrectNoHits(combo: seq<int>, gameResult: seq<int>)
    requires forall k :: 0 <= k < |combo| ==> !IsCorrectNumber(gameResult, combo[k])
    ensures Hits(combo, gameResult) == 0
  {
    if combo != [] {
      NoNumberCorrectNoHits(combo[1..], gameResult);
    }
  }

  /** A partly entered result: 1..11 entered, four slots still 0, against the combination 1..15. */
  lemma PartialResultExample()
    ensures Hits(seq(15, k => k + 1), seq(11, k => k + 1) + seq(4, k => 0)) == 11
  {
    var combo := seq(15, k => k + 1);
    var result := seq(11, k => k + 1) + seq(4, k => 0);
    var front, back := combo[..11], combo[11..];
    assert combo == front + back;
    HitsAppend(front, back, result);
    assert forall k :: 0 <= k < 11 ==> front[k] == result[k];
    AllHitIffEveryNumberCorrect(front, result);
    forall k | 0 <= k < |back| ensures !IsCorrectNumber(result, back[k]) {
      assert back[k] == k + 12;
    }
    NoNumberCorrectNoHits(back, result);
  }

  /** Two wins of 11 and one of 12, with prizes 50 and 1000 entered: 24 won, 36 lost. */
  lemma PrizeExample()
    ensures Weighted(map[11 := 2, 12 := 1, 13 := 0, 14 := 0, 15 := 0], PrizeTable(50, 1000), MinPrizeHits) == 24
    ensures Weighted(map[11 := 2, 12 := 1, 13 := 0, 14 := 0, 15 := 0], PrizeTable(50, 1000), MinPrizeHits) - TotalCost == -36
  {
    TotalPrizesClosedForm(map[11 := 2, 12 := 1, 13 := 0, 14 := 0, 15 := 0], 50, 1000);
  }
}
