/**
 * The component's state (the React `useState` slots) as the fields of one
 * object, with the handlers that change it and the values the render
 * derives from it.
 */
module Application {
  import opened Rules
  import opened Generator
  import opened Scorer

  class App {
    /** The five exclusion slots; 0 means empty. */
    var notWanted: seq<int>
    /** The current set of combinations, also the one persisted. */
    var combinations: seq<seq<int>>
    /** The fifteen result slots; 0 means not yet entered. */
    var gameResult: seq<int>
    var prize14: int
    var prize15: int

    /** The slot counts the inputs render, and combinations no longer than a draw. */
    ghost predicate Valid()
      reads this
    {
      && |notWanted| == ExclusionCount
      && |gameResult| == PickCount
      && forall c :: c in combinations ==> |c| <= PickCount
    }

    /** Initial state: empty slots, zero prizes, and the combinations read back from storage. */
    constructor (saved: seq<seq<int>>)
      requires forall c :: c in saved ==> |c| <= PickCount
      ensures Valid()
      ensures notWanted == seq(ExclusionCount, _ => 0) && gameResult == seq(PickCount, _ => 0)
      ensures combinations == saved && prize14 == 0 && prize15 == 0
    {
      notWanted := seq(ExclusionCount, _ => 0);
      combinations := saved;
      gameResult := seq(PickCount, _ => 0);
      prize14 := 0;
      prize15 := 0;
    }

    /** `handleChange`, after the text has been parsed: one exclusion slot takes a new value. */
    method SetExclusion(index: int, value: int)
      requires Valid() && 0 <= index < |notWanted|
      modifies this`notWanted
      ensures Valid()
      ensures notWanted == old(notWanted)[index := value]
    {
      notWanted := notWanted[index := value];
    }

    /** `handleResultChange`, after the text has been parsed: one result slot takes a new value. */
    method SetResult(index: int, value: int)
      requires Valid() && 0 <= index < |gameResult|
      modifies this`gameResult
      ensures Valid()
      ensures gameResult == old(gameResult)[index := value]
    {
      gameResult := gameResult[index := value];
    }

    /** The tier-14 prize input, after parsing. */
    method SetPrize14(value: int)
      requires Valid()
      modifies this`prize14
      ensures Valid()
      ensures prize14 == value
    {
      prize14 := value;
    }

    /** The tier-15 prize input, after parsing. */
    method SetPrize15(value: int)
      requires Valid()
      modifies this`prize15
      ensures Valid()
      ensures prize15 == value
    {
      prize15 := value;
    }

    /**
     * `generateCombinations` on the component: on the alert path nothing
     * changes; otherwise the 20 new combinations replace the old ones.
     */
    method GenerateCombinations(rand: IndexOracle) returns (g: Generation)
      requires Valid() && InRange(rand)
      modifies this`combinations
      ensures Valid()
      ensures g.InvalidExclusionCount? <==> |ValidExclusions(notWanted)| != ExclusionCount
      ensures g.InvalidExclusionCount? ==> combinations == old(combinations)
      ensures g.Generated? ==> combinations == g.combinations
      ensures g.Generated? ==> |combinations| == CombinationCount
      ensures g.Generated? ==> forall c :: c in combinations ==> IsCombination(c, notWanted)
      ensures g.Generated? ==>
                && PickCount <= |AllowedPool(ValidExclusions(notWanted))|
                && forall i :: 0 <= i < CombinationCount ==>
                     combinations[i] == Round(AllowedPool(ValidExclusions(notWanted)), rand, i)
    {
      g := Generate(notWanted, rand);
      if g.Generated? {
        combinations := g.combinations;
      }
    }

    /**
     * What each render derives: the performance table, the prize total and
     * the net profit against the fixed cost of 60.
     */
    method Evaluate() returns (performance: map<int, nat>, totalPrizes: int, netProfit: int)
      requires Valid()
      ensures performance.Keys == Tiers
      ensures forall t :: t in performance ==> performance[t] == TierCount(combinations, gameResult, t)
      ensures totalPrizes == Prize11 * TierCount(combinations, gameResult, 11)
                             + Prize12 * TierCount(combinations, gameResult, 12)
                             + Prize13 * TierCount(combinations, gameResult, 13)
                             + prize14 * TierCount(combinations, gameResult, 14)
                             + prize15 * TierCount(combinations, gameResult, 15)
      ensures netProfit == totalPrizes - TotalCost
    {
      performance := CalculatePerformance(combinations, gameResult);
      totalPrizes := CalculateTotalPrizes(performance, prize14, prize15);
      TotalPrizesClosedForm(performance, prize14, prize15);
      netProfit := totalPrizes - TotalCost;
    }
  }
}
