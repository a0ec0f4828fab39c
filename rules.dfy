/** The fixed rules of the 15-of-25 lottery game the tool is built for. */
module Rules {

  /** Numbers of the game run from 1 to PoolMax. */
  const PoolMax: int := 25

  /** How many numbers one combination (and one draw) holds. */
  const PickCount: int := 15

  /** How many combinations one generation produces. */
  const CombinationCount: int := 20

  /** How many numbers the player must exclude before generating. */
  const ExclusionCount: int := 5

  /** Fewest hits that win a prize; lower scores are not tracked. */
  const MinPrizeHits: int := 11

  /** What the 20 combinations cost, fixed rather than derived from the counts. */
  const TotalCost: int := 60

  /** Fixed prizes of the three lowest tiers (tiers 14 and 15 are entered by the player). */
  const Prize11: int := 6
  const Prize12: int := 12
  const Prize13: int := 30

  /** The hit tiers the performance table keeps, 11 through 15. */
  const Tiers: set<int> := {11, 12, 13, 14, 15}

  /** A number that can appear in the game. */
  predicate InPool(n: int) {
    1 <= n <= PoolMax
  }
}
