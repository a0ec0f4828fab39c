/**
 * The combination generator of `generateCombinations`: validation of the five
 * exclusion slots, construction of the allowed pool, and twenty partial
 * Fisher-Yates draws of fifteen numbers each, every draw sorted ascending.
 */
module Generator {
  import opened Rules
  import opened Sequences

  /**
   * The random source. `Math.floor(Math.random() * m)` at draw `j` of round
   * `round` becomes `rand(round, j, m)`; all that is assumed of it is that
   * it lands in [0, m).
   */
  type IndexOracle = (nat, nat, nat) -> nat

  ghost predicate InRange(rand: IndexOracle) {
    forall round: nat, j: nat, m: nat :: 0 < m ==> rand(round, j, m) < m
  }

  /** Outcome of a generation request: the alert path, or the new set of combinations. */
  datatype Generation =
    | InvalidExclusionCount(found: nat)
    | Generated(combinations: seq<seq<int>>)

  /** The exclusion slots that hold a game number, in slot order, duplicates kept. */
  function ValidExclusions(notWanted: seq<int>): (valid: seq<int>)
    ensures |valid| <= |notWanted|
    ensures forall x :: multiset(valid)[x] == if InPool(x) then multiset(notWanted)[x] else 0
    ensures forall x :: x in valid <==> x in notWanted && InPool(x)
  {
    if notWanted == [] then
      []
    else
      assert notWanted == [notWanted[0]] + notWanted[1..];
      (if InPool(notWanted[0]) then [notWanted[0]] else []) + ValidExclusions(notWanted[1..])
  }

  /** The distinct game numbers among the exclusions. */
  function ExcludedValues(valid: seq<int>): set<int> {
    set x | x in valid && InPool(x)
  }

  /** A combination as the generator promises it: 15 ascending numbers, none excluded. */
  predicate IsCombination(c: seq<int>, notWanted: seq<int>) {
    && |c| == PickCount
    && StrictlyAscending(c)
    && forall x :: x in c ==> InPool(x) && x !in notWanted
  }

  /** The elements of s, in order, that no exclusion names. */
  function Without(s: seq<int>, valid: seq<int>): seq<int> {
    if s == [] then [] else (if s[0] in valid then [] else [s[0]]) + Without(s[1..], valid)
  }

  /** The game numbers 1..25, ascending. */
  function Numbers(): (numbers: seq<int>)
    ensures StrictlyAscending(numbers)
    ensures forall x :: x in numbers <==> InPool(x)
  {
    var numbers := seq(PoolMax, k => k + 1);
    assert forall x :: InPool(x) ==> numbers[x - 1] == x;
    numbers
  }

  /** The reference definition of the allowed pool: 1..25 without the excluded numbers, ascending. */
  function AllowedPool(valid: seq<int>): seq<int> {
    Without(Numbers(), valid)
  }

  /** Dropping the excluded numbers keeps a strictly ascending sequence strictly ascending, and drops exactly them. */
  lemma {:induction false} WithoutShape(s: seq<int>, valid: seq<int>)
    requires StrictlyAscending(s)
    ensures StrictlyAscending(Without(s, valid))
    ensures forall x :: x in Without(s, valid) <==> x in s && x !in valid
  {
    if s != [] {
      var rest := Without(s[1..], valid);
      WithoutShape(s[1..], valid);
      assert forall x :: x in s <==> x == s[0] || x in s[1..] by {
        assert s == [s[0]] + s[1..];
      }
      if s[0] !in valid {
        assert forall k :: 0 <= k < |rest| ==> rest[k] > s[0] by {
          forall k | 0 <= k < |rest| ensures rest[k] > s[0] {
            assert rest[k] in rest;
            var m :| 0 <= m < |s[1..]| && s[1..][m] == rest[k];
            assert s[m + 1] == rest[k];
          }
        }
      }
    }
  }

  /** Two strictly ascending sequences with the same members are equal. */
  lemma {:induction false} StrictlyAscendingUnique(a: seq<int>, b: seq<int>)
    requires StrictlyAscending(a) && StrictlyAscending(b)
    requires forall x :: x in a <==> x in b
    ensures a == b
  {
    if a == [] || b == [] {
      forall x ensures x in Values(a) <==> x in Values(b) {
        assert x in a <==> x in b;
      }
      assert Values(a) == Values(b);
      DistinctValuesCount(a);
      DistinctValuesCount(b);
    } else {
      assert a[0] in a && b[0] in b;
      var j :| 0 <= j < |b| && b[j] == a[0];
      var i :| 0 <= i < |a| && a[i] == b[0];
      assert a[0] <= a[i] && b[0] <= b[j];
      forall x ensures x in a[1..] <==> x in b[1..] {
        TailMembers(a, x);
        TailMembers(b, x);
      }
      StrictlyAscendingUnique(a[1..], b[1..]);
      assert a == [a[0]] + a[1..] && b == [b[0]] + b[1..];
    }
  }

  /** In a strictly ascending sequence the tail holds every member but the first. */
  lemma TailMembers(s: seq<int>, x: int)
    requires StrictlyAscending(s) && s != []
    ensures x in s[1..] <==> x in s && x != s[0]
  {
    assert s == [s[0]] + s[1..];
    if x in s[1..] {
      var k :| 0 <= k < |s[1..]| && s[1..][k] == x;
      assert s[k + 1] == x;
    }
  }

  /** The loop that builds the allowed pool: 1..25 without the excluded numbers, ascending. */
  method BuildAllowed(valid: seq<int>) returns (allowed: seq<int>)
    ensures allowed == AllowedPool(valid)
    ensures StrictlyAscending(allowed)
    ensures forall x :: x in allowed <==> InPool(x) && x !in valid
    ensures |allowed| == PoolMax - |ExcludedValues(valid)|
  {
    allowed := [];
    ghost var skipped: seq<int> := [];
    for i := 1 to PoolMax + 1
      invariant StrictlyAscending(allowed) && StrictlyAscending(skipped)
      invariant forall k :: 0 <= k < |allowed| ==> allowed[k] < i
      invariant forall k :: 0 <= k < |skipped| ==> skipped[k] < i
      invariant forall x :: x in allowed <==> 1 <= x < i && x !in valid
      invariant forall x :: x in skipped <==> 1 <= x < i && x in valid
      invariant |allowed| + |skipped| == i - 1
    {
      if i !in valid {
        allowed := allowed + [i];
      } else {
        skipped := skipped + [i];
      }
    }
    DistinctValuesCount(skipped);
    assert Values(skipped) == ExcludedValues(valid);
    WithoutShape(Numbers(), valid);
    StrictlyAscendingUnique(allowed, AllowedPool(valid));
  }

  /** Five in-range exclusions leave a pool of 20 to 24 numbers: duplicates shrink the exclusion. */
  lemma PoolSizeBounds(valid: seq<int>)
    requires |valid| == ExclusionCount
    requires forall x :: x in valid ==> InPool(x)
    ensures PoolMax - ExclusionCount <= PoolMax - |ExcludedValues(valid)| <= PoolMax - 1
  {
    assert ExcludedValues(valid) == Values(valid);
    ValuesCountAtMost(valid);
    assert valid[0] in ExcludedValues(valid);
  }

  /**
   * The reference definition of one round, on values: the copy of the pool
   * and the picks after the first j steps. Step j picks the element at
   * index `rand(round, j, len - j)` of the unpicked prefix and swaps it to
   * the boundary `len - 1 - j`.
   */
  function Shuffled(pool: seq<int>, round: nat, rand: IndexOracle, j: nat): (state: (seq<int>, seq<int>))
    requires InRange(rand) && j <= |pool|
    ensures |state.0| == |pool| && |state.1| == j
  {
    if j == 0 then
      (pool, [])
    else
      var prev := Shuffled(pool, round, rand, j - 1);
      var boundary := |pool| - j;
      var randIndex := rand(round, j - 1, |pool| - (j - 1));
      (prev.0[randIndex := prev.0[boundary]][boundary := prev.0[randIndex]], prev.1 + [prev.0[randIndex]])
  }

  /** Every prefix of the shuffle keeps the draw invariant: a permutation with the picks in the suffix. */
  lemma {:induction false} ShuffledKeepsDrawState(pool: seq<int>, round: nat, rand: IndexOracle, j: nat)
    requires InRange(rand) && j <= |pool|
    ensures DrawState(pool, Shuffled(pool, round, rand, j).0, Shuffled(pool, round, rand, j).1)
  {
    if j > 0 {
      ShuffledKeepsDrawState(pool, round, rand, j - 1);
      ShuffleStep(pool, round, rand, j);
    }
  }

  /** Step j of the shuffle keeps the draw invariant. */
  lemma ShuffleStep(pool: seq<int>, round: nat, rand: IndexOracle, j: nat)
    requires InRange(rand) && 0 < j <= |pool|
    requires DrawState(pool, Shuffled(pool, round, rand, j - 1).0, Shuffled(pool, round, rand, j - 1).1)
    ensures DrawState(pool, Shuffled(pool, round, rand, j).0, Shuffled(pool, round, rand, j).1)
  {
    var prev := Shuffled(pool, round, rand, j - 1);
    var copy, picked := prev.0, prev.1;
    var randIndex := rand(round, j - 1, |pool| - (j - 1));
    var boundary := |pool| - j;
    var after := copy[randIndex := copy[boundary]][boundary := copy[randIndex]];
    assert Shuffled(pool, round, rand, j) == (after, picked + [copy[randIndex]]);
    SwapToBoundary(copy, after, randIndex, boundary);
    PickStep(pool, copy, after, picked, copy[randIndex]);
  }

  /**
   * One round of the partial Fisher-Yates shuffle (the body of the outer
   * loop up to the sort): a fresh copy of the pool, 15 picks from the
   * shrinking unpicked prefix, each pick swapped to the boundary. The picks
   * are exactly those of the reference definition, and they are a
   * sub-multiset of the pool.
   */
  method DrawGroup(allowed: seq<int>, round: nat, rand: IndexOracle) returns (picked: seq<int>)
    requires PickCount <= |allowed|
    requires InRange(rand)
    ensures picked == Shuffled(allowed, round, rand, PickCount).1
    ensures |picked| == PickCount
    ensures multiset(picked) <= multiset(allowed)
  {
    var copy := Spread(allowed);
    var n := copy.Length;
    picked := [];
    for j := 0 to PickCount
      invariant (copy[..], picked) == Shuffled(allowed, round, rand, j)
    {
      var randIndex := rand(round, j, n - j);
      picked := picked + [copy[randIndex]];
      Swap(copy, randIndex, n - 1 - j);
    }
    DrawIsSubMultiset(allowed, round, rand, PickCount);
  }

  /** The picks after any number of steps are a sub-multiset of the pool: the shuffle draws without replacement. */
  lemma DrawIsSubMultiset(pool: seq<int>, round: nat, rand: IndexOracle, j: nat)
    requires InRange(rand) && j <= |pool|
    ensures multiset(Shuffled(pool, round, rand, j).1) <= multiset(pool)
  {
    ShuffledKeepsDrawState(pool, round, rand, j);
    PicksFromPool(pool, Shuffled(pool, round, rand, j).0, Shuffled(pool, round, rand, j).1);
  }

  /** Under the draw invariant the picks are a sub-multiset of the pool. */
  lemma PicksFromPool(pool: seq<int>, copy: seq<int>, picked: seq<int>)
    requires DrawState(pool, copy, picked)
    ensures multiset(picked) <= multiset(pool)
  {
    SuffixIsSubMultiset(copy, |picked|);
  }

  /** The spread `[...allowed]`: a fresh array holding the pool. */
  method Spread(allowed: seq<int>) returns (copy: array<int>)
    ensures fresh(copy) && copy[..] == allowed
  {
    copy := new int[|allowed|](k requires 0 <= k < |allowed| => allowed[k]);
  }

  /**
   * The loop invariant of a draw: the copy is a permutation of the pool,
   * and the picks so far sit, last first, in the suffix `copy[len-j..]`.
   */
  ghost predicate DrawState(allowed: seq<int>, copy: seq<int>, picked: seq<int>) {
    && |picked| <= |copy|
    && multiset(copy) == multiset(allowed)
    && (forall k :: 0 <= k < |picked| ==> picked[k] == copy[|copy| - 1 - k])
    && multiset(picked) == multiset(copy[|copy| - |picked|..])
  }

  /**
   * One step of the draw on the copy's contents: once the pick has been
   * swapped from the unpicked prefix to the boundary (and nothing beyond the
   * boundary moved), the invariant holds with one more pick.
   */
  lemma PickStep(allowed: seq<int>, before: seq<int>, after: seq<int>, picked: seq<int>, pick: int)
    requires DrawState(allowed, before, picked) && |picked| < |before| == |after|
    requires multiset(after) == multiset(before)
    requires after[|before| - 1 - |picked|..] == [pick] + before[|before| - |picked|..]
    requires forall k :: |before| - 1 - |picked| < k < |after| ==> after[k] == before[k]
    ensures DrawState(allowed, after, picked + [pick])
  {
  }

  /** The last j elements of a sequence are a sub-multiset of it. */
  lemma SuffixIsSubMultiset(s: seq<int>, j: int)
    requires 0 <= j <= |s|
    ensures multiset(s[|s| - j..]) <= multiset(s)
  {
    assert s == s[..|s| - j] + s[|s| - j..];
  }

  /** The destructuring swap `[copy[a], copy[b]] = [copy[b], copy[a]]`. */
  method Swap(copy: array<int>, a: int, b: int)
    requires 0 <= a < copy.Length && 0 <= b < copy.Length
    modifies copy
    ensures copy[..] == old(copy[..])[a := old(copy[b])][b := old(copy[a])]
  {
    copy[a], copy[b] := copy[b], copy[a];
  }

  /**
   * What one swap of the shuffle does: the boundary slot receives the picked
   * element, everything after the boundary stays, and the contents are a
   * permutation of what they were.
   */
  lemma SwapToBoundary(before: seq<int>, after: seq<int>, randIndex: int, boundary: int)
    requires 0 <= randIndex <= boundary < |before|
    requires after == before[randIndex := before[boundary]][boundary := before[randIndex]]
    ensures multiset(after) == multiset(before)
    ensures after[boundary..] == [before[randIndex]] + before[boundary + 1..]
    ensures forall k :: boundary < k < |after| ==> after[k] == before[k]
  {
  }

  /**
   * `generateCombinations`: rejects unless exactly five slots hold a game
   * number; otherwise combination i is round i's draw of 15 from the allowed
   * pool under the oracle, sorted ascending.
   */
  method Generate(notWanted: seq<int>, rand: IndexOracle) returns (g: Generation)
    requires InRange(rand)
    ensures g.InvalidExclusionCount? <==> |ValidExclusions(notWanted)| != ExclusionCount
    ensures g.InvalidExclusionCount? ==> g.found == |ValidExclusions(notWanted)|
    ensures g.Generated? ==> |g.combinations| == CombinationCount
    ensures g.Generated? ==> forall c :: c in g.combinations ==> IsCombination(c, notWanted)
    ensures g.Generated? ==>
              && PickCount <= |AllowedPool(ValidExclusions(notWanted))|
              && forall i :: 0 <= i < CombinationCount ==>
                   g.combinations[i] == Round(AllowedPool(ValidExclusions(notWanted)), rand, i)
  {
    var valid := ValidExclusions(notWanted);
    if |valid| != ExclusionCount {
      return InvalidExclusionCount(|valid|);
    }
    var allowed := BuildAllowed(valid);
    PoolSizeBounds(valid);
    var finalCombinations := DrawRounds(allowed, rand);
    forall c | c in finalCombinations ensures IsCombination(c, notWanted) {
      var k :| 0 <= k < |finalCombinations| && finalCombinations[k] == c;
      RoundIsCombination(allowed, valid, notWanted, rand, k);
    }
    return Generated(finalCombinations);
  }

  /** The 20 rounds of the outer loop: round i's draw, sorted, is combination i. */
  method DrawRounds(allowed: seq<int>, rand: IndexOracle) returns (finalCombinations: seq<seq<int>>)
    requires InRange(rand) && PickCount <= |allowed|
    ensures |finalCombinations| == CombinationCount
    ensures forall i :: 0 <= i < CombinationCount ==> finalCombinations[i] == Round(allowed, rand, i)
  {
    finalCombinations := [];
    for i := 0 to CombinationCount
      invariant |finalCombinations| == i
      invariant forall k :: 0 <= k < i ==> finalCombinations[k] == Round(allowed, rand, k)
    {
      var picked := DrawGroup(allowed, i, rand);
      finalCombinations := finalCombinations + [SortAscending(picked)];
    }
  }

  /** Round k of generation on values: the 15 picks of round k's shuffle, sorted ascending. */
  function Round(pool: seq<int>, rand: IndexOracle, k: nat): seq<int>
    requires InRange(rand) && PickCount <= |pool|
  {
    SortAscending(Shuffled(pool, k, rand, PickCount).1)
  }

  /** Every round drawn from the allowed pool is a combination: 15 strictly ascending game numbers, none excluded. */
  lemma RoundIsCombination(pool: seq<int>, valid: seq<int>, notWanted: seq<int>, rand: IndexOracle, k: nat)
    requires InRange(rand) && PickCount <= |pool| && StrictlyAscending(pool)
    requires forall x :: x in pool <==> InPool(x) && x !in valid
    requires forall x :: x in valid <==> x in notWanted && InPool(x)
    ensures IsCombination(Round(pool, rand, k), notWanted)
  {
    DrawIsSubMultiset(pool, k, rand, PickCount);
    SortedDrawIsCombination(Shuffled(pool, k, rand, PickCount).1, pool, valid, notWanted);
  }

  /**
   * A draw of 15 from the allowed pool, once sorted, is a combination: 15
   * strictly ascending numbers, each a game number that no slot excludes.
   */
  lemma SortedDrawIsCombination(picked: seq<int>, allowed: seq<int>, valid: seq<int>, notWanted: seq<int>)
    requires |picked| == PickCount && multiset(picked) <= multiset(allowed)
    requires StrictlyAscending(allowed)
    requires forall x :: x in allowed <==> InPool(x) && x !in valid
    requires forall x :: x in valid <==> x in notWanted && InPool(x)
    ensures IsCombination(SortAscending(picked), notWanted)
  {
    SubMultisetKeepsDistinct(picked, allowed);
    SortDistinctIsStrict(picked);
    SubMultisetMembers(picked, allowed);
  }

  /** Duplicates are not merged: five copies of one number pass the check and exclude only that number. */
  lemma DuplicateExclusionsAccepted(n: int)
    requires InPool(n)
    ensures |ValidExclusions(seq(ExclusionCount, _ => n))| == ExclusionCount
    ensures ExcludedValues(ValidExclusions(seq(ExclusionCount, _ => n))) == {n}
  {
    var notWanted := seq(ExclusionCount, _ => n);
    assert notWanted[0] == n;
    assert forall x :: x in notWanted ==> x == n;
    InPoolExclusionsKept(notWanted);
    assert ExcludedValues(notWanted) == {n};
  }

  /** Exclusion slots that all hold game numbers pass through validation unchanged. */
  lemma {:induction false} InPoolExclusionsKept(notWanted: seq<int>)
    requires forall x :: x in notWanted ==> InPool(x)
    ensures ValidExclusions(notWanted) == notWanted
  {
    if notWanted != [] {
      InPoolExclusionsKept(notWanted[1..]);
      assert notWanted[0] in notWanted;
      assert notWanted == [notWanted[0]] + notWanted[1..];
    }
  }
}
