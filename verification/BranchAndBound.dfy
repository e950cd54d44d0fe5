/** Branch and bound: the depth-first search for a changeless selection. */
module BranchAndBound {
  import opened Sequences
  import opened Coins
  import opened SearchTree
  import opened GreedySelection

  datatype OutputGroup = OutputGroup(weightedUtxo: WeightedUtxo, fee: nat, effectiveValue: int)

  datatype BnbError = NoExactMatch | TotalTriesExceeded

  const BNB_TOTAL_TRIES: nat := 100_000

  function NewOutputGroup(u: WeightedUtxo, rate: nat): OutputGroup {
    var fee := Fee(rate, WeightOf(u));
    OutputGroup(u, fee, u.utxo.value - fee)
  }

  function GroupValue(g: OutputGroup): int { g.effectiveValue }

  function GroupFee(g: OutputGroup): int { g.fee }

  function GroupKey(g: OutputGroup): SortKey { (g.effectiveValue, 0) }

  function Utxos(groups: seq<OutputGroup>): (us: seq<WeightedUtxo>)
    ensures |us| == |groups| && forall i :: 0 <= i < |us| ==> us[i] == groups[i].weightedUtxo
  {
    seq(|groups|, i requires 0 <= i < |groups| => groups[i].weightedUtxo)
  }

  /** A best selection so far: a bit stack over the sorted pool, and its effective value. */
  datatype Best = Best(selection: seq<bool>, value: int)

  /** The running sums belong to the current bit stack. */
  ghost predicate AtNode(pool: seq<OutputGroup>, start: int, selection: seq<bool>, value: int, available: int) {
    && |selection| <= |pool|
    && value == start + Chosen(GroupValue, pool, selection)
    && available == Rest(GroupValue, pool, |selection|)
  }

  /**
   * Walk back to the last included coin and omit it; an empty stack says that no branch is left.
   */
  method Backtrack(pool: seq<OutputGroup>, ghost start: int, selection: seq<bool>, value: int, available: int)
    returns (selection': seq<bool>, value': int, available': int)
    requires AtNode(pool, start, selection, value, available)
    ensures AtNode(pool, start, selection', value', available')
    ensures |selection'| <= |selection|
    ensures selection' == [] ==> NumberAfter(|pool|, []) == NumberAfter(|pool|, selection)
    ensures selection' != [] ==> Number(|pool|, selection') == NumberAfter(|pool|, selection)
  {
    selection', value', available' := selection, value, available;
    while selection' != [] && !selection'[|selection'| - 1]
      invariant AtNode(pool, start, selection', value', available')
      invariant |selection'| <= |selection|
      invariant NumberAfter(|pool|, selection') == NumberAfter(|pool|, selection)
      decreases |selection'|
    {
      PopOmission(GroupValue, pool, selection');
      selection' := selection'[..|selection'| - 1];
      available' := available' + pool[|selection'|].effectiveValue;
    }
    if selection' != [] {
      var k := |selection'| - 1;
      FlipInclusion(GroupValue, pool, selection');
      selection' := selection'[..k] + [false];
      value' := value' - pool[k].effectiveValue;
    }
  }

  /** The nodes are in preorder, and no two are the same. */
  ghost predicate InPreorder(n: nat, visited: seq<seq<bool>>) {
    && (forall i :: 0 <= i < |visited| ==> |visited[i]| <= n)
    && (forall i, j :: 0 <= i < j < |visited| ==>
          Number(n, visited[i]) < Number(n, visited[j]) && visited[i] != visited[j])
  }

  ghost predicate AreBelow(n: nat, visited: seq<seq<bool>>, bound: nat) {
    InPreorder(n, visited) && forall i :: 0 <= i < |visited| ==> Number(n, visited[i]) < bound
  }

  lemma VisitNothing(n: nat)
    ensures InPreorder(n, []) && forall bound :: AreBelow(n, [], bound)
  {
  }

  lemma VisitNode(n: nat, visited: seq<seq<bool>>, node: seq<bool>)
    requires |node| <= n && AreBelow(n, visited, Number(n, node))
    ensures AreBelow(n, visited + [node], Number(n, node) + 1) && InPreorder(n, visited + [node])
  {
  }

  lemma BelowLater(n: nat, visited: seq<seq<bool>>, bound: nat, later: nat)
    requires AreBelow(n, visited, bound) && bound <= later
    ensures AreBelow(n, visited, later)
  {
  }

  /**
   * The search loop over a pool of groups without negative effective value. `complete` says that the
   * answer does not depend on the cap on tries; `visited` are the nodes in the order of the tries.
   */
  method Explore(pool: seq<OutputGroup>, start: int, available: int, target: nat, costOfChange: nat, tries: nat)
    returns (r: Result<Best, BnbError>, ghost complete: bool, ghost visited: seq<seq<bool>>)
    requires forall g :: g in pool ==> 0 <= GroupValue(g)
    requires available == SumOf(GroupValue, pool)
    ensures r.Ok? ==>
      && |r.value.selection| <= |pool|
      && r.value.value == start + Chosen(GroupValue, pool, r.value.selection)
      && target <= r.value.value <= target + costOfChange
    // exactness
    ensures r.Ok? && complete ==>
      LowerBound(GroupValue, pool, start, target, costOfChange, Some(r.value.value))
    ensures start < target && r == Err(NoExactMatch) ==>
      LowerBound(GroupValue, pool, start, target, costOfChange, None)
    ensures start < target && r == Err(TotalTriesExceeded) ==> !complete
    // the tree has 2^(n+1) - 1 nodes, each visited at most once
    ensures InPreorder(|pool|, visited) && |visited| <= tries
    ensures !complete ==> |visited| == tries
    ensures start < target && Pow2(|pool| + 1) - 1 <= tries ==> complete
    // starting on or above the target
    ensures start == target && tries > 0 ==> r == Err(TotalTriesExceeded)
    ensures start > target && tries > 0 ==> r == Err(NoExactMatch)
  {
    hide InPreorder, AreBelow, Number, NumberAfter, Chosen, Rest, Covered, LowerBound, Pow2;
    ghost var n := |pool|;
    var currentSelection: seq<bool> := [];
    var currValue, currAvailable := start, available;
    var bestSelection: seq<bool> := [];
    var bestValue: Option<int> := None;
    var t := 0;
    complete, visited := false, [];
    AtRoot(GroupValue, pool, start, target, costOfChange);
    VisitNothing(n);
    while t < tries
      invariant 0 <= t <= tries
      invariant AtNode(pool, start, currentSelection, currValue, currAvailable)
      invariant t <= Number(n, currentSelection)
      invariant |visited| == t && InPreorder(n, visited) && AreBelow(n, visited, Number(n, currentSelection))
      invariant t == 0 ==> currentSelection == [] && bestValue.None?
      invariant start >= target ==> t == 0
      invariant !complete
      invariant Covered(GroupValue, pool, start, target, costOfChange, bestValue, Number(n, currentSelection))
      invariant bestValue.None? ==> bestSelection == []
      invariant bestValue.Some? ==>
        && 0 < |bestSelection| <= n
        && bestValue.value == start + Chosen(GroupValue, pool, bestSelection)
        && target <= bestValue.value <= target + costOfChange
    {
      VisitNode(n, visited, currentSelection);
      ghost var number := Number(n, currentSelection);
      visited := visited + [currentSelection];
      var backtrack := false;
      RestNonNegative(GroupValue, pool, |currentSelection|);
      if currValue + currAvailable < target || currValue > target + costOfChange {
        backtrack := true;
      } else if currValue >= target {
        backtrack := true;
        if bestValue.None? || currValue < bestValue.value {
          ImprovedBest(GroupValue, pool, start, target, costOfChange, bestValue, currValue, Number(n, currentSelection));
          bestSelection := currentSelection;
          bestValue := Some(currValue);
        }
        if currValue == target {
          PerfectMatch(GroupValue, pool, start, target, costOfChange);
          complete := true;
          break;
        }
      }
      if backtrack {
        CutOff(GroupValue, pool, start, target, costOfChange, bestValue, currentSelection);
        currentSelection, currValue, currAvailable :=
          Backtrack(pool, start, currentSelection, currValue, currAvailable);
        if currentSelection == [] {
          CoveredTree(GroupValue, pool, start, target, costOfChange, bestValue);
          complete := true;
          if bestSelection == [] {
            return Err(NoExactMatch), complete, visited;
          }
          break;
        }
      } else {
        var k := |currentSelection|;
        StepDown(GroupValue, pool, start, target, costOfChange, bestValue, currentSelection);
        currAvailable := currAvailable - pool[k].effectiveValue;
        currentSelection := currentSelection + [true];
        currValue := currValue + pool[k].effectiveValue;
      }
      BelowLater(n, visited, number + 1, Number(n, currentSelection));
      t := t + 1;
    }
    if !complete {
      SubtreeNested(n, currentSelection, 0);
      assert currentSelection[..0] == [];
    }
    if bestSelection == [] {
      return Err(TotalTriesExceeded), complete, visited;
    }
    return Ok(Best(bestSelection, bestValue.value)), complete, visited;
  }

  // ---------------------------------------------------------------- the search on groups

  /** The groups S are offered, and with `start` they land in the changeless band. */
  ghost predicate HitsBand(optional: seq<OutputGroup>, start: int, target: int, slack: int, S: seq<OutputGroup>) {
    multiset(S) <= multiset(optional) && target <= start + SumOf(GroupValue, S) <= target + slack
  }

  lemma LowerBoundOverSubsets(pool: seq<OutputGroup>, optional: seq<OutputGroup>, start: int, target: int, slack: int,
                              best: Option<int>)
    requires multiset(pool) == multiset(optional)
    requires LowerBound(GroupValue, pool, start, target, slack, best)
    ensures forall S :: HitsBand(optional, start, target, slack, S) ==>
      best.Some? && best.value <= start + SumOf(GroupValue, S)
  {
    forall S | HitsBand(optional, start, target, slack, S)
      ensures best.Some? && best.value <= start + SumOf(GroupValue, S)
    {
      var leaf := ContainedIsPick(pool, S);
      SumOfPermutation(GroupValue, Pick(pool, leaf), S);
      assert InRange(GroupValue, pool, start, target, slack, leaf);
    }
  }

  /** The whole tree over 15 coins has 2^16 - 1 nodes, below the cap. */
  lemma FifteenCoinsFit(n: nat)
    requires n <= 15
    ensures Pow2(n + 1) - 1 <= BNB_TOTAL_TRIES
  {
    Pow2Monotone(n + 1, 16);
    assert Pow2(4) == 16;
    assert Pow2(8) == 256;
    assert Pow2(12) == 4096;
    assert Pow2(16) == 65536;
  }

  method SortPool(optional: seq<OutputGroup>) returns (pool: seq<OutputGroup>)
    requires forall g :: g in optional ==> 0 <= GroupValue(g)
    ensures multiset(pool) == multiset(optional) && |pool| == |optional|
    ensures Descending(GroupValue, pool)
    ensures forall g :: g in pool ==> 0 <= GroupValue(g)
    ensures SumOf(GroupValue, pool) == SumOf(GroupValue, optional)
  {
    var ascending := SortByKey(optional, GroupKey);
    pool := Reversed(ascending);
    forall i, j | 0 <= i < j < |pool| ensures GroupValue(pool[i]) >= GroupValue(pool[j]) {
      assert !KeyLess(GroupKey(pool[i]), GroupKey(pool[j]));
    }
    ContainedElements(pool, optional);
    SumOfPermutation(GroupValue, pool, optional);
    assert |multiset(pool)| == |multiset(optional)|;
  }

  function CalculateCsResult(chosen: seq<OutputGroup>, required: seq<OutputGroup>, excess: Excess): CoinSelectionResult {
    var selected := required + chosen;
    SumOfNonNegative(GroupFee, selected);
    CoinSelectionResult(Utxos(selected), SumOf(GroupFee, selected), excess)
  }

  method Bnb(required: seq<OutputGroup>, optional: seq<OutputGroup>, currValue: int, currAvailable: int,
             target: nat, costOfChange: nat, drain: Script, rate: nat)
    returns (r: Result<CoinSelectionResult, BnbError>, ghost chosen: seq<OutputGroup>, ghost complete: bool, ghost tries: nat)
    requires forall g :: g in optional ==> 0 <= GroupValue(g)
    requires currAvailable == SumOf(GroupValue, optional)
    ensures r.Ok? ==>
      var reached := currValue + SumOf(GroupValue, chosen);
      && HitsBand(optional, currValue, target, costOfChange, chosen)
      && r.value == CalculateCsResult(chosen, required, DecideChange(reached - target, rate, drain))
    ensures r.Ok? && complete ==>
      forall S :: HitsBand(optional, currValue, target, costOfChange, S) ==>
        SumOf(GroupValue, chosen) <= SumOf(GroupValue, S)
    ensures currValue < target && r == Err(NoExactMatch) ==>
      forall S :: !HitsBand(optional, currValue, target, costOfChange, S)
    ensures currValue < target && |optional| <= 15 ==> complete
    // the search is cut off after exactly this many nodes, never before
    ensures tries <= 100_000 && (!complete ==> tries == 100_000)
    ensures currValue < target && complete ==> r != Err(TotalTriesExceeded)
    ensures currValue == target ==> r == Err(TotalTriesExceeded)
    ensures currValue > target ==> r == Err(NoExactMatch)
  {
    hide LowerBound, Pow2, Pick, SumOf, DecideChange, CalculateCsResult;
    var pool := SortPool(optional);
    if |optional| <= 15 {
      FifteenCoinsFit(|optional|);
    }
    ghost var visited;
    var found;
    found, complete, visited := Explore(pool, currValue, currAvailable, target, costOfChange, BNB_TOTAL_TRIES);
    tries := |visited|;
    if found.Err? {
      if currValue < target && found.error.NoExactMatch? {
        LowerBoundOverSubsets(pool, optional, currValue, target, costOfChange, None);
      }
      chosen := [];
      return Err(found.error), chosen, complete, tries;
    }
    var selected := Pick(pool, found.value.selection);
    PickContained(pool, found.value.selection);
    chosen := selected;
    if complete {
      LowerBoundOverSubsets(pool, optional, currValue, target, costOfChange, Some(found.value.value));
    }
    var excess := DecideChange(found.value.value - target, rate, drain);
    r := Ok(CalculateCsResult(selected, required, excess));
  }
}
