/** Greedy selection of MWEB coins, on 64-bit amounts. */
module MwebSelection {
  import opened Sequences

  const U64_MAX: nat := 0xFFFF_FFFF_FFFF_FFFF

  type U64 = n: nat | n <= 0xFFFF_FFFF_FFFF_FFFF witness 0

  datatype MwebCoin = MwebCoin(id: nat, amount: U64)

  datatype MwebError = NoMwebCoins | InsufficientMwebFunds(needed: nat, available: nat)

  function SaturatingAdd(a: U64, b: U64): U64 {
    if a + b <= U64_MAX then a + b else U64_MAX
  }

  /** Total value that the selected coins must cover. */
  function Needed(amount: U64, fee: U64): U64 {
    SaturatingAdd(amount, fee)
  }

  function AmountOf(c: MwebCoin): int { c.amount }

  function AscendingKey(c: MwebCoin): SortKey { (c.amount, 0) }

  function DescendingKey(c: MwebCoin): SortKey { (-AmountOf(c), 0) }

  function Total(coins: seq<MwebCoin>): (t: nat) {
    SumOfNonNegative(AmountOf, coins);
    SumOf(AmountOf, coins)
  }

  /** The sum as an optimized build computes it: it wraps around. */
  function WrappedTotal(coins: seq<MwebCoin>): (t: U64)
    ensures Total(coins) <= U64_MAX ==> t == Total(coins)
  {
    Total(coins) % (U64_MAX + 1)
  }

  predicate Covers(needed: U64, c: MwebCoin) {
    c.amount >= needed
  }

  method Singles(unspent: seq<MwebCoin>, needed: U64) returns (singles: seq<MwebCoin>)
    ensures forall c :: c in singles <==> c in unspent && Covers(needed, c)
  {
    singles := [];
    for i := 0 to |unspent|
      invariant forall c :: c in singles <==> c in unspent[..i] && Covers(needed, c)
    {
      assert unspent[..i + 1] == unspent[..i] + [unspent[i]];
      if Covers(needed, unspent[i]) {
        singles := singles + [unspent[i]];
      }
    }
    assert unspent[..|unspent|] == unspent;
  }

  /**
   * Coins of the wallet that cover what is needed: one coin if one suffices, and then the smallest such
   * coin; never more coins than any other covering choice, unless nothing at all is needed.
   */
  ghost predicate IsSelected(unspent: seq<MwebCoin>, needed: U64, selected: seq<MwebCoin>) {
    && multiset(selected) <= multiset(unspent) && Total(selected) >= needed
    && ((exists c :: c in unspent && c.amount >= needed) ==>
          |selected| == 1 && forall c :: c in unspent && c.amount >= needed ==> selected[0].amount <= c.amount)
    && IsFewest(unspent, needed, selected)
  }

  /** No other covering choice has fewer coins. */
  ghost predicate IsFewest(unspent: seq<MwebCoin>, needed: U64, selected: seq<MwebCoin>) {
    forall S :: multiset(S) <= multiset(unspent) && Total(S) >= needed && S != [] ==> |selected| <= |S|
  }

  method SelectMwebCoins(unspent: seq<MwebCoin>, needed: U64) returns (r: Result<seq<MwebCoin>, MwebError>)
    ensures unspent == [] <==> r == Err(NoMwebCoins)
    ensures unspent != [] && WrappedTotal(unspent) < needed <==>
      r == Err(InsufficientMwebFunds(needed, WrappedTotal(unspent))) && unspent != []
    ensures r.Err? <==> unspent == [] || WrappedTotal(unspent) < needed
    ensures r.Ok? ==> IsSelected(unspent, needed, r.value)
  {
    if unspent == [] {
      return Err(NoMwebCoins);
    }
    var available := WrappedTotal(unspent);
    if available < needed {
      return Err(InsufficientMwebFunds(needed, available));
    }
    var singles := Singles(unspent, needed);
    if singles != [] {
      var sorted := SortByKey(singles, AscendingKey);
      SmallestFirst(unspent, needed, singles, sorted);
      return Ok([sorted[0]]);
    }
    NoSingle(unspent, needed, singles);
    var selected := LargestFirstPrefix(unspent, needed);
    return Ok(selected);
  }

  method LargestFirstPrefix(unspent: seq<MwebCoin>, needed: U64) returns (selected: seq<MwebCoin>)
    requires 0 < needed <= Total(unspent)
    ensures multiset(selected) <= multiset(unspent) && Total(selected) >= needed
    ensures IsFewest(unspent, needed, selected)
  {
    hide *;
    var sorted := SortByKey(unspent, DescendingKey);
    DescendingByKey(sorted);
    var sum: U64 := 0;
    selected := [];
    EndsOfPrefix(unspent, sorted);
    var i := 0;
    while i < |sorted|
      invariant 0 <= i <= |sorted| && selected == sorted[..i]
      invariant sum == Total(selected) < needed
    {
      var coin := sorted[i];
      NextPrefix(sorted, i, sum, needed);
      sum := SaturatingAdd(sum, coin.amount);
      selected := selected + [coin];
      i := i + 1;
      if sum >= needed {
        FewestCoins(unspent, sorted, needed, i);
        return;
      }
    }
    assert false;
  }

  lemma EndsOfPrefix(unspent: seq<MwebCoin>, sorted: seq<MwebCoin>)
    requires multiset(sorted) == multiset(unspent)
    ensures sorted[..0] == [] && Total([]) == 0
    ensures Total(sorted[..|sorted|]) == Total(unspent)
  {
    assert sorted[..|sorted|] == sorted;
    SumOfPermutation(AmountOf, sorted, unspent);
  }

  lemma NextPrefix(sorted: seq<MwebCoin>, i: nat, sum: U64, needed: U64)
    requires i < |sorted| && sum == Total(sorted[..i])
    ensures sorted[..i] + [sorted[i]] == sorted[..i + 1]
    ensures SaturatingAdd(sum, sorted[i].amount) >= needed <==> Total(sorted[..i + 1]) >= needed
    ensures SaturatingAdd(sum, sorted[i].amount) < needed ==> SaturatingAdd(sum, sorted[i].amount) == Total(sorted[..i + 1])
  {
    SumOfSnoc(AmountOf, sorted, i);
  }

  lemma NoSingle(unspent: seq<MwebCoin>, needed: U64, singles: seq<MwebCoin>)
    requires forall c :: c in singles <==> c in unspent && Covers(needed, c)
    requires singles == [] && unspent != [] && WrappedTotal(unspent) >= needed
    ensures !(exists c :: c in unspent && Covers(needed, c))
    ensures 0 < needed <= Total(unspent)
  {
    assert unspent[0] in unspent;
  }

  lemma SmallestFirst(unspent: seq<MwebCoin>, needed: U64, singles: seq<MwebCoin>, sorted: seq<MwebCoin>)
    requires forall c :: c in singles <==> c in unspent && Covers(needed, c)
    requires singles != [] && multiset(sorted) == multiset(singles) && SortedBy(AscendingKey, sorted)
    ensures sorted != [] && sorted[0] in unspent && Covers(needed, sorted[0])
    ensures forall c :: c in unspent && Covers(needed, c) ==> sorted[0].amount <= c.amount
    ensures multiset([sorted[0]]) <= multiset(unspent) && Total([sorted[0]]) >= needed
  {
    assert |multiset(sorted)| == |multiset(singles)|;
    ContainedElements(sorted, singles);
    ContainedElements(singles, sorted);
    assert sorted[0] in singles;
    SumOfCons(AmountOf, sorted[0], []);
    assert [sorted[0]] + [] == [sorted[0]];
    forall c | c in unspent && Covers(needed, c) ensures sorted[0].amount <= c.amount {
      assert c in sorted;
      var j :| 0 <= j < |sorted| && sorted[j] == c;
      if j > 0 {
        assert !KeyLess(AscendingKey(sorted[j]), AscendingKey(sorted[0]));
      }
    }
  }

  lemma DescendingByKey(sorted: seq<MwebCoin>)
    requires SortedBy(DescendingKey, sorted)
    ensures Descending(AmountOf, sorted)
  {
    forall i, j | 0 <= i < j < |sorted| ensures AmountOf(sorted[i]) >= AmountOf(sorted[j]) {
      assert !KeyLess(DescendingKey(sorted[j]), DescendingKey(sorted[i]));
    }
  }

  /** The largest-first prefix that first covers the need is as short as any covering choice. */
  lemma FewestCoins(unspent: seq<MwebCoin>, sorted: seq<MwebCoin>, needed: U64, k: nat)
    requires multiset(sorted) == multiset(unspent) && Descending(AmountOf, sorted)
    requires 0 < k <= |sorted| && Total(sorted[..k - 1]) < needed
    ensures IsFewest(unspent, needed, sorted[..k])
    ensures multiset(sorted[..k]) <= multiset(unspent)
  {
    assert sorted == sorted[..k] + sorted[k..];
    forall S | multiset(S) <= multiset(unspent) && Total(S) >= needed ensures k <= |S| {
      ExchangeArgument(AmountOf, sorted, S);
      if |S| < k {
        var top, rest := sorted[..|S|], sorted[|S|..k - 1];
        assert sorted[..k - 1] == top + rest;
        SumOfAppend(AmountOf, top, rest);
        SumOfNonNegative(AmountOf, rest);
        assert false;
      }
    }
  }

  // ---------------------------------------------------------------- when 64 bits are enough

  /** The need is refused exactly when the coins are worth less. */
  ghost predicate DecidesRightly(unspent: seq<MwebCoin>, needed: U64) {
    WrappedTotal(unspent) < needed <==> Total(unspent) < needed
  }

  /** Every refusal and every acceptance is right exactly when the sum does not wrap, or wraps onto the largest amount. */
  lemma DecidesRightlyIff(unspent: seq<MwebCoin>)
    ensures (forall needed: U64 :: DecidesRightly(unspent, needed)) <==>
      Total(unspent) <= U64_MAX || WrappedTotal(unspent) == U64_MAX
  {
    hide Total;
    if Total(unspent) > U64_MAX && WrappedTotal(unspent) < U64_MAX {
      assert !DecidesRightly(unspent, WrappedTotal(unspent) + 1);
    }
  }

  /** The spend is refused exactly when the coins are worth less than the amount and the fee. */
  ghost predicate DecidesSpendRightly(unspent: seq<MwebCoin>, amount: U64, fee: U64) {
    WrappedTotal(unspent) < Needed(amount, fee) <==> Total(unspent) < amount + fee
  }

  /** Saturating the need besides adds one wrong decision: coins worth exactly the largest amount. */
  lemma DecidesSpendRightlyIff(unspent: seq<MwebCoin>)
    ensures (forall amount: U64, fee: U64 :: DecidesSpendRightly(unspent, amount, fee)) <==>
      Total(unspent) != U64_MAX && (Total(unspent) < U64_MAX || WrappedTotal(unspent) == U64_MAX)
  {
    hide Total;
    if Total(unspent) == U64_MAX {
      assert !DecidesSpendRightly(unspent, U64_MAX, 1);
    } else if Total(unspent) > U64_MAX && WrappedTotal(unspent) < U64_MAX {
      assert !DecidesSpendRightly(unspent, WrappedTotal(unspent) + 1, 0);
    }
  }

  /** If the spend is accepted, the coins selected for the saturated need pay amount and fee. */
  ghost predicate PaysSpend(unspent: seq<MwebCoin>, amount: U64, fee: U64, selected: seq<MwebCoin>) {
    && unspent != [] && WrappedTotal(unspent) >= Needed(amount, fee)
    && IsSelected(unspent, Needed(amount, fee), selected)
    ==>
    Total(selected) >= amount + fee
  }

  /** An amount and a fee that overflow together are refused, as the saturation is there to ensure. */
  ghost predicate RefusesOverflow(unspent: seq<MwebCoin>, amount: U64, fee: U64) {
    amount + fee > U64_MAX ==> unspent == [] || WrappedTotal(unspent) < Needed(amount, fee)
  }

  /**
   * Every success pays amount and fee, and every overflowing request is refused, exactly when the wrapped
   * sum is not the largest amount. If it is, some selection exists for the largest amount and fee, and none
   * pays them.
   */
  lemma PaysSpendIff(unspent: seq<MwebCoin>)
    ensures (forall amount: U64, fee: U64, selected :: PaysSpend(unspent, amount, fee, selected)) <==>
      WrappedTotal(unspent) != U64_MAX
    ensures (forall amount: U64, fee: U64 :: RefusesOverflow(unspent, amount, fee)) <==>
      WrappedTotal(unspent) != U64_MAX
    ensures WrappedTotal(unspent) == U64_MAX ==>
      && (exists selected :: IsSelected(unspent, Needed(U64_MAX, U64_MAX), selected))
      && (forall selected :: IsSelected(unspent, Needed(U64_MAX, U64_MAX), selected) ==>
            !PaysSpend(unspent, U64_MAX, U64_MAX, selected))
  {
    hide Total, IsSelected;
    if WrappedTotal(unspent) == U64_MAX {
      var selected := SelectionExists(unspent);
      forall other | IsSelected(unspent, U64_MAX, other) ensures !PaysSpend(unspent, U64_MAX, U64_MAX, other) {
        SelectionBelowTwice(unspent, other);
      }
      assert !RefusesOverflow(unspent, U64_MAX, U64_MAX);
      assert !PaysSpend(unspent, U64_MAX, U64_MAX, selected);
    } else {
      forall amount: U64, fee: U64, selected ensures PaysSpend(unspent, amount, fee, selected) {
        if WrappedTotal(unspent) >= Needed(amount, fee) && IsSelected(unspent, Needed(amount, fee), selected) {
          SelectedCovers(unspent, Needed(amount, fee), selected);
        }
      }
    }
  }

  lemma SelectedCovers(unspent: seq<MwebCoin>, needed: U64, selected: seq<MwebCoin>)
    requires IsSelected(unspent, needed, selected)
    ensures Total(selected) >= needed
  {
  }

  /** The largest amount can be selected where the coins are worth it. */
  lemma SelectionExists(unspent: seq<MwebCoin>) returns (selected: seq<MwebCoin>)
    requires Total(unspent) >= U64_MAX
    ensures unspent != [] && IsSelected(unspent, U64_MAX, selected)
  {
    EndsOfPrefix(unspent, unspent);
    if c :| c in unspent && Covers(U64_MAX, c) {
      selected := [c];
      OneCoin(unspent, c);
    } else {
      hide Total;
      selected := FewestExists(unspent, U64_MAX, unspent);
    }
  }

  /** Whatever is selected for the largest amount, smallest single coin or fewest coins, stays below twice that amount. */
  lemma SelectionBelowTwice(unspent: seq<MwebCoin>, selected: seq<MwebCoin>)
    requires Total(unspent) >= U64_MAX && IsSelected(unspent, U64_MAX, selected)
    ensures Total(selected) < 2 * U64_MAX
  {
    EndsOfPrefix(selected, selected);
    ContainedElements(selected, unspent);
    assert selected != [];
    hide Total;
    if c :| c in unspent && Covers(U64_MAX, c) {
      assert selected == [selected[0]];
      assert selected[0] in selected;
      OneCoin(unspent, selected[0]);
    } else {
      assert selected[0] in unspent;
      FewestIsTight(unspent, U64_MAX, selected);
    }
  }

  lemma OneCoin(unspent: seq<MwebCoin>, c: MwebCoin)
    requires c in unspent
    ensures multiset([c]) <= multiset(unspent) && Total([c]) == c.amount
  {
    SumOfCons(AmountOf, c, []);
    assert [c] + [] == [c];
  }

  lemma {:induction false} FewestExists(unspent: seq<MwebCoin>, needed: U64, S: seq<MwebCoin>) returns (best: seq<MwebCoin>)
    requires multiset(S) <= multiset(unspent) && Total(S) >= needed && S != []
    ensures multiset(best) <= multiset(unspent) && Total(best) >= needed && best != []
    ensures IsFewest(unspent, needed, best)
    decreases |S|
  {
    hide Total;
    if IsFewest(unspent, needed, S) {
      best := S;
    } else {
      var T :| multiset(T) <= multiset(unspent) && Total(T) >= needed && T != [] && |T| < |S|;
      best := FewestExists(unspent, needed, T);
    }
  }

  /** A fewest choice misses the need as soon as one of its coins is left out. */
  lemma FewestIsTight(unspent: seq<MwebCoin>, needed: U64, selected: seq<MwebCoin>)
    requires multiset(selected) <= multiset(unspent) && selected != [] && IsFewest(unspent, needed, selected) && needed > 0
    ensures Total(selected) < needed + selected[0].amount
  {
    var rest := selected[1..];
    assert selected == [selected[0]] + rest;
    SumOfCons(AmountOf, selected[0], rest);
    if Total(rest) >= needed {
      EndsOfPrefix(rest, rest);
      assert false;
    }
  }

  /**
   * With less than the largest 64-bit amount in circulation, selection fails for lack of funds exactly when
   * the true total is below the true need, and a success covers the amount and the fee without saturation.
   */
  lemma SupplyBoundSuffices(unspent: seq<MwebCoin>, amount: U64, fee: U64, selected: seq<MwebCoin>)
    requires Total(unspent) < U64_MAX
    ensures WrappedTotal(unspent) < Needed(amount, fee) <==> Total(unspent) < amount + fee
    ensures multiset(selected) <= multiset(unspent) && Total(selected) >= Needed(amount, fee) ==>
      Total(selected) >= amount + fee
  {
    if multiset(selected) <= multiset(unspent) && Total(selected) >= Needed(amount, fee) {
      TotalOfContained(unspent, selected);
    }
  }

  lemma TotalOfContained(unspent: seq<MwebCoin>, selected: seq<MwebCoin>)
    requires multiset(selected) <= multiset(unspent)
    ensures Total(selected) <= Total(unspent)
  {
    var a := ContainedIsPick(unspent, selected);
    SumOfPermutation(AmountOf, Pick(unspent, a), selected);
    PickTotal(unspent, a);
  }

  lemma {:induction false} PickTotal(coins: seq<MwebCoin>, a: seq<bool>)
    requires |a| == |coins|
    ensures Total(Pick(coins, a)) <= Total(coins)
  {
    if a != [] {
      var k := |a| - 1;
      var front, last, b := coins[..k], coins[k], a[..k];
      assert a == b + [a[k]] && coins == front + [last];
      PickOfChild(front, last, b, a[k]);
      PickTotal(front, b);
      SumOfAppend(AmountOf, front, [last]);
      SumOfAppend(AmountOf, Pick(front, b), if a[k] then [last] else []);
    }
  }

  /** Without a supply bound, the wrapped sum can refuse although the coins are worth far more than needed. */
  lemma WrapAroundExample()
    ensures var coins := [MwebCoin(1, 0x8000_0000_0000_0000), MwebCoin(2, 0x8000_0000_0000_0000)];
      Total(coins) > 1 && WrappedTotal(coins) < 1
  {
    var coins := [MwebCoin(1, 0x8000_0000_0000_0000), MwebCoin(2, 0x8000_0000_0000_0000)];
    SumOfAppend(AmountOf, coins[..1], coins[1..]);
    assert coins == coins[..1] + coins[1..];
    assert Total(coins) == 0x1_0000_0000_0000_0000;
  }
}
