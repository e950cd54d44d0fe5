/** The selectors that take coins in a given order until the target and the running fee are covered. */
module GreedySelection {
  import opened Sequences
  import opened Coins

  datatype CoinSelectionResult = CoinSelectionResult(selected: seq<WeightedUtxo>, feeAmount: nat, excess: Excess)

  datatype InsufficientFunds = InsufficientFunds(needed: nat, available: nat)

  type Selection = Result<CoinSelectionResult, InsufficientFunds>

  /** What any selection must deliver, whichever path produced it. */
  ghost predicate IsSound(required: seq<WeightedUtxo>, optional: seq<WeightedUtxo>, rate: nat, target: nat,
                          drain: Script, r: CoinSelectionResult)
  {
    var n := |required|;
    // every required coin is spent, and only offered coins beside them, none twice
    && n <= |r.selected| && r.selected[..n] == required
    && multiset(r.selected[n..]) <= multiset(optional)
    // conservation: the coins pay target and fee, and the excess is what is left
    && TotalValue(r.selected) >= target + r.feeAmount
    && r.excess == DecideChange(TotalValue(r.selected) - target - r.feeAmount, rate, drain)
    // the fee pays for the accumulated weight, and no more than the separately rounded input fees
    && Fee(rate, TotalWeight(r.selected)) <= r.feeAmount
    && r.feeAmount <= InputFees(rate, r.selected)
  }

  /** The selection that spends exactly `us`, or the refusal naming what is missing. */
  function Settle(us: seq<WeightedUtxo>, rate: nat, target: nat, drain: Script): Selection {
    var fee := Fee(rate, TotalWeight(us));
    if TotalValue(us) < target + fee then
      Err(InsufficientFunds(target + fee, TotalValue(us)))
    else
      Ok(CoinSelectionResult(us, fee, DecideChange(TotalValue(us) - target - fee, rate, drain)))
  }

  function Unflagged(utxos: seq<(bool, WeightedUtxo)>): (us: seq<WeightedUtxo>)
    ensures |us| == |utxos| && forall i :: 0 <= i < |us| ==> us[i] == utxos[i].1
  {
    seq(|utxos|, i requires 0 <= i < |utxos| => utxos[i].1)
  }

  function Flagged(flag: bool, us: seq<WeightedUtxo>): (utxos: seq<(bool, WeightedUtxo)>)
    ensures |us| == |utxos| && forall i :: 0 <= i < |us| ==> utxos[i] == (flag, us[i])
  {
    seq(|us|, i requires 0 <= i < |us| => (flag, us[i]))
  }

  /**
   * The scan stops before the first optional coin that is reached with the coins so far sufficient,
   * or at the end.
   */
  ghost predicate StopsAt(utxos: seq<(bool, WeightedUtxo)>, rate: nat, target: nat, k: nat) {
    && k <= |utxos|
    && (forall i :: 0 <= i < k ==> utxos[i].0 || !Sufficient(rate, target, Unflagged(utxos)[..i]))
    && (k < |utxos| ==> !utxos[k].0 && Sufficient(rate, target, Unflagged(utxos)[..k]))
  }

  method SelectSortedUtxos(utxos: seq<(bool, WeightedUtxo)>, rate: nat, target: nat, drain: Script)
    returns (r: Selection)
    ensures exists taken: nat ::
      StopsAt(utxos, rate, target, taken) && r == Settle(Unflagged(utxos)[..taken], rate, target, drain)
  {
    var selectedAmount, totalWeight, selected := 0, 0, [];
    ghost var all := Unflagged(utxos);
    var i := 0;
    while i < |utxos| && (utxos[i].0 || selectedAmount < target + Fee(rate, totalWeight))
      invariant 0 <= i <= |utxos|
      invariant selected == all[..i]
      invariant selectedAmount == TotalValue(selected) && totalWeight == TotalWeight(selected)
      invariant forall j :: 0 <= j < i ==> utxos[j].0 || !Sufficient(rate, target, all[..j])
    {
      SumOfSnoc(ValueOf, all, i);
      SumOfSnoc(WeightOf, all, i);
      totalWeight := totalWeight + TXIN_WEIGHT + utxos[i].1.satisfactionWeight;
      selectedAmount := selectedAmount + utxos[i].1.utxo.value;
      selected := selected + [utxos[i].1];
      i := i + 1;
    }
    assert StopsAt(utxos, rate, target, i);
    var feeAmount := Fee(rate, totalWeight);
    var needed := target + feeAmount;
    if selectedAmount < needed {
      r := Err(InsufficientFunds(needed, selectedAmount));
    } else {
      r := Ok(CoinSelectionResult(selected, feeAmount, DecideChange(selectedAmount - needed, rate, drain)));
    }
  }

  /** Required coins, then the shortest sufficient prefix of `ordered`, or all of it. */
  ghost predicate IsGreedyOutcome(required: seq<WeightedUtxo>, ordered: seq<WeightedUtxo>, k: nat,
                                  rate: nat, target: nat, drain: Script, r: Selection)
  {
    && k <= |ordered|
    && (forall j :: 0 <= j < k ==> !Sufficient(rate, target, required + ordered[..j]))
    && (k < |ordered| ==> Sufficient(rate, target, required + ordered[..k]))
    && r == Settle(required + ordered[..k], rate, target, drain)
  }

  method SelectInOrder(required: seq<WeightedUtxo>, ordered: seq<WeightedUtxo>, rate: nat, target: nat, drain: Script)
    returns (r: Selection)
    ensures exists k :: IsGreedyOutcome(required, ordered, k, rate, target, drain, r)
  {
    var utxos := Flagged(true, required) + Flagged(false, ordered);
    r := SelectSortedUtxos(utxos, rate, target, drain);
    ghost var taken: nat :|
      StopsAt(utxos, rate, target, taken) && r == Settle(Unflagged(utxos)[..taken], rate, target, drain);
    ScanIsGreedy(required, ordered, rate, target, utxos, taken);
    assert IsGreedyOutcome(required, ordered, taken - |required|, rate, target, drain, r);
  }

  /** With required coins in front, the scan stops after them and after the shortest sufficient prefix. */
  lemma ScanIsGreedy(required: seq<WeightedUtxo>, ordered: seq<WeightedUtxo>, rate: nat, target: nat,
                     utxos: seq<(bool, WeightedUtxo)>, taken: nat)
    requires utxos == Flagged(true, required) + Flagged(false, ordered) && StopsAt(utxos, rate, target, taken)
    ensures |required| <= taken <= |required| + |ordered|
    ensures var k := taken - |required|;
      && Unflagged(utxos)[..taken] == required + ordered[..k]
      && (forall j :: 0 <= j < k ==> !Sufficient(rate, target, required + ordered[..j]))
      && (k < |ordered| ==> Sufficient(rate, target, required + ordered[..k]))
  {
    hide Sufficient;
    var n, all := |required|, Unflagged(utxos);
    assert all == required + ordered;
    assert forall j :: 0 <= j <= |ordered| ==> all[..n + j] == required + ordered[..j];
    forall j | 0 <= j < taken - n ensures !Sufficient(rate, target, required + ordered[..j]) {
      assert !utxos[n + j].0;
      assert !Sufficient(rate, target, all[..n + j]);
    }
  }

  /** The greedy outcome for some order of the optional coins that `isOrder` allows. */
  ghost predicate IsGreedyIn(isOrder: seq<WeightedUtxo> -> bool, required: seq<WeightedUtxo>, optional: seq<WeightedUtxo>,
                             rate: nat, target: nat, drain: Script, r: Selection)
  {
    exists ordered, k :: (
      && multiset(ordered) == multiset(optional) && isOrder(ordered)
      && IsGreedyOutcome(required, ordered, k, rate, target, drain, r))
  }

  function ValueKey(u: WeightedUtxo): SortKey {
    (ValueOf(u), 0)
  }

  function OldestFirstKey(u: WeightedUtxo): SortKey {
    if u.utxo.Local? then (0, u.utxo.age) else (1, 0)
  }

  ghost predicate LargestFirstOrder(us: seq<WeightedUtxo>) {
    Descending(ValueOf, us)
  }

  ghost predicate AnyOrder(us: seq<WeightedUtxo>) {
    true
  }

  method LargestFirst(required: seq<WeightedUtxo>, optional: seq<WeightedUtxo>, rate: nat, target: nat, drain: Script)
    returns (r: Selection)
    ensures IsGreedyIn(LargestFirstOrder, required, optional, rate, target, drain, r)
  {
    var ascending := SortByKey(optional, ValueKey);
    var descending := Reversed(ascending);
    forall i, j | 0 <= i < j < |descending| ensures ValueOf(descending[i]) >= ValueOf(descending[j]) {
      assert !KeyLess(ValueKey(descending[i]), ValueKey(descending[j]));
    }
    r := SelectInOrder(required, descending, rate, target, drain);
    assert LargestFirstOrder(descending);
  }

  /** Local coins from oldest to newest, then foreign coins, which have no known age. */
  ghost predicate OldestFirstOrder(us: seq<WeightedUtxo>) {
    forall i, j :: 0 <= i < j < |us| && us[j].utxo.Local? ==>
      us[i].utxo.Local? && us[i].utxo.age <= us[j].utxo.age
  }

  method OldestFirst(required: seq<WeightedUtxo>, optional: seq<WeightedUtxo>, rate: nat, target: nat, drain: Script)
    returns (r: Selection)
    ensures IsGreedyIn(OldestFirstOrder, required, optional, rate, target, drain, r)
  {
    var order := SortByKey(optional, OldestFirstKey);
    forall i, j | 0 <= i < j < |order| && order[j].utxo.Local?
      ensures order[i].utxo.Local? && order[i].utxo.age <= order[j].utxo.age
    {
      assert !KeyLess(OldestFirstKey(order[j]), OldestFirstKey(order[i]));
    }
    r := SelectInOrder(required, order, rate, target, drain);
    assert OldestFirstOrder(order);
  }

  /** Knuth shuffle: whatever the random draws, the list keeps its elements. */
  method ShuffleSlice<T>(list: array<T>)
    modifies list
    ensures multiset(list[..]) == multiset(old(list[..]))
  {
    if list.Length == 0 {
      return;
    }
    var current := list.Length - 1;
    while current > 0
      invariant 0 <= current < list.Length
      invariant multiset(list[..]) == multiset(old(list[..]))
    {
      var random: int :| 0 <= random <= current;
      list[current], list[random] := list[random], list[current];
      current := current - 1;
    }
  }

  method SingleRandomDraw(required: seq<WeightedUtxo>, optional: seq<WeightedUtxo>, rate: nat, target: nat, drain: Script)
    returns (r: Selection)
    ensures IsGreedyIn(AnyOrder, required, optional, rate, target, drain, r)
  {
    var list := new WeightedUtxo[|optional|](i requires 0 <= i < |optional| => optional[i]);
    assert list[..] == optional;
    ShuffleSlice(list);
    r := SelectInOrder(required, list[..], rate, target, drain);
    assert AnyOrder(list[..]);
  }

  datatype Algorithm = LargestFirstAlgorithm | OldestFirstAlgorithm | SingleRandomDrawAlgorithm

  ghost function OrderOf(algorithm: Algorithm): seq<WeightedUtxo> -> bool {
    match algorithm
    case LargestFirstAlgorithm => LargestFirstOrder
    case OldestFirstAlgorithm => OldestFirstOrder
    case SingleRandomDrawAlgorithm => AnyOrder
  }

  method GreedySelect(algorithm: Algorithm, required: seq<WeightedUtxo>, optional: seq<WeightedUtxo>,
                      rate: nat, target: nat, drain: Script)
    returns (r: Selection)
    ensures IsGreedyIn(OrderOf(algorithm), required, optional, rate, target, drain, r)
    ensures algorithm == LargestFirstAlgorithm ==> IsGreedyIn(LargestFirstOrder, required, optional, rate, target, drain, r)
    ensures algorithm == OldestFirstAlgorithm ==> IsGreedyIn(OldestFirstOrder, required, optional, rate, target, drain, r)
  {
    match algorithm
    case LargestFirstAlgorithm => r := LargestFirst(required, optional, rate, target, drain);
    case OldestFirstAlgorithm => r := OldestFirst(required, optional, rate, target, drain);
    case SingleRandomDrawAlgorithm => r := SingleRandomDraw(required, optional, rate, target, drain);
  }

  // ---------------------------------------------------------------- what the greedy outcome means

  /**
   * A greedy success is sound and charges the fee of what it spends, rounded once; a greedy refusal reports
   * what all coins together would need and are worth.
   */
  lemma GreedyOutcomeIsSound(required: seq<WeightedUtxo>, optional: seq<WeightedUtxo>, ordered: seq<WeightedUtxo>,
                             k: nat, rate: nat, target: nat, drain: Script, r: Selection)
    requires multiset(ordered) == multiset(optional)
    requires IsGreedyOutcome(required, ordered, k, rate, target, drain, r)
    ensures r.Ok? ==> IsSound(required, optional, rate, target, drain, r.value)
    ensures r.Ok? ==> r.value.selected == required + ordered[..k] && r.value.feeAmount == Fee(rate, TotalWeight(r.value.selected))
    ensures r.Err? ==>
      var all := required + optional;
      r.error == InsufficientFunds(target + Fee(rate, TotalWeight(all)), TotalValue(all)) && r.error.available < r.error.needed
    ensures r.Ok? <==> exists j :: 0 <= j <= |ordered| && Sufficient(rate, target, required + ordered[..j])
  {
    var us := required + ordered[..k];
    RoundingBound(rate, us);
    assert us[..|required|] == required && us[|required|..] == ordered[..k];
    assert ordered == ordered[..k] + ordered[k..];
    if r.Ok? {
      assert Sufficient(rate, target, us);
    } else {
      assert ordered[..|ordered|] == ordered;
      SumOfPermutation(ValueOf, required + ordered, required + optional);
      SumOfPermutation(WeightOf, required + ordered, required + optional);
    }
  }

  // ---------------------------------------------------------------- which coins are taken

  /** The optional coins are split into those taken and those left, the fewest in their order that suffice. */
  ghost predicate Takes(required: seq<WeightedUtxo>, optional: seq<WeightedUtxo>, rate: nat, target: nat, r: CoinSelectionResult,
                        taken: seq<WeightedUtxo>, left: seq<WeightedUtxo>)
  {
    && r.selected == required + taken
    && multiset(taken) + multiset(left) == multiset(optional)
    && Sufficient(rate, target, r.selected)
    && (taken != [] ==> !Sufficient(rate, target, required + taken[..|taken| - 1]))
  }

  lemma GreedySplit(isOrder: seq<WeightedUtxo> -> bool, required: seq<WeightedUtxo>, optional: seq<WeightedUtxo>,
                    rate: nat, target: nat, drain: Script, r: Selection)
    returns (taken: seq<WeightedUtxo>, left: seq<WeightedUtxo>)
    requires IsGreedyIn(isOrder, required, optional, rate, target, drain, r) && r.Ok?
    ensures Takes(required, optional, rate, target, r.value, taken, left) && isOrder(taken + left)
  {
    var ordered, k :| (
      && multiset(ordered) == multiset(optional) && isOrder(ordered)
      && IsGreedyOutcome(required, ordered, k, rate, target, drain, r));
    taken, left := ordered[..k], ordered[k..];
    assert ordered == taken + left;
    assert k > 0 ==> taken[..k - 1] == ordered[..k - 1];
  }

  /** Largest first: no coin left is worth more than a coin taken. */
  lemma LargestFirstTakesLargest(required: seq<WeightedUtxo>, optional: seq<WeightedUtxo>, rate: nat, target: nat, drain: Script,
                                 r: Selection)
    requires IsGreedyIn(LargestFirstOrder, required, optional, rate, target, drain, r) && r.Ok?
    ensures exists taken: seq<WeightedUtxo>, left: seq<WeightedUtxo> ::
      && Takes(required, optional, rate, target, r.value, taken, left)
      && forall u: WeightedUtxo, v: WeightedUtxo :: u in taken && v in left ==> u.utxo.value >= v.utxo.value
  {
    hide Takes;
    var taken, left := GreedySplit(LargestFirstOrder, required, optional, rate, target, drain, r);
    forall u, v | u in taken && v in left ensures u.utxo.value >= v.utxo.value {
      var i :| 0 <= i < |taken| && taken[i] == u;
      var j :| 0 <= j < |left| && left[j] == v;
      assert (taken + left)[i] == u && (taken + left)[|taken| + j] == v;
      assert ValueOf((taken + left)[i]) >= ValueOf((taken + left)[|taken| + j]);
    }
  }

  /** Oldest first: if a wallet coin is left, every coin taken is a wallet coin at least as old. */
  lemma OldestFirstTakesOldest(required: seq<WeightedUtxo>, optional: seq<WeightedUtxo>, rate: nat, target: nat, drain: Script,
                               r: Selection)
    requires IsGreedyIn(OldestFirstOrder, required, optional, rate, target, drain, r) && r.Ok?
    ensures exists taken: seq<WeightedUtxo>, left: seq<WeightedUtxo> ::
      && Takes(required, optional, rate, target, r.value, taken, left)
      && forall u: WeightedUtxo, v: WeightedUtxo :: u in taken && v in left && v.utxo.Local? ==> u.utxo.Local? && u.utxo.age <= v.utxo.age
  {
    hide Takes;
    var taken, left := GreedySplit(OldestFirstOrder, required, optional, rate, target, drain, r);
    forall u, v | u in taken && v in left && v.utxo.Local? ensures u.utxo.Local? && u.utxo.age <= v.utxo.age {
      var i :| 0 <= i < |taken| && taken[i] == u;
      var j :| 0 <= j < |left| && left[j] == v;
      assert (taken + left)[i] == u && (taken + left)[|taken| + j] == v;
    }
  }

  /** No prefix of the order, however long, is sufficient. */
  ghost predicate Exhausts(rate: nat, target: nat, required: seq<WeightedUtxo>, ordered: seq<WeightedUtxo>) {
    forall j :: 0 <= j <= |ordered| ==> !Sufficient(rate, target, required + ordered[..j])
  }

  /** Coins that cost more than they bring go first. */
  ghost function CostlyFirst(rate: nat, us: seq<WeightedUtxo>): (r: seq<WeightedUtxo>)
    ensures multiset(r) == multiset(us) && |r| == |us|
  {
    if us == [] then []
    else
      assert us == [us[0]] + us[1..];
      if MilliAt(rate)(us[0]) < 0 then [us[0]] + CostlyFirst(rate, us[1..])
      else CostlyFirst(rate, us[1..]) + [us[0]]
  }

  lemma {:induction false} CostlyFirstStaysLow(rate: nat, us: seq<WeightedUtxo>, base: int, bound: int, j: nat)
    requires base < bound && base + Milli(rate, us) < bound && j <= |us|
    ensures base + Milli(rate, CostlyFirst(rate, us)[..j]) < bound
  {
    var order := CostlyFirst(rate, us);
    if us == [] || j == 0 {
      assert order[..0] == [];
    } else if MilliAt(rate)(us[0]) < 0 {
      assert order[..j] == [us[0]] + CostlyFirst(rate, us[1..])[..j - 1];
      CostlyFirstStaysLow(rate, us[1..], base + MilliAt(rate)(us[0]), bound, j - 1);
    } else if j < |us| {
      assert order[..j] == CostlyFirst(rate, us[1..])[..j];
      CostlyFirstStaysLow(rate, us[1..], base, bound, j);
    } else {
      assert order[..j] == order;
      SumOfPermutation(MilliAt(rate), us, order);
    }
  }

  lemma SufficientPermutation(rate: nat, target: nat, required: seq<WeightedUtxo>, us: seq<WeightedUtxo>, vs: seq<WeightedUtxo>)
    requires multiset(us) == multiset(vs)
    ensures Sufficient(rate, target, required + us) <==> Sufficient(rate, target, required + vs)
  {
    SumOfPermutation(ValueOf, required + us, required + vs);
    SumOfPermutation(WeightOf, required + us, required + vs);
  }

  /**
   * Exactly when can a drawing order make the greedy selectors fail: when neither the required coins
   * alone nor all coins together are sufficient. Otherwise every order succeeds.
   */
  lemma SomeOrderFailsIff(rate: nat, target: nat, required: seq<WeightedUtxo>, optional: seq<WeightedUtxo>)
    ensures (exists ordered ::
               multiset(ordered) == multiset(optional) && Exhausts(rate, target, required, ordered))
       <==> !Sufficient(rate, target, required) && !Sufficient(rate, target, required + optional)
  {
    forall ordered | multiset(ordered) == multiset(optional) && Exhausts(rate, target, required, ordered)
      ensures !Sufficient(rate, target, required) && !Sufficient(rate, target, required + optional)
    {
      assert required + ordered[..0] == required;
      assert ordered[..|ordered|] == ordered;
      assert !Sufficient(rate, target, required + ordered[..0]);
      assert !Sufficient(rate, target, required + ordered[..|ordered|]);
      SufficientPermutation(rate, target, required, ordered, optional);
    }
    if !Sufficient(rate, target, required) && !Sufficient(rate, target, required + optional) {
      var ordered := CostlyFirst(rate, optional);
      forall j | 0 <= j <= |ordered| ensures !Sufficient(rate, target, required + ordered[..j]) {
        SufficientIff(rate, target, required);
        SufficientIff(rate, target, required + optional);
        SufficientIff(rate, target, required + ordered[..j]);
        SumOfAppend(MilliAt(rate), required, optional);
        SumOfAppend(MilliAt(rate), required, ordered[..j]);
        CostlyFirstStaysLow(rate, optional, Milli(rate, required), 1000 * target, j);
      }
      assert Exhausts(rate, target, required, ordered);
    }
  }

  lemma {:induction false} EqualWeights(us: seq<WeightedUtxo>, w: nat)
    requires forall u :: u in us ==> u.satisfactionWeight == w
    ensures TotalWeight(us) == |us| * (TXIN_WEIGHT + w)
  {
    if us != [] {
      EqualWeights(us[1..], w);
    }
  }

  lemma PrefixIsFewest(required: seq<WeightedUtxo>, optional: seq<WeightedUtxo>, ordered: seq<WeightedUtxo>,
                       k: nat, rate: nat, target: nat, drain: Script, r: Selection, w: nat, S: seq<WeightedUtxo>)
    requires multiset(ordered) == multiset(optional) && LargestFirstOrder(ordered)
    requires IsGreedyOutcome(required, ordered, k, rate, target, drain, r)
    requires forall u :: u in optional ==> u.satisfactionWeight == w
    requires multiset(S) <= multiset(optional) && Sufficient(rate, target, required + S)
    ensures k <= |S| && r.Ok?
  {
    ExchangeArgument(ValueOf, ordered, S);
    var top := ordered[..|S|];
    ContainedElements(S, optional);
    ContainedElements(ordered, optional);
    EqualWeights(S, w);
    EqualWeights(top, w);
    SumOfAppend(ValueOf, required, S);
    SumOfAppend(ValueOf, required, top);
    SumOfAppend(WeightOf, required, S);
    SumOfAppend(WeightOf, required, top);
    assert Sufficient(rate, target, required + top);
  }

  /**
   * Largest-first with coins of one spending weight succeeds whenever some choice S of offered coins is
   * sufficient, and never takes more coins than S.
   */
  lemma LargestFirstIsFewest(required: seq<WeightedUtxo>, optional: seq<WeightedUtxo>, rate: nat, target: nat,
                             drain: Script, r: Selection, w: nat, S: seq<WeightedUtxo>)
    requires IsGreedyIn(LargestFirstOrder, required, optional, rate, target, drain, r)
    requires forall u :: u in optional ==> u.satisfactionWeight == w
    requires multiset(S) <= multiset(optional) && Sufficient(rate, target, required + S)
    ensures r.Ok? && |r.value.selected| <= |required| + |S|
  {
    hide Sufficient, LargestFirstOrder;
    var ordered, k :| (
      && multiset(ordered) == multiset(optional) && LargestFirstOrder(ordered)
      && IsGreedyOutcome(required, ordered, k, rate, target, drain, r));
    PrefixIsFewest(required, optional, ordered, k, rate, target, drain, r, w, S);
  }
}
