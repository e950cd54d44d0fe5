/** Branch and bound coin selection with a greedy fallback. */
module CoinSelection {
  import opened Sequences
  import opened Coins
  import opened GreedySelection
  import opened BranchAndBound

  /** The step that settled a call. */
  datatype Path = Refused | RequiredOnly | Matched(complete: bool) | FellBack(cause: BnbError)

  function GroupsOf(rate: nat, us: seq<WeightedUtxo>): (gs: seq<OutputGroup>)
    ensures |gs| == |us| && forall i :: 0 <= i < |us| ==> gs[i] == NewOutputGroup(us[i], rate)
  {
    seq(|us|, i requires 0 <= i < |us| => NewOutputGroup(us[i], rate))
  }

  function Positive(rate: nat, us: seq<WeightedUtxo>): (r: seq<WeightedUtxo>)
    ensures multiset(r) <= multiset(us) && |r| <= |us|
    ensures forall u :: u in r ==> EffectiveAt(rate)(u) > 0
  {
    if us == [] then []
    else
      assert us == [us[0]] + us[1..];
      (if EffectiveAt(rate)(us[0]) > 0 then [us[0]] else []) + Positive(rate, us[1..])
  }

  /** Each coin is kept or left out on its own, as often as it is offered. */
  lemma {:induction false} PositiveCount(rate: nat, us: seq<WeightedUtxo>, u: WeightedUtxo)
    ensures multiset(Positive(rate, us))[u] == if EffectiveAt(rate)(u) > 0 then multiset(us)[u] else 0
  {
    hide EffectiveAt;
    if us != [] {
      PositiveCount(rate, us[1..], u);
      SplitFirst(us);
    }
  }

  lemma PositiveContained(rate: nat, us: seq<WeightedUtxo>, S: seq<WeightedUtxo>)
    ensures multiset(S) <= multiset(Positive(rate, us)) <==>
      multiset(S) <= multiset(us) && forall u :: u in S ==> EffectiveAt(rate)(u) > 0
  {
    hide EffectiveAt, Positive;
    forall u ensures multiset(Positive(rate, us))[u] == if EffectiveAt(rate)(u) > 0 then multiset(us)[u] else 0 {
      PositiveCount(rate, us, u);
    }
    forall u ensures u in S <==> multiset(S)[u] > 0 {
      assert u in S <==> u in multiset(S);
    }
  }

  /** No choice of offered coins is worth more than the useful ones. */
  lemma {:induction false} PickWorthAtMostUseful(rate: nat, us: seq<WeightedUtxo>, a: seq<bool>)
    requires |a| == |us|
    ensures EffectiveValue(rate, Pick(us, a)) <= EffectiveValue(rate, Positive(rate, us))
  {
    hide EffectiveAt, SumOf;
    if us == [] {
      NothingIsFree(rate);
    } else {
      var k := |us| - 1;
      var front, last, b := us[..k], us[k], a[..k];
      assert us == front + [last] && a == b + [a[k]];
      PickWorthAtMostUseful(rate, front, b);
      PickOfChild(front, last, b, a[k]);
      PositiveSnoc(rate, front, last);
      EffectiveOfAppend(rate, Pick(front, b), if a[k] then [last] else []);
      EffectiveOfAppend(rate, Positive(rate, front), if EffectiveAt(rate)(last) > 0 then [last] else []);
      NothingIsFree(rate);
      OneIsWorth(rate, last);
    }
  }

  lemma NothingIsFree(rate: nat)
    ensures EffectiveValue(rate, []) == 0
  {
  }

  lemma OneIsWorth(rate: nat, u: WeightedUtxo)
    ensures EffectiveValue(rate, [u]) == EffectiveAt(rate)(u)
  {
    SumOfCons(EffectiveAt(rate), u, []);
    assert [u] + [] == [u];
  }

  lemma {:induction false} PositiveSnoc(rate: nat, us: seq<WeightedUtxo>, u: WeightedUtxo)
    ensures Positive(rate, us + [u]) == Positive(rate, us) + if EffectiveAt(rate)(u) > 0 then [u] else []
  {
    hide EffectiveAt;
    if us == [] {
      assert [] + [u] == [u] && [u][1..] == [];
    } else {
      assert (us + [u])[0] == us[0] && (us + [u])[1..] == us[1..] + [u];
      PositiveSnoc(rate, us[1..], u);
    }
  }

  /** Some choice of offered coins reaches the target beside the required ones. */
  ghost predicate IsInReach(required: seq<WeightedUtxo>, optional: seq<WeightedUtxo>, rate: nat, target: nat) {
    exists S :: multiset(S) <= multiset(optional) && EffectiveValue(rate, required + S) >= target
  }

  lemma InReachIff(required: seq<WeightedUtxo>, optional: seq<WeightedUtxo>, rate: nat, target: nat)
    ensures IsInReach(required, optional, rate, target) <==>
      EffectiveValue(rate, required) + EffectiveValue(rate, Positive(rate, optional)) >= target
  {
    hide EffectiveAt, EffectiveValue, Positive;
    var useful := Positive(rate, optional);
    EffectiveOfAppend(rate, required, useful);
    PositiveContained(rate, optional, useful);
    if S :| multiset(S) <= multiset(optional) && EffectiveValue(rate, required + S) >= target {
      var a := ContainedIsPick(optional, S);
      PickWorthAtMostUseful(rate, optional, a);
      EffectiveOfPermutation(rate, Pick(optional, a), S);
      EffectiveOfAppend(rate, required, S);
    }
  }

  lemma EffectiveOfPermutation(rate: nat, us: seq<WeightedUtxo>, vs: seq<WeightedUtxo>)
    requires multiset(us) == multiset(vs)
    ensures EffectiveValue(rate, us) == EffectiveValue(rate, vs)
  {
    SumOfPermutation(EffectiveAt(rate), us, vs);
  }

  lemma {:induction false} PositiveKeepsValue(rate: nat, us: seq<WeightedUtxo>)
    requires forall u :: u in us ==> EffectiveAt(rate)(u) >= 0
    ensures EffectiveValue(rate, Positive(rate, us)) == EffectiveValue(rate, us)
  {
    if us != [] {
      PositiveKeepsValue(rate, us[1..]);
      SumOfAppend(EffectiveAt(rate), if EffectiveAt(rate)(us[0]) > 0 then [us[0]] else [], Positive(rate, us[1..]));
    }
  }

  lemma {:induction false} GroupSums(rate: nat, us: seq<WeightedUtxo>)
    ensures SumOf(GroupValue, GroupsOf(rate, us)) == EffectiveValue(rate, us)
    ensures SumOf(GroupFee, GroupsOf(rate, us)) == InputFees(rate, us)
  {
    if us != [] {
      assert GroupsOf(rate, us)[1..] == GroupsOf(rate, us[1..]);
      GroupSums(rate, us[1..]);
    }
  }

  /** Grouping keeps multiplicities. */
  lemma {:induction false} GroupCount(rate: nat, us: seq<WeightedUtxo>, u: WeightedUtxo)
    ensures multiset(GroupsOf(rate, us))[NewOutputGroup(u, rate)] == multiset(us)[u]
  {
    if us != [] {
      SplitFirst(GroupsOf(rate, us));
      SplitFirst(us);
      assert GroupsOf(rate, us)[1..] == GroupsOf(rate, us[1..]);
      GroupCount(rate, us[1..], u);
    }
  }

  lemma GroupsContained(rate: nat, S: seq<WeightedUtxo>, us: seq<WeightedUtxo>)
    requires multiset(S) <= multiset(us)
    ensures multiset(GroupsOf(rate, S)) <= multiset(GroupsOf(rate, us))
  {
    forall g ensures multiset(GroupsOf(rate, S))[g] <= multiset(GroupsOf(rate, us))[g] {
      if g in GroupsOf(rate, S) {
        GroupCount(rate, S, g.weightedUtxo);
        GroupCount(rate, us, g.weightedUtxo);
      }
    }
  }

  lemma UngroupContained(rate: nat, gs: seq<OutputGroup>, us: seq<WeightedUtxo>)
    requires multiset(gs) <= multiset(GroupsOf(rate, us))
    ensures gs == GroupsOf(rate, Utxos(gs)) && multiset(Utxos(gs)) <= multiset(us)
  {
    ContainedElements(gs, GroupsOf(rate, us));
    assert forall i :: 0 <= i < |gs| ==> gs[i] in gs;
    assert gs == GroupsOf(rate, Utxos(gs));
    forall u ensures multiset(Utxos(gs))[u] <= multiset(us)[u] {
      GroupCount(rate, Utxos(gs), u);
      GroupCount(rate, us, u);
    }
  }

  /** Offered coins of positive effective value that together with the required ones land in the changeless band. */
  ghost predicate Changeless(required: seq<WeightedUtxo>, optional: seq<WeightedUtxo>, rate: nat, target: nat,
                             costOfChange: nat, S: seq<WeightedUtxo>)
  {
    && multiset(S) <= multiset(optional) && (forall u :: u in S ==> EffectiveAt(rate)(u) > 0)
    && target <= EffectiveValue(rate, required) + EffectiveValue(rate, S) <= target + costOfChange
  }

  lemma ChangelessHitsBand(required: seq<WeightedUtxo>, optional: seq<WeightedUtxo>, rate: nat, target: nat,
                           costOfChange: nat, S: seq<WeightedUtxo>)
    requires Changeless(required, optional, rate, target, costOfChange, S)
    ensures HitsBand(GroupsOf(rate, Positive(rate, optional)), EffectiveValue(rate, required), target, costOfChange,
                     GroupsOf(rate, S))
    ensures SumOf(GroupValue, GroupsOf(rate, S)) == EffectiveValue(rate, S)
  {
    PositiveContained(rate, optional, S);
    GroupsContained(rate, S, Positive(rate, optional));
    GroupSums(rate, S);
  }

  lemma NoHitMeansNotChangeless(required: seq<WeightedUtxo>, optional: seq<WeightedUtxo>, rate: nat, target: nat, costOfChange: nat)
    requires forall gs :: !HitsBand(GroupsOf(rate, Positive(rate, optional)), EffectiveValue(rate, required), target, costOfChange, gs)
    ensures forall S :: !Changeless(required, optional, rate, target, costOfChange, S)
  {
    forall S | Changeless(required, optional, rate, target, costOfChange, S)
      ensures false
    {
      ChangelessHitsBand(required, optional, rate, target, costOfChange, S);
    }
  }

  lemma LeastHitIsLeastChangeless(required: seq<WeightedUtxo>, optional: seq<WeightedUtxo>, rate: nat, target: nat,
                                  costOfChange: nat, least: int)
    requires forall gs ::
      HitsBand(GroupsOf(rate, Positive(rate, optional)), EffectiveValue(rate, required), target, costOfChange, gs) ==>
        least <= SumOf(GroupValue, gs)
    ensures forall S :: Changeless(required, optional, rate, target, costOfChange, S) ==> least <= EffectiveValue(rate, S)
  {
    forall S | Changeless(required, optional, rate, target, costOfChange, S)
      ensures least <= EffectiveValue(rate, S)
    {
      ChangelessHitsBand(required, optional, rate, target, costOfChange, S);
    }
  }

  /** A result computed from effective values is sound: per-input fees account for every satoshi. */
  lemma EffectiveResultIsSound(required: seq<WeightedUtxo>, optional: seq<WeightedUtxo>, chosen: seq<WeightedUtxo>,
                               rate: nat, target: nat, drain: Script, r: CoinSelectionResult)
    requires multiset(chosen) <= multiset(optional)
    requires EffectiveValue(rate, required + chosen) >= target
    requires r == CalculateCsResult(GroupsOf(rate, chosen), GroupsOf(rate, required),
                                    DecideChange(EffectiveValue(rate, required + chosen) - target, rate, drain))
    ensures IsSound(required, optional, rate, target, drain, r)
    ensures r.selected == required + chosen && r.feeAmount == InputFees(rate, required + chosen)
  {
    var us := required + chosen;
    hide SumOf, EffectiveValue, Fee, InputFees, TotalWeight, TotalValue;
    assert GroupsOf(rate, required) + GroupsOf(rate, chosen) == GroupsOf(rate, us);
    assert Utxos(GroupsOf(rate, us)) == us;
    GroupSums(rate, us);
    EffectiveIsValueLessFees(rate, us);
    RoundingBound(rate, us);
    assert us[..|required|] == required && us[|required|..] == chosen;
  }

  /** What each path means, what it returns, and what sent the call there. */
  ghost predicate IsOutcome(required: seq<WeightedUtxo>, optional: seq<WeightedUtxo>, rate: nat, target: nat, drain: Script,
                            sizeOfChange: nat, fallback: Algorithm, r: Selection, path: Path)
  {
    var useful := Positive(rate, optional);
    var inReach := EffectiveValue(rate, required) + EffectiveValue(rate, useful) >= target;
    var costOfChange := Fee(rate, 4 * sizeOfChange);
    match path
    case Refused =>
      && !inReach
      && r == Err(InsufficientFunds(target + InputFees(rate, required + useful), TotalValue(required + useful)))
    case RequiredOnly =>
      && EffectiveValue(rate, required) > target
      && r.Ok? && r.value.selected == required
    case Matched(complete) =>
      && inReach && EffectiveValue(rate, required) < target
      && r.Ok?
      && (exists S :: Changeless(required, optional, rate, target, costOfChange, S) && r.value.selected == required + S)
      // a match spends no more above the target than any other changeless choice
      && (complete ==> forall S :: Changeless(required, optional, rate, target, costOfChange, S) ==>
            EffectiveValue(rate, r.value.selected) <= EffectiveValue(rate, required) + EffectiveValue(rate, S))
      && (|useful| <= 15 ==> complete)
    case FellBack(cause) =>
      && inReach && EffectiveValue(rate, required) <= target
      && IsGreedyIn(OrderOf(fallback), required, optional, rate, target, drain, r)
      && (cause.NoExactMatch? ==> forall S :: !Changeless(required, optional, rate, target, costOfChange, S))
      // the equal case always falls back; otherwise at most 15 useful coins never exhaust the tries
      && (EffectiveValue(rate, required) == target ==> cause.TotalTriesExceeded?)
      && (EffectiveValue(rate, required) < target && |useful| <= 15 ==> cause.NoExactMatch?)
  }

  method BranchAndBoundSelect(required: seq<WeightedUtxo>, optional: seq<WeightedUtxo>, rate: nat, target: nat,
                              drain: Script, sizeOfChange: nat, fallback: Algorithm)
    returns (r: Selection, ghost path: Path)
    ensures IsOutcome(required, optional, rate, target, drain, sizeOfChange, fallback, r, path)
    ensures path.Refused? <==> !IsInReach(required, optional, rate, target)
    ensures path.RequiredOnly? <==> EffectiveValue(rate, required) > target
    // whichever path is taken, the result is sound, and a refusal is justified by its own figures
    ensures r.Ok? ==> IsSound(required, optional, rate, target, drain, r.value)
    ensures r.Err? ==> r.error.available < r.error.needed
    // refusals
    ensures EffectiveValue(rate, required) >= target ==> r.Ok?
    ensures r.Err? && !path.Refused? ==>
      var all := required + optional;
      && !Sufficient(rate, target, required) && !Sufficient(rate, target, all)
      && r.error == InsufficientFunds(target + Fee(rate, TotalWeight(all)), TotalValue(all))
    ensures (forall u :: u in optional ==> EffectiveAt(rate)(u) >= 0) ==>
      (r.Err? <==> EffectiveValue(rate, required + optional) < target)
    // changelessness
    ensures r.Ok? && path.Matched? && DrainOutputLength(drain) >= sizeOfChange && drain.minimalNonDust > 0 ==>
      r.value.excess.NoChange?
  {
    hide GroupsOf, EffectiveValue, EffectiveAt, SumOf, GroupValue, GroupFee, Positive, Fee, InputFees, TotalValue, TotalWeight, IsSound,
      Changeless, HitsBand, IsInReach, IsGreedyIn, OrderOf, Sufficient, CalculateCsResult, DecideChange, DrainOutputLength, Utxos;
    var useful := Positive(rate, optional);
    var requiredGroups := GroupsOf(rate, required);
    var optionalGroups := GroupsOf(rate, useful);
    var currValue := SumOf(GroupValue, requiredGroups);
    var currAvailable := SumOf(GroupValue, optionalGroups);
    var costOfChange := Fee(rate, 4 * sizeOfChange);
    GroupSums(rate, required);
    GroupSums(rate, useful);
    UsefulFacts(rate, required, optional);
    InReachIff(required, optional, rate, target);

    if currAvailable + currValue < target {
      path := Refused;
      var spent := required + useful;
      GroupSums(rate, spent);
      EffectiveIsValueLessFees(rate, spent);
      return Err(InsufficientFunds(target + InputFees(rate, spent), TotalValue(spent))), path;
    }

    if currValue > target {
      path := RequiredOnly;
      var result := CalculateCsResult([], requiredGroups, DecideChange(currValue - target, rate, drain));
      RequiredOnlyIsSound(required, optional, rate, target, drain, result);
      return Ok(result), path;
    }

    ghost var chosen, complete, tries;
    var found;
    found, chosen, complete, tries := Bnb(requiredGroups, optionalGroups, currValue, currAvailable, target, costOfChange, drain, rate);
    if found.Ok? {
      path := Matched(complete);
      r := Ok(found.value);
      MatchIsSound(required, optional, chosen, rate, target, drain, sizeOfChange, found.value);
      if complete {
        LeastHitIsLeastChangeless(required, optional, rate, target, costOfChange, SumOf(GroupValue, chosen));
      }
      return;
    }
    path := FellBack(found.error);
    if found.error.NoExactMatch? {
      NoHitMeansNotChangeless(required, optional, rate, target, costOfChange);
    }
    r := GreedySelect(fallback, required, optional, rate, target, drain);
    FallbackOutcome(OrderOf(fallback), required, optional, rate, target, drain, r);
  }

  lemma UsefulFacts(rate: nat, required: seq<WeightedUtxo>, optional: seq<WeightedUtxo>)
    ensures forall g :: g in GroupsOf(rate, Positive(rate, optional)) ==> 0 <= GroupValue(g)
    ensures EffectiveValue(rate, Positive(rate, optional)) >= 0
    ensures EffectiveValue(rate, required + Positive(rate, optional))
         == EffectiveValue(rate, required) + EffectiveValue(rate, Positive(rate, optional))
    ensures EffectiveValue(rate, required + optional)
         == EffectiveValue(rate, required) + EffectiveValue(rate, optional)
    ensures (forall u :: u in optional ==> EffectiveAt(rate)(u) >= 0) ==>
      EffectiveValue(rate, Positive(rate, optional)) == EffectiveValue(rate, optional)
  {
    hide SumOf;
    var useful := Positive(rate, optional);
    forall g | g in GroupsOf(rate, useful) ensures 0 <= GroupValue(g) {
      var i :| 0 <= i < |useful| && g == NewOutputGroup(useful[i], rate);
      assert useful[i] in useful;
    }
    SumOfNonNegative(EffectiveAt(rate), useful);
    EffectiveOfAppend(rate, required, useful);
    EffectiveOfAppend(rate, required, optional);
    if forall u :: u in optional ==> EffectiveAt(rate)(u) >= 0 {
      PositiveKeepsValue(rate, optional);
    }
  }

  lemma RequiredOnlyIsSound(required: seq<WeightedUtxo>, optional: seq<WeightedUtxo>, rate: nat, target: nat,
                            drain: Script, r: CoinSelectionResult)
    requires EffectiveValue(rate, required) >= target
    requires r == CalculateCsResult([], GroupsOf(rate, required),
                                    DecideChange(EffectiveValue(rate, required) - target, rate, drain))
    ensures IsSound(required, optional, rate, target, drain, r)
    ensures r.selected == required
  {
    assert required + [] == required;
    assert GroupsOf(rate, []) == [];
    EffectiveResultIsSound(required, optional, [], rate, target, drain, r);
  }

  lemma MatchIsSound(required: seq<WeightedUtxo>, optional: seq<WeightedUtxo>, groups: seq<OutputGroup>, rate: nat,
                     target: nat, drain: Script, sizeOfChange: nat, r: CoinSelectionResult)
    requires HitsBand(GroupsOf(rate, Positive(rate, optional)), EffectiveValue(rate, required), target,
                      Fee(rate, 4 * sizeOfChange), groups)
    requires r == CalculateCsResult(groups, GroupsOf(rate, required),
                                    DecideChange(EffectiveValue(rate, required) + SumOf(GroupValue, groups) - target, rate, drain))
    ensures IsSound(required, optional, rate, target, drain, r)
    ensures Changeless(required, optional, rate, target, Fee(rate, 4 * sizeOfChange), Utxos(groups))
    ensures r.selected == required + Utxos(groups)
    ensures EffectiveValue(rate, r.selected) == EffectiveValue(rate, required) + SumOf(GroupValue, groups)
    ensures DrainOutputLength(drain) >= sizeOfChange && drain.minimalNonDust > 0 ==> r.excess.NoChange?
  {
    hide SumOf, EffectiveValue, Fee, Positive, IsSound;
    var chosen := Utxos(groups);
    UngroupContained(rate, groups, Positive(rate, optional));
    PositiveContained(rate, optional, chosen);
    GroupSums(rate, chosen);
    EffectiveOfAppend(rate, required, chosen);
    EffectiveResultIsSound(required, optional, chosen, rate, target, drain, r);
    if DrainOutputLength(drain) >= sizeOfChange {
      var extra := 4 * (DrainOutputLength(drain) - sizeOfChange);
      assert 4 * DrainOutputLength(drain) == 4 * sizeOfChange + extra;
      FeeOfParts(rate, 4 * sizeOfChange, extra);
      FeeMonotone(rate, 4 * sizeOfChange, extra);
    }
  }

  lemma FeeMonotone(rate: nat, w: nat, extra: nat)
    ensures Fee(rate, w) <= Fee(rate, w + extra)
  {
    FeeBounds(rate, w);
    FeeBounds(rate, w + extra);
    FeeCoveredIff(rate, w, Fee(rate, w + extra));
    assert rate * (w + extra) == rate * w + rate * extra;
  }

  lemma FallbackOutcome(isOrder: seq<WeightedUtxo> -> bool, required: seq<WeightedUtxo>, optional: seq<WeightedUtxo>,
                        rate: nat, target: nat, drain: Script, r: Selection)
    requires IsGreedyIn(isOrder, required, optional, rate, target, drain, r)
    ensures r.Ok? ==> IsSound(required, optional, rate, target, drain, r.value)
    ensures r.Err? ==> r.error.available < r.error.needed
    ensures r.Err? ==> !Sufficient(rate, target, required) && !Sufficient(rate, target, required + optional)
    ensures r.Err? ==>
      r.error == InsufficientFunds(target + Fee(rate, TotalWeight(required + optional)), TotalValue(required + optional))
    ensures EffectiveValue(rate, required) >= target ==> r.Ok?
    ensures EffectiveValue(rate, required + optional) >= target ==> r.Ok?
  {
    hide IsSound, Sufficient, EffectiveValue, Fee, TotalWeight, TotalValue;
    var ordered, k :| (
      && multiset(ordered) == multiset(optional) && isOrder(ordered)
      && IsGreedyOutcome(required, ordered, k, rate, target, drain, r));
    GreedyOutcomeIsSound(required, optional, ordered, k, rate, target, drain, r);
    if r.Err? {
      assert Exhausts(rate, target, required, ordered);
      SomeOrderFailsIff(rate, target, required, optional);
    }
    if EffectiveValue(rate, required) >= target {
      EffectiveSuffices(rate, target, required);
    }
    if EffectiveValue(rate, required + optional) >= target {
      EffectiveSuffices(rate, target, required + optional);
    }
  }

  /**
   * With the random draw as fallback and at most 15 useful coins, the call can refuse exactly when the
   * effective values miss the target, or when the required coins are below it, no choice is changeless, and
   * neither the required coins nor all coins suffice.
   */
  lemma RandomDrawRefusesIff(required: seq<WeightedUtxo>, optional: seq<WeightedUtxo>, rate: nat, target: nat, drain: Script,
                             sizeOfChange: nat)
    requires |Positive(rate, optional)| <= 15
    ensures (exists r, path ::
               IsOutcome(required, optional, rate, target, drain, sizeOfChange, SingleRandomDrawAlgorithm, r, path) && r.Err?)
       <==>
         || !IsInReach(required, optional, rate, target)
         || (&& EffectiveValue(rate, required) < target
             && (forall S :: !Changeless(required, optional, rate, target, Fee(rate, 4 * sizeOfChange), S))
             && !Sufficient(rate, target, required) && !Sufficient(rate, target, required + optional))
  {
    hide EffectiveValue, Positive, Changeless, IsGreedyIn, Fee, InputFees, TotalValue, Sufficient, IsInReach;
    InReachIff(required, optional, rate, target);
    if r, path :| IsOutcome(required, optional, rate, target, drain, sizeOfChange, SingleRandomDrawAlgorithm, r, path) && r.Err? {
      if path.FellBack? {
        FallbackOutcome(AnyOrder, required, optional, rate, target, drain, r);
      }
    }
    if EffectiveValue(rate, required) + EffectiveValue(rate, Positive(rate, optional)) < target {
      var spent := required + Positive(rate, optional);
      var r: Selection := Err(InsufficientFunds(target + InputFees(rate, spent), TotalValue(spent)));
      assert IsOutcome(required, optional, rate, target, drain, sizeOfChange, SingleRandomDrawAlgorithm, r, Refused);
    } else if (
      && EffectiveValue(rate, required) < target
      && (forall S :: !Changeless(required, optional, rate, target, Fee(rate, 4 * sizeOfChange), S))
      && !Sufficient(rate, target, required) && !Sufficient(rate, target, required + optional))
    {
      var r := RefusingDraw(required, optional, rate, target, drain);
      assert IsOutcome(required, optional, rate, target, drain, sizeOfChange, SingleRandomDrawAlgorithm, r, FellBack(NoExactMatch));
    }
  }

  lemma RefusingDraw(required: seq<WeightedUtxo>, optional: seq<WeightedUtxo>, rate: nat, target: nat, drain: Script)
    returns (r: Selection)
    requires !Sufficient(rate, target, required) && !Sufficient(rate, target, required + optional)
    ensures r.Err? && IsGreedyIn(AnyOrder, required, optional, rate, target, drain, r)
  {
    hide Sufficient, Settle;
    SomeOrderFailsIff(rate, target, required, optional);
    var ordered :| multiset(ordered) == multiset(optional) && Exhausts(rate, target, required, ordered);
    r := Settle(required + ordered[..|ordered|], rate, target, drain);
    assert IsGreedyOutcome(required, ordered, |ordered|, rate, target, drain, r);
    GreedyOutcomeIsSound(required, optional, ordered, |ordered|, rate, target, drain, r);
  }

  lemma ContainedInOne(S: seq<WeightedUtxo>, u: WeightedUtxo)
    requires multiset(S) <= multiset([u])
    ensures S == [] || S == [u]
  {
    ContainedElements(S, [u]);
    if |S| >= 2 {
      assert S[0] in S && S[1] in S;
      TwiceCounts(S, 0, 1);
    }
  }

  lemma OnlyChoiceOvershoots(good: WeightedUtxo, heavy: WeightedUtxo)
    requires EffectiveAt(1000)(good) == 9_800 && EffectiveAt(1000)(heavy) == -20_000
    ensures EffectiveValue(1000, Positive(1000, [good, heavy])) == 9_800
    ensures forall S :: !Changeless([], [good, heavy], 1000, 9_000, Fee(1000, 4 * 31), S)
  {
    assert [good, heavy][1..] == [heavy] && [heavy][1..] == [];
    assert Positive(1000, [good, heavy]) == [good];
    SumOfCons(EffectiveAt(1000), good, []);
    assert [good] + [] == [good];
    forall S | Changeless([], [good, heavy], 1000, 9_000, Fee(1000, 4 * 31), S) ensures S == [] || S == [good] {
      PositiveContained(1000, [good, heavy], S);
      ContainedInOne(S, good);
    }
  }

  lemma MilliFigures(good: WeightedUtxo, heavy: WeightedUtxo)
    requires MilliAt(1000)(good) == 9_800_000 && MilliAt(1000)(heavy) == -20_000_000
    ensures Sufficient(1000, 9_000, [good]) && Exhausts(1000, 9_000, [], [heavy, good])
  {
    hide Sufficient, MilliAt;
    SumOfCons(MilliAt(1000), good, []);
    SumOfCons(MilliAt(1000), heavy, []);
    SumOfCons(MilliAt(1000), heavy, [good]);
    assert [good] + [] == [good] && [heavy] + [] == [heavy] && [heavy] + [good] == [heavy, good];
    SufficientIff(1000, 9_000, [good]);
    forall j | 0 <= j <= 2 ensures !Sufficient(1000, 9_000, [] + [heavy, good][..j]) {
      var us := [] + [heavy, good][..j];
      assert us == if j == 0 then [] else if j == 1 then [heavy] else [heavy, good];
      SufficientIff(1000, 9_000, us);
    }
  }

  /**
   * A coin that costs more than it brings can make the whole call refuse: the effective values reach the
   * target, no choice is changeless, so the fallback runs, and largest first stops at neither coin, although
   * the other coin alone is sufficient. The change output measures 31 bytes.
   */
  lemma FallbackMayRefuseExample()
    ensures
      var good := WeightedUtxo(35, Local(OutPoint(1, 0), 10_000, External, 1));
      var heavy := WeightedUtxo(39_835, Local(OutPoint(2, 0), 20_000, External, 1));
      && EffectiveAt(1000)(good) == 9_800 && EffectiveAt(1000)(heavy) == -20_000
      && Sufficient(1000, 9_000, [good])
      && EffectiveValue(1000, []) + EffectiveValue(1000, Positive(1000, [good, heavy])) >= 9_000
      && (forall S :: !Changeless([], [good, heavy], 1000, 9_000, Fee(1000, 4 * 31), S))
      && Descending(ValueOf, [heavy, good]) && Exhausts(1000, 9_000, [], [heavy, good])
  {
    var good := WeightedUtxo(35, Local(OutPoint(1, 0), 10_000, External, 1));
    var heavy := WeightedUtxo(39_835, Local(OutPoint(2, 0), 20_000, External, 1));
    hide Sufficient, Exhausts, Changeless, Positive, SumOf;
    OnlyChoiceOvershoots(good, heavy);
    MilliFigures(good, heavy);
  }
}
