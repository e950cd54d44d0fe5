/** Spending policies: how they are built, what they can contribute, and what a path through them asks for. */
module Policies {
  import opened Sequences
  import opened Enumeration
  import opened Conditions
  import opened Satisfactions

  datatype Item =
    | Signature(key: nat)
    | Preimage(hash: nat)
    | AbsoluteTimelock(lockTime: LockTime)
    | RelativeTimelock(sequence: Sequence)
    | Multisig(keys: seq<nat>, required: nat)
    | Thresh(items: seq<Policy>, threshold: nat)

  datatype Policy = Policy(id: nat, item: Item, satisfaction: Satisfaction, contribution: Satisfaction)

  // ---------------------------------------------------------------- building

  /** The partial satisfaction after adding the children one after the other. */
  ghost function Gathered(n: nat, m: nat, sorted: Option<bool>, cs: seq<Satisfaction>): (s: Satisfaction)
    ensures s.Partial? && s.n == n && s.m == m && s.sorted == sorted
  {
    if cs == [] then Partial(n, m, [], sorted, map[])
    else Added(Gathered(n, m, sorted, cs[..|cs| - 1]), cs[|cs| - 1], |cs| - 1)
  }

  /** The gathered items are the completed children in index order, each with its own conditions. */
  lemma {:induction false} GatheredItems(n: nat, m: nat, sorted: Option<bool>, cs: seq<Satisfaction>)
    ensures var s := Gathered(n, m, sorted, cs);
      && (forall i: nat :: i in s.items <==> i < |cs| && IsCompleted(cs[i]))
      && (forall j, k :: 0 <= j < k < |s.items| ==> s.items[j] < s.items[k])
      && (forall i: nat :: i in s.items ==> ConditionsAt(s.conditions, i) == ConditionsOf(cs[i]))
  {
    if cs != [] {
      var k := |cs| - 1;
      GatheredItems(n, m, sorted, cs[..k]);
      var before, after := Gathered(n, m, sorted, cs[..k]), Gathered(n, m, sorted, cs);
      assert forall j :: 0 <= j < |before.items| ==> before.items[j] in before.items;
      forall i: nat ensures i in after.items <==> i < |cs| && IsCompleted(cs[i]) {
        assert i < k ==> cs[..k][i] == cs[i];
      }
    }
  }

  function Contributions(items: seq<Policy>): (cs: seq<Satisfaction>)
    ensures |cs| == |items| && forall i :: 0 <= i < |cs| ==> cs[i] == items[i].contribution
  {
    seq(|items|, i requires 0 <= i < |items| => items[i].contribution)
  }

  function SatisfactionsOf(items: seq<Policy>): (cs: seq<Satisfaction>)
    ensures |cs| == |items| && forall i :: 0 <= i < |cs| ==> cs[i] == items[i].satisfaction
  {
    seq(|items|, i requires 0 <= i < |items| => items[i].satisfaction)
  }

  function SignedBy(keys: seq<nat>, signers: set<nat>): (cs: seq<Satisfaction>)
    ensures |cs| == |keys|
    ensures forall i :: 0 <= i < |cs| ==>
      cs[i] == if keys[i] in signers then Complete(NO_CONDITION) else NoSatisfaction
  {
    seq(|keys|, i requires 0 <= i < |keys| => if keys[i] in signers then Complete(NO_CONDITION) else NoSatisfaction)
  }

  method MakeThresh(id: nat, items: seq<Policy>, threshold: nat) returns (r: Result<Option<Policy>, PolicyError>)
    ensures threshold == 0 ==> r == Ok(None)
    ensures threshold > 0 ==>
      && r.Ok? && r.value.Some? && r.value.value.id == id && r.value.value.item == Thresh(items, threshold)
      && IsFinalized(Gathered(|items|, threshold, None, Contributions(items)), r.value.value.contribution)
      && IsFinalized(Gathered(|items|, threshold, None, SatisfactionsOf(items)), r.value.value.satisfaction)
    ensures threshold > 0 ==> forall signers ::
      (forall i :: 0 <= i < |items| ==> IsBuilt(items[i], signers)) ==> IsBuilt(r.value.value, signers)
  {
    if threshold == 0 {
      return Ok(None);
    }
    var contribution := new SatisfactionBuilder(|items|, threshold, None);
    var satisfaction := new SatisfactionBuilder(|items|, threshold, None);
    for index := 0 to |items|
      invariant fresh(contribution) && fresh(satisfaction) && contribution != satisfaction
      invariant contribution.value == Gathered(|items|, threshold, None, Contributions(items)[..index])
      invariant satisfaction.value == Gathered(|items|, threshold, None, SatisfactionsOf(items)[..index])
    {
      GatherNext(|items|, threshold, None, Contributions(items), index);
      GatherNext(|items|, threshold, None, SatisfactionsOf(items), index);
      var added := contribution.Add(items[index].contribution, index);
      assert added.Ok?;
      added := satisfaction.Add(items[index].satisfaction, index);
      assert added.Ok?;
    }
    assert Contributions(items)[..|items|] == Contributions(items);
    assert SatisfactionsOf(items)[..|items|] == SatisfactionsOf(items);
    contribution.Finalize();
    satisfaction.Finalize();
    return Ok(Some(Policy(id, Thresh(items, threshold), satisfaction.value, contribution.value)));
  }

  lemma GatherNext(n: nat, m: nat, sorted: Option<bool>, cs: seq<Satisfaction>, index: nat)
    requires index < |cs| <= n
    ensures var s := Gathered(n, m, sorted, cs[..index]);
      && index < n && index !in s.items
      && Gathered(n, m, sorted, cs[..index + 1]) == Added(s, cs[index], index)
  {
    GatheredItems(n, m, sorted, cs[..index]);
    assert cs[..index + 1][..index] == cs[..index];
  }

  method MakeAnd(id: nat, a: Option<Policy>, b: Option<Policy>) returns (r: Result<Option<Policy>, PolicyError>)
    ensures a.None? ==> r == Ok(b)
    ensures b.None? ==> r == Ok(a)
    ensures a.Some? && b.Some? ==>
      && r.Ok? && r.value.Some? && r.value.value.id == id && r.value.value.item == Thresh([a.value, b.value], 2)
      && IsFinalized(Gathered(2, 2, None, Contributions([a.value, b.value])), r.value.value.contribution)
      && IsFinalized(Gathered(2, 2, None, SatisfactionsOf([a.value, b.value])), r.value.value.satisfaction)
      && forall signers :: IsBuilt(a.value, signers) && IsBuilt(b.value, signers) ==> IsBuilt(r.value.value, signers)
  {
    if a.Some? && b.Some? {
      r := MakeThresh(id, [a.value, b.value], 2);
    } else {
      r := Ok(if a.Some? then a else b);
    }
  }

  method MakeOr(id: nat, a: Option<Policy>, b: Option<Policy>) returns (r: Result<Option<Policy>, PolicyError>)
    ensures a.None? ==> r == Ok(b)
    ensures b.None? ==> r == Ok(a)
    ensures a.Some? && b.Some? ==>
      && r.Ok? && r.value.Some? && r.value.value.id == id && r.value.value.item == Thresh([a.value, b.value], 1)
      && IsFinalized(Gathered(2, 1, None, Contributions([a.value, b.value])), r.value.value.contribution)
      && IsFinalized(Gathered(2, 1, None, SatisfactionsOf([a.value, b.value])), r.value.value.satisfaction)
      && forall signers :: IsBuilt(a.value, signers) && IsBuilt(b.value, signers) ==> IsBuilt(r.value.value, signers)
  {
    if a.Some? && b.Some? {
      r := MakeThresh(id, [a.value, b.value], 1);
    } else {
      r := Ok(if a.Some? then a else b);
    }
  }

  /** `found` are the keys whose signature is already in the transaction. */
  method MakeMulti(id: nat, keys: seq<nat>, threshold: nat, signers: set<nat>, found: set<nat>, sorted: bool)
    returns (r: Result<Option<Policy>, PolicyError>)
    ensures r.Ok? && r.value.Some? && r.value.value.id == id && r.value.value.item == Multisig(keys, threshold)
      && IsFinalized(Gathered(|keys|, threshold, Some(sorted), SignedBy(keys, signers)), r.value.value.contribution)
      && IsFinalized(Gathered(|keys|, threshold, Some(sorted), SignedBy(keys, found)), r.value.value.satisfaction)
    ensures threshold > 0 ==> IsBuilt(r.value.value, signers)
  {
    var contribution := new SatisfactionBuilder(|keys|, threshold, Some(sorted));
    var satisfaction := new SatisfactionBuilder(|keys|, threshold, Some(sorted));
    for index := 0 to |keys|
      invariant fresh(contribution) && fresh(satisfaction) && contribution != satisfaction
      invariant contribution.value == Gathered(|keys|, threshold, Some(sorted), SignedBy(keys, signers)[..index])
      invariant satisfaction.value == Gathered(|keys|, threshold, Some(sorted), SignedBy(keys, found)[..index])
    {
      GatherNext(|keys|, threshold, Some(sorted), SignedBy(keys, signers), index);
      GatherNext(|keys|, threshold, Some(sorted), SignedBy(keys, found), index);
      if keys[index] in signers {
        var added := contribution.Add(Complete(NO_CONDITION), index);
        assert added.Ok?;
      }
      if keys[index] in found {
        var added := satisfaction.Add(Complete(NO_CONDITION), index);
        assert added.Ok?;
      }
    }
    assert SignedBy(keys, signers)[..|keys|] == SignedBy(keys, signers);
    assert SignedBy(keys, found)[..|keys|] == SignedBy(keys, found);
    satisfaction.Finalize();
    contribution.Finalize();
    return Ok(Some(Policy(id, Multisig(keys, threshold), satisfaction.value, contribution.value)));
  }

  // ---------------------------------------------------------------- what a policy can contribute

  /** Built bottom-up by the functions above for a wallet that can sign with `signers`. */
  ghost predicate IsBuilt(p: Policy, signers: set<nat>) {
    match p.item
    case Signature(key) => p.contribution == if key in signers then Complete(NO_CONDITION) else NoSatisfaction
    case Preimage(_) => p.contribution == NoSatisfaction
    case AbsoluteTimelock(v) => p.contribution == Complete(Condition(None, Some(v)))
    case RelativeTimelock(v) => p.contribution == Complete(Condition(Some(v), None))
    case Multisig(keys, k) =>
      k > 0 && exists sorted :: IsFinalized(Gathered(|keys|, k, sorted, SignedBy(keys, signers)), p.contribution)
    case Thresh(items, k) =>
      && k > 0 && (forall i :: 0 <= i < |items| ==> IsBuilt(items[i], signers))
      && IsFinalized(Gathered(|items|, k, None, Contributions(items)), p.contribution)
  }

  /**
   * The meaning of a policy tree: the wallet can satisfy it under condition `c`. A threshold is met by
   * choosing that many children and one condition of each, all compatible; the result is their merge.
   */
  ghost predicate Achieves(p: Policy, signers: set<nat>, c: Condition) {
    match p.item
    case Signature(key) => key in signers && c == NO_CONDITION
    case Preimage(_) => false
    case AbsoluteTimelock(v) => c == Condition(None, Some(v))
    case RelativeTimelock(v) => c == Condition(Some(v), None)
    case Multisig(keys, k) =>
      c == NO_CONDITION && EnoughKeys(keys, k, signers)
    case Thresh(items, k) =>
      exists key, choice: seq<Condition> ::
        && IsSelection(key, |items|, k) && |choice| == k
        && (forall j :: 0 <= j < k ==> Achieves(items[key[j]], signers, choice[j]))
        && MergeAll(choice) == Ok(c)
  }

  ghost predicate EnoughKeys(keys: seq<nat>, k: nat, signers: set<nat>) {
    exists key :: IsSelection(key, |keys|, k) && forall j :: 0 <= j < k ==> keys[key[j]] in signers
  }

  /** Choosing among the completed children only is choosing among all children with completed ones. */
  lemma CompletedCombination(cs: seq<Satisfaction>, items: seq<nat>, m: nat, key: seq<nat>)
    requires forall i: nat :: i in items <==> i < |cs| && IsCompleted(cs[i])
    requires forall j, k :: 0 <= j < k < |items| ==> items[j] < items[k]
    ensures IsCombination(items, m, key) <==>
      IsSelection(key, |cs|, m) && forall j :: 0 <= j < |key| ==> IsCompleted(cs[key[j]])
  {
    if IsCombination(items, m, key) {
      var p :| IsSelection(p, |items|, m) && key == At(items, p);
      forall j | 0 <= j < |key| ensures key[j] in items {
        assert key[j] == items[p[j]];
      }
    }
    if IsSelection(key, |cs|, m) && forall j :: 0 <= j < |key| ==> IsCompleted(cs[key[j]]) {
      var p: seq<nat> := [];
      while |p| < |key|
        invariant |p| <= |key|
        invariant forall j :: 0 <= j < |p| ==> p[j] < |items| && items[p[j]] == key[j]
      {
        assert key[|p|] in items;
        var x :| 0 <= x < |items| && items[x] == key[|p|];
        p := p + [x];
      }
      forall i, j | 0 <= i < j < |p| ensures p[i] < p[j] {
        assert key[i] < key[j];
      }
      assert key == At(items, p);
    }
  }

  /** `key` selects m children and `choice` one condition of each. */
  ghost predicate Selects(cs: seq<Satisfaction>, m: nat, key: seq<nat>, choice: seq<Condition>) {
    && IsSelection(key, |cs|, m) && |choice| == m
    && forall j :: 0 <= j < m ==> choice[j] in ConditionsOf(cs[key[j]])
  }

  lemma RecordedIsSelected(n: nat, m: nat, sorted: Option<bool>, cs: seq<Satisfaction>, after: Satisfaction, c: Condition)
    returns (key: seq<nat>, choice: seq<Condition>)
    requires m > 0 && IsFinalized(Gathered(n, m, sorted, cs), after) && c in ConditionsOf(after)
    ensures Selects(cs, m, key, choice) && MergeAll(choice) == Ok(c)
  {
    hide MergeAll, Gathered;
    var s := Gathered(n, m, sorted, cs);
    GatheredItems(n, m, sorted, cs);
    key :| key in after.folded && c in after.folded[key];
    CompletedCombination(cs, s.items, m, key);
    choice :| IsChoice(s.conditions, key, choice) && MergeAll(choice) == Ok(c);
    forall j | 0 <= j < m ensures choice[j] in ConditionsOf(cs[key[j]]) {
      assert choice[j] in ConditionsAt(s.conditions, key[j]);
      assert key[j] in s.items;
    }
  }

  lemma SelectedIsRecorded(n: nat, m: nat, sorted: Option<bool>, cs: seq<Satisfaction>, after: Satisfaction, c: Condition,
                           key: seq<nat>, choice: seq<Condition>)
    requires m > 0 && IsFinalized(Gathered(n, m, sorted, cs), after)
    requires Selects(cs, m, key, choice) && MergeAll(choice) == Ok(c)
    ensures c in ConditionsOf(after)
  {
    hide MergeAll, Gathered;
    var s := Gathered(n, m, sorted, cs);
    GatheredItems(n, m, sorted, cs);
    CompletedCombination(cs, s.items, m, key);
    forall j | 0 <= j < |key| ensures key[j] in s.items && choice[j] in ConditionsAt(s.conditions, key[j]) {
    }
    assert IsChoice(s.conditions, key, choice);
    assert IsMerge(s.conditions, key, c);
    EnoughItems(s.items, m, key);
    assert key in after.folded;
  }

  /** One threshold node: completing the gathered children records exactly the merged choices. */
  lemma FinalizedConditions(n: nat, m: nat, sorted: Option<bool>, cs: seq<Satisfaction>, after: Satisfaction, c: Condition)
    requires m > 0 && IsFinalized(Gathered(n, m, sorted, cs), after)
    ensures c in ConditionsOf(after) <==>
      exists key, choice :: Selects(cs, m, key, choice) && MergeAll(choice) == Ok(c)
  {
    hide MergeAll, Gathered, IsFinalized, Selects, ConditionsOf;
    if c in ConditionsOf(after) {
      var key, choice := RecordedIsSelected(n, m, sorted, cs, after, c);
    }
    if key, choice :| Selects(cs, m, key, choice) && MergeAll(choice) == Ok(c) {
      SelectedIsRecorded(n, m, sorted, cs, after, c, key, choice);
    }
  }

  lemma EnoughItems(items: seq<nat>, m: nat, key: seq<nat>)
    requires IsCombination(items, m, key)
    ensures |items| >= m
  {
    var p :| IsSelection(p, |items|, m) && key == At(items, p);
    IncreasingFits(p, |items|);
  }

  lemma {:induction false} IncreasingFits(p: seq<nat>, n: nat)
    requires IsSelection(p, n, |p|)
    ensures p != [] ==> |p| - 1 <= p[|p| - 1] < n
  {
    if |p| > 1 {
      var k := |p| - 1;
      IncreasingFits(p[..k], n);
      assert p[..k][k - 1] == p[k - 1] < p[k];
    }
  }

  /** The conditions recorded in a built policy are exactly those under which the tree can be satisfied. */
  lemma {:induction false} ContributionDenotes(p: Policy, signers: set<nat>, c: Condition)
    requires IsBuilt(p, signers)
    ensures c in ConditionsOf(p.contribution) <==> Achieves(p, signers, c)
    decreases p
  {
    match p.item
    case Multisig(keys, k) =>
      MultisigDenotes(p, signers, c);
    case Thresh(items, k) =>
      FinalizedConditions(|items|, k, None, Contributions(items), p.contribution, c);
      forall i, d | 0 <= i < |items|
        ensures d in ConditionsOf(Contributions(items)[i]) <==> Achieves(items[i], signers, d)
      {
        ContributionDenotes(items[i], signers, d);
      }
      SelectsIsAchieves(items, signers, k);
    case _ =>
  }

  lemma SelectsIsAchieves(items: seq<Policy>, signers: set<nat>, k: nat)
    requires forall i, d :: 0 <= i < |items| ==>
      (d in ConditionsOf(Contributions(items)[i]) <==> Achieves(items[i], signers, d))
    ensures forall key, choice: seq<Condition> :: Selects(Contributions(items), k, key, choice) <==>
      && IsSelection(key, |items|, k) && |choice| == k
      && forall j :: 0 <= j < k ==> Achieves(items[key[j]], signers, choice[j])
  {
    hide Achieves, ConditionsOf;
    forall key, choice: seq<Condition>
      ensures Selects(Contributions(items), k, key, choice) <==>
        && IsSelection(key, |items|, k) && |choice| == k
        && forall j :: 0 <= j < k ==> Achieves(items[key[j]], signers, choice[j])
    {
      if IsSelection(key, |items|, k) && |choice| == k {
        forall j | 0 <= j < k
          ensures choice[j] in ConditionsOf(Contributions(items)[key[j]]) <==> Achieves(items[key[j]], signers, choice[j])
        {
        }
      }
    }
  }

  lemma SelectsIsEnoughKeys(keys: seq<nat>, k: nat, signers: set<nat>, c: Condition)
    ensures (exists key, choice :: Selects(SignedBy(keys, signers), k, key, choice) && MergeAll(choice) == Ok(c))
       <==> c == NO_CONDITION && EnoughKeys(keys, k, signers)
  {
    hide MergeAll, ConditionsOf;
    var cs := SignedBy(keys, signers);
    SignedConditions(keys, signers);
    if key, choice :| Selects(cs, k, key, choice) && MergeAll(choice) == Ok(c) {
      assert forall j :: 0 <= j < k ==> choice[j] in ConditionsOf(cs[key[j]]);
      MergeNothing(choice);
    }
    if c == NO_CONDITION && EnoughKeys(keys, k, signers) {
      var key :| IsSelection(key, |keys|, k) && forall j :: 0 <= j < k ==> keys[key[j]] in signers;
      var choice := seq(k, _ => NO_CONDITION);
      MergeNothing(choice);
      assert Selects(cs, k, key, choice);
    }
  }

  lemma SignedConditions(keys: seq<nat>, signers: set<nat>)
    ensures forall i, c :: 0 <= i < |keys| ==>
      (c in ConditionsOf(SignedBy(keys, signers)[i]) <==> keys[i] in signers && c == NO_CONDITION)
  {
  }

  lemma MultisigDenotes(p: Policy, signers: set<nat>, c: Condition)
    requires p.item.Multisig? && IsBuilt(p, signers)
    ensures c in ConditionsOf(p.contribution) <==> Achieves(p, signers, c)
  {
    hide MergeAll, Gathered, IsFinalized, Selects, EnoughKeys;
    var Multisig(keys, k) := p.item;
    var sorted :| IsFinalized(Gathered(|keys|, k, sorted, SignedBy(keys, signers)), p.contribution);
    FinalizedConditions(|keys|, k, sorted, SignedBy(keys, signers), p.contribution, c);
    SelectsIsEnoughKeys(keys, k, signers, c);
  }

  lemma {:induction false} MergeNothing(choice: seq<Condition>)
    requires forall j :: 0 <= j < |choice| ==> choice[j] == NO_CONDITION
    ensures MergeAll(choice) == Ok(NO_CONDITION)
  {
    if choice != [] {
      MergeNothing(choice[1..]);
    }
  }

  lemma ThresholdChoice(p: Policy, signers: set<nat>, c: Condition) returns (key: seq<nat>, choice: seq<Condition>)
    requires p.item.Thresh? && Achieves(p, signers, c)
    ensures IsSelection(key, |p.item.items|, p.item.threshold) && |choice| == |key| == p.item.threshold
    ensures forall j :: 0 <= j < |key| ==> key[j] < |p.item.items| && Achieves(p.item.items[key[j]], signers, choice[j])
    ensures MergeAll(choice) == Ok(c)
  {
    key, choice :|
      && IsSelection(key, |p.item.items|, p.item.threshold) && |choice| == p.item.threshold
      && (forall j :: 0 <= j < p.item.threshold ==> Achieves(p.item.items[key[j]], signers, choice[j]))
      && MergeAll(choice) == Ok(c);
  }

  lemma ChoiceAchieves(p: Policy, signers: set<nat>, c: Condition, key: seq<nat>, choice: seq<Condition>)
    requires p.item.Thresh?
    requires IsSelection(key, |p.item.items|, p.item.threshold) && |choice| == |key|
    requires forall j :: 0 <= j < |key| ==> key[j] < |p.item.items| && Achieves(p.item.items[key[j]], signers, choice[j])
    requires MergeAll(choice) == Ok(c)
    ensures Achieves(p, signers, c)
  {
  }

  lemma SelectionsOfTwo(key: seq<nat>)
    ensures IsSelection(key, 2, 2) <==> key == [0, 1]
    ensures IsSelection(key, 2, 1) <==> key == [0] || key == [1]
  {
    if IsSelection(key, 2, 2) {
      assert key[0] < key[1] < 2;
    }
  }

  /** A conjunction needs one condition of each side, merged. */
  lemma AndMeaning(p: Policy, a: Policy, b: Policy, signers: set<nat>, c: Condition)
    requires p.item == Thresh([a, b], 2)
    ensures Achieves(p, signers, c) <==>
      exists x, y :: Achieves(a, signers, x) && Achieves(b, signers, y) && Merge(x, y) == Ok(c)
  {
    hide Achieves, IsSelection, Merge, MergeAll;
    SelectionsOfTwo([0, 1]);
    if Achieves(p, signers, c) {
      var key, choice := ThresholdChoice(p, signers, c);
      SelectionsOfTwo(key);
      MergePair(choice[0], choice[1]);
      assert choice == [choice[0], choice[1]];
      assert [a, b][key[0]] == a && [a, b][key[1]] == b;
    }
    if x, y :| Achieves(a, signers, x) && Achieves(b, signers, y) && Merge(x, y) == Ok(c) {
      MergePair(x, y);
      ChoiceAchieves(p, signers, c, [0, 1], [x, y]);
    }
  }

  /** A disjunction is satisfied as either side is. */
  lemma OrMeaning(p: Policy, a: Policy, b: Policy, signers: set<nat>, c: Condition)
    requires p.item == Thresh([a, b], 1)
    ensures Achieves(p, signers, c) <==> Achieves(a, signers, c) || Achieves(b, signers, c)
  {
    hide Achieves, IsSelection, MergeAll;
    if Achieves(p, signers, c) {
      var key, choice := ThresholdChoice(p, signers, c);
      SelectionsOfTwo(key);
      assert choice == [choice[0]];
      MergeOne(choice[0]);
      assert [a, b][key[0]] == a || [a, b][key[0]] == b;
    }
    if Achieves(a, signers, c) || Achieves(b, signers, c) {
      MergeOne(c);
      var key: seq<nat> := [if Achieves(a, signers, c) then 0 else 1];
      SelectionsOfTwo(key);
      ChoiceAchieves(p, signers, c, key, [c]);
    }
  }

  lemma MergeOne(c: Condition)
    ensures MergeAll([c]) == Ok(c)
  {
    assert Merge(NO_CONDITION, c) == Ok(c);
    assert [c][1..] == [];
    assert MergeFrom(c, []) == Ok(c);
  }

  lemma MergePair(x: Condition, y: Condition)
    ensures MergeAll([x, y]) == Merge(x, y)
  {
    assert [x, y][1..] == [y] && [y][1..] == [];
    MergeOne(x);
    FoldSnoc(NO_CONDITION, [x], y);
    assert [x] + [y] == [x, y];
  }
}
