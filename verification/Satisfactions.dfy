/** Partial satisfactions of threshold items and their completion. */
module Satisfactions {
  import opened Sequences
  import opened Enumeration
  import opened Conditions

  type ConditionMap = map<nat, set<Condition>>

  type FoldedConditionMap = map<seq<nat>, set<Condition>>

  datatype Satisfaction =
    | Partial(n: nat, m: nat, items: seq<nat>, sorted: Option<bool>, conditions: ConditionMap)
    | PartialComplete(n: nat, m: nat, items: seq<nat>, sorted: Option<bool>, folded: FoldedConditionMap)
    | Complete(condition: Condition)
    | NoSatisfaction

  predicate IsCompleted(s: Satisfaction) {
    s.Complete? || s.PartialComplete?
  }

  /** The conditions under which a satisfaction completes its item. */
  function ConditionsOf(s: Satisfaction): set<Condition> {
    match s
    case Complete(c) => {c}
    case PartialComplete(_, _, _, _, folded) => set key, c | key in folded && c in folded[key] :: c
    case _ => {}
  }

  function ConditionsAt(conditions: ConditionMap, i: nat): set<Condition> {
    if i in conditions then conditions[i] else {}
  }

  /** `choice` takes one condition for each item of `key`. */
  ghost predicate IsChoice(conditions: ConditionMap, key: seq<nat>, choice: seq<Condition>) {
    |choice| == |key| && forall j :: 0 <= j < |key| ==> choice[j] in ConditionsAt(conditions, key[j])
  }

  /** `c` is the merge of some compatible choice for `key`. */
  ghost predicate IsMerge(conditions: ConditionMap, key: seq<nat>, c: Condition) {
    exists choice :: IsChoice(conditions, key, choice) && MergeAll(choice) == Ok(c)
  }

  /** `key` is a combination of `size` of the items, in their order. */
  ghost predicate IsCombination(items: seq<nat>, size: nat, key: seq<nat>) {
    exists p :: IsSelection(p, |items|, size) && key == At(items, p)
  }

  /**
   * What completing a partial satisfaction means: a key is recorded exactly when it is a combination
   * of m items with a compatible choice, and under it exactly the merges of its compatible choices.
   */
  ghost predicate IsFinalized(before: Satisfaction, after: Satisfaction) {
    if before.Partial? && |before.items| >= before.m then
      && after.PartialComplete?
      && (after.n, after.m, after.items, after.sorted) == (before.n, before.m, before.items, before.sorted)
      && (forall key :: key in after.folded <==>
            IsCombination(before.items, EffectiveSize(before.m), key) && exists c :: IsMerge(before.conditions, key, c))
      && (forall key, c :: key in after.folded ==>
            (c in after.folded[key] <==> IsMerge(before.conditions, key, c)))
    else
      after == before
  }

  /** The work list treats size zero like size one. */
  function EffectiveSize(m: nat): nat {
    if m == 0 then 1 else m
  }

  lemma ChoiceIsTuple(conditions: ConditionMap, key: seq<nat>, options: seq<seq<Condition>>, choice: seq<Condition>)
    returns (p: seq<nat>)
    requires |options| == |key|
    requires forall i, c :: 0 <= i < |key| ==> (c in options[i] <==> c in ConditionsAt(conditions, key[i]))
    requires IsChoice(conditions, key, choice)
    ensures IsTuple(p, Lengths(options)) && InTable(options, p) && Across(options, p) == choice
  {
    p := [];
    while |p| < |key|
      invariant |p| <= |key|
      invariant forall i :: 0 <= i < |p| ==> p[i] < |options[i]| && options[i][p[i]] == choice[i]
    {
      var i := |p|;
      assert choice[i] in options[i];
      var x :| 0 <= x < |options[i]| && options[i][x] == choice[i];
      p := p + [x];
    }
  }

  lemma TupleIsChoice(conditions: ConditionMap, key: seq<nat>, options: seq<seq<Condition>>, p: seq<nat>)
    requires |options| == |key|
    requires forall i, c :: 0 <= i < |key| ==> (c in options[i] <==> c in ConditionsAt(conditions, key[i]))
    requires IsTuple(p, Lengths(options)) && InTable(options, p)
    ensures IsChoice(conditions, key, Across(options, p))
  {
    forall j | 0 <= j < |key| ensures Across(options, p)[j] in ConditionsAt(conditions, key[j]) {
      assert options[j][p[j]] in options[j];
    }
  }

  /** `choices` are exactly the choices for `key`. */
  ghost predicate AreChoices(conditions: ConditionMap, key: seq<nat>, choices: seq<seq<Condition>>) {
    forall choice :: choice in choices <==> IsChoice(conditions, key, choice)
  }

  method Choices(conditions: ConditionMap, key: seq<nat>) returns (choices: seq<seq<Condition>>)
    requires key != []
    ensures AreChoices(conditions, key, choices)
  {
    var options: seq<seq<Condition>> := [];
    for i := 0 to |key|
      invariant |options| == i
      invariant forall k, c :: 0 <= k < i ==> (c in options[k] <==> c in ConditionsAt(conditions, key[k]))
    {
      var listed := SetToSeq(ConditionsAt(conditions, key[i]));
      options := options + [listed];
    }
    ghost var picks;
    choices, picks := Mix(options);
    forall choice ensures choice in choices <==> IsChoice(conditions, key, choice) {
      if choice in choices {
        var k :| 0 <= k < |choices| && choices[k] == choice;
        assert picks[k] in multiset(picks);
        TupleIsChoice(conditions, key, options, picks[k]);
      }
      if IsChoice(conditions, key, choice) {
        var p := ChoiceIsTuple(conditions, key, options, choice);
        assert p in multiset(picks);
        var k :| 0 <= k < |picks| && picks[k] == p;
        assert choices[k] == choice;
      }
    }
  }

  method CompatibleMerges(conditions: ConditionMap, key: seq<nat>) returns (merges: set<Condition>)
    requires key != []
    ensures forall c :: c in merges <==> IsMerge(conditions, key, c)
  {
    var choices := Choices(conditions, key);
    merges := {};
    for k := 0 to |choices|
      invariant forall c :: c in merges <==> exists choice :: choice in choices[..k] && MergeAll(choice) == Ok(c)
    {
      assert choices[..k + 1] == choices[..k] + [choices[k]];
      var merged := MergeAll(choices[k]);
      if merged.Ok? {
        merges := merges + {merged.value};
      }
    }
    assert choices[..|choices|] == choices;
  }

  /** A satisfaction that is built up in place. */
  class SatisfactionBuilder {
    var value: Satisfaction

    constructor (n: nat, m: nat, sorted: Option<bool>)
      ensures value == Partial(n, m, [], sorted, map[])
    {
      value := Partial(n, m, [], sorted, map[]);
    }

    method Add(inner: Satisfaction, index: nat) returns (r: Result<(), PolicyError>)
      modifies this
      ensures (old(value).Complete? || old(value).NoSatisfaction?) ==> r == Err(AddOnLeaf)
      ensures old(value).PartialComplete? ==> r == Err(AddOnPartialComplete)
      ensures old(value).Partial? ==>
        if index >= old(value).n || index in old(value).items then r == Err(IndexOutOfRange) else r.Ok?
      ensures r.Err? ==> value == old(value)
      ensures r.Ok? ==> value == Added(old(value), inner, index)
    {
      match value
      case Complete(_) => return Err(AddOnLeaf);
      case NoSatisfaction => return Err(AddOnLeaf);
      case PartialComplete(_, _, _, _, _) => return Err(AddOnPartialComplete);
      case Partial(n, m, items, sorted, conditions) =>
        if index >= n || index in items {
          return Err(IndexOutOfRange);
        }
        match inner {
          case NoSatisfaction =>
          case Partial(_, _, _, _, _) =>
          case Complete(condition) =>
            value := Partial(n, m, items + [index], sorted, conditions[index := {condition}]);
          case PartialComplete(_, _, _, _, folded) =>
            var union := set key, c | key in folded && c in folded[key] :: c;
            value := Partial(n, m, items + [index], sorted, conditions[index := union]);
        }
        return Ok(());
    }

    method Finalize()
      modifies this
      ensures IsFinalized(old(value), value)
    {
      if !value.Partial? || |value.items| < value.m {
        return;
      }
      var Partial(n, m, items, sorted, conditions) := value;
      var folded: FoldedConditionMap := map[];
      var keys, picks := Combinations(items, m);
      for k := 0 to |keys|
        invariant FoldedUpTo(conditions, keys[..k], folded)
        invariant value == old(value)
      {
        KeyIsNonEmpty(items, m, keys, picks, k);
        var merges := CompatibleMerges(conditions, keys[k]);
        ghost var previous := folded;
        if merges != {} {
          folded := folded[keys[k] := merges + if keys[k] in folded then folded[keys[k]] else {}];
        }
        FoldKey(conditions, keys, k, previous, merges, folded);
      }
      assert keys[..|keys|] == keys;
      KeysAreCombinations(items, m, keys, picks);
      value := PartialComplete(n, m, items, sorted, folded);
    }
  }

  function Added(s: Satisfaction, inner: Satisfaction, index: nat): Satisfaction
    requires s.Partial?
  {
    if IsCompleted(inner) then
      s.(items := s.items + [index], conditions := s.conditions[index := ConditionsOf(inner)])
    else
      s
  }

  /** The map records the merges of every key seen so far that has any. */
  ghost predicate FoldedUpTo(conditions: ConditionMap, keys: seq<seq<nat>>, folded: FoldedConditionMap) {
    && (forall key :: key in folded <==> key in keys && exists c :: IsMerge(conditions, key, c))
    && (forall key, c :: key in folded ==> (c in folded[key] <==> IsMerge(conditions, key, c)))
  }

  lemma FoldKey(conditions: ConditionMap, keys: seq<seq<nat>>, k: nat, previous: FoldedConditionMap,
                merges: set<Condition>, folded: FoldedConditionMap)
    requires k < |keys| && FoldedUpTo(conditions, keys[..k], previous)
    requires forall c :: c in merges <==> IsMerge(conditions, keys[k], c)
    requires folded ==
      if merges == {} then previous
      else previous[keys[k] := merges + if keys[k] in previous then previous[keys[k]] else {}]
    ensures FoldedUpTo(conditions, keys[..k + 1], folded)
  {
    hide IsMerge;
    assert keys[..k + 1] == keys[..k] + [keys[k]];
    if merges != {} {
      var c :| c in merges;
      assert IsMerge(conditions, keys[k], c);
    }
  }

  lemma KeyIsNonEmpty(items: seq<nat>, m: nat, keys: seq<seq<nat>>, picks: seq<seq<nat>>, k: nat)
    requires CombinationAnswers(items, picks, keys) && k < |keys|
    requires forall p :: multiset(picks)[p] == if IsSelection(p, |items|, EffectiveSize(m)) then 1 else 0
    ensures keys[k] != []
  {
    assert picks[k] in multiset(picks);
  }

  lemma KeysAreCombinations(items: seq<nat>, m: nat, keys: seq<seq<nat>>, picks: seq<seq<nat>>)
    requires CombinationAnswers(items, picks, keys)
    requires forall p :: multiset(picks)[p] == if IsSelection(p, |items|, EffectiveSize(m)) then 1 else 0
    ensures forall key :: key in keys <==> IsCombination(items, EffectiveSize(m), key)
  {
    forall key ensures key in keys <==> IsCombination(items, EffectiveSize(m), key) {
      if key in keys {
        var k :| 0 <= k < |keys| && keys[k] == key;
        assert picks[k] in multiset(picks);
      }
      if IsCombination(items, EffectiveSize(m), key) {
        var p :| IsSelection(p, |items|, EffectiveSize(m)) && key == At(items, p);
        assert p in multiset(picks);
        var k :| 0 <= k < |picks| && picks[k] == p;
        assert keys[k] == key;
      }
    }
  }
}
