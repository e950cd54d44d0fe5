/** The condition that a chosen path through a policy tree imposes on a transaction. */
module PolicyPaths {
  import opened Sequences
  import opened Conditions
  import opened Enumeration
  import opened Policies
  import opened Satisfactions

  /** The chosen children of each node, by node id. */
  type Path = map<nat, seq<nat>>

  function Indices(n: nat): (s: set<nat>)
    ensures forall i: nat :: i in s <==> i < n
  {
    if n == 0 then {} else Indices(n - 1) + {n - 1}
  }

  /** Without an entry in the path, an n-of-n threshold and a multisig take all their children. */
  function Selected(p: Policy, path: Path): set<nat> {
    if p.id in path then
      set i: nat | i in path[p.id]
    else match p.item
      case Thresh(items, threshold) =>
        if |items| == threshold then Indices(threshold) else {}
      case Multisig(keys, _) => Indices(|keys|)
      case _ => {}
  }

  function IsNull(c: Condition): bool {
    c == NO_CONDITION
  }

  function GetCondition(p: Policy, path: Path): Result<Condition, PolicyError> {
    var selected := Selected(p, path);
    match p.item
    case Thresh(items, threshold) =>
      var mapped := seq(|items|, i requires 0 <= i < |items| => GetCondition(items[i], path));
      if forall i :: 0 <= i < |mapped| ==> mapped[i].Ok? && IsNull(mapped[i].value) then Ok(NO_CONDITION)
      else if exists i: nat :: i in selected && i >= |items| then Err(IndexOutOfRange)
      else if |selected| < threshold then Err(NotEnoughItemsSelected(p.id))
      else MergeSelected(NO_CONDITION, mapped, selected, 0)
    case Multisig(keys, threshold) =>
      if |selected| < threshold then Err(NotEnoughItemsSelected(p.id))
      else if exists i: nat :: i in selected && i >= |keys| then Err(IndexOutOfRange)
      else Ok(NO_CONDITION)
    case AbsoluteTimelock(v) => Ok(Condition(None, Some(v)))
    case RelativeTimelock(v) => Ok(Condition(Some(v), None))
    case _ => Ok(NO_CONDITION)
  }

  /** Fold the requirements of the selected children from index i on; the first error is returned. */
  function MergeSelected(acc: Condition, mapped: seq<Result<Condition, PolicyError>>, selected: set<nat>, i: nat):
      Result<Condition, PolicyError>
    requires i <= |mapped|
    decreases |mapped| - i
  {
    if i == |mapped| then Ok(acc)
    else if i !in selected then MergeSelected(acc, mapped, selected, i + 1)
    else match mapped[i]
      case Err(e) => Err(e)
      case Ok(c) =>
        match Merge(acc, c)
        case Err(e) => Err(e)
        case Ok(next) => MergeSelected(next, mapped, selected, i + 1)
  }

  /** A path is needed when the tree alone does not determine the condition. */
  function RequiresPath(p: Policy): bool {
    GetCondition(p, map[]).Err?
  }

  // ---------------------------------------------------------------- what the result means

  /** `leaf` is the requirement of a timelock that the path leads to. */
  ghost predicate Active(p: Policy, path: Path, leaf: Condition) {
    match p.item
    case AbsoluteTimelock(v) => leaf == Condition(None, Some(v))
    case RelativeTimelock(v) => leaf == Condition(Some(v), None)
    case Thresh(items, _) =>
      exists i :: 0 <= i < |items| && i in Selected(p, path) && Active(items[i], path, leaf)
    case _ => false
  }

  /** `bound` meets every timelock the path leads to. */
  ghost predicate MeetsAll(p: Policy, path: Path, bound: Condition) {
    forall leaf :: Active(p, path, leaf) ==> AtMost(leaf, bound)
  }

  /** Each lock of `c` is the lock of some active timelock. */
  ghost predicate Attained(p: Policy, path: Path, c: Condition) {
    && (c.csv.Some? ==> exists leaf :: Active(p, path, leaf) && leaf.csv == c.csv)
    && (c.timelock.Some? ==> exists leaf :: Active(p, path, leaf) && leaf.timelock == c.timelock)
  }

  /** `c` is the least condition that meets every active timelock. */
  ghost predicate IsLeast(p: Policy, path: Path, c: Condition) {
    && MeetsAll(p, path, c)
    && (forall bound :: MeetsAll(p, path, bound) ==> AtMost(c, bound))
    && Attained(p, path, c)
  }

  /** What a result says about the active timelocks. */
  ghost predicate Explains(p: Policy, path: Path, r: Result<Condition, PolicyError>) {
    && (r.Ok? ==> IsLeast(p, path, r.value))
    && (r == Err(MixedTimelockUnits) ==> forall bound :: !MeetsAll(p, path, bound))
  }

  /** `leaf` is active under a selected child with index below k. */
  ghost predicate ActiveBelow(p: Policy, path: Path, k: nat, leaf: Condition)
    requires p.item.Thresh? && k <= |p.item.items|
  {
    exists i :: 0 <= i < k && i in Selected(p, path) && Active(p.item.items[i], path, leaf)
  }

  /** `acc` is the least condition that meets every timelock active under the first k children. */
  ghost predicate IsLeastBelow(p: Policy, path: Path, k: nat, acc: Condition)
    requires p.item.Thresh? && k <= |p.item.items|
  {
    && (forall leaf :: ActiveBelow(p, path, k, leaf) ==> AtMost(leaf, acc))
    && (forall bound :: (forall leaf :: ActiveBelow(p, path, k, leaf) ==> AtMost(leaf, bound)) ==> AtMost(acc, bound))
    && (acc.csv.Some? ==> exists leaf :: ActiveBelow(p, path, k, leaf) && leaf.csv == acc.csv)
    && (acc.timelock.Some? ==> exists leaf :: ActiveBelow(p, path, k, leaf) && leaf.timelock == acc.timelock)
  }

  lemma MeetsChild(p: Policy, path: Path, i: nat, bound: Condition)
    requires p.item.Thresh? && i < |p.item.items| && i in Selected(p, path)
    requires MeetsAll(p, path, bound)
    ensures MeetsAll(p.item.items[i], path, bound)
  {
    forall leaf | Active(p.item.items[i], path, leaf) ensures AtMost(leaf, bound) {
      assert Active(p, path, leaf);
    }
  }

  lemma SkipChild(p: Policy, path: Path, k: nat, acc: Condition)
    requires p.item.Thresh? && k < |p.item.items| && k !in Selected(p, path)
    requires IsLeastBelow(p, path, k, acc)
    ensures IsLeastBelow(p, path, k + 1, acc)
  {
    hide AtMost;
    assert forall leaf :: ActiveBelow(p, path, k + 1, leaf) <==> ActiveBelow(p, path, k, leaf);
  }

  lemma ActiveBelowNext(p: Policy, path: Path, k: nat)
    requires p.item.Thresh? && k < |p.item.items| && k in Selected(p, path)
    ensures forall leaf :: ActiveBelow(p, path, k + 1, leaf) <==>
      ActiveBelow(p, path, k, leaf) || Active(p.item.items[k], path, leaf)
  {
  }

  lemma MergeChild(p: Policy, path: Path, k: nat, acc: Condition, c: Condition)
    requires p.item.Thresh? && k < |p.item.items| && k in Selected(p, path)
    requires IsLeastBelow(p, path, k, acc) && IsLeast(p.item.items[k], path, c)
    ensures Merge(acc, c).Ok? ==> IsLeastBelow(p, path, k + 1, Merge(acc, c).value)
    ensures Merge(acc, c).Err? ==> forall bound :: !MeetsAll(p, path, bound)
  {
    hide Active, Merge, Selected;
    ActiveBelowNext(p, path, k);
    MergeIsJoin(acc, c, c);
    if Merge(acc, c).Ok? {
      var m := Merge(acc, c).value;
      forall leaf | ActiveBelow(p, path, k + 1, leaf) ensures AtMost(leaf, m) {
        if ActiveBelow(p, path, k, leaf) {
          AtMostTransitive(leaf, acc, m);
        } else {
          AtMostTransitive(leaf, c, m);
        }
      }
      forall bound | forall leaf :: ActiveBelow(p, path, k + 1, leaf) ==> AtMost(leaf, bound)
        ensures AtMost(m, bound)
      {
        MergeIsJoin(acc, c, bound);
      }
    } else {
      forall bound | MeetsAll(p, path, bound) ensures false {
        MeetsChild(p, path, k, bound);
        MeetsBelow(p, path, k, bound);
        MergeIsJoin(acc, c, bound);
      }
    }
  }

  lemma MeetsBelow(p: Policy, path: Path, k: nat, bound: Condition)
    requires p.item.Thresh? && k <= |p.item.items| && MeetsAll(p, path, bound)
    ensures forall leaf :: ActiveBelow(p, path, k, leaf) ==> AtMost(leaf, bound)
  {
    forall leaf | ActiveBelow(p, path, k, leaf) ensures AtMost(leaf, bound) {
      assert Active(p, path, leaf);
    }
  }

  lemma {:induction false} MergeSelectedExplains(p: Policy, path: Path, mapped: seq<Result<Condition, PolicyError>>, k: nat, acc: Condition)
    requires p.item.Thresh? && |mapped| == |p.item.items| && k <= |mapped|
    requires forall i :: 0 <= i < |mapped| ==> Explains(p.item.items[i], path, mapped[i])
    requires IsLeastBelow(p, path, k, acc)
    ensures Explains(p, path, MergeSelected(acc, mapped, Selected(p, path), k))
    decreases |mapped| - k
  {
    hide IsLeastBelow, IsLeast, Selected, MeetsAll;
    if k == |mapped| {
      WholeThreshold(p, path, acc);
    } else if k !in Selected(p, path) {
      SkipChild(p, path, k, acc);
      MergeSelectedExplains(p, path, mapped, k + 1, acc);
    } else if mapped[k].Err? {
      if mapped[k].error.MixedTimelockUnits? {
        forall bound ensures !MeetsAll(p, path, bound) {
          if MeetsAll(p, path, bound) {
            MeetsChild(p, path, k, bound);
          }
        }
      }
    } else {
      MergeChild(p, path, k, acc, mapped[k].value);
      if Merge(acc, mapped[k].value).Ok? {
        MergeSelectedExplains(p, path, mapped, k + 1, Merge(acc, mapped[k].value).value);
      }
    }
  }

  lemma WholeThreshold(p: Policy, path: Path, acc: Condition)
    requires p.item.Thresh? && IsLeastBelow(p, path, |p.item.items|, acc)
    ensures IsLeast(p, path, acc)
  {
    hide AtMost, Selected;
    assert forall leaf :: Active(p, path, leaf) <==> ActiveBelow(p, path, |p.item.items|, leaf);
  }

  lemma NothingActive(p: Policy, path: Path)
    requires p.item.Thresh?
    requires forall i :: 0 <= i < |p.item.items| ==> IsLeast(p.item.items[i], path, NO_CONDITION)
    ensures IsLeast(p, path, NO_CONDITION)
  {
    forall leaf | Active(p, path, leaf) ensures AtMost(leaf, NO_CONDITION) {
      var i :| 0 <= i < |p.item.items| && i in Selected(p, path) && Active(p.item.items[i], path, leaf);
    }
  }

  /**
   * On success the condition is the least one meeting every timelock the path leads to, and each of its
   * locks is that of one of them. A unit error is reported only when no condition could meet them all.
   */
  lemma {:induction false} GetConditionIsLeast(p: Policy, path: Path)
    ensures Explains(p, path, GetCondition(p, path))
    decreases p
  {
    match p.item
    case Thresh(items, threshold) =>
      var mapped := seq(|items|, i requires 0 <= i < |items| => GetCondition(items[i], path));
      forall i | 0 <= i < |items| ensures Explains(items[i], path, mapped[i]) {
        GetConditionIsLeast(items[i], path);
      }
      ThresholdExplains(p, path, mapped);
    case AbsoluteTimelock(v) => LeafIsLeast(p, path, Condition(None, Some(v)));
    case RelativeTimelock(v) => LeafIsLeast(p, path, Condition(Some(v), None));
    case _ =>
  }

  lemma ThresholdExplains(p: Policy, path: Path, mapped: seq<Result<Condition, PolicyError>>)
    requires p.item.Thresh? && |mapped| == |p.item.items|
    requires forall i :: 0 <= i < |mapped| ==> Explains(p.item.items[i], path, mapped[i])
    ensures (forall i :: 0 <= i < |mapped| ==> mapped[i].Ok? && IsNull(mapped[i].value)) ==> IsLeast(p, path, NO_CONDITION)
    ensures Explains(p, path, MergeSelected(NO_CONDITION, mapped, Selected(p, path), 0))
  {
    hide IsLeast, MeetsAll;
    if forall i :: 0 <= i < |mapped| ==> mapped[i].Ok? && IsNull(mapped[i].value) {
      forall i | 0 <= i < |mapped| ensures IsLeast(p.item.items[i], path, NO_CONDITION) {
        assert Explains(p.item.items[i], path, mapped[i]);
      }
      NothingActive(p, path);
    }
    assert IsLeastBelow(p, path, 0, NO_CONDITION);
    MergeSelectedExplains(p, path, mapped, 0, NO_CONDITION);
  }

  lemma LeafIsLeast(p: Policy, path: Path, c: Condition)
    requires forall leaf :: Active(p, path, leaf) <==> leaf == c
    ensures IsLeast(p, path, c)
  {
    assert Active(p, path, c);
  }

  // ---------------------------------------------------------------- when a path is good enough

  /** No timelock is active. */
  ghost predicate Quiet(p: Policy, path: Path) {
    forall leaf :: !Active(p, path, leaf)
  }

  /**
   * The path names enough children, all in range, wherever it matters: a threshold whose children ask
   * for nothing needs no selection.
   */
  ghost predicate WellSelected(p: Policy, path: Path) {
    match p.item
    case Thresh(items, threshold) =>
      || (forall i :: 0 <= i < |items| ==> WellSelected(items[i], path) && Quiet(items[i], path))
      || (&& |Selected(p, path)| >= threshold
          && (forall i: nat :: i in Selected(p, path) ==> i < |items|)
          && (forall i :: 0 <= i < |items| && i in Selected(p, path) ==> WellSelected(items[i], path)))
    case Multisig(keys, threshold) =>
      |Selected(p, path)| >= threshold && forall i: nat :: i in Selected(p, path) ==> i < |keys|
    case _ => true
  }

  lemma NullIffQuiet(p: Policy, path: Path, c: Condition)
    requires IsLeast(p, path, c)
    ensures IsNull(c) <==> Quiet(p, path)
  {
    if IsNull(c) {
      forall leaf ensures !Active(p, path, leaf) {
        ActiveAsks(p, path, leaf);
      }
    }
  }

  lemma {:induction false} ActiveAsks(p: Policy, path: Path, leaf: Condition)
    ensures Active(p, path, leaf) ==> !IsNull(leaf)
    decreases p
  {
    if p.item.Thresh? && Active(p, path, leaf) {
      var i :| 0 <= i < |p.item.items| && i in Selected(p, path) && Active(p.item.items[i], path, leaf);
      ActiveAsks(p.item.items[i], path, leaf);
    }
  }

  /** Folding the selected children fails with mixed units or with one of their own errors. */
  lemma {:induction false} MergeSelectedErrors(acc: Condition, mapped: seq<Result<Condition, PolicyError>>, selected: set<nat>, k: nat)
    requires k <= |mapped|
    ensures var r := MergeSelected(acc, mapped, selected, k);
      && (r.Ok? ==> forall i :: k <= i < |mapped| && i in selected ==> mapped[i].Ok?)
      && (r.Err? ==> r.error.MixedTimelockUnits? || exists i :: k <= i < |mapped| && i in selected && mapped[i].Err?)
    decreases |mapped| - k
  {
    if k < |mapped| {
      if k !in selected {
        MergeSelectedErrors(acc, mapped, selected, k + 1);
      } else if mapped[k].Ok? {
        MergeIsJoin(acc, mapped[k].value, acc);
        if Merge(acc, mapped[k].value).Ok? {
          MergeSelectedErrors(Merge(acc, mapped[k].value).value, mapped, selected, k + 1);
        }
      }
    }
  }

  /** A condition is computed exactly when the path selects enough and some condition meets all it leads to. */
  lemma {:induction false} GetConditionSucceedsIff(p: Policy, path: Path)
    ensures GetCondition(p, path).Ok? <==> WellSelected(p, path) && exists bound :: MeetsAll(p, path, bound)
    decreases p
  {
    match p.item
    case Thresh(items, threshold) =>
      var mapped := seq(|items|, i requires 0 <= i < |items| => GetCondition(items[i], path));
      forall i | 0 <= i < |items|
        ensures Explains(items[i], path, mapped[i])
        ensures mapped[i].Ok? <==> WellSelected(items[i], path) && exists bound :: MeetsAll(items[i], path, bound)
      {
        GetConditionIsLeast(items[i], path);
        GetConditionSucceedsIff(items[i], path);
      }
      GetConditionIsLeast(p, path);
      ThresholdSucceedsIff(p, path, mapped);
    case AbsoluteTimelock(v) => GetConditionIsLeast(p, path);
    case RelativeTimelock(v) => GetConditionIsLeast(p, path);
    case _ =>
      assert MeetsAll(p, path, NO_CONDITION);
  }

  lemma QuietChildren(p: Policy, path: Path, mapped: seq<Result<Condition, PolicyError>>)
    requires p.item.Thresh? && |mapped| == |p.item.items|
    requires forall i :: 0 <= i < |mapped| ==> Explains(p.item.items[i], path, mapped[i])
    requires forall i :: 0 <= i < |mapped| ==>
      (mapped[i].Ok? <==> WellSelected(p.item.items[i], path) && exists bound :: MeetsAll(p.item.items[i], path, bound))
    ensures (forall i :: 0 <= i < |mapped| ==> mapped[i].Ok? && IsNull(mapped[i].value))
       <==> (forall i :: 0 <= i < |mapped| ==> WellSelected(p.item.items[i], path) && Quiet(p.item.items[i], path))
  {
    hide WellSelected, IsLeast;
    forall i | 0 <= i < |mapped|
      ensures mapped[i].Ok? && IsNull(mapped[i].value) <==> WellSelected(p.item.items[i], path) && Quiet(p.item.items[i], path)
    {
      if mapped[i].Ok? {
        NullIffQuiet(p.item.items[i], path, mapped[i].value);
      } else if Quiet(p.item.items[i], path) {
        assert MeetsAll(p.item.items[i], path, NO_CONDITION);
      }
    }
  }

  lemma ThresholdSucceedsIff(p: Policy, path: Path, mapped: seq<Result<Condition, PolicyError>>)
    requires p.item.Thresh? && |mapped| == |p.item.items|
    requires forall i :: 0 <= i < |mapped| ==> mapped[i] == GetCondition(p.item.items[i], path)
    requires forall i :: 0 <= i < |mapped| ==> Explains(p.item.items[i], path, mapped[i])
    requires forall i :: 0 <= i < |mapped| ==>
      (mapped[i].Ok? <==> WellSelected(p.item.items[i], path) && exists bound :: MeetsAll(p.item.items[i], path, bound))
    requires Explains(p, path, GetCondition(p, path))
    ensures GetCondition(p, path).Ok? <==> WellSelected(p, path) && exists bound :: MeetsAll(p, path, bound)
  {
    hide MeetsAll, Selected, Quiet, Active, Attained;
    var items := p.item.items;
    var selected := Selected(p, path);
    QuietChildren(p, path, mapped);
    MergeSelectedErrors(NO_CONDITION, mapped, selected, 0);
    assert mapped == seq(|items|, i requires 0 <= i < |items| => GetCondition(items[i], path));
    if GetCondition(p, path).Ok? {
      assert MeetsAll(p, path, GetCondition(p, path).value);
    } else if bound :| MeetsAll(p, path, bound) {
      forall i | 0 <= i < |items| && i in selected ensures MeetsAll(items[i], path, bound) {
        MeetsChild(p, path, i, bound);
      }
    }
  }

  // ---------------------------------------------------------------- paths and contributions

  ghost predicate AsksNothing(items: seq<Policy>, path: Path) {
    forall i :: 0 <= i < |items| ==> GetCondition(items[i], path) == Ok(NO_CONDITION)
  }

  /**
   * The wallet can contribute along the path: at a threshold, to enough of the selected children, or to
   * enough children at all where no selection is needed.
   */
  ghost predicate AvailableAlong(p: Policy, signers: set<nat>, path: Path) {
    match p.item
    case Signature(key) => key in signers
    case Preimage(_) => false
    case Multisig(keys, k) => EnoughKeys(keys, k, signers)
    case Thresh(items, k) =>
      exists key :: (
        && IsSelection(key, |items|, k)
        && (AsksNothing(items, path) || forall j :: 0 <= j < k ==> key[j] in Selected(p, path))
        && forall j :: 0 <= j < k ==> AvailableAlong(items[key[j]], signers, path))
    case _ => true
  }

  /** ... and wherever a selection is needed, it names exactly as many children as the threshold. */
  ghost predicate Contributes(p: Policy, signers: set<nat>, path: Path) {
    match p.item
    case Signature(key) => key in signers
    case Preimage(_) => false
    case Multisig(keys, k) => EnoughKeys(keys, k, signers)
    case Thresh(items, k) =>
      if AsksNothing(items, path) then
        exists key ::
          IsSelection(key, |items|, k) && forall j :: 0 <= j < k ==> Contributes(items[key[j]], signers, path)
      else
        |Selected(p, path)| == k
        && forall i :: 0 <= i < |items| && i in Selected(p, path) ==> Contributes(items[i], signers, path)
    case _ => true
  }

  lemma {:induction false} MergeSelectedChoice(acc: Condition, mapped: seq<Result<Condition, PolicyError>>, selected: set<nat>,
                                               k: nat, c: Condition) returns (key: seq<nat>, choice: seq<Condition>)
    requires k <= |mapped| && (forall i: nat :: i in selected ==> i < |mapped|)
    requires MergeSelected(acc, mapped, selected, k) == Ok(c)
    ensures |choice| == |key| == |set i | i in selected && i >= k|
    ensures forall j :: 0 <= j < |key| ==> k <= key[j] < |mapped| && key[j] in selected && mapped[key[j]] == Ok(choice[j])
    ensures forall i, j :: 0 <= i < j < |key| ==> key[i] < key[j]
    ensures MergeFrom(acc, choice) == Ok(c)
    decreases |mapped| - k
  {
    if k == |mapped| {
      key, choice := [], [];
      assert (set i | i in selected && i >= k) == {};
    } else if k !in selected {
      key, choice := MergeSelectedChoice(acc, mapped, selected, k + 1, c);
      assert (set i | i in selected && i >= k) == (set i | i in selected && i >= k + 1);
    } else {
      var d := mapped[k].value;
      var key', choice' := MergeSelectedChoice(Merge(acc, d).value, mapped, selected, k + 1, c);
      assert (set i | i in selected && i >= k) == {k} + (set i | i in selected && i >= k + 1);
      key, choice := [k] + key', [d] + choice';
    }
  }

  function ChildConditions(items: seq<Policy>, path: Path): (mapped: seq<Result<Condition, PolicyError>>)
    ensures |mapped| == |items| && forall i :: 0 <= i < |items| ==> mapped[i] == GetCondition(items[i], path)
  {
    seq(|items|, i requires 0 <= i < |items| => GetCondition(items[i], path))
  }

  lemma ThresholdFolds(p: Policy, path: Path, c: Condition)
    requires p.item.Thresh? && !AsksNothing(p.item.items, path) && GetCondition(p, path) == Ok(c)
    ensures MergeSelected(NO_CONDITION, ChildConditions(p.item.items, path), Selected(p, path), 0) == Ok(c)
    ensures forall i: nat :: i in Selected(p, path) ==> i < |p.item.items|
  {
    hide MergeSelected, Selected;
    var items := p.item.items;
    var mapped := seq(|items|, i requires 0 <= i < |items| => GetCondition(items[i], path));
    assert mapped == ChildConditions(items, path);
    var i :| 0 <= i < |items| && GetCondition(items[i], path) != Ok(NO_CONDITION);
    assert !(mapped[i].Ok? && IsNull(mapped[i].value));
  }

  // ------------------------------------------------ every path is covered by a contribution

  /** Under a computed condition every child that matters has a computed condition that asks no more. */
  lemma ChildAsksNoMore(p: Policy, path: Path, c: Condition, i: nat)
    requires p.item.Thresh? && i < |p.item.items| && GetCondition(p, path) == Ok(c)
    requires AsksNothing(p.item.items, path) || i in Selected(p, path)
    ensures GetCondition(p.item.items[i], path).Ok?
    ensures AtMost(GetCondition(p.item.items[i], path).value, c)
  {
    hide Active, Selected, MergeSelected, Attained;
    var child := p.item.items[i];
    if !AsksNothing(p.item.items, path) {
      ThresholdFolds(p, path, c);
      MergeSelectedErrors(NO_CONDITION, ChildConditions(p.item.items, path), Selected(p, path), 0);
      assert ChildConditions(p.item.items, path)[i].Ok?;
      GetConditionIsLeast(p, path);
      GetConditionIsLeast(child, path);
      MeetsChild(p, path, i, c);
    }
  }

  lemma SelectedAreAvailable(p: Policy, signers: set<nat>, path: Path) returns (key: seq<nat>)
    requires p.item.Thresh? && AvailableAlong(p, signers, path)
    ensures IsSelection(key, |p.item.items|, p.item.threshold)
    ensures forall j :: 0 <= j < |key| ==>
      && key[j] < |p.item.items| && AvailableAlong(p.item.items[key[j]], signers, path)
      && (AsksNothing(p.item.items, path) || key[j] in Selected(p, path))
  {
    var items, k := p.item.items, p.item.threshold;
    key :| (
      && IsSelection(key, |items|, k)
      && (AsksNothing(items, path) || forall j :: 0 <= j < k ==> key[j] in Selected(p, path))
      && forall j :: 0 <= j < k ==> AvailableAlong(items[key[j]], signers, path));
  }

  /** Enough children of a threshold, each with a condition that asks no more than the path does. */
  lemma {:induction false} EnoughChoice(p: Policy, signers: set<nat>, path: Path, c: Condition)
    returns (key: seq<nat>, choice: seq<Condition>)
    requires p.item.Thresh? && AvailableAlong(p, signers, path) && GetCondition(p, path) == Ok(c)
    ensures IsSelection(key, |p.item.items|, p.item.threshold) && |choice| == |key|
    ensures forall j :: 0 <= j < |key| ==>
      key[j] < |p.item.items| && Achieves(p.item.items[key[j]], signers, choice[j]) && AtMost(choice[j], c)
    decreases p, 0
  {
    hide Achieves, AtMost, AvailableAlong, GetCondition, AsksNothing, Selected;
    var items := p.item.items;
    key := SelectedAreAvailable(p, signers, path);
    choice := [];
    while |choice| < |key|
      invariant |choice| <= |key|
      invariant forall j :: 0 <= j < |choice| ==> Achieves(items[key[j]], signers, choice[j]) && AtMost(choice[j], c)
    {
      var i := key[|choice|];
      ChildAsksNoMore(p, path, c, i);
      var e := PathIsEnough(items[i], signers, path, GetCondition(items[i], path).value);
      AtMostTransitive(e, GetCondition(items[i], path).value, c);
      choice := choice + [e];
    }
  }

  /** Whatever the path selects beyond the threshold, its condition is enough for some way to satisfy the tree. */
  lemma {:induction false} PathIsEnough(p: Policy, signers: set<nat>, path: Path, c: Condition) returns (d: Condition)
    requires AvailableAlong(p, signers, path) && GetCondition(p, path) == Ok(c)
    ensures Achieves(p, signers, d) && AtMost(d, c)
    decreases p, 1
  {
    if p.item.Thresh? {
      hide Achieves, AtMost, AvailableAlong, GetCondition;
      var key, choice := EnoughChoice(p, signers, path, c);
      AllAtMost(choice, c);
      d := MergeAll(choice).value;
      ChoiceAchieves(p, signers, d, key, choice);
    } else {
      LeafIsEnough(p, signers, path, c);
      d := c;
    }
  }

  lemma AllAtMost(choice: seq<Condition>, c: Condition)
    requires forall j :: 0 <= j < |choice| ==> AtMost(choice[j], c)
    ensures MergeAll(choice).Ok? && AtMost(MergeAll(choice).value, c)
  {
    FoldIsJoin(NO_CONDITION, choice, c);
  }

  lemma LeafIsEnough(p: Policy, signers: set<nat>, path: Path, c: Condition)
    requires !p.item.Thresh? && AvailableAlong(p, signers, path) && GetCondition(p, path) == Ok(c)
    ensures Achieves(p, signers, c) && AtMost(c, c)
  {
  }

  /** ... so building the policy has recorded a contribution that asks for no more than the path does. */
  lemma PathIsCovered(p: Policy, signers: set<nat>, path: Path, c: Condition)
    requires IsBuilt(p, signers) && AvailableAlong(p, signers, path) && GetCondition(p, path) == Ok(c)
    ensures exists d :: d in ConditionsOf(p.contribution) && AtMost(d, c)
  {
    var d := PathIsEnough(p, signers, path, c);
    ContributionDenotes(p, signers, d);
  }

  // ------------------------------------------------ exact paths are contributions

  lemma NothingIsAsked(p: Policy, path: Path)
    requires p.item.Thresh? && AsksNothing(p.item.items, path)
    ensures GetCondition(p, path) == Ok(NO_CONDITION)
  {
    hide Selected, MergeSelected;
  }

  /** How many children of a threshold contribute, and that those selected do. */
  lemma Contributors(p: Policy, signers: set<nat>, path: Path) returns (key: seq<nat>)
    requires p.item.Thresh? && Contributes(p, signers, path)
    ensures AsksNothing(p.item.items, path) ==>
      && IsSelection(key, |p.item.items|, p.item.threshold)
      && forall j :: 0 <= j < |key| ==> key[j] < |p.item.items| && Contributes(p.item.items[key[j]], signers, path)
    ensures !AsksNothing(p.item.items, path) ==>
      && |Selected(p, path)| == p.item.threshold
      && forall i: nat :: i < |p.item.items| && i in Selected(p, path) ==> Contributes(p.item.items[i], signers, path)
  {
    hide Selected, GetCondition, AsksNothing;
    var items, k := p.item.items, p.item.threshold;
    key := [];
    if AsksNothing(items, path) {
      key :| IsSelection(key, |items|, k) && forall j :: 0 <= j < k ==> Contributes(items[key[j]], signers, path);
    }
  }

  /** The choice of children and conditions behind the condition of an exact path. */
  lemma ExactChoice(p: Policy, signers: set<nat>, path: Path, c: Condition) returns (key: seq<nat>, choice: seq<Condition>)
    requires p.item.Thresh? && Contributes(p, signers, path) && GetCondition(p, path) == Ok(c)
    ensures IsSelection(key, |p.item.items|, p.item.threshold) && |choice| == |key|
    ensures forall j :: 0 <= j < |key| ==>
      && key[j] < |p.item.items|
      && Contributes(p.item.items[key[j]], signers, path) && GetCondition(p.item.items[key[j]], path) == Ok(choice[j])
      && (AsksNothing(p.item.items, path) || key[j] in Selected(p, path))
    ensures MergeAll(choice) == Ok(c)
  {
    hide Selected, GetCondition, Contributes, MergeSelected;
    var items, k := p.item.items, p.item.threshold;
    key := Contributors(p, signers, path);
    if AsksNothing(items, path) {
      NothingIsAsked(p, path);
      choice := seq(k, _ => NO_CONDITION);
      MergeNothing(choice);
    } else {
      ThresholdFolds(p, path, c);
      key, choice := MergeSelectedChoice(NO_CONDITION, ChildConditions(items, path), Selected(p, path), 0, c);
      assert (set i | i in Selected(p, path) && i >= 0) == Selected(p, path);
    }
  }

  /** The condition of an exact path is one that the tree can be satisfied under. */
  lemma {:induction false} PathIsAchieved(p: Policy, signers: set<nat>, path: Path, c: Condition)
    requires Contributes(p, signers, path) && GetCondition(p, path) == Ok(c)
    ensures Achieves(p, signers, c)
    decreases p
  {
    match p.item
    case Thresh(items, k) =>
      var key, choice := ExactChoice(p, signers, path, c);
      forall j | 0 <= j < |key| ensures Achieves(items[key[j]], signers, choice[j]) {
        PathIsAchieved(items[key[j]], signers, path, choice[j]);
      }
      ChoiceAchieves(p, signers, c, key, choice);
    case _ =>
  }

  /** An exact path is one along which the wallet can contribute enough. */
  lemma {:induction false} ExactIsAvailable(p: Policy, signers: set<nat>, path: Path, c: Condition)
    requires Contributes(p, signers, path) && GetCondition(p, path) == Ok(c)
    ensures AvailableAlong(p, signers, path)
    decreases p
  {
    if p.item.Thresh? {
      hide GetCondition, Contributes;
      var key, choice := ExactChoice(p, signers, path, c);
      var items := p.item.items;
      forall j | 0 <= j < |key| ensures AvailableAlong(items[key[j]], signers, path) {
        ExactIsAvailable(items[key[j]], signers, path, choice[j]);
      }
      ChildrenAvailable(p, signers, path, key);
    }
  }

  lemma ChildrenAvailable(p: Policy, signers: set<nat>, path: Path, key: seq<nat>)
    requires p.item.Thresh? && IsSelection(key, |p.item.items|, p.item.threshold)
    requires forall j :: 0 <= j < |key| ==>
      && key[j] < |p.item.items| && AvailableAlong(p.item.items[key[j]], signers, path)
      && (AsksNothing(p.item.items, path) || key[j] in Selected(p, path))
    ensures AvailableAlong(p, signers, path)
  {
    hide AsksNothing, Selected;
  }

  /** ... and therefore one that building the policy has recorded. */
  lemma PathIsRecorded(p: Policy, signers: set<nat>, path: Path, c: Condition)
    requires IsBuilt(p, signers) && Contributes(p, signers, path) && GetCondition(p, path) == Ok(c)
    ensures c in ConditionsOf(p.contribution)
  {
    PathIsAchieved(p, signers, path, c);
    ContributionDenotes(p, signers, c);
  }

  // ------------------------------------------------ contributions are exact paths

  /** The ids of a tree's nodes. */
  ghost function Ids(p: Policy): set<nat> {
    {p.id} + if p.item.Thresh? then set i, x | 0 <= i < |p.item.items| && x in Ids(p.item.items[i]) :: x else {}
  }

  /** No two nodes share an id. */
  ghost predicate HasDistinctIds(p: Policy) {
    p.item.Thresh? ==>
      && (forall i :: 0 <= i < |p.item.items| ==> HasDistinctIds(p.item.items[i]) && p.id !in Ids(p.item.items[i]))
      && (forall i, j :: 0 <= i < j < |p.item.items| ==> Ids(p.item.items[i]) !! Ids(p.item.items[j]))
  }

  ghost predicate AgreeOn(ids: set<nat>, a: Path, b: Path) {
    forall x :: x in ids ==> (x in a <==> x in b) && (x in a ==> a[x] == b[x])
  }

  /** Only the path entries of the tree's own ids matter. */
  lemma {:induction false} OnlyOwnIdsMatter(p: Policy, signers: set<nat>, a: Path, b: Path)
    requires AgreeOn(Ids(p), a, b)
    ensures GetCondition(p, a) == GetCondition(p, b)
    ensures Contributes(p, signers, a) <==> Contributes(p, signers, b)
    decreases p
  {
    SameSelected(p, a, b);
    if p.item.Thresh? {
      hide GetCondition, Contributes, Selected, AgreeOn;
      var items := p.item.items;
      forall i | 0 <= i < |items|
        ensures GetCondition(items[i], a) == GetCondition(items[i], b)
        ensures Contributes(items[i], signers, a) <==> Contributes(items[i], signers, b)
      {
        ChildAgrees(p, i, a, b);
        OnlyOwnIdsMatter(items[i], signers, a, b);
      }
      SameThreshold(p, signers, a, b);
    }
  }

  lemma SameSelected(p: Policy, a: Path, b: Path)
    requires AgreeOn(Ids(p), a, b)
    ensures Selected(p, a) == Selected(p, b)
  {
    assert p.id in Ids(p);
  }

  lemma ChildAgrees(p: Policy, i: nat, a: Path, b: Path)
    requires p.item.Thresh? && i < |p.item.items| && AgreeOn(Ids(p), a, b)
    ensures AgreeOn(Ids(p.item.items[i]), a, b)
  {
    assert Ids(p.item.items[i]) <= Ids(p);
  }

  lemma SameThreshold(p: Policy, signers: set<nat>, a: Path, b: Path)
    requires p.item.Thresh? && Selected(p, a) == Selected(p, b)
    requires forall i :: 0 <= i < |p.item.items| ==>
      && GetCondition(p.item.items[i], a) == GetCondition(p.item.items[i], b)
      && (Contributes(p.item.items[i], signers, a) <==> Contributes(p.item.items[i], signers, b))
    ensures GetCondition(p, a) == GetCondition(p, b)
    ensures Contributes(p, signers, a) <==> Contributes(p, signers, b)
  {
    hide Selected, MergeSelected;
    var items := p.item.items;
    assert seq(|items|, i requires 0 <= i < |items| => GetCondition(items[i], a))
        == seq(|items|, i requires 0 <= i < |items| => GetCondition(items[i], b));
    assert AsksNothing(items, a) <==> AsksNothing(items, b);
  }

  /** The path leads through each child of `key` so far, which contributes its chosen condition. */
  ghost predicate LeadsThrough(items: seq<Policy>, signers: set<nat>, key: seq<nat>, choice: seq<Condition>, path: Path, k: nat)
    requires k <= |key| == |choice|
  {
    && (forall j :: 0 <= j < k ==>
          && key[j] < |items|
          && Contributes(items[key[j]], signers, path) && GetCondition(items[key[j]], path) == Ok(choice[j]))
    && (forall x :: x in path ==> exists j :: 0 <= j < k && key[j] < |items| && x in Ids(items[key[j]]))
  }

  /** Adding the path of one more child disturbs none of the others. */
  lemma LeadFurther(p: Policy, signers: set<nat>, key: seq<nat>, choice: seq<Condition>, path: Path, k: nat, next: Path)
    requires p.item.Thresh? && HasDistinctIds(p)
    requires k < |key| == |choice| && IsSelection(key, |p.item.items|, |key|)
    requires LeadsThrough(p.item.items, signers, key, choice, path, k)
    requires next.Keys <= Ids(p.item.items[key[k]])
    requires Contributes(p.item.items[key[k]], signers, next) && GetCondition(p.item.items[key[k]], next) == Ok(choice[k])
    ensures LeadsThrough(p.item.items, signers, key, choice, path + next, k + 1)
  {
    hide Contributes, GetCondition, Ids;
    var items := p.item.items;
    forall j | 0 <= j < k ensures Ids(items[key[j]]) !! Ids(items[key[k]]) {
      assert key[j] < key[k];
    }
    forall j | 0 <= j <= k
      ensures Contributes(items[key[j]], signers, path + next) && GetCondition(items[key[j]], path + next) == Ok(choice[j])
    {
      OnlyOwnIdsMatter(items[key[j]], signers, if j == k then next else path, path + next);
    }
  }

  /** The selected children, folded in index order, merge like the choice. */
  lemma {:induction false} SelectedMerge(acc: Condition, mapped: seq<Result<Condition, PolicyError>>, selected: set<nat>,
                                         k: nat, key: seq<nat>, choice: seq<Condition>)
    requires k <= |mapped| && |choice| == |key|
    requires forall i, j :: 0 <= i < j < |key| ==> key[i] < key[j]
    requires forall i: nat :: i in key <==> k <= i < |mapped| && i in selected
    requires forall j :: 0 <= j < |key| ==> key[j] < |mapped| && mapped[key[j]] == Ok(choice[j])
    ensures MergeSelected(acc, mapped, selected, k) == MergeFrom(acc, choice)
    decreases |mapped| - k
  {
    if key == [] {
      SkipAll(acc, mapped, selected, k);
    } else {
      assert key[0] in key;
      if k !in selected {
        SelectedMerge(acc, mapped, selected, k + 1, key, choice);
      } else {
        assert k in key;
        var x :| 0 <= x < |key| && key[x] == k;
        assert key[0] == k;
        forall i: nat ensures i in key[1..] <==> k + 1 <= i < |mapped| && i in selected {
          assert key == [key[0]] + key[1..];
        }
        if Merge(acc, choice[0]).Ok? {
          SelectedMerge(Merge(acc, choice[0]).value, mapped, selected, k + 1, key[1..], choice[1..]);
        }
      }
    }
  }

  lemma {:induction false} SkipAll(acc: Condition, mapped: seq<Result<Condition, PolicyError>>, selected: set<nat>, k: nat)
    requires k <= |mapped| && forall i: nat :: !(k <= i < |mapped| && i in selected)
    ensures MergeSelected(acc, mapped, selected, k) == Ok(acc)
    decreases |mapped| - k
  {
    if k < |mapped| {
      SkipAll(acc, mapped, selected, k + 1);
    }
  }

  lemma {:induction false} SelectionSize(key: seq<nat>)
    requires forall i, j :: 0 <= i < j < |key| ==> key[i] < key[j]
    ensures |set i: nat | i in key| == |key|
  {
    if key != [] {
      var k := |key| - 1;
      SelectionSize(key[..k]);
      assert key == key[..k] + [key[k]];
      assert key[k] !in key[..k];
      assert (set i: nat | i in key) == (set i: nat | i in key[..k]) + {key[k]};
    }
  }

  /** The entries of a path through children are those of the tree's own ids, but not of the node itself. */
  lemma LedIds(p: Policy, signers: set<nat>, key: seq<nat>, choice: seq<Condition>, path: Path)
    requires p.item.Thresh? && HasDistinctIds(p) && |key| == |choice|
    requires LeadsThrough(p.item.items, signers, key, choice, path, |key|)
    ensures path.Keys <= Ids(p) && p.id !in path
  {
    hide Contributes, GetCondition;
    forall x | x in path ensures x in Ids(p) && x != p.id {
      var j :| 0 <= j < |key| && key[j] < |p.item.items| && x in Ids(p.item.items[key[j]]);
    }
  }

  /** Selecting the chosen children at the node itself completes the path. */
  lemma CompletePath(p: Policy, signers: set<nat>, key: seq<nat>, choice: seq<Condition>, path: Path, c: Condition)
    requires p.item.Thresh? && HasDistinctIds(p)
    requires |key| == |choice| && IsSelection(key, |p.item.items|, p.item.threshold)
    requires LeadsThrough(p.item.items, signers, key, choice, path, |key|) && MergeAll(choice) == Ok(c)
    ensures Contributes(p, signers, path[p.id := key]) && GetCondition(p, path[p.id := key]) == Ok(c)
    ensures path[p.id := key].Keys <= Ids(p)
  {
    hide GetCondition, Contributes, MergeAll, Ids;
    var items, full := p.item.items, path[p.id := key];
    LedIds(p, signers, key, choice, path);
    OwnId(p);
    forall j | 0 <= j < |key|
      ensures Contributes(items[key[j]], signers, full) && GetCondition(items[key[j]], full) == Ok(choice[j])
    {
      OnlyOwnIdsMatter(items[key[j]], signers, path, full);
    }
    SelectedByKey(p, signers, key, choice, full, c);
  }

  lemma OwnId(p: Policy)
    ensures p.id in Ids(p)
  {
  }

  lemma SelectedByKey(p: Policy, signers: set<nat>, key: seq<nat>, choice: seq<Condition>, full: Path, c: Condition)
    requires p.item.Thresh? && p.id in full && full[p.id] == key
    requires |key| == |choice| && IsSelection(key, |p.item.items|, p.item.threshold)
    requires forall j :: 0 <= j < |key| ==>
      && key[j] < |p.item.items|
      && Contributes(p.item.items[key[j]], signers, full) && GetCondition(p.item.items[key[j]], full) == Ok(choice[j])
    requires MergeAll(choice) == Ok(c)
    ensures Contributes(p, signers, full) && GetCondition(p, full) == Ok(c)
  {
    var items := p.item.items;
    var mapped := seq(|items|, i requires 0 <= i < |items| => GetCondition(items[i], full));
    assert Selected(p, full) == set i: nat | i in key;
    SelectionSize(key);
    if AsksNothing(items, full) {
      forall j | 0 <= j < |choice| ensures choice[j] == NO_CONDITION {
        assert GetCondition(items[key[j]], full) == Ok(NO_CONDITION);
      }
      MergeNothing(choice);
    } else {
      var i :| 0 <= i < |items| && GetCondition(items[i], full) != Ok(NO_CONDITION);
      assert !(mapped[i].Ok? && IsNull(mapped[i].value));
      forall x: nat ensures x in key <==> 0 <= x < |mapped| && x in Selected(p, full) {
      }
      SelectedMerge(NO_CONDITION, mapped, Selected(p, full), 0, key, choice);
    }
  }

  /** With distinct ids, every condition under which the tree can be satisfied is that of an exact path. */
  lemma {:induction false} AchievedByPath(p: Policy, signers: set<nat>, c: Condition) returns (path: Path)
    requires HasDistinctIds(p) && Achieves(p, signers, c)
    ensures Contributes(p, signers, path) && GetCondition(p, path) == Ok(c) && path.Keys <= Ids(p)
    decreases p
  {
    path := map[];
    match p.item
    case Thresh(items, k) =>
      var key, choice := ThresholdChoice(p, signers, c);
      var n := 0;
      while n < |key|
        invariant 0 <= n <= |key|
        invariant LeadsThrough(items, signers, key, choice, path, n)
      {
        hide LeadsThrough, Contributes, GetCondition, Achieves, Ids;
        var next := AchievedByPath(items[key[n]], signers, choice[n]);
        LeadFurther(p, signers, key, choice, path, n, next);
        path := path + next;
        n := n + 1;
      }
      CompletePath(p, signers, key, choice, path, c);
      path := path[p.id := key];
    case Multisig(keys, k) =>
      var key :| IsSelection(key, |keys|, k) && forall j :: 0 <= j < k ==> keys[key[j]] in signers;
      IncreasingFits(key, |keys|);
      IndicesSize(|keys|);
    case _ =>
  }

  lemma {:induction false} IndicesSize(n: nat)
    ensures |Indices(n)| == n
  {
    if n > 0 {
      IndicesSize(n - 1);
    }
  }

  /**
   * In a tree with distinct ids the recorded contributions are exactly the conditions of the exact paths
   * along which the wallet can contribute.
   */
  lemma ContributionsArePaths(p: Policy, signers: set<nat>, c: Condition)
    requires IsBuilt(p, signers) && HasDistinctIds(p)
    ensures c in ConditionsOf(p.contribution) <==>
      exists path :: Contributes(p, signers, path) && GetCondition(p, path) == Ok(c)
  {
    ContributionDenotes(p, signers, c);
    if Achieves(p, signers, c) {
      var path := AchievedByPath(p, signers, c);
    }
    if path :| Contributes(p, signers, path) && GetCondition(p, path) == Ok(c) {
      PathIsAchieved(p, signers, path, c);
    }
  }

  /**
   * Distinct ids are needed: the conjunction of a choice between two timelocks with itself has one id, and so
   * one path entry, for both sides. Meeting one lock on each side is recorded, but no exact path leads there.
   */
  lemma SharedIdExample(p: Policy, either: Policy, older: Policy, after: Policy, v: Sequence, t: LockTime, signers: set<nat>)
    requires older.item == RelativeTimelock(v) && after.item == AbsoluteTimelock(t)
    requires either.item == Thresh([older, after], 1) && p.item == Thresh([either, either], 2)
    requires IsBuilt(p, signers)
    ensures Condition(Some(v), Some(t)) in ConditionsOf(p.contribution)
    ensures !exists path :: Contributes(p, signers, path) && GetCondition(p, path) == Ok(Condition(Some(v), Some(t)))
  {
    hide Contributes, GetCondition, IsSelection, MergeAll;
    var both, csv, timelock := Condition(Some(v), Some(t)), Condition(Some(v), None), Condition(None, Some(t));
    ContributionDenotes(p, signers, both);
    EitherLock(either, older, after, v, t, signers);
    AndMeaning(p, either, either, signers, both);
    assert Merge(csv, timelock) == Ok(both);
    forall path | Contributes(p, signers, path) && GetCondition(p, path) == Ok(both) ensures false {
      var key, choice := ExactChoice(p, signers, path, both);
      SelectionsOfTwo(key);
      assert choice == [choice[0], choice[1]];
      MergePair(choice[0], choice[1]);
      assert choice[0] == choice[1];
      PathIsAchieved(either, signers, path, choice[0]);
    }
  }

  lemma EitherLock(either: Policy, older: Policy, after: Policy, v: Sequence, t: LockTime, signers: set<nat>)
    requires older.item == RelativeTimelock(v) && after.item == AbsoluteTimelock(t) && either.item == Thresh([older, after], 1)
    ensures forall c :: Achieves(either, signers, c) <==> c == Condition(Some(v), None) || c == Condition(None, Some(t))
  {
    forall c ensures Achieves(either, signers, c) <==> c == Condition(Some(v), None) || c == Condition(None, Some(t)) {
      hide IsSelection, MergeAll;
      OrMeaning(either, older, after, signers, c);
    }
  }

  // ---------------------------------------------------------------- what is selected

  /** With an entry, the path leads to the children it lists and to no others. */
  lemma EntrySelects(p: Policy, path: Path, leaf: Condition)
    requires p.item.Thresh? && p.id in path
    ensures Active(p, path, leaf) <==>
      exists i :: 0 <= i < |p.item.items| && i in path[p.id] && Active(p.item.items[i], path, leaf)
  {
    hide AtMost;
    assert forall i: nat :: i in Selected(p, path) <==> i in path[p.id];
  }

  /** Without one it leads to all children of an n-of-n threshold, and to none of any other. */
  lemma NoEntrySelects(p: Policy, path: Path, leaf: Condition)
    requires p.item.Thresh? && p.id !in path
    ensures Active(p, path, leaf) <==>
      && p.item.threshold == |p.item.items|
      && exists i :: 0 <= i < |p.item.items| && Active(p.item.items[i], path, leaf)
  {
  }

  lemma EntryIsSelected(p: Policy, path: Path, n: nat)
    requires p.id in path
    ensures Selected(p, path) == set i: nat | i in path[p.id]
    ensures (exists i: nat :: i in Selected(p, path) && i >= n) <==> exists i: nat :: i in path[p.id] && i >= n
  {
    if i: nat :| i in path[p.id] && i >= n {
      assert i in Selected(p, path);
    }
  }

  /** Once a child asks for something, the outcome depends on the selection: its range, its size, its conditions. */
  lemma SelectionDecides(p: Policy, path: Path)
    requires p.item.Thresh? && !AsksNothing(p.item.items, path)
    ensures GetCondition(p, path) ==
      if exists i: nat :: i in Selected(p, path) && i >= |p.item.items| then Err(IndexOutOfRange)
      else if |Selected(p, path)| < p.item.threshold then Err(NotEnoughItemsSelected(p.id))
      else MergeSelected(NO_CONDITION, ChildConditions(p.item.items, path), Selected(p, path), 0)
  {
    hide MergeSelected, Selected;
    var items := p.item.items;
    var mapped := seq(|items|, i requires 0 <= i < |items| => GetCondition(items[i], path));
    assert mapped == ChildConditions(items, path);
    var i :| 0 <= i < |items| && GetCondition(items[i], path) != Ok(NO_CONDITION);
    assert !(mapped[i].Ok? && IsNull(mapped[i].value));
  }

  /** A threshold whose children ask for something refuses an index out of range first, then a selection too small. */
  lemma ThresholdRefuses(p: Policy, path: Path)
    requires p.item.Thresh? && !AsksNothing(p.item.items, path)
    ensures p.id in path && (exists i: nat :: i in path[p.id] && i >= |p.item.items|) ==>
      GetCondition(p, path) == Err(IndexOutOfRange)
    ensures (&& p.id in path && (forall i: nat :: i in path[p.id] ==> i < |p.item.items|)
             && |set i: nat | i in path[p.id]| < p.item.threshold) ==>
      GetCondition(p, path) == Err(NotEnoughItemsSelected(p.id))
    ensures p.id !in path && 0 < p.item.threshold != |p.item.items| ==>
      GetCondition(p, path) == Err(NotEnoughItemsSelected(p.id))
  {
    hide GetCondition, MergeSelected, AsksNothing;
    SelectionDecides(p, path);
    if p.id in path {
      EntryIsSelected(p, path, |p.item.items|);
      hide Selected;
    } else if p.item.threshold != |p.item.items| {
      assert Selected(p, path) == {};
    }
  }

  /** A multisig counts the distinct indexes listed, or all its keys; then it looks at their range. */
  lemma MultisigCounts(p: Policy, path: Path)
    requires p.item.Multisig?
    ensures p.id !in path ==>
      GetCondition(p, path) == if |p.item.keys| < p.item.required then Err(NotEnoughItemsSelected(p.id)) else Ok(NO_CONDITION)
    ensures p.id in path ==>
      GetCondition(p, path) ==
        if |set i: nat | i in path[p.id]| < p.item.required then Err(NotEnoughItemsSelected(p.id))
        else if exists i: nat :: i in path[p.id] && i >= |p.item.keys| then Err(IndexOutOfRange)
        else Ok(NO_CONDITION)
  {
    if p.id in path {
      EntryIsSelected(p, path, |p.item.keys|);
      hide Selected;
    } else {
      IndicesSize(|p.item.keys|);
    }
  }

  /** Without an entry an n-of-n threshold merges what all its children ask for. */
  lemma AllChildrenMerge(p: Policy, path: Path, conditions: seq<Condition>)
    requires p.item.Thresh? && p.id !in path && p.item.threshold == |p.item.items| == |conditions|
    requires forall i :: 0 <= i < |conditions| ==> GetCondition(p.item.items[i], path) == Ok(conditions[i])
    ensures GetCondition(p, path) == MergeAll(conditions)
  {
    hide MergeSelected, MergeAll, GetCondition;
    var items := p.item.items;
    if AsksNothing(items, path) {
      NothingIsAsked(p, path);
      forall i | 0 <= i < |conditions| ensures conditions[i] == NO_CONDITION {
        assert GetCondition(items[i], path) == Ok(NO_CONDITION);
      }
      MergeNothing(conditions);
    } else {
      hide AsksNothing;
      AllSelected(p, path);
      SelectionDecides(p, path);
      SelectAllMerge(ChildConditions(items, path), Selected(p, path), conditions);
    }
  }

  lemma AllSelected(p: Policy, path: Path)
    requires p.item.Thresh? && p.id !in path && p.item.threshold == |p.item.items|
    ensures |Selected(p, path)| == |p.item.items|
    ensures forall i: nat :: i in Selected(p, path) <==> i < |p.item.items|
  {
    IndicesSize(|p.item.items|);
  }

  lemma SelectAllMerge(mapped: seq<Result<Condition, PolicyError>>, selected: set<nat>, conditions: seq<Condition>)
    requires |mapped| == |conditions| && forall i :: 0 <= i < |mapped| ==> mapped[i] == Ok(conditions[i])
    requires forall i: nat :: i in selected <==> i < |mapped|
    ensures MergeSelected(NO_CONDITION, mapped, selected, 0) == MergeAll(conditions)
  {
    var key: seq<nat> := seq(|mapped|, i => i);
    forall i: nat ensures i in key <==> 0 <= i < |mapped| && i in selected {
      if i < |mapped| {
        assert key[i] == i;
      }
    }
    SelectedMerge(NO_CONDITION, mapped, selected, 0, key, conditions);
  }

  /** Every child can be met without a path, and `bound` meets all of them. */
  ghost predicate MeetsChildren(items: seq<Policy>, bound: Condition) {
    forall i :: 0 <= i < |items| ==> GetCondition(items[i], map[]).Ok? && AtMost(GetCondition(items[i], map[]).value, bound)
  }

  /**
   * A threshold needs a path exactly when some child asks for something and either not all children are
   * needed, or all are but cannot be met together without a path.
   */
  lemma RequiresPathIff(p: Policy)
    requires p.item.Thresh?
    ensures RequiresPath(p) <==>
      && !AsksNothing(p.item.items, map[])
      && if p.item.threshold == |p.item.items| then !exists bound :: MeetsChildren(p.item.items, bound) else p.item.threshold > 0
  {
    hide GetCondition, AsksNothing, MeetsChildren;
    var items, k := p.item.items, p.item.threshold;
    if AsksNothing(items, map[]) {
      NothingIsAsked(p, map[]);
    } else if k != |items| {
      if k > 0 {
        ThresholdRefuses(p, map[]);
      } else {
        EmptySelection(p);
      }
    } else if forall i :: 0 <= i < |items| ==> GetCondition(items[i], map[]).Ok? {
      var conditions := seq(|items|, i requires 0 <= i < |items| => GetCondition(items[i], map[]).value);
      AllChildrenMerge(p, map[], conditions);
      MergeableIff(items, conditions);
    } else {
      ChildErrorSpreads(p);
    }
  }

  lemma MergeableIff(items: seq<Policy>, conditions: seq<Condition>)
    requires |items| == |conditions|
    requires forall i :: 0 <= i < |items| ==> GetCondition(items[i], map[]) == Ok(conditions[i])
    ensures MergeAll(conditions).Ok? <==> exists bound :: MeetsChildren(items, bound)
  {
    hide GetCondition, AtMost;
    FoldIsJoin(NO_CONDITION, conditions, NO_CONDITION);
    if MergeAll(conditions).Ok? {
      var bound := MergeAll(conditions).value;
      forall i | 0 <= i < |items| ensures AtMost(GetCondition(items[i], map[]).value, bound) {
        assert conditions[i] in conditions;
      }
      assert MeetsChildren(items, bound);
    }
    if bound :| MeetsChildren(items, bound) {
      forall c | c in conditions ensures AtMost(c, bound) {
        var i :| 0 <= i < |conditions| && conditions[i] == c;
        assert GetCondition(items[i], map[]).Ok?;
      }
      NothingAtMost(bound);
      FoldIsJoin(NO_CONDITION, conditions, bound);
    }
  }

  lemma NothingAtMost(bound: Condition)
    ensures AtMost(NO_CONDITION, bound)
  {
  }

  lemma EmptySelection(p: Policy)
    requires p.item.Thresh? && p.item.threshold == 0 != |p.item.items| && !AsksNothing(p.item.items, map[])
    ensures GetCondition(p, map[]) == Ok(NO_CONDITION)
  {
    hide GetCondition, AsksNothing;
    SelectionDecides(p, map[]);
    SkipAll(NO_CONDITION, ChildConditions(p.item.items, map[]), {}, 0);
  }

  lemma ChildErrorSpreads(p: Policy)
    requires p.item.Thresh? && p.item.threshold == |p.item.items|
    requires exists i :: 0 <= i < |p.item.items| && GetCondition(p.item.items[i], map[]).Err?
    ensures RequiresPath(p) && !AsksNothing(p.item.items, map[]) && !exists bound :: MeetsChildren(p.item.items, bound)
  {
    hide GetCondition, MergeSelected;
    var items := p.item.items;
    var mapped := ChildConditions(items, map[]);
    var i :| 0 <= i < |items| && GetCondition(items[i], map[]).Err?;
    AllSelected(p, map[]);
    SelectionDecides(p, map[]);
    MergeSelectedErrors(NO_CONDITION, mapped, Selected(p, map[]), 0);
    assert mapped[i].Err? && i in Selected(p, map[]);
  }
}
