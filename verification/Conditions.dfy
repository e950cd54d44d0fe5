/** Timelock conditions: a partial join semilattice under "asks for no more than". */
module Conditions {
  import opened Sequences

  datatype LockTime = Blocks(value: nat) | Seconds(value: nat)

  type Sequence = s: nat | s < 0x1_0000_0000 witness 0

  const DISABLE_FLAG: nat := 0x8000_0000
  const TYPE_FLAG: nat := 0x40_0000
  const LOCK_MASK: nat := 0x1_0000

  predicate IsRelativeLockTime(s: Sequence) {
    s < DISABLE_FLAG
  }

  predicate IsTimeLocked(s: Sequence) {
    IsRelativeLockTime(s) && (s / TYPE_FLAG) % 2 == 1
  }

  datatype Condition = Condition(csv: Option<Sequence>, timelock: Option<LockTime>)

  const NO_CONDITION := Condition(None, None)

  datatype PolicyError =
    | NotEnoughItemsSelected(id: nat)
    | IndexOutOfRange
    | AddOnLeaf
    | AddOnPartialComplete
    | MixedTimelockUnits

  function MergeLockTime(a: LockTime, b: LockTime): Result<LockTime, PolicyError> {
    if a.Blocks? != b.Blocks? then Err(MixedTimelockUnits)
    else if a.value > b.value then Ok(a)
    else Ok(b)
  }

  function MergeSequence(a: Sequence, b: Sequence): Result<Sequence, PolicyError> {
    if IsTimeLocked(a) != IsTimeLocked(b) then Err(MixedTimelockUnits)
    else Ok(if a > b then a else b)
  }

  /** Combine two optional requirements; a missing one asks for nothing. */
  function MergeOption<T>(a: Option<T>, b: Option<T>, merge: (T, T) -> Result<T, PolicyError>): Result<Option<T>, PolicyError> {
    match (a, b)
    case (Some(x), Some(y)) => (match merge(x, y) case Ok(z) => Ok(Some(z)) case Err(e) => Err(e))
    case (None, _) => Ok(b)
    case (_, None) => Ok(a)
  }

  function Merge(a: Condition, b: Condition): Result<Condition, PolicyError> {
    match MergeOption(a.csv, b.csv, MergeSequence)
    case Err(e) => Err(e)
    case Ok(csv) =>
      match MergeOption(a.timelock, b.timelock, MergeLockTime)
      case Err(e) => Err(e)
      case Ok(timelock) => Ok(Condition(csv, timelock))
  }

  // ---------------------------------------------------------------- the order

  predicate CsvAtMost(a: Option<Sequence>, b: Option<Sequence>) {
    a.Some? ==> b.Some? && IsTimeLocked(a.value) == IsTimeLocked(b.value) && a.value <= b.value
  }

  predicate LockAtMost(a: Option<LockTime>, b: Option<LockTime>) {
    a.Some? ==> b.Some? && a.value.Blocks? == b.value.Blocks? && a.value.value <= b.value.value
  }

  /** Whoever meets `b` meets `a`: every lock of `a` is there in the same unit and at least as late. */
  predicate AtMost(a: Condition, b: Condition) {
    CsvAtMost(a.csv, b.csv) && LockAtMost(a.timelock, b.timelock)
  }

  lemma AtMostTransitive(a: Condition, b: Condition, c: Condition)
    requires AtMost(a, b) && AtMost(b, c)
    ensures AtMost(a, c)
  {
  }

  lemma AtMostAntisymmetric(a: Condition, b: Condition)
    requires AtMost(a, b) && AtMost(b, a)
    ensures a == b
  {
  }

  /** `merge` is the least upper bound; it fails exactly when units are mixed, that is, when no bound exists. */
  lemma MergeIsJoin(a: Condition, b: Condition, bound: Condition)
    ensures Merge(a, b).Ok? ==> AtMost(a, Merge(a, b).value) && AtMost(b, Merge(a, b).value)
    ensures AtMost(a, bound) && AtMost(b, bound) ==> Merge(a, b).Ok? && AtMost(Merge(a, b).value, bound)
    ensures Merge(a, b).Err? ==> Merge(a, b).error == MixedTimelockUnits
    ensures Merge(a, b).Err? <==>
      || (a.csv.Some? && b.csv.Some? && IsTimeLocked(a.csv.value) != IsTimeLocked(b.csv.value))
      || (a.timelock.Some? && b.timelock.Some? && a.timelock.value.Blocks? != b.timelock.value.Blocks?)
    ensures Merge(a, b).Ok? ==>
      && Merge(a, b).value.csv in {a.csv, b.csv}
      && Merge(a, b).value.timelock in {a.timelock, b.timelock}
  {
  }

  // ---------------------------------------------------------------- folds

  function MergeFrom(acc: Condition, cs: seq<Condition>): Result<Condition, PolicyError>
    decreases |cs|
  {
    if cs == [] then Ok(acc)
    else match Merge(acc, cs[0])
      case Err(e) => Err(e)
      case Ok(next) => MergeFrom(next, cs[1..])
  }

  function MergeAll(cs: seq<Condition>): Result<Condition, PolicyError> {
    MergeFrom(NO_CONDITION, cs)
  }

  ghost predicate Bounds(bound: Condition, acc: Condition, cs: seq<Condition>) {
    AtMost(acc, bound) && forall c :: c in cs ==> AtMost(c, bound)
  }

  lemma {:induction false} FoldIsJoin(acc: Condition, cs: seq<Condition>, bound: Condition)
    ensures MergeFrom(acc, cs).Ok? ==> Bounds(MergeFrom(acc, cs).value, acc, cs)
    ensures Bounds(bound, acc, cs) ==> MergeFrom(acc, cs).Ok? && AtMost(MergeFrom(acc, cs).value, bound)
    ensures MergeFrom(acc, cs).Err? ==> MergeFrom(acc, cs).error == MixedTimelockUnits
    decreases |cs|
  {
    if cs != [] {
      MergeIsJoin(acc, cs[0], bound);
      if Merge(acc, cs[0]).Ok? {
        var next := Merge(acc, cs[0]).value;
        FoldIsJoin(next, cs[1..], bound);
        if MergeFrom(next, cs[1..]).Ok? {
          AtMostTransitive(acc, next, MergeFrom(next, cs[1..]).value);
          AtMostTransitive(cs[0], next, MergeFrom(next, cs[1..]).value);
        }
      }
    }
  }

  /**
   * The fold depends only on which conditions occur: order and repetition change neither the value
   * nor the error.
   */
  lemma FoldIgnoresOrder(cs: seq<Condition>, ds: seq<Condition>)
    requires forall c :: c in cs <==> c in ds
    ensures MergeAll(cs) == MergeAll(ds)
  {
    FoldIsJoin(NO_CONDITION, cs, NO_CONDITION);
    FoldIsJoin(NO_CONDITION, ds, NO_CONDITION);
    if MergeAll(cs).Ok? {
      FoldIsJoin(NO_CONDITION, ds, MergeAll(cs).value);
    }
    if MergeAll(ds).Ok? {
      FoldIsJoin(NO_CONDITION, cs, MergeAll(ds).value);
    }
    if MergeAll(cs).Ok? {
      AtMostAntisymmetric(MergeAll(cs).value, MergeAll(ds).value);
    }
  }

  lemma {:induction false} FoldSnoc(acc: Condition, cs: seq<Condition>, c: Condition)
    ensures MergeFrom(acc, cs + [c])
         == match MergeFrom(acc, cs) case Ok(m) => Merge(m, c) case Err(e) => Err(e)
    decreases |cs|
  {
    if cs == [] {
      assert cs + [c] == [c];
    } else {
      assert (cs + [c])[0] == cs[0] && (cs + [c])[1..] == cs[1..] + [c];
      if Merge(acc, cs[0]).Ok? {
        FoldSnoc(Merge(acc, cs[0]).value, cs[1..], c);
      }
    }
  }
}
