/**
 * The include/exclude decision tree walked by branch and bound. A node is a bit stack over a prefix of
 * the coin list; the include branch is explored first. Nodes are numbered in preorder, so that a
 * subtree is an interval of numbers and "already explored" means "has a smaller number".
 */
module SearchTree {
  import opened Sequences

  function Pow2(n: nat): (p: nat)
    ensures p >= 1
  {
    if n == 0 then 1 else 2 * Pow2(n - 1)
  }

  lemma {:induction false} Pow2Monotone(m: nat, n: nat)
    requires m <= n
    ensures Pow2(m) <= Pow2(n)
  {
    if m < n {
      Pow2Monotone(m, n - 1);
    }
  }

  /** Preorder number of node `a` in the tree of depth n. */
  ghost function Number(n: nat, a: seq<bool>): nat
    requires |a| <= n
    decreases |a|
  {
    if a == [] then 0
    else
      var k := |a| - 1;
      Number(n, a[..k]) + if a[k] then 1 else Pow2(n - k)
  }

  /** First number after the subtree of `a`. */
  ghost function NumberAfter(n: nat, a: seq<bool>): nat
    requires |a| <= n
  {
    Number(n, a) + Pow2(n - |a| + 1) - 1
  }

  lemma NumberOfChild(n: nat, a: seq<bool>, b: bool)
    requires |a| < n
    ensures Number(n, a + [b]) == Number(n, a) + if b then 1 else Pow2(n - |a|)
    ensures NumberAfter(n, a + [b]) <= NumberAfter(n, a)
    ensures !b ==> NumberAfter(n, a + [b]) == NumberAfter(n, a)
    ensures NumberAfter(n, a + [true]) == Number(n, a + [false])
  {
    assert (a + [b])[..|a|] == a && (a + [true])[..|a|] == a && (a + [false])[..|a|] == a;
  }

  /** A subtree's interval lies inside that of every node above it. */
  lemma {:induction false} SubtreeNested(n: nat, a: seq<bool>, k: nat)
    requires k <= |a| <= n
    ensures Number(n, a[..k]) <= Number(n, a) < NumberAfter(n, a) <= NumberAfter(n, a[..k])
    decreases |a|
  {
    if k == |a| {
      assert a[..k] == a;
    } else {
      var j := |a| - 1;
      assert a == a[..j] + [a[j]];
      assert a[..j][..k] == a[..k];
      NumberOfChild(n, a[..j], a[j]);
      SubtreeNested(n, a[..j], k);
    }
  }

  /** Different nodes of one depth have disjoint subtrees. */
  lemma {:induction false} SubtreesDisjoint(n: nat, a: seq<bool>, b: seq<bool>)
    requires |a| == |b| <= n && a != b
    ensures NumberAfter(n, a) <= Number(n, b) || NumberAfter(n, b) <= Number(n, a)
    decreases |a|
  {
    var k := |a| - 1;
    assert a == a[..k] + [a[k]] && b == b[..k] + [b[k]];
    if a[..k] != b[..k] {
      SubtreesDisjoint(n, a[..k], b[..k]);
      SubtreeNested(n, a, k);
      SubtreeNested(n, b, k);
    } else {
      NumberOfChild(n, a[..k], true);
    }
  }

  lemma WithinSubtree(n: nat, node: seq<bool>, leaf: seq<bool>)
    requires |node| <= n && |leaf| == n
    requires Number(n, node) <= Number(n, leaf) < NumberAfter(n, node)
    ensures leaf[..|node|] == node
  {
    SubtreeNested(n, leaf, |node|);
    if leaf[..|node|] != node {
      SubtreesDisjoint(n, node, leaf[..|node|]);
    }
  }

  // ---------------------------------------------------------------- values along a branch

  ghost function Chosen<T>(f: T -> int, pool: seq<T>, a: seq<bool>): int
    requires |a| <= |pool|
  {
    SumOf(f, Pick(pool, a))
  }

  ghost function Rest<T>(f: T -> int, pool: seq<T>, k: nat): int
    requires k <= |pool|
  {
    SumOf(f, pool[k..])
  }

  lemma RestNonNegative<T>(f: T -> int, pool: seq<T>, k: nat)
    requires k <= |pool|
    requires forall x :: x in pool ==> 0 <= f(x)
    ensures 0 <= Rest(f, pool, k)
  {
    SumOfNonNegative(f, pool[k..]);
  }

  lemma ChosenOfChild<T>(f: T -> int, pool: seq<T>, a: seq<bool>, b: bool)
    requires |a| < |pool|
    ensures Chosen(f, pool, a + [b]) == Chosen(f, pool, a) + if b then f(pool[|a|]) else 0
    ensures Rest(f, pool, |a|) == f(pool[|a|]) + Rest(f, pool, |a| + 1)
  {
    assert (a + [b])[..|a|] == a;
    SumOfAppend(f, Pick(pool, a), [pool[|a|]]);
    if !b {
      assert Pick(pool, a + [b]) == Pick(pool, a);
    }
    assert pool[|a|..] == [pool[|a|]] + pool[|a| + 1..];
  }

  /** Going down a branch never loses value and never gains more than what is still undecided. */
  lemma {:induction false} BranchBounds<T>(f: T -> int, pool: seq<T>, a: seq<bool>, k: nat)
    requires k <= |a| <= |pool|
    requires forall x :: x in pool ==> 0 <= f(x)
    ensures Chosen(f, pool, a[..k]) <= Chosen(f, pool, a)
    ensures Chosen(f, pool, a) + Rest(f, pool, |a|) <= Chosen(f, pool, a[..k]) + Rest(f, pool, k)
    decreases |a|
  {
    if k == |a| {
      assert a[..k] == a;
    } else {
      var j := |a| - 1;
      assert a == a[..j] + [a[j]];
      assert a[..j][..k] == a[..k];
      BranchBounds(f, pool, a[..j], k);
      ChosenOfChild(f, pool, a[..j], a[j]);
    }
  }

  /** Dropping a trailing omission stays at the end of the same subtree. */
  lemma PopOmission<T>(f: T -> int, pool: seq<T>, a: seq<bool>)
    requires 0 < |a| <= |pool| && !a[|a| - 1]
    ensures var p := a[..|a| - 1];
      && Chosen(f, pool, p) == Chosen(f, pool, a)
      && Rest(f, pool, |p|) == Rest(f, pool, |a|) + f(pool[|p|])
      && NumberAfter(|pool|, p) == NumberAfter(|pool|, a)
  {
    var p := a[..|a| - 1];
    assert a == p + [false];
    NumberOfChild(|pool|, p, false);
    ChosenOfChild(f, pool, p, false);
  }

  /** Turning a trailing inclusion into an omission moves to the node right after its subtree. */
  lemma FlipInclusion<T>(f: T -> int, pool: seq<T>, a: seq<bool>)
    requires 0 < |a| <= |pool| && a[|a| - 1]
    ensures var b := a[..|a| - 1] + [false];
      && Chosen(f, pool, b) == Chosen(f, pool, a) - f(pool[|a| - 1])
      && Number(|pool|, b) == NumberAfter(|pool|, a)
  {
    var p := a[..|a| - 1];
    assert a == p + [true];
    NumberOfChild(|pool|, p, true);
    ChosenOfChild(f, pool, p, true);
    ChosenOfChild(f, pool, p, false);
  }

  // ---------------------------------------------------------------- coverage

  /** `leaf` decides every coin and lands within [target, target + slack]. */
  ghost predicate InRange<T>(f: T -> int, pool: seq<T>, start: int, target: int, slack: int, leaf: seq<bool>) {
    |leaf| == |pool| && target <= start + Chosen(f, pool, leaf) <= target + slack
  }

  /** The best value found is at most that of every in-range leaf numbered below `upTo`. */
  ghost predicate Covered<T>(f: T -> int, pool: seq<T>, start: int, target: int, slack: int,
                             best: Option<int>, upTo: nat)
  {
    forall leaf :: InRange(f, pool, start, target, slack, leaf) && Number(|pool|, leaf) < upTo ==>
      best.Some? && best.value <= start + Chosen(f, pool, leaf)
  }

  /** At the root nothing is chosen, everything is undecided and nothing is explored. */
  lemma AtRoot<T>(f: T -> int, pool: seq<T>, start: int, target: int, slack: int)
    ensures Chosen(f, pool, []) == 0 && Rest(f, pool, 0) == SumOf(f, pool) && Rest(f, pool, |pool|) == 0
    ensures Number(|pool|, []) == 0 && NumberAfter(|pool|, []) == Pow2(|pool| + 1) - 1
    ensures Covered(f, pool, start, target, slack, None, 0)
  {
    assert pool[0..] == pool && pool[|pool|..] == [];
  }

  /** A better best value still bounds what was explored. */
  lemma ImprovedBest<T>(f: T -> int, pool: seq<T>, start: int, target: int, slack: int,
                        best: Option<int>, value: int, upTo: nat)
    requires Covered(f, pool, start, target, slack, best, upTo)
    requires best.None? || value < best.value
    ensures Covered(f, pool, start, target, slack, Some(value), upTo)
  {
  }

  /** Cutting off the subtree of `node` is justified by each of the three backtracking conditions. */
  lemma CutOff<T>(f: T -> int, pool: seq<T>, start: int, target: int, slack: int, best: Option<int>, node: seq<bool>)
    requires |node| <= |pool|
    requires forall x :: x in pool ==> 0 <= f(x)
    requires Covered(f, pool, start, target, slack, best, Number(|pool|, node))
    requires var value := start + Chosen(f, pool, node);
      || value + Rest(f, pool, |node|) < target
      || value > target + slack
      || (best.Some? && best.value <= value)
    ensures Covered(f, pool, start, target, slack, best, NumberAfter(|pool|, node))
    ensures Number(|pool|, node) < NumberAfter(|pool|, node)
  {
    var n := |pool|;
    forall leaf | InRange(f, pool, start, target, slack, leaf) && Number(n, leaf) < NumberAfter(n, node)
      ensures best.Some? && best.value <= start + Chosen(f, pool, leaf)
    {
      if Number(n, node) <= Number(n, leaf) {
        WithinSubtree(n, node, leaf);
        BranchBounds(f, pool, leaf, |node|);
        assert pool[n..] == [];
      }
    }
  }

  lemma PerfectMatch<T>(f: T -> int, pool: seq<T>, start: int, target: int, slack: int)
    ensures LowerBound(f, pool, start, target, slack, Some(target))
  {
  }

  lemma NoLeafAtInnerNode(n: nat, node: seq<bool>, leaf: seq<bool>)
    requires |node| < n && |leaf| == n
    ensures Number(n, leaf) != Number(n, node)
  {
    var k := |node|;
    if Number(n, leaf) == Number(n, node) {
      WithinSubtree(n, node, leaf);
      assert leaf[..k + 1] == node + [leaf[k]];
      NumberOfChild(n, node, leaf[k]);
      SubtreeNested(n, leaf, k + 1);
    }
  }

  /** Stepping to the include branch passes over no leaf. */
  lemma StepDown<T>(f: T -> int, pool: seq<T>, start: int, target: int, slack: int, best: Option<int>, node: seq<bool>)
    requires |node| < |pool|
    requires Covered(f, pool, start, target, slack, best, Number(|pool|, node))
    ensures Covered(f, pool, start, target, slack, best, Number(|pool|, node + [true]))
    ensures Number(|pool|, node + [true]) == Number(|pool|, node) + 1
    ensures Chosen(f, pool, node + [true]) == Chosen(f, pool, node) + f(pool[|node|])
    ensures Rest(f, pool, |node| + 1) == Rest(f, pool, |node|) - f(pool[|node|])
  {
    NumberOfChild(|pool|, node, true);
    ChosenOfChild(f, pool, node, true);
    forall leaf | InRange(f, pool, start, target, slack, leaf) && Number(|pool|, leaf) < Number(|pool|, node) + 1
      ensures best.Some? && best.value <= start + Chosen(f, pool, leaf)
    {
      NoLeafAtInnerNode(|pool|, node, leaf);
    }
  }

  /** `best` is the least value over all in-range leaves; None when there is no such leaf. */
  ghost predicate LowerBound<T>(f: T -> int, pool: seq<T>, start: int, target: int, slack: int, best: Option<int>) {
    forall leaf :: InRange(f, pool, start, target, slack, leaf) ==>
      best.Some? && best.value <= start + Chosen(f, pool, leaf)
  }

  lemma CoveredTree<T>(f: T -> int, pool: seq<T>, start: int, target: int, slack: int, best: Option<int>)
    requires Covered(f, pool, start, target, slack, best, NumberAfter(|pool|, []))
    ensures LowerBound(f, pool, start, target, slack, best)
  {
    forall leaf | InRange(f, pool, start, target, slack, leaf)
      ensures best.Some? && best.value <= start + Chosen(f, pool, leaf)
    {
      SubtreeNested(|pool|, leaf, 0);
      assert leaf[..0] == [];
    }
  }
}
