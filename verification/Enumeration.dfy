/**
 * The two work-list enumerators of the policy engine. Both walk a tree of index paths: a path is
 * extended by every index in a range that depends on the path, until it has the wanted length.
 */
module Enumeration {

  datatype Branching = Increasing(n: nat) | Product(dims: seq<nat>)

  function Lo(b: Branching, path: seq<nat>): nat {
    if b.Increasing? && path != [] then path[|path| - 1] + 1 else 0
  }

  function Hi(b: Branching, path: seq<nat>): nat {
    match b
    case Increasing(n) => n
    case Product(dims) => if |path| < |dims| then dims[|path|] else 0
  }

  ghost predicate Follows(b: Branching, path: seq<nat>) {
    forall i :: 0 <= i < |path| ==> Lo(b, path[..i]) <= path[i] < Hi(b, path[..i])
  }

  /** `path` lists `size` positions below n in increasing order. */
  ghost predicate IsSelection(path: seq<nat>, n: nat, size: nat) {
    && |path| == size
    && (forall i :: 0 <= i < |path| ==> path[i] < n)
    && (forall i, j :: 0 <= i < j < |path| ==> path[i] < path[j])
  }

  /** `path` picks one position in each of the lists whose lengths are `dims`. */
  ghost predicate IsTuple(path: seq<nat>, dims: seq<nat>) {
    |path| == |dims| && forall i :: 0 <= i < |path| ==> path[i] < dims[i]
  }

  lemma {:induction false} FollowsIncreasing(n: nat, path: seq<nat>)
    ensures Follows(Increasing(n), path) <==> IsSelection(path, n, |path|)
  {
    if path != [] {
      var k := |path| - 1;
      FollowsIncreasing(n, path[..k]);
      FollowsSnoc(Increasing(n), path[..k], path[k]);
      assert path == path[..k] + [path[k]];
      if IsSelection(path[..k], n, k) && k > 0 {
        assert path[..k][k - 1] == path[k - 1];
        assert forall i :: 0 <= i < k - 1 ==> path[..k][i] < path[..k][k - 1];
      }
    }
  }

  lemma FollowsProduct(dims: seq<nat>, path: seq<nat>)
    requires |path| == |dims|
    ensures Follows(Product(dims), path) <==> IsTuple(path, dims)
  {
  }

  lemma FollowsSnoc(b: Branching, path: seq<nat>, x: nat)
    ensures Follows(b, path + [x]) <==> Follows(b, path) && Lo(b, path) <= x < Hi(b, path)
  {
    var longer := path + [x];
    assert longer[..|path|] == path;
    assert forall i :: 0 <= i < |path| ==> longer[..i] == path[..i];
  }

  // ---------------------------------------------------------------- the answers below a path

  /** All full paths that extend `path`, in the order in which the work list yields them. */
  ghost function Expand(b: Branching, size: nat, path: seq<nat>): seq<seq<nat>>
    decreases if |path| < size then size - |path| else 0, Hi(b, path) + 1
  {
    if |path| >= size then [path] else ExpandBelow(b, size, path, Hi(b, path))
  }

  ghost function ExpandBelow(b: Branching, size: nat, path: seq<nat>, hi: nat): seq<seq<nat>>
    requires |path| < size
    decreases size - |path|, hi
  {
    if hi <= Lo(b, path) then []
    else Expand(b, size, path + [hi - 1]) + ExpandBelow(b, size, path, hi - 1)
  }

  ghost function ExpandAll(b: Branching, size: nat, paths: seq<seq<nat>>): seq<seq<nat>> {
    if paths == [] then [] else Expand(b, size, paths[0]) + ExpandAll(b, size, paths[1..])
  }

  lemma {:induction false} ExpandAllSnoc(b: Branching, size: nat, paths: seq<seq<nat>>, path: seq<nat>)
    ensures ExpandAll(b, size, paths + [path]) == ExpandAll(b, size, paths) + Expand(b, size, path)
  {
    if paths == [] {
      assert paths + [path] == [path];
    } else {
      assert (paths + [path])[1..] == paths[1..] + [path];
      ExpandAllSnoc(b, size, paths[1..], path);
    }
  }

  /** `p` is a full path that extends `path`. */
  ghost predicate Below(b: Branching, size: nat, path: seq<nat>, p: seq<nat>) {
    |p| == size && path <= p && Follows(b, p)
  }

  lemma NextIndex(b: Branching, size: nat, path: seq<nat>, p: seq<nat>)
    requires Below(b, size, path, p) && |path| < size
    ensures Lo(b, path) <= p[|path|] < Hi(b, path)
  {
    assert p[..|path|] == path;
  }

  lemma ChildBelow(b: Branching, size: nat, path: seq<nat>, x: nat, p: seq<nat>)
    requires |path| < size
    ensures Below(b, size, path + [x], p) <==> Below(b, size, path, p) && p[|path|] == x
  {
    if |p| == size {
      assert path + [x] <= p <==> path <= p && p[|path|] == x;
    }
  }

  /** Every full path below `path` is yielded once, and nothing else is. */
  lemma {:induction false} ExpandCount(b: Branching, size: nat, path: seq<nat>, p: seq<nat>)
    requires Follows(b, path) && |path| <= size
    ensures multiset(Expand(b, size, path))[p] == if Below(b, size, path, p) then 1 else 0
    decreases size - |path|, Hi(b, path) + 1
  {
    if |path| < size {
      ExpandBelowCount(b, size, path, Hi(b, path), p);
      if Below(b, size, path, p) {
        NextIndex(b, size, path, p);
      }
    } else {
      assert Below(b, size, path, p) <==> p == path;
    }
  }

  lemma {:induction false} ExpandBelowCount(b: Branching, size: nat, path: seq<nat>, hi: nat, p: seq<nat>)
    requires Follows(b, path) && |path| < size && hi <= Hi(b, path)
    ensures multiset(ExpandBelow(b, size, path, hi))[p]
         == if Below(b, size, path, p) && p[|path|] < hi then 1 else 0
    decreases size - |path|, hi
  {
    hide Follows, Lo, Hi;
    if hi <= Lo(b, path) {
      if Below(b, size, path, p) {
        NextIndex(b, size, path, p);
      }
    } else {
      FollowsSnoc(b, path, hi - 1);
      ExpandCount(b, size, path + [hi - 1], p);
      ExpandBelowCount(b, size, path, hi - 1, p);
      ChildBelow(b, size, path, hi - 1, p);
    }
  }

  /** The first level is queued in ascending order, which only permutes the answers. */
  ghost function Roots(n: nat): (paths: seq<seq<nat>>)
    ensures |paths| == n && forall i :: 0 <= i < n ==> paths[i] == [i]
  {
    seq(n, i requires 0 <= i => [i])
  }

  lemma {:induction false} RootsExpand(b: Branching, size: nat, hi: nat)
    requires size >= 1
    ensures multiset(ExpandAll(b, size, Roots(hi))) == multiset(ExpandBelow(b, size, [], hi))
  {
    if hi > 0 {
      RootsExpand(b, size, hi - 1);
      assert Roots(hi) == Roots(hi - 1) + [[hi - 1]];
      ExpandAllSnoc(b, size, Roots(hi - 1), [hi - 1]);
      assert [] + [hi - 1] == [hi - 1];
    }
  }

  lemma AnswersCount(b: Branching, size: nat, p: seq<nat>)
    requires size >= 1
    ensures multiset(ExpandAll(b, size, Roots(Hi(b, []))))[p] == if |p| == size && Follows(b, p) then 1 else 0
  {
    RootsExpand(b, size, Hi(b, []));
    ExpandBelowCount(b, size, [], Hi(b, []), p);
    if Below(b, size, [], p) {
      NextIndex(b, size, [], p);
    }
  }

  // ---------------------------------------------------------------- the work lists

  /** Number of work-list entries that `path` gives rise to, itself included. */
  ghost function Nodes(b: Branching, size: nat, path: seq<nat>): nat
    decreases if |path| < size then size - |path| else 0, Hi(b, path) + 1
  {
    if |path| >= size then 1 else 1 + NodesBelow(b, size, path, Hi(b, path))
  }

  ghost function NodesBelow(b: Branching, size: nat, path: seq<nat>, hi: nat): nat
    requires |path| < size
    decreases size - |path|, hi
  {
    if hi <= Lo(b, path) then 0
    else Nodes(b, size, path + [hi - 1]) + NodesBelow(b, size, path, hi - 1)
  }

  ghost function NodesAll(b: Branching, size: nat, paths: seq<seq<nat>>): nat {
    if paths == [] then 0 else Nodes(b, size, paths[0]) + NodesAll(b, size, paths[1..])
  }

  lemma PushFront(b: Branching, size: nat, paths: seq<seq<nat>>, path: seq<nat>)
    ensures ExpandAll(b, size, [path] + paths) == Expand(b, size, path) + ExpandAll(b, size, paths)
    ensures NodesAll(b, size, [path] + paths) == Nodes(b, size, path) + NodesAll(b, size, paths)
  {
    assert ([path] + paths)[1..] == paths;
  }

  lemma PopFront(b: Branching, size: nat, paths: seq<seq<nat>>)
    requires paths != []
    ensures ExpandAll(b, size, paths) == Expand(b, size, paths[0]) + ExpandAll(b, size, paths[1..])
    ensures NodesAll(b, size, paths) == Nodes(b, size, paths[0]) + NodesAll(b, size, paths[1..])
    ensures Nodes(b, size, paths[0]) >= 1
  {
  }

  /** The children of `path` with index below `hi` are in front of `rest`, the largest first. */
  ghost predicate ChildrenInFront(b: Branching, size: nat, path: seq<nat>, hi: nat, rest: seq<seq<nat>>, paths: seq<seq<nat>>)
    requires |path| < size
  {
    && ExpandAll(b, size, paths) == ExpandBelow(b, size, path, hi) + ExpandAll(b, size, rest)
    && NodesAll(b, size, paths) == NodesBelow(b, size, path, hi) + NodesAll(b, size, rest)
  }

  lemma PushChild(b: Branching, size: nat, path: seq<nat>, hi: nat, rest: seq<seq<nat>>, paths: seq<seq<nat>>)
    requires |path| < size && Lo(b, path) <= hi
    requires ChildrenInFront(b, size, path, hi, rest, paths)
    ensures ChildrenInFront(b, size, path, hi + 1, rest, [path + [hi]] + paths)
  {
    PushFront(b, size, paths, path + [hi]);
    assert ExpandBelow(b, size, path, hi + 1) == Expand(b, size, path + [hi]) + ExpandBelow(b, size, path, hi);
  }

  lemma ExpandFull(b: Branching, size: nat, path: seq<nat>)
    requires |path| >= size
    ensures Expand(b, size, path) == [path]
  {
  }

  lemma OpenChildren(b: Branching, size: nat, path: seq<nat>, rest: seq<seq<nat>>)
    requires |path| < size
    ensures ChildrenInFront(b, size, path, Lo(b, path), rest, rest)
  {
  }

  /** With all its children in front, the replaced entry's answers are unchanged and its node count is one less. */
  lemma CloseChildren(b: Branching, size: nat, path: seq<nat>, rest: seq<seq<nat>>, paths: seq<seq<nat>>)
    requires |path| < size && ChildrenInFront(b, size, path, Hi(b, path), rest, paths)
    ensures ExpandAll(b, size, paths) == Expand(b, size, path) + ExpandAll(b, size, rest)
    ensures NodesAll(b, size, paths) + 1 == Nodes(b, size, path) + NodesAll(b, size, rest)
  {
  }

  function At<T>(vec: seq<T>, path: seq<nat>): (r: seq<T>)
    requires forall i :: 0 <= i < |path| ==> path[i] < |vec|
    ensures |r| == |path| && forall i :: 0 <= i < |r| ==> r[i] == vec[path[i]]
  {
    seq(|path|, i requires 0 <= i < |path| => vec[path[i]])
  }

  /** A queue entry of `Combinations` carries the last index and the values of its index path. */
  ghost predicate CombinationEntry(vec: seq<nat>, size: nat, path: seq<nat>, entry: (nat, seq<nat>)) {
    && 0 < |path| <= size
    && (forall i :: 0 <= i < |path| ==> path[i] < |vec|)
    && entry == (path[|path| - 1], At(vec, path))
  }

  ghost predicate CombinationQueue(vec: seq<nat>, size: nat, paths: seq<seq<nat>>, queue: seq<(nat, seq<nat>)>) {
    |paths| == |queue| && forall k :: 0 <= k < |queue| ==> CombinationEntry(vec, size, paths[k], queue[k])
  }

  ghost predicate CombinationAnswers(vec: seq<nat>, picks: seq<seq<nat>>, answer: seq<seq<nat>>) {
    && |picks| == |answer|
    && forall k :: 0 <= k < |answer| ==>
      (forall i :: 0 <= i < |picks[k]| ==> picks[k][i] < |vec|) && answer[k] == At(vec, picks[k])
  }

  lemma QueueChild(vec: seq<nat>, size: nat, paths: seq<seq<nat>>, queue: seq<(nat, seq<nat>)>,
                   path: seq<nat>, vals: seq<nat>, j: nat)
    requires CombinationQueue(vec, size, paths, queue)
    requires path != [] && CombinationEntry(vec, size, path, (path[|path| - 1], vals)) && |path| < size && j < |vec|
    ensures CombinationQueue(vec, size, [path + [j]] + paths, [(j, vals + [vec[j]])] + queue)
  {
    assert At(vec, path + [j]) == vals + [vec[j]];
  }

  lemma RecordCombination(vec: seq<nat>, size: nat, picks: seq<seq<nat>>, answer: seq<seq<nat>>, path: seq<nat>,
                          entry: (nat, seq<nat>))
    requires CombinationAnswers(vec, picks, answer) && CombinationEntry(vec, size, path, entry)
    ensures CombinationAnswers(vec, picks + [path], answer + [entry.1])
  {
  }

  /**
   * Every selection of `size` positions of `vec` in increasing order, each exactly once. Asked for
   * selections of size zero, the work list yields the single positions instead.
   */
  method Combinations(vec: seq<nat>, size: nat) returns (answer: seq<seq<nat>>, ghost picks: seq<seq<nat>>)
    requires |vec| >= size
    ensures CombinationAnswers(vec, picks, answer)
    ensures forall p :: multiset(picks)[p] == if IsSelection(p, |vec|, if size == 0 then 1 else size) then 1 else 0
    ensures |answer| == Binomial(|vec|, if size == 0 then 1 else size)
  {
    hide *;
    ghost var b, s := Increasing(|vec|), if size == 0 then 1 else size;
    answer, picks := [], [];
    var queue: seq<(nat, seq<nat>)> := [];
    NothingQueued(vec, s);
    for index := 0 to |vec|
      invariant CombinationQueue(vec, s, Roots(index), queue)
    {
      QueueRoot(vec, s, queue, index);
      queue := queue + [(index, [vec[index]])];
    }
    ghost var paths: seq<seq<nat>> := Roots(|vec|);
    ghost var total := ExpandAll(b, s, paths);
    assert [] + ExpandAll(b, s, paths) == total;
    while queue != []
      invariant CombinationQueue(vec, s, paths, queue)
      invariant CombinationAnswers(vec, picks, answer)
      invariant picks + ExpandAll(b, s, paths) == total
      decreases NodesAll(b, s, paths)
    {
      PopCombination(vec, s, paths, queue);
      PopFront(b, s, paths);
      var (index, vals) := queue[0];
      ghost var path, rest := paths[0], paths[1..];
      queue, paths := queue[1..], rest;
      if |vals| >= size {
        ExpandFull(b, s, path);
        RecordCombination(vec, s, picks, answer, path, (index, vals));
        assert picks + ([path] + ExpandAll(b, s, rest)) == (picks + [path]) + ExpandAll(b, s, rest);
        answer, picks := answer + [vals], picks + [path];
      } else {
        OpenChildren(b, s, path, rest);
        for j := index + 1 to |vec|
          invariant CombinationQueue(vec, s, paths, queue)
          invariant ChildrenInFront(b, s, path, j, rest, paths)
        {
          QueueChild(vec, s, paths, queue, path, vals, j);
          PushChild(b, s, path, j, rest, paths);
          queue, paths := [(j, vals + [vec[j]])] + queue, [path + [j]] + paths;
        }
        CloseChildren(b, s, path, rest, paths);
      }
    }
    AllAnswered(vec, s, paths, queue, picks, answer);
    assert picks + [] == picks;
    SelectionsOnce(|vec|, s, picks);
  }

  lemma NothingQueued(vec: seq<nat>, size: nat)
    ensures CombinationQueue(vec, size, Roots(0), [])
    ensures CombinationAnswers(vec, [], [])
  {
  }

  lemma QueueRoot(vec: seq<nat>, size: nat, queue: seq<(nat, seq<nat>)>, index: nat)
    requires index < |vec| && size >= 1 && CombinationQueue(vec, size, Roots(index), queue)
    ensures CombinationQueue(vec, size, Roots(index + 1), queue + [(index, [vec[index]])])
  {
    assert At(vec, [index]) == [vec[index]];
    assert Roots(index + 1) == Roots(index) + [[index]];
  }

  lemma PopCombination(vec: seq<nat>, size: nat, paths: seq<seq<nat>>, queue: seq<(nat, seq<nat>)>)
    requires queue != [] && CombinationQueue(vec, size, paths, queue)
    ensures paths != [] && CombinationQueue(vec, size, paths[1..], queue[1..])
    ensures var path, b := paths[0], Increasing(|vec|);
      && CombinationEntry(vec, size, path, queue[0])
      && path != [] && |path| == |queue[0].1| <= size && queue[0].0 == path[|path| - 1] < |vec|
      && Lo(b, path) == queue[0].0 + 1 && Hi(b, path) == |vec|
  {
  }

  lemma AllAnswered(vec: seq<nat>, size: nat, paths: seq<seq<nat>>, queue: seq<(nat, seq<nat>)>,
                    picks: seq<seq<nat>>, answer: seq<seq<nat>>)
    requires queue == [] && CombinationQueue(vec, size, paths, queue) && CombinationAnswers(vec, picks, answer)
    ensures |answer| == |picks|
    ensures ExpandAll(Increasing(|vec|), size, paths) == []
  {
  }

  lemma SelectionsOnce(n: nat, size: nat, picks: seq<seq<nat>>)
    requires size >= 1 && picks == ExpandAll(Increasing(n), size, Roots(n))
    ensures forall p :: multiset(picks)[p] == if IsSelection(p, n, size) then 1 else 0
    ensures |picks| == Binomial(n, size)
  {
    CombinationsCount(n, size);
    forall p ensures multiset(picks)[p] == if IsSelection(p, n, size) then 1 else 0 {
      AnswersCount(Increasing(n), size, p);
      FollowsIncreasing(n, p);
    }
  }

  ghost function Lengths<T>(vec: seq<seq<T>>): (dims: seq<nat>)
    ensures |dims| == |vec| && forall i :: 0 <= i < |dims| ==> dims[i] == |vec[i]|
  {
    seq(|vec|, i requires 0 <= i < |vec| => |vec[i]|)
  }

  ghost predicate InTable<T>(vec: seq<seq<T>>, path: seq<nat>) {
    |path| <= |vec| && forall i :: 0 <= i < |path| ==> path[i] < |vec[i]|
  }

  /** One element of each of the first lists, at the positions in `path`. */
  function Across<T>(vec: seq<seq<T>>, path: seq<nat>): (r: seq<T>)
    requires InTable(vec, path)
    ensures |r| == |path| && forall i :: 0 <= i < |r| ==> r[i] == vec[i][path[i]]
  {
    seq(|path|, i requires 0 <= i < |path| => vec[i][path[i]])
  }

  ghost predicate MixEntries<T>(vec: seq<seq<T>>, paths: seq<seq<nat>>, entries: seq<seq<T>>) {
    && |paths| == |entries|
    && forall k :: 0 <= k < |entries| ==>
      paths[k] != [] && InTable(vec, paths[k]) && entries[k] == Across(vec, paths[k])
  }

  predicate AnyEmpty<T>(vec: seq<seq<T>>) {
    exists i :: 0 <= i < |vec| && |vec[i]| == 0
  }

  lemma EmptyFactor<T>(vec: seq<seq<T>>)
    ensures AnyEmpty(vec) ==> forall p :: !IsTuple(p, Lengths(vec))
  {
  }

  lemma MixChild<T>(vec: seq<seq<T>>, paths: seq<seq<nat>>, entries: seq<seq<T>>, path: seq<nat>, i: nat)
    requires MixEntries(vec, paths, entries)
    requires InTable(vec, path) && |path| < |vec| && i < |vec[|path|]|
    ensures InTable(vec, path + [i])
    ensures MixEntries(vec, [path + [i]] + paths, [Across(vec, path) + [vec[|path|][i]]] + entries)
  {
    assert Across(vec, path + [i]) == Across(vec, path) + [vec[|path|][i]];
  }

  lemma RecordMix<T>(vec: seq<seq<T>>, picks: seq<seq<nat>>, answer: seq<seq<T>>, path: seq<nat>)
    requires MixEntries(vec, picks, answer)
    requires path != [] && InTable(vec, path)
    ensures MixEntries(vec, picks + [path], answer + [Across(vec, path)])
  {
  }

  /** Every element of the Cartesian product of a non-empty list of lists, each exactly once. */
  method Mix<T>(vec: seq<seq<T>>) returns (answer: seq<seq<T>>, ghost picks: seq<seq<nat>>)
    ensures MixEntries(vec, picks, answer)
    ensures vec != [] ==> forall p :: multiset(picks)[p] == if IsTuple(p, Lengths(vec)) then 1 else 0
    ensures vec == [] ==> answer == []
  {
    hide *;
    answer, picks := [], [];
    NothingMixed(vec);
    if vec == [] || AnyEmpty(vec) {
      EmptyFactor(vec);
      return;
    }
    ghost var b := Product(Lengths(vec));
    var size := |vec|;
    var queue: seq<seq<T>> := [];
    for i := 0 to |vec[0]|
      invariant MixEntries(vec, Roots(i), queue)
    {
      MixRoot(vec, queue, i);
      queue := queue + [[vec[0][i]]];
    }
    ghost var paths: seq<seq<nat>> := Roots(|vec[0]|);
    ghost var total := ExpandAll(b, size, paths);
    assert [] + ExpandAll(b, size, paths) == total;
    while queue != []
      invariant MixEntries(vec, paths, queue)
      invariant MixEntries(vec, picks, answer)
      invariant picks + ExpandAll(b, size, paths) == total
      decreases NodesAll(b, size, paths)
    {
      PopMix(vec, paths, queue);
      PopFront(b, size, paths);
      var vals := queue[0];
      ghost var path, rest := paths[0], paths[1..];
      queue, paths := queue[1..], rest;
      if |vals| >= size {
        ExpandFull(b, size, path);
        RecordMix(vec, picks, answer, path);
        assert picks + ([path] + ExpandAll(b, size, rest)) == (picks + [path]) + ExpandAll(b, size, rest);
        answer, picks := answer + [vals], picks + [path];
      } else {
        var level := |vals|;
        OpenChildren(b, size, path, rest);
        for i := 0 to |vec[level]|
          invariant MixEntries(vec, paths, queue)
          invariant ChildrenInFront(b, size, path, i, rest, paths)
        {
          MixChild(vec, paths, queue, path, i);
          PushChild(b, size, path, i, rest, paths);
          queue, paths := [vals + [vec[level][i]]] + queue, [path + [i]] + paths;
        }
        CloseChildren(b, size, path, rest, paths);
      }
    }
    AllMixed(vec, paths, queue);
    assert picks + [] == picks;
    TuplesOnce(vec, picks);
  }

  lemma NothingMixed<T>(vec: seq<seq<T>>)
    ensures MixEntries(vec, Roots(0), []) && MixEntries(vec, [], [])
  {
  }

  lemma MixRoot<T>(vec: seq<seq<T>>, queue: seq<seq<T>>, i: nat)
    requires vec != [] && i < |vec[0]| && MixEntries(vec, Roots(i), queue)
    ensures MixEntries(vec, Roots(i + 1), queue + [[vec[0][i]]])
  {
    assert Across(vec, [i]) == [vec[0][i]];
    assert Roots(i + 1) == Roots(i) + [[i]];
  }

  lemma PopMix<T>(vec: seq<seq<T>>, paths: seq<seq<nat>>, queue: seq<seq<T>>)
    requires queue != [] && MixEntries(vec, paths, queue)
    ensures paths != [] && MixEntries(vec, paths[1..], queue[1..])
    ensures var path, b := paths[0], Product(Lengths(vec));
      && path != [] && InTable(vec, path) && queue[0] == Across(vec, path) && |path| <= |vec|
      && Lo(b, path) == 0 && (|path| < |vec| ==> Hi(b, path) == |vec[|path|]|)
  {
  }

  lemma AllMixed<T>(vec: seq<seq<T>>, paths: seq<seq<nat>>, queue: seq<seq<T>>)
    requires queue == [] && MixEntries(vec, paths, queue)
    ensures ExpandAll(Product(Lengths(vec)), |vec|, paths) == []
  {
  }

  lemma TuplesOnce<T>(vec: seq<seq<T>>, picks: seq<seq<nat>>)
    requires vec != [] && picks == ExpandAll(Product(Lengths(vec)), |vec|, Roots(|vec[0]|))
    ensures forall p :: multiset(picks)[p] == if IsTuple(p, Lengths(vec)) then 1 else 0
  {
    var b := Product(Lengths(vec));
    assert Hi(b, []) == |vec[0]|;
    forall p ensures multiset(picks)[p] == if IsTuple(p, Lengths(vec)) then 1 else 0 {
      AnswersCount(b, |vec|, p);
      if |p| == |vec| {
        FollowsProduct(Lengths(vec), p);
      }
    }
  }

  // ---------------------------------------------------------------- how many there are

  function Binomial(n: nat, k: nat): nat {
    if k == 0 then 1 else if n == 0 then 0 else Binomial(n - 1, k - 1) + Binomial(n - 1, k)
  }

  /** Below an increasing path with m positions left, the answers are the ways to choose the rest. */
  lemma {:induction false} ExpandBinomial(n: nat, size: nat, path: seq<nat>)
    requires Follows(Increasing(n), path) && |path| <= size
    ensures Lo(Increasing(n), path) <= n
    ensures |Expand(Increasing(n), size, path)| == Binomial(n - Lo(Increasing(n), path), size - |path|)
    decreases size - |path|, n + 1
  {
    var b := Increasing(n);
    assert path != [] ==> path[|path| - 1] < n;
    if |path| < size {
      ExpandBelowBinomial(n, size, path, n);
      assert Binomial(0, size - |path|) == 0;
    }
  }

  lemma {:induction false} ExpandBelowBinomial(n: nat, size: nat, path: seq<nat>, hi: nat)
    requires Follows(Increasing(n), path) && |path| < size
    requires Lo(Increasing(n), path) <= hi <= n
    ensures |ExpandBelow(Increasing(n), size, path, hi)| + Binomial(n - hi, size - |path|)
         == Binomial(n - Lo(Increasing(n), path), size - |path|)
    decreases size - |path|, hi
  {
    hide Follows;
    var b := Increasing(n);
    if hi > Lo(b, path) {
      FollowsSnoc(b, path, hi - 1);
      ExpandBinomial(n, size, path + [hi - 1]);
      ExpandBelowBinomial(n, size, path, hi - 1);
    }
  }

  /** There are "n choose k" combinations. */
  lemma CombinationsCount(n: nat, size: nat)
    requires size >= 1
    ensures |ExpandAll(Increasing(n), size, Roots(n))| == Binomial(n, size)
  {
    RootsExpand(Increasing(n), size, n);
    ExpandBinomial(n, size, []);
    assert |multiset(ExpandAll(Increasing(n), size, Roots(n)))| == |multiset(ExpandBelow(Increasing(n), size, [], n))|;
  }
}
