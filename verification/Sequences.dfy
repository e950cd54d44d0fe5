/** Sums over sequences, sub-collections given by bit stacks, and permutations. */
module Sequences {

  datatype Option<+T> = None | Some(value: T)

  datatype Result<+T, +E> = Ok(value: T) | Err(error: E)

  function SumOf<T>(f: T -> int, xs: seq<T>): int {
    if xs == [] then 0 else f(xs[0]) + SumOf(f, xs[1..])
  }

  lemma {:induction false} SumOfAppend<T>(f: T -> int, xs: seq<T>, ys: seq<T>)
    ensures SumOf(f, xs + ys) == SumOf(f, xs) + SumOf(f, ys)
  {
    if xs == [] {
      assert xs + ys == ys;
    } else {
      assert (xs + ys)[1..] == xs[1..] + ys;
      SumOfAppend(f, xs[1..], ys);
    }
  }

  lemma SumOfCons<T>(f: T -> int, x: T, xs: seq<T>)
    ensures SumOf(f, [x] + xs) == f(x) + SumOf(f, xs)
  {
    assert ([x] + xs)[1..] == xs;
  }

  lemma SumOfSnoc<T>(f: T -> int, xs: seq<T>, k: nat)
    requires k < |xs|
    ensures SumOf(f, xs[..k + 1]) == SumOf(f, xs[..k]) + f(xs[k])
  {
    assert xs[..k + 1] == xs[..k] + [xs[k]];
    SumOfAppend(f, xs[..k], [xs[k]]);
  }

  lemma {:induction false} SumOfNonNegative<T>(f: T -> int, xs: seq<T>)
    requires forall x :: x in xs ==> 0 <= f(x)
    ensures 0 <= SumOf(f, xs)
  {
    if xs != [] {
      SumOfNonNegative(f, xs[1..]);
    }
  }

  function Without<T>(xs: seq<T>, i: nat): (r: seq<T>)
    requires i < |xs|
    ensures |r| == |xs| - 1
  {
    xs[..i] + xs[i + 1..]
  }

  lemma WithoutMultiset<T>(xs: seq<T>, i: nat)
    requires i < |xs|
    ensures multiset(xs) == multiset(Without(xs, i)) + multiset{xs[i]}
  {
    assert xs == xs[..i] + [xs[i]] + xs[i + 1..];
  }

  lemma SumOfMiddle<T>(f: T -> int, front: seq<T>, x: T, back: seq<T>)
    ensures SumOf(f, front + [x] + back) == SumOf(f, front + back) + f(x)
  {
    SumOfAppend(f, front + [x], back);
    SumOfAppend(f, front, [x]);
    SumOfAppend(f, front, back);
  }

  lemma MultisetOfMiddle<T>(front: seq<T>, x: T, back: seq<T>)
    ensures multiset(front + [x] + back) == multiset(front + back) + multiset{x}
  {
  }

  lemma SameWithoutOne<T>(A: multiset<T>, B: multiset<T>, x: T)
    requires A + multiset{x} == B + multiset{x}
    ensures A == B
  {
    assert A == (A + multiset{x}) - multiset{x};
    assert B == (B + multiset{x}) - multiset{x};
  }

  lemma {:induction false} SumOfPermutation<T>(f: T -> int, xs: seq<T>, ys: seq<T>)
    requires multiset(xs) == multiset(ys)
    ensures SumOf(f, xs) == SumOf(f, ys)
  {
    if xs == [] {
      assert |multiset(ys)| == 0;
    } else {
      assert xs[0] in multiset(xs);
      var i :| 0 <= i < |ys| && ys[i] == xs[0];
      var front, x, back := ys[..i], xs[0], ys[i + 1..];
      SplitFirst(xs);
      assert ys == front + [x] + back;
      MultisetOfMiddle(front, x, back);
      SameWithoutOne(multiset(xs[1..]), multiset(front + back), x);
      SumOfMiddle(f, front, x, back);
      SumOfPermutation(f, xs[1..], front + back);
    }
  }

  /** The elements of xs whose flag in the bit stack `a` is set. */
  function Pick<T>(xs: seq<T>, a: seq<bool>): seq<T>
    requires |a| <= |xs|
  {
    if a == [] then []
    else Pick(xs, a[..|a| - 1]) + (if a[|a| - 1] then [xs[|a| - 1]] else [])
  }

  lemma {:induction false} PickPrefix<T>(xs: seq<T>, ys: seq<T>, a: seq<bool>)
    requires |a| <= |xs|
    ensures Pick(xs + ys, a) == Pick(xs, a)
  {
    if a != [] {
      PickPrefix(xs, ys, a[..|a| - 1]);
    }
  }

  /** A bit stack over a whole sequence picks a sub-collection. */
  lemma {:induction false} PickIsContained<T>(xs: seq<T>, a: seq<bool>)
    requires |a| == |xs|
    ensures multiset(Pick(xs, a)) <= multiset(xs)
  {
    if a != [] {
      var k := |a| - 1;
      var front, last, b := xs[..k], xs[k], a[..k];
      assert a == b + [a[k]] && xs == front + [last];
      PickOfChild(front, last, b, a[k]);
      PickIsContained(front, b);
    }
  }

  lemma PickContained<T>(xs: seq<T>, a: seq<bool>)
    requires |a| <= |xs|
    ensures multiset(Pick(xs, a)) <= multiset(xs)
  {
    var front, back := xs[..|a|], xs[|a|..];
    assert xs == front + back;
    PickPrefix(front, back, a);
    PickIsContained(front, a);
  }

  lemma PickSnoc<T>(xs: seq<T>, a: seq<bool>, b: bool)
    requires |a| < |xs|
    ensures Pick(xs, a + [b]) == Pick(xs, a) + if b then [xs[|a|]] else []
  {
    assert (a + [b])[..|a|] == a;
  }

  lemma PickOfChild<T>(front: seq<T>, last: T, a: seq<bool>, b: bool)
    requires |a| == |front|
    ensures Pick(front + [last], a + [b]) == Pick(front, a) + if b then [last] else []
  {
    PickSnoc(front + [last], a, b);
    PickPrefix(front, [last], a);
  }

  lemma SplitFirst<T>(xs: seq<T>)
    requires xs != []
    ensures multiset(xs) == multiset{xs[0]} + multiset(xs[1..])
  {
    assert xs == [xs[0]] + xs[1..];
  }

  lemma ContainedWithoutOne<T>(A: multiset<T>, B: multiset<T>, x: T)
    ensures A + multiset{x} <= B + multiset{x} ==> A <= B
    ensures x !in A && A <= B + multiset{x} ==> A <= B
  {
    if A + multiset{x} <= B + multiset{x} {
      forall y ensures A[y] <= B[y] {
        assert (A + multiset{x})[y] <= (B + multiset{x})[y];
      }
    }
  }

  /** Every sub-collection is picked by some bit stack over the whole sequence. */
  lemma {:induction false} ContainedIsPick<T>(xs: seq<T>, ys: seq<T>) returns (a: seq<bool>)
    requires multiset(ys) <= multiset(xs)
    ensures |a| == |xs| && multiset(Pick(xs, a)) == multiset(ys)
  {
    if xs == [] {
      a := [];
      assert |multiset(ys)| == 0;
    } else {
      var front, last := xs[..|xs| - 1], xs[|xs| - 1];
      assert xs == front + [last];
      if last in ys {
        var i :| 0 <= i < |ys| && ys[i] == last;
        WithoutMultiset(ys, i);
        ContainedWithoutOne(multiset(Without(ys, i)), multiset(front), last);
        var b := ContainedIsPick(front, Without(ys, i));
        a := b + [true];
        PickOfChild(front, last, b, true);
      } else {
        ContainedWithoutOne(multiset(ys), multiset(front), last);
        var b := ContainedIsPick(front, ys);
        a := b + [false];
        PickOfChild(front, last, b, false);
        assert Pick(xs, a) == Pick(front, b);
      }
    }
  }

  /** Whatever holds of all elements holds of all elements of a sub-collection. */
  lemma ContainedElements<T>(ys: seq<T>, xs: seq<T>)
    requires multiset(ys) <= multiset(xs)
    ensures forall y :: y in ys ==> y in xs
  {
    forall y | y in ys ensures y in xs {
      assert y in multiset(ys);
      assert y in multiset(xs);
    }
  }

  /** Sort keys compare like tuples. */
  type SortKey = (int, int)

  predicate KeyLess(a: SortKey, b: SortKey) {
    a.0 < b.0 || (a.0 == b.0 && a.1 < b.1)
  }

  ghost predicate SortedBy<T>(key: T -> SortKey, xs: seq<T>) {
    forall i, j :: 0 <= i < j < |xs| ==> !KeyLess(key(xs[j]), key(xs[i]))
  }

  lemma InsertedMultiset<T>(xs: seq<T>, i: nat, x: T)
    requires i <= |xs|
    ensures multiset(xs[..i] + [x] + xs[i..]) == multiset(xs) + multiset{x}
  {
    assert xs == xs[..i] + xs[i..];
  }

  method InsertByKey<T>(xs: seq<T>, key: T -> SortKey, x: T) returns (ys: seq<T>)
    requires SortedBy(key, xs)
    ensures multiset(ys) == multiset(xs) + multiset{x}
    ensures SortedBy(key, ys)
  {
    var i := 0;
    while i < |xs| && KeyLess(key(xs[i]), key(x))
      invariant 0 <= i <= |xs|
      invariant forall j :: 0 <= j < i ==> KeyLess(key(xs[j]), key(x))
    {
      i := i + 1;
    }
    ys := xs[..i] + [x] + xs[i..];
    InsertedMultiset(xs, i, x);
    forall a, b | 0 <= a < b < |ys| ensures !KeyLess(key(ys[b]), key(ys[a])) {
      assert a < i ==> ys[a] == xs[a];
      assert a > i ==> ys[a] == xs[a - 1];
      assert b < i ==> ys[b] == xs[b];
      assert b > i ==> ys[b] == xs[b - 1];
    }
  }

  /** An unstable sort: which of several equal-key elements comes first is left open by the contract. */
  method SortByKey<T>(xs: seq<T>, key: T -> SortKey) returns (ys: seq<T>)
    ensures multiset(ys) == multiset(xs)
    ensures SortedBy(key, ys)
  {
    ys := [];
    for n := 0 to |xs|
      invariant multiset(ys) == multiset(xs[..n])
      invariant SortedBy(key, ys)
    {
      assert xs[..n + 1] == xs[..n] + [xs[n]];
      ys := InsertByKey(ys, key, xs[n]);
    }
    assert xs[..|xs|] == xs;
  }

  ghost predicate Descending<T>(f: T -> int, xs: seq<T>) {
    forall i, j :: 0 <= i < j < |xs| ==> f(xs[i]) >= f(xs[j])
  }

  lemma {:induction false} PickAtMostTop<T>(f: T -> int, xs: seq<T>, a: seq<bool>)
    requires Descending(f, xs) && |a| <= |xs|
    ensures |Pick(xs, a)| <= |a|
    ensures SumOf(f, Pick(xs, a)) <= SumOf(f, xs[..|Pick(xs, a)|])
  {
    if a != [] {
      var k := |a| - 1;
      var picked := Pick(xs, a[..k]);
      PickAtMostTop(f, xs, a[..k]);
      if a[k] {
        SumOfAppend(f, picked, [xs[k]]);
        SumOfSnoc(f, xs, |picked|);
      } else {
        assert Pick(xs, a) == picked;
      }
    }
  }

  /** Exchange argument: in a descending list no collection of c elements beats the first c. */
  lemma ExchangeArgument<T>(f: T -> int, xs: seq<T>, ys: seq<T>)
    requires Descending(f, xs) && multiset(ys) <= multiset(xs)
    ensures |ys| <= |xs| && SumOf(f, ys) <= SumOf(f, xs[..|ys|])
  {
    var a := ContainedIsPick(xs, ys);
    assert |multiset(Pick(xs, a))| == |multiset(ys)|;
    SumOfPermutation(f, Pick(xs, a), ys);
    PickAtMostTop(f, xs, a);
  }

  function Reversed<T>(xs: seq<T>): (r: seq<T>)
    ensures |r| == |xs|
    ensures forall i :: 0 <= i < |xs| ==> r[i] == xs[|xs| - 1 - i]
    ensures multiset(r) == multiset(xs)
  {
    if xs == [] then []
    else
      assert xs == xs[..|xs| - 1] + [xs[|xs| - 1]];
      [xs[|xs| - 1]] + Reversed(xs[..|xs| - 1])
  }

  method SetToSeq<T(==)>(s: set<T>) returns (r: seq<T>)
    ensures forall x :: x in r <==> x in s
    ensures forall i, j :: 0 <= i < j < |r| ==> r[i] != r[j]
  {
    r := [];
    var rest := s;
    while rest != {}
      invariant rest <= s
      invariant forall x :: x in r <==> x in s && x !in rest
      invariant forall i, j :: 0 <= i < j < |r| ==> r[i] != r[j]
    {
      var x :| x in rest;
      r, rest := r + [x], rest - {x};
    }
  }

  lemma {:induction false} DistinctCount<T>(xs: seq<T>)
    requires forall i, j :: 0 <= i < j < |xs| ==> xs[i] != xs[j]
    ensures forall x :: multiset(xs)[x] <= 1
  {
    if xs != [] {
      var k := |xs| - 1;
      DistinctCount(xs[..k]);
      assert xs == xs[..k] + [xs[k]];
      assert xs[k] !in xs[..k];
      assert multiset(xs[..k])[xs[k]] == 0;
    }
  }

  lemma TwiceCounts<T>(xs: seq<T>, i: nat, j: nat)
    requires i < j < |xs|
    ensures xs[i] == xs[j] ==> multiset(xs)[xs[i]] >= 2
  {
    var front, mid, back := xs[..i], xs[i + 1..j], xs[j + 1..];
    assert xs == front + [xs[i]] + mid + [xs[j]] + back;
  }
}
