/** The input set of a replacement transaction. */
module ReplaceParams {
  import opened Sequences
  import opened Coins

  datatype Tx = Tx(txid: Txid, inputs: seq<OutPoint>, isCoinbase: bool, weight: nat)

  type Graph = map<Txid, Tx>

  /** An input, known here by the output it spends and the sequence set on it, if any. */
  datatype Input = Input(prevOutpoint: OutPoint, sequence: Option<nat>)

  datatype MustSpend = Utxo(outpoint: OutPoint) | Planned(input: Input)
  {
    function PrevOutpoint(): OutPoint {
      match this
      case Utxo(op) => op
      case Planned(i) => i.prevOutpoint
    }
  }

  // ---------------------------------------------------------------- ancestry

  /** Named assumption: spending is acyclic, as a transaction id commits to the ids it spends. */
  ghost predicate IsRanked(g: Graph, rank: Txid -> nat) {
    forall x, i :: x in g && 0 <= i < |g[x].inputs| && g[x].inputs[i].txid in g ==> rank(g[x].inputs[i].txid) < rank(x)
  }

  /** Some proper ancestor of x, walking back through the graph, is in s. */
  predicate HasAncestorIn(g: Graph, ghost rank: Txid -> nat, x: Txid, s: set<Txid>)
    requires IsRanked(g, rank) && x in g
    decreases rank(x)
  {
    exists i :: 0 <= i < |g[x].inputs| &&
      var parent := g[x].inputs[i].txid;
      parent in s || (parent in g && HasAncestorIn(g, rank, parent, s))
  }

  lemma AncestorParent(g: Graph, rank: Txid -> nat, x: Txid, s: set<Txid>) returns (parent: Txid)
    requires IsRanked(g, rank) && x in g && HasAncestorIn(g, rank, x, s)
    ensures Spends(g, x, parent)
    ensures parent in s || (parent in g && HasAncestorIn(g, rank, parent, s))
    ensures parent in g ==> rank(parent) < rank(x)
  {
    var i :| 0 <= i < |g[x].inputs| &&
      var parent := g[x].inputs[i].txid;
      parent in s || (parent in g && HasAncestorIn(g, rank, parent, s));
    parent := g[x].inputs[i].txid;
  }

  lemma {:induction false} AncestryMonotone(g: Graph, rank: Txid -> nat, x: Txid, s: set<Txid>, t: set<Txid>)
    requires IsRanked(g, rank) && x in g && s <= t && HasAncestorIn(g, rank, x, s)
    ensures HasAncestorIn(g, rank, x, t)
    decreases rank(x)
  {
    var parent := AncestorParent(g, rank, x, s);
    if parent !in s {
      AncestryMonotone(g, rank, parent, s, t);
    }
  }

  /** Each transaction of the chain spends an output of the next one. */
  ghost predicate IsChain(g: Graph, chain: seq<Txid>) {
    && |chain| >= 2
    && forall i :: 0 <= i < |chain| - 1 ==> Spends(g, chain[i], chain[i + 1])
  }

  ghost predicate Spends(g: Graph, x: Txid, parent: Txid) {
    x in g && exists i :: 0 <= i < |g[x].inputs| && g[x].inputs[i].txid == parent
  }

  lemma SpendsAncestor(g: Graph, rank: Txid -> nat, x: Txid, parent: Txid, s: set<Txid>)
    requires IsRanked(g, rank) && Spends(g, x, parent)
    requires parent in s || (parent in g && HasAncestorIn(g, rank, parent, s))
    ensures HasAncestorIn(g, rank, x, s)
  {
  }

  /** Having an ancestor in s means that a chain of spends leads back into s. */
  lemma AncestryIsChain(g: Graph, rank: Txid -> nat, x: Txid, s: set<Txid>)
    requires IsRanked(g, rank) && x in g
    ensures HasAncestorIn(g, rank, x, s) <==> exists chain :: IsChain(g, chain) && chain[0] == x && chain[|chain| - 1] in s
  {
    if HasAncestorIn(g, rank, x, s) {
      var chain := ChainOf(g, rank, x, s);
    }
    if chain :| IsChain(g, chain) && chain[0] == x && chain[|chain| - 1] in s {
      ChainGivesAncestor(g, rank, chain, s);
    }
  }

  lemma {:induction false} ChainOf(g: Graph, rank: Txid -> nat, x: Txid, s: set<Txid>) returns (chain: seq<Txid>)
    requires IsRanked(g, rank) && x in g && HasAncestorIn(g, rank, x, s)
    ensures IsChain(g, chain) && chain[0] == x && chain[|chain| - 1] in s
    decreases rank(x)
  {
    hide HasAncestorIn, Spends;
    var parent := AncestorParent(g, rank, x, s);
    if parent in s {
      chain := [x, parent];
    } else {
      var rest := ChainOf(g, rank, parent, s);
      chain := [x] + rest;
      assert forall i :: 0 < i < |chain| ==> chain[i] == rest[i - 1];
    }
  }

  lemma {:induction false} ChainGivesAncestor(g: Graph, rank: Txid -> nat, chain: seq<Txid>, s: set<Txid>)
    requires IsRanked(g, rank) && IsChain(g, chain) && chain[0] in g && chain[|chain| - 1] in s
    ensures HasAncestorIn(g, rank, chain[0], s)
    decreases |chain|
  {
    hide HasAncestorIn, Spends;
    assert Spends(g, chain[0], chain[1]);
    if |chain| > 2 {
      var rest := chain[1..];
      assert forall i :: 0 <= i < |rest| ==> rest[i] == chain[i + 1];
      assert Spends(g, rest[0], rest[1]);
      SpendsFrom(g, rest[0], rest[1]);
      ChainGivesAncestor(g, rank, rest, s);
    }
    SpendsAncestor(g, rank, chain[0], chain[1], s);
  }

  lemma SpendsFrom(g: Graph, x: Txid, parent: Txid)
    ensures Spends(g, x, parent) ==> x in g
  {
  }

  /** Some input spends an output of a transaction of g. */
  ghost predicate HasSuppliedParent(g: Graph, x: Txid)
    requires x in g
  {
    exists i :: 0 <= i < |g[x].inputs| && g[x].inputs[i].txid in g
  }

  /** A walk that knows only the transactions of g finds an ancestor among them exactly if a parent is one. */
  lemma OnlyParentsCount(g: Graph, rank: Txid -> nat, x: Txid)
    requires IsRanked(g, rank) && x in g
    ensures HasAncestorIn(g, rank, x, g.Keys) <==> HasSuppliedParent(g, x)
  {
  }

  /** The transactions of g without a parent in g, that is, without a proper ancestor in g known to g. */
  ghost function Roots(g: Graph, rank: Txid -> nat): set<Txid>
    requires IsRanked(g, rank)
  {
    set x | x in g && !HasAncestorIn(g, rank, x, g.Keys)
  }

  /** Whoever has an ancestor in g has a root of g among its ancestors. */
  lemma {:induction false} RootAncestor(g: Graph, rank: Txid -> nat, x: Txid)
    requires IsRanked(g, rank) && x in g && HasAncestorIn(g, rank, x, g.Keys)
    ensures HasAncestorIn(g, rank, x, Roots(g, rank))
    decreases rank(x)
  {
    var parent := AncestorParent(g, rank, x, g.Keys);
    if parent !in Roots(g, rank) {
      RootAncestor(g, rank, parent);
    }
  }

  // ---------------------------------------------------------------- sanitizing the set of replaced transactions

  predicate IsDropped(g: Graph, ghost rank: Txid -> nat, x: Txid, s: set<Txid>)
    requires IsRanked(g, rank) && x in g
  {
    g[x].isCoinbase || HasAncestorIn(g, rank, x, s)
  }

  ghost predicate IsOrderOf(order: seq<Txid>, s: set<Txid>) {
    && (forall x :: x in order <==> x in s)
    && (forall i, j :: 0 <= i < j < |order| ==> order[i] != order[j])
  }

  ghost predicate IsVisit(g: Graph, order: seq<Txid>) {
    forall x :: x in order ==> x in g
  }

  /** What is left of all transactions of g after visiting some of them in the given order. */
  ghost function Sanitized(g: Graph, rank: Txid -> nat, order: seq<Txid>): set<Txid>
    requires IsRanked(g, rank) && IsVisit(g, order)
  {
    if order == [] then g.Keys
    else
      var k := |order| - 1;
      var s := Sanitized(g, rank, order[..k]);
      if IsDropped(g, rank, order[k], s) then s - {order[k]} else s
  }

  /** The outpoints spent by the transactions that were not dropped when visited. */
  ghost function KeptInputs(g: Graph, rank: Txid -> nat, order: seq<Txid>): seq<OutPoint>
    requires IsRanked(g, rank) && IsVisit(g, order)
  {
    if order == [] then []
    else
      var k := |order| - 1;
      KeptInputs(g, rank, order[..k]) +
      if IsDropped(g, rank, order[k], Sanitized(g, rank, order[..k])) then [] else g[order[k]].inputs
  }

  lemma VisitNothing(g: Graph, rank: Txid -> nat)
    requires IsRanked(g, rank)
    ensures Sanitized(g, rank, []) == g.Keys && KeptInputs(g, rank, []) == []
  {
  }

  lemma VisitNext(g: Graph, rank: Txid -> nat, order: seq<Txid>, x: Txid)
    requires IsRanked(g, rank) && IsVisit(g, order) && x in g
    ensures IsVisit(g, order + [x])
    ensures var s, dropped := Sanitized(g, rank, order), IsDropped(g, rank, x, Sanitized(g, rank, order));
      && Sanitized(g, rank, order + [x]) == (if dropped then s - {x} else s)
      && KeptInputs(g, rank, order + [x]) == KeptInputs(g, rank, order) + if dropped then [] else g[x].inputs
  {
    assert (order + [x])[..|order|] == order;
  }

  ghost predicate NoCoinbase(g: Graph) {
    forall x :: x in g ==> !g[x].isCoinbase
  }

  /** A coinbase transaction spends the null outpoint, which no transaction created. */
  ghost predicate CoinbasesAreRoots(g: Graph) {
    forall x, i :: x in g && g[x].isCoinbase && 0 <= i < |g[x].inputs| ==> g[x].inputs[i].txid !in g
  }

  lemma {:induction false} SanitizedPrefix(g: Graph, rank: Txid -> nat, order: seq<Txid>)
    requires IsRanked(g, rank) && IsVisit(g, order) && NoCoinbase(g)
    ensures Sanitized(g, rank, order) == set x | x in g && (x in Roots(g, rank) || x !in order)
  {
    if order != [] {
      var k := |order| - 1;
      assert order == order[..k] + [order[k]];
      SanitizedPrefix(g, rank, order[..k]);
      var s := Sanitized(g, rank, order[..k]);
      if order[k] in Roots(g, rank) {
        if HasAncestorIn(g, rank, order[k], s) {
          AncestryMonotone(g, rank, order[k], s, g.Keys);
        }
      } else {
        RootAncestor(g, rank, order[k]);
        AncestryMonotone(g, rank, order[k], Roots(g, rank), s);
      }
    }
  }

  lemma {:induction false} SanitizedHasNoCoinbase(g: Graph, rank: Txid -> nat, order: seq<Txid>)
    requires IsRanked(g, rank) && IsVisit(g, order)
    ensures forall x :: x in order && g[x].isCoinbase ==> x !in Sanitized(g, rank, order)
    ensures Sanitized(g, rank, order) <= g.Keys
  {
    if order != [] {
      var k := |order| - 1;
      assert order == order[..k] + [order[k]];
      SanitizedHasNoCoinbase(g, rank, order[..k]);
    }
  }

  lemma CoinbaseHasNoAncestor(g: Graph, rank: Txid -> nat, x: Txid)
    requires IsRanked(g, rank) && CoinbasesAreRoots(g) && x in g && g[x].isCoinbase
    ensures !HasAncestorIn(g, rank, x, g.Keys)
  {
  }

  /**
   * Whatever the iteration order, exactly the supplied transactions without a supplied parent are left, if
   * and only if no coinbase transaction was supplied.
   */
  lemma SanitizedIsRootsIff(g: Graph, rank: Txid -> nat, order: seq<Txid>)
    requires IsRanked(g, rank) && CoinbasesAreRoots(g) && IsOrderOf(order, g.Keys)
    ensures Sanitized(g, rank, order) == Roots(g, rank) <==> NoCoinbase(g)
  {
    if NoCoinbase(g) {
      SanitizedPrefix(g, rank, order);
    } else {
      var x :| x in g && g[x].isCoinbase;
      SanitizedHasNoCoinbase(g, rank, order);
      CoinbaseHasNoAncestor(g, rank, x);
      assert x in Roots(g, rank);
    }
  }

  /** Coinbase or not: no visited transaction that is left descends from one that is, through supplied ones. */
  lemma {:induction false} SanitizedIsAntichain(g: Graph, rank: Txid -> nat, order: seq<Txid>, x: Txid)
    requires IsRanked(g, rank) && IsVisit(g, order)
    requires x in order && x in Sanitized(g, rank, order)
    ensures !HasAncestorIn(g, rank, x, Sanitized(g, rank, order))
  {
    var k := |order| - 1;
    assert order == order[..k] + [order[k]];
    var s := Sanitized(g, rank, order[..k]);
    if x in order[..k] {
      SanitizedIsAntichain(g, rank, order[..k], x);
    }
    if HasAncestorIn(g, rank, x, Sanitized(g, rank, order)) {
      AncestryMonotone(g, rank, x, Sanitized(g, rank, order), s);
    }
  }

  /** The kept inputs are those of the visited transactions that are left. */
  lemma {:induction false} KeptInputsIff(g: Graph, rank: Txid -> nat, order: seq<Txid>, op: OutPoint)
    requires IsRanked(g, rank) && IsVisit(g, order)
    requires forall i, j :: 0 <= i < j < |order| ==> order[i] != order[j]
    ensures op in KeptInputs(g, rank, order) <==>
      exists x :: x in order && x in Sanitized(g, rank, order) && op in g[x].inputs
  {
    if order != [] {
      var k := |order| - 1;
      assert order == order[..k] + [order[k]];
      KeptInputsIff(g, rank, order[..k], op);
      StillThere(g, rank, order[..k], order[k]);
    }
  }

  lemma LastVisited(g: Graph, rank: Txid -> nat, order: seq<Txid>, k: nat) returns (last: seq<OutPoint>)
    requires IsRanked(g, rank) && IsVisit(g, order) && |order| == k + 1
    ensures IsVisit(g, order[..k])
    ensures KeptInputs(g, rank, order) == KeptInputs(g, rank, order[..k]) + last
    ensures Sanitized(g, rank, order) <= Sanitized(g, rank, order[..k])
    ensures order[k] in Sanitized(g, rank, order) ==> last == g[order[k]].inputs
  {
    hide HasAncestorIn, IsDropped;
    last := if IsDropped(g, rank, order[k], Sanitized(g, rank, order[..k])) then [] else g[order[k]].inputs;
  }

  /** The inputs of a kept transaction stand together. */
  lemma {:induction false} KeptInputsTogether(g: Graph, rank: Txid -> nat, order: seq<Txid>, i: nat)
    returns (a: seq<OutPoint>, b: seq<OutPoint>)
    requires IsRanked(g, rank) && IsVisit(g, order) && i < |order| && order[i] in Sanitized(g, rank, order)
    ensures KeptInputs(g, rank, order) == a + g[order[i]].inputs + b
  {
    hide HasAncestorIn, KeptInputs, Sanitized;
    var k := |order| - 1;
    var last := LastVisited(g, rank, order, k);
    if i == k {
      a, b := KeptInputs(g, rank, order[..k]), [];
    } else {
      a, b := KeptInputsTogether(g, rank, order[..k], i);
      b := b + last;
    }
  }

  /** ... and those of one visited earlier stand before those of one visited later. */
  lemma {:induction false} KeptInputsInOrder(g: Graph, rank: Txid -> nat, order: seq<Txid>, i: nat, j: nat)
    returns (a: seq<OutPoint>, b: seq<OutPoint>, c: seq<OutPoint>)
    requires IsRanked(g, rank) && IsVisit(g, order) && i < j < |order|
    requires order[i] in Sanitized(g, rank, order) && order[j] in Sanitized(g, rank, order)
    ensures KeptInputs(g, rank, order) == a + g[order[i]].inputs + b + g[order[j]].inputs + c
  {
    hide HasAncestorIn, KeptInputs, Sanitized;
    var k := |order| - 1;
    var last := LastVisited(g, rank, order, k);
    if j == k {
      a, b := KeptInputsTogether(g, rank, order[..k], i);
      c := [];
    } else {
      a, b, c := KeptInputsInOrder(g, rank, order[..k], i, j);
      c := c + last;
    }
  }

  lemma {:induction false} StillThere(g: Graph, rank: Txid -> nat, order: seq<Txid>, x: Txid)
    requires IsRanked(g, rank) && IsVisit(g, order) && x in g && x !in order
    ensures x in Sanitized(g, rank, order)
  {
    if order != [] {
      StillThere(g, rank, order[..|order| - 1], x);
    }
  }

  // ---------------------------------------------------------------- when the iteration order matters

  ghost function NonCoinbaseRoots(g: Graph, rank: Txid -> nat): set<Txid>
    requires IsRanked(g, rank)
  {
    set x | x in Roots(g, rank) && !g[x].isCoinbase
  }

  /** The transaction has supplied ancestors, but every root among them is a coinbase. */
  ghost predicate IsCoinbaseRooted(g: Graph, rank: Txid -> nat, x: Txid)
    requires IsRanked(g, rank)
  {
    x in g && HasAncestorIn(g, rank, x, g.Keys) && !HasAncestorIn(g, rank, x, NonCoinbaseRoots(g, rank))
  }

  ghost predicate IsOrderIndependent(g: Graph, rank: Txid -> nat)
    requires IsRanked(g, rank)
  {
    forall a, b :: IsOrderOf(a, g.Keys) && IsOrderOf(b, g.Keys) ==> Sanitized(g, rank, a) == Sanitized(g, rank, b)
  }

  /**
   * All iteration orders leave the same transactions exactly when every supplied transaction with a supplied
   * ancestor also has one that is a root and no coinbase; then those roots are what is left.
   */
  lemma OrderIndependentIff(g: Graph, rank: Txid -> nat)
    requires IsRanked(g, rank) && CoinbasesAreRoots(g)
    ensures IsOrderIndependent(g, rank) <==> forall x :: !IsCoinbaseRooted(g, rank, x)
    ensures (forall x :: !IsCoinbaseRooted(g, rank, x)) ==>
      forall order :: IsOrderOf(order, g.Keys) ==> Sanitized(g, rank, order) == NonCoinbaseRoots(g, rank)
  {
    hide Sanitized, NonCoinbaseRoots, IsCoinbaseRooted;
    if forall x :: !IsCoinbaseRooted(g, rank, x) {
      forall order | IsOrderOf(order, g.Keys) ensures Sanitized(g, rank, order) == NonCoinbaseRoots(g, rank) {
        SanitizedToRoots(g, rank, order);
        NonCoinbaseRootsKnown(g, rank);
      }
    } else {
      var x :| IsCoinbaseRooted(g, rank, x);
      var least := LeastCoinbaseRooted(g, rank, x);
      var a, b := OrdersDisagree(g, rank, least);
    }
  }

  lemma NonCoinbaseRootsKnown(g: Graph, rank: Txid -> nat)
    requires IsRanked(g, rank)
    ensures NonCoinbaseRoots(g, rank) <= g.Keys
  {
  }

  lemma {:induction false} SanitizedToRoots(g: Graph, rank: Txid -> nat, order: seq<Txid>)
    requires IsRanked(g, rank) && IsVisit(g, order) && forall x :: !IsCoinbaseRooted(g, rank, x)
    ensures Sanitized(g, rank, order) == set x | x in g && (x in NonCoinbaseRoots(g, rank) || x !in order)
  {
    if order != [] {
      var k := |order| - 1;
      var x, s := order[k], Sanitized(g, rank, order[..k]);
      assert order == order[..k] + [x];
      SanitizedToRoots(g, rank, order[..k]);
      VisitedStays(g, rank, x, s);
    }
  }

  lemma VisitedStays(g: Graph, rank: Txid -> nat, x: Txid, s: set<Txid>)
    requires IsRanked(g, rank) && x in g && !IsCoinbaseRooted(g, rank, x)
    requires NonCoinbaseRoots(g, rank) <= s <= g.Keys
    ensures IsDropped(g, rank, x, s) <==> x !in NonCoinbaseRoots(g, rank)
  {
    if HasAncestorIn(g, rank, x, s) {
      AncestryMonotone(g, rank, x, s, g.Keys);
    }
    if HasAncestorIn(g, rank, x, NonCoinbaseRoots(g, rank)) {
      AncestryMonotone(g, rank, x, NonCoinbaseRoots(g, rank), s);
    }
  }

  /** Walking back leads to such a transaction whose supplied parents are all coinbases. */
  lemma {:induction false} LeastCoinbaseRooted(g: Graph, rank: Txid -> nat, x: Txid) returns (least: Txid)
    requires IsRanked(g, rank) && CoinbasesAreRoots(g) && IsCoinbaseRooted(g, rank, x)
    ensures IsCoinbaseRooted(g, rank, least)
    ensures forall p :: p in g && Spends(g, least, p) ==> g[p].isCoinbase
    decreases rank(x)
  {
    hide HasAncestorIn, NonCoinbaseRoots;
    if p :| p in g && Spends(g, x, p) && !g[p].isCoinbase {
      ParentIsCoinbaseRooted(g, rank, x, p);
      least := LeastCoinbaseRooted(g, rank, p);
    } else {
      least := x;
    }
  }

  lemma ParentIsCoinbaseRooted(g: Graph, rank: Txid -> nat, x: Txid, p: Txid)
    requires IsRanked(g, rank) && IsCoinbaseRooted(g, rank, x) && p in g && Spends(g, x, p) && !g[p].isCoinbase
    ensures IsCoinbaseRooted(g, rank, p) && rank(p) < rank(x)
  {
    hide HasAncestorIn;
    if p in NonCoinbaseRoots(g, rank) || HasAncestorIn(g, rank, p, NonCoinbaseRoots(g, rank)) {
      SpendsAncestor(g, rank, x, p, NonCoinbaseRoots(g, rank));
    }
  }

  /** Visited after all coinbases the transaction stays, visited first it is dropped. */
  lemma OrdersDisagree(g: Graph, rank: Txid -> nat, x: Txid) returns (a: seq<Txid>, b: seq<Txid>)
    requires IsRanked(g, rank) && CoinbasesAreRoots(g) && IsCoinbaseRooted(g, rank, x)
    requires forall p :: p in g && Spends(g, x, p) ==> g[p].isCoinbase
    ensures IsOrderOf(a, g.Keys) && IsOrderOf(b, g.Keys)
    ensures Sanitized(g, rank, a) != Sanitized(g, rank, b)
  {
    hide HasAncestorIn, Sanitized, IsDropped, NonCoinbaseRoots;
    if g[x].isCoinbase {
      CoinbaseHasNoAncestor(g, rank, x);
    }
    var coinbases := set c | c in g && g[c].isCoinbase;
    var first := Listing(coinbases);
    var rest := Listing(g.Keys - coinbases - {x});
    var others := Listing(g.Keys - {x});
    a, b := first + [x] + rest, [x] + others;
    JoinOrders(first, coinbases, [x], {x});
    JoinOrders(first + [x], coinbases + {x}, rest, g.Keys - coinbases - {x});
    JoinOrders([x], {x}, others, g.Keys - {x});
    assert coinbases + {x} + (g.Keys - coinbases - {x}) == g.Keys == {x} + (g.Keys - {x});
    StaysAfterCoinbases(g, rank, x, first);
    SuffixKeeps(g, rank, first + [x], rest, x);
    DroppedFirst(g, rank, x);
    SuffixKeeps(g, rank, [x], others, x);
  }

  lemma {:induction false} Listing(s: set<Txid>) returns (order: seq<Txid>)
    ensures IsOrderOf(order, s)
  {
    order := [];
    if s != {} {
      var x :| x in s;
      var rest := Listing(s - {x});
      order := [x] + rest;
    }
  }

  lemma JoinOrders(a: seq<Txid>, s: set<Txid>, b: seq<Txid>, t: set<Txid>)
    requires IsOrderOf(a, s) && IsOrderOf(b, t) && s !! t
    ensures IsOrderOf(a + b, s + t)
  {
    forall i, j | 0 <= i < |a| && 0 <= j < |b| ensures a[i] != b[j] {
      assert a[i] in a && b[j] in b;
    }
    forall x ensures x in a + b <==> x in s + t {
    }
  }

  lemma StaysAfterCoinbases(g: Graph, rank: Txid -> nat, x: Txid, first: seq<Txid>)
    requires IsRanked(g, rank) && CoinbasesAreRoots(g) && x in g && !g[x].isCoinbase
    requires forall p :: p in g && Spends(g, x, p) ==> g[p].isCoinbase
    requires forall c :: c in first <==> c in g && g[c].isCoinbase
    ensures x in Sanitized(g, rank, first + [x])
  {
    hide HasAncestorIn, Sanitized, Spends;
    var s := Sanitized(g, rank, first);
    SanitizedHasNoCoinbase(g, rank, first);
    StillThere(g, rank, first, x);
    VisitNext(g, rank, first, x);
    if HasAncestorIn(g, rank, x, s) {
      var p := AncestorParent(g, rank, x, s);
      assert g[p].isCoinbase;
      if p !in s {
        AncestryMonotone(g, rank, p, s, g.Keys);
        CoinbaseHasNoAncestor(g, rank, p);
      }
      assert false;
    }
  }

  lemma DroppedFirst(g: Graph, rank: Txid -> nat, x: Txid)
    requires IsRanked(g, rank) && x in g && HasAncestorIn(g, rank, x, g.Keys)
    ensures IsVisit(g, [x]) && x !in Sanitized(g, rank, [x])
  {
    hide HasAncestorIn, Sanitized;
    VisitNothing(g, rank);
    VisitNext(g, rank, [], x);
    assert [] + [x] == [x];
  }

  lemma {:induction false} SuffixKeeps(g: Graph, rank: Txid -> nat, a: seq<Txid>, b: seq<Txid>, x: Txid)
    requires IsRanked(g, rank) && IsVisit(g, a) && IsVisit(g, b) && x !in b
    ensures IsVisit(g, a + b)
    ensures x in Sanitized(g, rank, a + b) <==> x in Sanitized(g, rank, a)
  {
    hide HasAncestorIn, Sanitized;
    if b == [] {
      assert a + b == a;
    } else {
      var k := |b| - 1;
      assert a + b == (a + b[..k]) + [b[k]];
      SuffixKeeps(g, rank, a, b[..k], x);
      VisitNext(g, rank, a + b[..k], b[k]);
    }
  }

  // ---------------------------------------------------------------- ancestry through transactions not supplied

  /** The full graph knows the supplied transactions, and others. */
  ghost predicate Extends(full: Graph, g: Graph) {
    forall x :: x in g ==> x in full && full[x] == g[x]
  }

  /** A supplied transaction descends from a supplied one, but only through transactions that were not supplied. */
  ghost predicate IsLinkedOutside(full: Graph, g: Graph, rank: Txid -> nat, x: Txid)
    requires IsRanked(full, rank)
  {
    x in g && x in full && HasAncestorIn(full, rank, x, g.Keys) && !HasSuppliedParent(g, x)
  }

  /** x is in s or descends from it. */
  ghost predicate IsWithin(g: Graph, rank: Txid -> nat, s: set<Txid>, x: Txid)
    requires IsRanked(g, rank)
  {
    x in s || (x in g && HasAncestorIn(g, rank, x, s))
  }

  lemma {:induction false} AncestryExtends(full: Graph, g: Graph, rank: Txid -> nat, x: Txid, s: set<Txid>)
    requires IsRanked(full, rank) && IsRanked(g, rank) && Extends(full, g) && x in g && HasAncestorIn(g, rank, x, s)
    ensures HasAncestorIn(full, rank, x, s)
    decreases rank(x)
  {
    var parent := AncestorParent(g, rank, x, s);
    if parent !in s {
      AncestryExtends(full, g, rank, parent, s);
    }
    assert Spends(full, x, parent);
    SpendsAncestor(full, rank, x, parent, s);
  }

  lemma {:induction false} AncestryTransitive(g: Graph, rank: Txid -> nat, x: Txid, s: set<Txid>, t: set<Txid>)
    requires IsRanked(g, rank) && x in g && HasAncestorIn(g, rank, x, s)
    requires forall y :: y in s ==> IsWithin(g, rank, t, y)
    ensures HasAncestorIn(g, rank, x, t)
    decreases rank(x)
  {
    hide HasAncestorIn;
    var parent := AncestorParent(g, rank, x, s);
    if parent !in s {
      AncestryTransitive(g, rank, parent, s, t);
    } else {
      assert IsWithin(g, rank, t, parent);
    }
    SpendsAncestor(g, rank, x, parent, t);
  }

  /**
   * Exactly the supplied transactions without any supplied ancestor are left, if and only if no coinbase was
   * supplied and no supplied transaction descends from another through unsupplied ones alone.
   */
  lemma SanitizedIsUnrelatedIff(full: Graph, g: Graph, rank: Txid -> nat, order: seq<Txid>)
    requires IsRanked(full, rank) && IsRanked(g, rank) && Extends(full, g) && CoinbasesAreRoots(full)
    requires IsOrderOf(order, g.Keys)
    ensures Sanitized(g, rank, order) == (set x | x in g && !HasAncestorIn(full, rank, x, g.Keys)) <==>
      NoCoinbase(g) && forall x :: !IsLinkedOutside(full, g, rank, x)
  {
    hide HasAncestorIn, Sanitized, HasSuppliedParent;
    if NoCoinbase(g) {
      SanitizedPrefix(g, rank, order);
      forall x | x in g
        ensures x in Roots(g, rank) <==> !HasSuppliedParent(g, x)
        ensures HasSuppliedParent(g, x) ==> HasAncestorIn(full, rank, x, g.Keys)
      {
        OnlyParentsCount(g, rank, x);
        if HasSuppliedParent(g, x) {
          AncestryExtends(full, g, rank, x, g.Keys);
        }
      }
      var unrelated := set x | x in g && !HasAncestorIn(full, rank, x, g.Keys);
      assert unrelated <= Roots(g, rank) == Sanitized(g, rank, order);
      if x :| IsLinkedOutside(full, g, rank, x) {
        assert x in Roots(g, rank) && x !in unrelated;
      } else {
        forall x | x in Roots(g, rank) ensures x in unrelated {
          assert !IsLinkedOutside(full, g, rank, x);
        }
      }
    } else {
      var x :| x in g && g[x].isCoinbase;
      SanitizedHasNoCoinbase(g, rank, order);
      CoinbaseHasNoAncestor(full, rank, x);
      if HasAncestorIn(full, rank, x, g.Keys) {
        AncestryMonotone(full, rank, x, g.Keys, full.Keys);
      }
    }
  }

  /**
   * The inputs to spend again include an output of a transaction bound for replacement, or of a descendant of
   * one, exactly when some transaction that is left descends from another.
   */
  lemma SelfConflictIff(full: Graph, g: Graph, rank: Txid -> nat, order: seq<Txid>)
    requires IsRanked(full, rank) && IsRanked(g, rank) && Extends(full, g) && IsOrderOf(order, g.Keys)
    ensures var kept := Sanitized(g, rank, order);
      (exists op :: op in KeptInputs(g, rank, order) && IsWithin(full, rank, kept, op.txid)) <==>
        exists x :: x in kept && x in full && HasAncestorIn(full, rank, x, kept)
  {
    hide HasAncestorIn, Sanitized, KeptInputs;
    var kept := Sanitized(g, rank, order);
    SanitizedHasNoCoinbase(g, rank, order);
    if op :| op in KeptInputs(g, rank, order) && IsWithin(full, rank, kept, op.txid) {
      KeptInputsIff(g, rank, order, op);
      var x :| x in order && x in kept && op in g[x].inputs;
      assert Spends(full, x, op.txid);
      SpendsAncestor(full, rank, x, op.txid, kept);
    }
    if x :| x in kept && x in full && HasAncestorIn(full, rank, x, kept) {
      var parent := AncestorParent(full, rank, x, kept);
      var i :| 0 <= i < |full[x].inputs| && full[x].inputs[i].txid == parent;
      var op := full[x].inputs[i];
      KeptInputsIff(g, rank, order, op);
      assert op in KeptInputs(g, rank, order) && IsWithin(full, rank, kept, op.txid);
    }
  }

  /** Without a coinbase that happens exactly when a supplied transaction is linked to another one outside. */
  lemma SelfConflictIffLinkedOutside(full: Graph, g: Graph, rank: Txid -> nat, order: seq<Txid>)
    requires IsRanked(full, rank) && IsRanked(g, rank) && Extends(full, g) && IsOrderOf(order, g.Keys) && NoCoinbase(g)
    ensures (exists op :: op in KeptInputs(g, rank, order) && IsWithin(full, rank, Sanitized(g, rank, order), op.txid)) <==>
      exists x :: IsLinkedOutside(full, g, rank, x)
  {
    hide HasAncestorIn, Sanitized, KeptInputs, HasSuppliedParent, IsWithin;
    var kept := Sanitized(g, rank, order);
    SelfConflictIff(full, g, rank, order);
    SanitizedPrefix(g, rank, order);
    assert kept == Roots(g, rank);
    if x :| x in kept && x in full && HasAncestorIn(full, rank, x, kept) {
      OnlyParentsCount(g, rank, x);
      AncestryMonotone(full, rank, x, kept, g.Keys);
      assert IsLinkedOutside(full, g, rank, x);
    }
    if x :| IsLinkedOutside(full, g, rank, x) {
      OnlyParentsCount(g, rank, x);
      forall y | y in g ensures IsWithin(full, rank, kept, y) {
        SuppliedIsWithinRoots(full, g, rank, y);
      }
      AncestryTransitive(full, rank, x, g.Keys, kept);
    }
  }

  lemma SuppliedIsWithinRoots(full: Graph, g: Graph, rank: Txid -> nat, y: Txid)
    requires IsRanked(full, rank) && IsRanked(g, rank) && Extends(full, g) && y in g
    ensures IsWithin(full, rank, Roots(g, rank), y)
  {
    hide HasAncestorIn;
    if y !in Roots(g, rank) {
      RootAncestor(g, rank, y);
      AncestryExtends(full, g, rank, y, Roots(g, rank));
    }
  }

  lemma LinkExampleGraphs(full: Graph, g: Graph, rank: Txid -> nat)
    requires full.Keys == {1, 2, 3} && g.Keys == {1, 3} && g[1] == full[1] && g[3] == full[3]
    requires full[1].inputs == [OutPoint(0, 0)] && full[2].inputs == [OutPoint(1, 0)] && full[3].inputs == [OutPoint(2, 0)]
    requires !full[1].isCoinbase && !full[2].isCoinbase && !full[3].isCoinbase
    requires rank(1) < rank(2) < rank(3)
    ensures IsRanked(full, rank) && IsRanked(g, rank) && Extends(full, g) && CoinbasesAreRoots(full)
    ensures NoCoinbase(full) && NoCoinbase(g)
  {
  }

  lemma LinkExampleAncestry(full: Graph, g: Graph, rank: Txid -> nat)
    requires IsRanked(full, rank) && IsRanked(g, rank)
    requires 2 in full && 3 in full && full[2].inputs == [OutPoint(1, 0)] && full[3].inputs == [OutPoint(2, 0)]
    requires g.Keys == {1, 3} && g[1].inputs == [OutPoint(0, 0)] && g[3].inputs == [OutPoint(2, 0)]
    ensures HasAncestorIn(full, rank, 3, {1}) && IsWithin(full, rank, {1, 3}, 2) && Roots(g, rank) == {1, 3}
  {
    assert full[2].inputs[0].txid == 1 && full[3].inputs[0].txid == 2;
    assert HasAncestorIn(full, rank, 2, {1}) && HasAncestorIn(full, rank, 2, {1, 3});
    OnlyParentsCount(g, rank, 1);
    OnlyParentsCount(g, rank, 3);
  }

  lemma LinkExample(full: Graph, g: Graph, rank: Txid -> nat)
    requires IsRanked(full, rank) && IsRanked(g, rank) && NoCoinbase(g)
    requires 2 in full && 3 in full && full[2].inputs == [OutPoint(1, 0)] && full[3].inputs == [OutPoint(2, 0)]
    requires g.Keys == {1, 3} && g[1].inputs == [OutPoint(0, 0)] && g[3].inputs == [OutPoint(2, 0)]
    ensures HasAncestorIn(full, rank, 3, {1}) && IsWithin(full, rank, {1, 3}, 2)
    ensures forall order :: IsOrderOf(order, g.Keys) ==>
      Sanitized(g, rank, order) == {1, 3} && OutPoint(2, 0) in KeptInputs(g, rank, order)
  {
    LinkExampleAncestry(full, g, rank);
    forall order | IsOrderOf(order, g.Keys)
      ensures Sanitized(g, rank, order) == {1, 3} && OutPoint(2, 0) in KeptInputs(g, rank, order)
    {
      hide HasAncestorIn, Sanitized, KeptInputs, Roots;
      SanitizedPrefix(g, rank, order);
      KeptInputsIff(g, rank, order, OutPoint(2, 0));
      assert 3 in order && OutPoint(2, 0) in g[3].inputs;
    }
  }

  /**
   * Transaction 3 spends 2, which spends 1. With 1 and 3 supplied both are left in either order, and the
   * input of 3, an output of a descendant of 1, is to be spent again.
   */
  lemma UnsuppliedLinkExample()
    ensures exists full: Graph, g: Graph, rank: Txid -> nat ::
      && IsRanked(full, rank) && IsRanked(g, rank) && Extends(full, g) && CoinbasesAreRoots(full) && NoCoinbase(full)
      && g.Keys == {1, 3} && HasAncestorIn(full, rank, 3, {1})
      && (forall order :: IsOrderOf(order, g.Keys) ==>
            && Sanitized(g, rank, order) == {1, 3}
            && OutPoint(2, 0) in KeptInputs(g, rank, order) && IsWithin(full, rank, {1, 3}, 2))
  {
    var a, b, c := Tx(1, [OutPoint(0, 0)], false, 400), Tx(2, [OutPoint(1, 0)], false, 400), Tx(3, [OutPoint(2, 0)], false, 400);
    var full: Graph, g: Graph := map[1 := a, 2 := b, 3 := c], map[1 := a, 3 := c];
    var rank: Txid -> nat := x => x;
    LinkExampleGraphs(full, g, rank);
    hide *;
    LinkExample(full, g, rank);
  }

  /** A child of a coinbase alone: the result depends on the iteration order. */
  lemma CoinbaseOrderExample()
    ensures exists g: Graph, rank ::
      && IsRanked(g, rank) && CoinbasesAreRoots(g)
      && IsOrderOf([1, 2], g.Keys) && IsOrderOf([2, 1], g.Keys)
      && Sanitized(g, rank, [1, 2]) == {2} && Sanitized(g, rank, [2, 1]) == {}
  {
    var coinbase := Tx(1, [OutPoint(0, 0)], true, 400);
    var child := Tx(2, [OutPoint(1, 0)], false, 400);
    var g: Graph := map[1 := coinbase, 2 := child];
    var rank: Txid -> nat := x => x;
    assert g[2].inputs[0].txid == 1 && g[1].inputs[0].txid == 0;
    assert IsRanked(g, rank);
    assert [1, 2][..1] == [1] && [1][..0] == [] && [2, 1][..1] == [2] && [2][..0] == [];
    assert HasAncestorIn(g, rank, 2, {1, 2});
    assert !HasAncestorIn(g, rank, 1, {2});
    assert !HasAncestorIn(g, rank, 2, {2});
    assert Sanitized(g, rank, [1]) == {2};
    assert Sanitized(g, rank, [2]) == {1};
  }

  // ---------------------------------------------------------------- the parameters

  function OutPoints(ms: seq<MustSpend>): (ops: seq<OutPoint>)
    ensures |ops| == |ms| && forall i :: 0 <= i < |ops| ==> ops[i] == ms[i].PrevOutpoint()
  {
    seq(|ms|, i requires 0 <= i < |ms| => ms[i].PrevOutpoint())
  }

  /** Append the outpoints that are not listed yet, in order. */
  ghost function WithUtxos(ms: seq<MustSpend>, ops: seq<OutPoint>): seq<MustSpend> {
    if ops == [] then ms
    else
      var k := |ops| - 1;
      var before := WithUtxos(ms, ops[..k]);
      if ops[k] in OutPoints(before) then before else before + [Utxo(ops[k])]
  }

  function Retained(ms: seq<MustSpend>, keep: MustSpend -> bool): seq<MustSpend> {
    if ms == [] then []
    else Retained(ms[..|ms| - 1], keep) + if keep(ms[|ms| - 1]) then [ms[|ms| - 1]] else []
  }

  lemma {:induction false} RetainedElements(ms: seq<MustSpend>, keep: MustSpend -> bool, m: MustSpend)
    ensures m in Retained(ms, keep) <==> m in ms && keep(m)
  {
    if ms != [] {
      var k := |ms| - 1;
      assert ms == ms[..k] + [ms[k]];
      RetainedElements(ms[..k], keep, m);
    }
  }

  ghost predicate AreDistinct(ms: seq<MustSpend>) {
    forall i, j :: 0 <= i < j < |ms| ==> ms[i].PrevOutpoint() != ms[j].PrevOutpoint()
  }

  lemma {:induction false} RetainedDistinct(ms: seq<MustSpend>, keep: MustSpend -> bool)
    requires AreDistinct(ms)
    ensures AreDistinct(Retained(ms, keep))
  {
    if ms != [] {
      var k := |ms| - 1;
      RetainedDistinct(ms[..k], keep);
      forall i | 0 <= i < |Retained(ms[..k], keep)|
        ensures Retained(ms[..k], keep)[i].PrevOutpoint() != ms[k].PrevOutpoint()
      {
        RetainedElements(ms[..k], keep, Retained(ms[..k], keep)[i]);
      }
    }
  }

  /** Appending lists every requested outpoint, keeps what was there, and adds only wallet entries. */
  lemma {:induction false} WithUtxosElements(ms: seq<MustSpend>, ops: seq<OutPoint>)
    ensures ms <= WithUtxos(ms, ops)
    ensures forall op :: op in OutPoints(WithUtxos(ms, ops)) <==> op in OutPoints(ms) || op in ops
    ensures forall m :: m in WithUtxos(ms, ops) ==> m in ms || (m.Utxo? && m.outpoint in ops)
    ensures AreDistinct(ms) ==> AreDistinct(WithUtxos(ms, ops))
  {
    if ops != [] {
      var k := |ops| - 1;
      assert ops == ops[..k] + [ops[k]];
      var before, after := WithUtxos(ms, ops[..k]), WithUtxos(ms, ops);
      WithUtxosElements(ms, ops[..k]);
      if ops[k] !in OutPoints(before) {
        assert OutPoints(after) == OutPoints(before) + [ops[k]];
        forall i | 0 <= i < |before| ensures before[i].PrevOutpoint() != ops[k] {
          assert OutPoints(before)[i] in OutPoints(before);
        }
      }
    }
  }

  /** Outpoints not listed yet are appended as they come. */
  lemma {:induction false} WithUtxosInOrder(ms: seq<MustSpend>, ops: seq<OutPoint>)
    requires forall op :: op in ops ==> op !in OutPoints(ms)
    requires forall i, j :: 0 <= i < j < |ops| ==> ops[i] != ops[j]
    ensures WithUtxos(ms, ops) == ms + seq(|ops|, i requires 0 <= i < |ops| => Utxo(ops[i]))
  {
    if ops != [] {
      var k := |ops| - 1;
      assert ops == ops[..k] + [ops[k]];
      WithUtxosInOrder(ms, ops[..k]);
      WithUtxosElements(ms, ops[..k]);
      assert ops[k] !in ops[..k];
    }
  }

  /** Listing goes on where it stopped, and what is listed already changes nothing. */
  lemma {:induction false} WithUtxosAppend(ms: seq<MustSpend>, a: seq<OutPoint>, b: seq<OutPoint>)
    ensures WithUtxos(ms, a + b) == WithUtxos(WithUtxos(ms, a), b)
    ensures (forall op :: op in b ==> op in OutPoints(WithUtxos(ms, a))) ==> WithUtxos(ms, a + b) == WithUtxos(ms, a)
  {
    if b == [] {
      assert a + b == a;
    } else {
      var k := |b| - 1;
      assert a + b == (a + b[..k]) + [b[k]] && (a + b)[..|a| + k] == a + b[..k];
      WithUtxosAppend(ms, a, b[..k]);
      assert b[k] in b;
    }
  }

  /** Entries are kept in their order. */
  lemma {:induction false} RetainedAppend(a: seq<MustSpend>, b: seq<MustSpend>, keep: MustSpend -> bool)
    ensures Retained(a + b, keep) == Retained(a, keep) + Retained(b, keep)
  {
    if b == [] {
      assert a + b == a;
    } else {
      var k := |b| - 1;
      assert (a + b)[..|a| + k] == a + b[..k];
      RetainedAppend(a, b[..k], keep);
    }
  }

  /** Drop the transactions that have ancestors in the same set, visiting them in any order. */
  method SanitizeRbfSet(graph: Graph, ghost rank: Txid -> nat)
    returns (toReplace: set<Txid>, utxos: seq<OutPoint>)
    requires IsRanked(graph, rank)
    ensures exists order :: (
      && IsOrderOf(order, graph.Keys)
      && toReplace == Sanitized(graph, rank, order) && utxos == KeptInputs(graph, rank, order))
  {
    hide HasAncestorIn, IsDropped, Sanitized, KeptInputs, IsRanked;
    VisitNothing(graph, rank);
    toReplace, utxos := graph.Keys, [];
    var pending := graph.Keys;
    ghost var order: seq<Txid> := [];
    while pending != {}
      invariant pending <= graph.Keys
      invariant forall x :: x in order <==> x in graph && x !in pending
      invariant forall i, j :: 0 <= i < j < |order| ==> order[i] != order[j]
      invariant toReplace == Sanitized(graph, rank, order)
      invariant utxos == KeptInputs(graph, rank, order)
    {
      var txid :| txid in pending;
      VisitNext(graph, rank, order, txid);
      if IsDropped(graph, rank, txid, toReplace) {
        toReplace := toReplace - {txid};
      } else {
        utxos := utxos + graph[txid].inputs;
      }
      pending, order := pending - {txid}, order + [txid];
    }
    assert IsOrderOf(order, graph.Keys);
  }

  class PsbtParams {
    var chosen: set<OutPoint>
    var mustSpend: seq<MustSpend>
    var replacing: set<Txid>
    var manuallySelectedOnly: bool
    var sequenceOverrides: map<OutPoint, nat>
    var fallbackSequence: Option<nat>

    /** The set is exactly the outpoints of the list, which has no duplicates. */
    ghost predicate Valid()
      reads this
    {
      AreDistinct(mustSpend) && forall op :: op in chosen <==> op in OutPoints(mustSpend)
    }

    constructor ()
      ensures Valid() && mustSpend == [] && replacing == {} && !manuallySelectedOnly
      ensures sequenceOverrides == map[] && fallbackSequence == None
    {
      chosen, mustSpend, replacing, manuallySelectedOnly := {}, [], {}, false;
      sequenceOverrides, fallbackSequence := map[], None;
    }

    method AddUtxos(outpoints: seq<OutPoint>)
      requires Valid()
      modifies this`chosen, this`mustSpend
      ensures Valid() && mustSpend == WithUtxos(old(mustSpend), outpoints)
    {
      for i := 0 to |outpoints|
        invariant Valid() && mustSpend == WithUtxos(old(mustSpend), outpoints[..i])
      {
        assert outpoints[..i + 1][..i] == outpoints[..i];
        if outpoints[i] !in chosen {
          AppendIsValid(mustSpend, Utxo(outpoints[i]));
          chosen, mustSpend := chosen + {outpoints[i]}, mustSpend + [Utxo(outpoints[i])];
        }
      }
      assert outpoints[..|outpoints|] == outpoints;
    }

    method AddPlannedInput(input: Input)
      requires Valid()
      modifies this`chosen, this`mustSpend
      ensures Valid()
      ensures mustSpend ==
        if input.prevOutpoint in old(chosen) then old(mustSpend) else old(mustSpend) + [Planned(input)]
    {
      if input.prevOutpoint !in chosen {
        AppendIsValid(mustSpend, Planned(input));
        chosen, mustSpend := chosen + {input.prevOutpoint}, mustSpend + [Planned(input)];
      }
    }

    method RemoveUtxo(outpoint: OutPoint)
      requires Valid()
      modifies this`chosen, this`mustSpend
      ensures Valid() && chosen == old(chosen) - {outpoint}
      ensures mustSpend == Retained(old(mustSpend), NotAt({outpoint}))
    {
      if outpoint in chosen {
        RetainedIsValid(mustSpend, {outpoint});
        chosen, mustSpend := chosen - {outpoint}, Retained(mustSpend, NotAt({outpoint}));
      } else {
        RetainedAll(mustSpend, {outpoint});
      }
    }

    /**
     * Spend the inputs of `txs` instead of the wallet inputs so far. The transactions may be visited in
     * any order.
     */
    method Replace(txs: seq<Tx>, ghost rank: Txid -> nat)
      requires Valid()
      requires forall i, j :: 0 <= i < j < |txs| && txs[i].txid == txs[j].txid ==> txs[i] == txs[j]
      requires IsRanked(GraphOf(txs), rank)
      modifies this`chosen, this`mustSpend, this`replacing
      ensures Valid()
      ensures exists order :: (
        && IsOrderOf(order, GraphOf(txs).Keys)
        && replacing == Sanitized(GraphOf(txs), rank, order)
        && mustSpend ==
           WithUtxos(Retained(Retained(old(mustSpend), IsPlanned), NotFrom(replacing)), KeptInputs(GraphOf(txs), rank, order)))
      ensures forall m :: m in mustSpend ==> m.PrevOutpoint().txid !in replacing
    {
      hide Retained, Sanitized, KeptInputs, WithUtxos, HasAncestorIn, IsRanked, GraphOf, AreDistinct, OutPoints;
      RetainedDistinct(mustSpend, IsPlanned);
      mustSpend := Retained(mustSpend, IsPlanned);
      chosen := set op | op in OutPoints(mustSpend);

      var toReplace, utxos;
      toReplace, utxos := SanitizeRbfSet(GraphOf(txs), rank);
      ghost var order :| (
        && IsOrderOf(order, GraphOf(txs).Keys)
        && toReplace == Sanitized(GraphOf(txs), rank, order) && utxos == KeptInputs(GraphOf(txs), rank, order));
      replacing := toReplace;

      RetainedDistinct(mustSpend, NotFrom(replacing));
      mustSpend := Retained(mustSpend, NotFrom(replacing));
      chosen := set op | op in OutPoints(mustSpend);
      AddUtxos(utxos);
      ReplaceIsSafe(GraphOf(txs), rank, order, old(mustSpend), mustSpend);
    }
  }

  /** The supplied transactions by txid. */
  function GraphOf(txs: seq<Tx>): (g: Graph)
    ensures forall tx :: tx in txs ==> tx.txid in g
    ensures forall x :: x in g ==> g[x].txid == x && g[x] in txs
  {
    if txs == [] then map[] else GraphOf(txs[..|txs| - 1])[txs[|txs| - 1].txid := txs[|txs| - 1]]
  }

  predicate IsPlanned(m: MustSpend) { m.Planned? }

  function NotAt(ops: set<OutPoint>): MustSpend -> bool {
    (m: MustSpend) => m.PrevOutpoint() !in ops
  }

  /** Wallet entries are never stripped; planned inputs are when a replaced transaction created them. */
  function NotFrom(replaced: set<Txid>): MustSpend -> bool {
    (m: MustSpend) => m.Utxo? || m.PrevOutpoint().txid !in replaced
  }

  lemma AppendIsValid(ms: seq<MustSpend>, m: MustSpend)
    requires AreDistinct(ms) && m.PrevOutpoint() !in OutPoints(ms)
    ensures AreDistinct(ms + [m])
    ensures forall op :: op in OutPoints(ms + [m]) <==> op in OutPoints(ms) || op == m.PrevOutpoint()
  {
    assert OutPoints(ms + [m]) == OutPoints(ms) + [m.PrevOutpoint()];
    forall i | 0 <= i < |ms| ensures ms[i].PrevOutpoint() != m.PrevOutpoint() {
      assert OutPoints(ms)[i] in OutPoints(ms);
    }
  }

  lemma OutPointsElements(ms: seq<MustSpend>, op: OutPoint)
    ensures op in OutPoints(ms) <==> exists m :: m in ms && m.PrevOutpoint() == op
  {
    if op in OutPoints(ms) {
      var i :| 0 <= i < |ms| && OutPoints(ms)[i] == op;
      assert ms[i] in ms;
    }
    if m :| m in ms && m.PrevOutpoint() == op {
      var i :| 0 <= i < |ms| && ms[i] == m;
      assert OutPoints(ms)[i] == op;
    }
  }

  lemma RetainedIsValid(ms: seq<MustSpend>, gone: set<OutPoint>)
    requires AreDistinct(ms)
    ensures AreDistinct(Retained(ms, NotAt(gone)))
    ensures forall op :: op in OutPoints(Retained(ms, NotAt(gone))) <==> op in OutPoints(ms) && op !in gone
  {
    RetainedDistinct(ms, NotAt(gone));
    forall op ensures op in OutPoints(Retained(ms, NotAt(gone))) <==> op in OutPoints(ms) && op !in gone {
      OutPointsElements(ms, op);
      OutPointsElements(Retained(ms, NotAt(gone)), op);
      forall m ensures m in Retained(ms, NotAt(gone)) <==> m in ms && NotAt(gone)(m) {
        RetainedElements(ms, NotAt(gone), m);
      }
    }
  }

  lemma {:induction false} RetainedAll(ms: seq<MustSpend>, gone: set<OutPoint>)
    requires forall op :: op in gone ==> op !in OutPoints(ms)
    ensures Retained(ms, NotAt(gone)) == ms
  {
    if ms != [] {
      var k := |ms| - 1;
      assert ms == ms[..k] + [ms[k]];
      assert OutPoints(ms)[k] in OutPoints(ms);
      assert OutPoints(ms) == OutPoints(ms[..k]) + [ms[k].PrevOutpoint()];
      RetainedAll(ms[..k], gone);
    }
  }

  // ---------------------------------------------------------------- what a replacement set guarantees

  /**
   * After `Replace`: no entry spends an output of a transaction being replaced, every input of every
   * replaced transaction is spent, and beyond the planned inputs nothing else is.
   */
  lemma ReplaceIsSafe(g: Graph, rank: Txid -> nat, order: seq<Txid>, before: seq<MustSpend>, after: seq<MustSpend>)
    requires IsRanked(g, rank) && IsOrderOf(order, g.Keys)
    requires after ==
      WithUtxos(Retained(Retained(before, IsPlanned), NotFrom(Sanitized(g, rank, order))), KeptInputs(g, rank, order))
    ensures forall m :: m in after ==> m.PrevOutpoint().txid !in Sanitized(g, rank, order)
    ensures forall x, op :: x in Sanitized(g, rank, order) && x in g && op in g[x].inputs ==> op in OutPoints(after)
    ensures forall m :: m in after && m.Utxo? ==>
      exists x :: x in Sanitized(g, rank, order) && x in g && m.outpoint in g[x].inputs
    ensures forall m :: m in before && m.Planned? && m.PrevOutpoint().txid !in Sanitized(g, rank, order) ==> m in after
  {
    var s := Sanitized(g, rank, order);
    var planned := Retained(before, IsPlanned);
    var kept := Retained(planned, NotFrom(s));
    WithUtxosElements(kept, KeptInputs(g, rank, order));
    forall m ensures m in kept <==> m in before && m.Planned? && m.PrevOutpoint().txid !in s {
      RetainedElements(planned, NotFrom(s), m);
      RetainedElements(before, IsPlanned, m);
    }
    forall m | m in after && m.Utxo?
      ensures exists x :: x in s && x in g && m.outpoint in g[x].inputs
      ensures m.outpoint.txid !in s
    {
      KeptInputsIff(g, rank, order, m.outpoint);
      var x :| x in order && x in s && m.outpoint in g[x].inputs;
      SanitizedIsAntichain(g, rank, order, x);
      var i :| 0 <= i < |g[x].inputs| && g[x].inputs[i] == m.outpoint;
    }
    forall x, op | x in s && x in g && op in g[x].inputs ensures op in OutPoints(after) {
      KeptInputsIff(g, rank, order, op);
    }
  }
}
