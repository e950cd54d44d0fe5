/** Building a replacement: which inputs a successful replace-by-fee call spends, and what it must pay more than. */
module ReplaceByFee {
  import opened Sequences
  import opened Coins
  import opened ReplaceParams

  /** A wallet output as listed from the canonical view. */
  datatype WalletOutput = WalletOutput(isConfirmed: bool, isMature: bool, isSpent: bool)

  /**
   * What the wallet knows when the call is made: its transaction graph, the confirmed transactions, its
   * outputs, the locked ones, those it can plan a spend for with the sequence that each plan requires, if
   * any, the sequences that a plan rejects, the outputs that the caller's filter accepts, and the fees that
   * it can compute.
   */
  datatype WalletView = WalletView(
    graph: Graph,
    confirmed: set<Txid>,
    outputs: map<OutPoint, WalletOutput>,
    locked: set<OutPoint>,
    planned: map<OutPoint, Option<nat>>,
    rejected: set<(OutPoint, nat)>,
    wanted: set<OutPoint>,
    fees: map<Txid, nat>)

  /** What the caller asks for. */
  datatype Request = Request(
    replacing: set<Txid>,
    mustSpend: seq<MustSpend>,
    chosen: set<OutPoint>,
    overrides: map<OutPoint, nat>,
    fallback: Option<nat>,
    manualOnly: bool)

  datatype OriginalStats = OriginalStats(weight: nat, fee: nat)

  /** What the replacement has to outbid. */
  datatype FeeFloor = FeeFloor(originals: seq<OriginalStats>, descendantFee: nat, incrementalRate: nat)

  /** What the selector was offered beside the listed inputs, what it must outbid, and what it chose to spend. */
  datatype Replacement = Replacement(candidates: seq<Input>, floor: FeeFloor, inputs: seq<Input>)

  datatype RbfError =
    | NoOriginalTransactions
    | NoRecipients
    | TransactionConfirmed(txid: Txid)
    | NoInputsFromOriginal(txid: Txid)
    | UnknownUtxo(outpoint: OutPoint)
    | Unplannable(outpoint: OutPoint)
    | SequenceRejected
    | ConflictingInput(outpoint: OutPoint)
    | InsufficientCandidates
    | MissingTransaction(txid: Txid)
    | PreviousFee(txid: Txid)
    | SelectionFailed

  ghost function RequestOf(params: PsbtParams): Request
    reads params
  {
    Request(params.replacing, params.mustSpend, params.chosen, params.sequenceOverrides, params.fallbackSequence,
            params.manuallySelectedOnly)
  }

  /** The transaction is named for replacement or descends from one that is. */
  ghost predicate IsReplaced(w: WalletView, rank: Txid -> nat, replacing: set<Txid>, x: Txid)
    requires IsRanked(w.graph, rank)
  {
    IsWithin(w.graph, rank, replacing, x)
  }

  // ---------------------------------------------------------------- planning inputs

  /** The sequence to set on a wallet input: its override, or the fallback where the plan requires none. */
  function WantedSequence(w: WalletView, overrides: map<OutPoint, nat>, fallback: Option<nat>, op: OutPoint): Option<nat>
    requires op in w.planned
  {
    if op in overrides then Some(overrides[op]) else if w.planned[op].None? then fallback else None
  }

  predicate IsAccepted(w: WalletView, op: OutPoint, sequence: Option<nat>) {
    sequence.None? || (op, sequence.value) !in w.rejected
  }

  /** A wallet entry must be known and planned, and the plan must take its override, or the fallback where it is due. */
  predicate IsBuildable(w: WalletView, overrides: map<OutPoint, nat>, fallback: Option<nat>, m: MustSpend) {
    m.Utxo? ==>
      var op := m.outpoint;
      && op in w.outputs && op in w.planned
      && (op in overrides ==> (op, overrides[op]) !in w.rejected)
      && (op !in overrides && w.planned[op].None? && fallback.Some? ==> (op, fallback.value) !in w.rejected)
  }

  /** A planned wallet input: an override wins, then what the plan requires, then the fallback. */
  ghost predicate IsWalletInput(w: WalletView, overrides: map<OutPoint, nat>, fallback: Option<nat>, op: OutPoint, input: Input) {
    && input.prevOutpoint == op && op in w.outputs && op in w.planned
    && (op in overrides ==> input.sequence == Some(overrides[op]))
    && (op !in overrides && w.planned[op].Some? ==> input.sequence == w.planned[op])
    && (op !in overrides && w.planned[op].None? ==> input.sequence == fallback)
  }

  /** The input made from a listed entry; caller-made inputs are kept as they are. */
  ghost predicate IsInputFor(w: WalletView, overrides: map<OutPoint, nat>, fallback: Option<nat>, m: MustSpend, input: Input) {
    match m
    case Planned(made) => input == made
    case Utxo(op) => IsWalletInput(w, overrides, fallback, op, input)
  }

  /** The plan refuses the override of the output, or the fallback where that is due. */
  predicate IsRejected(w: WalletView, overrides: map<OutPoint, nat>, fallback: Option<nat>, op: OutPoint) {
    && op in w.planned
    && if op in overrides then (op, overrides[op]) in w.rejected
       else w.planned[op].None? && fallback.Some? && (op, fallback.value) in w.rejected
  }

  ghost predicate IsBuildError(w: WalletView, overrides: map<OutPoint, nat>, fallback: Option<nat>, m: MustSpend, e: RbfError) {
    && m.Utxo?
    && if m.outpoint !in w.outputs then e == UnknownUtxo(m.outpoint)
       else if m.outpoint !in w.planned then e == Unplannable(m.outpoint)
       else e == SequenceRejected && IsRejected(w, overrides, fallback, m.outpoint)
  }

  method BuildMustSpendInputs(mustSpend: seq<MustSpend>, w: WalletView, overrides: map<OutPoint, nat>, fallback: Option<nat>)
    returns (r: Result<seq<Input>, RbfError>)
    ensures r.Ok? ==> |r.value| == |mustSpend| && forall i :: 0 <= i < |mustSpend| ==>
      IsInputFor(w, overrides, fallback, mustSpend[i], r.value[i])
    ensures r.Ok? <==> forall m :: m in mustSpend ==> IsBuildable(w, overrides, fallback, m)
    // the first entry that fails decides the error
    ensures r.Err? ==> exists i :: (
      && 0 <= i < |mustSpend| && IsBuildError(w, overrides, fallback, mustSpend[i], r.error)
      && forall j :: 0 <= j < i ==> IsBuildable(w, overrides, fallback, mustSpend[j]))
  {
    var inputs := [];
    for i := 0 to |mustSpend|
      invariant |inputs| == i
      invariant forall j :: 0 <= j < i ==> IsInputFor(w, overrides, fallback, mustSpend[j], inputs[j])
      invariant forall j :: 0 <= j < i ==> IsBuildable(w, overrides, fallback, mustSpend[j])
    {
      assert mustSpend[i] in mustSpend;
      match mustSpend[i] {
        case Utxo(op) =>
          if op !in w.outputs {
            return Err(UnknownUtxo(op));
          }
          if op !in w.planned {
            return Err(Unplannable(op));
          }
          var wanted := WantedSequence(w, overrides, fallback, op);
          if !IsAccepted(w, op, wanted) {
            return Err(SequenceRejected);
          }
          inputs := inputs + [Input(op, if wanted.Some? then wanted else w.planned[op])];
        case Planned(input) =>
          inputs := inputs + [input];
      }
    }
    return Ok(inputs);
  }

  predicate IsSpendable(w: WalletView, chosen: set<OutPoint>, op: OutPoint)
    requires op in w.outputs
  {
    && op !in chosen
    && op !in w.locked
    && w.outputs[op].isMature
    && !w.outputs[op].isSpent
  }

  /** A coin-selection candidate of a replacement. */
  predicate IsCandidate(w: WalletView, chosen: set<OutPoint>, toReplace: set<Txid>, op: OutPoint) {
    && op in w.outputs
    && IsSpendable(w, chosen, op)
    && op.txid !in toReplace && w.outputs[op].isConfirmed && op in w.wanted
    && op in w.planned
  }

  /** Plan the candidates; overrides are not for them, the fallback is. */
  method PlanCandidates(ops: seq<OutPoint>, w: WalletView, fallback: Option<nat>) returns (r: Result<seq<Input>, RbfError>)
    requires forall op :: op in ops ==> op in w.outputs && op in w.planned
    ensures r.Ok? ==> |r.value| == |ops| && forall i :: 0 <= i < |ops| ==> IsWalletInput(w, map[], fallback, ops[i], r.value[i])
    ensures r.Ok? <==> forall op :: op in ops ==> IsBuildable(w, map[], fallback, Utxo(op))
    ensures r.Err? ==> r.error == SequenceRejected
  {
    var inputs := [];
    for i := 0 to |ops|
      invariant |inputs| == i
      invariant forall j :: 0 <= j < i ==> IsWalletInput(w, map[], fallback, ops[j], inputs[j])
      invariant forall j :: 0 <= j < i ==> IsBuildable(w, map[], fallback, Utxo(ops[j]))
    {
      var op := ops[i];
      assert op in ops;
      if w.planned[op].None? && fallback.Some? && (op, fallback.value) in w.rejected {
        assert !IsBuildable(w, map[], fallback, Utxo(op));
        return Err(SequenceRejected);
      }
      inputs := inputs + [Input(op, if w.planned[op].None? then fallback else w.planned[op])];
    }
    return Ok(inputs);
  }

  /**
   * Named assumption about the coin selector: it may fail, but a selection keeps every must-spend
   * input and adds only candidates, none twice.
   */
  method SelectCoins(must: seq<Input>, may: seq<Input>) returns (r: Result<seq<Input>, RbfError>)
    ensures r.Ok? ==>
      && multiset(must) <= multiset(r.value) <= multiset(must) + multiset(may)
    ensures r.Err? ==> r.error == SelectionFailed
  {
    var success: bool := *;
    if !success {
      return Err(SelectionFailed);
    }
    var n: int :| 0 <= n <= |may|;
    assert may == may[..n] + may[n..];
    return Ok(must + may[..n]);
  }

  // ---------------------------------------------------------------- the originals

  ghost predicate SpendsOriginal(w: WalletView, spent: set<OutPoint>, txid: Txid) {
    txid in w.graph && exists op :: op in w.graph[txid].inputs && op in spent
  }

  method CheckOriginals(replacing: set<Txid>, chosen: set<OutPoint>, w: WalletView) returns (r: Option<RbfError>)
    ensures r.None? <==>
      && replacing !! w.confirmed
      && forall x :: x in replacing && x in w.graph ==> SpendsOriginal(w, chosen, x)
    ensures r.Some? ==> exists x :: (
      && x in replacing
      && if x in w.confirmed then r.value == TransactionConfirmed(x)
         else r.value == NoInputsFromOriginal(x) && x in w.graph && !SpendsOriginal(w, chosen, x))
  {
    var pending := replacing;
    while pending != {}
      invariant pending <= replacing
      invariant forall x :: x in replacing && x !in pending ==> x !in w.confirmed
    {
      var x :| x in pending;
      if x in w.confirmed {
        return Some(TransactionConfirmed(x));
      }
      pending := pending - {x};
    }
    pending := replacing;
    while pending != {}
      invariant pending <= replacing
      invariant forall x :: x in replacing && x in w.graph && x !in pending ==> SpendsOriginal(w, chosen, x)
    {
      var x :| x in pending;
      if x in w.graph && !(exists op :: op in w.graph[x].inputs && op in chosen) {
        assert !SpendsOriginal(w, chosen, x);
        return Some(NoInputsFromOriginal(x));
      }
      pending := pending - {x};
    }
    return None;
  }

  // ---------------------------------------------------------------- the fee floor

  predicate IsKnown(w: WalletView, x: Txid) {
    x in w.graph && x in w.fees
  }

  function FeeIn(w: WalletView): Txid -> int {
    x => if x in w.fees then w.fees[x] else 0
  }

  function FeeOf(s: OriginalStats): int { s.fee }

  predicate AreKnown(w: WalletView, order: seq<Txid>) {
    forall i :: 0 <= i < |order| ==> IsKnown(w, order[i])
  }

  /** One entry for each transaction, with its own weight and fee. */
  ghost predicate AreStatsOf(w: WalletView, order: seq<Txid>, stats: seq<OriginalStats>) {
    && |stats| == |order|
    && forall i :: 0 <= i < |order| ==>
      && order[i] in w.graph && stats[i].weight == w.graph[order[i]].weight
      && order[i] in w.fees && stats[i].fee == w.fees[order[i]]
  }

  function StatsOf(w: WalletView, order: seq<Txid>): (stats: seq<OriginalStats>)
    requires AreKnown(w, order)
    ensures AreStatsOf(w, order, stats)
  {
    seq(|order|, i requires 0 <= i < |order| => OriginalStats(w.graph[order[i]].weight, w.fees[order[i]]))
  }

  lemma {:induction false} StatsFees(w: WalletView, order: seq<Txid>)
    requires AreKnown(w, order)
    ensures SumOf(FeeOf, StatsOf(w, order)) == SumOf(FeeIn(w), order)
  {
    if order != [] {
      assert StatsOf(w, order)[1..] == StatsOf(w, order[1..]);
      StatsFees(w, order[1..]);
    }
  }

  /**
   * The floor lists weight and fee of each named transaction once, and its fees add up to those of all
   * replaced transactions with a known fee, each counted once.
   */
  ghost predicate IsFloor(w: WalletView, rank: Txid -> nat, replacing: set<Txid>, floor: FeeFloor)
    requires IsRanked(w.graph, rank)
  {
    && floor.incrementalRate == 250
    && (exists order :: IsOrderOf(order, replacing) && AreStatsOf(w, order, floor.originals))
    && (forall order :: IsOrderOf(order, set x | x in w.graph && x in w.fees && IsReplaced(w, rank, replacing, x)) ==>
          SumOf(FeeOf, floor.originals) + floor.descendantFee == SumOf(FeeIn(w), order))
  }

  method CollectOriginals(replacing: set<Txid>, w: WalletView) returns (r: Result<seq<OriginalStats>, RbfError>, ghost order: seq<Txid>)
    ensures r.Ok? <==> forall x :: x in replacing ==> IsKnown(w, x)
    ensures r.Ok? ==>
      && IsOrderOf(order, replacing) && AreKnown(w, order) && r.value == StatsOf(w, order)
    ensures r.Err? ==> exists x :: (
      && x in replacing
      && if x in w.graph then x !in w.fees && r.error == PreviousFee(x) else r.error == MissingTransaction(x))
  {
    var pending, stats := replacing, [];
    order := [];
    while pending != {}
      invariant pending <= replacing
      invariant forall x :: x in order <==> x in replacing && x !in pending
      invariant forall i, j :: 0 <= i < j < |order| ==> order[i] != order[j]
      invariant AreKnown(w, order)
      invariant stats == StatsOf(w, order)
    {
      var x :| x in pending;
      if x !in w.graph {
        return Err(MissingTransaction(x)), order;
      }
      if x !in w.fees {
        return Err(PreviousFee(x)), order;
      }
      stats := stats + [OriginalStats(w.graph[x].weight, w.fees[x])];
      pending, order := pending - {x}, order + [x];
    }
    return Ok(stats), order;
  }

  method SumDescendantFees(descendants: set<Txid>, w: WalletView) returns (fee: nat, ghost order: seq<Txid>)
    ensures IsOrderOf(order, set x | x in descendants && IsKnown(w, x)) && fee == SumOf(FeeIn(w), order)
  {
    var pending := descendants;
    fee, order := 0, [];
    while pending != {}
      invariant pending <= descendants
      invariant forall x :: x in order <==> x in descendants && IsKnown(w, x) && x !in pending
      invariant forall i, j :: 0 <= i < j < |order| ==> order[i] != order[j]
      invariant fee == SumOf(FeeIn(w), order)
    {
      var x :| x in pending;
      if IsKnown(w, x) {
        SumOfAppend(FeeIn(w), order, [x]);
        fee, order := fee + w.fees[x], order + [x];
      }
      pending := pending - {x};
    }
  }

  lemma SameElementsSameSum(f: Txid -> int, a: seq<Txid>, b: seq<Txid>, s: set<Txid>)
    requires IsOrderOf(a, s) && IsOrderOf(b, s)
    ensures SumOf(f, a) == SumOf(f, b)
  {
    DistinctCount(a);
    DistinctCount(b);
    forall x ensures multiset(a)[x] == multiset(b)[x] {
      assert x in a <==> x in multiset(a);
      assert x in b <==> x in multiset(b);
    }
    assert multiset(a) == multiset(b);
    SumOfPermutation(f, a, b);
  }

  /** Named transactions and descendants are counted apart, and together they are all that pay. */
  lemma FloorIsComplete(w: WalletView, rank: Txid -> nat, replacing: set<Txid>, descendants: set<Txid>, floor: FeeFloor,
                        named: seq<Txid>, others: seq<Txid>)
    requires IsRanked(w.graph, rank) && floor.incrementalRate == BROADCAST_MIN
    requires descendants == set x | x in w.graph && x !in replacing && HasAncestorIn(w.graph, rank, x, replacing)
    requires IsOrderOf(named, replacing) && AreKnown(w, named) && floor.originals == StatsOf(w, named)
    requires IsOrderOf(others, set x | x in descendants && IsKnown(w, x)) && floor.descendantFee == SumOf(FeeIn(w), others)
    ensures IsFloor(w, rank, replacing, floor)
  {
    hide StatsOf, SumOf;
    var known := set x | x in descendants && IsKnown(w, x);
    JoinOrders(named, replacing, others, known);
    var payers := set x | x in w.graph && x in w.fees && IsReplaced(w, rank, replacing, x);
    assert replacing + known == payers;
    StatsFees(w, named);
    SumOfAppend(FeeIn(w), named, others);
    forall order | IsOrderOf(order, payers)
      ensures SumOf(FeeIn(w), order) == SumOf(FeeOf, floor.originals) + floor.descendantFee
    {
      SameElementsSameSum(FeeIn(w), order, named + others, replacing + known);
    }
  }

  method BuildFloor(replacing: set<Txid>, descendants: set<Txid>, w: WalletView, ghost rank: Txid -> nat)
    returns (r: Result<FeeFloor, RbfError>)
    requires IsRanked(w.graph, rank)
    requires descendants == set x | x in w.graph && x !in replacing && HasAncestorIn(w.graph, rank, x, replacing)
    ensures r.Ok? <==> forall x :: x in replacing ==> IsKnown(w, x)
    ensures r.Ok? ==> IsFloor(w, rank, replacing, r.value)
    ensures r.Err? ==> exists x :: (
      && x in replacing
      && if x in w.graph then x !in w.fees && r.error == PreviousFee(x) else r.error == MissingTransaction(x))
  {
    hide IsFloor, StatsOf, SumOf, HasAncestorIn;
    ghost var named, others;
    var originals;
    originals, named := CollectOriginals(replacing, w);
    if originals.Err? {
      return Err(originals.error);
    }
    var descendantFee;
    descendantFee, others := SumDescendantFees(descendants, w);
    r := Ok(FeeFloor(originals.value, descendantFee, BROADCAST_MIN));
    FloorIsComplete(w, rank, replacing, descendants, r.value, named, others);
  }

  // ---------------------------------------------------------------- the call

  function Spent(inputs: seq<Input>): (ops: seq<OutPoint>)
    ensures |ops| == |inputs| && forall i :: 0 <= i < |ops| ==> ops[i] == inputs[i].prevOutpoint
  {
    seq(|inputs|, i requires 0 <= i < |inputs| => inputs[i].prevOutpoint)
  }

  /**
   * Every named transaction is known and unconfirmed and has one of its inputs spent again, so that the
   * replacement conflicts with it; no output of a named transaction or of a descendant is spent; no input is
   * spent twice; every input is a listed entry or a spendable confirmed candidate, with the sequence due to it.
   */
  ghost predicate IsReplacement(w: WalletView, rank: Txid -> nat, q: Request, inputs: seq<Input>)
    requires IsRanked(w.graph, rank)
  {
    && (forall x :: x in q.replacing ==>
          && x !in w.confirmed && x in w.graph
          && exists op :: op in w.graph[x].inputs && op in Spent(inputs))
    && (forall i :: 0 <= i < |inputs| ==> !IsReplaced(w, rank, q.replacing, inputs[i].prevOutpoint.txid))
    && AreDistinctInputs(inputs)
    && (forall m :: m in q.mustSpend ==> exists input :: input in inputs && IsInputFor(w, q.overrides, q.fallback, m, input))
    && (forall input :: input in inputs ==> IsListed(w, q, input) || IsAdded(w, q, input))
  }

  ghost predicate IsListed(w: WalletView, q: Request, input: Input) {
    exists m :: m in q.mustSpend && IsInputFor(w, q.overrides, q.fallback, m, input)
  }

  ghost predicate IsAdded(w: WalletView, q: Request, input: Input) {
    var op := input.prevOutpoint;
    && op !in q.chosen && IsWalletInput(w, map[], q.fallback, op, input)
    && w.outputs[op].isConfirmed && w.outputs[op].isMature && !w.outputs[op].isSpent
    && op !in w.locked && op in w.wanted
  }

  ghost predicate HasNoCandidate(w: WalletView, rank: Txid -> nat, q: Request)
    requires IsRanked(w.graph, rank)
  {
    forall op :: op in w.outputs && op in w.planned && IsSpendable(w, q.chosen, op) && w.outputs[op].isConfirmed && op in w.wanted ==>
      IsReplaced(w, rank, q.replacing, op.txid)
  }

  lemma NoneOffered(w: WalletView, rank: Txid -> nat, q: Request, toReplace: set<Txid>)
    requires IsRanked(w.graph, rank) && forall x :: x in toReplace <==> IsReplaced(w, rank, q.replacing, x)
    requires forall op :: op in w.outputs ==> !IsCandidate(w, q.chosen, toReplace, op)
    ensures HasNoCandidate(w, rank, q)
  {
    hide IsReplaced;
  }

  /** Each error names a transaction or an input to which it applies. */
  ghost predicate IsJustified(w: WalletView, rank: Txid -> nat, q: Request, e: RbfError)
    requires IsRanked(w.graph, rank)
  {
    match e
    case TransactionConfirmed(x) => x in q.replacing && x in w.confirmed
    case NoInputsFromOriginal(x) => x in q.replacing && x in w.graph && !SpendsOriginal(w, q.chosen, x)
    case MissingTransaction(x) => x in q.replacing && x !in w.graph
    case PreviousFee(x) => x in q.replacing && x !in w.fees
    case UnknownUtxo(op) => Utxo(op) in q.mustSpend && op !in w.outputs
    case Unplannable(op) => Utxo(op) in q.mustSpend && op !in w.planned
    case SequenceRejected => exists op :: (
      if Utxo(op) in q.mustSpend then IsRejected(w, q.overrides, q.fallback, op)
      else op !in q.chosen && IsRejected(w, map[], q.fallback, op))
    case ConflictingInput(op) => op in OutPoints(q.mustSpend) && IsReplaced(w, rank, q.replacing, op.txid)
    case InsufficientCandidates => q.mustSpend == [] && (q.manualOnly || HasNoCandidate(w, rank, q))
    case NoOriginalTransactions => q.replacing == {}
    case NoRecipients => true
    case SelectionFailed => true
  }

  lemma BuildErrorApplies(w: WalletView, rank: Txid -> nat, q: Request, e: RbfError)
    requires IsRanked(w.graph, rank)
    requires exists i :: 0 <= i < |q.mustSpend| && IsBuildError(w, q.overrides, q.fallback, q.mustSpend[i], e)
    ensures IsJustified(w, rank, q, e) && e != NoRecipients && e != NoOriginalTransactions
  {
    hide IsReplaced, SpendsOriginal, WantedSequence, IsAccepted;
    var i :| 0 <= i < |q.mustSpend| && IsBuildError(w, q.overrides, q.fallback, q.mustSpend[i], e);
    var m := q.mustSpend[i];
    assert m in q.mustSpend && m == Utxo(m.outpoint);
  }

  lemma ConflictApplies(w: WalletView, rank: Txid -> nat, q: Request, must: seq<Input>, i: nat, toReplace: set<Txid>)
    requires IsRanked(w.graph, rank) && Spent(must) == OutPoints(q.mustSpend) && i < |must|
    requires forall x :: x in toReplace <==> IsReplaced(w, rank, q.replacing, x)
    requires must[i].prevOutpoint.txid in toReplace
    ensures IsJustified(w, rank, q, ConflictingInput(must[i].prevOutpoint))
  {
    hide IsReplaced;
    assert Spent(must)[i] in Spent(must);
  }

  lemma CandidateErrorApplies(w: WalletView, rank: Txid -> nat, q: Request, toReplace: set<Txid>, ops: seq<OutPoint>)
    requires IsRanked(w.graph, rank) && forall op :: op in q.chosen <==> op in OutPoints(q.mustSpend)
    requires forall op :: op in ops ==> IsCandidate(w, q.chosen, toReplace, op)
    requires exists op :: op in ops && !IsBuildable(w, map[], q.fallback, Utxo(op))
    ensures IsJustified(w, rank, q, SequenceRejected)
  {
    hide WantedSequence, IsAccepted;
    var op :| op in ops && !IsBuildable(w, map[], q.fallback, Utxo(op));
    OutPointsElements(q.mustSpend, op);
    assert Utxo(op).PrevOutpoint() == op;
  }

  lemma MustSpent(w: WalletView, q: Request, must: seq<Input>)
    requires |must| == |q.mustSpend| && forall i :: 0 <= i < |must| ==>
      IsInputFor(w, q.overrides, q.fallback, q.mustSpend[i], must[i])
    ensures Spent(must) == OutPoints(q.mustSpend)
  {
    forall i | 0 <= i < |must| ensures must[i].prevOutpoint == q.mustSpend[i].PrevOutpoint() {
    }
  }

  /**
   * Unless only listed inputs may be spent, the candidates are exactly the wallet's confirmed, mature, unspent,
   * unlocked outputs that are wanted, can be planned, are not listed and do not come from a replaced transaction.
   */
  ghost predicate IsOffer(w: WalletView, rank: Txid -> nat, q: Request, candidates: seq<OutPoint>)
    requires IsRanked(w.graph, rank)
  {
    && (forall op :: op in candidates <==>
          && !q.manualOnly
          && op in w.outputs && w.outputs[op].isConfirmed && w.outputs[op].isMature && !w.outputs[op].isSpent
          && op !in w.locked && op in w.wanted && op in w.planned
          && op !in q.chosen && !IsReplaced(w, rank, q.replacing, op.txid))
    && (forall i, j :: 0 <= i < j < |candidates| ==> candidates[i] != candidates[j])
  }

  lemma CandidatesAreOffer(w: WalletView, rank: Txid -> nat, q: Request, toReplace: set<Txid>, candidates: seq<OutPoint>)
    requires IsRanked(w.graph, rank) && forall x :: x in toReplace <==> IsReplaced(w, rank, q.replacing, x)
    requires forall op :: op in candidates <==> !q.manualOnly && op in w.outputs && IsCandidate(w, q.chosen, toReplace, op)
    requires forall i, j :: 0 <= i < j < |candidates| ==> candidates[i] != candidates[j]
    ensures IsOffer(w, rank, q, candidates)
  {
    hide IsReplaced;
  }

  /** The listed inputs and the candidates, planned, of which none comes from a replaced transaction. */
  ghost predicate AreGathered(w: WalletView, q: Request, toReplace: set<Txid>, must: seq<Input>, ops: seq<OutPoint>, may: seq<Input>) {
    && |must| == |q.mustSpend|
    && (forall i :: 0 <= i < |must| ==>
          IsInputFor(w, q.overrides, q.fallback, q.mustSpend[i], must[i]) && must[i].prevOutpoint.txid !in toReplace)
    && (forall op :: op in ops ==> IsCandidate(w, q.chosen, toReplace, op))
    && (forall i, j :: 0 <= i < j < |ops| ==> ops[i] != ops[j])
    && |may| == |ops|
    && (forall i :: 0 <= i < |may| ==> IsWalletInput(w, map[], q.fallback, ops[i], may[i]))
  }

  method GatherInputs(params: PsbtParams, w: WalletView, toReplace: set<Txid>, ghost rank: Txid -> nat)
    returns (r: Result<(seq<Input>, seq<Input>), RbfError>, ghost ops: seq<OutPoint>)
    requires params.Valid() && IsRanked(w.graph, rank)
    requires forall x :: x in toReplace <==> IsReplaced(w, rank, params.replacing, x)
    ensures r.Ok? ==>
      && AreGathered(w, RequestOf(params), toReplace, r.value.0, ops, r.value.1)
      && IsOffer(w, rank, RequestOf(params), ops)
    ensures r.Err? ==> IsJustified(w, rank, RequestOf(params), r.error) && r.error != NoRecipients && r.error != NoOriginalTransactions
  {
    hide IsOffer, HasNoCandidate, IsReplaced, IsInputFor, IsWalletInput, IsBuildError, IsBuildable, IsCandidate, OutPoints, Spent, AreDistinct;
    ops := [];
    var must := BuildMustSpendInputs(params.mustSpend, w, params.sequenceOverrides, params.fallbackSequence);
    if must.Err? {
      BuildErrorApplies(w, rank, RequestOf(params), must.error);
      return Err(must.error), ops;
    }
    for i := 0 to |must.value|
      invariant forall j :: 0 <= j < i ==> must.value[j].prevOutpoint.txid !in toReplace
    {
      if must.value[i].prevOutpoint.txid in toReplace {
        MustSpent(w, RequestOf(params), must.value);
        ConflictApplies(w, rank, RequestOf(params), must.value, i, toReplace);
        return Err(ConflictingInput(must.value[i].prevOutpoint)), ops;
      }
    }
    var candidates := [];
    if !params.manuallySelectedOnly {
      var offered := set op | op in w.outputs && IsCandidate(w, params.chosen, toReplace, op);
      candidates := SetToSeq(offered);
      assert forall op :: op in w.outputs && IsCandidate(w, params.chosen, toReplace, op) ==> op in offered && op in candidates;
    }
    ops := candidates;
    CandidatesAreOffer(w, rank, RequestOf(params), toReplace, ops);
    CandidatesArePlanned(w, params.chosen, toReplace, ops);
    var may := PlanCandidates(candidates, w, params.fallbackSequence);
    if may.Err? {
      CandidateErrorApplies(w, rank, RequestOf(params), toReplace, ops);
      return Err(may.error), ops;
    }
    if must.value == [] && may.value == [] {
      if !params.manuallySelectedOnly {
        assert candidates == [];
        NoneOffered(w, rank, RequestOf(params), toReplace);
      }
      return Err(InsufficientCandidates), ops;
    }
    return Ok((must.value, may.value)), ops;
  }

  lemma CandidatesArePlanned(w: WalletView, chosen: set<OutPoint>, toReplace: set<Txid>, ops: seq<OutPoint>)
    requires forall op :: op in ops ==> op in w.outputs && IsCandidate(w, chosen, toReplace, op)
    ensures forall op :: op in ops ==> op in w.planned
  {
  }

  /** `canSweep` says that all coins are taken and an explicit change script receives them. */
  method ReplaceByFeeWithRng(params: PsbtParams, hasRecipients: bool, canSweep: bool, w: WalletView, ghost rank: Txid -> nat)
    returns (r: Result<Replacement, RbfError>)
    requires params.Valid() && IsRanked(w.graph, rank)
    ensures r.Ok? ==>
      && params.replacing != {} && (hasRecipients || canSweep)
      && IsReplacement(w, rank, RequestOf(params), r.value.inputs)
      && IsOffer(w, rank, RequestOf(params), Spent(r.value.candidates))
      && (forall input :: input in r.value.candidates ==> IsAdded(w, RequestOf(params), input))
      && IsFloor(w, rank, params.replacing, r.value.floor)
    ensures r == Err(NoOriginalTransactions) <==> params.replacing == {}
    ensures r == Err(NoRecipients) <==> params.replacing != {} && !hasRecipients && !canSweep
    ensures r.Err? ==> IsJustified(w, rank, RequestOf(params), r.error)
    ensures r.Ok? && params.manuallySelectedOnly ==>
      multiset(Spent(r.value.inputs)) == multiset(OutPoints(params.mustSpend))
  {
    hide HasAncestorIn, SpendsOriginal, IsReplacement, IsFloor, IsOffer, IsAdded, AreGathered, OutPoints, Spent, IsKnown,
      AreDistinct;
    if params.replacing == {} {
      return Err(NoOriginalTransactions);
    }
    if !hasRecipients && !canSweep {
      return Err(NoRecipients);
    }
    var failed := CheckOriginals(params.replacing, params.chosen, w);
    if failed.Some? {
      return Err(failed.value);
    }
    var direct := params.replacing;
    var descendants := set x | x in w.graph && x !in direct && HasAncestorIn(w.graph, rank, x, direct);
    var toReplace := direct + descendants;
    ghost var ops;
    var gathered;
    gathered, ops := GatherInputs(params, w, toReplace, rank);
    if gathered.Err? {
      return Err(gathered.error);
    }
    var (must, may) := gathered.value;
    var floor := BuildFloor(direct, descendants, w, rank);
    if floor.Err? {
      return Err(floor.error);
    }
    var selected := SelectCoins(must, may);
    if selected.Err? {
      return Err(selected.error);
    }
    FloorMeansKnown(w, direct);
    SelectionIsReplacement(w, rank, RequestOf(params), toReplace, must, ops, may, selected.value);
    OfferIsAdded(w, RequestOf(params), toReplace, must, ops, may);
    if params.manuallySelectedOnly {
      NothingOffered(w, rank, RequestOf(params), ops);
      ManualSelection(w, RequestOf(params), toReplace, must, ops, selected.value);
    }
    return Ok(Replacement(may, floor.value, selected.value));
  }

  lemma NothingOffered(w: WalletView, rank: Txid -> nat, q: Request, ops: seq<OutPoint>)
    requires IsRanked(w.graph, rank) && IsOffer(w, rank, q, ops) && q.manualOnly
    ensures ops == []
  {
    hide IsReplaced;
    SomeElement(ops);
  }

  lemma SomeElement(ops: seq<OutPoint>)
    ensures ops != [] ==> exists op :: op in ops
  {
    if ops != [] {
      assert ops[0] in ops;
    }
  }

  lemma OfferIsAdded(w: WalletView, q: Request, toReplace: set<Txid>, must: seq<Input>, ops: seq<OutPoint>, may: seq<Input>)
    requires AreGathered(w, q, toReplace, must, ops, may)
    ensures Spent(may) == ops && |may| == |ops|
    ensures forall input :: input in may ==> IsAdded(w, q, input)
  {
    hide IsInputFor, IsWalletInput, IsAdded;
    MayIsAdded(w, q, toReplace, ops, may);
  }

  lemma FloorMeansKnown(w: WalletView, replacing: set<Txid>)
    requires forall x :: x in replacing ==> IsKnown(w, x)
    ensures forall x :: x in replacing ==> x in w.graph
  {
  }

  lemma SpentElements(inputs: seq<Input>, op: OutPoint)
    ensures op in Spent(inputs) <==> exists input :: input in inputs && input.prevOutpoint == op
  {
    if input :| input in inputs && input.prevOutpoint == op {
      var i :| 0 <= i < |inputs| && inputs[i] == input;
      assert Spent(inputs)[i] == op;
    }
    if op in Spent(inputs) {
      var i :| 0 <= i < |inputs| && Spent(inputs)[i] == op;
      assert inputs[i] in inputs;
    }
  }

  /** The same inputs in another order spend the same outputs. */
  lemma SpentOfPermutation(a: seq<Input>, b: seq<Input>)
    requires multiset(a) == multiset(b) && AreDistinctInputs(b)
    ensures multiset(Spent(a)) == multiset(Spent(b))
  {
    DistinctSelection(b, a);
    DistinctCount(Spent(a));
    DistinctCount(Spent(b));
    ContainedElements(a, b);
    ContainedElements(b, a);
    forall op ensures multiset(Spent(a))[op] == multiset(Spent(b))[op] {
      SpentElements(a, op);
      SpentElements(b, op);
      assert op in multiset(Spent(a)) <==> op in Spent(a);
      assert op in multiset(Spent(b)) <==> op in Spent(b);
    }
  }

  lemma AsDistinctAsListed(mustSpend: seq<MustSpend>, must: seq<Input>)
    requires AreDistinct(mustSpend) && Spent(must) == OutPoints(mustSpend)
    ensures AreDistinctInputs(must)
  {
    assert forall i :: 0 <= i < |must| ==> Spent(must)[i] == OutPoints(mustSpend)[i];
  }

  lemma ManualSelection(w: WalletView, q: Request, toReplace: set<Txid>, must: seq<Input>, ops: seq<OutPoint>, inputs: seq<Input>)
    requires AreGathered(w, q, toReplace, must, ops, []) && AreDistinct(q.mustSpend) && multiset(inputs) == multiset(must)
    ensures multiset(Spent(inputs)) == multiset(OutPoints(q.mustSpend))
  {
    hide IsInputFor, IsWalletInput, AreDistinctInputs;
    MustSpent(w, q, must);
    AsDistinctAsListed(q.mustSpend, must);
    SpentOfPermutation(inputs, must);
  }

  lemma SelectionIsReplacement(w: WalletView, rank: Txid -> nat, q: Request, toReplace: set<Txid>, must: seq<Input>,
                               ops: seq<OutPoint>, may: seq<Input>, inputs: seq<Input>)
    requires IsRanked(w.graph, rank)
    requires AreDistinct(q.mustSpend) && forall op :: op in q.chosen <==> op in OutPoints(q.mustSpend)
    requires q.replacing !! w.confirmed
    requires forall x :: x in q.replacing ==> x in w.graph && SpendsOriginal(w, q.chosen, x)
    requires forall x :: x in toReplace <==> IsReplaced(w, rank, q.replacing, x)
    requires AreGathered(w, q, toReplace, must, ops, may)
    requires multiset(must) <= multiset(inputs) <= multiset(must) + multiset(may)
    ensures IsReplacement(w, rank, q, inputs)
  {
    hide IsReplaced, HasAncestorIn, SpendsOriginal, IsInputFor, IsWalletInput, IsListed, IsAdded, AreDistinct;
    MustSpent(w, q, must);
    MustIsListed(w, q, must);
    MayIsAdded(w, q, toReplace, ops, may);
    AllDistinct(w, q, toReplace, must, ops, may);
    DistinctSelection(must + may, inputs);
    ContainedElements(must, inputs);
    ContainedElements(inputs, must + may);
    forall i | 0 <= i < |inputs| ensures inputs[i].prevOutpoint.txid !in toReplace {
      assert inputs[i] in must + may;
    }
    forall x | x in q.replacing ensures x in w.graph && exists op :: op in w.graph[x].inputs && op in Spent(inputs) {
      SameSpends(w, q.chosen, must, inputs, x);
    }
    forall m | m in q.mustSpend ensures exists input :: input in inputs && IsInputFor(w, q.overrides, q.fallback, m, input) {
      var i :| 0 <= i < |must| && q.mustSpend[i] == m;
      assert must[i] in must;
    }
  }

  lemma SameSpends(w: WalletView, chosen: set<OutPoint>, must: seq<Input>, inputs: seq<Input>, x: Txid)
    requires SpendsOriginal(w, chosen, x) && forall op :: op in chosen <==> op in Spent(must)
    requires forall input :: input in must ==> input in inputs
    ensures x in w.graph && exists op :: op in w.graph[x].inputs && op in Spent(inputs)
  {
    var op :| op in w.graph[x].inputs && op in chosen;
    var i :| 0 <= i < |must| && Spent(must)[i] == op;
    assert must[i] in must;
    var j :| 0 <= j < |inputs| && inputs[j] == must[i];
    assert Spent(inputs)[j] == op;
  }

  lemma MustIsListed(w: WalletView, q: Request, must: seq<Input>)
    requires |must| == |q.mustSpend| && forall i :: 0 <= i < |must| ==>
      IsInputFor(w, q.overrides, q.fallback, q.mustSpend[i], must[i])
    ensures forall input :: input in must ==> IsListed(w, q, input)
  {
    hide IsInputFor;
    forall input | input in must ensures IsListed(w, q, input) {
      var i :| 0 <= i < |must| && must[i] == input;
      assert q.mustSpend[i] in q.mustSpend;
    }
  }

  lemma MayIsAdded(w: WalletView, q: Request, toReplace: set<Txid>, ops: seq<OutPoint>, may: seq<Input>)
    requires forall op :: op in ops ==> IsCandidate(w, q.chosen, toReplace, op)
    requires |may| == |ops| && forall i :: 0 <= i < |may| ==> IsWalletInput(w, map[], q.fallback, ops[i], may[i])
    ensures forall input :: input in may ==> IsAdded(w, q, input) && input.prevOutpoint.txid !in toReplace
    ensures Spent(may) == ops
  {
    forall i | 0 <= i < |may|
      ensures IsAdded(w, q, may[i]) && may[i].prevOutpoint.txid !in toReplace && may[i].prevOutpoint == ops[i]
    {
      assert ops[i] in ops;
    }
  }

  lemma AllDistinct(w: WalletView, q: Request, toReplace: set<Txid>, must: seq<Input>, ops: seq<OutPoint>, may: seq<Input>)
    requires AreDistinct(q.mustSpend) && forall op :: op in q.chosen <==> op in OutPoints(q.mustSpend)
    requires Spent(must) == OutPoints(q.mustSpend) && Spent(may) == ops
    requires forall op :: op in ops ==> IsCandidate(w, q.chosen, toReplace, op)
    requires forall i, j :: 0 <= i < j < |ops| ==> ops[i] != ops[j]
    ensures AreDistinctInputs(must + may)
  {
    var all := must + may;
    forall i, j | 0 <= i < j < |all| ensures all[i].prevOutpoint != all[j].prevOutpoint {
      if j < |must| {
        assert Spent(must)[i] == q.mustSpend[i].PrevOutpoint() && Spent(must)[j] == q.mustSpend[j].PrevOutpoint();
      } else {
        var op := Spent(may)[j - |must|];
        assert op in ops;
        if i < |must| {
          assert Spent(must)[i] in OutPoints(q.mustSpend);
        } else {
          assert Spent(may)[i - |must|] == all[i].prevOutpoint;
        }
      }
    }
  }

  ghost predicate AreDistinctInputs(inputs: seq<Input>) {
    forall i, j :: 0 <= i < j < |inputs| ==> inputs[i].prevOutpoint != inputs[j].prevOutpoint
  }

  lemma DistinctSelection(all: seq<Input>, inputs: seq<Input>)
    requires AreDistinctInputs(all) && multiset(inputs) <= multiset(all)
    ensures AreDistinctInputs(inputs)
  {
    ContainedElements(inputs, all);
    DistinctCount(all);
    forall i, j | 0 <= i < j < |inputs| ensures inputs[i].prevOutpoint != inputs[j].prevOutpoint {
      assert inputs[i] in all && inputs[j] in all;
      TwiceCounts(inputs, i, j);
    }
  }

  // ---------------------------------------------------------------- replacements of a sanitized set

  /**
   * What `Replace` leaves of the supplied transactions can be replaced only if none of them descends from
   * another in the wallet's graph: sanitizing sees just the supplied ones, and the call refuses what it missed.
   */
  lemma ReplacementNeedsUnrelated(w: WalletView, rank: Txid -> nat, q: Request, inputs: seq<Input>, g: Graph, order: seq<Txid>)
    requires IsRanked(w.graph, rank) && IsRanked(g, rank) && Extends(w.graph, g) && IsOrderOf(order, g.Keys)
    requires q.replacing == Sanitized(g, rank, order)
    requires forall op :: op in KeptInputs(g, rank, order) ==> op in OutPoints(q.mustSpend)
    requires IsReplacement(w, rank, q, inputs)
    ensures forall x :: x in q.replacing && x in w.graph ==> !HasAncestorIn(w.graph, rank, x, q.replacing)
  {
    hide HasAncestorIn, Sanitized, KeptInputs, IsWithin, SpendsOriginal, IsListed, IsAdded, OutPoints;
    SelfConflictIff(w.graph, g, rank, order);
    forall op | op in KeptInputs(g, rank, order) ensures !IsWithin(w.graph, rank, q.replacing, op.txid) {
      OutPointsElements(q.mustSpend, op);
      var m :| m in q.mustSpend && m.PrevOutpoint() == op;
      var input :| input in inputs && IsInputFor(w, q.overrides, q.fallback, m, input);
      assert input.prevOutpoint == op;
      var i :| 0 <= i < |inputs| && inputs[i] == input;
      assert !IsReplaced(w, rank, q.replacing, inputs[i].prevOutpoint.txid);
    }
  }
}
