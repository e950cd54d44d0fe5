/** Assembling a transaction: requirements, outputs, candidates, coin selection and change. */
module CreateTx {
  import opened Sequences
  import opened Coins
  import opened Conditions
  import opened GreedySelection
  import opened CoinSelection
  import opened Policies
  import opened PolicyPaths
  import opened Locktimes

  datatype FeePolicy = FeeAmount(fee: nat) | FeeRate(rate: nat)

  datatype PreviousFee = PreviousFee(absolute: nat, rate: nat)

  datatype ChangeSpendPolicy = ChangeAllowed | OnlyChange | ChangeForbidden

  datatype TxParams = TxParams(
    recipients: seq<TxOut>,
    drainWallet: bool,
    drainTo: Option<Script>,
    feePolicy: FeePolicy,
    externalPath: Option<PolicyPaths.Path>,
    internalPath: Option<PolicyPaths.Path>,
    utxos: seq<WeightedUtxo>,
    unspendable: set<OutPoint>,
    manuallySelectedOnly: bool,
    locktime: Option<LockTime>,
    sequence: Option<Sequence>,
    version: Option<nat>,
    changePolicy: ChangeSpendPolicy,
    bumpingFee: Option<PreviousFee>,
    currentHeight: Option<nat>,
    allowDust: bool)

  /** An unspent output of the wallet; `parentVersion` is the version of the creating transaction, if known. */
  datatype Unspent = Unspent(utxo: Utxo, isConfirmed: bool, maturesAt: nat, parentVersion: Option<nat>, satisfactionWeight: nat)

  /** What the wallet knows when the call is made; `changeScript` is its next unused change script. */
  datatype WalletState = WalletState(
    unspent: seq<Unspent>,
    locked: set<OutPoint>,
    externalPolicy: Policy,
    internalPolicy: Option<Policy>,
    tipHeight: nat,
    changeScript: Script)

  datatype TxIn = TxIn(previousOutput: OutPoint, sequence: nat)

  datatype TxOut = TxOut(script: Script, value: nat)

  datatype Transaction = Transaction(version: nat, lockTime: LockTime, inputs: seq<TxIn>, outputs: seq<TxOut>)

  datatype CreateTxError =
    | SpendingPolicyRequired(keychain: Keychain)
    | PolicyFailure(error: PolicyError)
    | Version0
    | Version1Csv
    | BadLockTime(lockTimeError: LockTimeError)
    | RbfSequenceCsv(sequenceError: SequenceError)
    | FeeTooLow(requiredFee: nat)
    | FeeRateTooLow(requiredRate: nat)
    | NoUtxosSelected
    | MwebPegInRequiresKernel(index: nat)
    | OutputBelowDustLimit(index: nat)
    | CoinSelectionFailure(funds: InsufficientFunds)
    | NoRecipients

  // ---------------------------------------------------------------- requirements

  function PathOf(path: Option<PolicyPaths.Path>): PolicyPaths.Path {
    if path.Some? then path.value else map[]
  }

  function Requirements(w: WalletState, params: TxParams): (r: Result<Condition, CreateTxError>)
    ensures r.Err? ==> r.error.SpendingPolicyRequired? || r.error.PolicyFailure?
  {
    if params.changePolicy != OnlyChange && RequiresPath(w.externalPolicy) && params.externalPath.None? then
      Err(SpendingPolicyRequired(External))
    else if w.internalPolicy.Some? && params.changePolicy != ChangeForbidden && RequiresPath(w.internalPolicy.value)
         && params.internalPath.None? then
      Err(SpendingPolicyRequired(Internal))
    else
      match GetCondition(w.externalPolicy, PathOf(params.externalPath))
      case Err(e) => Err(PolicyFailure(e))
      case Ok(external) =>
        var internal := if w.internalPolicy.None? then Ok(NO_CONDITION)
                        else GetCondition(w.internalPolicy.value, PathOf(params.internalPath));
        match internal
        case Err(e) => Err(PolicyFailure(e))
        case Ok(change) =>
          match Merge(external, change)
          case Err(e) => Err(PolicyFailure(e))
          case Ok(c) => Ok(c)
  }

  /** The given path leads to the timelock, or the empty path where none is given. */
  ghost predicate LeadsTo(p: Policy, path: Option<PolicyPaths.Path>, leaf: Condition) {
    || (path.Some? && Active(p, path.value, leaf))
    || (path.None? && Active(p, map[], leaf))
  }

  /** A timelock that the chosen path of either keychain leads to. */
  ghost predicate IsActiveLock(w: WalletState, params: TxParams, leaf: Condition) {
    || LeadsTo(w.externalPolicy, params.externalPath, leaf)
    || (w.internalPolicy.Some? && LeadsTo(w.internalPolicy.value, params.internalPath, leaf))
  }

  /** Without a path, where the tree needs one and its keychain may be spent from. */
  ghost predicate LacksPath(p: Policy, path: Option<PolicyPaths.Path>) {
    path.None? && GetCondition(p, map[]).Err?
  }

  /** The condition of the given path, or of the empty one. */
  ghost predicate Asks(p: Policy, path: Option<PolicyPaths.Path>, r: Result<Condition, PolicyError>) {
    && (path.Some? ==> r == GetCondition(p, path.value))
    && (path.None? ==> r == GetCondition(p, map[]))
  }

  /**
   * A path is asked for exactly where a tree needs one, the external keychain first, and never for a keychain
   * that the change policy excludes; otherwise the errors of the trees are handed on, the external one first.
   */
  lemma RequirementsErr(w: WalletState, params: TxParams, external: Result<Condition, PolicyError>,
                        internal: Result<Condition, PolicyError>)
    requires Asks(w.externalPolicy, params.externalPath, external)
    requires if w.internalPolicy.Some? then Asks(w.internalPolicy.value, params.internalPath, internal)
             else internal == Ok(Condition(None, None))
    ensures var r := Requirements(w, params);
      var lacksExternal := params.changePolicy != OnlyChange && LacksPath(w.externalPolicy, params.externalPath);
      var lacksInternal := (&& w.internalPolicy.Some? && params.changePolicy != ChangeForbidden
                            && LacksPath(w.internalPolicy.value, params.internalPath));
      && (r == Err(SpendingPolicyRequired(External)) <==> lacksExternal)
      && (r == Err(SpendingPolicyRequired(Internal)) <==> !lacksExternal && lacksInternal)
      && (!lacksExternal && !lacksInternal ==>
            if external.Err? then r == Err(PolicyFailure(external.error))
            else if internal.Err? then r == Err(PolicyFailure(internal.error))
            else if Merge(external.value, internal.value).Err? then r == Err(PolicyFailure(MixedTimelockUnits))
            else r == Ok(Merge(external.value, internal.value).value))
  {
    hide GetCondition, Merge;
    if external.Ok? && internal.Ok? {
      MergeIsJoin(external.value, internal.value, external.value);
    }
  }

  /** The requirements are the least that meet every active timelock of both keychains. */
  lemma RequirementsAreLeast(w: WalletState, params: TxParams, bound: Condition)
    requires Requirements(w, params).Ok?
    requires forall leaf :: IsActiveLock(w, params, leaf) ==> AtMost(leaf, bound)
    ensures AtMost(Requirements(w, params).value, bound)
  {
    hide GetCondition, AtMost, Merge;
    GetConditionIsLeast(w.externalPolicy, PathOf(params.externalPath));
    var external := GetCondition(w.externalPolicy, PathOf(params.externalPath)).value;
    assert MeetsAll(w.externalPolicy, PathOf(params.externalPath), bound);
    var change := NO_CONDITION;
    if w.internalPolicy.Some? {
      GetConditionIsLeast(w.internalPolicy.value, PathOf(params.internalPath));
      change := GetCondition(w.internalPolicy.value, PathOf(params.internalPath)).value;
      assert MeetsAll(w.internalPolicy.value, PathOf(params.internalPath), bound);
    } else {
      NothingAtMost(bound);
    }
    MergeIsJoin(external, change, bound);
  }

  /** The requirements meet every active timelock of both keychains. */
  lemma RequirementsMeetLocks(w: WalletState, params: TxParams, leaf: Condition)
    requires Requirements(w, params).Ok? && IsActiveLock(w, params, leaf)
    ensures AtMost(leaf, Requirements(w, params).value)
  {
    var external := GetCondition(w.externalPolicy, PathOf(params.externalPath));
    GetConditionIsLeast(w.externalPolicy, PathOf(params.externalPath));
    var change := NO_CONDITION;
    if w.internalPolicy.Some? {
      GetConditionIsLeast(w.internalPolicy.value, PathOf(params.internalPath));
      change := GetCondition(w.internalPolicy.value, PathOf(params.internalPath)).value;
    }
    MergeIsJoin(external.value, change, change);
    if Active(w.externalPolicy, PathOf(params.externalPath), leaf) {
      AtMostTransitive(leaf, external.value, Requirements(w, params).value);
    } else {
      AtMostTransitive(leaf, change, Requirements(w, params).value);
    }
  }

  /**
   * Without a requested sequence, the chosen one satisfies the script of every active relative timelock,
   * provided the timelocks are plain lock sequences.
   */
  lemma DefaultSequenceSatisfies(w: WalletState, params: TxParams, leaf: Condition, nSequence: Sequence)
    requires Requirements(w, params).Ok? && IsActiveLock(w, params, leaf) && leaf.csv.Some?
    requires ChooseSequence(None, Requirements(w, params).value.csv) == Ok(nSequence)
    requires forall l :: IsActiveLock(w, params, l) && l.csv.Some? ==> IsLockSequence(l.csv.value)
    ensures SatisfiesCsv(nSequence, leaf.csv.value)
  {
    RequirementsMeetLocks(w, params, leaf);
    var l := RequiredCsvIsActive(w, params);
    CsvAtMostSatisfies(leaf.csv.value, nSequence);
  }

  /**
   * The script of an active absolute timelock passes exactly when the caller did not ask for the one
   * sequence that opts out of nLockTime, which is refused only where a relative lock is required; given that
   * relative timelocks enable relative locking.
   */
  lemma CltvEnforcedIff(w: WalletState, params: TxParams, leaf: Condition, height: nat, lockTime: LockTime, nSequence: Sequence)
    requires Requirements(w, params).Ok? && IsActiveLock(w, params, leaf) && leaf.timelock.Some?
    requires ChooseLockTime(params.locktime, Requirements(w, params).value.timelock, height) == Ok(lockTime)
    requires ChooseSequence(params.sequence, Requirements(w, params).value.csv) == Ok(nSequence)
    requires forall l :: IsActiveLock(w, params, l) && l.csv.Some? ==> IsRelativeLockTime(l.csv.value)
    ensures SatisfiesCltv(lockTime, nSequence, leaf.timelock.value) <==> params.sequence != Some(0xFFFF_FFFF)
  {
    hide Requirements, IsActiveLock;
    RequirementsMeetLocks(w, params, leaf);
    if Requirements(w, params).value.csv.Some? {
      var l := RequiredCsvIsActive(w, params);
      assert IsRelativeLockTime(l.csv.value);
    }
  }

  /** The required relative lock is that of some active timelock. */
  lemma RequiredCsvIsActive(w: WalletState, params: TxParams) returns (leaf: Condition)
    requires Requirements(w, params).Ok? && Requirements(w, params).value.csv.Some?
    ensures IsActiveLock(w, params, leaf) && leaf.csv == Requirements(w, params).value.csv
  {
    var external := GetCondition(w.externalPolicy, PathOf(params.externalPath)).value;
    var c := Requirements(w, params).value;
    GetConditionIsLeast(w.externalPolicy, PathOf(params.externalPath));
    var change := NO_CONDITION;
    if w.internalPolicy.Some? {
      change := GetCondition(w.internalPolicy.value, PathOf(params.internalPath)).value;
      GetConditionIsLeast(w.internalPolicy.value, PathOf(params.internalPath));
    }
    MergeIsJoin(external, change, change);
    if c.csv == external.csv {
      leaf :| Active(w.externalPolicy, PathOf(params.externalPath), leaf) && leaf.csv == c.csv;
    } else {
      leaf :| Active(w.internalPolicy.value, PathOf(params.internalPath), leaf) && leaf.csv == c.csv;
    }
  }

  // ---------------------------------------------------------------- fees and outputs

  /** The rate that coin selection uses and the absolute fee to add, or why the fee is refused. */
  function ChooseFee(policy: FeePolicy, bumping: Option<PreviousFee>): (r: Result<(nat, nat), CreateTxError>)
    // a bump must pay at least the previous absolute fee, or raise the rate by at least 250 per 1000 weight units
    ensures r.Ok? <==>
      || bumping.None?
      || (policy.FeeAmount? && policy.fee >= bumping.value.absolute)
      || (policy.FeeRate? && policy.rate >= bumping.value.rate + 250)
    ensures r.Ok? ==> r.value == if policy.FeeAmount? then (0, policy.fee) else (policy.rate, 0)
    ensures r.Err? ==>
      && bumping.Some?
      && r.error == if policy.FeeAmount? then FeeTooLow(bumping.value.absolute)
                    else FeeRateTooLow(bumping.value.rate + BROADCAST_MIN)
  {
    match policy
    case FeeAmount(fee) =>
      if bumping.Some? && fee < bumping.value.absolute then Err(FeeTooLow(bumping.value.absolute)) else Ok((0, fee))
    case FeeRate(rate) =>
      if bumping.Some? && rate < bumping.value.rate + BROADCAST_MIN then Err(FeeRateTooLow(bumping.value.rate + BROADCAST_MIN))
      else Ok((rate, 0))
  }

  function OutputValue(o: TxOut): int { o.value }

  /** Weight of an output: eight value bytes, the script and its length prefix. */
  function OutputWeight(o: TxOut): int {
    4 * DrainOutputLength(o.script)
  }

  function TotalOutput(outs: seq<TxOut>): (v: nat) {
    SumOfNonNegative(OutputValue, outs);
    SumOf(OutputValue, outs)
  }

  /** Weight without inputs: version, lock time, counts and segwit marker, then the outputs. */
  function BaseWeight(outs: seq<TxOut>): (w: nat) {
    SumOfNonNegative(OutputWeight, outs);
    4 * (4 + 1 + CompactSize(|outs|) + 4) + 2 + SumOf(OutputWeight, outs)
  }

  ghost predicate IsPayable(o: TxOut, allowDust: bool) {
    o.script.length > 0 && (allowDust || o.script.isOpReturn || !IsDust(o.value, o.script))
  }

  method CheckRecipients(recipients: seq<TxOut>, allowDust: bool) returns (r: Result<nat, CreateTxError>)
    ensures r.Ok? <==> forall o :: o in recipients ==> IsPayable(o, allowDust)
    ensures r.Ok? ==> r.value == TotalOutput(recipients)
    ensures r.Err? ==> exists i :: (
      && 0 <= i < |recipients| && !IsPayable(recipients[i], allowDust)
      && (forall j :: 0 <= j < i ==> IsPayable(recipients[j], allowDust))
      && r.error == if recipients[i].script.length == 0 then MwebPegInRequiresKernel(i) else OutputBelowDustLimit(i))
  {
    var outgoing: nat := 0;
    for i := 0 to |recipients|
      invariant forall j :: 0 <= j < i ==> IsPayable(recipients[j], allowDust)
      invariant outgoing == TotalOutput(recipients[..i])
    {
      var o := recipients[i];
      assert o in recipients;
      if o.script.length == 0 {
        return Err(MwebPegInRequiresKernel(i));
      }
      if !allowDust && IsDust(o.value, o.script) && !o.script.isOpReturn {
        return Err(OutputBelowDustLimit(i));
      }
      SumOfSnoc(OutputValue, recipients, i);
      outgoing := outgoing + o.value;
    }
    assert recipients[..|recipients|] == recipients;
    return Ok(outgoing);
  }

  // ---------------------------------------------------------------- candidates

  predicate MeetsChangePolicy(policy: ChangeSpendPolicy, u: Utxo) {
    match policy
    case ChangeAllowed => true
    case OnlyChange => u.Local? && u.keychain == Internal
    case ChangeForbidden => u.Local? && u.keychain == External
  }

  /** May the wallet offer this output to coin selection? */
  predicate IsOffered(w: WalletState, params: TxParams, height: nat, version: nat, u: Unspent) {
    var op := u.utxo.outpoint;
    && op !in w.locked
    && height >= u.maturesAt
    && (u.isConfirmed || (u.parentVersion.Some? && ((u.parentVersion.value == 3) == (version == 3))))
    && !(exists i :: 0 <= i < |params.utxos| && OutPointOf(params.utxos[i]) == op)
    && (w.internalPolicy.None? || MeetsChangePolicy(params.changePolicy, u.utxo))
    && op !in params.unspendable
    && (params.bumpingFee.None? || u.isConfirmed)
  }

  function OfferedFrom(w: WalletState, params: TxParams, height: nat, version: nat, us: seq<Unspent>): seq<WeightedUtxo> {
    if us == [] then []
    else
      (if IsOffered(w, params, height, version, us[0]) then [WeightedUtxo(us[0].satisfactionWeight, us[0].utxo)] else [])
      + OfferedFrom(w, params, height, version, us[1..])
  }

  function FilterUtxos(w: WalletState, params: TxParams, height: nat, version: nat): seq<WeightedUtxo> {
    if params.manuallySelectedOnly then [] else OfferedFrom(w, params, height, version, w.unspent)
  }

  ghost predicate DistinctCoins(us: seq<WeightedUtxo>) {
    forall i, j :: 0 <= i < j < |us| ==> OutPointOf(us[i]) != OutPointOf(us[j])
  }

  ghost predicate DistinctUnspent(us: seq<Unspent>) {
    forall i, j :: 0 <= i < j < |us| ==> us[i].utxo.outpoint != us[j].utxo.outpoint
  }

  /** The offer lists exactly the acceptable unspent outputs, each once. */
  lemma {:induction false} OfferedElements(w: WalletState, params: TxParams, height: nat, version: nat, us: seq<Unspent>)
    requires DistinctUnspent(us)
    ensures forall c :: c in OfferedFrom(w, params, height, version, us) <==>
      exists u :: u in us && IsOffered(w, params, height, version, u) && c == WeightedUtxo(u.satisfactionWeight, u.utxo)
    ensures DistinctCoins(OfferedFrom(w, params, height, version, us))
  {
    if us != [] {
      OfferedElements(w, params, height, version, us[1..]);
      var rest := OfferedFrom(w, params, height, version, us[1..]);
      forall i | 0 <= i < |rest| ensures OutPointOf(rest[i]) != us[0].utxo.outpoint {
        assert rest[i] in rest;
      }
    }
  }

  lemma OfferIsDisjoint(w: WalletState, params: TxParams, height: nat, version: nat)
    requires DistinctUnspent(w.unspent) && DistinctCoins(params.utxos)
    ensures DistinctCoins(params.utxos + FilterUtxos(w, params, height, version))
  {
    var offer := FilterUtxos(w, params, height, version);
    OfferedElements(w, params, height, version, w.unspent);
    forall i, j | 0 <= i < |params.utxos| && 0 <= j < |offer| ensures OutPointOf(params.utxos[i]) != OutPointOf(offer[j]) {
      assert offer[j] in offer;
    }
  }

  // ---------------------------------------------------------------- coin selection

  datatype Selector = Greedy(algorithm: Algorithm) | BranchAndBound(sizeOfChange: nat, fallback: Algorithm)

  /** What the caller's selector may return. */
  ghost predicate IsSelectedBy(selector: Selector, required: seq<WeightedUtxo>, optional: seq<WeightedUtxo>, rate: nat, target: nat,
                               drain: Script, r: Selection)
  {
    match selector
    case Greedy(LargestFirstAlgorithm) => IsGreedyIn(LargestFirstOrder, required, optional, rate, target, drain, r)
    case Greedy(OldestFirstAlgorithm) => IsGreedyIn(OldestFirstOrder, required, optional, rate, target, drain, r)
    case Greedy(SingleRandomDrawAlgorithm) => IsGreedyIn(AnyOrder, required, optional, rate, target, drain, r)
    case BranchAndBound(size, fallback) =>
      exists path :: IsOutcome(required, optional, rate, target, drain, size, fallback, r, path)
  }

  method Select(selector: Selector, required: seq<WeightedUtxo>, optional: seq<WeightedUtxo>, rate: nat, target: nat, drain: Script)
    returns (r: Selection)
    ensures IsSelectedBy(selector, required, optional, rate, target, drain, r)
    ensures r.Ok? ==> IsSound(required, optional, rate, target, drain, r.value)
    ensures r.Err? ==> r.error.available < r.error.needed
    // whoever offers no coin that costs more than it brings is served if the effective values suffice
    ensures (forall u :: u in optional ==> EffectiveAt(rate)(u) >= 0) && EffectiveValue(rate, required + optional) >= target ==> r.Ok?
  {
    hide IsGreedyIn, IsOutcome, IsSound, EffectiveValue, EffectiveAt;
    match selector
    case Greedy(algorithm) =>
      r := GreedySelect(algorithm, required, optional, rate, target, drain);
      FallbackOutcome(OrderOf(algorithm), required, optional, rate, target, drain, r);
    case BranchAndBound(size, fallback) =>
      ghost var path;
      r, path := BranchAndBoundSelect(required, optional, rate, target, drain, size, fallback);
  }

  // ---------------------------------------------------------------- the transaction

  function InputsOf(selected: seq<WeightedUtxo>, nSequence: Sequence): (ins: seq<TxIn>)
    ensures |ins| == |selected| && forall i :: 0 <= i < |ins| ==>
      ins[i] == TxIn(OutPointOf(selected[i]), if selected[i].utxo.Foreign? then selected[i].utxo.sequence else nSequence)
  {
    seq(|selected|, i requires 0 <= i < |selected| =>
      TxIn(OutPointOf(selected[i]), if selected[i].utxo.Foreign? then selected[i].utxo.sequence else nSequence))
  }

  function DrainScript(w: WalletState, params: TxParams): Script {
    if params.drainTo.Some? then params.drainTo.value else w.changeScript
  }

  /**
   * The recipients, none empty and none dust unless allowed, followed by at most one more output. That one is
   * never dust and pays the drain recipient, or the wallet's own change script where there is none.
   */
  ghost predicate HasOutputs(w: WalletState, params: TxParams, outputs: seq<TxOut>) {
    var n := |params.recipients|;
    && outputs != []
    && params.recipients <= outputs
    && |outputs| <= n + 1
    && (forall o :: o in params.recipients ==>
          && o.script.length > 0
          && (!params.allowDust && !o.script.isOpReturn ==> o.value >= o.script.minimalNonDust))
    && (|outputs| > n ==>
          && (params.drainTo.Some? ==> outputs[n].script == params.drainTo.value)
          && (params.drainTo.None? ==> outputs[n].script == w.changeScript)
          && outputs[n].value >= outputs[n].script.minimalNonDust)
    // a sweep has the one output
    && (n == 0 ==> |outputs| == 1 && params.drainTo.Some? && outputs[0].script == params.drainTo.value)
  }

  /** Every chosen input is spent once; beyond the chosen ones only offered outputs are spent. */
  ghost predicate HasInputs(w: WalletState, params: TxParams, height: nat, version: nat, selected: seq<WeightedUtxo>) {
    && DistinctCoins(selected)
    && (forall u :: u in params.utxos ==> u in selected)
    && (forall u :: u in selected ==> u in params.utxos || u in FilterUtxos(w, params, height, version))
    && (params.drainWallet ==> forall u :: u in FilterUtxos(w, params, height, version) ==> u in selected)
    && (forall u :: u in selected && u !in params.utxos ==> IsSafeExtra(w, params, height, version, u))
  }

  /** Nothing forbids spending this output of the wallet, and the caller has not chosen it already. */
  ghost predicate IsAllowed(w: WalletState, params: TxParams, height: nat, version: nat, u: Unspent) {
    && u.utxo.outpoint !in w.locked && u.utxo.outpoint !in params.unspendable
    && (forall m :: m in params.utxos ==> OutPointOf(m) != u.utxo.outpoint)
    && height >= u.maturesAt
    && (params.bumpingFee.Some? ==> u.isConfirmed)
    && (!u.isConfirmed ==> u.parentVersion.Some? && (u.parentVersion.value == 3 <==> version == 3))
    && (w.internalPolicy.Some? && params.changePolicy == OnlyChange ==> u.utxo.Local? && u.utxo.keychain == Internal)
    && (w.internalPolicy.Some? && params.changePolicy == ChangeForbidden ==> u.utxo.Local? && u.utxo.keychain == External)
  }

  /** An input that the caller did not choose is a wallet output that nothing forbids. */
  ghost predicate IsSafeExtra(w: WalletState, params: TxParams, height: nat, version: nat, c: WeightedUtxo) {
    && !params.manuallySelectedOnly
    && exists u :: u in w.unspent && IsAllowed(w, params, height, version, u) && c == WeightedUtxo(u.satisfactionWeight, u.utxo)
  }

  lemma OfferedIff(w: WalletState, params: TxParams, height: nat, version: nat, u: Unspent)
    ensures IsOffered(w, params, height, version, u) <==> IsAllowed(w, params, height, version, u)
  {
    if forall m :: m in params.utxos ==> OutPointOf(m) != u.utxo.outpoint {
      assert forall i :: 0 <= i < |params.utxos| ==> params.utxos[i] in params.utxos;
    }
  }

  /** Offered are exactly the wallet outputs that nothing forbids. */
  lemma OfferIsExact(w: WalletState, params: TxParams, height: nat, version: nat, c: WeightedUtxo)
    requires DistinctUnspent(w.unspent)
    ensures c in FilterUtxos(w, params, height, version) <==> IsSafeExtra(w, params, height, version, c)
  {
    OfferedElements(w, params, height, version, w.unspent);
    hide OfferedFrom, IsOffered, IsAllowed;
    forall u ensures IsOffered(w, params, height, version, u) <==> IsAllowed(w, params, height, version, u) {
      OfferedIff(w, params, height, version, u);
    }
  }

  // ---------------------------------------------------------------- the fee

  /** Weight of the signed transaction; the output part has one byte for the number of inputs. */
  function TxWeight(selected: seq<WeightedUtxo>, outputs: seq<TxOut>): nat {
    BaseWeight(outputs) + 4 * (CompactSize(|selected|) - 1) + TotalWeight(selected)
  }

  predicate HasChange(params: TxParams, outputs: seq<TxOut>) {
    |outputs| > |params.recipients|
  }

  /** Change has its weight paid for, unless it is worth nothing and its script knows no dust. */
  predicate IsPaidChange(params: TxParams, outputs: seq<TxOut>) {
    HasChange(params, outputs) && (outputs[|params.recipients|].script.minimalNonDust > 0 || outputs[|params.recipients|].value > 0)
  }

  /** The weight that the fee rate is applied to. */
  function ChargedWeight(params: TxParams, selected: seq<WeightedUtxo>, outputs: seq<TxOut>): nat {
    BaseWeight(params.recipients) + TotalWeight(selected)
    + if IsPaidChange(params, outputs) then 4 * DrainOutputLength(outputs[|params.recipients|].script) else 0
  }

  /** The rest: what the two count prefixes grow by, and a change output worth nothing. */
  function UnchargedWeight(params: TxParams, selected: seq<WeightedUtxo>, outputs: seq<TxOut>): int {
    4 * (CompactSize(|selected|) - 1)
    + 4 * (CompactSize(|outputs|) - CompactSize(|params.recipients|))
    + if HasChange(params, outputs) && !IsPaidChange(params, outputs) then 4 * DrainOutputLength(outputs[|params.recipients|].script)
      else 0
  }

  /**
   * Nothing is created, and the fee, what the inputs leave over, is at least the requested one: at a fee
   * rate, the rate applied to the charged weight.
   */
  ghost predicate PaysFee(params: TxParams, selected: seq<WeightedUtxo>, outputs: seq<TxOut>, drain: Script) {
    var fee := TotalValue(selected) - TotalOutput(outputs);
    match params.feePolicy
    case FeeAmount(absolute) =>
      && fee >= absolute
      && (HasChange(params, outputs) ==> fee == absolute)
      && (!HasChange(params, outputs) ==> fee < absolute + drain.minimalNonDust)
    case FeeRate(rate) =>
      var charged := Fee(rate, ChargedWeight(params, selected, outputs));
      && fee >= charged
      && (IsPaidChange(params, outputs) ==> fee <= charged + |selected| + 2)
      && (HasChange(params, outputs) && !IsPaidChange(params, outputs) ==>
            fee <= charged + |selected| + 1 + ChangeFee(rate, drain))
      && (!HasChange(params, outputs) ==> fee < charged + |selected| + 1 + ChangeFee(rate, drain) + drain.minimalNonDust)
  }

  /**
   * The charged and the uncharged weight are the whole weight; nothing is uncharged exactly when both counts
   * keep their prefix and change, if any, is paid; and the fee falls short of the rate on the whole weight by
   * at most the fee of what is uncharged.
   */
  lemma WholeWeightIsPaid(w: WalletState, params: TxParams, selected: seq<WeightedUtxo>, outputs: seq<TxOut>)
    requires HasOutputs(w, params, outputs) && PaysFee(params, selected, outputs, DrainScript(w, params))
    ensures TxWeight(selected, outputs) == ChargedWeight(params, selected, outputs) + UnchargedWeight(params, selected, outputs)
    ensures 0 <= UnchargedWeight(params, selected, outputs)
    ensures UnchargedWeight(params, selected, outputs) == 0 <==>
      && |selected| < 253 && CompactSize(|outputs|) == CompactSize(|params.recipients|)
      && (|outputs| > |params.recipients| ==>
            var change := outputs[|params.recipients|];
            change.script.minimalNonDust > 0 || change.value > 0)
    ensures params.feePolicy.FeeRate? ==>
      var rate := params.feePolicy.rate;
      TotalValue(selected) - TotalOutput(outputs) + Fee(rate, UnchargedWeight(params, selected, outputs))
        >= Fee(rate, TxWeight(selected, outputs))
  {
    hide TotalWeight, TotalValue, TotalOutput, SumOf, Fee, ChangeFee, IsPayable, IsDust, DrainScript;
    var n := |params.recipients|;
    if HasChange(params, outputs) {
      assert outputs == params.recipients + [outputs[n]];
      SumOfAppend(OutputWeight, params.recipients, [outputs[n]]);
      SumOfOne(OutputWeight, outputs[n]);
    } else {
      assert outputs == params.recipients;
    }
    if params.feePolicy.FeeRate? {
      FeeOfParts(params.feePolicy.rate, ChargedWeight(params, selected, outputs), UnchargedWeight(params, selected, outputs));
    }
  }

  lemma SumOfOne(f: TxOut -> int, o: TxOut)
    ensures SumOf(f, [o]) == f(o)
  {
    SumOfCons(f, o, []);
    assert [o] + [] == [o];
  }

  /**
   * The lock time meets every active absolute timelock, whose script then passes exactly when the wallet's
   * inputs do not opt out of it; the default sequence meets every relative timelock.
   */
  ghost predicate MeetsLocks(w: WalletState, params: TxParams, lockTime: LockTime, nSequence: Sequence) {
    forall leaf :: IsActiveLock(w, params, leaf) ==>
      && LockAtMost(leaf.timelock, Some(lockTime))
      && (leaf.timelock.Some? ==> (SatisfiesCltv(lockTime, nSequence, leaf.timelock.value) <==> nSequence != FINAL_SEQUENCE))
      && (leaf.csv.Some? ==> if params.sequence.None? then CsvAtMost(leaf.csv, Some(nSequence))
                             else CheckNSequenceRbf(nSequence, leaf.csv.value))
  }

  // ---------------------------------------------------------------- the terms

  /** What is settled before coins are looked at. */
  datatype Terms = Terms(version: nat, height: nat, lockTime: LockTime, nSequence: Sequence, rate: nat, absolute: nat)

  function HeightOf(w: WalletState, params: TxParams): nat {
    if params.currentHeight.Some? then params.currentHeight.value else w.tipHeight
  }

  function VersionOf(params: TxParams): nat {
    if params.version.Some? then params.version.value else 2
  }

  /** The checks in their order: version, lock time, sequence, fee, and coins where only chosen ones may be spent. */
  datatype Check = VersionCheck | LockTimeCheck | SequenceCheck | FeeCheck | CoinsCheck

  predicate Passes(params: TxParams, c: Condition, check: Check) {
    match check
    case VersionCheck => params.version != Some(0) && (c.csv.Some? ==> params.version != Some(1))
    case LockTimeCheck => params.locktime.Some? ==> LockAtMost(c.timelock, params.locktime)
    case SequenceCheck => params.sequence.Some? && c.csv.Some? ==> CheckNSequenceRbf(params.sequence.value, c.csv.value)
    case FeeCheck =>
      || params.bumpingFee.None?
      || (params.feePolicy.FeeAmount? && params.feePolicy.fee >= params.bumpingFee.value.absolute)
      || (params.feePolicy.FeeRate? && params.feePolicy.rate >= params.bumpingFee.value.rate + 250)
    case CoinsCheck => params.manuallySelectedOnly ==> params.utxos != []
  }

  /** There are requirements, and the first `n` checks pass. */
  ghost predicate PassesFirst(w: WalletState, params: TxParams, n: nat) {
    && Requirements(w, params).Ok?
    && var c := Requirements(w, params).value;
    && (n > 0 ==> Passes(params, c, VersionCheck))
    && (n > 1 ==> Passes(params, c, LockTimeCheck))
    && (n > 2 ==> Passes(params, c, SequenceCheck))
    && (n > 3 ==> Passes(params, c, FeeCheck))
    && (n > 4 ==> Passes(params, c, CoinsCheck))
  }

  /** The parameters agree with each other and with what the policies require. */
  ghost predicate IsAcceptable(w: WalletState, params: TxParams) {
    PassesFirst(w, params, 5)
  }

  /**
   * Version, lock time and sequence are as requested, or the defaults: version 2, the required lock or the
   * current height, whichever is later, the required sequence or one that signals replacement. The locks are
   * met, and a relative lock forces version 2 or above.
   */
  ghost predicate AreTerms(w: WalletState, params: TxParams, t: Terms) {
    && IsAcceptable(w, params)
    && var c := Requirements(w, params).value;
    && (params.currentHeight.Some? ==> t.height == params.currentHeight.value)
    && (params.currentHeight.None? ==> t.height == w.tipHeight)
    && (params.version.Some? ==> t.version == params.version.value)
    && (params.version.None? ==> t.version == 2)
    && t.version != 0 && (c.csv.Some? ==> t.version >= 2)
    && (params.locktime.Some? ==> t.lockTime == params.locktime.value)
    && (params.locktime.None? ==>
          if c.timelock.Some? && (c.timelock.value.Seconds? || c.timelock.value.value >= t.height) then t.lockTime == c.timelock.value
          else t.lockTime == Blocks(t.height))
    && (params.sequence.Some? ==> t.nSequence == params.sequence.value)
    && (params.sequence.None? ==> t.nSequence == if c.csv.Some? then c.csv.value else 0xFFFF_FFFD)
    && MeetsLocks(w, params, t.lockTime, t.nSequence)
    && (params.feePolicy.FeeAmount? ==> t.rate == 0 && t.absolute == params.feePolicy.fee)
    && (params.feePolicy.FeeRate? ==> t.rate == params.feePolicy.rate && t.absolute == 0)
  }

  /** Each error applies, and everything checked before it has passed. */
  ghost predicate IsJustified(w: WalletState, params: TxParams, e: CreateTxError) {
    match e
    case SpendingPolicyRequired(_) => Requirements(w, params) == Err(e)
    case PolicyFailure(_) => Requirements(w, params) == Err(e)
    case Version0 => PassesFirst(w, params, 0) && params.version == Some(0)
    case Version1Csv =>
      PassesFirst(w, params, 0) && params.version == Some(1) && Requirements(w, params).value.csv.Some?
    case BadLockTime(l) =>
      && PassesFirst(w, params, 1)
      && params.locktime == Some(l.requested) && Requirements(w, params).value.timelock == Some(l.required)
      && !LockAtMost(Some(l.required), params.locktime)
    case RbfSequenceCsv(q) =>
      && PassesFirst(w, params, 2)
      && params.sequence == Some(q.sequence) && Requirements(w, params).value.csv == Some(q.csv)
      && !CheckNSequenceRbf(q.sequence, q.csv)
    case FeeTooLow(fee) =>
      && PassesFirst(w, params, 3) && params.bumpingFee.Some?
      && params.feePolicy.FeeAmount? && params.feePolicy.fee < fee == params.bumpingFee.value.absolute
    case FeeRateTooLow(rate) =>
      && PassesFirst(w, params, 3) && params.bumpingFee.Some?
      && params.feePolicy.FeeRate? && params.feePolicy.rate < rate == params.bumpingFee.value.rate + 250
    case NoUtxosSelected => PassesFirst(w, params, 4) && params.manuallySelectedOnly && params.utxos == []
    case MwebPegInRequiresKernel(i) =>
      && IsAcceptable(w, params)
      && i < |params.recipients| && params.recipients[i].script.length == 0
      && IsPayableList(params.recipients[..i], params.allowDust)
    case OutputBelowDustLimit(i) =>
      && IsAcceptable(w, params)
      && i < |params.recipients| && params.recipients[i].script.length > 0
      && !params.allowDust && !params.recipients[i].script.isOpReturn
      && params.recipients[i].value < params.recipients[i].script.minimalNonDust
      && IsPayableList(params.recipients[..i], params.allowDust)
    case CoinSelectionFailure(funds) => IsAcceptable(w, params) && funds.available < funds.needed
    case NoRecipients =>
      && IsAcceptable(w, params)
      && params.recipients == [] && (params.drainTo.None? || (!params.drainWallet && params.utxos == []))
  }

  method ChooseTerms(w: WalletState, params: TxParams) returns (r: Result<Terms, CreateTxError>)
    ensures r.Ok? <==> IsAcceptable(w, params)
    ensures r.Ok? ==> AreTerms(w, params, r.value)
    ensures r.Err? ==> IsJustified(w, params, r.error) && !r.error.CoinSelectionFailure?
    ensures Requirements(w, params).Err? ==> r == Err(Requirements(w, params).error)
  {
    hide Requirements, MeetsLocks, IsPayable, CheckNSequenceRbf, IsPayableList;
    var requirements := Requirements(w, params);
    if requirements.Err? {
      return Err(requirements.error);
    }
    if params.version == Some(0) {
      return Err(Version0);
    }
    if params.version == Some(1) && requirements.value.csv.Some? {
      return Err(Version1Csv);
    }
    var lockTime := ChooseLockTime(params.locktime, requirements.value.timelock, HeightOf(w, params));
    if lockTime.Err? {
      return Err(BadLockTime(lockTime.error));
    }
    var sequence := ChooseSequence(params.sequence, requirements.value.csv);
    if sequence.Err? {
      return Err(RbfSequenceCsv(sequence.error));
    }
    LocksAreMet(w, params, lockTime.value, sequence.value);
    var fee := ChooseFee(params.feePolicy, params.bumpingFee);
    if fee.Err? {
      return Err(fee.error);
    }
    if params.manuallySelectedOnly && params.utxos == [] {
      return Err(NoUtxosSelected);
    }
    return Ok(Terms(VersionOf(params), HeightOf(w, params), lockTime.value, sequence.value, fee.value.0, fee.value.1));
  }

  // ---------------------------------------------------------------- the call

  /** No offered coin costs more than it brings, and all coins are worth what they must pay for. */
  ghost predicate HasFunds(w: WalletState, params: TxParams) {
    var (rate, absolute) := if params.feePolicy.FeeAmount? then (0, params.feePolicy.fee) else (params.feePolicy.rate, 0);
    var offer := FilterUtxos(w, params, HeightOf(w, params), VersionOf(params));
    && (forall u :: u in offer ==> EffectiveAt(rate)(u) >= 0)
    && EffectiveValue(rate, params.utxos + offer)
         >= TotalOutput(params.recipients) + absolute + Fee(rate, BaseWeight(params.recipients))
  }

  ghost predicate IsPayableList(recipients: seq<TxOut>, allowDust: bool) {
    forall o :: o in recipients ==> IsPayable(o, allowDust)
  }

  /** A result of the caller's selector on the chosen and the offered coins, for what the recipients and the fee need. */
  ghost predicate IsSelectionFor(selector: Selector, w: WalletState, params: TxParams, t: Terms, r: Selection) {
    var offer := FilterUtxos(w, params, t.height, t.version);
    var target := TotalOutput(params.recipients) + t.absolute + Fee(t.rate, BaseWeight(params.recipients));
    if params.drainWallet then IsSelectedBy(selector, params.utxos + offer, [], t.rate, target, DrainScript(w, params), r)
    else IsSelectedBy(selector, params.utxos, offer, t.rate, target, DrainScript(w, params), r)
  }

  /**
   * The transaction follows the terms, spends what the selector returned and may be spent, pays whom it
   * should, with the change the selector left, and pays its fee.
   */
  ghost predicate IsCreated(selector: Selector, w: WalletState, params: TxParams, tx: Transaction, terms: Terms,
                            selection: CoinSelectionResult)
  {
    && AreTerms(w, params, terms)
    && IsSelectionFor(selector, w, params, terms, Ok(selection))
    && tx.version == terms.version && tx.lockTime == terms.lockTime
    && tx.inputs == InputsOf(selection.selected, terms.nSequence)
    && HasInputs(w, params, terms.height, terms.version, selection.selected)
    && HasOutputs(w, params, tx.outputs)
    && |tx.outputs| == |params.recipients| + (if selection.excess.Change? then 1 else 0)
    && (selection.excess.Change? ==> tx.outputs[|params.recipients|].value == selection.excess.amount)
    && PaysFee(params, selection.selected, tx.outputs, DrainScript(w, params))
    && (params.recipients == [] ==> params.drainTo.Some? && (params.drainWallet || params.utxos != []))
  }

  /** The selector refused, or a sweep leaves nothing worth an output. */
  ghost predicate IsFundsFailure(selector: Selector, w: WalletState, params: TxParams, t: Terms, funds: InsufficientFunds) {
    || IsSelectionFor(selector, w, params, t, Err(funds))
    || (&& params.recipients == []
        && exists selection ::
          && IsSelectionFor(selector, w, params, t, Ok(selection))
          && selection.excess.NoChange?
          && funds.needed == selection.excess.dustThreshold
          && funds.available == if selection.excess.remainingAmount >= selection.excess.changeFee
                                then selection.excess.remainingAmount - selection.excess.changeFee else 0)
  }

  method CreateTx(selector: Selector, w: WalletState, params: TxParams)
    returns (r: Result<Transaction, CreateTxError>, ghost terms: Terms, ghost selection: CoinSelectionResult)
    requires DistinctUnspent(w.unspent) && DistinctCoins(params.utxos)
    ensures r.Ok? ==> IsCreated(selector, w, params, r.value, terms, selection)
    ensures r.Err? ==> IsJustified(w, params, r.error)
    ensures r.Err? && r.error.CoinSelectionFailure? ==> AreTerms(w, params, terms) && IsFundsFailure(selector, w, params, terms, r.error.funds)
    ensures Requirements(w, params).Err? ==> r == Err(Requirements(w, params).error)
    // when the call cannot fail
    ensures (&& IsAcceptable(w, params) && HasFunds(w, params)
             && params.recipients != [] && IsPayableList(params.recipients, params.allowDust)) ==>
      r.Ok?
  {
    hide *;
    terms, selection := Terms(0, 0, Blocks(0), 0, 0, 0), CoinSelectionResult([], 0, Change(0, 0));
    var chosen := ChooseTerms(w, params);
    if chosen.Err? {
      return Err(chosen.error), terms, selection;
    }
    terms := chosen.value;
    var t := chosen.value;
    TermsAreAcceptable(w, params, t);
    var outgoing := CheckRecipients(params.recipients, params.allowDust);
    if outgoing.Err? {
      RecipientErrorApplies(w, params, outgoing.error);
      return Err(outgoing.error), terms, selection;
    }
    TermsFee(w, params, t);
    var baseFee := t.absolute + Fee(t.rate, BaseWeight(params.recipients));
    var offer := FilterUtxos(w, params, t.height, t.version);
    var required, optional := params.utxos, offer;
    if params.drainWallet {
      required, optional := params.utxos + offer, [];
    }
    var drain := DrainScript(w, params);
    var found := Select(selector, required, optional, t.rate, outgoing.value + baseFee, drain);
    SelectedIsFor(selector, w, params, t, required, optional, found);
    if found.Err? {
      FundsWouldDo(w, params, t, required, optional);
      FundsErrorApplies(w, params, found.error);
      SelectorFails(selector, w, params, t, found.error);
      return Err(CoinSelectionFailure(found.error)), terms, selection;
    }
    SelectionParts(required, optional, t.rate, outgoing.value + baseFee, drain, found.value);
    selection := found.value;
    var outputs := params.recipients;
    var excess := found.value.excess;
    if outputs == [] {
      if params.drainTo.Some? && (params.drainWallet || params.utxos != []) {
        if excess.NoChange? {
          var left := if excess.remainingAmount >= excess.changeFee then excess.remainingAmount - excess.changeFee else 0;
          FundsErrorApplies(w, params, InsufficientFunds(excess.dustThreshold, left));
          SweepFails(selector, w, params, t, found.value, InsufficientFunds(excess.dustThreshold, left));
          return Err(CoinSelectionFailure(InsufficientFunds(excess.dustThreshold, left))), terms, selection;
        }
      } else {
        NoRecipientsApplies(w, params);
        return Err(NoRecipients), terms, selection;
      }
    }
    if excess.Change? {
      outputs := outputs + [TxOut(drain, excess.amount)];
    }
    SelectedInputs(w, params, t.height, t.version, required, optional, found.value.selected);
    OutputsAreRight(w, params, outputs, excess);
    ChangeIsPaid(params, t.rate, t.absolute, required, optional, drain, found.value, outputs);
    r := Ok(Transaction(t.version, t.lockTime, InputsOf(found.value.selected, t.nSequence), outputs));
    CreatedIs(selector, w, params, r.value, t, selection);
  }

  lemma RecipientErrorApplies(w: WalletState, params: TxParams, e: CreateTxError)
    requires IsAcceptable(w, params)
    requires exists i :: (
      && 0 <= i < |params.recipients| && !IsPayable(params.recipients[i], params.allowDust)
      && (forall j :: 0 <= j < i ==> IsPayable(params.recipients[j], params.allowDust))
      && e == if params.recipients[i].script.length == 0 then MwebPegInRequiresKernel(i) else OutputBelowDustLimit(i))
    ensures IsJustified(w, params, e) && !IsPayableList(params.recipients, params.allowDust) && !e.CoinSelectionFailure?
  {
    hide IsAcceptable;
    var i :| (
      && 0 <= i < |params.recipients| && !IsPayable(params.recipients[i], params.allowDust)
      && (forall j :: 0 <= j < i ==> IsPayable(params.recipients[j], params.allowDust))
      && e == if params.recipients[i].script.length == 0 then MwebPegInRequiresKernel(i) else OutputBelowDustLimit(i));
    assert params.recipients[i] in params.recipients;
  }

  lemma FundsErrorApplies(w: WalletState, params: TxParams, funds: InsufficientFunds)
    requires IsAcceptable(w, params) && funds.available < funds.needed
    ensures IsJustified(w, params, CoinSelectionFailure(funds))
  {
    hide IsAcceptable;
  }

  lemma NoRecipientsApplies(w: WalletState, params: TxParams)
    requires IsAcceptable(w, params)
    requires params.recipients == [] && (params.drainTo.None? || (!params.drainWallet && params.utxos == []))
    ensures IsJustified(w, params, NoRecipients)
  {
    hide IsAcceptable;
  }

  lemma TermsAreAcceptable(w: WalletState, params: TxParams, t: Terms)
    requires AreTerms(w, params, t)
    ensures IsAcceptable(w, params)
  {
    hide IsAcceptable;
  }

  lemma TermsFee(w: WalletState, params: TxParams, t: Terms)
    requires AreTerms(w, params, t)
    ensures (t.rate, t.absolute) == if params.feePolicy.FeeAmount? then (0, params.feePolicy.fee) else (params.feePolicy.rate, 0)
  {
    hide Requirements, MeetsLocks;
  }

  /** With enough funds, every way to split the coins into required and optional ones reaches the target. */
  lemma FundsWouldDo(w: WalletState, params: TxParams, t: Terms, required: seq<WeightedUtxo>, optional: seq<WeightedUtxo>)
    requires AreTerms(w, params, t)
    requires var offer := FilterUtxos(w, params, t.height, t.version);
      (required, optional) == if params.drainWallet then (params.utxos + offer, []) else (params.utxos, offer)
    ensures HasFunds(w, params) ==>
      && (forall u :: u in optional ==> EffectiveAt(t.rate)(u) >= 0)
      && EffectiveValue(t.rate, required + optional)
           >= TotalOutput(params.recipients) + (t.absolute + Fee(t.rate, BaseWeight(params.recipients)))
  {
    hide Requirements, MeetsLocks, FilterUtxos, EffectiveAt, EffectiveValue, TotalOutput, Fee, BaseWeight;
    assert params.utxos + FilterUtxos(w, params, t.height, t.version) == required + optional;
  }

  lemma CreatedIs(selector: Selector, w: WalletState, params: TxParams, tx: Transaction, t: Terms, selection: CoinSelectionResult)
    requires AreTerms(w, params, t) && tx.version == t.version && tx.lockTime == t.lockTime
    requires IsSelectionFor(selector, w, params, t, Ok(selection))
    requires tx.inputs == InputsOf(selection.selected, t.nSequence)
    requires HasInputs(w, params, t.height, t.version, selection.selected) && HasOutputs(w, params, tx.outputs)
    requires tx.outputs ==
      params.recipients + if selection.excess.Change? then [TxOut(DrainScript(w, params), selection.excess.amount)] else []
    requires PaysFee(params, selection.selected, tx.outputs, DrainScript(w, params))
    requires params.recipients == [] ==> params.drainTo.Some? && (params.drainWallet || params.utxos != [])
    ensures IsCreated(selector, w, params, tx, t, selection)
  {
    hide AreTerms, HasInputs, HasOutputs, PaysFee, IsSelectionFor;
  }

  lemma SelectedIsFor(selector: Selector, w: WalletState, params: TxParams, t: Terms, required: seq<WeightedUtxo>,
                      optional: seq<WeightedUtxo>, r: Selection)
    requires var offer := FilterUtxos(w, params, t.height, t.version);
      (required, optional) == if params.drainWallet then (params.utxos + offer, []) else (params.utxos, offer)
    requires IsSelectedBy(selector, required, optional, t.rate,
                          TotalOutput(params.recipients) + (t.absolute + Fee(t.rate, BaseWeight(params.recipients))),
                          DrainScript(w, params), r)
    ensures IsSelectionFor(selector, w, params, t, r)
  {
    hide IsSelectedBy, FilterUtxos, TotalOutput, Fee, BaseWeight, DrainScript;
  }

  lemma SelectorFails(selector: Selector, w: WalletState, params: TxParams, t: Terms, funds: InsufficientFunds)
    requires IsSelectionFor(selector, w, params, t, Err(funds))
    ensures IsFundsFailure(selector, w, params, t, funds)
  {
    hide IsSelectionFor;
  }

  lemma SweepFails(selector: Selector, w: WalletState, params: TxParams, t: Terms, selection: CoinSelectionResult,
                   funds: InsufficientFunds)
    requires IsSelectionFor(selector, w, params, t, Ok(selection)) && params.recipients == [] && selection.excess.NoChange?
    requires funds.needed == selection.excess.dustThreshold
    requires funds.available == if selection.excess.remainingAmount >= selection.excess.changeFee
                                then selection.excess.remainingAmount - selection.excess.changeFee else 0
    ensures IsFundsFailure(selector, w, params, t, funds)
  {
    hide IsSelectionFor;
  }

  lemma SelectionParts(required: seq<WeightedUtxo>, optional: seq<WeightedUtxo>, rate: nat, target: nat, drain: Script,
                       r: CoinSelectionResult)
    requires IsSound(required, optional, rate, target, drain, r)
    ensures |required| <= |r.selected| && r.selected[..|required|] == required
    ensures multiset(r.selected[|required|..]) <= multiset(optional)
    ensures r.excess.Change? ==> !IsDust(r.excess.amount, drain)
    ensures r.excess.NoChange? ==>
      r.excess.remainingAmount < r.excess.changeFee + r.excess.dustThreshold && r.excess.dustThreshold > 0
  {
  }

  lemma OutputsAreRight(w: WalletState, params: TxParams, outputs: seq<TxOut>, excess: Excess)
    requires forall o :: o in params.recipients ==> IsPayable(o, params.allowDust)
    requires outputs != []
    requires outputs == params.recipients + if excess.Change? then [TxOut(DrainScript(w, params), excess.amount)] else []
    requires excess.Change? ==> !IsDust(excess.amount, DrainScript(w, params))
    requires params.recipients == [] ==> params.drainTo.Some?
    ensures HasOutputs(w, params, outputs)
  {
  }

  lemma LocksAreMet(w: WalletState, params: TxParams, lockTime: LockTime, nSequence: Sequence)
    requires Requirements(w, params).Ok?
    requires LockAtMost(Requirements(w, params).value.timelock, Some(lockTime))
    requires ChooseSequence(params.sequence, Requirements(w, params).value.csv) == Ok(nSequence)
    ensures MeetsLocks(w, params, lockTime, nSequence)
  {
    hide Requirements;
    var c := Requirements(w, params).value;
    forall leaf | IsActiveLock(w, params, leaf)
      ensures LockAtMost(leaf.timelock, Some(lockTime))
      ensures leaf.timelock.Some? ==> (SatisfiesCltv(lockTime, nSequence, leaf.timelock.value) <==> nSequence != FINAL_SEQUENCE)
      ensures leaf.csv.Some? ==> if params.sequence.None? then CsvAtMost(leaf.csv, Some(nSequence))
                                 else CheckNSequenceRbf(nSequence, leaf.csv.value)
    {
      RequirementsMeetLocks(w, params, leaf);
    }
  }

  lemma SelectedInputs(w: WalletState, params: TxParams, height: nat, version: nat, required: seq<WeightedUtxo>,
                       optional: seq<WeightedUtxo>, selected: seq<WeightedUtxo>)
    requires DistinctUnspent(w.unspent) && DistinctCoins(params.utxos)
    requires var offer := FilterUtxos(w, params, height, version);
      (required, optional) == if params.drainWallet then (params.utxos + offer, []) else (params.utxos, offer)
    requires |required| <= |selected| && selected[..|required|] == required
    requires multiset(selected[|required|..]) <= multiset(optional)
    ensures HasInputs(w, params, height, version, selected)
  {
    hide FilterUtxos, IsSafeExtra;
    var n := |required|;
    var picked := selected[n..];
    OfferIsDisjoint(w, params, height, version);
    assert selected == required + picked;
    ContainedElements(picked, optional);
    assert required + optional == params.utxos + FilterUtxos(w, params, height, version);
    PickedDistinct(required, optional, picked);
    forall u | u in selected && u !in params.utxos ensures IsSafeExtra(w, params, height, version, u) {
      OfferIsExact(w, params, height, version, u);
    }
  }

  lemma PickedDistinct(required: seq<WeightedUtxo>, optional: seq<WeightedUtxo>, picked: seq<WeightedUtxo>)
    requires DistinctCoins(required + optional) && multiset(picked) <= multiset(optional)
    ensures DistinctCoins(required + picked)
  {
    var all := required + optional;
    assert forall i :: 0 <= i < |required| ==> all[i] == required[i];
    assert forall j :: 0 <= j < |optional| ==> all[|required| + j] == optional[j];
    ContainedElements(picked, optional);
    forall i, j | 0 <= i < |required| && 0 <= j < |picked| ensures OutPointOf(required[i]) != OutPointOf(picked[j]) {
      assert picked[j] in optional;
      var k :| 0 <= k < |optional| && optional[k] == picked[j];
    }
    forall i, j | 0 <= i < j < |picked| ensures OutPointOf(picked[i]) != OutPointOf(picked[j]) {
      SameCoinTwice(optional, picked, i, j);
    }
  }

  lemma SameCoinTwice(optional: seq<WeightedUtxo>, picked: seq<WeightedUtxo>, i: nat, j: nat)
    requires DistinctCoins(optional) && multiset(picked) <= multiset(optional) && i < j < |picked|
    ensures OutPointOf(picked[i]) != OutPointOf(picked[j])
  {
    ContainedElements(picked, optional);
    assert picked[i] in optional && picked[j] in optional;
    DistinctCount(optional);
    TwiceCounts(picked, i, j);
  }

  lemma {:induction false} FreeInputs(us: seq<WeightedUtxo>)
    ensures InputFees(0, us) == 0
  {
    if us != [] {
      FreeInputs(us[1..]);
      assert InputFee(0, us[0]) == 0;
    }
  }

  lemma ChangeIsPaid(params: TxParams, rate: nat, absolute: nat, required: seq<WeightedUtxo>, optional: seq<WeightedUtxo>,
                     drain: Script, r: CoinSelectionResult, outputs: seq<TxOut>)
    requires (rate, absolute) == if params.feePolicy.FeeAmount? then (0, params.feePolicy.fee) else (params.feePolicy.rate, 0)
    requires IsSound(required, optional, rate,
                     TotalOutput(params.recipients) + absolute + Fee(rate, BaseWeight(params.recipients)), drain, r)
    requires outputs == params.recipients + if r.excess.Change? then [TxOut(drain, r.excess.amount)] else []
    ensures PaysFee(params, r.selected, outputs, drain)
    ensures TotalValue(r.selected) >= TotalOutput(outputs)
  {
    hide TotalValue, TotalWeight, BaseWeight;
    var base, inputs := BaseWeight(params.recipients), TotalWeight(r.selected);
    var change := 4 * DrainOutputLength(drain);
    SumOfAppend(OutputValue, params.recipients, if r.excess.Change? then [TxOut(drain, r.excess.amount)] else []);
    FeeOfParts(rate, base, inputs);
    FeeOfParts(rate, base + inputs, change);
    RoundingBound(rate, r.selected);
    FreeInputs(r.selected);
    assert Fee(0, base) == 0 && Fee(0, change) == 0;
  }

  // ---------------------------------------------------------------- too little for the count prefix

  function EqualCoins(n: nat): (us: seq<WeightedUtxo>)
    ensures |us| == n
    ensures forall i :: 0 <= i < n ==> us[i] == WeightedUtxo(107, Local(OutPoint(i, 0), 10_000, External, 0))
  {
    seq(n, i requires 0 <= i < n => WeightedUtxo(107, Local(OutPoint(i, 0), 10_000, External, 0)))
  }

  lemma {:induction false} CoinSums(n: nat)
    ensures TotalValue(EqualCoins(n)) == 10_000 * n && TotalWeight(EqualCoins(n)) == 272 * n
  {
    if n > 0 {
      CoinSums(n - 1);
      assert EqualCoins(n)[..n - 1] == EqualCoins(n - 1) && EqualCoins(n)[..n] == EqualCoins(n);
      SumOfSnoc(ValueOf, EqualCoins(n), n - 1);
      SumOfSnoc(WeightOf, EqualCoins(n), n - 1);
    }
  }

  /** Spending exactly `us`, without change, leaves this much too little for the whole weight. */
  ghost predicate FallsShortBy(us: seq<WeightedUtxo>, recipients: seq<TxOut>, rate: nat, drain: Script, shortfall: nat) {
    var settled := Settle(us, rate, TotalOutput(recipients) + Fee(rate, BaseWeight(recipients)), drain);
    && settled.Ok? && settled.value.selected == us && settled.value.excess.NoChange?
    && TotalValue(us) - TotalOutput(recipients) + shortfall == Fee(rate, TxWeight(us, recipients))
  }

  lemma ShortWithoutPrefix(us: seq<WeightedUtxo>, recipients: seq<TxOut>, drain: Script)
    requires 253 <= |us| <= 0xffff && drain.minimalNonDust > 0
    requires TotalValue(us) == TotalOutput(recipients) + BaseWeight(recipients) + TotalWeight(us)
    ensures FallsShortBy(us, recipients, 1000, drain, 8)
  {
    hide TotalValue, TotalWeight, TotalOutput, BaseWeight;
  }

  /** 253 coins that pay the charged weight exactly, one satoshi per weight unit, fall short of the whole weight. */
  lemma PrefixShortfallExample()
    ensures FallsShortBy(EqualCoins(253), [TxOut(Script(22, 294, false), 2_461_018)], 1000, Script(22, 294, false), 8)
  {
    hide TotalValue, TotalWeight, EqualCoins, SumOf, FallsShortBy;
    var o := TxOut(Script(22, 294, false), 2_461_018);
    CoinSums(253);
    SumOfOne(OutputValue, o);
    SumOfOne(OutputWeight, o);
    ShortWithoutPrefix(EqualCoins(253), [o], Script(22, 294, false));
  }
}
