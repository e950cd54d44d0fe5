/** Coins, scripts and fee arithmetic: amounts are whole satoshis, weights whole weight units. */
module Coins {
  import opened Sequences

  type Txid = nat

  datatype OutPoint = OutPoint(txid: Txid, vout: nat)

  /** A script reduced to what coin selection asks of it. */
  datatype Script = Script(length: nat, minimalNonDust: nat, isOpReturn: bool)

  datatype Keychain = External | Internal

  /** `age` is the rank of the chain position: smaller is older. */
  datatype Utxo =
    | Local(outpoint: OutPoint, value: nat, keychain: Keychain, age: nat)
    | Foreign(outpoint: OutPoint, value: nat, sequence: nat)

  datatype WeightedUtxo = WeightedUtxo(satisfactionWeight: nat, utxo: Utxo)

  /** Weight of an empty segwit input: 41 non-witness bytes and one witness byte. */
  const TXIN_WEIGHT: nat := 165

  function ValueOf(u: WeightedUtxo): int { u.utxo.value }

  function WeightOf(u: WeightedUtxo): int { TXIN_WEIGHT + u.satisfactionWeight }

  function OutPointOf(u: WeightedUtxo): OutPoint { u.utxo.outpoint }

  function TotalValue(us: seq<WeightedUtxo>): (v: nat) {
    SumOfNonNegative(ValueOf, us);
    SumOf(ValueOf, us)
  }

  function TotalWeight(us: seq<WeightedUtxo>): (w: nat) {
    SumOfNonNegative(WeightOf, us);
    SumOf(WeightOf, us)
  }

  // ---------------------------------------------------------------- fees

  /** The least fee rate that nodes relay, per 1000 weight units; also the step by which a replacement raises it. */
  const BROADCAST_MIN: nat := 250

  /** Fee in satoshis at `rate` satoshis per 1000 weight units, rounded up. */
  function Fee(rate: nat, weight: nat): nat {
    (rate * weight + 999) / 1000
  }

  /** An amount covers the fee exactly when, in milli-satoshis, it covers the unrounded fee. */
  lemma FeeCoveredIff(rate: nat, weight: nat, x: int)
    ensures Fee(rate, weight) <= x <==> rate * weight <= 1000 * x
  {
    var p := rate * weight;
    assert 1000 * ((p + 999) / 1000) + (p + 999) % 1000 == p + 999;
  }

  lemma FeeBounds(rate: nat, weight: nat)
    ensures rate * weight <= 1000 * Fee(rate, weight) <= rate * weight + 999
  {
    var p := rate * weight;
    assert 1000 * ((p + 999) / 1000) + (p + 999) % 1000 == p + 999;
  }

  /** Paying for two parts separately covers paying for the whole, and costs at most one satoshi more. */
  lemma FeeOfParts(rate: nat, w1: nat, w2: nat)
    ensures Fee(rate, w1 + w2) <= Fee(rate, w1) + Fee(rate, w2) <= Fee(rate, w1 + w2) + 1
  {
    FeeBounds(rate, w1);
    FeeBounds(rate, w2);
    FeeBounds(rate, w1 + w2);
    assert rate * (w1 + w2) == rate * w1 + rate * w2;
  }

  function InputFee(rate: nat, u: WeightedUtxo): nat {
    Fee(rate, WeightOf(u))
  }

  function FeeAt(rate: nat): WeightedUtxo -> int {
    u => InputFee(rate, u)
  }

  /** Sum of the separately rounded input fees. */
  function InputFees(rate: nat, us: seq<WeightedUtxo>): (f: nat) {
    SumOfNonNegative(FeeAt(rate), us);
    SumOf(FeeAt(rate), us)
  }

  /** Value left after paying for the input's own weight; may be negative. */
  function EffectiveAt(rate: nat): WeightedUtxo -> int {
    u => ValueOf(u) - InputFee(rate, u)
  }

  function EffectiveValue(rate: nat, us: seq<WeightedUtxo>): int {
    SumOf(EffectiveAt(rate), us)
  }

  lemma EffectiveOfAppend(rate: nat, us: seq<WeightedUtxo>, vs: seq<WeightedUtxo>)
    ensures EffectiveValue(rate, us + vs) == EffectiveValue(rate, us) + EffectiveValue(rate, vs)
  {
    SumOfAppend(EffectiveAt(rate), us, vs);
  }

  lemma {:induction false} EffectiveIsValueLessFees(rate: nat, us: seq<WeightedUtxo>)
    ensures EffectiveValue(rate, us) == TotalValue(us) - InputFees(rate, us)
  {
    if us != [] {
      EffectiveIsValueLessFees(rate, us[1..]);
    }
  }

  lemma {:induction false} InputFeesBracket(rate: nat, us: seq<WeightedUtxo>)
    ensures rate * TotalWeight(us) <= 1000 * InputFees(rate, us) <= rate * TotalWeight(us) + 999 * |us|
  {
    if us != [] {
      InputFeesBracket(rate, us[1..]);
      FeeBounds(rate, WeightOf(us[0]));
      assert TotalWeight(us) == WeightOf(us[0]) + TotalWeight(us[1..]);
      assert rate * TotalWeight(us) == rate * WeightOf(us[0]) + rate * TotalWeight(us[1..]);
      assert InputFees(rate, us) == InputFee(rate, us[0]) + InputFees(rate, us[1..]);
    }
  }

  /**
   * Rounding each input up on its own never undershoots the fee of the accumulated weight,
   * and for n inputs overshoots it by at most n - 1 satoshis.
   */
  lemma RoundingBound(rate: nat, us: seq<WeightedUtxo>)
    ensures Fee(rate, TotalWeight(us)) <= InputFees(rate, us)
    ensures InputFees(rate, us) <= Fee(rate, TotalWeight(us)) + if us == [] then 0 else |us| - 1
  {
    InputFeesBracket(rate, us);
    FeeBounds(rate, TotalWeight(us));
  }

  // ---------------------------------------------------------------- sufficiency

  /** The coins pay `target` and the fee of their accumulated weight. */
  predicate Sufficient(rate: nat, target: nat, us: seq<WeightedUtxo>) {
    TotalValue(us) >= target + Fee(rate, TotalWeight(us))
  }

  /** Exact effective value of a coin in milli-satoshis. */
  function MilliAt(rate: nat): WeightedUtxo -> int {
    u => 1000 * ValueOf(u) - rate * WeightOf(u)
  }

  function Milli(rate: nat, us: seq<WeightedUtxo>): int {
    SumOf(MilliAt(rate), us)
  }

  lemma {:induction false} MilliIsLinear(rate: nat, us: seq<WeightedUtxo>)
    ensures Milli(rate, us) == 1000 * TotalValue(us) - rate * TotalWeight(us)
  {
    if us != [] {
      MilliIsLinear(rate, us[1..]);
      assert TotalWeight(us) == WeightOf(us[0]) + TotalWeight(us[1..]);
      assert rate * TotalWeight(us) == rate * WeightOf(us[0]) + rate * TotalWeight(us[1..]);
    }
  }

  /** Sufficiency is linear: rounding once on the total weight hides no satoshi. */
  lemma SufficientIff(rate: nat, target: nat, us: seq<WeightedUtxo>)
    ensures Sufficient(rate, target, us) <==> Milli(rate, us) >= 1000 * target
  {
    MilliIsLinear(rate, us);
    FeeCoveredIff(rate, TotalWeight(us), TotalValue(us) - target);
  }

  /** Enough effective value, rounded per input, is enough money for the accumulated weight. */
  lemma EffectiveSuffices(rate: nat, target: nat, us: seq<WeightedUtxo>)
    requires EffectiveValue(rate, us) >= target
    ensures Sufficient(rate, target, us)
  {
    EffectiveIsValueLessFees(rate, us);
    RoundingBound(rate, us);
  }

  // ---------------------------------------------------------------- change

  datatype Excess =
    | NoChange(dustThreshold: nat, remainingAmount: nat, changeFee: nat)
    | Change(amount: nat, fee: nat)

  /** Size of the compact-size prefix: one byte, or a marker and the shortest of 2, 4 and 8 bytes that holds the length. */
  function CompactSize(length: nat): (size: nat)
    ensures size == 1 <==> length <= 252
    ensures size == 3 <==> 252 < length < 256 * 256
    ensures size == 5 <==> 256 * 256 <= length < 256 * 256 * 256 * 256
    ensures size in {1, 3, 5, 9}
  {
    if length < 0xfd then 1 else if length <= 0xffff then 3 else if length <= 0xffff_ffff then 5 else 9
  }

  function DrainOutputLength(drain: Script): nat {
    CompactSize(drain.length) + drain.length + 8
  }

  function ChangeFee(rate: nat, drain: Script): nat {
    Fee(rate, 4 * DrainOutputLength(drain))
  }

  predicate IsDust(value: nat, script: Script) {
    value < script.minimalNonDust
  }

  /**
   * Change is made exactly when what remains after paying for the change output is not dust. A change
   * amount is then never dust; without change, less than change fee plus dust threshold is given away.
   */
  function DecideChange(remaining: nat, rate: nat, drain: Script): (e: Excess)
    ensures e.Change? <==> drain.minimalNonDust == 0 || remaining >= ChangeFee(rate, drain) + drain.minimalNonDust
    ensures e.Change? ==> e.fee == ChangeFee(rate, drain) && !IsDust(e.amount, drain)
    ensures e.Change? ==> (e.amount + e.fee == remaining <==> remaining >= ChangeFee(rate, drain))
    ensures e.Change? && remaining < ChangeFee(rate, drain) ==> e.amount == 0
    ensures e.NoChange? ==>
      e.remainingAmount == remaining && e.changeFee == ChangeFee(rate, drain)
      && e.dustThreshold == drain.minimalNonDust && remaining < e.changeFee + e.dustThreshold
  {
    var changeFee := ChangeFee(rate, drain);
    var drainValue := if remaining >= changeFee then remaining - changeFee else 0;
    if IsDust(drainValue, drain) then
      NoChange(drain.minimalNonDust, remaining, changeFee)
    else
      Change(drainValue, changeFee)
  }

  /** What the excess hands on: kept for the fee, or split into a change output and its fee. */
  function ExcessTotal(e: Excess): nat {
    match e
    case NoChange(_, remaining, _) => remaining
    case Change(amount, fee) => amount + fee
  }

  /**
   * The excess accounts for the remaining amount unless the drain script has no dust threshold
   * and the remainder does not even pay for the change output.
   */
  lemma ExcessConservedIff(remaining: nat, rate: nat, drain: Script)
    ensures ExcessTotal(DecideChange(remaining, rate, drain)) == remaining
      <==> drain.minimalNonDust > 0 || remaining >= ChangeFee(rate, drain)
  {
  }

  /** An OP_RETURN drain script: a zero-value change output is created that nobody pays for. */
  lemma UnpaidChangeExample()
    ensures DecideChange(0, 250, Script(1, 0, true)) == Change(0, 10)
  {
    assert Fee(250, 4 * 10) == 10;
  }
}
