/** How a transaction's nLockTime and default nSequence are chosen from what the policy requires. */
module Locktimes {
  import opened Sequences
  import opened Conditions

  const ENABLE_RBF_NO_LOCKTIME: Sequence := 0xFFFF_FFFD

  datatype LockTimeError = LockTimeError(requested: LockTime, required: LockTime)

  datatype SequenceError = SequenceError(sequence: Sequence, csv: Sequence)

  /**
   * Without a request, the required lock or the current height against fee sniping, whichever is later; a
   * request is honoured exactly when it meets the requirement.
   */
  function ChooseLockTime(requested: Option<LockTime>, required: Option<LockTime>, height: nat): (r: Result<LockTime, LockTimeError>)
    ensures r.Ok? ==> LockAtMost(required, Some(r.value))
    ensures requested.Some? ==>
      if LockAtMost(required, requested) then r == Ok(requested.value)
      else required.Some? && r == Err(LockTimeError(requested.value, required.value))
    ensures requested.None? ==>
      && r.Ok?
      && (r.value == Blocks(height) || (required == Some(r.value) && (r.value.Blocks? ==> r.value.value >= height)))
  {
    match requested
    case None =>
      (match required
       case None => Ok(Blocks(height))
       case Some(value) =>
         if value.Blocks? && value.value < height then Ok(Blocks(height)) else Ok(value))
    case Some(x) =>
      if required.None? then Ok(x)
      else if required.value.Blocks? == x.Blocks? && x.value >= required.value.value then Ok(x)
      else Err(LockTimeError(x, required.value))
  }

  predicate CheckNSequenceRbf(sequence: Sequence, csv: Sequence) {
    && IsRelativeLockTime(sequence)
    && IsTimeLocked(sequence) == IsTimeLocked(csv)
    && sequence >= csv
  }

  function ChooseSequence(requested: Option<Sequence>, csv: Option<Sequence>): (r: Result<Sequence, SequenceError>)
    ensures r.Err? <==> requested.Some? && csv.Some? && !CheckNSequenceRbf(requested.value, csv.value)
    ensures r.Err? ==> r.error == SequenceError(requested.value, csv.value)
    ensures r.Ok? && requested.Some? ==> r.value == requested.value
    ensures requested.None? && csv.Some? ==> r == Ok(csv.value)
    // the default signals replacement (BIP 125), keeps nLockTime in force, and has no relative lock
    ensures requested.None? && csv.None? ==> r == Ok(0xFFFF_FFFD)
    ensures r.Ok? && requested.None? && csv.None? ==>
      r.value < 0xFFFF_FFFE && r.value != FINAL_SEQUENCE && !IsRelativeLockTime(r.value)
  {
    match (requested, csv)
    case (None, None) => Ok(ENABLE_RBF_NO_LOCKTIME)
    case (None, Some(required)) => Ok(required)
    case (Some(sequence), Some(required)) =>
      if CheckNSequenceRbf(sequence, required) then Ok(sequence) else Err(SequenceError(sequence, required))
    case (Some(sequence), None) => Ok(sequence)
  }

  // ---------------------------------------------------------------- what the scripts compare

  function LockBits(s: Sequence): nat {
    s % LOCK_MASK
  }

  /** BIP 112: relative locking enabled, same type flag, and the low 16 bits at least as large. */
  predicate SatisfiesCsv(sequence: Sequence, csv: Sequence) {
    && IsRelativeLockTime(sequence)
    && (sequence / TYPE_FLAG) % 2 == (csv / TYPE_FLAG) % 2
    && LockBits(sequence) >= LockBits(csv)
  }

  /** The sequence of an input that opts out of nLockTime. */
  const FINAL_SEQUENCE: Sequence := 0xFFFF_FFFF

  /** BIP 65: same unit, the lock reached by nLockTime, and the spending input does not opt out of it. */
  predicate SatisfiesCltv(lockTime: LockTime, sequence: Sequence, lock: LockTime) {
    && lock.Blocks? == lockTime.Blocks?
    && lock.value <= lockTime.value
    && sequence != FINAL_SEQUENCE
  }

  /** Only the lock bits and the type flag are set, as in every sequence made from a relative lock time. */
  predicate IsLockSequence(s: Sequence) {
    s == LockBits(s) || s == TYPE_FLAG + LockBits(s)
  }

  /** BIP 68: n blocks and n units of 512 seconds are encoded with and without the type flag, for every 16-bit n. */
  lemma EncodedLocks(n: nat)
    requires n < 0x1_0000
    ensures IsLockSequence(n) && IsRelativeLockTime(n) && !IsTimeLocked(n) && LockBits(n) == n
    ensures IsLockSequence(0x40_0000 + n) && IsTimeLocked(0x40_0000 + n) && LockBits(0x40_0000 + n) == n
    // bit 31 alone switches relative locking off
    ensures forall s: Sequence :: IsRelativeLockTime(s) <==> s < 0x8000_0000
    ensures !IsTimeLocked(0x8040_0000 + n)
  {
  }

  lemma LockSequenceParts(s: Sequence)
    requires IsLockSequence(s)
    ensures IsRelativeLockTime(s)
    ensures s == LockBits(s) <==> (s / TYPE_FLAG) % 2 == 0
    ensures s == TYPE_FLAG + LockBits(s) <==> (s / TYPE_FLAG) % 2 == 1
  {
  }

  /** Between plain lock sequences the comparison of whole numbers decides what the script decides. */
  lemma CheckIsCsv(sequence: Sequence, csv: Sequence)
    requires IsLockSequence(sequence) && IsLockSequence(csv)
    ensures CheckNSequenceRbf(sequence, csv) <==> SatisfiesCsv(sequence, csv)
  {
    LockSequenceParts(sequence);
    LockSequenceParts(csv);
  }

  /**
   * A requested sequence is safe to accept against every required one exactly when it has no relative lock
   * (the check then always refuses it), or no stray bit is set, or its lock bits are the largest possible.
   */
  lemma PassedCheckSatisfiesIff(sequence: Sequence)
    ensures (forall csv: Sequence :: IsLockSequence(csv) && CheckNSequenceRbf(sequence, csv) ==> SatisfiesCsv(sequence, csv))
       <==> !IsRelativeLockTime(sequence) || IsLockSequence(sequence) || LockBits(sequence) == LOCK_MASK - 1
  {
    if !IsRelativeLockTime(sequence) || IsLockSequence(sequence) || LockBits(sequence) == LOCK_MASK - 1 {
      forall csv: Sequence | IsLockSequence(csv) && CheckNSequenceRbf(sequence, csv) ensures SatisfiesCsv(sequence, csv) {
        LockSequenceParts(csv);
        if IsLockSequence(sequence) {
          CheckIsCsv(sequence, csv);
        }
      }
    } else {
      var csv: Sequence := if IsTimeLocked(sequence) then TYPE_FLAG + LOCK_MASK - 1 else LOCK_MASK - 1;
      LockSequenceParts(csv);
      StrayBitsExceed(sequence, csv);
      assert !SatisfiesCsv(sequence, csv);
    }
  }

  /** A stray bit weighs more than all lock bits together. */
  lemma StrayBitsExceed(sequence: Sequence, csv: Sequence)
    requires !IsLockSequence(sequence)
    requires csv == (if (sequence / TYPE_FLAG) % 2 == 1 then TYPE_FLAG else 0) + LOCK_MASK - 1
    ensures sequence >= csv
  {
  }

  /** The order on required sequences is the order of the script. */
  lemma CsvAtMostSatisfies(csv: Sequence, sequence: Sequence)
    requires IsLockSequence(csv) && IsLockSequence(sequence)
    ensures CsvAtMost(Some(csv), Some(sequence)) <==> SatisfiesCsv(sequence, csv)
  {
    LockSequenceParts(csv);
    LockSequenceParts(sequence);
  }

  /** Bit 16 set and no lock bits: the check passes, the script would fail. */
  lemma StrayBitExample()
    ensures CheckNSequenceRbf(0x1_0000, 5000) && !SatisfiesCsv(0x1_0000, 5000)
  {
  }
}
