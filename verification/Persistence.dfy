/** Change sets, the tables they are persisted to, and the locked outpoints that survive a reload. */
module Persistence {
  import opened Sequences
  import opened Coins

  /** Descriptors and the network are opaque values that are written once. */
  datatype ChangeSet = ChangeSet(
    descriptor: Option<nat>,
    changeDescriptor: Option<nat>,
    network: Option<nat>,
    locks: map<OutPoint, bool>)

  const EMPTY_CHANGE_SET := ChangeSet(None, None, None, map[])

  /** Row 0 of the wallet table, if it was ever written, and the table of locked outpoints. */
  datatype Row = Row(descriptor: Option<nat>, changeDescriptor: Option<nat>, network: Option<nat>)

  datatype Tables = Tables(row: Option<Row>, locks: set<OutPoint>)

  // ---------------------------------------------------------------- merging

  function FirstOf<T>(a: Option<T>, b: Option<T>): Option<T> {
    if a.Some? then a else b
  }

  /** First write wins for the constants, last write wins for the locks. */
  function Merged(a: ChangeSet, b: ChangeSet): ChangeSet {
    ChangeSet(
      FirstOf(a.descriptor, b.descriptor),
      FirstOf(a.changeDescriptor, b.changeDescriptor),
      FirstOf(a.network, b.network),
      a.locks + b.locks)
  }

  function MergedAll(css: seq<ChangeSet>): ChangeSet {
    if css == [] then EMPTY_CHANGE_SET else Merged(MergedAll(css[..|css| - 1]), css[|css| - 1])
  }

  lemma MergeIsMonoid(a: ChangeSet, b: ChangeSet, c: ChangeSet)
    ensures Merged(Merged(a, b), c) == Merged(a, Merged(b, c))
    ensures Merged(EMPTY_CHANGE_SET, a) == a == Merged(a, EMPTY_CHANGE_SET)
  {
    assert (a.locks + b.locks) + c.locks == a.locks + (b.locks + c.locks);
  }

  /** A change set that grows in place. */
  class StagedChanges {
    var descriptor: Option<nat>
    var changeDescriptor: Option<nat>
    var network: Option<nat>
    var locks: map<OutPoint, bool>

    ghost function Value(): ChangeSet
      reads this
    {
      ChangeSet(descriptor, changeDescriptor, network, locks)
    }

    constructor ()
      ensures Value() == EMPTY_CHANGE_SET
    {
      descriptor, changeDescriptor, network, locks := None, None, None, map[];
    }

    method Merge(other: ChangeSet)
      modifies this
      ensures Value() == Merged(old(Value()), other)
    {
      if descriptor.None? && other.descriptor.Some? {
        descriptor := other.descriptor;
      }
      if changeDescriptor.None? && other.changeDescriptor.Some? {
        changeDescriptor := other.changeDescriptor;
      }
      if network.None? && other.network.Some? {
        network := other.network;
      }
      locks := locks + other.locks;
    }

    method Staged() returns (r: Option<ChangeSet>)
      ensures r == if Value() == EMPTY_CHANGE_SET then None else Some(Value())
    {
      if descriptor.None? && changeDescriptor.None? && network.None? && locks == map[] {
        return None;
      }
      return Some(ChangeSet(descriptor, changeDescriptor, network, locks));
    }

    method Take() returns (r: Option<ChangeSet>)
      modifies this
      ensures Value() == EMPTY_CHANGE_SET
      ensures r == if old(Value()) == EMPTY_CHANGE_SET then None else Some(old(Value()))
    {
      r := Staged();
      descriptor, changeDescriptor, network, locks := None, None, None, map[];
    }
  }

  // ---------------------------------------------------------------- tables

  function Fields(row: Option<Row>): Row {
    if row.Some? then row.value else Row(None, None, None)
  }

  /** The tables after persisting `cs`. */
  function Persisted(db: Tables, cs: ChangeSet): Tables {
    var was := Fields(db.row);
    var now := Row(
      FirstOf(was.descriptor, cs.descriptor),
      FirstOf(was.changeDescriptor, cs.changeDescriptor),
      FirstOf(was.network, cs.network));
    Tables(
      if db.row.None? && now == Row(None, None, None) then None else Some(now),
      AppliedLocks(db.locks, cs.locks))
  }

  function AppliedLocks(table: set<OutPoint>, changes: map<OutPoint, bool>): set<OutPoint> {
    (set op | op in table && (op in changes ==> changes[op])) + (set op | op in changes && changes[op])
  }

  function Loaded(db: Tables): ChangeSet {
    var row := Fields(db.row);
    ChangeSet(row.descriptor, row.changeDescriptor, row.network, map op | op in db.locks :: true)
  }

  function LockedIn(cs: ChangeSet): set<OutPoint> {
    set op | op in cs.locks && cs.locks[op]
  }

  class Database {
    var row: Option<Row>
    var lockTable: set<OutPoint>

    ghost function State(): Tables
      reads this
    {
      Tables(row, lockTable)
    }

    constructor ()
      ensures State() == Tables(None, {})
    {
      row, lockTable := None, {};
    }

    method PersistToSqlite(cs: ChangeSet)
      modifies this
      ensures State() == Persisted(old(State()), cs)
    {
      if cs.descriptor.Some? {
        row := if row.None? then Some(Row(cs.descriptor, None, None))
               else Some(row.value.(descriptor := FirstOf(row.value.descriptor, cs.descriptor)));
      }
      if cs.changeDescriptor.Some? {
        row := if row.None? then Some(Row(None, cs.changeDescriptor, None))
               else Some(row.value.(changeDescriptor := FirstOf(row.value.changeDescriptor, cs.changeDescriptor)));
      }
      if cs.network.Some? {
        row := if row.None? then Some(Row(None, None, cs.network))
               else Some(row.value.(network := FirstOf(row.value.network, cs.network)));
      }
      ghost var table := lockTable;
      var pending := cs.locks.Keys;
      while pending != {}
        invariant pending <= cs.locks.Keys
        invariant row == Persisted(old(State()), cs).row
        invariant forall op :: op in lockTable <==>
          if op in cs.locks && op !in pending then cs.locks[op] else op in table
      {
        var op :| op in pending;
        lockTable := if cs.locks[op] then lockTable + {op} else lockTable - {op};
        pending := pending - {op};
      }
    }

    method FromSqlite() returns (cs: ChangeSet)
      ensures cs == Loaded(State())
    {
      var fields := Fields(row);
      cs := ChangeSet(fields.descriptor, fields.changeDescriptor, fields.network, map[]);
      var rows := lockTable;
      while rows != {}
        invariant rows <= lockTable
        invariant cs == Loaded(State()).(locks := cs.locks)
        invariant cs.locks == map op | op in lockTable && op !in rows :: true
      {
        var op :| op in rows;
        cs := cs.(locks := cs.locks[op := true]);
        rows := rows - {op};
      }
      assert cs.locks == map op | op in lockTable :: true;
    }
  }

  /** Persisting one change set after the other is persisting their merge. */
  lemma PersistMerge(db: Tables, a: ChangeSet, b: ChangeSet)
    ensures Persisted(Persisted(db, a), b) == Persisted(db, Merged(a, b))
  {
    var twice, once := Persisted(Persisted(db, a), b), Persisted(db, Merged(a, b));
    forall op ensures op in twice.locks <==> op in once.locks {
    }
    assert twice.locks == once.locks;
  }

  function PersistedAll(db: Tables, css: seq<ChangeSet>): Tables {
    if css == [] then db else Persisted(PersistedAll(db, css[..|css| - 1]), css[|css| - 1])
  }

  lemma PersistNothing(db: Tables)
    ensures Persisted(db, EMPTY_CHANGE_SET) == db
  {
    assert AppliedLocks(db.locks, map[]) == db.locks;
  }

  /** However changes are cut into change sets, the tables end up as if their merge had been persisted at once. */
  lemma {:induction false} PersistRun(db: Tables, css: seq<ChangeSet>)
    ensures PersistedAll(db, css) == Persisted(db, MergedAll(css))
  {
    if css == [] {
      PersistNothing(db);
    } else {
      var front, last := css[..|css| - 1], css[|css| - 1];
      PersistRun(db, front);
      PersistMerge(db, MergedAll(front), last);
    }
  }

  datatype Constant = DescriptorConstant | ChangeDescriptorConstant | NetworkConstant

  function Given(cs: ChangeSet, which: Constant): Option<nat> {
    match which
    case DescriptorConstant => cs.descriptor
    case ChangeDescriptorConstant => cs.changeDescriptor
    case NetworkConstant => cs.network
  }

  function Stored(db: Tables, which: Constant): Option<nat> {
    match which
    case DescriptorConstant => Fields(db.row).descriptor
    case ChangeDescriptorConstant => Fields(db.row).changeDescriptor
    case NetworkConstant => Fields(db.row).network
  }

  /** Change set i is the first one to give the constant. */
  predicate IsFirst(css: seq<ChangeSet>, which: Constant, i: nat) {
    i < |css| && Given(css[i], which).Some? && forall j :: 0 <= j < i ==> Given(css[j], which).None?
  }

  /** Written once: over any run of change sets, a constant takes the first value it was given and keeps it. */
  lemma {:induction false} FirstWriteWins(db: Tables, css: seq<ChangeSet>, which: Constant)
    ensures Stored(db, which).Some? ==> Stored(PersistedAll(db, css), which) == Stored(db, which)
    ensures forall i: nat :: Stored(db, which).None? && IsFirst(css, which, i) ==>
      Stored(PersistedAll(db, css), which) == Given(css[i], which)
    ensures Stored(db, which).None? && (forall i :: 0 <= i < |css| ==> Given(css[i], which).None?) ==>
      Stored(PersistedAll(db, css), which).None?
  {
    if css != [] {
      var k := |css| - 1;
      FirstWriteWins(db, css[..k], which);
      forall i: nat | Stored(db, which).None? && IsFirst(css, which, i)
        ensures Stored(PersistedAll(db, css), which) == Given(css[i], which)
      {
        assert i < k ==> IsFirst(css[..k], which, i);
      }
    }
  }

  /** An outpoint is in the lock table as the last change set that mentions it says. */
  lemma {:induction false} LastWriteWins(db: Tables, css: seq<ChangeSet>, op: OutPoint, i: nat)
    requires i < |css| && op in css[i].locks
    requires forall j :: i < j < |css| ==> op !in css[j].locks
    ensures op in PersistedAll(db, css).locks <==> css[i].locks[op]
  {
    var k := |css| - 1;
    if i < k {
      LastWriteWins(db, css[..k], op, i);
    }
  }

  /** What is loaded from fresh tables is what was persisted, with unlocked outpoints forgotten. */
  lemma LoadAfterPersist(cs: ChangeSet)
    ensures var loaded := Loaded(Persisted(Tables(None, {}), cs));
      && (loaded.descriptor, loaded.changeDescriptor, loaded.network) == (cs.descriptor, cs.changeDescriptor, cs.network)
      && LockedIn(loaded) == LockedIn(cs)
      && (forall op :: op in loaded.locks ==> loaded.locks[op])
  {
  }

  // ---------------------------------------------------------------- the wallet's locks

  datatype PersistError = PersisterFailed

  function LockChange(op: OutPoint, locked: bool): ChangeSet {
    EMPTY_CHANGE_SET.(locks := map[op := locked])
  }

  class Wallet {
    var lockedOutpoints: set<OutPoint>
    const stage: StagedChanges

    /** The lock part of loading: only outpoints recorded as locked are kept, and nothing is staged. */
    constructor LoadWithParams(cs: ChangeSet)
      ensures lockedOutpoints == LockedIn(cs) && stage.Value() == EMPTY_CHANGE_SET && fresh(stage)
    {
      lockedOutpoints := set op | op in cs.locks && cs.locks[op];
      stage := new StagedChanges();
    }

    ghost function State(db: Tables): Run
      reads this, stage
    {
      Run(lockedOutpoints, stage.Value(), db)
    }

    method LockOutpoint(op: OutPoint)
      modifies this, stage
      ensures forall db :: State(db) == Step(old(State(db)), Lock(op))
      ensures lockedOutpoints == old(lockedOutpoints) + {op}
      // only a new lock is staged
      ensures op in old(lockedOutpoints) ==> stage.Value() == old(stage.Value())
      ensures op !in old(lockedOutpoints) ==> stage.Value() == old(stage.Value()).(locks := old(stage.Value()).locks[op := true])
    {
      if op !in lockedOutpoints {
        lockedOutpoints := lockedOutpoints + {op};
        stage.Merge(LockChange(op, true));
      }
    }

    method UnlockOutpoint(op: OutPoint)
      modifies this, stage
      ensures forall db :: State(db) == Step(old(State(db)), Unlock(op))
      ensures lockedOutpoints == old(lockedOutpoints) - {op}
      // only the end of a lock is staged
      ensures op !in old(lockedOutpoints) ==> stage.Value() == old(stage.Value())
      ensures op in old(lockedOutpoints) ==> stage.Value() == old(stage.Value()).(locks := old(stage.Value()).locks[op := false])
    {
      if op in lockedOutpoints {
        lockedOutpoints := lockedOutpoints - {op};
        stage.Merge(LockChange(op, false));
      }
    }

    method TakeStaged() returns (r: Option<ChangeSet>)
      modifies stage
      ensures lockedOutpoints == old(lockedOutpoints) && stage.Value() == EMPTY_CHANGE_SET
      ensures r == if old(stage.Value()) == EMPTY_CHANGE_SET then None else Some(old(stage.Value()))
    {
      r := stage.Take();
    }

    /** `fails` says that the persister reports an error, having changed nothing; the stage is then kept. */
    method Persist(db: Database, fails: bool) returns (r: Result<bool, PersistError>)
      requires {db} !! {this, stage}
      modifies stage, db
      ensures r.Ok? ==> (r.value <==> old(stage.Value()) != EMPTY_CHANGE_SET)
      ensures r.Ok? ==> State(db.State()) == Step(old(State(db.State())), Flush)
      ensures r.Ok? ==> db.State() == Persisted(old(db.State()), old(stage.Value())) && stage.Value() == EMPTY_CHANGE_SET
      ensures r.Err? ==> State(db.State()) == old(State(db.State()))
      ensures r.Err? <==> fails && old(stage.Value()) != EMPTY_CHANGE_SET
    {
      PersistNothing(db.State());
      var staged := stage.Staged();
      if staged.None? {
        return Ok(false);
      }
      if fails {
        return Err(PersisterFailed);
      }
      db.PersistToSqlite(staged.value);
      var _ := TakeStaged();
      return Ok(true);
    }
  }

  // ---------------------------------------------------------------- runs

  /** Memory, stage and tables. */
  datatype Run = Run(locked: set<OutPoint>, stage: ChangeSet, db: Tables)

  /** `Stage` stands for every other operation that stages changes; `Reload` drops memory and loads again. */
  datatype Op = Lock(op: OutPoint) | Unlock(op: OutPoint) | Stage(changes: ChangeSet) | Flush | Reload

  function Step(s: Run, op: Op): Run {
    match op
    case Lock(o) =>
      if o in s.locked then s else Run(s.locked + {o}, Merged(s.stage, LockChange(o, true)), s.db)
    case Unlock(o) =>
      if o !in s.locked then s else Run(s.locked - {o}, Merged(s.stage, LockChange(o, false)), s.db)
    case Stage(changes) => s.(stage := Merged(s.stage, changes.(locks := map[])))
    case Flush => Run(s.locked, EMPTY_CHANGE_SET, Persisted(s.db, s.stage))
    case Reload => Run(LockedIn(Loaded(s.db)), EMPTY_CHANGE_SET, s.db)
  }

  function RunAll(s: Run, ops: seq<Op>): Run {
    if ops == [] then s else Step(RunAll(s, ops[..|ops| - 1]), ops[|ops| - 1])
  }

  /** Persisting what is staged would record exactly the locks in memory. */
  ghost predicate Agrees(s: Run) {
    AppliedLocks(s.db.locks, s.stage.locks) == s.locked
  }

  lemma LoadedLocks(db: Tables)
    ensures LockedIn(Loaded(db)) == db.locks
  {
  }

  lemma StepAgrees(s: Run, op: Op)
    requires Agrees(s)
    ensures Agrees(Step(s, op))
  {
    match op
    case Lock(o) =>
    case Unlock(o) =>
    case Stage(changes) =>
      assert s.stage.locks + map[] == s.stage.locks;
    case Flush =>
      PersistNothing(Persisted(s.db, s.stage));
    case Reload =>
      LoadedLocks(s.db);
      PersistNothing(s.db);
  }

  /** Over every run of lock, unlock, other staging, flush and reload, memory agrees with tables plus stage. */
  lemma {:induction false} RunAgrees(s: Run, ops: seq<Op>)
    requires Agrees(s)
    ensures Agrees(RunAll(s, ops))
  {
    if ops != [] {
      RunAgrees(s, ops[..|ops| - 1]);
      StepAgrees(RunAll(s, ops[..|ops| - 1]), ops[|ops| - 1]);
    }
  }

  /** A wallet without locks and staged changes, on fresh tables, agrees. */
  lemma FreshAgrees()
    ensures Agrees(Run({}, EMPTY_CHANGE_SET, Tables(None, {})))
  {
    PersistNothing(Tables(None, {}));
  }

  /** Hence a reload after a flush finds the locks that were in memory. */
  lemma ReloadAfterFlush(s: Run, ops: seq<Op>)
    requires Agrees(s)
    ensures var before := RunAll(s, ops);
      Step(Step(before, Flush), Reload).locked == before.locked
  {
    RunAgrees(s, ops);
    LoadedLocks(Persisted(RunAll(s, ops).db, RunAll(s, ops).stage));
  }

  predicate KeepsMemory(ops: seq<Op>) {
    forall i :: 0 <= i < |ops| ==> !ops[i].Reload?
  }

  /** Operation i is the last one that locks or unlocks the outpoint. */
  predicate IsLastChange(ops: seq<Op>, o: OutPoint, i: nat) {
    && i < |ops| && ops[i] in {Lock(o), Unlock(o)}
    && forall j :: i < j < |ops| ==> ops[j] !in {Lock(o), Unlock(o)}
  }

  lemma {:induction false} LastChangeDecides(s: Run, ops: seq<Op>, o: OutPoint, i: nat)
    requires KeepsMemory(ops) && IsLastChange(ops, o, i)
    ensures o in RunAll(s, ops).locked <==> ops[i] == Lock(o)
  {
    var k := |ops| - 1;
    if i < k {
      LastChangeDecides(s, ops[..k], o, i);
    }
  }

  /** From a fresh wallet, flushed and reloaded: an outpoint is locked as the last operation on it says. */
  lemma LocksSurvive(ops: seq<Op>, o: OutPoint, i: nat)
    requires KeepsMemory(ops) && IsLastChange(ops, o, i)
    ensures var s := RunAll(Run({}, EMPTY_CHANGE_SET, Tables(None, {})), ops);
      o in Step(Step(s, Flush), Reload).locked <==> ops[i] == Lock(o)
  {
    var start := Run({}, EMPTY_CHANGE_SET, Tables(None, {}));
    FreshAgrees();
    ReloadAfterFlush(start, ops);
    LastChangeDecides(start, ops, o, i);
  }

  function WithoutFlushes(ops: seq<Op>): seq<Op> {
    if ops == [] then []
    else WithoutFlushes(ops[..|ops| - 1]) + if ops[|ops| - 1].Flush? then [] else [ops[|ops| - 1]]
  }

  /** Every other operation is still there, as often as before. */
  lemma {:induction false} OnlyFlushesGo(ops: seq<Op>, op: Op)
    ensures multiset(WithoutFlushes(ops))[op] == if op.Flush? then 0 else multiset(ops)[op]
  {
    if ops != [] {
      assert ops == ops[..|ops| - 1] + [ops[|ops| - 1]];
      OnlyFlushesGo(ops[..|ops| - 1], op);
    }
  }

  lemma RunSnoc(s: Run, ops: seq<Op>, op: Op)
    ensures RunAll(s, ops + [op]) == Step(RunAll(s, ops), op)
  {
    assert (ops + [op])[..|ops|] == ops;
  }

  /** Two runs with the same memory whose tables agree once flushed. */
  ghost predicate SameOnceFlushed(a: Run, b: Run) {
    a.locked == b.locked && Persisted(a.db, a.stage) == Persisted(b.db, b.stage)
  }

  lemma StepKeepsSame(a: Run, b: Run, op: Op)
    requires SameOnceFlushed(a, b) && !op.Reload? && !op.Flush?
    ensures SameOnceFlushed(Step(a, op), Step(b, op))
  {
    hide Persisted, Merged;
    var changes := match op
      case Lock(o) => LockChange(o, true)
      case Unlock(o) => LockChange(o, false)
      case Stage(changes) => changes.(locks := map[])
      case _ => EMPTY_CHANGE_SET;
    PersistMerge(a.db, a.stage, changes);
    PersistMerge(b.db, b.stage, changes);
  }

  /**
   * When the flushes happen makes no difference: with or without them, memory is the same, and a final
   * flush leaves the same tables.
   */
  lemma {:induction false} FlushTimingIsIrrelevant(s: Run, ops: seq<Op>)
    requires KeepsMemory(ops)
    ensures SameOnceFlushed(RunAll(s, ops), RunAll(s, WithoutFlushes(ops)))
  {
    hide Persisted, Merged;
    if ops == [] {
    } else {
      var front, last := ops[..|ops| - 1], ops[|ops| - 1];
      FlushTimingIsIrrelevant(s, front);
      var a, b := RunAll(s, front), RunAll(s, WithoutFlushes(front));
      if last.Flush? {
        PersistNothing(Persisted(a.db, a.stage));
        assert WithoutFlushes(ops) == WithoutFlushes(front);
      } else {
        RunSnoc(s, WithoutFlushes(front), last);
        StepKeepsSame(a, b, last);
      }
    }
  }
}
