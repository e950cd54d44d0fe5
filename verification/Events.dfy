/** Wallet events: a diff between two snapshots that can be replayed. */
module Events {
  import opened Sequences
  import opened Coins

  /** Block ids, anchors and transactions are opaque values. */
  type BlockId = nat

  type Anchor = nat

  type TxBody = nat

  datatype Position = Confirmed(anchor: Anchor) | Unconfirmed

  type Snapshot = map<Txid, (TxBody, Position)>

  datatype WalletEvent =
    | ChainTipChanged(oldTip: BlockId, newTip: BlockId)
    | TxConfirmed(txid: Txid, tx: TxBody, blockTime: Anchor, oldBlockTime: Option<Anchor>)
    | TxUnconfirmed(txid: Txid, tx: TxBody, oldBlockTime: Option<Anchor>)
    | TxReplaced(txid: Txid, tx: TxBody, conflicts: seq<(nat, Txid)>)
    | TxDropped(txid: Txid, tx: TxBody)

  // ---------------------------------------------------------------- replaying

  /** What a listener knows: the chain tip and the status of each wallet transaction. */
  datatype View = View(tip: BlockId, statuses: map<Txid, Position>)

  function Statuses(txs: Snapshot): map<Txid, Position> {
    map t | t in txs :: txs[t].1
  }

  /** The old status an event claims must be the one the listener has. */
  predicate Fits(v: View, e: WalletEvent) {
    match e
    case ChainTipChanged(oldTip, newTip) => v.tip == oldTip && newTip != oldTip
    case TxConfirmed(t, _, blockTime, oldBlockTime) =>
      if oldBlockTime.Some? then
        t in v.statuses && v.statuses[t] == Confirmed(oldBlockTime.value) && oldBlockTime.value != blockTime
      else
        t in v.statuses ==> v.statuses[t] == Unconfirmed
    case TxUnconfirmed(t, _, oldBlockTime) =>
      if oldBlockTime.Some? then t in v.statuses && v.statuses[t] == Confirmed(oldBlockTime.value)
      else t !in v.statuses
    case TxReplaced(t, _, conflicts) => t in v.statuses && conflicts != []
    case TxDropped(t, _) => t in v.statuses
  }

  function Apply(v: View, e: WalletEvent): Option<View> {
    if !Fits(v, e) then None
    else match e
      case ChainTipChanged(_, newTip) => Some(v.(tip := newTip))
      case TxConfirmed(t, _, blockTime, _) => Some(v.(statuses := v.statuses[t := Confirmed(blockTime)]))
      case TxUnconfirmed(t, _, _) => Some(v.(statuses := v.statuses[t := Unconfirmed]))
      case TxReplaced(t, _, _) => Some(v.(statuses := v.statuses - {t}))
      case TxDropped(t, _) => Some(v.(statuses := v.statuses - {t}))
  }

  function Replay(v: View, events: seq<WalletEvent>): Option<View> {
    if events == [] then Some(v)
    else match Replay(v, events[..|events| - 1])
      case None => None
      case Some(u) => Apply(u, events[|events| - 1])
  }

  lemma ReplaySnoc(v: View, events: seq<WalletEvent>, e: WalletEvent)
    ensures Replay(v, events + [e]) == match Replay(v, events) case None => None case Some(u) => Apply(u, e)
  {
    assert (events + [e])[..|events|] == events;
  }

  lemma {:induction false} ReplayAppend(v: View, a: seq<WalletEvent>, b: seq<WalletEvent>)
    ensures Replay(v, a + b) == match Replay(v, a) case None => None case Some(u) => Replay(u, b)
  {
    if b == [] {
      assert a + b == a;
    } else {
      var k := |b| - 1;
      ReplayAppend(v, a, b[..k]);
      ReplaySnoc(v, a + b[..k], b[k]);
      assert a + b == (a + b[..k]) + [b[k]];
    }
  }

  // ---------------------------------------------------------------- producing

  /** The event that the change of one transaction calls for, if any. */
  ghost function EventFor(txs1: Snapshot, txs2: Snapshot, directConflicts: TxBody -> seq<(nat, Txid)>, t: Txid): Option<WalletEvent> {
    if t in txs2 then
      var was := if t in txs1 then Some(txs1[t].1) else None;
      var (tx, now) := txs2[t];
      if was == Some(now) then None
      else
        var previous := if was.Some? && was.value.Confirmed? then Some(was.value.anchor) else None;
        Some(if now.Confirmed? then TxConfirmed(t, tx, now.anchor, previous) else TxUnconfirmed(t, tx, previous))
    else if t in txs1 then
      var tx := txs1[t].0;
      Some(if directConflicts(tx) != [] then TxReplaced(t, tx, directConflicts(tx)) else TxDropped(t, tx))
    else None
  }

  /** Statuses when the transactions in `seen` have been brought up to date. */
  ghost function Halfway(txs1: Snapshot, txs2: Snapshot, seen: set<Txid>): map<Txid, Position> {
    map t | t in txs1.Keys + txs2.Keys && (if t in seen then t in txs2 else t in txs1)
      :: if t in seen then txs2[t].1 else txs1[t].1
  }

  lemma SeenOneMore(txs1: Snapshot, txs2: Snapshot, directConflicts: TxBody -> seq<(nat, Txid)>, seen: set<Txid>, t: Txid, tip: BlockId)
    requires t !in seen
    ensures var e := EventFor(txs1, txs2, directConflicts, t);
      var before, after := View(tip, Halfway(txs1, txs2, seen)), View(tip, Halfway(txs1, txs2, seen + {t}));
      if e.Some? then Apply(before, e.value) == Some(after) else before == after
  {
    var before, after := Halfway(txs1, txs2, seen), Halfway(txs1, txs2, seen + {t});
    forall u ensures u in after <==> if u == t then t in txs2 else u in before {
    }
    assert t in before <==> t in txs1;
    assert t in txs2 ==> after == before[t := txs2[t].1];
    assert t !in txs2 ==> after == before - {t};
  }

  /** The transaction events listed so far: one for each seen transaction that calls for one. */
  ghost predicate ListsSeen(txs1: Snapshot, txs2: Snapshot, directConflicts: TxBody -> seq<(nat, Txid)>, seen: set<Txid>,
                            events: seq<WalletEvent>)
  {
    && (forall e :: e in events && !e.ChainTipChanged? ==>
          e.txid in seen && EventFor(txs1, txs2, directConflicts, e.txid) == Some(e))
    && (forall t :: t in seen && EventFor(txs1, txs2, directConflicts, t).Some? ==>
          EventFor(txs1, txs2, directConflicts, t).value in events)
    && (forall i, j :: 0 <= i < j < |events| && !events[i].ChainTipChanged? && !events[j].ChainTipChanged? ==>
          events[i].txid != events[j].txid)
  }

  lemma ListOneMore(txs1: Snapshot, txs2: Snapshot, directConflicts: TxBody -> seq<(nat, Txid)>, seen: set<Txid>,
                    events: seq<WalletEvent>, t: Txid)
    requires t !in seen && ListsSeen(txs1, txs2, directConflicts, seen, events)
    ensures var e := EventFor(txs1, txs2, directConflicts, t);
      ListsSeen(txs1, txs2, directConflicts, seen + {t}, if e.Some? then events + [e.value] else events)
  {
    var e := EventFor(txs1, txs2, directConflicts, t);
    forall i | 0 <= i < |events| && !events[i].ChainTipChanged? ensures events[i].txid != t {
      assert events[i] in events;
    }
    if e.Some? {
      assert e.value in events + [e.value];
      assert forall x :: x in events ==> x in events + [e.value];
    }
  }

  /**
   * The events report exactly the changes, each once: which transactions are newly confirmed or confirmed
   * elsewhere, new or no longer confirmed, gone with direct conflicts, gone without; each with its own body.
   */
  ghost predicate ReportsChanges(txs1: Snapshot, txs2: Snapshot, directConflicts: TxBody -> seq<(nat, Txid)>,
                                 events: seq<WalletEvent>)
  {
    && (forall t: Txid, tx: TxBody, blockTime: Anchor, was: Option<Anchor> :: TxConfirmed(t, tx, blockTime, was) in events <==>
          && t in txs2 && txs2[t] == (tx, Confirmed(blockTime))
          && (was.Some? ==> t in txs1 && txs1[t].1 == Confirmed(was.value) && was.value != blockTime)
          && (was.None? && t in txs1 ==> txs1[t].1 == Unconfirmed))
    && (forall t: Txid, tx: TxBody, was: Option<Anchor> :: TxUnconfirmed(t, tx, was) in events <==>
          && t in txs2 && txs2[t] == (tx, Unconfirmed)
          && (was.Some? ==> t in txs1 && txs1[t].1 == Confirmed(was.value))
          && (was.None? ==> t !in txs1))
    && (forall t, tx, conflicts :: TxReplaced(t, tx, conflicts) in events <==>
          t in txs1 && t !in txs2 && tx == txs1[t].0 && conflicts == directConflicts(tx) && conflicts != [])
    && (forall t, tx :: TxDropped(t, tx) in events <==>
          t in txs1 && t !in txs2 && tx == txs1[t].0 && directConflicts(tx) == [])
    && (forall i, j :: 0 <= i < j < |events| && !events[i].ChainTipChanged? && !events[j].ChainTipChanged? ==>
          events[i].txid != events[j].txid)
  }

  lemma AllListed(txs1: Snapshot, txs2: Snapshot, directConflicts: TxBody -> seq<(nat, Txid)>, events: seq<WalletEvent>)
    requires ListsSeen(txs1, txs2, directConflicts, txs1.Keys + txs2.Keys, events)
    ensures ReportsChanges(txs1, txs2, directConflicts, events)
  {
    forall e: WalletEvent | !e.ChainTipChanged?
      ensures e in events <==> EventFor(txs1, txs2, directConflicts, e.txid) == Some(e)
    {
      if EventFor(txs1, txs2, directConflicts, e.txid) == Some(e) {
        assert e.txid in txs1.Keys + txs2.Keys;
      }
    }
    hide ListsSeen;
    CalledFor(txs1, txs2, directConflicts);
    ListedOnce(txs1, txs2, directConflicts, events);
  }

  lemma ListedOnce(txs1: Snapshot, txs2: Snapshot, directConflicts: TxBody -> seq<(nat, Txid)>, events: seq<WalletEvent>)
    requires ListsSeen(txs1, txs2, directConflicts, txs1.Keys + txs2.Keys, events)
    ensures forall i, j :: 0 <= i < j < |events| && !events[i].ChainTipChanged? && !events[j].ChainTipChanged? ==>
      events[i].txid != events[j].txid
  {
    hide EventFor;
  }

  /** Which event is called for, kind by kind. */
  lemma CalledFor(txs1: Snapshot, txs2: Snapshot, directConflicts: TxBody -> seq<(nat, Txid)>)
    ensures forall t: Txid, tx: TxBody, blockTime: Anchor, was: Option<Anchor> ::
      EventFor(txs1, txs2, directConflicts, t) == Some(TxConfirmed(t, tx, blockTime, was)) <==>
      && t in txs2 && txs2[t] == (tx, Confirmed(blockTime))
      && (was.Some? ==> t in txs1 && txs1[t].1 == Confirmed(was.value) && was.value != blockTime)
      && (was.None? && t in txs1 ==> txs1[t].1 == Unconfirmed)
    ensures forall t: Txid, tx: TxBody, was: Option<Anchor> ::
      EventFor(txs1, txs2, directConflicts, t) == Some(TxUnconfirmed(t, tx, was)) <==>
      && t in txs2 && txs2[t] == (tx, Unconfirmed)
      && (was.Some? ==> t in txs1 && txs1[t].1 == Confirmed(was.value))
      && (was.None? ==> t !in txs1)
    ensures forall t, tx, conflicts :: EventFor(txs1, txs2, directConflicts, t) == Some(TxReplaced(t, tx, conflicts)) <==>
      t in txs1 && t !in txs2 && tx == txs1[t].0 && conflicts == directConflicts(tx) && conflicts != []
    ensures forall t, tx :: EventFor(txs1, txs2, directConflicts, t) == Some(TxDropped(t, tx)) <==>
      t in txs1 && t !in txs2 && tx == txs1[t].0 && directConflicts(tx) == []
  {
  }

  /** `seen` are the transactions dealt with; replaying the events brings exactly those up to date. */
  ghost predicate InProgress(start: View, tip: BlockId, txs1: Snapshot, txs2: Snapshot,
                             directConflicts: TxBody -> seq<(nat, Txid)>, seen: set<Txid>, events: seq<WalletEvent>)
  {
    && Replay(start, events) == Some(View(tip, Halfway(txs1, txs2, seen)))
    && ListsSeen(txs1, txs2, directConflicts, seen, events)
  }

  lemma Progress(start: View, tip: BlockId, txs1: Snapshot, txs2: Snapshot, directConflicts: TxBody -> seq<(nat, Txid)>,
                 seen: set<Txid>, events: seq<WalletEvent>, t: Txid)
    requires t !in seen && InProgress(start, tip, txs1, txs2, directConflicts, seen, events)
    ensures var e := EventFor(txs1, txs2, directConflicts, t);
      InProgress(start, tip, txs1, txs2, directConflicts, seen + {t}, if e.Some? then events + [e.value] else events)
  {
    hide Apply, Halfway, EventFor, ListsSeen;
    SeenOneMore(txs1, txs2, directConflicts, seen, t, tip);
    ListOneMore(txs1, txs2, directConflicts, seen, events, t);
    var e := EventFor(txs1, txs2, directConflicts, t);
    if e.Some? {
      ReplaySnoc(start, events, e.value);
    }
  }

  method WalletEvents(tip1: BlockId, tip2: BlockId, txs1: Snapshot, txs2: Snapshot,
                      directConflicts: TxBody -> seq<(nat, Txid)>)
    returns (events: seq<WalletEvent>)
    // replaying the events turns the first snapshot into the second
    ensures Replay(View(tip1, Statuses(txs1)), events) == Some(View(tip2, Statuses(txs2)))
    // each transaction that changed has exactly one event, the one its change calls for
    ensures ReportsChanges(txs1, txs2, directConflicts, events)
    // the tip has an event exactly when it changed, and that comes first
    ensures forall e :: e in events && e.ChainTipChanged? <==> tip1 != tip2 && e == ChainTipChanged(tip1, tip2)
    ensures tip1 != tip2 ==> events != [] && events[0] == ChainTipChanged(tip1, tip2)
  {
    hide Halfway, ListsSeen, ReportsChanges, InProgress, Statuses, Replay;
    events := [];
    if tip1 != tip2 {
      events := events + [ChainTipChanged(tip1, tip2)];
    }
    ghost var start := View(tip1, Statuses(txs1));
    StartsInProgress(tip1, tip2, txs1, txs2, directConflicts, events);
    ghost var seen: set<Txid> := {};
    var pending := txs2.Keys;
    while pending != {}
      invariant pending <= txs2.Keys && seen == txs2.Keys - pending
      invariant InProgress(start, tip2, txs1, txs2, directConflicts, seen, events)
      invariant forall e :: e in events && e.ChainTipChanged? <==> tip1 != tip2 && e == ChainTipChanged(tip1, tip2)
      invariant tip1 != tip2 ==> events != [] && events[0] == ChainTipChanged(tip1, tip2)
    {
      var t :| t in pending;
      Progress(start, tip2, txs1, txs2, directConflicts, seen, events, t);
      var (tx2, pos2) := txs2[t];
      if t in txs1 {
        var (_, pos1) := txs1[t];
        match (pos1, pos2) {
          case (Unconfirmed, Confirmed(anchor)) =>
            events := events + [TxConfirmed(t, tx2, anchor, None)];
          case (Confirmed(anchor), Unconfirmed) =>
            events := events + [TxUnconfirmed(t, tx2, Some(anchor))];
          case (Confirmed(anchor1), Confirmed(anchor2)) =>
            if anchor1 != anchor2 {
              events := events + [TxConfirmed(t, tx2, anchor2, Some(anchor1))];
            }
          case (Unconfirmed, Unconfirmed) =>
        }
      } else {
        match pos2 {
          case Confirmed(anchor) =>
            events := events + [TxConfirmed(t, tx2, anchor, None)];
          case Unconfirmed =>
            events := events + [TxUnconfirmed(t, tx2, None)];
        }
      }
      seen, pending := seen + {t}, pending - {t};
    }
    pending := txs1.Keys - txs2.Keys;
    while pending != {}
      invariant pending <= txs1.Keys - txs2.Keys && seen == txs2.Keys + (txs1.Keys - txs2.Keys - pending)
      invariant InProgress(start, tip2, txs1, txs2, directConflicts, seen, events)
      invariant forall e :: e in events && e.ChainTipChanged? <==> tip1 != tip2 && e == ChainTipChanged(tip1, tip2)
      invariant tip1 != tip2 ==> events != [] && events[0] == ChainTipChanged(tip1, tip2)
    {
      var t :| t in pending;
      Progress(start, tip2, txs1, txs2, directConflicts, seen, events, t);
      var (tx1, _) := txs1[t];
      var conflicts := directConflicts(tx1);
      if conflicts != [] {
        events := events + [TxReplaced(t, tx1, conflicts)];
      } else {
        events := events + [TxDropped(t, tx1)];
      }
      seen, pending := seen + {t}, pending - {t};
    }
    assert seen == txs1.Keys + txs2.Keys;
    AllDone(start, tip2, txs1, txs2, directConflicts, events);
  }

  lemma AllDone(start: View, tip: BlockId, txs1: Snapshot, txs2: Snapshot, directConflicts: TxBody -> seq<(nat, Txid)>,
                events: seq<WalletEvent>)
    requires InProgress(start, tip, txs1, txs2, directConflicts, txs1.Keys + txs2.Keys, events)
    ensures Replay(start, events) == Some(View(tip, Statuses(txs2))) && ReportsChanges(txs1, txs2, directConflicts, events)
  {
    hide ListsSeen, ReportsChanges, Statuses;
    AllSeen(txs1, txs2);
    AllListed(txs1, txs2, directConflicts, events);
  }

  lemma StartsInProgress(tip1: BlockId, tip2: BlockId, txs1: Snapshot, txs2: Snapshot,
                         directConflicts: TxBody -> seq<(nat, Txid)>, events: seq<WalletEvent>)
    requires events == if tip1 != tip2 then [ChainTipChanged(tip1, tip2)] else []
    ensures InProgress(View(tip1, Statuses(txs1)), tip2, txs1, txs2, directConflicts, {}, events)
  {
    hide EventFor, Halfway;
    NothingSeen(txs1, txs2);
    TipEventReplays(View(tip1, Statuses(txs1)), tip2);
    assert ListsSeen(txs1, txs2, directConflicts, {}, events);
  }

  lemma NothingSeen(txs1: Snapshot, txs2: Snapshot)
    ensures Halfway(txs1, txs2, {}) == Statuses(txs1)
  {
  }

  lemma TipEventReplays(v: View, tip: BlockId)
    ensures Replay(v, []) == Some(v)
    ensures v.tip != tip ==> Replay(v, [ChainTipChanged(v.tip, tip)]) == Some(View(tip, v.statuses))
  {
    assert [ChainTipChanged(v.tip, tip)][..0] == [];
  }

  lemma AllSeen(txs1: Snapshot, txs2: Snapshot)
    ensures Halfway(txs1, txs2, txs1.Keys + txs2.Keys) == Statuses(txs2)
  {
  }

  /** No transaction event is produced exactly when no status changed. */
  lemma QuietIff(txs1: Snapshot, txs2: Snapshot, directConflicts: TxBody -> seq<(nat, Txid)>, events: seq<WalletEvent>)
    requires ReportsChanges(txs1, txs2, directConflicts, events)
    ensures (forall e :: e in events ==> e.ChainTipChanged?) <==>
      txs1.Keys == txs2.Keys && forall t :: t in txs1 ==> txs1[t].1 == txs2[t].1
  {
    if forall e :: e in events ==> e.ChainTipChanged? {
      forall t | t in txs2 ensures t in txs1 && txs1[t].1 == txs2[t].1 {
        QuietKeeps(txs1, txs2, directConflicts, events, t);
      }
      forall t | t in txs1 ensures t in txs2 {
        var tx := txs1[t].0;
        assert TxReplaced(t, tx, directConflicts(tx)) !in events && TxDropped(t, tx) !in events;
      }
    } else {
      var e :| e in events && !e.ChainTipChanged?;
      match e
      case TxConfirmed(t, tx, blockTime, was) =>
      case TxUnconfirmed(t, tx, was) =>
      case TxReplaced(t, tx, conflicts) =>
      case TxDropped(t, tx) =>
    }
  }

  lemma QuietKeeps(txs1: Snapshot, txs2: Snapshot, directConflicts: TxBody -> seq<(nat, Txid)>, events: seq<WalletEvent>, t: Txid)
    requires ReportsChanges(txs1, txs2, directConflicts, events) && (forall e :: e in events ==> e.ChainTipChanged?) && t in txs2
    ensures t in txs1 && txs1[t].1 == txs2[t].1
  {
    var (tx, now) := txs2[t];
    var was := if t in txs1 && txs1[t].1.Confirmed? then Some(txs1[t].1.anchor) else None;
    match now
    case Confirmed(anchor) => assert TxConfirmed(t, tx, anchor, was) !in events;
    case Unconfirmed => assert TxUnconfirmed(t, tx, was) !in events;
  }

  // ---------------------------------------------------------------- runs

  function Concat(lists: seq<seq<WalletEvent>>): seq<WalletEvent> {
    if lists == [] then [] else Concat(lists[..|lists| - 1]) + lists[|lists| - 1]
  }

  /** Over a run of updates, replaying all events in order follows the wallet from its first to its last view. */
  lemma {:induction false} ReplayRun(views: seq<View>, lists: seq<seq<WalletEvent>>)
    requires |views| == |lists| + 1
    requires forall i :: 0 <= i < |lists| ==> Replay(views[i], lists[i]) == Some(views[i + 1])
    ensures Replay(views[0], Concat(lists)) == Some(views[|lists|])
  {
    if lists != [] {
      var k := |lists| - 1;
      ReplayRun(views[..k + 1], lists[..k]);
      ReplayAppend(views[0], Concat(lists[..k]), lists[k]);
    }
  }

  /** A wallet reduced to what the event helper looks at. */
  class TrackedWallet {
    var tip: BlockId
    var txs: Snapshot

    ghost function Current(): View
      reads this
    {
      View(tip, Statuses(txs))
    }

    constructor (tip: BlockId, txs: Snapshot)
      ensures this.tip == tip && this.txs == txs
    {
      this.tip, this.txs := tip, txs;
    }

    /** The update given to the helper: it may fail, having changed anything. */
    method Update(newTip: BlockId, newTxs: Snapshot, fails: bool) returns (r: Result<(), nat>)
      modifies this
      ensures tip == newTip && txs == newTxs && r.Err? == fails
    {
      tip, txs := newTip, newTxs;
      return if fails then Err(0) else Ok(());
    }

    method EventsHelper(newTip: BlockId, newTxs: Snapshot, fails: bool, directConflicts: TxBody -> seq<(nat, Txid)>)
      returns (r: Result<seq<WalletEvent>, nat>)
      modifies this
      ensures r.Err? == fails && Current() == View(newTip, Statuses(newTxs))
      ensures r.Ok? ==> Replay(old(Current()), r.value) == Some(Current())
      ensures r.Ok? ==> ReportsChanges(old(txs), txs, directConflicts, r.value)
    {
      var tip1, txs1 := tip, txs;
      var updated := Update(newTip, newTxs, fails);
      if updated.Err? {
        return Err(updated.error);
      }
      var events := WalletEvents(tip1, tip, txs1, txs, directConflicts);
      return Ok(events);
    }
  }
}
