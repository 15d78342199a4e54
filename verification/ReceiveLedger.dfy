/**
 The durable, index-ordered delivery ledger (crates/bb-archipelago/src/ledger.rs).

 `Slot` is one slot's ledger as a value.  Every operation of the source is a
 function on `Slot`, and a method of the class `SlotLedger` that changes the
 fields in place and is proved equal to that function.  The invariants are
 proved about the functions, so they hold of every sequence of method calls.
 */
module ReceiveLedger {
  import opened Wrappers
  import opened Parks
  import EquipFeed

  datatype PendingItem = PendingItem(
    index: nat,
    apItemId: int,
    rawDescriptor: nat,
    normalizedItemId: nat,
    itemCategory: nat,
    quantity: nat,
    upgradeTargetLevel: Option<nat>,
    reinforcementLevel: Option<nat>,
    equipTarget: Option<EquipFeed.EquipTarget>,
    grantComplete: bool,
    equipComplete: bool,
    tokenRoutedToStorage: bool,
    observedBefore: Option<nat>)

  datatype AcknowledgedItem = AcknowledgedItem(
    apItemId: int,
    rawDescriptor: nat,
    normalizedItemId: nat,
    itemCategory: nat,
    quantity: nat,
    reinforcementLevel: Option<nat>,
    equipTarget: Option<EquipFeed.EquipTarget>,
    blocked: Option<string>)

  datatype Slot = Slot(
    highest: Option<nat>,
    acknowledged: map<nat, AcknowledgedItem>,
    pending: Option<PendingItem>,
    saveWatermark: Option<nat>,
    redeliver: set<nat>,
    deferredVialAp: set<nat>)

  const EMPTY_SLOT: Slot := Slot(None, map[], None, None, {}, {})

  datatype LedgerError =
    | OutOfOrder
    | PlanChanged
    | NoPlan
    | IndexChanged
    | AlreadyGranted
    | NotUpward
    | NotGranted
    | NotEquipped
    | MissingDetail
    | NoEntry
    | NotParked
    | DeliveryPending

  datatype WatermarkOutcome = Resume | Reissue | AdoptSaveCursor | Hold

  // ------------------------------------------------------------------- order

  lemma LeastExists(s: set<nat>)
    requires s != {}
    ensures exists m :: m in s && forall k :: k in s ==> m <= k
  {
    var x: nat :| x in s;
    LeastUpto(s, x);
  }

  lemma {:induction false} LeastUpto(s: set<nat>, x: nat)
    requires x in s
    ensures exists m :: m in s && forall k :: k in s ==> m <= k
    decreases x
  {
    if y :| y in s && y < x {
      LeastUpto(s, y);
    } else {
      assert forall k :: k in s ==> x <= k;
    }
  }

  function Least(s: set<nat>): (m: nat)
    requires s != {}
    ensures m in s && forall k :: k in s ==> m <= k
  {
    LeastExists(s);
    var m :| m in s && forall k :: k in s ==> m <= k;
    m
  }

  /** One past the cursor: the number of indices the cursor covers. */
  function Frontier(s: Slot): nat {
    match s.highest
    case None => 0
    case Some(h) => h + 1
  }

  function NextIndex(s: Slot): nat {
    if s.redeliver != {} then Least(s.redeliver) else Frontier(s)
  }

  function AdvanceCursor(s: Slot, index: nat): Slot {
    s.(redeliver := s.redeliver - {index},
       highest := Some(if s.highest.None? then index else Max(s.highest.value, index)))
  }

  // -------------------------------------------------------------- operations

  function Begin(s: Slot, p: PendingItem): Result<Slot, LedgerError> {
    if p.index != NextIndex(s) then Err(OutOfOrder)
    else match s.pending
      case None => Ok(s.(pending := Some(p)))
      case Some(existing) =>
        if existing == p.(observedBefore := existing.observedBefore) then Ok(s) else Err(PlanChanged)
  }

  function RaisePendingUpgrade(s: Slot, target: Option<nat>, raw: nat, normalized: nat, level: nat): Result<Slot, LedgerError> {
    match s.pending
    case None => Err(NoPlan)
    case Some(p) =>
      if p.grantComplete then Err(AlreadyGranted)
      else if p.reinforcementLevel.Some? && level <= p.reinforcementLevel.value then Err(NotUpward)
      else Ok(s.(pending := Some(p.(upgradeTargetLevel := target, rawDescriptor := raw,
                                    normalizedItemId := normalized, reinforcementLevel := Some(level)))))
  }

  function RecordObservedBefore(s: Slot, observed: nat): Result<Slot, LedgerError> {
    match s.pending
    case None => Err(NoPlan)
    case Some(p) => Ok(s.(pending := Some(p.(observedBefore := Some(observed)))))
  }

  function ClearObservedBefore(s: Slot): Slot {
    match s.pending
    case None => s
    case Some(p) => s.(pending := Some(p.(observedBefore := None)))
  }

  function MarkGrantComplete(s: Slot): Result<Slot, LedgerError> {
    match s.pending
    case None => Err(NoPlan)
    case Some(p) => Ok(s.(pending := Some(p.(grantComplete := true))))
  }

  function MarkTokenRoutedToStorage(s: Slot): Result<Slot, LedgerError> {
    match s.pending
    case None => Err(NoPlan)
    case Some(p) => Ok(s.(pending := Some(p.(tokenRoutedToStorage := true))))
  }

  function MarkEquipComplete(s: Slot): Result<Slot, LedgerError> {
    match s.pending
    case None => Err(NoPlan)
    case Some(p) => if !p.grantComplete then Err(NotGranted) else Ok(s.(pending := Some(p.(equipComplete := true))))
  }

  function Retire(s: Slot, index: nat, item: AcknowledgedItem): Slot {
    AdvanceCursor(s.(acknowledged := s.acknowledged[index := item], pending := None), index)
  }

  function AcknowledgeBlocked(s: Slot, index: nat, item: AcknowledgedItem): Result<Slot, LedgerError> {
    if item.blocked.None? then Err(MissingDetail)
    else if index != NextIndex(s) then Err(OutOfOrder)
    else if s.pending.None? then Err(NoPlan)
    else if s.pending.value.index != index then Err(IndexChanged)
    else Ok(Retire(s, index, item))
  }

  function Acknowledge(s: Slot, index: nat, item: AcknowledgedItem): Result<Slot, LedgerError> {
    if index != NextIndex(s) then Err(OutOfOrder)
    else if s.pending.None? then Err(NoPlan)
    else if s.pending.value.index != index then Err(IndexChanged)
    else if !s.pending.value.grantComplete then Err(NotGranted)
    else if s.pending.value.equipTarget.Some? && !s.pending.value.equipComplete then Err(NotEquipped)
    else Ok(Retire(s, index, item))
  }

  function Requeue(s: Slot, indices: set<nat>): Slot {
    s.(acknowledged := s.acknowledged - indices, redeliver := s.redeliver + indices)
  }

  function FixedCauseParks(s: Slot): set<nat> {
    set i | i in s.acknowledged && s.acknowledged[i].blocked.Some? && CauseIsFixed(s.acknowledged[i].blocked.value)
  }

  function CompatibleParks(s: Slot, compatible: set<int>): set<nat> {
    set i | i in s.acknowledged && s.acknowledged[i].blocked.Some?
            && CauseIsCompatibility(s.acknowledged[i].blocked.value) && s.acknowledged[i].apItemId in compatible
  }

  /** A durable plan defers the whole batch. */
  function RequeueUnlessPending(s: Slot, indices: set<nat>): Slot {
    if s.pending.Some? then s else Requeue(s, indices)
  }

  function RequeueBlocked(s: Slot, index: nat): Result<Slot, LedgerError> {
    if index !in s.acknowledged then Err(NoEntry)
    else if s.acknowledged[index].blocked.None? then Err(NotParked)
    else if s.pending.Some? then Err(DeliveryPending)
    else Ok(Requeue(s, {index}).(deferredVialAp := s.deferredVialAp - {index}))
  }

  function ReissuePending(s: Slot, index: nat): Result<Slot, LedgerError> {
    if s.pending.None? then Err(NoPlan)
    else if s.pending.value.index != index then Err(IndexChanged)
    else if !s.pending.value.grantComplete then Err(NotGranted)
    else Ok(s.(pending := None, redeliver := s.redeliver + {index}))
  }

  function Unblock(s: Slot, index: nat): Result<Slot, LedgerError> {
    if index !in s.acknowledged then Err(NoEntry)
    else if s.acknowledged[index].blocked.None? then Err(NotParked)
    else Ok(s.(acknowledged := s.acknowledged[index := s.acknowledged[index].(blocked := None)]))
  }

  function RewindTo(s: Slot, firstMissing: nat): Slot {
    s.(acknowledged := (map i | i in s.acknowledged && i < firstMissing :: s.acknowledged[i]),
       redeliver := (set i | i in s.redeliver && i < firstMissing),
       highest := if firstMissing == 0 then None else Some(firstMissing - 1),
       pending := None)
  }

  function WatermarkVerdict(s: Slot, observed: Option<nat>): WatermarkOutcome {
    match observed
    case None => if s.saveWatermark.Some? then Hold else Resume
    case Some(w) =>
      if s.highest == Some(w) then Resume
      else if s.highest.None? || w > s.highest.value then AdoptSaveCursor
      else Reissue
  }

  function Reconcile(s: Slot, observed: Option<nat>): Slot {
    if observed.None? then s
    else
      var w := observed.value;
      match WatermarkVerdict(s, observed)
      case Resume => s.(saveWatermark := Some(w))
      case AdoptSaveCursor => s.(highest := Some(w), pending := None, saveWatermark := Some(w))
      case Reissue => RewindTo(s, w + 1).(saveWatermark := Some(w))
      case Hold => s
  }

  // -------------------------------------------------------------- invariants

  predicate Below(i: nat, n: nat) {
    i < n
  }

  /** The indices 0, 1, ..., n - 1. */
  function Upto(n: nat): set<nat> {
    set i: nat | 0 <= i < n && Below(i, n)
  }

  /** The indices the cursor covers. */
  function Covered(s: Slot): set<nat> {
    Upto(Frontier(s))
  }

  /** The indices below the frontier that are neither acknowledged nor queued
      again: the ones the ledger gave up on when it adopted a save cursor. */
  function Skipped(s: Slot): set<nat> {
    Covered(s) - s.acknowledged.Keys - s.redeliver
  }

  /**
   Nothing is held twice, nothing is acknowledged ahead of the cursor, the
   redelivery queue reaches at most one past the cursor, and a durable plan is
   always the plan for the head of the queue.
   */
  ghost predicate Valid(s: Slot) {
    && s.acknowledged.Keys !! s.redeliver
    && (forall i :: i in s.acknowledged ==> i < Frontier(s))
    && (forall i :: i in s.redeliver ==> i <= Frontier(s))
    && (s.pending.Some? ==> s.pending.value.index == NextIndex(s))
  }

  /** Index `i` is still owed a delivery. */
  predicate Due(s: Slot, i: nat) {
    i in s.redeliver || Frontier(s) <= i
  }

  lemma NextIndexIsLeastDue(s: Slot)
    requires Valid(s)
    ensures Due(s, NextIndex(s)) && NextIndex(s) !in s.acknowledged
    ensures forall i :: Due(s, i) ==> NextIndex(s) <= i
  {
    if s.redeliver != {} {
      var m := Least(s.redeliver);
    }
  }

  // --------------------------------------------------------- one operation

  datatype LedgerOp =
    | OpBegin(plan: PendingItem)
    | OpRaise(target: Option<nat>, raw: nat, normalized: nat, level: nat)
    | OpRecord(observed: nat)
    | OpClear
    | OpGranted
    | OpRouted
    | OpEquipped
    | OpAcknowledge(index: nat, item: AcknowledgedItem)
    | OpAcknowledgeBlocked(index: nat, item: AcknowledgedItem)
    | OpRequeueFixed
    | OpRequeueCompatible(compatible: set<int>)
    | OpRequeueBlocked(index: nat)
    | OpReissue(index: nat)
    | OpUnblock(index: nat)
    | OpAttest(firstMissing: nat)
    | OpReconcile(observedMark: Option<nat>)
    | OpNoteWatermark(index: nat)
    | OpDefer(index: nat)

  function OrUnchanged(s: Slot, r: Result<Slot, LedgerError>): Slot {
    match r
    case Ok(s') => s'
    case Err(_) => s
  }

  /** A refused operation leaves the ledger as it was. */
  function Apply(s: Slot, op: LedgerOp): Slot {
    match op
    case OpBegin(p) => OrUnchanged(s, Begin(s, p))
    case OpRaise(t, raw, normalized, level) => OrUnchanged(s, RaisePendingUpgrade(s, t, raw, normalized, level))
    case OpRecord(q) => OrUnchanged(s, RecordObservedBefore(s, q))
    case OpClear => ClearObservedBefore(s)
    case OpGranted => OrUnchanged(s, MarkGrantComplete(s))
    case OpRouted => OrUnchanged(s, MarkTokenRoutedToStorage(s))
    case OpEquipped => OrUnchanged(s, MarkEquipComplete(s))
    case OpAcknowledge(i, item) => OrUnchanged(s, Acknowledge(s, i, item))
    case OpAcknowledgeBlocked(i, item) => OrUnchanged(s, AcknowledgeBlocked(s, i, item))
    case OpRequeueFixed => RequeueUnlessPending(s, FixedCauseParks(s))
    case OpRequeueCompatible(ids) => RequeueUnlessPending(s, CompatibleParks(s, ids))
    case OpRequeueBlocked(i) => OrUnchanged(s, RequeueBlocked(s, i))
    case OpReissue(i) => OrUnchanged(s, ReissuePending(s, i))
    case OpUnblock(i) => OrUnchanged(s, Unblock(s, i))
    case OpAttest(k) => RewindTo(s, k)
    case OpReconcile(observed) => Reconcile(s, observed)
    case OpNoteWatermark(i) => s.(saveWatermark := Some(i))
    case OpDefer(i) => s.(deferredVialAp := s.deferredVialAp + {i})
  }

  lemma RetireKeepsValid(s: Slot, index: nat, item: AcknowledgedItem)
    requires Valid(s) && index == NextIndex(s)
    ensures Valid(Retire(s, index, item))
    ensures Frontier(Retire(s, index, item)) == Max(Frontier(s), index + 1)
    ensures Skipped(Retire(s, index, item)) == Skipped(s)
  {
    NextIndexIsLeastDue(s);
    var s' := Retire(s, index, item);
    assert Frontier(s') == Max(Frontier(s), index + 1);
    forall i | 0 <= i < Frontier(s')
      ensures i in Skipped(s') <==> i in Skipped(s)
    {
    }
  }

  lemma RequeueKeepsValid(s: Slot, indices: set<nat>)
    requires Valid(s) && s.pending.None? && indices <= s.acknowledged.Keys
    ensures Valid(Requeue(s, indices))
    ensures Skipped(Requeue(s, indices)) == Skipped(s)
  {
  }

  /** Head of queue and durable plan agree after every operation, refused ones
      included, and nothing is held twice. */
  lemma ApplyKeepsValid(s: Slot, op: LedgerOp)
    requires Valid(s)
    ensures Valid(Apply(s, op))
  {
    match op {
      case OpAcknowledge(i, item) =>
        if Acknowledge(s, i, item).Ok? { RetireKeepsValid(s, i, item); }
      case OpAcknowledgeBlocked(i, item) =>
        if AcknowledgeBlocked(s, i, item).Ok? { RetireKeepsValid(s, i, item); }
      case OpRequeueFixed =>
        if s.pending.None? { RequeueKeepsValid(s, FixedCauseParks(s)); }
      case OpRequeueCompatible(ids) =>
        if s.pending.None? { RequeueKeepsValid(s, CompatibleParks(s, ids)); }
      case OpRequeueBlocked(i) =>
        if RequeueBlocked(s, i).Ok? { RequeueKeepsValid(s, {i}); }
      case OpReissue(i) =>
        NextIndexIsLeastDue(s);
      case _ =>
    }
  }
}
