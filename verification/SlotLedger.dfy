/**
 `SlotLedger`, the ledger as the object the client mutates
 (crates/bb-archipelago/src/ledger.rs:381-849).  Every method states its whole
 new state as the function of the old one that `ReceiveLedger` defines.
 */
module SlotLedgers {
  import opened Wrappers
  import opened Parks
  import opened ReceiveLedger

  function Verdict(r: Result<Slot, LedgerError>): Result<(), LedgerError> {
    match r
    case Ok(_) => Ok(())
    case Err(e) => Err(e)
  }

  datatype FixedCauseRequeue = FixedCauseRequeue(requeued: set<nat>, deferred: set<nat>)

  class SlotLedger {
    var highest: Option<nat>
    var acknowledged: map<nat, AcknowledgedItem>
    var pending: Option<PendingItem>
    var saveWatermark: Option<nat>
    var redeliver: set<nat>
    var deferredVialAp: set<nat>

    /** The ledger as a value: what a save writes and a load restores. */
    function State(): Slot
      reads this
    {
      Slot(highest, acknowledged, pending, saveWatermark, redeliver, deferredVialAp)
    }

    constructor (s: Slot)
      ensures State() == s
    {
      highest, acknowledged, pending := s.highest, s.acknowledged, s.pending;
      saveWatermark, redeliver, deferredVialAp := s.saveWatermark, s.redeliver, s.deferredVialAp;
    }

    method Load(s: Slot)
      modifies this
      ensures State() == s
    {
      highest, acknowledged, pending := s.highest, s.acknowledged, s.pending;
      saveWatermark, redeliver, deferredVialAp := s.saveWatermark, s.redeliver, s.deferredVialAp;
    }

    method NextDue() returns (index: nat)
      ensures index == NextIndex(State())
      ensures ReceiveLedger.Valid(State()) ==>
        Due(State(), index) && index !in acknowledged && forall i :: Due(State(), i) ==> index <= i
    {
      if redeliver != {} {
        index := Least(redeliver);
      } else if highest.Some? {
        index := highest.value + 1;
      } else {
        index := 0;
      }
      if ReceiveLedger.Valid(State()) {
        NextIndexIsLeastDue(State());
      }
    }

    method Begin(plan: PendingItem) returns (r: Result<(), LedgerError>)
      modifies this
      ensures State() == Apply(old(State()), OpBegin(plan))
      ensures r == Verdict(ReceiveLedger.Begin(old(State()), plan))
    {
      var next := NextDue();
      if plan.index != next {
        return Err(OutOfOrder);
      }
      if pending.Some? {
        var candidate := plan.(observedBefore := pending.value.observedBefore);
        if pending.value != candidate {
          return Err(PlanChanged);
        }
        return Ok(());
      }
      pending := Some(plan);
      return Ok(());
    }

    method RaisePendingUpgrade(target: Option<nat>, raw: nat, normalized: nat, level: nat)
      returns (r: Result<(), LedgerError>)
      modifies this
      ensures State() == Apply(old(State()), OpRaise(target, raw, normalized, level))
      ensures r == Verdict(ReceiveLedger.RaisePendingUpgrade(old(State()), target, raw, normalized, level))
    {
      if pending.None? {
        return Err(NoPlan);
      }
      var plan := pending.value;
      if plan.grantComplete {
        return Err(AlreadyGranted);
      }
      if plan.reinforcementLevel.Some? && level <= plan.reinforcementLevel.value {
        return Err(NotUpward);
      }
      plan := plan.(upgradeTargetLevel := target);
      plan := plan.(rawDescriptor := raw);
      plan := plan.(normalizedItemId := normalized);
      plan := plan.(reinforcementLevel := Some(level));
      pending := Some(plan);
      return Ok(());
    }

    method RecordObservedBefore(observed: nat) returns (r: Result<(), LedgerError>)
      modifies this
      ensures State() == Apply(old(State()), OpRecord(observed))
      ensures r == Verdict(ReceiveLedger.RecordObservedBefore(old(State()), observed))
    {
      if pending.None? {
        return Err(NoPlan);
      }
      pending := Some(pending.value.(observedBefore := Some(observed)));
      return Ok(());
    }

    /** Answers whether there was a baseline to forget. */
    method ClearObservedBefore() returns (had: bool)
      modifies this
      ensures State() == Apply(old(State()), OpClear)
      ensures had == (old(pending).Some? && old(pending).value.observedBefore.Some?)
    {
      if pending.None? {
        return false;
      }
      had := pending.value.observedBefore.Some?;
      pending := Some(pending.value.(observedBefore := None));
    }

    method MarkGrantComplete() returns (r: Result<(), LedgerError>)
      modifies this
      ensures State() == Apply(old(State()), OpGranted)
      ensures r == Verdict(ReceiveLedger.MarkGrantComplete(old(State())))
    {
      if pending.None? {
        return Err(NoPlan);
      }
      pending := Some(pending.value.(grantComplete := true));
      return Ok(());
    }

    method MarkTokenRoutedToStorage() returns (r: Result<(), LedgerError>)
      modifies this
      ensures State() == Apply(old(State()), OpRouted)
      ensures r == Verdict(ReceiveLedger.MarkTokenRoutedToStorage(old(State())))
    {
      if pending.None? {
        return Err(NoPlan);
      }
      pending := Some(pending.value.(tokenRoutedToStorage := true));
      return Ok(());
    }

    method MarkEquipComplete() returns (r: Result<(), LedgerError>)
      modifies this
      ensures State() == Apply(old(State()), OpEquipped)
      ensures r == Verdict(ReceiveLedger.MarkEquipComplete(old(State())))
    {
      if pending.None? {
        return Err(NoPlan);
      }
      if !pending.value.grantComplete {
        return Err(NotGranted);
      }
      pending := Some(pending.value.(equipComplete := true));
      return Ok(());
    }

    method AdvanceCursor(index: nat)
      modifies this
      ensures State() == ReceiveLedger.AdvanceCursor(old(State()), index)
    {
      redeliver := redeliver - {index};
      highest := Some(if highest.None? then index else Max(highest.value, index));
    }

    method AcknowledgeBlocked(index: nat, item: AcknowledgedItem) returns (r: Result<(), LedgerError>)
      modifies this
      ensures State() == Apply(old(State()), OpAcknowledgeBlocked(index, item))
      ensures r == Verdict(ReceiveLedger.AcknowledgeBlocked(old(State()), index, item))
    {
      var next := NextDue();
      if item.blocked.None? {
        return Err(MissingDetail);
      }
      if index != next {
        return Err(OutOfOrder);
      }
      if pending.None? {
        return Err(NoPlan);
      }
      if pending.value.index != index {
        return Err(IndexChanged);
      }
      acknowledged := acknowledged[index := item];
      AdvanceCursor(index);
      pending := None;
      return Ok(());
    }

    method Acknowledge(index: nat, item: AcknowledgedItem) returns (r: Result<(), LedgerError>)
      modifies this
      ensures State() == Apply(old(State()), OpAcknowledge(index, item))
      ensures r == Verdict(ReceiveLedger.Acknowledge(old(State()), index, item))
    {
      var next := NextDue();
      if index != next {
        return Err(OutOfOrder);
      }
      if pending.None? {
        return Err(NoPlan);
      }
      if pending.value.index != index {
        return Err(IndexChanged);
      }
      if !pending.value.grantComplete {
        return Err(NotGranted);
      }
      if pending.value.equipTarget.Some? && !pending.value.equipComplete {
        return Err(NotEquipped);
      }
      acknowledged := acknowledged[index := item];
      AdvanceCursor(index);
      pending := None;
      return Ok(());
    }

    /** Moves a batch of parks back into the queue one at a time. */
    method RequeueAll(indices: set<nat>)
      modifies this
      ensures State() == Requeue(old(State()), indices)
    {
      var left := indices;
      while left != {}
        invariant left <= indices
        invariant State() == Requeue(old(State()), indices - left)
        decreases left
      {
        var i := Least(left);
        acknowledged := acknowledged - {i};
        redeliver := redeliver + {i};
        left := left - {i};
        assert indices - left == (indices - (left + {i})) + {i};
      }
      assert indices - left == indices;
    }

    method RequeueFixedCauseParks() returns (outcome: FixedCauseRequeue)
      modifies this
      ensures State() == Apply(old(State()), OpRequeueFixed)
      ensures outcome == if old(pending).Some? then FixedCauseRequeue({}, FixedCauseParks(old(State())))
                         else FixedCauseRequeue(FixedCauseParks(old(State())), {})
    {
      var indices := FixedCauseParks(State());
      if pending.Some? {
        return FixedCauseRequeue({}, indices);
      }
      RequeueAll(indices);
      return FixedCauseRequeue(indices, {});
    }

    method RequeueNowCompatibleParks(compatible: set<int>) returns (outcome: FixedCauseRequeue)
      modifies this
      ensures State() == Apply(old(State()), OpRequeueCompatible(compatible))
      ensures outcome == if old(pending).Some? then FixedCauseRequeue({}, CompatibleParks(old(State()), compatible))
                         else FixedCauseRequeue(CompatibleParks(old(State()), compatible), {})
    {
      var indices := CompatibleParks(State(), compatible);
      if pending.Some? {
        return FixedCauseRequeue({}, indices);
      }
      RequeueAll(indices);
      return FixedCauseRequeue(indices, {});
    }

    method RequeueBlocked(index: nat) returns (r: Result<(), LedgerError>)
      modifies this
      ensures State() == Apply(old(State()), OpRequeueBlocked(index))
      ensures r == Verdict(ReceiveLedger.RequeueBlocked(old(State()), index))
    {
      if index !in acknowledged {
        return Err(NoEntry);
      }
      if acknowledged[index].blocked.None? {
        return Err(NotParked);
      }
      if pending.Some? {
        return Err(DeliveryPending);
      }
      acknowledged := acknowledged - {index};
      deferredVialAp := deferredVialAp - {index};
      redeliver := redeliver + {index};
      return Ok(());
    }

    method ReissuePending(index: nat) returns (r: Result<(), LedgerError>)
      modifies this
      ensures State() == Apply(old(State()), OpReissue(index))
      ensures r == Verdict(ReceiveLedger.ReissuePending(old(State()), index))
    {
      if pending.None? {
        return Err(NoPlan);
      }
      if pending.value.index != index {
        return Err(IndexChanged);
      }
      if !pending.value.grantComplete {
        return Err(NotGranted);
      }
      pending := None;
      redeliver := redeliver + {index};
      return Ok(());
    }

    method Unblock(index: nat) returns (r: Result<string, LedgerError>)
      modifies this
      ensures State() == Apply(old(State()), OpUnblock(index))
      ensures r == match ReceiveLedger.Unblock(old(State()), index)
                   case Ok(_) => Ok(old(acknowledged)[index].blocked.value)
                   case Err(e) => Err(e)
    {
      if index !in acknowledged {
        return Err(NoEntry);
      }
      var item := acknowledged[index];
      if item.blocked.None? {
        return Err(NotParked);
      }
      acknowledged := acknowledged[index := item.(blocked := None)];
      return Ok(item.blocked.value);
    }

    /** Keeping the entries below an index drops the others. */
    static lemma KeptAndDropped<V>(entries: map<nat, V>, firstMissing: nat)
      ensures |entries| - |map i | i in entries && i < firstMissing :: entries[i]| == |set i | i in entries && firstMissing <= i|
    {
      var kept := map i | i in entries && i < firstMissing :: entries[i];
      var dropped := set i | i in entries && firstMissing <= i;
      assert kept.Keys !! dropped && kept.Keys + dropped == entries.Keys;
      assert |kept.Keys| == |kept| && |entries.Keys| == |entries|;
    }

    /** Answers how many acknowledged entries the rewind dropped. */
    method RewindTo(firstMissing: nat) returns (rewound: nat)
      modifies this
      ensures State() == Apply(old(State()), OpAttest(firstMissing))
      ensures rewound == |set i | i in old(acknowledged) && firstMissing <= i|
    {
      var before := |acknowledged|;
      KeptAndDropped(acknowledged, firstMissing);
      acknowledged := map i | i in acknowledged && i < firstMissing :: acknowledged[i];
      redeliver := set i | i in redeliver && i < firstMissing;
      highest := if firstMissing == 0 then None else Some(firstMissing - 1);
      pending := None;
      rewound := before - |acknowledged|;
    }

    method ReconcileSaveWatermark(observed: Option<nat>) returns (outcome: WatermarkOutcome)
      modifies this
      ensures State() == Apply(old(State()), OpReconcile(observed))
      ensures outcome == WatermarkVerdict(old(State()), observed)
    {
      var recorded := saveWatermark;
      if observed.None? {
        return if recorded.Some? then Hold else Resume;
      }
      var watermark := observed.value;
      var cursor := highest;
      if cursor == Some(watermark) {
        saveWatermark := Some(watermark);
        return Resume;
      }
      if cursor.None? || watermark > cursor.value {
        highest := Some(watermark);
        pending := None;
        saveWatermark := Some(watermark);
        return AdoptSaveCursor;
      }
      var _ := RewindTo(watermark + 1);
      saveWatermark := Some(watermark);
      return Reissue;
    }
  }
}
