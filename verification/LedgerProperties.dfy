/** Properties of the receive ledger over one operation and over whole runs. */
module LedgerProperties {
  import opened Wrappers
  import opened Parks
  import opened ReceiveLedger

  // ------------------------------------------------------------ nothing lost

  /** How far the cursor may be moved without passing over an index that was
      never handled: the frontier, or one more when the frontier itself is
      already queued again. */
  function SafeReach(s: Slot): nat {
    Frontier(s) + if Frontier(s) in s.redeliver then 1 else 0
  }

  /** The operations that move the cursor over unhandled indices: an attested
      restore to beyond the stream so far, or a save cursor that is ahead. */
  predicate Jumps(s: Slot, op: LedgerOp) {
    match op
    case OpAttest(k) => k > SafeReach(s)
    case OpReconcile(observed) => observed.Some? && observed.value + 1 > SafeReach(s)
    case _ => false
  }

  lemma MovingTheCursorSkips(s: Slot, s': Slot)
    requires Valid(s) && Frontier(s) <= Frontier(s')
    requires s'.acknowledged == s.acknowledged && s'.redeliver == s.redeliver
    ensures Skipped(s') == Skipped(s) + (Upto(Frontier(s')) - Upto(Frontier(s)) - s.redeliver)
    ensures Skipped(s') <= Skipped(s) <==> Frontier(s') <= SafeReach(s)
  {
    var f := Frontier(s);
    if Frontier(s') > SafeReach(s) {
      var missed := SafeReach(s);
      assert missed in Skipped(s') && missed !in Skipped(s);
    }
  }

  lemma RewindNeverSkips(s: Slot, k: nat)
    requires Valid(s) && k <= Frontier(s)
    ensures Skipped(RewindTo(s, k)) == Skipped(s) * Upto(k)
  {
    var s' := RewindTo(s, k);
    assert Frontier(s') == k;
  }

  lemma RewindBeyondTheFrontier(s: Slot, k: nat)
    requires Valid(s) && k > Frontier(s)
    ensures RewindTo(s, k).acknowledged == s.acknowledged && RewindTo(s, k).redeliver == s.redeliver
    ensures Frontier(RewindTo(s, k)) == k
  {
  }

  /** An operation gives up on an index it had not given up on before exactly
      when it jumps. */
  lemma OnlyJumpsLoseIndices(s: Slot, op: LedgerOp)
    requires Valid(s)
    ensures Skipped(Apply(s, op)) <= Skipped(s) <==> !Jumps(s, op)
  {
    match op {
      case OpAcknowledge(i, item) =>
        if Acknowledge(s, i, item).Ok? { RetireKeepsValid(s, i, item); }
      case OpAcknowledgeBlocked(i, item) =>
        if AcknowledgeBlocked(s, i, item).Ok? { RetireKeepsValid(s, i, item); }
      case OpRequeueFixed =>
        if s.pending.None? { RequeueKeepsValid(s, FixedCauseParks(s)); }
      case OpRequeueCompatible(ids) =>
        if s.pending.None? { RequeueKeepsValid(s, CompatibleParks(s, ids)); }
      case OpRequeueBlocked(i) =>
        if RequeueBlocked(s, i).Ok? { RequeueKeepsValid(s, {i}); }
      case OpAttest(k) =>
        if k <= Frontier(s) {
          RewindNeverSkips(s, k);
        } else {
          RewindBeyondTheFrontier(s, k);
          MovingTheCursorSkips(s, RewindTo(s, k));
        }
      case OpReconcile(observed) =>
        match WatermarkVerdict(s, observed) {
          case AdoptSaveCursor => MovingTheCursorSkips(s, Reconcile(s, observed));
          case Reissue => RewindNeverSkips(s, observed.value + 1);
          case _ =>
        }
      case _ =>
    }
  }

  /** The operations that may take an acknowledgement back. */
  predicate Rewinds(s: Slot, op: LedgerOp) {
    op.OpAttest? || (op.OpReconcile? && WatermarkVerdict(s, op.observedMark) == Reissue)
  }

  /** An index acknowledged without a park stays acknowledged, with the same
      record, and is never the head of the queue again, unless by a rewind. */
  lemma DeliveredIndexIsNeverNextAgain(s: Slot, op: LedgerOp, i: nat)
    requires Valid(s) && !Rewinds(s, op)
    requires i in s.acknowledged && s.acknowledged[i].blocked.None?
    ensures var s' := Apply(s, op);
            i in s'.acknowledged && s'.acknowledged[i] == s.acknowledged[i] && NextIndex(s') != i
  {
    NextIndexIsLeastDue(s);
    ApplyKeepsValid(s, op);
    NextIndexIsLeastDue(Apply(s, op));
  }

  // -------------------------------------------------------------------- runs

  function Run(s: Slot, ops: seq<LedgerOp>): Slot
    decreases |ops|
  {
    if ops == [] then s else Run(Apply(s, ops[0]), ops[1..])
  }

  /** The indices a run's jumps passed over. */
  function Gaps(s: Slot, ops: seq<LedgerOp>): set<nat>
    decreases |ops|
  {
    if ops == [] then {}
    else
      var s' := Apply(s, ops[0]);
      (if Jumps(s, ops[0]) then Upto(Frontier(s')) - Upto(Frontier(s)) - s.redeliver else {}) + Gaps(s', ops[1..])
  }

  /** In every reachable ledger the plan is the plan for the queue head, the
      covered indices are acknowledged, queued again or skipped and never two
      of these, and the skipped ones all come from an adopted or attested
      cursor that jumped. */
  lemma {:induction false} NoIndexLostOrHeldTwice(s: Slot, ops: seq<LedgerOp>)
    requires Valid(s)
    ensures Valid(Run(s, ops))
    ensures Skipped(Run(s, ops)) <= Skipped(s) + Gaps(s, ops)
    decreases |ops|
  {
    if ops != [] {
      ApplyKeepsValid(s, ops[0]);
      SkipsStayInGap(s, ops[0]);
      NoIndexLostOrHeldTwice(Apply(s, ops[0]), ops[1..]);
    }
  }

  lemma SkipsStayInGap(s: Slot, op: LedgerOp)
    requires Valid(s)
    ensures Skipped(Apply(s, op))
            <= Skipped(s) + if Jumps(s, op) then Upto(Frontier(Apply(s, op))) - Upto(Frontier(s)) - s.redeliver else {}
  {
    OnlyJumpsLoseIndices(s, op);
    if Jumps(s, op) {
      if op.OpAttest? {
        RewindBeyondTheFrontier(s, op.firstMissing);
      }
      MovingTheCursorSkips(s, Apply(s, op));
    }
  }

  // ------------------------------------------------------- serving the queue

  /** The ledger after the head of the queue is delivered and acknowledged, once for
      each record. */
  function Deliveries(s: Slot, items: seq<AcknowledgedItem>): Slot
    decreases |items|
  {
    if items == [] then s else Deliveries(Retire(s, NextIndex(s), items[0]), items[1..])
  }

  function DueUpto(s: Slot, i: nat): set<nat> {
    set j | j in Upto(i + 1) && Due(s, j)
  }

  lemma {:induction false} UptoSize(n: nat)
    ensures |Upto(n)| == n
  {
    if n > 0 {
      UptoSize(n - 1);
      assert Upto(n) == Upto(n - 1) + {n - 1};
    }
  }

  /** A delivery settles the head of the queue and nothing else. */
  lemma DeliverySettlesTheHead(s: Slot, item: AcknowledgedItem)
    requires Valid(s)
    ensures var s', head := Retire(s, NextIndex(s), item), NextIndex(s);
            && Valid(s')
            && Skipped(s') == Skipped(s)
            && s'.acknowledged.Keys == s.acknowledged.Keys + {head}
            && (forall j: nat :: Due(s', j) <==> Due(s, j) && j != head)
  {
    NextIndexIsLeastDue(s);
    RetireKeepsValid(s, NextIndex(s), item);
  }

  /** Serving the queue settles at once every index still owed, lowest first. */
  lemma {:induction false} DeliveriesSettle(s: Slot, items: seq<AcknowledgedItem>, i: nat)
    requires Valid(s)
    ensures i in s.acknowledged || (i !in Skipped(s) && |DueUpto(s, i)| <= |items|) ==>
              i in Deliveries(s, items).acknowledged
    ensures i in Skipped(s) ==> i !in Deliveries(s, items).acknowledged
    decreases |items|
  {
    NextIndexIsLeastDue(s);
    if items == [] {
      if Due(s, i) {
        assert i in DueUpto(s, i);
      }
    } else {
      var s', head := Retire(s, NextIndex(s), items[0]), NextIndex(s);
      DeliverySettlesTheHead(s, items[0]);
      assert DueUpto(s', i) == DueUpto(s, i) - {head};
      if Due(s, i) {
        assert head in DueUpto(s, i);
      }
      DeliveriesSettle(s', items[1..], i);
    }
  }

  /** Serving the queue reaches exactly the indices the ledger has not given up on, and
      index `i` by delivery `i + 1` at the latest. */
  lemma DeliveriesReachTheUnskipped(s: Slot, items: seq<AcknowledgedItem>, i: nat)
    requires Valid(s) && i < |items|
    ensures i in Deliveries(s, items).acknowledged <==> i !in Skipped(s)
  {
    UptoSize(i + 1);
    assert DueUpto(s, i) <= Upto(i + 1);
    SubsetSize(DueUpto(s, i), Upto(i + 1));
    DeliveriesSettle(s, items, i);
  }

  lemma {:induction false} SubsetSize(a: set<nat>, b: set<nat>)
    requires a <= b
    ensures |a| <= |b|
  {
    assert b == a + (b - a);
  }

  ghost predicate NeverRewinds(s: Slot, ops: seq<LedgerOp>)
    decreases |ops|
  {
    ops == [] || (!Rewinds(s, ops[0]) && NeverRewinds(Apply(s, ops[0]), ops[1..]))
  }

  /** A delivered index stays delivered over a whole run without a rewind. */
  lemma {:induction false} DeliveredStaysDelivered(s: Slot, ops: seq<LedgerOp>, i: nat)
    requires Valid(s) && NeverRewinds(s, ops)
    requires i in s.acknowledged && s.acknowledged[i].blocked.None?
    ensures var s' := Run(s, ops);
            i in s'.acknowledged && s'.acknowledged[i] == s.acknowledged[i] && NextIndex(s') != i
    decreases |ops|
  {
    if ops == [] {
      NextIndexIsLeastDue(s);
    } else {
      ApplyKeepsValid(s, ops[0]);
      DeliveredIndexIsNeverNextAgain(s, ops[0], i);
      DeliveredStaysDelivered(Apply(s, ops[0]), ops[1..], i);
    }
  }

  // ---------------------------------------------------------- save watermark

  /** Comparing again with the same observation changes nothing further. */
  lemma ReconcileIsAFixedPoint(s: Slot, observed: Option<nat>)
    ensures var s' := Reconcile(s, observed);
            && WatermarkVerdict(s', observed) == (if WatermarkVerdict(s, observed) == Hold then Hold else Resume)
            && Reconcile(s', observed) == s'
  {
  }

  /** A save that fell behind makes exactly the erased tail due again, in
      order, and keeps every acknowledgement up to the save's cursor. */
  lemma ReissueIsExact(s: Slot, w: nat)
    requires Valid(s) && WatermarkVerdict(s, Some(w)) == Reissue
    ensures var s' := Reconcile(s, Some(w));
            && Valid(s')
            && (forall i: nat :: Due(s', i) <==> i > w || i in s.redeliver)
            && (forall i :: i in s'.acknowledged <==> i in s.acknowledged && i <= w)
            && (forall i :: i in s'.acknowledged ==> s'.acknowledged[i] == s.acknowledged[i])
            && s'.highest == Some(w) && s'.pending.None?
  {
    ApplyKeepsValid(s, OpReconcile(Some(w)));
  }

  /** A save that is ahead never moves the cursor back and grants nothing
      again: nothing becomes due that was not due. */
  lemma AdoptionRegrantsNothing(s: Slot, w: nat)
    requires Valid(s) && WatermarkVerdict(s, Some(w)) == AdoptSaveCursor
    ensures var s' := Reconcile(s, Some(w));
            && Frontier(s) < Frontier(s') == w + 1
            && s'.acknowledged == s.acknowledged
            && (forall i: nat :: Due(s', i) ==> Due(s, i))
  {
  }

  /** The state right after index `i` is retired and the save accepted `i` as
      its receive cursor. */
  function AfterWatermarkedDelivery(s: Slot, i: nat, item: AcknowledgedItem): Slot {
    Retire(s, i, item).(saveWatermark := Some(i))
  }

  /** The next comparison after a delivery finds agreement exactly when the
      delivered index is not below the cursor.  Otherwise the save now names an
      index behind the ledger, and the comparison takes it for a restore. */
  lemma DeliveryThenReconcile(s: Slot, i: nat, item: AcknowledgedItem)
    requires Valid(s) && s.pending.Some? && i == NextIndex(s)
    ensures WatermarkVerdict(AfterWatermarkedDelivery(s, i, item), Some(i))
            == if Frontier(s) <= i + 1 then Resume else Reissue
  {
  }

  /** So redelivering an index below the cursor makes every later delivery due
      again, although the game still holds them all. */
  lemma RedeliveryReopensLaterDeliveries(s: Slot, i: nat, item: AcknowledgedItem, j: nat)
    requires Valid(s) && s.pending.Some? && i == NextIndex(s) && i + 1 < Frontier(s)
    requires i < j && j in s.acknowledged
    ensures var s' := Reconcile(AfterWatermarkedDelivery(s, i, item), Some(i));
            Due(s', j) && j !in s'.acknowledged
  {
    RetireKeepsValid(s, i, item);
    DeliveryThenReconcile(s, i, item);
  }

  // --------------------------------------------------------- deferred vials

  const ABSENT_VIAL_1: string := " absent Blood Vial insertion is disabled"
  const ABSENT_VIAL_2: string := " after the live invalid-record reproduction;"
  const ABSENT_VIAL_3: string := " acquire one Vial before delivery"

  function AbsentVialDetail(tag: string): string {
    "tag=" + tag + ABSENT_VIAL_1 + ABSENT_VIAL_2 + ABSENT_VIAL_3
  }

  function VialCapacityDetail(tag: string): string {
    "tag=" + tag + " Vial stack has no room before native grant; no command submitted"
  }

  /** The two park reasons the client defers and retries by itself. */
  predicate IsVialPark(blocked: string, tag: string) {
    || blocked == FormatPark("failed", AbsentVialDetail(tag))
    || blocked == FormatPark("vial_capacity", VialCapacityDetail(tag))
  }

  lemma {:induction false} ContainedCharacter(s: string, t: string, c: char)
    requires Contains(s, t) && c in t
    ensures c in s
  {
    if StartsWith(s, t) {
      var k :| 0 <= k < |t| && t[k] == c;
      assert s[..|t|][k] == s[k];
    } else {
      ContainedCharacter(s[1..], t, c);
    }
  }

  lemma FailedParkWithoutX(detail: string)
    requires 'x' !in detail
    ensures !CauseIsFixed(FormatPark("failed", detail)) && !CauseIsCompatibility(FormatPark("failed", detail))
  {
    StatusRoundTrip("failed", detail);
    DetailRoundTrip("failed", detail);
    if Contains(detail, "expected_after=") {
      assert "expected_after="[1] == 'x';
      ContainedCharacter(detail, "expected_after=", 'x');
    }
  }

  lemma AbsentVialDetailHasNoX(tag: string)
    requires 'x' !in tag
    ensures 'x' !in AbsentVialDetail(tag)
  {
    assert 'x' !in ABSENT_VIAL_1 && 'x' !in ABSENT_VIAL_2 && 'x' !in ABSENT_VIAL_3;
  }

  /** Neither startup requeue ever picks up a deferred vial. */
  lemma VialParkIsNeverRequeuedByCause(tag: string)
    requires 'x' !in tag
    ensures var refused := FormatPark("failed", AbsentVialDetail(tag));
            !CauseIsFixed(refused) && !CauseIsCompatibility(refused)
    ensures var full := FormatPark("vial_capacity", VialCapacityDetail(tag));
            !CauseIsFixed(full) && !CauseIsCompatibility(full)
  {
    AbsentVialDetailHasNoX(tag);
    FailedParkWithoutX(AbsentVialDetail(tag));
    StatusRoundTrip("vial_capacity", VialCapacityDetail(tag));
  }

  /** Index `i` is parked, for a reason no requeue by cause picks up. */
  predicate HeldPark(s: Slot, i: nat) {
    i in s.acknowledged && s.acknowledged[i].blocked.Some?
    && !CauseIsFixed(s.acknowledged[i].blocked.value) && !CauseIsCompatibility(s.acknowledged[i].blocked.value)
  }

  ghost predicate DeferredAreParked(s: Slot) {
    forall i :: i in s.deferredVialAp ==> HeldPark(s, i)
  }

  /** The two operations that unpark a deferred index behind the list's back: a
      rewind to before it, or an operator clearing its marker. */
  predicate Unparks(s: Slot, op: LedgerOp, i: nat) {
    match op
    case OpAttest(k) => k <= i
    case OpReconcile(observed) => WatermarkVerdict(s, observed) == Reissue && observed.value < i
    case OpUnblock(j) => i == j
    case _ => false
  }

  lemma HeldParkStaysUnlessUnparked(s: Slot, op: LedgerOp, i: nat)
    requires Valid(s) && HeldPark(s, i)
    ensures HeldPark(Apply(s, op), i) <==> !Unparks(s, op, i) && !(op == OpRequeueBlocked(i) && s.pending.None?)
  {
    NextIndexIsLeastDue(s);
    assert i !in FixedCauseParks(s);
    assert op.OpRequeueCompatible? ==> i !in CompatibleParks(s, op.compatible);
  }

  /** The deferral list names parked entries only, up to exactly the operations
      that do not prune it. */
  lemma DeferredStayParkedUnlessOrphaned(s: Slot, op: LedgerOp)
    requires Valid(s) && DeferredAreParked(s)
    requires op.OpDefer? ==> HeldPark(s, op.index)
    ensures DeferredAreParked(Apply(s, op)) <==> forall i :: i in s.deferredVialAp ==> !Unparks(s, op, i)
  {
    var s' := Apply(s, op);
    forall i | i in s.deferredVialAp
      ensures HeldPark(s', i) <==> !Unparks(s, op, i) && !(op == OpRequeueBlocked(i) && s.pending.None?)
    {
      HeldParkStaysUnlessUnparked(s, op, i);
    }
    if op.OpDefer? {
      HeldParkStaysUnlessUnparked(s, op, op.index);
    }
    if i :| i in s.deferredVialAp && Unparks(s, op, i) {
      assert i in s'.deferredVialAp && !HeldPark(s', i);
    }
    if forall i :: i in s.deferredVialAp ==> !Unparks(s, op, i) {
      forall i | i in s'.deferredVialAp
        ensures HeldPark(s', i)
      {
        assert i in s.deferredVialAp || op == OpDefer(i);
      }
    }
  }

  /** A deferral orphaned by a redelivery is stuck for good: without another
      rewind every later attempt to requeue it is refused, and it never leaves
      the list. */
  lemma {:induction false} OrphanedDeferralIsRefusedForever(s: Slot, ops: seq<LedgerOp>, i: nat)
    requires Valid(s) && NeverRewinds(s, ops)
    requires i in s.deferredVialAp && i in s.acknowledged && s.acknowledged[i].blocked.None?
    ensures RequeueBlocked(Run(s, ops), i) == Err(NotParked)
    ensures i in Run(s, ops).deferredVialAp
    decreases |ops|
  {
    if ops != [] {
      ApplyKeepsValid(s, ops[0]);
      DeliveredIndexIsNeverNextAgain(s, ops[0], i);
      OrphanedDeferralIsRefusedForever(Apply(s, ops[0]), ops[1..], i);
    }
  }
}
