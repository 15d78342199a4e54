/**
 Delivery across crashes as a state machine.

 A `World` holds the ledger in memory, the ledger on disk and what the game's
 delivery machine knows about each AP index.  One step is one ledger change, one
 save, one crash, or one thing the game does.  The client's poll is proved
 elsewhere to be a sequence of these steps; here the steps are proved to apply
 no AP index more often than it was opened.

 The game side is the contract of `BloodborneBackend`
 (crates/bb-archipelago/src/backend.rs:87-264): a command submitted again with
 the same tag and baseline never applies twice, a withdrawal succeeds only
 before execution, and "cannot have applied" is answered only for a command the
 machine still retains, which runs no earlier than its next submission.
 */
module DeliveryProtocol {
  import opened Wrappers
  import opened ReceiveLedger

  /** `Retained` is held back by the machine, `Armed` may run at any moment. */
  datatype Phase = Retained | Armed | Applied

  datatype Command = Command(baseline: nat, phase: Phase)

  type Commands = map<nat, Command>

  datatype World = World(
    mem: Slot,
    disk: Slot,
    commands: Commands,
    applied: multiset<nat>,   // one element for every time the game applied the index
    reopened: multiset<nat>,  // one for every time a ledger operation dropped its plan or acknowledgement
    delivered: set<nat>)      // acknowledged as delivered at least once

  datatype Event =
    | Change(op: LedgerOp)
    | Save
    | SaveFailed
    | Crash
    | Execute(index: nat)
    | Forget(index: nat)
    | Withdraw(index: nat)
    | Grant(index: nat, baseline: nat)

  // ------------------------------------------------------------- vocabulary

  const EVENT_FLAG_CATEGORY: nat := 255

  /** Items whose grant is published without an observed baseline: event-flag
      items and category-8 bridge tokens (crates/bb-archipelago/src/client_loop.rs:2758-2765). */
  predicate IsToken(awards: set<int>, p: PendingItem) {
    p.itemCategory == EVENT_FLAG_CATEGORY || p.apItemId in awards
  }

  /** The baseline a plan may be published with, once it has one. */
  function BaselineOf(awards: set<int>, p: PendingItem): Option<nat> {
    if IsToken(awards, p) then Some(0) else p.observedBefore
  }

  /** The indices the ledger holds a plan or an acknowledgement for. */
  function Held(s: Slot): set<nat> {
    s.acknowledged.Keys + if s.pending.Some? then {s.pending.value.index} else {}
  }

  /** What one operation deliberately reopens. */
  function Reopens(s: Slot, op: LedgerOp): set<nat> {
    Held(s) - Held(Apply(s, op))
  }

  predicate Unexecuted(c: Commands, i: nat) {
    i !in c || !c[i].phase.Applied?
  }

  predicate MayBeResampled(c: Commands, i: nat) {
    i !in c || c[i].phase.Retained?
  }

  /** What submitting index `i` at `baseline` may do to the machine.  Nothing at
      all; a new command, unless this very one has already applied; or progress
      of a command it is already running. */
  predicate GrantAllowed(c: Commands, i: nat, baseline: nat, c': Commands) {
    || c' == c
    || (&& !(i in c && c[i] == Command(baseline, Applied))
        && i in c' && c'[i].baseline == baseline && c' == c[i := c'[i]])
    || (i in c && c[i].phase.Armed? && c' == c[i := c[i].(phase := Applied)])
  }

  // ------------------------------------------------------------------- steps

  /** When the client may make each ledger change. */
  predicate Enabled(w: World, op: LedgerOp) {
    match op
    case OpBegin(p) => !p.grantComplete && p.observedBefore.None?
    case OpRaise(_, _, _, _) => w.mem.pending.Some? ==> w.mem.pending.value.observedBefore.None?
    case OpRecord(_) =>
      w.mem.pending.Some? ==>
        !w.mem.pending.value.grantComplete
        && (w.mem.pending.value.observedBefore.None? || MayBeResampled(w.commands, w.mem.pending.value.index))
    case OpClear =>
      w.mem.pending.Some? ==> !w.mem.pending.value.grantComplete && w.mem.pending.value.index !in w.commands
    case OpGranted =>
      w.mem.pending.Some? ==> !Unexecuted(w.commands, w.mem.pending.value.index)
    case _ => true
  }

  function Changed(w: World, op: LedgerOp): World {
    w.(mem := Apply(w.mem, op),
       reopened := w.reopened + multiset(Reopens(w.mem, op)),
       delivered := w.delivered + NewlyDelivered(w.mem, op))
  }

  /** What one operation acknowledges as delivered. */
  function NewlyDelivered(s: Slot, op: LedgerOp): set<nat> {
    if op.OpAcknowledge? && Acknowledge(s, op.index, op.item).Ok? then {op.index} else {}
  }

  function Submitted(w: World, i: nat, c': Commands): World {
    w.(commands := c',
       applied := w.applied + if c' != w.commands && i in c' && c'[i].phase.Applied? then multiset{i} else multiset{})
  }

  ghost predicate Next(w: World, e: Event, w': World) {
    match e
    case Change(op) => Enabled(w, op) && w' == Changed(w, op)
    case Save => w' == w.(disk := w.mem)
    case SaveFailed => w' == w
    case Crash => w' == w.(mem := w.disk)
    case Execute(i) =>
      && i in w.commands && w.commands[i].phase.Armed?
      && w' == w.(commands := w.commands[i := w.commands[i].(phase := Applied)], applied := w.applied + multiset{i})
    case Forget(i) =>
      && (w.mem.pending.Some? ==> w.mem.pending.value.index != i)
      && (w.disk.pending.Some? ==> w.disk.pending.value.index != i)
      && w' == w.(commands := w.commands - {i})
    case Withdraw(i) =>
      Unexecuted(w.commands, i) && w' == w.(commands := w.commands - {i})
    case Grant(i, baseline) =>
      && w.mem.pending.Some?
      && w.mem.pending.value.index == i && !w.mem.pending.value.grantComplete
      && GrantAllowed(w.commands, i, baseline, w'.commands)
      && w' == Submitted(w, i, w'.commands)
  }

  ghost predicate Step(w: World, w': World) {
    exists e :: Next(w, e, w')
  }

  ghost predicate Initial(w: World) {
    w == World(EMPTY_SLOT, EMPTY_SLOT, map[], multiset{}, multiset{}, {})
  }

  /** A run: any saves may fail, and a plan may be published whatever the disk holds. */
  ghost predicate ValidRun(run: seq<World>) {
    && run != [] && Initial(run[0])
    && forall k {:trigger StepAt(run, k)} :: 0 <= k < |run| - 1 ==> StepAt(run, k)
  }

  ghost predicate StepAt(run: seq<World>, k: int)
    requires 0 <= k < |run| - 1
  {
    Step(run[k], run[k + 1])
  }

  /** After a crash the ledger `s` would not publish index `i` with another baseline:
      it holds the index, and its plan, if unfinished, carries this one. */
  predicate KeepsBaseline(awards: set<int>, s: Slot, i: nat, baseline: nat) {
    && i in Held(s)
    && (s.pending.Some? && s.pending.value.index == i && !s.pending.value.grantComplete ==>
          BaselineOf(awards, s.pending.value) == Some(baseline))
  }

  /** A publication of recorded baseline that the disk would keep to. */
  predicate FromDisk(awards: set<int>, w: World, i: nat, baseline: nat) {
    w.mem.pending.Some? && BaselineOf(awards, w.mem.pending.value) == Some(baseline) && KeepsBaseline(awards, w.disk, i, baseline)
  }

  /** A publication that cannot apply the index once too often: it is made from the
      disk, or the index was reopened and not yet applied again, or this very command
      has run. */
  predicate Backed(awards: set<int>, w: World, i: nat, baseline: nat) {
    || FromDisk(awards, w, i, baseline)
    || w.applied[i] < w.reopened[i]
    || (i in w.commands && w.commands[i] == Command(baseline, Applied))
  }

  predicate IsBacked(awards: set<int>, w: World, e: Event) {
    e.Grant? ==> Backed(awards, w, e.index, e.baseline)
  }

  ghost predicate DurableStep(awards: set<int>, w: World, w': World) {
    exists e :: Next(w, e, w') && IsBacked(awards, w, e)
  }

  /** A run whose every publication is backed. */
  ghost predicate DurableRun(awards: set<int>, run: seq<World>) {
    && run != [] && Initial(run[0])
    && forall k {:trigger DurableStepAt(awards, run, k)} :: 0 <= k < |run| - 1 ==> DurableStepAt(awards, run, k)
  }

  ghost predicate DurableStepAt(awards: set<int>, run: seq<World>, k: int)
    requires 0 <= k < |run| - 1
  {
    DurableStep(awards, run[k], run[k + 1])
  }

  lemma DurableIsValid(awards: set<int>, run: seq<World>)
    requires DurableRun(awards, run)
    ensures ValidRun(run)
  {
    forall k | 0 <= k < |run| - 1
      ensures StepAt(run, k)
    {
      assert DurableStepAt(awards, run, k);
    }
  }

  // --------------------------------------------------------------- invariant

  /** Applications already made plus the one a submitted command may still make. */
  function Load(w: World, i: nat): nat {
    w.applied[i] + if i in w.commands && !w.commands[i].phase.Applied? then 1 else 0
  }

  /** An unfinished plan either has a credit left, or the machine's command is
      the one this plan would submit again, or it is still retained. */
  ghost predicate PlanIsSafe(awards: set<int>, w: World, p: PendingItem) {
    || Load(w, p.index) <= w.reopened[p.index]
    || (p.index in w.commands
        && (w.commands[p.index].phase.Retained? || BaselineOf(awards, p) == Some(w.commands[p.index].baseline)))
  }

  ghost predicate LedgerIsSafe(awards: set<int>, w: World, s: Slot) {
    && Valid(s)
    && (forall i :: i !in Held(s) ==> Load(w, i) <= w.reopened[i])
    && (s.pending.Some? && !s.pending.value.grantComplete ==> PlanIsSafe(awards, w, s.pending.value))
    && (s.pending.Some? && s.pending.value.grantComplete ==> w.applied[s.pending.value.index] >= 1)
  }

  ghost predicate Safe(awards: set<int>, w: World) {
    && (forall i: nat :: Load(w, i) <= 1 + w.reopened[i])
    && (forall i :: i in w.commands && w.commands[i].phase.Applied? ==> w.applied[i] >= 1)
    && (forall i :: i in w.delivered ==> w.applied[i] >= 1)
    && LedgerIsSafe(awards, w, w.mem)
    && LedgerIsSafe(awards, w, w.disk)
  }

  lemma InitialIsSafe(awards: set<int>, w: World)
    requires Initial(w)
    ensures Safe(awards, w)
  {
  }

  /** The operations that deliberately reopen an index, and no others do. */
  predicate IsReopening(op: LedgerOp) {
    || op.OpRequeueFixed? || op.OpRequeueCompatible? || op.OpRequeueBlocked? || op.OpReissue?
    || op.OpAttest? || op.OpReconcile?
  }

  lemma OnlyReopeningOperationsReopen(s: Slot, op: LedgerOp)
    requires Valid(s)
    ensures !IsReopening(op) ==> Reopens(s, op) == {}
  {
  }

  /** How an operation may change an unfinished or finished plan. */
  lemma PlanAfterChange(awards: set<int>, w: World, op: LedgerOp)
    requires Safe(awards, w) && Enabled(w, op)
    ensures var p' := Apply(w.mem, op).pending;
            && (p'.Some? && !p'.value.grantComplete ==> PlanIsSafe(awards, w, p'.value))
            && (p'.Some? && p'.value.grantComplete ==> w.applied[p'.value.index] >= 1)
  {
    if op.OpBegin? {
      NextIndexIsLeastDue(w.mem);
    }
  }

  /** A memory change is safe when the indices it lets go of are counted as
      reopened, for whatever the new ledger is. */
  lemma CountedChangeKeepsSafe(awards: set<int>, w: World, s: Slot, news: set<nat>)
    requires Safe(awards, w) && Valid(s)
    requires forall i :: i in news ==> w.applied[i] >= 1
    requires s.pending.Some? && !s.pending.value.grantComplete ==> PlanIsSafe(awards, w, s.pending.value)
    requires s.pending.Some? && s.pending.value.grantComplete ==> w.applied[s.pending.value.index] >= 1
    ensures Safe(awards, w.(mem := s, reopened := w.reopened + multiset(Held(w.mem) - Held(s)), delivered := w.delivered + news))
  {
    var w' := w.(mem := s, reopened := w.reopened + multiset(Held(w.mem) - Held(s)), delivered := w.delivered + news);
    assert forall i: nat :: Load(w', i) == Load(w, i) && w.reopened[i] <= w'.reopened[i];
    forall i | i !in Held(s)
      ensures Load(w', i) <= w'.reopened[i]
    {
      if i in Held(w.mem) {
        assert i in Held(w.mem) - Held(s);
        assert w'.reopened[i] == w.reopened[i] + 1;
      }
    }
  }

  lemma ChangeKeepsSafe(awards: set<int>, w: World, op: LedgerOp)
    requires Safe(awards, w) && Enabled(w, op)
    ensures Safe(awards, Changed(w, op))
  {
    ApplyKeepsValid(w.mem, op);
    PlanAfterChange(awards, w, op);
    var news: set<nat> :=
      if op.OpAcknowledge? && Acknowledge(w.mem, op.index, op.item).Ok? then {op.index} else {};
    CountedChangeKeepsSafe(awards, w, Apply(w.mem, op), news);
  }

  /** A submission adds at most one application to come, and none at all when the
      same command has been submitted at the same baseline and may still run. */
  lemma LoadAfterGrant(w: World, i: nat, baseline: nat, w': World, j: nat)
    requires Next(w, Grant(i, baseline), w')
    ensures j != i ==> Load(w', j) == Load(w, j) && w'.applied[j] == w.applied[j]
    ensures Load(w, i) <= Load(w', i) <= Load(w, i) + 1 && w.applied[i] <= w'.applied[i]
    ensures i in w.commands && (w.commands[i].phase.Retained? || w.commands[i].baseline == baseline) ==> Load(w', i) == Load(w, i)
    ensures Load(w', i) != Load(w, i) || (w'.commands != w.commands && i !in w.commands) ==>
              i in w'.commands && w'.commands[i].baseline == baseline
  {
  }

  lemma GrantKeepsSafe(awards: set<int>, w: World, i: nat, baseline: nat, w': World)
    requires Safe(awards, w) && Next(w, Grant(i, baseline), w') && Backed(awards, w, i, baseline)
    ensures Safe(awards, w')
  {
    if i in w.commands && w.commands[i] == Command(baseline, Applied) {
      assert w' == w;
    } else if w.applied[i] < w.reopened[i] {
      GrantOnCredit(awards, w, i, baseline, w');
    } else {
      GrantFromDisk(awards, w, i, baseline, w');
    }
  }

  lemma OtherLoads(w: World, i: nat, baseline: nat, w': World)
    requires Next(w, Grant(i, baseline), w')
    ensures forall j: nat :: j != i ==> Load(w', j) == Load(w, j) && w'.applied[j] == w.applied[j]
  {
    forall j: nat | j != i
      ensures Load(w', j) == Load(w, j) && w'.applied[j] == w.applied[j]
    {
      LoadAfterGrant(w, i, baseline, w', j);
    }
  }

  /** A reopened index may be applied once more, whatever the disk holds. */
  lemma GrantOnCredit(awards: set<int>, w: World, i: nat, baseline: nat, w': World)
    requires Safe(awards, w) && Next(w, Grant(i, baseline), w') && w.applied[i] < w.reopened[i]
    ensures Safe(awards, w')
  {
    LoadAfterGrant(w, i, baseline, w', i);
    OtherLoads(w, i, baseline, w');
    assert Load(w', i) <= w'.reopened[i];
  }

  lemma GrantFromDisk(awards: set<int>, w: World, i: nat, baseline: nat, w': World)
    requires Safe(awards, w) && Next(w, Grant(i, baseline), w') && FromDisk(awards, w, i, baseline)
    ensures Safe(awards, w')
  {
    assert PlanIsSafe(awards, w, w.mem.pending.value);
    assert i in Held(w.mem) && i in Held(w.disk);
    LoadAfterGrant(w, i, baseline, w', i);
    OtherLoads(w, i, baseline, w');
  }

  /** Losing a command, or running an armed one, changes no plan's safety. */
  lemma GameStepKeepsSafe(awards: set<int>, w: World, e: Event, w': World)
    requires Safe(awards, w) && Next(w, e, w')
    requires e.Execute? || e.Forget? || e.Withdraw?
    ensures Safe(awards, w')
  {
    assert forall j: nat :: Load(w', j) <= Load(w, j) && w'.applied[j] >= w.applied[j];
    if w.mem.pending.Some? && !w.mem.pending.value.grantComplete {
      assert PlanIsSafe(awards, w, w.mem.pending.value);
    }
    if w.disk.pending.Some? && !w.disk.pending.value.grantComplete {
      assert PlanIsSafe(awards, w, w.disk.pending.value);
    }
  }

  lemma NextKeepsSafe(awards: set<int>, w: World, e: Event, w': World)
    requires Safe(awards, w) && Next(w, e, w') && IsBacked(awards, w, e)
    ensures Safe(awards, w')
  {
    match e {
      case Change(op) => ChangeKeepsSafe(awards, w, op);
      case Grant(i, baseline) => GrantKeepsSafe(awards, w, i, baseline, w');
      case Save => assert forall j: nat :: Load(w', j) == Load(w, j);
      case SaveFailed =>
      case Crash => assert forall j: nat :: Load(w', j) == Load(w, j);
      case _ => GameStepKeepsSafe(awards, w, e, w');
    }
  }

  lemma DurableStepKeepsSafe(awards: set<int>, w: World, w': World)
    requires Safe(awards, w) && DurableStep(awards, w, w')
    ensures Safe(awards, w')
  {
    var e :| Next(w, e, w') && IsBacked(awards, w, e);
    NextKeepsSafe(awards, w, e, w');
  }

  lemma {:induction false} RunIsSafe(awards: set<int>, run: seq<World>, k: nat)
    requires DurableRun(awards, run) && k < |run|
    ensures Safe(awards, run[k])
  {
    if k == 0 {
      InitialIsSafe(awards, run[0]);
    } else {
      RunIsSafe(awards, run, k - 1);
      assert DurableStepAt(awards, run, k - 1);
      DurableStepKeepsSafe(awards, run[k - 1], run[k]);
    }
  }

  // ---------------------------------------------------- whatever saves succeed

  /** What holds however many saves fail and wherever a plan is published from. */
  ghost predicate Sound(w: World) {
    && Valid(w.mem) && Valid(w.disk)
    && (forall i :: i in w.commands && w.commands[i].phase.Applied? ==> w.applied[i] >= 1)
    && (forall i :: i in w.delivered ==> w.applied[i] >= 1)
    && CompleteIsApplied(w, w.mem) && CompleteIsApplied(w, w.disk)
  }

  ghost predicate CompleteIsApplied(w: World, s: Slot) {
    s.pending.Some? && s.pending.value.grantComplete ==> w.applied[s.pending.value.index] >= 1
  }

  lemma ChangeKeepsSound(w: World, op: LedgerOp)
    requires Sound(w) && Enabled(w, op)
    ensures Sound(Changed(w, op))
  {
    ApplyKeepsValid(w.mem, op);
  }

  lemma NextKeepsSound(w: World, e: Event, w': World)
    requires Sound(w) && Next(w, e, w')
    ensures Sound(w')
  {
    if e.Change? {
      ChangeKeepsSound(w, e.op);
    }
  }

  lemma {:induction false} RunIsSound(run: seq<World>, k: nat)
    requires ValidRun(run) && k < |run|
    ensures Sound(run[k])
  {
    if k > 0 {
      RunIsSound(run, k - 1);
      assert StepAt(run, k - 1);
      var e :| Next(run[k - 1], e, run[k]);
      NextKeepsSound(run[k - 1], e, run[k]);
    }
  }

  // ------------------------------------------------------------- longer runs

  lemma ExtendRun(run: seq<World>, w: World)
    requires ValidRun(run) && Step(run[|run| - 1], w)
    ensures ValidRun(run + [w])
  {
    var longer := run + [w];
    forall k | 0 <= k < |longer| - 1
      ensures StepAt(longer, k)
    {
      if k < |run| - 1 {
        assert StepAt(run, k);
      }
    }
  }

  lemma ExtendDurableRun(awards: set<int>, run: seq<World>, w: World)
    requires DurableRun(awards, run) && DurableStep(awards, run[|run| - 1], w)
    ensures DurableRun(awards, run + [w])
  {
    var longer := run + [w];
    forall k | 0 <= k < |longer| - 1
      ensures DurableStepAt(awards, longer, k)
    {
      if k < |run| - 1 {
        assert DurableStepAt(awards, run, k);
      }
    }
  }

  /** A run may be cut off by a crash after any of its steps. */
  lemma CrashAnywhere(run: seq<World>, k: nat)
    requires ValidRun(run) && k < |run|
    ensures ValidRun(run[..k + 1] + [run[k].(mem := run[k].disk)])
  {
    var cut := run[..k + 1];
    forall j | 0 <= j < |cut| - 1
      ensures StepAt(cut, j)
    {
      assert StepAt(run, j);
    }
    assert Next(run[k], Crash, run[k].(mem := run[k].disk));
    ExtendRun(cut, run[k].(mem := run[k].disk));
  }

  /**
   Exactly once.  In every world of every run, whatever the crashes, restarts and
   failed saves in between, an index acknowledged as delivered was applied.  If
   every publication was backed, the game has applied index `i` at
   most once more than it was deliberately reopened: exactly once if it was
   delivered and nothing ever reopened it.
   */
  lemma ExactlyOnce(awards: set<int>, run: seq<World>, k: nat, i: nat)
    requires ValidRun(run) && k < |run|
    ensures i in run[k].delivered ==> run[k].applied[i] >= 1
    ensures DurableRun(awards, run) ==> run[k].applied[i] <= 1 + run[k].reopened[i]
    ensures DurableRun(awards, run) && i in run[k].delivered && run[k].reopened[i] == 0 ==> run[k].applied[i] == 1
  {
    RunIsSound(run, k);
    if DurableRun(awards, run) {
      RunIsSafe(awards, run, k);
      assert Load(run[k], i) <= 1 + run[k].reopened[i];
    }
  }
}
