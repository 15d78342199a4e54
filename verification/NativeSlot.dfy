/**
 The one native command slot and the three lanes that publish into it
 (crates/bb-archipelago/src/client_loop.rs:1750-1862, 2030-2147 and 2524-2934).

 A command is outstanding from its publication until it has run or was given up: an
 AP command while the machine has not applied it, a bonus or a rescue while the
 ledger holds a baseline for it.  The rule is that no two are outstanding at once.
 Nothing in the client looks at the slot itself, so the rule is kept step by step
 only under a guard, which is stated exactly and over whole runs.
 */
module NativeSlot {
  import opened Wrappers
  import opened ReceiveLedger
  import opened DeliveryProtocol
  import opened Lanes

  datatype Tag = Item(index: nat) | Bonus(key: int) | Rescue(key: int)

  predicate CommandOut(commands: Commands, i: nat) {
    i in commands && !commands[i].phase.Applied?
  }

  predicate Outstanding(commands: Commands, l: LaneState, t: Tag) {
    match t
    case Item(i) => CommandOut(commands, i)
    case Bonus(key) => InFlight(l, key)
    case Rescue(key) => OperatorInFlightAt(l, key)
  }

  /** The rule. */
  ghost predicate OneCommand(commands: Commands, l: LaneState) {
    forall a, b :: Outstanding(commands, l, a) && Outstanding(commands, l, b) ==> a == b
  }

  /** No other command than `t` is outstanding. */
  ghost predicate Alone(commands: Commands, l: LaneState, t: Tag) {
    forall u :: Outstanding(commands, l, u) ==> u == t
  }

  /** Nothing new is outstanding. */
  ghost predicate Quieter(commands: Commands, l: LaneState, commands': Commands, l': LaneState) {
    forall u :: Outstanding(commands', l', u) ==> Outstanding(commands, l, u)
  }

  /** `t` is outstanding now, and everything else is as it was. */
  ghost predicate Adds(commands: Commands, l: LaneState, t: Tag, commands': Commands, l': LaneState) {
    && Outstanding(commands', l', t)
    && forall u :: u != t ==> (Outstanding(commands', l', u) <==> Outstanding(commands, l, u))
  }

  /** A publication keeps the rule exactly when it finds no other command. */
  lemma PublishingIsAlone(commands: Commands, l: LaneState, t: Tag, commands': Commands, l': LaneState)
    requires OneCommand(commands, l) && Adds(commands, l, t, commands', l')
    ensures OneCommand(commands', l') <==> Alone(commands, l, t)
  {
    if u :| Outstanding(commands, l, u) && u != t {
      assert Outstanding(commands', l', u) && Outstanding(commands', l', t);
    }
  }

  // -------------------------------------------------------------------- runs

  /** The slot, the lanes in memory and on disk, how often each bonus was queued, and
      how often a crash dropped it before it was saved. */
  datatype Moment = Moment(commands: Commands, lanes: LaneState, disk: LaneState, queued: multiset<int>, dropped: multiset<int>)

  datatype NativeEvent =
    | Publishes(tag: Tag)
    | Settles                  // commands run, are given up, or stay
    | Queues(keys: seq<int>)   // bonuses for freshly sent checks
    | Stores
    | Reloads

  ghost predicate NativeNext(m: Moment, e: NativeEvent, m': Moment) {
    match e
    case Publishes(t) =>
      && Adds(m.commands, m.lanes, t, m'.commands, m'.lanes) && SustainKeys(m'.lanes) == SustainKeys(m.lanes)
      && m' == m.(commands := m'.commands, lanes := m'.lanes)
    case Settles =>
      && Quieter(m.commands, m.lanes, m'.commands, m'.lanes) && SustainKeys(m'.lanes) == SustainKeys(m.lanes)
      && m' == m.(commands := m'.commands, lanes := m'.lanes)
    case Queues(keys) =>
      m' == m.(lanes := QueueSustain(m.lanes, keys), queued := m.queued + multiset((set key | key in keys) - SustainKeys(m.lanes)))
    case Stores => m' == m.(disk := m.lanes)
    case Reloads =>
      m' == m.(lanes := m.disk, dropped := m.dropped + multiset(SustainKeys(m.lanes) - SustainKeys(m.disk)))
  }

  /** What a step needs to keep the rule: a publication finds no other command, and a
      restart finds on disk no bonus or rescue that has since made way. */
  ghost predicate Guarded(m: Moment, e: NativeEvent) {
    match e
    case Publishes(t) => Alone(m.commands, m.lanes, t)
    case Reloads => OneCommand(m.commands, m.disk)
    case _ => true
  }

  lemma NextKeepsOneCommand(m: Moment, e: NativeEvent, m': Moment)
    requires OneCommand(m.commands, m.lanes) && NativeNext(m, e, m')
    ensures OneCommand(m'.commands, m'.lanes) <==> Guarded(m, e)
  {
    match e {
      case Publishes(t) => PublishingIsAlone(m.commands, m.lanes, t, m'.commands, m'.lanes);
      case Queues(keys) =>
        QueueingPublishesNothing(m.lanes, keys);
        SameOutstanding(m.commands, m.lanes, m'.lanes);
      case _ =>
    }
  }

  lemma SameOutstanding(commands: Commands, l: LaneState, l': LaneState)
    requires forall key :: InFlight(l', key) <==> InFlight(l, key)
    requires l'.operatorGrants == l.operatorGrants
    ensures forall t :: Outstanding(commands, l', t) <==> Outstanding(commands, l, t)
  {
    forall t
      ensures Outstanding(commands, l', t) <==> Outstanding(commands, l, t)
    {
      if t.Rescue? {
        assert OperatorInFlightAt(l', t.key) <==> OperatorInFlightAt(l, t.key);
      }
    }
  }

  ghost predicate NativeStep(m: Moment, m': Moment) {
    exists e :: NativeNext(m, e, m')
  }

  ghost predicate GuardedStep(m: Moment, m': Moment) {
    exists e :: NativeNext(m, e, m') && Guarded(m, e)
  }

  ghost predicate Outset(m: Moment) {
    && m.commands == map[] && m.queued == m.dropped == multiset{}
    && m.lanes == m.disk == LaneState(map[], {}, {}, map[], {}, map[], map[])
  }

  ghost predicate NativeRun(run: seq<Moment>) {
    && run != [] && Outset(run[0])
    && forall k {:trigger NativeStepAt(run, k)} :: 0 <= k < |run| - 1 ==> NativeStepAt(run, k)
  }

  ghost predicate NativeStepAt(run: seq<Moment>, k: int)
    requires 0 <= k < |run| - 1
  {
    NativeStep(run[k], run[k + 1])
  }

  ghost predicate GuardedAt(run: seq<Moment>, k: int)
    requires 0 <= k < |run| - 1
  {
    GuardedStep(run[k], run[k + 1])
  }

  ghost predicate OneCommandAt(run: seq<Moment>, k: int)
    requires 0 <= k < |run|
  {
    OneCommand(run[k].commands, run[k].lanes)
  }

  ghost predicate OneCommandThroughout(run: seq<Moment>) {
    forall k :: 0 <= k < |run| ==> OneCommandAt(run, k)
  }

  lemma StepKeepsOneCommand(run: seq<Moment>, k: int)
    requires 0 <= k < |run| - 1 && OneCommandAt(run, k) && NativeStepAt(run, k)
    ensures OneCommandAt(run, k + 1) <==> GuardedAt(run, k)
  {
    if GuardedAt(run, k) {
      var e :| NativeNext(run[k], e, run[k + 1]) && Guarded(run[k], e);
      NextKeepsOneCommand(run[k], e, run[k + 1]);
    } else {
      var e :| NativeNext(run[k], e, run[k + 1]);
      NextKeepsOneCommand(run[k], e, run[k + 1]);
    }
  }

  /** Over any run the rule holds throughout exactly when every step is guarded. */
  lemma OneCommandIffGuarded(run: seq<Moment>)
    requires NativeRun(run)
    ensures OneCommandThroughout(run) <==> forall k :: 0 <= k < |run| - 1 ==> GuardedAt(run, k)
  {
    if OneCommandThroughout(run) {
      forall k | 0 <= k < |run| - 1
        ensures GuardedAt(run, k)
      {
        assert OneCommandAt(run, k) && OneCommandAt(run, k + 1) && NativeStepAt(run, k);
        StepKeepsOneCommand(run, k);
      }
    } else if forall k :: 0 <= k < |run| - 1 ==> GuardedAt(run, k) {
      forall k | 0 <= k < |run|
        ensures OneCommandAt(run, k)
      {
        GuardedStepsKeepOneCommand(run, k);
      }
    }
  }

  lemma {:induction false} GuardedStepsKeepOneCommand(run: seq<Moment>, k: nat)
    requires NativeRun(run) && k < |run| && forall j :: 0 <= j < |run| - 1 ==> GuardedAt(run, j)
    ensures OneCommandAt(run, k)
  {
    if k > 0 {
      GuardedStepsKeepOneCommand(run, k - 1);
      assert NativeStepAt(run, k - 1) && GuardedAt(run, k - 1);
      StepKeepsOneCommand(run, k - 1);
    }
  }

  // ------------------------------------------------------- the first two at once

  /** A publication, or a restart, a command that it put a second one beside, and when. */
  datatype Clash = Clash(tag: Tag, beside: Tag, moment: nat)

  ghost predicate Happened(run: seq<Moment>, clash: Clash) {
    && clash.moment < |run| && clash.tag != clash.beside
    && Outstanding(run[clash.moment].commands, run[clash.moment].lanes, clash.tag)
    && Outstanding(run[clash.moment].commands, run[clash.moment].lanes, clash.beside)
  }

  /** At most one bonus is published, in memory and in what a restart would load. */
  ghost predicate FitAt(run: seq<Moment>, k: int)
    requires 0 <= k < |run|
  {
    SustainSafe(run[k].lanes) && SustainSafe(run[k].disk)
  }

  /** A run, and the first time that two commands were outstanding at once in it. */
  ghost predicate IsStory(run: seq<Moment>, clash: Option<Clash>) {
    && NativeRun(run)
    && (forall k {:trigger FitAt(run, k)} :: 0 <= k < |run| ==> FitAt(run, k))
    && (clash.None? ==> OneCommandThroughout(run))
    && (clash.Some? ==> Happened(run, clash.value))
  }

  lemma StoryIsSingle(run: seq<Moment>, clash: Option<Clash>)
    requires IsStory(run, clash)
    ensures clash.None? <==> OneCommandThroughout(run)
    ensures clash.None? ==> OneCommand(run[|run| - 1].commands, run[|run| - 1].lanes)
  {
    if clash.Some? {
      assert !OneCommandAt(run, clash.value.moment);
    } else {
      assert OneCommandAt(run, |run| - 1);
    }
  }

  lemma StoryStarts(m: Moment)
    requires Outset(m)
    ensures IsStory([m], None)
  {
    assert FitAt([m], 0);
    assert OneCommandAt([m], 0);
  }

  lemma ExtendNativeRun(run: seq<Moment>, e: NativeEvent, m: Moment)
    requires NativeRun(run) && NativeNext(run[|run| - 1], e, m)
    ensures NativeRun(run + [m])
  {
    var longer := run + [m];
    forall k | 0 <= k < |longer| - 1
      ensures NativeStepAt(longer, k)
    {
      if k < |run| - 1 {
        assert NativeStepAt(run, k);
      } else {
        assert NativeNext(longer[k], e, longer[k + 1]);
      }
    }
  }

  lemma ExtendSingle(run: seq<Moment>, m: Moment)
    requires OneCommandThroughout(run) && OneCommand(m.commands, m.lanes)
    ensures OneCommandThroughout(run + [m])
  {
    forall k | 0 <= k < |run + [m]|
      ensures OneCommandAt(run + [m], k)
    {
      if k < |run| {
        assert OneCommandAt(run, k);
      }
    }
  }

  lemma ExtendFit(run: seq<Moment>, e: NativeEvent, m: Moment)
    requires run != [] && forall k {:trigger FitAt(run, k)} :: 0 <= k < |run| ==> FitAt(run, k)
    requires NativeNext(run[|run| - 1], e, m) && (e.Publishes? || e.Settles? ==> SustainSafe(m.lanes))
    ensures forall k {:trigger FitAt(run + [m], k)} :: 0 <= k < |run + [m]| ==> FitAt(run + [m], k)
  {
    assert FitAt(run, |run| - 1);
    if e.Queues? {
      QueueingPublishesNothing(run[|run| - 1].lanes, e.keys);
    }
    forall k | 0 <= k < |run + [m]|
      ensures FitAt(run + [m], k)
    {
      if k < |run| {
        assert FitAt(run, k);
      }
    }
  }

  /** One step more.  The first clash is remembered, and a clash comes exactly from an
      unguarded step. */
  lemma ExtendStory(run: seq<Moment>, clash: Option<Clash>, e: NativeEvent, m: Moment) returns (clash': Option<Clash>)
    requires IsStory(run, clash) && NativeNext(run[|run| - 1], e, m)
    requires e.Publishes? || e.Settles? ==> SustainSafe(m.lanes)
    ensures IsStory(run + [m], clash')
    ensures clash.Some? ==> clash' == clash
    ensures clash.None? ==> (clash'.None? <==> Guarded(run[|run| - 1], e))
    ensures clash.None? && clash'.Some? && e.Publishes? ==>
      clash'.value.tag == e.tag != clash'.value.beside
      && Outstanding(run[|run| - 1].commands, run[|run| - 1].lanes, clash'.value.beside)
  {
    var last := run[|run| - 1];
    ExtendNativeRun(run, e, m);
    ExtendFit(run, e, m);
    clash' := clash;
    if clash.None? {
      StoryIsSingle(run, clash);
      NextKeepsOneCommand(last, e, m);
      if Guarded(last, e) {
        ExtendSingle(run, m);
      } else {
        clash' := FirstClash(last, e, m, |run|);
      }
    }
  }

  lemma FirstClash(m: Moment, e: NativeEvent, m': Moment, n: nat) returns (clash: Option<Clash>)
    requires OneCommand(m.commands, m.lanes) && NativeNext(m, e, m') && !Guarded(m, e)
    ensures clash.Some? && clash.value.tag != clash.value.beside && clash.value.moment == n
    ensures Outstanding(m'.commands, m'.lanes, clash.value.tag) && Outstanding(m'.commands, m'.lanes, clash.value.beside)
    ensures e.Publishes? ==> clash.value.tag == e.tag && Outstanding(m.commands, m.lanes, clash.value.beside)
  {
    if e.Publishes? {
      var u :| Outstanding(m.commands, m.lanes, u) && u != e.tag;
      clash := Some(Clash(e.tag, u, n));
    } else {
      var a, b :| Outstanding(m.commands, m.disk, a) && Outstanding(m.commands, m.disk, b) && a != b;
      clash := Some(Clash(a, b, n));
    }
  }

  // ------------------------------------------------------------- stray commands

  /** Every outstanding AP command is the one of the plan in progress. */
  ghost predicate Accounted(commands: Commands, s: Slot) {
    forall i :: CommandOut(commands, i) ==> s.pending.Some? && s.pending.value.index == i
  }

  /** The operation lets go of the plan in memory while its command is outstanding. */
  predicate DropsCommand(w: World, op: LedgerOp) {
    w.mem.pending.Some? && CommandOut(w.commands, w.mem.pending.value.index) && Apply(w.mem, op).pending.None?
  }

  /** A command is left without its plan exactly when an operation drops the plan while
      the command is outstanding, or a crash loads a ledger without it.  Attested
      restores, watermark verdicts, parks, acknowledgements and reissues are the only
      operations that can. */
  lemma StraysComeFromDroppedPlans(w: World, e: Event, w': World)
    requires Valid(w.mem) && Accounted(w.commands, w.mem) && Next(w, e, w')
    ensures Accounted(w'.commands, w'.mem) <==>
              match e
              case Change(op) => !DropsCommand(w, op)
              case Crash => Accounted(w.commands, w.disk)
              case _ => true
    ensures e.Change? && DropsCommand(w, e.op) ==>
      e.op.OpAttest? || e.op.OpReconcile? || e.op.OpAcknowledgeBlocked? || e.op.OpAcknowledge? || e.op.OpReissue?
  {
    if e.Change? {
      if w.mem.pending.Some? {
        PlanStaysOrDrops(w.mem, e.op);
      }
      if DropsCommand(w, e.op) {
        assert CommandOut(w'.commands, w.mem.pending.value.index);
      }
    } else {
      assert forall i :: CommandOut(w'.commands, i) ==> CommandOut(w.commands, i) || (e.Grant? && e.index == i);
    }
  }

  /** No operation puts another index in place of a plan's. */
  lemma PlanStaysOrDrops(s: Slot, op: LedgerOp)
    requires Valid(s) && s.pending.Some?
    ensures var p' := Apply(s, op).pending; p'.Some? ==> p'.value.index == s.pending.value.index
    ensures Apply(s, op).pending.None? ==>
      op.OpAttest? || op.OpReconcile? || op.OpAcknowledgeBlocked? || op.OpAcknowledge? || op.OpReissue?
  {
  }

  // ------------------------------------------------------- bonuses over runs

  ghost predicate QueuedOnce(m: Moment) {
    && SustainKeys(m.disk) <= SustainKeys(m.lanes)
    && forall key :: m.queued[key] == m.dropped[key] + if key in SustainKeys(m.lanes) then 1 else 0
  }

  lemma NextKeepsQueuedOnce(m: Moment, e: NativeEvent, m': Moment)
    requires QueuedOnce(m) && NativeNext(m, e, m')
    ensures QueuedOnce(m')
  {
    if e.Queues? {
      QueueingPublishesNothing(m.lanes, e.keys);
    }
  }

  /** Over any run a bonus is queued once in its life, and once more for each time a
      crash dropped it unsaved. */
  lemma {:induction false} BonusIsQueuedOnce(run: seq<Moment>, k: nat, key: int)
    requires NativeRun(run) && k < |run|
    ensures QueuedOnce(run[k])
    ensures run[k].queued[key] <= 1 + run[k].dropped[key]
  {
    if k > 0 {
      BonusIsQueuedOnce(run, k - 1, key);
      assert NativeStepAt(run, k - 1);
      var e :| NativeNext(run[k - 1], e, run[k]);
      NextKeepsQueuedOnce(run[k - 1], e, run[k]);
    }
  }
}
