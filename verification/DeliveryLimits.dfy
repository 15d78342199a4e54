/**
 What the exactly-once theorem needs.

 Two rules of the protocol look like caution and are not: the baseline must be
 on disk before the command is published, and a recorded baseline may be sampled
 again only for a command the machine still retains.  The first rule is not kept
 by the client after a failed save: the run is given, and the publications that
 keep the theorem are characterised exactly.  Dropping the second gives another
 short run in which the game applies an item twice although nothing reopened it.
 */
module DeliveryLimits {
  import opened Wrappers
  import opened ReceiveLedger
  import opened DeliveryProtocol

  // ------------------------------------------------------- a run, step by step

  /** `w` is reached from the start by exactly these events. */
  ghost predicate ReachedBy(w: World, events: seq<Event>)
    decreases |events|, 0
  {
    if events == [] then Initial(w) else Arrives(events[..|events| - 1], events[|events| - 1], w)
  }

  ghost predicate Arrives(earlier: seq<Event>, e: Event, w: World)
    decreases |earlier|, 1
  {
    exists v :: ReachedBy(v, earlier) && Next(v, e, w)
  }

  lemma Then(v: World, events: seq<Event>, e: Event, w: World)
    requires ReachedBy(v, events) && Next(v, e, w)
    ensures ReachedBy(w, events + [e])
  {
    assert (events + [e])[..|events|] == events;
    assert Arrives(events, e, w);
  }

  /** What is reached by events is the end of a run. */
  lemma {:induction false} ReachedEndsRun(w: World, events: seq<Event>) returns (run: seq<World>)
    requires ReachedBy(w, events)
    ensures ValidRun(run) && run[|run| - 1] == w
    decreases |events|
  {
    if events == [] {
      run := [w];
    } else {
      var earlier, e := events[..|events| - 1], events[|events| - 1];
      assert Arrives(earlier, e, w);
      var v :| ReachedBy(v, earlier) && Next(v, e, w);
      var shorter := ReachedEndsRun(v, earlier);
      assert Step(v, w);
      ExtendRun(shorter, w);
      run := shorter + [w];
    }
  }

  /** A ledger change that lets go of nothing. */
  lemma Changes(w: World, events: seq<Event>, op: LedgerOp, mem: Slot)
    requires ReachedBy(w, events) && Enabled(w, op) && !op.OpAcknowledge?
    requires Apply(w.mem, op) == mem && Reopens(w.mem, op) == {}
    ensures ReachedBy(w.(mem := mem), events + [Change(op)])
  {
    assert Changed(w, op) == w.(mem := mem);
    Then(w, events, Change(op), w.(mem := mem));
  }

  lemma Saves(w: World, events: seq<Event>)
    requires ReachedBy(w, events)
    ensures ReachedBy(w.(disk := w.mem), events + [Save])
    ensures ReachedBy(w, events + [SaveFailed])
  {
    Then(w, events, Save, w.(disk := w.mem));
    Then(w, events, SaveFailed, w);
  }

  lemma Crashes(w: World, events: seq<Event>)
    requires ReachedBy(w, events)
    ensures ReachedBy(w.(mem := w.disk), events + [Crash])
  {
    Then(w, events, Crash, w.(mem := w.disk));
  }

  lemma Grants(w: World, events: seq<Event>, i: nat, baseline: nat)
    requires ReachedBy(w, events) && Publishable(w, i, baseline)
    ensures ReachedBy(AppliedNow(w, i, baseline), events + [Grant(i, baseline)])
  {
    PublishedNow(w, i, baseline);
    Then(w, events, Grant(i, baseline), AppliedNow(w, i, baseline));
  }

  const VIAL_PLAN: PendingItem :=
    PendingItem(0, 7, 0, 0, 4, 1, None, None, None, false, false, false, None)

  function Planned(baseline: Option<nat>): Slot {
    EMPTY_SLOT.(pending := Some(VIAL_PLAN.(observedBefore := baseline)))
  }

  function Shot(mem: Slot, disk: Slot, commands: Commands, applied: multiset<nat>): World {
    World(mem, disk, commands, applied, multiset{}, {})
  }

  function Once(): Commands {
    map[0 := Command(3, Applied)]
  }

  /** Both commands applied. */
  function Twice(): World {
    Shot(Planned(Some(4)), Planned(Some(4)), map[0 := Command(4, Applied)], multiset{0, 0})
  }

  lemma Opening()
    ensures Apply(EMPTY_SLOT, OpBegin(VIAL_PLAN)) == Planned(None) && Reopens(EMPTY_SLOT, OpBegin(VIAL_PLAN)) == {}
    ensures forall b: Option<nat>, q: nat :: Apply(Planned(b), OpRecord(q)) == Planned(Some(q)) && Reopens(Planned(b), OpRecord(q)) == {}
  {
    assert NextIndex(EMPTY_SLOT) == 0;
  }

  /** The plan is made and saved, and its baseline sampled. */
  function Sampling(): seq<Event> {
    [Change(OpBegin(VIAL_PLAN))] + [Save] + [Change(OpRecord(3))]
  }

  lemma PlanSampled()
    ensures ReachedBy(Shot(Planned(Some(3)), Planned(None), map[], multiset{}), Sampling())
  {
    Opening();
    var start := Shot(EMPTY_SLOT, EMPTY_SLOT, map[], multiset{});
    assert ReachedBy(start, []);
    Changes(start, [], OpBegin(VIAL_PLAN), Planned(None));
    assert [] + [Change(OpBegin(VIAL_PLAN))] == [Change(OpBegin(VIAL_PLAN))];
    Saves(Shot(Planned(None), EMPTY_SLOT, map[], multiset{}), [Change(OpBegin(VIAL_PLAN))]);
    Changes(Shot(Planned(None), Planned(None), map[], multiset{}), [Change(OpBegin(VIAL_PLAN))] + [Save], OpRecord(3), Planned(Some(3)));
  }

  lemma FirstGrant(disk: Slot, events: seq<Event>)
    requires ReachedBy(Shot(Planned(Some(3)), disk, map[], multiset{}), events)
    ensures ReachedBy(Shot(Planned(Some(3)), disk, Once(), multiset{0}), events + [Grant(0, 3)])
  {
    var w := Shot(Planned(Some(3)), disk, map[], multiset{});
    Grants(w, events, 0, 3);
    assert w.applied + multiset{0} == multiset{0};
    assert AppliedNow(w, 0, 3) == Shot(Planned(Some(3)), disk, Once(), multiset{0});
  }

  lemma SecondGrant(events: seq<Event>)
    requires ReachedBy(Shot(Planned(Some(4)), Planned(Some(4)), Once(), multiset{0}), events)
    ensures ReachedBy(Twice(), events + [Grant(0, 4)])
  {
    var w := Shot(Planned(Some(4)), Planned(Some(4)), Once(), multiset{0});
    Grants(w, events, 0, 4);
    SecondCommand();
  }

  lemma SecondCommand()
    ensures AppliedNow(Shot(Planned(Some(4)), Planned(Some(4)), Once(), multiset{0}), 0, 4) == Twice()
    ensures Publishable(Shot(Planned(Some(4)), Planned(Some(4)), Once(), multiset{0}), 0, 4)
  {
    assert multiset{0} + multiset{0} == multiset{0, 0};
    assert Once()[0 := Command(4, Applied)] == map[0 := Command(4, Applied)];
  }

  /** The save of the baseline fails, the plan is published from memory, and the
      process dies. */
  function Lost(): seq<Event> {
    Sampling() + [SaveFailed] + [Grant(0, 3)] + [Crash]
  }

  lemma PublishedFromMemory()
    ensures ReachedBy(Shot(Planned(None), Planned(None), Once(), multiset{0}), Lost())
  {
    PlanSampled();
    Saves(Shot(Planned(Some(3)), Planned(None), map[], multiset{}), Sampling());
    FirstGrant(Planned(None), Sampling() + [SaveFailed]);
    Crashes(Shot(Planned(Some(3)), Planned(None), Once(), multiset{0}), Sampling() + [SaveFailed] + [Grant(0, 3)]);
  }

  /** The baseline is recorded in memory but its save fails; the next poll takes it for
      binding and publishes it; the process dies, and the next one samples afresh. */
  lemma FailedSaveMayGrantTwice() returns (run: seq<World>)
    ensures ReachedBy(Twice(), Lost() + [Change(OpRecord(4))] + [Save] + [Grant(0, 4)])
    ensures ValidRun(run) && run[|run| - 1] == Twice()
    ensures Twice().applied[0] == 2 && Twice().reopened[0] == 0
  {
    PublishedFromMemory();
    SampledAfresh(Lost());
    SecondGrant(Lost() + [Change(OpRecord(4))] + [Save]);
    run := ReachedEndsRun(Twice(), Lost() + [Change(OpRecord(4))] + [Save] + [Grant(0, 4)]);
  }

  lemma SampledAfresh(events: seq<Event>)
    requires ReachedBy(Shot(Planned(None), Planned(None), Once(), multiset{0}), events)
    ensures ReachedBy(Shot(Planned(Some(4)), Planned(Some(4)), Once(), multiset{0}), events + [Change(OpRecord(4))] + [Save])
  {
    Opening();
    Changes(Shot(Planned(None), Planned(None), Once(), multiset{0}), events, OpRecord(4), Planned(Some(4)));
    Saves(Shot(Planned(Some(4)), Planned(None), Once(), multiset{0}), events + [Change(OpRecord(4))]);
  }

  /** A second sample taken although the first command may already have run. */
  ghost predicate HastyResample(w: World, observed: nat, w': World) {
    w.mem.pending.Some? && !w.mem.pending.value.grantComplete && w' == Changed(w, OpRecord(observed))
  }

  /** Sampling again while the command may have run breaks the theorem, though every
      publication is made from the disk. */
  lemma HastyResampleMayGrantTwice()
    ensures exists w, hasty, saved ::
      && ReachedBy(w, Sampling() + [Save] + [Grant(0, 3)])
      && HastyResample(w, 4, hasty) && Next(hasty, Save, saved) && Next(saved, Grant(0, 4), Twice())
    ensures Twice().applied[0] == 2 && Twice().reopened[0] == 0
  {
    var three, four := Planned(Some(3)), Planned(Some(4));
    PlanSampled();
    Saves(Shot(three, Planned(None), map[], multiset{}), Sampling());
    FirstGrant(three, Sampling() + [Save]);
    HastySteps();
    var granted, saved := Shot(three, three, Once(), multiset{0}), Shot(four, four, Once(), multiset{0});
    SecondCommand();
    PublishedNow(saved, 0, 4);
    assert HastyResample(granted, 4, Shot(four, three, Once(), multiset{0}));
  }

  lemma HastySteps()
    ensures HastyResample(Shot(Planned(Some(3)), Planned(Some(3)), Once(), multiset{0}), 4,
                          Shot(Planned(Some(4)), Planned(Some(3)), Once(), multiset{0}))
    ensures Next(Shot(Planned(Some(4)), Planned(Some(3)), Once(), multiset{0}), Save,
                 Shot(Planned(Some(4)), Planned(Some(4)), Once(), multiset{0}))
  {
    Opening();
  }

  /** The plan is published, and its command left armed. */
  function ArmedShot(mem: Slot): World {
    Shot(mem, Planned(Some(3)), map[0 := Command(3, Armed)], multiset{})
  }

  lemma ArmedCommand()
    ensures ReachedBy(ArmedShot(Planned(Some(3))), Sampling() + [Save] + [Grant(0, 3)])
  {
    var ready := Shot(Planned(Some(3)), Planned(Some(3)), map[], multiset{});
    PlanSampled();
    Saves(Shot(Planned(Some(3)), Planned(None), map[], multiset{}), Sampling());
    assert ArmedShot(Planned(Some(3))) == Submitted(ready, 0, map[0 := Command(3, Armed)]);
    Then(ready, Sampling() + [Save], Grant(0, 3), ArmedShot(Planned(Some(3))));
  }

  /** Then an adoption drops it. */
  lemma AdoptedBesideArmedCommand() returns (run: seq<World>)
    ensures ValidRun(run)
    ensures run[|run| - 1].mem.pending.None? && run[|run| - 1].commands == map[0 := Command(3, Armed)]
  {
    ArmedCommand();
    var armed := ArmedShot(Planned(Some(3)));
    var adopted := Changed(armed, OpReconcile(Some(5)));
    assert adopted.mem.pending.None? && adopted.commands == armed.commands;
    Then(armed, Sampling() + [Save] + [Grant(0, 3)], Change(OpReconcile(Some(5))), adopted);
    run := ReachedEndsRun(adopted, Sampling() + [Save] + [Grant(0, 3)] + [Change(OpReconcile(Some(5)))]);
  }

  // ------------------------------------------- which publications keep the theorem

  /** The plan at the head of memory can be published at `baseline` now. */
  predicate Publishable(w: World, i: nat, baseline: nat) {
    && w.mem.pending.Some? && w.mem.pending.value.index == i && !w.mem.pending.value.grantComplete
    && !(i in w.commands && w.commands[i] == Command(baseline, Applied))
  }

  /** The published plan, with its command applied. */
  function AppliedNow(w: World, i: nat, baseline: nat): World {
    w.(commands := w.commands[i := Command(baseline, Applied)], applied := w.applied + multiset{i})
  }

  lemma PublishedNow(w: World, i: nat, baseline: nat)
    requires Publishable(w, i, baseline)
    ensures Next(w, Grant(i, baseline), AppliedNow(w, i, baseline))
  {
    var c' := w.commands[i := Command(baseline, Applied)];
    assert c'[i] == Command(baseline, Applied) && c' != w.commands;
  }

  /** `longer` publishes at the end of `run`, and from then on only with backing. */
  ghost predicate PublishesThenDurably(awards: set<int>, run: seq<World>, longer: seq<World>, i: nat, baseline: nat) {
    && run != [] && |run| < |longer| && run == longer[..|run|]
    && Next(run[|run| - 1], Grant(i, baseline), longer[|run|])
    && forall k {:trigger DurableStepAt(awards, longer, k)} :: |run| <= k < |longer| - 1 ==> DurableStepAt(awards, longer, k)
  }

  /** Whatever a publication leads to, the index is applied once more than reopened at
      most, so long as later publications are backed. */
  ghost predicate StaysExact(awards: set<int>, run: seq<World>, i: nat, baseline: nat) {
    forall longer: seq<World> :: PublishesThenDurably(awards, run, longer, i, baseline) ==>
      longer[|longer| - 1].applied[i] <= 1 + longer[|longer| - 1].reopened[i]
  }

  /** A run that has published at the end of `run` and applied the index `more` times
      since, while nothing reopened it. */
  ghost predicate Applies(awards: set<int>, run: seq<World>, longer: seq<World>, i: nat, baseline: nat, more: nat) {
    && PublishesThenDurably(awards, run, longer, i, baseline)
    && longer[|longer| - 1].applied[i] == run[|run| - 1].applied[i] + more
    && longer[|longer| - 1].reopened[i] == run[|run| - 1].reopened[i]
  }

  lemma StepDurably(awards: set<int>, run: seq<World>, longer: seq<World>, i: nat, baseline: nat, e: Event, w: World)
    requires PublishesThenDurably(awards, run, longer, i, baseline)
    requires Next(longer[|longer| - 1], e, w) && IsBacked(awards, longer[|longer| - 1], e)
    ensures PublishesThenDurably(awards, run, longer + [w], i, baseline)
  {
    var next := longer + [w];
    assert run == next[..|run|];
    forall k | |run| <= k < |next| - 1
      ensures DurableStepAt(awards, next, k)
    {
      if k < |longer| - 1 {
        assert DurableStepAt(awards, longer, k);
      }
    }
  }

  /** A ledger change that does not let go of `i`. */
  lemma ChangeDurably(awards: set<int>, run: seq<World>, longer: seq<World>, i: nat, baseline: nat, more: nat, op: LedgerOp)
    returns (next: seq<World>)
    requires Applies(awards, run, longer, i, baseline, more)
    requires Enabled(longer[|longer| - 1], op) && i !in Reopens(longer[|longer| - 1].mem, op)
    ensures Applies(awards, run, next, i, baseline, more)
    ensures var w, w' := longer[|longer| - 1], next[|next| - 1];
            w'.mem == Apply(w.mem, op) && w'.disk == w.disk && w'.commands == w.commands && w'.applied == w.applied
  {
    var w := longer[|longer| - 1];
    StepDurably(awards, run, longer, i, baseline, Change(op), Changed(w, op));
    next := longer + [Changed(w, op)];
  }

  lemma PublishOnce(awards: set<int>, run: seq<World>, i: nat, baseline: nat) returns (longer: seq<World>)
    requires run != [] && Publishable(run[|run| - 1], i, baseline)
    ensures Applies(awards, run, longer, i, baseline, 1)
    ensures longer[|longer| - 1] == AppliedNow(run[|run| - 1], i, baseline)
  {
    PublishedNow(run[|run| - 1], i, baseline);
    longer := run + [AppliedNow(run[|run| - 1], i, baseline)];
  }

  /** The plan at the head of memory is saved at the baseline `second` and published. */
  lemma PublishAgain(awards: set<int>, run: seq<World>, longer: seq<World>, i: nat, baseline: nat, second: nat)
    returns (last: seq<World>)
    requires Applies(awards, run, longer, i, baseline, 1)
    requires var w := longer[|longer| - 1];
             && Publishable(w, i, second)
             && (var recorded := BaselineOf(awards, w.mem.pending.value); recorded.None? || recorded == Some(second))
    ensures Applies(awards, run, last, i, baseline, 2)
  {
    var sampled := SampleAgain(awards, run, longer, i, baseline, second);
    var w := sampled[|sampled| - 1].(disk := sampled[|sampled| - 1].mem);
    StepDurably(awards, run, sampled, i, baseline, Save, w);
    PublishedNow(w, i, second);
    assert FromDisk(awards, w, i, second);
    StepDurably(awards, run, sampled + [w], i, baseline, Grant(i, second), AppliedNow(w, i, second));
    last := sampled + [w] + [AppliedNow(w, i, second)];
  }

  /** It is sampled, unless it carries a baseline already. */
  lemma SampleAgain(awards: set<int>, run: seq<World>, longer: seq<World>, i: nat, baseline: nat, second: nat)
    returns (sampled: seq<World>)
    requires Applies(awards, run, longer, i, baseline, 1)
    requires var w := longer[|longer| - 1];
             && Publishable(w, i, second)
             && (var recorded := BaselineOf(awards, w.mem.pending.value); recorded.None? || recorded == Some(second))
    ensures Applies(awards, run, sampled, i, baseline, 1)
    ensures Publishable(sampled[|sampled| - 1], i, second)
    ensures BaselineOf(awards, sampled[|sampled| - 1].mem.pending.value) == Some(second)
  {
    var w := longer[|longer| - 1];
    sampled := longer;
    if BaselineOf(awards, w.mem.pending.value).None? {
      sampled := ChangeDurably(awards, run, longer, i, baseline, 1, OpRecord(second));
    }
  }

  lemma CrashNow(awards: set<int>, run: seq<World>, longer: seq<World>, i: nat, baseline: nat) returns (next: seq<World>)
    requires Applies(awards, run, longer, i, baseline, 1)
    ensures Applies(awards, run, next, i, baseline, 1)
    ensures next[|next| - 1] == longer[|longer| - 1].(mem := longer[|longer| - 1].disk)
  {
    var w := longer[|longer| - 1];
    StepDurably(awards, run, longer, i, baseline, Crash, w.(mem := w.disk));
    next := longer + [w.(mem := w.disk)];
  }

  /** An attested restore and an adoption move the cursor to an index that the ledger
      does not hold, however far back the ledger is. */
  lemma MoveCursor(awards: set<int>, run: seq<World>, longer: seq<World>, i: nat, baseline: nat)
    returns (moved: seq<World>)
    requires Applies(awards, run, longer, i, baseline, 1) && i !in Held(longer[|longer| - 1].mem)
    ensures Applies(awards, run, moved, i, baseline, 1)
    ensures var w := moved[|moved| - 1];
            w.mem.pending.None? && NextIndex(w.mem) == i && i !in Held(w.mem) && w.commands == longer[|longer| - 1].commands
  {
    moved := ChangeDurably(awards, run, longer, i, baseline, 1, OpAttest(0));
    assert NextIndex(moved[|moved| - 1].mem) == 0;
    if i > 0 {
      moved := ChangeDurably(awards, run, moved, i, baseline, 1, OpReconcile(Some(i - 1)));
    }
  }

  /** Such a ledger can plan the index again, with the command forgotten. */
  lemma PlanAgain(awards: set<int>, run: seq<World>, longer: seq<World>, i: nat, baseline: nat, plan: PendingItem)
    returns (planned: seq<World>)
    requires Applies(awards, run, longer, i, baseline, 1)
    requires var w := longer[|longer| - 1]; w.mem == w.disk && i !in Held(w.disk)
    requires plan.index == i && !plan.grantComplete && plan.observedBefore.None?
    ensures Applies(awards, run, planned, i, baseline, 1)
    ensures planned[|planned| - 1].mem.pending == Some(plan) && i !in planned[|planned| - 1].commands
  {
    var w := longer[|longer| - 1];
    StepDurably(awards, run, longer, i, baseline, Forget(i), w.(commands := w.commands - {i}));
    planned := longer + [w.(commands := w.commands - {i})];
    planned := MoveCursor(awards, run, planned, i, baseline);
    planned := ChangeDurably(awards, run, planned, i, baseline, 1, OpBegin(plan));
  }

  /** After a crash the disk's plan for the index, or a new one, is not bound to
      `baseline`. */
  lemma CrashAndPlan(awards: set<int>, run: seq<World>, longer: seq<World>, i: nat, baseline: nat)
    returns (planned: seq<World>, second: nat)
    requires Applies(awards, run, longer, i, baseline, 1)
    requires var w := longer[|longer| - 1];
             && Valid(w.disk) && w.commands[i := Command(baseline, Applied)] == w.commands
             && w.mem.pending.Some? && w.mem.pending.value.index == i && !w.mem.pending.value.grantComplete
             && BaselineOf(awards, w.mem.pending.value) == Some(baseline) && !FromDisk(awards, w, i, baseline)
    ensures Applies(awards, run, planned, i, baseline, 1)
    ensures var w := planned[|planned| - 1];
            && Publishable(w, i, second)
            && (var recorded := BaselineOf(awards, w.mem.pending.value); recorded.None? || recorded == Some(second))
  {
    var w := longer[|longer| - 1];
    planned := CrashNow(awards, run, longer, i, baseline);
    if i !in Held(w.disk) {
      planned := PlanAgain(awards, run, planned, i, baseline, w.mem.pending.value.(observedBefore := None));
      second := baseline;
    } else {
      NextIndexIsLeastDue(w.disk);
      var recorded := BaselineOf(awards, w.disk.pending.value);
      second := if recorded.Some? then recorded.value else baseline + 1;
    }
  }

  /** A publication with no backing applies the index twice with nothing reopening it:
      at once, when its baseline is not the recorded one, and otherwise after one crash. */
  lemma UnbackedPublicationRepeats(awards: set<int>, run: seq<World>, i: nat, baseline: nat) returns (longer: seq<World>)
    requires run != [] && Valid(run[|run| - 1].disk)
    requires Publishable(run[|run| - 1], i, baseline)
    requires !FromDisk(awards, run[|run| - 1], i, baseline)
    ensures Applies(awards, run, longer, i, baseline, 2)
  {
    longer := PublishOnce(awards, run, i, baseline);
    var recorded := BaselineOf(awards, run[|run| - 1].mem.pending.value);
    var second := if recorded.Some? then recorded.value else baseline + 1;
    if recorded == Some(baseline) {
      longer, second := CrashAndPlan(awards, run, longer, i, baseline);
    }
    longer := PublishAgain(awards, run, longer, i, baseline, second);
  }

  /** After any run of backed publications, a publication of the plan at the head of the
      queue, at whatever baseline, keeps exactly-once exactly when it is backed. */
  lemma PublicationIsExactWhenBacked(awards: set<int>, run: seq<World>, i: nat, baseline: nat)
    requires DurableRun(awards, run)
    requires var w := run[|run| - 1];
             w.mem.pending.Some? && w.mem.pending.value.index == i && !w.mem.pending.value.grantComplete
    ensures StaysExact(awards, run, i, baseline) <==> Backed(awards, run[|run| - 1], i, baseline)
  {
    if Backed(awards, run[|run| - 1], i, baseline) {
      BackedPublicationStaysExact(awards, run, i, baseline);
    } else {
      DurableIsValid(awards, run);
      RunIsSound(run, |run| - 1);
      var longer := UnbackedPublicationRepeats(awards, run, i, baseline);
      assert longer[|longer| - 1].applied[i] > 1 + longer[|longer| - 1].reopened[i];
    }
  }

  lemma BackedPublicationStaysExact(awards: set<int>, run: seq<World>, i: nat, baseline: nat)
    requires DurableRun(awards, run) && Backed(awards, run[|run| - 1], i, baseline)
    ensures StaysExact(awards, run, i, baseline)
  {
    forall longer: seq<World> | PublishesThenDurably(awards, run, longer, i, baseline)
      ensures longer[|longer| - 1].applied[i] <= 1 + longer[|longer| - 1].reopened[i]
    {
      BackedPublicationIsDurable(awards, run, longer, i, baseline);
      DurableIsValid(awards, longer);
      ExactlyOnce(awards, longer, |longer| - 1, i);
    }
  }

  lemma BackedPublicationIsDurable(awards: set<int>, run: seq<World>, longer: seq<World>, i: nat, baseline: nat)
    requires DurableRun(awards, run) && PublishesThenDurably(awards, run, longer, i, baseline)
    requires Backed(awards, run[|run| - 1], i, baseline)
    ensures DurableRun(awards, longer)
  {
    var n := |run|;
    forall k | 0 <= k < |longer| - 1
      ensures DurableStepAt(awards, longer, k)
    {
      if k < n - 1 {
        assert DurableStepAt(awards, run, k);
        assert run[k] == longer[..n][k] && run[k + 1] == longer[..n][k + 1];
      } else if k == n - 1 {
        assert longer[..n][k] == run[k];
        assert Next(run[k], Grant(i, baseline), longer[k + 1]);
      }
    }
    assert longer[..n][0] == run[0];
  }
}
