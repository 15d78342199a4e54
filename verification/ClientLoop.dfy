/**
 The polling client (crates/bb-archipelago/src/client_loop.rs).

 Every change the client makes to the ledger, every save, failed ones included,
 and every exchange with the game is recorded in `trace`, and every method is
 proved to extend the trace by steps of `DeliveryProtocol`.  So the theorems of
 that module hold of every state the client passes through, and of every restart
 from any of them.  What the game answers, and whether a save succeeds, is left
 open: each answer is chosen freely within the backend's contract.

 Two ghost fields say what may be lost on the way.  `exact` stands until a plan is
 published without backing, and with it exactly-once.  `clash` remembers the first
 time two commands were outstanding for the one native slot.  A second trace, `story`,
 holds every moment of the slot and its lanes, and is proved to be a run of
 `NativeSlot`.
 */
module ClientLoops {
  import opened Wrappers
  import opened Parks
  import opened Upgrades
  import opened ReceiveLedger
  import opened LedgerProperties
  import opened SlotLedgers
  import opened DeliveryProtocol
  import DeliveryLimits
  import opened Lanes
  import opened NativeSlot
  import opened Planning
  import Decimal

  datatype Award = Award(tokenGoodsId: nat, ackFlag: nat)

  datatype Config = Config(
    items: map<int, Binding>,
    awards: map<int, Award>,
    autoEquip: bool,
    autoUpgrade: bool,
    vialSustain: bool)   // the negative companion key of a check grants a Blood Vial

  const BLOOD_VIAL_NORMALIZED_ID: nat := 0x4000_03E8

  // ---------------------------------------------------------- game's answers

  datatype Context = Ready | NotReady | Refused

  datatype Observation = Quantity(held: nat) | NotHydrated | ObserveFailed

  datatype GrantAnswer = GrantPending | GrantDone | GrantTerminal(status: string, detail: string) | GrantFailed

  datatype EquipAnswer = EquipDone | EquipPending | EquipFailed

  datatype SustainAnswer = SustainPending | SustainDone | AbsentVial | StorageExhausted(why: string) | SustainTerminal | SustainFailed

  // ------------------------------------------------------------ poll results

  datatype Wait =
    | ContextLost
    | WatermarkHeld
    | NotObservable
    | Delivering       // this item's own grant, award or equip is under way
    | LaneOwned        // the native command is published and still pending
    | Deferred         // the bonus was set aside; the lane is free

  datatype SustainPoll = SustainIdle | SustainWaits(why: Wait) | SustainCompleted(key: int) | SustainRetired(key: int) | SustainError

  datatype OperatorPoll = OperatorIdle | OperatorPending | WaitingForItems | OperatorCompleted(key: int) | OperatorParked(key: int) | OperatorError

  datatype Failure =
    | SaveFailed
    | DeferralRefused
    | SustainBroke
    | DuplicateIndex
    | ContextRefused
    | WatermarkUnreadable
    | PlanMismatch
    | PlanImpossible(why: PlanError)
    | LedgerRefused(error: LedgerError)
    | BackendFailed

  datatype ItemPoll =
    | Idle
    | Pending(why: Wait)
    | Held
    | Reconciled(outcome: WatermarkOutcome)
    | Blocked(index: nat)
    | Completed(index: nat)
    | Failed(failure: Failure)

  /** The game side: what its delivery machine knows, and a count of what it did. */
  class Game {
    var commands: Commands
    ghost var applied: multiset<nat>

    constructor ()
      ensures commands == map[] && applied == multiset{}
    {
      commands := map[];
      applied := multiset{};
    }
  }

  /** What the game last said, for contracts that speak of it. */
  class Heard {
    ghost var context: Option<Context>
    ghost var observed: Option<nat>
    ghost var verdict: Option<WatermarkOutcome>
    /** The last withdrawal: true, false, or no answer but an error. */
    ghost var withdrew: Option<bool>
    /** The baseline last published was not recorded: the stack cannot be read. */
    ghost var unrecorded: bool
    /** What the last publication of an AP command found. */
    ghost var found: Option<World>
    /** The Vials seen when deferred rewards were last looked at, and whether the game
        then let go of its refusal. */
    ghost var vials: nat
    ghost var released: bool
    ghost var answer: Option<GrantAnswer>
    ghost var sustain: Option<SustainAnswer>
    /** The index at the head of the queue when it was last looked at. */
    ghost var due: nat
    /** Something was not readable, an award had not landed, or an equip was pending. */
    ghost var refused: bool
    /** The AP index whose bridge award was last seen to have landed. */
    ghost var landed: Option<nat>

    constructor ()
    {
    }
  }

  function GrantTag(index: nat): string {
    "ap_" + Decimal.Digits(index)
  }

  // --------------------------------------------------------- received stream

  function LastIndexed(received: seq<IncomingItem>): map<nat, int> {
    if received == [] then map[]
    else LastIndexed(received[..|received| - 1])[received[|received| - 1].index := received[|received| - 1].apItemId]
  }

  predicate DistinctIndices(received: seq<IncomingItem>) {
    forall i, j :: 0 <= i < j < |received| ==> received[i].index != received[j].index
  }

  lemma {:induction false} IndexedMeansReceived(received: seq<IncomingItem>, i: nat)
    ensures i in LastIndexed(received) ==> IncomingItem(i, LastIndexed(received)[i]) in received
    ensures i !in LastIndexed(received) ==> forall item :: item in received ==> item.index != i
  {
    if received != [] {
      IndexedMeansReceived(received[..|received| - 1], i);
      assert received == received[..|received| - 1] + [received[|received| - 1]];
    }
  }

  lemma OneMoreIndexed(received: seq<IncomingItem>, k: nat)
    requires k < |received| && DistinctIndices(received[..k])
    ensures received[k].index in LastIndexed(received[..k]) ==> !DistinctIndices(received)
    ensures received[k].index !in LastIndexed(received[..k]) ==> DistinctIndices(received[..k + 1])
    ensures LastIndexed(received[..k + 1]) == LastIndexed(received[..k])[received[k].index := received[k].apItemId]
  {
    var earlier, i := received[..k], received[k].index;
    assert received[..k + 1][..k] == earlier;
    IndexedMeansReceived(earlier, i);
    if i in LastIndexed(earlier) {
      var j :| 0 <= j < k && earlier[j] == IncomingItem(i, LastIndexed(earlier)[i]);
      assert received[j].index == received[k].index;
    } else {
      assert forall j :: 0 <= j < k ==> earlier[j] in earlier && received[j] == earlier[j];
    }
  }

  lemma DistinctMeansUnique(received: seq<IncomingItem>, a: IncomingItem, b: IncomingItem)
    requires DistinctIndices(received) && a in received && b in received && a.index == b.index
    ensures a == b
  {
  }

  method IndexedReceived(received: seq<IncomingItem>) returns (r: Option<map<nat, int>>)
    ensures r.Some? <==> DistinctIndices(received)
    ensures r.Some? ==> r.value == LastIndexed(received)
  {
    var indexed: map<nat, int> := map[];
    for k := 0 to |received|
      invariant DistinctIndices(received[..k])
      invariant indexed == LastIndexed(received[..k])
    {
      OneMoreIndexed(received, k);
      if received[k].index in indexed {
        return None;
      }
      indexed := indexed[received[k].index := received[k].apItemId];
    }
    assert received[..|received|] == received;
    return Some(indexed);
  }

  /** Nothing at all, the lowest deferred AP index, or one deferred bonus. */
  ghost predicate OneDeferralGivenBack(s: Slot, l: LaneState, s': Slot, l': LaneState) {
    || (s' == s && l' == l)
    || (&& l' == l && s.pending.None? && s.deferredVialAp != {}
        && RequeueBlocked(s, Least(s.deferredVialAp)) == Ok(s'))
    || (s' == s && l.deferredVials != {} && l' == l.(deferredVials := l.deferredVials - {Lowest(l.deferredVials)}))
    || (s' == s && exists key :: key in l.deferredCapacity && l' == l.(deferredCapacity := l.deferredCapacity - {key}))
  }

  /** The same bonuses are published, and the rescues are as they were. */
  ghost predicate SameFlights(l: LaneState, l': LaneState) {
    && (forall key :: InFlight(l', key) <==> InFlight(l, key))
    && l'.operatorGrants == l.operatorGrants
  }

  lemma SameFlightsAreSame(l: LaneState, l': LaneState)
    requires SameFlights(l, l')
    ensures SustainInFlight(l') == SustainInFlight(l) && OperatorInFlight(l') == OperatorInFlight(l)
    ensures NextOperator(l') == NextOperator(l)
  {
    SameRescues(l, l');
    if SustainInFlight(l) {
      var key :| key in l.pendingSustain && InFlight(l, key);
      assert InFlight(l', key) && key in l'.pendingSustain;
    }
    if SustainInFlight(l') {
      var key :| key in l'.pendingSustain && InFlight(l', key);
      assert InFlight(l, key) && key in l.pendingSustain;
    }
  }

  predicate IsCapacityPark(s: Slot, index: nat) {
    index in s.acknowledged
    && s.acknowledged[index].blocked == Some(FormatPark("vial_capacity", VialCapacityDetail(GrantTag(index))))
  }

  /** The game lets a deferred AP Vial go, and the ledger refuses to take it back.  (A
      Vial parked for capacity is not asked for, and its park is always taken back.) */
  predicate DeferralStuck(s: Slot, vials: nat, released: bool) {
    && s.pending.None? && s.deferredVialAp != {} && vials > 0 && released
    && RequeueBlocked(s, Least(s.deferredVialAp)).Err?
  }

  /** The lowest deferral stops every poll in which a Vial is held and the game lets go
      of its refusal exactly when it is an orphan: its park is gone. */
  lemma OrphanIsStuck(s: Slot)
    requires s.pending.None? && s.deferredVialAp != {}
    ensures var i := Least(s.deferredVialAp);
            (forall vials: nat, released :: DeferralStuck(s, vials, released) <==> vials > 0 && released)
            <==> (i !in s.acknowledged || s.acknowledged[i].blocked.None?)
  {
    assert DeferralStuck(s, 1, true) <==> RequeueBlocked(s, Least(s.deferredVialAp)).Err?;
  }

  /** The lane of an item is free: no bonus is published, nothing new is outstanding, and
      if a bonus was published under the rule then nothing is. */
  ghost predicate Freed(was: Option<Clash>, before: Commands, l: LaneState, after: Commands, l': LaneState) {
    && !SustainInFlight(l') && Quieter(before, l, after, l')
    && (was.None? && SustainInFlight(l) ==> forall t :: !Outstanding(after, l', t))
  }

  lemma ClashAfterFreeLane(was: Option<Clash>, now: Option<Clash>, before: Commands, l: LaneState, after: Commands, l': LaneState)
    requires Freed(was, before, l, after, l') && ClashOnly(was, now, after, l')
    ensures ClashOnly(was, now, before, l)
    ensures SustainInFlight(l) ==> now == was
  {
  }

  lemma ClashAfterSameFlights(was: Option<Clash>, now: Option<Clash>, c0: Commands, l0: LaneState, c1: Commands, l1: LaneState)
    requires SameFlights(l0, l1) && Fewer(c0, c1) && ClashOnly(was, now, c1, l1)
    ensures ClashOnly(was, now, c0, l0)
  {
    SameOutstanding(c1, l0, l1);
    assert Quieter(c0, l0, c1, l0);
  }

  /** The plan was made from readings of the player's level. */
  ghost predicate PlanIsGrown(config: Config, s: Slot) {
    s.pending.Some? ==>
      && s.pending.value.apItemId in config.items
      && Grown(config.items[s.pending.value.apItemId], config.autoUpgrade, s.pending.value)
  }

  ghost predicate GrownAt(config: Config, trace: seq<World>, k: int)
    requires 0 <= k < |trace|
  {
    PlanIsGrown(config, trace[k].mem) && PlanIsGrown(config, trace[k].disk)
  }

  /** A run of the protocol, of backed publications if `exact`, in which every plan was
      made from readings. */
  ghost predicate IsTrace(config: Config, exact: bool, trace: seq<World>) {
    && ValidRun(trace) && (exact ==> DurableRun(config.awards.Keys, trace))
    && forall k {:trigger GrownAt(config, trace, k)} :: 0 <= k < |trace| ==> GrownAt(config, trace, k)
  }

  lemma TraceStarts(config: Config, w: World)
    requires Initial(w)
    ensures IsTrace(config, true, [w])
  {
    assert GrownAt(config, [w], 0);
  }

  /** A new or raised plan is made from readings. */
  ghost predicate GrowsFairly(config: Config, s: Slot, e: Event) {
    e.Change? && (e.op.OpBegin? || e.op.OpRaise?) ==> PlanIsGrown(config, Apply(s, e.op))
  }

  lemma SameRowStaysGrown(config: Config, s: Slot, s': Slot)
    requires PlanIsGrown(config, s)
    requires s'.pending.Some? ==> s.pending.Some? && Row(s'.pending.value) == Row(s.pending.value)
    ensures PlanIsGrown(config, s')
  {
    if s'.pending.Some? {
      var p, p' := s.pending.value, s'.pending.value;
      assert p'.apItemId == Row(p').apItemId == Row(p).apItemId;
      SameRowIsGrown(config.items[p.apItemId], config.autoUpgrade, p, p');
    }
  }

  lemma OperationKeepsRow(s: Slot, op: LedgerOp)
    requires !op.OpBegin? && !op.OpRaise?
    ensures var p' := Apply(s, op).pending; p'.Some? ==> s.pending.Some? && Row(p'.value) == Row(s.pending.value)
  {
  }

  /** Every other step keeps the row of the plan. */
  lemma GrownStaysGrown(config: Config, w: World, e: Event, w': World)
    requires Next(w, e, w') && GrowsFairly(config, w.mem, e)
    requires PlanIsGrown(config, w.mem) && PlanIsGrown(config, w.disk)
    ensures PlanIsGrown(config, w'.mem) && PlanIsGrown(config, w'.disk)
  {
    if e.Change? && !e.op.OpBegin? && !e.op.OpRaise? {
      OperationKeepsRow(w.mem, e.op);
      SameRowStaysGrown(config, w.mem, w'.mem);
    }
  }

  lemma ExtendTrace(config: Config, exact: bool, trace: seq<World>, e: Event, w: World)
    requires IsTrace(config, exact, trace) && Next(trace[|trace| - 1], e, w)
    requires exact ==> IsBacked(config.awards.Keys, trace[|trace| - 1], e)
    requires GrowsFairly(config, trace[|trace| - 1].mem, e)
    ensures IsTrace(config, exact, trace + [w])
  {
    assert Step(trace[|trace| - 1], w);
    ExtendRun(trace, w);
    if exact {
      assert DurableStep(config.awards.Keys, trace[|trace| - 1], w);
      ExtendDurableRun(config.awards.Keys, trace, w);
    }
    assert GrownAt(config, trace, |trace| - 1);
    GrownStaysGrown(config, trace[|trace| - 1], e, w);
    forall k | 0 <= k < |trace + [w]|
      ensures GrownAt(config, trace + [w], k)
    {
      if k < |trace| {
        assert GrownAt(config, trace, k);
      }
    }
  }

  /** The ledger in memory has changed by `op`; nothing else has. */
  ghost predicate IsChange(w: World, op: LedgerOp, now: World) {
    Enabled(w, op) && now == w.(mem := Apply(w.mem, op))
  }

  /** What the change lets go of is counted. */
  lemma CountedChange(config: Config, exact: bool, trace: seq<World>, op: LedgerOp, now: World) returns (w: World)
    requires IsTrace(config, exact, trace) && IsChange(trace[|trace| - 1], op, now)
    requires GrowsFairly(config, trace[|trace| - 1].mem, Change(op))
    ensures IsTrace(config, exact, trace + [w])
    ensures w == now.(reopened := w.reopened, delivered := w.delivered)
    ensures w.delivered == now.delivered + NewlyDelivered(trace[|trace| - 1].mem, op)
  {
    w := Changed(trace[|trace| - 1], op);
    ExtendTrace(config, exact, trace, Change(op), w);
  }

  // ------------------------------------------------------- shapes of answers

  /** The machine has dropped or run commands, and taken on none. */
  ghost predicate Fewer(before: Commands, after: Commands) {
    forall i :: CommandOut(after, i) ==> CommandOut(before, i)
  }

  lemma FewerIsQuieter(before: Commands, after: Commands, l: LaneState)
    requires Fewer(before, after)
    ensures Quieter(before, l, after, l)
  {
  }

  /** No clash has come, but one beside a command that was outstanding before. */
  ghost predicate ClashOnly(was: Option<Clash>, now: Option<Clash>, commands: Commands, l: LaneState) {
    now == was
    || (was.None? && now.Some? && now.value.beside != now.value.tag && Outstanding(commands, l, now.value.beside))
  }

  /** And that one by publishing `t`. */
  ghost predicate ClashBy(t: Tag, was: Option<Clash>, now: Option<Clash>, commands: Commands, l: LaneState) {
    ClashOnly(was, now, commands, l) && (now != was ==> now.value.tag == t)
  }

  /** What has happened so far. */
  datatype Book = Book(
    trace: seq<World>,
    exact: bool,               // every publication was backed
    reopened: multiset<nat>,
    delivered: set<nat>,
    story: seq<Moment>,
    clash: Option<Clash>,      // the first time two commands were outstanding at once
    queued: multiset<int>,
    dropped: multiset<int>)

  /** The trace is a run of the protocol, of backed publications while `exact`, and the
      story a run of the native slot. */
  ghost predicate IsBook(config: Config, b: Book) {
    IsTrace(config, b.exact, b.trace) && IsStory(b.story, b.clash)
  }

  /** No AP command was published, and what was delivered is not forgotten. */
  ghost predicate NoItem(was: Book, now: Book) {
    now.exact == was.exact && was.delivered <= now.delivered
  }

  /** No command of any lane was published that was not before. */
  ghost predicate Calm(was: Book, now: Book) {
    NoItem(was, now) && now.clash == was.clash
  }

  class ClientLoop {
    const config: Config
    const slot: SlotLedger
    const game: Game
    const heard: Heard
    var lanes: LaneState
    var diskSlot: Slot
    var diskLanes: LaneState
    var sustainPendingPolls: Option<(int, nat)>
    ghost var book: Book
    /** The last save failed. */
    ghost var behind: bool

    constructor (config: Config)
      ensures Valid() && fresh(slot) && fresh(game) && fresh(heard)
      ensures this.config == config && slot.State() == EMPTY_SLOT && book.exact && book.clash.None? && !behind
    {
      this.config := config;
      slot := new SlotLedger(EMPTY_SLOT);
      game := new Game();
      heard := new Heard();
      lanes := LaneState(map[], {}, {}, map[], {}, map[], map[]);
      diskSlot := EMPTY_SLOT;
      diskLanes := LaneState(map[], {}, {}, map[], {}, map[], map[]);
      sustainPendingPolls := None;
      behind := false;
      var none := LaneState(map[], {}, {}, map[], {}, map[], map[]);
      book := Book([World(EMPTY_SLOT, EMPTY_SLOT, map[], multiset{}, multiset{}, {})], true, multiset{}, {},
                   [Moment(map[], none, none, multiset{}, multiset{})], None, multiset{}, multiset{});
      new;
      TraceStarts(config, Now());
      StoryStarts(NativeNow());
    }

    // ---------------------------------------------------------- invariants

    function Awards(): set<int> {
      config.awards.Keys
    }

    ghost function Now(): World
      reads this, slot, game
    {
      World(slot.State(), diskSlot, game.commands, game.applied, book.reopened, book.delivered)
    }

    ghost function NativeNow(): Moment
      reads this, game
    {
      Moment(game.commands, lanes, diskLanes, book.queued, book.dropped)
    }

    /** The trace and the story end in the present. */
    ghost predicate Mid()
      reads this, slot, game
    {
      IsBook(config, book) && book.trace[|book.trace| - 1] == Now() && book.story[|book.story| - 1] == NativeNow()
    }

    /** Everything but the watermark is on disk. */
    ghost predicate Durable()
      reads this, slot
    {
      diskSlot == slot.State().(saveWatermark := diskSlot.saveWatermark) && diskLanes == lanes
    }

    ghost predicate Valid()
      reads this, slot, game
    {
      Mid() && (!behind ==> Durable())
    }

    /** The plan in progress is for an item the stream still carries. */
    ghost predicate PlanIsReceived(received: seq<IncomingItem>)
      reads slot
    {
      slot.pending.Some? ==> IncomingItem(slot.pending.value.index, slot.pending.value.apItemId) in received
    }

    lemma RecordedIsSound()
      requires Mid()
      ensures Sound(Now())
    {
      RunIsSound(book.trace, |book.trace| - 1);
    }

    /** The plan in memory is the plan for the head of the queue. */
    lemma PlanIsHead()
      requires Mid()
      ensures slot.pending.Some? ==>
        slot.pending.value.index == NextIndex(slot.State()) && slot.pending.value.index !in slot.acknowledged
    {
      RecordedIsSound();
      NextIndexIsLeastDue(slot.State());
    }

    /** The rule of the native slot, now and so far. */
    lemma OneCommandUnlessClash()
      requires Mid()
      ensures book.clash.None? <==> OneCommandThroughout(book.story)
      ensures book.clash.None? ==> OneCommand(game.commands, lanes)
    {
      StoryIsSingle(book.story, book.clash);
    }

    /** Every bonus was queued once, and once more for each time a crash dropped it. */
    lemma BonusWasQueuedOnce(key: int)
      requires Mid()
      ensures book.queued[key] == book.dropped[key] + if key in SustainKeys(lanes) then 1 else 0
    {
      BonusIsQueuedOnce(book.story, |book.story| - 1, key);
    }

    lemma LanesFit()
      requires Mid()
      ensures SustainSafe(lanes) && SustainSafe(diskLanes)
    {
      assert FitAt(book.story, |book.story| - 1);
    }

    lemma PlansAreGrown()
      requires Mid()
      ensures PlanIsGrown(config, slot.State()) && PlanIsGrown(config, diskSlot)
    {
      assert GrownAt(config, book.trace, |book.trace| - 1);
    }

    /** A weapon's plan in progress stands at the closed form of some readings. */
    lemma PlanIsAtClosedForm()
      requires Mid() && slot.pending.Some?
      ensures var p := slot.pending.value;
              p.apItemId in config.items
              && (var b := config.items[p.apItemId];
                  ValidBinding(b) && b.reinforcementLevel.Some? ==>
                    exists readings :: IsPlanAt(Row(p), b, ClosedLevel(b, config.autoUpgrade, readings)))
    {
      PlansAreGrown();
      var p := slot.pending.value;
      var b := config.items[p.apItemId];
      if ValidBinding(b) && b.reinforcementLevel.Some? {
        GrownPlanIsClosedForm(b, config.autoUpgrade, p);
      }
    }

    lemma CompletePlanWasApplied()
      requires Mid() && slot.pending.Some? && slot.pending.value.grantComplete
      ensures game.applied[slot.pending.value.index] >= 1
    {
      RecordedIsSound();
    }

    /** Exactly once, wherever the client is: mid-poll, idle, or just restarted.  A
        delivered index was applied, whatever saves failed; none was applied too often
        while every publication was backed. */
    lemma AppliedExactlyOnce(i: nat)
      requires Mid()
      ensures i in book.delivered ==> game.applied[i] >= 1
      ensures book.exact ==> game.applied[i] <= 1 + book.reopened[i]
      ensures book.exact && i in book.delivered && book.reopened[i] == 0 ==> game.applied[i] == 1
    {
      ExactlyOnce(Awards(), book.trace, |book.trace| - 1, i);
    }

    // ---------------------------------------------------------- bookkeeping

    /** The ledger in memory has just changed. */
    ghost method Note(op: LedgerOp)
      requires IsBook(config, book) && book.story[|book.story| - 1] == NativeNow()
      requires var w := book.trace[|book.trace| - 1]; IsChange(w, op, Now()) && GrowsFairly(config, w.mem, Change(op))
      modifies this`book
      ensures Mid() && Calm(old(book), book)
      ensures var w := old(book).trace[|old(book).trace| - 1]; book.delivered == w.delivered + NewlyDelivered(w.mem, op)
    {
      var w := CountedChange(config, book.exact, book.trace, op, Now());
      book := book.(trace := book.trace + [w], reopened := w.reopened, delivered := w.delivered);
    }

    /** Something else has just happened to the ledgers or the game, and, as far as the
        native slot goes, `n`.  A publication without backing ends `exact`. */
    ghost method Record(e: Event, n: NativeEvent)
      requires IsBook(config, book)
      requires var w := book.trace[|book.trace| - 1]; Next(w, e, Now()) && GrowsFairly(config, w.mem, e)
      requires NativeNext(book.story[|book.story| - 1], n, NativeNow())
      requires n.Publishes? || n.Settles? ==> SustainSafe(lanes)
      modifies this`book
      ensures Mid() && book.delivered == old(book.delivered) && book.reopened == old(book.reopened)
      ensures book.exact == (old(book.exact) && IsBacked(Awards(), old(book).trace[|old(book).trace| - 1], e))
      ensures StoryWentOn(old(book), book, n)
    {
      var exact := book.exact && IsBacked(Awards(), book.trace[|book.trace| - 1], e);
      ExtendTrace(config, exact, book.trace, e, Now());
      var clash := ExtendStory(book.story, book.clash, n, NativeNow());
      book := book.(trace := book.trace + [Now()], exact := exact, story := book.story + [NativeNow()], clash := clash);
    }

    /** The lanes have just changed. */
    ghost method Tell(n: NativeEvent)
      requires IsBook(config, book) && book.trace[|book.trace| - 1] == Now()
      requires NativeNext(book.story[|book.story| - 1], n, NativeNow())
      requires n.Publishes? || n.Settles? ==> SustainSafe(lanes)
      modifies this`book
      ensures Mid() && NoItem(old(book), book) && StoryWentOn(old(book), book, n)
    {
      var clash := ExtendStory(book.story, book.clash, n, NativeNow());
      book := book.(story := book.story + [NativeNow()], clash := clash);
    }

    /** A clash comes exactly from an unguarded step of the native slot. */
    static ghost predicate StoryWentOn(was: Book, now: Book, n: NativeEvent)
      requires was.story != []
    {
      var last := was.story[|was.story| - 1];
      && (was.clash.Some? ==> now.clash == was.clash)
      && (was.clash.None? ==> (now.clash.None? <==> Guarded(last, n)))
      && (n.Publishes? ==> ClashBy(n.tag, was.clash, now.clash, last.commands, last.lanes))
    }

    /** A save that fails leaves the disk and the memory as they were. */
    method SaveLedger() returns (ok: bool)
      requires Mid()
      modifies this`diskSlot, this`diskLanes, this`behind, this`book
      ensures Calm(old(book), book)
      ensures Valid() && behind == !ok
      ensures ok ==> diskSlot == slot.State() && diskLanes == lanes
      ensures !ok ==> diskSlot == old(diskSlot) && diskLanes == old(diskLanes)
    {
      ok := *;
      if ok {
        diskSlot, diskLanes := slot.State(), lanes;
        Record(Save, Stores);
      } else {
        LanesFit();
        Record(Event.SaveFailed, Settles);
      }
      behind := !ok;
    }

    /** The game runs armed commands whenever it likes. */
    method Interfere()
      requires Mid()
      modifies game, this`book
      ensures Calm(old(book), book)
      ensures Mid()
      ensures GameAdvanced(old(game.commands), game.commands)
    {
      var n: nat := *;
      while n > 0
        invariant Mid() && Calm(old(book), book)
        invariant GameAdvanced(old(game.commands), game.commands)
      {
        if i :| i in game.commands && game.commands[i].phase.Armed? {
          RunCommand(i);
        }
        n := n - 1;
      }
    }

    method RunCommand(i: nat)
      requires Mid() && i in game.commands && game.commands[i].phase.Armed?
      modifies game, this`book
      ensures Calm(old(book), book)
      ensures Mid()
      ensures game.commands == old(game.commands)[i := old(game.commands)[i].(phase := Applied)]
    {
      LanesFit();
      game.commands := game.commands[i := game.commands[i].(phase := Applied)];
      game.applied := game.applied + multiset{i};
      FewerIsQuieter(old(game.commands), game.commands, lanes);
      Record(Execute(i), Settles);
    }

    static predicate GameAdvanced(before: Commands, after: Commands) {
      && after.Keys == before.Keys
      && forall i :: i in before ==>
           after[i] == before[i] || (before[i].phase.Armed? && after[i] == before[i].(phase := Applied))
    }

    // -------------------------------------------------- asking the game

    /** Validates the context.  Binding the character may save the ledger, and a failed
        save refuses the context. */
    method RequireRuntimeContext() returns (context: Context)
      requires Valid()
      modifies game, heard`context, this`diskSlot, this`diskLanes, this`behind, this`book
      ensures Calm(old(book), book)
      ensures Valid() && (behind ==> old(behind))
      ensures GameAdvanced(old(game.commands), game.commands)
      ensures heard.context == Some(context)
    {
      Interfere();
      context := *;
      var binds: bool := *;
      if context.Ready? && binds {
        ghost var was := behind;
        var ok := SaveLedger();
        if !ok {
          context := Refused;
        }
        behind := was && !ok;   // only the bound name can be missing on disk
      }
      heard.context := Some(context);
    }

    /** `None` when the backend fails to answer; then nothing was withdrawn. */
    method WithdrawGrant(index: nat) returns (withdrawn: Option<bool>)
      requires Valid()
      modifies game, heard`withdrew, this`book
      ensures Calm(old(book), book)
      ensures Valid() && Fewer(old(game.commands), game.commands)
      ensures withdrawn == Some(true) ==> index !in game.commands
      ensures heard.withdrew == withdrawn
    {
      Interfere();
      withdrawn := *;
      if !Unexecuted(game.commands, index) && withdrawn == Some(true) {
        withdrawn := Some(false);
      }
      heard.withdrew := withdrawn;
      if withdrawn == Some(true) {
        Discard(index);
      }
    }

    /** The machine drops a command that never ran. */
    method Discard(index: nat)
      requires Valid() && Unexecuted(game.commands, index)
      modifies game, this`book
      ensures Calm(old(book), book)
      ensures Valid() && game.commands == old(game.commands) - {index}
    {
      LanesFit();
      game.commands := game.commands - {index};
      FewerIsQuieter(old(game.commands), game.commands, lanes);
      Record(Withdraw(index), Settles);
    }

    /** `false` only while the machine still holds the command back. */
    method GrantMayHaveApplied(index: nat) returns (may: bool)
      requires Valid()
      modifies game, this`book
      ensures Calm(old(book), book)
      ensures Valid() && Fewer(old(game.commands), game.commands)
      ensures !may ==> MayBeResampled(game.commands, index)
    {
      Interfere();
      may := *;
      if !MayBeResampled(game.commands, index) {
        may := true;
      }
    }

    /** Publishes a command, only in a validated context and only after the save's
        watermark agreed.  `exact` stands exactly when the publication is backed; the
        one-command rule exactly when the command is not left outstanding or finds no
        other. */
    method GrantItem(index: nat, baseline: nat) returns (answer: GrantAnswer)
      requires Valid() && heard.context == Some(Ready) && heard.verdict == Some(Resume)
      requires slot.pending.Some? && slot.pending.value.index == index && !slot.pending.value.grantComplete
      modifies game, heard`answer, heard`found, this`book
      ensures Valid() && heard.answer == Some(answer) && book.delivered >= old(book.delivered)
      ensures answer.GrantDone? ==> !Unexecuted(game.commands, index)
      ensures heard.found.Some? && FoundNow(heard.found.value, old(game.commands))
      ensures book.exact == (old(book.exact) && Backed(Awards(), heard.found.value, index, baseline))
      ensures old(book.clash).None? ==>
        (book.clash.None? <==> !CommandOut(game.commands, index) || Alone(heard.found.value.commands, lanes, Item(index)))
      ensures ClashBy(Item(index), old(book.clash), book.clash, old(game.commands), lanes)
      ensures forall j :: CommandOut(game.commands, j) ==> j == index || CommandOut(old(game.commands), j)
    {
      Publish(index, baseline);
      answer := *;
      if answer.GrantDone? && Unexecuted(game.commands, index) {
        answer := GrantPending;
      }
      heard.answer := Some(answer);
    }

    /** The command is handed to the machine, which does with it what it may. */
    method Publish(index: nat, baseline: nat)
      requires Valid()
      requires slot.pending.Some? && slot.pending.value.index == index && !slot.pending.value.grantComplete
      modifies game, heard`found, this`book
      ensures Valid() && book.delivered >= old(book.delivered)
      ensures heard.found.Some? && FoundNow(heard.found.value, old(game.commands))
      ensures book.exact == (old(book.exact) && Backed(Awards(), heard.found.value, index, baseline))
      ensures old(book.clash).None? ==>
        (book.clash.None? <==> !CommandOut(game.commands, index) || Alone(heard.found.value.commands, lanes, Item(index)))
      ensures ClashBy(Item(index), old(book.clash), book.clash, old(game.commands), lanes)
      ensures forall j :: CommandOut(game.commands, j) ==> j == index || CommandOut(old(game.commands), j)
    {
      Interfere();
      heard.found := Some(Now());
      Submit(index, baseline);
    }

    /** The ledgers as they are now, and the game as it has run since. */
    ghost predicate FoundNow(w: World, before: Commands)
      reads this, slot
    {
      && w.mem == slot.State() && w.disk == diskSlot && w.reopened == book.reopened
      && GameAdvanced(before, w.commands)
    }

    method Submit(index: nat, baseline: nat)
      requires Valid()
      requires slot.pending.Some? && slot.pending.value.index == index && !slot.pending.value.grantComplete
      modifies game, this`book
      ensures Valid() && book.reopened == old(book.reopened) && book.delivered >= old(book.delivered)
      ensures book.exact == (old(book.exact) && Backed(Awards(), old(Now()), index, baseline))
      ensures old(book.clash).None? ==>
        (book.clash.None? <==> !CommandOut(game.commands, index) || Alone(old(game.commands), lanes, Item(index)))
      ensures ClashBy(Item(index), old(book.clash), book.clash, old(game.commands), lanes)
      ensures forall j :: j != index ==> (CommandOut(game.commands, j) <==> CommandOut(old(game.commands), j))
    {
      LanesFit();
      ghost var w := Now();
      assert GrantAllowed(game.commands, index, baseline, game.commands);
      var outcome: Commands :| GrantAllowed(game.commands, index, baseline, outcome);
      game.applied := Submitted(w, index, outcome).applied;
      game.commands := outcome;
      SubmissionFits(w.commands, index, baseline);
      Record(Grant(index, baseline), if CommandOut(outcome, index) then Publishes(Item(index)) else Settles);
    }

    /** One command was submitted: it is outstanding now, or nothing new is. */
    lemma SubmissionFits(before: Commands, index: nat, baseline: nat)
      requires GrantAllowed(before, index, baseline, game.commands)
      ensures forall j :: j != index ==> (CommandOut(game.commands, j) <==> CommandOut(before, j))
      ensures if CommandOut(game.commands, index) then Adds(before, lanes, Item(index), game.commands, lanes)
              else Quieter(before, lanes, game.commands, lanes)
    {
      forall j | j != index
        ensures CommandOut(game.commands, j) <==> CommandOut(before, j)
      {
      }
    }

    /** Compares the save's watermark.  A verdict whose save failed is an error, though
        the memory has already followed it. */
    method ReconcileWatermark() returns (outcome: Result<WatermarkOutcome, Failure>)
      requires Valid()
      modifies slot, game, heard`verdict, heard`observed, this`diskSlot, this`diskLanes, this`behind, this`book
      ensures Calm(old(book), book)
      ensures Valid() && Fewer(old(game.commands), game.commands)
      ensures outcome.Ok? ==>
        && heard.verdict == Some(outcome.value)
        && outcome.value == WatermarkVerdict(old(slot.State()), heard.observed)
        && slot.State() == Reconcile(old(slot.State()), heard.observed)
        && (behind ==> old(behind))
      ensures outcome.Err? ==>
        && heard.verdict.None?
        && (outcome.error == WatermarkUnreadable || outcome.error == Failure.SaveFailed)
        && slot.State() == if outcome.error == WatermarkUnreadable then old(slot.State())
                           else Reconcile(old(slot.State()), heard.observed)
      ensures slot.pending == old(slot.pending) || slot.pending.None?
      ensures outcome == Ok(Resume) ==>
        slot.pending == old(slot.pending) && NextIndex(slot.State()) == old(NextIndex(slot.State())) && behind == old(behind)
    {
      Interfere();
      heard.verdict := None;
      var readable: bool := *;
      if !readable {
        return Err(WatermarkUnreadable);
      }
      var observed: Option<nat> := *;
      heard.observed := observed;
      outcome := FollowWatermark(observed);
      heard.verdict := if outcome.Ok? then Some(outcome.value) else None;
    }

    /** The ledger's verdict on an observed watermark; every one but Resume is saved. */
    method FollowWatermark(observed: Option<nat>) returns (outcome: Result<WatermarkOutcome, Failure>)
      requires Valid()
      modifies slot, this`diskSlot, this`diskLanes, this`behind, this`book
      ensures Calm(old(book), book)
      ensures Valid()
      ensures slot.State() == Reconcile(old(slot.State()), observed)
      ensures var verdict := WatermarkVerdict(old(slot.State()), observed);
              && outcome == (if verdict != Resume && behind then Err(Failure.SaveFailed) else Ok(verdict))
              && (verdict == Resume ==> behind == old(behind))
    {
      var verdict := slot.ReconcileSaveWatermark(observed);
      Note(OpReconcile(observed));
      if verdict == Resume {
        return Ok(Resume);
      }
      var ok := SaveLedger();
      return if ok then Ok(verdict) else Err(Failure.SaveFailed);
    }

    // ------------------------------------------------------ deferred vials

    method RequeueDeferred(index: nat) returns (r: Result<(), Failure>)
      requires Valid()
      modifies slot, this`diskSlot, this`diskLanes, this`behind, this`book
      ensures Calm(old(book), book)
      ensures Valid() && slot.pending == old(slot.pending)
      ensures r.Ok? ==> behind == false
      ensures r == Err(DeferralRefused) <==> ReceiveLedger.RequeueBlocked(old(slot.State()), index).Err?
      ensures r == Err(DeferralRefused) ==> slot.State() == old(slot.State()) && behind == old(behind)
      ensures r != Err(DeferralRefused) ==> ReceiveLedger.RequeueBlocked(old(slot.State()), index) == Ok(slot.State())
      ensures r.Err? ==> r.error == DeferralRefused || r.error == Failure.SaveFailed
    {
      var requeued := slot.RequeueBlocked(index);
      Note(OpRequeueBlocked(index));
      if requeued.Err? {
        return Err(DeferralRefused);
      }
      var ok := SaveLedger();
      return if ok then Ok(()) else Err(Failure.SaveFailed);
    }

    /** Gives back at most one deferred reward once a Vial stack exists.  It is refused
        exactly when the lowest deferred AP index is not parked any more. */
    method RetryDeferredVials() returns (r: Result<(), Failure>)
      requires Valid()
      modifies slot, game, heard`context, heard`vials, heard`released, this`lanes, this`diskSlot,
               this`diskLanes, this`behind, this`book
      ensures Calm(old(book), book)
      ensures SustainKeys(lanes) == SustainKeys(old(lanes))
      ensures Valid()
      ensures slot.pending == old(slot.pending)
      ensures OneDeferralGivenBack(old(slot.State()), old(lanes), slot.State(), lanes)
      ensures SameFlights(old(lanes), lanes) && CountedPolls() == old(CountedPolls())
      ensures Fewer(old(game.commands), game.commands)
      ensures r.Ok? && behind ==> old(behind)
      ensures r.Err? ==> r.error in {DeferralRefused, BackendFailed, Failure.SaveFailed}
      ensures r == Err(DeferralRefused) <==> DeferralStuck(old(slot.State()), heard.vials, heard.released)
    {
      heard.vials, heard.released := 0, false;
      if slot.deferredVialAp == {} && lanes.deferredVials == {} && lanes.deferredCapacity == {} {
        return Ok(());
      }
      var context := RequireRuntimeContext();
      if !context.Ready? {
        return Ok(());
      }
      var observation: Observation := *;
      var vials: nat := 0;
      match observation {
        case ObserveFailed => return Err(BackendFailed);
        case NotHydrated =>
        case Quantity(held) => vials := held;
      }
      if slot.pending.None? && vials > 0 && slot.deferredVialAp != {} {
        heard.vials := vials;
        r := GiveBackVial();
        return;
      }
      if slot.pending.Some? || NextSustain(lanes).Some? {
        return Ok(());
      }
      r := GiveBackBonus(vials);
    }

    /** Requeues the lowest deferred AP Vial once the game lets go of its refusal. */
    method GiveBackVial() returns (r: Result<(), Failure>)
      requires Valid() && slot.pending.None? && slot.deferredVialAp != {} && !heard.released
      modifies slot, heard`released, this`diskSlot, this`diskLanes, this`behind, this`book
      ensures Calm(old(book), book)
      ensures Valid() && slot.pending == old(slot.pending)
      ensures slot.State() == old(slot.State())
              || RequeueBlocked(old(slot.State()), Least(old(slot.deferredVialAp))) == Ok(slot.State())
      ensures r.Ok? && behind ==> old(behind)
      ensures r.Err? ==> r.error in {DeferralRefused, BackendFailed, Failure.SaveFailed}
      ensures r == Err(DeferralRefused) <==>
              heard.released && RequeueBlocked(old(slot.State()), Least(old(slot.deferredVialAp))).Err?
    {
      var index := Least(slot.deferredVialAp);
      if !IsCapacityPark(slot.State(), index) {
        var answer: Option<bool> := *;
        match answer {
          case None => return Err(BackendFailed);
          case Some(lets) =>
            heard.released := lets;
            if !lets {
              return Ok(());
            }
        }
      }
      r := RequeueDeferred(index);
    }

    /** Undefers one sustain bonus while the lane is free. */
    method GiveBackBonus(vials: nat) returns (r: Result<(), Failure>)
      requires Valid() && NextSustain(lanes).None?
      modifies this`lanes, this`diskSlot, this`diskLanes, this`behind, this`book
      ensures Calm(old(book), book)
      ensures SustainKeys(lanes) == SustainKeys(old(lanes))
      ensures Valid()
      ensures OneDeferralGivenBack(slot.State(), old(lanes), slot.State(), lanes)
      ensures SameFlights(old(lanes), lanes) && CountedPolls() == old(CountedPolls())
      ensures r.Ok? && behind ==> old(behind)
      ensures r.Err? ==> r.error == BackendFailed || r.error == Failure.SaveFailed
    {
      if vials > 0 && lanes.deferredVials != {} {
        var key := Lowest(lanes.deferredVials);
        var released: Option<bool> := *;
        match released {
          case None => return Err(BackendFailed);
          case Some(lets) =>
            r := Ok(());
            if lets {
              r := Undefer(lanes.(deferredVials := lanes.deferredVials - {key}));
            }
            return;
        }
      }
      var capacity := lanes.deferredCapacity;
      while capacity != {}
        invariant Valid() && lanes == old(lanes) && behind == old(behind) && capacity <= lanes.deferredCapacity
        decreases capacity
      {
        var key := Lowest(capacity);
        capacity := capacity - {key};
        var isVial: bool := *;
        var stack: Observation := *;
        if !isVial && stack.ObserveFailed? {
          return Err(BackendFailed);
        }
        if (isVial && vials > 0) || (!isVial && stack.Quantity?) {
          r := Undefer(lanes.(deferredCapacity := lanes.deferredCapacity - {key}));
          return;
        }
      }
      return Ok(());
    }

    method Undefer(after: LaneState) returns (r: Result<(), Failure>)
      requires Valid()
      requires after == lanes.(deferredVials := after.deferredVials, deferredCapacity := after.deferredCapacity)
      requires after.deferredVials <= lanes.deferredVials && after.deferredCapacity <= lanes.deferredCapacity
      modifies this`lanes, this`diskSlot, this`diskLanes, this`behind, this`book
      ensures Calm(old(book), book)
      ensures SustainKeys(lanes) == SustainKeys(old(lanes))
      ensures Valid() && lanes == after
      ensures SameFlights(old(lanes), lanes) && CountedPolls() == old(CountedPolls())
      ensures r == if behind then Err(Failure.SaveFailed) else Ok(())
    {
      LanesFit();
      UndeferringPublishesNothing(lanes, after);
      SameOutstanding(game.commands, lanes, after);
      lanes := after;
      Tell(Settles);
      var ok := SaveLedger();
      return if ok then Ok(()) else Err(Failure.SaveFailed);
    }

    // -------------------------------------------------------- sustain lane

    /** How many counted polls the published sustain has used up. */
    ghost function CountedPolls(): nat
      reads this
    {
      if sustainPendingPolls.Some? && InFlight(lanes, sustainPendingPolls.value.0) then sustainPendingPolls.value.1 else 0
    }

    /** Takes the sustain at the head of the lane out of play and saves. */
    method ReleaseSustain(key: int, after: LaneState) returns (ok: bool)
      requires Valid() && NextSustain(lanes) == Some(key)
      requires after.operatorGrants == lanes.operatorGrants && SustainKeys(after) == SustainKeys(lanes)
      requires after.pendingSustain == lanes.pendingSustain[key := None] || after.pendingSustain == lanes.pendingSustain - {key}
      requires lanes.deferredVials <= after.deferredVials <= lanes.deferredVials + {key}
      requires after.deferredCapacity == lanes.deferredCapacity
      requires lanes.blockedStorage.Keys <= after.blockedStorage.Keys <= lanes.blockedStorage.Keys + {key}
      modifies this`lanes, this`diskSlot, this`diskLanes, this`behind, this`book
      ensures Calm(old(book), book)
      ensures SustainKeys(lanes) == SustainKeys(old(lanes))
      ensures Valid() && lanes == after && !SustainInFlight(lanes) && behind == !ok
    {
      LanesFit();
      ReleasingSustainFreesTheLane(lanes, key, after);
      SameRescues(lanes, after);
      assert Quieter(game.commands, lanes, game.commands, after);
      lanes := after;
      Tell(Settles);
      ok := SaveLedger();
    }

    /** What a sustain poll answers: a wait on the published bonus is counted, and
        every other answer but an error leaves no bonus published. */
    ghost predicate SustainAnswered(r: SustainPoll, published: bool, counted: nat)
      reads this
    {
      && (r.SustainWaits? || r.SustainError? || !SustainInFlight(lanes))
      && (r == SustainWaits(LaneOwned) ==>
            && SustainInFlight(lanes) && 0 < CountedPolls() < SUSTAIN_PENDING_POLL_LIMIT
            && (published ==> CountedPolls() == counted + 1))
      && (r.SustainCompleted? || r.SustainRetired? ==> r.key in lanes.completedSustain && r.key !in lanes.pendingSustain)
    }

    /** The count of a bonus that stays published never falls. */
    ghost predicate CountKept(published: bool, counted: nat)
      reads this
    {
      published && SustainInFlight(lanes) ==> counted <= CountedPolls()
    }

    /** The same of a poll of the items, and whether it waits for the published bonus. */
    ghost predicate LaneCounted(waits: bool, published: bool, counted: nat)
      reads this
    {
      && CountKept(published, counted)
      && (waits ==>
            && published && SustainInFlight(lanes)
            && 0 < CountedPolls() < SUSTAIN_PENDING_POLL_LIMIT && CountedPolls() == counted + 1)
    }

    /** Advances at most one sustain bonus, whatever else is in progress.  It either
        frees the lane, or says why it still waits; every wait on the published command
        is counted, and the command is retired before the count reaches the limit.  The
        one-command rule is broken only by publishing the bonus beside an AP command or
        a rescue that was outstanding at the start. */
    method PollSustain() returns (r: SustainPoll)
      requires Valid()
      modifies slot, game, this`lanes, this`sustainPendingPolls, this`diskSlot, this`diskLanes, this`behind,
               heard`context, heard`verdict, heard`observed, heard`sustain, heard`vials, heard`released,
               this`book
      ensures NoItem(old(book), book)
      ensures SustainKeys(lanes) == SustainKeys(old(lanes)) && lanes.operatorGrants == old(lanes.operatorGrants)
      ensures Valid()
      ensures slot.pending == old(slot.pending) || slot.pending.None?
      ensures Fewer(old(game.commands), game.commands)
      ensures SustainAnswered(r, old(SustainInFlight(lanes)), old(CountedPolls()))
      ensures CountKept(old(SustainInFlight(lanes)), old(CountedPolls()))
      ensures r.SustainIdle? ==> forall key :: !Eligible(lanes, key)
      ensures !r.SustainError? && behind ==> old(behind)
      ensures ClashOnly(old(book.clash), book.clash, old(game.commands), old(lanes))
      ensures book.clash != old(book.clash) ==> book.clash.value.tag.Bonus? && !old(SustainInFlight(lanes))
    {
      var ok := RetryDeferredVials();
      SameFlightsAreSame(old(lanes), lanes);
      if ok.Err? {
        return SustainError;
      }
      NextSustainPrefersThePublished(lanes);
      var next := NextSustain(lanes);
      if next.None? {
        return SustainIdle;
      }
      r := AdvanceSustain(next.value);
    }

    method AdvanceSustain(key: int) returns (r: SustainPoll)
      requires Valid() && NextSustain(lanes) == Some(key)
      modifies slot, game, this`lanes, this`sustainPendingPolls, this`diskSlot, this`diskLanes, this`behind,
               heard`context, heard`verdict, heard`observed, heard`sustain, this`book
      ensures NoItem(old(book), book)
      ensures SustainKeys(lanes) == SustainKeys(old(lanes)) && lanes.operatorGrants == old(lanes.operatorGrants)
      ensures Valid()
      ensures slot.pending == old(slot.pending) || slot.pending.None?
      ensures Fewer(old(game.commands), game.commands)
      ensures !r.SustainIdle? && SustainAnswered(r, old(SustainInFlight(lanes)), old(CountedPolls()))
      ensures CountKept(old(SustainInFlight(lanes)), old(CountedPolls()))
      ensures !r.SustainError? && behind ==> old(behind)
      ensures ClashOnly(old(book.clash), book.clash, old(game.commands), old(lanes))
      ensures book.clash != old(book.clash) ==> book.clash.value.tag.Bonus? && !old(SustainInFlight(lanes))
    {
      NextSustainPrefersThePublished(lanes);
      var stop := ClearSustain(key);
      if stop.Some? {
        return stop.value;
      }
      r := PublishAndFinish(key);
    }

    /** The bonus once context and watermark allow it. */
    method PublishAndFinish(key: int) returns (r: SustainPoll)
      requires Valid() && NextSustain(lanes) == Some(key) && SustainIsCleared()
      modifies this`lanes, this`sustainPendingPolls, this`diskSlot, this`diskLanes, this`behind, heard`sustain,
               this`book
      ensures NoItem(old(book), book)
      ensures SustainKeys(lanes) == SustainKeys(old(lanes)) && lanes.operatorGrants == old(lanes.operatorGrants)
      ensures Valid() && !r.SustainIdle?
      ensures SustainAnswered(r, old(InFlight(lanes, key)), old(CountedPolls()))
      ensures CountKept(old(InFlight(lanes, key)), old(CountedPolls()))
      ensures !r.SustainError? && behind ==> old(behind)
      ensures ClashBy(Bonus(key), old(book.clash), book.clash, game.commands, old(lanes))
      ensures old(InFlight(lanes, key)) ==> book.clash == old(book.clash)
    {
      var stop := PublishSustain(key);
      if stop.Some? {
        return stop.value;
      }
      r := FinishSustain(key);
    }

    /** The context and the watermark come before any sustain command. */
    method ClearSustain(key: int) returns (stop: Option<SustainPoll>)
      requires Valid() && NextSustain(lanes) == Some(key)
      modifies slot, game, heard`context, heard`verdict, heard`observed, this`lanes, this`diskSlot,
               this`diskLanes, this`behind, this`book
      ensures Calm(old(book), book)
      ensures SustainKeys(lanes) == SustainKeys(old(lanes))
      ensures Valid()
      ensures slot.pending == old(slot.pending) || slot.pending.None?
      ensures Fewer(old(game.commands), game.commands)
      ensures stop.None? ==> lanes == old(lanes) && SustainIsCleared()
      ensures stop.Some? ==>
        stop.value == SustainError || stop.value == SustainWaits(WatermarkHeld) || stop.value == SustainWaits(ContextLost)
      ensures lanes == old(lanes) || !SustainInFlight(lanes)
      ensures lanes.operatorGrants == old(lanes.operatorGrants)
      ensures stop != Some(SustainError) && behind ==> old(behind)
    {
      var context := RequireRuntimeContext();
      match context {
        case Refused => return Some(SustainError);
        case NotReady =>
          var withdrawn: Option<bool> := *;
          var ok := withdrawn.Some?;
          if withdrawn == Some(true) {
            NextSustainPrefersThePublished(lanes);
            ok := ReleaseSustain(key, SetBaseline(lanes, key, None));
          }
          return Some(if ok then SustainWaits(ContextLost) else SustainError);
        case Ready =>
      }
      var outcome := ReconcileWatermark();
      if outcome.Err? {
        return Some(SustainError);
      }
      if outcome.value == WatermarkOutcome.Hold {
        return Some(SustainWaits(WatermarkHeld));
      }
      return None;
    }

    /** The last answers allow a sustain command to be published. */
    ghost predicate SustainIsCleared()
      reads heard
    {
      heard.context == Some(Ready) && heard.verdict.Some? && heard.verdict != Some(WatermarkOutcome.Hold)
    }

    /** Records the baseline a sustain command is published with, unless the
        recorded one still binds.  Nothing here looks at the plan in progress. */
    method PublishSustain(key: int) returns (stop: Option<SustainPoll>)
      requires SustainIsCleared()
      requires Valid() && NextSustain(lanes) == Some(key)
      modifies this`lanes, this`diskSlot, this`diskLanes, this`behind, this`book
      ensures NoItem(old(book), book)
      ensures SustainKeys(lanes) == SustainKeys(old(lanes)) && lanes.operatorGrants == old(lanes.operatorGrants)
      ensures Valid() && (lanes == old(lanes) || InFlight(lanes, key))
      ensures stop.None? ==> NextSustain(lanes) == Some(key) && InFlight(lanes, key) && (behind ==> old(behind))
      ensures stop.Some? ==> stop == Some(SustainWaits(NotObservable)) || stop == Some(SustainError)
      ensures stop == Some(SustainWaits(NotObservable)) ==> behind == old(behind)
      ensures stop.Some? && !behind ==> lanes == old(lanes)
      ensures ClashBy(Bonus(key), old(book.clash), book.clash, game.commands, old(lanes))
      ensures old(InFlight(lanes, key)) ==> book.clash == old(book.clash) && CountedPolls() == old(CountedPolls())
    {
      NextSustainPrefersThePublished(lanes);
      var binding: bool := *;
      if lanes.pendingSustain[key].Some? && binding {
        return None;
      }
      var observation: Observation := *;
      match observation {
        case Quantity(held) =>
          var ok := RecordSustain(key, held);
          return if ok then None else Some(SustainError);
        case NotHydrated =>
          return Some(SustainWaits(NotObservable));
        case ObserveFailed =>
          return Some(SustainError);
      }
    }

    /** The baseline of a bonus, in memory and, if the save succeeds, on disk. */
    method RecordSustain(key: int, held: nat) returns (ok: bool)
      requires Valid() && NextSustain(lanes) == Some(key)
      modifies this`lanes, this`diskSlot, this`diskLanes, this`behind, this`book
      ensures NoItem(old(book), book)
      ensures Valid() && behind == !ok && lanes == SetBaseline(old(lanes), key, Some(held))
      ensures SustainKeys(lanes) == SustainKeys(old(lanes))
      ensures NextSustain(lanes) == Some(key) && InFlight(lanes, key)
      ensures old(book.clash).None? ==> (book.clash.None? <==> Alone(game.commands, old(lanes), Bonus(key)))
      ensures ClashBy(Bonus(key), old(book.clash), book.clash, game.commands, old(lanes))
      ensures old(InFlight(lanes, key)) ==> book.clash == old(book.clash) && CountedPolls() == old(CountedPolls())
    {
      BaselineAdds(key, held);
      lanes := SetBaseline(lanes, key, Some(held));
      Tell(Publishes(Bonus(key)));
      ok := SaveLedger();
    }

    /** Recording the baseline makes the bonus outstanding, the only one of its lane. */
    lemma BaselineAdds(key: int, held: nat)
      requires Mid() && NextSustain(lanes) == Some(key)
      ensures var after := SetBaseline(lanes, key, Some(held));
              && Adds(game.commands, lanes, Bonus(key), game.commands, after)
              && SustainSafe(after) && SustainKeys(after) == SustainKeys(lanes)
              && NextSustain(after) == Some(key) && InFlight(after, key)
      ensures forall a :: InFlight(SetBaseline(lanes, key, Some(held)), a) || InFlight(lanes, a) ==> a == key
      ensures InFlight(lanes, key) && book.clash.None? ==> Alone(game.commands, lanes, Bonus(key))
    {
      LanesFit();
      OneCommandUnlessClash();
      PublishingASustain(lanes, key, held);
      SameRescues(lanes, SetBaseline(lanes, key, Some(held)));
      assert InFlight(lanes, key) ==> Outstanding(game.commands, lanes, Bonus(key));
    }

    /** What one answer makes of the published bonus; every change is an error when it
        cannot be saved. */
    predicate SustainOutcome(key: int, answer: SustainAnswer, l: LaneState, l': LaneState, saved: bool, r: SustainPoll) {
      match answer
      case SustainPending =>
        || (r == SustainWaits(LaneOwned) && l' == l)
        || (r == SustainError && l' == l)   // the retirement at the limit failed
        || (r == (if saved then SustainRetired(key) else SustainError) && l' == RetireSustain(l, key))
      case SustainDone => r == (if saved then SustainCompleted(key) else SustainError) && l' == RetireSustain(l, key)
      case AbsentVial =>
        if key < 0 && config.vialSustain then
          && r == (if saved then SustainWaits(Deferred) else SustainError)
          && l' == SetBaseline(l, key, None).(deferredVials := l.deferredVials + {key})
        else r == (if saved then SustainRetired(key) else SustainError) && l' == RetireSustain(l, key)
      case StorageExhausted(why) =>
        && r == (if saved then SustainWaits(Deferred) else SustainError)
        && l' == SetBaseline(l, key, None).(blockedStorage := l.blockedStorage[key := why])
      case SustainTerminal => r == (if saved then SustainRetired(key) else SustainError) && l' == RetireSustain(l, key)
      case SustainFailed => r == SustainError && l' == l
    }

    method FinishSustain(key: int) returns (r: SustainPoll)
      requires SustainIsCleared()
      requires Valid() && NextSustain(lanes) == Some(key) && InFlight(lanes, key)
      modifies this`lanes, this`sustainPendingPolls, heard`sustain, this`diskSlot, this`diskLanes, this`behind,
               this`book
      ensures Calm(old(book), book)
      ensures SustainKeys(lanes) == SustainKeys(old(lanes))
      ensures Valid() && !r.SustainIdle? && lanes.operatorGrants == old(lanes.operatorGrants)
      ensures SustainAnswered(r, true, old(CountedPolls())) && CountKept(true, old(CountedPolls()))
      ensures r.SustainWaits? ==> r.why == LaneOwned || !SustainInFlight(lanes)
      ensures !r.SustainError? && behind ==> old(behind)
      ensures heard.sustain.Some? && SustainOutcome(key, heard.sustain.value, old(lanes), lanes, !behind, r)
    {
      var answer: SustainAnswer := *;
      heard.sustain := Some(answer);
      match answer {
        case SustainPending =>
          r := CountPending(key);
        case SustainDone =>
          r := EndSustain(key, RetireSustain(lanes, key), SustainCompleted(key));
        case AbsentVial =>
          if key < 0 && config.vialSustain {
            var set_aside := SetBaseline(lanes, key, None);
            r := EndSustain(key, set_aside.(deferredVials := set_aside.deferredVials + {key}), SustainWaits(Deferred));
          } else {
            r := EndSustain(key, RetireSustain(lanes, key), SustainRetired(key));
          }
        case StorageExhausted(why) =>
          var set_aside := SetBaseline(lanes, key, None);
          r := EndSustain(key, set_aside.(blockedStorage := set_aside.blockedStorage[key := why]), SustainWaits(Deferred));
        case SustainTerminal =>
          r := EndSustain(key, RetireSustain(lanes, key), SustainRetired(key));
        case SustainFailed =>
          return SustainError;
      }
    }

    /** One more pending poll; the last one retires the command. */
    method CountPending(key: int) returns (r: SustainPoll)
      requires Valid() && NextSustain(lanes) == Some(key) && InFlight(lanes, key)
      modifies this`lanes, this`sustainPendingPolls, this`diskSlot, this`diskLanes, this`behind, this`book
      ensures Calm(old(book), book)
      ensures SustainKeys(lanes) == SustainKeys(old(lanes))
      ensures Valid() && SustainOutcome(key, SustainPending, old(lanes), lanes, !behind, r)
      ensures SustainAnswered(r, true, old(CountedPolls())) && CountKept(true, old(CountedPolls()))
      ensures r == SustainWaits(LaneOwned) ==> behind == old(behind)
    {
      LanesFit();
      assert InFlight(lanes, key) && key in lanes.pendingSustain;
      var polls := if sustainPendingPolls.Some? && sustainPendingPolls.value.0 == key then sustainPendingPolls.value.1 + 1 else 1;
      sustainPendingPolls := Some((key, polls));
      if polls < SUSTAIN_PENDING_POLL_LIMIT {
        return SustainWaits(LaneOwned);
      }
      var retired: bool := *;
      if !retired {
        return SustainError;
      }
      r := EndSustain(key, RetireSustain(lanes, key), SustainRetired(key));
    }

    /** The bonus leaves the lane; the count is forgotten once that is saved. */
    method EndSustain(key: int, after: LaneState, done: SustainPoll) returns (r: SustainPoll)
      requires Valid() && NextSustain(lanes) == Some(key) && InFlight(lanes, key)
      requires after.operatorGrants == lanes.operatorGrants && SustainKeys(after) == SustainKeys(lanes)
      requires after.pendingSustain == lanes.pendingSustain[key := None] || after.pendingSustain == lanes.pendingSustain - {key}
      requires lanes.deferredVials <= after.deferredVials <= lanes.deferredVials + {key}
      requires after.deferredCapacity == lanes.deferredCapacity
      requires lanes.blockedStorage.Keys <= after.blockedStorage.Keys <= lanes.blockedStorage.Keys + {key}
      modifies this`lanes, this`sustainPendingPolls, this`diskSlot, this`diskLanes, this`behind, this`book
      ensures Calm(old(book), book)
      ensures SustainKeys(lanes) == SustainKeys(old(lanes))
      ensures Valid() && lanes == after && !SustainInFlight(lanes)
      ensures r == if behind then SustainError else done
    {
      var ok := ReleaseSustain(key, after);
      if !ok {
        return SustainError;
      }
      sustainPendingPolls := None;
      return done;
    }

    // ------------------------------------------------------- operator lane

    method SetOperatorAndSave(key: int, g: OperatorGrant) returns (ok: bool)
      requires Valid() && NextOperator(lanes) == Some(key)
      modifies this`lanes, this`diskSlot, this`diskLanes, this`behind, this`book
      ensures NoItem(old(book), book)
      ensures SustainKeys(lanes) == SustainKeys(old(lanes))
      ensures Valid() && lanes == SetOperator(old(lanes), key, g) && behind == !ok
      ensures !g.grantComplete ==> NextOperator(lanes) == Some(key)
      ensures SustainInFlight(lanes) == SustainInFlight(old(lanes))
      ensures forall k :: k != key ==> (OperatorInFlightAt(lanes, k) <==> OperatorInFlightAt(old(lanes), k))
      ensures old(book.clash).None? ==>
        (book.clash.None? <==> g.grantComplete || g.observedBefore.None? || Alone(game.commands, old(lanes), Rescue(key)))
      ensures ClashBy(Rescue(key), old(book.clash), book.clash, game.commands, old(lanes))
    {
      var after := SetOperator(lanes, key, g);
      LanesFit();
      ChangingARescue(lanes, key, g);
      assert OperatorInFlightAt(after, key) <==> !g.grantComplete && g.observedBefore.Some?;
      lanes := after;
      if !g.grantComplete && g.observedBefore.Some? {
        assert Adds(game.commands, old(lanes), Rescue(key), game.commands, lanes);
        Tell(Publishes(Rescue(key)));
      } else {
        assert Quieter(game.commands, old(lanes), game.commands, lanes);
        Tell(Settles);
      }
      ok := SaveLedger();
    }

    /** Advances the lowest unfinished rescue.  The one-command rule is broken only by
        publishing it beside an AP command that has lost its plan, or beside another
        rescue; while the rule stands no rescue command is left in the native slot,
        unless the answer is `Pending`, an error, or a wait for the items. */
    method PollOperatorGrant() returns (r: OperatorPoll)
      requires Valid()
      modifies slot, game, this`lanes, this`sustainPendingPolls, this`diskSlot, this`diskLanes, this`behind,
               heard`context, heard`verdict, heard`observed, heard`sustain, heard`vials, heard`released,
               heard`answer, this`book
      ensures NoItem(old(book), book)
      ensures SustainKeys(lanes) == SustainKeys(old(lanes))
      ensures Valid() && slot.pending == old(slot.pending)
      ensures Fewer(old(game.commands), game.commands)
      ensures book.clash.None? ==> r.OperatorPending? || r.OperatorError? || r.WaitingForItems? || !OperatorInFlight(lanes)
      ensures ClashOnly(old(book.clash), book.clash, old(game.commands), old(lanes))
      ensures book.clash != old(book.clash) ==>
        slot.pending.None? && !old(SustainInFlight(lanes)) && book.clash.value.tag.Rescue? && Some(book.clash.value.tag.key) == NextOperator(old(lanes))
      ensures !r.OperatorError? && behind ==> old(behind)
      ensures r.OperatorIdle? || r.WaitingForItems? ==> lanes == old(lanes) && game.commands == old(game.commands)
      ensures r.OperatorCompleted? || r.OperatorParked? ==> !SustainInFlight(lanes)
      ensures r.OperatorCompleted? ==> r.key in lanes.operatorGrants && lanes.operatorGrants[r.key].grantComplete
      ensures r.OperatorParked? ==> r.key in lanes.operatorParks && r.key !in lanes.operatorGrants
      ensures r.WaitingForItems? ==> slot.pending.Some?
      ensures r.OperatorCompleted? || r.OperatorParked? ==> heard.context == Some(Ready)
      ensures r.OperatorCompleted? ==> heard.answer == Some(GrantDone)
      ensures r.OperatorParked? ==>
        heard.answer.Some? && heard.answer.value.GrantTerminal?
        && lanes.operatorParks[r.key] == FormatPark(heard.answer.value.status, heard.answer.value.detail)
    {
      NextOperatorIsLowest(lanes);
      var next := NextOperator(lanes);
      if next.None? {
        return OperatorIdle;
      }
      var key := next.value;
      if slot.pending.Some? {
        return WaitingForItems;
      }
      if SustainInFlight(lanes) {
        BonusIsOnlyCommand();
        var sustain := PollSustain();
        if sustain.SustainError? {
          return OperatorError;
        }
        if sustain.SustainWaits? {
          return OperatorPending;
        }
        SameRescues(old(lanes), lanes);
        assert Quieter(old(game.commands), old(lanes), game.commands, lanes);
        assert book.clash.None? ==> forall t :: !Outstanding(game.commands, lanes, t);
      }
      r := AdvanceOperator(key);
    }

    /** The rescue once no sustain holds the native slot. */
    method AdvanceOperator(key: int) returns (r: OperatorPoll)
      requires Valid() && slot.pending.None? && !SustainInFlight(lanes) && NextOperator(lanes) == Some(key)
      modifies game, heard`context, heard`answer, this`lanes, this`diskSlot, this`diskLanes, this`behind,
               this`book
      ensures NoItem(old(book), book)
      ensures SustainKeys(lanes) == SustainKeys(old(lanes))
      ensures Valid() && !SustainInFlight(lanes) && Fewer(old(game.commands), game.commands)
      ensures book.clash.None? ==> r.OperatorPending? || r.OperatorError? || !OperatorInFlight(lanes)
      ensures ClashBy(Rescue(key), old(book.clash), book.clash, old(game.commands), old(lanes))
      ensures !r.OperatorError? && behind ==> old(behind)
      ensures !r.OperatorIdle? && !r.WaitingForItems?
      ensures r.OperatorCompleted? || r.OperatorParked? ==>
        && heard.context == Some(Ready) && r.key == key
        && lanes.operatorGrants.Keys - {key} == old(lanes).operatorGrants.Keys - {key}
      ensures r.OperatorCompleted? ==>
        heard.answer == Some(GrantDone) && key in lanes.operatorGrants && lanes.operatorGrants[key].grantComplete
      ensures r.OperatorParked? ==>
        && heard.answer.Some? && heard.answer.value.GrantTerminal? && key !in lanes.operatorGrants && key in lanes.operatorParks
        && lanes.operatorParks[key] == FormatPark(heard.answer.value.status, heard.answer.value.detail)
    {
      NextOperatorIsLowest(lanes);
      var context := RequireRuntimeContext();
      if !context.Ready? {
        var withdrawn: Option<bool> := *;
        var ok := withdrawn.Some?;
        if withdrawn == Some(true) {
          ok := SetOperatorAndSave(key, lanes.operatorGrants[key].(observedBefore := None));
        }
        return if ok && context.NotReady? then OperatorPending else OperatorError;
      }
      if lanes.operatorGrants[key].observedBefore.None? {
        var stop := SampleRescue(key);
        if stop.Some? {
          return stop.value;
        }
      }
      r := FinishOperator(key, lanes.operatorGrants[key]);
    }

    /** The baseline of a rescue, saved before the command is published. */
    method SampleRescue(key: int) returns (stop: Option<OperatorPoll>)
      requires Valid() && !SustainInFlight(lanes) && NextOperator(lanes) == Some(key) && key in lanes.operatorGrants
      requires !lanes.operatorGrants[key].grantComplete
      modifies this`lanes, this`diskSlot, this`diskLanes, this`behind, this`book
      ensures NoItem(old(book), book)
      ensures SustainKeys(lanes) == SustainKeys(old(lanes)) && lanes.operatorGrants.Keys == old(lanes).operatorGrants.Keys
      ensures Valid() && !SustainInFlight(lanes) && NextOperator(lanes) == Some(key)
      ensures ClashBy(Rescue(key), old(book.clash), book.clash, game.commands, old(lanes))
      ensures stop.Some? ==> stop.value.OperatorPending? || stop.value.OperatorError?
      ensures stop != Some(OperatorError) && behind ==> old(behind)
      ensures stop.None? ==> lanes.operatorGrants[key].observedBefore.Some?
    {
      var observation: Observation := *;
      match observation {
        case Quantity(held) =>
          var ok := SetOperatorAndSave(key, lanes.operatorGrants[key].(observedBefore := Some(held)));
          return if ok then None else Some(OperatorError);
        case NotHydrated =>
          return Some(OperatorPending);
        case ObserveFailed =>
          return Some(OperatorError);
      }
    }

    /** What one answer makes of the published rescue. */
    static predicate RescueOutcome(key: int, row: OperatorGrant, answer: GrantAnswer, l: LaneState, l': LaneState, saved: bool, r: OperatorPoll) {
      match answer
      case GrantPending => r == OperatorPending && l' == l
      case GrantFailed => r == OperatorError && l' == l
      case GrantTerminal(status, detail) =>
        && r == (if saved then OperatorParked(key) else OperatorError)
        && l' == ParkOperator(l, key, FormatPark(status, detail))
      case GrantDone =>
        r == (if saved then OperatorCompleted(key) else OperatorError) && l' == SetOperator(l, key, row.(grantComplete := true))
    }

    /** The answer to a published rescue. */
    method FinishOperator(key: int, row: OperatorGrant) returns (r: OperatorPoll)
      requires Valid() && heard.context == Some(Ready) && slot.pending.None? && !SustainInFlight(lanes)
      requires NextOperator(lanes) == Some(key) && key in lanes.operatorGrants && lanes.operatorGrants[key] == row
      requires row.observedBefore.Some?
      modifies this`lanes, heard`answer, this`diskSlot, this`diskLanes, this`behind, this`book
      ensures Calm(old(book), book)
      ensures SustainKeys(lanes) == SustainKeys(old(lanes))
      ensures Valid() && !SustainInFlight(lanes)
      ensures book.clash.None? ==> r.OperatorPending? || r.OperatorError? || !OperatorInFlight(lanes)
      ensures !r.OperatorIdle? && !r.WaitingForItems?
      ensures !r.OperatorError? && behind ==> old(behind)
      ensures heard.answer.Some? && RescueOutcome(key, row, heard.answer.value, old(lanes), lanes, !behind, r)
    {
      var answer: GrantAnswer := *;
      heard.answer := Some(answer);
      match answer {
        case GrantPending =>
          return OperatorPending;
        case GrantFailed =>
          return OperatorError;
        case GrantTerminal(status, detail) =>
          r := EndRescue(key, ParkOperator(lanes, key, FormatPark(status, detail)), OperatorParked(key));
        case GrantDone =>
          r := EndRescue(key, SetOperator(lanes, key, row.(grantComplete := true)), OperatorCompleted(key));
      }
    }

    /** The rescue leaves the lane, delivered or parked. */
    method EndRescue(key: int, after: LaneState, done: OperatorPoll) returns (r: OperatorPoll)
      requires Valid() && !SustainInFlight(lanes) && OperatorInFlightAt(lanes, key)
      requires after == SetOperator(lanes, key, OperatorGrant(lanes.operatorGrants[key].observedBefore, true))
               || exists reason :: after == ParkOperator(lanes, key, reason)
      modifies this`lanes, this`diskSlot, this`diskLanes, this`behind, this`book
      ensures Calm(old(book), book)
      ensures Valid() && lanes == after && SustainKeys(lanes) == SustainKeys(old(lanes)) && !SustainInFlight(lanes)
      ensures r == if behind then OperatorError else done
      ensures book.clash.None? ==> !OperatorInFlight(lanes)
    {
      OnlyRescue(key);
      LeavingRescue(key, after);
      lanes := after;
      Tell(Settles);
      var ok := SaveLedger();
      return if ok then done else OperatorError;
    }

    lemma LeavingRescue(key: int, after: LaneState)
      requires Mid() && key in lanes.operatorGrants
      requires after == SetOperator(lanes, key, OperatorGrant(lanes.operatorGrants[key].observedBefore, true))
               || exists reason :: after == ParkOperator(lanes, key, reason)
      ensures SustainSafe(after) && Quieter(game.commands, lanes, game.commands, after) && SustainKeys(after) == SustainKeys(lanes)
      ensures (forall k :: OperatorInFlightAt(after, k) ==> k != key && OperatorInFlightAt(lanes, k))
      ensures SustainInFlight(after) ==> SustainInFlight(lanes)
    {
      LanesFit();
      if after == SetOperator(lanes, key, OperatorGrant(lanes.operatorGrants[key].observedBefore, true)) {
        ChangingARescue(lanes, key, OperatorGrant(lanes.operatorGrants[key].observedBefore, true));
      } else {
        var reason :| after == ParkOperator(lanes, key, reason);
        ParkingARescue(lanes, key, reason);
      }
    }

    /** While the rule stands a published bonus is the only command. */
    lemma BonusIsOnlyCommand()
      requires Mid() && SustainInFlight(lanes)
      ensures book.clash.None? ==> forall t :: Outstanding(game.commands, lanes, t) ==> t.Bonus?
    {
      OneCommandUnlessClash();
      var key :| key in lanes.pendingSustain && InFlight(lanes, key);
      assert Outstanding(game.commands, lanes, Bonus(key));
    }

    /** While the rule stands a published rescue is the only one. */
    lemma OnlyRescue(key: int)
      requires Mid() && OperatorInFlightAt(lanes, key)
      ensures book.clash.None? ==> forall k :: OperatorInFlightAt(lanes, k) ==> k == key
    {
      OneCommandUnlessClash();
      assert Outstanding(game.commands, lanes, Rescue(key));
      forall k | OperatorInFlightAt(lanes, k) && book.clash.None?
        ensures k == key
      {
        assert Outstanding(game.commands, lanes, Rescue(k));
      }
    }

    // ------------------------------------------------------------ AP items

    /** An answer stood in the way of the delivery: a reading, a save, or the game's own
        word on the grant. */
    ghost predicate Hindered()
      reads this, heard
    {
      heard.refused || behind || (heard.answer.Some? && heard.answer != Some(GrantDone))
    }

    /** What any poll of the stream ends with.  An item that is answered for was due, in
        a ready context and after a Resume.  Nothing is due when the answer is idle.  And
        when an item is due, in a ready context and after a Resume, only another answer
        that stood in the way, or a plan that cannot be made, keeps it from being
        delivered or parked. */
    ghost predicate ItemAnswered(received: seq<IncomingItem>, r: ItemPoll)
      reads this, slot, game, heard
    {
      match r
      case Completed(i) => AnsweredFor(i, r) && WasDue(received, i)
      case Blocked(i) => AnsweredFor(i, r) && WasDue(received, i)
      case Reconciled(outcome) => heard.verdict == Some(outcome) && outcome != Resume && outcome != WatermarkOutcome.Hold
      case Idle =>
        && (slot.pending.Some? ==> slot.pending.value.index == heard.due)
        && heard.due !in LastIndexed(received)
      case _ =>
        DistinctIndices(received) && heard.context == Some(Ready) && heard.verdict == Some(Resume) ==>
          Hindered() || Delivers(heard.due, r)
    }

    ghost predicate WasDue(received: seq<IncomingItem>, i: nat)
      reads heard
    {
      i == heard.due && i in LastIndexed(received) && heard.context == Some(Ready) && heard.verdict == Some(Resume)
    }

    /** What is left once nothing stands in the way: the item is delivered, or parked as
        one this client cannot deliver, or no plan can be made for it. */
    static predicate Delivers(index: nat, r: ItemPoll) {
      r == Completed(index) || r == Blocked(index) || (r.Failed? && (r.failure == PlanMismatch || r.failure.PlanImpossible?))
    }

    /** The plan for the head of the queue belongs to `item`. */
    ghost predicate Planned(item: IncomingItem)
      reads this, slot, game
    {
      && Valid() && !SustainInFlight(lanes)
      && slot.pending.Some? && slot.pending.value.index == item.index && slot.pending.value.apItemId == item.apItemId
    }

    /** Makes the plan for the head of the queue, or refreshes the weapon level
        of one that is not published yet.  `None` means the plan stands and is saved
        as far as it has changed. */
    method EnsurePlan(item: IncomingItem, indexed: map<nat, int>) returns (stop: Option<ItemPoll>)
      requires Valid() && !SustainInFlight(lanes)
      requires item.index == NextIndex(slot.State())
      modifies slot, this`diskSlot, this`diskLanes, this`behind, this`book, heard`refused
      ensures Calm(old(book), book)
      ensures Valid()
      ensures stop.None? ==> Planned(item) && (behind ==> old(behind))
      ensures stop.Some? ==> stop.value.Held? || (stop.value.Failed? && stop.value.failure !in {DeferralRefused, SustainBroke, DuplicateIndex})
      ensures stop.Some? && stop != Some(Failed(Failure.SaveFailed)) ==> slot.pending == old(slot.pending)
      ensures stop == Some(Failed(PlanMismatch)) ==>
        slot.pending.Some? && IncomingItem(slot.pending.value.index, slot.pending.value.apItemId) != item
      ensures slot.pending != old(slot.pending) ==>
        slot.pending.Some? && IncomingItem(slot.pending.value.index, slot.pending.value.apItemId) == item
      ensures slot.pending != old(slot.pending) && old(slot.pending).Some? ==>
        old(slot.pending).value.observedBefore.None? && item.apItemId in config.items
        && exists reading ::
             Refresh(old(slot.pending).value, config.items[item.apItemId], config.autoUpgrade, reading) == Ok(slot.pending.value)
      ensures slot.pending != old(slot.pending) && old(slot.pending).None? ==>
        item.apItemId in config.items
        && exists target, equip ::
             Plan(item, config.items[item.apItemId], config.autoUpgrade, target, equip) == Ok(slot.pending.value)
      ensures stop.Some? ==> heard.refused || behind || (stop.value.Failed? && (stop.value.failure == PlanMismatch || stop.value.failure.PlanImpossible?))
    {
      var census: Option<nat> := *;
      var scanReady: bool := *;
      var readable: bool := *;
      if slot.pending.Some? {
        var p := slot.pending.value;
        if p.index != item.index || p.apItemId != item.apItemId {
          return Some(Failed(PlanMismatch));
        }
        if p.grantComplete || p.observedBefore.Some? || p.apItemId !in config.items
           || config.items[p.apItemId].reinforcementLevel.None? {
          return None;
        }
        if !readable {
          heard.refused := true;
          return Some(Failed(BackendFailed));
        }
        stop := RefreshPlan(UpgradeTargetFor(config.items[p.apItemId], config.autoUpgrade, census, scanReady));
        return;
      }
      if item.apItemId !in config.items {
        return Some(Failed(PlanImpossible(NoBinding)));
      }
      if !readable {
        heard.refused := true;
        return Some(Failed(BackendFailed));
      }
      var reading := UpgradeTargetFor(config.items[item.apItemId], config.autoUpgrade, census, scanReady);
      if reading.Hold? {
        heard.refused := true;
        return Some(Held);
      }
      stop := MakePlan(item, indexed, reading);
    }

    /** One more look at the player's level before the baseline is recorded. */
    method RefreshPlan(reading: UpgradeTarget) returns (stop: Option<ItemPoll>)
      requires Valid() && slot.pending.Some?
      requires var p := slot.pending.value; !p.grantComplete && p.observedBefore.None? && p.apItemId in config.items
      modifies slot, this`diskSlot, this`diskLanes, this`behind, this`book
      ensures Calm(old(book), book)
      ensures Valid()
      ensures var p, b := old(slot.pending).value, config.items[old(slot.pending).value.apItemId];
              match Refresh(p, b, config.autoUpgrade, reading)
              case Ok(q) => slot.pending == Some(q) && stop == if q != p && behind then Some(Failed(Failure.SaveFailed)) else None
              case Err(_) => slot.pending == Some(p) && stop == Some(Failed(PlanImpossible(DescriptorOverflow)))
      ensures stop.None? && behind ==> old(behind)
    {
      PlansAreGrown();
      var p, binding := slot.pending.value, config.items[slot.pending.value.apItemId];
      var raised := RaisedLevel(p, binding, config.autoUpgrade, reading);
      if raised.None? {
        return None;
      }
      var pair := Descriptors(binding, raised);
      if pair.None? {
        return Some(Failed(PlanImpossible(DescriptorOverflow)));
      }
      var r := slot.RaisePendingUpgrade(reading.target, pair.value.0, pair.value.1, raised.value);
      assert Refresh(p, binding, config.autoUpgrade, reading) == Ok(slot.pending.value);
      RefreshedPlanIsGrown(binding, config.autoUpgrade, p, reading);
      Note(OpRaise(reading.target, pair.value.0, pair.value.1, raised.value));
      var ok := SaveLedger();
      return if ok then None else Some(Failed(Failure.SaveFailed));
    }

    method MakePlan(item: IncomingItem, indexed: map<nat, int>, reading: UpgradeTarget) returns (stop: Option<ItemPoll>)
      requires Valid() && !SustainInFlight(lanes) && slot.pending.None?
      requires item.index == NextIndex(slot.State()) && item.apItemId in config.items && reading.Level?
      modifies slot, this`diskSlot, this`diskLanes, this`behind, this`book
      ensures Calm(old(book), book)
      ensures Valid()
      ensures slot.pending.Some? ==>
        && IncomingItem(slot.pending.value.index, slot.pending.value.apItemId) == item
        && exists target, equip ::
             Plan(item, config.items[item.apItemId], config.autoUpgrade, target, equip) == Ok(slot.pending.value)
      ensures stop.None? ==> slot.pending.Some? && !behind
      ensures stop.Some? ==> (behind && stop == Some(Failed(Failure.SaveFailed))) || (slot.pending.None? && stop.value.Failed? && stop.value.failure.PlanImpossible?)
    {
      var binding := config.items[item.apItemId];
      if Descriptors(binding, DeliveredLevel(binding, config.autoUpgrade, reading.target)).None? {
        return Some(Failed(PlanImpossible(DescriptorOverflow)));
      }
      var equip := ComputeEquipTarget(config.items, config.autoEquip, indexed, item.index);
      if equip.Err? {
        return Some(Failed(PlanImpossible(equip.error)));
      }
      var planned := Plan(item, binding, config.autoUpgrade, reading.target, equip.value);
      NewPlanIsGrown(item, binding, config.autoUpgrade, reading.target, equip.value);
      BeginPlan(planned.value);
      var ok := SaveLedger();
      return if ok then None else Some(Failed(Failure.SaveFailed));
    }

    method BeginPlan(plan: PendingItem)
      requires Valid() && !SustainInFlight(lanes) && slot.pending.None?
      requires plan.index == NextIndex(slot.State()) && !plan.grantComplete && plan.observedBefore.None?
      requires plan.apItemId in config.items && Grown(config.items[plan.apItemId], config.autoUpgrade, plan)
      modifies slot, this`book
      ensures Calm(old(book), book)
      ensures Mid() && slot.pending == Some(plan)
    {
      var r := slot.Begin(plan);
      Note(OpBegin(plan));
    }

    method NoteSaveWatermark(index: nat)
      requires Mid()
      modifies slot`saveWatermark, this`book
      ensures Calm(old(book), book)
      ensures Mid()
      ensures slot.saveWatermark == old(slot.saveWatermark) || slot.saveWatermark == Some(index)
    {
      var accepted: bool := *;
      if accepted {
        slot.saveWatermark := Some(index);
        Note(OpNoteWatermark(index));
      }
    }

    function Receipt(item: IncomingItem, p: PendingItem, blocked: Option<string>): AcknowledgedItem {
      AcknowledgedItem(item.apItemId, p.rawDescriptor, p.normalizedItemId, p.itemCategory,
                       p.quantity, p.reinforcementLevel, p.equipTarget, blocked)
    }

    /** Retires the head of the queue in memory, delivered or parked. */
    method RetireHead(item: IncomingItem, blocked: Option<string>)
      requires Planned(item)
      requires blocked.None? ==>
        slot.pending.value.grantComplete && (slot.pending.value.equipTarget.Some? ==> slot.pending.value.equipComplete)
      modifies slot, this`book
      ensures Calm(old(book), book)
      ensures Mid() && slot.pending.None?
      ensures slot.acknowledged == old(slot.acknowledged)[item.index := Receipt(item, old(slot.pending).value, blocked)]
      ensures slot.deferredVialAp == old(slot.deferredVialAp) && slot.saveWatermark == old(slot.saveWatermark)
      ensures book.delivered >= old(book.delivered) && (blocked.None? ==> item.index in book.delivered)
    {
      PlanIsHead();
      var receipt := Receipt(item, slot.pending.value, blocked);
      if blocked.Some? {
        var ok := slot.AcknowledgeBlocked(item.index, receipt);
        Note(OpAcknowledgeBlocked(item.index, receipt));
      } else {
        var ok := slot.Acknowledge(item.index, receipt);
        Note(OpAcknowledge(item.index, receipt));
      }
    }

    method DeferVial(index: nat)
      requires Mid()
      modifies slot`deferredVialAp, this`book
      ensures Calm(old(book), book)
      ensures Mid()
      ensures slot.deferredVialAp == old(slot.deferredVialAp) + {index}
    {
      slot.deferredVialAp := slot.deferredVialAp + {index};
      Note(OpDefer(index));
    }

    /** A Vial refused because none is held, or because the pouch is full. */
    predicate IsDeferredVial(item: IncomingItem, p: PendingItem, status: string, detail: string) {
      && p.itemCategory == 4 && p.normalizedItemId == BLOOD_VIAL_NORMALIZED_ID
      && IsVialPark(FormatPark(status, detail), GrantTag(item.index))
    }

    /** Acknowledges the head of the queue as parked, so the stream moves on. */
    method ParkTerminalGrant(item: IncomingItem, status: string, detail: string) returns (r: ItemPoll)
      requires Planned(item)
      modifies slot, this`diskSlot, this`diskLanes, this`behind, this`book
      ensures Calm(old(book), book)
      ensures Valid() && slot.pending.None?
      ensures r == if behind then Failed(Failure.SaveFailed) else Blocked(item.index)
      ensures slot.acknowledged ==
              old(slot.acknowledged)[item.index := Receipt(item, old(slot.pending).value, Some(FormatPark(status, detail)))]
      ensures slot.deferredVialAp == old(slot.deferredVialAp)
                                     + (if IsDeferredVial(item, old(slot.pending).value, status, detail) then {item.index} else {})
      ensures slot.saveWatermark == old(slot.saveWatermark) || slot.saveWatermark == Some(item.index)
    {
      ParkHead(item, FormatPark(status, detail), IsDeferredVial(item, slot.pending.value, status, detail));
      NoteSaveWatermark(item.index);
      var ok := SaveLedger();
      return if ok then Blocked(item.index) else Failed(Failure.SaveFailed);
    }

    method ParkHead(item: IncomingItem, park: string, deferred: bool)
      requires Planned(item)
      modifies slot, this`book
      ensures Calm(old(book), book)
      ensures Mid() && slot.pending.None?
      ensures slot.acknowledged == old(slot.acknowledged)[item.index := Receipt(item, old(slot.pending).value, Some(park))]
      ensures slot.deferredVialAp == old(slot.deferredVialAp) + (if deferred then {item.index} else {})
      ensures slot.saveWatermark == old(slot.saveWatermark)
    {
      RetireHead(item, Some(park));
      if deferred {
        DeferVial(item.index);
      }
    }

    /** The baseline to publish with.  A recorded one is kept while the command it
        belongs to may have applied, and sampled afresh once the machine says it cannot
        have.  When the save of a fresh sample fails, the sample stays in memory: the
        next poll may take it for binding although the disk does not have it. */
    method ResolveBaseline(item: IncomingItem) returns (r: Result<nat, ItemPoll>)
      requires Planned(item) && !slot.pending.value.grantComplete
      modifies slot, game, heard`unrecorded, this`diskSlot, this`diskLanes, this`behind, this`book,
               heard`refused
      ensures Calm(old(book), book)
      ensures Planned(item) && Fewer(old(game.commands), game.commands)
      ensures !slot.pending.value.grantComplete && Row(slot.pending.value) == Row(old(slot.pending).value)
      ensures r.Ok? ==> (behind ==> old(behind))
      ensures r.Ok? && !heard.unrecorded ==> BaselineOf(Awards(), slot.pending.value) == Some(r.value)
      ensures r.Err? ==> r.error == Pending(NotObservable) || r.error == Failed(BackendFailed) || r.error == Failed(Failure.SaveFailed)
      ensures r == Err(Failed(Failure.SaveFailed)) ==>
        behind && diskSlot == old(diskSlot) && slot.pending.value.observedBefore.Some?
      ensures slot.pending == old(slot.pending) || (slot.pending.value.observedBefore.Some? && (r.Err? || !behind))
      ensures slot.acknowledged == old(slot.acknowledged)
      ensures r.Err? ==> heard.refused || behind
    {
      heard.unrecorded := false;
      var p := slot.pending.value;
      if IsToken(Awards(), p) {
        return Ok(0);
      }
      if p.observedBefore.Some? {
        var binding := GrantMayHaveApplied(item.index);
        if binding {
          return Ok(p.observedBefore.value);
        }
      }
      r := SampleBaseline(item);
    }

    /** A fresh baseline, from the stack as it is seen now. */
    method SampleBaseline(item: IncomingItem) returns (r: Result<nat, ItemPoll>)
      requires Planned(item) && !slot.pending.value.grantComplete && !IsToken(Awards(), slot.pending.value)
      requires slot.pending.value.observedBefore.None? || MayBeResampled(game.commands, item.index)
      modifies slot, heard`unrecorded, heard`refused, this`diskSlot, this`diskLanes, this`behind, this`book
      ensures Calm(old(book), book)
      ensures Planned(item) && !slot.pending.value.grantComplete && Row(slot.pending.value) == Row(old(slot.pending).value)
      ensures r.Ok? ==> (behind ==> old(behind))
      ensures r.Ok? && !heard.unrecorded ==> BaselineOf(Awards(), slot.pending.value) == Some(r.value)
      ensures r.Err? ==> r.error == Pending(NotObservable) || r.error == Failed(BackendFailed) || r.error == Failed(Failure.SaveFailed)
      ensures r == Err(Failed(Failure.SaveFailed)) ==>
        behind && diskSlot == old(diskSlot) && slot.pending.value.observedBefore.Some?
      ensures r.Err? ==> heard.refused || behind
      ensures slot.pending == old(slot.pending) || (slot.pending.value.observedBefore.Some? && (r.Err? || !behind))
      ensures slot.acknowledged == old(slot.acknowledged)
    {
      var supported: bool := *;
      if !supported {
        var delivered_quantity: nat := *;
        heard.unrecorded := true;
        return Ok(delivered_quantity);
      }
      var observation: Observation := *;
      match observation {
        case Quantity(held) =>
          var ok := RecordBaseline(item, held);
          return if ok then Ok(held) else Err(Failed(Failure.SaveFailed));
        case NotHydrated =>
          heard.refused := true;
          return Err(Pending(NotObservable));
        case ObserveFailed =>
          heard.refused := true;
          return Err(Failed(BackendFailed));
      }
    }

    method RecordBaseline(item: IncomingItem, held: nat) returns (ok: bool)
      requires Planned(item) && !slot.pending.value.grantComplete
      requires slot.pending.value.observedBefore.None? || MayBeResampled(game.commands, item.index)
      modifies slot, this`diskSlot, this`diskLanes, this`behind, this`book
      ensures Calm(old(book), book)
      ensures Planned(item) && behind == !ok
      ensures slot.pending == Some(old(slot.pending).value.(observedBefore := Some(held)))
      ensures !ok ==> diskSlot == old(diskSlot)
      ensures slot.acknowledged == old(slot.acknowledged)
    {
      var recorded := slot.RecordObservedBefore(held);
      Note(OpRecord(held));
      ok := SaveLedger();
    }

    method MarkGranted(item: IncomingItem) returns (ok: bool)
      requires Planned(item) && !Unexecuted(game.commands, item.index)
      modifies slot, this`diskSlot, this`diskLanes, this`behind, this`book
      ensures Calm(old(book), book)
      ensures Planned(item) && slot.pending.value.grantComplete && behind == !ok
      ensures Row(slot.pending.value) == Row(old(slot.pending).value) && slot.acknowledged == old(slot.acknowledged)
    {
      var granted := slot.MarkGrantComplete();
      Note(OpGranted);
      var inStorage: bool := *;
      if item.apItemId in config.awards && inStorage {
        var routed := slot.MarkTokenRoutedToStorage();
        Note(OpRouted);
      }
      ok := SaveLedger();
    }

    /** Publications were backed, but for one made after a failed save, or at an amount
        that cannot be observed. */
    ghost predicate ExactUnless(was: Book, behindBefore: bool)
      reads this, heard
    {
      && was.delivered <= book.delivered
      && (book.exact ==> was.exact)
      && (was.exact && !book.exact ==> behindBefore || heard.unrecorded)
    }

    /** The item's place in the ledger once it is answered for. */
    ghost predicate AnsweredFor(index: nat, r: ItemPoll)
      reads this, slot, game
    {
      && (r.Completed? ==>
            && r.index == index && slot.pending.None? && !behind
            && index in slot.acknowledged && slot.acknowledged[index].blocked.None?
            && index in book.delivered && game.applied[index] >= 1)
      && (r.Blocked? ==>
            && r.index == index && slot.pending.None? && !behind
            && index in slot.acknowledged && slot.acknowledged[index].blocked.Some?)
    }

    /** Publishes the grant against its baseline.  `None` means it is complete and
        recorded as such.  `exact` falls only when an earlier save has failed and none
        has succeeded since, or the stack cannot be read at all. */
    method GrantHead(item: IncomingItem) returns (stop: Option<ItemPoll>)
      requires Planned(item) && heard.context == Some(Ready) && heard.verdict == Some(Resume)
      modifies slot, game, heard`answer, heard`found, heard`unrecorded, this`diskSlot, this`diskLanes,
               this`behind, this`book, heard`refused
      ensures Valid()
      ensures ExactUnless(old(book), old(behind))
      ensures ClashBy(Item(item.index), old(book.clash), book.clash, old(game.commands), lanes)
      ensures stop.None? ==> Planned(item) && slot.pending.value.grantComplete && (behind ==> old(behind))
      ensures stop.None? ==> slot.acknowledged == old(slot.acknowledged)
      ensures stop.Some? ==> (stop.value.Pending? && stop.value.why != LaneOwned) || stop == Some(Blocked(item.index))
                             || stop == Some(Failed(BackendFailed)) || stop == Some(Failed(Failure.SaveFailed))
      ensures stop == Some(Failed(Failure.SaveFailed)) ==> behind
      ensures slot.pending.Some? ==> Planned(item) && Row(slot.pending.value) == Row(old(slot.pending).value)
      ensures slot.pending.None? ==>
        && stop.Some? && heard.answer.Some? && heard.answer.value.GrantTerminal?
        && slot.acknowledged == old(slot.acknowledged)[item.index :=
             Receipt(item, old(slot.pending).value, Some(FormatPark(heard.answer.value.status, heard.answer.value.detail)))]
      ensures stop == Some(Blocked(item.index)) ==> slot.pending.None? && !behind
      ensures stop.None? && !old(slot.pending.value.grantComplete) ==> heard.answer == Some(GrantDone)
      ensures stop == Some(Pending(Delivering)) ==> heard.answer == Some(GrantPending)
      ensures old(slot.pending.value.grantComplete) ==> stop.None? && slot.pending == old(slot.pending) && book.exact == old(book.exact)
      ensures stop.Some? ==> Hindered()
    {
      if slot.pending.value.grantComplete {
        return None;
      }
      var baseline := ResolveBaseline(item);
      if baseline.Err? {
        return Some(baseline.error);
      }
      stop := PublishHead(item, baseline.value);
    }

    /** Publishes the grant at `baseline` and follows the answer. */
    method PublishHead(item: IncomingItem, baseline: nat) returns (stop: Option<ItemPoll>)
      requires Planned(item) && heard.context == Some(Ready) && heard.verdict == Some(Resume)
      requires !slot.pending.value.grantComplete
      modifies slot, game, this`diskSlot, this`diskLanes, this`behind, heard`answer, heard`found, this`book
      ensures Valid() && book.delivered >= old(book.delivered)
      ensures book.exact ==> old(book.exact)
      ensures old(book.exact) && !book.exact ==> old(behind) || BaselineOf(Awards(), old(slot.pending).value) != Some(baseline)
      ensures ClashBy(Item(item.index), old(book.clash), book.clash, old(game.commands), lanes)
      ensures heard.answer.Some? && AnswerFollowed(item, heard.answer.value, stop)
      ensures heard.answer.value.GrantTerminal? <==> slot.pending.None?
      ensures slot.pending.Some? ==>
        && Planned(item) && Row(slot.pending.value) == Row(old(slot.pending).value) && slot.acknowledged == old(slot.acknowledged)
      ensures slot.pending.None? ==>
        slot.acknowledged == old(slot.acknowledged)[item.index :=
             Receipt(item, old(slot.pending).value, Some(FormatPark(heard.answer.value.status, heard.answer.value.detail)))]
      ensures stop.None? ==> !behind && slot.pending.Some? && slot.pending.value.grantComplete
    {
      var answer := GrantItem(item.index, baseline);
      stop := FollowAnswer(item, answer);
    }

    ghost predicate AnswerFollowed(item: IncomingItem, answer: GrantAnswer, stop: Option<ItemPoll>)
      reads this
    {
      match answer
      case GrantPending => stop == Some(Pending(Delivering))
      case GrantFailed => stop == Some(Failed(BackendFailed))
      case GrantTerminal(_, _) => stop == Some(if behind then Failed(Failure.SaveFailed) else Blocked(item.index))
      case GrantDone => stop == if behind then Some(Failed(Failure.SaveFailed)) else None
    }

    /** What the game's answer to the published command comes to. */
    method FollowAnswer(item: IncomingItem, answer: GrantAnswer) returns (stop: Option<ItemPoll>)
      requires Planned(item) && !slot.pending.value.grantComplete
      requires answer.GrantDone? ==> !Unexecuted(game.commands, item.index)
      modifies slot, this`diskSlot, this`diskLanes, this`behind, this`book
      ensures Valid() && Calm(old(book), book)
      ensures AnswerFollowed(item, answer, stop)
      ensures answer.GrantPending? || answer.GrantFailed? ==> slot.State() == old(slot.State()) && behind == old(behind)
      ensures answer.GrantTerminal? ==>
        && slot.pending.None?
        && slot.acknowledged == old(slot.acknowledged)[item.index :=
             Receipt(item, old(slot.pending).value, Some(FormatPark(answer.status, answer.detail)))]
      ensures answer.GrantDone? ==> slot.pending.Some? && slot.pending.value.grantComplete && slot.acknowledged == old(slot.acknowledged)
      ensures slot.pending.Some? ==> Planned(item) && Row(slot.pending.value) == Row(old(slot.pending).value)
    {
      match answer {
        case GrantPending =>
          return Some(Pending(Delivering));
        case GrantFailed =>
          return Some(Failed(BackendFailed));
        case GrantTerminal(status, detail) =>
          var parked := ParkTerminalGrant(item, status, detail);
          return Some(parked);
        case GrantDone =>
          var ok := MarkGranted(item);
          return if ok then None else Some(Failed(Failure.SaveFailed));
      }
    }

    /** A bridge token is delivered only when the game's event has consumed it
        and raised the item's own flag. */
    method AwardLanded(item: IncomingItem) returns (stop: Option<ItemPoll>, ghost flag: Result<Option<bool>, ()>, ghost token: Observation)
      modifies heard`landed, heard`refused
      ensures item.apItemId !in config.awards ==> stop.None?
      ensures item.apItemId in config.awards ==>
        stop == if flag.Err? then Some(Failed(BackendFailed))
                else if flag != Ok(Some(true)) then Some(Pending(Delivering))
                else if token.ObserveFailed? then Some(Failed(BackendFailed))
                else if token == Quantity(0) then None
                else Some(Pending(Delivering))
      ensures item.apItemId in config.awards && flag == Ok(Some(true)) && token == Quantity(0) ==> heard.landed == Some(item.index)
      ensures stop.Some? ==> heard.refused
    {
      var raised: Result<Option<bool>, ()> := *;
      var stack: Observation := *;
      flag, token := raised, stack;
      if item.apItemId !in config.awards {
        return None, flag, token;
      }
      heard.refused := true;
      match raised {
        case Err(_) => return Some(Failed(BackendFailed)), flag, token;
        case Ok(answer) =>
          if answer != Some(true) {
            return Some(Pending(Delivering)), flag, token;
          }
      }
      match stack {
        case ObserveFailed => stop := Some(Failed(BackendFailed));
        case NotHydrated => stop := Some(Pending(Delivering));
        case Quantity(held) =>
          if held != 0 {
            stop := Some(Pending(Delivering));
          } else {
            heard.landed, heard.refused := Some(item.index), false;
            stop := None;
          }
      }
    }

    /** A refused equip never holds the stream: the item is in the inventory. */
    method EquipHead(item: IncomingItem) returns (stop: Option<ItemPoll>)
      requires Planned(item) && slot.pending.value.grantComplete
      modifies slot, this`diskSlot, this`diskLanes, this`behind, this`book, heard`refused
      ensures Calm(old(book), book)
      ensures Planned(item) && slot.pending.value.grantComplete
      ensures stop.None? ==> (behind ==> old(behind)) && (slot.pending.value.equipTarget.Some? ==> slot.pending.value.equipComplete)
      ensures stop.Some? ==> stop == Some(Pending(Delivering)) || (behind && stop == Some(Failed(Failure.SaveFailed)))
      ensures slot.saveWatermark == old(slot.saveWatermark) && slot.acknowledged == old(slot.acknowledged)
      ensures Row(slot.pending.value) == Row(old(slot.pending).value)
      ensures stop.Some? ==> heard.refused || behind
    {
      if slot.pending.value.equipTarget.None? || slot.pending.value.equipComplete {
        return None;
      }
      var answer: EquipAnswer := *;
      if answer.EquipPending? {
        heard.refused := true;
        return Some(Pending(Delivering));
      }
      var equipped := slot.MarkEquipComplete();
      Note(OpEquipped);
      var ok := SaveLedger();
      return if ok then None else Some(Failed(Failure.SaveFailed));
    }

    /** The steps after the grant: the game's own acknowledgement of a bridge
        token, the equip, and the acknowledgement.  When only its save fails the item is
        acknowledged in memory and the poll is an error. */
    method FinishDelivery(item: IncomingItem) returns (r: ItemPoll)
      requires Planned(item) && slot.pending.value.grantComplete
      modifies slot, heard`landed, this`diskSlot, this`diskLanes, this`behind, this`book, heard`refused
      ensures Calm(old(book), book)
      ensures Valid()
      ensures r == Completed(item.index) || r == Pending(Delivering) || r == Failed(BackendFailed) || r == Failed(Failure.SaveFailed)
      ensures r.Completed? ==> slot.pending.None? && !behind
      ensures r == Failed(Failure.SaveFailed) ==> behind
      ensures slot.pending.Some? ==> Planned(item)
      ensures slot.pending.None? ==>
        && slot.acknowledged == old(slot.acknowledged)[item.index := Receipt(item, old(slot.pending).value, None)]
        && item.index in book.delivered && game.applied[item.index] >= 1
        && (item.apItemId in config.awards ==> heard.landed == Some(item.index))
        && (slot.saveWatermark == old(slot.saveWatermark) || slot.saveWatermark == Some(item.index))
      ensures !r.Completed? ==> heard.refused || behind
    {
      var stop, _, _ := AwardLanded(item);
      if stop.Some? {
        return stop.value;
      }
      stop := EquipHead(item);
      if stop.Some? {
        return stop.value;
      }
      CompletePlanWasApplied();
      r := AcknowledgeHead(item);
    }

    method AcknowledgeHead(item: IncomingItem) returns (r: ItemPoll)
      requires Planned(item) && slot.pending.value.grantComplete
      requires slot.pending.value.equipTarget.Some? ==> slot.pending.value.equipComplete
      modifies slot, this`diskSlot, this`diskLanes, this`behind, this`book
      ensures Valid() && Calm(old(book), book) && slot.pending.None? && item.index in book.delivered
      ensures r == if behind then Failed(Failure.SaveFailed) else Completed(item.index)
      ensures slot.acknowledged == old(slot.acknowledged)[item.index := Receipt(item, old(slot.pending).value, None)]
      ensures slot.saveWatermark == old(slot.saveWatermark) || slot.saveWatermark == Some(item.index)
    {
      RetireHead(item, None);
      NoteSaveWatermark(item.index);
      var ok := SaveLedger();
      return if ok then Completed(item.index) else Failed(Failure.SaveFailed);
    }

    /** Why this client cannot deliver the plan at all, if it cannot. */
    function Undeliverable(item: IncomingItem, p: PendingItem): Option<string> {
      if p.reinforcementLevel.Some? && p.reinforcementLevel.value > 0
         && IsNonUpgradableShield(p.normalizedItemId, p.reinforcementLevel) then Some("invalid_shield_plan")
      else if item.apItemId in config.items && config.items[item.apItemId].evidence.UnreviewedAttire? then Some("unreviewed_attire")
      else if item.apItemId in config.items && config.items[item.apItemId].evidence.Unknown? then Some("unknown_descriptor_evidence")
      else None
    }

    method DeliverHead(item: IncomingItem, indexed: map<nat, int>) returns (r: ItemPoll)
      requires heard.context == Some(Ready) && heard.verdict == Some(Resume)
      requires Valid() && !SustainInFlight(lanes)
      requires item.index == NextIndex(slot.State())
      modifies slot, game, heard`landed, heard`answer, heard`found, heard`unrecorded, this`diskSlot,
               this`diskLanes, this`behind, this`book, heard`refused
      ensures Valid()
      ensures ExactUnless(old(book), old(behind))
      ensures ClashBy(Item(item.index), old(book.clash), book.clash, old(game.commands), lanes)
      ensures !r.Idle? && !r.Reconciled? && (r.Pending? ==> r.why != LaneOwned)
      ensures r.Failed? ==> r.failure !in {DeferralRefused, SustainBroke, DuplicateIndex}
      ensures r == Failed(PlanMismatch) ==>
        old(slot.pending).Some? && IncomingItem(old(slot.pending).value.index, old(slot.pending).value.apItemId) != item
      ensures slot.pending.Some? && old(slot.pending) != slot.pending ==>
        IncomingItem(slot.pending.value.index, slot.pending.value.apItemId) == item
      ensures AnsweredFor(item.index, r)
      ensures !Hindered() ==> Delivers(item.index, r)
    {
      heard.unrecorded := false;
      var stop := EnsurePlan(item, indexed);
      if stop.Some? {
        return stop.value;
      }
      r := DeliverPlanned(item);
    }

    /** The delivery of a plan that stands. */
    method DeliverPlanned(item: IncomingItem) returns (r: ItemPoll)
      requires heard.context == Some(Ready) && heard.verdict == Some(Resume)
      requires Planned(item)
      modifies slot, game, heard`landed, heard`answer, heard`found, heard`unrecorded, this`diskSlot,
               this`diskLanes, this`behind, this`book, heard`refused
      ensures Valid()
      ensures ExactUnless(old(book), old(behind))
      ensures ClashBy(Item(item.index), old(book.clash), book.clash, old(game.commands), lanes)
      ensures (r.Pending? && r.why != LaneOwned) || r == Completed(item.index) || r == Blocked(item.index)
              || r == Failed(BackendFailed) || r == Failed(Failure.SaveFailed)
      ensures AnsweredFor(item.index, r)
      ensures slot.pending.Some? ==> slot.pending.value.index == item.index && slot.pending.value.apItemId == item.apItemId
      ensures !r.Completed? && !r.Blocked? ==> Hindered()
    {
      var status := Undeliverable(item, slot.pending.value);
      if status.Some? {
        r := ParkTerminalGrant(item, status.value, "this client cannot deliver the item");
        return;
      }
      var stop := GrantHead(item);
      if stop.Some? {
        return stop.value;
      }
      r := FinishDelivery(item);
    }

    function CompatibleItems(): set<int> {
      set id | id in config.items && config.items[id].evidence.Known?
    }

    /** Nothing to deliver: a restore may still have happened. */
    method PollIdle() returns (r: ItemPoll)
      requires Valid()
      modifies slot, game, heard`context, heard`verdict, heard`observed, this`diskSlot, this`diskLanes,
               this`behind, this`book
      ensures Calm(old(book), book)
      ensures Valid() && Fewer(old(game.commands), game.commands)
      ensures slot.pending == old(slot.pending) || slot.pending.None?
      ensures r.Idle? ==> slot.pending == old(slot.pending)
      ensures IdleAnswer(old(slot.saveWatermark).Some?, heard.context, heard.verdict, r)
    {
      heard.context, heard.verdict := None, None;
      if slot.saveWatermark.Some? {
        var context := RequireRuntimeContext();
        if context.Ready? {
          var outcome := ReconcileWatermark();
          return match outcome
            case Err(e) => Failed(e)
            case Ok(Resume) => Idle
            case Ok(Hold) => Held
            case Ok(other) => Reconciled(other);
        }
      }
      return Idle;
    }

    /** The context is gone: a published command must not run against it.  Its baseline
        is dropped exactly when the game gave the command back and no save was refused. */
    method LoseContext(context: Context) returns (r: ItemPoll)
      requires Valid() && !context.Ready?
      modifies slot, game, heard`withdrew, this`diskSlot, this`diskLanes, this`behind, this`book
      ensures Calm(old(book), book)
      ensures Valid()
      ensures var owed := old(slot.pending).Some? && !old(slot.pending).value.grantComplete;
              var cleared := owed && context.NotReady? && heard.withdrew == Some(true);
              && slot.State() == (if cleared then ClearObservedBefore(old(slot.State())) else old(slot.State()))
              && r == if context.Refused? then Failed(ContextRefused)
                      else if owed && heard.withdrew.None? then Failed(BackendFailed)
                      else if slot.State() != old(slot.State()) && behind then Failed(Failure.SaveFailed)
                      else Pending(ContextLost)
    {
      if slot.pending.Some? && !slot.pending.value.grantComplete {
        var withdrawn := WithdrawGrant(slot.pending.value.index);
        if context.NotReady? && withdrawn.None? {
          return Failed(BackendFailed);
        }
        if context.NotReady? && withdrawn == Some(true) {
          var ok := ForgetBaseline();
          if !ok {
            return Failed(Failure.SaveFailed);
          }
        }
      }
      return if context.NotReady? then Pending(ContextLost) else Failed(ContextRefused);
    }

    /** Drops the baseline of a command that was withdrawn; saves if there was one. */
    method ForgetBaseline() returns (ok: bool)
      requires Valid() && slot.pending.Some? && !slot.pending.value.grantComplete
      requires slot.pending.value.index !in game.commands
      modifies slot, this`diskSlot, this`diskLanes, this`behind, this`book
      ensures Calm(old(book), book)
      ensures Valid()
      ensures slot.State() == ClearObservedBefore(old(slot.State()))
      ensures ok <==> slot.State() == old(slot.State()) || !behind
    {
      var had := slot.ClearObservedBefore();
      Note(OpClear);
      ok := true;
      if had {
        ok := SaveLedger();
      }
    }

    /** What the answers heard make of a poll with nothing due. */
    static predicate IdleAnswer(watched: bool, context: Option<Context>, verdict: Option<WatermarkOutcome>, r: ItemPoll) {
      if watched && context == Some(Ready) then
        match verdict
        case None => r == Failed(WatermarkUnreadable) || r == Failed(Failure.SaveFailed)
        case Some(Resume) => r == Idle
        case Some(Hold) => r == Held
        case Some(other) => r == Reconciled(other)
      else r == Idle && verdict.None?
    }

    /** What they make of a poll with an item due. */
    static predicate DueAnswer(index: nat, context: Option<Context>, verdict: Option<WatermarkOutcome>, r: ItemPoll) {
      match context
      case None => false
      case Some(NotReady) => (r == Pending(ContextLost) || r == Failed(BackendFailed) || r == Failed(Failure.SaveFailed)) && verdict.None?
      case Some(Refused) => r == Failed(ContextRefused) && verdict.None?
      case Some(Ready) =>
        match verdict
        case None => r == Failed(WatermarkUnreadable) || r == Failed(Failure.SaveFailed)
        case Some(Resume) =>
          && !r.Idle? && !r.Reconciled? && (r.Completed? || r.Blocked? ==> r.index == index)
          && (r.Failed? ==> r.failure !in {DeferralRefused, SustainBroke, DuplicateIndex})
        case Some(Hold) => r == Held
        case Some(other) => r == Reconciled(other)
    }

    /** The item at the head of the queue, if the stream has it. */
    static predicate IsDue(received: seq<IncomingItem>, s: Slot) {
      NextIndex(s) in LastIndexed(received)
    }

    /** The poll once no sustain holds the native slot.  Its answer is the first
        obstacle in a fixed order: the stream, the context, the watermark.  It is idle
        with a plan in progress exactly when the stream does not carry the plan's index. */
    method PollQueue(received: seq<IncomingItem>) returns (r: ItemPoll)
      requires Valid() && !SustainInFlight(lanes)
      modifies slot, game, this`diskSlot, this`diskLanes, this`behind, heard`context, heard`verdict,
               heard`observed, heard`withdrew, heard`landed, heard`answer, heard`found, heard`unrecorded,
               this`book, heard`refused, heard`due
      ensures Valid()
      ensures ExactUnless(old(book), old(behind))
      ensures ClashOnly(old(book.clash), book.clash, old(game.commands), lanes)
      ensures book.clash != old(book.clash) ==> BesideStray(book.clash.value, old(slot.pending))
      ensures r.Idle? ==> Fewer(old(game.commands), game.commands)
      ensures old(PlanIsReceived(received)) ==> PlanIsReceived(received) && r != Failed(PlanMismatch)
      ensures r.Idle? ==> slot.pending == old(slot.pending)
      ensures ItemAnswered(received, r)
      ensures (r.Pending? ==> r.why != LaneOwned) && r != Failed(DeferralRefused)
      ensures if !DistinctIndices(received) then r == Failed(DuplicateIndex)
              else if IsDue(received, old(slot.State())) then
                DueAnswer(NextIndex(old(slot.State())), heard.context, heard.verdict, r)
              else IdleAnswer(old(slot.saveWatermark).Some?, heard.context, heard.verdict, r)
      ensures heard.due == NextIndex(old(slot.State()))
    {
      var head := LookAtQueue(received);
      match head {
        case None => return Failed(DuplicateIndex);
        case Some((None, _)) => r := PollIdle();
        case Some((Some(item), indexed)) => r := PollDue(item, indexed);
      }
    }

    /** A poll of the queue begins. */
    method LookAtQueue(received: seq<IncomingItem>) returns (head: Option<(Option<IncomingItem>, map<nat, int>)>)
      requires Valid()
      modifies heard`answer, heard`refused, heard`due
      ensures Valid() && heard.answer.None? && !heard.refused && heard.due == NextIndex(slot.State())
      ensures slot.pending.Some? ==> slot.pending.value.index == heard.due
      ensures head.Some? <==> DistinctIndices(received)
      ensures head.Some? ==>
        match head.value.0
        case Some(item) =>
          && item in received && item.index == NextIndex(slot.State()) && IsDue(received, slot.State())
          && (slot.pending.Some? && PlanIsReceived(received) ==> item == IncomingItem(slot.pending.value.index, slot.pending.value.apItemId))
        case None => !IsDue(received, slot.State())
    {
      PlanIsHead();
      heard.answer, heard.refused, heard.due := None, false, NextIndex(slot.State());
      head := FindHead(received);
    }

    /** The item at the head of the queue, if the received list is sound and has it. */
    method FindHead(received: seq<IncomingItem>) returns (head: Option<(Option<IncomingItem>, map<nat, int>)>)
      requires Valid()
      ensures head.Some? <==> DistinctIndices(received)
      ensures head.Some? ==>
        match head.value.0
        case Some(item) =>
          && item in received && item.index == NextIndex(slot.State()) && IsDue(received, slot.State())
          && (slot.pending.Some? && PlanIsReceived(received) ==> item == IncomingItem(slot.pending.value.index, slot.pending.value.apItemId))
        case None => !IsDue(received, slot.State())
    {
      PlanIsHead();
      var next := slot.NextDue();
      var indexed := IndexedReceived(received);
      if indexed.None? {
        return None;
      }
      IndexedMeansReceived(received, next);
      if next !in indexed.value {
        return Some((None, indexed.value));
      }
      var item := IncomingItem(next, indexed.value[next]);
      assert item in received && item.index == next;
      if slot.pending.Some? && PlanIsReceived(received) {
        DistinctMeansUnique(received, IncomingItem(slot.pending.value.index, slot.pending.value.apItemId), item);
      }
      return Some((Some(item), indexed.value));
    }

    /** The poll with an item due: context, watermark, delivery. */
    method PollDue(item: IncomingItem, indexed: map<nat, int>) returns (r: ItemPoll)
      requires Valid() && !SustainInFlight(lanes)
      requires item.index == NextIndex(slot.State())
      modifies slot, game, this`diskSlot, this`diskLanes, this`behind, heard`context, heard`verdict,
               heard`observed, heard`withdrew, heard`landed, heard`answer, heard`found, heard`unrecorded,
               this`book, heard`refused
      ensures Valid()
      ensures ExactUnless(old(book), old(behind))
      ensures ClashBy(Item(item.index), old(book.clash), book.clash, old(game.commands), lanes)
      ensures r.Pending? ==> r.why != LaneOwned
      ensures AnsweredFor(item.index, r)
      ensures r.Completed? || r.Blocked? ==> heard.context == Some(Ready) && heard.verdict == Some(Resume) && !behind
      ensures DueAnswer(item.index, heard.context, heard.verdict, r)
      ensures slot.pending.Some? ==>
        var now := IncomingItem(slot.pending.value.index, slot.pending.value.apItemId);
        now == item || (old(slot.pending).Some? && now == IncomingItem(old(slot.pending).value.index, old(slot.pending).value.apItemId))
      ensures r == Failed(PlanMismatch) ==>
        old(slot.pending).Some? && IncomingItem(old(slot.pending).value.index, old(slot.pending).value.apItemId) != item
      ensures heard.context == Some(Ready) && heard.verdict == Some(Resume) && !Hindered() ==> Delivers(item.index, r)
    {
      heard.context, heard.verdict := None, None;
      var context := RequireRuntimeContext();
      if !context.Ready? {
        r := LoseContext(context);
        return;
      }
      r := PollReady(item, indexed);
    }

    /** The poll with an item due and the context validated: watermark, delivery. */
    method PollReady(item: IncomingItem, indexed: map<nat, int>) returns (r: ItemPoll)
      requires Valid() && !SustainInFlight(lanes) && heard.context == Some(Ready)
      requires item.index == NextIndex(slot.State())
      modifies slot, game, this`diskSlot, this`diskLanes, this`behind, heard`verdict, heard`observed,
               heard`landed, heard`answer, heard`unrecorded, this`book, heard`found, heard`refused
      ensures Valid()
      ensures ExactUnless(old(book), old(behind))
      ensures ClashBy(Item(item.index), old(book.clash), book.clash, old(game.commands), lanes)
      ensures r.Pending? ==> r.why != LaneOwned
      ensures AnsweredFor(item.index, r)
      ensures r.Completed? || r.Blocked? ==> heard.verdict == Some(Resume) && !behind
      ensures DueAnswer(item.index, heard.context, heard.verdict, r)
      ensures slot.pending.Some? && old(slot.pending) != slot.pending ==>
        IncomingItem(slot.pending.value.index, slot.pending.value.apItemId) == item
      ensures r == Failed(PlanMismatch) ==>
        old(slot.pending).Some? && IncomingItem(old(slot.pending).value.index, old(slot.pending).value.apItemId) != item
      ensures heard.verdict == Some(Resume) && !Hindered() ==> Delivers(item.index, r)
    {
      var outcome := ReconcileWatermark();
      match outcome {
        case Err(e) => return Failed(e);
        case Ok(Resume) =>
        case Ok(Hold) => return Held;
        case Ok(other) => return Reconciled(other);
      }
      r := DeliverHead(item, indexed);
    }

    /** Parks this client can deliver by now go back into the queue, as long as
        no plan is in progress. */
    method RequeueCompatible() returns (ok: bool)
      requires Valid()
      modifies slot, this`diskSlot, this`diskLanes, this`behind, this`book
      ensures Calm(old(book), book)
      ensures Valid() && slot.State() == Apply(old(slot.State()), OpRequeueCompatible(CompatibleItems()))
      ensures slot.pending == old(slot.pending)
      ensures ok && behind ==> old(behind)
      ensures !ok ==> behind
    {
      var recovered := slot.RequeueNowCompatibleParks(CompatibleItems());
      Note(OpRequeueCompatible(CompatibleItems()));
      ok := true;
      if recovered.requeued != {} {
        ok := SaveLedger();
      }
    }

    /**
     One poll of the receive stream.  Whatever the game answers and whatever saves
     fail, the trace stays a run of the protocol; a completed index was applied and is
     acknowledged; a due item is delivered unless its plan is impossible or an answer
     stands in the way; a plan made from the stream never fails to match it later; a
     wait on the sustain lane is counted; a deferral the ledger refuses stops the poll,
     and nothing else does so with that error.  `vials` and `released` are the stack and
     the game's word on the lowest deferral, as the poll first asks for them.
     */
    method PollItems(received: seq<IncomingItem>) returns (r: ItemPoll, ghost vials: nat, ghost released: bool)
      requires Valid()
      modifies this, slot, game, heard
      ensures SustainKeys(lanes) == SustainKeys(old(lanes))
      ensures Valid()
      ensures ExactUnless(old(book), old(behind))
      ensures lanes.operatorGrants == old(lanes.operatorGrants)
      ensures ClashOnly(old(book.clash), book.clash, old(game.commands), old(lanes))
      ensures book.clash != old(book.clash) ==> BesideStray(book.clash.value, old(slot.pending))
      ensures r.Idle? ==>
        && Fewer(old(game.commands), game.commands)
        && (slot.pending == old(slot.pending) || old(SustainInFlight(lanes)))
      ensures LaneCounted(r == Pending(LaneOwned), old(SustainInFlight(lanes)), old(CountedPolls()))
      ensures old(PlanIsReceived(received)) ==> PlanIsReceived(received) && r != Failed(PlanMismatch)
      ensures ItemAnswered(received, r)
      ensures !r.Pending? && !r.Failed? ==> !SustainInFlight(lanes)
      ensures r == Failed(DeferralRefused) <==> DeferralStuck(old(slot.State()), vials, released)
    {
      heard.refused := true;
      ghost var was, c0, l0 := book.clash, game.commands, lanes;
      var given := GiveBackAndRequeue();
      SameFlightsAreSame(l0, lanes);
      vials, released := heard.vials, heard.released;
      if given.Err? {
        r := Failed(given.error);
        return;
      }
      ghost var c1, l1 := game.commands, lanes;
      r := PollPublished(received);
      ClashAfterSameFlights(was, book.clash, c0, l0, c1, l1);
    }

    /** The published bonus is advanced before the queue. */
    method PollPublished(received: seq<IncomingItem>) returns (r: ItemPoll)
      requires Valid()
      modifies slot, game, this`lanes, this`sustainPendingPolls, this`diskSlot, this`diskLanes, this`behind,
               heard`context, heard`verdict, heard`observed, heard`sustain, heard`vials, heard`released,
               this`book, heard`withdrew, heard`landed, heard`answer, heard`found, heard`unrecorded,
               heard`refused, heard`due
      ensures SustainKeys(lanes) == SustainKeys(old(lanes))
      ensures Valid()
      ensures ExactUnless(old(book), old(behind))
      ensures lanes.operatorGrants == old(lanes.operatorGrants)
      ensures ClashOnly(old(book.clash), book.clash, old(game.commands), old(lanes))
      ensures book.clash != old(book.clash) ==> BesideStray(book.clash.value, old(slot.pending))
      ensures r.Idle? ==>
        && Fewer(old(game.commands), game.commands)
        && (slot.pending == old(slot.pending) || old(SustainInFlight(lanes)))
      ensures LaneCounted(r == Pending(LaneOwned), old(SustainInFlight(lanes)), old(CountedPolls()))
      ensures old(PlanIsReceived(received)) ==> PlanIsReceived(received) && r != Failed(PlanMismatch)
      ensures ItemAnswered(received, r)
      ensures !r.Pending? && !r.Failed? ==> !SustainInFlight(lanes)
      ensures r != Failed(DeferralRefused)
    {
      heard.refused := true;
      ghost var was, before, l := book.clash, game.commands, lanes;
      var stop := AdvancePublished();
      if stop.Some? {
        return stop.value;
      }
      ghost var after, free := game.commands, lanes;
      r := PollQueue(received);
      ClashAfterFreeLane(was, book.clash, before, l, after, free);
    }

    /** One deferred reward, then every park this client can deliver by now. */
    method GiveBackAndRequeue() returns (r: Result<(), Failure>)
      requires Valid()
      modifies slot, game, heard`context, heard`vials, heard`released, this`lanes, this`diskSlot,
               this`diskLanes, this`behind, this`book
      ensures Calm(old(book), book)
      ensures SustainKeys(lanes) == SustainKeys(old(lanes))
      ensures Valid()
      ensures slot.pending == old(slot.pending)
      ensures SameFlights(old(lanes), lanes) && CountedPolls() == old(CountedPolls())
      ensures Fewer(old(game.commands), game.commands)
      ensures r.Ok? && behind ==> old(behind)
      ensures r.Err? ==> r.error in {DeferralRefused, BackendFailed, Failure.SaveFailed}
      ensures r == Err(DeferralRefused) <==> DeferralStuck(old(slot.State()), heard.vials, heard.released)
    {
      r := RetryDeferredVials();
      if r.Ok? {
        r := RequeueSupported();
      }
    }

    method RequeueSupported() returns (r: Result<(), Failure>)
      requires Valid()
      modifies slot, this`diskSlot, this`diskLanes, this`behind, this`book
      ensures Calm(old(book), book)
      ensures Valid() && slot.pending == old(slot.pending)
      ensures r.Ok? && behind ==> old(behind)
      ensures r.Err? ==> r.error == Failure.SaveFailed
    {
      var ok := RequeueCompatible();
      return if ok then Ok(()) else Err(Failure.SaveFailed);
    }

    /** A published bonus is advanced before an item may use its lane. */
    method AdvancePublished() returns (stop: Option<ItemPoll>)
      requires Valid()
      modifies slot, game, this`lanes, this`sustainPendingPolls, this`diskSlot, this`diskLanes, this`behind,
               heard`context, heard`verdict, heard`observed, heard`sustain, heard`vials, heard`released,
               this`book
      ensures NoItem(old(book), book)
      ensures SustainKeys(lanes) == SustainKeys(old(lanes))
      ensures Valid()
      ensures slot.pending == old(slot.pending) || (slot.pending.None? && old(SustainInFlight(lanes)))
      ensures lanes.operatorGrants == old(lanes.operatorGrants)
      ensures book.clash == old(book.clash) && Fewer(old(game.commands), game.commands)
      ensures LaneCounted(stop == Some(Pending(LaneOwned)), old(SustainInFlight(lanes)), old(CountedPolls()))
      ensures stop.None? ==> !SustainInFlight(lanes) && (behind ==> old(behind))
      ensures stop.Some? ==> stop.value.Pending? || stop == Some(Failed(SustainBroke))
      ensures stop.None? ==> Freed(old(book.clash), old(game.commands), old(lanes), game.commands, lanes)
    {
      if !SustainInFlight(lanes) {
        return None;
      }
      BonusIsOnlyCommand();
      var sustain := PollSustain();
      SameRescues(old(lanes), lanes);
      return match sustain
        case SustainError => Some(Failed(SustainBroke))
        case SustainWaits(why) => Some(Pending(why))
        case _ => None;
    }

    // ----------------------------------------------------------- main loop

    /** Every outstanding AP command is the plan's, and a published rescue is the one the
        lane looks at next and waits for no plan. */
    ghost predicate Orderly()
      reads this, slot, game
    {
      && Accounted(game.commands, slot.State())
      && forall key :: OperatorInFlightAt(lanes, key) ==> slot.pending.None? && NextOperator(lanes) == Some(key)
    }

    /** An item was published beside a rescue, or beside an AP command that is not the
        plan's. */
    static ghost predicate BesideStray(c: Clash, planned: Option<PendingItem>) {
      && c.tag.Item? && !c.beside.Bonus?
      && (c.beside.Item? && planned.Some? ==> c.beside.index != planned.value.index)
    }

    /** What a publication of this kind may have been put beside. */
    static ghost predicate ClashFits(c: Clash, planned: Option<PendingItem>, idle: bool) {
      match c.tag
      case Rescue(_) => planned.None?
      case Item(_) => BesideStray(c, planned)
      case Bonus(_) => idle
    }

    /** One round of the main loop: rescues first, items unless a rescue is in
        progress, sustain bonuses only when there is nothing to receive.  The one-command
        rule is broken only by publishing beside a command that was outstanding before
        the round: a rescue or an item beside an AP command that has lost its plan or
        beside a rescue, a bonus beside any of these or the plan's own when the items
        are idle.  A round that starts in order, with the plan's item received, keeps the
        rule. */
    method Tick(received: seq<IncomingItem>) returns (items: ItemPoll)
      requires Valid()
      modifies this, slot, game, heard
      ensures SustainKeys(lanes) == SustainKeys(old(lanes))
      ensures Valid()
      ensures ExactUnless(old(book), old(behind))
      ensures ClashOnly(old(book.clash), book.clash, old(game.commands), old(lanes))
      ensures book.clash != old(book.clash) ==> ClashFits(book.clash.value, old(slot.pending), items.Idle?)
      ensures old(book.clash).None? && old(Orderly()) && old(PlanIsReceived(received)) ==> book.clash.None?
    {
      ghost var orderly := book.clash.None? && Orderly();
      var operator := PollOperatorGrant();
      if orderly {
        assert book.clash.Some? ==> Outstanding(old(game.commands), old(lanes), book.clash.value.beside);
        assert book.clash.None?;
        assert forall i :: CommandOut(game.commands, i) ==> CommandOut(old(game.commands), i);
      }
      if operator.OperatorPending? || operator.OperatorError? {
        return Pending(LaneOwned);
      }
      if book.clash.None? {
        assert Quieter(old(game.commands), old(lanes), game.commands, lanes);
      }
      assert orderly ==> Accounted(game.commands, slot.State()) && !OperatorInFlight(lanes);
      items := PollItemsThenSustain(received);
    }

    /** The rest of the round. */
    method PollItemsThenSustain(received: seq<IncomingItem>) returns (items: ItemPoll)
      requires Valid()
      modifies this, slot, game, heard
      ensures SustainKeys(lanes) == SustainKeys(old(lanes))
      ensures Valid()
      ensures ExactUnless(old(book), old(behind))
      ensures ClashOnly(old(book.clash), book.clash, old(game.commands), old(lanes))
      ensures book.clash != old(book.clash) ==> !book.clash.value.tag.Rescue?
      ensures book.clash != old(book.clash) ==> ClashFits(book.clash.value, old(slot.pending), items.Idle?)
      ensures book.clash != old(book.clash) && old(Accounted(game.commands, slot.State())) && old(PlanIsReceived(received)) ==>
        book.clash.value.beside.Rescue?
    {
      ghost var alone := SustainInFlight(lanes) && book.clash.None?;
      if alone {
        BonusIsOnlyCommand();
      }
      ghost var vials, released;
      items, vials, released := PollItems(received);
      if items.Idle? {
        IndexedMeansReceived(received, heard.due);
        SameRescues(old(lanes), lanes);
        assert Quieter(old(game.commands), old(lanes), game.commands, lanes);
        assert alone ==> forall t :: !Outstanding(game.commands, lanes, t);
        var sustain := PollSustain();
      }
    }

    /** However long the game keeps a sustain command pending, an AP item waits
        behind it for fewer than 600 counted polls. */
    method PollUntilLaneIsFree(received: seq<IncomingItem>) returns (r: ItemPoll, ghost waited: nat)
      requires Valid()
      modifies this, slot, game, heard
      ensures Valid() && r != Pending(LaneOwned)
      ensures waited <= SUSTAIN_PENDING_POLL_LIMIT
    {
      ghost var vials, released;
      waited := 0;
      ghost var start := CountedPolls();
      r, vials, released := PollItems(received);
      while r == Pending(LaneOwned)
        invariant Valid()
        invariant r == Pending(LaneOwned) ==> start + waited + 1 == CountedPolls() < SUSTAIN_PENDING_POLL_LIMIT
        invariant waited <= SUSTAIN_PENDING_POLL_LIMIT
        decreases r == Pending(LaneOwned), SUSTAIN_PENDING_POLL_LIMIT - waited
      {
        r, vials, released := PollItems(received);
        waited := waited + 1;
      }
    }

    /** Over any sequence of polls, whatever they are answered in between, fewer than 600
        wait behind one published bonus. */
    method PollWhilePublished(streams: seq<seq<IncomingItem>>) returns (ghost waited: nat)
      requires Valid()
      modifies this, slot, game, heard
      ensures Valid() && waited < SUSTAIN_PENDING_POLL_LIMIT
    {
      waited := 0;
      for k := 0 to |streams|
        invariant Valid() && waited < SUSTAIN_PENDING_POLL_LIMIT
        invariant SustainInFlight(lanes) ==> waited <= CountedPolls()
      {
        if !SustainInFlight(lanes) {
          return;
        }
        var r, _, _ := PollItems(streams[k]);
        if r == Pending(LaneOwned) {
          waited := waited + 1;
        }
      }
    }

    // ------------------------------------------------ restarts and operators

    /** The process dies, at any point whatever, and the next one loads what the
        last save left.  The one-command rule is kept exactly when the lanes on disk keep
        it beside the commands the game still has. */
    method Reload()
      requires Mid()
      modifies slot, this`lanes, this`sustainPendingPolls, this`behind, this`book
      ensures NoItem(old(book), book)
      ensures Valid() && sustainPendingPolls.None? && !behind
      ensures slot.State() == diskSlot && lanes == diskLanes
      ensures old(book.clash).Some? ==> book.clash == old(book.clash)
      ensures old(book.clash).None? ==> (book.clash.None? <==> OneCommand(game.commands, diskLanes))
    {
      slot.Load(diskSlot);
      book := book.(dropped := book.dropped + multiset(SustainKeys(lanes) - SustainKeys(diskLanes)));
      lanes := diskLanes;
      sustainPendingPolls := None;
      behind := false;
      Record(Crash, Reloads);
    }

    /** A restart: reload, ask back a command left over from the last process,
        and requeue the parks whose cause is fixed, unless a plan is in progress. */
    method Restart() returns (ok: bool)
      requires Mid()
      modifies this, slot, game, heard
      ensures Valid() && lanes == old(diskLanes)
      ensures slot.pending == old(diskSlot).pending && book.exact == old(book.exact)
      ensures old(book.clash).None? ==> (book.clash.None? <==> OneCommand(old(game.commands), old(diskLanes)))
      ensures old(diskSlot).pending.Some? ==> slot.State() == old(diskSlot)
      ensures old(diskSlot).pending.None? ==>
        slot.State() == Apply(Apply(old(diskSlot), OpRequeueFixed), OpRequeueCompatible(CompatibleItems()))
      ensures ok ==> !behind
    {
      Reload();
      var withdrawn := WithdrawLeftover();
      ok := RequeueFixedCause();
    }

    /** Asks back one leftover command: the plan's, else the lowest bonus's, else the
        lowest rescue's.  The ledger keeps its rows whatever the answer. */
    method WithdrawLeftover() returns (withdrawn: Option<bool>)
      requires Valid()
      modifies game, heard`withdrew, this`book
      ensures Calm(old(book), book)
      ensures Valid() && Fewer(old(game.commands), game.commands)
      ensures (slot.pending.None? || slot.pending.value.grantComplete) && lanes.pendingSustain == map[] && NextOperator(lanes).None? ==>
        withdrawn == Some(false)
    {
      if slot.pending.Some? && !slot.pending.value.grantComplete {
        withdrawn := WithdrawGrant(slot.pending.value.index);
      } else if lanes.pendingSustain != map[] || NextOperator(lanes).Some? {
        withdrawn := *;
      } else {
        withdrawn := Some(false);
      }
    }

    method RequeueFixedCause() returns (ok: bool)
      requires Valid()
      modifies slot, this`diskSlot, this`diskLanes, this`behind, this`book
      ensures Calm(old(book), book)
      ensures Valid()
      ensures slot.State() == Apply(Apply(old(slot.State()), OpRequeueFixed), OpRequeueCompatible(CompatibleItems()))
      ensures slot.pending == old(slot.pending)
      ensures old(slot.pending).Some? ==> slot.State() == old(slot.State())
      ensures ok && behind ==> old(behind)
    {
      var fixedCause := slot.RequeueFixedCauseParks();
      Note(OpRequeueFixed);
      var upgraded := slot.RequeueNowCompatibleParks(CompatibleItems());
      Note(OpRequeueCompatible(CompatibleItems()));
      ok := true;
      if fixedCause.requeued != {} || upgraded.requeued != {} {
        ok := SaveLedger();
      }
    }

    /** Operator retry of one parked delivery. */
    method RescueRetryBlocked(index: nat) returns (r: Result<(), Failure>)
      requires Valid()
      modifies slot, game, heard`context, this`diskSlot, this`diskLanes, this`behind, this`book
      ensures Calm(old(book), book)
      ensures Valid() && slot.pending == old(slot.pending)
      ensures r.Ok? || r == Err(Failure.SaveFailed) ==> ReceiveLedger.RequeueBlocked(old(slot.State()), index) == Ok(slot.State())
      ensures r.Err? && r != Err(Failure.SaveFailed) ==> slot.State() == old(slot.State())
    {
      var context := RequireRuntimeContext();
      if !context.Ready? {
        return Err(ContextRefused);
      }
      if slot.pending.Some? {
        return Err(LedgerRefused(DeliveryPending));
      }
      r := RequeueDeferred(index);
    }

    /** Operator reissue of a completed grant whose token is proven gone, both
        from the inventory and from the storage box. */
    method RescueReissuePending(index: nat, held: Observation, stored: Observation) returns (r: Result<(), Failure>)
      requires Valid()
      modifies slot, game, heard`context, this`diskSlot, this`diskLanes, this`behind, this`book
      ensures Calm(old(book), book)
      ensures Valid()
      ensures r.Ok? || r == Err(Failure.SaveFailed) ==>
        held == Quantity(0) && stored == Quantity(0)
        && ReceiveLedger.ReissuePending(old(slot.State()), index) == Ok(slot.State()) && NextIndex(slot.State()) == index
      ensures r.Err? && r != Err(Failure.SaveFailed) ==> slot.State() == old(slot.State())
    {
      var context := RequireRuntimeContext();
      if !context.Ready? {
        return Err(ContextRefused);
      }
      if held != Quantity(0) || stored != Quantity(0) {
        return Err(BackendFailed);
      }
      r := Reissue(index);
    }

    method Reissue(index: nat) returns (r: Result<(), Failure>)
      requires Valid()
      modifies slot, this`diskSlot, this`diskLanes, this`behind, this`book
      ensures Calm(old(book), book)
      ensures Valid()
      ensures match ReceiveLedger.ReissuePending(old(slot.State()), index)
              case Ok(s) => slot.State() == s && NextIndex(s) == index && r == if behind then Err(Failure.SaveFailed) else Ok(())
              case Err(e) => slot.State() == old(slot.State()) && r == Err(LedgerRefused(e))
    {
      PlanIsHead();
      var reissued := slot.ReissuePending(index);
      Note(OpReissue(index));
      if reissued.Err? {
        return Err(LedgerRefused(reissued.error));
      }
      var ok := SaveLedger();
      return if ok then Ok(()) else Err(Failure.SaveFailed);
    }

    /** Queues a rescue once: a repeated command, or one for an item already
        acknowledged or parked, changes nothing.  Queueing publishes nothing. */
    method RescueGive(apItemId: int) returns (r: Result<bool, Failure>)
      requires Valid()
      modifies game, heard`context, this`lanes, this`diskSlot, this`diskLanes, this`behind, this`book
      ensures Calm(old(book), book)
      ensures SustainKeys(lanes) == SustainKeys(old(lanes))
      ensures Valid()
      ensures r == Ok(true) || r == Err(Failure.SaveFailed) ==>
        && lanes == SetOperator(old(lanes), apItemId, OperatorGrant(None, false))
        && apItemId !in old(lanes).operatorGrants
      ensures r != Ok(true) && r != Err(Failure.SaveFailed) ==> lanes == old(lanes)
    {
      var context := RequireRuntimeContext();
      if !context.Ready? || apItemId !in config.items || !config.items[apItemId].evidence.Known? {
        return Err(ContextRefused);
      }
      if apItemId in lanes.operatorGrants || apItemId in lanes.operatorParks
         || exists i :: i in slot.acknowledged && slot.acknowledged[i].apItemId == apItemId {
        return Ok(false);
      }
      r := QueueRescue(apItemId);
    }

    method QueueRescue(apItemId: int) returns (r: Result<bool, Failure>)
      requires Valid() && apItemId !in lanes.operatorGrants
      modifies this`lanes, this`diskSlot, this`diskLanes, this`behind, this`book
      ensures Calm(old(book), book)
      ensures Valid() && r == if behind then Err(Failure.SaveFailed) else Ok(true)
      ensures lanes == SetOperator(old(lanes), apItemId, OperatorGrant(None, false))
    {
      var after := SetOperator(lanes, apItemId, OperatorGrant(None, false));
      LanesFit();
      ChangingARescue(lanes, apItemId, OperatorGrant(None, false));
      assert Quieter(game.commands, lanes, game.commands, after);
      lanes := after;
      Tell(Settles);
      var ok := SaveLedger();
      return if ok then Ok(true) else Err(Failure.SaveFailed);
    }

    /** Queues the bonuses of freshly sent checks: exactly the keys that are neither owed
        nor finished. */
    method QueueSustainForChecks(keys: seq<int>) returns (ok: bool)
      requires Valid()
      modifies this`lanes, this`diskSlot, this`diskLanes, this`behind, this`book
      ensures Calm(old(book), book)
      ensures Valid() && lanes == QueueSustain(old(lanes), keys)
      ensures SustainKeys(lanes) == SustainKeys(old(lanes)) + (set key | key in keys)
      ensures ok && behind ==> old(behind)
    {
      LanesFit();
      QueueingPublishesNothing(lanes, keys);
      var after := lanes;
      for k := 0 to |keys|
        invariant after == QueueSustain(lanes, keys[..k])
      {
        assert keys[..k + 1][..k] == keys[..k];
        if keys[k] !in after.completedSustain && keys[k] !in after.pendingSustain {
          after := SetBaseline(after, keys[k], None);
        }
      }
      assert keys[..|keys|] == keys;
      ok := true;
      if after != lanes {
        book := book.(queued := book.queued + multiset((set key | key in keys) - SustainKeys(lanes)));
        lanes := after;
        Tell(Queues(keys));
        ok := SaveLedger();
      }
    }

    /** Operator-attested restore. */
    method AttestRestore(firstMissing: nat) returns (ok: bool)
      requires Valid()
      modifies slot, this`diskSlot, this`diskLanes, this`behind, this`book
      ensures Calm(old(book), book)
      ensures Valid() && slot.State() == Apply(old(slot.State()), OpAttest(firstMissing)) && ok == !behind
    {
      var rewound := slot.RewindTo(firstMissing);
      Note(OpAttest(firstMissing));
      ok := SaveLedger();
    }
  }

  // ---------------------------------------------------- two commands at once

  /** A vial plan for index 0 with its command published, and one bonus owed. */
  const PUBLISHED_SLOT: Slot := DeliveryLimits.Planned(Some(3))
  const ARMED: Commands := map[0 := Command(3, Armed)]
  const OWED_BONUS: LaneState := LaneState(map[5 := None], {}, {}, map[], {}, map[], map[])

  /** Only the plan's command is outstanding, the bonus is next, and publishing it puts
      a second command in the slot. */
  lemma BonusBesideArmedCommand(baseline: nat)
    ensures OneCommand(ARMED, OWED_BONUS) && NextSustain(OWED_BONUS) == Some(5)
    ensures var after := SetBaseline(OWED_BONUS, 5, Some(baseline));
            && Outstanding(ARMED, after, Item(0)) && Outstanding(ARMED, after, Bonus(5))
            && !OneCommand(ARMED, after)
  {
    assert Eligible(OWED_BONUS, 5);
    NextSustainPrefersThePublished(OWED_BONUS);
    assert forall key :: Eligible(OWED_BONUS, key) ==> key == 5;
    var after := SetBaseline(OWED_BONUS, 5, Some(baseline));
    assert Outstanding(ARMED, after, Item(0)) && Outstanding(ARMED, after, Bonus(5));
  }

  /** Right after a reconnect or a restart the received list is empty.  With a plan on
      disk and its command armed, the queue answers idle and nothing else, and a bonus
      that is owed is published beside the command. */
  lemma EmptyListPublishesBesideThePlan(baseline: nat)
    ensures ReceiveLedger.Valid(PUBLISHED_SLOT) && NextIndex(PUBLISHED_SLOT) == 0
    ensures DistinctIndices([]) && !ClientLoop.IsDue([], PUBLISHED_SLOT)
    ensures forall context, verdict, r ::
      ClientLoop.IdleAnswer(PUBLISHED_SLOT.saveWatermark.Some?, context, verdict, r) ==> r == Idle
    ensures OneCommand(ARMED, OWED_BONUS) && NextSustain(OWED_BONUS) == Some(5)
    ensures !OneCommand(ARMED, SetBaseline(OWED_BONUS, 5, Some(baseline)))
  {
    BonusBesideArmedCommand(baseline);
  }

  /** The plan need not even be there.  The plan is published and its command armed, and
      the bonus's own look at the watermark adopts another cursor: only a hold would have
      stopped it.  The plan is gone, the command is not, and the bonus is published. */
  lemma DroppedPlanPublishesBesideItsCommand(baseline: nat) returns (run: seq<World>)
    ensures ValidRun(run)
    ensures var w := run[|run| - 1];
            && w.mem.pending.None? && w.commands == ARMED && !Accounted(w.commands, w.mem)
            && NextSustain(OWED_BONUS) == Some(5) && OneCommand(w.commands, OWED_BONUS)
            && !OneCommand(w.commands, SetBaseline(OWED_BONUS, 5, Some(baseline)))
    ensures WatermarkVerdict(PUBLISHED_SLOT, Some(5)) == AdoptSaveCursor
  {
    run := DeliveryLimits.AdoptedBesideArmedCommand();
    BonusBesideArmedCommand(baseline);
    assert CommandOut(ARMED, 0);
  }
}
