/**
 How a received item becomes a durable plan, and how a plan that has not been
 published yet follows the player's weapon level
 (crates/bb-archipelago/src/client_loop.rs:2256-2417).
 */
module Planning {
  import opened Wrappers
  import opened Upgrades
  import opened ReceiveLedger
  import opened EquipFeed

  datatype Evidence = Known | UnreviewedAttire | Unknown

  datatype Binding = Binding(
    rawDescriptor: nat,
    normalizedItemId: nat,
    itemCategory: nat,
    quantity: nat,
    reinforcementLevel: Option<nat>,
    effect: FeedEffect,
    evidence: Evidence)

  datatype IncomingItem = IncomingItem(index: nat, apItemId: int)

  datatype PlanError = NoBinding | DescriptorOverflow | FeedDisordered

  // ---------------------------------------------------------- weapon levels

  /** What the planner may aim for, from one look at the inventory census. */
  function UpgradeTargetFor(binding: Binding, autoUpgrade: bool, census: Option<nat>, scanReady: bool): UpgradeTarget {
    if !autoUpgrade || binding.reinforcementLevel.None? then Level(None)
    else if IsNonUpgradableShield(binding.normalizedItemId, binding.reinforcementLevel) then Level(Some(0))
    else if census.None? && !scanReady then UpgradeTarget.Hold
    else Level(census)
  }

  function Descriptors(binding: Binding, delivered: Option<nat>): Option<(nat, nat)> {
    match (binding.reinforcementLevel, delivered)
    case (Some(received), Some(level)) =>
      ReinforcedDescriptorPair(binding.rawDescriptor, binding.normalizedItemId, received, level)
    case _ => Some((binding.rawDescriptor, binding.normalizedItemId))
  }

  function DeliveredLevel(binding: Binding, autoUpgrade: bool, target: Option<nat>): Option<nat> {
    match binding.reinforcementLevel
    case None => None
    case Some(received) => Some(AutoUpgradeLevel(autoUpgrade, received, target))
  }

  function Plan(item: IncomingItem, binding: Binding, autoUpgrade: bool, target: Option<nat>, equip: Option<EquipTarget>)
    : Result<PendingItem, PlanError>
  {
    var level := DeliveredLevel(binding, autoUpgrade, target);
    match Descriptors(binding, level)
    case None => Err(DescriptorOverflow)
    case Some(pair) =>
      Ok(PendingItem(item.index, item.apItemId, pair.0, pair.1, binding.itemCategory, binding.quantity,
                     target, level, equip, false, false, false, None))
  }

  /** The level a refresh would raise the plan to, if it raises it at all. */
  function RaisedLevel(p: PendingItem, binding: Binding, autoUpgrade: bool, reading: UpgradeTarget): Option<nat> {
    if p.grantComplete || p.observedBefore.Some? || binding.reinforcementLevel.None? || reading.Hold? then None
    else
      var received := binding.reinforcementLevel.value;
      var raised := AutoUpgradeLevel(autoUpgrade, received, reading.target);
      if raised <= p.reinforcementLevel.GetOr(received) then None else Some(raised)
  }

  function Refresh(p: PendingItem, binding: Binding, autoUpgrade: bool, reading: UpgradeTarget)
    : Result<PendingItem, PlanError>
  {
    match RaisedLevel(p, binding, autoUpgrade, reading)
    case None => Ok(p)
    case Some(level) =>
      match Descriptors(binding, Some(level))
      case None => Err(DescriptorOverflow)
      case Some(pair) =>
        Ok(p.(upgradeTargetLevel := reading.target, rawDescriptor := pair.0,
              normalizedItemId := pair.1, reinforcementLevel := Some(level)))
  }

  /** A binding as the contract loader validates it: a level of at most ten and
      reinforcement rows that fit 32 bits. */
  predicate ValidBinding(b: Binding) {
    && (b.reinforcementLevel.Some? ==> b.reinforcementLevel.value <= MAX_WEAPON_LEVEL)
    && b.rawDescriptor + MAX_WEAPON_LEVEL * REINFORCEMENT_ROW_STEP <= U32_MAX
    && b.normalizedItemId + MAX_WEAPON_LEVEL * REINFORCEMENT_ROW_STEP <= U32_MAX
  }

  /** The plan after a series of polls that did not publish it: the first look
      that can see the inventory makes it, later ones refresh it. */
  function PlanAfter(item: IncomingItem, b: Binding, autoUpgrade: bool, equip: Option<EquipTarget>, readings: seq<UpgradeTarget>)
    : Result<Option<PendingItem>, PlanError>
  {
    if readings == [] then Ok(None)
    else
      var reading := readings[|readings| - 1];
      match PlanAfter(item, b, autoUpgrade, equip, readings[..|readings| - 1])
      case Err(e) => Err(e)
      case Ok(None) =>
        if reading.Hold? then Ok(None)
        else (match Plan(item, b, autoUpgrade, reading.target, equip) case Err(e) => Err(e) case Ok(p) => Ok(Some(p)))
      case Ok(Some(p)) =>
        match Refresh(p, b, autoUpgrade, reading) case Err(e) => Err(e) case Ok(q) => Ok(Some(q))
  }

  /** The largest target the readings name, and 0 when they name none. */
  function LargestTarget(readings: seq<UpgradeTarget>): nat {
    if readings == [] then 0
    else
      var reading := readings[|readings| - 1];
      Max(LargestTarget(readings[..|readings| - 1]), if reading.Level? then reading.target.GetOr(0) else 0)
  }

  /** The level and the descriptors a weapon is delivered at, in closed form. */
  ghost predicate IsPlanAt(p: PendingItem, b: Binding, level: nat)
    requires b.reinforcementLevel.Some?
  {
    var received := b.reinforcementLevel.value;
    && received <= level <= MAX_WEAPON_LEVEL
    && p.reinforcementLevel == Some(level)
    && p.rawDescriptor == b.rawDescriptor + (level - received) * REINFORCEMENT_ROW_STEP
    && p.normalizedItemId == b.normalizedItemId + (level - received) * REINFORCEMENT_ROW_STEP
    && !p.grantComplete && p.observedBefore.None?
  }

  function ClosedLevel(b: Binding, autoUpgrade: bool, readings: seq<UpgradeTarget>): nat
    requires b.reinforcementLevel.Some?
  {
    LevelFor(b, autoUpgrade, LargestTarget(readings))
  }

  function LevelFor(b: Binding, autoUpgrade: bool, largest: nat): nat
    requires b.reinforcementLevel.Some?
  {
    var received := b.reinforcementLevel.value;
    if autoUpgrade then Max(received, Min(MAX_WEAPON_LEVEL, largest)) else received
  }

  lemma FirstPlan(item: IncomingItem, b: Binding, autoUpgrade: bool, equip: Option<EquipTarget>, target: Option<nat>)
    requires ValidBinding(b) && b.reinforcementLevel.Some?
    ensures var r := Plan(item, b, autoUpgrade, target, equip);
            r.Ok? && IsPlanAt(r.value, b, LevelFor(b, autoUpgrade, target.GetOr(0)))
  {
  }

  lemma RefreshedPlan(p: PendingItem, b: Binding, autoUpgrade: bool, largest: nat, reading: UpgradeTarget)
    requires ValidBinding(b) && b.reinforcementLevel.Some? && IsPlanAt(p, b, LevelFor(b, autoUpgrade, largest))
    ensures var r := Refresh(p, b, autoUpgrade, reading);
            r.Ok? && IsPlanAt(r.value, b, LevelFor(b, autoUpgrade, Max(largest, if reading.Level? then reading.target.GetOr(0) else 0)))
  {
  }

  /** Waiting costs nothing and gains nothing by order: the plan depends on the
      readings only through the largest target among them. */
  lemma {:induction false} PlanLevelIsLargestTarget(
      item: IncomingItem, b: Binding, autoUpgrade: bool, equip: Option<EquipTarget>, readings: seq<UpgradeTarget>)
    requires ValidBinding(b) && b.reinforcementLevel.Some?
    ensures var r := PlanAfter(item, b, autoUpgrade, equip, readings);
            && r.Ok?
            && (r.value.None? <==> forall k :: 0 <= k < |readings| ==> readings[k].Hold?)
            && (r.value.Some? ==> IsPlanAt(r.value.value, b, ClosedLevel(b, autoUpgrade, readings)))
  {
    if readings != [] {
      var earlier := readings[..|readings| - 1];
      PlanLevelIsLargestTarget(item, b, autoUpgrade, equip, earlier);
      if forall k :: 0 <= k < |earlier| ==> earlier[k].Hold? {
        HoldsNameNoTarget(earlier);
      }
      assert forall k :: 0 <= k < |earlier| ==> earlier[k] == readings[k];
      var reading := readings[|readings| - 1];
      match PlanAfter(item, b, autoUpgrade, equip, earlier).value
      case Some(p) => RefreshedPlan(p, b, autoUpgrade, LargestTarget(earlier), reading);
      case None => FirstPlan(item, b, autoUpgrade, equip, if reading.Level? then reading.target else None);
    }
  }

  lemma {:induction false} HoldsNameNoTarget(readings: seq<UpgradeTarget>)
    requires forall k :: 0 <= k < |readings| ==> readings[k].Hold?
    ensures LargestTarget(readings) == 0
  {
    if readings != [] {
      HoldsNameNoTarget(readings[..|readings| - 1]);
    }
  }

  lemma {:induction false} LargestTargetIsLargest(readings: seq<UpgradeTarget>)
    ensures forall r :: r in readings && r.Level? ==> r.target.GetOr(0) <= LargestTarget(readings)
    ensures LargestTarget(readings) > 0 ==> Level(Some(LargestTarget(readings))) in readings
  {
    if readings != [] {
      var earlier, reading := readings[..|readings| - 1], readings[|readings| - 1];
      assert readings == earlier + [reading];
      LargestTargetIsLargest(earlier);
    }
  }

  /** Two players who showed the same levels, in whatever order and however
      often, are delivered the same weapon. */
  lemma PlansArePathIndependent(
      item: IncomingItem, b: Binding, autoUpgrade: bool, equip: Option<EquipTarget>,
      first: seq<UpgradeTarget>, second: seq<UpgradeTarget>)
    requires ValidBinding(b) && b.reinforcementLevel.Some?
    requires forall r :: r in first <==> r in second
    ensures var p, q := PlanAfter(item, b, autoUpgrade, equip, first), PlanAfter(item, b, autoUpgrade, equip, second);
            && p.Ok? && q.Ok?
            && (p.value.Some? <==> q.value.Some?)
            && (p.value.Some? ==>
                  p.value.value.reinforcementLevel == q.value.value.reinforcementLevel
                  && p.value.value.rawDescriptor == q.value.value.rawDescriptor
                  && p.value.value.normalizedItemId == q.value.value.normalizedItemId)
  {
    PlanLevelIsLargestTarget(item, b, autoUpgrade, equip, first);
    PlanLevelIsLargestTarget(item, b, autoUpgrade, equip, second);
    LargestTargetIsLargest(first);
    LargestTargetIsLargest(second);
    if r :| r in first && r.Level? { assert r in second; }
    if r :| r in second && r.Level? { assert r in first; }
  }

  /** A refresh never lowers a plan, and leaves everything but the weapon row
      alone; once a baseline is recorded it changes nothing. */
  lemma RefreshOnlyRaises(p: PendingItem, b: Binding, autoUpgrade: bool, reading: UpgradeTarget)
    requires Refresh(p, b, autoUpgrade, reading).Ok?
    ensures var q := Refresh(p, b, autoUpgrade, reading).value;
            && q == p.(upgradeTargetLevel := q.upgradeTargetLevel, rawDescriptor := q.rawDescriptor,
                       normalizedItemId := q.normalizedItemId, reinforcementLevel := q.reinforcementLevel)
            && (p.observedBefore.Some? ==> q == p)
            && (p.reinforcementLevel.Some? ==> q.reinforcementLevel.Some? && p.reinforcementLevel.value <= q.reinforcementLevel.value)
  {
  }

  // ----------------------------------------------------- a plan over its life

  /** What is delivered: the plan without its progress. */
  function Row(p: PendingItem): PendingItem {
    p.(grantComplete := false, equipComplete := false, tokenRoutedToStorage := false, observedBefore := None)
  }

  /** The plan's row is the one a series of readings leads to. */
  ghost predicate FollowsReadings(b: Binding, autoUpgrade: bool, equip: Option<EquipTarget>, readings: seq<UpgradeTarget>, p: PendingItem) {
    var r := PlanAfter(IncomingItem(p.index, p.apItemId), b, autoUpgrade, equip, readings);
    r.Ok? && r.value.Some? && Row(r.value.value) == Row(p)
  }

  /** The plan's row is one that readings of the player's level lead to. */
  ghost predicate Grown(b: Binding, autoUpgrade: bool, p: PendingItem) {
    exists equip, readings :: FollowsReadings(b, autoUpgrade, equip, readings, p)
  }

  lemma {:induction false} PlanAfterIsUnpublished(item: IncomingItem, b: Binding, autoUpgrade: bool, equip: Option<EquipTarget>, readings: seq<UpgradeTarget>)
    ensures var r := PlanAfter(item, b, autoUpgrade, equip, readings);
            r.Ok? && r.value.Some? ==> !r.value.value.grantComplete && r.value.value.observedBefore.None?
  {
    if readings != [] {
      PlanAfterIsUnpublished(item, b, autoUpgrade, equip, readings[..|readings| - 1]);
    }
  }

  lemma NewPlanIsGrown(item: IncomingItem, b: Binding, autoUpgrade: bool, target: Option<nat>, equip: Option<EquipTarget>)
    requires Plan(item, b, autoUpgrade, target, equip).Ok?
    ensures Grown(b, autoUpgrade, Plan(item, b, autoUpgrade, target, equip).value)
  {
    var p := Plan(item, b, autoUpgrade, target, equip).value;
    assert [Level(target)][..0] == [] && PlanAfter(item, b, autoUpgrade, equip, []) == Ok(None);
    assert FollowsReadings(b, autoUpgrade, equip, [Level(target)], p);
  }

  lemma RefreshedPlanIsGrown(b: Binding, autoUpgrade: bool, p: PendingItem, reading: UpgradeTarget)
    requires Grown(b, autoUpgrade, p) && !p.grantComplete && p.observedBefore.None?
    requires Refresh(p, b, autoUpgrade, reading).Ok?
    ensures Grown(b, autoUpgrade, Refresh(p, b, autoUpgrade, reading).value)
  {
    var p' := Refresh(p, b, autoUpgrade, reading).value;
    var equip, readings :| FollowsReadings(b, autoUpgrade, equip, readings, p);
    var item := IncomingItem(p.index, p.apItemId);
    assert (readings + [reading])[..|readings|] == readings;
    PlanAfterIsUnpublished(item, b, autoUpgrade, equip, readings);
    var q := PlanAfter(item, b, autoUpgrade, equip, readings).value.value;
    assert RaisedLevel(q, b, autoUpgrade, reading) == RaisedLevel(p, b, autoUpgrade, reading);
    assert FollowsReadings(b, autoUpgrade, equip, readings + [reading], p');
  }

  lemma SameRowIsGrown(b: Binding, autoUpgrade: bool, p: PendingItem, p': PendingItem)
    requires Grown(b, autoUpgrade, p) && Row(p') == Row(p)
    ensures Grown(b, autoUpgrade, p')
  {
    var equip, readings :| FollowsReadings(b, autoUpgrade, equip, readings, p);
    assert p'.index == Row(p').index && p'.apItemId == Row(p').apItemId;
    assert FollowsReadings(b, autoUpgrade, equip, readings, p');
  }

  /** So whatever the client did to it in between, a weapon's plan stands at the closed
      form of some readings. */
  lemma GrownPlanIsClosedForm(b: Binding, autoUpgrade: bool, p: PendingItem)
    requires Grown(b, autoUpgrade, p) && ValidBinding(b) && b.reinforcementLevel.Some?
    ensures exists readings :: IsPlanAt(Row(p), b, ClosedLevel(b, autoUpgrade, readings))
  {
    var equip, readings :| FollowsReadings(b, autoUpgrade, equip, readings, p);
    PlanLevelIsLargestTarget(IncomingItem(p.index, p.apItemId), b, autoUpgrade, equip, readings);
    PlanAfterIsUnpublished(IncomingItem(p.index, p.apItemId), b, autoUpgrade, equip, readings);
    assert IsPlanAt(Row(p), b, ClosedLevel(b, autoUpgrade, readings));
  }

  // ------------------------------------------------------------ equip facts

  /** The facts of the received stream below index `n`, in index order. */
  function FactsBelow(items: map<int, Binding>, indexed: map<nat, int>, n: nat): seq<ReceivedFact>
    requires AllBound(items, indexed, n)
  {
    if n == 0 then []
    else if n - 1 in indexed then
      FactsBelow(items, indexed, n - 1) + [ReceivedFact(n - 1, items[indexed[n - 1]].effect)]
    else FactsBelow(items, indexed, n - 1)
  }

  predicate AllBound(items: map<int, Binding>, indexed: map<nat, int>, n: nat) {
    forall i :: 0 <= i < n && i in indexed ==> indexed[i] in items
  }

  lemma {:induction false} FactsAreOrdered(items: map<int, Binding>, indexed: map<nat, int>, n: nat)
    requires AllBound(items, indexed, n)
    ensures Ordered(FactsBelow(items, indexed, n))
    ensures forall k :: 0 <= k < |FactsBelow(items, indexed, n)| ==> FactsBelow(items, indexed, n)[k].index < n
  {
    if n > 0 {
      FactsAreOrdered(items, indexed, n - 1);
    }
  }

  /** The slot an item is equipped to at delivery.  The loop of the reducer
      cannot fail here, because an index map is always in order. */
  method ComputeEquipTarget(items: map<int, Binding>, autoEquip: bool, indexed: map<nat, int>, current: nat)
    returns (r: Result<Option<EquipTarget>, PlanError>)
    ensures !autoEquip ==> r == Ok(None)
    ensures autoEquip ==> (r.Ok? <==> AllBound(items, indexed, current + 1))
    ensures autoEquip && r.Ok? ==> r.value == TargetOf(Decisions(FactsBelow(items, indexed, current + 1)), current)
    ensures r.Err? ==> r.error == NoBinding
  {
    if !autoEquip {
      return Ok(None);
    }
    var facts: seq<ReceivedFact> := [];
    for i := 0 to current + 1
      invariant AllBound(items, indexed, i)
      invariant facts == FactsBelow(items, indexed, i)
    {
      if i in indexed {
        if indexed[i] !in items {
          return Err(NoBinding);
        }
        facts := facts + [ReceivedFact(i, items[indexed[i]].effect)];
      }
    }
    FactsAreOrdered(items, indexed, current + 1);
    var decisions := ComputeEquipDecisions(facts);
    return Ok(TargetOf(decisions.value, current));
  }
}
