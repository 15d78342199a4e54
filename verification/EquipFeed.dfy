/**
 Auto-equip decisions (crates/bb-archipelago/src/feed.rs).

 `EquipDecisions` is the loop of the source, with its ordinal map and its
 workshop flag.  It is proved against `Decisions`, which says what each fact
 receives by counting the facts before it, with no running state at all.
 */
module EquipFeed {
  import opened Wrappers

  datatype AttireSlot = Head | Chest | Hands | Legs

  datatype EquipClass =
    | RightHandWeapon
    | LeftHandWeapon
    | Attire(slot: AttireSlot)
    | CaryllRune
    | OathRune
    | NotEquippable

  datatype FeedEffect = Item(cls: EquipClass) | RuneWorkshopTool

  datatype ReceivedFact = ReceivedFact(index: nat, effect: FeedEffect)

  datatype EquipTarget =
    | ToRightHand(slot: nat)
    | ToLeftHand(slot: nat)
    | ToAttire(attire: AttireSlot)
    | ToCaryllRune(slot: nat)
    | ToOathRune

  datatype EquipDecision = EquipDecision(receivedIndex: nat, ordinal: nat, target: EquipTarget)

  datatype FeedOrderError = FeedOrderError(previous: nat, current: nat)

  const HAND_SLOTS: nat := 2
  const CARYLL_RUNE_SLOTS: nat := 3

  // ---------------------------------------------------------------- reference

  predicate Ordered(facts: seq<ReceivedFact>) {
    forall i, j :: 0 <= i < j < |facts| ==> facts[i].index < facts[j].index
  }

  /** How many of the facts are items of class `c`. */
  function Count(facts: seq<ReceivedFact>, c: EquipClass): nat {
    if facts == [] then 0
    else Count(facts[..|facts| - 1], c) + if facts[|facts| - 1].effect == Item(c) then 1 else 0
  }

  predicate WorkshopSeen(facts: seq<ReceivedFact>) {
    exists k :: 0 <= k < |facts| && facts[k].effect == RuneWorkshopTool
  }

  /** The slot fact `k` is sent to, from the facts before it alone. */
  function TargetAt(facts: seq<ReceivedFact>, k: nat): Option<EquipTarget>
    requires k < |facts|
  {
    var before := facts[..k];
    match facts[k].effect
    case RuneWorkshopTool => None
    case Item(RightHandWeapon) => Some(ToRightHand(Count(before, RightHandWeapon) % HAND_SLOTS))
    case Item(LeftHandWeapon) => Some(ToLeftHand(Count(before, LeftHandWeapon) % HAND_SLOTS))
    case Item(Attire(slot)) => Some(ToAttire(slot))
    case Item(CaryllRune) =>
      if WorkshopSeen(before) then Some(ToCaryllRune(Count(before, CaryllRune) % CARYLL_RUNE_SLOTS)) else None
    case Item(OathRune) => Some(ToOathRune)
    case Item(NotEquippable) => None
  }

  /** What fact `k` adds to the decision list: one decision or nothing. */
  function DecisionAt(facts: seq<ReceivedFact>, k: nat): seq<EquipDecision>
    requires k < |facts|
  {
    match TargetAt(facts, k)
    case None => []
    case Some(target) => [EquipDecision(facts[k].index, Count(facts[..k], facts[k].effect.cls), target)]
  }

  function Decisions(facts: seq<ReceivedFact>): seq<EquipDecision> {
    if facts == [] then []
    else Decisions(facts[..|facts| - 1]) + DecisionAt(facts, |facts| - 1)
  }

  // --------------------------------------------------------------------- loop

  function Ordinal(ordinals: map<EquipClass, nat>, c: EquipClass): nat {
    if c in ordinals then ordinals[c] else 0
  }

  ghost predicate OrdinalsMatch(ordinals: map<EquipClass, nat>, facts: seq<ReceivedFact>) {
    forall c :: Ordinal(ordinals, c) == Count(facts, c)
  }

  lemma OrdinalsStep(before: map<EquipClass, nat>, after: map<EquipClass, nat>, facts: seq<ReceivedFact>, i: nat)
    requires i < |facts| && OrdinalsMatch(before, facts[..i])
    requires match facts[i].effect
             case RuneWorkshopTool => after == before
             case Item(cls) => after == before[cls := Ordinal(before, cls) + 1]
    ensures OrdinalsMatch(after, facts[..i + 1])
  {
    assert facts[..i + 1][..i] == facts[..i];
    forall c
      ensures Ordinal(after, c) == Count(facts[..i + 1], c)
    {
      assert Ordinal(before, c) == Count(facts[..i], c);
    }
  }

  lemma WorkshopStep(facts: seq<ReceivedFact>, i: nat)
    requires i < |facts|
    ensures WorkshopSeen(facts[..i + 1]) == (WorkshopSeen(facts[..i]) || facts[i].effect == RuneWorkshopTool)
  {
    var longer := facts[..i + 1];
    if WorkshopSeen(facts[..i]) {
      var k :| 0 <= k < i && facts[..i][k].effect == RuneWorkshopTool;
      assert longer[k].effect == RuneWorkshopTool;
    }
    if facts[i].effect == RuneWorkshopTool {
      assert longer[i].effect == RuneWorkshopTool;
    }
    if WorkshopSeen(longer) && facts[i].effect != RuneWorkshopTool {
      var k :| 0 <= k < i + 1 && longer[k].effect == RuneWorkshopTool;
      assert facts[..i][k].effect == RuneWorkshopTool;
    }
  }

  lemma DecisionsStep(facts: seq<ReceivedFact>, i: nat)
    requires i < |facts|
    ensures Decisions(facts[..i + 1]) == Decisions(facts[..i]) + DecisionAt(facts, i)
  {
    assert facts[..i + 1][..i] == facts[..i];
  }

  /** The target of an item from the running state. */
  function EquipTargetFor(cls: EquipClass, current: nat, runeWorkshopUnlocked: bool): Option<EquipTarget> {
    match cls
    case RightHandWeapon => Some(ToRightHand(current % HAND_SLOTS))
    case LeftHandWeapon => Some(ToLeftHand(current % HAND_SLOTS))
    case Attire(slot) => Some(ToAttire(slot))
    case CaryllRune => if runeWorkshopUnlocked then Some(ToCaryllRune(current % CARYLL_RUNE_SLOTS)) else None
    case OathRune => Some(ToOathRune)
    case NotEquippable => None
  }

  lemma TargetFromState(facts: seq<ReceivedFact>, i: nat, cls: EquipClass)
    requires i < |facts| && facts[i].effect == Item(cls)
    ensures TargetAt(facts, i) == EquipTargetFor(cls, Count(facts[..i], cls), WorkshopSeen(facts[..i]))
  {
  }

  /** What the loop knows after the facts so far. */
  ghost predicate Reduced(facts: seq<ReceivedFact>, i: nat, decisions: seq<EquipDecision>,
                          ordinals: map<EquipClass, nat>, runeWorkshopUnlocked: bool)
    requires i <= |facts|
  {
    && runeWorkshopUnlocked == WorkshopSeen(facts[..i])
    && OrdinalsMatch(ordinals, facts[..i])
    && decisions == Decisions(facts[..i])
  }

  /** One fact of the loop. */
  method Reduce(ghost facts: seq<ReceivedFact>, ghost i: nat, fact: ReceivedFact, decisions: seq<EquipDecision>,
                ordinals: map<EquipClass, nat>, runeWorkshopUnlocked: bool)
    returns (decisions': seq<EquipDecision>, ordinals': map<EquipClass, nat>, runeWorkshopUnlocked': bool)
    requires i < |facts| && fact == facts[i] && Reduced(facts, i, decisions, ordinals, runeWorkshopUnlocked)
    ensures Reduced(facts, i + 1, decisions', ordinals', runeWorkshopUnlocked')
  {
    WorkshopStep(facts, i);
    DecisionsStep(facts, i);
    decisions', ordinals', runeWorkshopUnlocked' := decisions, ordinals, runeWorkshopUnlocked;
    match fact.effect {
      case RuneWorkshopTool =>
        runeWorkshopUnlocked' := true;
      case Item(cls) =>
        var current := Ordinal(ordinals, cls);
        ordinals' := ordinals[cls := current + 1];
        TargetFromState(facts, i, cls);
        var target := EquipTargetFor(cls, current, runeWorkshopUnlocked);
        if target.Some? {
          decisions' := decisions + [EquipDecision(fact.index, current, target.value)];
        }
    }
    OrdinalsStep(ordinals, ordinals', facts, i);
  }

  /** The reducer.  It fails exactly on a stream that is not strictly increasing,
      and names the first offending pair. */
  method ComputeEquipDecisions(facts: seq<ReceivedFact>) returns (r: Result<seq<EquipDecision>, FeedOrderError>)
    ensures r.Ok? <==> Ordered(facts)
    ensures r.Ok? ==> r.value == Decisions(facts)
    ensures r.Err? ==>
      exists k :: 0 < k < |facts| && Ordered(facts[..k]) && facts[k].index <= facts[k - 1].index
                  && r.error == FeedOrderError(facts[k - 1].index, facts[k].index)
  {
    var decisions: seq<EquipDecision> := [];
    var ordinals: map<EquipClass, nat> := map[];
    var runeWorkshopUnlocked := false;
    var previousIndex: Option<nat> := None;
    for i := 0 to |facts|
      invariant Ordered(facts[..i])
      invariant previousIndex == if i == 0 then None else Some(facts[i - 1].index)
      invariant Reduced(facts, i, decisions, ordinals, runeWorkshopUnlocked)
    {
      var fact := facts[i];
      if previousIndex.Some? && fact.index <= previousIndex.value {
        return Err(FeedOrderError(previousIndex.value, fact.index));
      }
      previousIndex := Some(fact.index);
      decisions, ordinals, runeWorkshopUnlocked := Reduce(facts, i, fact, decisions, ordinals, runeWorkshopUnlocked);
    }
    assert facts[..|facts|] == facts;
    return Ok(decisions);
  }

  // --------------------------------------------------------------- properties

  /** Replaying a longer stream never revises an earlier decision. */
  lemma {:induction false} DecisionsOfPrefix(facts: seq<ReceivedFact>, n: nat)
    requires n <= |facts|
    ensures Decisions(facts[..n]) <= Decisions(facts)
  {
    if n == |facts| {
      assert facts[..n] == facts;
    } else {
      var shorter := facts[..|facts| - 1];
      DecisionsOfPrefix(shorter, n);
      assert shorter[..n] == facts[..n];
    }
  }

  /** Every decision made over a prefix belongs to an index of that prefix. */
  lemma {:induction false} DecisionsComeFromFacts(facts: seq<ReceivedFact>, d: EquipDecision)
    requires d in Decisions(facts)
    ensures exists k :: 0 <= k < |facts| && facts[k].index == d.receivedIndex && TargetAt(facts, k) == Some(d.target)
  {
    var last := |facts| - 1;
    if d in DecisionAt(facts, last) {
      assert TargetAt(facts, last) == Some(d.target);
    } else {
      var shorter := facts[..last];
      DecisionsComeFromFacts(shorter, d);
      var k :| 0 <= k < |shorter| && shorter[k].index == d.receivedIndex && TargetAt(shorter, k) == Some(d.target);
      assert shorter[..k] == facts[..k];
      assert TargetAt(facts, k) == Some(d.target);
    }
  }

  /** The first decision for an AP index, the way the planner looks it up. */
  function TargetOf(decisions: seq<EquipDecision>, index: nat): Option<EquipTarget> {
    if decisions == [] then None
    else if decisions[0].receivedIndex == index then Some(decisions[0].target)
    else TargetOf(decisions[1..], index)
  }

  lemma {:induction false} TargetOfAppend(a: seq<EquipDecision>, b: seq<EquipDecision>, index: nat)
    ensures TargetOf(a + b, index) == if TargetOf(a, index).Some? then TargetOf(a, index) else TargetOf(b, index)
  {
    if a == [] {
      assert a + b == b;
    } else {
      assert (a + b)[1..] == a[1..] + b;
      TargetOfAppend(a[1..], b, index);
    }
  }

  lemma {:induction false} NoDecisionForUnseenIndex(decisions: seq<EquipDecision>, index: nat)
    requires forall d :: d in decisions ==> d.receivedIndex != index
    ensures TargetOf(decisions, index) == None
  {
    if decisions != [] {
      assert decisions[0] in decisions;
      NoDecisionForUnseenIndex(decisions[1..], index);
    }
  }

  /** No earlier decision carries the index of fact `k`. */
  lemma EarlierDecisionsDiffer(facts: seq<ReceivedFact>, k: nat)
    requires Ordered(facts) && k < |facts|
    ensures TargetOf(Decisions(facts[..k]), facts[k].index) == None
  {
    forall d | d in Decisions(facts[..k])
      ensures d.receivedIndex != facts[k].index
    {
      DecisionsComeFromFacts(facts[..k], d);
    }
    NoDecisionForUnseenIndex(Decisions(facts[..k]), facts[k].index);
  }

  lemma OwnDecision(facts: seq<ReceivedFact>, j: nat, k: nat)
    requires Ordered(facts) && j < |facts| && k < |facts|
    ensures TargetOf(DecisionAt(facts, j), facts[k].index) == if j == k then TargetAt(facts, k) else None
  {
  }

  /** The decision taken at delivery, from the stream up to that index only,
      is the one the full replay gives and the one counting gives. */
  lemma {:induction false} DeliveryDecisionIsReplayDecision(facts: seq<ReceivedFact>, k: nat, n: nat)
    requires Ordered(facts) && k < n <= |facts|
    ensures TargetOf(Decisions(facts[..n]), facts[k].index) == TargetAt(facts, k)
    decreases n
  {
    var last := n - 1;
    DecisionsStep(facts, last);
    TargetOfAppend(Decisions(facts[..last]), DecisionAt(facts, last), facts[k].index);
    OwnDecision(facts, last, k);
    if k == last {
      EarlierDecisionsDiffer(facts, k);
    } else {
      DeliveryDecisionIsReplayDecision(facts, k, last);
    }
  }

  /** How many decisions send something to `target`. */
  function Load(decisions: seq<EquipDecision>, target: EquipTarget): nat {
    if decisions == [] then 0
    else Load(decisions[..|decisions| - 1], target) + if decisions[|decisions| - 1].target == target then 1 else 0
  }

  lemma LoadStep(facts: seq<ReceivedFact>, target: EquipTarget)
    requires facts != []
    ensures var last := |facts| - 1;
            Load(Decisions(facts), target)
            == Load(Decisions(facts[..last]), target) + if TargetAt(facts, last) == Some(target) then 1 else 0
  {
    var head, tail := Decisions(facts[..|facts| - 1]), DecisionAt(facts, |facts| - 1);
    if tail == [] {
      assert head + tail == head;
    } else {
      assert (head + tail)[..|head|] == head;
    }
  }

  datatype Hand = Right | Left {
    function Class(): EquipClass {
      if Right? then RightHandWeapon else LeftHandWeapon
    }
    function Slot(k: nat): EquipTarget {
      if Right? then ToRightHand(k) else ToLeftHand(k)
    }
  }

  lemma WeaponTarget(facts: seq<ReceivedFact>, hand: Hand, slot: nat)
    requires facts != []
    ensures var last := |facts| - 1;
            TargetAt(facts, last) == Some(hand.Slot(slot))
            <==> facts[last].effect == Item(hand.Class()) && slot == Count(facts[..last], hand.Class()) % 2
  {
  }

  lemma WeaponLoadStep(facts: seq<ReceivedFact>, hand: Hand, slot: nat)
    requires facts != [] && slot < 2
    ensures var earlier := facts[..|facts| - 1];
            var weapon := facts[|facts| - 1].effect == Item(hand.Class());
            && Count(facts, hand.Class()) == Count(earlier, hand.Class()) + (if weapon then 1 else 0)
            && Load(Decisions(facts), hand.Slot(slot))
               == Load(Decisions(earlier), hand.Slot(slot))
                  + if weapon && Count(earlier, hand.Class()) % 2 == slot then 1 else 0
  {
    WeaponTarget(facts, hand, slot);
    LoadStep(facts, hand.Slot(slot));
  }

  /** The two slots of each hand take turns: loads differ by at most one, the
      first slot never has fewer, and together they hold every weapon. */
  lemma HandLoadsAreBalanced(facts: seq<ReceivedFact>, hand: Hand)
    ensures Load(Decisions(facts), hand.Slot(0)) - Load(Decisions(facts), hand.Slot(1)) == Count(facts, hand.Class()) % 2
    ensures Load(Decisions(facts), hand.Slot(0)) + Load(Decisions(facts), hand.Slot(1)) == Count(facts, hand.Class())
  {
    LoadIsTurns(facts, hand, 0);
    LoadIsTurns(facts, hand, 1);
    TurnsAreBalanced(facts, hand.Class());
  }

  /** How many facts of class `c` come after an even (or odd) number of others. */
  function Turns(facts: seq<ReceivedFact>, c: EquipClass, slot: nat): nat {
    if facts == [] then 0
    else
      var earlier := facts[..|facts| - 1];
      Turns(earlier, c, slot)
      + if facts[|facts| - 1].effect == Item(c) && Count(earlier, c) % 2 == slot then 1 else 0
  }

  lemma {:induction false} LoadIsTurns(facts: seq<ReceivedFact>, hand: Hand, slot: nat)
    requires slot < 2
    ensures Load(Decisions(facts), hand.Slot(slot)) == Turns(facts, hand.Class(), slot)
  {
    if facts != [] {
      WeaponLoadStep(facts, hand, slot);
      LoadIsTurns(facts[..|facts| - 1], hand, slot);
    }
  }

  lemma {:induction false} TurnsAreBalanced(facts: seq<ReceivedFact>, c: EquipClass)
    ensures Turns(facts, c, 0) - Turns(facts, c, 1) == Count(facts, c) % 2
    ensures Turns(facts, c, 0) + Turns(facts, c, 1) == Count(facts, c)
  {
    if facts != [] {
      var earlier := facts[..|facts| - 1];
      TurnsAreBalanced(earlier, c);
      TakeTurns(Turns(earlier, c, 0), Turns(earlier, c, 1), Count(earlier, c), facts[|facts| - 1].effect == Item(c));
    }
  }

  lemma TakeTurns(first: nat, second: nat, count: nat, weapon: bool)
    requires first - second == count % 2 && first + second == count
    ensures var first' := first + if weapon && count % 2 == 0 then 1 else 0;
            var second' := second + if weapon && count % 2 == 1 then 1 else 0;
            var count' := count + if weapon then 1 else 0;
            first' - second' == count' % 2 && first' + second' == count'
  {
  }
}
