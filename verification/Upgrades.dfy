/** Auto-upgrade policy (crates/bb-archipelago/src/upgrades.rs) and the shield
    exception (crates/bb-archipelago/src/client_loop.rs:223-234). */
module Upgrades {
  import opened Wrappers

  const MAX_WEAPON_LEVEL: nat := 10
  const REINFORCEMENT_ROW_STEP: nat := 100
  const U32_MAX: nat := 0xFFFF_FFFF

  function AutoUpgradeLevel(enabled: bool, receivedLevel: nat, targetLevel: Option<nat>): nat {
    var received := Min(receivedLevel, MAX_WEAPON_LEVEL);
    if !enabled || targetLevel.None? then received
    else Max(received, Min(targetLevel.value, MAX_WEAPON_LEVEL))
  }

  /** `None` is the source's checked arithmetic failing: a downgrade, or a row
      number that does not fit 32 bits. */
  function ReinforcedDescriptorPair(raw: nat, normalized: nat, receivedLevel: nat, deliveredLevel: nat): Option<(nat, nat)> {
    if deliveredLevel < receivedLevel then None
    else
      var delta := (deliveredLevel - receivedLevel) * REINFORCEMENT_ROW_STEP;
      if raw + delta > U32_MAX || normalized + delta > U32_MAX then None
      else Some((raw + delta, normalized + delta))
  }

  /** The two shields have only their base row. */
  predicate IsNonUpgradableShield(normalizedItemId: nat, reinforcementLevel: Option<nat>) {
    reinforcementLevel.Some?
    && normalizedItemId >= reinforcementLevel.value * 100
    && normalizedItemId - reinforcementLevel.value * 100 in {19_000_000, 19_100_000}
  }

  /** What the inventory census can say: a target (or an honest "nothing
      reinforced"), or that it cannot look yet. */
  datatype UpgradeTarget = Level(target: Option<nat>) | Hold
}
