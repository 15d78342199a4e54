/**
 The mock game (crates/bb-archipelago/src/backend.rs:266-669), one concrete
 environment for the delivery protocol.

 Its grants are grants the protocol allows: between two restores a tag runs at most
 once, whatever its other answers are.  Two of those answers leave the contract that
 exactly-once rests on: a completed tag marked retained is called resampleable, and
 every withdrawal is granted.  The condition under which each stays inside it is
 stated exactly.
 */
module MockBackends {
  import opened Wrappers
  import opened DeliveryProtocol

  type Key = (nat, Option<nat>)

  /** A command; `index` is the AP index in its tag. */
  datatype ItemGrant = ItemGrant(index: nat, key: Key, category: nat, quantity: nat, expectedBefore: nat)

  datatype Progress = Complete | Pending | Terminal | Mismatch(found: nat)

  const U32_MAX: nat := 0xFFFF_FFFF

  function StackOf(stacks: map<Key, nat>, key: Key): nat {
    if key in stacks then stacks[key] else 0
  }

  function SaturatingAdd(a: nat, b: nat): nat {
    Min(a + b, U32_MAX)
  }

  /** Everything the player owns. */
  datatype Stacks = Stacks(inventory: map<Key, nat>, storage: map<Key, nat>, flags: set<nat>)

  /** One grant's effect: a flag, or its quantity on one of the two stacks. */
  function Landed(s: Stacks, grant: ItemGrant, routed: bool): Stacks {
    if grant.category == 255 then s.(flags := s.flags + {grant.key.0})
    else if routed then
      s.(storage := s.storage[grant.key := SaturatingAdd(StackOf(s.storage, grant.key), grant.quantity)])
    else
      s.(inventory := s.inventory[grant.key := SaturatingAdd(StackOf(s.inventory, grant.key), grant.quantity)])
  }

  /** A grant adds its quantity to its own item and nothing to any other, unless the
      stack it lands on overflows. */
  lemma GrantAddsItsQuantity(s: Stacks, grant: ItemGrant, routed: bool, key: Key)
    requires grant.category != 255
    ensures var total := StackOf(s.inventory, key) + StackOf(s.storage, key);
            var s' := Landed(s, grant, routed);
            var total' := StackOf(s'.inventory, key) + StackOf(s'.storage, key);
            var before := StackOf(if routed then s.storage else s.inventory, grant.key);
            if key != grant.key then total' == total
            else total' == total + grant.quantity <==> before + grant.quantity <= U32_MAX
  {
  }

  class MockBackend {
    var inventory: map<Key, nat>
    var storage: map<Key, nat>
    var setFlags: set<nat>
    var completedGrants: set<nat>
    var grantDelays: map<nat, nat>
    var pendingGrants: set<nat>
    var terminalFailures: set<nat>
    var retainedUnwitnessed: set<nat>
    var storageRouted: set<nat>
    /** The protocol's view of the machine, and what was applied since the last restore. */
    ghost var commands: Commands
    ghost var applied: multiset<nat>

    /** Completed is applied, and applied once. */
    ghost predicate Valid()
      reads this
    {
      && commands.Keys == completedGrants
      && (forall i :: i in commands ==> commands[i].phase == Applied)
      && (forall i: nat :: applied[i] == if i in completedGrants then 1 else 0)
    }

    constructor ()
      ensures Valid() && commands == map[]
    {
      inventory, storage, setFlags := map[], map[], {};
      completedGrants, grantDelays, pendingGrants := {}, map[], {};
      terminalFailures, retainedUnwitnessed, storageRouted := {}, {}, {};
      commands, applied := map[], multiset{};
    }

    /** Counts a delay down; the call that finds it used up goes through. */
    method Delayed(index: nat) returns (delayed: bool)
      modifies this`grantDelays
      ensures delayed <==> index in old(grantDelays) && old(grantDelays)[index] > 0
      ensures delayed ==> grantDelays == old(grantDelays)[index := old(grantDelays)[index] - 1]
      ensures !delayed ==> grantDelays == old(grantDelays) - {index}
    {
      if index !in grantDelays {
        assert grantDelays - {index} == grantDelays;
        return false;
      }
      if grantDelays[index] == 0 {
        grantDelays := grantDelays - {index};
        return false;
      }
      grantDelays := grantDelays[index := grantDelays[index] - 1];
      delayed := true;
    }

    /** What stops a grant before it touches the inventory. */
    ghost predicate HeldUp(index: nat)
      reads this
    {
      index in pendingGrants || index in terminalFailures || (index in grantDelays && grantDelays[index] > 0)
    }

    function Belongings(): Stacks
      reads this
    {
      Stacks(inventory, storage, setFlags)
    }

    /** Every grant is a step the protocol allows: a completed tag answers complete and
        changes nothing; otherwise it applies once, against the expected quantity. */
    method GrantItem(grant: ItemGrant) returns (progress: Progress)
      requires Valid()
      modifies this`inventory, this`storage, this`setFlags, this`completedGrants, this`grantDelays, this`commands, this`applied
      ensures Valid()
      ensures GrantAllowed(old(commands), grant.index, grant.expectedBefore, commands)
      ensures applied == old(applied) + if commands == old(commands) then multiset{} else multiset{grant.index}
      ensures progress.Complete? ==> grant.index in completedGrants
      ensures var ready := !old(HeldUp(grant.index)) && grant.index !in old(completedGrants);
              commands != old(commands) <==>
              ready && (grant.category == 255 || StackOf(old(inventory), grant.key) == grant.expectedBefore)
      ensures Belongings() == if commands == old(commands) then old(Belongings())
                              else Landed(old(Belongings()), grant, grant.index in storageRouted)
    {
      if grant.index in pendingGrants {
        return Pending;
      }
      if grant.index in terminalFailures {
        return Terminal;
      }
      if grant.index in completedGrants {
        return Complete;
      }
      var delayed := Delayed(grant.index);
      if delayed {
        return Pending;
      }
      if grant.category != 255 && StackOf(inventory, grant.key) != grant.expectedBefore {
        return Mismatch(StackOf(inventory, grant.key));
      }
      Land(grant);
      Witness(grant.index, grant.expectedBefore);
      progress := Complete;
    }

    method Land(grant: ItemGrant)
      modifies this`inventory, this`storage, this`setFlags
      ensures Belongings() == Landed(old(Belongings()), grant, grant.index in storageRouted)
    {
      if grant.category == 255 {
        setFlags := setFlags + {grant.key.0};
      } else if grant.index in storageRouted {
        storage := storage[grant.key := SaturatingAdd(StackOf(storage, grant.key), grant.quantity)];
      } else {
        inventory := inventory[grant.key := SaturatingAdd(StackOf(inventory, grant.key), grant.quantity)];
      }
    }

    /** Remembers that the tag has run. */
    method Witness(index: nat, baseline: nat)
      requires Valid() && index !in completedGrants
      modifies this`completedGrants, this`commands, this`applied
      ensures Valid() && index in completedGrants
      ensures commands == old(commands)[index := Command(baseline, Applied)] != old(commands)
      ensures applied == old(applied) + multiset{index}
    {
      completedGrants := completedGrants + {index};
      commands := commands[index := Command(baseline, Applied)];
      applied := applied + multiset{index};
    }

    /** `false` is within the contract exactly while the tag has not completed. */
    method GrantMayHaveApplied(index: nat) returns (may: bool)
      requires Valid()
      ensures may <==> index !in retainedUnwitnessed
      ensures (!may ==> MayBeResampled(commands, index)) <==> !(index in retainedUnwitnessed && index in completedGrants)
    {
      may := index !in retainedUnwitnessed;
    }

    /** Always `true`, which is within the contract exactly when the tag has not
        completed. */
    method WithdrawUnwitnessedGrant(index: nat) returns (withdrawn: bool)
      requires Valid()
      ensures withdrawn
      ensures Unexecuted(commands, index) <==> index !in completedGrants
    {
      withdrawn := true;
    }

    /** A save restore rewinds the game's side only. */
    method RestoreSave(restored: map<Key, nat>)
      requires Valid()
      modifies this
      ensures Valid() && commands == map[] && applied == multiset{} && inventory == restored
      ensures storage == old(storage) && setFlags == old(setFlags)
    {
      inventory := restored;
      completedGrants := {};
      commands, applied := map[], multiset{};
    }
  }
}
