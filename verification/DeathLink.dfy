/**
 The outbound DeathLink cadence (crates/bb-archipelago/src/client_loop.rs:870-896).

 Every qualifying death changes the counter in memory, then saves it, then is
 reported.  The closed form below says what the n-th counted death decides.  A save
 may fail and the process may die between the change and the save; which deaths
 then count, and when the reported decisions leave the closed form, is stated over
 every such history.
 */
module DeathLink {
  import opened Wrappers
  import opened Arithmetic

  datatype Decision = Disabled | Graced | Forgiven(used: nat, allowance: nat) | Send

  /** The durable part of the slot. */
  datatype Counter = Counter(graced: bool, used: nat)

  const FRESH: Counter := Counter(false, 0)

  datatype Policy = Policy(allowance: nat, grace: bool)

  // ------------------------------------------------------------- closed form

  /** What the first `n` deaths leave, counted from a fresh slot. */
  function CounterAfter(p: Policy, n: nat): Counter {
    Counter(p.grace && n > 0, Remainder(Counted(p, n), p.allowance + 1))
  }

  /** The deaths that the grace does not swallow. */
  function Counted(p: Policy, n: nat): nat {
    if p.grace && n > 0 then n - 1 else n
  }

  /** The decision on death `n`, counted from 0: the first is graced if a grace is
      given, and of the rest every (allowance + 1)-th is sent. */
  function DecisionOn(p: Policy, n: nat): Decision {
    if p.grace && n == 0 then Graced
    else
      var place := Remainder(Counted(p, n), p.allowance + 1);
      if place == p.allowance then Send else Forgiven(place + 1, p.allowance)
  }

  function Decisions(p: Policy, n: nat): seq<Decision> {
    seq(n, k requires 0 <= k < n => DecisionOn(p, k))
  }

  function CountOf(s: seq<Decision>, d: Decision): nat {
    if s == [] then 0 else CountOf(s[..|s| - 1], d) + if s[|s| - 1] == d then 1 else 0
  }

  lemma NextInCycle(c: nat, m: nat)
    requires m > 0
    ensures Remainder(c + 1, m) == if Remainder(c, m) == m - 1 then 0 else Remainder(c, m) + 1
    ensures Quotient(c + 1, m) == Quotient(c, m) + if Remainder(c, m) == m - 1 then 1 else 0
  {
    var q, r := Quotient(c, m), Remainder(c, m);
    Split(c, m);
    if r == m - 1 {
      OneMoreMultiple(q, m);
      QuotientOfSplit(c + 1, q + 1, 0, m);
    } else {
      QuotientOfSplit(c + 1, q, r + 1, m);
    }
  }

  /** Of n deaths exactly (n - g) / (a + 1) are sent, and the grace is spent at most
      once. */
  lemma SendsAreExact(p: Policy, n: nat)
    ensures CountOf(Decisions(p, n), Send) == Counted(p, n) / (p.allowance + 1)
    ensures CountOf(Decisions(p, n), Graced) == if p.grace && n > 0 then 1 else 0
    ensures CounterAfter(p, n).used == Counted(p, n) % (p.allowance + 1)
  {
    SendsAreCounted(p, n);
    QuotientIsDivision(Counted(p, n), p.allowance + 1);
  }

  lemma {:induction false} SendsAreCounted(p: Policy, n: nat)
    ensures CountOf(Decisions(p, n), Send) == Quotient(Counted(p, n), p.allowance + 1)
    ensures CountOf(Decisions(p, n), Graced) == if p.grace && n > 0 then 1 else 0
  {
    if n > 0 {
      SendsAreCounted(p, n - 1);
      assert Decisions(p, n)[..n - 1] == Decisions(p, n - 1);
      if !(p.grace && n == 1) {
        NextInCycle(Counted(p, n - 1), p.allowance + 1);
      }
    }
  }

  // --------------------------------------------------------- whole histories

  predicate Rises(places: seq<nat>) {
    forall i, j :: 0 <= i < j < |places| ==> places[i] < places[j]
  }

  /** Rising places below `n`, as many as `n`, are all of them. */
  lemma {:induction false} RisingPlacesFill(places: seq<nat>, n: nat)
    requires Rises(places) && forall k :: 0 <= k < |places| ==> places[k] < n
    ensures |places| <= n
    ensures |places| == n ==> forall k :: 0 <= k < n ==> places[k] == k
  {
    if places != [] {
      var last := |places| - 1;
      RisingPlacesFill(places[..last], places[last]);
    }
  }

  class DeathLinkClient {
    const enabled: bool
    const policy: Policy
    var slot: Counter
    /** The slot as the ledger file has it. */
    var disk: Counter
    /** How many deaths the memory and the file have counted. */
    ghost var counted: nat
    ghost var saved: nat
    /** The decisions reported so far, and the place in the count each was made at. */
    ghost var decided: seq<Decision>
    ghost var places: seq<nat>

    /** Memory and file follow the closed form, and no place is reported twice. */
    ghost predicate Valid()
      reads this
    {
      && slot == CounterAfter(policy, counted)
      && disk == CounterAfter(policy, saved)
      && saved <= counted
      && |places| == |decided| && Rises(places)
      && (forall k :: 0 <= k < |places| ==> places[k] < saved && decided[k] == DecisionOn(policy, places[k]))
    }

    constructor (enabled: bool, policy: Policy)
      ensures Valid() && decided == [] && counted == 0
      ensures this.enabled == enabled && this.policy == policy
    {
      this.enabled := enabled;
      this.policy := policy;
      slot := FRESH;
      disk := FRESH;
      counted, saved := 0, 0;
      decided, places := [], [];
    }

    /** The places the file has counted that were never reported. */
    ghost function Unreported(): nat
      reads this
      requires Valid()
    {
      RisingPlacesFill(places, saved);
      saved - |decided|
    }

    /** The counter changes in memory.  The process may die right after. */
    method ChangeCounter() returns (decision: Decision)
      requires Valid()
      modifies this`slot, this`counted
      ensures Valid() && counted == old(counted) + 1
      ensures decision == DecisionOn(policy, old(counted))
    {
      NextInCycle(Counted(policy, counted), policy.allowance + 1);
      Split(Counted(policy, counted), policy.allowance + 1);
      if policy.grace && !slot.graced {
        slot := slot.(graced := true);
        decision := Graced;
      } else if slot.used < policy.allowance {
        slot := slot.(used := slot.used + 1);
        decision := Forgiven(slot.used, policy.allowance);
      } else {
        slot := slot.(used := 0);
        decision := Send;
      }
      counted := counted + 1;
    }

    /** A save of the ledger, for this death or for anything else.  One that fails
        leaves the file as it was, and the memory too. */
    method SaveCounter(succeeds: bool)
      requires Valid()
      modifies this`disk, this`saved
      ensures Valid() && saved == if succeeds then counted else old(saved)
    {
      if succeeds {
        disk := slot;
        saved := counted;
      }
    }

    /** A reported decision is the one of the next place in the count.  A failed save
        reports nothing, and the death stays counted in memory. */
    method RecordQualifyingLocalDeath(saveSucceeds: bool) returns (r: Result<Decision, ()>)
      requires Valid()
      modifies this
      ensures Valid()
      ensures !enabled ==> r == Ok(Disabled) && counted == old(counted) && saved == old(saved) && decided == old(decided)
      ensures enabled ==> counted == old(counted) + 1
      ensures enabled && saveSucceeds ==>
        && r == Ok(DecisionOn(policy, old(counted))) && saved == counted
        && decided == old(decided) + [r.value] && places == old(places) + [old(counted)]
      ensures enabled && !saveSucceeds ==> r.Err? && saved == old(saved) && decided == old(decided) && places == old(places)
      ensures enabled && saveSucceeds ==> Unreported() == old(Unreported()) + (old(counted) - old(saved))
      ensures enabled && !saveSucceeds ==> Unreported() == old(Unreported())
    {
      if !enabled {
        return Ok(Disabled);
      }
      var decision := ChangeCounter();
      ghost var place := counted - 1;
      SaveCounter(saveSucceeds);
      if !saveSucceeds {
        return Err(());
      }
      decided, places := decided + [decision], places + [place];
      r := Ok(decision);
    }

    /** A crash or a quit, between any two steps: the next session starts from the
        file, and forgets exactly the deaths whose save never succeeded. */
    method Restart()
      requires Valid()
      modifies this`slot, this`counted
      ensures Valid() && counted == saved && Unreported() == old(Unreported())
    {
      slot := disk;
      counted := saved;
    }

    /** No death is missing before a graced one, and before every report a whole number
        of cycles. */
    ghost predicate OnBeat()
      reads this
      requires Valid()
    {
      && (policy.grace && places != [] ==> places[0] == 0)
      && forall k :: 0 <= k < |places| ==> Remainder(Missing(k), policy.allowance + 1) == 0
    }

    /** The deaths counted before report `k` that were never reported. */
    ghost function Missing(k: nat): nat
      reads this
      requires Valid() && k < |places|
    {
      PlaceIsLater(places, k);
      places[k] - k
    }

    /** The reports are the closed form exactly while they are on the beat: a death that
        was counted but never reported, because its save failed, shifts the cycle. */
    lemma ReportsFollowClosedForm()
      requires Valid()
      ensures decided == Decisions(policy, |decided|) <==> OnBeat()
      ensures Unreported() == 0 ==> OnBeat()
    {
      RisingPlacesFill(places, saved);
      forall k | 0 <= k < |places|
        ensures decided[k] == DecisionOn(policy, k) <==>
                (policy.grace && k == 0 ==> places[0] == 0) && Remainder(Missing(k), policy.allowance + 1) == 0
      {
        PlaceIsLater(places, k);
        SameDecision(policy, k, places[k]);
      }
      if decided == Decisions(policy, |decided|) {
        assert forall k :: 0 <= k < |places| ==> decided[k] == Decisions(policy, |decided|)[k];
      }
    }
  }

  /** Two deaths decide the same exactly when a whole number of cycles lies between
      them, and neither or both are the graced one. */
  lemma SameDecision(p: Policy, earlier: nat, later: nat)
    requires earlier <= later
    ensures DecisionOn(p, later) == DecisionOn(p, earlier) <==>
              (p.grace && earlier == 0 ==> later == 0) && Remainder(later - earlier, p.allowance + 1) == 0
  {
    var m := p.allowance + 1;
    if !(p.grace && earlier == 0) {
      SameRemainder(Counted(p, earlier), later - earlier, m);
      Split(Counted(p, earlier), m);
      Split(Counted(p, later), m);
    }
  }

  /** Rising places lie no earlier than their rank. */
  lemma {:induction false} PlaceIsLater(places: seq<nat>, k: nat)
    requires Rises(places) && k < |places|
    ensures k <= places[k]
  {
    if k > 0 {
      PlaceIsLater(places, k - 1);
    }
  }

  /** With an allowance of one and no grace, a death whose save fails is counted and
      not reported, and the next one is sent where the closed form forgives it. */
  method MissedDeathShiftsTheCycle() returns (client: DeathLinkClient)
    ensures fresh(client) && client.Valid() && client.decided == [Send]
    ensures Decisions(client.policy, 1) == [Forgiven(1, 1)]
  {
    client := new DeathLinkClient(true, Policy(1, false));
    var failed := client.RecordQualifyingLocalDeath(false);
    var sent := client.RecordQualifyingLocalDeath(true);
    assert DecisionOn(client.policy, 1) == Send;
  }
}
