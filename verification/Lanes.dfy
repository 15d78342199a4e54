/**
 The two side lanes that share the native command slot with AP delivery:
 per-check sustain bonuses and operator rescue grants
 (crates/bb-archipelago/src/client_loop.rs:533-567 and 1750-1862).
 */
module Lanes {
  import opened Wrappers

  /** How many counted polls a sustain command may hold the lane. */
  const SUSTAIN_PENDING_POLL_LIMIT: nat := 600

  datatype OperatorGrant = OperatorGrant(observedBefore: Option<nat>, grantComplete: bool)

  datatype LaneState = LaneState(
    pendingSustain: map<int, Option<nat>>,
    deferredVials: set<int>,
    deferredCapacity: set<int>,
    blockedStorage: map<int, string>,
    completedSustain: set<int>,
    operatorGrants: map<int, OperatorGrant>,
    operatorParks: map<int, string>)

  // ------------------------------------------------------------ lowest key

  lemma SomeMember(s: set<int>) returns (x: int)
    requires s != {}
    ensures x in s
  {
    assert (forall k :: k !in s) ==> s == {};
    x :| x in s;
  }

  lemma {:induction false} LowestExists(s: set<int>)
    requires s != {}
    ensures exists m :: m in s && forall k :: k in s ==> m <= k
  {
    var x := SomeMember(s);
    var rest := s - {x};
    if rest == {} {
      assert s == {x};
      assert forall k :: k in s ==> x <= k;
    } else {
      LowestExists(rest);
      var m :| m in rest && forall k :: k in rest ==> m <= k;
      var lowest := if x < m then x else m;
      forall k | k in s
        ensures lowest <= k
      {
        assert k == x || k in rest;
      }
      assert lowest in s;
    }
  }

  function Lowest(s: set<int>): (m: int)
    requires s != {}
    ensures m in s && forall k :: k in s ==> m <= k
  {
    LowestExists(s);
    var m :| m in s && forall k :: k in s ==> m <= k;
    m
  }

  // ---------------------------------------------------------------- sustain

  /** Owed and not set aside. */
  predicate Eligible(l: LaneState, key: int) {
    key in l.pendingSustain && key !in l.deferredVials && key !in l.deferredCapacity && key !in l.blockedStorage
  }

  /** Its command may already be in the native slot. */
  predicate InFlight(l: LaneState, key: int) {
    Eligible(l, key) && l.pendingSustain[key].Some?
  }

  predicate SustainInFlight(l: LaneState) {
    exists key :: key in l.pendingSustain && InFlight(l, key)
  }

  /** The published sustain if there is one, else the lowest eligible key. */
  function NextSustain(l: LaneState): Option<int> {
    var published := set key | key in l.pendingSustain && InFlight(l, key);
    var owed := set key | key in l.pendingSustain && Eligible(l, key);
    if published != {} then Some(Lowest(published))
    else if owed != {} then Some(Lowest(owed))
    else None
  }

  lemma NextSustainPrefersThePublished(l: LaneState)
    ensures NextSustain(l).Some? ==> Eligible(l, NextSustain(l).value)
    ensures NextSustain(l).None? <==> forall key :: !Eligible(l, key)
    ensures SustainInFlight(l) <==> NextSustain(l).Some? && InFlight(l, NextSustain(l).value)
  {
    var published := set key | key in l.pendingSustain && InFlight(l, key);
    var owed := set key | key in l.pendingSustain && Eligible(l, key);
    if key :| Eligible(l, key) {
      assert key in owed;
    }
    if key :| key in l.pendingSustain && InFlight(l, key) {
      assert key in published;
    }
  }

  // --------------------------------------------------------------- operator

  predicate Incomplete(l: LaneState, key: int) {
    key in l.operatorGrants && !l.operatorGrants[key].grantComplete
  }

  predicate OperatorInFlightAt(l: LaneState, key: int) {
    Incomplete(l, key) && l.operatorGrants[key].observedBefore.Some?
  }

  predicate OperatorInFlight(l: LaneState) {
    exists key :: key in l.operatorGrants && OperatorInFlightAt(l, key)
  }

  /** The rescue lane works on its lowest unfinished key. */
  function NextOperator(l: LaneState): Option<int> {
    var open := set key | key in l.operatorGrants && Incomplete(l, key);
    if open != {} then Some(Lowest(open)) else None
  }

  lemma NextOperatorIsLowest(l: LaneState)
    ensures NextOperator(l).Some? ==> Incomplete(l, NextOperator(l).value)
    ensures NextOperator(l).Some? ==> forall key :: Incomplete(l, key) ==> NextOperator(l).value <= key
    ensures NextOperator(l).None? ==> forall key :: !Incomplete(l, key)
  {
    var open := set key | key in l.operatorGrants && Incomplete(l, key);
    if key :| Incomplete(l, key) {
      assert key in open;
    }
    forall key | Incomplete(l, key)
      ensures key in open
    {
    }
  }

  lemma SameRescuesSameHead(l: LaneState, l': LaneState)
    requires l'.operatorGrants == l.operatorGrants
    ensures NextOperator(l') == NextOperator(l)
  {
    assert (set key | key in l.operatorGrants && Incomplete(l, key))
        == (set key | key in l'.operatorGrants && Incomplete(l', key));
  }

  lemma SameRescues(l: LaneState, l': LaneState)
    requires l'.operatorGrants == l.operatorGrants
    ensures OperatorInFlight(l') == OperatorInFlight(l) && NextOperator(l') == NextOperator(l)
    ensures forall k :: OperatorInFlightAt(l', k) <==> OperatorInFlightAt(l, k)
  {
    SameRescuesSameHead(l, l');
    assert forall k :: OperatorInFlightAt(l', k) <==> OperatorInFlightAt(l, k);
  }

  // ------------------------------------------------------------ the two lanes

  /** At most one sustain command, and none on a key that is set aside. */
  ghost predicate SustainSafe(l: LaneState) {
    && (forall a, b :: InFlight(l, a) && InFlight(l, b) ==> a == b)
    && (forall key :: key in l.pendingSustain && l.pendingSustain[key].Some? ==> Eligible(l, key))
  }

  /** A published rescue is the one the lane will look at next. */
  ghost predicate OperatorSafe(l: LaneState) {
    forall a, b :: OperatorInFlightAt(l, a) && Incomplete(l, b) ==> a <= b
  }

  function SetBaseline(l: LaneState, key: int, baseline: Option<nat>): LaneState {
    l.(pendingSustain := l.pendingSustain[key := baseline])
  }

  function RetireSustain(l: LaneState, key: int): LaneState {
    l.(pendingSustain := l.pendingSustain - {key}, completedSustain := l.completedSustain + {key})
  }

  function SetOperator(l: LaneState, key: int, g: OperatorGrant): LaneState {
    l.(operatorGrants := l.operatorGrants[key := g])
  }

  function ParkOperator(l: LaneState, key: int, reason: string): LaneState {
    l.(operatorGrants := l.operatorGrants - {key}, operatorParks := l.operatorParks[key := reason])
  }

  /** Every key that is owed or was ever finished. */
  function SustainKeys(l: LaneState): set<int> {
    l.pendingSustain.Keys + l.completedSustain
  }

  lemma PublishedIsNext(l: LaneState, key: int)
    requires SustainSafe(l) && InFlight(l, key)
    ensures NextSustain(l) == Some(key)
  {
    NextSustainPrefersThePublished(l);
    assert key in l.pendingSustain;
  }

  /** Publishing the key the lane looks at next leaves it the only sustain command and
      the one looked at next. */
  lemma PublishingASustain(l: LaneState, key: int, baseline: nat)
    requires SustainSafe(l) && NextSustain(l) == Some(key)
    ensures var l' := SetBaseline(l, key, Some(baseline));
            && SustainSafe(l') && InFlight(l', key) && NextSustain(l') == Some(key)
            && (forall a :: InFlight(l', a) ==> a == key)
            && (forall a :: InFlight(l, a) ==> a == key)
            && SustainKeys(l') == SustainKeys(l)
  {
    NextSustainPrefersThePublished(l);
    var l' := SetBaseline(l, key, Some(baseline));
    forall a | InFlight(l, a) || InFlight(l', a)
      ensures a == key
    {
      if a != key {
        PublishedIsNext(l, a);
      }
    }
    assert InFlight(l', key) && key in l'.pendingSustain;
    PublishedIsNext(l', key);
  }

  /** Taking the published key out of play, by dropping its baseline, deferring
      it or retiring it, leaves no sustain command at all. */
  lemma ReleasingSustainFreesTheLane(l: LaneState, key: int, l': LaneState)
    requires SustainSafe(l) && NextSustain(l) == Some(key)
    requires l'.pendingSustain == l.pendingSustain[key := None] || l'.pendingSustain == l.pendingSustain - {key}
    requires l.deferredVials <= l'.deferredVials <= l.deferredVials + {key}
    requires l'.deferredCapacity == l.deferredCapacity
    requires l.blockedStorage.Keys <= l'.blockedStorage.Keys <= l.blockedStorage.Keys + {key}
    ensures SustainSafe(l') && !SustainInFlight(l') && forall a :: !InFlight(l', a)
  {
    NextSustainPrefersThePublished(l);
    if a :| InFlight(l', a) {
      PublishedIsNext(l, a);
    }
  }

  /** A key that is taken off a deferral list carries no baseline, so nothing
      becomes published by it. */
  lemma UndeferringPublishesNothing(l: LaneState, l': LaneState)
    requires SustainSafe(l)
    requires l' == l.(deferredVials := l'.deferredVials, deferredCapacity := l'.deferredCapacity)
    requires l'.deferredVials <= l.deferredVials && l'.deferredCapacity <= l.deferredCapacity
    ensures SustainSafe(l')
    ensures forall key :: InFlight(l', key) <==> InFlight(l, key)
  {
    assert forall k :: InFlight(l', k) <==> InFlight(l, k);
  }

  /** Changing the row of a rescue touches no other. */
  lemma ChangingARescue(l: LaneState, key: int, g: OperatorGrant)
    ensures var l' := SetOperator(l, key, g);
            && (SustainSafe(l) ==> SustainSafe(l'))
            && (forall k :: InFlight(l', k) <==> InFlight(l, k))
            && (forall k :: k != key ==> (OperatorInFlightAt(l', k) <==> OperatorInFlightAt(l, k)))
            && (NextOperator(l) == Some(key) && !g.grantComplete ==> NextOperator(l') == Some(key))
  {
    NextOperatorIsLowest(l);
    var l' := SetOperator(l, key, g);
    assert forall k :: InFlight(l', k) <==> InFlight(l, k);
    assert forall k :: Eligible(l', k) <==> Eligible(l, k);
    if NextOperator(l) == Some(key) && !g.grantComplete {
      assert Incomplete(l', key);
      assert forall k :: Incomplete(l', k) ==> k == key || Incomplete(l, k);
      NextOperatorIsLowest(l');
    }
  }

  lemma ParkingARescue(l: LaneState, key: int, reason: string)
    ensures var l' := ParkOperator(l, key, reason);
            && (SustainSafe(l) ==> SustainSafe(l'))
            && (forall k :: InFlight(l', k) <==> InFlight(l, k))
            && (forall k :: OperatorInFlightAt(l', k) <==> k != key && OperatorInFlightAt(l, k))
  {
    var l' := ParkOperator(l, key, reason);
    assert forall k :: InFlight(l', k) <==> InFlight(l, k);
    assert forall k :: Eligible(l', k) <==> Eligible(l, k);
  }

  /** Queueing a rescue publishes nothing.  It leaves the published rescue the one
      looked at next exactly when that one has a lower key. */
  lemma QueueingARescue(l: LaneState, key: int)
    requires OperatorSafe(l) && key !in l.operatorGrants
    ensures var l' := SetOperator(l, key, OperatorGrant(None, false));
            && (forall k :: OperatorInFlightAt(l', k) <==> OperatorInFlightAt(l, k))
            && (OperatorSafe(l') <==> forall k :: OperatorInFlightAt(l, k) ==> k < key)
  {
    var l' := SetOperator(l, key, OperatorGrant(None, false));
    assert Incomplete(l', key);
    assert forall k :: OperatorInFlightAt(l', k) <==> OperatorInFlightAt(l, k);
    assert forall k :: Incomplete(l', k) <==> Incomplete(l, k) || k == key;
    if k :| OperatorInFlightAt(l, k) && k >= key {
      assert k != key;
      assert OperatorInFlightAt(l', k) && Incomplete(l', key);
    }
  }

  /** Otherwise the lane turns to the new key and publishes it beside the published
      one: two rescue commands at once. */
  lemma LowerRescueIsPublishedBesideTheOldOne(l: LaneState, published: int, key: int, baseline: nat)
    requires OperatorSafe(l) && OperatorInFlightAt(l, published) && key < published && key !in l.operatorGrants
    ensures var l' := SetOperator(l, key, OperatorGrant(None, false));
            && NextOperator(l') == Some(key)
            && OperatorInFlightAt(SetOperator(l', key, OperatorGrant(Some(baseline), false)), key)
            && OperatorInFlightAt(SetOperator(l', key, OperatorGrant(Some(baseline), false)), published)
  {
    var l' := SetOperator(l, key, OperatorGrant(None, false));
    assert Incomplete(l', key);
    NextOperatorIsLowest(l');
    forall k | Incomplete(l', k)
      ensures key <= k
    {
      assert k == key || Incomplete(l, k);
    }
  }

  /** Queueing sustains for fresh checks. */
  function QueueSustain(l: LaneState, keys: seq<int>): LaneState {
    if keys == [] then l
    else
      var before := QueueSustain(l, keys[..|keys| - 1]);
      var key := keys[|keys| - 1];
      if key in SustainKeys(before) then before else SetBaseline(before, key, None)
  }

  /** It publishes nothing, whatever the lanes are. */
  lemma {:induction false} QueueingPublishesNothing(l: LaneState, keys: seq<int>)
    ensures var l' := QueueSustain(l, keys);
            && (SustainSafe(l) ==> SustainSafe(l'))
            && (forall key :: InFlight(l', key) <==> InFlight(l, key))
            && l'.completedSustain == l.completedSustain
            && l'.operatorGrants == l.operatorGrants
            && SustainKeys(l') == SustainKeys(l) + (set key | key in keys)
  {
    if keys != [] {
      var earlier, key := keys[..|keys| - 1], keys[|keys| - 1];
      var before, l' := QueueSustain(l, earlier), QueueSustain(l, keys);
      QueueingPublishesNothing(l, earlier);
      assert keys == earlier + [key];
      assert forall k :: InFlight(l', k) <==> InFlight(before, k);
      assert SustainKeys(l') == SustainKeys(before) + {key};
    }
  }
}
