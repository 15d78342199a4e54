/**
 Detection of the player's own deaths (crates/bb-archipelago/src/client_loop.rs:325-446).

 The observer keeps a phase, a streak and an echo budget.  Here each is tied to the
 whole history of readings, and a death edge is characterised by that history.
 */
module LocalDeath {
  import opened Wrappers

  const DEATH_CONFIRM_POLLS: nat := 2
  const ALIVE_ARM_POLLS: nat := 2
  const ECHO_SUPPRESSION_POLLS: nat := 20

  datatype Phase = Unknown | Alive | Dead

  datatype Edge = Local | IncomingEcho

  /** What happens to the observer: an incoming kill is expected, or a poll reads the
      hit points (none when they cannot be observed). */
  datatype Event = Armed | Poll(hp: Option<nat>)

  // ------------------------------------------------------------- the history

  /** The readings since the last poll that could not observe; true means alive. */
  function Readings(run: seq<Event>): seq<bool> {
    if run == [] then []
    else
      match run[|run| - 1]
      case Armed => Readings(run[..|run| - 1])
      case Poll(None) => []
      case Poll(Some(hp)) => Readings(run[..|run| - 1]) + [hp > 0]
  }

  /** The believed phase: the reading at the last decisive place, which is the second
      reading, or one that repeats the reading before it. */
  function PhaseOf(h: seq<bool>): Phase {
    var n := |h|;
    if n < 2 then Unknown
    else if n == 2 || h[n - 1] == h[n - 2] then (if h[n - 1] then Alive else Dead)
    else PhaseOf(h[..n - 1])
  }

  /** A death is believed at the last reading: the last two are zero and the phase
      before them was alive. */
  predicate DiesAt(h: seq<bool>) {
    var n := |h|;
    n >= 3 && !h[n - 1] && !h[n - 2] && PhaseOf(h[..n - 1]) == Alive
  }

  /** The player is believed back alive at the last reading. */
  predicate RevivesAt(h: seq<bool>) {
    var n := |h|;
    n >= 1 && PhaseOf(h) == Alive && PhaseOf(h[..n - 1]) != Alive
  }

  /** The last event is a poll that believes a death, or a return to life. */
  predicate IsEdge(run: seq<Event>) {
    run != [] && Observes(run[|run| - 1]) && DiesAt(Readings(run))
  }

  predicate IsRevival(run: seq<Event>) {
    run != [] && Observes(run[|run| - 1]) && RevivesAt(Readings(run))
  }

  predicate Observes(e: Event) {
    e.Poll? && e.hp.Some?
  }

  /** How many observable polls ago a kill was armed, if nothing has spent it. */
  function ArmedFor(run: seq<Event>): Option<nat> {
    if run == [] then None
    else
      var last := run[|run| - 1];
      var before := ArmedFor(run[..|run| - 1]);
      if last == Armed then Some(0)
      else if !Observes(last) then before
      else if IsEdge(run) || IsRevival(run) || before == None then None
      else Some(before.value + 1)
  }

  function ObservablePolls(run: seq<Event>): nat {
    if run == [] then 0
    else ObservablePolls(run[..|run| - 1]) + if Observes(run[|run| - 1]) then 1 else 0
  }

  /** A kill was armed at `a` and neither armed again nor spent since. */
  ghost predicate UnspentSince(run: seq<Event>, a: int) {
    && 0 <= a < |run| && run[a] == Armed
    && forall k :: a < k < |run| ==> Quiet(run, k)
  }

  /** Event `k` neither arms nor spends. */
  predicate Quiet(run: seq<Event>, k: int)
    requires 0 <= k < |run|
  {
    run[k] != Armed && !IsEdge(run[..k + 1]) && !IsRevival(run[..k + 1])
  }

  /** The count is that of the one unspent arming. */
  lemma ArmedForIsUnspent(run: seq<Event>)
    ensures ArmedFor(run).Some? <==> exists a :: UnspentSince(run, a)
    ensures forall a :: UnspentSince(run, a) ==> ArmedFor(run) == Some(ObservablePolls(run[a + 1..]))
  {
    if ArmedFor(run).Some? {
      var a := LastArming(run);
    }
    forall a | UnspentSince(run, a)
      ensures ArmedFor(run) == Some(ObservablePolls(run[a + 1..]))
    {
      UnspentCount(run, a);
    }
  }

  lemma {:induction false} LastArming(run: seq<Event>) returns (a: int)
    requires ArmedFor(run).Some?
    ensures UnspentSince(run, a)
  {
    var n := |run| - 1;
    assert run[..n + 1] == run;
    if run[n] == Armed {
      a := n;
    } else {
      a := LastArming(run[..n]);
      UnspentStep(run, a);
    }
  }

  lemma {:induction false} UnspentCount(run: seq<Event>, a: int)
    requires UnspentSince(run, a)
    ensures ArmedFor(run) == Some(ObservablePolls(run[a + 1..]))
  {
    var n := |run| - 1;
    assert run[..n + 1] == run;
    if a < n {
      UnspentStep(run, a);
      UnspentCount(run[..n], a);
      assert run[a + 1..][..n - a - 1] == run[..n][a + 1..];
    } else {
      assert run[a + 1..] == [];
    }
  }

  lemma UnspentStep(run: seq<Event>, a: int)
    requires 0 <= a < |run| - 1
    ensures var n := |run| - 1;
            UnspentSince(run, a) <==> (UnspentSince(run[..n], a) && Quiet(run, n))
  {
    var n := |run| - 1;
    forall k | a < k < n
      ensures Quiet(run[..n], k) == Quiet(run, k)
    {
      assert run[..n][..k + 1] == run[..k + 1];
    }
    if UnspentSince(run, a) {
      assert forall k :: a < k < n ==> Quiet(run, k) ==> Quiet(run[..n], k);
    }
    if UnspentSince(run[..n], a) && Quiet(run, n) {
      assert forall k :: a < k < n ==> Quiet(run[..n], k) ==> Quiet(run, k);
    }
  }

  // ------------------------------------------------------------ the observer

  /** The budget left by an arming. */
  function BudgetOf(armed: Option<nat>): nat {
    match armed
    case None => 0
    case Some(n) => Max(ECHO_SUPPRESSION_POLLS - n, 0)
  }

  /** A kill armed no more than 18 observable polls ago and not spent since explains
      the death that the next poll believes. */
  ghost predicate ExpectsEcho(run: seq<Event>) {
    exists a :: UnspentSince(run, a) && ObservablePolls(run[a + 1..]) + 1 <= 19
  }

  lemma EchoBudget(run: seq<Event>)
    ensures ExpectsEcho(run) <==> BudgetOf(ArmedFor(run)) > 1
  {
    ArmedForIsUnspent(run);
  }

  /** The streak that goes with a history. */
  function StreakOf(h: seq<bool>): nat {
    if |h| < 2 then |h|
    else if PhaseOf(h) == (if h[|h| - 1] then Alive else Dead) then 0 else 1
  }

  lemma {:induction false} TwoReadingsDecide(h: seq<bool>)
    requires |h| >= 2
    ensures PhaseOf(h) != Unknown
  {
    if |h| > 2 {
      TwoReadingsDecide(h[..|h| - 1]);
    }
  }

  lemma NextPhase(h: seq<bool>, alive: bool)
    ensures var n, target := |h|, if alive then Alive else Dead;
            PhaseOf(h + [alive]) ==
            if n == 0 then Unknown else if n == 1 || alive == h[n - 1] then target else PhaseOf(h)
  {
    assert (h + [alive])[..|h|] == h;
  }

  /** The same read off the longer history. */
  lemma LastReading(longer: seq<bool>, h: seq<bool>, alive: bool)
    requires longer == h + [alive]
    ensures |longer| == |h| + 1 && longer[|h|] == alive && longer[..|h|] == h
    ensures forall k :: 0 <= k < |h| ==> longer[k] == h[k]
  {
  }

  lemma NextDeath(h: seq<bool>, alive: bool)
    ensures DiesAt(h + [alive]) <==> |h| >= 2 && !alive && !h[|h| - 1] && PhaseOf(h) == Alive
  {
    DeathRead(h + [alive], h, alive);
  }

  lemma DeathRead(longer: seq<bool>, h: seq<bool>, alive: bool)
    requires longer == h + [alive]
    ensures DiesAt(longer) <==> |h| >= 2 && !alive && !h[|h| - 1] && PhaseOf(h) == Alive
  {
    LastReading(longer, h, alive);
    var earlier := longer[..|longer| - 1];
    assert earlier == h;
  }

  lemma NextRevival(h: seq<bool>, alive: bool)
    ensures RevivesAt(h + [alive]) <==> PhaseOf(h + [alive]) == Alive && PhaseOf(h) != Alive
  {
    assert (h + [alive])[..|h|] == h;
  }

  /** How one more reading changes what the history comes to. */
  lemma NextReading(h: seq<bool>, alive: bool)
    ensures var p, target := PhaseOf(h), if alive then Alive else Dead;
            var flips := target != p && StreakOf(h) + 1 >= 2;
            && PhaseOf(h + [alive]) == (if flips then target else p)
            && StreakOf(h + [alive]) == (if target == p || flips then 0 else StreakOf(h) + 1)
            && (DiesAt(h + [alive]) <==> flips && p == Alive)
            && (RevivesAt(h + [alive]) <==> flips && alive)
  {
    NextPhase(h, alive);
    NextDeath(h, alive);
    NextRevival(h, alive);
    if |h| >= 2 {
      TwoReadingsDecide(h);
    }
  }

  /** How one more poll changes what an arming comes to. */
  lemma NextPoll(run: seq<Event>, hp: Option<nat>)
    ensures var run' := run + [Poll(hp)];
            var h := Readings(run);
            && Readings(run') == (if hp == None then [] else h + [hp.value > 0])
            && (IsEdge(run') <==> hp.Some? && DiesAt(h + [hp.value > 0]))
            && (IsRevival(run') <==> hp.Some? && RevivesAt(h + [hp.value > 0]))
            && ArmedFor(run') == (if hp == None then ArmedFor(run)
                                  else if IsEdge(run') || IsRevival(run') || ArmedFor(run) == None then None
                                  else Some(ArmedFor(run).value + 1))
  {
    assert (run + [Poll(hp)])[..|run|] == run;
  }

  class LocalDeathObserver {
    var phase: Phase
    var streak: nat
    var echoBudget: nat
    ghost var run: seq<Event>

    /** The three fields are functions of the history. */
    ghost predicate Valid()
      reads this
    {
      && phase == PhaseOf(Readings(run))
      && streak == StreakOf(Readings(run))
      && echoBudget == BudgetOf(ArmedFor(run))
    }

    constructor ()
      ensures Valid() && run == []
    {
      phase := Unknown;
      streak := 0;
      echoBudget := 0;
      run := [];
    }

    method ExpectIncomingKill()
      requires Valid()
      modifies this
      ensures Valid() && run == old(run) + [Armed]
    {
      echoBudget := ECHO_SUPPRESSION_POLLS;
      assert (run + [Armed])[..|run|] == run;
      run := run + [Armed];
    }

    method Observe(hp: Option<nat>) returns (edge: Option<Edge>)
      requires Valid()
      modifies this
      ensures Valid() && run == old(run) + [Poll(hp)]
      ensures edge.Some? <==> IsEdge(run)
      ensures edge == Some(IncomingEcho) <==>
              IsEdge(run) && ExpectsEcho(old(run))
    {
      ghost var before := run;
      run := run + [Poll(hp)];
      NextPoll(before, hp);
      EchoBudget(before);
      if hp == None {
        phase := Unknown;
        streak := 0;
        return None;
      }
      echoBudget := Max(echoBudget - 1, 0);
      NextReading(Readings(before), hp.value > 0);
      var target := if hp.value == 0 then Dead else Alive;
      if target == phase {
        streak := 0;
        return None;
      }
      streak := streak + 1;
      var required := if target == Dead then DEATH_CONFIRM_POLLS else ALIVE_ARM_POLLS;
      if streak < required {
        return None;
      }
      var previous := phase;
      phase := target;
      streak := 0;
      if target == Alive {
        echoBudget := 0;
        return None;
      }
      if previous == Alive {
        edge := Some(if echoBudget > 0 then IncomingEcho else Local);
        echoBudget := 0;
      } else {
        edge := None;
      }
    }
  }

  // ------------------------------------------------------------- consequences

  /** A poll that could not observe, or two live readings in a row, at event `k`. */
  ghost predicate Separates(run: seq<Event>, k: int)
    requires 0 <= k < |run|
  {
    || run[k] == Poll(None)
    || (Observes(run[k]) && AliveTwice(Readings(run[..k + 1])))
  }

  predicate AliveTwice(h: seq<bool>) {
    |h| >= 2 && h[|h| - 1] && h[|h| - 2]
  }

  /** Without either since event `i`, a dead phase stays dead. */
  lemma {:induction false} DeadStaysDead(run: seq<Event>, i: nat)
    requires i < |run| && PhaseOf(Readings(run[..i + 1])) == Dead
    requires forall k :: i < k < |run| ==> !Separates(run, k)
    ensures PhaseOf(Readings(run)) == Dead
  {
    var n := |run| - 1;
    if i < n {
      forall k | i < k < n
        ensures !Separates(run[..n], k)
      {
        assert run[..n][..k + 1] == run[..k + 1];
        assert !Separates(run, k);
      }
      assert run[..n][..i + 1] == run[..i + 1];
      DeadStaysDead(run[..n], i);
      assert run[..n + 1] == run && !Separates(run, n);
      assert run == run[..n] + [run[n]];
      if run[n].Poll? {
        NextPoll(run[..n], run[n].hp);
        NextReading(Readings(run[..n]), run[n].hp.value > 0);
      }
    } else {
      assert run[..i + 1] == run;
    }
  }

  /** Two deaths are believed only with an unobservable poll, or two live readings in
      a row, between them. */
  lemma EdgesAreSeparated(run: seq<Event>, i: nat)
    requires i < |run| - 1 && IsEdge(run[..i + 1]) && IsEdge(run)
    ensures exists k :: i < k < |run| && Separates(run, k)
  {
    var n := |run| - 1;
    DeathIsDead(Readings(run[..i + 1]));
    if forall k :: i < k < |run| ==> !Separates(run, k) {
      assert run[..n][..i + 1] == run[..i + 1];
      forall k | i < k < n
        ensures !Separates(run[..n], k)
      {
        assert run[..n][..k + 1] == run[..k + 1];
        assert !Separates(run, k);
      }
      DeadStaysDead(run[..n], i);
    }
  }

  lemma DeathIsDead(h: seq<bool>)
    requires DiesAt(h)
    ensures PhaseOf(h) == Dead
  {
  }

  /** A death is believed only after a live reading that no unobservable poll has
      hidden since. */
  lemma {:induction false} AliveNeedsReading(h: seq<bool>)
    requires PhaseOf(h) == Alive
    ensures exists k :: 0 <= k < |h| && h[k]
  {
    if |h| == 2 || h[|h| - 1] == h[|h| - 2] {
      assert h[|h| - 1];
    } else {
      AliveNeedsReading(h[..|h| - 1]);
      var k :| 0 <= k < |h| - 1 && h[..|h| - 1][k];
      assert h[k];
    }
  }
}
