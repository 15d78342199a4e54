/**
 Reporting of location checks (crates/bb-archipelago/src/client_loop.rs:1959-1961,
 2149-2254): a debounce on consecutive true readings, then retries that back off
 from one second to thirty.

 One location is followed through a history of events; the polling class is proved
 to move every location by exactly the events its polls stand for.
 */
module LocationChecks {
  import opened Wrappers

  const RETRY_INITIAL: nat := 1
  const RETRY_MAX: nat := 30
  const STREAK_MAX: nat := 255

  datatype Retry = Retry(next: int, delay: nat)

  /** What is remembered of one location. */
  datatype Track = Track(streak: nat, retry: Option<Retry>)

  const NOTHING: Track := Track(0, None)

  /** One location's share of a poll. */
  datatype Seen =
    | Lost            // read false, unknown, already checked, or everything was cleared
    | Reconnected     // the back-off was reset
    | On(now: int)    // read true at `now`

  function Bump(streak: nat): nat {
    Min(streak + 1, STREAK_MAX)
  }

  /** A reading of true is reported when debounced and due. */
  predicate Reports(debounce: nat, t: Track, now: int) {
    && Bump(t.streak) >= debounce
    && (t.retry == None || now >= t.retry.value.next)
  }

  function After(debounce: nat, t: Track, e: Seen): Track {
    match e
    case Lost => NOTHING
    case Reconnected => t.(retry := None)
    case On(now) =>
      var retry :=
        if !Reports(debounce, t, now) then t.retry
        else if t.retry == None then Some(Retry(now + RETRY_INITIAL, RETRY_INITIAL))
        else
          var delay := Min(t.retry.value.delay * 2, RETRY_MAX);
          Some(Retry(now + delay, delay));
      Track(Bump(t.streak), retry)
  }

  function AfterAll(debounce: nat, t: Track, run: seq<Seen>): Track {
    if run == [] then t else After(debounce, AfterAll(debounce, t, run[..|run| - 1]), run[|run| - 1])
  }

  lemma {:induction false} AfterAllAppend(debounce: nat, t: Track, a: seq<Seen>, b: seq<Seen>)
    ensures AfterAll(debounce, t, a + b) == AfterAll(debounce, AfterAll(debounce, t, a), b)
  {
    if b == [] {
      assert a + b == a;
    } else {
      assert (a + b)[..|a + b| - 1] == a + b[..|b| - 1];
      AfterAllAppend(debounce, t, a, b[..|b| - 1]);
    }
  }

  // --------------------------------------------------- one location's history

  /** The true readings at the end of a run, with nothing lost between them. */
  function Trues(run: seq<Seen>): nat {
    if run == [] then 0
    else
      var earlier := Trues(run[..|run| - 1]);
      match run[|run| - 1]
      case Lost => 0
      case Reconnected => earlier
      case On(_) => earlier + 1
  }

  /** The times of the reports since the location was last lost or the back-off reset. */
  function ReportTimes(debounce: nat, run: seq<Seen>): seq<int> {
    if run == [] then []
    else
      var earlier := ReportTimes(debounce, run[..|run| - 1]);
      match run[|run| - 1]
      case Lost => []
      case Reconnected => []
      case On(now) =>
        if Reports(debounce, AfterAll(debounce, NOTHING, run[..|run| - 1]), now) then earlier + [now] else earlier
  }

  /** The wait after report `k`: 1, 2, 4, 8, 16, then 30 seconds. */
  function Delay(k: nat): (delay: nat)
    ensures 1 <= delay <= RETRY_MAX
  {
    if k == 0 then RETRY_INITIAL else Min(Delay(k - 1) * 2, RETRY_MAX)
  }

  function Power(k: nat): nat {
    if k == 0 then 1 else 2 * Power(k - 1)
  }

  lemma {:induction false} DelayIsCappedPower(k: nat)
    ensures Delay(k) == Min(Power(k), RETRY_MAX)
  {
    if k > 0 {
      DelayIsCappedPower(k - 1);
    }
  }

  /** The reports so far respect their schedule. */
  ghost predicate Spaced(times: seq<int>) {
    forall k :: 0 <= k < |times| - 1 ==> times[k + 1] >= times[k] + Delay(k)
  }

  /** What is remembered of a location is its debounce count and its schedule. */
  lemma {:induction false} HistoryOfTrack(debounce: nat, run: seq<Seen>)
    ensures var t, times := AfterAll(debounce, NOTHING, run), ReportTimes(debounce, run);
            && t.streak == Min(Trues(run), STREAK_MAX)
            && Spaced(times)
            && t.retry == if times == [] then None
                          else Some(Retry(times[|times| - 1] + Delay(|times| - 1), Delay(|times| - 1)))
  {
    if run != [] {
      HistoryOfTrack(debounce, run[..|run| - 1]);
    }
  }

  /** A reading is reported exactly when it completes `debounce` true readings in a
      row and is due: first of its schedule, or the delay has passed. */
  lemma ReportedExactlyWhenDue(debounce: nat, run: seq<Seen>, now: int)
    requires debounce <= STREAK_MAX
    ensures var times := ReportTimes(debounce, run);
            ReportTimes(debounce, run + [On(now)]) ==
            if Trues(run) + 1 >= debounce && (times == [] || now >= times[|times| - 1] + Delay(|times| - 1))
            then times + [now] else times
  {
    HistoryOfTrack(debounce, run);
    assert (run + [On(now)])[..|run|] == run;
  }

  /** The least time in which the first `n` waits can pass. */
  function LeastTime(n: nat): nat {
    if n == 0 then 0 else LeastTime(n - 1) + Delay(n - 1)
  }

  lemma {:induction false} LeastTimeFrom31(n: nat)
    requires n >= 5
    ensures LeastTime(n) == 31 + 30 * (n - 5)
    ensures Delay(n) == 30
  {
    if n > 5 {
      LeastTimeFrom31(n - 1);
    } else {
      assert Delay(1) == 2 && Delay(2) == 4 && Delay(3) == 8 && Delay(4) == 16 && Delay(5) == 30;
      assert LeastTime(1) == 1 && LeastTime(2) == 3 && LeastTime(3) == 7 && LeastTime(4) == 15;
    }
  }

  lemma {:induction false} SpacedReportsTakeTime(times: seq<int>, n: nat)
    requires Spaced(times) && n < |times|
    ensures times[n] - times[0] >= LeastTime(n)
  {
    if n > 0 {
      SpacedReportsTakeTime(times, n - 1);
    }
  }

  /** In `span` uninterrupted seconds a location is reported at most
      6 + (span - 31) / 30 times. */
  lemma ReportsAreBounded(debounce: nat, run: seq<Seen>, span: int)
    requires span >= 31
    requires var times := ReportTimes(debounce, run);
             times != [] && times[|times| - 1] - times[0] <= span
    ensures |ReportTimes(debounce, run)| <= 6 + (span - 31) / 30
  {
    var times := ReportTimes(debounce, run);
    HistoryOfTrack(debounce, run);
    if |times| > 6 {
      SpacedReportsTakeTime(times, |times| - 1);
      LeastTimeFrom31(|times| - 1);
    }
  }

  /** The first report after a loss or a reset needs the whole debounce: the
      `debounce` readings before it, its own included, were all true. */
  lemma ReportNeedsDebounce(debounce: nat, run: seq<Seen>, now: int)
    requires debounce <= STREAK_MAX
    requires ReportTimes(debounce, run + [On(now)]) != ReportTimes(debounce, run)
    ensures Trues(run + [On(now)]) >= debounce
  {
    ReportedExactlyWhenDue(debounce, run, now);
    assert (run + [On(now)])[..|run|] == run;
  }

  // -------------------------------------------------------------- the polling

  datatype Binding = Binding(location: int, flag: int)

  datatype Context = Ready(identity: string) | NotReady | ContextError

  datatype Watermark = Free | Held | WatermarkError

  datatype Reading = ReadTrue | ReadFalse | ReadUnknown | ReadError

  datatype PollError = Context | Debounce | Watermark | Flag

  /** Everything one poll reads from outside. */
  datatype Poll = Poll(
    context: Context,
    watermark: Watermark,
    flags: int -> Reading,
    checked: set<int>,
    pendingGoal: Option<int>,
    now: int
  )

  /** The location is already checked and not the goal still waited for. */
  predicate Skipped(p: Poll, b: Binding) {
    b.location in p.checked && p.pendingGoal != Some(b.location)
  }

  predicate FailsOn(p: Poll, b: Binding) {
    !Skipped(p, b) && p.flags(b.flag) == ReadError
  }

  ghost predicate Fails(p: Poll, bindings: seq<Binding>) {
    exists k :: 0 <= k < |bindings| && FailsOn(p, bindings[k])
  }

  /** A poll that reads flags to its end. */
  ghost predicate Completes(p: Poll, debounce: nat, bindings: seq<Binding>) {
    p.context.Ready? && debounce >= 2 && p.watermark.Free? && !Fails(p, bindings)
  }

  /** What one binding's own flag comes to. */
  function SeenIn(p: Poll, b: Binding): Seen {
    if !Skipped(p, b) && p.flags(b.flag) == ReadTrue then On(p.now) else Lost
  }

  /** What the flags come to for one location, binding by binding. */
  function SeenOf(p: Poll, bindings: seq<Binding>, location: int): seq<Seen> {
    if bindings == [] then []
    else
      var n := |bindings| - 1;
      SeenOf(p, bindings[..n], location) + if bindings[n].location == location then [SeenIn(p, bindings[n])] else []
  }

  /** What a poll stands for in one location's history: a new identity loses
      everything first. */
  ghost function EventsOf(p: Poll, debounce: nat, bindings: seq<Binding>, identity: Option<string>, location: int): seq<Seen> {
    var renamed: seq<Seen> := if p.context.Ready? && identity != Some(p.context.identity) then [Lost] else [];
    if p.context.Ready? && debounce >= 2 && p.watermark.WatermarkError? then renamed
    else if Completes(p, debounce, bindings) then renamed + SeenOf(p, bindings, location)
    else [Lost]
  }

  function TrackIn(streaks: map<int, nat>, retries: map<int, Retry>, location: int): Track {
    Track(if location in streaks then streaks[location] else 0,
          if location in retries then Some(retries[location]) else None)
  }

  /** The reports of a completed poll, in binding order. */
  function Reported(p: Poll, debounce: nat, bindings: seq<Binding>, streaks: map<int, nat>, retries: map<int, Retry>): seq<int> {
    if bindings == [] then []
    else
      var n := |bindings| - 1;
      var b := bindings[n];
      var t := AfterAll(debounce, TrackIn(streaks, retries, b.location), SeenOf(p, bindings[..n], b.location));
      Reported(p, debounce, bindings[..n], streaks, retries)
      + (if SeenIn(p, b).On? && Reports(debounce, t, p.now) then [b.location] else [])
  }

  lemma FailsNext(p: Poll, bindings: seq<Binding>, i: nat)
    requires i < |bindings|
    ensures Fails(p, bindings[..i + 1]) <==> Fails(p, bindings[..i]) || FailsOn(p, bindings[i])
    ensures Fails(p, bindings[..i + 1]) ==> Fails(p, bindings)
  {
    var now, earlier := bindings[..i + 1], bindings[..i];
    if k :| 0 <= k < |now| && FailsOn(p, now[k]) {
      assert FailsOn(p, bindings[k]);
      assert k < i ==> FailsOn(p, earlier[k]);
    }
    if k :| 0 <= k < |earlier| && FailsOn(p, earlier[k]) {
      assert FailsOn(p, now[k]);
    }
    assert now[i] == bindings[i];
  }

  lemma NextBinding(p: Poll, debounce: nat, bindings: seq<Binding>, i: nat, location: int, t: Track)
    requires i < |bindings|
    ensures AfterAll(debounce, t, SeenOf(p, bindings[..i + 1], location)) ==
            var before := AfterAll(debounce, t, SeenOf(p, bindings[..i], location));
            if bindings[i].location == location then After(debounce, before, SeenIn(p, bindings[i])) else before
  {
    assert bindings[..i + 1][..i] == bindings[..i];
    var earlier := SeenOf(p, bindings[..i], location);
    assert earlier + [] == earlier;
    assert (earlier + [SeenIn(p, bindings[i])])[..|earlier|] == earlier;
  }

  class LocationChecks {
    const debounce: nat
    const bindings: seq<Binding>
    var identity: Option<string>
    var streaks: map<int, nat>
    var retries: map<int, Retry>

    constructor (debounce: nat, bindings: seq<Binding>)
      ensures this.debounce == debounce && this.bindings == bindings
      ensures identity == None && forall location :: TrackOf(location) == NOTHING
    {
      this.debounce := debounce;
      this.bindings := bindings;
      identity := None;
      streaks := map[];
      retries := map[];
    }

    function TrackOf(location: int): Track
      reads this
    {
      TrackIn(streaks, retries, location)
    }

    method Clear()
      modifies this`streaks, this`retries
      ensures forall location :: TrackOf(location) == NOTHING
      ensures streaks == map[] && retries == map[]
    {
      streaks := map[];
      retries := map[];
    }

    /** A new connection reports what it still sees at once. */
    method ResetRetryBackoff()
      modifies this`retries
      ensures forall location :: TrackOf(location) == After(debounce, old(TrackOf(location)), Reconnected)
    {
      retries := map[];
    }

    method PollLocations(p: Poll) returns (result: Result<seq<int>, PollError>)
      modifies this
      ensures forall location ::
                TrackOf(location)
                == AfterAll(debounce, old(TrackOf(location)), EventsOf(p, debounce, bindings, old(identity), location))
      ensures identity == if p.context.Ready? && debounce >= 2 then Some(p.context.identity) else old(identity)
      ensures Completes(p, debounce, bindings) ==>
                result == Ok(if old(identity) == identity
                             then Reported(p, debounce, bindings, old(streaks), old(retries))
                             else Reported(p, debounce, bindings, map[], map[]))
      ensures result.Ok? && !Completes(p, debounce, bindings) ==> result.value == []
      ensures result.Ok? <==>
                (&& !p.context.ContextError?
                 && (p.context.Ready? ==> debounce >= 2 && !p.watermark.WatermarkError?)
                 && (p.context.Ready? && p.watermark.Free? ==> !Fails(p, bindings)))
    {
      if !p.context.Ready? {
        Clear();
        return if p.context.NotReady? then Ok([]) else Err(PollError.Context);
      }
      if debounce < 2 {
        Clear();
        return Err(PollError.Debounce);
      }
      ghost var renamed := identity != Some(p.context.identity);
      if identity != Some(p.context.identity) {
        Clear();
        identity := Some(p.context.identity);
      }
      forall location
        ensures TrackOf(location) == AfterAll(debounce, old(TrackOf(location)), if renamed then [Lost] else [])
      {
        assert [Lost][..0] == [];
      }
      if p.watermark.WatermarkError? {
        return Err(PollError.Watermark);
      }
      if p.watermark.Held? {
        Clear();
        return Ok([]);
      }
      ghost var start := this.streaks;
      ghost var due := this.retries;
      result := ReadFlags(p);
      forall location
        ensures TrackOf(location) == AfterAll(debounce, old(TrackOf(location)), EventsOf(p, debounce, bindings, old(identity), location))
      {
        var prefix: seq<Seen> := if renamed then [Lost] else [];
        AfterAllAppend(debounce, old(TrackOf(location)), prefix, SeenOf(p, bindings, location));
        assert [Lost][..0] == [];
        assert bindings[..|bindings|] == bindings;
        assert AfterAll(debounce, old(TrackOf(location)), prefix) == TrackIn(start, due, location);
      }
    }

    /** Every location has moved from the given tables as the bindings before `i` say. */
    ghost predicate Followed(p: Poll, i: nat, streaks: map<int, nat>, retries: map<int, Retry>)
      requires i <= |bindings|
      reads this
    {
      forall location ::
        TrackOf(location) == AfterAll(debounce, TrackIn(streaks, retries, location), SeenOf(p, bindings[..i], location))
    }

    method ReadFlags(p: Poll) returns (result: Result<seq<int>, PollError>)
      modifies this`streaks, this`retries
      ensures Fails(p, bindings) ==> result == Err(PollError.Flag) && streaks == map[] && retries == map[]
      ensures !Fails(p, bindings) ==> result == Ok(Reported(p, debounce, bindings, old(streaks), old(retries)))
      ensures !Fails(p, bindings) ==> Followed(p, |bindings|, old(streaks), old(retries))
    {
      var newly := [];
      for i := 0 to |bindings|
        invariant !Fails(p, bindings[..i])
        invariant Followed(p, i, old(streaks), old(retries))
        invariant newly == Reported(p, debounce, bindings[..i], old(streaks), old(retries))
      {
        FailsNext(p, bindings, i);
        if FailsOn(p, bindings[i]) {
          Clear();
          return Err(PollError.Flag);
        }
        newly := ReadNext(p, i, newly, old(streaks), old(retries));
      }
      assert bindings[..|bindings|] == bindings;
      result := Ok(newly);
    }

    /** The next binding of a poll. */
    method ReadNext(p: Poll, i: nat, before: seq<int>, ghost start: map<int, nat>, ghost due: map<int, Retry>) returns (newly: seq<int>)
      requires i < |bindings| && !FailsOn(p, bindings[i])
      requires Followed(p, i, start, due)
      requires before == Reported(p, debounce, bindings[..i], start, due)
      modifies this`streaks, this`retries
      ensures Followed(p, i + 1, start, due)
      ensures newly == Reported(p, debounce, bindings[..i + 1], start, due)
    {
      newly := before;
      assert bindings[..i + 1][..i] == bindings[..i];
      var reported := Observe(p, bindings[i]);
      if reported {
        newly := newly + [bindings[i].location];
      }
      forall location
        ensures TrackOf(location) == AfterAll(debounce, TrackIn(start, due, location), SeenOf(p, bindings[..i + 1], location))
      {
        NextBinding(p, debounce, bindings, i, location, TrackIn(start, due, location));
      }
    }

    /** One binding of a poll. */
    method Observe(p: Poll, b: Binding) returns (reported: bool)
      requires !FailsOn(p, b)
      modifies this`streaks, this`retries
      ensures TrackOf(b.location) == After(debounce, old(TrackOf(b.location)), SeenIn(p, b))
      ensures forall location :: location != b.location ==> TrackOf(location) == old(TrackOf(location))
      ensures reported <==> SeenIn(p, b).On? && Reports(debounce, old(TrackOf(b.location)), p.now)
    {
      reported := false;
      if Skipped(p, b) || p.flags(b.flag) != ReadTrue {
        streaks := streaks - {b.location};
        retries := retries - {b.location};
        return;
      }
      var streak := if b.location in streaks then streaks[b.location] else 0;
      streak := Min(streak + 1, STREAK_MAX);
      streaks := streaks[b.location := streak];
      if streak >= debounce {
        if b.location !in retries {
          reported := true;
          retries := retries[b.location := Retry(p.now + RETRY_INITIAL, RETRY_INITIAL)];
        } else if p.now >= retries[b.location].next {
          reported := true;
          var delay := Min(retries[b.location].delay * 2, RETRY_MAX);
          retries := retries[b.location := Retry(p.now + delay, delay)];
        }
      }
    }
  }
}
