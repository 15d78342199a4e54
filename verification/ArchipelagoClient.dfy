/**
 The Archipelago client's own state (crates/archipelago-rs/src/client.rs:585-608,
 930-967, 1089-1180): the received-item list with its gap detection, and the checked
 locations with the hint points they earn.
 */
module ArchipelagoClient {
  import opened Wrappers
  import opened Planning
  import Loop = ClientLoops

  type ReceivedItem = IncomingItem

  /** One `ReceivedItems` message. */
  datatype Message = Message(index: nat, items: seq<int>)

  datatype Event = NoEvent | ReceivedItems(index: nat) | Error

  // ----------------------------------------------------------- received items

  function Indexed(index: nat, items: seq<int>): seq<ReceivedItem> {
    seq(|items|, k requires 0 <= k < |items| => IncomingItem(index + k, items[k]))
  }

  /** The list after a message; `known` says whether every sender and game is known. */
  function Handled(received: seq<ReceivedItem>, m: Message, known: bool): seq<ReceivedItem> {
    if m.index > |received| then received
    else
      var kept := if m.index == 0 then [] else received;
      if known then kept + Indexed(m.index, m.items) else kept
  }

  /** The message carries the server's items from its index on. */
  predicate IsSlice(stream: seq<int>, m: Message) {
    m.index + |m.items| <= |stream| && m.items == stream[m.index..m.index + |m.items|]
  }

  /** The list is the beginning of the server's stream, entry i under index i. */
  predicate IsPrefix(stream: seq<int>, received: seq<ReceivedItem>) {
    |received| <= |stream| && received == Indexed(0, stream[..|received|])
  }

  /** A slice keeps the list a prefix exactly when it does not reach back into the
      list without starting over. */
  lemma SliceKeepsPrefix(stream: seq<int>, received: seq<ReceivedItem>, m: Message, known: bool)
    requires IsPrefix(stream, received) && IsSlice(stream, m)
    ensures IsPrefix(stream, Handled(received, m, known)) <==>
            !(0 < m.index < |received| && m.items != [] && known)
  {
    var after := Handled(received, m, known);
    if 0 < m.index < |received| && m.items != [] && known {
      assert after[|received|] == IncomingItem(m.index, m.items[0]);
      assert |after| <= |stream| ==> Indexed(0, stream[..|after|])[|received|].index == |received|;
    } else if m.index <= |received| && known && m.items != [] {
      assert forall k :: 0 <= k < |after| ==> after[k] == IncomingItem(k, stream[k]);
      assert after == Indexed(0, stream[..|after|]);
    }
  }

  /** A message that starts over replaces the whole list, so the answer to a Sync
      always restores it. */
  lemma StartingOverRestores(stream: seq<int>, received: seq<ReceivedItem>, m: Message)
    requires IsSlice(stream, m) && m.index == 0
    ensures IsPrefix(stream, Handled(received, m, true)) && |Handled(received, m, true)| == |m.items|
  {
    assert stream[..|m.items|] == m.items;
    assert [] + Indexed(0, m.items) == Indexed(0, m.items);
  }

  /** A prefix never holds an index twice, so the delivery loop accepts it. */
  lemma PrefixIsAccepted(stream: seq<int>, received: seq<ReceivedItem>)
    requires IsPrefix(stream, received)
    ensures Loop.DistinctIndices(received)
    ensures forall i :: 0 <= i < |received| ==> received[i] == IncomingItem(i, stream[i])
  {
  }

  /** Reaching back into the list repeats an index: the delivery loop then rejects
      the list until a message starts over. */
  lemma ReachingBackIsRejected(stream: seq<int>, received: seq<ReceivedItem>, m: Message)
    requires IsPrefix(stream, received) && 0 < m.index < |received| && m.items != []
    ensures !Loop.DistinctIndices(Handled(received, m, true))
  {
    var after := Handled(received, m, true);
    assert after[m.index].index == m.index && after[|received|].index == m.index;
  }

  function HandledAll(messages: seq<Message>, known: int -> bool): seq<ReceivedItem> {
    if messages == [] then []
    else
      var n := |messages| - 1;
      Handled(HandledAll(messages[..n], known), messages[n], known(n))
  }

  /** Every message is a slice that starts over or does not reach back. */
  ghost predicate WellSent(stream: seq<int>, messages: seq<Message>, known: int -> bool) {
    forall k :: 0 <= k < |messages| ==>
      && IsSlice(stream, messages[k])
      && (messages[k].index == 0 || messages[k].index >= |HandledAll(messages[..k], known)|)
  }

  /** Over any run of such messages the list tracks the server's stream. */
  lemma {:induction false} ListTracksStream(stream: seq<int>, messages: seq<Message>, known: int -> bool)
    requires WellSent(stream, messages, known)
    ensures IsPrefix(stream, HandledAll(messages, known))
    ensures Loop.DistinctIndices(HandledAll(messages, known))
  {
    if messages != [] {
      var n := |messages| - 1;
      assert forall k :: 0 <= k < n ==> messages[..n][..k] == messages[..k];
      ListTracksStream(stream, messages[..n], known);
      SliceKeepsPrefix(stream, HandledAll(messages[..n], known), messages[n], known(n));
    } else {
      assert Indexed(0, stream[..0]) == [];
    }
    PrefixIsAccepted(stream, HandledAll(messages, known));
  }

  // -------------------------------------------------------- checked locations

  /** The locations of `ids` that this slot has and has not checked yet. */
  function Unchecked(checked: map<int, bool>, ids: seq<int>): set<int> {
    set id | id in ids && id in checked && !checked[id]
  }

  /** The hint points for `n` checks, `n` times `perCheck`. */
  function Pay(perCheck: nat, n: nat): nat {
    if n == 0 then 0 else Pay(perCheck, n - 1) + perCheck
  }

  ghost predicate NoRepeats(s: seq<int>) {
    forall i, j :: 0 <= i < j < |s| ==> s[i] != s[j]
  }

  datatype CheckedUpdate = News(news: seq<int>) | UnknownLocation | Panicked

  class Client {
    const slotLocations: set<int>
    const initiallyChecked: set<int>
    var received: seq<ReceivedItem>
    var syncs: nat
    var checked: map<int, bool>
    var serverChecked: set<int>
    var hintPoints: int
    var hintPointsPerCheck: nat
    /** The locations this client was paid for, and those the server told it of. */
    ghost var credited: set<int>
    ghost var announced: set<int>

    /** Every checked location of the slot was checked at the start, credited or
        announced, and only one of these. */
    ghost predicate Valid()
      reads this
    {
      && slotLocations <= checked.Keys
      && initiallyChecked <= slotLocations
      && credited !! announced && credited !! initiallyChecked && announced !! initiallyChecked
      && credited <= slotLocations && announced <= slotLocations
      && (forall id :: id in slotLocations ==> (checked[id] <==> id in initiallyChecked + credited + announced))
      && (forall id :: id in checked && id !in slotLocations ==> checked[id])
    }

    constructor (missing: set<int>, already: set<int>, hintPoints: int, perCheck: nat)
      requires missing !! already
      ensures Valid() && slotLocations == missing + already && initiallyChecked == already
      ensures received == [] && credited == announced == {}
      ensures this.hintPoints == hintPoints && hintPointsPerCheck == perCheck
    {
      slotLocations := missing + already;
      initiallyChecked := already;
      received := [];
      syncs := 0;
      checked := map id | id in missing + already :: id in already;
      serverChecked := already;
      this.hintPoints := hintPoints;
      hintPointsPerCheck := perCheck;
      credited := {};
      announced := {};
    }

    /** A gap asks for everything again and changes nothing else. */
    method HandleReceivedItems(m: Message, known: bool, canSend: bool) returns (event: Event)
      modifies this`received, this`syncs
      ensures received == Handled(old(received), m, known)
      ensures syncs == old(syncs) + if m.index > |old(received)| && canSend then 1 else 0
      ensures event == if m.index > |old(received)| then (if canSend then NoEvent else Error)
                       else if known then ReceivedItems(m.index) else Error
      ensures forall stream ::
                IsPrefix(stream, old(received)) && IsSlice(stream, m) && (m.index == 0 || m.index >= |old(received)|) ==>
                  IsPrefix(stream, received)
    {
      forall stream | IsPrefix(stream, received) && IsSlice(stream, m) && (m.index == 0 || m.index >= |received|)
        ensures IsPrefix(stream, Handled(received, m, known))
      {
        SliceKeepsPrefix(stream, received, m, known);
      }
      if m.index == 0 {
        received := [];
      } else if m.index > |received| {
        if canSend {
          syncs := syncs + 1;
        }
        return if canSend then NoEvent else Error;
      }
      if !known {
        return Error;
      }
      received := received + Indexed(m.index, m.items);
      event := ReceivedItems(m.index);
    }

    /** Whatever is unchecked was never credited nor announced. */
    lemma NewIsNew(ids: seq<int>)
      requires Valid()
      ensures credited !! Unchecked(checked, ids) && announced !! Unchecked(checked, ids)
    {
      forall id | id in credited + announced
        ensures id !in Unchecked(checked, ids)
      {
        assert id in slotLocations;
      }
      assert credited * Unchecked(checked, ids) == {} == announced * Unchecked(checked, ids);
    }

    /** Reports locations; each one of the slot is paid for once, however often and in
        whatever order it is reported or announced. */
    method MarkChecked(locations: seq<int>, gameLocations: set<int>, canSend: bool) returns (ok: bool)
      requires Valid()
      modifies this`checked, this`hintPoints, this`credited
      ensures Valid()
      ensures ok <==> (forall id :: id in locations ==> id in gameLocations) && canSend
      ensures !ok ==> checked == old(checked) && hintPoints == old(hintPoints) && credited == old(credited)
      ensures ok ==> forall id :: id in credited <==> id in old(credited) || id in Unchecked(old(checked), locations)
      ensures ok ==> hintPoints == old(hintPoints) + Pay(hintPointsPerCheck, |Unchecked(old(checked), locations)|)
      ensures ok ==> forall id :: id in locations ==> id in checked && checked[id]
      ensures old(credited) !! Unchecked(old(checked), locations)
    {
      NewIsNew(locations);
      ok := (forall id :: id in locations ==> id in gameLocations) && canSend;
      if ok {
        MarkedMeans(checked, locations);
        EarnedIsUnchecked(checked, locations);
        MarkAll(locations);
      }
    }

    method MarkAll(locations: seq<int>)
      requires Valid()
      modifies this`checked, this`hintPoints, this`credited
      ensures Valid() && MarkedSoFar(old(checked), old(credited), old(hintPoints), locations)
    {
      ghost var checked0, credited0, points0 := checked, credited, hintPoints;
      for k := 0 to |locations|
        invariant Valid() && MarkedSoFar(checked0, credited0, points0, locations[..k])
      {
        MarkNext(checked0, credited0, points0, locations[..k], locations[k]);
        assert locations[..k + 1] == locations[..k] + [locations[k]];
      }
      assert locations[..|locations|] == locations;
    }

    /** The state after marking `ids`, from what it was before. */
    ghost predicate MarkedSoFar(checked0: map<int, bool>, credited0: set<int>, points0: int, ids: seq<int>)
      reads this
    {
      && checked == Marked(checked0, ids)
      && (forall id :: id in credited <==> id in credited0 || id in Earned(checked0, ids))
      && hintPoints == points0 + Pay(hintPointsPerCheck, |Earned(checked0, ids)|)
    }

    method MarkNext(ghost checked0: map<int, bool>, ghost credited0: set<int>, ghost points0: int, ghost ids: seq<int>, id: int)
      requires Valid() && MarkedSoFar(checked0, credited0, points0, ids)
      modifies this`checked, this`hintPoints, this`credited
      ensures Valid() && MarkedSoFar(checked0, credited0, points0, ids + [id])
    {
      EarnedStep(checked0, ids, id, hintPointsPerCheck);
      MarkOne(id);
    }

    method MarkOne(id: int)
      requires Valid()
      modifies this`checked, this`hintPoints, this`credited
      ensures Valid() && checked == old(checked)[id := true]
      ensures var newly := id in old(checked) && !old(checked)[id];
              && hintPoints == old(hintPoints) + (if newly then hintPointsPerCheck else 0)
              && credited == old(credited) + (if newly then {id} else {})
    {
      if id in checked && !checked[id] {
        hintPoints := hintPoints + hintPointsPerCheck;
        credited := credited + {id};
      }
      checked := checked[id := true];
    }

    /** The server's list of checked locations; what was known already is left out of
        the event.  A location the game does not have is an error that changes nothing.
        One that the game has and the slot lacks, and that was never marked here, is
        unwrapped although it is not there, and the client panics. */
    method UpdateCheckedLocations(locations: seq<int>, gameLocations: set<int>) returns (answer: CheckedUpdate)
      requires Valid()
      modifies this`checked, this`serverChecked, this`announced
      ensures Valid()
      ensures answer.UnknownLocation? <==> exists id :: id in locations && id !in gameLocations
      ensures answer.Panicked? <==> !answer.UnknownLocation? && exists id :: id in locations && id !in old(checked)
      ensures answer.UnknownLocation? ==> checked == old(checked) && serverChecked == old(serverChecked) && announced == old(announced)
      ensures answer.News? ==>
        && NoRepeats(answer.news) && (forall id :: id in answer.news <==> id in Unchecked(old(checked), locations))
        && announced == old(announced) + Unchecked(old(checked), locations)
        && serverChecked == old(serverChecked) + (set id | id in locations)
        && (forall id :: id in locations ==> id in checked && checked[id])
      ensures old(announced) !! Unchecked(old(checked), locations)
    {
      NewIsNew(locations);
      if exists id :: id in locations && id !in gameLocations {
        return UnknownLocation;
      }
      serverChecked := serverChecked + (set id | id in locations);
      var news := [];
      for k := 0 to |locations|
        invariant Valid() && announced == old(announced) + Unchecked(old(checked), locations[..k])
        invariant serverChecked == old(serverChecked) + (set id | id in locations)
        invariant NoRepeats(news) && forall id :: id in news <==> id in Unchecked(old(checked), locations[..k])
        invariant checked.Keys == old(checked).Keys
        invariant forall id :: id in checked ==> checked[id] == (id in locations[..k] || old(checked)[id])
        invariant forall id :: id in locations[..k] ==> id in checked
      {
        var id := locations[k];
        assert locations[..k + 1] == locations[..k] + [id];
        if id !in checked {
          checked := checked[id := true];
          return Panicked;
        }
        if !checked[id] {
          news := news + [id];
          announced := announced + {id};
        }
        checked := checked[id := true];
      }
      assert locations[..|locations|] == locations;
      return News(news);
    }
  }

  function Marked(checked: map<int, bool>, ids: seq<int>): map<int, bool> {
    if ids == [] then checked else Marked(checked, ids[..|ids| - 1])[ids[|ids| - 1] := true]
  }

  lemma {:induction false} MarkedMeans(checked: map<int, bool>, ids: seq<int>)
    ensures forall id :: id in Marked(checked, ids) <==> id in checked || id in ids
    ensures forall id :: id in Marked(checked, ids) ==> Marked(checked, ids)[id] == (id in ids || checked[id])
  {
    if ids != [] {
      MarkedMeans(checked, ids[..|ids| - 1]);
      assert ids == ids[..|ids| - 1] + [ids[|ids| - 1]];
    }
  }

  /** The locations that marking `ids` one by one finds unchecked. */
  function Earned(checked: map<int, bool>, ids: seq<int>): set<int> {
    if ids == [] then {}
    else
      var before := Marked(checked, ids[..|ids| - 1]);
      var id := ids[|ids| - 1];
      Earned(checked, ids[..|ids| - 1]) + if id in before && !before[id] then {id} else {}
  }

  lemma {:induction false} EarnedIsUnchecked(checked: map<int, bool>, ids: seq<int>)
    ensures Earned(checked, ids) == Unchecked(checked, ids)
  {
    if ids != [] {
      var shorter, id := ids[..|ids| - 1], ids[|ids| - 1];
      EarnedIsUnchecked(checked, shorter);
      MarkedMeans(checked, shorter);
      assert ids == shorter + [id];
    }
  }

  /** What one more location changes. */
  lemma EarnedStep(checked: map<int, bool>, ids: seq<int>, id: int, perCheck: nat)
    ensures var before := Marked(checked, ids);
            var newly := id in before && !before[id];
            && Marked(checked, ids + [id]) == before[id := true]
            && Earned(checked, ids + [id]) == Earned(checked, ids) + (if newly then {id} else {})
            && Pay(perCheck, |Earned(checked, ids + [id])|)
               == Pay(perCheck, |Earned(checked, ids)|) + if newly then perCheck else 0
  {
    assert (ids + [id])[..|ids|] == ids;
    EarnedIsUnchecked(checked, ids);
    MarkedMeans(checked, ids);
  }
}
