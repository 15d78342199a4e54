/**
 The ledger's file protocol (crates/bb-archipelago/src/ledger.rs:226-353).

 A save writes a temporary file, copies the live file aside and renames the
 temporary over the live one.  Only the rename is atomic: a write or a copy that is
 cut short leaves a torn file, one that exists and cannot be parsed.
 */
module LedgerFile {
  import opened Wrappers

  datatype File<G> = Absent | Torn | Complete(generation: G)

  datatype Disk<G> = Disk(live: File<G>, bak: File<G>, tmp: File<G>)

  /** What `load` returns; `brandNew` is the empty ledger of a new client. */
  function Load<G>(d: Disk<G>, brandNew: G): Option<G> {
    match d.live
    case Complete(g) => Some(g)
    case Absent => if d.bak.Complete? then Some(d.bak.generation) else Some(brandNew)
    case Torn => if d.bak.Complete? then Some(d.bak.generation) else None
  }

  /** The disk after each step of a save; a crash leaves one of these. */
  function Steps<G>(d: Disk<G>, next: G): seq<Disk<G>> {
    var torn := d.(tmp := Torn);
    var written := d.(tmp := Complete(next));
    [d, torn, written]
    + (if d.live == Absent then [] else [written.(bak := Torn), Copied(written)])
    + [Saved(d, next)]
  }

  function Copied<G>(d: Disk<G>): Disk<G> {
    if d.live == Absent then d else d.(bak := d.live)
  }

  function Saved<G>(d: Disk<G>, next: G): Disk<G> {
    Disk(Complete(next), Copied(d).bak, Absent)
  }

  /** A disk on which a crash loses nothing: `load` gives the old or the new ledger. */
  ghost predicate OldOrNew<G>(d: Disk<G>, brandNew: G, next: G, crashed: Disk<G>) {
    Load(crashed, brandNew) == Load(d, brandNew) || Load(crashed, brandNew) == Some(next)
  }

  /** A save is crash-atomic unless an unreadable live file stands over a good
      backup, which the copy destroys first. */
  lemma SaveIsCrashAtomic<G>(d: Disk<G>, brandNew: G, next: G)
    ensures (forall k :: 0 <= k < |Steps(d, next)| ==> OldOrNew(d, brandNew, next, Steps(d, next)[k]))
            <==> !(d.live.Torn? && d.bak.Complete?)
  {
    if d.live.Torn? && d.bak.Complete? {
      assert Steps(d, next)[3] == Disk(Torn, Torn, Complete(next));
      assert !OldOrNew(d, brandNew, next, Steps(d, next)[3]);
    }
  }

  /** No step of a save leaves the live file torn. */
  lemma LiveStaysReadable<G>(d: Disk<G>, next: G, k: nat)
    requires !d.live.Torn? && k < |Steps(d, next)|
    ensures !Steps(d, next)[k].live.Torn?
    ensures k < |Steps(d, next)| - 1 ==> Steps(d, next)[k].live == d.live
  {
  }

  /** One save, cut by a crash after `cut` steps or completed. */
  datatype Attempted<G> = Attempted(next: G, cut: nat)

  function Interrupted<G>(d: Disk<G>, s: Attempted<G>): Disk<G> {
    var steps := Steps(d, s.next);
    if s.cut < |steps| then steps[s.cut] else Saved(d, s.next)
  }

  function AfterSaves<G>(d: Disk<G>, saves: seq<Attempted<G>>): Disk<G> {
    if saves == [] then d else Interrupted(AfterSaves(d, saves[..|saves| - 1]), saves[|saves| - 1])
  }

  predicate Commits<G>(d: Disk<G>, s: Attempted<G>) {
    s.cut >= |Steps(d, s.next)| - 1
  }

  /** The last save to reach its rename, starting from `d`. */
  function LastCommitted<G>(d: Disk<G>, saves: seq<Attempted<G>>, brandNew: G): G {
    if saves == [] then brandNew
    else
      var earlier := saves[..|saves| - 1];
      var last := saves[|saves| - 1];
      if Commits(AfterSaves(d, earlier), last) then last.next else LastCommitted(d, earlier, brandNew)
  }

  /** Over any run of saves and crashes from an empty disk, `load` returns the last
      ledger whose save reached its rename. */
  lemma {:induction false} LoadIsLastCommitted<G>(saves: seq<Attempted<G>>, brandNew: G)
    ensures var d := AfterSaves(Disk(Absent, Absent, Absent), saves);
            && !d.live.Torn?
            && Load(d, brandNew) == Some(LastCommitted(Disk(Absent, Absent, Absent), saves, brandNew))
            && (d.live == Absent ==> d.bak == Absent)
  {
    if saves != [] {
      LoadIsLastCommitted(saves[..|saves| - 1], brandNew);
    }
  }

  // ------------------------------------------------------------ the operation

  const LOCK_ATTEMPTS: nat := 6

  /** How one try at a file operation ends. */
  datatype Try = Done | Locked | Failed

  /** The bounded retry succeeds: only lock violations come before the first success. */
  ghost predicate Succeeds(tries: int -> Try) {
    exists k :: 0 <= k < LOCK_ATTEMPTS && SucceedsAt(tries, k)
  }

  ghost predicate SucceedsAt(tries: int -> Try, k: int) {
    tries(k) == Done && forall j :: 0 <= j < k ==> tries(j) == Locked
  }

  class LedgerFiles<G(==)> {
    var disk: Disk<G>
    /** Every disk a crash could have left. */
    ghost var seen: seq<Disk<G>>

    constructor ()
      ensures disk == Disk(Absent, Absent, Absent) && seen == []
    {
      disk := Disk(Absent, Absent, Absent);
      seen := [];
    }

    /** Lock violations are tried again, up to six times in all. */
    method Retry(tries: int -> Try) returns (ok: bool)
      ensures ok <==> Succeeds(tries)
    {
      for attempt := 0 to LOCK_ATTEMPTS
        invariant forall j :: 0 <= j < attempt ==> tries(j) == Locked
      {
        var t := tries(attempt);
        if t == Done {
          assert SucceedsAt(tries, attempt);
          return true;
        }
        if t == Failed || attempt + 1 == LOCK_ATTEMPTS {
          return false;
        }
      }
      ok := false;
    }

    /** Saves `next`; `written` says whether the temporary could be written. */
    method Save(next: G, written: bool, copies: int -> Try, renames: int -> Try, ghost brandNew: G) returns (ok: bool)
      modifies this
      ensures ok <==> written && (old(disk).live != Absent ==> Succeeds(copies)) && Succeeds(renames)
      ensures ok ==> disk == Saved(old(disk), next)
      ensures !ok ==> disk.live == old(disk).live
      ensures old(seen) <= seen
      ensures !(old(disk).live.Torn? && old(disk).bak.Complete?) ==>
                forall k :: |old(seen)| <= k < |seen| ==> OldOrNew(old(disk), brandNew, next, seen[k])
      ensures !old(disk).live.Torn? && !ok ==> Load(disk, brandNew) == Load(old(disk), brandNew)
    {
      ghost var before := disk;
      disk := disk.(tmp := Torn);
      seen := seen + [disk];
      if !written {
        return false;
      }
      disk := disk.(tmp := Complete(next));
      seen := seen + [disk];
      if disk.live != Absent {
        seen := seen + [disk.(bak := Torn)];
        var copied := Retry(copies);
        if !copied {
          disk := disk.(bak := Torn);
          return false;
        }
        disk := disk.(bak := disk.live);
        seen := seen + [disk];
      }
      ok := Retry(renames);
      if ok {
        disk := Disk(disk.tmp, disk.bak, Absent);
        seen := seen + [disk];
      }
    }
  }
}
