/**
 Park reasons (crates/bb-archipelago/src/ledger.rs:568-619).

 A delivery the game side terminally refused is recorded as one string,
 `"{status} ({detail})"`.  The startup requeue parses that string back and
 decides from it whether the cause is known to be fixed.
 */
module Parks {
  import opened Wrappers

  predicate StartsWith(s: string, t: string) {
    |t| <= |s| && s[..|t|] == t
  }

  predicate EndsWith(s: string, t: string) {
    |t| <= |s| && s[|s| - |t|..] == t
  }

  predicate Contains(s: string, t: string) {
    StartsWith(s, t) || (s != [] && Contains(s[1..], t))
  }

  /** Everything before the first space. */
  function ParkStatus(blocked: string): string {
    if blocked == [] || blocked[0] == ' ' then [] else [blocked[0]] + ParkStatus(blocked[1..])
  }

  /** Everything after the first " (". */
  function AfterOpen(blocked: string): Option<string> {
    if |blocked| < 2 then None
    else if blocked[..2] == " (" then Some(blocked[2..])
    else AfterOpen(blocked[1..])
  }

  function ParkDetail(blocked: string): Option<string> {
    match AfterOpen(blocked)
    case None => None
    case Some(rest) => if EndsWith(rest, ")") then Some(rest[..|rest| - 1]) else None
  }

  function FormatPark(status: string, detail: string): string {
    status + " (" + detail + ")"
  }

  /** Whether a park names a cause the current client no longer has. */
  predicate CauseIsFixed(blocked: string) {
    var status := ParkStatus(blocked);
    if status == "quantity_mismatch" then true
    else if status == "write_error" then
      ParkDetail(blocked).Some? && EndsWith(ParkDetail(blocked).value, "quantity write failed")
    else if status == "failed" then
      ParkDetail(blocked).Some?
      && Contains(ParkDetail(blocked).value, "expected_after=")
      && Contains(ParkDetail(blocked).value, "native_result=4294967295")
      && !Contains(ParkDetail(blocked).value, "storage_retry_exhausted")
    else false
  }

  /** Parks an older client made only because it did not know the binding. */
  predicate CauseIsCompatibility(blocked: string) {
    ParkStatus(blocked) in {"unreviewed_attire", "unknown_descriptor_evidence"}
  }

  /** The status survives the round trip exactly when it has no space in it. */
  lemma {:induction false} StatusRoundTrip(status: string, detail: string)
    ensures ParkStatus(FormatPark(status, detail)) == status <==> ' ' !in status
    ensures |ParkStatus(FormatPark(status, detail))| <= |status|
  {
    var whole := FormatPark(status, detail);
    if status == [] {
      assert whole[0] == ' ';
    } else {
      assert whole[0] == status[0];
      assert whole[1..] == FormatPark(status[1..], detail);
      assert status == [status[0]] + status[1..];
      StatusRoundTrip(status[1..], detail);
    }
  }

  /** Then so does the detail, whatever characters it holds. */
  lemma {:induction false} DetailRoundTrip(status: string, detail: string)
    requires ' ' !in status
    ensures ParkDetail(FormatPark(status, detail)) == Some(detail)
  {
    var whole := FormatPark(status, detail);
    if status == [] {
      assert whole[..2] == " (";
      assert whole[2..] == detail + ")";
      assert (detail + ")")[|detail|..] == ")";
      assert (detail + ")")[..|detail|] == detail;
    } else {
      assert whole[0] == status[0] && status[0] in status;
      assert whole[1..] == FormatPark(status[1..], detail);
      DetailRoundTrip(status[1..], detail);
    }
  }
}
