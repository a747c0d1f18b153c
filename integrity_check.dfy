/**
 * The data-integrity edge function: it reads the mismatch view, optionally
 * repairs the unit table, and answers with a summary. The HTTP plumbing, the
 * CORS preflight and the timestamp of the answer are not modelled.
 */
module IntegrityCheck {
  import opened Wrappers
  import opened Schema
  import opened Store
  import opened Repair

  /** The JSON body of the answer. */
  datatype CheckResponse =
    | Success(issuesFound: nat, autoFixed: bool, mismatches: seq<MismatchRow>)
    | Failure(error: string)

  /** The `x-auto-fix` header, when present, asks for a repair iff it is exactly "true". */
  predicate AutoFixRequested(header: Option<string>) {
    header == Some("true")
  }

  /** The repair runs iff the view read succeeded, a fix was asked for and there are issues. */
  predicate FixRuns(view: Reply<seq<MismatchRow>>, header: Option<string>) {
    view.error.None? && AutoFixRequested(header) && |view.data.GetOr([])| > 0
  }

  /** The answer: a failed view read is a failure; otherwise the counts and the flag. */
  function Respond(view: Reply<seq<MismatchRow>>, header: Option<string>): (r: CheckResponse)
    ensures r.Failure? <==> view.error.Some?
    ensures r.Failure? ==> r.error == view.error.value
    ensures r.Success? ==> r.mismatches == view.data.GetOr([]) && r.issuesFound == |r.mismatches|
    ensures r.Success? ==> r.autoFixed == AutoFixRequested(header)
    ensures r.Success? && view.data.None? ==> r.issuesFound == 0
  {
    if view.error.Some? then Failure(view.error.value)
    else Success(|view.data.GetOr([])|, header == Some("true"), view.data.GetOr([]))
  }

  /** `autoFixed` echoes the header even when there was nothing to fix. */
  lemma AutoFixedWithoutFix()
    ensures var view := Reply(Some([]), None);
      Respond(view, Some("true")) == Success(0, true, []) && !FixRuns(view, Some("true"))
  {
  }

  /** One request to the function; `view` is the reply of the mismatch-view read. */
  method Handle(db: Db, header: Option<string>, view: Reply<seq<MismatchRow>>, f: Faults)
    returns (r: CheckResponse)
    modifies db`units
    ensures r == Respond(view, header)
    ensures db.units == if FixRuns(view, header) then TwoPassRepair(old(db.units), old(db.leases), f)
                        else old(db.units)
  {
    if view.error.Some? {
      return Failure(view.error.value);
    }
    var issueCount := |view.data.GetOr([])|;
    var autoFix := header == Some("true");
    if autoFix && issueCount > 0 {
      var activeLeases := db.SelectActiveLeaseUnitIds(f.leaseRead);
      var activeUnitIds := activeLeases.data.GetOr([]);
      assert activeUnitIds == ActiveIdsRead(db.leases, f);
      if |activeUnitIds| > 0 {
        var ignored := db.UpdateUnitStatusIn(activeUnitIds, Leased, f.leasedUpdate);
      }
      assert db.units == AfterLeasedPass(old(db.units), db.leases, f);
      var allUnits := db.SelectUnitIds(f.unitRead);
      var unitsToSetAvailable := if allUnits.data.Some? then Excluding(allUnits.data.value, activeUnitIds) else [];
      assert unitsToSetAvailable == AvailableTargets(old(db.units), db.leases, f);
      if |unitsToSetAvailable| > 0 {
        var ignored := db.UpdateUnitStatusIn(unitsToSetAvailable, Available, f.availableUpdate);
      }
    }
    r := Success(issueCount, autoFix, view.data.GetOr([]));
  }
}
