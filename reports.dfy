/** The reports page: the data-integrity report and its "fix all issues" action. */
module Reports {
  import opened Wrappers
  import opened Schema
  import opened Store
  import opened Repair

  class ReportsPage {
    var mismatches: seq<MismatchRow>
    var loading: bool
    var fixing: bool

    constructor ()
      ensures mismatches == [] && loading && !fixing
    {
      mismatches, loading, fixing := [], true, false;
    }

    /** The page shows the issue list iff the last report read had rows. */
    predicate HasIssues()
      reads this
    {
      |mismatches| > 0
    }

    /** Reads the mismatch view; a failed read keeps the previous report. */
    method FetchDataIntegrity(view: Reply<seq<MismatchRow>>)
      modifies this`mismatches, this`loading
      ensures mismatches == if view.error.Some? then old(mismatches) else view.data.GetOr([])
      ensures !loading
    {
      loading := true;
      if view.error.None? {
        mismatches := view.data.GetOr([]);
      }
      loading := false;
    }

    /**
     * The repair, then a fresh read of the report (`view`). The errors of the
     * four store calls are never inspected and success is always reported.
     */
    method FixAllIssues(db: Db, f: Faults, view: Reply<seq<MismatchRow>>) returns (reportedSuccess: bool)
      modifies db`units, this`fixing, this`mismatches, this`loading
      ensures db.units == TwoPassRepair(old(db.units), old(db.leases), f)
      ensures reportedSuccess && !fixing
      ensures mismatches == if view.error.Some? then old(mismatches) else view.data.GetOr([])
    {
      fixing := true;
      var activeLeases := db.SelectActiveLeaseUnitIds(f.leaseRead);
      var activeUnitIds := activeLeases.data.GetOr([]);
      assert activeUnitIds == ActiveIdsRead(db.leases, f);
      if |activeUnitIds| > 0 {
        var ignored := db.UpdateUnitStatusIn(activeUnitIds, Leased, f.leasedUpdate);
      }
      assert db.units == AfterLeasedPass(old(db.units), db.leases, f);
      var allUnits := db.SelectUnitIds(f.unitRead);
      var unitsToSetAvailable := if allUnits.data.Some? then Excluding(allUnits.data.value, activeUnitIds) else [];
      assert unitsToSetAvailable == AvailableTargets(old(db.units), db.leases, f);
      if |unitsToSetAvailable| > 0 {
        var ignored := db.UpdateUnitStatusIn(unitsToSetAvailable, Available, f.availableUpdate);
      }
      reportedSuccess := true;
      FetchDataIntegrity(view);
      fixing := false;
    }
  }
}
