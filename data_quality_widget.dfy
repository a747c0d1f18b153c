/** The dashboard's data-quality card: the mismatch count and its one-click repair. */
module DataQualityWidget {
  import opened Wrappers
  import opened Schema
  import opened Store
  import opened Repair

  class Widget {
    var mismatches: seq<MismatchRow>
    var loading: bool
    var fixing: bool

    constructor ()
      ensures mismatches == [] && loading && !fixing
    {
      mismatches, loading, fixing := [], true, false;
    }

    /** The card shows the warning iff the last read had rows. */
    predicate HasIssues()
      reads this
    {
      |mismatches| > 0
    }

    /** Reads the mismatch view; a failed read keeps the previous list. */
    method FetchMismatches(view: Reply<seq<MismatchRow>>)
      modifies this`mismatches, this`loading
      ensures mismatches == if view.error.Some? then old(mismatches) else view.data.GetOr([])
      ensures !loading
    {
      if view.error.None? {
        mismatches := view.data.GetOr([]);
      }
      loading := false;
    }

    /**
     * The repair, then a fresh read (`view`). The AVAILABLE update is issued
     * even when no active lease was read; no error is inspected.
     */
    method FixDataIntegrity(db: Db, f: Faults, view: Reply<seq<MismatchRow>>) returns (reportedSuccess: bool)
      modifies db`units, this`fixing, this`mismatches, this`loading
      ensures db.units == WidgetRepair(old(db.units), old(db.leases), f)
      ensures reportedSuccess && !fixing
      ensures mismatches == if view.error.Some? then old(mismatches) else view.data.GetOr([])
    {
      fixing := true;
      var activeLeases := db.SelectActiveLeaseUnitIds(f.leaseRead);
      var activeUnitIds := activeLeases.data.GetOr([]);
      assert activeUnitIds == ActiveIdsRead(db.leases, f);
      if |activeUnitIds| > 0 {
        var ignored := db.UpdateUnitStatusIn(activeUnitIds, Leased, f.leasedUpdate);
      }
      var ignored := db.UpdateUnitStatusNotIn(activeUnitIds, Available, f.availableUpdate);
      reportedSuccess := true;
      FetchMismatches(view);
      fixing := false;
    }
  }
}
