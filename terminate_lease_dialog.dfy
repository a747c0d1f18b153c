/**
 * The lease termination dialog: two separate updates, the lease to
 * "terminated" and then its unit to AVAILABLE, with no transaction around them.
 */
module TerminateLeaseDialog {
  import opened Wrappers
  import opened Schema
  import opened Store
  import opened ViewLeaseDialog

  /** A nullable id prop that JavaScript treats as true: present and non-empty. */
  predicate Given(id: Option<Id>) {
    id.Some? && id.value != ""
  }

  datatype Outcome = Skipped | Done | Aborted

  class Dialog {
    var open: bool
    var loading: bool

    constructor (open: bool)
      ensures this.open == open && !loading
    {
      this.open, loading := open, false;
    }

    /** `leaseFails` and `unitFails` say whether each of the two updates fails. */
    method HandleTerminate(db: Db, leaseId: Option<Id>, unitId: Option<Id>, leaseFails: bool, unitFails: bool)
      returns (o: Outcome)
      modifies this, db`leases, db`units
      ensures !Given(leaseId) || !Given(unitId) ==>
        o == Skipped && db.leases == old(db.leases) && db.units == old(db.units) &&
        open == old(open) && loading == old(loading)
      ensures Given(leaseId) && Given(unitId) ==>
        db.leases == (if leaseFails then old(db.leases)
                      else SetLeaseStatusEq(old(db.leases), leaseId.value, Terminated)) &&
        db.units == (if leaseFails || unitFails then old(db.units)
                     else SetUnitStatusIn(old(db.units), [unitId.value], Available)) &&
        o == (if leaseFails || unitFails then Aborted else Done) &&
        open == (if o == Done then false else old(open)) && !loading
    {
      if !Given(leaseId) || !Given(unitId) {
        return Skipped;
      }
      loading := true;
      var leaseError := db.UpdateLeaseStatusEq(leaseId.value, Terminated, leaseFails);
      if leaseError.Some? {
        loading := false;
        return Aborted;
      }
      var unitError := db.UpdateUnitStatusEq(unitId.value, Available, unitFails);
      if unitError.Some? {
        loading := false;
        return Aborted;
      }
      open := false;
      loading := false;
      o := Done;
    }
  }

  /**
   * After a termination only the named lease and the named unit differ, the
   * lease is no longer flagged as a mismatch, and the unit is AVAILABLE.
   */
  lemma TerminationEffect(leases: seq<LeaseRow>, units: seq<UnitRow>, leaseId: Id, unitId: Id, unitStatus: Option<UnitStatus>)
    ensures var ls := SetLeaseStatusEq(leases, leaseId, Terminated);
      forall i :: 0 <= i < |leases| ==>
        (leases[i].leaseId != leaseId ==> ls[i] == leases[i]) &&
        (leases[i].leaseId == leaseId ==> ls[i].status == Some(Terminated) && !StatusMismatch(ls[i].status, unitStatus))
    ensures var us := SetUnitStatusIn(units, [unitId], Available);
      forall i :: 0 <= i < |units| ==>
        (units[i].unitId != unitId ==> us[i] == units[i]) &&
        (units[i].unitId == unitId ==> us[i].status == Some(Available))
  {
  }
}
