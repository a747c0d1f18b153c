/**
 * Lease/unit status repair, the algorithm shared by the reports page, the
 * data-integrity edge function and the data-quality widget. A repair reads the
 * unit ids of the active leases, writes LEASED on those units and AVAILABLE on
 * every other unit. Each store call of a repair may fail; `Faults` says which
 * ones did. A failed read answers `data: null`, which the code turns into an
 * empty list. A failed update leaves the table as it was.
 */
module Repair {
  import opened Wrappers
  import opened Schema
  import opened Store
  import opened ViewLeaseDialog

  /** Which of the four store calls of a repair fail. */
  datatype Faults = Faults(leaseRead: bool, leasedUpdate: bool, unitRead: bool, availableUpdate: bool)

  const NoFaults := Faults(false, false, false, false)

  /** Some active lease refers to unit `id`. */
  ghost predicate HasActiveLease(leases: seq<LeaseRow>, id: Id) {
    exists j :: 0 <= j < |leases| && leases[j].status == Some(Active) && leases[j].unitId == id
  }

  /** The ids of `ids` that are not in `excluded`, in order (the AVAILABLE target list). */
  function Excluding(ids: seq<Id>, excluded: seq<Id>): (r: seq<Id>)
    ensures forall id :: id in r <==> id in ids && id !in excluded
    ensures |r| <= |ids|
  {
    if ids == [] then []
    else if ids[0] in excluded then Excluding(ids[1..], excluded)
    else [ids[0]] + Excluding(ids[1..], excluded)
  }

  /** The status a unit must have according to the active-lease unit ids. */
  function DerivedStatus(u: UnitRow, activeIds: seq<Id>): UnitStatus {
    if u.unitId in activeIds then Leased else Available
  }

  /** Reference definition: every unit's status re-derived, all other columns kept. */
  function Rederived(units: seq<UnitRow>, activeIds: seq<Id>): seq<UnitRow> {
    seq(|units|, i requires 0 <= i < |units| => units[i].(status := Some(DerivedStatus(units[i], activeIds))))
  }

  /** The active-lease unit ids as the code sees them: a failed read gives `[]`. */
  function ActiveIdsRead(leases: seq<LeaseRow>, f: Faults): seq<Id> {
    if f.leaseRead then [] else ActiveLeaseUnitIds(leases)
  }

  /** The unit table after the LEASED pass, issued only for a non-empty id list. */
  function AfterLeasedPass(units: seq<UnitRow>, leases: seq<LeaseRow>, f: Faults): seq<UnitRow> {
    var activeIds := ActiveIdsRead(leases, f);
    if |activeIds| > 0 && !f.leasedUpdate then SetUnitStatusIn(units, activeIds, Leased) else units
  }

  /** The AVAILABLE target list: the unit ids read after the LEASED pass, minus the active ones. */
  function AvailableTargets(units: seq<UnitRow>, leases: seq<LeaseRow>, f: Faults): seq<Id> {
    if f.unitRead then [] else Excluding(UnitIds(AfterLeasedPass(units, leases, f)), ActiveIdsRead(leases, f))
  }

  /** The unit table after a repair of the reports page or of the edge function. */
  function TwoPassRepair(units: seq<UnitRow>, leases: seq<LeaseRow>, f: Faults): seq<UnitRow> {
    var afterLeased := AfterLeasedPass(units, leases, f);
    var targets := AvailableTargets(units, leases, f);
    if |targets| > 0 && !f.availableUpdate then SetUnitStatusIn(afterLeased, targets, Available)
    else afterLeased
  }

  /**
   * The unit table after the widget's repair: its AVAILABLE pass is one
   * unconditional `not in` update and it reads no unit ids (`unitRead` is unused).
   * How the store reads the filter text `()` of an empty id list is unknown; here
   * it matches every unit, and a store that rejects it is `availableUpdate`.
   */
  function WidgetRepair(units: seq<UnitRow>, leases: seq<LeaseRow>, f: Faults): seq<UnitRow> {
    var afterLeased := AfterLeasedPass(units, leases, f);
    if f.availableUpdate then afterLeased
    else SetUnitStatusNotIn(afterLeased, ActiveIdsRead(leases, f), Available)
  }

  /** A fault-free two-pass repair computes the reference definition. */
  lemma TwoPassRepairRederives(units: seq<UnitRow>, leases: seq<LeaseRow>)
    ensures TwoPassRepair(units, leases, NoFaults) == Rederived(units, ActiveLeaseUnitIds(leases))
  {
    var activeIds := ActiveLeaseUnitIds(leases);
    var afterLeased := AfterLeasedPass(units, leases, NoFaults);
    var targets := AvailableTargets(units, leases, NoFaults);
    var r := TwoPassRepair(units, leases, NoFaults);
    var d := Rederived(units, activeIds);
    assert |afterLeased| == |units|;
    forall i | 0 <= i < |units|
      ensures r[i] == d[i]
    {
      assert afterLeased[i].unitId == units[i].unitId;
      assert UnitIds(afterLeased)[i] == units[i].unitId;
      if units[i].unitId in activeIds {
        assert afterLeased[i] == units[i].(status := Some(Leased));
        assert units[i].unitId !in targets;
      } else {
        assert afterLeased[i] == units[i];
        assert units[i].unitId in targets;
      }
    }
  }

  /**
   * The post-state of a fault-free repair: a unit is LEASED iff an active lease
   * refers to it, AVAILABLE otherwise (HOLD and INACTIVE included), and no
   * column but the status changes.
   */
  lemma RepairPostState(units: seq<UnitRow>, leases: seq<LeaseRow>)
    ensures |TwoPassRepair(units, leases, NoFaults)| == |units|
    ensures forall i :: 0 <= i < |units| ==>
      (TwoPassRepair(units, leases, NoFaults)[i].status == Some(Leased) <==> HasActiveLease(leases, units[i].unitId))
    ensures forall i :: 0 <= i < |units| ==>
      (TwoPassRepair(units, leases, NoFaults)[i].status == Some(Available) <==> !HasActiveLease(leases, units[i].unitId))
    ensures forall i :: 0 <= i < |units| ==>
      TwoPassRepair(units, leases, NoFaults)[i].(status := units[i].status) == units[i]
  {
    TwoPassRepairRederives(units, leases);
  }

  /**
   * The LEASED targets and the AVAILABLE targets are disjoint and together
   * cover every unit, and the AVAILABLE targets are units of the table.
   */
  lemma RepairTargetsPartition(units: seq<UnitRow>, leases: seq<LeaseRow>)
    ensures forall i :: 0 <= i < |units| ==>
      (units[i].unitId in ActiveLeaseUnitIds(leases) <==> units[i].unitId !in AvailableTargets(units, leases, NoFaults))
    ensures forall id :: id in AvailableTargets(units, leases, NoFaults) ==> id in UnitIds(units)
  {
    var afterLeased := AfterLeasedPass(units, leases, NoFaults);
    assert |afterLeased| == |units|;
    forall i | 0 <= i < |units|
      ensures UnitIds(afterLeased)[i] == UnitIds(units)[i]
    {
      assert afterLeased[i].unitId == units[i].unitId;
    }
    assert UnitIds(afterLeased) == UnitIds(units);
  }

  /** A fault-free repair depends only on the set of active-lease unit ids. */
  lemma RepairDependsOnlyOnActiveIds(units: seq<UnitRow>, leases1: seq<LeaseRow>, leases2: seq<LeaseRow>)
    requires forall id :: HasActiveLease(leases1, id) <==> HasActiveLease(leases2, id)
    ensures TwoPassRepair(units, leases1, NoFaults) == TwoPassRepair(units, leases2, NoFaults)
  {
    TwoPassRepairRederives(units, leases1);
    TwoPassRepairRederives(units, leases2);
    var d1 := Rederived(units, ActiveLeaseUnitIds(leases1));
    var d2 := Rederived(units, ActiveLeaseUnitIds(leases2));
    forall i | 0 <= i < |units|
      ensures d1[i] == d2[i]
    {
      assert (units[i].unitId in ActiveLeaseUnitIds(leases1)) == HasActiveLease(leases1, units[i].unitId);
      assert (units[i].unitId in ActiveLeaseUnitIds(leases2)) == HasActiveLease(leases2, units[i].unitId);
    }
  }

  /** A second fault-free repair over the same leases changes nothing. */
  lemma RepairIdempotent(units: seq<UnitRow>, leases: seq<LeaseRow>)
    ensures TwoPassRepair(TwoPassRepair(units, leases, NoFaults), leases, NoFaults)
         == TwoPassRepair(units, leases, NoFaults)
  {
    var activeIds := ActiveLeaseUnitIds(leases);
    var once := TwoPassRepair(units, leases, NoFaults);
    TwoPassRepairRederives(units, leases);
    TwoPassRepairRederives(once, leases);
    var twice := Rederived(once, activeIds);
    forall i | 0 <= i < |units|
      ensures twice[i] == once[i]
    {
      assert once[i].unitId == units[i].unitId;
    }
  }

  /** After a fault-free repair no active lease refers to a unit that is not LEASED. */
  lemma NoMismatchAfterRepair(units: seq<UnitRow>, leases: seq<LeaseRow>)
    ensures forall i, j ::
      (0 <= i < |units| && 0 <= j < |leases| &&
       TwoPassRepair(units, leases, NoFaults)[i].unitId == leases[j].unitId) ==>
      !StatusMismatch(leases[j].status, TwoPassRepair(units, leases, NoFaults)[i].status)
  {
    var r := TwoPassRepair(units, leases, NoFaults);
    RepairPostState(units, leases);
    forall i, j | 0 <= i < |units| && 0 <= j < |leases| && r[i].unitId == leases[j].unitId
      ensures !StatusMismatch(leases[j].status, r[i].status)
    {
      assert r[i].unitId == units[i].unitId;
      if leases[j].status == Some(Active) {
        assert HasActiveLease(leases, units[i].unitId);
      }
    }
  }

  /**
   * With at least one active lease read, and the unit-id read not failing, the
   * widget leaves the same unit table as the two-pass repair, whichever of the
   * two updates fail.
   */
  lemma WidgetAgreesWithTwoPass(units: seq<UnitRow>, leases: seq<LeaseRow>, f: Faults)
    requires !f.leaseRead && !f.unitRead
    requires |ActiveLeaseUnitIds(leases)| > 0
    ensures WidgetRepair(units, leases, f) == TwoPassRepair(units, leases, f)
  {
    var activeIds := ActiveLeaseUnitIds(leases);
    var afterLeased := AfterLeasedPass(units, leases, f);
    var targets := AvailableTargets(units, leases, f);
    if !f.availableUpdate {
      var w := SetUnitStatusNotIn(afterLeased, activeIds, Available);
      assert |afterLeased| == |units|;
      forall i | 0 <= i < |afterLeased|
        ensures afterLeased[i].unitId in targets <==> afterLeased[i].unitId !in activeIds
      {
        assert UnitIds(afterLeased)[i] == afterLeased[i].unitId;
      }
      if |targets| > 0 {
        assert w == SetUnitStatusIn(afterLeased, targets, Available);
      } else {
        assert w == afterLeased;
      }
    }
  }

  // ---------------------------------------------------------------------
  // A failed lease read
  // ---------------------------------------------------------------------

  /**
   * As written, a failed lease read is taken for "no active lease": the repair
   * then sets every unit AVAILABLE and creates a mismatch for a lease that had none.
   */
  lemma LeaseReadFailureCreatesMismatch()
    ensures
      var u := UnitRow("u1", "p1", "101", 1000.0, None, None, None, Some(Leased));
      var l := LeaseRow("l1", "u1", "t1", 0, 365, 1000.0, None, Some(Active), None);
      var f := Faults(true, false, false, false);
      !StatusMismatch(l.status, u.status) &&
      StatusMismatch(l.status, TwoPassRepair([u], [l], f)[0].status)
  {
    var u := UnitRow("u1", "p1", "101", 1000.0, None, None, None, Some(Leased));
    var l := LeaseRow("l1", "u1", "t1", 0, 365, 1000.0, None, Some(Active), None);
    var f := Faults(true, false, false, false);
    assert ActiveIdsRead([l], f) == [];
    assert AfterLeasedPass([u], [l], f) == [u];
    assert UnitIds([u]) == ["u1"];
    assert AvailableTargets([u], [l], f) == ["u1"];
  }

  /** The evidently intended repair: give up when the lease read fails. */
  function GuardedRepair(units: seq<UnitRow>, leases: seq<LeaseRow>, f: Faults): seq<UnitRow> {
    if f.leaseRead then units else TwoPassRepair(units, leases, f)
  }

  /**
   * Whatever calls fail, the guarded repair never takes LEASED away from a
   * unit that an active lease refers to, so it creates no mismatch; without
   * faults it is the two-pass repair.
   */
  lemma GuardedRepairCreatesNoMismatch(units: seq<UnitRow>, leases: seq<LeaseRow>, f: Faults)
    ensures |GuardedRepair(units, leases, f)| == |units|
    ensures forall i, j ::
      (0 <= i < |units| && 0 <= j < |leases| &&
       units[i].unitId == leases[j].unitId && !StatusMismatch(leases[j].status, units[i].status)) ==>
      !StatusMismatch(leases[j].status, GuardedRepair(units, leases, f)[i].status)
    ensures GuardedRepair(units, leases, NoFaults) == TwoPassRepair(units, leases, NoFaults)
  {
    var g := GuardedRepair(units, leases, f);
    if !f.leaseRead {
      var activeIds := ActiveLeaseUnitIds(leases);
      var afterLeased := AfterLeasedPass(units, leases, f);
      var targets := AvailableTargets(units, leases, f);
      assert |afterLeased| == |units|;
      forall i, j | 0 <= i < |units| && 0 <= j < |leases| &&
        units[i].unitId == leases[j].unitId && !StatusMismatch(leases[j].status, units[i].status)
        ensures !StatusMismatch(leases[j].status, g[i].status)
      {
        if leases[j].status == Some(Active) {
          assert units[i].unitId in activeIds;
          assert afterLeased[i].status == Some(Leased);
          assert afterLeased[i].unitId !in targets;
        }
      }
    }
  }
}
