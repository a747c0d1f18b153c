/**
 * The leases page: activating a draft, generating sample leases in bulk, and
 * which row actions are offered. The random 70% activation choice is the
 * parameter `pick`, and the sample-lease generator is the parameter `mk`.
 */
module LeasesPage {
  import opened Wrappers
  import opened Schema
  import opened Store

  /** `deposit || 0`: a missing or zero deposit is sent as 0. */
  function DepositArg(deposit: Option<real>): (r: real)
    ensures deposit.Some? ==> r == deposit.value
    ensures r == 0.0 <==> deposit.None? || deposit.value == 0.0
  {
    deposit.GetOr(0.0)
  }

  /** The confirm call made for a lease row: its unit, tenant, dates and deposit. */
  function ConfirmCall(l: LeaseRow): RpcCall {
    ConfirmLease(l.unitId, l.tenantId, l.startDate, l.endDate, DepositArg(l.deposit))
  }

  /** The row actions offered for a lease. */
  datatype Actions = Actions(activate: bool, terminate: bool)

  /** "Activate" on a draft, "Terminate" on an active lease. */
  function OfferedActions(status: Option<LeaseStatus>): Actions {
    Actions(status == Some(Draft), status == Some(Active))
  }

  /** No lease is offered both actions, and ended or terminated leases are offered neither. */
  lemma OfferedActionsExclusive(status: Option<LeaseStatus>)
    ensures !(OfferedActions(status).activate && OfferedActions(status).terminate)
    ensures status in {Some(Ended), Some(Terminated), None} ==>
      !OfferedActions(status).activate && !OfferedActions(status).terminate
  {
  }

  /**
   * Activation of a draft: confirm it through the procedure (`confirm` is its
   * reply), then delete the draft. The delete's own result is not looked at.
   */
  method HandleActivateLease(db: Db, lease: LeaseRow, confirm: Reply<Json>, deleteFails: bool)
    returns (reportedSuccess: bool)
    modifies db`rpcLog, db`leases
    ensures db.rpcLog == old(db.rpcLog) + [ConfirmCall(lease)]
    ensures db.leases == if confirm.error.Some? || deleteFails then old(db.leases)
                         else DeleteLeaseEq(old(db.leases), lease.leaseId)
    ensures reportedSuccess <==> confirm.error.None?
  {
    var r := db.Rpc(ConfirmCall(lease), confirm);
    if r.error.Some? {
      return false;
    }
    var ignored := db.DeleteLease(lease.leaseId, deleteFails);
    reportedSuccess := true;
  }

  // ---------------------------------------------------------------------
  // Bulk generation
  // ---------------------------------------------------------------------

  /** `Math.min(count, units, tenants)`. */
  function LeasesToCreate(count: nat, units: nat, tenants: nat): (n: nat)
    ensures n <= count && n <= units && n <= tenants
    ensures n == count || n == units || n == tenants
  {
    if count <= units && count <= tenants then count
    else if units <= tenants then units
    else tenants
  }

  /** The generated rows: unit i paired with tenant i. */
  function Pairings(unitIds: seq<Id>, tenantIds: seq<Id>, n: nat, mk: (Id, Id) -> LeaseRow): (r: seq<LeaseRow>)
    requires n <= |unitIds| && n <= |tenantIds|
    ensures |r| == n
    ensures forall i :: 0 <= i < n ==> r[i] == mk(unitIds[i], tenantIds[i])
  {
    if n == 0 then [] else Pairings(unitIds, tenantIds, n - 1, mk) + [mk(unitIds[n - 1], tenantIds[n - 1])]
  }

  /** The rows whose position (counted from `offset`) `pick` chooses, in order. */
  function Picked(rows: seq<LeaseRow>, pick: nat -> bool, offset: nat): (r: seq<LeaseRow>)
    ensures |r| <= |rows|
    ensures forall l :: l in r ==> l in rows
  {
    if rows == [] then []
    else if pick(offset) then [rows[0]] + Picked(rows[1..], pick, offset + 1)
    else Picked(rows[1..], pick, offset + 1)
  }

  /** Picking from two lists in a row picks from each in turn, so the order is kept ... */
  lemma {:induction false} PickedAppend(xs: seq<LeaseRow>, ys: seq<LeaseRow>, pick: nat -> bool, offset: nat)
    ensures Picked(xs + ys, pick, offset) == Picked(xs, pick, offset) + Picked(ys, pick, offset + |xs|)
  {
    if xs == [] {
      assert xs + ys == ys;
    } else {
      assert (xs + ys)[1..] == xs[1..] + ys;
      PickedAppend(xs[1..], ys, pick, offset + 1);
    }
  }

  /** ... and the row at position `offset` is chosen iff `pick(offset)`. */
  lemma PickedSingle(x: LeaseRow, pick: nat -> bool, offset: nat)
    ensures Picked([x], pick, offset) == if pick(offset) then [x] else []
  {
    assert [x][1..] == [];
  }

  /** The number of the first `n` confirm calls that answered without error. */
  function CountActivated(n: nat, confirmReply: nat -> Reply<Json>): (c: nat)
    ensures c <= n
  {
    if n == 0 then 0
    else CountActivated(n - 1, confirmReply) + (if confirmReply(n - 1).error.None? then 1 else 0)
  }

  /** The activated count is the number of confirm calls among the first `n` that answered without error. */
  lemma {:induction false} CountActivatedCounts(n: nat, confirmReply: nat -> Reply<Json>)
    ensures CountActivated(n, confirmReply) == |set k: nat | k < n && confirmReply(k).error.None?|
  {
    var all := set k: nat | k < n && confirmReply(k).error.None?;
    if n == 0 {
      assert all == {};
    } else {
      CountActivatedCounts(n - 1, confirmReply);
      var before := set k: nat | k < n - 1 && confirmReply(k).error.None?;
      assert all == if confirmReply(n - 1).error.None? then before + {n - 1} else before;
    }
  }

  /** The confirm calls of `rows`, in order. */
  function ConfirmCalls(rows: seq<LeaseRow>): (r: seq<RpcCall>)
    ensures |r| == |rows|
    ensures forall i :: 0 <= i < |rows| ==> r[i] == ConfirmCall(rows[i])
  {
    if rows == [] then [] else ConfirmCalls(rows[..|rows| - 1]) + [ConfirmCall(rows[|rows| - 1])]
  }

  /** The lease table after the first `k` activation attempts: a confirmed draft is deleted. */
  function AfterActivations(leases: seq<LeaseRow>, rows: seq<LeaseRow>, k: nat,
                            confirmReply: nat -> Reply<Json>, deleteFails: nat -> bool): seq<LeaseRow>
    requires k <= |rows|
  {
    if k == 0 then leases
    else
      var before := AfterActivations(leases, rows, k - 1, confirmReply, deleteFails);
      if confirmReply(k - 1).error.None? && !deleteFails(k - 1) then DeleteLeaseEq(before, rows[k - 1].leaseId)
      else before
  }

  datatype GenerateReport =
    | NeedUnitsAndTenants
    | Generated(created: nat, activated: nat, drafts: int)
    | GenerateFailed

  /**
   * Generates up to `count` sample leases, inserted as drafts, then confirms the
   * ones `pick` chooses. The k-th confirm call is answered with `confirmReply(k)`
   * and the k-th draft delete fails iff `deleteFails(k)`.
   */
  method GenerateRandomLeases(db: Db, count: nat, unitsFail: bool, tenantsFail: bool,
                              mk: (Id, Id) -> LeaseRow, insertFails: bool, pick: nat -> bool,
                              confirmReply: nat -> Reply<Json>, deleteFails: nat -> bool)
    returns (report: GenerateReport)
    modifies db`leases, db`rpcLog
    ensures var units := Answer(unitsFail, Limit(AvailableUnitIds(old(db.units)), count)).data;
            var tenants := Answer(tenantsFail, Limit(TenantIds(old(db.tenants)), count)).data;
      if units.None? || units.value == [] || tenants.None? || tenants.value == [] then
        report == NeedUnitsAndTenants && db.leases == old(db.leases) && db.rpcLog == old(db.rpcLog)
      else
        var n := LeasesToCreate(count, |units.value|, |tenants.value|);
        var rows := Pairings(units.value, tenants.value, n, mk);
        if insertFails then
          report == GenerateFailed && db.leases == old(db.leases) && db.rpcLog == old(db.rpcLog)
        else
          var chosen := Picked(rows, pick, 0);
          report == Generated(n, CountActivated(|chosen|, confirmReply), n - CountActivated(|chosen|, confirmReply)) &&
          db.rpcLog == old(db.rpcLog) + ConfirmCalls(chosen) &&
          db.leases == AfterActivations(old(db.leases) + rows, chosen, |chosen|, confirmReply, deleteFails)
    ensures report.Generated? ==> report.activated <= report.created && report.drafts >= 0
  {
    var units := db.SelectAvailableUnitIds(count, unitsFail);
    var tenants := db.SelectTenantIds(count, tenantsFail);
    if units.data.None? || |units.data.value| == 0 || tenants.data.None? || |tenants.data.value| == 0 {
      return NeedUnitsAndTenants;
    }
    var leasesToCreate := LeasesToCreate(count, |units.data.value|, |tenants.data.value|);
    var leasesData := Pairings(units.data.value, tenants.data.value, leasesToCreate, mk);
    var inserted := db.InsertLeases(leasesData, insertFails);
    if inserted.error.Some? {
      return GenerateFailed;
    }
    var activatedCount := 0;
    var leasesToActivate := Picked(inserted.data.value, pick, 0);
    ghost var base := db.leases;
    ghost var log0 := db.rpcLog;
    for k := 0 to |leasesToActivate|
      invariant activatedCount == CountActivated(k, confirmReply)
      invariant db.rpcLog == log0 + ConfirmCalls(leasesToActivate[..k])
      invariant db.leases == AfterActivations(base, leasesToActivate, k, confirmReply, deleteFails)
    {
      var lease := leasesToActivate[k];
      var confirmError := db.Rpc(ConfirmCall(lease), confirmReply(k));
      assert leasesToActivate[..k + 1][..k] == leasesToActivate[..k];
      if confirmError.error.None? {
        activatedCount := activatedCount + 1;
        var ignored := db.DeleteLease(lease.leaseId, deleteFails(k));
      }
    }
    assert leasesToActivate[..|leasesToActivate|] == leasesToActivate;
    report := Generated(leasesToCreate, activatedCount, leasesToCreate - activatedCount);
  }
}
