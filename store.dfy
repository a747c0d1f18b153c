/**
 * The hosted store as the client code sees it: in-memory tables, each client
 * call one step on them. A call answers like the client library does, with a
 * `{ data, error }` pair; whether a call fails is a parameter of the call.
 * Stored procedures are opaque: the store records each call and hands back
 * the reply it is given, without modelling the procedure's effect on tables.
 */
module Store {
  import opened Wrappers
  import opened Schema
  import Text

  /** The client's answer to one call: `{ data, error }`. */
  datatype Reply<T> = Reply(data: Option<T>, error: Option<string>)

  const StoreErrorMessage := "store error"

  /** The answer of a call that fails or returns `t`. */
  function Answer<T>(fails: bool, t: T): (r: Reply<T>)
    ensures r.error.Some? <==> fails
    ensures r.data == if fails then None else Some(t)
  {
    if fails then Reply(None, Some(StoreErrorMessage)) else Reply(Some(t), None)
  }

  /** A call of one of the store's remote procedures, with its arguments. */
  datatype RpcCall =
    | ConfirmLease(unitId: Id, tenantId: Id, startDate: int, endDate: int, deposit: real)
    | PostPayment(paymentId: Id, amount: real, payMethod: PaymentMethod)
    | GlobalSearch(query: string, limit: int)

  // ---------------------------------------------------------------------
  // Queries and updates, as functions on the tables
  // ---------------------------------------------------------------------

  /** `select("unit_id")` on the unit table. */
  function UnitIds(units: seq<UnitRow>): (r: seq<Id>)
    ensures |r| == |units|
    ensures forall i :: 0 <= i < |units| ==> r[i] == units[i].unitId
  {
    if units == [] then [] else [units[0].unitId] + UnitIds(units[1..])
  }

  /** `select("tenant_id")` on the tenant table. */
  function TenantIds(tenants: seq<TenantRow>): (r: seq<Id>)
    ensures |r| == |tenants|
    ensures forall i :: 0 <= i < |tenants| ==> r[i] == tenants[i].tenantId
  {
    if tenants == [] then [] else [tenants[0].tenantId] + TenantIds(tenants[1..])
  }

  /** `select("unit_id").eq("status", "active")` on the lease table. */
  function ActiveLeaseUnitIds(leases: seq<LeaseRow>): (r: seq<Id>)
    ensures |r| <= |leases|
    ensures forall id :: id in r <==>
      exists i :: 0 <= i < |leases| && leases[i].status == Some(Active) && leases[i].unitId == id
  {
    if leases == [] then []
    else
      var rest := ActiveLeaseUnitIds(leases[1..]);
      assert forall i :: 1 <= i < |leases| ==> leases[i] == leases[1..][i - 1];
      if leases[0].status == Some(Active) then [leases[0].unitId] + rest else rest
  }

  /** `update({ status: s }).in("unit_id", ids)` on the unit table. */
  function SetUnitStatusIn(units: seq<UnitRow>, ids: seq<Id>, s: UnitStatus): (r: seq<UnitRow>)
    ensures |r| == |units|
    ensures forall i :: 0 <= i < |units| ==>
      r[i] == if units[i].unitId in ids then units[i].(status := Some(s)) else units[i]
  {
    if units == [] then []
    else
      var u := units[0];
      [if u.unitId in ids then u.(status := Some(s)) else u] + SetUnitStatusIn(units[1..], ids, s)
  }

  /** `update({ status: s }).not("unit_id", "in", ids)` on the unit table. */
  function SetUnitStatusNotIn(units: seq<UnitRow>, ids: seq<Id>, s: UnitStatus): (r: seq<UnitRow>)
    ensures |r| == |units|
    ensures forall i :: 0 <= i < |units| ==>
      r[i] == if units[i].unitId !in ids then units[i].(status := Some(s)) else units[i]
  {
    if units == [] then []
    else
      var u := units[0];
      [if u.unitId !in ids then u.(status := Some(s)) else u] + SetUnitStatusNotIn(units[1..], ids, s)
  }

  /** `update({ status: s }).eq("lease_id", id)` on the lease table. */
  function SetLeaseStatusEq(leases: seq<LeaseRow>, id: Id, s: LeaseStatus): (r: seq<LeaseRow>)
    ensures |r| == |leases|
    ensures forall i :: 0 <= i < |leases| ==>
      r[i] == if leases[i].leaseId == id then leases[i].(status := Some(s)) else leases[i]
  {
    if leases == [] then []
    else
      var l := leases[0];
      [if l.leaseId == id then l.(status := Some(s)) else l] + SetLeaseStatusEq(leases[1..], id, s)
  }

  /** `delete().eq("lease_id", id)` on the lease table. */
  function DeleteLeaseEq(leases: seq<LeaseRow>, id: Id): (r: seq<LeaseRow>)
    ensures forall l :: l in r <==> l in leases && l.leaseId != id
    ensures |r| <= |leases|
  {
    if leases == [] then []
    else if leases[0].leaseId == id then DeleteLeaseEq(leases[1..], id)
    else [leases[0]] + DeleteLeaseEq(leases[1..], id)
  }

  /** `.limit(limit)`: the first `limit` rows, as a slice of the result. */
  function Limit<T>(rows: seq<T>, limit: nat): seq<T> {
    Text.Take(rows, limit)
  }

  /** `select("unit_id").eq("status", "AVAILABLE")` on the unit table. */
  function AvailableUnitIds(units: seq<UnitRow>): (r: seq<Id>)
    ensures forall id :: id in r <==>
      exists i :: 0 <= i < |units| && units[i].status == Some(Available) && units[i].unitId == id
  {
    if units == [] then []
    else
      var rest := AvailableUnitIds(units[1..]);
      assert forall i :: 1 <= i < |units| ==> units[i] == units[1..][i - 1];
      if units[0].status == Some(Available) then [units[0].unitId] + rest else rest
  }

  /** `select(...).eq("status", "AVAILABLE")` on the unit table, whole rows in table order. */
  function AvailableUnits(units: seq<UnitRow>): (r: seq<UnitRow>)
    ensures forall u :: u in r <==> u in units && u.status == Some(Available)
    ensures |r| <= |units|
  {
    if units == [] then []
    else if units[0].status == Some(Available) then [units[0]] + AvailableUnits(units[1..])
    else AvailableUnits(units[1..])
  }

  /** The columns an update of a maintenance request sets; `None` leaves a column as it is. */
  datatype RequestPatch = RequestPatch(
    status: MaintenanceStatus,
    completedAt: Option<int>,
    actualCost: Option<real>)

  function ApplyPatch(r: MaintenanceRequestRow, p: RequestPatch): MaintenanceRequestRow {
    r.(status := Some(p.status),
       completedAt := if p.completedAt.Some? then p.completedAt else r.completedAt,
       actualCost := if p.actualCost.Some? then p.actualCost else r.actualCost)
  }

  /** `update(patch).eq("request_id", id)` on the maintenance_request table. */
  function PatchRequestEq(requests: seq<MaintenanceRequestRow>, id: Id, p: RequestPatch)
    : (r: seq<MaintenanceRequestRow>)
    ensures |r| == |requests|
    ensures forall i :: 0 <= i < |requests| ==>
      r[i] == if requests[i].requestId == id then ApplyPatch(requests[i], p) else requests[i]
  {
    if requests == [] then []
    else
      var q := requests[0];
      [if q.requestId == id then ApplyPatch(q, p) else q] + PatchRequestEq(requests[1..], id, p)
  }

  // ---------------------------------------------------------------------
  // The store
  // ---------------------------------------------------------------------

  class Db {
    var units: seq<UnitRow>
    var leases: seq<LeaseRow>
    var tenants: seq<TenantRow>
    var payments: seq<PaymentRow>
    var requests: seq<MaintenanceRequestRow>
    /** Every remote-procedure call made so far, oldest first. */
    var rpcLog: seq<RpcCall>

    constructor (units: seq<UnitRow>, leases: seq<LeaseRow>, tenants: seq<TenantRow>,
                 payments: seq<PaymentRow>, requests: seq<MaintenanceRequestRow>)
      ensures this.units == units && this.leases == leases && this.tenants == tenants
      ensures this.payments == payments && this.requests == requests && rpcLog == []
    {
      this.units, this.leases, this.tenants := units, leases, tenants;
      this.payments, this.requests, rpcLog := payments, requests, [];
    }

    method SelectActiveLeaseUnitIds(fails: bool) returns (r: Reply<seq<Id>>)
      ensures r == Answer(fails, ActiveLeaseUnitIds(leases))
    {
      r := Answer(fails, ActiveLeaseUnitIds(leases));
    }

    method SelectUnitIds(fails: bool) returns (r: Reply<seq<Id>>)
      ensures r == Answer(fails, UnitIds(units))
    {
      r := Answer(fails, UnitIds(units));
    }

    method SelectAvailableUnitIds(limit: nat, fails: bool) returns (r: Reply<seq<Id>>)
      ensures r == Answer(fails, Limit(AvailableUnitIds(units), limit))
    {
      r := Answer(fails, Limit(AvailableUnitIds(units), limit));
    }

    method SelectAvailableUnits(fails: bool) returns (r: Reply<seq<UnitRow>>)
      ensures r == Answer(fails, AvailableUnits(units))
    {
      r := Answer(fails, AvailableUnits(units));
    }

    method SelectTenantIds(limit: nat, fails: bool) returns (r: Reply<seq<Id>>)
      ensures r == Answer(fails, Limit(TenantIds(tenants), limit))
    {
      r := Answer(fails, Limit(TenantIds(tenants), limit));
    }

    method UpdateUnitStatusIn(ids: seq<Id>, s: UnitStatus, fails: bool) returns (error: Option<string>)
      modifies this`units
      ensures error.Some? <==> fails
      ensures units == if fails then old(units) else SetUnitStatusIn(old(units), ids, s)
    {
      error := Answer(fails, ()).error;
      if !fails {
        units := SetUnitStatusIn(units, ids, s);
      }
    }

    method UpdateUnitStatusNotIn(ids: seq<Id>, s: UnitStatus, fails: bool) returns (error: Option<string>)
      modifies this`units
      ensures error.Some? <==> fails
      ensures units == if fails then old(units) else SetUnitStatusNotIn(old(units), ids, s)
    {
      error := Answer(fails, ()).error;
      if !fails {
        units := SetUnitStatusNotIn(units, ids, s);
      }
    }

    /** `update({ status: s }).eq("unit_id", id)`, the one-id case of `in`. */
    method UpdateUnitStatusEq(id: Id, s: UnitStatus, fails: bool) returns (error: Option<string>)
      modifies this`units
      ensures error.Some? <==> fails
      ensures units == if fails then old(units) else SetUnitStatusIn(old(units), [id], s)
    {
      error := Answer(fails, ()).error;
      if !fails {
        units := SetUnitStatusIn(units, [id], s);
      }
    }

    method UpdateLeaseStatusEq(id: Id, s: LeaseStatus, fails: bool) returns (error: Option<string>)
      modifies this`leases
      ensures error.Some? <==> fails
      ensures leases == if fails then old(leases) else SetLeaseStatusEq(old(leases), id, s)
    {
      error := Answer(fails, ()).error;
      if !fails {
        leases := SetLeaseStatusEq(leases, id, s);
      }
    }

    method DeleteLease(id: Id, fails: bool) returns (error: Option<string>)
      modifies this`leases
      ensures error.Some? <==> fails
      ensures leases == if fails then old(leases) else DeleteLeaseEq(old(leases), id)
    {
      error := Answer(fails, ()).error;
      if !fails {
        leases := DeleteLeaseEq(leases, id);
      }
    }

    /** `insert(rows).select(...)`: the inserted rows come back as the data. */
    method InsertLeases(rows: seq<LeaseRow>, fails: bool) returns (r: Reply<seq<LeaseRow>>)
      modifies this`leases
      ensures r == Answer(fails, rows)
      ensures leases == if fails then old(leases) else old(leases) + rows
    {
      r := Answer(fails, rows);
      if !fails {
        leases := leases + rows;
      }
    }

    method InsertRequest(row: MaintenanceRequestRow, fails: bool) returns (error: Option<string>)
      modifies this`requests
      ensures error.Some? <==> fails
      ensures requests == if fails then old(requests) else old(requests) + [row]
    {
      error := Answer(fails, ()).error;
      if !fails {
        requests := requests + [row];
      }
    }

    method UpdateRequestEq(id: Id, p: RequestPatch, fails: bool) returns (error: Option<string>)
      modifies this`requests
      ensures error.Some? <==> fails
      ensures requests == if fails then old(requests) else PatchRequestEq(old(requests), id, p)
    {
      error := Answer(fails, ()).error;
      if !fails {
        requests := PatchRequestEq(requests, id, p);
      }
    }

    /** `rpc(name, args)`: the call is recorded and answered with `reply`. */
    method Rpc<T>(call: RpcCall, reply: Reply<T>) returns (r: Reply<T>)
      modifies this`rpcLog
      ensures r == reply
      ensures rpcLog == old(rpcLog) + [call]
    {
      rpcLog := rpcLog + [call];
      r := reply;
    }
  }
}
