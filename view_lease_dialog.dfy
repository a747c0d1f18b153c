/**
 * The lease detail dialog: the lease/unit status check it shows as an alert,
 * and the badge colours of lease and payment statuses.
 */
module ViewLeaseDialog {
  import opened Wrappers
  import opened Schema

  /** An active lease whose unit is not LEASED (a missing unit status counts as not LEASED). */
  predicate StatusMismatch(leaseStatus: Option<LeaseStatus>, unitStatus: Option<UnitStatus>) {
    leaseStatus == Some(Active) && unitStatus != Some(Leased)
  }

  /** Badge colour of a lease status; anything not listed is gray. */
  function LeaseStatusColor(status: string): (c: string)
    ensures ParseLeaseStatus(status).None? ==> c == "bg-gray-500"
    ensures ParseLeaseStatus(status) !in {Some(Active), Some(Draft), Some(Terminated)} ==> c == "bg-gray-500"
    ensures c == "bg-green-500" <==> status == "active"
    ensures c == "bg-red-500" <==> status == "terminated"
    ensures c == "bg-yellow-500" <==> status == "draft"
  {
    LeaseStatusRoundTrip(Active, status);
    match status
    case "active" => "bg-green-500"
    case "draft" => "bg-yellow-500"
    case "ended" => "bg-gray-500"
    case "terminated" => "bg-red-500"
    case _ => "bg-gray-500"
  }

  /** Badge colour of a payment status; refunded and anything not listed are gray. */
  function PaymentStatusColor(status: string): (c: string)
    ensures ParsePaymentStatus(status) !in {Some(Paid), Some(Pending), Some(Failed)} ==> c == "bg-gray-500"
    ensures c == "bg-green-500" <==> status == "paid"
    ensures c == "bg-yellow-500" <==> status == "pending"
    ensures c == "bg-red-500" <==> status == "failed"
  {
    PaymentStatusRoundTrip(Paid, status);
    match status
    case "paid" => "bg-green-500"
    case "pending" => "bg-yellow-500"
    case "failed" => "bg-red-500"
    case _ => "bg-gray-500"
  }

  /** What the dialog shows of a lease; `status` is the lease row's status column. */
  datatype LeaseView = LeaseView(leaseId: Id, unitName: string, status: Option<LeaseStatus>)

  /** The dialog's component state. */
  class Dialog {
    var unitStatus: Option<UnitStatus>
    var statusMismatch: bool

    constructor ()
      ensures unitStatus == None && !statusMismatch
    {
      unitStatus, statusMismatch := None, false;
    }

    /**
     * The effect that runs when the dialog opens: `lookup` is the unit row the
     * store returns, `None` when it returns none, else the row's status column.
     */
    method CheckUnitStatus(open: bool, lease: Option<LeaseView>, lookup: Option<Option<UnitStatus>>)
      modifies this
      ensures if open && lease.Some? && lookup.Some? then
                unitStatus == lookup.value && statusMismatch == StatusMismatch(lease.value.status, lookup.value)
              else
                unitStatus == old(unitStatus) && statusMismatch == old(statusMismatch)
    {
      if open && lease.Some? {
        if lookup.Some? {
          unitStatus := lookup.value;
          statusMismatch := lease.value.status == Some(Active) && lookup.value != Some(Leased);
        }
      }
    }
  }
}
