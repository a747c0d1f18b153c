/**
 * The dashboard's statistics, derived from one batch of reads at `nowMs`.
 * The month of a millisecond timestamp (in the browser's time zone) is the
 * parameter `monthOf`.
 */
module Dashboard {
  import opened Wrappers
  import opened Schema
  import PaymentsPage

  /** How many elements of `s` satisfy `keep` (`filter(keep).length`). */
  function Count<T>(s: seq<T>, keep: T -> bool): (n: nat)
    ensures n <= |s|
    ensures n == 0 <==> forall i :: 0 <= i < |s| ==> !keep(s[i])
  {
    if s == [] then 0
    else
      assert forall i :: 1 <= i < |s| ==> s[i] == s[1..][i - 1];
      (if keep(s[0]) then 1 else 0) + Count(s[1..], keep)
  }

  /** Counts over two lists add up ... */
  lemma {:induction false} CountAppend<T>(xs: seq<T>, ys: seq<T>, keep: T -> bool)
    ensures Count(xs + ys, keep) == Count(xs, keep) + Count(ys, keep)
  {
    if xs == [] {
      assert xs + ys == ys;
    } else {
      assert (xs + ys)[1..] == xs[1..] + ys;
      CountAppend(xs[1..], ys, keep);
    }
  }

  /** ... and one element counts 1 iff it satisfies `keep`, so the count is the number of such elements. */
  lemma CountSingle<T>(x: T, keep: T -> bool)
    ensures Count([x], keep) == if keep(x) then 1 else 0
  {
    assert [x][1..] == [];
  }

  predicate IsLeased(u: UnitRow) { u.status == Some(Leased) }

  predicate IsPending(p: PaymentRow) { p.status == Some(Pending) }

  /** Units whose status is LEASED. */
  function Occupied(units: seq<UnitRow>): nat {
    Count(units, IsLeased)
  }

  /** Pending payments. */
  function PendingCount(payments: seq<PaymentRow>): nat {
    Count(payments, IsPending)
  }

  /** Overdue payments at `nowMs`, by the rule of the payments page. */
  function OverdueCount(payments: seq<PaymentRow>, nowMs: int): nat {
    Count(payments, p => PaymentsPage.IsOverdue(p, nowMs))
  }

  /** Every overdue payment is pending, so there are never more overdue than pending. */
  lemma {:induction false} OverdueAtMostPending(payments: seq<PaymentRow>, nowMs: int)
    ensures OverdueCount(payments, nowMs) <= PendingCount(payments)
  {
    if payments != [] {
      OverdueAtMostPending(payments[1..], nowMs);
    }
  }

  /**
   * A paid payment due in the month of `nowMs`: the due date's month is that
   * of its midnight UTC, and only the month is compared, not the year.
   */
  predicate PaidInMonth(p: PaymentRow, nowMs: int, monthOf: int -> int) {
    p.status == Some(Paid) && monthOf(p.dueDate * DayMs) == monthOf(nowMs)
  }

  /** The amounts of the payments paid in the month of `nowMs`. */
  function PaidThisMonth(payments: seq<PaymentRow>, nowMs: int, monthOf: int -> int): real {
    if payments == [] then 0.0
    else
      var rest := PaidThisMonth(payments[..|payments| - 1], nowMs, monthOf);
      var p := payments[|payments| - 1];
      rest + if PaidInMonth(p, nowMs, monthOf) then p.amount else 0.0
  }

  /** Revenue over two lists adds up, so each payment contributes on its own. */
  lemma {:induction false} PaidThisMonthAppend(xs: seq<PaymentRow>, ys: seq<PaymentRow>, nowMs: int, monthOf: int -> int)
    ensures PaidThisMonth(xs + ys, nowMs, monthOf) == PaidThisMonth(xs, nowMs, monthOf) + PaidThisMonth(ys, nowMs, monthOf)
  {
    if ys != [] {
      assert (xs + ys)[..|xs + ys| - 1] == xs + ys[..|ys| - 1];
      PaidThisMonthAppend(xs, ys[..|ys| - 1], nowMs, monthOf);
    } else {
      assert xs + ys == xs;
    }
  }

  /**
   * A payment counts toward the month's revenue iff it is paid and the month
   * of its due day's midnight UTC is the current month; a paid payment from
   * the same month of another year counts too.
   */
  lemma PaidThisMonthSingle(p: PaymentRow, nowMs: int, monthOf: int -> int)
    ensures PaidThisMonth([p], nowMs, monthOf) ==
      if p.status == Some(Paid) && monthOf(p.dueDate * DayMs) == monthOf(nowMs) then p.amount else 0.0
  {
    assert [p][..0] == [];
  }

  /** With non-negative amounts the revenue is non-negative. */
  lemma {:induction false} PaidThisMonthNonNegative(payments: seq<PaymentRow>, nowMs: int, monthOf: int -> int)
    requires forall i :: 0 <= i < |payments| ==> payments[i].amount >= 0.0
    ensures PaidThisMonth(payments, nowMs, monthOf) >= 0.0
  {
    if payments != [] {
      PaidThisMonthNonNegative(payments[..|payments| - 1], nowMs, monthOf);
    }
  }

  /** The six replies: `count` where the query asks for one, rows where it selects them. */
  datatype Replies = Replies(
    propertyCount: Option<nat>,
    units: Option<seq<UnitRow>>,
    unitCount: Option<nat>,
    tenantCount: Option<nat>,
    activeLeaseCount: Option<nat>,
    payments: Option<seq<PaymentRow>>,
    openRequestCount: Option<nat>)

  datatype DashboardStats = DashboardStats(
    totalProperties: nat,
    totalUnits: nat,
    occupiedUnits: nat,
    totalTenants: nat,
    activeLeases: nat,
    pendingPayments: nat,
    overduePayments: nat,
    openMaintenanceRequests: nat,
    monthlyRevenue: real)

  /** The statistics; every missing reply counts as 0. */
  function Stats(r: Replies, nowMs: int, monthOf: int -> int): (s: DashboardStats)
    ensures s.occupiedUnits == (if r.units.Some? then Occupied(r.units.value) else 0)
    ensures s.pendingPayments == (if r.payments.Some? then PendingCount(r.payments.value) else 0)
    ensures s.overduePayments == (if r.payments.Some? then OverdueCount(r.payments.value, nowMs) else 0)
    ensures s.monthlyRevenue == (if r.payments.Some? then PaidThisMonth(r.payments.value, nowMs, monthOf) else 0.0)
    ensures s.overduePayments <= s.pendingPayments
    ensures r.payments.None? ==> s.pendingPayments == 0 && s.overduePayments == 0 && s.monthlyRevenue == 0.0
    ensures r.units.None? ==> s.occupiedUnits == 0
    ensures s.totalProperties == r.propertyCount.GetOr(0) && s.totalUnits == r.unitCount.GetOr(0)
    ensures s.totalTenants == r.tenantCount.GetOr(0) && s.activeLeases == r.activeLeaseCount.GetOr(0)
    ensures s.openMaintenanceRequests == r.openRequestCount.GetOr(0)
  {
    var payments := r.payments.GetOr([]);
    OverdueAtMostPending(payments, nowMs);
    DashboardStats(
      r.propertyCount.GetOr(0),
      r.unitCount.GetOr(0),
      Occupied(r.units.GetOr([])),
      r.tenantCount.GetOr(0),
      r.activeLeaseCount.GetOr(0),
      PendingCount(payments),
      OverdueCount(payments, nowMs),
      r.openRequestCount.GetOr(0),
      PaidThisMonth(payments, nowMs, monthOf))
  }

  /**
   * The page state after a fetch: `threw` is an exception from the batch of
   * reads, which keeps the previous statistics. Loading is over either way.
   */
  function AfterFetch(prior: Option<DashboardStats>, threw: bool, r: Replies, nowMs: int, monthOf: int -> int)
    : (state: (Option<DashboardStats>, bool))
    ensures threw ==> state.0 == prior
    ensures !threw ==> state.0 == Some(Stats(r, nowMs, monthOf))
    ensures !state.1
  {
    if threw then (prior, false) else (Some(Stats(r, nowMs, monthOf)), false)
  }
}
