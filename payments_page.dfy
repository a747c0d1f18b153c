/** The payments page: the status badge with its overdue rule, the late-fee cell, the post action. */
module PaymentsPage {
  import opened Wrappers
  import opened Schema
  import opened Render

  /**
   * A pending payment whose due date has passed: `new Date(due_date)` is
   * midnight UTC of the due day, compared with the current time in milliseconds.
   */
  predicate IsOverdue(p: PaymentRow, nowMs: int) {
    p.status == Some(Pending) && p.dueDate * DayMs < nowMs
  }

  /**
   * Measured in days: a pending payment is overdue once its due day is over,
   * and on the due day itself from just after midnight UTC on; never before.
   */
  lemma OverdueByDay(p: PaymentRow, nowMs: int)
    requires p.status == Some(Pending)
    ensures p.dueDate < DayOf(nowMs) ==> IsOverdue(p, nowMs)
    ensures p.dueDate > DayOf(nowMs) ==> !IsOverdue(p, nowMs)
    ensures p.dueDate == DayOf(nowMs) ==> (IsOverdue(p, nowMs) <==> nowMs != p.dueDate * DayMs)
  {
  }

  datatype Badge = Badge(text: string, color: string)

  const OverdueColor := "bg-destructive text-destructive-foreground"

  /** The colour of each status; a missing status has none. */
  function StatusColor(status: Option<PaymentStatus>): string {
    match status
    case Some(Pending) => "bg-warning text-warning-foreground"
    case Some(Paid) => "bg-accent text-accent-foreground"
    case Some(Failed) => "bg-destructive text-destructive-foreground"
    case Some(Refunded) => "bg-muted text-muted-foreground"
    case None => ""
  }

  /** Each status has a colour of its own, and only a missing status has none. */
  lemma StatusColorsDistinct(a: Option<PaymentStatus>, b: Option<PaymentStatus>)
    ensures a != b ==> StatusColor(a) != StatusColor(b)
    ensures StatusColor(a) == "" <==> a.None?
  {
  }

  /** The status badge: "Overdue" for an overdue payment, otherwise the status itself. */
  function StatusBadge(p: PaymentRow, nowMs: int): (b: Badge)
    ensures IsOverdue(p, nowMs) ==> b == Badge("Overdue", OverdueColor)
    ensures !IsOverdue(p, nowMs) ==>
      b.text == (if p.status.Some? then PaymentStatusName(p.status.value) else "") && b.color == StatusColor(p.status)
    ensures p.status == Some(Pending) && p.dueDate == DayOf(nowMs) && nowMs != p.dueDate * DayMs ==> b.text == "Overdue"
    ensures p.status == Some(Pending) && p.dueDate > DayOf(nowMs) ==> b.text == "pending"
    ensures p.status in {Some(Paid), Some(Failed), Some(Refunded)} ==> b.text != "Overdue"
  {
    if IsOverdue(p, nowMs) then Badge("Overdue", OverdueColor)
    else Badge(if p.status.Some? then PaymentStatusName(p.status.value) else "", StatusColor(p.status))
  }

  /** The post-payment button is offered for pending payments only. */
  predicate PostOffered(p: PaymentRow) {
    p.status == Some(Pending)
  }

  /** A payment that is offered for posting has not been paid yet, and an overdue one is offered. */
  lemma PostOfferedUnpaid(p: PaymentRow, nowMs: int)
    ensures PostOffered(p) ==> p.status != Some(Paid) && StatusBadge(p, nowMs).text in {"pending", "Overdue"}
    ensures IsOverdue(p, nowMs) ==> PostOffered(p)
  {
  }

  /** As written: `late_fee && late_fee > 0 && <suffix>`. */
  function LateFeeCellAsWritten(lateFee: Option<real>): (c: Rendered)
    ensures c.Element? <==> lateFee.Some? && lateFee.value > 0.0
    ensures c.Element? ==> c.value == lateFee.value
    ensures c.Literal? <==> lateFee == Some(0.0)
  {
    AndRender(lateFee, lateFee.Some? && lateFee.value > 0.0)
  }

  /** A payment with a late fee of 0 shows a stray "0" after its amount. */
  lemma ZeroLateFeeShowsZero()
    ensures LateFeeCellAsWritten(Some(0.0)) == Literal("0")
  {
  }

  /** As intended: the suffix iff there is a positive fee, and nothing otherwise. */
  function LateFeeCellIntended(lateFee: Option<real>): (c: Rendered)
    ensures c.Element? <==> lateFee.Some? && lateFee.value > 0.0
    ensures !c.Literal?
    ensures c.Element? ==> c.value == lateFee.value
  {
    if lateFee.Some? && lateFee.value > 0.0 then Element(lateFee.value) else Nothing
  }

  /** The two cells differ exactly at a fee of 0. */
  lemma LateFeeCellsAgree(lateFee: Option<real>)
    ensures LateFeeCellAsWritten(lateFee) != LateFeeCellIntended(lateFee) <==> lateFee == Some(0.0)
  {
  }
}
