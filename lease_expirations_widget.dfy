/**
 * The dashboard's "Upcoming Lease Expirations" card: the 90-day window of
 * active leases, the days-left count and its badge.
 */
module LeaseExpirationsWidget {
  import opened Wrappers
  import opened Schema
  import opened Text
  import Store
  import Initials

  /**
   * Days until a lease ending on UTC day `endDay` expires, seen at `nowMs`:
   * the milliseconds left divided by a day, rounded up.
   */
  function DaysUntil(endDay: int, nowMs: int): (d: int)
    ensures (d - 1) * DayMs < endDay * DayMs - nowMs <= d * DayMs
  {
    -((nowMs - endDay * DayMs) / DayMs)
  }

  /** Rounding up the time left gives the number of calendar days left. */
  lemma DaysUntilCountsDays(endDay: int, nowMs: int)
    ensures DaysUntil(endDay, nowMs) == endDay - DayOf(nowMs)
  {
    var today := DayOf(nowMs);
    var d := DaysUntil(endDay, nowMs);
    var e := endDay - today;
    assert (e - 1) * DayMs < endDay * DayMs - nowMs <= e * DayMs;
  }

  /** The badge turns destructive at thirty days or fewer. */
  predicate Destructive(daysLeft: int) {
    daysLeft <= 30
  }

  /** The badge of a lease is destructive exactly when it ends at most thirty calendar days after today. */
  lemma DestructiveByEndDay(endDay: int, nowMs: int)
    ensures Destructive(DaysUntil(endDay, nowMs)) <==> endDay <= DayOf(nowMs) + 30
  {
    DaysUntilCountsDays(endDay, nowMs);
  }

  /** A lease row with the embedded unit name and the tenant's profile fields, when the joins find them. */
  datatype LeaseJoin = LeaseJoin(lease: LeaseRow, unitName: Option<string>, tenantName: Option<string>, avatarUrl: Option<string>)

  /** A row as the card keeps it. */
  datatype Expiring = Expiring(
    leaseId: Id, unitName: string, endDate: int, tenantName: string,
    avatarUrl: Option<string>, status: Option<LeaseStatus>)

  /** The row mapping: "N/A" for a missing unit name, "Unknown" for a missing tenant name, no avatar for an empty one. */
  function Format(j: LeaseJoin): Expiring {
    Expiring(j.lease.leaseId, OrDefault(j.unitName, "N/A"), j.lease.endDate, OrDefault(j.tenantName, "Unknown"),
             if j.avatarUrl.Some? && j.avatarUrl.value != "" then j.avatarUrl else None, j.lease.status)
  }

  /** The query's filter: an active lease ending between today and the day ninety days on, both included. */
  predicate InWindow(l: LeaseRow, nowMs: int) {
    && l.status == Some(Active)
    && DayOf(nowMs) <= l.endDate <= DayOf(nowMs + 90 * DayMs)
  }

  /** Ninety days on is ninety calendar days on. */
  lemma WindowIsNinetyDays(nowMs: int)
    ensures DayOf(nowMs + 90 * DayMs) == DayOf(nowMs) + 90
  {
    var t := DayOf(nowMs);
    assert (t + 90) * DayMs <= nowMs + 90 * DayMs < (t + 91) * DayMs;
  }

  function InWindowRows(rows: seq<LeaseJoin>, nowMs: int): (r: seq<LeaseJoin>)
    ensures forall j :: j in r <==> j in rows && InWindow(j.lease, nowMs)
  {
    if rows == [] then []
    else (if InWindow(rows[0].lease, nowMs) then [rows[0]] else []) + InWindowRows(rows[1..], nowMs)
  }

  /**
   * What the card lists: at most five leases of the window, formatted; no
   * data gives an empty list. The store's ordering by end date is not
   * modelled, so the store order of `rows` stands for it.
   */
  function Listed(reply: Store.Reply<seq<LeaseJoin>>, nowMs: int): (r: seq<Expiring>)
    ensures |r| <= 5
    ensures reply.data.None? ==> r == []
    ensures reply.data.Some? ==>
      |r| == (if |InWindowRows(reply.data.value, nowMs)| <= 5 then |InWindowRows(reply.data.value, nowMs)| else 5)
    ensures reply.data.Some? ==> forall k :: 0 <= k < |r| ==>
      var j := InWindowRows(reply.data.value, nowMs)[k];
      j in reply.data.value && InWindow(j.lease, nowMs) && r[k] == Format(j)
  {
    if reply.data.None? then []
    else
      var window := InWindowRows(reply.data.value, nowMs);
      var shown := Store.Limit(window, 5);
      assert forall k :: 0 <= k < |shown| ==> shown[k] == window[k] && window[k] in window;
      var r := seq(|shown|, k requires 0 <= k < |shown| => Format(shown[k]));
      r
  }

  /** Every listed lease is active and has between 0 and 90 days left. */
  lemma ListedDaysInRange(reply: Store.Reply<seq<LeaseJoin>>, nowMs: int, k: nat)
    requires k < |Listed(reply, nowMs)|
    ensures Listed(reply, nowMs)[k].status == Some(Active)
    ensures 0 <= DaysUntil(Listed(reply, nowMs)[k].endDate, nowMs) <= 90
  {
    assert reply.data.Some?;
    var j := InWindowRows(reply.data.value, nowMs)[k];
    WindowIsNinetyDays(nowMs);
    DaysUntilCountsDays(j.lease.endDate, nowMs);
  }

  /** With five or fewer leases in the window the card lists every one of them. */
  lemma FewInWindowRowsAllListed(reply: Store.Reply<seq<LeaseJoin>>, nowMs: int)
    requires reply.data.Some?
    requires |InWindowRows(reply.data.value, nowMs)| <= 5
    ensures forall j :: j in reply.data.value && InWindow(j.lease, nowMs) ==> Format(j) in Listed(reply, nowMs)
  {
    var window := InWindowRows(reply.data.value, nowMs);
    forall j | j in reply.data.value && InWindow(j.lease, nowMs)
      ensures Format(j) in Listed(reply, nowMs)
    {
      var k :| 0 <= k < |window| && window[k] == j;
      assert Listed(reply, nowMs)[k] == Format(j);
    }
  }

  /** The avatar fallback shows the tenant's initials. */
  function AvatarFallback(e: Expiring): (s: string)
    ensures |s| <= 2
  {
    Initials.Initials(e.tenantName)
  }

  /** A lease without a tenant name shows "Unknown" and the fallback "U". */
  lemma UnknownTenantFallback(j: LeaseJoin)
    requires j.tenantName.None?
    ensures Format(j).tenantName == "Unknown"
    ensures AvatarFallback(Format(j)) == "U"
  {
    SplitNoSeparator("Unknown", ' ');
    assert FirstChars(["Unknown"]) == "U";
  }
}
