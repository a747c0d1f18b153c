/**
 * The dashboard's "Active Maintenance" card: which requests it lists, how a
 * joined row is flattened, the priority icon and label, and the elapsed-time
 * label.
 */
module MaintenanceWidget {
  import opened Wrappers
  import opened Schema
  import opened Text
  import Store
  import MaintenancePage

  // ---------------------------------------------------------------------
  // Priority icon and label
  // ---------------------------------------------------------------------

  datatype Icon = Flame | Zap | Droplet

  function PriorityIcon(priority: int): Icon {
    if priority >= 4 then Flame else if priority == 3 then Zap else Droplet
  }

  function PriorityLabel(priority: int): string {
    if priority >= 4 then "Urgent" else if priority == 3 then "High" else "Normal"
  }

  /** The icon and the label use the same thresholds. */
  lemma IconMatchesLabel(priority: int)
    ensures PriorityIcon(priority) == Flame <==> PriorityLabel(priority) == "Urgent"
    ensures PriorityIcon(priority) == Zap <==> PriorityLabel(priority) == "High"
    ensures PriorityIcon(priority) == Droplet <==> PriorityLabel(priority) == "Normal"
  {
  }

  /**
   * The card and the maintenance page read the priority scale in opposite
   * directions: what the page calls "Very Low" the card calls "Urgent", and
   * the page's "Critical" is "Normal" here.
   */
  lemma PriorityScalesDisagree()
    ensures PriorityLabel(5) == "Urgent" && MaintenancePage.PriorityLabel(5) == "Very Low"
    ensures PriorityLabel(1) == "Normal" && MaintenancePage.PriorityLabel(1) == "Critical"
  {
  }

  // ---------------------------------------------------------------------
  // Elapsed time
  // ---------------------------------------------------------------------

  const HourMs := 3600000

  /** Whole hours between two millisecond timestamps, rounded down (negative in the future). */
  function HoursElapsed(nowMs: int, createdMs: int): (h: int)
    ensures h * HourMs <= nowMs - createdMs < (h + 1) * HourMs
  {
    (nowMs - createdMs) / HourMs
  }

  /** The relative age label of a request. */
  function TimeAgo(nowMs: int, createdMs: int): (s: string)
    ensures HoursElapsed(nowMs, createdMs) < 1 ==> s == "Just now"
    ensures 1 <= HoursElapsed(nowMs, createdMs) < 24 ==>
      s == NatToString(HoursElapsed(nowMs, createdMs)) + "h ago"
    ensures HoursElapsed(nowMs, createdMs) >= 24 ==>
      s == NatToString(HoursElapsed(nowMs, createdMs) / 24) + "d ago"
  {
    var h := HoursElapsed(nowMs, createdMs);
    if h < 1 then "Just now"
    else if h < 24 then NatToString(h) + "h ago"
    else NatToString(h / 24) + "d ago"
  }

  /** Anything less than an hour old, or dated in the future, is "Just now". */
  lemma UnderAnHourIsJustNow(nowMs: int, createdMs: int)
    requires nowMs - createdMs < HourMs
    ensures TimeAgo(nowMs, createdMs) == "Just now"
  {
  }

  /** Whole days of whole hours are whole days of the elapsed time. */
  lemma DaysOfHours(elapsed: int)
    requires elapsed >= 0
    ensures (elapsed / HourMs) / 24 == elapsed / DayMs
  {
    var h := elapsed / HourMs;
    var d := h / 24;
    assert h * HourMs <= elapsed < (h + 1) * HourMs;
    assert d * 24 <= h < (d + 1) * 24;
    assert d * DayMs <= elapsed < (d + 1) * DayMs;
  }

  /** The number in an "h ago" label is the whole hours elapsed. */
  lemma HoursLabelReadsBack(nowMs: int, createdMs: int)
    requires HourMs <= nowMs - createdMs < DayMs
    ensures var s := TimeAgo(nowMs, createdMs);
      && |s| > 5 && s[|s| - 5..] == "h ago"
      && (forall i :: 0 <= i < |s| - 5 ==> IsDigit(s[i]))
      && DecimalValue(s[..|s| - 5]) == (nowMs - createdMs) / HourMs
  {
    var h := HoursElapsed(nowMs, createdMs);
    var s := TimeAgo(nowMs, createdMs);
    assert s == NatToString(h) + "h ago";
    assert s[..|s| - 5] == NatToString(h);
    NatToStringValue(h);
  }

  /** The number in a "d ago" label is the whole days elapsed. */
  lemma DaysLabelReadsBack(nowMs: int, createdMs: int)
    requires nowMs - createdMs >= DayMs
    ensures var s := TimeAgo(nowMs, createdMs);
      && |s| > 5 && s[|s| - 5..] == "d ago"
      && (forall i :: 0 <= i < |s| - 5 ==> IsDigit(s[i]))
      && DecimalValue(s[..|s| - 5]) == (nowMs - createdMs) / DayMs
  {
    var h := HoursElapsed(nowMs, createdMs);
    var s := TimeAgo(nowMs, createdMs);
    assert s == NatToString(h / 24) + "d ago";
    assert s[..|s| - 5] == NatToString(h / 24);
    NatToStringValue(h / 24);
    DaysOfHours(nowMs - createdMs);
  }

  // ---------------------------------------------------------------------
  // The listed requests
  // ---------------------------------------------------------------------

  /** A request row with the embedded unit name and property address, when the joins find them. */
  datatype RequestJoin = RequestJoin(request: MaintenanceRequestRow, unitName: Option<string>, address: Option<string>)

  /** A row as the card keeps it. */
  datatype ListedRequest = ListedRequest(
    requestId: Id, description: string, priority: int, status: Option<MaintenanceStatus>,
    createdAt: int, unitName: string, propertyAddress: string)

  /** The row mapping: a missing or empty unit name is "N/A", a missing or empty address "Unknown". */
  function Format(j: RequestJoin): (r: ListedRequest)
    ensures r.requestId == j.request.requestId && r.priority == j.request.priority
    ensures r.status == j.request.status && r.createdAt == j.request.createdAt
    ensures r.unitName == OrDefault(j.unitName, "N/A")
    ensures r.propertyAddress == OrDefault(j.address, "Unknown")
    ensures j.unitName.None? ==> r.unitName == "N/A"
    ensures j.address.None? ==> r.propertyAddress == "Unknown"
  {
    ListedRequest(j.request.requestId, j.request.description, j.request.priority, j.request.status,
                  j.request.createdAt, OrDefault(j.unitName, "N/A"), OrDefault(j.address, "Unknown"))
  }

  predicate IsActive(j: RequestJoin) {
    j.request.status == Some(Open) || j.request.status == Some(InProgress)
  }

  /** The rows whose status is open or in_progress, in store order. */
  function ActiveRows(rows: seq<RequestJoin>): (r: seq<RequestJoin>)
    ensures forall j :: j in r <==> j in rows && IsActive(j)
  {
    if rows == [] then []
    else (if IsActive(rows[0]) then [rows[0]] else []) + ActiveRows(rows[1..])
  }

  /**
   * What the card lists: at most five active rows, formatted; no data gives
   * an empty list. The store's ordering by priority and age is not modelled,
   * so the store order of `rows` stands for it.
   */
  function Listed(reply: Store.Reply<seq<RequestJoin>>): (r: seq<ListedRequest>)
    ensures |r| <= 5
    ensures reply.data.None? ==> r == []
    ensures reply.data.Some? ==>
      |r| == (if |ActiveRows(reply.data.value)| <= 5 then |ActiveRows(reply.data.value)| else 5)
    ensures reply.data.Some? ==> forall k :: 0 <= k < |r| ==>
      var j := ActiveRows(reply.data.value)[k];
      j in reply.data.value && IsActive(j) && r[k] == Format(j)
  {
    if reply.data.None? then []
    else
      var active := ActiveRows(reply.data.value);
      var shown := Store.Limit(active, 5);
      assert forall k :: 0 <= k < |shown| ==> shown[k] == active[k] && active[k] in active;
      var r := seq(|shown|, k requires 0 <= k < |shown| => Format(shown[k]));
      r
  }

  /** With five or fewer active rows the card lists every one of them. */
  lemma FewActiveRowsAllListed(reply: Store.Reply<seq<RequestJoin>>)
    requires reply.data.Some?
    requires |ActiveRows(reply.data.value)| <= 5
    ensures forall j :: j in reply.data.value && IsActive(j) ==> Format(j) in Listed(reply)
  {
    var active := ActiveRows(reply.data.value);
    forall j | j in reply.data.value && IsActive(j)
      ensures Format(j) in Listed(reply)
    {
      var k :| 0 <= k < |active| && active[k] == j;
      assert Listed(reply)[k] == Format(j);
    }
  }
}
