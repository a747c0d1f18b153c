/** The maintenance page's priority and status badges. */
module MaintenancePage {
  import opened Wrappers
  import opened Schema
  import opened Text

  const PriorityLabels: seq<string> := ["", "Critical", "High", "Medium", "Low", "Very Low"]
  const PriorityColors: seq<string> := ["", "bg-destructive", "bg-warning", "bg-primary", "bg-muted", "bg-muted"]

  /** `labels[priority]`; an index outside the table renders nothing. */
  function PriorityLabel(priority: int): (l: string)
    ensures l == "" <==> !(1 <= priority <= 5)
    ensures l == "Critical" <==> priority == 1
    ensures l == "High" <==> priority == 2
    ensures l == "Medium" <==> priority == 3
    ensures l == "Low" <==> priority == 4
    ensures l == "Very Low" <==> priority == 5
  {
    if 0 <= priority < |PriorityLabels| then PriorityLabels[priority] else ""
  }

  /** `colors[priority]`; an index outside the table gives no class. */
  function PriorityColor(priority: int): (c: string)
    ensures c == "" <==> !(1 <= priority <= 5)
    ensures c == "bg-destructive" <==> priority == 1
    ensures c == "bg-warning" <==> priority == 2
    ensures c == "bg-primary" <==> priority == 3
    ensures c == "bg-muted" <==> priority == 4 || priority == 5
  {
    if 0 <= priority < |PriorityColors| then PriorityColors[priority] else ""
  }

  /** The status colour; a status outside the five gets no class. */
  function StatusColor(status: string): (c: string)
    ensures ParseMaintenanceStatus(status).None? ==> c == ""
    ensures ParseMaintenanceStatus(status).Some? ==> c != ""
  {
    MaintenanceStatusRoundTrip(Open, status);
    match status
    case "open" => "bg-warning text-warning-foreground"
    case "assigned" => "bg-primary text-primary-foreground"
    case "in_progress" => "bg-accent text-accent-foreground"
    case "resolved" => "bg-accent text-accent-foreground"
    case "cancelled" => "bg-muted text-muted-foreground"
    case _ => ""
  }

  /** The status text with its first underscore turned into a space. */
  function StatusLabel(status: string): (l: string)
    ensures |l| == |status|
    ensures '_' !in status ==> l == status
  {
    ReplaceFirst(status, '_', ' ')
  }

  /** The first underscore becomes a space, and what follows it is kept as it is. */
  lemma StatusLabelFirstUnderscore(a: string, b: string)
    requires '_' !in a
    ensures StatusLabel(a + "_" + b) == a + " " + b
  {
    var s := a + "_" + b;
    assert s[|a|] == '_';
    var k := IndexOf(s, '_').value;
    forall j | 0 <= j < |a|
      ensures s[j] != '_'
    {
      assert s[j] == a[j];
    }
    assert forall m :: |a| < m <= |s| ==> s[..m][|a|] == '_';
    assert s[..k] == a;
    assert s[k + 1..] == b;
  }

  /** in_progress reads "in progress". */
  lemma InProgressLabel()
    ensures StatusLabel("in_progress") == "in progress"
  {
    assert "in_progress" == "in" + "_" + "progress";
    StatusLabelFirstUnderscore("in", "progress");
  }
}
