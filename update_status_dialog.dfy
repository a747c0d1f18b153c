/** The dialog that moves a maintenance request to a new status. */
module UpdateStatusDialog {
  import opened Wrappers
  import opened Schema
  import opened Store

  /**
   * The update for a status, a cost field and the time of the update: the
   * status always; the completion time iff resolved; the cost iff resolved
   * and a cost was typed.
   */
  function PatchFor(status: MaintenanceStatus, costText: string, cost: real, now: int): (p: RequestPatch)
    ensures p.status == status
    ensures p.completedAt.Some? <==> status == Resolved
    ensures p.completedAt.Some? ==> p.completedAt.value == now
    ensures p.actualCost.Some? <==> status == Resolved && costText != ""
    ensures p.actualCost.Some? ==> p.actualCost.value == cost
  {
    RequestPatch(status,
                 if status == Resolved then Some(now) else None,
                 if status == Resolved && |costText| > 0 then Some(cost) else None)
  }

  /** For any status but resolved the completion time and the cost stay as they were. */
  lemma OtherStatusesKeepCompletion(r: MaintenanceRequestRow, status: MaintenanceStatus, costText: string, cost: real, now: int)
    requires status != Resolved
    ensures ApplyPatch(r, PatchFor(status, costText, cost, now)).completedAt == r.completedAt
    ensures ApplyPatch(r, PatchFor(status, costText, cost, now)).actualCost == r.actualCost
    ensures ApplyPatch(r, PatchFor(status, costText, cost, now)).status == Some(status)
  {
  }

  /**
   * Submits the chosen status (`statusText`, one of the five statuses) for
   * `requestId`; a missing or empty id writes nothing. The update object is
   * built step by step, then sent in one update that may fail.
   */
  method OnSubmit(db: Db, requestId: Option<Id>, statusText: string, costText: string, cost: real,
                  now: int, fails: bool)
    returns (updated: bool)
    requires ParseMaintenanceStatus(statusText).Some?
    modifies db`requests
    ensures requestId.None? || requestId.value == "" ==> !updated && db.requests == old(db.requests)
    ensures requestId.Some? && requestId.value != "" ==>
      (updated <==> !fails) &&
      db.requests == (if fails then old(db.requests)
                      else PatchRequestEq(old(db.requests), requestId.value,
                             PatchFor(ParseMaintenanceStatus(statusText).value, costText, cost, now)))
  {
    if requestId.None? || |requestId.value| == 0 {
      return false;
    }
    var status := ParseMaintenanceStatus(statusText).value;
    var updateData := RequestPatch(status, None, None);
    if status == Resolved {
      updateData := updateData.(completedAt := Some(now));
      if |costText| > 0 {
        updateData := updateData.(actualCost := Some(cost));
      }
    }
    var error := db.UpdateRequestEq(requestId.value, updateData, fails);
    updated := error.None?;
  }
}
