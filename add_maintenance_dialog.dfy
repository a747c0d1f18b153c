/** The new maintenance request form and the row it inserts. */
module AddMaintenanceDialog {
  import opened Wrappers
  import opened Schema
  import opened Store

  /** The form; the estimated cost is a text field and the number it parses to. */
  datatype RequestForm = RequestForm(
    unitId: Id,
    category: string,
    description: string,
    priority: int,
    estimatedCostText: string,
    estimatedCost: real)

  /** The form as the dialog opens it. */
  const DefaultForm := RequestForm("", "general", "", 3, "", 0.0)

  /** The priority slider runs from 1 to 5 in steps of 1. */
  const SliderValues: seq<int> := [1, 2, 3, 4, 5]

  /** A unit, one of the four categories, a description of at least 10 characters, a priority in 1..5. */
  function FormValid(form: RequestForm): (b: bool)
    ensures b ==> form.unitId != "" && form.category in MaintenanceCategoryConstants
    ensures b ==> |form.description| >= 10 && 1 <= form.priority <= 5
    ensures b <==> |form.unitId| >= 1 && ParseMaintenanceCategory(form.category).Some? &&
                   |form.description| >= 10 && 1 <= form.priority <= 5
  {
    MaintenanceCategoryRoundTrip(General, form.category);
    |form.unitId| >= 1 && ParseMaintenanceCategory(form.category).Some? &&
    |form.description| >= 10 && 1 <= form.priority <= 5
  }

  /** Every slider position is a valid priority, and the defaults are category "general" and priority 3. */
  lemma SliderAndDefaults()
    ensures forall p :: p in SliderValues ==> 1 <= p <= 5
    ensures forall p :: 1 <= p <= 5 ==> p in SliderValues
    ensures ParseMaintenanceCategory(DefaultForm.category) == Some(General) && DefaultForm.priority == 3
    ensures !FormValid(DefaultForm)
  {
    MaintenanceCategoryRoundTrip(General, DefaultForm.category);
  }

  /**
   * The inserted row for a valid form: status open, and no estimated cost when
   * the field is blank. `requestId` and `createdAt` are filled in by the store.
   */
  function NewRequest(form: RequestForm, requestId: Id, createdAt: int): (r: MaintenanceRequestRow)
    requires FormValid(form)
    ensures r.status == Some(Open)
    ensures r.estimatedCost.None? <==> form.estimatedCostText == ""
    ensures r.estimatedCost.Some? ==> r.estimatedCost.value == form.estimatedCost
    ensures r.unitId == form.unitId && r.description == form.description && r.priority == form.priority
    ensures MaintenanceCategoryName(r.category) == form.category
    ensures r.completedAt.None? && r.actualCost.None?
  {
    MaintenanceCategoryRoundTrip(General, form.category);
    MaintenanceRequestRow(
      requestId, form.unitId, None, ParseMaintenanceCategory(form.category).value, form.description,
      form.priority, Some(Open),
      if |form.estimatedCostText| > 0 then Some(form.estimatedCost) else None,
      None, None, None, createdAt)
  }

  /** Submits a valid form: one insert, which may fail. */
  method OnSubmit(db: Db, form: RequestForm, requestId: Id, createdAt: int, fails: bool)
    returns (created: bool)
    requires FormValid(form)
    modifies db`requests
    ensures created <==> !fails
    ensures db.requests == if fails then old(db.requests) else old(db.requests) + [NewRequest(form, requestId, createdAt)]
  {
    var error := db.InsertRequest(NewRequest(form, requestId, createdAt), fails);
    created := error.None?;
  }
}
