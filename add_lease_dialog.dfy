/**
 * The new-lease dialog: the form's validation, the deposit it submits, the
 * units it offers, and its two submit paths (save a draft row, or confirm the
 * lease through the stored procedure).
 */
module AddLeaseDialog {
  import opened Wrappers
  import opened Schema
  import opened Store

  /** A numeric text field: what was typed, and the number it parses to. */
  datatype NumericText = NumericText(text: string, value: real)

  /**
   * The form. A date is `None` when its field is empty or does not parse as a
   * date; otherwise it is the day it names.
   */
  datatype LeaseForm = LeaseForm(
    unitId: Id,
    tenantId: Id,
    startDate: Option<int>,
    endDate: Option<int>,
    deposit: NumericText)

  /** The form's default deposit field is the text "0". */
  const DefaultDeposit := NumericText("0", 0.0)

  /** Both selections made, both dates given, and the end strictly after the start. */
  function FormValid(form: LeaseForm): (b: bool)
    ensures b <==> form.unitId != "" && form.tenantId != "" &&
                   form.startDate.Some? && form.endDate.Some? && form.endDate.value > form.startDate.value
    ensures form.startDate.Some? && form.endDate.Some? && form.endDate.value <= form.startDate.value ==> !b
  {
    |form.unitId| >= 1 && |form.tenantId| >= 1 && form.startDate.Some? && form.endDate.Some? &&
    form.endDate.value > form.startDate.value
  }

  /** The deposit sent: the typed number when the field is non-empty, else the unit's rent. */
  function DepositAmount(field: NumericText, rentAmount: real): real {
    if |field.text| > 0 then field.value else rentAmount
  }

  /** An untouched form submits a deposit of 0, not the rent. */
  lemma UntouchedDepositIsZero(rentAmount: real)
    ensures DepositAmount(DefaultDeposit, rentAmount) == 0.0
  {
  }

  /** `payments_created` of the procedure's result when it is an object with that key, else 0. */
  function PaymentsCreated(result: Option<Json>): (n: Json)
    ensures (result.Some? && result.value.JObject? && "payments_created" in result.value.fields) ==>
      n == result.value.fields["payments_created"]
    ensures !(result.Some? && result.value.JObject? && "payments_created" in result.value.fields) ==>
      n == JNumber(0.0)
  {
    if result.Some? && result.value.JObject? && "payments_created" in result.value.fields then
      result.value.fields["payments_created"]
    else JNumber(0.0)
  }

  /** The draft row inserted for a form and its unit; `leaseId` is the id the store assigns. */
  function DraftRow(leaseId: Id, form: LeaseForm, unit: UnitRow): (r: LeaseRow)
    requires FormValid(form)
    ensures r.status == Some(Draft) && r.monthlyRent == unit.rentAmount
    ensures r.deposit == Some(DepositAmount(form.deposit, unit.rentAmount))
    ensures r.unitId == form.unitId && r.tenantId == form.tenantId
    ensures r.startDate == form.startDate.value && r.endDate == form.endDate.value
  {
    LeaseRow(leaseId, form.unitId, form.tenantId, form.startDate.value, form.endDate.value,
             unit.rentAmount, Some(DepositAmount(form.deposit, unit.rentAmount)), Some(Draft), None)
  }

  function UnitIdOf(u: UnitRow): Id { u.unitId }

  datatype SubmitOutcome = NoSuchUnit | Confirmed(paymentsCreated: Json) | Drafted | SubmitFailed

  class Dialog {
    var open: bool
    var loading: bool
    var confirming: bool
    /** The units offered for selection. */
    var units: seq<UnitRow>

    constructor ()
      ensures !open && !loading && !confirming && units == []
    {
      open, loading, confirming, units := false, false, false, [];
    }

    /** Loads the options; a user who is not signed in gets none, a failed read gives none. */
    method FetchUnits(db: Db, signedIn: bool, unitsFail: bool)
      modifies this`units
      ensures signedIn ==> units == if unitsFail then [] else AvailableUnits(db.units)
      ensures !signedIn ==> units == old(units)
      ensures forall u :: u in units && signedIn ==> u in db.units && u.status == Some(Available)
    {
      if !signedIn {
        return;
      }
      var r := db.SelectAvailableUnits(unitsFail);
      units := r.data.GetOr([]);
    }

    /**
     * Submits a valid form. `confirm` picks the path; `reply` answers the
     * procedure call, `insertFails` the draft insert, and `leaseId` is the id
     * the store gives the draft.
     */
    method OnSubmit(db: Db, form: LeaseForm, confirm: bool, reply: Reply<Json>, insertFails: bool, leaseId: Id)
      returns (o: SubmitOutcome)
      requires FormValid(form)
      modifies this`open, this`loading, this`confirming, db`leases, db`rpcLog
      ensures var unit := Lookup(form.unitId, old(units), UnitIdOf);
        if unit.None? then
          o == NoSuchUnit && db.leases == old(db.leases) && db.rpcLog == old(db.rpcLog) && open == old(open)
        else if confirm then
          var deposit := DepositAmount(form.deposit, unit.value.rentAmount);
          db.rpcLog == old(db.rpcLog) +
            [ConfirmLease(form.unitId, form.tenantId, form.startDate.value, form.endDate.value, deposit)] &&
          db.leases == old(db.leases) &&
          o == (if reply.error.Some? then SubmitFailed else Confirmed(PaymentsCreated(reply.data)))
        else
          db.rpcLog == old(db.rpcLog) &&
          db.leases == (if insertFails then old(db.leases) else old(db.leases) + [DraftRow(leaseId, form, unit.value)]) &&
          o == (if insertFails then SubmitFailed else Drafted)
      ensures o.Confirmed? || o == Drafted ==> !open
      ensures o == SubmitFailed ==> open == old(open)
      ensures o == NoSuchUnit ==> loading == old(loading) && confirming == old(confirming)
      ensures o != NoSuchUnit && confirm ==> !confirming && loading == old(loading)
      ensures o != NoSuchUnit && !confirm ==> !loading && confirming == old(confirming)
    {
      var selectedUnit := Lookup(form.unitId, units, UnitIdOf);
      if selectedUnit.None? {
        return NoSuchUnit;
      }
      var depositAmount := DepositAmount(form.deposit, selectedUnit.value.rentAmount);
      if confirm {
        confirming := true;
        var r := db.Rpc(ConfirmLease(form.unitId, form.tenantId, form.startDate.value, form.endDate.value,
                                     depositAmount), reply);
        if r.error.Some? {
          o := SubmitFailed;
        } else {
          o := Confirmed(PaymentsCreated(r.data));
          open := false;
        }
        confirming := false;
      } else {
        loading := true;
        var r := db.InsertLeases([DraftRow(leaseId, form, selectedUnit.value)], insertFails);
        if r.error.Some? {
          o := SubmitFailed;
        } else {
          o := Drafted;
          open := false;
        }
        loading := false;
      }
    }
  }
}
