/** The post-payment dialog: its form, the procedure call, and the late fee it reports. */
module PostPaymentDialog {
  import opened Wrappers
  import opened Schema
  import opened Store
  import Text

  datatype PaymentForm = PaymentForm(amountText: string, amount: real, payMethod: string, notes: string)

  /** A non-empty amount and one of the four payment methods. */
  function FormValid(form: PaymentForm): (b: bool)
    ensures b ==> |form.amountText| >= 1 && form.payMethod in PaymentMethodConstants
    ensures b <==> |form.amountText| >= 1 && ParsePaymentMethod(form.payMethod).Some?
  {
    PaymentMethodRoundTrip(Cash, form.payMethod);
    |form.amountText| >= 1 && ParsePaymentMethod(form.payMethod).Some?
  }

  /**
   * JavaScript's `Number(v)` on a JSON value, `None` standing for NaN. A string
   * is read as a number when it is empty (0) or a plain run of digits; other
   * numeric spellings of a string (sign, decimal point, exponent, surrounding
   * blanks) are outside the model and taken as NaN. An array is read through
   * its string form: `[]` is "" and so 0, `[x]` is the string of `x`, and two
   * or more elements are joined by a comma, which no number contains. An
   * object's string form is "[object Object]", so it is NaN.
   */
  function NumberOf(v: Json): (r: Option<real>)
    ensures v.JNumber? ==> r == Some(v.n)
    ensures v.JNull? ==> r == Some(0.0)
    ensures v.JString? && v.s == "" ==> r == Some(0.0)
    ensures v.JString? && (forall i :: 0 <= i < |v.s| ==> Text.IsDigit(v.s[i])) ==> r == Some(Text.DecimalValue(v.s) as real)
    ensures v.JString? && (exists i :: 0 <= i < |v.s| && !Text.IsDigit(v.s[i])) ==> r.None?
    ensures v.JObject? ==> r.None?
    ensures v.JArray? && v.items == [] ==> r == Some(0.0)
    ensures v.JArray? && |v.items| >= 2 ==> r.None?
    ensures v.JArray? && |v.items| == 1 ==> r == ElementNumber(v.items[0])
    decreases v, 0
  {
    match v
    case JNumber(n) => Some(n)
    case JNull => Some(0.0)
    case JBool(b) => Some(if b then 1.0 else 0.0)
    case JString(s) =>
      if forall i :: 0 <= i < |s| ==> Text.IsDigit(s[i]) then Some(Text.DecimalValue(s) as real) else None
    case JArray(items) =>
      if items == [] then Some(0.0)
      else if |items| == 1 then ElementNumber(items[0])
      else None
    case JObject(_) => None
  }

  /**
   * `Number` of the string form of an array's only element: null gives "" and
   * so 0, a boolean gives "true" or "false" and so NaN, any other value reads
   * as `Number` reads it.
   */
  function ElementNumber(x: Json): (r: Option<real>)
    ensures x.JNull? ==> r == Some(0.0)
    ensures x.JBool? ==> r.None?
    ensures !x.JNull? && !x.JBool? ==> r == NumberOf(x)
    decreases x, 1
  {
    match x
    case JNull => Some(0.0)
    case JBool(_) => None
    case _ => NumberOf(x)
  }

  /** A late fee sent as a one-element array reads as that element: `Number([5])` is 5 and `Number(["5"])` is 5. */
  lemma SingletonArrayFee()
    ensures NumberOf(JArray([JNumber(5.0)])) == Some(5.0)
    ensures NumberOf(JArray([JString("5")])) == Some(5.0)
    ensures NumberOf(JArray([JNumber(1.0), JNumber(2.0)])).None?
  {
    assert Text.DecimalValue("5") == 5 by {
      assert "5"[..0] == [];
    }
  }

  /** `late_fee` of an object result, converted by `Number`, and 0 without one. */
  function LateFee(result: Option<Json>): (fee: Option<real>)
    ensures !(result.Some? && result.value.JObject? && "late_fee" in result.value.fields) ==> fee == Some(0.0)
    ensures result.Some? && result.value.JObject? && "late_fee" in result.value.fields ==>
      fee == NumberOf(result.value.fields["late_fee"])
  {
    if result.Some? && result.value.JObject? && "late_fee" in result.value.fields then
      NumberOf(result.value.fields["late_fee"])
    else Some(0.0)
  }

  /** The success message mentions a fee iff the fee is a number above 0. */
  predicate MentionsLateFee(fee: Option<real>) {
    match fee
    case Some(f) => f > 0.0
    case None => false
  }

  /** A result without a positive `late_fee` gives the plain message. */
  lemma NoFeeNoMention(result: Option<Json>)
    requires result.None? || !result.value.JObject? || "late_fee" !in result.value.fields
    ensures !MentionsLateFee(LateFee(result))
  {
  }

  datatype PostOutcome = NoPayment | Posted(lateFee: Option<real>, mentionsFee: bool) | PostFailed

  class Dialog {
    var open: bool
    var loading: bool

    constructor (open: bool)
      ensures this.open == open && !loading
    {
      this.open, loading := open, false;
    }

    /** Posts a valid form for `paymentId`; `reply` is the procedure's answer. */
    method OnSubmit(db: Db, paymentId: Option<Id>, form: PaymentForm, reply: Reply<Json>)
      returns (o: PostOutcome)
      requires FormValid(form)
      modifies this, db`rpcLog
      ensures paymentId.None? ==> o == NoPayment && db.rpcLog == old(db.rpcLog) && open == old(open) && loading == old(loading)
      ensures paymentId.Some? ==>
        db.rpcLog == old(db.rpcLog) + [PostPayment(paymentId.value, form.amount, ParsePaymentMethod(form.payMethod).value)] &&
        o == (if reply.error.Some? then PostFailed
              else Posted(LateFee(reply.data), MentionsLateFee(LateFee(reply.data)))) &&
        open == (if reply.error.Some? then old(open) else false) && !loading
    {
      if paymentId.None? {
        return NoPayment;
      }
      loading := true;
      var r := db.Rpc(PostPayment(paymentId.value, form.amount, ParsePaymentMethod(form.payMethod).value), reply);
      if r.error.Some? {
        o := PostFailed;
      } else {
        var lateFee := LateFee(r.data);
        o := Posted(lateFee, MentionsLateFee(lateFee));
        open := false;
      }
      loading := false;
    }
  }
}
