/** Booking-fee and service payments (apps/payments: models.py, views.py, serializers.py). */
module Payments {
  import opened Wrappers
  import opened Services
  import Decimals

  /** `Payment.PAYMENT_TYPE_CHOICES`. */
  datatype PaymentType = InitialBooking | FinalPayment

  /** The width of the `payment_type` column. */
  const MaxPaymentTypeLength := 16

  /** The stored code of a payment-type choice. */
  function PaymentTypeCode(t: PaymentType): (s: string)
    ensures 0 < |s| <= MaxPaymentTypeLength
  {
    match t
    case InitialBooking => "INITIAL_BOOKING"
    case FinalPayment => "FINAL_PAYMENT"
  }

  /** Reads a stored `payment_type` back as its choice; any other text is none. */
  function ParsePaymentType(s: string): (t: Option<PaymentType>)
    ensures t.Some? ==> PaymentTypeCode(t.value) == s
    ensures forall c :: PaymentTypeCode(c) == s ==> t == Some(c)
  {
    if s == "INITIAL_BOOKING" then Some(InitialBooking)
    else if s == "FINAL_PAYMENT" then Some(FinalPayment)
    else None
  }

  /** `Payment.STATUS_CHOICES`. */
  datatype PaymentStatus = Pending | Successful | Failed

  /** `service_request` is optional because a booking fee is paid before its
      request exists. `payment_type` is the stored text: `create()` does not
      check it against the choices. */
  datatype Payment = Payment(
    serviceRequest: Option<RequestId>,
    paymentType: string,
    amount: real,
    reference: string,
    accessCode: string,
    status: PaymentStatus,
    isEmergency: bool,
    paidAt: Option<int>,
    createdAt: int)

  const NormalBookingFee: real := 2000.0
  const EmergencyBookingFee: real := 5000.0

  /** The booking fee tier for a request's emergency flag. */
  function BookingFee(isEmergency: bool): (fee: real)
    ensures fee == NormalBookingFee || fee == EmergencyBookingFee
    ensures fee == EmergencyBookingFee <==> isEmergency
  {
    if isEmergency then EmergencyBookingFee else NormalBookingFee
  }

  /** `PaymentSerializer.get_is_emergency`: the stored flag when there is one,
      otherwise derived from the amount (`float(amount) >= 5000`, which agrees
      with the exact comparison for two-place amounts). */
  function IsEmergencyView(stored: Option<bool>, amount: real): (b: bool)
    ensures stored.Some? ==> b == stored.value
    ensures stored.None? ==> (b <==> amount >= EmergencyBookingFee)
  {
    match stored
    case Some(v) => v
    case None => amount >= 5000.0
  }

  /** Deriving the flag from a booking fee recovers the tier the fee was charged for. */
  lemma FeeTierRoundTrip(isEmergency: bool)
    ensures IsEmergencyView(None, BookingFee(isEmergency)) == isEmergency
  {
  }

  /** `paystack_reference` is unique across payments. */
  ghost predicate UniqueReferences(ps: seq<Payment>) {
    forall i, j :: 0 <= i < j < |ps| ==> ps[i].reference != ps[j].reference
  }

  /** The position of the payment with `reference`, if any. */
  function FindPayment(ps: seq<Payment>, reference: string): (i: Option<nat>)
    ensures i.Some? ==> i.value < |ps| && ps[i.value].reference == reference
    ensures i.None? ==> forall j :: 0 <= j < |ps| ==> ps[j].reference != reference
  {
    if |ps| == 0 then None
    else if ps[0].reference == reference then Some(0)
    else match FindPayment(ps[1..], reference)
      case None => None
      case Some(k) => Some(k + 1)
  }

  /** What the gateway returns when a payment is initialized. */
  datatype GatewayInit = GatewayInit(reference: string, accessCode: string, authorizationUrl: string)

  datatype PaymentError =
    | ConfigurationError   // FRONTEND_URL is not set
    | GatewayError         // the gateway call raised
    | DuplicateReference   // the insert violates the unique reference
    | NotFound             // no such request or payment
    | InvalidSignature     // webhook signature mismatch
    | StoreError           // the insert raised on a value its column cannot hold

  /** Appends `p` unless its reference is taken. */
  function Insert(ps: seq<Payment>, p: Payment): (r: Result<seq<Payment>, PaymentError>)
    ensures r.Success? <==> FindPayment(ps, p.reference).None?
    ensures r.Success? ==> r.value == ps + [p]
    ensures r.Failure? ==> r.error == DuplicateReference
    ensures UniqueReferences(ps) && r.Success? ==> UniqueReferences(r.value)
  {
    if FindPayment(ps, p.reference).Some? then Failure(DuplicateReference) else Success(ps + [p])
  }

  /** The `is_emergency` value as it arrives in the request body. */
  datatype RawFlag =
    | Absent                   // not sent: `.get` supplies False
    | Null                     // JSON null
    | Flag(b: bool)            // JSON true or false
    | Number(x: real)          // a JSON number
    | Text(s: string)          // a string, which is what every form-encoded field is
    | Collection(empty: bool)  // a JSON list or object

  /** Python truthiness, which picks the fee. */
  predicate Truthy(v: RawFlag) {
    match v
    case Absent => false
    case Null => false
    case Flag(b) => b
    case Number(x) => x != 0.0
    case Text(s) => s != ""
    case Collection(empty) => !empty
  }

  /** What the model field's `BooleanField.to_python` makes of the value when
      the row is inserted: the booleans and the numbers 1 and 0, the strings
      "t", "True", "1" and "f", "False", "0". Anything else makes the insert
      raise, and so does `None`, which the NOT NULL column refuses. */
  function StoredFlag(v: RawFlag): (r: Option<bool>)
    ensures v.Absent? ==> r == Some(false)
    ensures v.Flag? ==> r == Some(v.b)
    ensures v.Null? || v.Collection? ==> r.None?
    ensures v.Text? ==> (r.Some? <==> v.s in {"t", "True", "1", "f", "False", "0"})
    ensures v.Text? && r.Some? ==> (r.value <==> v.s in {"t", "True", "1"})
    ensures v.Number? ==> (r.Some? <==> v.x == 0.0 || v.x == 1.0) && (r.Some? ==> (r.value <==> v.x == 1.0))
  {
    match v
    case Absent => Some(false)
    case Null => None
    case Flag(b) => Some(b)
    case Number(x) => if x == 1.0 then Some(true) else if x == 0.0 then Some(false) else None
    case Text(s) =>
      if s == "t" || s == "True" || s == "1" then Some(true)
      else if s == "f" || s == "False" || s == "0" then Some(false)
      else None
    case Collection(_) => None
  }

  /** `InitializeBookingFeeView.post` as written: the fee follows the truthiness
      of the raw value, while the stored flag is the model field's conversion of
      it. Records a PENDING booking payment linked to no request. `gateway` is
      `None` when the call raised. */
  function InitializeBookingFee(ps: seq<Payment>, isEmergency: RawFlag, frontendConfigured: bool,
                                gateway: Option<GatewayInit>, now: int): (r: Result<seq<Payment>, PaymentError>)
    ensures !frontendConfigured ==> r == Failure(ConfigurationError)
    ensures frontendConfigured && gateway.Some? && StoredFlag(isEmergency).None? ==> r == Failure(StoreError)
    ensures r.Success? <==>
      frontendConfigured && gateway.Some? && StoredFlag(isEmergency).Some? && FindPayment(ps, gateway.value.reference).None?
    ensures r.Success? ==>
      && |r.value| == |ps| + 1 && r.value[..|ps|] == ps
      && var p := r.value[|ps|];
      && p.serviceRequest.None? && p.paymentType == PaymentTypeCode(InitialBooking) && p.status == Pending
      && p.amount == BookingFee(Truthy(isEmergency)) && p.isEmergency == StoredFlag(isEmergency).value
      && p.paidAt.None? && p.reference == gateway.value.reference
    ensures UniqueReferences(ps) && r.Success? ==> UniqueReferences(r.value)
  {
    if !frontendConfigured then Failure(ConfigurationError)
    else if gateway.None? then Failure(GatewayError)
    else match StoredFlag(isEmergency)
      case None => Failure(StoreError)
      case Some(stored) =>
        var g := gateway.value;
        var r := Insert(ps, Payment(None, PaymentTypeCode(InitialBooking), BookingFee(Truthy(isEmergency)), g.reference, g.accessCode, Pending, stored, None, now));
        assert r.Success? ==> r.value[..|ps|] == ps;
        r
  }

  /** Finding: the string "False" (or "0", or "f") is truthy, so it is charged
      the emergency fee, yet it is stored as not an emergency, and the
      serializer then reports a 5000.00 payment as a normal booking. */
  lemma FalseTextChargedEmergency(ps: seq<Payment>, g: GatewayInit, now: int)
    requires FindPayment(ps, g.reference).None?
    ensures var r := InitializeBookingFee(ps, Text("False"), true, Some(g), now);
      && r.Success?
      && r.value[|ps|].amount == EmergencyBookingFee
      && !r.value[|ps|].isEmergency
      && !IsEmergencyView(Some(r.value[|ps|].isEmergency), r.value[|ps|].amount)
      && IsEmergencyView(None, r.value[|ps|].amount)
  {
  }

  /** The booking-fee view as evidently intended: the fee follows the flag that is stored. */
  function InitializeBookingFeeCorrected(ps: seq<Payment>, isEmergency: RawFlag, frontendConfigured: bool,
                                         gateway: Option<GatewayInit>, now: int): (r: Result<seq<Payment>, PaymentError>)
    ensures r.Success? <==>
      frontendConfigured && gateway.Some? && StoredFlag(isEmergency).Some? && FindPayment(ps, gateway.value.reference).None?
    ensures r.Failure? ==> r == InitializeBookingFee(ps, isEmergency, frontendConfigured, gateway, now)
    ensures r.Success? ==>
      && |r.value| == |ps| + 1 && r.value[..|ps|] == ps
      && var p := r.value[|ps|];
      && p.serviceRequest.None? && p.paymentType == PaymentTypeCode(InitialBooking) && p.status == Pending
      && p.isEmergency == StoredFlag(isEmergency).value && p.amount == BookingFee(p.isEmergency)
      && p.paidAt.None? && p.reference == gateway.value.reference
    ensures UniqueReferences(ps) && r.Success? ==> UniqueReferences(r.value)
  {
    if !frontendConfigured then Failure(ConfigurationError)
    else if gateway.None? then Failure(GatewayError)
    else match StoredFlag(isEmergency)
      case None => Failure(StoreError)
      case Some(stored) =>
        var g := gateway.value;
        var r := Insert(ps, Payment(None, PaymentTypeCode(InitialBooking), BookingFee(stored), g.reference, g.accessCode, Pending, stored, None, now));
        assert r.Success? ==> r.value[..|ps|] == ps;
        r
  }

  /** Under the correction the amount and the stored flag always tell the same
      tier, and for the two JSON booleans and an absent flag nothing changes. */
  lemma CorrectedFeeMatchesFlag(ps: seq<Payment>, isEmergency: RawFlag, frontendConfigured: bool,
                                gateway: Option<GatewayInit>, now: int)
    ensures var r := InitializeBookingFeeCorrected(ps, isEmergency, frontendConfigured, gateway, now);
      r.Success? ==> IsEmergencyView(None, r.value[|ps|].amount) == r.value[|ps|].isEmergency
    ensures isEmergency.Flag? || isEmergency.Absent? ==>
      InitializeBookingFeeCorrected(ps, isEmergency, frontendConfigured, gateway, now)
        == InitializeBookingFee(ps, isEmergency, frontendConfigured, gateway, now)
  {
    var r := InitializeBookingFeeCorrected(ps, isEmergency, frontendConfigured, gateway, now);
    if r.Success? {
      FeeTierRoundTrip(r.value[|ps|].isEmergency);
    }
  }

  /** The posted `amount`: absent or null, a value the model field's
      `DecimalField.to_python` turns into a finite decimal, or one it refuses. */
  datatype PostedAmount = NoAmount | Amount(value: real) | NotAmount

  /** The insert accepts the raw `payment_type` (`None` when absent or null,
      else the text `str()` makes of it) and `amount`: both are NOT NULL, the
      type must fit its column, and the amount must convert. */
  predicate Storable(paymentType: Option<string>, amount: PostedAmount) {
    paymentType.Some? && |paymentType.value| <= MaxPaymentTypeLength && amount.Amount?
  }

  /** `InitializePaymentView.post`: looks up the request, calls the gateway and
      inserts a PENDING payment linked to the request. The body's
      `payment_type` and `amount` reach the insert unchecked; the amount is
      stored rounded to two places. */
  function InitializePayment(ps: seq<Payment>, rs: seq<ServiceRequest>, requestId: RequestId,
                             paymentType: Option<string>, amount: PostedAmount, frontendConfigured: bool,
                             gateway: Option<GatewayInit>, now: int): (r: Result<seq<Payment>, PaymentError>)
    ensures FindRequest(rs, requestId).None? ==> r == Failure(NotFound)
    ensures FindRequest(rs, requestId).Some? && !frontendConfigured ==> r == Failure(ConfigurationError)
    ensures FindRequest(rs, requestId).Some? && frontendConfigured && gateway.None? ==> r == Failure(GatewayError)
    ensures FindRequest(rs, requestId).Some? && frontendConfigured && gateway.Some? && !Storable(paymentType, amount) ==>
      r == Failure(StoreError)
    ensures r.Success? <==>
      FindRequest(rs, requestId).Some? && frontendConfigured && gateway.Some?
      && Storable(paymentType, amount) && FindPayment(ps, gateway.value.reference).None?
    ensures r.Success? ==>
      && |r.value| == |ps| + 1 && r.value[..|ps|] == ps
      && var p := r.value[|ps|];
      && p.serviceRequest == Some(requestId) && p.status == Pending && p.paymentType == paymentType.value
      && p.reference == gateway.value.reference && !p.isEmergency && p.paidAt.None?
      && p.amount == Decimals.StoreCents(amount.value)
      && Decimals.IsCents(p.amount) && Decimals.Abs(p.amount - amount.value) <= 0.005
      && (Decimals.IsCents(amount.value) ==> p.amount == amount.value)
    ensures UniqueReferences(ps) && r.Success? ==> UniqueReferences(r.value)
  {
    if FindRequest(rs, requestId).None? then Failure(NotFound)
    else if !frontendConfigured then Failure(ConfigurationError)
    else if gateway.None? then Failure(GatewayError)
    else if !Storable(paymentType, amount) then Failure(StoreError)
    else
      var g := gateway.value;
      var r := Insert(ps, Payment(Some(requestId), paymentType.value, Decimals.StoreCents(amount.value),
                                  g.reference, g.accessCode, Pending, false, None, now));
      assert r.Success? ==> r.value[..|ps|] == ps;
      r
  }

  /** A payment initialized with a posted type and amount reads back as that
      choice and as the amount rounded to the nearest cent: a posted 12.345
      is stored as 12.35. */
  lemma InitializedPaymentReadsBack(ps: seq<Payment>, rs: seq<ServiceRequest>, requestId: RequestId,
                                    t: PaymentType, g: GatewayInit, now: int)
    requires FindRequest(rs, requestId).Some? && FindPayment(ps, g.reference).None?
    ensures var r := InitializePayment(ps, rs, requestId, Some(PaymentTypeCode(t)), Amount(12.345), true, Some(g), now);
      && r.Success?
      && ParsePaymentType(r.value[|ps|].paymentType) == Some(t)
      && r.value[|ps|].amount == 12.35
  {
    var r := InitializePayment(ps, rs, requestId, Some(PaymentTypeCode(t)), Amount(12.345), true, Some(g), now);
    Decimals.StoreCentsExample();
    assert r.Success?;
  }

  /** The parsed webhook body; only `charge.success` is acted on. */
  datatype WebhookEvent = ChargeSuccess(reference: string) | OtherEvent(name: string)

  /** Two payment lists differ at most in the status and payment time of position `i`. */
  ghost predicate OnlyStatusOf(ps: seq<Payment>, ps': seq<Payment>, i: nat) {
    && |ps'| == |ps|
    && (forall j :: 0 <= j < |ps| && j != i ==> ps'[j] == ps[j])
    && (i < |ps| ==> ps'[i] == ps[i].(status := ps'[i].status, paidAt := ps'[i].paidAt))
  }

  /** `PaystackWebhookView.post`. `expected` is the HMAC of the body under the
      shared secret, computed outside the model. */
  function Webhook(ps: seq<Payment>, signature: string, expected: string, event: WebhookEvent, now: int): (r: Result<seq<Payment>, PaymentError>)
    ensures signature != expected ==> r == Failure(InvalidSignature)
    ensures signature == expected && event.OtherEvent? ==> r == Success(ps)
    ensures signature == expected && event.ChargeSuccess? ==>
      match FindPayment(ps, event.reference)
      case None => r == Failure(NotFound)
      case Some(i) =>
        && r.Success? && OnlyStatusOf(ps, r.value, i)
        && r.value[i].status == Successful
        && (ps[i].status == Successful ==> r.value == ps)
        && (ps[i].status != Successful ==> r.value[i].paidAt == Some(now))
  {
    if signature != expected then Failure(InvalidSignature)
    else match event
      case OtherEvent(_) => Success(ps)
      case ChargeSuccess(reference) =>
        match FindPayment(ps, reference)
        case None => Failure(NotFound)
        case Some(i) =>
          if ps[i].status != Successful then Success(ps[i := ps[i].(status := Successful, paidAt := Some(now))])
          else Success(ps)
  }

  /** A redelivered webhook changes nothing, whenever it arrives. */
  lemma WebhookIdempotent(ps: seq<Payment>, signature: string, expected: string, event: WebhookEvent, now: int, later: int)
    requires Webhook(ps, signature, expected, event, now).Success?
    ensures var once := Webhook(ps, signature, expected, event, now).value;
      Webhook(once, signature, expected, event, later) == Success(once)
  {
    var once := Webhook(ps, signature, expected, event, now).value;
    if event.ChargeSuccess? {
      FindPaymentByReference(ps, once, event.reference);
    }
  }

  /** Lookup by reference depends only on the references. */
  lemma {:induction false} FindPaymentByReference(ps: seq<Payment>, qs: seq<Payment>, reference: string)
    requires |ps| == |qs| && forall j :: 0 <= j < |ps| ==> ps[j].reference == qs[j].reference
    ensures FindPayment(ps, reference) == FindPayment(qs, reference)
  {
    if |ps| > 0 && ps[0].reference != reference {
      FindPaymentByReference(ps[1..], qs[1..], reference);
    }
  }

  /** `PaymentVerifyView.post`. `gatewaySuccess` is the gateway's verdict, `None`
      when the call raised; it is asked before the payment is looked up. */
  function Verify(ps: seq<Payment>, reference: string, gatewaySuccess: Option<bool>, now: int): (r: Result<seq<Payment>, PaymentError>)
    ensures gatewaySuccess.None? ==> r == Failure(GatewayError)
    ensures gatewaySuccess.Some? && FindPayment(ps, reference).None? ==> r == Failure(NotFound)
    ensures gatewaySuccess.Some? && FindPayment(ps, reference).Some? ==>
      var i := FindPayment(ps, reference).value;
      && r.Success? && OnlyStatusOf(ps, r.value, i)
      && (gatewaySuccess.value ==> r.value[i].status == Successful && r.value[i].paidAt == Some(now))
      && (!gatewaySuccess.value ==> r.value[i].status == Failed && r.value[i].paidAt == ps[i].paidAt)
  {
    if gatewaySuccess.None? then Failure(GatewayError)
    else match FindPayment(ps, reference)
      case None => Failure(NotFound)
      case Some(i) =>
        if gatewaySuccess.value then Success(ps[i := ps[i].(status := Successful, paidAt := Some(now))])
        else Success(ps[i := ps[i].(status := Failed)])
  }

  /** A status update keeps every reference, so lookups and uniqueness are unaffected. */
  lemma StatusUpdateKeepsReferences(ps: seq<Payment>, ps': seq<Payment>, i: nat, reference: string)
    requires OnlyStatusOf(ps, ps', i)
    ensures UniqueReferences(ps) ==> UniqueReferences(ps')
    ensures FindPayment(ps', reference) == FindPayment(ps, reference)
  {
    assert forall j :: 0 <= j < |ps| ==> ps'[j].reference == ps[j].reference;
    FindPaymentByReference(ps, ps', reference);
  }

  /** Verifying keeps references unique. Asking again with the same verdict
      changes nothing after a failure; after a success it only moves the
      payment time to the later call, where a webhook would keep the first. */
  lemma VerifyRepeated(ps: seq<Payment>, reference: string, verdict: bool, now: int, later: int)
    requires Verify(ps, reference, Some(verdict), now).Success?
    ensures UniqueReferences(ps) ==> UniqueReferences(Verify(ps, reference, Some(verdict), now).value)
    ensures var once := Verify(ps, reference, Some(verdict), now).value;
      var twice := Verify(once, reference, Some(verdict), later);
      && twice.Success?
      && (!verdict ==> twice.value == once)
      && (verdict ==> var i := FindPayment(ps, reference).value;
            twice.value == once[i := once[i].(paidAt := Some(later))])
  {
    var i := FindPayment(ps, reference).value;
    var once := Verify(ps, reference, Some(verdict), now).value;
    StatusUpdateKeepsReferences(ps, once, i, reference);
  }

  /** A write through `PaymentSerializer`, as its validated data: every field
      a caller might send, `None` when it is not in the body. The type is one
      of the choices and the amount has at most two places. */
  datatype PaymentWrite = PaymentWrite(
    serviceRequest: Option<Option<RequestId>>,
    paymentType: Option<PaymentType>,
    amount: Option<real>,
    reference: Option<string>,
    accessCode: Option<string>,
    status: Option<PaymentStatus>,
    isEmergency: Option<bool>,
    paidAt: Option<Option<int>>)

  /** Applying a serializer write: the read-only fields (`status`, `paid_at`,
      `paystack_access_code`, the derived `is_emergency`) ignore what is sent. */
  function ApplyWrite(p: Payment, w: PaymentWrite): (p': Payment)
    ensures p'.status == p.status && p'.paidAt == p.paidAt && p'.accessCode == p.accessCode
    ensures p'.isEmergency == p.isEmergency && p'.createdAt == p.createdAt
    ensures p'.serviceRequest == w.serviceRequest.GetOr(p.serviceRequest)
    ensures w.paymentType.Some? ==> p'.paymentType == PaymentTypeCode(w.paymentType.value)
    ensures w.paymentType.None? ==> p'.paymentType == p.paymentType
    ensures p'.amount == w.amount.GetOr(p.amount)
    ensures p'.reference == w.reference.GetOr(p.reference)
  {
    p.(serviceRequest := w.serviceRequest.GetOr(p.serviceRequest),
       paymentType := if w.paymentType.Some? then PaymentTypeCode(w.paymentType.value) else p.paymentType,
       amount := w.amount.GetOr(p.amount),
       reference := w.reference.GetOr(p.reference))
  }

  /** A write that sends no reference keeps every reference in place, so
      references stay unique and every lookup by reference finds the same row. */
  lemma WriteKeepsReferences(ps: seq<Payment>, i: nat, w: PaymentWrite, reference: string)
    requires i < |ps| && w.reference.None?
    ensures UniqueReferences(ps) ==> UniqueReferences(ps[i := ApplyWrite(ps[i], w)])
    ensures FindPayment(ps[i := ApplyWrite(ps[i], w)], reference) == FindPayment(ps, reference)
  {
    var ps' := ps[i := ApplyWrite(ps[i], w)];
    assert forall j :: 0 <= j < |ps| ==> ps'[j].reference == ps[j].reference;
    FindPaymentByReference(ps, ps', reference);
  }
}
