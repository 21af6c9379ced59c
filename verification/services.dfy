/** Categories and the service request record (apps/services/models.py). */
module Services {
  import opened Wrappers
  import opened Users

  type RequestId = nat

  /** `ServiceRequest.STATUS_CHOICES`: nine workflow states followed by five
      legacy states kept only so that old rows stay valid. */
  datatype Status =
    | PendingAdminAssignment
    | PendingEstimation
    | EstimationSubmitted
    | AwaitingClientApproval
    | PaymentCompleted
    | InProgress
    | Completed
    | ClientReviewed
    | Cancelled
    | AssignedToServiceman
    | ServicemanInspected
    | Negotiating
    | AwaitingPayment
    | PaymentConfirmed

  predicate IsLegacy(s: Status) {
    s.AssignedToServiceman? || s.ServicemanInspected? || s.Negotiating?
    || s.AwaitingPayment? || s.PaymentConfirmed?
  }

  const WorkflowStatuses: seq<Status> := [
    PendingAdminAssignment, PendingEstimation, EstimationSubmitted,
    AwaitingClientApproval, PaymentCompleted, InProgress, Completed,
    ClientReviewed, Cancelled]

  const LegacyStatuses: seq<Status> := [
    AssignedToServiceman, ServicemanInspected, Negotiating, AwaitingPayment,
    PaymentConfirmed]

  /** The stored code of a status (`CharField(max_length=32)`). */
  function StatusCode(s: Status): (c: string)
    ensures 0 < |c| <= 32
  {
    match s
    case PendingAdminAssignment => "PENDING_ADMIN_ASSIGNMENT"
    case PendingEstimation => "PENDING_ESTIMATION"
    case EstimationSubmitted => "ESTIMATION_SUBMITTED"
    case AwaitingClientApproval => "AWAITING_CLIENT_APPROVAL"
    case PaymentCompleted => "PAYMENT_COMPLETED"
    case InProgress => "IN_PROGRESS"
    case Completed => "COMPLETED"
    case ClientReviewed => "CLIENT_REVIEWED"
    case Cancelled => "CANCELLED"
    case AssignedToServiceman => "ASSIGNED_TO_SERVICEMAN"
    case ServicemanInspected => "SERVICEMAN_INSPECTED"
    case Negotiating => "NEGOTIATING"
    case AwaitingPayment => "AWAITING_PAYMENT"
    case PaymentConfirmed => "PAYMENT_CONFIRMED"
  }

  /** Reads a stored status code back; any other text is not a status. */
  function ParseStatus(c: string): (r: Option<Status>)
    ensures r.Some? ==> StatusCode(r.value) == c
    ensures forall s :: StatusCode(s) == c ==> r == Some(s)
  {
    if c == "PENDING_ADMIN_ASSIGNMENT" then Some(PendingAdminAssignment)
    else if c == "PENDING_ESTIMATION" then Some(PendingEstimation)
    else if c == "ESTIMATION_SUBMITTED" then Some(EstimationSubmitted)
    else if c == "AWAITING_CLIENT_APPROVAL" then Some(AwaitingClientApproval)
    else if c == "PAYMENT_COMPLETED" then Some(PaymentCompleted)
    else if c == "IN_PROGRESS" then Some(InProgress)
    else if c == "COMPLETED" then Some(Completed)
    else if c == "CLIENT_REVIEWED" then Some(ClientReviewed)
    else if c == "CANCELLED" then Some(Cancelled)
    else if c == "ASSIGNED_TO_SERVICEMAN" then Some(AssignedToServiceman)
    else if c == "SERVICEMAN_INSPECTED" then Some(ServicemanInspected)
    else if c == "NEGOTIATING" then Some(Negotiating)
    else if c == "AWAITING_PAYMENT" then Some(AwaitingPayment)
    else if c == "PAYMENT_CONFIRMED" then Some(PaymentConfirmed)
    else None
  }

  /** Every status is exactly one of the nine workflow states or the five legacy ones. */
  lemma StatusesPartitioned(s: Status)
    ensures |WorkflowStatuses| == 9 && |LegacyStatuses| == 5
    ensures s in WorkflowStatuses <==> !IsLegacy(s)
    ensures s in LegacyStatuses <==> IsLegacy(s)
  {
  }

  datatype Category = Category(
    id: CategoryId,
    name: string,
    description: string,
    iconUrl: Option<string>,
    isActive: bool)

  /** One `ServiceRequest` row. Money fields are exact decimals; times are
      opaque integers supplied by the caller. */
  datatype ServiceRequest = ServiceRequest(
    id: RequestId,
    client: UserId,
    serviceman: Option<UserId>,
    backupServiceman: Option<UserId>,
    category: CategoryId,
    bookingDate: int,
    isEmergency: bool,
    autoFlaggedEmergency: bool,
    status: Status,
    initialBookingFee: real,
    estimatedCost: Option<real>,
    markupPercentage: real,
    finalCost: Option<real>,
    clientAddress: string,
    serviceDescription: string,
    createdAt: int,
    updatedAt: int,
    inspectionCompletedAt: Option<int>,
    workCompletedAt: Option<int>,
    isDeleted: bool,
    deletedAt: Option<int>)

  /** The markup a request carries until an administrator finalizes its price. */
  const DefaultMarkup: real := 10.0

  /** A request as inserted with only the required fields given: no
      assignment, no estimate or final cost, 10.00 markup, not deleted. */
  function NewServiceRequest(
    id: RequestId, client: UserId, category: CategoryId, bookingDate: int,
    status: Status, bookingFee: real, address: string, description: string, now: int): (r: ServiceRequest)
    ensures r.id == id && r.client == client && r.category == category && r.status == status
    ensures r.serviceman.None? && r.backupServiceman.None?
    ensures r.estimatedCost.None? && r.finalCost.None? && r.markupPercentage == 10.0
    ensures !r.isEmergency && !r.autoFlaggedEmergency
    ensures !r.isDeleted && r.deletedAt.None?
    ensures r.workCompletedAt.None? && r.inspectionCompletedAt.None?
    ensures r.createdAt == now && r.updatedAt == now
  {
    ServiceRequest(id, client, None, None, category, bookingDate, false, false, status,
                   bookingFee, None, DefaultMarkup, None, address, description, now, now,
                   None, None, false, None)
  }

  /** The position of the request with primary key `pk` (the first, should keys repeat). */
  function FindRequest(rs: seq<ServiceRequest>, pk: RequestId): (i: Option<nat>)
    ensures i.Some? ==> i.value < |rs| && rs[i.value].id == pk
    ensures i.None? ==> forall j :: 0 <= j < |rs| ==> rs[j].id != pk
    ensures i.Some? ==> forall j :: 0 <= j < i.value ==> rs[j].id != pk
  {
    if |rs| == 0 then None
    else if rs[0].id == pk then Some(0)
    else match FindRequest(rs[1..], pk)
      case None => None
      case Some(k) => Some(k + 1)
  }

  /** No two requests share a primary key. */
  ghost predicate UniqueRequestIds(rs: seq<ServiceRequest>) {
    forall i, j :: 0 <= i < j < |rs| ==> rs[i].id != rs[j].id
  }
}
