/** Who may list, read and create what (apps/services/views.py). */
module Visibility {
  import opened Wrappers
  import opened Users
  import opened Services
  import Seqs
  import Availability

  /** The HTTP method a list-or-create endpoint is called with. */
  datatype Method = Get | Post

  /** The role-based read rule shared by the list and the detail view:
      administrators see everything, clients their own requests, servicemen
      the requests naming them as primary or backup. */
  predicate MayView(u: User, r: ServiceRequest) {
    match u.userType
    case Admin => true
    case Client => r.client == u.id
    case Serviceman => Availability.Names(r, u.id)
  }

  /** `ServiceRequestListCreateView.get_queryset`, in stored order. Soft-deleted
      requests are not filtered out. */
  function ListRequests(u: User, rs: seq<ServiceRequest>): (r: seq<ServiceRequest>)
    ensures forall x :: x in r <==> x in rs && MayView(u, x)
    ensures u.userType == Admin ==> r == rs
  {
    match u.userType
    case Admin => rs
    case Client => Seqs.Filter(rs, (x: ServiceRequest) => x.client == u.id)
    case Serviceman => Seqs.Filter(rs, (x: ServiceRequest) => x.serviceman == Some(u.id) || x.backupServiceman == Some(u.id))
  }

  /** `ServiceRequestListCreateView.get_permissions`: any signed-in user may
      list; only clients may create. `None` is an anonymous caller. */
  function ListCreatePermitted(m: Method, u: Option<User>): (ok: bool)
    ensures m == Post ==> (ok <==> u.Some? && u.value.userType == Client)
    ensures m == Get ==> (ok <==> u.Some?)
  {
    match m
    case Post => u.Some? && u.value.userType == Client
    case Get => u.Some?
  }

  /** `ServerError` is the 500 the as-written refusal ends in. */
  datatype AccessError = NotFound | PermissionDenied | ServerError

  /** `ServiceRequestDetailView.get_object` as written. The refusal raises
      `permissions.PermissionDenied`, but `permissions` is
      `rest_framework.permissions`, which defines no such name: the attribute
      lookup raises `AttributeError` and the caller gets a 500. */
  function RetrieveRequestAsWritten(u: User, rs: seq<ServiceRequest>, pk: RequestId): (r: Result<ServiceRequest, AccessError>)
    ensures r == Failure(NotFound) <==> FindRequest(rs, pk).None?
    ensures r.Success? <==> FindRequest(rs, pk).Some? && MayView(u, rs[FindRequest(rs, pk).value])
    ensures r.Success? ==> r.value == rs[FindRequest(rs, pk).value]
    ensures r.Failure? ==> r.error != PermissionDenied
  {
    match FindRequest(rs, pk)
    case None => Failure(NotFound)
    case Some(i) =>
      var obj := rs[i];
      if u.userType == Admin then Success(obj)
      else if u.userType == Client && obj.client == u.id then Success(obj)
      else if u.userType == Serviceman && (obj.serviceman == Some(u.id) || obj.backupServiceman == Some(u.id)) then Success(obj)
      else Failure(ServerError)
  }

  /** `ServiceRequestDetailView.get_object` as intended: a caller who may not
      view the request is refused with a 403. */
  function RetrieveRequest(u: User, rs: seq<ServiceRequest>, pk: RequestId): (r: Result<ServiceRequest, AccessError>)
    ensures r == Failure(NotFound) <==> FindRequest(rs, pk).None?
    ensures r.Success? <==> FindRequest(rs, pk).Some? && MayView(u, rs[FindRequest(rs, pk).value])
    ensures r.Success? ==> r.value == rs[FindRequest(rs, pk).value]
  {
    match FindRequest(rs, pk)
    case None => Failure(NotFound)
    case Some(i) =>
      var obj := rs[i];
      if u.userType == Admin then Success(obj)
      else if u.userType == Client && obj.client == u.id then Success(obj)
      else if u.userType == Serviceman && (obj.serviceman == Some(u.id) || obj.backupServiceman == Some(u.id)) then Success(obj)
      else Failure(PermissionDenied)
  }

  /** The two readings of the detail view return the same request and the
      same 404; they differ only where the intended 403 is a 500 as written. */
  lemma RetrieveDiffersOnlyInRefusal(u: User, rs: seq<ServiceRequest>, pk: RequestId)
    ensures RetrieveRequestAsWritten(u, rs, pk).Success? <==> RetrieveRequest(u, rs, pk).Success?
    ensures RetrieveRequest(u, rs, pk).Success? ==> RetrieveRequestAsWritten(u, rs, pk) == RetrieveRequest(u, rs, pk)
    ensures RetrieveRequest(u, rs, pk) == Failure(PermissionDenied) <==> RetrieveRequestAsWritten(u, rs, pk) == Failure(ServerError)
    ensures RetrieveRequest(u, rs, pk) == Failure(NotFound) <==> RetrieveRequestAsWritten(u, rs, pk) == Failure(NotFound)
  {
  }

  /** A client opening another client's request gets a 500 as written and a
      403 as intended. */
  lemma OtherClientGetsServerError()
    ensures var other := User(2, "bob", "bob@example.com", Client, false, true);
      var q := NewServiceRequest(7, 1, 3, 0, PendingAdminAssignment, 2000.0, "", "", 0);
      && RetrieveRequestAsWritten(other, [q], 7) == Failure(ServerError)
      && RetrieveRequest(other, [q], 7) == Failure(PermissionDenied)
  {
  }

  /** A request appears in a user's list exactly when that user may open it. */
  lemma ListAgreesWithDetail(u: User, rs: seq<ServiceRequest>, x: ServiceRequest)
    requires UniqueRequestIds(rs)
    requires x in rs
    ensures x in ListRequests(u, rs) <==> RetrieveRequest(u, rs, x.id).Success?
  {
    var j :| 0 <= j < |rs| && rs[j] == x;
    var i := FindRequest(rs, x.id).value;
    assert i == j;
  }

  /** `CategoryListCreateView.get_queryset`: listing shows active categories, creating works over all. */
  function CategoryQueryset(m: Method, cats: seq<Category>): (r: seq<Category>)
    ensures m == Post ==> r == cats
    ensures m == Get ==> forall c :: c in r <==> c in cats && c.isActive
  {
    match m
    case Post => cats
    case Get => Seqs.Filter(cats, (c: Category) => c.isActive)
  }

  /** `CategoryServicemenListView`: serviceman accounts whose profile is in category `pk`. */
  function CategoryServicemen(users: seq<User>, profiles: Availability.Profiles, pk: CategoryId): (r: seq<User>)
    ensures forall x :: x in r <==>
      x in users && x.userType == Serviceman && x.id in profiles && profiles[x.id].category == Some(pk)
  {
    Seqs.Filter(users, (x: User) => x.userType == Serviceman && x.id in profiles && profiles[x.id].category == Some(pk))
  }

  /** The category list follows stored order: a category added at the end is
      listed at the end exactly when it is active. */
  lemma CategoryListAppends(cats: seq<Category>, c: Category)
    ensures CategoryQueryset(Get, cats + [c]) == CategoryQueryset(Get, cats) + (if c.isActive then [c] else [])
  {
    Seqs.FilterAppend(cats, [c], (x: Category) => x.isActive);
    Seqs.FilterSingleton(c, (x: Category) => x.isActive);
  }

  /** Moving a serviceman's profile to category `k` lists them under `k` and under no other category. */
  lemma CategoryChangeMoves(users: seq<User>, profiles: Availability.Profiles, x: User, k: CategoryId, j: CategoryId)
    requires x in users && x.userType == Serviceman && x.id in profiles
    ensures var moved := profiles[x.id := profiles[x.id].(category := Some(k))];
      && x in CategoryServicemen(users, moved, k)
      && (j != k ==> x !in CategoryServicemen(users, moved, j))
  {
  }
}
