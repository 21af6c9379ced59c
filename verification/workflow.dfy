/** The service-request workflow (apps/services/workflow_views.py): six guarded
    transitions, each a pure function from the stored state to a new state or
    an error. A rejected call returns no state, so it changes nothing. */
module Workflow {
  import opened Wrappers
  import opened Users
  import opened Services
  import opened Notifications
  import opened Availability
  import opened Decimals
  import Accounts

  /** The rows the workflow reads and writes. */
  datatype Db = Db(
    users: seq<User>,
    requests: seq<ServiceRequest>,
    profiles: Profiles,
    notifications: seq<Notification>)

  /** Why a transition was refused: 403, 404, the 400s, or an uncaught exception (500). */
  datatype Error =
    | Forbidden
    | NotFound
    | WrongStatus(current: Status)
    | MissingField
    | InvalidValue
    | ServerError

  /** Which reading of the source a handler follows: `AsWritten` runs the
      availability tracker of apps/services/signals.py and the number checks
      of apps/services/workflow_views.py exactly as they are; `Corrected`
      runs the tracker that reconciles backups too and answers bad numbers
      with a 400. */
  datatype Reading = AsWritten | Corrected

  /** A number read from the request body. `Missing` is an absent field (for the
      estimate and the rating also any value Python treats as false, such as 0);
      `Converted` holds what `Decimal(str(x))` or `int(x)` made of it;
      `Unconvertible` is a value those conversions reject. */
  datatype Entry<T> = Missing | Converted(value: T) | Unconvertible

  // ---------------------------------------------------------------- input

  /** The estimate check as written: a bad value raises `ValueError` or
      `InvalidOperation`, and evaluating the `except` clause then raises
      `NameError`, because the module imports only `Decimal`, not `decimal`. */
  function ParseEstimateAsWritten(e: Entry<real>): (r: Result<real, Error>)
    ensures e.Missing? ==> r == Failure(MissingField)
    ensures r.Success? <==> e.Converted? && e.value > 0.0
    ensures r.Success? ==> r.value == e.value
    ensures e.Unconvertible? || (e.Converted? && e.value <= 0.0) ==> r == Failure(ServerError)
  {
    match e
    case Missing => Failure(MissingField)
    case Unconvertible => Failure(ServerError)
    case Converted(v) => if v <= 0.0 then Failure(ServerError) else Success(v)
  }

  /** The estimate check as intended: a non-positive or non-numeric estimate is a 400. */
  function ParseEstimate(e: Entry<real>): (r: Result<real, Error>)
    ensures e.Missing? ==> r == Failure(MissingField)
    ensures r.Success? <==> e.Converted? && e.value > 0.0
    ensures r.Success? ==> r.value == e.value
    ensures e.Unconvertible? || (e.Converted? && e.value <= 0.0) ==> r == Failure(InvalidValue)
  {
    match e
    case Missing => Failure(MissingField)
    case Unconvertible => Failure(InvalidValue)
    case Converted(v) => if v <= 0.0 then Failure(InvalidValue) else Success(v)
  }

  /** The markup check as written: absent means 10; out of range or non-numeric
      ends in the same `NameError`. */
  function ParseMarkupAsWritten(e: Entry<real>): (r: Result<real, Error>)
    ensures e.Missing? ==> r == Success(DefaultMarkup)
    ensures e.Converted? ==> (r.Success? <==> 0.0 <= e.value <= 100.0)
    ensures e.Converted? && r.Success? ==> r.value == e.value
    ensures r.Failure? ==> r.error == ServerError
  {
    match e
    case Missing => Success(DefaultMarkup)
    case Unconvertible => Failure(ServerError)
    case Converted(m) => if m < 0.0 || m > 100.0 then Failure(ServerError) else Success(m)
  }

  /** The markup check as intended: a bad markup is a 400. */
  function ParseMarkup(e: Entry<real>): (r: Result<real, Error>)
    ensures e.Missing? ==> r == Success(DefaultMarkup)
    ensures e.Converted? ==> (r.Success? <==> 0.0 <= e.value <= 100.0)
    ensures e.Converted? && r.Success? ==> r.value == e.value
    ensures r.Success? ==> 0.0 <= r.value <= 100.0
    ensures r.Failure? ==> r.error == InvalidValue
  {
    match e
    case Missing => Success(DefaultMarkup)
    case Unconvertible => Failure(InvalidValue)
    case Converted(m) => if m < 0.0 || m > 100.0 then Failure(InvalidValue) else Success(m)
  }

  /** The written and the intended checks accept the same inputs and differ
      only in how they refuse: a server error instead of a 400. */
  lemma ParsersDifferOnlyInErrorCode(e: Entry<real>)
    ensures ParseEstimateAsWritten(e).Success? <==> ParseEstimate(e).Success?
    ensures ParseEstimate(e).Success? ==> ParseEstimateAsWritten(e) == ParseEstimate(e)
    ensures ParseEstimateAsWritten(e) != ParseEstimate(e) ==>
      ParseEstimateAsWritten(e) == Failure(ServerError) && ParseEstimate(e) == Failure(InvalidValue)
    ensures ParseMarkupAsWritten(e).Success? <==> ParseMarkup(e).Success?
    ensures ParseMarkupAsWritten(e) != ParseMarkup(e) ==>
      ParseMarkupAsWritten(e) == Failure(ServerError) && ParseMarkup(e) == Failure(InvalidValue)
  {
  }

  /** A negative estimate and a 150% markup each end in a server error as
      written, where a 400 was meant. */
  lemma BadNumbersAreServerErrors()
    ensures ParseEstimateAsWritten(Converted(-5.0)) == Failure(ServerError)
    ensures ParseEstimate(Converted(-5.0)) == Failure(InvalidValue)
    ensures ParseMarkupAsWritten(Converted(150.0)) == Failure(ServerError)
    ensures ParseMarkup(Converted(150.0)) == Failure(InvalidValue)
  {
  }

  /** The estimate check the reading selects. */
  function EstimateParser(v: Reading, e: Entry<real>): Result<real, Error> {
    if v == AsWritten then ParseEstimateAsWritten(e) else ParseEstimate(e)
  }

  /** The markup check the reading selects. */
  function MarkupParser(v: Reading, e: Entry<real>): Result<real, Error> {
    if v == AsWritten then ParseMarkupAsWritten(e) else ParseMarkup(e)
  }

  /** The code a refused number gets under each reading. */
  function BadNumber(v: Reading): Error {
    if v == AsWritten then ServerError else InvalidValue
  }

  /** The rating check: `int(x)` in 1..5; a rating of 0 sent as a number is missing. */
  function ParseRating(e: Entry<int>): (r: Result<int, Error>)
    ensures e.Missing? ==> r == Failure(MissingField)
    ensures r.Success? <==> e.Converted? && 1 <= e.value <= 5
    ensures r.Success? ==> r.value == e.value
    ensures e.Unconvertible? || (e.Converted? && !(1 <= e.value <= 5)) ==> r == Failure(InvalidValue)
  {
    match e
    case Missing => Failure(MissingField)
    case Unconvertible => Failure(InvalidValue)
    case Converted(v) => if v < 1 || v > 5 then Failure(InvalidValue) else Success(v)
  }

  // ---------------------------------------------------------------- pricing and rating

  /** `base * (markup / 100)`: the platform's share. */
  function PlatformFee(base: real, markup: real): real {
    base * (markup / 100.0)
  }

  /** A markup of at most 100% never charges more than the base again. */
  lemma FeeAtMostBase(base: real, markup: real)
    ensures base >= 0.0 && markup <= 100.0 ==> PlatformFee(base, markup) <= base
  {
    if base >= 0.0 && markup <= 100.0 {
      assert base * (1.0 - markup / 100.0) >= 0.0;
    }
  }

  /** `final_cost = base + base * (markup / 100)`. */
  function FinalPrice(base: real, markup: real): real {
    base + PlatformFee(base, markup)
  }

  /** The final price never undercuts the estimate, equals it at 0%, at most
      doubles it at 100%, and the stored markup can be read back from it. */
  lemma FinalPriceBounds(base: real, markup: real)
    ensures base >= 0.0 && markup >= 0.0 ==> FinalPrice(base, markup) >= base
    ensures markup == 0.0 ==> FinalPrice(base, markup) == base
    ensures base >= 0.0 && markup <= 100.0 ==> FinalPrice(base, markup) <= 2.0 * base
    ensures base != 0.0 ==> (FinalPrice(base, markup) - base) * 100.0 / base == markup
  {
    FeeAtMostBase(base, markup);
  }

  /** The new average `round(((r * (n - 1)) + s) / n, 2)` after the `n`-th job's score `s`. */
  function FoldRating(current: real, n: int, score: int): (r: real)
    requires n > 0
    ensures IsCents(r)
  {
    RoundHalfEven2((current * (n - 1) as real + score as real) / n as real)
  }

  /** After the first job the rating is exactly that job's score. */
  lemma FoldRatingFirstJob(current: real, score: int)
    ensures FoldRating(current, 1, score) == score as real
  {
    var s := score as real;
    assert (current * 0.0 + s) / 1.0 == s;
    assert IsCents(s) by {
      assert s * 100.0 == (score * 100) as real;
    }
  }

  /** The new rating lies between the old rating and the new score, so a
      rating kept within 0..5 stays there and fits its three-digit column. */
  lemma FoldRatingBetween(current: real, n: int, score: int)
    requires n > 0 && IsCents(current)
    ensures current <= score as real ==> current <= FoldRating(current, n, score) <= score as real
    ensures score as real <= current ==> score as real <= FoldRating(current, n, score) <= current
  {
    var s := score as real;
    var mean := (current * (n - 1) as real + s) / n as real;
    assert IsCents(s) by {
      assert s * 100.0 == (score * 100) as real;
    }
    MeanBetween(current, s, n);
    if current <= s {
      RoundStaysBetween(mean, current, s);
    } else {
      RoundStaysBetween(mean, s, current);
    }
  }

  /** A weighted mean of two values lies between them. */
  lemma MeanBetween(c: real, s: real, n: int)
    requires n > 0
    ensures var mean := (c * (n - 1) as real + s) / n as real;
      (c <= s ==> c <= mean <= s) && (s <= c ==> s <= mean <= c)
  {
    var k := n as real;
    var mean := (c * (n - 1) as real + s) / k;
    assert mean * k == c * (k - 1.0) + s;
    assert mean - c == (s - c) / k;
    assert s - mean == (s - c) * (k - 1.0) / k;
  }

  /** Three reviews of 5, 3 and 4 after the first three jobs average to 4.00. */
  lemma FoldRatingScenario()
    ensures FoldRating(0.0, 1, 5) == 5.0
    ensures FoldRating(5.0, 2, 3) == 4.0
    ensures FoldRating(4.0, 3, 4) == 4.0
  {
    assert IsCents(4.0);
    assert (5.0 * 1.0 + 3.0) / 2.0 == 4.0;
    assert (4.0 * 2.0 + 4.0) / 3.0 == 4.0;
  }

  // ---------------------------------------------------------------- shared steps

  /** The guard every handler opens with: the caller's role (403), then the
      lookup by primary key (404). */
  function Locate(db: Db, actor: User, role: UserType, pk: RequestId): (r: Result<nat, Error>)
    ensures actor.userType != role ==> r == Failure(Forbidden)
    ensures actor.userType == role && FindRequest(db.requests, pk).None? ==> r == Failure(NotFound)
    ensures r.Success? <==> actor.userType == role && FindRequest(db.requests, pk).Some?
    ensures r.Success? ==> r == Success(FindRequest(db.requests, pk).value) && r.value < |db.requests|
  {
    if actor.userType != role then Failure(Forbidden)
    else match FindRequest(db.requests, pk)
      case None => Failure(NotFound)
      case Some(i) => Success(i)
  }

  /** The availability tracker the reading selects, run on the saved rows `rs'`
      for `after` replacing `before`. */
  function Track(users: seq<User>, rs': seq<ServiceRequest>, profiles: Profiles,
                 before: ServiceRequest, after: ServiceRequest, v: Reading): Option<Profiles> {
    match v
    case AsWritten => UpdateAvailabilityAsWritten(users, rs', profiles, Some(before.status), before.serviceman, after)
    case Corrected => UpdateAvailability(users, rs', profiles, Some(before), after)
  }

  /** `service_request.save()`: stores `q` at position `i` and runs the
      availability tracker, whose failure aborts the transaction. A quiet save
      leaves every profile as it was under either reading. */
  function Save(db: Db, i: nat, q: ServiceRequest, v: Reading): (r: Result<Db, Error>)
    requires i < |db.requests|
    ensures r.Failure? ==> r.error == ServerError
    ensures Quiet(db.requests[i], q) ==> r == Success(db.(requests := db.requests[i := q]))
    ensures v == Corrected && SameOccupancy(db.requests[i], q) ==> r == Success(db.(requests := db.requests[i := q]))
    ensures r.Success? ==>
      && r.value.users == db.users && r.value.notifications == db.notifications
      && r.value.requests == db.requests[i := q]
      && AvailabilityOnly(db.profiles, r.value.profiles)
  {
    var rs' := db.requests[i := q];
    var tracked := Track(db.users, rs', db.profiles, db.requests[i], q, v);
    assert Quiet(db.requests[i], q) ==> tracked == Some(db.profiles) by {
      if Quiet(db.requests[i], q) {
        QuietSaveUntracked(db.users, rs', db.profiles, db.requests[i], q);
      }
    }
    match tracked
    case None => Failure(ServerError)
    case Some(p) => Success(db.(requests := rs', profiles := p))
  }

  /** Positions other than `i` and the users are untouched, and notifications only grow. */
  ghost predicate Frame(db: Db, db': Db, i: nat) {
    && db'.users == db.users
    && |db'.requests| == |db.requests|
    && (forall j :: 0 <= j < |db.requests| && j != i ==> db'.requests[j] == db.requests[j])
    && db.notifications <= db'.notifications
  }

  // ---------------------------------------------------------------- the handlers

  /** The checks `ServicemanSubmitEstimateView.post` makes before it writes:
      role, lookup, assignment to the primary slot, status, then the estimate.
      On success, the request's position and the estimate. */
  function EstimateChecks(db: Db, actor: User, pk: RequestId, estimate: Entry<real>, v: Reading): (r: Result<(nat, real), Error>)
    ensures actor.userType != Serviceman ==> r == Failure(Forbidden)
    ensures actor.userType == Serviceman && FindRequest(db.requests, pk).None? ==> r == Failure(NotFound)
    ensures actor.userType == Serviceman && FindRequest(db.requests, pk).Some? ==>
      var q := db.requests[FindRequest(db.requests, pk).value];
      && (q.serviceman != Some(actor.id) ==> r == Failure(Forbidden))
      && (q.serviceman == Some(actor.id) && q.status != PendingEstimation ==> r == Failure(WrongStatus(q.status)))
      && (q.serviceman == Some(actor.id) && q.status == PendingEstimation && r.Failure? ==>
            r.error == (if estimate.Missing? then MissingField else BadNumber(v)))
    ensures r.Success? <==>
      && actor.userType == Serviceman && FindRequest(db.requests, pk).Some?
      && var q := db.requests[FindRequest(db.requests, pk).value];
      && q.serviceman == Some(actor.id) && q.status == PendingEstimation
      && estimate.Converted? && estimate.value > 0.0
    ensures r.Success? ==> r.value == (FindRequest(db.requests, pk).value, estimate.value) && r.value.0 < |db.requests|
  {
    var i :- Locate(db, actor, Serviceman, pk);
    var q := db.requests[i];
    if q.serviceman != Some(actor.id) then Failure(Forbidden)
    else if q.status != PendingEstimation then Failure(WrongStatus(q.status))
    else
      var cost :- EstimateParser(v, estimate);
      Success((i, cost))
  }

  /** `ServicemanSubmitEstimateView.post`: records the estimate, moves the
      request to ESTIMATION_SUBMITTED and alerts every administrator. The
      column keeps two places; the message quotes the estimate as sent. */
  function SubmitEstimate(db: Db, actor: User, pk: RequestId, estimate: Entry<real>, now: int, v: Reading): (r: Result<Db, Error>)
    ensures r.Failure? <==> EstimateChecks(db, actor, pk, estimate, v).Failure?
    ensures r.Failure? ==> r.error == EstimateChecks(db, actor, pk, estimate, v).error
    ensures r.Success? ==>
      var (i, cost) := EstimateChecks(db, actor, pk, estimate, v).value;
      && Frame(db, r.value, i) && r.value.profiles == db.profiles
      && r.value.requests[i] == db.requests[i].(estimatedCost := Some(StoreCents(cost)), status := EstimationSubmitted, updatedAt := now)
      && IsCents(r.value.requests[i].estimatedCost.value)
      && Abs(r.value.requests[i].estimatedCost.value - cost) <= 0.005
      && r.value.notifications == db.notifications + NotifyAdmins(db.users, Rendered(EstimateSubmitted(cost)), Some(pk), now)
  {
    var (i, cost) :- EstimateChecks(db, actor, pk, estimate, v);
    var q := db.requests[i];
    var q' := q.(estimatedCost := Some(StoreCents(cost)), status := EstimationSubmitted, updatedAt := now);
    match Save(db, i, q', v)
    case Failure(e) => Failure(e)
    case Success(db1) =>
      Success(db1.(notifications := db1.notifications + NotifyAdmins(db.users, Rendered(EstimateSubmitted(cost)), Some(pk), now)))
  }

  /** `if not service_request.serviceman_estimated_cost`: absent and zero both fail. */
  predicate HasEstimate(q: ServiceRequest) {
    q.estimatedCost.Some? && q.estimatedCost.value != 0.0
  }

  /** The checks `AdminFinalizePriceView.post` makes before it writes: role,
      lookup, status, a stored estimate, then the markup. On success, the
      request's position and the markup to apply. */
  function FinalizeChecks(db: Db, actor: User, pk: RequestId, markup: Entry<real>, v: Reading): (r: Result<(nat, real), Error>)
    ensures actor.userType != Admin ==> r == Failure(Forbidden)
    ensures actor.userType == Admin && FindRequest(db.requests, pk).None? ==> r == Failure(NotFound)
    ensures actor.userType == Admin && FindRequest(db.requests, pk).Some? ==>
      var q := db.requests[FindRequest(db.requests, pk).value];
      && (q.status != EstimationSubmitted ==> r == Failure(WrongStatus(q.status)))
      && (q.status == EstimationSubmitted && !HasEstimate(q) ==> r == Failure(MissingField))
      && (q.status == EstimationSubmitted && HasEstimate(q) && r.Failure? ==> r == Failure(BadNumber(v)))
    ensures r.Success? <==>
      && actor.userType == Admin && FindRequest(db.requests, pk).Some?
      && var q := db.requests[FindRequest(db.requests, pk).value];
      && q.status == EstimationSubmitted && HasEstimate(q)
      && ParseMarkup(markup).Success?
    ensures r.Success? ==>
      && r.value == (FindRequest(db.requests, pk).value, ParseMarkup(markup).value) && r.value.0 < |db.requests|
      && 0.0 <= r.value.1 <= 100.0
  {
    var i :- Locate(db, actor, Admin, pk);
    var q := db.requests[i];
    if q.status != EstimationSubmitted then Failure(WrongStatus(q.status))
    else if !HasEstimate(q) then Failure(MissingField)
    else
      var m :- MarkupParser(v, markup);
      Success((i, m))
  }

  /** `AdminFinalizePriceView.post`: stores the markup and the final price,
      each kept to two places by its column, moves the request to
      AWAITING_CLIENT_APPROVAL and asks the client to pay. The price is
      worked out from the markup as sent, and the message quotes the
      unrounded amounts. */
  function FinalizePrice(db: Db, actor: User, pk: RequestId, markup: Entry<real>, now: int, v: Reading): (r: Result<Db, Error>)
    ensures r.Failure? <==> FinalizeChecks(db, actor, pk, markup, v).Failure?
    ensures r.Failure? ==> r.error == FinalizeChecks(db, actor, pk, markup, v).error
    ensures r.Success? ==>
      var (i, m) := FinalizeChecks(db, actor, pk, markup, v).value;
      var q := db.requests[i];
      var base := q.estimatedCost.value;
      && Frame(db, r.value, i) && r.value.profiles == db.profiles
      && r.value.requests[i] == q.(markupPercentage := StoreCents(m), finalCost := Some(StoreCents(FinalPrice(base, m))),
                                   status := AwaitingClientApproval, updatedAt := now)
      && IsCents(r.value.requests[i].markupPercentage) && IsCents(r.value.requests[i].finalCost.value)
      && r.value.notifications == db.notifications
           + NotifyUser(q.client, Rendered(PriceReady(base, PlatformFee(base, m), FinalPrice(base, m))), PaymentRequest, Some(pk), now)
  {
    var (i, m) :- FinalizeChecks(db, actor, pk, markup, v);
    var q := db.requests[i];
    var base := q.estimatedCost.value;
    var total := FinalPrice(base, m);
    var q' := q.(markupPercentage := StoreCents(m), finalCost := Some(StoreCents(total)), status := AwaitingClientApproval, updatedAt := now);
    match Save(db, i, q', v)
    case Failure(e) => Failure(e)
    case Success(db1) =>
      Success(db1.(notifications := db1.notifications
                   + NotifyUser(q.client, Rendered(PriceReady(base, PlatformFee(base, m), total)), PaymentRequest, Some(pk), now)))
  }

  /** The checks `AdminAuthorizeWorkView.post` makes before it writes: role,
      lookup, status, an assigned serviceman. On success, the request's position. */
  function AuthorizeChecks(db: Db, actor: User, pk: RequestId): (r: Result<nat, Error>)
    ensures actor.userType != Admin ==> r == Failure(Forbidden)
    ensures actor.userType == Admin && FindRequest(db.requests, pk).None? ==> r == Failure(NotFound)
    ensures actor.userType == Admin && FindRequest(db.requests, pk).Some? ==>
      var q := db.requests[FindRequest(db.requests, pk).value];
      && (q.status != PaymentCompleted ==> r == Failure(WrongStatus(q.status)))
      && (q.status == PaymentCompleted && q.serviceman.None? ==> r == Failure(MissingField))
    ensures r.Success? <==>
      && actor.userType == Admin && FindRequest(db.requests, pk).Some?
      && var q := db.requests[FindRequest(db.requests, pk).value];
      && q.status == PaymentCompleted && q.serviceman.Some?
    ensures r.Success? ==> r.value == FindRequest(db.requests, pk).value && r.value < |db.requests|
  {
    var i :- Locate(db, actor, Admin, pk);
    var q := db.requests[i];
    if q.status != PaymentCompleted then Failure(WrongStatus(q.status))
    else if q.serviceman.None? then Failure(MissingField)
    else Success(i)
  }

  /** `AdminAuthorizeWorkView.post`: moves the request to IN_PROGRESS, which
      makes its servicemen busy, and tells the serviceman and the client.
      Rendering the job amount of a request without a final cost raises after
      the save, and the transaction undoes it. */
  function AuthorizeWork(db: Db, actor: User, pk: RequestId, now: int, v: Reading): (r: Result<Db, Error>)
    ensures AuthorizeChecks(db, actor, pk).Failure? ==> r == Failure(AuthorizeChecks(db, actor, pk).error)
    ensures AuthorizeChecks(db, actor, pk).Success? ==>
      var i := AuthorizeChecks(db, actor, pk).value;
      var q := db.requests[i];
      var saved := Save(db, i, q.(status := InProgress, updatedAt := now), v);
      && (r.Success? <==> saved.Success? && q.finalCost.Some?)
      && (r.Failure? ==> r.error == ServerError)
      && (r.Success? ==>
            && Frame(db, r.value, i) && r.value.profiles == saved.value.profiles
            && AvailabilityOnly(db.profiles, r.value.profiles)
            && r.value.requests[i] == q.(status := InProgress, updatedAt := now)
            && r.value.notifications == db.notifications
                 + NotifyUser(q.serviceman.value, Rendered(WorkAuthorized), JobAssigned, Some(pk), now)
                 + NotifyUser(q.client, Rendered(WorkBegun), StatusUpdate, Some(pk), now))
  {
    var i :- AuthorizeChecks(db, actor, pk);
    var q := db.requests[i];
    var db1 :- Save(db, i, q.(status := InProgress, updatedAt := now), v);
    if q.finalCost.None? then Failure(ServerError)
    else
      Success(db1.(notifications := db1.notifications
                   + NotifyUser(q.serviceman.value, Rendered(WorkAuthorized), JobAssigned, Some(pk), now)
                   + NotifyUser(q.client, Rendered(WorkBegun), StatusUpdate, Some(pk), now)))
  }

  /** Adds one to `u`'s completed-job counter; a missing profile is skipped,
      as the bare `except` does. */
  function BumpJobs(p: Profiles, u: UserId): (p': Profiles)
    ensures p'.Keys == p.Keys
    ensures forall v :: v in p && v != u ==> p'[v] == p[v]
    ensures u in p ==> p'[u] == p[u].(totalJobsCompleted := p[u].totalJobsCompleted + 1)
  {
    if u in p then p[u := p[u].(totalJobsCompleted := p[u].totalJobsCompleted + 1)] else p
  }

  /** The checks `ServicemanCompleteJobView.post` makes before it writes:
      role, lookup, the primary slot (a backup may not finish a job), status.
      On success, the request's position. */
  function CompleteChecks(db: Db, actor: User, pk: RequestId): (r: Result<nat, Error>)
    ensures actor.userType != Serviceman ==> r == Failure(Forbidden)
    ensures actor.userType == Serviceman && FindRequest(db.requests, pk).None? ==> r == Failure(NotFound)
    ensures actor.userType == Serviceman && FindRequest(db.requests, pk).Some? ==>
      var q := db.requests[FindRequest(db.requests, pk).value];
      && (q.serviceman != Some(actor.id) ==> r == Failure(Forbidden))
      && (q.serviceman == Some(actor.id) && q.status != InProgress ==> r == Failure(WrongStatus(q.status)))
    ensures r.Success? <==>
      && actor.userType == Serviceman && FindRequest(db.requests, pk).Some?
      && var q := db.requests[FindRequest(db.requests, pk).value];
      && q.serviceman == Some(actor.id) && q.status == InProgress
    ensures r.Success? ==> r.value == FindRequest(db.requests, pk).value && r.value < |db.requests|
  {
    var i :- Locate(db, actor, Serviceman, pk);
    var q := db.requests[i];
    if q.serviceman != Some(actor.id) then Failure(Forbidden)
    else if q.status != InProgress then Failure(WrongStatus(q.status))
    else Success(i)
  }

  /** `ServicemanCompleteJobView.post`: moves the request to COMPLETED, stamps
      the completion time, counts the job for the serviceman and alerts every
      administrator. */
  function CompleteJob(db: Db, actor: User, pk: RequestId, now: int, v: Reading): (r: Result<Db, Error>)
    ensures CompleteChecks(db, actor, pk).Failure? ==> r == Failure(CompleteChecks(db, actor, pk).error)
    ensures CompleteChecks(db, actor, pk).Success? ==>
      var i := CompleteChecks(db, actor, pk).value;
      var q := db.requests[i];
      var saved := Save(db, i, q.(status := Completed, workCompletedAt := Some(now), updatedAt := now), v);
      && (r.Success? <==> saved.Success?)
      && (r.Failure? ==> r.error == ServerError)
      && (r.Success? ==>
            && Frame(db, r.value, i)
            && r.value.requests[i] == q.(status := Completed, workCompletedAt := Some(now), updatedAt := now)
            && r.value.profiles == BumpJobs(saved.value.profiles, actor.id)
            && r.value.notifications == db.notifications + NotifyAdmins(db.users, Rendered(JobFinished), Some(pk), now))
  {
    var i :- CompleteChecks(db, actor, pk);
    var q := db.requests[i];
    var db1 :- Save(db, i, q.(status := Completed, workCompletedAt := Some(now), updatedAt := now), v);
    Success(db1.(profiles := BumpJobs(db1.profiles, actor.id),
                 notifications := db1.notifications + NotifyAdmins(db.users, Rendered(JobFinished), Some(pk), now)))
  }

  /** `AdminConfirmCompletionView.post`: tells the client; the request stays
      COMPLETED. The message names the serviceman, so a request without one raises. */
  function ConfirmCompletion(db: Db, actor: User, pk: RequestId, now: int): (r: Result<Db, Error>)
    ensures actor.userType != Admin ==> r == Failure(Forbidden)
    ensures actor.userType == Admin && FindRequest(db.requests, pk).None? ==> r == Failure(NotFound)
    ensures r.Success? <==>
      && actor.userType == Admin && FindRequest(db.requests, pk).Some?
      && var q := db.requests[FindRequest(db.requests, pk).value];
      && q.status == Completed && q.serviceman.Some?
    ensures actor.userType == Admin && FindRequest(db.requests, pk).Some? ==>
      var q := db.requests[FindRequest(db.requests, pk).value];
      && (q.status != Completed ==> r == Failure(WrongStatus(q.status)))
      && (q.status == Completed && q.serviceman.None? ==> r == Failure(ServerError))
    ensures r.Success? ==>
      var q := db.requests[FindRequest(db.requests, pk).value];
      r.value == db.(notifications := db.notifications + NotifyUser(q.client, Rendered(CompletionConfirmed), JobCompleted, Some(pk), now))
  {
    var i :- Locate(db, actor, Admin, pk);
    var q := db.requests[i];
    if q.status != Completed then Failure(WrongStatus(q.status))
    else if q.serviceman.None? then Failure(ServerError)
    else Success(db.(notifications := db.notifications + NotifyUser(q.client, Rendered(CompletionConfirmed), JobCompleted, Some(pk), now)))
  }

  /** Folds a review score into the serviceman's rating when they have a
      profile and at least one completed job; otherwise nothing changes (a
      missing profile is logged and swallowed). */
  function ApplyReview(p: Profiles, serviceman: Option<UserId>, score: int): (p': Profiles)
    ensures p'.Keys == p.Keys
    ensures forall v :: v in p && Some(v) != serviceman ==> p'[v] == p[v]
    ensures serviceman.Some? && serviceman.value in p ==>
      var before := p[serviceman.value];
      && (before.totalJobsCompleted <= 0 ==> p'[serviceman.value] == before)
      && (before.totalJobsCompleted > 0 ==>
            p'[serviceman.value] == before.(rating := FoldRating(before.rating, before.totalJobsCompleted, score)))
  {
    match serviceman
    case None => p
    case Some(s) =>
      if s in p && p[s].totalJobsCompleted > 0 then
        p[s := p[s].(rating := FoldRating(p[s].rating, p[s].totalJobsCompleted, score))]
      else p
  }

  /** The notifications a review produces: the serviceman's, if there is one, then the administrators'. */
  function ReviewNotifications(users: seq<User>, serviceman: Option<UserId>, stars: int, pk: RequestId, now: int): seq<Notification> {
    (if serviceman.Some? then NotifyUser(serviceman.value, Rendered(ReviewGiven(stars)), ReviewReceived, Some(pk), now) else [])
    + NotifyAdmins(users, Rendered(ReviewReported(stars)), Some(pk), now)
  }

  /** The checks `ClientSubmitReviewView.post` makes before it writes: role,
      lookup, ownership, status, then the score. On success, the request's
      position and the score. */
  function ReviewChecks(db: Db, actor: User, pk: RequestId, rating: Entry<int>): (r: Result<(nat, int), Error>)
    ensures actor.userType != Client ==> r == Failure(Forbidden)
    ensures actor.userType == Client && FindRequest(db.requests, pk).None? ==> r == Failure(NotFound)
    ensures actor.userType == Client && FindRequest(db.requests, pk).Some? ==>
      var q := db.requests[FindRequest(db.requests, pk).value];
      && (q.client != actor.id ==> r == Failure(Forbidden))
      && (q.client == actor.id && q.status != Completed ==> r == Failure(WrongStatus(q.status)))
      && (q.client == actor.id && q.status == Completed && r.Failure? ==>
            ParseRating(rating).Failure? && r.error == ParseRating(rating).error)
    ensures r.Success? <==>
      && actor.userType == Client && FindRequest(db.requests, pk).Some?
      && var q := db.requests[FindRequest(db.requests, pk).value];
      && q.client == actor.id && q.status == Completed
      && rating.Converted? && 1 <= rating.value <= 5
    ensures r.Success? ==> r.value == (FindRequest(db.requests, pk).value, rating.value) && r.value.0 < |db.requests|
  {
    var i :- Locate(db, actor, Client, pk);
    var q := db.requests[i];
    if q.client != actor.id then Failure(Forbidden)
    else if q.status != Completed then Failure(WrongStatus(q.status))
    else
      var stars :- ParseRating(rating);
      Success((i, stars))
  }

  /** `ClientSubmitReviewView.post`: moves the request to CLIENT_REVIEWED,
      folds the score into the serviceman's rating and tells the serviceman
      and every administrator. */
  function SubmitReview(db: Db, actor: User, pk: RequestId, rating: Entry<int>, now: int, v: Reading): (r: Result<Db, Error>)
    ensures r.Failure? <==> ReviewChecks(db, actor, pk, rating).Failure?
    ensures r.Failure? ==> r.error == ReviewChecks(db, actor, pk, rating).error
    ensures r.Success? ==>
      var (i, stars) := ReviewChecks(db, actor, pk, rating).value;
      var q := db.requests[i];
      && Frame(db, r.value, i)
      && r.value.requests[i] == q.(status := ClientReviewed, updatedAt := now)
      && r.value.profiles == ApplyReview(db.profiles, q.serviceman, stars)
      && r.value.notifications == db.notifications + ReviewNotifications(db.users, q.serviceman, stars, pk, now)
  {
    var (i, stars) :- ReviewChecks(db, actor, pk, rating);
    var q := db.requests[i];
    var q' := q.(status := ClientReviewed, updatedAt := now);
    assert q.status == Completed && Quiet(q, q');
    match Save(db, i, q', v)
    case Failure(e) => Failure(e)
    case Success(db1) =>
      Success(db1.(profiles := ApplyReview(db1.profiles, q.serviceman, stars),
                   notifications := db1.notifications + ReviewNotifications(db.users, q.serviceman, stars, pk, now)))
  }

  // ---------------------------------------------------------------- the lifecycle

  /** A request's place on the main line of the workflow; CANCELLED and the
      legacy statuses are off it. */
  function Stage(s: Status): (k: Option<nat>)
    ensures k.Some? <==> s in WorkflowStatuses && s != Cancelled
    ensures k.Some? ==> k.value < 8
  {
    match s
    case PendingAdminAssignment => Some(0)
    case PendingEstimation => Some(1)
    case EstimationSubmitted => Some(2)
    case AwaitingClientApproval => Some(3)
    case PaymentCompleted => Some(4)
    case InProgress => Some(5)
    case Completed => Some(6)
    case ClientReviewed => Some(7)
    case _ => None
  }

  predicate AtLeast(s: Status, k: nat) {
    Stage(s).Some? && Stage(s).value >= k
  }

  /** What the handlers keep true of every request: stored money has two
      places and is never negative; from PENDING_ESTIMATION on a serviceman
      is assigned; an estimate exists exactly from ESTIMATION_SUBMITTED on and
      a final price exactly from AWAITING_CLIENT_APPROVAL on, where the
      estimate is positive and the price no lower than it. */
  ghost predicate WellPriced(q: ServiceRequest) {
    && IsCents(q.markupPercentage)
    && (q.estimatedCost.Some? ==> IsCents(q.estimatedCost.value) && q.estimatedCost.value >= 0.0)
    && (q.finalCost.Some? ==> IsCents(q.finalCost.value))
    && (AtLeast(q.status, 1) ==> q.serviceman.Some?)
    && (AtLeast(q.status, 2) ==> q.estimatedCost.Some?)
    && (AtLeast(q.status, 3) ==>
          && q.estimatedCost.Some? && q.estimatedCost.value > 0.0
          && q.finalCost.Some? && q.finalCost.value >= q.estimatedCost.value)
    && (Stage(q.status).Some? && Stage(q.status).value < 2 ==> q.estimatedCost.None?)
    && (Stage(q.status).Some? && Stage(q.status).value < 3 ==> q.finalCost.None?)
  }

  /** Every serviceman account has its profile, as the profile handler creates it. */
  ghost predicate ProfilesPresent(users: seq<User>, profiles: Profiles) {
    forall u :: IsServicemanUser(users, u) ==> u in profiles
  }

  /** Every assigned primary serviceman is a serviceman account. */
  ghost predicate AssignedServicemen(users: seq<User>, rs: seq<ServiceRequest>) {
    forall i :: 0 <= i < |rs| && rs[i].serviceman.Some? ==> IsServicemanUser(users, rs[i].serviceman.value)
  }

  /** Every rating is a two-place value within 0..5. */
  ghost predicate RatingsSound(profiles: Profiles) {
    forall u :: u in profiles ==> IsCents(profiles[u].rating) && 0.0 <= profiles[u].rating <= 5.0
  }

  /** The part of the invariant that every handler keeps under either reading. */
  ghost predicate Wellformed(db: Db) {
    && UniqueRequestIds(db.requests)
    && ProfilesPresent(db.users, db.profiles)
    && AssignedServicemen(db.users, db.requests)
    && RatingsSound(db.profiles)
    && forall i :: 0 <= i < |db.requests| ==> WellPriced(db.requests[i])
  }

  /** Every availability flag agrees with the active jobs. */
  ghost predicate Agrees(db: Db) {
    Consistent(db.users, db.requests, db.profiles)
  }

  ghost predicate Invariant(db: Db) {
    Wellformed(db) && Agrees(db)
  }

  /** `q` has no backup serviceman and is not soft-deleted: the requests on
      which the tracker as written does what the corrected one does. */
  predicate PrimaryOnly(q: ServiceRequest) {
    q.backupServiceman.None? && !q.isDeleted
  }

  ghost predicate PrimariesOnly(db: Db) {
    forall i :: 0 <= i < |db.requests| ==> PrimaryOnly(db.requests[i])
  }

  /** Saving a well-priced request, staffed by a serviceman account, under its
      own key always succeeds and keeps the request and profile facts; the
      corrected tracker also keeps every flag in agreement. */
  lemma SaveKeepsInvariant(db: Db, i: nat, q': ServiceRequest, v: Reading)
    requires Wellformed(db) && i < |db.requests|
    requires q'.id == db.requests[i].id && WellPriced(q')
    requires q'.serviceman.Some? ==> IsServicemanUser(db.users, q'.serviceman.value)
    ensures Save(db, i, q', v).Success? && Wellformed(Save(db, i, q', v).value)
    ensures v == Corrected && Agrees(db) ==> Invariant(Save(db, i, q', v).value)
  {
    var rs' := db.requests[i := q'];
    SaveSucceeds(db, i, q', v);
    var db' := Save(db, i, q', v).value;
    assert db'.users == db.users && db'.requests == rs';
    assert UniqueRequestIds(rs') by {
      assert forall j :: 0 <= j < |rs'| ==> rs'[j].id == db.requests[j].id;
    }
    assert AssignedServicemen(db.users, rs');
    assert AvailabilityOnly(db.profiles, db'.profiles);
    assert ProfilesPresent(db.users, db'.profiles);
    assert RatingsSound(db'.profiles);
    assert forall j :: 0 <= j < |rs'| ==> WellPriced(rs'[j]);
    if v == Corrected && Agrees(db) {
      UpdateAvailabilityKeepsConsistent(db.users, db.requests, db.profiles, i, q');
    }
  }

  /** With every serviceman account holding a profile and `q'` staffed by a
      serviceman account, neither tracker fails. */
  lemma SaveSucceeds(db: Db, i: nat, q': ServiceRequest, v: Reading)
    requires i < |db.requests| && ProfilesPresent(db.users, db.profiles)
    requires q'.serviceman.Some? ==> IsServicemanUser(db.users, q'.serviceman.value)
    ensures Save(db, i, q', v).Success?
  {
    var q := db.requests[i];
    match v
    case AsWritten =>
      assert !Tracked(db.users, q'.serviceman) || q'.serviceman.value in db.profiles;
      assert !Tracked(db.users, q.serviceman) || q.serviceman.value in db.profiles;
    case Corrected =>
      var us := Involved(Some(q), q');
      assert forall k :: 0 <= k < |us| && Tracked(db.users, us[k]) ==> us[k].value in db.profiles;
  }

  /** On a request with no backup that is not soft-deleted, the two trackers
      make the same change when work starts and when it ends. */
  lemma TrackersAgreeOnPrimaryOnly(db: Db, i: nat, q': ServiceRequest)
    requires Wellformed(db) && i < |db.requests|
    requires var q := db.requests[i];
      && q.serviceman.Some? && q'.serviceman == q.serviceman
      && PrimaryOnly(q) && PrimaryOnly(q')
      && ((q.status == PaymentCompleted && q'.status == InProgress) || (q.status == InProgress && q'.status == Completed))
    ensures Save(db, i, q', AsWritten) == Save(db, i, q', Corrected)
  {
    var q := db.requests[i];
    assert IsServicemanUser(db.users, q.serviceman.value) && q.serviceman.value in db.profiles;
    TrackersAgreeOnPrimary(db.users, db.requests, db.profiles, i, q');
  }

  /** A quiet save of a well-priced request keeps the invariant and is the
      same under either reading. */
  lemma QuietSaveKeepsInvariant(db: Db, i: nat, q': ServiceRequest, v: Reading)
    requires Wellformed(db) && i < |db.requests|
    requires q'.id == db.requests[i].id && WellPriced(q') && Quiet(db.requests[i], q')
    ensures Save(db, i, q', v) == Success(db.(requests := db.requests[i := q']))
    ensures Wellformed(db.(requests := db.requests[i := q']))
    ensures Agrees(db) ==> Invariant(db.(requests := db.requests[i := q']))
  {
    SaveKeepsInvariant(db, i, q', Corrected);
  }

  /** The serviceman-profile edit keeps everything but the availability part
      of the invariant, and keeps that exactly when the flag it leaves agrees
      with the serviceman's active jobs: an edit without `is_available`
      always does, one that sends the opposite of the jobs' verdict breaks it. */
  lemma ProfileUpdateKeepsInvariant(db: Db, u: UserId, upd: Accounts.ProfileUpdate, skills: Accounts.Skills,
                                    categories: set<CategoryId>)
    requires Invariant(db) && u in db.profiles && IsServicemanUser(db.users, u)
    requires Accounts.UpdateServicemanProfile(db.profiles[u], upd, skills, categories).Success?
    ensures var db' := db.(profiles := db.profiles[u := Accounts.UpdateServicemanProfile(db.profiles[u], upd, skills, categories).value]);
      && Wellformed(db')
      && (Agrees(db') <==> upd.isAvailable.None? || upd.isAvailable.value == ShouldBeAvailable(db.requests, u))
  {
    var p' := Accounts.UpdateServicemanProfile(db.profiles[u], upd, skills, categories).value;
    var db' := db.(profiles := db.profiles[u := p']);
    assert RatingsSound(db'.profiles) by {
      forall x | x in db'.profiles ensures IsCents(db'.profiles[x].rating) && 0.0 <= db'.profiles[x].rating <= 5.0 {
        if x != u { assert db'.profiles[x] == db.profiles[x]; }
      }
    }
    assert ProfilesPresent(db'.users, db'.profiles);
    if upd.isAvailable.None? || upd.isAvailable.value == ShouldBeAvailable(db.requests, u) {
      assert p'.isAvailable == ShouldBeAvailable(db.requests, u);
      assert Agrees(db') by {
        forall x | x in db'.profiles && IsServicemanUser(db'.users, x)
          ensures db'.profiles[x].isAvailable == ShouldBeAvailable(db'.requests, x)
        {
          if x != u { assert db'.profiles[x] == db.profiles[x]; }
        }
      }
    } else {
      assert db'.profiles[u].isAvailable != ShouldBeAvailable(db'.requests, u);
    }
  }

  /** Profile edits that keep keys and availability flags and leave ratings
      sound keep the invariant. */
  lemma ProfileEditKeepsInvariant(db: Db, p': Profiles)
    requires Wellformed(db)
    requires p'.Keys == db.profiles.Keys
    requires forall u :: u in p' ==> p'[u].isAvailable == db.profiles[u].isAvailable
    requires RatingsSound(p')
    ensures Wellformed(db.(profiles := p'))
    ensures Agrees(db) ==> Invariant(db.(profiles := p'))
  {
  }

  /** Recording a two-place estimate over a well-priced PENDING_ESTIMATION request. */
  lemma EstimatedWellPriced(q: ServiceRequest, cost: real, now: int)
    requires WellPriced(q) && q.status == PendingEstimation && cost > 0.0
    ensures WellPriced(q.(estimatedCost := Some(StoreCents(cost)), status := EstimationSubmitted, updatedAt := now))
    ensures Quiet(q, q.(estimatedCost := Some(StoreCents(cost)), status := EstimationSubmitted, updatedAt := now))
  {
    StoreNonNegative(cost);
  }

  /** Marking a well-priced COMPLETED request as reviewed. */
  lemma ReviewedWellPriced(q: ServiceRequest, now: int)
    requires WellPriced(q) && q.status == Completed
    ensures WellPriced(q.(status := ClientReviewed, updatedAt := now))
    ensures Quiet(q, q.(status := ClientReviewed, updatedAt := now))
  {
    assert AtLeast(q.status, 3);
  }

  /** The handlers that save without changing occupancy keep the invariant
      under either reading. */
  lemma SubmitEstimateKeepsInvariant(db: Db, actor: User, pk: RequestId, estimate: Entry<real>, now: int, v: Reading)
    requires Wellformed(db) && SubmitEstimate(db, actor, pk, estimate, now, v).Success?
    ensures Wellformed(SubmitEstimate(db, actor, pk, estimate, now, v).value)
    ensures Agrees(db) ==> Invariant(SubmitEstimate(db, actor, pk, estimate, now, v).value)
  {
    var (i, cost) := EstimateChecks(db, actor, pk, estimate, v).value;
    var q := db.requests[i];
    assert WellPriced(q);
    var q' := q.(estimatedCost := Some(StoreCents(cost)), status := EstimationSubmitted, updatedAt := now);
    EstimatedWellPriced(q, cost, now);
    QuietSaveKeepsInvariant(db, i, q', v);
    assert SubmitEstimate(db, actor, pk, estimate, now, v).value.requests == db.requests[i := q'];
  }

  /** Storing a markup of 0..100 and the price it gives over a well-priced
      ESTIMATION_SUBMITTED request with a non-zero estimate. */
  lemma FinalizedWellPriced(q: ServiceRequest, m: real, now: int)
    requires WellPriced(q) && q.status == EstimationSubmitted && HasEstimate(q) && 0.0 <= m <= 100.0
    ensures var base := q.estimatedCost.value;
      var q' := q.(markupPercentage := StoreCents(m), finalCost := Some(StoreCents(FinalPrice(base, m))),
                   status := AwaitingClientApproval, updatedAt := now);
      WellPriced(q') && Quiet(q, q')
  {
    var base := q.estimatedCost.value;
    FinalPriceBounds(base, m);
    CentsSum(base, base);
    StoreStaysBetween(FinalPrice(base, m), base, base + base);
  }

  lemma FinalizePriceKeepsInvariant(db: Db, actor: User, pk: RequestId, markup: Entry<real>, now: int, v: Reading)
    requires Wellformed(db) && FinalizePrice(db, actor, pk, markup, now, v).Success?
    ensures Wellformed(FinalizePrice(db, actor, pk, markup, now, v).value)
    ensures Agrees(db) ==> Invariant(FinalizePrice(db, actor, pk, markup, now, v).value)
  {
    var (i, m) := FinalizeChecks(db, actor, pk, markup, v).value;
    var q := db.requests[i];
    assert WellPriced(q);
    var base := q.estimatedCost.value;
    var q' := q.(markupPercentage := StoreCents(m), finalCost := Some(StoreCents(FinalPrice(base, m))),
                 status := AwaitingClientApproval, updatedAt := now);
    FinalizedWellPriced(q, m, now);
    QuietSaveKeepsInvariant(db, i, q', v);
    assert FinalizePrice(db, actor, pk, markup, now, v).value.requests == db.requests[i := q'];
  }

  /** Starting work keeps the request and profile facts under either reading;
      the flags stay in agreement under the corrected tracker, and under the
      tracker as written when the request has no backup and is not
      soft-deleted. */
  lemma AuthorizeWorkKeepsInvariant(db: Db, actor: User, pk: RequestId, now: int, v: Reading)
    requires Wellformed(db) && AuthorizeWork(db, actor, pk, now, v).Success?
    ensures Wellformed(AuthorizeWork(db, actor, pk, now, v).value)
    ensures Agrees(db) && (v == Corrected || PrimaryOnly(db.requests[FindRequest(db.requests, pk).value])) ==>
      Invariant(AuthorizeWork(db, actor, pk, now, v).value)
  {
    var i := AuthorizeChecks(db, actor, pk).value;
    var q := db.requests[i];
    var q' := q.(status := InProgress, updatedAt := now);
    TrackedSaveKeepsInvariant(db, i, q', v);
    var saved := Save(db, i, q', v).value;
    var r := AuthorizeWork(db, actor, pk, now, v).value;
    assert r == saved.(notifications := r.notifications);
    NotificationsIrrelevant(saved, r.notifications);
  }

  /** Starting or finishing work on a staffed, well-priced request keeps the
      invariant as far as the save goes: both trackers succeed, and they
      agree when the request has no backup and is not soft-deleted. */
  lemma TrackedSaveKeepsInvariant(db: Db, i: nat, q': ServiceRequest, v: Reading)
    requires Wellformed(db) && i < |db.requests|
    requires var q := db.requests[i];
      && q.serviceman.Some? && q' == q.(status := q'.status, workCompletedAt := q'.workCompletedAt, updatedAt := q'.updatedAt)
      && ((q.status == PaymentCompleted && q'.status == InProgress) || (q.status == InProgress && q'.status == Completed))
    ensures Save(db, i, q', v).Success? && Wellformed(Save(db, i, q', v).value)
    ensures Agrees(db) && (v == Corrected || PrimaryOnly(db.requests[i])) ==> Invariant(Save(db, i, q', v).value)
  {
    var q := db.requests[i];
    assert WellPriced(q) && WellPriced(q');
    assert IsServicemanUser(db.users, q.serviceman.value);
    SaveKeepsInvariant(db, i, q', v);
    if Agrees(db) {
      SaveKeepsInvariant(db, i, q', Corrected);
      if PrimaryOnly(q) {
        TrackersAgreeOnPrimaryOnly(db, i, q');
      }
    }
  }

  /** Counting a job touches neither availability nor ratings. */
  lemma BumpJobsKeepsInvariant(db: Db, u: UserId)
    requires Wellformed(db)
    ensures Wellformed(db.(profiles := BumpJobs(db.profiles, u)))
    ensures Agrees(db) ==> Invariant(db.(profiles := BumpJobs(db.profiles, u)))
  {
    ProfileEditKeepsInvariant(db, BumpJobs(db.profiles, u));
  }

  /** Finishing a job keeps the invariant as starting it does. */
  lemma CompleteJobKeepsInvariant(db: Db, actor: User, pk: RequestId, now: int, v: Reading)
    requires Wellformed(db) && CompleteJob(db, actor, pk, now, v).Success?
    ensures Wellformed(CompleteJob(db, actor, pk, now, v).value)
    ensures Agrees(db) && (v == Corrected || PrimaryOnly(db.requests[FindRequest(db.requests, pk).value])) ==>
      Invariant(CompleteJob(db, actor, pk, now, v).value)
  {
    var i := CompleteChecks(db, actor, pk).value;
    var q := db.requests[i];
    var q' := q.(status := Completed, workCompletedAt := Some(now), updatedAt := now);
    TrackedSaveKeepsInvariant(db, i, q', v);
    var saved := Save(db, i, q', v).value;
    BumpJobsKeepsInvariant(saved, actor.id);
    var bumped := saved.(profiles := BumpJobs(saved.profiles, actor.id));
    var r := CompleteJob(db, actor, pk, now, v).value;
    assert r == bumped.(notifications := r.notifications);
    NotificationsIrrelevant(bumped, r.notifications);
  }

  /** The invariant says nothing about the notification log. */
  lemma NotificationsIrrelevant(db: Db, ns: seq<Notification>)
    ensures Wellformed(db.(notifications := ns)) == Wellformed(db)
    ensures Invariant(db.(notifications := ns)) == Invariant(db)
  {
  }

  /** Folding a score into sound ratings leaves them sound. */
  lemma ApplyReviewKeepsRatingsSound(p: Profiles, serviceman: Option<UserId>, score: int)
    requires RatingsSound(p) && 1 <= score <= 5
    ensures RatingsSound(ApplyReview(p, serviceman, score))
  {
    if serviceman.Some? && serviceman.value in p && p[serviceman.value].totalJobsCompleted > 0 {
      var before := p[serviceman.value];
      FoldRatingBetween(before.rating, before.totalJobsCompleted, score);
    }
  }

  /** Whatever the request body holds, a score the rating check accepts keeps
      every rating a two-place value within 0..5 once folded in. */
  lemma ParsedRatingKeepsRatingsSound(p: Profiles, serviceman: Option<UserId>, e: Entry<int>)
    requires RatingsSound(p) && ParseRating(e).Success?
    ensures RatingsSound(ApplyReview(p, serviceman, ParseRating(e).value))
    ensures e == Converted(ParseRating(e).value)
  {
    ApplyReviewKeepsRatingsSound(p, serviceman, ParseRating(e).value);
  }

  lemma ApplyReviewKeepsInvariant(db: Db, serviceman: Option<UserId>, score: int)
    requires Wellformed(db) && 1 <= score <= 5
    ensures Wellformed(db.(profiles := ApplyReview(db.profiles, serviceman, score)))
    ensures Agrees(db) ==> Invariant(db.(profiles := ApplyReview(db.profiles, serviceman, score)))
  {
    ApplyReviewKeepsRatingsSound(db.profiles, serviceman, score);
    ProfileEditKeepsInvariant(db, ApplyReview(db.profiles, serviceman, score));
  }

  lemma SubmitReviewKeepsInvariant(db: Db, actor: User, pk: RequestId, rating: Entry<int>, now: int, v: Reading)
    requires Wellformed(db) && SubmitReview(db, actor, pk, rating, now, v).Success?
    ensures Wellformed(SubmitReview(db, actor, pk, rating, now, v).value)
    ensures Agrees(db) ==> Invariant(SubmitReview(db, actor, pk, rating, now, v).value)
  {
    var (i, stars) := ReviewChecks(db, actor, pk, rating).value;
    var q := db.requests[i];
    var q' := q.(status := ClientReviewed, updatedAt := now);
    var saved := db.(requests := db.requests[i := q']);
    assert Wellformed(saved) && (Agrees(db) ==> Invariant(saved)) by {
      assert WellPriced(q) && q.status == Completed;
      ReviewedWellPriced(q, now);
      QuietSaveKeepsInvariant(db, i, q', v);
    }
    ApplyReviewKeepsInvariant(saved, q.serviceman, stars);
    var reviewed := saved.(profiles := ApplyReview(db.profiles, q.serviceman, stars));
    var r := SubmitReview(db, actor, pk, rating, now, v).value;
    ReviewedRequest(db, actor, pk, rating, now, v);
    assert r == reviewed.(notifications := r.notifications);
    NotificationsIrrelevant(reviewed, r.notifications);
    assert Wellformed(r) && (Agrees(db) ==> Invariant(r));
  }

  /** An accepted review changes the reviewed request, the serviceman's
      rating and the log, and nothing else. */
  lemma ReviewedRequest(db: Db, actor: User, pk: RequestId, rating: Entry<int>, now: int, v: Reading)
    requires SubmitReview(db, actor, pk, rating, now, v).Success?
    ensures var (i, stars) := ReviewChecks(db, actor, pk, rating).value;
      var q := db.requests[i];
      var r := SubmitReview(db, actor, pk, rating, now, v).value;
      r == db.(requests := db.requests[i := q.(status := ClientReviewed, updatedAt := now)],
               profiles := ApplyReview(db.profiles, q.serviceman, stars),
               notifications := r.notifications)
  {
    var (i, stars) := ReviewChecks(db, actor, pk, rating).value;
    var r := SubmitReview(db, actor, pk, rating, now, v).value;
    var rs' := db.requests[i := db.requests[i].(status := ClientReviewed, updatedAt := now)];
    assert r.requests == rs' by {
      forall j | 0 <= j < |r.requests|
        ensures r.requests[j] == rs'[j]
      {
      }
    }
  }

  /** One call to one of the six endpoints. */
  datatype Action =
    | Estimate(pk: RequestId, estimate: Entry<real>)
    | Finalize(pk: RequestId, markup: Entry<real>)
    | Authorize(pk: RequestId)
    | Complete(pk: RequestId)
    | Confirm(pk: RequestId)
    | Review(pk: RequestId, rating: Entry<int>)

  function Step(db: Db, actor: User, a: Action, now: int, v: Reading): (r: Result<Db, Error>)
    ensures r.Success? ==> FindRequest(db.requests, a.pk).Some?
    ensures r.Success? ==> r.value.users == db.users && |r.value.requests| == |db.requests|
    ensures r.Success? ==> db.notifications <= r.value.notifications
    ensures r.Success? ==> forall j :: 0 <= j < |db.requests| ==>
      && r.value.requests[j].id == db.requests[j].id
      && r.value.requests[j].serviceman == db.requests[j].serviceman
      && r.value.requests[j].backupServiceman == db.requests[j].backupServiceman
      && r.value.requests[j].isDeleted == db.requests[j].isDeleted
  {
    var r := match a
      case Estimate(pk, e) => SubmitEstimate(db, actor, pk, e, now, v)
      case Finalize(pk, m) => FinalizePrice(db, actor, pk, m, now, v)
      case Authorize(pk) => AuthorizeWork(db, actor, pk, now, v)
      case Complete(pk) => CompleteJob(db, actor, pk, now, v)
      case Confirm(pk) => ConfirmCompletion(db, actor, pk, now)
      case Review(pk, rating) => SubmitReview(db, actor, pk, rating, now, v);
    assert r.Success? ==> FindRequest(db.requests, a.pk).Some? && Frame(db, r.value, FindRequest(db.requests, a.pk).value);
    if r.Success? then
      FrameKeepsStaffing(db, r.value, FindRequest(db.requests, a.pk).value);
      r
    else r
  }

  /** A write confined to row `i` that keeps that row's id, servicemen and
      deletion flag keeps them on every row. */
  lemma FrameKeepsStaffing(db: Db, db': Db, i: nat)
    requires Frame(db, db', i) && i < |db.requests|
    requires db'.requests[i].id == db.requests[i].id
    requires db'.requests[i].serviceman == db.requests[i].serviceman
    requires db'.requests[i].backupServiceman == db.requests[i].backupServiceman
    requires db'.requests[i].isDeleted == db.requests[i].isDeleted
    ensures forall j :: 0 <= j < |db.requests| ==>
      && db'.requests[j].id == db.requests[j].id
      && db'.requests[j].serviceman == db.requests[j].serviceman
      && db'.requests[j].backupServiceman == db.requests[j].backupServiceman
      && db'.requests[j].isDeleted == db.requests[j].isDeleted
  {
  }

  /** Every accepted call keeps the request and profile facts and never adds
      a backup or a soft deletion; the flags stay in agreement under the
      corrected tracker, and under the tracker as written while no request
      has a backup or is soft-deleted. */
  lemma StepKeepsInvariant(db: Db, actor: User, a: Action, now: int, v: Reading)
    requires Wellformed(db) && Step(db, actor, a, now, v).Success?
    ensures Wellformed(Step(db, actor, a, now, v).value)
    ensures PrimariesOnly(db) ==> PrimariesOnly(Step(db, actor, a, now, v).value)
    ensures Invariant(db) && (v == Corrected || PrimariesOnly(db)) ==> Invariant(Step(db, actor, a, now, v).value)
  {
    var r := Step(db, actor, a, now, v).value;
    var i := FindRequest(db.requests, a.pk).value;
    assert PrimariesOnly(db) ==> PrimaryOnly(db.requests[i]);
    match a {
      case Estimate(pk, e) => SubmitEstimateKeepsInvariant(db, actor, pk, e, now, v);
      case Finalize(pk, m) => FinalizePriceKeepsInvariant(db, actor, pk, m, now, v);
      case Authorize(pk) => AuthorizeWorkKeepsInvariant(db, actor, pk, now, v);
      case Complete(pk) => CompleteJobKeepsInvariant(db, actor, pk, now, v);
      case Confirm(pk) =>
        assert r == db.(notifications := r.notifications);
        NotificationsIrrelevant(db, r.notifications);
      case Review(pk, rating) => SubmitReviewKeepsInvariant(db, actor, pk, rating, now, v);
    }
    assert PrimariesOnly(db) ==> PrimariesOnly(r) by {
      if PrimariesOnly(db) {
        forall j | 0 <= j < |r.requests|
          ensures PrimaryOnly(r.requests[j])
        {
          assert PrimaryOnly(db.requests[j]);
        }
      }
    }
  }

  /** Servicemen X (id 1) and Y (id 2) and administrator A (id 4). */
  function TeamUsers(): seq<User> {
    [User(1, "x", "x@example.com", Serviceman, false, true),
     User(2, "y", "y@example.com", Serviceman, false, true),
     User(4, "a", "a@example.com", Admin, true, true)]
  }

  /** Request 1 of client 3, paid, with X as primary and Y as backup; both are free. */
  function TeamDb(): Db {
    var q := NewServiceRequest(1, 3, 1, 0, PaymentCompleted, 2000.0, "", "", 0)
      .(serviceman := Some(1), backupServiceman := Some(2), estimatedCost := Some(100.0), finalCost := Some(110.0));
    Db(TeamUsers(), [q], map[1 := NewServicemanProfile(1), 2 := NewServicemanProfile(2)], [])
  }

  /** The starting state holds the invariant: nobody is busy and both are free. */
  lemma TeamDbInvariant()
    ensures Invariant(TeamDb())
  {
    var db := TeamDb();
    assert forall u :: IsServicemanUser(db.users, u) <==> u == 1 || u == 2;
    assert db.profiles.Keys == {1, 2};
    assert WellPriced(db.requests[0]) by {
      assert IsCents(100.0) && IsCents(110.0) && IsCents(db.requests[0].markupPercentage);
    }
    assert ActiveCount(db.requests, 1) == 0 && ActiveCount(db.requests, 2) == 0;
  }

  /** Finding: authorizing work on a request with a backup, as written, makes
      the primary busy but leaves the backup marked available while it works
      the job. */
  lemma BackupLeftAvailableAsWritten()
    ensures var asWritten := AuthorizeWork(TeamDb(), TeamUsers()[2], 1, 5, AsWritten);
      && asWritten.Success?
      && asWritten.value.profiles[2].isAvailable && !ShouldBeAvailable(asWritten.value.requests, 2)
      && !Agrees(asWritten.value)
  {
    var db := TeamDb();
    TeamAuthorizedAsWritten();
    var r := AuthorizeWork(db, TeamUsers()[2], 1, 5, AsWritten).value;
    assert IsServicemanUser(r.users, 2);
    assert Occupies(r.requests[0], 2);
    assert ActiveCount(r.requests, 2) > 0;
  }

  /** What authorizing work in the team state stores as written: the request
      in progress, X busy, and Y's profile untouched. */
  lemma TeamAuthorizedAsWritten()
    ensures var db := TeamDb();
      var asWritten := AuthorizeWork(db, TeamUsers()[2], 1, 5, AsWritten);
      && asWritten.Success?
      && asWritten.value.users == db.users
      && asWritten.value.requests == [db.requests[0].(status := InProgress, updatedAt := 5)]
      && asWritten.value.profiles == db.profiles[1 := db.profiles[1].(isAvailable := false)]
  {
    var db := TeamDb();
    var q' := db.requests[0].(status := InProgress, updatedAt := 5);
    var rs' := db.requests[0 := q'];
    assert IsServicemanUser(db.users, 1);
    var p := UpdateAvailabilityAsWritten(db.users, rs', db.profiles, Some(PaymentCompleted), Some(1), q');
    assert p == Some(db.profiles[1 := db.profiles[1].(isAvailable := false)]);
    assert FindRequest(db.requests, 1) == Some(0);
    assert AuthorizeChecks(db, TeamUsers()[2], 1) == Success(0);
    assert Save(db, 0, q', AsWritten) == Success(db.(requests := rs', profiles := p.value));
    var r := AuthorizeWork(db, TeamUsers()[2], 1, 5, AsWritten).value;
    assert r.requests == [q'] by {
      assert |r.requests| == 1 && r.requests[0] == q';
    }
  }

  /** In the same state the corrected tracker makes both busy and keeps the invariant. */
  lemma BackupBusyWhenCorrected()
    ensures var corrected := AuthorizeWork(TeamDb(), TeamUsers()[2], 1, 5, Corrected);
      && corrected.Success? && !corrected.value.profiles[2].isAvailable && Invariant(corrected.value)
  {
    var db := TeamDb();
    TeamDbInvariant();
    var q' := db.requests[0].(status := InProgress, updatedAt := 5);
    var rs' := db.requests[0 := q'];
    assert IsServicemanUser(db.users, 2);
    assert Occupies(rs'[0], 2);
    assert ActiveCount(rs', 2) > 0;
    AuthorizeWorkKeepsInvariant(db, TeamUsers()[2], 1, 5, Corrected);
  }

  /** The status moves the workflow allows: each handler's one edge, plus
      confirmation, which leaves COMPLETED in place. */
  predicate Advances(s: Status, s': Status) {
    match s
    case PendingEstimation => s' == EstimationSubmitted
    case EstimationSubmitted => s' == AwaitingClientApproval
    case PaymentCompleted => s' == InProgress
    case InProgress => s' == Completed
    case Completed => s' == Completed || s' == ClientReviewed
    case _ => false
  }

  /** Request `i` moves along one edge of the lifecycle, never backwards and
      never off the main line, and no other request's status changes. */
  ghost predicate MovesAlong(db: Db, db': Db, i: nat) {
    && i < |db.requests| && |db'.requests| == |db.requests|
    && Advances(db.requests[i].status, db'.requests[i].status)
    && AtLeast(db'.requests[i].status, Stage(db.requests[i].status).value)
    && forall j :: 0 <= j < |db.requests| && j != i ==> db'.requests[j].status == db.requests[j].status
  }

  lemma SubmitEstimateMoves(db: Db, actor: User, pk: RequestId, e: Entry<real>, now: int, v: Reading)
    requires SubmitEstimate(db, actor, pk, e, now, v).Success?
    ensures MovesAlong(db, SubmitEstimate(db, actor, pk, e, now, v).value, FindRequest(db.requests, pk).value)
  {
    assert EstimateChecks(db, actor, pk, e, v).value.0 == FindRequest(db.requests, pk).value;
  }

  lemma FinalizePriceMoves(db: Db, actor: User, pk: RequestId, m: Entry<real>, now: int, v: Reading)
    requires FinalizePrice(db, actor, pk, m, now, v).Success?
    ensures MovesAlong(db, FinalizePrice(db, actor, pk, m, now, v).value, FindRequest(db.requests, pk).value)
  {
    assert FinalizeChecks(db, actor, pk, m, v).value.0 == FindRequest(db.requests, pk).value;
  }

  lemma AuthorizeWorkMoves(db: Db, actor: User, pk: RequestId, now: int, v: Reading)
    requires AuthorizeWork(db, actor, pk, now, v).Success?
    ensures MovesAlong(db, AuthorizeWork(db, actor, pk, now, v).value, FindRequest(db.requests, pk).value)
  {
  }

  lemma CompleteJobMoves(db: Db, actor: User, pk: RequestId, now: int, v: Reading)
    requires CompleteJob(db, actor, pk, now, v).Success?
    ensures MovesAlong(db, CompleteJob(db, actor, pk, now, v).value, FindRequest(db.requests, pk).value)
  {
  }

  lemma SubmitReviewMoves(db: Db, actor: User, pk: RequestId, rating: Entry<int>, now: int, v: Reading)
    requires SubmitReview(db, actor, pk, rating, now, v).Success?
    ensures MovesAlong(db, SubmitReview(db, actor, pk, rating, now, v).value, FindRequest(db.requests, pk).value)
  {
    assert ReviewChecks(db, actor, pk, rating).value.0 == FindRequest(db.requests, pk).value;
  }

  /** Every accepted call moves the request it names along the lifecycle. */
  lemma StepFollowsLifecycle(db: Db, actor: User, a: Action, now: int, v: Reading)
    requires Step(db, actor, a, now, v).Success?
    ensures MovesAlong(db, Step(db, actor, a, now, v).value, FindRequest(db.requests, a.pk).value)
  {
    match a
    case Estimate(pk, e) => SubmitEstimateMoves(db, actor, pk, e, now, v);
    case Finalize(pk, m) => FinalizePriceMoves(db, actor, pk, m, now, v);
    case Authorize(pk) => AuthorizeWorkMoves(db, actor, pk, now, v);
    case Complete(pk) => CompleteJobMoves(db, actor, pk, now, v);
    case Confirm(pk) =>
    case Review(pk, rating) => SubmitReviewMoves(db, actor, pk, rating, now, v);
  }

  /** An estimate below half a unit of the second place passes the check,
      is stored as 0.00, and then finalizing reports the estimate missing. */
  lemma TinyEstimateLost(db: Db, serviceman: User, admin: User, pk: RequestId, now: int, later: int, v: Reading)
    requires admin.userType == Admin
    requires SubmitEstimate(db, serviceman, pk, Converted(0.001), now, v).Success?
    ensures var db' := SubmitEstimate(db, serviceman, pk, Converted(0.001), now, v).value;
      FinalizePrice(db', admin, pk, Missing, later, v) == Failure(MissingField)
  {
    var db' := SubmitEstimate(db, serviceman, pk, Converted(0.001), now, v).value;
    var i := EstimateChecks(db, serviceman, pk, Converted(0.001), v).value.0;
    TinyStoredAsZero(0.001);
    assert forall j :: 0 <= j < |db.requests| ==> db'.requests[j].id == db.requests[j].id;
    assert FindRequest(db'.requests, pk) == Some(i);
    assert !HasEstimate(db'.requests[i]);
  }

  /** While the request and profile facts hold, authorizing work fails only
      for the caller's role, an unknown request or the wrong status, under
      either reading: the missing-serviceman, missing-price and tracker
      failures cannot happen. */
  lemma AuthorizeFailsOnlyOnGuards(db: Db, actor: User, pk: RequestId, now: int, v: Reading)
    requires Wellformed(db)
    ensures AuthorizeWork(db, actor, pk, now, v).Success? <==>
      && actor.userType == Admin && FindRequest(db.requests, pk).Some?
      && db.requests[FindRequest(db.requests, pk).value].status == PaymentCompleted
  {
    if actor.userType == Admin && FindRequest(db.requests, pk).Some? {
      var i := FindRequest(db.requests, pk).value;
      var q := db.requests[i];
      assert WellPriced(q);
      if q.status == PaymentCompleted {
        SaveKeepsInvariant(db, i, q.(status := InProgress, updatedAt := now), v);
      }
    }
  }

  /** While the request facts hold, confirming completion never crashes on a
      missing serviceman. */
  lemma ConfirmFailsOnlyOnGuards(db: Db, actor: User, pk: RequestId, now: int)
    requires Wellformed(db)
    ensures ConfirmCompletion(db, actor, pk, now).Success? <==>
      && actor.userType == Admin && FindRequest(db.requests, pk).Some?
      && db.requests[FindRequest(db.requests, pk).value].status == Completed
  {
    if actor.userType == Admin && FindRequest(db.requests, pk).Some? {
      assert WellPriced(db.requests[FindRequest(db.requests, pk).value]);
    }
  }

  /** While the request and profile facts hold, completing a job fails only
      on its guards, under either reading. */
  lemma CompleteFailsOnlyOnGuards(db: Db, actor: User, pk: RequestId, now: int, v: Reading)
    requires Wellformed(db)
    ensures CompleteJob(db, actor, pk, now, v).Success? <==> CompleteChecks(db, actor, pk).Success?
  {
    if CompleteChecks(db, actor, pk).Success? {
      var i := CompleteChecks(db, actor, pk).value;
      var q := db.requests[i];
      assert WellPriced(q);
      SaveKeepsInvariant(db, i, q.(status := Completed, workCompletedAt := Some(now), updatedAt := now), v);
    }
  }
}
