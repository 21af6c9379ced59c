/** The availability tracker (apps/services/signals.py): a serviceman is busy
    exactly while some live IN_PROGRESS request names them as primary or backup. */
module Availability {
  import opened Wrappers
  import opened Users
  import opened Services

  type Profiles = map<UserId, ServicemanProfile>

  /** `r` names `u` as its primary or its backup serviceman. */
  predicate Names(r: ServiceRequest, u: UserId) {
    r.serviceman == Some(u) || r.backupServiceman == Some(u)
  }

  /** `r` keeps its servicemen busy: in progress and not soft-deleted. */
  predicate Active(r: ServiceRequest) {
    r.status == InProgress && !r.isDeleted
  }

  predicate Occupies(r: ServiceRequest, u: UserId) {
    Names(r, u) && Active(r)
  }

  /** The `active_jobs` count: requests that occupy `u` (a request naming `u`
      in both slots is one row and counts once). */
  function ActiveCount(rs: seq<ServiceRequest>, u: UserId): (n: nat)
    ensures n <= |rs|
    ensures n == 0 <==> forall i :: 0 <= i < |rs| ==> !Occupies(rs[i], u)
  {
    if |rs| == 0 then 0
    else (if Occupies(rs[0], u) then 1 else 0) + ActiveCount(rs[1..], u)
  }

  /** `u` is a serviceman account the tracker looks after. */
  predicate Tracked(users: seq<User>, u: Option<UserId>) {
    u.Some? && IsServicemanUser(users, u.value)
  }

  /** The value `is_available` should hold for `u`. */
  function ShouldBeAvailable(rs: seq<ServiceRequest>, u: UserId): bool {
    ActiveCount(rs, u) == 0
  }

  /** `_check_and_update_availability`. A missing user or a non-serviceman is
      left alone; a serviceman account without a profile makes the profile
      lookup raise, shown as `None`. */
  function Reconcile(users: seq<User>, rs: seq<ServiceRequest>, profiles: Profiles, u: Option<UserId>): (r: Option<Profiles>)
    ensures r.None? <==> Tracked(users, u) && u.value !in profiles
    ensures r.Some? ==> r.value.Keys == profiles.Keys
    ensures r.Some? && !Tracked(users, u) ==> r.value == profiles
    ensures r.Some? && Tracked(users, u) ==>
      r.value == profiles[u.value := profiles[u.value].(isAvailable := ShouldBeAvailable(rs, u.value))]
  {
    if !Tracked(users, u) then Some(profiles)
    else if u.value !in profiles then None
    else
      var p := profiles[u.value];
      var busy := ActiveCount(rs, u.value) > 0;
      if busy && p.isAvailable then Some(profiles[u.value := p.(isAvailable := false)])
      else if !busy && !p.isAvailable then Some(profiles[u.value := p.(isAvailable := true)])
      else Some(profiles)
  }

  /** Whether `Reconcile` would save the profile: only when the stored flag is wrong. */
  predicate ReconcileWrites(users: seq<User>, rs: seq<ServiceRequest>, profiles: Profiles, u: Option<UserId>) {
    Tracked(users, u) && u.value in profiles
    && profiles[u.value].isAvailable != ShouldBeAvailable(rs, u.value)
  }

  /** Reconciling twice is reconciling once, and the second call writes nothing. */
  lemma ReconcileIdempotent(users: seq<User>, rs: seq<ServiceRequest>, profiles: Profiles, u: Option<UserId>)
    requires Reconcile(users, rs, profiles, u).Some?
    ensures var once := Reconcile(users, rs, profiles, u).value;
      && Reconcile(users, rs, once, u) == Some(once)
      && !ReconcileWrites(users, rs, once, u)
  {
  }

  /** Reconciles each of `us` in turn. */
  function ReconcileAll(users: seq<User>, rs: seq<ServiceRequest>, profiles: Profiles, us: seq<Option<UserId>>): (r: Option<Profiles>)
    ensures r.None? <==> exists k :: 0 <= k < |us| && Tracked(users, us[k]) && us[k].value !in profiles
    ensures r.Some? ==> r.value.Keys == profiles.Keys
    ensures r.Some? ==> forall v :: v in profiles && Some(v) !in us ==> r.value[v] == profiles[v]
    ensures r.Some? ==> forall v :: v in profiles && Some(v) in us && IsServicemanUser(users, v) ==>
      r.value[v] == profiles[v].(isAvailable := ShouldBeAvailable(rs, v))
    ensures r.Some? ==> forall v :: v in profiles && !IsServicemanUser(users, v) ==> r.value[v] == profiles[v]
    decreases |us|
  {
    if |us| == 0 then Some(profiles)
    else
      match Reconcile(users, rs, profiles, us[0])
      case None => None
      case Some(p) =>
        assert forall k :: 0 <= k < |us[1..]| ==> us[1..][k] == us[k + 1];
        ReconcileAll(users, rs, p, us[1..])
  }

  /** Every tracked serviceman's flag agrees with their active-request count. */
  ghost predicate Consistent(users: seq<User>, rs: seq<ServiceRequest>, profiles: Profiles) {
    forall u :: u in profiles && IsServicemanUser(users, u) ==> profiles[u].isAvailable == ShouldBeAvailable(rs, u)
  }

  /** `r` and `r'` keep exactly the same servicemen busy. */
  predicate SameOccupancy(r: ServiceRequest, r': ServiceRequest) {
    Active(r) == Active(r') && r.serviceman == r'.serviceman && r.backupServiceman == r'.backupServiceman
  }

  /** Replacing one request changes the count only of users it occupied before or after. */
  lemma {:induction false} CountAfterReplace(rs: seq<ServiceRequest>, i: nat, r': ServiceRequest, u: UserId)
    requires i < |rs|
    requires Occupies(rs[i], u) == Occupies(r', u)
    ensures ActiveCount(rs[i := r'], u) == ActiveCount(rs, u)
  {
    if i > 0 {
      assert rs[i := r'][1..] == rs[1..][i - 1 := r'];
      CountAfterReplace(rs[1..], i - 1, r', u);
    } else {
      assert rs[i := r'][1..] == rs[1..];
    }
  }

  /** The users whose flag a save of `after` over `before` can affect. */
  function Involved(before: Option<ServiceRequest>, after: ServiceRequest): seq<Option<UserId>> {
    [after.serviceman, after.backupServiceman]
    + (if before.Some? then [before.value.serviceman, before.value.backupServiceman] else [])
  }

  /** The tracker as the source was evidently meant to behave: whenever a save
      changes which servicemen a request keeps busy, every serviceman named
      before or after, primary or backup, is reconciled. */
  function UpdateAvailability(users: seq<User>, rs: seq<ServiceRequest>, profiles: Profiles,
                              before: Option<ServiceRequest>, after: ServiceRequest): (r: Option<Profiles>)
    ensures before.Some? && SameOccupancy(before.value, after) ==> r == Some(profiles)
    ensures r.Some? ==> r.value.Keys == profiles.Keys
    ensures r.Some? ==> forall v :: v in profiles ==>
      r.value[v] == profiles[v] || r.value[v] == profiles[v].(isAvailable := ShouldBeAvailable(rs, v))
  {
    if before.Some? && SameOccupancy(before.value, after) then Some(profiles)
    else ReconcileAll(users, rs, profiles, Involved(before, after))
  }

  /** The corrected tracker keeps every flag consistent across any single-request save. */
  lemma UpdateAvailabilityKeepsConsistent(users: seq<User>, rs: seq<ServiceRequest>, profiles: Profiles,
                                          i: nat, r': ServiceRequest)
    requires i < |rs|
    requires Consistent(users, rs, profiles)
    requires UpdateAvailability(users, rs[i := r'], profiles, Some(rs[i]), r').Some?
    ensures Consistent(users, rs[i := r'], UpdateAvailability(users, rs[i := r'], profiles, Some(rs[i]), r').value)
  {
    var rs' := rs[i := r'];
    var p' := UpdateAvailability(users, rs', profiles, Some(rs[i]), r').value;
    var us := Involved(Some(rs[i]), r');
    forall u | u in p' && IsServicemanUser(users, u)
      ensures p'[u].isAvailable == ShouldBeAvailable(rs', u)
    {
      if SameOccupancy(rs[i], r') || Some(u) !in us {
        CountAfterReplace(rs, i, r', u);
      }
    }
  }

  /** `p'` differs from `p` at most in availability flags. */
  ghost predicate AvailabilityOnly(p: Profiles, p': Profiles) {
    p'.Keys == p.Keys && forall u :: u in p ==> p'[u] == p[u].(isAvailable := p'[u].isAvailable)
  }

  /** Reconciling a list of users touches only availability flags. */
  lemma ReconcileAllFlagsOnly(users: seq<User>, rs: seq<ServiceRequest>, profiles: Profiles, us: seq<Option<UserId>>)
    ensures var r := ReconcileAll(users, rs, profiles, us);
      r.Some? ==> AvailabilityOnly(profiles, r.value)
  {
    var r := ReconcileAll(users, rs, profiles, us);
    if r.Some? {
      var p' := r.value;
      forall u | u in profiles
        ensures p'[u] == profiles[u].(isAvailable := p'[u].isAvailable)
      {
        if Some(u) in us && IsServicemanUser(users, u) {
          assert p'[u] == profiles[u].(isAvailable := ShouldBeAvailable(rs, u));
        }
      }
    }
  }

  /** The IN_PROGRESS and COMPLETED-or-CANCELLED branches of the handler as
      written, applied to the primary serviceman `after.serviceman`. */
  function PrimaryTransition(users: seq<User>, rs: seq<ServiceRequest>, profiles: Profiles,
                             prevStatus: Option<Status>, after: ServiceRequest): (r: Option<Profiles>)
    requires after.serviceman.Some?
    ensures r.Some? ==> AvailabilityOnly(profiles, r.value)
    ensures after.status == InProgress && prevStatus != Some(InProgress) ==>
      var u := after.serviceman.value;
      && (r.Some? <==> u in profiles)
      && (r.Some? ==> r.value == profiles[u := profiles[u].(isAvailable := false)])
    ensures !(after.status == InProgress && prevStatus != Some(InProgress)) ==>
      if after.status in {Completed, Cancelled} && prevStatus !in {Some(Completed), Some(Cancelled)}
      then r == Reconcile(users, rs, profiles, after.serviceman)
      else r == Some(profiles)
  {
    var u := after.serviceman.value;
    if after.status == InProgress && prevStatus != Some(InProgress) then
      if u !in profiles then None
      else if profiles[u].isAvailable then Some(profiles[u := profiles[u].(isAvailable := false)])
      else Some(profiles)
    else if after.status in {Completed, Cancelled} && prevStatus !in {Some(Completed), Some(Cancelled)} then
      Reconcile(users, rs, profiles, after.serviceman)
    else Some(profiles)
  }

  /** `update_serviceman_availability` exactly as written: it looks only at the
      primary serviceman. `prevStatus` and `prevServiceman` are the values
      `store_previous_status` captured before the save (`None` for a new row);
      `rs` already holds `after`. */
  function UpdateAvailabilityAsWritten(users: seq<User>, rs: seq<ServiceRequest>, profiles: Profiles,
                                       prevStatus: Option<Status>, prevServiceman: Option<UserId>,
                                       after: ServiceRequest): (r: Option<Profiles>)
    ensures after.serviceman.None? ==> r == Some(profiles)
    ensures r.Some? ==> r.value.Keys == profiles.Keys
    ensures r.Some? ==> AvailabilityOnly(profiles, r.value)
    ensures after.serviceman.Some? && after.status == InProgress && prevStatus != Some(InProgress)
            && prevServiceman in {None, after.serviceman} ==>
      var u := after.serviceman.value;
      && (r.Some? <==> u in profiles)
      && (r.Some? ==> r.value == profiles[u := profiles[u].(isAvailable := false)])
    ensures after.serviceman.Some? && after.status in {Completed, Cancelled}
            && prevStatus !in {Some(Completed), Some(Cancelled)}
            && prevServiceman in {None, after.serviceman} ==>
      r == Reconcile(users, rs, profiles, after.serviceman)
    ensures (after.serviceman.None? || after.serviceman.value in profiles) ==>
              (!Tracked(users, prevServiceman) || prevServiceman.value in profiles) ==> r.Some?
    ensures after.serviceman.Some? && prevServiceman.Some? && prevServiceman != after.serviceman && r.Some? ==>
      forall v :: v in profiles && Some(v) in {prevServiceman, after.serviceman} && IsServicemanUser(users, v) ==>
        r.value[v].isAvailable == ShouldBeAvailable(rs, v)
  {
    if after.serviceman.None? then Some(profiles)
    else
      var first :- PrimaryTransition(users, rs, profiles, prevStatus, after);
      if prevServiceman.Some? && prevServiceman != after.serviceman then
        ReconcileAllFlagsOnly(users, rs, first, [prevServiceman, after.serviceman]);
        ReconcileAll(users, rs, first, [prevServiceman, after.serviceman])
      else Some(first)
  }

  /** Reconciling a list that names only `s` sets `s`'s flag from the active
      jobs and changes nothing else. */
  lemma ReconcileOnly(users: seq<User>, rs: seq<ServiceRequest>, profiles: Profiles, us: seq<Option<UserId>>, s: UserId)
    requires IsServicemanUser(users, s) && s in profiles
    requires Some(s) in us && forall k :: 0 <= k < |us| ==> us[k] in {None, Some(s)}
    ensures ReconcileAll(users, rs, profiles, us) == Some(profiles[s := profiles[s].(isAvailable := ShouldBeAvailable(rs, s))])
  {
    var target := profiles[s := profiles[s].(isAvailable := ShouldBeAvailable(rs, s))];
    var r := ReconcileAll(users, rs, profiles, us);
    assert r.Some?;
    assert forall v :: v in profiles && v != s ==> Some(v) !in us;
    assert r.value == target;
  }

  /** A save that neither tracker reacts to: the same servicemen, a status
      other than IN_PROGRESS before, and after it a status other than
      IN_PROGRESS, COMPLETED and CANCELLED. */
  predicate Quiet(before: ServiceRequest, after: ServiceRequest) {
    && after.serviceman == before.serviceman && after.backupServiceman == before.backupServiceman
    && before.status != InProgress && after.status !in {InProgress, Completed, Cancelled}
  }

  /** On a request with no backup that is not soft-deleted, when work starts
      or ends, both trackers set the primary's flag from the active jobs and
      change nothing else. */
  lemma TrackersAgreeOnPrimary(users: seq<User>, rs: seq<ServiceRequest>, profiles: Profiles, i: nat, r': ServiceRequest)
    requires i < |rs|
    requires var r := rs[i];
      && r.serviceman.Some? && IsServicemanUser(users, r.serviceman.value) && r.serviceman.value in profiles
      && r'.serviceman == r.serviceman
      && r.backupServiceman.None? && r'.backupServiceman.None? && !r.isDeleted && !r'.isDeleted
      && ((r.status == PaymentCompleted && r'.status == InProgress) || (r.status == InProgress && r'.status == Completed))
    ensures var r := rs[i];
      var s := r.serviceman.value;
      var rs' := rs[i := r'];
      var target := Some(profiles[s := profiles[s].(isAvailable := ShouldBeAvailable(rs', s))]);
      && UpdateAvailability(users, rs', profiles, Some(r), r') == target
      && UpdateAvailabilityAsWritten(users, rs', profiles, Some(r.status), r.serviceman, r') == target
  {
    var s := rs[i].serviceman.value;
    var rs' := rs[i := r'];
    CorrectedOnPrimary(users, rs, profiles, i, r');
    if r'.status == InProgress {
      assert Occupies(rs'[i], s);
      assert !ShouldBeAvailable(rs', s);
    }
  }

  /** The corrected half of `TrackersAgreeOnPrimary`. */
  lemma CorrectedOnPrimary(users: seq<User>, rs: seq<ServiceRequest>, profiles: Profiles, i: nat, r': ServiceRequest)
    requires i < |rs|
    requires var r := rs[i];
      && r.serviceman.Some? && IsServicemanUser(users, r.serviceman.value) && r.serviceman.value in profiles
      && r'.serviceman == r.serviceman && r.backupServiceman.None? && r'.backupServiceman.None?
      && !r.isDeleted && !r'.isDeleted && r.status != r'.status && InProgress in {r.status, r'.status}
    ensures var s := rs[i].serviceman.value;
      var rs' := rs[i := r'];
      UpdateAvailability(users, rs', profiles, Some(rs[i]), r') == Some(profiles[s := profiles[s].(isAvailable := ShouldBeAvailable(rs', s))])
  {
    var r := rs[i];
    assert !SameOccupancy(r, r');
    ReconcileOnly(users, rs[i := r'], profiles, Involved(Some(r), r'), r.serviceman.value);
  }

  /** Both trackers leave every profile alone on a quiet save. */
  lemma QuietSaveUntracked(users: seq<User>, rs: seq<ServiceRequest>, profiles: Profiles,
                           before: ServiceRequest, after: ServiceRequest)
    requires Quiet(before, after)
    ensures UpdateAvailability(users, rs, profiles, Some(before), after) == Some(profiles)
    ensures UpdateAvailabilityAsWritten(users, rs, profiles, Some(before.status), before.serviceman, after) == Some(profiles)
  {
    assert SameOccupancy(before, after);
  }

  /** `log_manual_availability_change` only reports; it returns no profile. */
  datatype AvailabilityLog = NotLogged | Logged(nowAvailable: bool, warnBusy: bool)

  /** The report for saving `incoming` over the stored `stored` (`None` for a new profile). */
  function LogManualAvailabilityChange(rs: seq<ServiceRequest>, stored: Option<ServicemanProfile>,
                                       incoming: ServicemanProfile): (log: AvailabilityLog)
    ensures log.Logged? <==> stored.Some? && stored.value.isAvailable != incoming.isAvailable
    ensures log.Logged? ==> log.nowAvailable == incoming.isAvailable
    ensures log.Logged? ==> (log.warnBusy <==> incoming.isAvailable && !ShouldBeAvailable(rs, incoming.user))
  {
    if stored.Some? && stored.value.isAvailable != incoming.isAvailable then
      Logged(incoming.isAvailable, ActiveCount(rs, incoming.user) > 0 && incoming.isAvailable)
    else NotLogged
  }

  /** A manual change to a flag that agreed with the active jobs always makes
      it disagree; the warning fires exactly when it now claims a busy
      serviceman is available. */
  lemma ManualChangeBreaksAgreement(rs: seq<ServiceRequest>, stored: ServicemanProfile, incoming: ServicemanProfile)
    requires stored.user == incoming.user
    requires stored.isAvailable == ShouldBeAvailable(rs, stored.user)
    ensures var log := LogManualAvailabilityChange(rs, Some(stored), incoming);
      && (log.Logged? <==> incoming.isAvailable != ShouldBeAvailable(rs, incoming.user))
      && (log.Logged? ==> (log.warnBusy <==> incoming.isAvailable))
  {
  }

  /** Two servicemen: X (id 1) and Y (id 2). */
  function ScenarioUsers(): seq<User> {
    [User(1, "x", "x@example.com", Serviceman, false, true),
     User(2, "y", "y@example.com", Serviceman, false, true)]
  }

  /** A request of client 3 with the given servicemen and status. */
  function ScenarioRequest(id: RequestId, primary: UserId, backup: Option<UserId>, status: Status): ServiceRequest {
    NewServiceRequest(id, 3, 1, 0, status, 2000.0, "", "", 0).(serviceman := Some(primary), backupServiceman := backup)
  }

  /** Y's own job (request 1) is already completed; request 2, where X is
      primary and Y is backup, is still in progress, so both are busy. */
  function ScenarioBefore(): seq<ServiceRequest> {
    [ScenarioRequest(1, 2, None, Completed), ScenarioRequest(2, 1, Some(2), InProgress)]
  }

  function ScenarioProfiles(): Profiles {
    map[1 := NewServicemanProfile(1).(isAvailable := false), 2 := NewServicemanProfile(2).(isAvailable := false)]
  }

  /** Request 2 after it completes. */
  function ScenarioAfter(): seq<ServiceRequest> {
    ScenarioBefore()[1 := ScenarioRequest(2, 1, Some(2), Completed)]
  }

  /** The facts about the scenario the two lemmas below rest on: both are
      busy before request 2 completes, and Y has no active job after it. */
  lemma ScenarioFacts()
    ensures IsServicemanUser(ScenarioUsers(), 1) && IsServicemanUser(ScenarioUsers(), 2)
    ensures ScenarioProfiles().Keys == {1, 2}
    ensures !ShouldBeAvailable(ScenarioBefore(), 1) && !ShouldBeAvailable(ScenarioBefore(), 2)
    ensures ShouldBeAvailable(ScenarioAfter(), 2)
    ensures Consistent(ScenarioUsers(), ScenarioBefore(), ScenarioProfiles())
  {
    var before := ScenarioBefore();
    var after := ScenarioAfter();
    assert Occupies(before[1], 1) && Occupies(before[1], 2);
    assert ActiveCount(after, 2) == 0;
  }

  /** Finding: when request 2 completes, the handler as written reconciles only
      its primary X, so Y stays busy with no active request at all. */
  lemma BackupLeftBusyAsWritten()
    ensures Consistent(ScenarioUsers(), ScenarioBefore(), ScenarioProfiles())
    ensures var after := ScenarioAfter();
      var asWritten := UpdateAvailabilityAsWritten(ScenarioUsers(), after, ScenarioProfiles(), Some(InProgress), Some(1), after[1]);
      && asWritten.Some? && 2 in asWritten.value
      && !asWritten.value[2].isAvailable && ShouldBeAvailable(after, 2)
      && !Consistent(ScenarioUsers(), after, asWritten.value)
  {
    ScenarioFacts();
    var users := ScenarioUsers();
    var after := ScenarioAfter();
    var profiles := ScenarioProfiles();
    var asWritten := UpdateAvailabilityAsWritten(users, after, profiles, Some(InProgress), Some(1), after[1]);
    assert asWritten == Reconcile(users, after, profiles, Some(1));
    assert asWritten.value[2] == profiles[2];
  }

  /** In the same scenario the corrected tracker frees Y. */
  lemma BackupFreedWhenCorrected()
    ensures var after := ScenarioAfter();
      var corrected := UpdateAvailability(ScenarioUsers(), after, ScenarioProfiles(), Some(ScenarioBefore()[1]), after[1]);
      && corrected.Some? && 2 in corrected.value && corrected.value[2].isAvailable
      && Consistent(ScenarioUsers(), after, corrected.value)
  {
    ScenarioFacts();
    var users := ScenarioUsers();
    var before := ScenarioBefore();
    var after := ScenarioAfter();
    var profiles := ScenarioProfiles();
    assert after == before[1 := after[1]];
    assert Some(2) in Involved(Some(before[1]), after[1]);
    UpdateAvailabilityKeepsConsistent(users, before, profiles, 1, after[1]);
  }
}
