/** The status-change audit log and request notes (apps/services/status_history_models.py). */
module History {
  import opened Wrappers
  import opened Users
  import opened Services

  /** One `ServiceRequestStatusHistory` row; `previous` is `None` for the
      entry written when a request is created. */
  datatype StatusChange = StatusChange(
    request: RequestId,
    previous: Option<Status>,
    next: Status,
    changedBy: Option<UserId>,
    changedAt: int,
    notes: string,
    isAutomated: bool)

  /** `f` is an entry that could have started the period `e` ends: same
      request, it entered the status `e` leaves, strictly earlier. */
  predicate Opens(e: StatusChange, f: StatusChange) {
    f.request == e.request && e.previous == Some(f.next) && f.changedAt < e.changedAt
  }

  /** `time_in_previous_status`. The source takes the first of the matching
      entries under the newest-first ordering, i.e. one with the latest
      `changed_at`; every such entry gives the same duration, so the result
      does not depend on how ties are broken. */
  method TimeInPreviousStatus(log: seq<StatusChange>, e: StatusChange) returns (d: Option<int>)
    ensures e.previous.None? ==> d.None?
    ensures d.Some? <==> e.previous.Some? && exists j :: 0 <= j < |log| && Opens(e, log[j])
    ensures d.Some? ==> d.value > 0
    ensures d.Some? ==> exists j :: 0 <= j < |log| && Opens(e, log[j]) && log[j].changedAt == e.changedAt - d.value
    ensures d.Some? ==> forall j :: 0 <= j < |log| && Opens(e, log[j]) ==> log[j].changedAt <= e.changedAt - d.value
  {
    if e.previous.None? {
      return None;
    }
    var latest: Option<int> := None;
    var k := 0;
    while k < |log|
      invariant 0 <= k <= |log|
      invariant latest.None? <==> forall j :: 0 <= j < k ==> !Opens(e, log[j])
      invariant latest.Some? ==> latest.value < e.changedAt
      invariant latest.Some? ==> exists j :: 0 <= j < k && Opens(e, log[j]) && log[j].changedAt == latest.value
      invariant latest.Some? ==> forall j :: 0 <= j < k && Opens(e, log[j]) ==> log[j].changedAt <= latest.value
    {
      if Opens(e, log[k]) && (latest.None? || log[k].changedAt > latest.value) {
        latest := Some(log[k].changedAt);
      }
      k := k + 1;
    }
    if latest.None? {
      return None;
    }
    return Some(e.changedAt - latest.value);
  }

  /** `ServiceRequestNote.note_type`. */
  datatype NoteType = ClientNote | ServicemanNote | AdminNote | SystemNote

  datatype Note = Note(
    request: RequestId,
    createdBy: Option<UserId>,
    noteType: NoteType,
    content: string,
    isVisibleToClient: bool,
    createdAt: int,
    updatedAt: int)

  /** A note created with only the required fields: a SYSTEM note the client can see. */
  function NewNote(request: RequestId, createdBy: Option<UserId>, content: string, now: int): (n: Note)
    ensures n.request == request && n.createdBy == createdBy && n.content == content
    ensures n.noteType == SystemNote && n.isVisibleToClient
    ensures n.createdAt == now && n.updatedAt == now
  {
    Note(request, createdBy, SystemNote, content, true, now, now)
  }
}
