/** A user's own notifications (apps/notifications/views.py). A notification's
    primary key is its position in the append-only log, so a larger key is a
    later insertion. */
module Inbox {
  import opened Wrappers
  import opened Users
  import opened Services
  import opened Notifications

  /** Notifications are appended with non-decreasing creation times. */
  ghost predicate Chronological(log: seq<Notification>) {
    forall i, j :: 0 <= i < j < |log| ==> log[i].createdAt <= log[j].createdAt
  }

  /** `NotificationListView`: the keys of `u`'s notifications, newest first. */
  function InboxOf(log: seq<Notification>, u: UserId): (ks: seq<nat>)
    ensures forall k :: 0 <= k < |ks| ==> ks[k] < |log| && log[ks[k]].user == u
    ensures forall j :: 0 <= j < |log| && log[j].user == u ==> j in ks
    ensures forall a, b :: 0 <= a < b < |ks| ==> ks[a] > ks[b]
  {
    if |log| == 0 then []
    else
      var last := |log| - 1;
      (if log[last].user == u then [last] else []) + InboxOf(log[..last], u)
  }

  /** In a chronological log the list is ordered by creation time, newest first. */
  lemma InboxNewestFirst(log: seq<Notification>, u: UserId)
    requires Chronological(log)
    ensures var ks := InboxOf(log, u);
      forall a, b :: 0 <= a < b < |ks| ==> log[ks[a]].createdAt >= log[ks[b]].createdAt
  {
  }

  /** `NotificationUnreadCountView`. */
  function UnreadCount(log: seq<Notification>, u: UserId): (n: nat)
    ensures n <= |log|
    ensures n == 0 <==> forall j :: 0 <= j < |log| && log[j].user == u ==> log[j].isRead
  {
    if |log| == 0 then 0
    else (if log[0].user == u && !log[0].isRead then 1 else 0) + UnreadCount(log[1..], u)
  }

  /** The unread count of `u` only looks at `u`'s unread notifications. */
  lemma {:induction false} UnreadCountLocal(a: seq<Notification>, b: seq<Notification>, u: UserId)
    requires |a| == |b|
    requires forall j :: 0 <= j < |a| ==> (a[j].user == u && !a[j].isRead) == (b[j].user == u && !b[j].isRead)
    ensures UnreadCount(a, u) == UnreadCount(b, u)
  {
    if |a| > 0 {
      UnreadCountLocal(a[1..], b[1..], u);
    }
  }

  /** Whether `n` adds to `u`'s unread count. */
  function UnreadFor(n: Notification, u: UserId): nat {
    if n.user == u && !n.isRead then 1 else 0
  }

  /** Unread counts add up over an appended log. */
  lemma {:induction false} UnreadCountAppend(a: seq<Notification>, b: seq<Notification>, u: UserId)
    ensures UnreadCount(a + b, u) == UnreadCount(a, u) + UnreadCount(b, u)
  {
    if |a| == 0 {
      assert a + b == b;
    } else {
      assert (a + b)[1..] == a[1..] + b;
      UnreadCountAppend(a[1..], b, u);
    }
  }

  /** Replacing one record changes a count by what the old and new record contribute. */
  lemma {:induction false} UnreadCountReplace(log: seq<Notification>, pk: nat, n: Notification, u: UserId)
    requires pk < |log|
    ensures UnreadCount(log[pk := n], u) + UnreadFor(log[pk], u) == UnreadCount(log, u) + UnreadFor(n, u)
  {
    if pk == 0 {
      assert log[pk := n][1..] == log[1..];
    } else {
      assert log[pk := n][1..] == log[1..][pk - 1 := n];
      UnreadCountReplace(log[1..], pk - 1, n, u);
    }
  }

  /** `NotificationMarkReadView`: `None` when the key is unknown or belongs to
      someone else (the lookup raises). */
  function MarkRead(log: seq<Notification>, u: UserId, pk: nat): (r: Option<seq<Notification>>)
    ensures r.Some? <==> pk < |log| && log[pk].user == u
    ensures r.Some? ==> |r.value| == |log| && r.value[pk] == log[pk].(isRead := true)
    ensures r.Some? ==> forall j :: 0 <= j < |log| && j != pk ==> r.value[j] == log[j]
  {
    if pk < |log| && log[pk].user == u then Some(log[pk := log[pk].(isRead := true)]) else None
  }

  /** Marking one of `u`'s records read lowers `u`'s count by one when it was
      unread and leaves every other user's count as it was. */
  lemma MarkReadEffect(log: seq<Notification>, u: UserId, pk: nat, v: UserId)
    requires MarkRead(log, u, pk).Some?
    ensures UnreadCount(MarkRead(log, u, pk).value, u) == UnreadCount(log, u) - (if log[pk].isRead then 0 else 1)
    ensures v != u ==> UnreadCount(MarkRead(log, u, pk).value, v) == UnreadCount(log, v)
  {
    UnreadCountReplace(log, pk, log[pk].(isRead := true), u);
    UnreadCountReplace(log, pk, log[pk].(isRead := true), v);
  }

  /** `NotificationMarkAllReadView`. */
  function MarkAllRead(log: seq<Notification>, u: UserId): (r: seq<Notification>)
    ensures |r| == |log|
    ensures forall j :: 0 <= j < |log| ==> r[j] == (if log[j].user == u then log[j].(isRead := true) else log[j])
  {
    seq(|log|, j requires 0 <= j < |log| => if log[j].user == u then log[j].(isRead := true) else log[j])
  }

  /** After mark-all-read the caller has nothing unread and every other user's count is unchanged. */
  lemma MarkAllReadEffect(log: seq<Notification>, u: UserId, v: UserId)
    ensures UnreadCount(MarkAllRead(log, u), u) == 0
    ensures v != u ==> UnreadCount(MarkAllRead(log, u), v) == UnreadCount(log, v)
  {
    if v != u {
      UnreadCountLocal(MarkAllRead(log, u), log, v);
    }
  }

  /** `ServerError` is the 500 a non-numeric id ends in. */
  datatype SendError = NotAdmin | MissingFields | UnknownUser | UnknownRequest | ServerError

  /** An id as posted: absent or null, a number, or a non-empty value that is
      not a number (such as `"abc"`), which Django's integer lookup refuses
      with `ValueError`. */
  datatype PostedId = NoId | Id(n: nat) | NotId

  /** The body of a manual send. The source also treats an id of 0 and an
      empty title or message as missing. */
  datatype SendInput = SendInput(
    userId: PostedId,
    title: string,
    message: string,
    kind: Option<Kind>,
    requestId: PostedId)

  /** Python truthiness of a posted id. */
  predicate Given(id: PostedId) {
    id.NotId? || (id.Id? && id.n != 0)
  }

  /** `SendNotificationView.post` without the e-mail side channel. Only
      `DoesNotExist` is caught around the two lookups, so a non-numeric id
      that passes the presence check is a server error. */
  function Send(users: seq<User>, rs: seq<ServiceRequest>, log: seq<Notification>,
                caller: User, input: SendInput, now: int): (r: Result<seq<Notification>, SendError>)
    ensures caller.userType != Admin ==> r == Failure(NotAdmin)
    ensures caller.userType == Admin && (!Given(input.userId) || input.title == "" || input.message == "") ==>
      r == Failure(MissingFields)
    ensures r == Failure(ServerError) <==>
      && caller.userType == Admin && Given(input.userId) && input.title != "" && input.message != ""
      && (input.userId.NotId? || (FindUser(users, input.userId.n).Some? && input.requestId.NotId?))
    ensures r.Success? <==>
      && caller.userType == Admin && Given(input.userId) && input.userId.Id? && input.title != "" && input.message != ""
      && FindUser(users, input.userId.n).Some?
      && (Given(input.requestId) ==> input.requestId.Id? && FindRequest(rs, input.requestId.n).Some?)
    ensures r.Success? ==>
      && |r.value| == |log| + 1 && r.value[..|log|] == log
      && var sent := r.value[|log|];
      && sent.user == input.userId.n && !sent.isRead && sent.content == Custom(input.title, input.message)
      && sent.kind == input.kind.GetOr(ServiceAssigned)
      && sent.request == (if Given(input.requestId) then Some(input.requestId.n) else None)
  {
    if caller.userType != Admin then Failure(NotAdmin)
    else if !Given(input.userId) || input.title == "" || input.message == "" then Failure(MissingFields)
    else if input.userId.NotId? then Failure(ServerError)
    else if FindUser(users, input.userId.n).None? then Failure(UnknownUser)
    else if input.requestId.NotId? then Failure(ServerError)
    else if Given(input.requestId) && FindRequest(rs, input.requestId.n).None? then Failure(UnknownRequest)
    else
      var link := if Given(input.requestId) then Some(input.requestId.n) else None;
      Success(log + NotifyUser(input.userId.n, Custom(input.title, input.message),
                               input.kind.GetOr(ServiceAssigned), link, now))
  }

  /** A send adds one unread record to the recipient's count and nothing to anyone else's. */
  lemma SendAddsOneUnread(users: seq<User>, rs: seq<ServiceRequest>, log: seq<Notification>,
                          caller: User, input: SendInput, now: int, v: UserId)
    requires Send(users, rs, log, caller, input, now).Success?
    ensures UnreadCount(Send(users, rs, log, caller, input, now).value, v) ==
      UnreadCount(log, v) + (if v == input.userId.n then 1 else 0)
  {
    var r := Send(users, rs, log, caller, input, now).value;
    var tail := [r[|log|]];
    assert r == log + tail;
    UnreadCountAppend(log, tail, v);
    assert tail[1..] == [];
  }
}
