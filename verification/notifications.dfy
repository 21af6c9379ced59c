/** Notification records and the two dispatch helpers the workflow uses
    (`notify_user` and `notify_admins` in apps/services/workflow_views.py). */
module Notifications {
  import opened Wrappers
  import opened Users
  import opened Services
  import Seqs

  /** `notification_type`. The workflow uses the named kinds; an administrator
      sending a notification by hand may give any other code. */
  datatype Kind =
    | AdminAlert
    | General
    | PaymentRequest
    | JobAssigned
    | StatusUpdate
    | JobCompleted
    | ReviewReceived
    | ServiceAssigned
    | OtherKind(code: string)

  /** What a workflow notification reports; the text rendered from it is not modelled. */
  datatype Event =
    | EstimateSubmitted(cost: real)
    | PriceReady(baseCost: real, platformFee: real, total: real)
    | WorkAuthorized
    | WorkBegun
    | JobFinished
    | CompletionConfirmed
    | ReviewGiven(stars: int)
    | ReviewReported(stars: int)

  datatype Content = Custom(title: string, message: string) | Rendered(event: Event)

  datatype Notification = Notification(
    user: UserId,
    kind: Kind,
    content: Content,
    request: Option<RequestId>,
    isRead: bool,
    createdAt: int)

  /** How many of `ns` are addressed to `u`. */
  function CountFor(ns: seq<Notification>, u: UserId): (n: nat)
    ensures n <= |ns|
  {
    if |ns| == 0 then 0
    else (if ns[0].user == u then 1 else 0) + CountFor(ns[1..], u)
  }

  /** `CountFor` is the ORM count `filter(user=u).count()`. */
  lemma {:induction false} CountForIsCount(ns: seq<Notification>, u: UserId)
    ensures CountFor(ns, u) == Seqs.Count(ns, (x: Notification) => x.user == u)
  {
    if |ns| > 0 {
      CountForIsCount(ns[1..], u);
    }
  }

  lemma {:induction false} CountForAppend(a: seq<Notification>, b: seq<Notification>, u: UserId)
    ensures CountFor(a + b, u) == CountFor(a, u) + CountFor(b, u)
  {
    if |a| == 0 {
      assert a + b == b;
    } else {
      assert (a + b)[1..] == a[1..] + b;
      CountForAppend(a[1..], b, u);
    }
  }

  lemma {:induction false} CountForNone(ns: seq<Notification>, u: UserId)
    requires forall i :: 0 <= i < |ns| ==> ns[i].user != u
    ensures CountFor(ns, u) == 0
  {
    if |ns| > 0 {
      CountForNone(ns[1..], u);
    }
  }

  /** `notify_user`: one unread record for `user` and for nobody else. */
  function NotifyUser(user: UserId, content: Content, kind: Kind, request: Option<RequestId>, now: int): (ns: seq<Notification>)
    ensures |ns| == 1 && ns[0].user == user && !ns[0].isRead
    ensures ns[0].kind == kind && ns[0].content == content && ns[0].request == request
    ensures forall v :: CountFor(ns, v) == (if v == user then 1 else 0)
  {
    [Notification(user, kind, content, request, false, now)]
  }

  predicate IsAdmin(u: User) {
    u.userType == Admin
  }

  /** `id` names an account whose role is ADMIN. */
  predicate IsAdminId(users: seq<User>, id: UserId) {
    var u := FindUser(users, id);
    u.Some? && IsAdmin(u.value)
  }

  /** `notify_admins`: one unread ADMIN_ALERT per administrator account, in
      account order, each carrying the same content and request. */
  function NotifyAdmins(users: seq<User>, content: Content, request: Option<RequestId>, now: int): (ns: seq<Notification>)
    ensures |ns| == Seqs.Count(users, IsAdmin)
    ensures forall i :: 0 <= i < |ns| ==>
      && ns[i].user == Seqs.Filter(users, IsAdmin)[i].id
      && ns[i].kind == AdminAlert && ns[i].content == content
      && ns[i].request == request && !ns[i].isRead && ns[i].createdAt == now
  {
    if |users| == 0 then []
    else
      var head := if IsAdmin(users[0]) then [Notification(users[0].id, AdminAlert, content, request, false, now)] else [];
      assert Seqs.Filter(users, IsAdmin) == (if IsAdmin(users[0]) then [users[0]] else []) + Seqs.Filter(users[1..], IsAdmin);
      head + NotifyAdmins(users[1..], content, request, now)
  }

  /** Accounts other than `u` never produce a record for `u`. */
  lemma {:induction false} NotifyAdminsSkipsOthers(users: seq<User>, content: Content, request: Option<RequestId>, now: int, u: UserId)
    requires forall j :: 0 <= j < |users| ==> users[j].id != u
    ensures CountFor(NotifyAdmins(users, content, request, now), u) == 0
  {
    if |users| > 0 {
      var head := if IsAdmin(users[0]) then [Notification(users[0].id, AdminAlert, content, request, false, now)] else [];
      var tail := NotifyAdmins(users[1..], content, request, now);
      CountForAppend(head, tail, u);
      if head != [] {
        assert head[1..] == [];
      }
      NotifyAdminsSkipsOthers(users[1..], content, request, now, u);
    }
  }

  /** Every administrator receives exactly one record and no one else receives any. */
  lemma {:induction false} NotifyAdminsOnePerAdmin(users: seq<User>, content: Content, request: Option<RequestId>, now: int, u: UserId)
    requires UniqueIds(users)
    ensures CountFor(NotifyAdmins(users, content, request, now), u) == (if IsAdminId(users, u) then 1 else 0)
  {
    if |users| > 0 {
      var head := if IsAdmin(users[0]) then [Notification(users[0].id, AdminAlert, content, request, false, now)] else [];
      var tail := NotifyAdmins(users[1..], content, request, now);
      CountForAppend(head, tail, u);
      if head != [] {
        assert head[1..] == [];
      }
      if users[0].id == u {
        assert forall j :: 0 <= j < |users[1..]| ==> users[1..][j].id != u by {
          forall j | 0 <= j < |users[1..]|
            ensures users[1..][j].id != u
          {
            assert users[1..][j] == users[j + 1];
          }
        }
        NotifyAdminsSkipsOthers(users[1..], content, request, now, u);
      } else {
        assert UniqueIds(users[1..]) by {
          forall i, j | 0 <= i < j < |users[1..]|
            ensures users[1..][i].id != users[1..][j].id
          {
            assert users[1..][i] == users[i + 1] && users[1..][j] == users[j + 1];
          }
        }
        NotifyAdminsOnePerAdmin(users[1..], content, request, now, u);
      }
    }
  }
}
