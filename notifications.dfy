/** `NotificationListView`: the requester's own notifications, newest
    first, read without changing any of them. */
module Notifications {
  import opened Wrappers
  import opened Ordering
  import opened Accounts
  import opened Posts

  datatype Notification = Notification(id: nat, recipient: UserId, actor: UserId, verb: string,
                                        read: bool, timestamp: int)

  /** `Notification.objects.filter(recipient=user)`, in store order. */
  function ForRecipient(ns: seq<Notification>, u: UserId): (r: seq<Notification>)
    ensures forall n :: n in r <==> n in ns && n.recipient == u
    ensures forall n :: multiset(r)[n] == if n.recipient == u then multiset(ns)[n] else 0
  {
    Filter(ns, (n: Notification) => n.recipient == u)
  }

  /** `order_by('-timestamp')`: later (or equally late) notifications first. */
  predicate NotifiedLater(a: Notification, b: Notification) {
    a.timestamp >= b.timestamp
  }

  lemma TimestampOrderIsTotalPreorder()
    ensures TotalPreorder(NotifiedLater)
  {
  }

  /** The list view: anonymous callers are refused; otherwise exactly the
      stored notifications addressed to the requester, each as stored (read
      flag included) and as often as stored, newest first. The stored
      sequence is a parameter and nothing is returned for it: listing
      changes no notification. */
  function ListNotifications(req: Requester, ns: seq<Notification>): (r: Result<seq<Notification>, ApiError>)
    ensures r.Failure? <==> req.Anonymous?
    ensures r.Failure? ==> r.error == NotAuthenticated
    ensures r.Success? ==>
              && (forall n :: n in r.value <==> n in ns && n.recipient == req.user)
              && (forall n :: multiset(r.value)[n] == if n.recipient == req.user then multiset(ns)[n] else 0)
              && SortedBy(r.value, NotifiedLater)
  {
    if req.Anonymous? then Failure(NotAuthenticated)
    else
      var mine := ForRecipient(ns, req.user);
      TimestampOrderIsTotalPreorder();
      SortBySorted(mine, NotifiedLater);
      Success(SortBy(mine, NotifiedLater))
  }

  /** Two users' lists share no notification, and together hold each of
      the notifications addressed to either of them. */
  lemma ListsArePrivate(u: UserId, v: UserId, ns: seq<Notification>, n: Notification)
    requires u != v
    ensures !(n in ListNotifications(Authenticated(u), ns).value && n in ListNotifications(Authenticated(v), ns).value)
    ensures n in ns && (n.recipient == u || n.recipient == v) ==>
              n in ListNotifications(Authenticated(u), ns).value || n in ListNotifications(Authenticated(v), ns).value
  {
  }
}
