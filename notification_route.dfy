/** app/api/notification/route.ts: the signed-in user's notifications (GET). */
module NotificationRoute {
  import opened Text
  import opened Seqs
  import opened Http
  import opened NotificationModel

  /** The largest number of notifications one query returns. */
  const Limit: nat := 20

  /** The query's filter `{ userId }`. */
  function AddressedTo(userId: Id): Notification -> bool {
    (n: Notification) => n.userId == userId
  }

  /** The sort key of `.sort({ createdAt: -1 })`, smallest first. */
  function NewestKey(n: Notification): int {
    -(n.createdAt as int)
  }

  predicate NewestFirst(ns: seq<Notification>) {
    forall i, j :: 0 <= i < j < |ns| ==> ns[i].createdAt >= ns[j].createdAt
  }

  /** `Notification.find({ userId }).sort({ createdAt: -1 }).limit(20)`:
      20 of the user's notifications when they have that many, and all of
      them otherwise; none more often than it is stored, newest first, and
      none of theirs left out newer than one returned. */
  function Latest(notifications: seq<Notification>, userId: Id): (r: seq<Notification>)
    ensures forall n :: n in r ==> n in notifications && n.userId == userId
    ensures NewestFirst(r)
    ensures |r| <= Limit
    ensures forall n, n' :: n in r && n' in notifications && n'.userId == userId && n' !in r ==>
              n.createdAt >= n'.createdAt
    ensures |r| < Limit ==> forall n :: n in notifications && n.userId == userId ==> n in r
    ensures KeepsCounts(r, notifications, AddressedTo(userId), Limit)
  {
    var top := SelectTop(notifications, AddressedTo(userId), NewestKey, Limit);
    assert forall i, j :: 0 <= i < j < |top| ==> NewestKey(top[i]) <= NewestKey(top[j]);
    top
  }

  /** GET: no session gives 401; a session id that is not an ObjectId fails the
      query's cast (500). Otherwise at most 20 of the caller's notifications
      (those addressed to the canonical spelling of the session id),
      newest first: only the caller's, 20 of them when they have that many,
      none more often than it is stored, none of theirs left out newer than
      one returned, and all of them when fewer than 20 are returned. */
  function Get(actor: Option<Actor>, notifications: seq<Notification>): (r: Response<seq<Notification>>)
    ensures r.Unauthorized? <==> actor.None?
    ensures r.ServerError? <==> actor.Some? && !IsObjectId(actor.value.id)
    ensures r.Ok? <==> actor.Some? && IsObjectId(actor.value.id)
    ensures r.Ok? ==>
      && IsObjectId(actor.value.id)
      && var userId := CanonicalId(actor.value.id);
      && (forall n :: n in r.value ==> n in notifications && n.userId == userId)
      && NewestFirst(r.value)
      && |r.value| <= Limit
      && (forall n, n' :: n in r.value && n' in notifications && n'.userId == userId && n' !in r.value ==>
            n.createdAt >= n'.createdAt)
      && (|r.value| < Limit ==> forall n :: n in notifications && n.userId == userId ==> n in r.value)
      && KeepsCounts(r.value, notifications, AddressedTo(userId), Limit)
  {
    if actor.None? then Unauthorized
    else if !IsObjectId(actor.value.id) then ServerError
    else
      Ok(Latest(notifications, CanonicalId(actor.value.id)))
  }
}
