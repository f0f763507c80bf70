/** services/pendingCaseAlert.service.ts: the sweep that notifies every user
    of every case left PENDING for too long, at most once per user and case. */
module PendingCaseAlert {
  import opened Text
  import opened Seqs
  import opened Tables
  import opened CaseModel
  import opened UserModel
  import opened NotificationModel
  import opened Store

  /** The sweep's default threshold, in seconds. */
  const DefaultSeconds: nat := 10

  /** `{ status: "PENDING", createdAt: { $lt: now - seconds * 1000 } }`: the
      comparison is strict and the threshold may lie before the epoch. */
  predicate IsStale(c: Case, seconds: nat, now: Millis) {
    c.status == Pending && (c.createdAt as int) < (now as int) - seconds * 1000
  }

  function StaleCases(cases: seq<Case>, seconds: nat, now: Millis): (r: seq<Case>)
    ensures forall c :: c in r <==> c in cases && IsStale(c, seconds, now)
  {
    Filter(cases, c => IsStale(c, seconds, now))
  }

  /** `{ role: { $in: ["ADMIN", "OFFICER"] } }`. */
  predicate IsRecipient(u: User) {
    RoleName(u.role) in ["ADMIN", "OFFICER"]
  }

  function Recipients(users: seq<User>): (r: seq<User>)
    ensures forall u :: u in r <==> u in users && IsRecipient(u)
  {
    Filter(users, IsRecipient)
  }

  /** Every stored role is ADMIN or OFFICER, so every user is a recipient. */
  lemma RecipientsAreAllUsers(users: seq<User>)
    ensures Recipients(users) == users
  {
    forall u | u in users ensures IsRecipient(u) {
      match u.role
      case Admin =>
      case Officer =>
    }
    FilterAll(users, IsRecipient);
  }

  /** The notification text: a warning sign, the crime number and the threshold. */
  function Message(crimeNumber: string, seconds: nat): (m: string)
    ensures m != []
    ensures StartsWith(m, "\U{26A0}\U{FE0F} Case ")
  {
    "\U{26A0}\U{FE0F} Case " + crimeNumber + " pending for more than " + NatToString(seconds) + " seconds"
  }

  /** The notification the sweep tries to create for user `u` and case `c`. */
  function Alert(u: User, c: Case, seconds: nat, now: Millis): (n: Notification)
    ensures n.Key() == NotificationKey(u.id, PendingCase, c.id)
    ensures !n.read && n.createdAt == now && n.message != []
  {
    Notification(u.id, PendingCase, c.id, Message(c.crimeNumber, seconds), false, now)
  }

  /** The alerts for one user, in the order of the cases. */
  function AlertsFor(u: User, cs: seq<Case>, seconds: nat, now: Millis): (r: seq<Notification>)
    ensures |r| == |cs|
    ensures forall i :: 0 <= i < |cs| ==> r[i] == Alert(u, cs[i], seconds, now)
  {
    if cs == [] then []
    else AlertsFor(u, cs[..|cs| - 1], seconds, now) + [Alert(u, cs[|cs| - 1], seconds, now)]
  }

  /** The alerts in the order the nested loops attempt them: user by user, and
      for each user case by case. */
  function Alerts(us: seq<User>, cs: seq<Case>, seconds: nat, now: Millis): seq<Notification> {
    if us == [] then []
    else Alerts(us[..|us| - 1], cs, seconds, now) + AlertsFor(us[|us| - 1], cs, seconds, now)
  }

  /** An alert is attempted for every user and every case, and for nothing else. */
  lemma {:induction false} AlertsContents(us: seq<User>, cs: seq<Case>, seconds: nat, now: Millis)
    ensures forall n :: n in Alerts(us, cs, seconds, now) <==>
      exists u, c :: u in us && c in cs && n == Alert(u, c, seconds, now)
  {
    if us != [] {
      var init, last := us[..|us| - 1], us[|us| - 1];
      AlertsContents(init, cs, seconds, now);
      assert us == init + [last];
      var a := AlertsFor(last, cs, seconds, now);
      forall n | n in Alerts(us, cs, seconds, now)
        ensures exists u, c :: u in us && c in cs && n == Alert(u, c, seconds, now)
      {
        if n in Alerts(init, cs, seconds, now) {
          var u, c :| u in init && c in cs && n == Alert(u, c, seconds, now);
          assert u in us;
        } else {
          assert n in a;
          var j :| 0 <= j < |a| && a[j] == n;
          assert n == Alert(last, cs[j], seconds, now);
        }
      }
      forall u, c | u in us && c in cs ensures Alert(u, c, seconds, now) in Alerts(us, cs, seconds, now) {
        if u in init {
          assert Alert(u, c, seconds, now) in Alerts(init, cs, seconds, now);
        } else {
          assert u == last;
          var j :| 0 <= j < |cs| && cs[j] == c;
          assert a[j] == Alert(u, c, seconds, now);
        }
      }
    }
  }

  /** One insert against the unique index: a key already present is skipped. */
  function InsertIfAbsent(t: Table<NotificationKey, Notification>, n: Notification): (t': Table<NotificationKey, Notification>) {
    if n.Key() in t.rows then t else t.Insert(n.Key(), n)
  }

  /** The table after `Notification.create` was attempted for each of `ns` in
      turn, with duplicate-key failures skipped. */
  function InsertAll(t: Table<NotificationKey, Notification>, ns: seq<Notification>): Table<NotificationKey, Notification> {
    if ns == [] then t
    else InsertIfAbsent(InsertAll(t, ns[..|ns| - 1]), ns[|ns| - 1])
  }

  /** The sweep only adds: afterwards a key is present exactly when it was
      before or one of `ns` carries it, every row stored before is kept as it
      was, and the table stays well formed and keyed. */
  lemma {:induction false} InsertAllGrows(t: Table<NotificationKey, Notification>, ns: seq<Notification>)
    ensures forall k :: k in InsertAll(t, ns).rows <==> k in t.rows || exists n :: n in ns && n.Key() == k
    ensures forall k :: k in t.rows ==> InsertAll(t, ns).rows[k] == t.rows[k]
    ensures |InsertAll(t, ns).order| >= |t.order|
    ensures NotificationsKeyed(t) ==> NotificationsKeyed(InsertAll(t, ns))
  {
    if ns != [] {
      var init, last := ns[..|ns| - 1], ns[|ns| - 1];
      assert ns == init + [last];
      InsertAllGrows(t, init);
      forall k | k in InsertAll(t, ns).rows ensures k in t.rows || exists n :: n in ns && n.Key() == k {
        if k != last.Key() && k !in t.rows {
          var n :| n in init && n.Key() == k;
          assert n in ns;
        }
      }
    }
  }

  /** When every key is already present, the sweep changes nothing. */
  lemma {:induction false} InsertAllPresent(t: Table<NotificationKey, Notification>, ns: seq<Notification>)
    requires forall n :: n in ns ==> n.Key() in t.rows
    ensures InsertAll(t, ns) == t
  {
    if ns != [] {
      var init := ns[..|ns| - 1];
      assert forall n :: n in init ==> n in ns;
      InsertAllPresent(t, init);
      assert ns[|ns| - 1] in ns;
    }
  }

  /** When some key is missing, the sweep inserts at least one row. */
  lemma {:induction false} InsertAllMissing(t: Table<NotificationKey, Notification>, ns: seq<Notification>)
    requires exists n :: n in ns && n.Key() !in t.rows
    ensures |InsertAll(t, ns).order| > |t.order|
  {
    var init, last := ns[..|ns| - 1], ns[|ns| - 1];
    assert ns == init + [last];
    InsertAllGrows(t, init);
    if exists n :: n in init && n.Key() !in t.rows {
      InsertAllMissing(t, init);
    } else {
      assert last.Key() !in InsertAll(t, init).rows;
    }
  }

  /** Running the same attempts again inserts nothing. */
  lemma InsertAllIdempotent(t: Table<NotificationKey, Notification>, ns: seq<Notification>)
    ensures InsertAll(InsertAll(t, ns), ns) == InsertAll(t, ns)
  {
    InsertAllGrows(t, ns);
    assert forall n :: n in ns ==> n.Key() in InsertAll(t, ns).rows;
    InsertAllPresent(InsertAll(t, ns), ns);
  }

  /** Attempts for users and cases that were already swept insert nothing,
      whatever threshold and time the later attempts carry: the unique index
      looks only at the (user, type, case) triple, not at the message or the
      timestamp. */
  lemma SweepOverSweptAddsNothing(t: Table<NotificationKey, Notification>, us: seq<User>, cs: seq<Case>,
                                  seconds: nat, now: Millis,
                                  us': seq<User>, cs': seq<Case>, seconds': nat, now': Millis)
    requires forall u :: u in us' ==> u in us
    requires forall c :: c in cs' ==> c in cs
    ensures var swept := InsertAll(t, Alerts(us, cs, seconds, now));
      InsertAll(swept, Alerts(us', cs', seconds', now')) == swept
  {
    var first, again := Alerts(us, cs, seconds, now), Alerts(us', cs', seconds', now');
    AlertsContents(us, cs, seconds, now);
    AlertsContents(us', cs', seconds', now');
    InsertAllGrows(t, first);
    forall n | n in again ensures n.Key() in InsertAll(t, first).rows {
      var u, c :| u in us' && c in cs' && n == Alert(u, c, seconds', now');
      assert Alert(u, c, seconds, now) in first;
    }
    InsertAllPresent(InsertAll(t, first), again);
  }

  /** Sweeping the same users and cases again, at another time or with
      another threshold, inserts nothing. */
  lemma SweepAgainAddsNothing(t: Table<NotificationKey, Notification>, us: seq<User>, cs: seq<Case>,
                              seconds: nat, now: Millis, seconds': nat, now': Millis)
    ensures var swept := InsertAll(t, Alerts(us, cs, seconds, now));
      InsertAll(swept, Alerts(us, cs, seconds', now')) == swept
  {
    SweepOverSweptAddsNothing(t, us, cs, seconds, now, us, cs, seconds', now');
  }

  /** After a sweep every user has a notification about every case swept,
      whether it was inserted now or was stored before. */
  lemma SweepCovers(t: Table<NotificationKey, Notification>, us: seq<User>, cs: seq<Case>, seconds: nat, now: Millis)
    ensures forall u, c :: u in us && c in cs ==>
      NotificationKey(u.id, PendingCase, c.id) in InsertAll(t, Alerts(us, cs, seconds, now)).rows
  {
    AlertsContents(us, cs, seconds, now);
    InsertAllGrows(t, Alerts(us, cs, seconds, now));
    forall u, c | u in us && c in cs
      ensures NotificationKey(u.id, PendingCase, c.id) in InsertAll(t, Alerts(us, cs, seconds, now)).rows
    {
      assert Alert(u, c, seconds, now) in Alerts(us, cs, seconds, now);
    }
  }

  /** A later sweep inserts notifications only about cases the earlier sweep
      did not cover: a case alerted once is never alerted again. */
  lemma LaterSweepOnlyNewCases(t: Table<NotificationKey, Notification>, us: seq<User>, cs: seq<Case>,
                               seconds: nat, now: Millis, cs': seq<Case>, seconds': nat, now': Millis)
    ensures var swept := InsertAll(t, Alerts(us, cs, seconds, now));
      forall k :: k in InsertAll(swept, Alerts(us, cs', seconds', now')).rows && k !in swept.rows ==>
        exists c :: c in cs' && c !in cs && k.referenceId == c.id
  {
    var swept := InsertAll(t, Alerts(us, cs, seconds, now));
    var again := Alerts(us, cs', seconds', now');
    SweepCovers(t, us, cs, seconds, now);
    AlertsContents(us, cs', seconds', now');
    InsertAllGrows(swept, again);
    forall k | k in InsertAll(swept, again).rows && k !in swept.rows
      ensures exists c :: c in cs' && c !in cs && k.referenceId == c.id
    {
      var n :| n in again && n.Key() == k;
      var u, c :| u in us && c in cs' && n == Alert(u, c, seconds', now');
      assert c !in cs;
    }
  }

  /** Nothing is inserted exactly when every key was already present. */
  lemma InsertAllCountsNew(t: Table<NotificationKey, Notification>, ns: seq<Notification>)
    ensures |InsertAll(t, ns).order| == |t.order| <==> forall n :: n in ns ==> n.Key() in t.rows
  {
    if forall n :: n in ns ==> n.Key() in t.rows {
      InsertAllPresent(t, ns);
    } else {
      InsertAllMissing(t, ns);
    }
  }

  /** Attempting `a` and then `b` is attempting `a + b`. */
  lemma {:induction false} InsertAllAppend(t: Table<NotificationKey, Notification>, a: seq<Notification>, b: seq<Notification>)
    ensures InsertAll(InsertAll(t, a), b) == InsertAll(t, a + b)
  {
    if b == [] {
      assert a + b == a;
    } else {
      var init := b[..|b| - 1];
      InsertAllAppend(t, a, init);
      assert (a + b)[..|a + b| - 1] == a + init;
    }
  }

  /** With no stale case nothing is attempted. */
  lemma {:induction false} AlertsNoCases(us: seq<User>, cs: seq<Case>, seconds: nat, now: Millis)
    requires cs == []
    ensures Alerts(us, cs, seconds, now) == []
  {
    if us != [] {
      AlertsNoCases(us[..|us| - 1], cs, seconds, now);
    }
  }

  /** Every listed case and user is stored under its own id. */
  lemma StoredIds(cases: Table<Id, Case>, users: Table<Id, User>)
    requires CasesKeyed(cases) && UsersKeyed(users)
    ensures forall c :: c in cases.Values() ==> c.id in cases.rows
    ensures forall u :: u in users.Values() ==> u.id in users.rows
  {
    ValuesContents(cases);
    ValuesContents(users);
  }

  lemma AlertsForSnoc(u: User, cs: seq<Case>, j: nat, seconds: nat, now: Millis)
    requires j < |cs|
    ensures AlertsFor(u, cs[..j + 1], seconds, now) == AlertsFor(u, cs[..j], seconds, now) + [Alert(u, cs[j], seconds, now)]
  {
    assert cs[..j + 1][..j] == cs[..j];
  }

  lemma AlertsSnoc(us: seq<User>, i: nat, cs: seq<Case>, seconds: nat, now: Millis)
    requires i < |us|
    ensures Alerts(us[..i + 1], cs, seconds, now) == Alerts(us[..i], cs, seconds, now) + AlertsFor(us[i], cs, seconds, now)
  {
    assert us[..i + 1][..i] == us[..i];
  }

  lemma InsertAllSnoc(t: Table<NotificationKey, Notification>, ns: seq<Notification>, n: Notification)
    ensures InsertAll(t, ns + [n]) == InsertIfAbsent(InsertAll(t, ns), n)
  {
    assert (ns + [n])[..|ns|] == ns;
  }

  /** One `Notification.create` inside the sweep's try/catch: a duplicate key
      (error 11000) is swallowed and nothing is written. */
  method TryCreate(store: Store, n: Notification) returns (inserted: bool)
    requires store.Valid()
    requires n.userId in store.users.rows && n.referenceId in store.cases.rows
    modifies store
    ensures store.Valid()
    ensures inserted <==> n.Key() !in old(store.notifications.rows)
    ensures store.notifications == InsertIfAbsent(old(store.notifications), n)
    ensures |store.notifications.order| == |old(store.notifications.order)| + (if inserted then 1 else 0)
    ensures unchanged(store`cases, store`properties, store`users, store`custodyLogs, store`disposals, store`auditLog)
  {
    if n.Key() !in store.notifications.rows {
      NotificationKeepsConsistent(store.cases, store.properties, store.users, store.notifications,
                                  store.custodyLogs, store.disposals, n);
    }
    inserted := store.CreateNotification(n);
  }

  /** The inner loop: one user's notifications for every stale case. */
  method NotifyUser(store: Store, user: User, stale: seq<Case>, seconds: nat, now: Millis) returns (count: nat)
    requires store.Valid()
    requires user.id in store.users.rows
    requires forall c :: c in stale ==> c.id in store.cases.rows
    modifies store
    ensures store.Valid()
    ensures store.notifications == InsertAll(old(store.notifications), AlertsFor(user, stale, seconds, now))
    ensures |store.notifications.order| == |old(store.notifications.order)| + count
    ensures unchanged(store`cases, store`properties, store`users, store`custodyLogs, store`disposals, store`auditLog)
  {
    ghost var t0 := store.notifications;
    count := 0;
    var j := 0;
    while j < |stale|
      invariant 0 <= j <= |stale|
      invariant store.Valid()
      invariant store.notifications == InsertAll(t0, AlertsFor(user, stale[..j], seconds, now))
      invariant |store.notifications.order| == |t0.order| + count
      invariant unchanged(store`cases, store`properties, store`users, store`custodyLogs, store`disposals, store`auditLog)
    {
      var n := Alert(user, stale[j], seconds, now);
      assert stale[j] in stale;
      AlertsForSnoc(user, stale, j, seconds, now);
      InsertAllSnoc(t0, AlertsFor(user, stale[..j], seconds, now), n);
      var inserted := TryCreate(store, n);
      if inserted {
        count := count + 1;
      }
      j := j + 1;
    }
    assert stale[..|stale|] == stale;
  }

  /** `checkPendingCases(seconds)` at time `now`: with no stale case it
      returns 0 and writes nothing; otherwise it attempts one notification
      per recipient and stale case, in that nested order, skips those whose
      key is already taken, and returns how many it inserted. */
  method CheckPendingCases(store: Store, seconds: nat, now: Millis) returns (createdCount: nat)
    requires store.Valid()
    modifies store
    ensures store.Valid()
    ensures
      var stale := StaleCases(old(store.cases).Values(), seconds, now);
      var users := Recipients(old(store.users).Values());
      store.notifications == InsertAll(old(store.notifications), Alerts(users, stale, seconds, now))
    ensures |store.notifications.order| == |old(store.notifications.order)| + createdCount
    ensures forall u, c :: u in Recipients(old(store.users).Values()) && c in StaleCases(old(store.cases).Values(), seconds, now) ==>
      NotificationKey(u.id, PendingCase, c.id) in store.notifications.rows
    ensures StaleCases(old(store.cases).Values(), seconds, now) == [] ==> createdCount == 0 && unchanged(store)
    ensures unchanged(store`cases, store`properties, store`users, store`custodyLogs, store`disposals, store`auditLog)
  {
    var stale := StaleCases(store.cases.Values(), seconds, now);
    if |stale| == 0 {
      AlertsNoCases(Recipients(store.users.Values()), stale, seconds, now);
      return 0;
    }
    var users := Recipients(store.users.Values());
    StoredIds(store.cases, store.users);
    ghost var t0 := store.notifications;
    createdCount := 0;
    var i := 0;
    while i < |users|
      invariant 0 <= i <= |users|
      invariant store.Valid()
      invariant forall u :: u in users ==> u.id in store.users.rows
      invariant forall c :: c in stale ==> c.id in store.cases.rows
      invariant store.notifications == InsertAll(t0, Alerts(users[..i], stale, seconds, now))
      invariant |store.notifications.order| == |t0.order| + createdCount
      invariant unchanged(store`cases, store`properties, store`users, store`custodyLogs, store`disposals, store`auditLog)
    {
      assert users[i] in users;
      var count := NotifyUser(store, users[i], stale, seconds, now);
      createdCount := createdCount + count;
      AlertsSnoc(users, i, stale, seconds, now);
      InsertAllAppend(t0, Alerts(users[..i], stale, seconds, now), AlertsFor(users[i], stale, seconds, now));
      i := i + 1;
    }
    assert users[..|users|] == users;
    SweepCovers(t0, users, stale, seconds, now);
  }

  /** app/api/cron/pending-cases/route.ts: one run of the sweep with its
      default threshold; the route answers with the count. */
  method CronGet(store: Store, now: Millis) returns (notificationsCreated: nat)
    requires store.Valid()
    modifies store
    ensures store.Valid()
    ensures store.notifications == InsertAll(old(store.notifications),
      Alerts(Recipients(old(store.users).Values()), StaleCases(old(store.cases).Values(), DefaultSeconds, now), DefaultSeconds, now))
    ensures |store.notifications.order| == |old(store.notifications.order)| + notificationsCreated
    ensures unchanged(store`cases, store`properties, store`users, store`custodyLogs, store`disposals, store`auditLog)
  {
    notificationsCreated := CheckPendingCases(store, DefaultSeconds, now);
  }

  /** Two runs of the sweep with nothing else written in between, as two
      calls of the cron route make them. When every case the second run finds
      stale was already stale at the first, the second run inserts nothing and
      returns 0; in particular when its cutoff (`now' - seconds' * 1000`) is no
      later than the first's. Whatever the two times, every notification the
      second run adds is about a case that was not yet stale at the first. */
  method CheckPendingCasesTwice(store: Store, seconds: nat, now: Millis, seconds': nat, now': Millis)
    returns (first: nat, second: nat)
    requires store.Valid()
    modifies store
    ensures store.Valid()
    ensures |store.notifications.order| == |old(store.notifications.order)| + first + second
    ensures (forall c :: c in StaleCases(old(store.cases).Values(), seconds', now') ==>
               c in StaleCases(old(store.cases).Values(), seconds, now)) ==>
      && second == 0
      && store.notifications == InsertAll(old(store.notifications),
           Alerts(Recipients(old(store.users).Values()), StaleCases(old(store.cases).Values(), seconds, now), seconds, now))
    ensures (now' as int) - seconds' * 1000 <= (now as int) - seconds * 1000 ==> second == 0
    ensures
      var stale, stale' := StaleCases(old(store.cases).Values(), seconds, now), StaleCases(old(store.cases).Values(), seconds', now');
      var swept := InsertAll(old(store.notifications), Alerts(Recipients(old(store.users).Values()), stale, seconds, now));
      forall k :: k in store.notifications.rows && k !in swept.rows ==>
        exists c :: c in stale' && c !in stale && k.referenceId == c.id
    ensures unchanged(store`cases, store`properties, store`users, store`custodyLogs, store`disposals, store`auditLog)
  {
    ghost var t0 := store.notifications;
    first := CheckPendingCases(store, seconds, now);
    second := CheckPendingCases(store, seconds', now');
    var users := Recipients(store.users.Values());
    var stale, stale' := StaleCases(store.cases.Values(), seconds, now), StaleCases(store.cases.Values(), seconds', now');
    if (now' as int) - seconds' * 1000 <= (now as int) - seconds * 1000 {
      assert forall c :: c in stale' ==> c in stale;
    }
    if forall c :: c in stale' ==> c in stale {
      SweepOverSweptAddsNothing(t0, users, stale, seconds, now, users, stale', seconds', now');
    }
    LaterSweepOnlyNewCases(t0, users, stale, seconds, now, stale', seconds', now');
  }
}
