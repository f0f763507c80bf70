/** The record store behind the route handlers: one collection per model, the
    Mongoose operations the handlers call, and the consistency the handlers
    keep between the collections. */
module Store {
  import opened Text
  import Seqs
  import opened Tables
  import opened CaseModel
  import opened PropertyModel
  import opened CustodyLogModel
  import opened DisposalModel
  import opened UserModel
  import opened NotificationModel
  import opened AuditLogModel

  // ---------------------------------------------------------------------
  // Consistency between the collections

  /** Cases are stored under their ids, each an ObjectId in its canonical
      (lower-case) spelling. */
  ghost predicate CasesKeyed(t: Table<Id, Case>) {
    t.Valid() && forall k :: k in t.rows ==> t.rows[k].id == k && IsCanonicalId(k)
  }

  /** Properties are stored under their ids, each an ObjectId in its canonical
      spelling. */
  ghost predicate PropertiesKeyed(t: Table<Id, Property>) {
    t.Valid() && forall k :: k in t.rows ==> t.rows[k].id == k && IsCanonicalId(k)
  }

  /** Users are stored under their ids, each an ObjectId in its canonical
      spelling, and `officerId` is unique (models/User.ts:11). */
  ghost predicate UsersKeyed(t: Table<Id, User>) {
    && t.Valid()
    && (forall k :: k in t.rows ==> t.rows[k].id == k && IsCanonicalId(k))
    && (forall a, b :: a in t.rows && b in t.rows && a != b ==> t.rows[a].officerId != t.rows[b].officerId)
  }

  /** Each notification is stored under its own unique-index entry, so no two
      share a (userId, type, referenceId) triple (models/Notification.ts:51-54). */
  ghost predicate NotificationsKeyed(t: Table<NotificationKey, Notification>) {
    t.Valid() && forall k :: k in t.rows ==> t.rows[k].Key() == k
  }

  /** Every property belongs to an existing case. */
  ghost predicate PropertiesUnderCases(props: map<Id, Property>, cases: map<Id, Case>) {
    forall k :: k in props ==> props[k].caseId in cases
  }

  /** Every custody entry is about an existing property. */
  ghost predicate LogsUnderProperties(logs: seq<CustodyLog>, props: map<Id, Property>) {
    forall i :: 0 <= i < |logs| ==> logs[i].propertyId in props
  }

  predicate HasDisposal(ds: seq<Disposal>, pid: Id) {
    exists i :: 0 <= i < |ds| && ds[i].propertyId == pid
  }

  /** A property is DISPOSED exactly when at least one Disposal record names it. */
  ghost predicate DisposalsMatch(ds: seq<Disposal>, props: map<Id, Property>) {
    && (forall i :: 0 <= i < |ds| ==> ds[i].propertyId in props && props[ds[i].propertyId].status == PropertyStatus.Disposed)
    && (forall k :: k in props && props[k].status == PropertyStatus.Disposed ==> HasDisposal(ds, k))
  }

  /** A DISPOSED case has at least one disposed property: a case is only ever
      closed by the disposal of one of its properties. */
  ghost predicate DisposedCasesJustified(cases: map<Id, Case>, props: map<Id, Property>) {
    forall c :: c in cases && cases[c].status == CaseStatus.Disposed ==>
      exists k :: k in props && props[k].caseId == c && props[k].status == PropertyStatus.Disposed
  }

  /** The case has at least one property. */
  ghost predicate HasProperties(props: map<Id, Property>, caseId: Id) {
    exists k :: k in props && props[k].caseId == caseId
  }

  /** Every property of the case is DISPOSED. */
  ghost predicate AllDisposed(props: map<Id, Property>, caseId: Id) {
    forall k :: k in props && props[k].caseId == caseId ==> props[k].status == PropertyStatus.Disposed
  }

  /** A case that has properties, all of them DISPOSED, is DISPOSED: the
      disposal of its last open property closes it. A case without any
      property stays as it was registered. */
  ghost predicate ClosedWhenDone(cases: map<Id, Case>, props: map<Id, Property>) {
    forall c :: c in cases && HasProperties(props, c) && AllDisposed(props, c) ==> cases[c].status == CaseStatus.Disposed
  }

  /** Every notification is addressed to a stored user and refers to a stored case. */
  ghost predicate NotificationsResolve(ns: map<NotificationKey, Notification>, users: map<Id, User>, cases: map<Id, Case>) {
    forall k :: k in ns ==> k.userId in users && k.referenceId in cases
  }

  /** The custody entries of property `pid`, oldest first. */
  function LogsOf(logs: seq<CustodyLog>, pid: Id): seq<CustodyLog>
  {
    if logs == [] then []
    else
      var last := logs[|logs| - 1];
      LogsOf(logs[..|logs| - 1], pid) + (if last.propertyId == pid then [last] else [])
  }

  /** The history of `pid` holds exactly the entries about `pid`, each as
      often as it was recorded, in the order they were recorded. */
  lemma {:induction false} LogsOfFilters(logs: seq<CustodyLog>, pid: Id)
    ensures LogsOf(logs, pid) == Seqs.Filter(logs, (l: CustodyLog) => l.propertyId == pid)
  {
    if logs != [] {
      var init, last := logs[..|logs| - 1], logs[|logs| - 1];
      assert logs == init + [last];
      LogsOfFilters(init, pid);
      Seqs.FilterAppend(init, [last], (l: CustodyLog) => l.propertyId == pid);
    }
  }

  /** A history in which each transfer starts where the previous one ended and
      the last one ended at the property's present location. */
  ghost predicate ChainedHistory(ls: seq<CustodyLog>, location: string) {
    && (forall i, j :: 0 <= i && j == i + 1 && j < |ls| ==> ls[j].fromLocation == ls[i].toLocation)
    && (ls != [] ==> ls[|ls| - 1].toLocation == location)
  }

  /** The custody entries of every property form one unbroken chain ending at
      where the property is now. */
  ghost predicate CustodyChained(logs: seq<CustodyLog>, props: map<Id, Property>) {
    forall k :: k in props ==> ChainedHistory(LogsOf(logs, k), props[k].location)
  }

  /** `Property.countDocuments({ caseId, status: { $ne: "DISPOSED" } })`. */
  function Remaining(props: map<Id, Property>, caseId: Id): nat {
    |set k | k in props && props[k].caseId == caseId && props[k].status != PropertyStatus.Disposed|
  }

  /** No property of the case is left undisposed exactly when the count is zero. */
  lemma RemainingZero(props: map<Id, Property>, caseId: Id)
    ensures Remaining(props, caseId) == 0 <==>
      forall k :: k in props && props[k].caseId == caseId ==> props[k].status == PropertyStatus.Disposed
  {
    var open := set k | k in props && props[k].caseId == caseId && props[k].status != PropertyStatus.Disposed;
    if k :| k in props && props[k].caseId == caseId && props[k].status != PropertyStatus.Disposed {
      assert k in open;
    }
  }

  // ---------------------------------------------------------------------
  // Lemmas the handlers use to keep the consistency

  lemma {:induction false} LogsOfAppend(logs: seq<CustodyLog>, l: CustodyLog, pid: Id)
    ensures LogsOf(logs + [l], pid) == LogsOf(logs, pid) + (if l.propertyId == pid then [l] else [])
  {
    assert (logs + [l])[..|logs|] == logs;
  }

  /** A property no entry mentions has an empty history. */
  lemma {:induction false} LogsOfUnmentioned(logs: seq<CustodyLog>, pid: Id)
    requires forall i :: 0 <= i < |logs| ==> logs[i].propertyId != pid
    ensures LogsOf(logs, pid) == []
  {
    if logs != [] {
      LogsOfUnmentioned(logs[..|logs| - 1], pid);
    }
  }

  /** A chained history extended by a transfer from the present location is
      chained and ends at the transfer's destination. */
  lemma ChainExtend(h: seq<CustodyLog>, l: CustodyLog)
    requires ChainedHistory(h, l.fromLocation)
    ensures ChainedHistory(h + [l], l.toLocation)
  {
    var h' := h + [l];
    forall i, j | 0 <= i && j == i + 1 && j < |h'| ensures h'[j].fromLocation == h'[i].toLocation {
      if j < |h| {
        assert h'[j] == h[j] && h'[i] == h[i];
      }
    }
  }

  /** Recording a transfer that starts at the property's present location and
      moving the property to its destination keeps every history chained. */
  lemma TransferKeepsChain(logs: seq<CustodyLog>, props: map<Id, Property>, l: CustodyLog)
    requires CustodyChained(logs, props)
    requires l.propertyId in props && l.fromLocation == props[l.propertyId].location
    ensures CustodyChained(logs + [l], props[l.propertyId := props[l.propertyId].(location := l.toLocation)])
  {
    var pid := l.propertyId;
    var props' := props[pid := props[pid].(location := l.toLocation)];
    forall k | k in props' ensures ChainedHistory(LogsOf(logs + [l], k), props'[k].location) {
      var h := LogsOf(logs, k);
      assert ChainedHistory(h, props[k].location);
      LogsOfAppend(logs, l, k);
      if k == pid {
        ChainExtend(h, l);
      } else {
        assert LogsOf(logs + [l], k) == h;
      }
    }
  }

  /** A new property that no entry mentions, and saves that leave every
      location as it was, keep every history chained. */
  lemma SameLocationsKeepChain(logs: seq<CustodyLog>, props: map<Id, Property>, props': map<Id, Property>)
    requires CustodyChained(logs, props)
    requires forall k :: k in props ==> k in props' && props'[k].location == props[k].location
    requires forall k :: k in props' && k !in props ==> forall i :: 0 <= i < |logs| ==> logs[i].propertyId != k
    ensures CustodyChained(logs, props')
  {
    forall k | k in props' && k !in props ensures LogsOf(logs, k) == [] {
      LogsOfUnmentioned(logs, k);
    }
  }

  /** Saving properties without touching their keys, cases or statuses keeps
      every fact that depends on those alone. */
  lemma SameStatusesKeepLinks(cases: map<Id, Case>, props: map<Id, Property>, props': map<Id, Property>,
                              ds: seq<Disposal>)
    requires props'.Keys == props.Keys
    requires forall k :: k in props ==> props'[k].caseId == props[k].caseId && props'[k].status == props[k].status
    requires PropertiesUnderCases(props, cases) && DisposalsMatch(ds, props) && DisposedCasesJustified(cases, props)
    requires ClosedWhenDone(cases, props)
    ensures PropertiesUnderCases(props', cases) && DisposalsMatch(ds, props') && DisposedCasesJustified(cases, props')
    ensures ClosedWhenDone(cases, props')
  {
    forall c | c in cases && cases[c].status == CaseStatus.Disposed
      ensures exists k :: k in props' && props'[k].caseId == c && props'[k].status == PropertyStatus.Disposed
    {
      var k :| k in props && props[k].caseId == c && props[k].status == PropertyStatus.Disposed;
      assert k in props';
    }
    SameStatusesKeepClosed(cases, props, props');
  }

  lemma SameStatusesKeepClosed(cases: map<Id, Case>, props: map<Id, Property>, props': map<Id, Property>)
    requires props'.Keys == props.Keys
    requires forall k :: k in props ==> props'[k].caseId == props[k].caseId && props'[k].status == props[k].status
    requires ClosedWhenDone(cases, props)
    ensures ClosedWhenDone(cases, props')
  {
    forall c | c in cases && HasProperties(props', c) && AllDisposed(props', c)
      ensures cases[c].status == CaseStatus.Disposed
    {
      var k :| k in props' && props'[k].caseId == c;
      assert k in props;
    }
  }

  /** All of the above at once. */
  ghost predicate Consistent(cases: Table<Id, Case>, properties: Table<Id, Property>, users: Table<Id, User>,
                             notifications: Table<NotificationKey, Notification>,
                             custodyLogs: seq<CustodyLog>, disposals: seq<Disposal>)
  {
    && CasesKeyed(cases)
    && PropertiesKeyed(properties)
    && UsersKeyed(users)
    && NotificationsKeyed(notifications)
    && PropertiesUnderCases(properties.rows, cases.rows)
    && LogsUnderProperties(custodyLogs, properties.rows)
    && DisposalsMatch(disposals, properties.rows)
    && DisposedCasesJustified(cases.rows, properties.rows)
    && ClosedWhenDone(cases.rows, properties.rows)
    && NotificationsResolve(notifications.rows, users.rows, cases.rows)
    && CustodyChained(custodyLogs, properties.rows)
  }

  /** A transfer from the property's present location, recorded and then
      saved as the property's new location, keeps the store consistent. */
  lemma TransferKeepsConsistent(cases: Table<Id, Case>, properties: Table<Id, Property>, users: Table<Id, User>,
                                notifications: Table<NotificationKey, Notification>,
                                custodyLogs: seq<CustodyLog>, disposals: seq<Disposal>, l: CustodyLog)
    requires Consistent(cases, properties, users, notifications, custodyLogs, disposals)
    requires l.propertyId in properties.rows && l.fromLocation == properties.rows[l.propertyId].location
    ensures Consistent(cases, properties.Update(l.propertyId, properties.rows[l.propertyId].(location := l.toLocation)),
                       users, notifications, custodyLogs + [l], disposals)
  {
    var pid := l.propertyId;
    var props' := properties.Update(pid, properties.rows[pid].(location := l.toLocation));
    PropertiesKeyedUpdate(properties, pid, properties.rows[pid].(location := l.toLocation));
    MoveKeepsLinks(cases.rows, properties.rows, disposals, pid, l.toLocation);
    AppendKeepsLogsUnder(custodyLogs, properties.rows, props'.rows, l);
    TransferKeepsChain(custodyLogs, properties.rows, l);
  }

  /** Moving one property keeps every fact that depends on keys, cases and
      statuses alone. */
  lemma MoveKeepsLinks(cases: map<Id, Case>, props: map<Id, Property>, ds: seq<Disposal>, pid: Id, to: string)
    requires pid in props
    requires PropertiesUnderCases(props, cases) && DisposalsMatch(ds, props) && DisposedCasesJustified(cases, props)
    requires ClosedWhenDone(cases, props)
    ensures var props' := props[pid := props[pid].(location := to)];
      && PropertiesUnderCases(props', cases) && DisposalsMatch(ds, props') && DisposedCasesJustified(cases, props')
      && ClosedWhenDone(cases, props')
  {
    SameStatusesKeepLinks(cases, props, props[pid := props[pid].(location := to)], ds);
  }

  /** An entry about a stored property, appended while no property is removed,
      keeps every entry about a stored property. */
  lemma AppendKeepsLogsUnder(logs: seq<CustodyLog>, props: map<Id, Property>, props': map<Id, Property>, l: CustodyLog)
    requires LogsUnderProperties(logs, props) && l.propertyId in props && props.Keys <= props'.Keys
    ensures LogsUnderProperties(logs + [l], props')
  {
    var logs' := logs + [l];
    forall i | 0 <= i < |logs'| ensures logs'[i].propertyId in props' {
      if i < |logs| {
        assert logs'[i] == logs[i];
      }
    }
  }

  /** Adding a PENDING case under a fresh id keeps the store consistent. */
  lemma CaseKeepsConsistent(cases: Table<Id, Case>, properties: Table<Id, Property>, users: Table<Id, User>,
                            notifications: Table<NotificationKey, Notification>,
                            custodyLogs: seq<CustodyLog>, disposals: seq<Disposal>, c: Case)
    requires Consistent(cases, properties, users, notifications, custodyLogs, disposals)
    requires c.id !in cases.rows && IsCanonicalId(c.id) && c.status == CaseStatus.Pending
    ensures Consistent(cases.Insert(c.id, c), properties, users, notifications, custodyLogs, disposals)
  {
    var cases' := cases.Insert(c.id, c);
    forall k | k in cases'.rows && cases'.rows[k].status == CaseStatus.Disposed
      ensures exists q :: q in properties.rows && properties.rows[q].caseId == k && properties.rows[q].status == PropertyStatus.Disposed
    {
      assert k in cases.rows && cases.rows[k] == cases'.rows[k];
    }
    forall k | k in cases'.rows && HasProperties(properties.rows, k) && AllDisposed(properties.rows, k)
      ensures cases'.rows[k].status == CaseStatus.Disposed
    {
      var q :| q in properties.rows && properties.rows[q].caseId == k;
      assert k in cases.rows && cases.rows[k] == cases'.rows[k];
    }
  }

  /** Adding a property IN_CUSTODY under a stored case keeps the store
      consistent, and the new property starts with an empty history. */
  lemma AddKeepsConsistent(cases: Table<Id, Case>, properties: Table<Id, Property>, users: Table<Id, User>,
                           notifications: Table<NotificationKey, Notification>,
                           custodyLogs: seq<CustodyLog>, disposals: seq<Disposal>, p: Property)
    requires Consistent(cases, properties, users, notifications, custodyLogs, disposals)
    requires p.id !in properties.rows && IsCanonicalId(p.id)
    requires p.caseId in cases.rows && p.status == PropertyStatus.InCustody
    ensures Consistent(cases, properties.Insert(p.id, p), users, notifications, custodyLogs, disposals)
    ensures LogsOf(custodyLogs, p.id) == []
  {
    var props' := properties.Insert(p.id, p);
    LogsOfUnmentioned(custodyLogs, p.id);
    PropertiesKeyedInsert(properties, p);
    AddKeepsLinks(cases.rows, properties.rows, custodyLogs, p);
    AddKeepsDisposals(cases.rows, properties.rows, disposals, p);
    SameLocationsKeepChain(custodyLogs, properties.rows, props'.rows);
  }

  lemma PropertiesKeyedInsert(properties: Table<Id, Property>, p: Property)
    requires PropertiesKeyed(properties) && p.id !in properties.rows && IsCanonicalId(p.id)
    ensures PropertiesKeyed(properties.Insert(p.id, p))
  {
  }

  lemma AddKeepsLinks(cases: map<Id, Case>, props: map<Id, Property>, logs: seq<CustodyLog>, p: Property)
    requires PropertiesUnderCases(props, cases) && LogsUnderProperties(logs, props) && p.caseId in cases
    ensures PropertiesUnderCases(props[p.id := p], cases) && LogsUnderProperties(logs, props[p.id := p])
  {
  }

  lemma AddKeepsDisposals(cases: map<Id, Case>, props: map<Id, Property>, ds: seq<Disposal>, p: Property)
    requires DisposalsMatch(ds, props) && DisposedCasesJustified(cases, props) && ClosedWhenDone(cases, props)
    requires p.id !in props && p.status == PropertyStatus.InCustody
    ensures DisposalsMatch(ds, props[p.id := p]) && DisposedCasesJustified(cases, props[p.id := p])
    ensures ClosedWhenDone(cases, props[p.id := p])
  {
    var props' := props[p.id := p];
    forall c | c in cases && cases[c].status == CaseStatus.Disposed
      ensures exists k :: k in props' && props'[k].caseId == c && props'[k].status == PropertyStatus.Disposed
    {
      var k :| k in props && props[k].caseId == c && props[k].status == PropertyStatus.Disposed;
      assert k in props' && props'[k] == props[k];
    }
    forall c | c in cases && HasProperties(props', c) && AllDisposed(props', c)
      ensures cases[c].status == CaseStatus.Disposed
    {
      assert c != p.caseId by {
        assert p.id in props' && props'[p.id].status != PropertyStatus.Disposed;
      }
      var k :| k in props' && props'[k].caseId == c;
      assert k in props && props[k] == props'[k];
      assert AllDisposed(props, c) by {
        forall q | q in props && props[q].caseId == c ensures props[q].status == PropertyStatus.Disposed {
          assert props'[q] == props[q];
        }
      }
    }
  }

  /** A user whose id and officerId are both new keeps the store consistent. */
  lemma UserKeepsConsistent(cases: Table<Id, Case>, properties: Table<Id, Property>, users: Table<Id, User>,
                            notifications: Table<NotificationKey, Notification>,
                            custodyLogs: seq<CustodyLog>, disposals: seq<Disposal>, u: User)
    requires Consistent(cases, properties, users, notifications, custodyLogs, disposals)
    requires u.id !in users.rows && IsCanonicalId(u.id)
    requires forall k :: k in users.rows ==> users.rows[k].officerId != u.officerId
    ensures Consistent(cases, properties, users.Insert(u.id, u), notifications, custodyLogs, disposals)
  {
    var users' := users.Insert(u.id, u);
    forall a, b | a in users'.rows && b in users'.rows && a != b
      ensures users'.rows[a].officerId != users'.rows[b].officerId
    {
      if a == u.id {
        assert users'.rows[b] == users.rows[b];
      } else if b == u.id {
        assert users'.rows[a] == users.rows[a];
      }
    }
  }

  /** A notification for a stored user about a stored case, inserted under
      its own key, keeps the store consistent. */
  lemma NotificationKeepsConsistent(cases: Table<Id, Case>, properties: Table<Id, Property>, users: Table<Id, User>,
                                    notifications: Table<NotificationKey, Notification>,
                                    custodyLogs: seq<CustodyLog>, disposals: seq<Disposal>, n: Notification)
    requires Consistent(cases, properties, users, notifications, custodyLogs, disposals)
    requires n.userId in users.rows && n.referenceId in cases.rows && n.Key() !in notifications.rows
    ensures Consistent(cases, properties, users, notifications.Insert(n.Key(), n), custodyLogs, disposals)
  {
  }

  /** The property rows after `pid` is marked DISPOSED. */
  function MarkDisposed(props: map<Id, Property>, pid: Id): map<Id, Property>
    requires pid in props
  {
    props[pid := props[pid].(status := PropertyStatus.Disposed)]
  }

  /** The case rows after the cascade: the case of `caseId` is closed when it
      exists and `close` holds, and nothing else changes. */
  function CloseCase(cases: map<Id, Case>, caseId: Id, close: bool): map<Id, Case> {
    if close && caseId in cases then cases[caseId := cases[caseId].(status := CaseStatus.Disposed)] else cases
  }

  /** `CloseCase` on the stored table. */
  function CloseCaseIn(cases: Table<Id, Case>, caseId: Id, close: bool): (t: Table<Id, Case>)
    requires caseId in cases.rows
    ensures t.rows == CloseCase(cases.rows, caseId, close) && t.order == cases.order
  {
    if close then cases.Update(caseId, cases.rows[caseId].(status := CaseStatus.Disposed)) else cases
  }

  /** A disposal record for `pid`, together with marking `pid` DISPOSED, keeps
      records and statuses in agreement. */
  lemma DisposalKeepsMatch(ds: seq<Disposal>, props: map<Id, Property>, d: Disposal)
    requires DisposalsMatch(ds, props) && d.propertyId in props
    ensures DisposalsMatch(ds + [d], MarkDisposed(props, d.propertyId))
  {
    var ds', props' := ds + [d], MarkDisposed(props, d.propertyId);
    forall i | 0 <= i < |ds'|
      ensures ds'[i].propertyId in props' && props'[ds'[i].propertyId].status == PropertyStatus.Disposed
    {
      if i < |ds| {
        assert ds'[i] == ds[i];
      }
    }
    forall k | k in props' && props'[k].status == PropertyStatus.Disposed ensures HasDisposal(ds', k) {
      if k == d.propertyId {
        assert ds'[|ds|].propertyId == k;
      } else {
        var i :| 0 <= i < |ds| && ds[i].propertyId == k;
        assert ds'[i] == ds[i];
      }
    }
  }

  /** Closing the case of a property that has just been marked DISPOSED keeps
      every DISPOSED case justified: that property is the witness. */
  lemma CloseKeepsJustified(cases: map<Id, Case>, props: map<Id, Property>, pid: Id, close: bool)
    requires DisposedCasesJustified(cases, props) && pid in props
    ensures DisposedCasesJustified(CloseCase(cases, props[pid].caseId, close), MarkDisposed(props, pid))
  {
    var cases', props' := CloseCase(cases, props[pid].caseId, close), MarkDisposed(props, pid);
    forall c | c in cases' && cases'[c].status == CaseStatus.Disposed
      ensures exists k :: k in props' && props'[k].caseId == c && props'[k].status == PropertyStatus.Disposed
    {
      if c == props[pid].caseId && close {
        assert props'[pid].caseId == c;
      } else {
        var k :| k in props && props[k].caseId == c && props[k].status == PropertyStatus.Disposed;
        assert k in props' && props'[k].caseId == c;
      }
    }
  }

  /** Marking a property DISPOSED, and closing its case whenever none of the
      case's properties is left undisposed, keeps every case whose
      properties are all DISPOSED closed. */
  lemma CloseKeepsClosedWhenDone(cases: map<Id, Case>, props: map<Id, Property>, pid: Id, close: bool)
    requires ClosedWhenDone(cases, props) && pid in props
    requires Remaining(MarkDisposed(props, pid), props[pid].caseId) == 0 ==> close
    ensures ClosedWhenDone(CloseCase(cases, props[pid].caseId, close), MarkDisposed(props, pid))
  {
    var caseId := props[pid].caseId;
    var cases', props' := CloseCase(cases, caseId, close), MarkDisposed(props, pid);
    forall c | c in cases' && HasProperties(props', c) && AllDisposed(props', c)
      ensures cases'[c].status == CaseStatus.Disposed
    {
      if c == caseId {
        RemainingZero(props', caseId);
      } else {
        var k :| k in props' && props'[k].caseId == c;
        assert k != pid && props[k] == props'[k];
        assert AllDisposed(props, c) by {
          forall q | q in props && props[q].caseId == c ensures props[q].status == PropertyStatus.Disposed {
            assert q != pid && props'[q] == props[q];
          }
        }
      }
    }
  }

  /** Disposing of a stored property, and closing its case when `close`
      says so (it must whenever no property of the case is left undisposed),
      keeps the store consistent. */
  lemma DisposalKeepsConsistent(cases: Table<Id, Case>, properties: Table<Id, Property>, users: Table<Id, User>,
                                notifications: Table<NotificationKey, Notification>,
                                custodyLogs: seq<CustodyLog>, disposals: seq<Disposal>, d: Disposal, close: bool)
    requires Consistent(cases, properties, users, notifications, custodyLogs, disposals)
    requires d.propertyId in properties.rows
    requires Remaining(MarkDisposed(properties.rows, d.propertyId), properties.rows[d.propertyId].caseId) == 0 ==> close
    ensures
      var pid := d.propertyId;
      var props' := properties.Update(pid, properties.rows[pid].(status := PropertyStatus.Disposed));
      var caseId := properties.rows[pid].caseId;
      var cases' := CloseCaseIn(cases, caseId, close);
      Consistent(cases', props', users, notifications, custodyLogs, disposals + [d])
  {
    var pid := d.propertyId;
    var props' := properties.Update(pid, properties.rows[pid].(status := PropertyStatus.Disposed));
    var caseId := properties.rows[pid].caseId;
    var cases' := CloseCaseIn(cases, caseId, close);
    CasesKeyedUpdate(cases, caseId, close);
    PropertiesKeyedUpdate(properties, pid, properties.rows[pid].(status := PropertyStatus.Disposed));
    DisposalKeepsLinks(cases.rows, properties.rows, notifications.rows, users.rows, custodyLogs, pid, close);
    DisposalKeepsMatch(disposals, properties.rows, d);
    CloseKeepsJustified(cases.rows, properties.rows, pid, close);
    CloseKeepsClosedWhenDone(cases.rows, properties.rows, pid, close);
    DisposalKeepsChain(custodyLogs, properties.rows, pid);
  }

  /** Marking a property DISPOSED leaves every location, so every history, as it was. */
  lemma DisposalKeepsChain(logs: seq<CustodyLog>, props: map<Id, Property>, pid: Id)
    requires pid in props && CustodyChained(logs, props)
    ensures CustodyChained(logs, MarkDisposed(props, pid))
  {
    SameLocationsKeepChain(logs, props, MarkDisposed(props, pid));
  }

  /** Disposing of a property and closing its case keep every reference
      between the collections. */
  lemma DisposalKeepsLinks(cases: map<Id, Case>, props: map<Id, Property>, ns: map<NotificationKey, Notification>,
                           users: map<Id, User>, logs: seq<CustodyLog>, pid: Id, close: bool)
    requires pid in props && props[pid].caseId in cases
    requires PropertiesUnderCases(props, cases) && LogsUnderProperties(logs, props) && NotificationsResolve(ns, users, cases)
    ensures var cases', props' := CloseCase(cases, props[pid].caseId, close), MarkDisposed(props, pid);
      PropertiesUnderCases(props', cases') && LogsUnderProperties(logs, props') && NotificationsResolve(ns, users, cases')
  {
    SameKeysKeepLinks(cases, props, ns, users, logs, CloseCase(cases, props[pid].caseId, close), MarkDisposed(props, pid));
  }

  lemma CasesKeyedUpdate(cases: Table<Id, Case>, caseId: Id, close: bool)
    requires CasesKeyed(cases) && caseId in cases.rows
    ensures CasesKeyed(CloseCaseIn(cases, caseId, close))
  {
  }

  lemma PropertiesKeyedUpdate(properties: Table<Id, Property>, pid: Id, p: Property)
    requires PropertiesKeyed(properties) && pid in properties.rows && p.id == pid
    ensures PropertiesKeyed(properties.Update(pid, p))
  {
  }

  /** Updates that keep every key of the cases and properties, and every
      property's case, keep every reference between the collections. */
  lemma SameKeysKeepLinks(cases: map<Id, Case>, props: map<Id, Property>, ns: map<NotificationKey, Notification>,
                          users: map<Id, User>, logs: seq<CustodyLog>,
                          cases': map<Id, Case>, props': map<Id, Property>)
    requires PropertiesUnderCases(props, cases) && LogsUnderProperties(logs, props) && NotificationsResolve(ns, users, cases)
    requires cases'.Keys == cases.Keys && props'.Keys == props.Keys
    requires forall k :: k in props ==> props'[k].caseId == props[k].caseId
    ensures PropertiesUnderCases(props', cases') && LogsUnderProperties(logs, props') && NotificationsResolve(ns, users, cases')
  {
  }

  // ---------------------------------------------------------------------
  // The store

  class Store {
    var cases: Table<Id, Case>
    var properties: Table<Id, Property>
    var users: Table<Id, User>
    var custodyLogs: seq<CustodyLog>
    var disposals: seq<Disposal>
    var auditLog: seq<AuditEntry>
    var notifications: Table<NotificationKey, Notification>

    ghost predicate Valid()
      reads this
    {
      Consistent(cases, properties, users, notifications, custodyLogs, disposals)
    }

    /** An empty database. */
    constructor ()
      ensures Valid()
      ensures cases == Empty() && properties == Empty() && users == Empty() && notifications == Empty()
      ensures custodyLogs == [] && disposals == [] && auditLog == []
    {
      cases, properties, users, notifications := Empty(), Empty(), Empty(), Empty();
      custodyLogs, disposals, auditLog := [], [], [];
    }

    /** `Case.create(c)`. */
    method CreateCase(c: Case)
      requires c.id !in cases.rows
      modifies this
      ensures cases == old(cases).Insert(c.id, c)
      ensures unchanged(this`properties, this`users, this`custodyLogs, this`disposals, this`auditLog, this`notifications)
    {
      cases := cases.Insert(c.id, c);
    }

    /** `Case.findByIdAndUpdate(id, { status })`: a missing case is left alone. */
    method SetCaseStatus(id: Id, status: CaseStatus)
      modifies this
      ensures cases == if id in old(cases.rows) then old(cases).Update(id, old(cases.rows[id]).(status := status)) else old(cases)
      ensures unchanged(this`properties, this`users, this`custodyLogs, this`disposals, this`auditLog, this`notifications)
    {
      if id in cases.rows {
        cases := cases.Update(id, cases.rows[id].(status := status));
      }
    }

    /** `Property.create(p)`. */
    method CreateProperty(p: Property)
      requires p.id !in properties.rows
      modifies this
      ensures properties == old(properties).Insert(p.id, p)
      ensures unchanged(this`cases, this`users, this`custodyLogs, this`disposals, this`auditLog, this`notifications)
    {
      properties := properties.Insert(p.id, p);
    }

    /** `property.save()` after fields of a loaded property were assigned. */
    method SaveProperty(p: Property)
      requires p.id in properties.rows
      modifies this
      ensures properties == old(properties).Update(p.id, p)
      ensures unchanged(this`cases, this`users, this`custodyLogs, this`disposals, this`auditLog, this`notifications)
    {
      properties := properties.Update(p.id, p);
    }

    /** `CustodyLog.create(l)`. */
    method CreateCustodyLog(l: CustodyLog)
      modifies this
      ensures custodyLogs == old(custodyLogs) + [l]
      ensures unchanged(this`cases, this`properties, this`users, this`disposals, this`auditLog, this`notifications)
    {
      custodyLogs := custodyLogs + [l];
    }

    /** `Disposal.create(d)`. */
    method CreateDisposal(d: Disposal)
      modifies this
      ensures disposals == old(disposals) + [d]
      ensures unchanged(this`cases, this`properties, this`users, this`custodyLogs, this`auditLog, this`notifications)
    {
      disposals := disposals + [d];
    }

    /** `AuditLog.create(e)`: the only way the audit log changes. */
    method CreateAuditLog(e: AuditEntry)
      modifies this
      ensures auditLog == old(auditLog) + [e]
      ensures unchanged(this`cases, this`properties, this`users, this`custodyLogs, this`disposals, this`notifications)
    {
      auditLog := auditLog + [e];
    }

    /** `User.create(u)`. */
    method CreateUser(u: User)
      requires u.id !in users.rows
      modifies this
      ensures users == old(users).Insert(u.id, u)
      ensures unchanged(this`cases, this`properties, this`custodyLogs, this`disposals, this`auditLog, this`notifications)
    {
      users := users.Insert(u.id, u);
    }

    /** `Notification.create(n)` against the unique index: when the triple is
        already taken the insert fails with a duplicate-key error (code 11000),
        reported here as `inserted == false`, and nothing is stored. */
    method CreateNotification(n: Notification) returns (inserted: bool)
      modifies this
      ensures inserted <==> n.Key() !in old(notifications.rows)
      ensures notifications == if inserted then old(notifications).Insert(n.Key(), n) else old(notifications)
      ensures unchanged(this`cases, this`properties, this`users, this`custodyLogs, this`disposals, this`auditLog)
    {
      inserted := n.Key() !in notifications.rows;
      if inserted {
        notifications := notifications.Insert(n.Key(), n);
      }
    }
  }
}
