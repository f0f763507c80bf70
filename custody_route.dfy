/** app/api/custody/route.ts: move a property (POST) and read its custody
    history (GET). */
module CustodyRoute {
  import opened Text
  import opened Seqs
  import opened Tables
  import opened Http
  import opened UserModel
  import opened PropertyModel
  import opened CustodyLogModel
  import opened AuditLogModel
  import opened Store

  datatype TransferBody = TransferBody(propertyId: string, toLocation: string, purpose: string, remarks: string)

  /** Only a caller whose role is exactly MALKHANA may move a property. */
  predicate MayMove(actor: Option<Actor>) {
    actor.Some? && actor.value.role == "MALKHANA"
  }

  /** Sessions are issued from stored users, whose roles are ADMIN or OFFICER
      only, so no such session passes the guard. */
  lemma NoSessionMayMove(u: User)
    ensures !MayMove(Some(SessionOf(u)))
  {
    NoRoleIsMalkhana(u.role);
  }

  /** POST: checks the role (403), that `propertyId` is an ObjectId (400) and
      that its canonical spelling names a stored property (404); a session id
      that is not an ObjectId fails the `handledBy` cast of the create (500)
      with nothing written. Otherwise it records a CustodyLog whose
      `fromLocation` is the property's location as read, moves the property to
      `toLocation` (no other field changes) and writes one PROPERTY_MOVED audit
      entry with the old and new locations. */
  method Post(store: Store, actor: Option<Actor>, body: TransferBody, now: Millis) returns (r: Response<CustodyLog>)
    requires store.Valid()
    modifies store
    ensures store.Valid()
    ensures r.Forbidden? <==> !MayMove(actor)
    ensures r.BadRequest? <==> MayMove(actor) && !IsObjectId(body.propertyId)
    ensures r.NotFound? <==>
      MayMove(actor) && IsObjectId(body.propertyId) && CanonicalId(body.propertyId) !in old(store.properties.rows)
    ensures r.ServerError? <==>
      && MayMove(actor) && IsObjectId(body.propertyId) && CanonicalId(body.propertyId) in old(store.properties.rows)
      && !IsObjectId(actor.value.id)
    ensures r.Ok? <==>
      && MayMove(actor) && IsObjectId(body.propertyId) && CanonicalId(body.propertyId) in old(store.properties.rows)
      && IsObjectId(actor.value.id)
    ensures !r.Ok? ==> unchanged(store)
    ensures r.Ok? ==>
      && IsObjectId(body.propertyId) && IsObjectId(actor.value.id)
      && var pid := CanonicalId(body.propertyId);
      && var handler := CanonicalId(actor.value.id);
      && pid in old(store.properties.rows)
      && var p := old(store.properties.rows[pid]);
      && r.value == CustodyLog(pid, p.location, body.toLocation, body.purpose, handler, now, body.remarks)
      && store.custodyLogs == old(store.custodyLogs) + [r.value]
      && store.properties == old(store.properties).Update(pid, p.(location := body.toLocation))
      && store.auditLog == old(store.auditLog) +
           [AuditEntry(PropertyMoved, PropertyEntity, pid, handler, now,
                       LocationValue(p.location), LocationValue(body.toLocation))]
      && unchanged(store`cases, store`users, store`disposals, store`notifications)
  {
    if !MayMove(actor) {
      return Forbidden;
    }
    if !IsObjectId(body.propertyId) {
      return BadRequest;
    }
    var propertyId := CanonicalId(body.propertyId);
    if propertyId !in store.properties.rows {
      return NotFound;
    }
    if !IsObjectId(actor.value.id) {
      return ServerError;
    }
    var handledBy := CanonicalId(actor.value.id);
    var property := store.properties.rows[propertyId];
    var fromLocation := property.location;
    var custodyLog := CustodyLog(propertyId, fromLocation, body.toLocation, body.purpose, handledBy, now, body.remarks);
    TransferKeepsConsistent(store.cases, store.properties, store.users, store.notifications,
                            store.custodyLogs, store.disposals, custodyLog);
    store.CreateCustodyLog(custodyLog);
    store.SaveProperty(property.(location := body.toLocation));
    store.CreateAuditLog(AuditEntry(PropertyMoved, PropertyEntity, propertyId, handledBy, now,
                                    LocationValue(fromLocation), LocationValue(body.toLocation)));
    r := Ok(custodyLog);
  }

  predicate OldestFirst(ls: seq<CustodyLog>) {
    forall i, j :: 0 <= i < j < |ls| ==> ls[i].dateTime <= ls[j].dateTime
  }

  /** GET: `propertyId` is required (400); one that is not an ObjectId fails
      the query's cast (500); otherwise the entries of the property it denotes
      in any spelling, each as often as it is stored, oldest first. */
  function Get(logs: seq<CustodyLog>, propertyId: string): (r: Response<seq<CustodyLog>>)
    ensures r.BadRequest? <==> propertyId == ""
    ensures r.ServerError? <==> propertyId != "" && !IsObjectId(propertyId)
    ensures !r.BadRequest? && !r.ServerError? ==> r.Ok?
    ensures r.Ok? ==>
      && IsObjectId(propertyId)
      && (forall l :: l in r.value <==> l in logs && l.propertyId == CanonicalId(propertyId))
      && (forall l :: multiset(r.value)[l] == if l.propertyId == CanonicalId(propertyId) then multiset(logs)[l] else 0)
      && OldestFirst(r.value)
  {
    if propertyId == "" then BadRequest
    else if !IsObjectId(propertyId) then ServerError
    else
      var key := (l: CustodyLog) => l.dateTime as int;
      var pid := CanonicalId(propertyId);
      var sorted := SelectSorted(logs, (l: CustodyLog) => l.propertyId == pid, key);
      assert forall i, j :: 0 <= i < j < |sorted| ==> key(sorted[i]) <= key(sorted[j]);
      Ok(sorted)
  }

  /** When a property's entries were recorded in time order, as they are when
      each transfer is stamped with the time it is made, the listing is
      exactly the property's recorded history. */
  lemma GetIsHistory(logs: seq<CustodyLog>, propertyId: string)
    requires IsObjectId(propertyId)
    requires OldestFirst(LogsOf(logs, CanonicalId(propertyId)))
    ensures Get(logs, propertyId) == Ok(LogsOf(logs, CanonicalId(propertyId)))
  {
    var pid := CanonicalId(propertyId);
    LogsOfFilters(logs, pid);
    var key := (l: CustodyLog) => l.dateTime as int;
    assert SortedBy(LogsOf(logs, pid), key);
    SortBySortedIsIdentity(LogsOf(logs, pid), key);
  }
}
