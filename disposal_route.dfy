/** app/api/disposal/route.ts: dispose of a property (POST), closing its case
    when no property of the case is left in custody. */
module DisposalRoute {
  import opened Text
  import opened Tables
  import opened Http
  import opened CaseModel
  import opened PropertyModel
  import opened DisposalModel
  import opened AuditLogModel
  import opened Store

  /** The request body; `disposalType` is `None` when left out. */
  datatype DisposalBody = DisposalBody(propertyId: string, disposalType: Option<string>, courtOrderRef: string, remarks: string)

  /** Only a signed-in ADMIN may dispose of property. */
  predicate MayDispose(actor: Option<Actor>) {
    actor.Some? && actor.value.role == "ADMIN"
  }

  /** `disposalType` passes the schema's enum validator: absent, or one of the names. */
  predicate TypeAccepted(disposalType: Option<string>) {
    disposalType.None? || ParseDisposalType(disposalType.value).Some?
  }

  function TypeOf(disposalType: Option<string>): Option<DisposalType>
    requires TypeAccepted(disposalType)
  {
    if disposalType.None? then None else ParseDisposalType(disposalType.value)
  }

  /** POST: checks the role (403), that `propertyId` is an ObjectId (400) and
      that its canonical spelling names a stored property (404); a `disposalType` outside the enum fails
      validation on create (500), and so does a session id that is not an
      ObjectId (the `disposedBy` cast), with nothing stored. Otherwise it appends one
      Disposal record, marks the property DISPOSED (whatever its status was:
      there is no guard against disposing twice), counts the case's properties
      not yet DISPOSED and closes the case when that count is zero, and writes
      one PROPERTY_DISPOSED audit entry. Closing the case writes no audit entry
      of its own. */
  method Post(store: Store, actor: Option<Actor>, body: DisposalBody, now: Millis) returns (r: Response<Disposal>)
    requires store.Valid()
    modifies store
    ensures store.Valid()
    ensures r.Forbidden? <==> !MayDispose(actor)
    ensures r.BadRequest? <==> MayDispose(actor) && !IsObjectId(body.propertyId)
    ensures r.NotFound? <==>
      MayDispose(actor) && IsObjectId(body.propertyId) && CanonicalId(body.propertyId) !in old(store.properties.rows)
    ensures r.ServerError? <==>
      && MayDispose(actor) && IsObjectId(body.propertyId) && CanonicalId(body.propertyId) in old(store.properties.rows)
      && (!TypeAccepted(body.disposalType) || !IsObjectId(actor.value.id))
    ensures r.Ok? <==>
      && MayDispose(actor) && IsObjectId(body.propertyId) && CanonicalId(body.propertyId) in old(store.properties.rows)
      && TypeAccepted(body.disposalType) && IsObjectId(actor.value.id)
    ensures !r.Ok? ==> unchanged(store)
    ensures r.Ok? ==>
      && IsObjectId(body.propertyId) && TypeAccepted(body.disposalType) && IsObjectId(actor.value.id)
      && var pid := CanonicalId(body.propertyId);
      && var disposer := CanonicalId(actor.value.id);
      && pid in old(store.properties.rows)
      && var caseId := old(store.properties.rows[pid].caseId);
      && r.value == Disposal(pid, TypeOf(body.disposalType), body.courtOrderRef, disposer, now, body.remarks)
      && store.disposals == old(store.disposals) + [r.value]
      && store.properties == old(store.properties).Update(pid, old(store.properties.rows[pid]).(status := PropertyStatus.Disposed))
      && caseId in old(store.cases.rows)
      && store.cases ==
           (if Remaining(store.properties.rows, caseId) == 0
            then old(store.cases).Update(caseId, old(store.cases.rows[caseId]).(status := CaseStatus.Disposed))
            else old(store.cases))
      && store.auditLog == old(store.auditLog) +
           [AuditEntry(PropertyDisposed, PropertyEntity, pid, disposer, now,
                       NoValue, DisposalValue(TypeOf(body.disposalType), body.courtOrderRef))]
      && unchanged(store`users, store`custodyLogs, store`notifications)
  {
    if !MayDispose(actor) {
      return Forbidden;
    }
    if !IsObjectId(body.propertyId) {
      return BadRequest;
    }
    var propertyId := CanonicalId(body.propertyId);
    if propertyId !in store.properties.rows {
      return NotFound;
    }
    if !TypeAccepted(body.disposalType) || !IsObjectId(actor.value.id) {
      return ServerError;
    }
    var disposedBy := CanonicalId(actor.value.id);
    var property := store.properties.rows[propertyId];
    var disposal := Disposal(propertyId, TypeOf(body.disposalType), body.courtOrderRef, disposedBy, now, body.remarks);
    ghost var closes := Remaining(MarkDisposed(store.properties.rows, propertyId), property.caseId) == 0;
    DisposalKeepsConsistent(store.cases, store.properties, store.users, store.notifications,
                            store.custodyLogs, store.disposals, disposal, closes);
    store.CreateDisposal(disposal);
    store.SaveProperty(property.(status := PropertyStatus.Disposed));
    var remaining := Remaining(store.properties.rows, property.caseId);
    if remaining == 0 {
      store.SetCaseStatus(property.caseId, CaseStatus.Disposed);
    }
    store.CreateAuditLog(AuditEntry(PropertyDisposed, PropertyEntity, propertyId, disposedBy, now,
                                    NoValue, DisposalValue(disposal.disposalType, disposal.courtOrderRef)));
    r := Ok(disposal);
  }

  /** The cascade on the case rows: the owning case is DISPOSED afterwards
      exactly when it already was or no property of it is left undisposed;
      it never goes back to PENDING, and no other case changes. */
  lemma CascadeClosesCase(cases: map<Id, Case>, props: map<Id, Property>, pid: Id)
    requires pid in props && props[pid].caseId in cases
    ensures
      var caseId := props[pid].caseId;
      var props' := MarkDisposed(props, pid);
      var cases' := CloseCase(cases, caseId, Remaining(props', caseId) == 0);
      && cases'.Keys == cases.Keys
      && (forall c :: c in cases && c != caseId ==> cases'[c] == cases[c])
      && (cases'[caseId].status == CaseStatus.Disposed <==>
            || cases[caseId].status == CaseStatus.Disposed
            || forall k :: k in props' && props'[k].caseId == caseId ==> props'[k].status == PropertyStatus.Disposed)
      && (forall c :: c in cases && cases[c].status == CaseStatus.Disposed ==> cases'[c].status == CaseStatus.Disposed)
  {
    RemainingZero(MarkDisposed(props, pid), props[pid].caseId);
  }

  /** Property statuses move one way: the disposed property is DISPOSED
      afterwards, every other property is as it was. */
  lemma DisposalMarksOne(props: map<Id, Property>, pid: Id)
    requires pid in props
    ensures MarkDisposed(props, pid).Keys == props.Keys
    ensures MarkDisposed(props, pid)[pid].status == PropertyStatus.Disposed
    ensures forall k :: k in props && k != pid ==> MarkDisposed(props, pid)[k] == props[k]
    ensures forall k :: k in props && props[k].status == PropertyStatus.Disposed ==> MarkDisposed(props, pid)[k].status == PropertyStatus.Disposed
  {
  }
}
