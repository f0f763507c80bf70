/** app/properties/page.tsx: the second pair of handlers for adding a
    property (POST, officers only) and listing the properties of one case (GET). */
module PropertiesPage {
  import opened Text
  import opened Seqs
  import opened Tables
  import opened Http
  import opened PropertyModel
  import opened AuditLogModel
  import opened Store

  /** The request body; unlike the API route it carries the photo URL itself. */
  datatype PageBody = PageBody(
    caseId: Option<string>,
    category: string,
    belongsTo: Option<string>,
    nature: string,
    quantity: string,
    location: string,
    description: string,
    photoUrl: string)

  /** Only a signed-in user whose role is exactly OFFICER may add here. */
  predicate MayAdd(actor: Option<Actor>) {
    actor.Some? && actor.value.role == "OFFICER"
  }

  /** The text the QR code encodes. */
  function QrPayload(id: Id): (s: string)
    ensures StartsWith(s, "PROPERTY:") && s[|"PROPERTY:"|..] == id
  {
    "PROPERTY:" + id
  }

  /** The property as it is stored once its QR code has been saved: the
      body's fields, the photo URL the body carries, IN_CUSTODY. */
  function NewProperty(id: Id, caseId: Id, body: PageBody, now: Millis): (p: Property)
    requires PartyAccepted(body.belongsTo)
    ensures p.id == id && p.caseId == caseId && p.location == body.location && p.photoUrl == body.photoUrl
    ensures p.status == InCustody && p.createdAt == now
    ensures p.qrCode == QrDataUrl(QrPayload(id))
  {
    Property(id, caseId, body.category, PartyOf(body.belongsTo), body.nature, body.quantity,
             body.location, body.description, body.photoUrl, QrDataUrl(QrPayload(id)), InCustody, now)
  }

  /** Every check before `Property.create` passes and the create's
      validation accepts the body, so the property is stored. */
  predicate Stores(actor: Option<Actor>, body: PageBody, caseIds: set<Id>) {
    && MayAdd(actor) && body.caseId.Some? && IsObjectId(body.caseId.value)
    && CanonicalId(body.caseId.value) in caseIds && PartyAccepted(body.belongsTo)
  }

  /** POST: `Case.findById(body.caseId)` comes first and is not guarded by an
      ObjectId test, so a caseId that is not an ObjectId fails the cast (500);
      a missing caseId, or one whose canonical spelling names no case, finds
      nothing (404). Then the property is
      stored IN_CUSTODY, its QR code is saved, and one PROPERTY_ADDED audit
      entry is written. A session id that is not an ObjectId fails that
      entry's `performedBy` cast (500) after the property has been saved: the
      property stays and no audit entry is written. */
  method Post(store: Store, actor: Option<Actor>, body: PageBody, newId: Id, now: Millis) returns (r: Response<Property>)
    requires store.Valid()
    requires newId !in store.properties.rows && IsCanonicalId(newId)
    modifies store
    ensures store.Valid()
    ensures r.Forbidden? <==> !MayAdd(actor)
    ensures r.ServerError? <==>
      MayAdd(actor) && body.caseId.Some? &&
      (!IsObjectId(body.caseId.value) ||
       (CanonicalId(body.caseId.value) in old(store.cases.rows) &&
        (!PartyAccepted(body.belongsTo) || !IsObjectId(actor.value.id))))
    ensures r.NotFound? <==>
      MayAdd(actor) &&
      (body.caseId.None? || (IsObjectId(body.caseId.value) && CanonicalId(body.caseId.value) !in old(store.cases.rows)))
    ensures r.Ok? <==> Stores(actor, body, old(store.cases.rows).Keys) && IsObjectId(actor.value.id)
    ensures !Stores(actor, body, old(store.cases.rows).Keys) ==> unchanged(store)
    ensures Stores(actor, body, old(store.cases.rows).Keys) ==>
      && var p := NewProperty(newId, CanonicalId(body.caseId.value), body, now);
      && store.properties == old(store.properties).Insert(newId, p)
      && store.auditLog ==
           (if IsObjectId(actor.value.id)
            then old(store.auditLog) +
                 [AuditEntry(PropertyAdded, PropertyEntity, newId, CanonicalId(actor.value.id), now, NoValue, PropertyValue(p))]
            else old(store.auditLog))
      && (r.Ok? ==> r.value == p)
      && unchanged(store`cases, store`users, store`custodyLogs, store`disposals, store`notifications)
  {
    if !MayAdd(actor) {
      return Forbidden;
    }
    if body.caseId.None? {
      return NotFound;
    }
    if !IsObjectId(body.caseId.value) {
      return ServerError;
    }
    var caseId := CanonicalId(body.caseId.value);
    if caseId !in store.cases.rows {
      return NotFound;
    }
    if !PartyAccepted(body.belongsTo) {
      return ServerError;
    }
    var created := Property(newId, caseId, body.category, PartyOf(body.belongsTo), body.nature, body.quantity,
                            body.location, body.description, body.photoUrl, NoQrCode, InCustody, now);
    AddKeepsConsistent(store.cases, store.properties, store.users, store.notifications,
                       store.custodyLogs, store.disposals, created.(qrCode := QrDataUrl(QrPayload(newId))));
    InsertThenUpdate(store.properties, newId, created, created.(qrCode := QrDataUrl(QrPayload(newId))));
    store.CreateProperty(created);
    var property := created.(qrCode := QrDataUrl(QrPayload(newId)));
    store.SaveProperty(property);
    if !IsObjectId(actor.value.id) {
      return ServerError;
    }
    store.CreateAuditLog(AuditEntry(PropertyAdded, PropertyEntity, newId, CanonicalId(actor.value.id), now,
                                    NoValue, PropertyValue(property)));
    r := Ok(property);
  }

  /** GET: `caseId` is required (400); one that is not an ObjectId fails the
      query's cast (500); otherwise exactly the properties of the case it
      denotes in any spelling, in natural order. */
  function Get(properties: seq<Property>, caseId: string): (r: Response<seq<Property>>)
    ensures r.BadRequest? <==> caseId == ""
    ensures r.ServerError? <==> caseId != "" && !IsObjectId(caseId)
    ensures !r.BadRequest? && !r.ServerError? ==> r.Ok?
    ensures r.Ok? ==>
      && IsObjectId(caseId)
      && (forall p :: p in r.value <==> p in properties && p.caseId == CanonicalId(caseId))
      && (forall p :: multiset(r.value)[p] == if p.caseId == CanonicalId(caseId) then multiset(properties)[p] else 0)
  {
    if caseId == "" then BadRequest
    else if !IsObjectId(caseId) then ServerError
    else
      var id := CanonicalId(caseId);
      var select := (p: Property) => p.caseId == id;
      FilterMultiset(properties, select);
      Ok(Filter(properties, select))
  }
}
