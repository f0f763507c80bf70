/** app/api/property/route.ts: add a property under a case (POST) and list
    properties (GET). */
module PropertyRoute {
  import opened Text
  import opened Seqs
  import opened Tables
  import opened Http
  import opened PropertyModel
  import opened AuditLogModel
  import opened Store

  /** The request body. `caseId` and `belongsTo` are `None` when left out;
      other fields left out are empty strings. */
  datatype PropertyBody = PropertyBody(
    caseId: Option<string>,
    category: string,
    belongsTo: Option<string>,
    nature: string,
    quantity: string,
    location: string,
    description: string)

  /** Only a signed-in ADMIN or OFFICER may add a property here. */
  predicate MayAdd(actor: Option<Actor>) {
    actor.Some? && actor.value.role in ["ADMIN", "OFFICER"]
  }

  /** The text the QR code encodes: the property's page under the site's base URL. */
  function QrPayload(baseUrl: string, id: Id): (s: string)
    ensures StartsWith(s, baseUrl + "/property/") && s[|baseUrl + "/property/"|..] == id
  {
    baseUrl + "/property/" + id
  }

  /** The property as it is stored once its QR code has been saved. */
  function NewProperty(id: Id, caseId: Id, body: PropertyBody, photoUrl: string, baseUrl: string, now: Millis): (p: Property)
    requires PartyAccepted(body.belongsTo)
    ensures p.id == id && p.caseId == caseId && p.location == body.location
    ensures p.status == InCustody && p.createdAt == now
    ensures p.qrCode == QrDataUrl(QrPayload(baseUrl, id))
  {
    Property(id, caseId, body.category, PartyOf(body.belongsTo), body.nature, body.quantity,
             body.location, body.description, photoUrl, QrDataUrl(QrPayload(baseUrl, id)), InCustody, now)
  }

  /** Every check before `Property.create` passes and the create's
      validation accepts the body, so the property is stored. */
  predicate Stores(actor: Option<Actor>, body: PropertyBody, caseIds: set<Id>) {
    && MayAdd(actor) && body.caseId.Some? && IsObjectId(body.caseId.value)
    && CanonicalId(body.caseId.value) in caseIds && PartyAccepted(body.belongsTo)
  }

  /** POST: checks the caller's role, that `caseId` is an ObjectId (400) and
      that its canonical spelling names a stored case (404); stores the
      property IN_CUSTODY under that case at
      `body.location`, then saves its QR code, then writes one PROPERTY_ADDED
      audit entry carrying the saved property. `photoUrl` is the uploaded
      image's URL ("" when no image was sent); `baseUrl` is the site's
      configured URL; `newId` is the ObjectId Mongo assigns. A `belongsTo`
      outside the enum fails validation on create (500) with nothing stored.
      A session id that is not an ObjectId fails the audit entry's
      `performedBy` cast (500) after the property has been saved: the
      property stays and no audit entry is written. */
  method Post(store: Store, actor: Option<Actor>, body: PropertyBody, photoUrl: string, baseUrl: string,
              newId: Id, now: Millis) returns (r: Response<Property>)
    requires store.Valid()
    requires newId !in store.properties.rows && IsCanonicalId(newId)
    modifies store
    ensures store.Valid()
    ensures r.Forbidden? <==> !MayAdd(actor)
    ensures r.BadRequest? <==> MayAdd(actor) && !(body.caseId.Some? && IsObjectId(body.caseId.value))
    ensures r.NotFound? <==> MayAdd(actor) && body.caseId.Some? && IsObjectId(body.caseId.value)
                             && CanonicalId(body.caseId.value) !in old(store.cases.rows)
    ensures r.ServerError? <==> MayAdd(actor) && body.caseId.Some? && IsObjectId(body.caseId.value)
                                && CanonicalId(body.caseId.value) in old(store.cases.rows)
                                && (!PartyAccepted(body.belongsTo) || !IsObjectId(actor.value.id))
    ensures r.Ok? <==> Stores(actor, body, old(store.cases.rows).Keys) && IsObjectId(actor.value.id)
    ensures !Stores(actor, body, old(store.cases.rows).Keys) ==> unchanged(store)
    ensures Stores(actor, body, old(store.cases.rows).Keys) ==>
      && var p := NewProperty(newId, CanonicalId(body.caseId.value), body, photoUrl, baseUrl, now);
      && store.properties == old(store.properties).Insert(newId, p)
      && store.auditLog ==
           (if IsObjectId(actor.value.id)
            then old(store.auditLog) +
                 [AuditEntry(PropertyAdded, PropertyEntity, newId, CanonicalId(actor.value.id), now, NoValue, PropertyValue(p))]
            else old(store.auditLog))
      && (r.Ok? ==> r.value == p)
      && unchanged(store`cases, store`users, store`custodyLogs, store`disposals, store`notifications)
  {
    if !MayAdd(actor) {
      return Forbidden;
    }
    if !(body.caseId.Some? && IsObjectId(body.caseId.value)) {
      return BadRequest;
    }
    var caseId := CanonicalId(body.caseId.value);
    if caseId !in store.cases.rows {
      return NotFound;
    }
    if !PartyAccepted(body.belongsTo) {
      return ServerError;
    }
    var created := Property(newId, caseId, body.category, PartyOf(body.belongsTo), body.nature, body.quantity,
                            body.location, body.description, photoUrl, NoQrCode, InCustody, now);
    AddKeepsConsistent(store.cases, store.properties, store.users, store.notifications,
                       store.custodyLogs, store.disposals, created.(qrCode := QrDataUrl(QrPayload(baseUrl, newId))));
    InsertThenUpdate(store.properties, newId, created, created.(qrCode := QrDataUrl(QrPayload(baseUrl, newId))));
    store.CreateProperty(created);
    var property := created.(qrCode := QrDataUrl(QrPayload(baseUrl, newId)));
    store.SaveProperty(property);
    if !IsObjectId(actor.value.id) {
      return ServerError;
    }
    store.CreateAuditLog(AuditEntry(PropertyAdded, PropertyEntity, newId, CanonicalId(actor.value.id), now,
                                    NoValue, PropertyValue(property)));
    r := Ok(property);
  }

  /** A property is listed when it matches each filter that was given; the
      caseId filter is cast, so any spelling of the case's id selects it. */
  predicate Selected(p: Property, caseId: string, status: string) {
    && (caseId == "" || (IsObjectId(caseId) && p.caseId == CanonicalId(caseId)))
    && (status == "" || PropertyStatusName(p.status) == status)
  }

  predicate NewestFirst(ps: seq<Property>) {
    forall i, j :: 0 <= i < j < |ps| ==> ps[i].createdAt >= ps[j].createdAt
  }

  /** GET: a `caseId` that is given must be an ObjectId (400); the result is
      every stored property that matches the given `caseId` and `status`
      filters, each as often as it is stored, newest first. */
  function Get(properties: seq<Property>, caseId: string, status: string): (r: Response<seq<Property>>)
    ensures r.BadRequest? <==> caseId != "" && !IsObjectId(caseId)
    ensures !r.BadRequest? ==> r.Ok?
    ensures r.Ok? ==>
      && (forall p :: p in r.value <==> p in properties && Selected(p, caseId, status))
      && (forall p :: multiset(r.value)[p] == if Selected(p, caseId, status) then multiset(properties)[p] else 0)
      && NewestFirst(r.value)
  {
    if caseId != "" && !IsObjectId(caseId) then BadRequest
    else
      var key: Property -> int := (p: Property) => -(p.createdAt as int);
      var sorted := SelectSorted(properties, p => Selected(p, caseId, status), key);
      assert forall i, j :: 0 <= i < j < |sorted| ==> key(sorted[i]) <= key(sorted[j]);
      Ok(sorted)
  }
}
