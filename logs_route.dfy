/** app/api/logs/route.ts: the administrators' audit-trail query (GET). */
module LogsRoute {
  import opened Text
  import opened Seqs
  import opened Http
  import opened AuditLogModel

  /** The largest number of entries one query returns. */
  const Limit: nat := 200

  predicate MayRead(actor: Option<Actor>) {
    actor.Some? && actor.value.role == "ADMIN"
  }

  /** An entry is selected when it matches each filter that was given; an
      empty parameter is no filter. The entityId filter is cast, so any
      spelling of an id selects its entries. */
  predicate Selected(e: AuditEntry, entityId: string, entityType: string) {
    && (entityId == "" || (IsObjectId(entityId) && e.entityId == CanonicalId(entityId)))
    && (entityType == "" || EntityKindName(e.entityType) == entityType)
  }

  /** `Selected` as the query's filter. */
  function SelectedBy(entityId: string, entityType: string): AuditEntry -> bool {
    (e: AuditEntry) => Selected(e, entityId, entityType)
  }

  predicate NewestFirst(es: seq<AuditEntry>) {
    forall i, j :: 0 <= i < j < |es| ==> es[i].timestamp >= es[j].timestamp
  }

  /** GET: administrators only (403); an `entityId` that is given but is not
      an ObjectId fails the query's cast (500). Otherwise at most 200 of the
      selected entries (all of them when fewer are selected), newest first:
      only selected entries, none more often than it was logged, none of
      those left out newer than one returned, and every selected entry, as
      often as it was logged, when fewer than 200 are returned. The audit log
      itself is only read. */
  function Get(actor: Option<Actor>, log: seq<AuditEntry>, entityId: string, entityType: string): (r: Response<seq<AuditEntry>>)
    ensures r.Forbidden? <==> !MayRead(actor)
    ensures r.ServerError? <==> MayRead(actor) && entityId != "" && !IsObjectId(entityId)
    ensures r.Ok? <==> MayRead(actor) && (entityId == "" || IsObjectId(entityId))
    ensures r.Ok? ==>
      && (forall e :: e in r.value ==> e in log && Selected(e, entityId, entityType))
      && NewestFirst(r.value)
      && |r.value| <= Limit
      && (forall e, e' :: e in r.value && e' in log && Selected(e', entityId, entityType) && e' !in r.value ==>
            e.timestamp >= e'.timestamp)
      && (|r.value| < Limit ==> forall e :: e in log && Selected(e, entityId, entityType) ==> e in r.value)
      && KeepsCounts(r.value, log, SelectedBy(entityId, entityType), Limit)
  {
    if !MayRead(actor) then Forbidden
    else if entityId != "" && !IsObjectId(entityId) then ServerError
    else
      var key: AuditEntry -> int := (e: AuditEntry) => -(e.timestamp as int);
      var top := SelectTop(log, SelectedBy(entityId, entityType), key, Limit);
      assert forall i, j :: 0 <= i < j < |top| ==> key(top[i]) <= key(top[j]);
      Ok(top)
  }
}
