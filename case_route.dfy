/** app/api/case/route.ts: register a case (POST) and list cases (GET). */
module CaseRoute {
  import opened Text
  import opened Seqs
  import opened Tables
  import opened Http
  import opened CaseModel
  import opened AuditLogModel
  import opened Store

  /** The request body. Text fields the client leaves out are empty strings;
      `year` is bound for a Number path and the two dates for Date paths. */
  datatype CaseBody = CaseBody(
    policeStation: string,
    crimeNumber: string,
    year: Field<int>,
    firDate: Field<Millis>,
    seizureDate: Field<Millis>,
    actLaw: string,
    sections: seq<string>)

  /** Every typed field of the body survives its cast. */
  predicate Castable(body: CaseBody) {
    !body.year.Uncastable? && !body.firDate.Uncastable? && !body.seizureDate.Uncastable?
  }

  /** Only a signed-in ADMIN or OFFICER may register a case. */
  predicate MayCreate(actor: Option<Actor>) {
    actor.Some? && actor.value.role in ["ADMIN", "OFFICER"]
  }

  /** POST: stores the case as the body gives it (no field is checked beyond
      the schema's casts), owned by the caller (the session id cast for the
      `investigatingOfficer` ObjectId path) and PENDING, then writes one
      CASE_CREATED audit entry carrying the new case. A value the casts
      reject, the session id included, fails the create, and the handler
      answers 500 with nothing written. `newId` is the ObjectId Mongo assigns. */
  method Post(store: Store, actor: Option<Actor>, body: CaseBody, newId: Id, now: Millis) returns (r: Response<Case>)
    requires store.Valid()
    requires newId !in store.cases.rows && IsCanonicalId(newId)
    modifies store
    ensures store.Valid()
    ensures r.Forbidden? <==> !MayCreate(actor)
    ensures r.ServerError? <==> MayCreate(actor) && (!Castable(body) || !IsObjectId(actor.value.id))
    ensures r.Ok? <==> MayCreate(actor) && Castable(body) && IsObjectId(actor.value.id)
    ensures !r.Ok? ==> unchanged(store)
    ensures r.Ok? ==>
      && IsObjectId(actor.value.id)
      && var officer := CanonicalId(actor.value.id);
      && r.value == Case(newId, body.policeStation, body.crimeNumber, body.year.Stored(), body.firDate.Stored(),
                         body.seizureDate.Stored(), body.actLaw, body.sections, officer, Pending, now)
      && store.cases == old(store.cases).Insert(newId, r.value)
      && store.auditLog == old(store.auditLog) +
           [AuditEntry(CaseCreated, CaseEntity, newId, officer, now, NoValue, CaseValue(r.value))]
      && unchanged(store`properties, store`users, store`custodyLogs, store`disposals, store`notifications)
  {
    if !MayCreate(actor) {
      return Forbidden;
    }
    if !Castable(body) || !IsObjectId(actor.value.id) {
      return ServerError;
    }
    var officer := CanonicalId(actor.value.id);
    var newCase := Case(newId, body.policeStation, body.crimeNumber, body.year.Stored(), body.firDate.Stored(),
                        body.seizureDate.Stored(), body.actLaw, body.sections, officer, Pending, now);
    CaseKeepsConsistent(store.cases, store.properties, store.users, store.notifications,
                        store.custodyLogs, store.disposals, newCase);
    store.CreateCase(newCase);
    store.CreateAuditLog(AuditEntry(CaseCreated, CaseEntity, newId, officer, now, NoValue, CaseValue(newCase)));
    r := Ok(newCase);
  }

  /** The `$or` of two case-insensitive matches on crimeNumber and policeStation. */
  predicate MatchesSearch(c: Case, search: string) {
    ContainsIgnoreCase(c.crimeNumber, search) || ContainsIgnoreCase(c.policeStation, search)
  }

  /** A case is listed when there is no search, or when it matches the search. */
  predicate Selected(c: Case, search: string) {
    search == "" || MatchesSearch(c, search)
  }

  predicate NewestFirst(cs: seq<Case>) {
    forall i, j :: 0 <= i < j < |cs| ==> cs[i].createdAt >= cs[j].createdAt
  }

  /** GET: the cases the search selects (all of them without a search), each
      as often as it is stored, newest first. */
  function Get(cases: seq<Case>, search: string): (r: seq<Case>)
    ensures forall c :: c in r <==> c in cases && Selected(c, search)
    ensures forall c :: multiset(r)[c] == if Selected(c, search) then multiset(cases)[c] else 0
    ensures search == "" ==> multiset(r) == multiset(cases)
    ensures NewestFirst(r)
  {
    var key: Case -> int := (c: Case) => -(c.createdAt as int);
    var r := SelectSorted(cases, c => Selected(c, search), key);
    assert search == "" ==> multiset(r) == multiset(cases);
    assert forall i, j :: 0 <= i < j < |r| ==> key(r[i]) <= key(r[j]);
    r
  }
}
