/** app/api/user/add-officer/route.ts: an administrator registers a user (POST). */
module AddOfficerRoute {
  import opened Text
  import opened Tables
  import opened Http
  import opened UserModel
  import opened Store

  /** The request body; fields left out are empty strings. `role` is any string. */
  datatype OfficerBody = OfficerBody(name: string, officerId: string, password: string, policeStation: string, role: string)

  /** What the response shows of the new user: no password field. */
  datatype UserView = UserView(id: Id, name: string, officerId: string, role: Role)

  function ViewOf(u: User): UserView {
    UserView(u.id, u.name, u.officerId, u.role)
  }

  /** The cost factor passed to `bcrypt.hash`. */
  const SaltRounds: nat := 10

  predicate MayAddOfficer(actor: Option<Actor>) {
    actor.Some? && actor.value.role == "ADMIN"
  }

  /** Each of name, officerId, password and policeStation must be non-empty. */
  predicate HasRequiredFields(body: OfficerBody) {
    body.name != "" && body.officerId != "" && body.password != "" && body.policeStation != ""
  }

  /** `User.findOne({ officerId })` finds someone. */
  predicate OfficerIdTaken(users: map<Id, User>, officerId: string) {
    exists k :: k in users && users[k].officerId == officerId
  }

  /** The role is coerced: exactly "ADMIN" gives ADMIN, anything else OFFICER. */
  function CoerceRole(role: string): (r: Role)
    ensures r == Admin <==> role == "ADMIN"
    ensures RoleName(r) != "MALKHANA"
  {
    if role == "ADMIN" then Admin else Officer
  }

  /** POST: checks the role (403), the required fields (400) and that the
      officerId is free (409); then stores the user with the bcrypt hash of the
      password and the coerced role, and answers with its id, name, officerId
      and role. `newId` is the ObjectId Mongo assigns. */
  method Post(store: Store, actor: Option<Actor>, body: OfficerBody, newId: Id, now: Millis) returns (r: Response<UserView>)
    requires store.Valid()
    requires newId !in store.users.rows && IsCanonicalId(newId)
    modifies store
    ensures store.Valid()
    ensures r.Forbidden? <==> !MayAddOfficer(actor)
    ensures r.BadRequest? <==> MayAddOfficer(actor) && !HasRequiredFields(body)
    ensures r.Conflict? <==> MayAddOfficer(actor) && HasRequiredFields(body) && OfficerIdTaken(old(store.users.rows), body.officerId)
    ensures r.Ok? <==> MayAddOfficer(actor) && HasRequiredFields(body) && !OfficerIdTaken(old(store.users.rows), body.officerId)
    ensures !r.Ok? ==> unchanged(store)
    ensures r.Ok? ==>
      && var u := User(newId, body.name, body.officerId, Bcrypt(body.password, SaltRounds), CoerceRole(body.role),
                       body.policeStation, now);
      && store.users == old(store.users).Insert(newId, u)
      && r.value == ViewOf(u)
      && unchanged(store`cases, store`properties, store`custodyLogs, store`disposals, store`auditLog, store`notifications)
  {
    if !MayAddOfficer(actor) {
      return Forbidden;
    }
    if !HasRequiredFields(body) {
      return BadRequest;
    }
    if OfficerIdTaken(store.users.rows, body.officerId) {
      return Conflict;
    }
    var user := User(newId, body.name, body.officerId, Bcrypt(body.password, SaltRounds), CoerceRole(body.role),
                     body.policeStation, now);
    UserKeepsConsistent(store.cases, store.properties, store.users, store.notifications,
                        store.custodyLogs, store.disposals, user);
    store.CreateUser(user);
    r := Ok(ViewOf(user));
  }

  /** Two registrations in a row by the same administrator: when the first
      succeeds, a second one with the same officerId is refused with 409 and
      stores nothing, whatever else its body says. */
  method RegisterTwice(store: Store, actor: Option<Actor>, first: OfficerBody, second: OfficerBody,
                       firstId: Id, secondId: Id, now: Millis, later: Millis)
    returns (r1: Response<UserView>, r2: Response<UserView>)
    requires store.Valid()
    requires firstId !in store.users.rows && secondId !in store.users.rows && firstId != secondId
    requires IsCanonicalId(firstId) && IsCanonicalId(secondId)
    modifies store
    ensures store.Valid()
    ensures r1.Ok? && second.officerId == first.officerId && HasRequiredFields(second) ==>
      && r2.Conflict?
      && store.users == old(store.users).Insert(firstId,
           User(firstId, first.name, first.officerId, Bcrypt(first.password, SaltRounds), CoerceRole(first.role),
                first.policeStation, now))
      && |store.users.order| == |old(store.users.order)| + 1
  {
    r1 := Post(store, actor, first, firstId, now);
    ghost var afterFirst := store.users;
    r2 := Post(store, actor, second, secondId, later);
    if r1.Ok? && second.officerId == first.officerId && HasRequiredFields(second) {
      assert firstId in afterFirst.rows && afterFirst.rows[firstId].officerId == second.officerId;
    }
  }
}
