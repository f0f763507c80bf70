/** What a route handler receives from the session layer and what it answers. */
module Http {
  import opened Text
  import opened UserModel

  /** `session.user` as the session callback fills it in: the role is a plain
      string, so a route can test for any spelling. */
  datatype Actor = Actor(id: Id, role: string, officerId: string)

  /** The session issued at sign-in for the stored user `u`: its id is the
      user's `_id` printed back, its role and officerId are the user's. */
  function SessionOf(u: User): (a: Actor)
    ensures a.id == u.id && a.officerId == u.officerId
    ensures a.role == "ADMIN" || a.role == "OFFICER"
  {
    Actor(u.id, RoleName(u.role), u.officerId)
  }

  /** The id of a session issued for a user stored under a canonical id
      passes every ObjectId cast, and the cast gives that id back. */
  lemma SessionIdCasts(u: User)
    requires IsCanonicalId(u.id)
    ensures IsObjectId(SessionOf(u).id) && CanonicalId(SessionOf(u).id) == u.id
  {
  }

  /** A request field bound for a typed schema path (a Number or a Date):
      left out, a value the path's cast accepts, or a value it rejects, which
      makes `create` throw a CastError. */
  datatype Field<T> = Missing | Given(value: T) | Uncastable {
    /** What the record holds after the cast. */
    function Stored(): (o: Option<T>)
      requires !Uncastable?
      ensures o.Some? <==> Given?
      ensures Given? ==> o.value == value
    {
      if Given? then Some(value) else None
    }
  }

  /** A handler's answer: the 2xx body, or the status of the error response. */
  datatype Response<T> =
    | Ok(value: T)    // 200 or 201
    | BadRequest      // 400
    | Unauthorized    // 401
    | Forbidden       // 403
    | NotFound        // 404
    | Conflict        // 409
    | ServerError     // 500: a thrown cast or validation error
}
