/** The User record (models/User.ts). */
module UserModel {
  import opened Text

  /** The only two roles the schema admits. */
  datatype Role = Admin | Officer

  function RoleName(r: Role): string {
    match r
    case Admin => "ADMIN"
    case Officer => "OFFICER"
  }

  /** A stored password: the output of `bcrypt.hash(plain, saltRounds)`,
      kept symbolic (the digest and its salt are not computed). */
  datatype PasswordHash = Bcrypt(plain: string, saltRounds: nat)

  datatype User = User(
    id: Id,
    name: string,
    officerId: string,
    password: PasswordHash,
    role: Role,
    policeStation: string,
    createdAt: Millis)

  /** No stored role is spelled "MALKHANA", the role the custody route demands. */
  lemma NoRoleIsMalkhana(r: Role)
    ensures RoleName(r) != "MALKHANA"
  {
  }
}
