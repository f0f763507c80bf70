/** The Disposal record (models/Disposal.ts). */
module DisposalModel {
  import opened Text

  datatype DisposalType = Returned | Destroyed | Auctioned | CourtCustody

  function DisposalTypeName(t: DisposalType): string {
    match t
    case Returned => "RETURNED"
    case Destroyed => "DESTROYED"
    case Auctioned => "AUCTIONED"
    case CourtCustody => "COURT_CUSTODY"
  }

  /** Mongoose's enum validator for `disposalType`. */
  function ParseDisposalType(s: string): (r: Option<DisposalType>)
    ensures r.Some? <==> s in {"RETURNED", "DESTROYED", "AUCTIONED", "COURT_CUSTODY"}
    ensures r.Some? ==> DisposalTypeName(r.value) == s
  {
    if s == "RETURNED" then Some(Returned)
    else if s == "DESTROYED" then Some(Destroyed)
    else if s == "AUCTIONED" then Some(Auctioned)
    else if s == "COURT_CUSTODY" then Some(CourtCustody)
    else None
  }

  /** `disposalType` is absent when the request left it out (the enum
      validator lets a missing value through). */
  datatype Disposal = Disposal(
    propertyId: Id,
    disposalType: Option<DisposalType>,
    courtOrderRef: string,
    disposedBy: Id,
    date: Millis,
    remarks: string)
}
