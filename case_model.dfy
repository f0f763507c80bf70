/** The Case record (models/Case.ts). */
module CaseModel {
  import opened Text

  /** A case is PENDING until every property under it has been disposed of. */
  datatype CaseStatus = Pending | Disposed

  /** A registered case. `investigatingOfficer` is the id of the User who
      registered it; `createdAt` is when it was stored. */
  datatype Case = Case(
    id: Id,
    policeStation: string,
    crimeNumber: string,
    year: Option<int>,
    firDate: Option<Millis>,
    seizureDate: Option<Millis>,
    actLaw: string,
    sections: seq<string>,
    investigatingOfficer: Id,
    status: CaseStatus,
    createdAt: Millis)
}
