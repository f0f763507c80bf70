/** The AuditLog record (models/AuditLog.ts). The ledger offers no operation
    that changes a stored entry. The schema's pre-`updateOne` hook rejects
    `updateOne` at run time; other updates, `save` and deletes it does not block. */
module AuditLogModel {
  import opened Text
  import opened CaseModel
  import opened PropertyModel
  import opened DisposalModel

  datatype Action = CaseCreated | PropertyAdded | PropertyMoved | PropertyDisposed

  datatype EntityKind = CaseEntity | PropertyEntity

  /** The string stored in `entityType`. */
  function EntityKindName(e: EntityKind): string {
    match e
    case CaseEntity => "CASE"
    case PropertyEntity => "PROPERTY"
  }

  /** The `oldValue` / `newValue` snapshots the handlers write. */
  datatype Snapshot =
    | NoValue
    | CaseValue(caseRecord: Case)
    | PropertyValue(property: Property)
    | LocationValue(location: string)
    | DisposalValue(disposalType: Option<DisposalType>, courtOrderRef: string)

  datatype AuditEntry = AuditEntry(
    actionType: Action,
    entityType: EntityKind,
    entityId: Id,
    performedBy: Id,
    timestamp: Millis,
    oldValue: Snapshot,
    newValue: Snapshot)
}
