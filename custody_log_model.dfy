/** The CustodyLog record (models/CustodyLog.ts): one entry per transfer. */
module CustodyLogModel {
  import opened Text

  /** `handledBy` is the id of the User who moved the property; `dateTime`
      is when the entry was stored. */
  datatype CustodyLog = CustodyLog(
    propertyId: Id,
    fromLocation: string,
    toLocation: string,
    purpose: string,
    handledBy: Id,
    dateTime: Millis,
    remarks: string)
}
