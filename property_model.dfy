/** The Property record (models/Property.ts). */
module PropertyModel {
  import opened Text

  datatype PropertyStatus = InCustody | Disposed

  /** The string stored in the `status` field. */
  function PropertyStatusName(s: PropertyStatus): string {
    match s
    case InCustody => "IN_CUSTODY"
    case Disposed => "DISPOSED"
  }

  /** The `belongsTo` enum. */
  datatype Party = Accused | Complainant | Unknown

  function PartyName(b: Party): string {
    match b
    case Accused => "ACCUSED"
    case Complainant => "COMPLAINANT"
    case Unknown => "UNKNOWN"
  }

  /** Mongoose's enum validator for `belongsTo`: the value, if any, must be one
      of the three names. */
  function ParseParty(s: string): (r: Option<Party>)
    ensures r.Some? <==> s in {"ACCUSED", "COMPLAINANT", "UNKNOWN"}
    ensures r.Some? ==> PartyName(r.value) == s
  {
    if s == "ACCUSED" then Some(Accused)
    else if s == "COMPLAINANT" then Some(Complainant)
    else if s == "UNKNOWN" then Some(Unknown)
    else None
  }

  /** `belongsTo` passes the schema's enum validator: absent, or one of the names. */
  predicate PartyAccepted(belongsTo: Option<string>) {
    belongsTo.None? || ParseParty(belongsTo.value).Some?
  }

  function PartyOf(belongsTo: Option<string>): Option<Party>
    requires PartyAccepted(belongsTo)
  {
    if belongsTo.None? then None else ParseParty(belongsTo.value)
  }

  /** The stored QR code. The PNG data URL that `QRCode.toDataURL` renders is
      represented by the text it encodes. */
  datatype QrCode = NoQrCode | QrDataUrl(payload: string)

  /** A seized item held under a case. `location` is where it is kept now. */
  datatype Property = Property(
    id: Id,
    caseId: Id,
    category: string,
    belongsTo: Option<Party>,
    nature: string,
    quantity: string,
    location: string,
    description: string,
    photoUrl: string,
    qrCode: QrCode,
    status: PropertyStatus,
    createdAt: Millis)
}
