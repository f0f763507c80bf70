# emalkhana custody ledger, modelled in Dafny

emalkhana tracks seized property ("malkhana" is the evidence store of a
police station) from registration to final disposal. A case is registered
and property is seized under it. Each move of an item between locations
is logged. When an item is disposed of (returned, destroyed, auctioned or
handed to the court), its case is closed once nothing under it is left in
custody. Registering a case, adding a property, moving it and disposing of
it each write an audit entry. Registering an officer, closing a case and the
notification sweep write none. A periodic sweep notifies every officer of
cases left PENDING for too long.

This project models the ledger behind the Next.js route handlers. The
Mongo collections become one `Store` class (store.dfy):

- cases, properties and users are `Table`s: a map from id to record,
  plus the natural insertion order that an unsorted `find` returns;
- custody logs, disposals and the audit log are sequences that only grow;
- notifications are a `Table` keyed by the triple of the unique index
  (userId, type, referenceId).

Each Mongoose call (`create`, `save`, `findByIdAndUpdate`) is one method of
the class. Each POST handler is a method that takes:

- the store;
- the session as `Option<Actor>`;
- the request body;
- the time `now`;
- where needed, the ObjectId Mongo assigns (`newId`).

It answers with a `Response`: `Ok` or the error status the route sends.
Each GET handler is a function over the stored records. An ObjectId is a
string of 24 hexadecimal digits, in either case. Mongoose casts every id in
a request or a query before it looks anything up, and the cast reads the
digits case-insensitively. The model stores every case, property and user
id in canonical spelling (24 lower-case digits). Each handler casts a request id
with `Text.CanonicalId` before a lookup, a comparison or a write. So any
spelling of an id finds the same record. The session's user id is written
into ObjectId paths too (the case's officer, `handledBy`, `disposedBy`,
`performedBy`). Each POST casts it the same way, and answers 500 when it is
not an ObjectId, at the write where the code's cast would throw. A session
issued for a stored user always passes (`Http.SessionIdCasts`).

`Store.Valid()` is the invariant every handler keeps:

- every record is stored under its own id, and case, property and user ids
  are in canonical spelling;
- officerIds are unique, and no two notifications share an index triple;
- every property belongs to a stored case, and every custody entry and
  notification refers to stored records;
- a property is DISPOSED exactly when a Disposal record names it;
- a DISPOSED case has a disposed property;
- a case that has properties, all of them DISPOSED, is DISPOSED (a case
  with no property at all stays as it was registered);
- each property's custody entries form one chain: each transfer starts
  where the previous one ended, and the last one ends at the property's
  present location.

Each POST handler, and each insert of the sweep, proves the invariant by a
lemma about the collections' values. It calls that lemma before it writes to
the store.

Some of the code's behaviour looks unintended: a role check that no stored
user can pass, missing guards, a close without an audit entry, and two
add-property handlers that disagree. These places are modelled as the code
is written:

- The transfer route demands the role `MALKHANA`. Stored roles are only
  ADMIN and OFFICER. So no signed-in user can move property
  (`CustodyRoute.NoSessionMayMove`).
- Disposal has no guard against disposing of the same property twice.
  A second disposal appends a second Disposal record and a second audit
  entry.
- Closing a case after the last disposal writes no audit entry of its own.
- Case creation checks no field of the body.
- A case that is already DISPOSED stays DISPOSED when a property is
  later added under it. Nothing reopens it.
- The second add-property handler (app/properties/page.tsx) differs from
  app/api/property/route.ts:
  - it admits only the role OFFICER;
  - it does not test the caseId for ObjectId form before `findById`, so a
    malformed caseId fails the cast (500) instead of 400;
  - the QR code encodes `PROPERTY:<id>`, not a URL.

## Model

| member | source | states |
|---|---|---|
| CaseRoute.Post | app/api/case/route.ts:16-54 | 403 exactly when there is no ADMIN/OFFICER session. 500 exactly when a session passes but year, firDate or seizureDate fails its Number or Date cast, or the session id fails the ObjectId cast. Nothing changes on either error. Otherwise one case is inserted, PENDING, its officer the canonical session id, every other field copied unchecked from the body. One CASE_CREATED entry carrying the case, performed by that id, is appended. All other collections are unchanged, and the invariant is kept. |
| CaseRoute.Get | app/api/case/route.ts:63-79 | The selected cases are every stored case without a search. With a search, they are the cases whose crimeNumber or policeStation contains it case-insensitively. Each appears as often as it is stored, newest first. |
| PropertyRoute.Post | app/api/property/route.ts:18-74 | 403, 400, 404 and 500 each hold exactly under their guard. The 400 guard is a caseId missing or not an ObjectId. The 404 guard is no case under the caseId's canonical spelling. The 500 guard is a belongsTo outside the enum (nothing changes) or a session id that is not an ObjectId. The first four leave the store unchanged. Once the body passes, the stored property is IN_CUSTODY under the canonical caseId, at the body's location, with the QR code of `<base>/property/<id>` saved. One PROPERTY_ADDED entry carrying it is appended exactly when the session id casts; otherwise the 500 leaves the saved property and no entry. |
| PropertyRoute.Get | app/api/property/route.ts:90-111 | 400 exactly when a caseId is given but is not an ObjectId. Otherwise returns exactly the properties that match each given filter, each as often as it is stored, newest first. The caseId filter matches the case in any spelling of its id; the status filter matches the status name. |
| PropertyRoute.QrPayload | app/api/property/route.ts:60 | The payload is the base URL, "/property/", then the id, and the id can be read back from it. |
| PropertyRoute.NewProperty | app/api/property/route.ts:47-63 | The stored property has the new id, the canonical caseId, the body's location, status IN_CUSTODY, the creation time, and the QR code of its payload. |
| PropertiesPage.NewProperty | app/properties/page.tsx:35-53 | The stored property has the new id, the canonical caseId, the body's location and photoUrl, status IN_CUSTODY, the creation time, and the `PROPERTY:` QR code. |
| PropertiesPage.QrPayload | app/properties/page.tsx:48 | The payload is "PROPERTY:" followed by the id, and the id can be read back from it. |
| PropertiesPage.Post | app/properties/page.tsx:19-64 | 403 unless the role is exactly OFFICER. 404 for a missing caseId, or one whose canonical spelling names no case. 500 for a caseId that fails the cast, a belongsTo outside the enum, or a session id that is not an ObjectId. Nothing changes on the first errors. Once the body passes, the property is stored IN_CUSTODY with the `PROPERTY:` QR code. One PROPERTY_ADDED entry is appended exactly when the session id casts; otherwise the 500 leaves the saved property and no entry. |
| PropertiesPage.Get | app/properties/page.tsx:81-92 | 400 without caseId. 500 when the caseId fails the cast. Otherwise exactly the properties of the case the caseId names in any spelling, each as often as it is stored. |
| CustodyRoute.NoSessionMayMove | app/api/custody/route.ts:19-24 | No session issued from a stored user passes the MALKHANA check. |
| CustodyRoute.Post | app/api/custody/route.ts:19-75 | 403, 400, 404 and 500 each exactly under their guard, with nothing changed. 404 means no property under the canonical spelling of propertyId, and the entry, the update and the audit entry use that spelling. 500 means the session id fails the `handledBy` cast. On success: one CustodyLog, handled by the canonical session id, whose fromLocation is the location read before the update; the property moved to toLocation with no other field changed; one PROPERTY_MOVED entry with the old and new locations. Every custody history stays chained. |
| CustodyRoute.Get | app/api/custody/route.ts:92-103 | 400 without propertyId. 500 when it fails the cast. Otherwise exactly the entries of the property the id names in any spelling, each as often as it is stored, in ascending dateTime. |
| CustodyRoute.GetIsHistory | app/api/custody/route.ts:102 | When a property's entries were recorded in time order, the listing is exactly its recorded history, and so is chained by the store invariant. |
| Store.TransferKeepsChain | app/api/custody/route.ts:46-60 | Logging a transfer from the present location and then moving the property to its destination keeps every property's history chained. The chain ends at the new location. |
| Store.TransferKeepsConsistent | app/api/custody/route.ts:46-60 | A transfer keeps the whole store invariant. |
| DisposalRoute.Post | app/api/disposal/route.ts:20-80 | 403, 400, 404 and 500 each exactly under their guards, with nothing changed; 404 means no property under the canonical spelling of propertyId, and 500 is a disposalType outside the enum or a session id that fails the `disposedBy` cast. On success: one Disposal record with the body's fields and disposedBy = the canonical session id; the property DISPOSED whatever its previous status; the case closed exactly when no property of it is left undisposed, and otherwise unchanged; one PROPERTY_DISPOSED entry with {disposalType, courtOrderRef}; nothing else changed. The invariant, including "all properties DISPOSED means the case is DISPOSED", is kept. |
| DisposalRoute.CascadeClosesCase | app/api/disposal/route.ts:54-64 | After the flip, the owning case is DISPOSED if and only if it already was or every property of it is DISPOSED. No case goes back to PENDING, and no other case changes. |
| DisposalRoute.DisposalMarksOne | app/api/disposal/route.ts:50-52 | Only the disposed property changes, and it becomes DISPOSED. A DISPOSED property stays DISPOSED. |
| Store.RemainingZero | app/api/disposal/route.ts:55-60 | The count of the case's properties not DISPOSED is zero exactly when all of them are DISPOSED. |
| Store.DisposalKeepsMatch | app/api/disposal/route.ts:42-52 | Appending the record and marking the property keeps "DISPOSED exactly when a Disposal names it". |
| Store.CloseKeepsClosedWhenDone | app/api/disposal/route.ts:50-64 | Marking the property DISPOSED and closing its case whenever nothing of it is left undisposed keeps "a case whose properties are all DISPOSED is DISPOSED". |
| Store.Remaining | app/api/disposal/route.ts:55-58 | The number of the case's properties whose status is not DISPOSED. |
| Store.CloseKeepsJustified | app/api/disposal/route.ts:55-64 | After closing, every DISPOSED case still has a disposed property. |
| Store.DisposalKeepsConsistent | app/api/disposal/route.ts:42-64 | A disposal that closes the case whenever none of its properties is left undisposed keeps the whole store invariant. |
| Store.AddKeepsConsistent | app/api/property/route.ts:47-63 | A new IN_CUSTODY property, under a fresh canonical id and a stored case, keeps the store invariant. Its custody history is empty. |
| Store.CaseKeepsConsistent | app/api/case/route.ts:26-38 | A new PENDING case under a fresh canonical id keeps the store invariant. |
| Text.IsObjectId | app/api/property/route.ts:28 | `mongoose.Types.ObjectId.isValid` on a string: exactly 24 hexadecimal digits, either case. |
| Text.ObjectIdIgnoresCase | app/api/custody/route.ts:36 | The ObjectId test gives the same answer after lower-casing, and every canonical id passes it. |
| Text.ContainsIgnoreCase | app/api/case/route.ts:68-73 | The `$regex` search with option `i`: the lower-cased field contains the lower-cased pattern. |
| Text.ContainsIgnoreCaseWidens | app/api/case/route.ts:68-73 | A field that contains the search exactly as written matches it. |
| Text.CanonicalId | app/api/custody/route.ts:36-41 | The cast of a valid ObjectId string is in canonical spelling. It lower-cases each letter digit and keeps every other digit, and a canonical id casts to itself. |
| Text.CanonicalIdSame | app/api/custody/route.ts:36-41 | Two valid spellings cast to the same id exactly when they agree digit by digit once letters are lower-cased. |
| AddOfficerRoute.CoerceRole | app/api/user/add-officer/route.ts:49 | The stored role is ADMIN if and only if the body's role is "ADMIN", and it is never MALKHANA. |
| AddOfficerRoute.Post | app/api/user/add-officer/route.ts:17-63 | 403, 400 (a required field empty) and 409 (officerId taken) each exactly under their guards, and nothing changes. Otherwise one user is stored with the bcrypt hash (cost 10) and the coerced role. The answer shows id, name, officerId and role, and no password. |
| AddOfficerRoute.RegisterTwice | app/api/user/add-officer/route.ts:34-63 | When a first registration succeeds, a second one with the same officerId and all required fields is refused with 409. The users afterwards are those before plus the first registration's user, and only that one. |
| Store.UserKeepsConsistent | models/User.ts:9-13 | A user with a fresh canonical id and a fresh officerId keeps officerIds unique and the store invariant. |
| UserModel.NoRoleIsMalkhana | models/User.ts:20-24 | No role the schema admits is spelled MALKHANA. |
| Http.SessionOf | lib/auth.ts:36-60 | A session issued from a stored user carries that user's id and officerId, and role ADMIN or OFFICER. |
| Http.SessionIdCasts | lib/auth.ts:37 | The id of a session issued for a user stored under a canonical id passes the ObjectId cast, and the cast gives that id back. |
| PropertyModel.ParseParty | models/Property.ts:6 | belongsTo is accepted exactly when it is ACCUSED, COMPLAINANT or UNKNOWN, and the accepted value has that name. |
| DisposalModel.ParseDisposalType | models/Disposal.ts:5-8 | disposalType is accepted exactly when it is one of the four names, and the accepted value has that name. |
| Store.Store.CreateNotification | models/Notification.ts:51-54 | The insert succeeds exactly when the (userId, type, referenceId) triple is free. A duplicate stores nothing. |
| Store.Store.CreateCase | app/api/case/route.ts:26-38 | Inserts the case under its id, appended to the natural order; nothing else changes. |
| Store.Store.CreateProperty | app/api/property/route.ts:47-57 | Inserts the property under its id, appended to the natural order; nothing else changes. |
| Store.Store.SaveProperty | app/api/custody/route.ts:59-60 | Replaces the stored property under its id, keeping the order; nothing else changes. |
| Store.Store.CreateCustodyLog | app/api/custody/route.ts:49-56 | Appends one custody entry; nothing else changes. |
| Store.Store.CreateDisposal | app/api/disposal/route.ts:42-48 | Appends one Disposal record; nothing else changes. |
| Store.Store.CreateUser | app/api/user/add-officer/route.ts:44-50 | Inserts the user under its id, appended to the natural order; nothing else changes. |
| Store.Store.CreateAuditLog | models/AuditLog.ts:14-17 | The only way the audit log changes is an append. No entry is ever altered. |
| Store.Store.SetCaseStatus | app/api/disposal/route.ts:61-63 | Sets the status of a stored case and leaves a missing one alone. |
| Store.NotificationKeepsConsistent | models/Notification.ts:51-54 | A notification for a stored user and case, inserted under its own triple, keeps the store invariant. |
| PendingCaseAlert.StaleCases | services/pendingCaseAlert.service.ts:7-12 | Exactly the cases that are PENDING and created strictly before now − seconds·1000. |
| PendingCaseAlert.Recipients | services/pendingCaseAlert.service.ts:17-19 | Exactly the users whose role is ADMIN or OFFICER. |
| PendingCaseAlert.RecipientsAreAllUsers | services/pendingCaseAlert.service.ts:17-19 | Every stored user is a recipient, since no other role exists. |
| PendingCaseAlert.Message | services/pendingCaseAlert.service.ts:31 | The message is non-empty and starts with the warning sign and "Case ". |
| PendingCaseAlert.Alert | services/pendingCaseAlert.service.ts:27-32 | The notification sits under the (user, PENDING_CASE, case) triple, unread, created now. |
| PendingCaseAlert.AlertsFor | services/pendingCaseAlert.service.ts:25-32 | One alert per stale case, in the order of the cases. |
| PendingCaseAlert.AlertsContents | services/pendingCaseAlert.service.ts:24-32 | An alert is attempted for every recipient and every stale case, and for nothing else. |
| PendingCaseAlert.InsertAllGrows | services/pendingCaseAlert.service.ts:26-38 | Afterwards a triple is present exactly when it was before or some attempt carries it. Rows stored before are kept, and the table stays keyed. |
| PendingCaseAlert.InsertAllPresent | services/pendingCaseAlert.service.ts:35-38 | When every triple is already taken, the sweep changes nothing. |
| PendingCaseAlert.InsertAllMissing | services/pendingCaseAlert.service.ts:26-34 | When some triple is free, at least one notification is inserted. |
| PendingCaseAlert.InsertAllCountsNew | services/pendingCaseAlert.service.ts:33-38 | Nothing is inserted exactly when every attempted triple was already taken. |
| PendingCaseAlert.InsertAllIdempotent | services/pendingCaseAlert.service.ts:24-40 | Repeating the very same attempts inserts nothing. |
| PendingCaseAlert.SweepOverSweptAddsNothing | services/pendingCaseAlert.service.ts:24-38 | Attempts for users and cases already swept insert nothing, whatever threshold and time they carry. The unique index looks only at the (user, type, case) triple. |
| PendingCaseAlert.SweepAgainAddsNothing | services/pendingCaseAlert.service.ts:24-38 | A sweep of the same users and cases at another time or threshold changes nothing. |
| PendingCaseAlert.CheckPendingCasesTwice | app/api/cron/pending-cases/route.ts:5-9 | Two runs of the sweep in a row: the two counts add up to the rows added. Every row the second run adds is about a case that was not stale at the first. When every case stale at the second run was stale at the first, the second returns 0 and the table is what the first run left; this holds in particular when the second cutoff is no later. |
| PendingCaseAlert.CronGet | app/api/cron/pending-cases/route.ts:5-9 | One run of the sweep with the default threshold of 10 seconds. The count is the number of rows added. |
| PendingCaseAlert.SweepCovers | services/pendingCaseAlert.service.ts:24-38 | After a sweep every recipient has a notification about every stale case, inserted now or stored before. |
| PendingCaseAlert.LaterSweepOnlyNewCases | services/pendingCaseAlert.service.ts:24-38 | A later sweep over the same users adds rows only about cases the earlier sweep did not cover. |
| PendingCaseAlert.InsertAllAppend | services/pendingCaseAlert.service.ts:24-25 | Attempting one batch and then another is the same as attempting both together. |
| PendingCaseAlert.AlertsNoCases | services/pendingCaseAlert.service.ts:14 | With no stale case nothing is attempted. |
| PendingCaseAlert.TryCreate | services/pendingCaseAlert.service.ts:26-38 | One guarded create: it inserts exactly when the triple is free, and otherwise swallows the duplicate. The count grows by one exactly on insert. |
| PendingCaseAlert.NotifyUser | services/pendingCaseAlert.service.ts:25-39 | The inner loop: the table afterwards is every attempt for one user applied in turn. The returned count is the number of rows added. |
| PendingCaseAlert.CheckPendingCases | services/pendingCaseAlert.service.ts:6-43 | The table afterwards is every recipient × stale case attempt, in the loops' order, applied to the table before. The returned count is the number of rows added. Afterwards every recipient has a notification about every stale case. With no stale case it returns 0 and nothing changes. Cases, users and the other collections are unchanged. |
| LogsRoute.Get | app/api/logs/route.ts:11-30 | 403 unless ADMIN. 500 when an entityId is given but fails the cast. Otherwise min(200, number selected) selected entries, newest first. Only entries matching each given filter are returned, none more often than it was logged. No selected entry left out is newer than one returned. When fewer than 200 are returned, every selected entry is returned as often as it was logged. |
| NotificationRoute.Get | app/api/notification/route.ts:13-25 | 401 without a session, 500 when the session id fails the cast. Otherwise min(20, number of the caller's) of the caller's notifications, newest first, none more often than it is stored. No one else's are returned. None of theirs left out is newer than one returned. All of them are returned, each as often as stored, when fewer than 20 are. |
| NotificationRoute.Latest | app/api/notification/route.ts:19-23 | The query itself: 20 of the user's notifications when they have that many and all of them otherwise, only theirs, none more often than stored, newest first, none left out newer than one kept. |
| MetricsRoute.CountStatus | app/api/dashboard/metrics/route.ts:19-25 | The count never exceeds the number of cases. It equals it exactly when every case has that status. |
| MetricsRoute.CountsPartition | models/Case.ts:12 | The PENDING and DISPOSED counts add up to the number of cases. |
| MetricsRoute.Get | app/api/dashboard/metrics/route.ts:12-31 | 401 without a session. Otherwise total, disposed and pending counts, with total = disposed + pending. |
| Middleware.Guard | middleware.ts:8-25 | Redirects to /login exactly when the path has none of the five public prefixes and there is no token. With a token, every path passes. |
| Middleware.PublicExtends | middleware.ts:8-16 | The test is on prefixes: anything appended to a public path is public, and passes without a token. |
| Middleware.GuardExamples | middleware.ts:9-23 | "/login/anything" passes without a token. "/dashboard" redirects without one and passes with one. |

## Left out

- I/O and the framework: the Mongo connection, `NextResponse`, request parsing and the `try`/`catch` that turns a thrown store error into 500. Store operations are total. Only cast and enum-validation failures, which depend on the input, are modelled as `ServerError`.
- Non-duplicate insert errors in the sweep: the rethrow of any error other than code 11000 is not modelled, because store operations cannot fail.
- A case with no property is never closed by the model or the code: only the disposal of one of its properties runs the cascade, so such a case stays PENDING. The invariant's "all properties DISPOSED means the case is DISPOSED" says nothing about it.
- Concurrency: each handler is one sequential step; the code has no retry or compare-and-set.
- The session layer: NextAuth JWT issue and verification are the `Option<Actor>` parameter. `Http.SessionOf` states what a session issued from a stored user carries.
- bcrypt: the hash is the symbolic value `Bcrypt(password, 10)`; no digest is computed.
- Cloudinary: the uploaded image's URL is the `photoUrl` parameter ("" without an image).
- QR rendering: `QRCode.toDataURL` is represented by the text it encodes.
- The site's base URL (`NEXTAUTH_URL`) is the `baseUrl` parameter.
- Clocks: `Date.now()` is the `now` parameter.
- Regular-expression search: `$regex` with option `i` is modelled as a case-insensitive substring match. Regex metacharacters in the search are treated literally, and only ASCII letters are case-folded.
- `.populate("investigatingOfficer")`: the case keeps the officer's id only.
- `investigatingOfficerId` in app/api/case/route.ts:36 is not a schema path, so strict mode drops it. It is not stored.
- A request field left out is the empty string, except where absent and "" behave differently: caseId, belongsTo and disposalType are `Option`s, and the Number and Date fields of a case are `Field`s.
- PendingCaseAlert.Message: a case registered without a crimeNumber has no such field stored, so the code's message reads "Case undefined pending…". The model stores "" for it, and its message reads "Case  pending…".
- Which values a Number or Date path accepts (numbers, numeric strings, date strings) is not modelled. Each such field of a case body is given as `Missing`, `Given(value)` or `Uncastable`. The String paths are modelled as strings. A non-scalar value there, which would also fail the cast with 500, is not modelled.
- `ipAddress` of models/AuditLog.ts is never written by the handlers and is not modelled.
- The middleware's `config.matcher` (middleware.ts:28-30) is left out. Which paths reach the guard is the framework's routing.
- The cron route's JSON answer `{ notificationsCreated }` is the count `PendingCaseAlert.CronGet` returns. The AI route and the PDF report are not part of this model.
- Two transfers of one property are not modelled as a separate method. The chain property is the `Store.Valid()` invariant: each transfer's fromLocation is the previous entry's toLocation.
- Sort ties: Mongo leaves the order of equal keys unspecified. The model sorts stably, keeping natural order among equal keys; the ensures state only the order by key.
- PropertiesPage.Get: states which properties are returned and how often, but not that they come in natural order.
- CustodyRoute.GetIsHistory: requires that a property's entries were stored in time order. The store does not enforce this, because `now` is a free parameter of each handler.
