/** The Notification record (models/Notification.ts) and the key of its
    unique index. */
module NotificationModel {
  import opened Text

  /** The `type` enum has a single value. */
  datatype NotificationType = PendingCase

  /** The fields of the unique index `{ userId, type, referenceId }`. */
  datatype NotificationKey = NotificationKey(userId: Id, kind: NotificationType, referenceId: Id)

  datatype Notification = Notification(
    userId: Id,
    kind: NotificationType,
    referenceId: Id,
    message: string,
    read: bool,
    createdAt: Millis)
  {
    /** The entry of the unique index this notification occupies. */
    function Key(): NotificationKey {
      NotificationKey(userId, kind, referenceId)
    }
  }
}
