/** `emitNotification`: maps a caller's notification type onto the types the database
    accepts, picks the notification service call for it, and announces the stored
    notification on the recipient's socket room. */
module NotificationHelper {
  import opened Wrappers

  /** An identifier as JavaScript sees it: absent, or a number (0 is falsy). */
  predicate Truthy(id: Option<int>) {
    id.Some? && id.value != 0
  }

  /** The caller's payload: `userId` receives, `senderId` acts. */
  datatype NotificationData = NotificationData(
    userId: Option<int>, senderId: Option<int>, notifType: string,
    postId: Option<int>, chatId: Option<int>, content: Option<string>)

  /** The service call chosen by the switch. */
  datatype Request =
    | LikeNotification(postId: Option<int>, senderId: int, userId: int)
    | CommentNotification(postId: Option<int>, senderId: int, userId: int, content: Option<string>)
    | FriendRequestNotification(userId: int, senderId: int, text: string)
    | MessageNotification(userId: int, senderId: int, chatId: Option<int>, content: Option<string>)
    | OtherNotification(userId: int, senderId: int, text: string, postId: Option<int>)

  /** The row the service returns. */
  datatype Notification = Notification(id: int, notifType: string, content: string, senderId: int, postId: Option<int>, createdAt: int)

  datatype Emission =
    | NewNotification(room: int, notification: Notification)
    | UnreadCount(room: int, count: int)

  const AcceptedText: string := "đã chấp nhận lời mời kết bạn"
  const SentText: string := "đã gửi lời mời kết bạn"
  const DefaultContent: string := "Bạn có thông báo mới"

  /** The types allowed by the database's CHECK constraint. */
  predicate Allowed(t: string) {
    t == "other" || t == "message" || t == "friend_request" || t == "comment" || t == "like"
  }

  /** `TYPE_MAP`. */
  function TypeMap(t: string): Option<string> {
    if t == "friend_accept" then Some("friend_request")
    else if t == "reply" then Some("comment")
    else if t == "share" then Some("other")
    else None
  }

  function SafeType(t: string): (r: string)
    ensures Allowed(r)
  {
    if TypeMap(t).Some? then TypeMap(t).value
    else if Allowed(t) then t
    else "other"
  }

  /** The three aliases map onto their database types. */
  lemma AliasesMapped()
    ensures SafeType("friend_accept") == "friend_request"
    ensures SafeType("reply") == "comment"
    ensures SafeType("share") == "other"
  {}

  /** A type already allowed is kept, and any other type that is not an alias becomes
      `other`. */
  lemma SafeTypeCases(t: string)
    ensures Allowed(t) ==> SafeType(t) == t
    ensures !Allowed(t) && TypeMap(t).None? ==> SafeType(t) == "other"
  {}

  /** Mapping a type twice is mapping it once. */
  lemma SafeTypeIdempotent(t: string)
    ensures SafeType(SafeType(t)) == SafeType(t)
  {}

  /** The type a request stores. */
  function RequestType(r: Request): string {
    match r
    case LikeNotification(_, _, _) => "like"
    case CommentNotification(_, _, _, _) => "comment"
    case FriendRequestNotification(_, _, _) => "friend_request"
    case MessageNotification(_, _, _, _) => "message"
    case OtherNotification(_, _, _, _) => "other"
  }

  /** The guard and the switch: nothing is requested without both identifiers; otherwise
      the request has the safe type and goes from the sender to the recipient. */
  function RequestFor(d: NotificationData): (r: Option<Request>)
    ensures r.None? <==> !(Truthy(d.userId) && Truthy(d.senderId))
    ensures r.Some? ==>
      RequestType(r.value) == SafeType(d.notifType) && r.value.userId == d.userId.value && r.value.senderId == d.senderId.value
  {
    if !Truthy(d.userId) || !Truthy(d.senderId) then None
    else
      var u := d.userId.value;
      var s := d.senderId.value;
      var t := SafeType(d.notifType);
      if t == "like" then Some(LikeNotification(d.postId, s, u))
      else if t == "comment" then Some(CommentNotification(d.postId, s, u, d.content))
      else if t == "friend_request" then
        Some(FriendRequestNotification(u, s, if d.notifType == "friend_accept" then AcceptedText else SentText))
      else if t == "message" then Some(MessageNotification(u, s, d.chatId, d.content))
      else Some(OtherNotification(u, s, if d.content.Some? && d.content.value != "" then d.content.value else DefaultContent,
                                  if d.postId.Some? && d.postId.value != 0 then d.postId else None))
  }

  /** An accepted friendship and a plain request carry different texts. */
  lemma FriendTexts(d: NotificationData)
    requires Truthy(d.userId) && Truthy(d.senderId)
    ensures d.notifType == "friend_accept" ==> RequestFor(d) == Some(FriendRequestNotification(d.userId.value, d.senderId.value, AcceptedText))
    ensures d.notifType == "friend_request" ==> RequestFor(d) == Some(FriendRequestNotification(d.userId.value, d.senderId.value, SentText))
  {}

  /** The `other` branch supplies a default text and a null post for missing values. */
  lemma OtherDefaults(d: NotificationData)
    requires Truthy(d.userId) && Truthy(d.senderId) && SafeType(d.notifType) == "other"
    requires d.content.None? || d.content.value == ""
    requires d.postId.None? || d.postId.value == 0
    ensures RequestFor(d) == Some(OtherNotification(d.userId.value, d.senderId.value, DefaultContent, None))
  {}

  /** The whole helper. `create` stands for the notification service call and
      `unread` for the unread count that follows it (each may fail); `hasIo` says
      whether a socket server was passed. The result is the notification returned to
      the caller and the events emitted to room `user_<userId>`. */
  function EmitNotification(d: NotificationData, hasIo: bool,
                            create: Request -> Result<Option<Notification>, string>,
                            unread: Result<int, string>): (res: (Option<Notification>, seq<Emission>))
    ensures RequestFor(d).None? ==> res == (None, [])
    ensures res.0.Some? ==> RequestFor(d).Some? && create(RequestFor(d).value) == Ok(res.0)
    ensures res.1 != [] ==> (hasIo && RequestFor(d).Some? && create(RequestFor(d).value).Ok? &&
      create(RequestFor(d).value).value.Some?)
    ensures RequestFor(d).Some? && create(RequestFor(d).value).Ok? && create(RequestFor(d).value).value.Some? && hasIo ==>
      var n, room := create(RequestFor(d).value).value.value, d.userId.value;
      (unread.Ok? ==> res == (Some(n), [NewNotification(room, n), UnreadCount(room, unread.value)])) &&
      (unread.Err? ==> res == (None, [NewNotification(room, n)]))
    ensures RequestFor(d).Some? && create(RequestFor(d).value).Ok? && create(RequestFor(d).value).value.Some? && !hasIo ==>
      res == (create(RequestFor(d).value).value, [])
  {
    match RequestFor(d)
    case None => (None, [])
    case Some(req) =>
      match create(req)
      case Err(_) => (None, [])
      case Ok(None) => (None, [])
      case Ok(Some(n)) =>
        if !hasIo then (Some(n), [])
        else
          var room := d.userId.value;
          match unread
          case Err(_) => (None, [NewNotification(room, n)])
          case Ok(count) => (Some(n), [NewNotification(room, n), UnreadCount(room, count)])
  }

  /** With a socket server and no failure, the stored notification is announced first and
      the recipient's unread count second. */
  lemma EmitsInOrder(d: NotificationData, create: Request -> Result<Option<Notification>, string>, count: int, n: Notification)
    requires RequestFor(d).Some? && create(RequestFor(d).value) == Ok(Some(n))
    ensures EmitNotification(d, true, create, Ok(count)) ==
      (Some(n), [NewNotification(d.userId.value, n), UnreadCount(d.userId.value, count)])
  {}
}
