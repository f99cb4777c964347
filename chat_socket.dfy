/** The chat socket handlers: presence tracking over `onlineUsers` (user -> set of socket
    ids), the `send_message` guards, and the notification texts and recent-chat updates
    sent after a message is stored. */
module ChatSocket {
  import opened Wrappers

  datatype Status = Online | Offline

  /** `user_status_changed`, broadcast to every client. */
  datatype StatusChange = StatusChange(userId: int, status: Status)

  /** Every tracked user has at least one open socket. */
  ghost predicate NonEmptySets(online: map<int, set<string>>) {
    forall u :: u in online ==> online[u] != {}
  }

  /** `register_user`: the socket joins the user's set. */
  function Registered(online: map<int, set<string>>, sid: string, uid: int): (o: map<int, set<string>>)
    ensures o.Keys == online.Keys + {uid} && sid in o[uid]
    ensures forall u :: u in online && u != uid ==> o[u] == online[u]
  {
    online[uid := (if uid in online then online[uid] else {}) + {sid}]
  }

  /** `disconnect` of a socket registered as `uid`: it leaves the set, and an emptied set
      is dropped. */
  function Disconnected(online: map<int, set<string>>, sid: string, uid: int): (o: map<int, set<string>>)
    ensures o.Keys <= online.Keys && forall u :: u in o ==> sid !in o[u] || u != uid
    ensures forall u :: u in online && u != uid ==> u in o && o[u] == online[u]
  {
    if uid !in online then online
    else
      var rest := online[uid] - {sid};
      if rest == {} then online - {uid} else online[uid := rest]
  }

  /** Registering keeps every tracked set non-empty, and so does a disconnect. */
  lemma RegisteredNonEmpty(online: map<int, set<string>>, sid: string, uid: int)
    requires NonEmptySets(online)
    ensures NonEmptySets(Registered(online, sid, uid))
  {}

  lemma DisconnectedNonEmpty(online: map<int, set<string>>, sid: string, uid: int)
    requires NonEmptySets(online)
    ensures NonEmptySets(Disconnected(online, sid, uid))
  {}

  /** A socket opened by a user and closed again leaves presence as it was. */
  lemma {:induction false} RegisterThenDisconnect(online: map<int, set<string>>, sid: string, uid: int)
    requires NonEmptySets(online)
    requires uid !in online || sid !in online[uid]
    ensures Disconnected(Registered(online, sid, uid), sid, uid) == online
  {
    var after := Registered(online, sid, uid);
    if uid in online {
      assert after[uid] - {sid} == online[uid];
      assert online[uid := online[uid]] == online;
    } else {
      assert after[uid] - {sid} == {};
      assert after - {uid} == online;
    }
  }

  /** The presence map of one server and the status events it has broadcast. */
  class Presence {
    var online: map<int, set<string>>
    /** `socket.userId` of every socket that has registered (0 when `Number` gave 0). */
    var socketUser: map<string, int>
    var broadcasts: seq<StatusChange>

    ghost predicate Valid() reads this {
      NonEmptySets(online)
    }

    constructor ()
      ensures Valid() && online == map[] && socketUser == map[] && broadcasts == []
    {
      online := map[];
      socketUser := map[];
      broadcasts := [];
    }

    /** `io.isUserOnline`. */
    function IsUserOnline(uid: int): (b: bool)
      reads this
      requires Valid()
      ensures b <==> uid in online
    {
      uid in online && |online[uid]| > 0
    }

    /** `register_user`: `online` is broadcast only when the user had no socket before. */
    method RegisterUser(sid: string, uid: int)
      requires Valid()
      modifies this
      ensures Valid()
      ensures socketUser == old(socketUser)[sid := uid]
      ensures online == Registered(old(online), sid, uid)
      ensures broadcasts == old(broadcasts) + if uid in old(online) then [] else [StatusChange(uid, Online)]
    {
      socketUser := socketUser[sid := uid];
      var current := if uid in online then online[uid] else {};
      var wasOffline := |current| == 0;
      online := online[uid := current + {sid}];
      if wasOffline {
        broadcasts := broadcasts + [StatusChange(uid, Online)];
      }
    }

    /** `disconnect`: an unregistered socket (or one whose user is 0 or untracked)
        changes nothing; otherwise the socket leaves its user's set, and `offline` is
        broadcast when that empties the set. */
    method Disconnect(sid: string)
      requires Valid()
      modifies this
      ensures Valid() && socketUser == old(socketUser)
      ensures sid !in socketUser || socketUser[sid] == 0 || socketUser[sid] !in old(online) ==>
        online == old(online) && broadcasts == old(broadcasts)
      ensures sid in socketUser && socketUser[sid] != 0 ==>
        online == Disconnected(old(online), sid, socketUser[sid])
      ensures sid in socketUser && socketUser[sid] != 0 && socketUser[sid] in old(online) ==>
        broadcasts == old(broadcasts) +
          if old(online)[socketUser[sid]] <= {sid} then [StatusChange(socketUser[sid], Offline)] else []
    {
      if sid !in socketUser || socketUser[sid] == 0 {
        return;
      }
      var uid := socketUser[sid];
      if uid !in online {
        return;
      }
      var rest := online[uid] - {sid};
      if |rest| == 0 {
        online := online - {uid};
        broadcasts := broadcasts + [StatusChange(uid, Offline)];
      } else {
        online := online[uid := rest];
      }
    }
  }

  // ------------------------------------------------------------------ send_message

  /** What the client sends with `send_message` (absent fields are `None`). */
  datatype MessageData = MessageData(
    chatId: Option<int>, content: Option<string>, messageType: Option<string>,
    mediaUrl: Option<string>, duration: Option<int>, replyToId: Option<int>,
    replyContent: Option<string>, replyType: Option<string>, replySender: Option<string>)

  /** The payload handed to the chat service. */
  datatype Payload = Payload(
    chatId: int, senderId: int, content: string, messageType: string,
    mediaUrl: Option<string>, duration: Option<int>, replyToId: Option<int>,
    replyContent: Option<string>, replyType: Option<string>, replySender: Option<string>)

  /** `a || b` on an optional string. */
  function OrElse(s: Option<string>, dflt: string): string {
    if s.Some? && s.value != "" then s.value else dflt
  }

  /** The guards of `send_message`: the sender is the socket's own user, never a field
      of the message. */
  function SendPayload(socketUid: int, data: MessageData): (r: Result<Payload, string>)
    ensures socketUid == 0 ==> r == Err("not_registered")
    ensures socketUid != 0 && (data.chatId.None? || data.chatId.value == 0) ==> r == Err("invalid_params")
    ensures r.Ok? ==> r.value.senderId == socketUid && Some(r.value.chatId) == data.chatId && r.value.chatId != 0
    ensures r.Ok? ==> r.value.messageType == OrElse(data.messageType, "text") && r.value.content == OrElse(data.content, "")
  {
    if socketUid == 0 then Err("not_registered")
    else if data.chatId.None? || data.chatId.value == 0 then Err("invalid_params")
    else Ok(Payload(data.chatId.value, socketUid, OrElse(data.content, ""), OrElse(data.messageType, "text"),
                    data.mediaUrl, data.duration, data.replyToId, data.replyContent, data.replyType, data.replySender))
  }

  /** Whatever a client puts into a message, the stored sender is the socket's user. */
  lemma SenderCannotBeForged(socketUid: int, a: MessageData, b: MessageData)
    requires a.chatId == b.chatId
    ensures SendPayload(socketUid, a).Ok? <==> SendPayload(socketUid, b).Ok?
    ensures SendPayload(socketUid, a).Ok? ==> SendPayload(socketUid, a).value.senderId == SendPayload(socketUid, b).value.senderId == socketUid
  {}

  const ImageText: string := "Đã gửi một ảnh"
  const VoiceText: string := "Đã gửi tin nhắn thoại"

  /** The text of the message notification. */
  function NotificationText(messageType: string, content: Option<string>): (t: string)
    ensures messageType == "text" ==> |t| <= 50 && |t| <= |OrElse(content, "")| && t == OrElse(content, "")[..|t|]
    ensures messageType == "text" && |OrElse(content, "")| >= 50 ==> |t| == 50
    ensures messageType == "text" && |OrElse(content, "")| < 50 ==> t == OrElse(content, "")
    ensures messageType == "image" ==> t == ImageText
    ensures messageType != "text" && messageType != "image" ==> t == VoiceText
  {
    if messageType == "text" then
      var c := OrElse(content, "");
      if |c| <= 50 then c else c[..50]
    else if messageType == "image" then ImageText
    else VoiceText
  }

  /** A `recent_chat_updated` event for one chat member. */
  datatype RecentUpdate = RecentUpdate(to: int, unreadInc: nat)

  /** The updates sent while notifying one receiver: one per chat member. */
  function UpdatesForMembers(members: seq<int>, sender: int): (us: seq<RecentUpdate>)
    ensures |us| == |members|
    ensures forall i :: 0 <= i < |us| ==> us[i].to == members[i] && us[i].unreadInc == if members[i] == sender then 0 else 1
  {
    if members == [] then []
    else [RecentUpdate(members[0], if members[0] == sender then 0 else 1)] + UpdatesForMembers(members[1..], sender)
  }

  function Receivers(members: seq<int>, sender: int): (rs: seq<int>)
    ensures forall u :: u in rs <==> u in members && u != sender
    ensures |rs| <= |members|
  {
    if members == [] then []
    else (if members[0] != sender then [members[0]] else []) + Receivers(members[1..], sender)
  }

  /** All updates sent for one message: the member loop runs once per receiver. */
  function AllUpdates(members: seq<int>, sender: int): seq<RecentUpdate> {
    Repeat(UpdatesForMembers(members, sender), |Receivers(members, sender)|)
  }

  function Repeat<T>(s: seq<T>, n: nat): (r: seq<T>)
    ensures |r| == n * |s|
  {
    if n == 0 then [] else s + Repeat(s, n - 1)
  }

  /** Every update says 0 to the sender and 1 to everyone else. */
  lemma {:induction false} UnreadIncrements(members: seq<int>, sender: int, n: nat)
    ensures forall i :: 0 <= i < |Repeat(UpdatesForMembers(members, sender), n)| ==>
      Repeat(UpdatesForMembers(members, sender), n)[i].unreadInc == if Repeat(UpdatesForMembers(members, sender), n)[i].to == sender then 0 else 1
  {
    if n > 0 {
      UnreadIncrements(members, sender, n - 1);
    }
  }

  /** Each member hears of the message once per receiver (for a direct chat: once). */
  lemma UpdatesPerReceiver(members: seq<int>, sender: int)
    ensures |AllUpdates(members, sender)| == |Receivers(members, sender)| * |members|
  {}
}
