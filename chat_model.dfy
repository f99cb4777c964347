/** The chat model: sending a message (with the JSON wrapping of a reply), marking a chat
    read, the unread count, recalling and editing a message, and finding or creating the
    one-to-one chat of two users. */
module ChatModel {
  import opened Wrappers
  import Seqs
  import Text
  import Json

  /** A row of `messages`. */
  datatype Message = Message(id: int, chatId: int, senderId: int, content: string, status: string,
                             messageType: string, mediaUrl: Option<string>, duration: Option<int>, createdAt: int)

  /** A row of `chats` and one of `chat_users`. */
  datatype Chat = Chat(id: int, name: string, isGroup: bool, createdAt: int, updatedAt: int)
  datatype Member = Member(chatId: int, userId: int, isAdmin: bool)

  /** The fields of a `sendMessage` payload; an empty string stands for a falsy one. */
  datatype Payload = Payload(chatId: int, senderId: int, content: string, messageType: string,
                             mediaUrl: string, duration: Option<int>, replyToId: Option<int>,
                             replyContent: string, replyType: string, replySender: string)

  function OrElse(s: string, default: string): (r: string)
    ensures s != "" ==> r == s
    ensures s == "" ==> r == default
  {
    if s == "" then default else s
  }

  /** `reply_to_id` is truthy: present and not 0. */
  predicate IsReply(p: Payload) { p.replyToId.Some? && p.replyToId.value != 0 }

  /** The object `JSON.stringify` writes for a reply, members in source order. */
  function ReplyObject(p: Payload): Json.Value
    requires IsReply(p)
  {
    Json.Obj([Json.Field("reply_to", Json.Num(p.replyToId.value, 0)),
              Json.Field("reply_content", Json.Str(OrElse(p.replyContent, ""))),
              Json.Field("reply_type", Json.Str(OrElse(p.replyType, "text"))),
              Json.Field("reply_sender", Json.Str(OrElse(p.replySender, ""))),
              Json.Field("message", Json.Str(p.content))])
  }

  /** The `content` column: the text itself, or the reply object as JSON text. */
  function FinalContent(p: Payload): string {
    if IsReply(p) then Json.Stringify(ReplyObject(p)) else p.content
  }

  /** The stored reply decodes back to its parts: the replied-to id, the defaulted reply
      fields and the message text itself. */
  lemma ReplyContentRoundTrip(p: Payload)
    requires IsReply(p)
    ensures Json.Parse(FinalContent(p)) == Some(ReplyObject(p))
    ensures Json.Member(ReplyObject(p), "message") == Some(Json.Str(p.content))
    ensures Json.Member(ReplyObject(p), "reply_to") == Some(Json.Num(p.replyToId.value, 0))
    ensures Json.Member(ReplyObject(p), "reply_type") == Some(Json.Str(if p.replyType == "" then "text" else p.replyType))
  {
    Json.RoundTrip(ReplyObject(p));
    var fs := ReplyObject(p).fields;
    Json.LookupAt(fs, 0);
    Json.LookupAt(fs, 2);
    Json.LookupAt(fs, 4);
  }

  /** A message that is not a reply is stored verbatim. */
  lemma PlainContentVerbatim(p: Payload)
    requires !IsReply(p)
    ensures FinalContent(p) == p.content
  {}

  /** The inserted row: status `sent`, type `text` by default, no media for an empty URL,
      and the duration only when one is given. */
  function NewMessage(id: int, p: Payload, now: int): (m: Message)
    ensures m.status == "sent" && m.chatId == p.chatId && m.senderId == p.senderId
    ensures m.messageType == (if p.messageType == "" then "text" else p.messageType)
    ensures m.mediaUrl.None? <==> p.mediaUrl == ""
    ensures m.duration == p.duration
    ensures !IsReply(p) ==> m.content == p.content
  {
    Message(id, p.chatId, p.senderId, FinalContent(p), "sent", OrElse(p.messageType, "text"),
            if p.mediaUrl == "" then None else Some(p.mediaUrl), p.duration, now)
  }

  /* ---------- Read state and unread counts ---------- */

  /** `sender_id <> @userId AND status IN ('sent', 'delivered')` within one chat. */
  predicate IsUnreadIn(m: Message, chatId: int, userId: int) {
    m.chatId == chatId && m.senderId != userId && (m.status == "sent" || m.status == "delivered")
  }

  function UnreadIn(chatId: int, userId: int): Message -> bool {
    (m: Message) => IsUnreadIn(m, chatId, userId)
  }

  function ChatUnread(messages: seq<Message>, chatId: int, userId: int): nat {
    Seqs.Count(messages, UnreadIn(chatId, userId))
  }

  /** `getUnreadCount`: the join of `messages` with the user's `chat_users` rows, one
      count per membership row. */
  function UnreadCount(messages: seq<Message>, members: seq<Member>, userId: int): nat
    decreases |members|
  {
    if members == [] then 0
    else
      var own := if members[0].userId == userId then ChatUnread(messages, members[0].chatId, userId) else 0;
      own + UnreadCount(messages, members[1..], userId)
  }

  /** `markMessagesRead`: every message of the chat from someone else that is not read
      yet becomes `read`. */
  function MarkMessagesRead(messages: seq<Message>, chatId: int, userId: int): (r: seq<Message>)
    ensures |r| == |messages|
    ensures forall k :: 0 <= k < |r| ==> (r[k] ==
      if messages[k].chatId == chatId && messages[k].senderId != userId && messages[k].status != "read"
      then messages[k].(status := "read") else messages[k])
    decreases |messages|
  {
    if messages == [] then []
    else
      var m := messages[0];
      [if m.chatId == chatId && m.senderId != userId && m.status != "read" then m.(status := "read") else m]
        + MarkMessagesRead(messages[1..], chatId, userId)
  }

  /** After reading a chat nothing in it is unread for the reader, and the unread state of
      every other chat is unchanged for everybody. */
  lemma {:induction false} MarkReadEffect(messages: seq<Message>, chatId: int, userId: int, c: int, u: int)
    ensures ChatUnread(MarkMessagesRead(messages, chatId, userId), chatId, userId) == 0
    ensures c != chatId ==> ChatUnread(MarkMessagesRead(messages, chatId, userId), c, u) == ChatUnread(messages, c, u)
    decreases |messages|
  {
    if messages != [] {
      MarkReadEffect(messages[1..], chatId, userId, c, u);
      assert MarkMessagesRead(messages, chatId, userId)[1..] == MarkMessagesRead(messages[1..], chatId, userId);
    }
  }

  function OtherChat(chatId: int): Member -> bool {
    (cu: Member) => cu.chatId != chatId
  }

  /** Reading a chat removes exactly that chat's part of the reader's unread total. */
  lemma {:induction false} UnreadAfterRead(messages: seq<Message>, members: seq<Member>, chatId: int, userId: int)
    ensures UnreadCount(MarkMessagesRead(messages, chatId, userId), members, userId) ==
      UnreadCount(messages, Seqs.Filter(members, OtherChat(chatId)), userId)
    decreases |members|
  {
    if members != [] {
      UnreadAfterRead(messages, members[1..], chatId, userId);
      MarkReadEffect(messages, chatId, userId, members[0].chatId, userId);
      var rest := Seqs.Filter(members[1..], OtherChat(chatId));
      if OtherChat(chatId)(members[0]) {
        assert Seqs.Filter(members, OtherChat(chatId)) == [members[0]] + rest;
        assert ([members[0]] + rest)[1..] == rest;
      } else {
        assert Seqs.Filter(members, OtherChat(chatId)) == rest;
      }
    }
  }

  /* ---------- Recall and edit ---------- */

  /** `recallMessage`: every row with that id shows `[recalled]`, loses its media and
      gets type `recalled`. */
  function Recall(messages: seq<Message>, messageId: int): (r: seq<Message>)
    ensures |r| == |messages|
    ensures forall k :: 0 <= k < |r| ==> (r[k] ==
      if messages[k].id == messageId
      then messages[k].(content := "[recalled]", mediaUrl := None, messageType := "recalled")
      else messages[k])
  {
    seq(|messages|, k requires 0 <= k < |messages| =>
      if messages[k].id == messageId
      then messages[k].(content := "[recalled]", mediaUrl := None, messageType := "recalled")
      else messages[k])
  }

  /** Recalling twice is recalling once; a recalled message keeps its sender, chat and
      read status. */
  lemma RecallIdempotent(messages: seq<Message>, messageId: int)
    ensures Recall(Recall(messages, messageId), messageId) == Recall(messages, messageId)
    ensures forall k :: 0 <= k < |messages| ==> (var m := Recall(messages, messageId)[k];
      m.senderId == messages[k].senderId && m.chatId == messages[k].chatId && m.status == messages[k].status)
  {}

  /** `editMessage`: every row with that id gets the new content. */
  function Edit(messages: seq<Message>, messageId: int, content: string): (r: seq<Message>)
    ensures |r| == |messages|
    ensures forall k :: 0 <= k < |r| ==> r[k] == (if messages[k].id == messageId then messages[k].(content := content) else messages[k])
  {
    seq(|messages|, k requires 0 <= k < |messages| =>
      if messages[k].id == messageId then messages[k].(content := content) else messages[k])
  }

  /* ---------- One-to-one chats ---------- */

  predicate IsMember(members: seq<Member>, chatId: int, userId: int) {
    exists k :: 0 <= k < |members| && members[k].chatId == chatId && members[k].userId == userId
  }

  /** No member of the chat is outside `{a, b}`. */
  predicate OnlyPair(members: seq<Member>, chatId: int, a: int, b: int) {
    forall k :: 0 <= k < |members| && members[k].chatId == chatId ==> members[k].userId == a || members[k].userId == b
  }

  /** The `WHERE` of the lookup in `getOrCreateDm`. */
  predicate IsDm(members: seq<Member>, c: Chat, a: int, b: int) {
    !c.isGroup && IsMember(members, c.id, a) && IsMember(members, c.id, b) && OnlyPair(members, c.id, a, b)
  }

  /** `SELECT TOP 1 ... ORDER BY c.id DESC`: the largest id of a qualifying chat. */
  function FindDm(chats: seq<Chat>, members: seq<Member>, a: int, b: int): (r: Option<int>)
    ensures r.None? <==> forall k :: 0 <= k < |chats| ==> !IsDm(members, chats[k], a, b)
    ensures r.Some? ==> exists k :: 0 <= k < |chats| && IsDm(members, chats[k], a, b) && chats[k].id == r.value
    ensures r.Some? ==> forall k :: 0 <= k < |chats| && IsDm(members, chats[k], a, b) ==> chats[k].id <= r.value
    decreases |chats|
  {
    if chats == [] then None
    else
      var rest := FindDm(chats[1..], members, a, b);
      if IsDm(members, chats[0], a, b) && (rest.None? || chats[0].id >= rest.value) then Some(chats[0].id)
      else
        assert forall k :: 1 <= k < |chats| ==> chats[k] == chats[1..][k - 1];
        rest
  }

  /** The lookup does not depend on the order of the two users. */
  lemma FindDmSymmetric(chats: seq<Chat>, members: seq<Member>, a: int, b: int)
    ensures FindDm(chats, members, a, b) == FindDm(chats, members, b, a)
  {
    var r1 := FindDm(chats, members, a, b);
    var r2 := FindDm(chats, members, b, a);
    assert forall c :: IsDm(members, c, a, b) == IsDm(members, c, b, a);
    if r1.Some? && r2.Some? {
      var k1 :| 0 <= k1 < |chats| && IsDm(members, chats[k1], a, b) && chats[k1].id == r1.value;
      var k2 :| 0 <= k2 < |chats| && IsDm(members, chats[k2], b, a) && chats[k2].id == r2.value;
      assert r1.value <= r2.value && r2.value <= r1.value;
    }
  }

  /** `Chat 1-1: U${low} & U${high}`. */
  function DmName(a: int, b: int): string {
    var low := if a <= b then a else b;
    var high := if a <= b then b else a;
    "Chat 1-1: U" + Text.IntToString(low) + " & U" + Text.IntToString(high)
  }

  lemma DmNameSymmetric(a: int, b: int)
    ensures DmName(a, b) == DmName(b, a)
  {}

  /** Every stored id is below the next one to be handed out. */
  ghost predicate IdsBelow(chats: seq<Chat>, members: seq<Member>, next: int) {
    (forall k :: 0 <= k < |chats| ==> chats[k].id < next) &&
    (forall k :: 0 <= k < |members| ==> members[k].chatId < next)
  }

  /** A freshly created chat with both users as its only members is the one the lookup
      then finds, whichever order the users are given in. */
  lemma CreatedDmFound(chats: seq<Chat>, members: seq<Member>, a: int, b: int, id: int, now: int)
    requires IdsBelow(chats, members, id) && FindDm(chats, members, a, b).None?
    ensures var chats' := chats + [Chat(id, DmName(a, b), false, now, now)];
      var members' := members + [Member(id, a, false), Member(id, b, false)];
      FindDm(chats', members', a, b) == Some(id) && FindDm(chats', members', b, a) == Some(id)
  {
    var c := Chat(id, DmName(a, b), false, now, now);
    var chats' := chats + [c];
    var members' := members + [Member(id, a, false), Member(id, b, false)];
    forall k | 0 <= k < |chats| ensures !IsDm(members', chats'[k], a, b) {
      OldChatNotDm(members, chats[k], a, b, id);
    }
    NewChatIsDm(members, c, a, b);
    FindDmLast(chats', members', a, b);
    FindDmSymmetric(chats', members', a, b);
  }

  /** Creating the chat with the next id keeps every id below the one after it. */
  lemma IdsBelowNewDm(chats: seq<Chat>, members: seq<Member>, a: int, b: int, id: int, now: int)
    requires IdsBelow(chats, members, id)
    ensures IdsBelow(chats + [Chat(id, DmName(a, b), false, now, now)],
      members + [Member(id, a, false), Member(id, b, false)], id + 1)
  {
  }

  /** Adding the two members of a new chat makes no older chat a one-to-one chat. */
  lemma OldChatNotDm(members: seq<Member>, c: Chat, a: int, b: int, id: int)
    requires c.id < id && !IsDm(members, c, a, b)
    ensures !IsDm(members + [Member(id, a, false), Member(id, b, false)], c, a, b)
  {
    var members' := members + [Member(id, a, false), Member(id, b, false)];
    if IsMember(members', c.id, a) {
      var j :| 0 <= j < |members'| && members'[j].chatId == c.id && members'[j].userId == a;
      assert j < |members|;
    }
    if IsMember(members', c.id, b) {
      var j :| 0 <= j < |members'| && members'[j].chatId == c.id && members'[j].userId == b;
      assert j < |members|;
    }
    forall j | 0 <= j < |members| && members[j].chatId == c.id ensures members'[j] == members[j] {}
  }

  /** The new chat, with the pair as its only members, is a one-to-one chat of the pair. */
  lemma NewChatIsDm(members: seq<Member>, c: Chat, a: int, b: int)
    requires !c.isGroup && forall k :: 0 <= k < |members| ==> members[k].chatId < c.id
    ensures IsDm(members + [Member(c.id, a, false), Member(c.id, b, false)], c, a, b)
  {
    var members' := members + [Member(c.id, a, false), Member(c.id, b, false)];
    assert members'[|members|].chatId == c.id && members'[|members|].userId == a;
    assert members'[|members| + 1].chatId == c.id && members'[|members| + 1].userId == b;
  }

  /** When only the last chat qualifies, the lookup finds it. */
  lemma FindDmLast(chats: seq<Chat>, members: seq<Member>, a: int, b: int)
    requires |chats| > 0 && IsDm(members, chats[|chats| - 1], a, b)
    requires forall k :: 0 <= k < |chats| - 1 ==> !IsDm(members, chats[k], a, b)
    ensures FindDm(chats, members, a, b) == Some(chats[|chats| - 1].id)
  {
    var r := FindDm(chats, members, a, b);
    var k :| 0 <= k < |chats| && IsDm(members, chats[k], a, b) && chats[k].id == r.value;
    assert k == |chats| - 1;
  }

  /** The `messages`, `chats` and `chat_users` tables. */
  class ChatStore {
    var messages: seq<Message>
    var chats: seq<Chat>
    var members: seq<Member>
    var nextMessageId: int
    var nextChatId: int

    ghost predicate Valid()
      reads this
    {
      IdsBelow(chats, members, nextChatId)
    }

    constructor ()
      ensures Valid() && messages == [] && chats == [] && members == []
    {
      messages := [];
      chats := [];
      members := [];
      nextMessageId := 1;
      nextChatId := 1;
    }

    /** `sendMessage`: inserts the row and stamps the chat's `updated_at`. */
    method SendMessage(p: Payload, now: int) returns (m: Message)
      modifies this
      ensures m == NewMessage(old(nextMessageId), p, now)
      ensures messages == old(messages) + [m] && nextMessageId == old(nextMessageId) + 1
      ensures |chats| == |old(chats)| && forall k :: 0 <= k < |chats| ==>
        chats[k] == (if old(chats)[k].id == p.chatId then old(chats)[k].(updatedAt := now) else old(chats)[k])
      ensures members == old(members) && nextChatId == old(nextChatId)
    {
      var content := p.content;
      if IsReply(p) {
        content := Json.Stringify(ReplyObject(p));
      }
      m := Message(nextMessageId, p.chatId, p.senderId, content, "sent", OrElse(p.messageType, "text"),
                   if p.mediaUrl == "" then None else Some(p.mediaUrl), p.duration, now);
      messages := messages + [m];
      nextMessageId := nextMessageId + 1;
      var before := chats;
      chats := seq(|before|, k requires 0 <= k < |before| =>
        if before[k].id == p.chatId then before[k].(updatedAt := now) else before[k]);
    }

    /** `markMessagesRead`. */
    method MarkRead(chatId: int, userId: int)
      modifies this
      ensures messages == MarkMessagesRead(old(messages), chatId, userId)
      ensures chats == old(chats) && members == old(members)
      ensures nextMessageId == old(nextMessageId) && nextChatId == old(nextChatId)
    {
      messages := MarkMessagesRead(messages, chatId, userId);
    }

    /** `getUnreadCount`. */
    method GetUnreadCount(userId: int) returns (count: nat)
      ensures count == UnreadCount(messages, members, userId)
    {
      count := 0;
      var i := |members|;
      while i > 0
        invariant 0 <= i <= |members|
        invariant count == UnreadCount(messages, members[i..], userId)
      {
        i := i - 1;
        assert members[i..][1..] == members[i + 1..];
        if members[i].userId == userId {
          count := count + ChatUnread(messages, members[i].chatId, userId);
        }
      }
    }

    /** `recallMessage`. */
    method RecallMessage(messageId: int)
      modifies this
      ensures messages == Recall(old(messages), messageId)
      ensures chats == old(chats) && members == old(members)
      ensures nextMessageId == old(nextMessageId) && nextChatId == old(nextChatId)
    {
      messages := Recall(messages, messageId);
    }

    /** `editMessage`. */
    method EditMessage(messageId: int, content: string)
      modifies this
      ensures messages == Edit(old(messages), messageId, content)
      ensures chats == old(chats) && members == old(members)
      ensures nextMessageId == old(nextMessageId) && nextChatId == old(nextChatId)
    {
      messages := Edit(messages, messageId, content);
    }

    /** `getOrCreateDm`: the newest existing one-to-one chat of the pair, or a new chat
        with both users as members. */
    method GetOrCreateDm(a: int, b: int, now: int) returns (chatId: int)
      requires Valid()
      modifies this
      ensures Valid() && messages == old(messages) && nextMessageId == old(nextMessageId)
      ensures old(FindDm(chats, members, a, b)).Some? ==>
        chatId == old(FindDm(chats, members, a, b)).value && chats == old(chats) && members == old(members)
      ensures old(FindDm(chats, members, a, b)).None? ==>
        chatId == old(nextChatId) && chats == old(chats) + [Chat(chatId, DmName(a, b), false, now, now)] &&
        members == old(members) + [Member(chatId, a, false), Member(chatId, b, false)]
      ensures FindDm(chats, members, a, b) == Some(chatId) && FindDm(chats, members, b, a) == Some(chatId)
    {
      var existing := FindDm(chats, members, a, b);
      if existing.Some? {
        FindDmSymmetric(chats, members, a, b);
        return existing.value;
      }
      chatId := nextChatId;
      CreatedDmFound(chats, members, a, b, chatId, now);
      IdsBelowNewDm(chats, members, a, b, chatId, now);
      chats := chats + [Chat(chatId, DmName(a, b), false, now, now)];
      members := members + [Member(chatId, a, false), Member(chatId, b, false)];
      nextChatId := nextChatId + 1;
    }
  }
}
