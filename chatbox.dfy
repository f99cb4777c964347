/** The chat page of the frontend: the window of messages on screen, the reply decoding,
    the time separators, the sidebar chat list and the call-duration toast text. */
module Chatbox {
  import opened Wrappers
  import Seqs
  import Text
  import Json
  import ChatModel

  type Message = ChatModel.Message

  /** Messages are shown fifteen at a time. */
  const Page := 15

  function Min(a: int, b: int): int { if a <= b then a else b }

  /** `s.slice(-n)` for `n > 0`: the last `n` elements, or all of them. */
  function LastN<T>(s: seq<T>, n: nat): (r: seq<T>)
    ensures |r| == Min(n, |s|)
    ensures r == s[|s| - |r|..]
  {
    s[|s| - Min(n, |s|)..]
  }

  /** A suffix of a suffix is a suffix. */
  lemma SuffixOfSuffix<T>(a: seq<T>, b: seq<T>, n: nat)
    requires |b| <= |a| && b == a[|a| - |b|..]
    ensures LastN(b, n) == a[|a| - |LastN(b, n)|..]
  {
    var r := LastN(b, n);
    assert b[|b| - |r|..] == a[|a| - |r|..];
  }

  function ByCreatedAt(): (Message, Message) -> bool {
    (a: Message, b: Message) => a.createdAt <= b.createdAt
  }

  /** The messages of the open chat and the slice of them that is on screen. */
  class ChatWindow {
    var chatId: int
    var allMessages: seq<Message>
    var messages: seq<Message>

    /** The messages on screen are always the newest ones. */
    predicate Valid()
      reads this
    {
      |messages| <= |allMessages| && messages == allMessages[|allMessages| - |messages|..]
    }

    constructor (chatId: int)
      ensures this.chatId == chatId && allMessages == [] && messages == [] && Valid()
    {
      this.chatId, allMessages, messages := chatId, [], [];
    }

    /** `fetchMessages`: the fetched messages in time order, the newest page of them on
        screen. */
    method Load(fetched: seq<Message>)
      modifies this
      ensures allMessages == Seqs.Sort(fetched, ByCreatedAt()) && messages == LastN(allMessages, Page)
      ensures Valid() && chatId == old(chatId)
      ensures multiset(allMessages) == multiset(fetched) && Seqs.Sorted(allMessages, ByCreatedAt())
    {
      Seqs.SortPermutation(fetched, ByCreatedAt());
      Seqs.SortSorted(fetched, ByCreatedAt());
      allMessages := Seqs.Sort(fetched, ByCreatedAt());
      messages := LastN(allMessages, Page);
    }

    /** `receive_message`: a message of another chat is ignored; otherwise it is appended
        and the screen keeps the newest fifteen of what it showed plus the new one. */
    method Receive(msg: Message)
      requires Valid()
      modifies this
      ensures msg.chatId != old(chatId) ==> allMessages == old(allMessages) && messages == old(messages)
      ensures msg.chatId == old(chatId) ==> (allMessages == old(allMessages) + [msg] &&
        messages == LastN(old(messages) + [msg], Page))
      ensures Valid() && chatId == old(chatId)
      ensures |messages| <= Page || messages == old(messages)
    {
      if msg.chatId != chatId {
        return;
      }
      var all := allMessages + [msg];
      var shown := messages + [msg];
      assert shown == all[|all| - |shown|..];
      SuffixOfSuffix(all, shown, Page);
      allMessages := all;
      messages := LastN(shown, Page);
    }

    /** `loadMore`: nothing when every message is on screen; otherwise the newest
        `min(total, current + 15)` messages. */
    method LoadMore()
      requires Valid()
      modifies this
      ensures |old(messages)| >= |old(allMessages)| ==> messages == old(messages)
      ensures |old(messages)| < |old(allMessages)| ==>
        messages == LastN(old(allMessages), Min(|old(allMessages)|, |old(messages)| + Page)) &&
        |messages| > |old(messages)|
      ensures allMessages == old(allMessages) && chatId == old(chatId) && Valid()
    {
      var total := |allMessages|;
      var current := |messages|;
      if current >= total {
        return;
      }
      var next := Min(total, current + Page);
      messages := allMessages[total - next..];
    }
  }

  /** Loading more until nothing changes shows the whole chat. */
  lemma LoadMoreReachesAll(all: seq<Message>, shown: nat)
    requires shown < |all|
    ensures Min(|all|, shown + Page) > shown
    ensures Min(|all|, shown + Page) == |all| || Min(|all|, shown + Page) == shown + Page
  {}

  // ---------------------------------------------------------------- reply decoding

  /** A message as `parseMessage` returns it: plain text, or a reply with the replied-to
      fields and the text that was wrapped. */
  datatype Parsed =
    | Plain(actualContent: string)
    | Reply(replyTo: Json.Value, content: Option<Json.Value>, replyType: Option<Json.Value>,
            sender: Option<Json.Value>, actualMessage: Option<Json.Value>)

  /** `parseMessage`: only a text message whose content decodes to an object with a truthy
      `reply_to` is a reply; anything else (including content that is not JSON) is plain. */
  function ParseMessage(messageType: string, content: Option<string>): (r: Parsed)
    ensures (messageType != "text" || content.None? || content.value == "") ==> r == Plain(content.GetOr(""))
    ensures r.Reply? <==> (messageType == "text" && content.Some? && content.value != "" &&
      Json.Parse(content.value).Some? && Json.Member(Json.Parse(content.value).value, "reply_to").Some? &&
      Json.Truthy(Json.Member(Json.Parse(content.value).value, "reply_to").value))
    ensures r.Plain? && messageType == "text" && content.Some? ==> r.actualContent == content.value
  {
    if messageType != "text" || content.None? || content.value == "" then Plain(content.GetOr(""))
    else
      var data := Json.Parse(content.value);
      if data.Some? then
        var replyTo := Json.Member(data.value, "reply_to");
        if replyTo.Some? && Json.Truthy(replyTo.value) then
          Reply(replyTo.value, Json.Member(data.value, "reply_content"), Json.Member(data.value, "reply_type"),
            Json.Member(data.value, "reply_sender"), Json.Member(data.value, "message"))
        else Plain(content.value)
      else Plain(content.value)
  }

  /** The page decodes what the chat model stores for a reply: the replied-to id and the
      message text come back. */
  lemma ParseStoredReply(p: ChatModel.Payload)
    requires ChatModel.IsReply(p)
    ensures var r := ParseMessage("text", Some(ChatModel.FinalContent(p)));
      r.Reply? && r.replyTo == Json.Num(p.replyToId.value, 0) &&
      r.actualMessage == Some(Json.Str(p.content)) &&
      r.replyType == Some(Json.Str(if p.replyType == "" then "text" else p.replyType))
  {
    ChatModel.ReplyContentRoundTrip(p);
    Json.LookupAt(ChatModel.ReplyObject(p).fields, 0);
    assert ChatModel.FinalContent(p) != "" by {
      Json.StringifyStart(ChatModel.ReplyObject(p));
    }
  }

  /** A stored message that is not a reply is shown as it was sent, when its text is not
      itself a JSON object with a truthy `reply_to`. */
  lemma ParseStoredPlain(p: ChatModel.Payload)
    requires !ChatModel.IsReply(p)
    requires Json.Parse(p.content).None? || Json.Member(Json.Parse(p.content).value, "reply_to").None?
    ensures ParseMessage("text", Some(ChatModel.FinalContent(p))) == Plain(p.content)
  {}

  // ---------------------------------------------------------------- time separators

  const FiveMinutesMs := 5 * 60 * 1000

  /** `shouldShowTime`: the first message, and any message more than five minutes after
      the one before it, gets a time separator. */
  function ShouldShowTime(current: Message, previous: Option<Message>): (b: bool)
    ensures previous.None? ==> b
    ensures previous.Some? ==> (b <==> current.createdAt - previous.value.createdAt > FiveMinutesMs)
  {
    previous.None? || current.createdAt - previous.value.createdAt > FiveMinutesMs
  }

  /** In a chat shown in time order, a message within five minutes of the one before it
      never starts a new separator, and one sent in the same millisecond never does. */
  lemma SameMomentNoSeparator(a: Message, b: Message)
    requires b.createdAt <= a.createdAt + FiveMinutesMs
    ensures !ShouldShowTime(b, Some(a))
  {}

  // ---------------------------------------------------------------- sidebar chat list

  /** A row of the chat list endpoint; `unread_count || 0` is a count. */
  datatype ChatEntry = ChatEntry(chatId: int, unreadCount: nat, lastTime: int, lastMessage: string)

  /** The comparator of the chat list: chats with unread messages first, then the newest
      `last_time` first. */
  function ChatOrder(): (ChatEntry, ChatEntry) -> bool {
    (a: ChatEntry, b: ChatEntry) =>
      (a.unreadCount > 0 && b.unreadCount == 0) ||
      ((a.unreadCount > 0) == (b.unreadCount > 0) && a.lastTime >= b.lastTime)
  }

  /** `Object.values` lists integer keys in ascending order. */
  function ById(): (ChatEntry, ChatEntry) -> bool {
    (a: ChatEntry, b: ChatEntry) => a.chatId <= b.chatId
  }

  lemma ChatOrderTotal()
    ensures Seqs.TotalPreorder(ChatOrder())
  {
    var le := ChatOrder();
    forall a: ChatEntry, b: ChatEntry ensures le(a, b) || le(b, a) {
      if (a.unreadCount > 0) == (b.unreadCount > 0) {
        assert a.lastTime >= b.lastTime || b.lastTime >= a.lastTime;
      }
    }
    forall a: ChatEntry, b: ChatEntry, c: ChatEntry | le(a, b) && le(b, c) ensures le(a, c) {}
  }

  predicate DistinctIds(s: seq<ChatEntry>) {
    forall i, j :: 0 <= i < j < |s| ==> s[i].chatId != s[j].chatId
  }

  lemma DistinctIdsPermutation(a: seq<ChatEntry>, b: seq<ChatEntry>)
    requires DistinctIds(a) && multiset(a) == multiset(b)
    ensures DistinctIds(b)
  {
    forall i, j | 0 <= i < j < |b| ensures b[i].chatId != b[j].chatId {
      assert b[i] in multiset(a) && b[j] in multiset(a);
      var p :| 0 <= p < |a| && a[p] == b[i];
      var q :| 0 <= q < |a| && a[q] == b[j];
      if p == q {
        assert b == b[..j] + b[j..];
        assert b[..j] == b[..i] + [b[i]] + b[i + 1..j];
        assert multiset(b)[b[i]] >= 2;
        assert Seqs.Distinct(a) by {
          forall x, y | 0 <= x < y < |a| ensures a[x] != a[y] { assert a[x].chatId != a[y].chatId; }
        }
        Seqs.DistinctCount(a, b[i]);
      }
    }
  }

  /** `fetchChatList`: one entry per chat id, the one with the latest `last_time` (the
      first of them on a tie), then sorted by the chat-list comparator. */
  method UniqueChats(raw: seq<ChatEntry>) returns (chats: seq<ChatEntry>)
    ensures forall j :: 0 <= j < |chats| ==> chats[j] in raw
    ensures forall k :: 0 <= k < |raw| ==> Covered(chats, raw[k])
    ensures DistinctIds(chats)
    ensures Seqs.Sorted(chats, ChatOrder())
  {
    var acc: map<int, ChatEntry> := map[];
    var order: seq<int> := [];
    var i := 0;
    while i < |raw|
      invariant 0 <= i <= |raw|
      invariant forall id :: id in acc ==> acc[id] in raw && acc[id].chatId == id
      invariant forall k :: 0 <= k < i ==> raw[k].chatId in acc && raw[k].lastTime <= acc[raw[k].chatId].lastTime
      invariant forall j :: 0 <= j < |order| ==> order[j] in acc
      invariant forall id :: id in acc ==> id in order
      invariant Seqs.Distinct(order)
    {
      var c := raw[i];
      if c.chatId !in acc {
        order := order + [c.chatId];
        acc := acc[c.chatId := c];
      } else if c.lastTime > acc[c.chatId].lastTime {
        acc := acc[c.chatId := c];
      }
      i := i + 1;
    }
    var values := seq(|order|, j requires 0 <= j < |order| => acc[order[j]]);
    var byId := Seqs.Sort(values, ById());
    chats := Seqs.Sort(byId, ChatOrder());
    ChatListFromValues(raw, acc, order, values, byId, chats);
  }

  /** Some entry of `chats` has the chat id of `c` and a `last_time` at least as late. */
  predicate Covered(chats: seq<ChatEntry>, c: ChatEntry) {
    exists j :: 0 <= j < |chats| && chats[j].chatId == c.chatId && c.lastTime <= chats[j].lastTime
  }

  lemma ChatListFromValues(raw: seq<ChatEntry>, acc: map<int, ChatEntry>, order: seq<int>,
    values: seq<ChatEntry>, byId: seq<ChatEntry>, chats: seq<ChatEntry>)
    requires forall id :: id in acc ==> acc[id] in raw && acc[id].chatId == id
    requires forall k :: 0 <= k < |raw| ==> raw[k].chatId in acc && raw[k].lastTime <= acc[raw[k].chatId].lastTime
    requires forall j :: 0 <= j < |order| ==> order[j] in acc
    requires forall id :: id in acc ==> id in order
    requires Seqs.Distinct(order)
    requires |values| == |order| && forall j :: 0 <= j < |order| ==> values[j] == acc[order[j]]
    requires byId == Seqs.Sort(values, ById()) && chats == Seqs.Sort(byId, ChatOrder())
    ensures forall j :: 0 <= j < |chats| ==> chats[j] in raw
    ensures forall k :: 0 <= k < |raw| ==> Covered(chats, raw[k])
    ensures DistinctIds(chats)
    ensures Seqs.Sorted(chats, ChatOrder())
  {
    assert DistinctIds(values);
    Seqs.SortPermutation(values, ById());
    Seqs.SortPermutation(byId, ChatOrder());
    ChatOrderTotal();
    Seqs.SortSorted(byId, ChatOrder());
    DistinctIdsPermutation(values, chats);
    forall j | 0 <= j < |chats| ensures chats[j] in raw {
      assert chats[j] in multiset(values);
    }
    forall k | 0 <= k < |raw| ensures Covered(chats, raw[k]) {
      var id := raw[k].chatId;
      var p :| 0 <= p < |order| && order[p] == id;
      assert values[p] == acc[id];
      assert acc[id] in multiset(chats);
      var j :| 0 <= j < |chats| && chats[j] == acc[id];
    }
  }

  // ---------------------------------------------------------------- call toast

  /** `${mins}:${secs.padStart(2, '0')}` for a call that lasted `d > 0` seconds. */
  function CallDurationText(d: nat): (s: string)
    requires d > 0
  {
    Text.NatToString(d / 60) + ":" + Text.PadTwo(d % 60)
  }

  /** The text is the whole minutes, a colon and two digits of seconds, and it reads back
      as the duration. */
  lemma CallDurationTextShape(d: nat)
    requires d > 0
    ensures var s := CallDurationText(d); var m := Text.NatToString(d / 60);
      s[..|m|] == m && s[|m|] == ':' && |s| == |m| + 3 && Text.AllDigits(m) &&
      Text.AllDigits(s[|m| + 1..]) && Text.DigitsValue(m) * 60 + Text.DigitsValue(s[|m| + 1..]) == d
  {
    var m := Text.NatToString(d / 60);
    var sec := d % 60;
    Text.NatToStringDigits(d / 60);
    Text.NatToStringDigits(sec);
    var two := Text.PadTwo(sec);
    assert |two| == 2 by {
      assert Text.Pow10(0) == 1 && Text.Pow10(1) == 10 && Text.Pow10(2) == 100;
      if sec == 0 { } else if sec < 10 { Text.NatToStringLength(sec, 1); } else { Text.NatToStringLength(sec, 2); }
    }
    assert Text.AllDigits(two) && Text.DigitsValue(two) == sec by {
      if sec < 10 {
        assert two == "0" + Text.NatToString(sec);
        assert two[..1] == "0";
      }
    }
    assert CallDurationText(d)[|m| + 1..] == two;
  }
}
