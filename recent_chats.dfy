/** The recent-chats sidebar: the online set, moving a chat to the front on a new message,
    the initial order, and joining each chat room once. */
module RecentChats {
  import opened Wrappers
  import Seqs
  import Chatbox

  type ChatEntry = Chatbox.ChatEntry

  /** A `receive_message` event; a chat id of 0 stands for a missing one. */
  datatype Incoming = Incoming(chatId: int, senderId: int, messageType: string, content: string,
    createdAt: Option<int>)

  /** `findIndex` on the chat id: -1 when the chat is not listed. */
  function FindChat(list: seq<ChatEntry>, chatId: int): (i: int)
    ensures -1 <= i < |list|
    ensures i >= 0 ==> list[i].chatId == chatId && forall k :: 0 <= k < i ==> list[k].chatId != chatId
    ensures i == -1 ==> forall k :: 0 <= k < |list| ==> list[k].chatId != chatId
    decreases |list|
  {
    if |list| == 0 then -1
    else if list[0].chatId == chatId then 0
    else
      var r := FindChat(list[1..], chatId);
      if r == -1 then -1 else r + 1
  }

  /** The entry after a new message: `last_message` is the text, or `Media`; `last_time`
      is the message time, or now; the unread count grows unless I sent it. */
  function Updated(prev: ChatEntry, msg: Incoming, myId: int, now: int): (c: ChatEntry)
    ensures c.chatId == prev.chatId
    ensures c.lastMessage == (if msg.messageType == "text" then msg.content else "Media")
    ensures c.lastTime == msg.createdAt.GetOr(now)
    ensures c.unreadCount == (if msg.senderId == myId then prev.unreadCount else prev.unreadCount + 1)
  {
    Chatbox.ChatEntry(prev.chatId,
      if msg.senderId == myId then prev.unreadCount else prev.unreadCount + 1,
      msg.createdAt.GetOr(now),
      if msg.messageType == "text" then msg.content else "Media")
  }

  class Sidebar {
    const myId: int
    var recentChats: seq<ChatEntry>
    var onlineUsers: set<int>
    var joinedRooms: set<int>

    constructor (myId: int)
      ensures this.myId == myId && recentChats == [] && onlineUsers == {} && joinedRooms == {}
    {
      this.myId := myId;
      recentChats, onlineUsers, joinedRooms := [], {}, {};
    }

    /** `user_status_changed`: `online` adds the user, any other status removes them. */
    method StatusChanged(userId: int, status: string)
      modifies this
      ensures status == "online" ==> onlineUsers == old(onlineUsers) + {userId}
      ensures status != "online" ==> onlineUsers == old(onlineUsers) - {userId}
      ensures recentChats == old(recentChats) && joinedRooms == old(joinedRooms)
    {
      if status == "online" {
        onlineUsers := onlineUsers + {userId};
      } else {
        onlineUsers := onlineUsers - {userId};
      }
    }

    /** `receive_message`: a message without a chat id, or for a chat not listed, changes
        nothing; otherwise the chat's entry is updated and moved to the front. */
    method ReceiveMessage(msg: Incoming, now: int)
      modifies this
      ensures (msg.chatId == 0 || FindChat(old(recentChats), msg.chatId) == -1) ==> recentChats == old(recentChats)
      ensures msg.chatId != 0 && FindChat(old(recentChats), msg.chatId) >= 0 ==>
        var idx := FindChat(old(recentChats), msg.chatId);
        recentChats == [Updated(old(recentChats)[idx], msg, myId, now)] +
          old(recentChats)[..idx] + old(recentChats)[idx + 1..]
      ensures |recentChats| == |old(recentChats)|
      ensures onlineUsers == old(onlineUsers) && joinedRooms == old(joinedRooms)
    {
      if msg.chatId == 0 {
        return;
      }
      var idx := FindChat(recentChats, msg.chatId);
      if idx == -1 {
        return;
      }
      var item := Updated(recentChats[idx], msg, myId, now);
      recentChats := [item] + recentChats[..idx] + recentChats[idx + 1..];
    }

    /** `fetchRecentChats`: the list in the chat-list order. */
    method Load(fetched: seq<ChatEntry>)
      modifies this
      ensures recentChats == Seqs.Sort(fetched, Chatbox.ChatOrder())
      ensures multiset(recentChats) == multiset(fetched) && Seqs.Sorted(recentChats, Chatbox.ChatOrder())
      ensures onlineUsers == old(onlineUsers) && joinedRooms == old(joinedRooms)
    {
      Seqs.SortPermutation(fetched, Chatbox.ChatOrder());
      Chatbox.ChatOrderTotal();
      Seqs.SortSorted(fetched, Chatbox.ChatOrder());
      recentChats := Seqs.Sort(fetched, Chatbox.ChatOrder());
    }

    /** The room-joining effect: without a socket nothing happens; otherwise each listed
        chat with a non-zero id not joined before is joined, once. `emitted` lists the
        `join_chat` events in order. */
    method JoinRooms(hasSocket: bool) returns (emitted: seq<int>)
      modifies this
      ensures !hasSocket ==> emitted == [] && joinedRooms == old(joinedRooms)
      ensures hasSocket ==> joinedRooms == old(joinedRooms) + set k | 0 <= k < |recentChats| && recentChats[k].chatId != 0 :: recentChats[k].chatId
      ensures forall k :: 0 <= k < |emitted| ==> emitted[k] !in old(joinedRooms) && emitted[k] != 0
      ensures Seqs.Distinct(emitted)
      ensures forall id :: id in joinedRooms && id !in old(joinedRooms) ==> id in emitted
      ensures recentChats == old(recentChats) && onlineUsers == old(onlineUsers)
    {
      emitted := [];
      if !hasSocket {
        return;
      }
      var i := 0;
      while i < |recentChats|
        invariant 0 <= i <= |recentChats|
        invariant joinedRooms == old(joinedRooms) + set k | 0 <= k < i && recentChats[k].chatId != 0 :: recentChats[k].chatId
        invariant forall k :: 0 <= k < |emitted| ==> emitted[k] !in old(joinedRooms) && emitted[k] != 0 && emitted[k] in joinedRooms
        invariant Seqs.Distinct(emitted)
        invariant forall id :: id in joinedRooms && id !in old(joinedRooms) ==> id in emitted
        invariant recentChats == old(recentChats) && onlineUsers == old(onlineUsers)
      {
        var id := recentChats[i].chatId;
        if id != 0 && id !in joinedRooms {
          emitted := emitted + [id];
          joinedRooms := joinedRooms + {id};
        }
        assert (set k | 0 <= k < i + 1 && recentChats[k].chatId != 0 :: recentChats[k].chatId) ==
          (set k | 0 <= k < i && recentChats[k].chatId != 0 :: recentChats[k].chatId) +
          (if id != 0 then {id} else {});
        i := i + 1;
      }
    }
  }

  /** Moving a chat to the front keeps the same chats: only the moved entry changes. */
  lemma MoveToFrontKeepsChats(list: seq<ChatEntry>, idx: int, item: ChatEntry)
    requires 0 <= idx < |list| && item.chatId == list[idx].chatId
    ensures var r := [item] + list[..idx] + list[idx + 1..];
      multiset(r) == multiset(list) - multiset{list[idx]} + multiset{item} &&
      (forall k :: 0 <= k < |list| ==> exists j :: 0 <= j < |r| && r[j].chatId == list[k].chatId)
  {
    var r := [item] + list[..idx] + list[idx + 1..];
    assert list == list[..idx] + [list[idx]] + list[idx + 1..];
    forall k | 0 <= k < |list| ensures exists j :: 0 <= j < |r| && r[j].chatId == list[k].chatId {
      if k < idx { assert r[k + 1] == list[k]; }
      else if k == idx { assert r[0].chatId == list[k].chatId; }
      else { assert r[k] == list[k]; }
    }
  }
}
