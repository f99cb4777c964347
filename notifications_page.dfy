/** The notifications page of the frontend: the three list filters, the counters on the
    filter buttons, the list updates after marking and deleting, and where a click leads. */
module NotificationsPage {
  import opened Wrappers
  import Seqs

  /** A listed notification; `postId` is `None` for a missing or zero `post_id`, which
      the page treats as absent. */
  datatype Notification = Notification(id: int, kind: string, status: string, postId: Option<int>, senderId: int)

  predicate IsUnread(n: Notification) { n.status == "unread" }

  predicate IsRead(n: Notification) { n.status == "read" }

  /** `filteredNotifications`: `all` shows every notification, `unread` the unread ones,
      and any other filter value the read ones. */
  function Filtered(ns: seq<Notification>, filter: string): (r: seq<Notification>)
    ensures filter == "all" ==> r == ns
    ensures filter != "all" ==> forall n :: n in r <==> n in ns && (if filter == "unread" then IsUnread(n) else IsRead(n))
    ensures |r| <= |ns|
  {
    if filter == "all" then ns
    else if filter == "unread" then Seqs.Filter(ns, IsUnread)
    else Seqs.Filter(ns, IsRead)
  }

  /** The count on the unread button and the condition for showing "mark all as read". */
  function UnreadCount(ns: seq<Notification>): (c: nat)
    ensures c <= |ns|
    ensures c == |Filtered(ns, "unread")|
  {
    |Seqs.Filter(ns, IsUnread)|
  }

  /** The count on the read button: all notifications less the unread ones. */
  function ReadCount(ns: seq<Notification>): (c: nat)
    ensures c + UnreadCount(ns) == |ns|
  {
    |ns| - UnreadCount(ns)
  }

  /** When every status is `read` or `unread`, the read counter is the length of the read
      list and the two filtered lists together hold every notification. */
  lemma ReadCountMatchesFilter(ns: seq<Notification>)
    requires forall k :: 0 <= k < |ns| ==> IsRead(ns[k]) || IsUnread(ns[k])
    ensures ReadCount(ns) == |Filtered(ns, "read")|
    ensures multiset(Filtered(ns, "unread")) + multiset(Filtered(ns, "read")) == multiset(ns)
  {
    Seqs.FilterSplit(ns, IsUnread, IsRead);
    assert |multiset(Filtered(ns, "unread")) + multiset(Filtered(ns, "read"))| == |ns|;
  }

  function WithRead(n: Notification): Notification { n.(status := "read") }

  /** The list after `markAllRead`: every notification, in place, with status `read`. */
  function MarkAllRead(ns: seq<Notification>): (r: seq<Notification>)
    ensures |r| == |ns|
    ensures forall k :: 0 <= k < |ns| ==> r[k] == WithRead(ns[k])
    decreases |ns|
  {
    if |ns| == 0 then [] else [WithRead(ns[0])] + MarkAllRead(ns[1..])
  }

  /** After marking everything, nothing is unread and every notification is on the read
      list. */
  lemma MarkAllReadLeavesNoneUnread(ns: seq<Notification>)
    ensures UnreadCount(MarkAllRead(ns)) == 0
    ensures Filtered(MarkAllRead(ns), "read") == MarkAllRead(ns)
  {
    var r := MarkAllRead(ns);
    Seqs.FilterNone(r, IsUnread);
    Seqs.FilterAll(r, IsRead);
  }

  /** The list after `markAsRead(id)`: the notifications with that id become read, every
      other one stays as it was, and the order is kept. */
  function MarkAsRead(ns: seq<Notification>, id: int): (r: seq<Notification>)
    ensures |r| == |ns|
    ensures forall k :: 0 <= k < |ns| && ns[k].id == id ==> r[k] == WithRead(ns[k])
    ensures forall k :: 0 <= k < |ns| && ns[k].id != id ==> r[k] == ns[k]
    decreases |ns|
  {
    if |ns| == 0 then []
    else [if ns[0].id == id then WithRead(ns[0]) else ns[0]] + MarkAsRead(ns[1..], id)
  }

  /** Marking one notification removes exactly the unread ones with its id from the unread
      list. */
  lemma {:induction false} MarkAsReadUnread(ns: seq<Notification>, id: int)
    ensures Filtered(MarkAsRead(ns, id), "unread") == Seqs.Filter(ns, (n: Notification) => IsUnread(n) && n.id != id)
    decreases |ns|
  {
    if |ns| > 0 {
      MarkAsReadUnread(ns[1..], id);
      var r := MarkAsRead(ns, id);
      assert r[1..] == MarkAsRead(ns[1..], id);
    }
  }

  /** Marking the same notification twice is the same as marking it once. */
  lemma MarkAsReadIdempotent(ns: seq<Notification>, id: int)
    ensures MarkAsRead(MarkAsRead(ns, id), id) == MarkAsRead(ns, id)
  {
  }

  /** The list after deleting `id`: the notifications with other ids, in order. */
  function Delete(ns: seq<Notification>, id: int): (r: seq<Notification>)
    ensures forall n :: n in r <==> n in ns && n.id != id
    ensures |r| <= |ns|
  {
    Seqs.Filter(ns, (n: Notification) => n.id != id)
  }

  /** Deleting an id that is not listed changes nothing. */
  lemma DeleteAbsent(ns: seq<Notification>, id: int)
    requires id !in Ids(ns)
    ensures Delete(ns, id) == ns
  {
    Seqs.FilterAll(ns, (n: Notification) => n.id != id);
  }

  function Ids(ns: seq<Notification>): set<int> { set k | 0 <= k < |ns| :: ns[k].id }

  /** Deleting a notification that was listed shortens the list and leaves nothing with
      its id. */
  lemma {:induction false} DeleteShortens(ns: seq<Notification>, id: int)
    requires id in Ids(ns)
    ensures |Delete(ns, id)| < |ns|
    ensures id !in Ids(Delete(ns, id))
    decreases |ns|
  {
    var keep := (n: Notification) => n.id != id;
    assert ns == [ns[0]] + ns[1..];
    Seqs.FilterAppend([ns[0]], ns[1..], keep);
    if ns[0].id != id {
      assert id in Ids(ns[1..]) by {
        var k :| 0 <= k < |ns| && ns[k].id == id;
        assert ns[1..][k - 1] == ns[k];
      }
      DeleteShortens(ns[1..], id);
    }
  }

  /** Where a click leads. */
  datatype Route = PostPage(postId: int) | PendingRequests | Profile(userId: int) | Conversation(userId: int) | Stay

  /** The route of a clicked notification: likes, comments, replies, shares and others
      open their post when they have one; friend requests open the pending tab;
      accepted requests the sender's profile; messages the conversation with the sender;
      any other type stays on the page. */
  function ClickRoute(n: Notification): (r: Route)
    ensures r.PostPage? <==> n.kind in ["like", "comment", "reply", "share", "other"] && n.postId.Some?
    ensures r.PostPage? ==> r.postId == n.postId.value
    ensures r.PendingRequests? <==> n.kind == "friend_request"
    ensures r.Profile? <==> n.kind == "friend_accept"
    ensures r.Conversation? <==> n.kind == "message"
    ensures (r.Profile? || r.Conversation?) ==> r.userId == n.senderId
  {
    if n.kind in ["like", "comment", "reply", "share", "other"] then
      if n.postId.Some? then PostPage(n.postId.value) else Stay
    else if n.kind == "friend_request" then PendingRequests
    else if n.kind == "friend_accept" then Profile(n.senderId)
    else if n.kind == "message" then Conversation(n.senderId)
    else Stay
  }

  /** What a click does: an unread notification is marked read first (`Some(id)`), a read
      one is not, and then the page follows `ClickRoute`. */
  function HandleClick(n: Notification): (r: (Option<int>, Route))
    ensures r.0.Some? <==> IsUnread(n)
    ensures r.0.Some? ==> r.0.value == n.id
    ensures r.1 == ClickRoute(n)
  {
    (if IsUnread(n) then Some(n.id) else None, ClickRoute(n))
  }

  /** Applying a click's marking to the list leaves the clicked notification read. */
  lemma ClickMarksRead(ns: seq<Notification>, k: int)
    requires 0 <= k < |ns| && IsUnread(ns[k])
    ensures var m := HandleClick(ns[k]).0; m.Some? && IsRead(MarkAsRead(ns, m.value)[k])
  {
  }
}
