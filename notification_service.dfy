/** The notification service: creating notifications, the user's list, the unread count,
    marking read and deleting, over the `notifications` table. */
module NotificationService {
  import opened Wrappers
  import Seqs

  /** A row of `notifications`; `kind` is the `type` column. */
  datatype Notification = Notification(id: int, userId: int, actorId: int, kind: string,
                                       targetType: Option<string>, targetId: Option<int>,
                                       message: string, isRead: bool, createdAt: int)

  /** `content || default`: an empty content is falsy. */
  function OrDefault(content: string, default: string): (m: string)
    ensures content != "" ==> m == content
    ensures content == "" ==> m == default
  {
    if content == "" then default else content
  }

  /** `postId || null` for the `other` notification. */
  function TruthyPost(postId: Option<int>): (r: Option<int>)
    ensures r.Some? <==> postId.Some? && postId.value != 0
    ensures r.Some? ==> r == postId
  {
    if postId.Some? && postId.value != 0 then postId else None
  }

  predicate IsUnread(n: Notification, userId: int) { n.userId == userId && !n.isRead }

  /** The `WHERE user_id = @userId AND is_read = false` of `getUnreadCount` and
      `markAllRead`. */
  function Unread(userId: int): Notification -> bool {
    (n: Notification) => IsUnread(n, userId)
  }

  /** `getUnreadCount`: `COUNT(*) WHERE user_id = @userId AND is_read = false`. */
  function UnreadCount(rows: seq<Notification>, userId: int): nat {
    Seqs.Count(rows, Unread(userId))
  }

  /** The count is zero exactly when the user has no unread row, and never exceeds the
      table's size. */
  lemma UnreadCountZero(rows: seq<Notification>, userId: int)
    ensures UnreadCount(rows, userId) <= |rows|
    ensures UnreadCount(rows, userId) == 0 <==> forall k :: 0 <= k < |rows| ==> !IsUnread(rows[k], userId)
  {
    Seqs.CountZero(rows, Unread(userId));
  }

  /** `UPDATE notifications SET is_read = true WHERE pick`. */
  function MarkRead(rows: seq<Notification>, pick: Notification -> bool): (r: seq<Notification>)
    ensures |r| == |rows|
    ensures forall k :: 0 <= k < |r| ==> r[k] == (if pick(rows[k]) then rows[k].(isRead := true) else rows[k])
    decreases |rows|
  {
    if rows == [] then []
    else [if pick(rows[0]) then rows[0].(isRead := true) else rows[0]] + MarkRead(rows[1..], pick)
  }

  function PickedUnread(pick: Notification -> bool, userId: int): Notification -> bool {
    (n: Notification) => pick(n) && IsUnread(n, userId)
  }

  /** Marking read lowers a user's unread count by exactly the picked unread rows of that
      user. */
  lemma {:induction false} MarkReadCount(rows: seq<Notification>, pick: Notification -> bool, userId: int)
    ensures UnreadCount(MarkRead(rows, pick), userId) + Seqs.Count(rows, PickedUnread(pick, userId)) == UnreadCount(rows, userId)
    decreases |rows|
  {
    if rows != [] {
      MarkReadCount(rows[1..], pick, userId);
      var after := MarkRead(rows, pick);
      assert after[1..] == MarkRead(rows[1..], pick);
    }
  }

  /** The `WHERE id = @notificationId AND user_id = @userId AND is_read = false` of
      `markAsRead`. */
  function OneOf(notificationId: int, userId: int): Notification -> bool {
    (n: Notification) => n.id == notificationId && n.userId == userId && !n.isRead
  }

  /** After `markAllRead` the user has nothing unread and every other user's unread count
      is unchanged. */
  lemma MarkAllReadSpec(rows: seq<Notification>, userId: int, other: int)
    requires other != userId
    ensures UnreadCount(MarkRead(rows, Unread(userId)), userId) == 0
    ensures UnreadCount(MarkRead(rows, Unread(userId)), other) == UnreadCount(rows, other)
  {
    var after := MarkRead(rows, Unread(userId));
    Seqs.CountZero(after, Unread(userId));
    MarkReadCount(rows, Unread(userId), other);
    Seqs.CountZero(rows, PickedUnread(Unread(userId), other));
  }

  /** `markAsRead` changes only the named notification, and only when it belongs to the
      user; with unique ids it lowers the unread count by one exactly when that row was
      unread. */
  lemma MarkAsReadSpec(rows: seq<Notification>, notificationId: int, userId: int, other: int)
    requires other != userId
    ensures forall k :: 0 <= k < |rows| && (rows[k].id != notificationId || rows[k].userId != userId) ==>
      MarkRead(rows, OneOf(notificationId, userId))[k] == rows[k]
    ensures UnreadCount(MarkRead(rows, OneOf(notificationId, userId)), other) == UnreadCount(rows, other)
    ensures UnreadCount(MarkRead(rows, OneOf(notificationId, userId)), userId) ==
      UnreadCount(rows, userId) - Seqs.Count(rows, OneOf(notificationId, userId))
  {
    MarkAsReadOtherUser(rows, notificationId, userId, other);
    MarkAsReadOwnUser(rows, notificationId, userId);
  }

  lemma MarkAsReadOtherUser(rows: seq<Notification>, notificationId: int, userId: int, other: int)
    requires other != userId
    ensures UnreadCount(MarkRead(rows, OneOf(notificationId, userId)), other) == UnreadCount(rows, other)
  {
    MarkReadCount(rows, OneOf(notificationId, userId), other);
    Seqs.CountZero(rows, PickedUnread(OneOf(notificationId, userId), other));
  }

  lemma MarkAsReadOwnUser(rows: seq<Notification>, notificationId: int, userId: int)
    ensures UnreadCount(MarkRead(rows, OneOf(notificationId, userId)), userId) ==
      UnreadCount(rows, userId) - Seqs.Count(rows, OneOf(notificationId, userId))
  {
    MarkReadCount(rows, OneOf(notificationId, userId), userId);
    SameFilter(rows, PickedUnread(OneOf(notificationId, userId), userId), OneOf(notificationId, userId));
  }

  lemma {:induction false} SameFilter(rows: seq<Notification>, a: Notification -> bool, b: Notification -> bool)
    requires forall k :: 0 <= k < |rows| ==> a(rows[k]) == b(rows[k])
    ensures Seqs.Filter(rows, a) == Seqs.Filter(rows, b)
    decreases |rows|
  {
    if rows != [] { SameFilter(rows[1..], a, b); }
  }

  /** The `WHERE id = @notificationId AND user_id = @userId` of `deleteNotification`. */
  function Survives(notificationId: int, userId: int): Notification -> bool {
    (n: Notification) => !(n.id == notificationId && n.userId == userId)
  }

  function NotOwnedBy(userId: int): Notification -> bool {
    (n: Notification) => n.userId != userId
  }

  /** `deleteNotification` removes exactly the rows with that id that belong to the user. */
  lemma DeleteSpec(rows: seq<Notification>, notificationId: int, userId: int)
    ensures forall n :: n in rows ==> (n in Seqs.Filter(rows, Survives(notificationId, userId)) <==>
      !(n.id == notificationId && n.userId == userId))
    ensures forall n :: n in Seqs.Filter(rows, Survives(notificationId, userId)) ==> n in rows
  {
    var after := Seqs.Filter(rows, Survives(notificationId, userId));
    forall n | n in rows && n in after ensures !(n.id == notificationId && n.userId == userId) {
      var k :| 0 <= k < |after| && after[k] == n;
    }
  }

  /** `deleteAllNotifications` leaves the user with no rows and keeps every other user's. */
  lemma DeleteAllSpec(rows: seq<Notification>, userId: int)
    ensures forall n :: n in Seqs.Filter(rows, NotOwnedBy(userId)) ==> n in rows && n.userId != userId
    ensures forall n :: n in rows && n.userId != userId ==> n in Seqs.Filter(rows, NotOwnedBy(userId))
    ensures UnreadCount(Seqs.Filter(rows, NotOwnedBy(userId)), userId) == 0
  {
    var after := Seqs.Filter(rows, NotOwnedBy(userId));
    forall n | n in after ensures n in rows && n.userId != userId {
      var k :| 0 <= k < |after| && after[k] == n;
    }
    forall n | n in rows && n.userId != userId ensures n in after {
      var k :| 0 <= k < |rows| && rows[k] == n;
      assert NotOwnedBy(userId)(rows[k]);
    }
    Seqs.CountZero(after, Unread(userId));
  }

  /** The columns of `users` the listing joins: `full_name` and `avatar`. */
  datatype Sender = Sender(fullName: Option<string>, avatar: Option<string>)

  /** A row of the `getNotifications` result: `is_read` shown as `read` / `unread`, and the
      sender's columns from the `LEFT JOIN`, null when no user has the actor's id. */
  datatype Shown = Shown(id: int, content: string, kind: string, status: string, postId: Option<int>,
                         targetType: Option<string>, createdAt: int,
                         senderName: Option<string>, senderAvatar: Option<string>, senderId: Option<int>)

  function Show(n: Notification, users: map<int, Sender>): (v: Shown)
    ensures v.status == "read" <==> n.isRead
    ensures v.status == "unread" <==> !n.isRead
    ensures v.id == n.id && v.content == n.message && v.kind == n.kind && v.postId == n.targetId &&
      v.targetType == n.targetType && v.createdAt == n.createdAt
    ensures n.actorId in users ==>
      v.senderId == Some(n.actorId) && v.senderName == users[n.actorId].fullName && v.senderAvatar == users[n.actorId].avatar
    ensures n.actorId !in users ==> v.senderId.None? && v.senderName.None? && v.senderAvatar.None?
  {
    var sender := if n.actorId in users then Some(users[n.actorId]) else None;
    Shown(n.id, n.message, n.kind, if n.isRead then "read" else "unread", n.targetId, n.targetType, n.createdAt,
          if sender.Some? then sender.value.fullName else None,
          if sender.Some? then sender.value.avatar else None,
          if sender.Some? then Some(n.actorId) else None)
  }

  function NewestFirst(): (Notification, Notification) -> bool {
    (a: Notification, b: Notification) => a.createdAt >= b.createdAt
  }

  function OwnedBy(userId: int): Notification -> bool {
    (n: Notification) => n.userId == userId
  }

  /** The user's rows, newest first. */
  function Newest(rows: seq<Notification>, userId: int): seq<Notification> {
    Seqs.Sort(Seqs.Filter(rows, OwnedBy(userId)), NewestFirst())
  }

  /** `getNotifications`: the user's rows, newest first, as many as fit in `limit`. */
  function Listing(rows: seq<Notification>, users: map<int, Sender>, userId: int, limit: nat): (r: seq<Shown>)
    ensures |r| == if Seqs.Count(rows, OwnedBy(userId)) < limit then Seqs.Count(rows, OwnedBy(userId)) else limit
  {
    var all := Newest(rows, userId);
    Seqs.SortLength(Seqs.Filter(rows, OwnedBy(userId)), NewestFirst());
    var n := if |all| < limit then |all| else limit;
    seq(n, k requires 0 <= k < n => Show(all[k], users))
  }

  /** The user's rows newest first, holding each of them as often as the table does. */
  lemma NewestFacts(rows: seq<Notification>, userId: int)
    ensures var all := Newest(rows, userId);
      multiset(all) == multiset(Seqs.Filter(rows, OwnedBy(userId))) &&
      forall i, j :: 0 <= i < j < |all| ==> all[i].createdAt >= all[j].createdAt
  {
    var f := Seqs.Filter(rows, OwnedBy(userId));
    var all := Newest(rows, userId);
    assert Seqs.TotalPreorder(NewestFirst());
    Seqs.SortSorted(f, NewestFirst());
    Seqs.SortPermutation(f, NewestFirst());
    forall i, j | 0 <= i < j < |all| ensures all[i].createdAt >= all[j].createdAt {
      assert NewestFirst()(all[i], all[j]);
    }
  }

  /** The listing shows only the user's rows, newest first. */
  lemma ListingSpec(rows: seq<Notification>, users: map<int, Sender>, userId: int, limit: nat)
    ensures var l := Listing(rows, users, userId, limit);
      (forall i, j :: 0 <= i < j < |l| ==> l[i].createdAt >= l[j].createdAt) &&
      (forall k :: 0 <= k < |l| ==> exists n :: n in rows && n.userId == userId && l[k] == Show(n, users))
  {
    var f := Seqs.Filter(rows, OwnedBy(userId));
    var all := Newest(rows, userId);
    NewestFacts(rows, userId);
    var l := Listing(rows, users, userId, limit);
    forall k | 0 <= k < |l| ensures exists n :: n in rows && n.userId == userId && l[k] == Show(n, users) {
      assert all[k] in multiset(all);
      assert all[k] in f;
    }
  }

  /** The listing is the top `limit`: every row of the user that is not shown is no newer
      than any row that is. */
  lemma ListingTopN(rows: seq<Notification>, users: map<int, Sender>, userId: int, limit: nat, m: Notification)
    requires m in rows && m.userId == userId
    requires Show(m, users) !in Listing(rows, users, userId, limit)
    ensures forall k :: 0 <= k < |Listing(rows, users, userId, limit)| ==>
      m.createdAt <= Listing(rows, users, userId, limit)[k].createdAt
  {
    var f := Seqs.Filter(rows, OwnedBy(userId));
    var all := Newest(rows, userId);
    var l := Listing(rows, users, userId, limit);
    NewestFacts(rows, userId);
    assert m in f;
    assert m in multiset(all);
    forall k | 0 <= k < |l| ensures all[k] != m {
      assert l[k] == Show(all[k], users);
    }
    var j :| 0 <= j < |all| && all[j] == m;
    forall k | 0 <= k < |l| ensures m.createdAt <= l[k].createdAt {
      assert l[k].createdAt == all[k].createdAt;
    }
  }

  /** The `notifications` table. */
  class NotificationStore {
    var rows: seq<Notification>
    var nextId: int

    constructor ()
      ensures rows == [] && nextId == 1
    {
      rows := [];
      nextId := 1;
    }

    /** The `INSERT ... RETURNING *` every creator performs: a new unread row. */
    method Insert(userId: int, actorId: int, kind: string, targetType: Option<string>, targetId: Option<int>,
                  message: string, now: int) returns (n: Notification)
      modifies this
      ensures n == Notification(old(nextId), userId, actorId, kind, targetType, targetId, message, false, now)
      ensures rows == old(rows) + [n] && nextId == old(nextId) + 1
    {
      n := Notification(nextId, userId, actorId, kind, targetType, targetId, message, false, now);
      rows := rows + [n];
      nextId := nextId + 1;
    }

    /** `createLikeNotification`. */
    method CreateLikeNotification(postId: int, senderId: int, userId: int, now: int) returns (n: Notification)
      modifies this
      ensures n == Notification(old(nextId), userId, senderId, "like", Some("post"), Some(postId), "đã thích bài viết của bạn", false, now)
      ensures rows == old(rows) + [n] && nextId == old(nextId) + 1
    {
      n := Insert(userId, senderId, "like", Some("post"), Some(postId), "đã thích bài viết của bạn", now);
    }

    /** `createCommentNotification`. */
    method CreateCommentNotification(postId: int, senderId: int, userId: int, content: string, now: int) returns (n: Notification)
      modifies this
      ensures n == Notification(old(nextId), userId, senderId, "comment", Some("post"), Some(postId),
                                OrDefault(content, "đã bình luận bài viết của bạn"), false, now)
      ensures rows == old(rows) + [n] && nextId == old(nextId) + 1
    {
      n := Insert(userId, senderId, "comment", Some("post"), Some(postId), OrDefault(content, "đã bình luận bài viết của bạn"), now);
    }

    /** `createFriendRequestNotification`. */
    method CreateFriendRequestNotification(userId: int, senderId: int, content: string, now: int) returns (n: Notification)
      modifies this
      ensures n == Notification(old(nextId), userId, senderId, "friend_request", None, None,
                                OrDefault(content, "đã gửi lời mời kết bạn"), false, now)
      ensures rows == old(rows) + [n] && nextId == old(nextId) + 1
    {
      n := Insert(userId, senderId, "friend_request", None, None, OrDefault(content, "đã gửi lời mời kết bạn"), now);
    }

    /** `createMessageNotification`: the chat id is not stored. */
    method CreateMessageNotification(userId: int, senderId: int, content: string, now: int) returns (n: Notification)
      modifies this
      ensures n == Notification(old(nextId), userId, senderId, "message", None, None,
                                OrDefault(content, "đã gửi tin nhắn cho bạn"), false, now)
      ensures rows == old(rows) + [n] && nextId == old(nextId) + 1
    {
      n := Insert(userId, senderId, "message", None, None, OrDefault(content, "đã gửi tin nhắn cho bạn"), now);
    }

    /** `createOtherNotification`: stored with type `share`, and a `post` target only for a
        truthy post id. */
    method CreateOtherNotification(userId: int, senderId: int, content: string, postId: Option<int>, now: int)
      returns (n: Notification)
      modifies this
      ensures n == Notification(old(nextId), userId, senderId, "share",
                                if TruthyPost(postId).Some? then Some("post") else None, TruthyPost(postId),
                                OrDefault(content, "Bạn có thông báo mới"), false, now)
      ensures rows == old(rows) + [n] && nextId == old(nextId) + 1
    {
      var target := TruthyPost(postId);
      n := Insert(userId, senderId, "share", if target.Some? then Some("post") else None, target,
                  OrDefault(content, "Bạn có thông báo mới"), now);
    }

    /** `getNotifications`. */
    method GetNotifications(userId: int, limit: Option<nat>, users: map<int, Sender>) returns (r: seq<Shown>)
      ensures r == Listing(rows, users, userId, limit.GetOr(50))
      ensures |r| <= 50 || limit.Some?
    {
      r := Listing(rows, users, userId, limit.GetOr(50));
    }

    /** `getUnreadCount`. */
    method GetUnreadCount(userId: int) returns (count: nat)
      ensures count == UnreadCount(rows, userId)
    {
      count := |Seqs.Filter(rows, Unread(userId))|;
    }

    /** `markAllRead`. */
    method MarkAllRead(userId: int) returns (success: bool)
      modifies this
      ensures rows == MarkRead(old(rows), Unread(userId)) && nextId == old(nextId) && success
    {
      rows := MarkRead(rows, Unread(userId));
      success := true;
    }

    /** `markAsRead`. */
    method MarkAsRead(notificationId: int, userId: int) returns (success: bool)
      modifies this
      ensures rows == MarkRead(old(rows), OneOf(notificationId, userId)) && nextId == old(nextId) && success
    {
      rows := MarkRead(rows, OneOf(notificationId, userId));
      success := true;
    }

    /** `deleteNotification`: the status read beforehand only decides whether the
        (no-op) unread counter update runs. */
    method DeleteNotification(notificationId: int, userId: int) returns (success: bool)
      modifies this
      ensures rows == Seqs.Filter(old(rows), Survives(notificationId, userId)) && nextId == old(nextId) && success
    {
      rows := Seqs.Filter(rows, Survives(notificationId, userId));
      success := true;
    }

    /** `deleteAllNotifications`. */
    method DeleteAllNotifications(userId: int) returns (success: bool)
      modifies this
      ensures rows == Seqs.Filter(old(rows), NotOwnedBy(userId)) && nextId == old(nextId) && success
    {
      rows := Seqs.Filter(rows, NotOwnedBy(userId));
      success := true;
    }
  }
}
