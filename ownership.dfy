/** The ownership and access middlewares: who may modify a post, comment, message or
    profile, who may view a post, chat membership, the admin gate and the per-action
    counter. */
module Ownership {
  import opened Wrappers
  import Text

  /** What a middleware does with the request: pass it on, or answer with a status. */
  datatype Verdict = Next | Reject(status: int, message: string)

  /** The stored owner of a resource (`None` when no row matched); `failed` is a query
      that threw. */
  function CheckOwnership(owner: Option<int>, requester: int, failed: bool, notFound: string, forbidden: string): (v: Verdict)
    ensures failed ==> v == Reject(500, "Server error")
    ensures !failed && owner.None? ==> v == Reject(404, notFound)
    ensures !failed && owner.Some? ==> (v.Reject? <==> owner.value != requester)
    ensures !failed && owner.Some? && owner.value != requester ==> v == Reject(403, forbidden)
  {
    if failed then Reject(500, "Server error")
    else if owner.None? then Reject(404, notFound)
    else if owner.value != requester then Reject(403, forbidden)
    else Next
  }

  function CheckPostOwnership(owner: Option<int>, requester: int, failed: bool): Verdict {
    CheckOwnership(owner, requester, failed, "Post not found", "You do not have permission to modify this post")
  }

  function CheckCommentOwnership(owner: Option<int>, requester: int, failed: bool): Verdict {
    CheckOwnership(owner, requester, failed, "Comment not found", "You do not have permission to modify this comment")
  }

  function CheckMessageOwnership(sender: Option<int>, requester: int, failed: bool): Verdict {
    CheckOwnership(sender, requester, failed, "Message not found", "You can only edit/delete your own messages")
  }

  /** The three ownership checks refuse exactly the requests of non-owners. */
  lemma OwnershipIff(owner: int, requester: int)
    ensures CheckPostOwnership(Some(owner), requester, false).Reject? <==> owner != requester
    ensures CheckCommentOwnership(Some(owner), requester, false).Reject? <==> owner != requester
    ensures CheckMessageOwnership(Some(owner), requester, false).Reject? <==> owner != requester
    ensures owner != requester ==> CheckPostOwnership(Some(owner), requester, false).status == 403
  {}

  datatype Post = Post(userId: int, privacy: string)
  datatype FriendRow = FriendRow(userId: int, friendId: int, status: string)

  /** An accepted friendship row in either direction. */
  predicate Friends(rows: seq<FriendRow>, a: int, b: int) {
    exists i :: 0 <= i < |rows| && rows[i].status == "accepted" &&
      ((rows[i].userId == a && rows[i].friendId == b) || (rows[i].userId == b && rows[i].friendId == a))
  }

  /** The friendship query, as a search over the table. */
  function HasAcceptedFriendship(rows: seq<FriendRow>, a: int, b: int): (r: bool)
    ensures r <==> Friends(rows, a, b)
  {
    if rows == [] then false
    else
      var f := rows[|rows| - 1];
      var before := HasAcceptedFriendship(rows[..|rows| - 1], a, b);
      assert forall i :: 0 <= i < |rows| - 1 ==> rows[..|rows| - 1][i] == rows[i];
      before || (f.status == "accepted" && ((f.userId == a && f.friendId == b) || (f.userId == b && f.friendId == a)))
  }

  /** `checkPostAccess`. */
  function CheckPostAccess(post: Option<Post>, userId: int, friendships: seq<FriendRow>, failed: bool): (v: Verdict)
    ensures failed ==> v == Reject(500, "Server error")
    ensures !failed && post.None? ==> v == Reject(404, "Post not found")
    ensures !failed && post.Some? && post.value.userId == userId ==> v == Next
    ensures !failed && post.Some? && post.value.userId != userId ==>
      (post.value.privacy == "public" ==> v == Next) &&
      (post.value.privacy == "private" ==> v == Reject(403, "This post is private")) &&
      (post.value.privacy == "friends" ==>
        (v == Next <==> Friends(friendships, userId, post.value.userId)) &&
        (v != Next ==> v == Reject(403, "This post is only visible to friends")))
  {
    if failed then Reject(500, "Server error")
    else if post.None? then Reject(404, "Post not found")
    else
      var p := post.value;
      if p.userId == userId then Next
      else if p.privacy == "public" then Next
      else if p.privacy == "private" then Reject(403, "This post is private")
      else if p.privacy == "friends" && !HasAcceptedFriendship(friendships, userId, p.userId) then
        Reject(403, "This post is only visible to friends")
      else Next
  }

  /** Friendship counts in both directions. */
  lemma FriendsSymmetric(rows: seq<FriendRow>, a: int, b: int)
    ensures Friends(rows, a, b) <==> Friends(rows, b, a)
  {}

  /** A viewer refused a post is never its owner, and the post is never public. */
  lemma RefusedViewer(post: Post, userId: int, friendships: seq<FriendRow>)
    requires CheckPostAccess(Some(post), userId, friendships, false).Reject?
    ensures post.userId != userId && post.privacy != "public"
    ensures post.privacy == "private" || (post.privacy == "friends" && !Friends(friendships, userId, post.userId))
  {}

  datatype Chat = Chat(id: int, userA: int, userB: int)

  /** `checkChatAccess`: only the two members of a chat pass. */
  function CheckChatAccess(chats: seq<Chat>, chatId: int, userId: int, failed: bool): (v: Verdict)
    ensures failed ==> v == Reject(500, "Server error")
    ensures !failed ==> (v == Next <==> exists i :: 0 <= i < |chats| && chats[i].id == chatId && (chats[i].userA == userId || chats[i].userB == userId))
    ensures !failed && v != Next ==> v == Reject(403, "You do not have access to this chat")
  {
    if failed then Reject(500, "Server error")
    else if exists i :: 0 <= i < |chats| && chats[i].id == chatId && (chats[i].userA == userId || chats[i].userB == userId) then Next
    else Reject(403, "You do not have access to this chat")
  }

  /** `checkProfileOwnership`: `target` is the parsed route parameter (`None` for NaN). */
  function CheckProfileOwnership(target: Option<int>, current: int): (v: Verdict)
    ensures v == Next <==> target == Some(current)
    ensures v != Next ==> v == Reject(403, "You can only modify your own profile")
  {
    if target != Some(current) then Reject(403, "You can only modify your own profile") else Next
  }

  datatype User = User(id: int, role: string)

  /** `checkAdminRole`. */
  function CheckAdminRole(user: Option<User>): (v: Verdict)
    ensures v == Next <==> user.Some? && user.value.role == "admin"
    ensures v != Next ==> v == Reject(403, "Admin access required")
  {
    if user.None? || user.value.role != "admin" then Reject(403, "Admin access required") else Next
  }

  // ------------------------------------------------------------------ action limit

  /** `action:<type>:user:<id>`. */
  function ActionKey(actionType: string, userId: int): string {
    "action:" + actionType + ":user:" + Text.IntToString(userId)
  }

  const ActionTtlSeconds: int := 3600

  /** The `maxPerHour` of `checkActionLimit` when the caller passes none. */
  const DefaultActionLimit: int := 100

  /** The cache the action counter lives in: `INCR` counts and `EXPIRE` sets a TTL. */
  class CounterCache {
    var counts: map<string, int>
    var ttl: map<string, int>

    constructor ()
      ensures counts == map[] && ttl == map[]
    {
      counts := map[];
      ttl := map[];
    }

    /** `incr`: a missing key counts from 0. */
    method Incr(key: string) returns (n: int)
      modifies this
      ensures n == (if key in old(counts) then old(counts)[key] else 0) + 1
      ensures counts == old(counts)[key := n] && ttl == old(ttl)
    {
      n := (if key in counts then counts[key] else 0) + 1;
      counts := counts[key := n];
    }

    method Expire(key: string, seconds: int)
      modifies this
      ensures ttl == old(ttl)[key := seconds] && counts == old(counts)
    {
      ttl := ttl[key := seconds];
    }

    /** `checkActionLimit(actionType, maxPerHour)` for one request; an omitted maximum
        (`None`) is the default `DefaultActionLimit`. `cacheDown` is a cache that throws,
        which lets the request through unchanged. */
    method CheckActionLimit(actionType: string, maxPerHour: Option<int>, userId: int, cacheDown: bool) returns (v: Verdict)
      modifies this
      ensures cacheDown ==> v == Next && counts == old(counts) && ttl == old(ttl)
      ensures !cacheDown ==>
        var key := ActionKey(actionType, userId);
        var n := (if key in old(counts) then old(counts)[key] else 0) + 1;
        counts == old(counts)[key := n] &&
        ttl == (if n == 1 then old(ttl)[key := ActionTtlSeconds] else old(ttl)) &&
        (v == Next <==> n <= maxPerHour.GetOr(DefaultActionLimit)) &&
        (v != Next ==> v == Reject(429, "Too many " + actionType + " actions. Please try again later."))
    {
      if cacheDown {
        return Next;
      }
      var key := ActionKey(actionType, userId);
      var count := Incr(key);
      if count == 1 {
        Expire(key, ActionTtlSeconds);
      }
      if count > maxPerHour.GetOr(DefaultActionLimit) {
        return Reject(429, "Too many " + actionType + " actions. Please try again later.");
      }
      v := Next;
    }
  }
}
