/** The comment service: the two listings, creating, editing (owner only) and deleting a
    comment together with its whole reply tree and the likes on it. */
module CommentService {
  import opened Wrappers
  import Seqs
  import LikeService

  /** A row of `comments`. */
  datatype Comment = Comment(id: int, postId: int, userId: int, content: string, parent: Option<int>,
                             createdAt: int, updatedAt: Option<int>)

  /** The author fields joined in from `users`. */
  datatype UserInfo = UserInfo(id: int, fullName: string, username: string, avatar: Option<string>)

  /** A listed comment with its two counters. */
  datatype Listed = Listed(comment: Comment, author: UserInfo, repliesCount: nat, likesCount: nat)

  const Refused: string := "Unauthorized or comment not found"

  function RepliesCount(comments: seq<Comment>, id: int): nat {
    Seqs.Count(comments, (c: Comment) => c.parent == Some(id))
  }

  function LikesCount(likes: seq<LikeService.Like>, id: int): nat {
    Seqs.Count(likes, (l: LikeService.Like) => l.commentId == Some(id))
  }

  function NewestFirst(): (Comment, Comment) -> bool {
    (a: Comment, b: Comment) => a.createdAt >= b.createdAt
  }

  function OldestFirst(): (Comment, Comment) -> bool {
    (a: Comment, b: Comment) => a.createdAt <= b.createdAt
  }

  lemma OrdersTotal()
    ensures Seqs.TotalPreorder(NewestFirst()) && Seqs.TotalPreorder(OldestFirst())
  {}

  /** Top-level comments of the post whose author exists. */
  function IsTopLevel(postId: int, users: map<int, UserInfo>): Comment -> bool {
    (c: Comment) => c.postId == postId && c.parent.None? && c.userId in users
  }

  /** Replies to the comment whose author exists. */
  function IsReplyTo(commentId: int, users: map<int, UserInfo>): Comment -> bool {
    (c: Comment) => c.parent == Some(commentId) && c.userId in users
  }

  function Sorted(comments: seq<Comment>, keep: Comment -> bool, le: (Comment, Comment) -> bool): (r: seq<Comment>)
    ensures multiset(r) == multiset(Seqs.Filter(comments, keep))
    ensures forall k :: 0 <= k < |r| ==> r[k] in comments && keep(r[k])
  {
    var f := Seqs.Filter(comments, keep);
    var r := Seqs.Sort(f, le);
    Seqs.SortPermutation(f, le);
    assert forall k :: 0 <= k < |r| ==> r[k] in f by {
      forall k | 0 <= k < |r| ensures r[k] in f { assert r[k] in multiset(r); }
    }
    r
  }

  function WithCounts(rows: seq<Comment>, comments: seq<Comment>, likes: seq<LikeService.Like>, users: map<int, UserInfo>): (r: seq<Listed>)
    requires forall k :: 0 <= k < |rows| ==> rows[k].userId in users
    ensures |r| == |rows|
    ensures forall k :: 0 <= k < |r| ==> r[k] == Listed(rows[k], users[rows[k].userId], RepliesCount(comments, rows[k].id), LikesCount(likes, rows[k].id))
  {
    seq(|rows|, k requires 0 <= k < |rows| => Listed(rows[k], users[rows[k].userId], RepliesCount(comments, rows[k].id), LikesCount(likes, rows[k].id)))
  }

  /** `getCommentsByPost`: the post's top-level comments, newest first. */
  function CommentsByPost(comments: seq<Comment>, likes: seq<LikeService.Like>, users: map<int, UserInfo>, postId: int): seq<Listed> {
    WithCounts(Sorted(comments, IsTopLevel(postId, users), NewestFirst()), comments, likes, users)
  }

  /** `getReplies`: the comment's direct replies, oldest first. */
  function Replies(comments: seq<Comment>, likes: seq<LikeService.Like>, users: map<int, UserInfo>, commentId: int): seq<Listed> {
    WithCounts(Sorted(comments, IsReplyTo(commentId, users), OldestFirst()), comments, likes, users)
  }

  /** A listing holds exactly the selected rows, each once per row, ordered by `le`. */
  lemma ListingSpec(comments: seq<Comment>, likes: seq<LikeService.Like>, users: map<int, UserInfo>,
                    keep: Comment -> bool, le: (Comment, Comment) -> bool)
    requires Seqs.TotalPreorder(le)
    requires forall c :: keep(c) ==> c.userId in users
    ensures var l := WithCounts(Sorted(comments, keep, le), comments, likes, users);
      (forall k :: 0 <= k < |l| ==> l[k].comment in comments && keep(l[k].comment)) &&
      (forall c :: c in comments && keep(c) ==> exists k :: 0 <= k < |l| && l[k].comment == c) &&
      (forall i, j :: 0 <= i < j < |l| ==> le(l[i].comment, l[j].comment))
  {
    var f := Seqs.Filter(comments, keep);
    var rows := Sorted(comments, keep, le);
    Seqs.SortSorted(f, le);
    var l := WithCounts(rows, comments, likes, users);
    forall c | c in comments && keep(c) ensures exists k :: 0 <= k < |l| && l[k].comment == c {
      assert c in multiset(f);
      assert c in multiset(rows);
      var k :| 0 <= k < |rows| && rows[k] == c;
      assert l[k].comment == c;
    }
  }

  /** The top-level listing holds exactly the post's top-level comments by authors that
      exist, newest first. */
  lemma CommentsByPostSpec(comments: seq<Comment>, likes: seq<LikeService.Like>, users: map<int, UserInfo>, postId: int)
    ensures var top := CommentsByPost(comments, likes, users, postId);
      (forall k :: 0 <= k < |top| ==> top[k].comment in comments && top[k].comment.postId == postId && top[k].comment.parent.None?) &&
      (forall c :: c in comments && c.postId == postId && c.parent.None? && c.userId in users ==>
        exists k :: 0 <= k < |top| && top[k].comment == c) &&
      (forall i, j :: 0 <= i < j < |top| ==> top[i].comment.createdAt >= top[j].comment.createdAt)
  {
    OrdersTotal();
    ListingSpec(comments, likes, users, IsTopLevel(postId, users), NewestFirst());
  }

  /** The reply listing holds exactly the comment's direct replies by authors that exist,
      oldest first. */
  lemma RepliesSpec(comments: seq<Comment>, likes: seq<LikeService.Like>, users: map<int, UserInfo>, commentId: int)
    ensures var replies := Replies(comments, likes, users, commentId);
      (forall k :: 0 <= k < |replies| ==> replies[k].comment in comments && replies[k].comment.parent == Some(commentId)) &&
      (forall c :: c in comments && c.parent == Some(commentId) && c.userId in users ==>
        exists k :: 0 <= k < |replies| && replies[k].comment == c) &&
      (forall i, j :: 0 <= i < j < |replies| ==> replies[i].comment.createdAt <= replies[j].comment.createdAt)
  {
    OrdersTotal();
    ListingSpec(comments, likes, users, IsReplyTo(commentId, users), OldestFirst());
  }

  /** `getCommentById`: the first row with that id. */
  function CommentById(comments: seq<Comment>, id: int): (r: Option<Comment>)
    ensures r.Some? ==> r.value in comments && r.value.id == id
    ensures r.None? <==> forall k :: 0 <= k < |comments| ==> comments[k].id != id
  {
    if comments == [] then None
    else if comments[0].id == id then Some(comments[0])
    else CommentById(comments[1..], id)
  }

  /* ---------- The reply tree ---------- */

  function Ids(comments: seq<Comment>): set<int> {
    set c | c in comments :: c.id
  }

  /** One step of the recursive `tree` query: the ids of the replies to a member. */
  function Grow(comments: seq<Comment>, s: set<int>): (g: set<int>)
    ensures s <= g
  {
    s + set c | c in comments && c.parent.Some? && c.parent.value in s :: c.id
  }

  /** A set of ids that holds every reply to each of its members. */
  ghost predicate Closed(comments: seq<Comment>, s: set<int>) {
    forall c :: c in comments && c.parent.Some? && c.parent.value in s ==> c.id in s
  }

  lemma {:induction false} SubsetSize<T>(a: set<T>, b: set<T>)
    requires a <= b
    ensures |a| <= |b|
    decreases |a|
  {
    if a != {} {
      var x :| x in a;
      SubsetSize(a - {x}, b - {x});
    }
  }

  lemma ProperSubsetSize<T>(a: set<T>, b: set<T>)
    requires a < b
    ensures |a| < |b|
  {
    assert !(b <= a);
    var x :| x in b && x !in a;
    SubsetSize(a, b - {x});
  }

  function TreeFrom(comments: seq<Comment>, s: set<int>): (t: set<int>)
    requires s <= Ids(comments)
    ensures s <= t <= Ids(comments) && Closed(comments, t)
    decreases |Ids(comments) - s|
  {
    var g := Grow(comments, s);
    assert g <= Ids(comments);
    if g == s then s
    else
      ProperSubsetSize(Ids(comments) - g, Ids(comments) - s);
      TreeFrom(comments, g)
  }

  /** The rows the recursive `tree` query collects: the comment and its replies at every
      depth. */
  function Tree(comments: seq<Comment>, root: int): (t: set<int>)
    ensures t <= Ids(comments)
    ensures root in Ids(comments) ==> root in t
    ensures root !in Ids(comments) ==> t == {}
    ensures Closed(comments, t)
  {
    if root in Ids(comments) then TreeFrom(comments, {root}) else {}
  }

  /** The tree holds nothing but descendants: it is inside every reply-closed set that
      holds the root. */
  lemma {:induction false} TreeFromLeast(comments: seq<Comment>, s: set<int>, other: set<int>)
    requires s <= Ids(comments) && s <= other && Closed(comments, other)
    ensures TreeFrom(comments, s) <= other
    decreases |Ids(comments) - s|
  {
    var g := Grow(comments, s);
    assert g <= Ids(comments);
    if g != s {
      ProperSubsetSize(Ids(comments) - g, Ids(comments) - s);
      TreeFromLeast(comments, g, other);
    }
  }

  lemma TreeLeast(comments: seq<Comment>, root: int, other: set<int>)
    requires root in other && Closed(comments, other)
    ensures Tree(comments, root) <= other
  {
    if root in Ids(comments) {
      TreeFromLeast(comments, {root}, other);
    }
  }

  function OutsideTree(t: set<int>): Comment -> bool {
    (c: Comment) => c.id !in t
  }

  function LikeOutsideTree(t: set<int>): LikeService.Like -> bool {
    (l: LikeService.Like) => l.commentId.None? || l.commentId.value !in t
  }

  /** The two `DELETE ... WHERE ... IN (SELECT id FROM tree)` statements. */
  function DeleteTree(comments: seq<Comment>, likes: seq<LikeService.Like>, root: int): (r: (seq<Comment>, seq<LikeService.Like>))
    ensures forall c :: c in r.0 <==> c in comments && c.id !in Tree(comments, root)
    ensures forall l :: l in r.1 <==> l in likes && (l.commentId.None? || l.commentId.value !in Tree(comments, root))
  {
    var t := Tree(comments, root);
    (Seqs.Filter(comments, OutsideTree(t)), Seqs.Filter(likes, LikeOutsideTree(t)))
  }

  /** After deleting an existing comment it is gone, no remaining comment replies to a
      deleted one, no remaining like is on a deleted one, and every comment outside the
      reply tree is kept. */
  lemma DeleteTreeSpec(comments: seq<Comment>, likes: seq<LikeService.Like>, root: int)
    requires root in Ids(comments)
    ensures var (cs, ls) := DeleteTree(comments, likes, root);
      (forall c :: c in cs ==> c.id != root) &&
      (forall c :: c in cs && c.parent.Some? ==> c.parent.value !in Tree(comments, root)) &&
      (forall l :: l in ls && l.commentId.Some? ==> l.commentId.value !in Tree(comments, root)) &&
      (forall c :: c in comments && c.id !in Tree(comments, root) ==> c in cs)
  {}

  /** A reply of a reply of the deleted comment goes with it. */
  lemma GrandchildDeleted(comments: seq<Comment>, likes: seq<LikeService.Like>, root: int, child: Comment, grandchild: Comment)
    requires root in Ids(comments) && child in comments && grandchild in comments
    requires child.parent == Some(root) && grandchild.parent == Some(child.id)
    ensures grandchild.id in Tree(comments, root) && grandchild !in DeleteTree(comments, likes, root).0
  {}

  /** `userId !== comment_owner_id && userId !== post_owner_id` refuses. */
  predicate MayDelete(userId: int, commentOwner: int, postOwner: int) {
    userId == commentOwner || userId == postOwner
  }

  datatype Created = Created(comment: Comment, author: UserInfo, likesCount: nat, repliesCount: nat)

  /** The `comments` table with the `likes` it owns; `posts` maps a post id to its owner. */
  class CommentStore {
    var comments: seq<Comment>
    var likes: seq<LikeService.Like>
    var nextId: int
    const postOwners: map<int, int>
    const users: map<int, UserInfo>

    constructor (postOwners: map<int, int>, users: map<int, UserInfo>)
      ensures comments == [] && likes == [] && this.postOwners == postOwners && this.users == users
    {
      comments := [];
      likes := [];
      nextId := 1;
      this.postOwners := postOwners;
      this.users := users;
    }

    /** `createComment`: the row is inserted first; an author missing from `users` then
        makes the response fail, with the row already stored. */
    method CreateComment(postId: int, userId: int, content: string, parent: Option<int>, now: int)
      returns (r: Result<Created, string>)
      modifies this
      ensures var row := Comment(old(nextId), postId, userId, content, parent, now, None);
        comments == old(comments) + [row] && likes == old(likes) && nextId == old(nextId) + 1 &&
        (userId in users ==> r == Ok(Created(row, users[userId], 0, 0))) &&
        (userId !in users ==> r.Err?)
    {
      var row := Comment(nextId, postId, userId, content, parent, now, None);
      comments := comments + [row];
      nextId := nextId + 1;
      if userId !in users {
        return Err("Cannot read properties of undefined (reading 'id')");
      }
      r := Ok(Created(row, users[userId], 0, 0));
    }

    /** `updateComment`: only the comment's owner may edit it; every row with that id gets
        the new content and the update time. */
    method UpdateComment(commentId: int, userId: int, content: string, now: int) returns (r: Result<bool, string>)
      modifies this
      ensures likes == old(likes) && nextId == old(nextId)
      ensures (exists k :: 0 <= k < |old(comments)| && old(comments)[k].id == commentId && old(comments)[k].userId == userId) <==> r.Ok?
      ensures r.Err? ==> r.error == Refused && comments == old(comments)
      ensures r.Ok? ==> (r.value && |comments| == |old(comments)| &&
        forall k :: 0 <= k < |comments| ==> (comments[k] ==
          if old(comments)[k].id == commentId then old(comments)[k].(content := content, updatedAt := Some(now)) else old(comments)[k]))
    {
      var owned := Seqs.Filter(comments, (c: Comment) => c.id == commentId && c.userId == userId);
      if |owned| == 0 {
        assert forall k :: 0 <= k < |comments| ==> !(comments[k].id == commentId && comments[k].userId == userId);
        return Err(Refused);
      }
      assert owned[0] in comments;
      var before := comments;
      comments := seq(|before|, k requires 0 <= k < |before| =>
        if before[k].id == commentId then before[k].(content := content, updatedAt := Some(now)) else before[k]);
      r := Ok(true);
    }

    /** `deleteComment`: the comment must exist on an existing post, and the caller must own
        the comment or the post; then its reply tree and the likes on it are deleted. */
    method DeleteComment(commentId: int, userId: int) returns (r: Result<bool, string>)
      modifies this
      ensures nextId == old(nextId)
      ensures var meta := CommentById(old(comments), commentId);
        (meta.Some? && meta.value.postId in postOwners && MayDelete(userId, meta.value.userId, postOwners[meta.value.postId])) <==> r.Ok?
      ensures r.Err? ==> r.error == Refused && comments == old(comments) && likes == old(likes)
      ensures r.Ok? ==> r.value && (comments, likes) == DeleteTree(old(comments), old(likes), commentId)
    {
      var meta := CommentById(comments, commentId);
      if meta.None? || meta.value.postId !in postOwners {
        return Err(Refused);
      }
      if !MayDelete(userId, meta.value.userId, postOwners[meta.value.postId]) {
        return Err(Refused);
      }
      var t := Tree(comments, commentId);
      likes := Seqs.Filter(likes, LikeOutsideTree(t));
      comments := Seqs.Filter(comments, OutsideTree(t));
      r := Ok(true);
    }
  }
}
