/** The admin controller: the paged, searchable lists of users, posts and comments; the
    account status switch; and the admin deletion of a post or a comment with the rows
    that depend on it. */
module AdminController {
  import opened Wrappers
  import Seqs
  import Text

  datatype AdminUser = AdminUser(id: int, fullName: string, username: string, email: string,
    status: string, reason: Option<string>, suspendedAt: Option<int>, createdAt: int, avatar: Option<string>)
  datatype Post = Post(id: int, userId: int, content: string, createdAt: int)
  datatype Comment = Comment(id: int, postId: int, userId: int, content: string, parent: Option<int>, createdAt: int)
  /** A row of `likes`, on a post or on a comment. */
  datatype Like = Like(userId: int, entityType: string, entityId: int)
  datatype Share = Share(userId: int, postId: int)
  datatype SavedPost = SavedPost(userId: int, postId: int)

  // ---------------------------------------------------------------- pagination

  /** `Math.ceil(total / limit)` for a positive limit. */
  function CeilDiv(total: nat, limit: int): (pages: nat)
    requires limit > 0
    ensures pages * limit >= total
    ensures total > 0 ==> (pages - 1) * limit < total
    ensures total == 0 ==> pages == 0
  {
    (total + limit - 1) / limit
  }

  /** The `pagination` object of a list reply. */
  datatype Page<T> = Page(items: seq<T>, page: int, limit: int, total: nat, totalPages: nat)

  /** What the database refuses in `OFFSET @offset ROWS FETCH NEXT @limit ROWS ONLY`; the
      handler answers it with 500. */
  datatype PageError = NegativeOffset | NonPositiveFetch

  /** The matching rows in list order. */
  function Listing<T>(rows: seq<T>, keep: T -> bool, newer: (T, T) -> bool): seq<T> {
    Seqs.Sort(Seqs.Filter(rows, keep), newer)
  }

  lemma ListingLength<T>(rows: seq<T>, keep: T -> bool, newer: (T, T) -> bool)
    ensures |Listing(rows, keep, newer)| == Seqs.Count(rows, keep)
  {
    Seqs.SortLength(Seqs.Filter(rows, keep), newer);
  }

  /** One page of a list (`page` defaults to 1, `limit` to 20): `offset = (page - 1) *
      limit`, the rows from there on, at most `limit` of them, and the total of matching
      rows with `ceil(total / limit)` pages. */
  function AdminPage<T>(rows: seq<T>, keep: T -> bool, newer: (T, T) -> bool, page: Option<int>, limit: Option<int>)
    : (r: Result<Page<T>, PageError>)
    ensures var p := page.GetOr(1); var l := limit.GetOr(20);
      ((p - 1) * l < 0 <==> r == Err(NegativeOffset)) &&
      ((p - 1) * l >= 0 && l <= 0 <==> r == Err(NonPositiveFetch))
    ensures r.Ok? ==> var p := page.GetOr(1); var l := limit.GetOr(20); var all := Listing(rows, keep, newer);
      var offset := (p - 1) * l;
      r.value.page == p && r.value.limit == l && r.value.total == Seqs.Count(rows, keep) &&
      r.value.totalPages == CeilDiv(Seqs.Count(rows, keep), l) &&
      |r.value.items| == (if offset >= |all| then 0 else if |all| - offset < l then |all| - offset else l) &&
      forall k :: 0 <= k < |r.value.items| ==> offset + k < |all| && r.value.items[k] == all[offset + k]
  {
    var p := page.GetOr(1);
    var l := limit.GetOr(20);
    var offset := (p - 1) * l;
    if offset < 0 then Err(NegativeOffset)
    else if l <= 0 then Err(NonPositiveFetch)
    else
      var all := Listing(rows, keep, newer);
      ListingLength(rows, keep, newer);
      var n := if offset >= |all| then 0 else if |all| - offset < l then |all| - offset else l;
      Ok(Page(if n == 0 then [] else all[offset..offset + n], p, l, Seqs.Count(rows, keep), CeilDiv(Seqs.Count(rows, keep), l)))
  }

  /** The pages partition the list: the row at position `q * limit + m` (with `m <
      limit`) is item `m` of page `q + 1`, and that page is within `totalPages`. */
  lemma PageOfPosition<T>(rows: seq<T>, keep: T -> bool, newer: (T, T) -> bool, limit: int, q: nat, m: nat)
    requires limit > 0 && m < limit && q * limit + m < Seqs.Count(rows, keep)
    ensures var r := AdminPage(rows, keep, newer, Some(q + 1), Some(limit));
      r.Ok? && m < |r.value.items| && r.value.items[m] == Listing(rows, keep, newer)[q * limit + m] &&
      q + 1 <= r.value.totalPages
  {
    PageItem(rows, keep, newer, limit, q, m);
    PageWithin(Seqs.Count(rows, keep), limit, q, m);
  }

  lemma PageItem<T>(rows: seq<T>, keep: T -> bool, newer: (T, T) -> bool, limit: int, q: nat, m: nat)
    requires limit > 0 && m < limit && q * limit + m < Seqs.Count(rows, keep)
    ensures var r := AdminPage(rows, keep, newer, Some(q + 1), Some(limit));
      r.Ok? && m < |r.value.items| && r.value.items[m] == Listing(rows, keep, newer)[q * limit + m]
  {
    ListingLength(rows, keep, newer);
    assert (q + 1 - 1) * limit == q * limit;
    assert q * limit >= 0 by { MulMonotone(0, q, limit); }
  }

  lemma PageWithin(total: nat, limit: int, q: nat, m: nat)
    requires limit > 0 && m < limit && q * limit + m < total
    ensures q + 1 <= CeilDiv(total, limit)
  {
    var pages := CeilDiv(total, limit);
    if q + 1 > pages {
      MulMonotone(pages, q, limit);
      assert false;
    }
  }

  lemma MulMonotone(a: int, b: int, c: int)
    requires a <= b && c > 0
    ensures a * c <= b * c
  {}

  // ---------------------------------------------------------------- the three lists

  /** `WHERE 1=1 [AND (... LIKE '%q%' ...)]`: a blank `q` keeps every row; the pattern is
      taken as a plain substring. */
  function UserMatches(q: string): AdminUser -> bool {
    (u: AdminUser) => q == "" || Text.Contains(u.fullName, q) || Text.Contains(u.username, q) || Text.Contains(u.email, q)
  }

  function NewerUser(): (AdminUser, AdminUser) -> bool {
    (a: AdminUser, b: AdminUser) => a.createdAt >= b.createdAt
  }

  /** `getAllUsers`. */
  function GetAllUsers(users: seq<AdminUser>, q: string, page: Option<int>, limit: Option<int>): (r: Result<Page<AdminUser>, PageError>)
    ensures r.Ok? ==> r.value.total == Seqs.Count(users, UserMatches(q))
    ensures r.Ok? ==> forall k :: 0 <= k < |r.value.items| ==>
      r.value.items[k] in users && UserMatches(q)(r.value.items[k])
    ensures r.Ok? ==> forall i, j :: 0 <= i < j < |r.value.items| ==> r.value.items[i].createdAt >= r.value.items[j].createdAt
  {
    var r := AdminPage(users, UserMatches(q), NewerUser(), page, limit);
    assert Seqs.TotalPreorder(NewerUser());
    PageFacts(users, UserMatches(q), NewerUser(), page, limit);
    r
  }

  /** A list row of `getAllPosts`: the post, its author when the author still exists, and
      the counts of its likes and comments. */
  datatype PostRow = PostRow(post: Post, author: Option<AdminUser>, likesCount: nat, commentsCount: nat)

  function FindUser(users: seq<AdminUser>, id: int): (r: Option<AdminUser>)
    ensures r.Some? ==> r.value in users && r.value.id == id
    ensures r.None? ==> forall k :: 0 <= k < |users| ==> users[k].id != id
  {
    if users == [] then None else if users[0].id == id then Some(users[0]) else FindUser(users[1..], id)
  }

  function LikeOn(entityType: string, id: int): Like -> bool {
    (l: Like) => l.entityType == entityType && l.entityId == id
  }

  function CommentOnPost(postId: int): Comment -> bool {
    (c: Comment) => c.postId == postId
  }

  /** `FROM posts p LEFT JOIN users u` with the two count subqueries. */
  function PostRows(posts: seq<Post>, users: seq<AdminUser>, likes: seq<Like>, comments: seq<Comment>): (rows: seq<PostRow>)
    ensures |rows| == |posts|
    ensures forall k :: 0 <= k < |rows| ==> (rows[k].post == posts[k] &&
      rows[k].likesCount == Seqs.Count(likes, LikeOn("post", posts[k].id)) &&
      rows[k].commentsCount == Seqs.Count(comments, CommentOnPost(posts[k].id)))
  {
    seq(|posts|, k requires 0 <= k < |posts| =>
      PostRow(posts[k], FindUser(users, posts[k].userId),
              Seqs.Count(likes, LikeOn("post", posts[k].id)), Seqs.Count(comments, CommentOnPost(posts[k].id))))
  }

  /** A missing author has NULL name columns, which no `LIKE` matches. */
  function PostMatches(q: string): PostRow -> bool {
    (r: PostRow) => q == "" || Text.Contains(r.post.content, q) ||
      (r.author.Some? && (Text.Contains(r.author.value.fullName, q) || Text.Contains(r.author.value.username, q)))
  }

  function NewerPost(): (PostRow, PostRow) -> bool {
    (a: PostRow, b: PostRow) => a.post.createdAt >= b.post.createdAt
  }

  /** `getAllPosts`. */
  function GetAllPosts(posts: seq<Post>, users: seq<AdminUser>, likes: seq<Like>, comments: seq<Comment>,
                       q: string, page: Option<int>, limit: Option<int>): (r: Result<Page<PostRow>, PageError>)
    ensures r.Ok? ==> r.value.total == Seqs.Count(PostRows(posts, users, likes, comments), PostMatches(q))
    ensures r.Ok? ==> forall k :: 0 <= k < |r.value.items| ==>
      r.value.items[k].post in posts && PostMatches(q)(r.value.items[k]) &&
      r.value.items[k].likesCount == Seqs.Count(likes, LikeOn("post", r.value.items[k].post.id))
    ensures r.Ok? ==> forall i, j :: 0 <= i < j < |r.value.items| ==> r.value.items[i].post.createdAt >= r.value.items[j].post.createdAt
  {
    var rows := PostRows(posts, users, likes, comments);
    var r := AdminPage(rows, PostMatches(q), NewerPost(), page, limit);
    assert Seqs.TotalPreorder(NewerPost());
    PageFacts(rows, PostMatches(q), NewerPost(), page, limit);
    r
  }

  /** A list row of `getAllComments`. */
  datatype CommentRow = CommentRow(comment: Comment, author: Option<AdminUser>, postContent: Option<string>, likesCount: nat)

  function FindPost(posts: seq<Post>, id: int): (r: Option<Post>)
    ensures r.Some? ==> r.value in posts && r.value.id == id
    ensures r.None? ==> forall k :: 0 <= k < |posts| ==> posts[k].id != id
  {
    if posts == [] then None else if posts[0].id == id then Some(posts[0]) else FindPost(posts[1..], id)
  }

  function CommentRows(comments: seq<Comment>, users: seq<AdminUser>, posts: seq<Post>, likes: seq<Like>): (rows: seq<CommentRow>)
    ensures |rows| == |comments|
    ensures forall k :: 0 <= k < |rows| ==> (rows[k].comment == comments[k] &&
      rows[k].likesCount == Seqs.Count(likes, LikeOn("comment", comments[k].id)))
  {
    seq(|comments|, k requires 0 <= k < |comments| =>
      var p := FindPost(posts, comments[k].postId);
      CommentRow(comments[k], FindUser(users, comments[k].userId), if p.Some? then Some(p.value.content) else None,
                 Seqs.Count(likes, LikeOn("comment", comments[k].id))))
  }

  function CommentMatches(q: string): CommentRow -> bool {
    (r: CommentRow) => q == "" || Text.Contains(r.comment.content, q) ||
      (r.author.Some? && (Text.Contains(r.author.value.fullName, q) || Text.Contains(r.author.value.username, q)))
  }

  function NewerComment(): (CommentRow, CommentRow) -> bool {
    (a: CommentRow, b: CommentRow) => a.comment.createdAt >= b.comment.createdAt
  }

  /** `getAllComments`. */
  function GetAllComments(comments: seq<Comment>, users: seq<AdminUser>, posts: seq<Post>, likes: seq<Like>,
                          q: string, page: Option<int>, limit: Option<int>): (r: Result<Page<CommentRow>, PageError>)
    ensures r.Ok? ==> r.value.total == Seqs.Count(CommentRows(comments, users, posts, likes), CommentMatches(q))
    ensures r.Ok? ==> forall k :: 0 <= k < |r.value.items| ==>
      r.value.items[k].comment in comments && CommentMatches(q)(r.value.items[k])
    ensures r.Ok? ==> forall i, j :: 0 <= i < j < |r.value.items| ==> r.value.items[i].comment.createdAt >= r.value.items[j].comment.createdAt
  {
    var rows := CommentRows(comments, users, posts, likes);
    var r := AdminPage(rows, CommentMatches(q), NewerComment(), page, limit);
    assert Seqs.TotalPreorder(NewerComment());
    PageFacts(rows, CommentMatches(q), NewerComment(), page, limit);
    r
  }

  /** A page holds only matching rows of the table, ordered newest first. */
  lemma PageFacts<T(!new)>(rows: seq<T>, keep: T -> bool, newer: (T, T) -> bool, page: Option<int>, limit: Option<int>)
    requires Seqs.TotalPreorder(newer)
    ensures var r := AdminPage(rows, keep, newer, page, limit);
      r.Ok? ==> (forall k :: 0 <= k < |r.value.items| ==> r.value.items[k] in rows && keep(r.value.items[k])) &&
                Seqs.Sorted(r.value.items, newer)
  {
    var r := AdminPage(rows, keep, newer, page, limit);
    if r.Ok? {
      ListingFacts(rows, keep, newer);
      var all := Listing(rows, keep, newer);
      var offset := (page.GetOr(1) - 1) * limit.GetOr(20);
      var items := r.value.items;
      assert forall k :: 0 <= k < |items| ==> offset + k < |all| && items[k] == all[offset + k];
      assert Seqs.Sorted(all, newer);
      forall k | 0 <= k < |items| ensures items[k] in rows && keep(items[k]) {
        assert items[k] == all[offset + k];
      }
      forall i, j | 0 <= i < j < |items| ensures newer(items[i], items[j]) {
        assert items[i] == all[offset + i] && items[j] == all[offset + j];
      }
    }
  }

  /** The list holds only matching rows of the table, and is ordered. */
  lemma ListingFacts<T(!new)>(rows: seq<T>, keep: T -> bool, newer: (T, T) -> bool)
    requires Seqs.TotalPreorder(newer)
    ensures forall k :: 0 <= k < |Listing(rows, keep, newer)| ==>
      Listing(rows, keep, newer)[k] in rows && keep(Listing(rows, keep, newer)[k])
    ensures Seqs.Sorted(Listing(rows, keep, newer), newer)
  {
    var f := Seqs.Filter(rows, keep);
    var all := Listing(rows, keep, newer);
    Seqs.SortPermutation(f, newer);
    Seqs.SortSorted(f, newer);
    forall k | 0 <= k < |all| ensures all[k] in rows && keep(all[k]) {
      assert all[k] in multiset(all);
      assert all[k] in f;
    }
  }

  // ---------------------------------------------------------------- updateUserStatus

  /** `reason || null`. */
  function ReasonOrNull(reason: Option<string>): Option<string> {
    if reason.Some? && reason.value != "" then reason else None
  }

  /** The `UPDATE` of `updateUserStatus`: every row with the id gets the status and reason,
      and a suspension time exactly when the status is `suspended`; other rows stay. */
  function SetStatus(users: seq<AdminUser>, id: int, status: string, reason: Option<string>, now: int): (r: seq<AdminUser>)
    ensures |r| == |users|
    ensures forall k :: 0 <= k < |r| ==> r[k].id == users[k].id
    ensures forall k :: 0 <= k < |r| && users[k].id != id ==> r[k] == users[k]
    ensures forall k :: 0 <= k < |r| && users[k].id == id ==>
      r[k].status == status && r[k].reason == ReasonOrNull(reason) &&
      (r[k].suspendedAt.Some? <==> status == "suspended") &&
      r[k] == users[k].(status := r[k].status, reason := r[k].reason, suspendedAt := r[k].suspendedAt)
  {
    seq(|users|, k requires 0 <= k < |users| =>
      if users[k].id == id
      then users[k].(status := status, reason := ReasonOrNull(reason),
                     suspendedAt := if status == "suspended" then Some(now) else None)
      else users[k])
  }

  /** A row is consistent when it carries a suspension time iff it is suspended. */
  predicate Consistent(u: AdminUser) { u.suspendedAt.Some? <==> u.status == "suspended" }

  /** The update keeps every row consistent; a rejected status is refused. */
  lemma SetStatusConsistent(users: seq<AdminUser>, id: int, status: string, reason: Option<string>, now: int)
    requires forall k :: 0 <= k < |users| ==> Consistent(users[k])
    ensures forall k :: 0 <= k < |SetStatus(users, id, status, reason, now)| ==>
      Consistent(SetStatus(users, id, status, reason, now)[k])
  {
    var r := SetStatus(users, id, status, reason, now);
    forall k | 0 <= k < |r| ensures Consistent(r[k]) {
      if users[k].id != id { assert r[k] == users[k]; }
    }
  }

  const AllowedStatuses: seq<string> := ["active", "suspended"]

  datatype Reply = Done(message: string) | Fail(status: int, message: string)

  // ---------------------------------------------------------------- deletions

  function NotLikeOn(entityType: string, id: int): Like -> bool {
    (l: Like) => !(l.entityType == entityType && l.entityId == id)
  }
  function ShareNotOf(postId: int): Share -> bool { (s: Share) => s.postId != postId }
  function SavedNotOf(postId: int): SavedPost -> bool { (s: SavedPost) => s.postId != postId }
  function CommentNotOn(postId: int): Comment -> bool { (c: Comment) => c.postId != postId }
  function PostNot(id: int): Post -> bool { (p: Post) => p.id != id }
  function NotReplyTo(id: int): Comment -> bool { (c: Comment) => c.parent != Some(id) }
  function CommentNot(id: int): Comment -> bool { (c: Comment) => c.id != id }

  /** The admin tables. */
  class AdminStore {
    var users: seq<AdminUser>
    var posts: seq<Post>
    var comments: seq<Comment>
    var likes: seq<Like>
    var shares: seq<Share>
    var saved: seq<SavedPost>

    constructor ()
      ensures users == [] && posts == [] && comments == [] && likes == [] && shares == [] && saved == []
    {
      users, posts, comments, likes, shares, saved := [], [], [], [], [], [];
    }

    /** `updateUserStatus`: 400 for a status other than `active` or `suspended`, otherwise
        the update, which succeeds even when no user has the id. */
    method UpdateUserStatus(id: int, status: Option<string>, reason: Option<string>, now: int) returns (reply: Reply)
      modifies this
      ensures status.None? || status.value !in AllowedStatuses <==> reply == Fail(400, "Trạng thái không hợp lệ")
      ensures reply.Fail? ==> users == old(users)
      ensures reply.Done? ==> (users == SetStatus(old(users), id, status.value, reason, now) &&
        reply.message == "Cập nhật trạng thái thành công")
      ensures posts == old(posts) && comments == old(comments) && likes == old(likes) &&
        shares == old(shares) && saved == old(saved)
    {
      if status.None? || status.value !in AllowedStatuses {
        return Fail(400, "Trạng thái không hợp lệ");
      }
      users := SetStatus(users, id, status.value, reason, now);
      reply := Done("Cập nhật trạng thái thành công");
    }

    /** `deletePostByAdmin`: 404 for a missing post; otherwise the post's likes, shares,
        saves and comments go, then the post. */
    method DeletePostByAdmin(id: int) returns (reply: Reply)
      modifies this
      ensures (forall k :: 0 <= k < |old(posts)| ==> old(posts)[k].id != id) <==> reply == Fail(404, "Bài viết không tồn tại")
      ensures reply.Fail? ==> (likes == old(likes) && shares == old(shares) && saved == old(saved) &&
        comments == old(comments) && posts == old(posts))
      ensures reply.Done? ==> (reply.message == "Xóa bài viết thành công" &&
        likes == Seqs.Filter(old(likes), NotLikeOn("post", id)) &&
        shares == Seqs.Filter(old(shares), ShareNotOf(id)) &&
        saved == Seqs.Filter(old(saved), SavedNotOf(id)) &&
        comments == Seqs.Filter(old(comments), CommentNotOn(id)) &&
        posts == Seqs.Filter(old(posts), PostNot(id)))
      ensures users == old(users)
    {
      if FindPost(posts, id).None? {
        return Fail(404, "Bài viết không tồn tại");
      }
      likes := Seqs.Filter(likes, NotLikeOn("post", id));
      shares := Seqs.Filter(shares, ShareNotOf(id));
      saved := Seqs.Filter(saved, SavedNotOf(id));
      comments := Seqs.Filter(comments, CommentNotOn(id));
      posts := Seqs.Filter(posts, PostNot(id));
      reply := Done("Xóa bài viết thành công");
    }

    /** `deleteCommentByAdmin`: 404 for a missing comment; otherwise its likes, its direct
        replies, then the comment. */
    method DeleteCommentByAdmin(id: int) returns (reply: Reply)
      modifies this
      ensures (forall k :: 0 <= k < |old(comments)| ==> old(comments)[k].id != id) <==> reply == Fail(404, "Bình luận không tồn tại")
      ensures reply.Fail? ==> likes == old(likes) && comments == old(comments)
      ensures reply.Done? ==> (reply.message == "Xóa bình luận thành công" &&
        likes == Seqs.Filter(old(likes), NotLikeOn("comment", id)) &&
        comments == AdminDeleteComment(old(comments), id))
      ensures users == old(users) && posts == old(posts) && shares == old(shares) && saved == old(saved)
    {
      var found := Seqs.Filter(comments, CommentIs(id));
      if |found| == 0 {
        assert forall k :: 0 <= k < |comments| ==> !CommentIs(id)(comments[k]);
        return Fail(404, "Bình luận không tồn tại");
      }
      assert found[0] in comments && CommentIs(id)(found[0]);
      likes := Seqs.Filter(likes, NotLikeOn("comment", id));
      comments := Seqs.Filter(comments, NotReplyTo(id));
      comments := Seqs.Filter(comments, CommentNot(id));
      reply := Done("Xóa bình luận thành công");
    }
  }

  function CommentIs(id: int): Comment -> bool { (c: Comment) => c.id == id }

  /** The two comment deletes of `deleteCommentByAdmin`, replies first. */
  function AdminDeleteComment(comments: seq<Comment>, id: int): seq<Comment> {
    Seqs.Filter(Seqs.Filter(comments, NotReplyTo(id)), CommentNot(id))
  }

  /** The admin deletion of a post leaves nothing that points at it and keeps every row
      that does not. */
  lemma AdminDeletePostSpec(likes: seq<Like>, comments: seq<Comment>, posts: seq<Post>, id: int)
    ensures forall l :: l in Seqs.Filter(likes, NotLikeOn("post", id)) <==> l in likes && !(l.entityType == "post" && l.entityId == id)
    ensures forall c :: c in Seqs.Filter(comments, CommentNotOn(id)) <==> c in comments && c.postId != id
    ensures forall p :: p in Seqs.Filter(posts, PostNot(id)) <==> p in posts && p.id != id
  {
    forall l | l in likes && !(l.entityType == "post" && l.entityId == id) ensures l in Seqs.Filter(likes, NotLikeOn("post", id)) {
      var k :| 0 <= k < |likes| && likes[k] == l;
      assert NotLikeOn("post", id)(likes[k]);
    }
    forall c | c in comments && c.postId != id ensures c in Seqs.Filter(comments, CommentNotOn(id)) {
      var k :| 0 <= k < |comments| && comments[k] == c;
      assert CommentNotOn(id)(comments[k]);
    }
    forall p | p in posts && p.id != id ensures p in Seqs.Filter(posts, PostNot(id)) {
      var k :| 0 <= k < |posts| && posts[k] == p;
      assert PostNot(id)(posts[k]);
    }
  }

  /** A comment survives the admin deletion iff it is neither the comment nor a direct
      reply to it. */
  lemma AdminDeleteCommentSpec(comments: seq<Comment>, id: int)
    ensures forall c :: c in AdminDeleteComment(comments, id) <==> c in comments && c.id != id && c.parent != Some(id)
  {
    var replies := Seqs.Filter(comments, NotReplyTo(id));
    forall c | c in comments && c.id != id && c.parent != Some(id) ensures c in AdminDeleteComment(comments, id) {
      var k :| 0 <= k < |comments| && comments[k] == c;
      assert NotReplyTo(id)(comments[k]);
      var j :| 0 <= j < |replies| && replies[j] == c;
      assert CommentNot(id)(replies[j]);
    }
  }

  /** Only one level of replies goes: a reply to a reply stays, pointing at a comment
      that no longer exists. */
  lemma AdminDeleteKeepsGrandchild()
    ensures var cs := [Comment(1, 7, 1, "a", None, 0), Comment(2, 7, 2, "b", Some(1), 1), Comment(3, 7, 3, "c", Some(2), 2)];
      AdminDeleteComment(cs, 1) == [Comment(3, 7, 3, "c", Some(2), 2)]
  {
    var c0, c1, c2 := Comment(1, 7, 1, "a", None, 0), Comment(2, 7, 2, "b", Some(1), 1), Comment(3, 7, 3, "c", Some(2), 2);
    var cs := [c0, c1, c2];
    assert [c2][1..] == [];
    assert Seqs.Filter([c2], NotReplyTo(1)) == [c2];
    assert Seqs.Filter([c2], CommentNot(1)) == [c2];
    assert Seqs.Filter([c1, c2], NotReplyTo(1)) == [c2] by { assert [c1, c2][1..] == [c2]; }
    assert Seqs.Filter(cs, NotReplyTo(1)) == [c0, c2] by { assert cs[1..] == [c1, c2]; }
    assert Seqs.Filter([c0, c2], CommentNot(1)) == [c2] by { assert [c0, c2][1..] == [c2]; }
  }
}
