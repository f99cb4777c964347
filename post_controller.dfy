/** The post controller: the status sanitising of `createPost` and `updatePost`, the
    ownership check of `updatePost`, and the error replies of `getPost` and `deletePost`. */
module PostController {
  import opened Wrappers
  import Seqs
  import Text

  /** A row of `posts`. The code uses both columns: `status` is the one `createPost`
      writes and `getPostById` selects; `visibility` is the one `updatePost` writes and
      the feed and profile queries select as `status` and filter on (`None` is the
      column's default). */
  datatype Post = Post(id: int, userId: int, content: Option<string>, media: Option<string>,
    status: string, visibility: Option<string>, updatedAt: Option<int>)

  const AllowedStatuses: seq<string> := ["public", "friends", "private"]

  /** `(status || 'public')`: a missing or empty status is `public`. */
  function OrPublic(raw: Option<string>): string {
    if raw.Some? && raw.value != "" then raw.value else "public"
  }

  /** `createPost`: the trimmed status when it is one of the three, otherwise `public`. */
  function CreateStatus(raw: Option<string>): (s: string)
    ensures s in AllowedStatuses
    ensures Text.Trim(OrPublic(raw)) in AllowedStatuses ==> s == Text.Trim(OrPublic(raw))
    ensures Text.Trim(OrPublic(raw)) !in AllowedStatuses ==> s == "public"
  {
    var t := Text.Trim(OrPublic(raw));
    if t in AllowedStatuses then t else "public"
  }

  /** `updatePost`: the trimmed, lower-cased status when it is one of the three, otherwise
      `public`. */
  function UpdateStatus(raw: Option<string>): (s: string)
    ensures s in AllowedStatuses
    ensures Text.ToLower(Text.Trim(OrPublic(raw))) in AllowedStatuses ==> s == Text.ToLower(Text.Trim(OrPublic(raw)))
    ensures Text.ToLower(Text.Trim(OrPublic(raw))) !in AllowedStatuses ==> s == "public"
  {
    var t := Text.ToLower(Text.Trim(OrPublic(raw)));
    if t in AllowedStatuses then t else "public"
  }

  /** The three statuses are lower case and have no white space at either end. */
  lemma AllowedAreClean(s: string)
    requires s in AllowedStatuses
    ensures Text.ToLower(s) == s && Text.Trim(s) == s
  {
    Text.TrimNoop(s);
  }

  /** A sanitised status comes back unchanged from either sanitiser. */
  lemma SanitiseIdempotent(raw: Option<string>)
    ensures CreateStatus(Some(CreateStatus(raw))) == CreateStatus(raw)
    ensures UpdateStatus(Some(UpdateStatus(raw))) == UpdateStatus(raw)
  {
    AllowedAreClean(CreateStatus(raw));
    AllowedAreClean(UpdateStatus(raw));
  }

  /** Whatever `createPost` accepts as given, `updatePost` accepts the same way; a status
      that differs only in case is kept by `updatePost` and replaced by `public` in
      `createPost`. */
  lemma UpdateExtendsCreate(raw: Option<string>)
    ensures CreateStatus(raw) != "public" ==> UpdateStatus(raw) == CreateStatus(raw)
  {
    var t := Text.Trim(OrPublic(raw));
    if t in AllowedStatuses {
      AllowedAreClean(t);
    }
  }

  lemma CaseDiffers()
    ensures CreateStatus(Some(" Friends")) == "public" && UpdateStatus(Some(" Friends")) == "friends"
  {
    assert Text.TrimStart(" Friends") == "Friends";
    assert Text.Trim(" Friends") == "Friends";
    assert Text.ToLower("Friends") == "friends";
  }

  /** The reply of a handler. */
  datatype Reply = Reply(status: int, message: string)

  /** `getPost`: a thrown error whose message is exactly the missing-post message is 404,
      any other 500. */
  function GetPostError(message: string): (r: Reply)
    ensures r.status == 404 <==> message == "Bài viết không tồn tại"
    ensures r.status == 404 || r == Reply(500, "Server error")
    ensures r.status == 404 ==> r.message == message
  {
    if message == "Bài viết không tồn tại" then Reply(404, message) else Reply(500, "Server error")
  }

  /** `deletePost`: a thrown error whose message contains `không có quyền` is 403 with that
      message, any other 500. */
  function DeletePostError(message: string): (r: Reply)
    ensures r.status == 403 <==> Text.Contains(message, "không có quyền")
    ensures r.status == 403 ==> r.message == message
    ensures r.status != 403 ==> r == Reply(500, "Server error")
  {
    if Text.Contains(message, "không có quyền") then Reply(403, message) else Reply(500, "Server error")
  }

  /** The reply of `createPost` and `updatePost`. */
  datatype Outcome = Refused(reply: Reply) | Written(post: Post)


  predicate Owns(posts: seq<Post>, userId: int, postId: int) {
    exists k :: 0 <= k < |posts| && posts[k].id == postId && posts[k].userId == userId
  }

  /** One row after the `UPDATE` of `updatePost` as written: content, media, the
      sanitised status in `visibility`, and the update time. */
  function Edited(p: Post, content: Option<string>, media: Option<string>, status: string, now: int): Post {
    p.(content := content, media := media, visibility := Some(status), updatedAt := Some(now))
  }

  /** The `UPDATE ... WHERE id = @postId` of `updatePost` as written. */
  function Apply(posts: seq<Post>, postId: int, content: Option<string>, media: Option<string>, status: string, now: int)
    : (r: seq<Post>)
    ensures |r| == |posts|
    ensures forall k :: 0 <= k < |r| ==> (if posts[k].id == postId
      then r[k] == Post(postId, posts[k].userId, content, media, posts[k].status, Some(status), Some(now))
      else r[k] == posts[k])
  {
    seq(|posts|, k requires 0 <= k < |posts| =>
      if posts[k].id == postId then Edited(posts[k], content, media, status, now) else posts[k])
  }

  /** As written, an edit never changes the `status` column that `createPost` writes and
      the reads select: every row keeps its status, whatever status was asked for. */
  lemma UpdateKeepsStatus(posts: seq<Post>, postId: int, content: Option<string>, media: Option<string>, raw: Option<string>, now: int)
    ensures var r := Apply(posts, postId, content, media, UpdateStatus(raw), now);
      forall k :: 0 <= k < |posts| ==> r[k].status == posts[k].status
  {
  }

  /** A public post edited to `private` is still `public` in the column the reads use. */
  lemma EditToPrivateStaysPublic(p: Post, content: Option<string>, media: Option<string>, now: int)
    requires p.status == "public"
    ensures var r := Apply([p], p.id, content, media, UpdateStatus(Some("private")), now);
      r[0].status == "public" && r[0].visibility == Some("private")
  {
    assert Text.Trim("private") == "private" && Text.ToLower("private") == "private" by {
      AllowedAreClean("private");
    }
  }

  /** The `UPDATE` as evidently intended: the sanitised status is written to `status`. */
  function ApplyIntended(posts: seq<Post>, postId: int, content: Option<string>, media: Option<string>, status: string, now: int)
    : (r: seq<Post>)
    ensures |r| == |posts|
    ensures forall k :: 0 <= k < |r| ==> (if posts[k].id == postId
      then r[k] == Post(postId, posts[k].userId, content, media, status, posts[k].visibility, Some(now))
      else r[k] == posts[k])
  {
    seq(|posts|, k requires 0 <= k < |posts| =>
      if posts[k].id == postId then posts[k].(content := content, media := media, status := status, updatedAt := Some(now))
      else posts[k])
  }

  /** With the intended update, the edited post carries the asked-for status (sanitised) in
      the column the reads select, and a later `createPost`-style sanitising keeps it. */
  lemma IntendedUpdateSetsStatus(posts: seq<Post>, postId: int, content: Option<string>, media: Option<string>, raw: Option<string>, now: int)
    ensures var r := ApplyIntended(posts, postId, content, media, UpdateStatus(raw), now);
      forall k :: 0 <= k < |posts| && posts[k].id == postId ==>
        r[k].status == UpdateStatus(raw) && r[k].status in AllowedStatuses && CreateStatus(Some(r[k].status)) == r[k].status
  {
    var r := ApplyIntended(posts, postId, content, media, UpdateStatus(raw), now);
    forall k | 0 <= k < |posts| && posts[k].id == postId
      ensures CreateStatus(Some(r[k].status)) == r[k].status
    {
      AllowedAreClean(r[k].status);
    }
  }

  /** The `posts` table, with `nextId` standing for the identity column. */
  class PostStore {
    var posts: seq<Post>
    var nextId: int

    constructor ()
      ensures posts == [] && nextId == 1
    {
      posts, nextId := [], 1;
    }

    /** `createPost`: 401 without a user id; otherwise the post is inserted with its media
        (`null` when empty) and the sanitised status. */
    method CreatePost(userId: int, content: Option<string>, media: Option<string>, status: Option<string>)
      returns (outcome: Outcome)
      modifies this
      ensures userId == 0 ==> (outcome == Refused(Reply(401, "Không xác định được người dùng.")) &&
        posts == old(posts) && nextId == old(nextId))
      ensures userId != 0 ==> var p := Post(old(nextId), userId, content,
          if media.Some? && media.value != "" then media else None, CreateStatus(status), None, None);
        outcome == Written(p) && posts == old(posts) + [p] && nextId == old(nextId) + 1
    {
      if userId == 0 {
        return Refused(Reply(401, "Không xác định được người dùng."));
      }
      var p := Post(nextId, userId, content, if media.Some? && media.value != "" then media else None, CreateStatus(status), None, None);
      posts := posts + [p];
      nextId := nextId + 1;
      outcome := Written(p);
    }

    /** `updatePost`: 403 unless the requester owns the post; otherwise content, media
        and the sanitised status (into `visibility`) are written and the updated row is
        returned, with its `status` as it was. */
    method UpdatePost(postId: int, userId: int, content: Option<string>, media: Option<string>, status: Option<string>, now: int)
      returns (outcome: Outcome)
      modifies this
      ensures !Owns(old(posts), userId, postId) <==> outcome == Refused(Reply(403, "Bạn không có quyền chỉnh sửa bài viết này"))
      ensures outcome.Refused? ==> posts == old(posts)
      ensures outcome.Written? ==> (posts == Apply(old(posts), postId, content, media, UpdateStatus(status), now) &&
        exists k :: 0 <= k < |old(posts)| && old(posts)[k].id == postId && old(posts)[k].userId == userId &&
          outcome.post == Post(postId, userId, content, media, old(posts)[k].status, Some(UpdateStatus(status)), Some(now)))
      ensures nextId == old(nextId)
    {
      var safe := UpdateStatus(status);
      var mine := Seqs.Filter(posts, OwnedBy(postId, userId));
      if |mine| == 0 {
        assert forall k :: 0 <= k < |posts| ==> !OwnedBy(postId, userId)(posts[k]);
        return Refused(Reply(403, "Bạn không có quyền chỉnh sửa bài viết này"));
      }
      assert mine[0] in posts && OwnedBy(postId, userId)(mine[0]);
      var row := mine[0];
      posts := Apply(posts, postId, content, media, safe, now);
      outcome := Written(Edited(row, content, media, safe, now));
    }
  }

  function OwnedBy(postId: int, userId: int): Post -> bool {
    (p: Post) => p.id == postId && p.userId == userId
  }
}
