/** The like service: toggling a like on a post or on a comment, and the liked test. */
module LikeService {
  import opened Wrappers
  import Seqs

  /** A row of `likes`: the service writes either a post id or a comment id. */
  datatype Like = Like(userId: int, postId: Option<int>, commentId: Option<int>)

  /** What a like is about. */
  datatype Target = Post(postId: int) | Comment(commentId: int)

  /** The `WHERE user_id = @userId AND post_id = @postId` (or `comment_id`) condition. */
  predicate Matches(l: Like, userId: int, t: Target) {
    l.userId == userId &&
    match t
    case Post(p) => l.postId == Some(p)
    case Comment(c) => l.commentId == Some(c)
  }

  function MatchesFn(userId: int, t: Target): Like -> bool {
    (l: Like) => Matches(l, userId, t)
  }

  function Unmatched(userId: int, t: Target): Like -> bool {
    (l: Like) => !Matches(l, userId, t)
  }

  /** Some row records that `userId` likes `t`. */
  predicate Liked(rows: seq<Like>, userId: int, t: Target) {
    exists i :: 0 <= i < |rows| && Matches(rows[i], userId, t)
  }

  /** The row an insert creates. */
  function NewLike(userId: int, t: Target): Like {
    match t
    case Post(p) => Like(userId, Some(p), None)
    case Comment(c) => Like(userId, None, Some(c))
  }

  /** Every row names exactly one of a post and a comment, as the inserts make them. */
  ghost predicate OneTarget(rows: seq<Like>) {
    forall l :: l in rows ==> l.postId.Some? != l.commentId.Some?
  }

  datatype Toggled = Toggled(action: string, message: string)

  function UnlikedMessage(t: Target): string {
    if t.Post? then "Đã bỏ thích" else "Đã bỏ thích comment"
  }

  function LikedMessage(t: Target): string {
    if t.Post? then "Đã thích" else "Đã thích comment"
  }

  /** `togglePostLike` / `toggleCommentLike`: an existing like is deleted (every matching
      row) and reported as `unliked`; otherwise one row is inserted and reported as
      `liked`. */
  function Toggle(rows: seq<Like>, userId: int, t: Target): (r: (seq<Like>, Toggled))
    ensures Liked(rows, userId, t) ==> (r.1 == Toggled("unliked", UnlikedMessage(t)) &&
      r.0 == Seqs.Filter(rows, Unmatched(userId, t)) && !Liked(r.0, userId, t))
    ensures !Liked(rows, userId, t) ==> (r.1 == Toggled("liked", LikedMessage(t)) &&
      r.0 == rows + [NewLike(userId, t)] && Liked(r.0, userId, t))
  {
    if Liked(rows, userId, t) then
      var kept := Seqs.Filter(rows, Unmatched(userId, t));
      assert forall i :: 0 <= i < |kept| ==> !Matches(kept[i], userId, t);
      (kept, Toggled("unliked", UnlikedMessage(t)))
    else
      var added := rows + [NewLike(userId, t)];
      assert Matches(added[|rows|], userId, t);
      (added, Toggled("liked", LikedMessage(t)))
  }

  /** Two toggles restore whether the like exists; from the unliked state they restore the
      table exactly. */
  lemma ToggleTwice(rows: seq<Like>, userId: int, t: Target)
    ensures Liked(Toggle(Toggle(rows, userId, t).0, userId, t).0, userId, t) == Liked(rows, userId, t)
    ensures !Liked(rows, userId, t) ==> Toggle(Toggle(rows, userId, t).0, userId, t).0 == rows
    ensures Toggle(rows, userId, t).1.action != Toggle(Toggle(rows, userId, t).0, userId, t).1.action
  {
    if !Liked(rows, userId, t) {
      Seqs.FilterAppend(rows, [NewLike(userId, t)], Unmatched(userId, t));
      Seqs.FilterAll(rows, Unmatched(userId, t));
      Seqs.FilterNone([NewLike(userId, t)], Unmatched(userId, t));
    }
  }

  /** A toggle changes no other user's likes and no other target's likes. */
  lemma ToggleIsolated(rows: seq<Like>, userId: int, t: Target, otherUser: int, other: Target)
    requires OneTarget(rows) && (otherUser, other) != (userId, t)
    ensures OneTarget(Toggle(rows, userId, t).0)
    ensures Liked(Toggle(rows, userId, t).0, otherUser, other) == Liked(rows, otherUser, other)
  {
    var after := Toggle(rows, userId, t).0;
    if Liked(rows, userId, t) {
      forall i | 0 <= i < |rows| && Matches(rows[i], otherUser, other) ensures rows[i] in after {
        assert Unmatched(userId, t)(rows[i]);
      }
      if Liked(rows, otherUser, other) {
        var i :| 0 <= i < |rows| && Matches(rows[i], otherUser, other);
        var j :| 0 <= j < |after| && after[j] == rows[i];
      }
    } else {
      assert !Matches(NewLike(userId, t), otherUser, other) by {
        match t
        case Post(p) => {}
        case Comment(c) => {}
      }
      if Liked(after, otherUser, other) {
        var i :| 0 <= i < |after| && Matches(after[i], otherUser, other);
        assert i < |rows| && after[i] == rows[i];
      }
      if Liked(rows, otherUser, other) {
        var i :| 0 <= i < |rows| && Matches(rows[i], otherUser, other);
        assert after[i] == rows[i];
      }
    }
  }

  /** The `likes` table. */
  class LikeStore {
    var likes: seq<Like>

    constructor ()
      ensures likes == []
    {
      likes := [];
    }

    /** The `SELECT id ... WHERE` lookup both toggles start with. */
    method Find(userId: int, t: Target) returns (found: seq<Like>)
      ensures (|found| > 0) == Liked(likes, userId, t)
    {
      found := Seqs.Filter(likes, MatchesFn(userId, t));
      if |found| > 0 {
        assert found[0] in likes && Matches(found[0], userId, t);
      }
      if Liked(likes, userId, t) {
        var i :| 0 <= i < |likes| && Matches(likes[i], userId, t);
        assert MatchesFn(userId, t)(likes[i]);
      }
    }

    method ToggleLike(userId: int, t: Target) returns (r: Toggled)
      modifies this
      ensures (likes, r) == Toggle(old(likes), userId, t)
    {
      var found := Find(userId, t);
      if |found| > 0 {
        likes := Seqs.Filter(likes, Unmatched(userId, t));
        r := Toggled("unliked", UnlikedMessage(t));
      } else {
        likes := likes + [NewLike(userId, t)];
        r := Toggled("liked", LikedMessage(t));
      }
    }

    /** `togglePostLike`. */
    method TogglePostLike(userId: int, postId: int) returns (r: Toggled)
      modifies this
      ensures (likes, r) == Toggle(old(likes), userId, Post(postId))
    {
      r := ToggleLike(userId, Post(postId));
    }

    /** `toggleCommentLike`. */
    method ToggleCommentLike(userId: int, commentId: int) returns (r: Toggled)
      modifies this
      ensures (likes, r) == Toggle(old(likes), userId, Comment(commentId))
    {
      r := ToggleLike(userId, Comment(commentId));
    }

    /** `checkUserLikedPost`: true iff a row for the user and the post exists. */
    method CheckUserLikedPost(userId: int, postId: int) returns (liked: bool)
      ensures liked <==> exists i :: 0 <= i < |likes| && likes[i].userId == userId && likes[i].postId == Some(postId)
    {
      var found := Find(userId, Post(postId));
      liked := |found| > 0;
    }
  }
}
