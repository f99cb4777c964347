/** The saved-post service: toggling a saved post, the saved test, and the saved-posts
    page with its `image_urls` list. */
module SavedPostService {
  import opened Wrappers
  import Seqs
  import Text

  /** A row of `saved_posts`. */
  datatype Saved = Saved(userId: int, postId: int, savedAt: int)

  predicate Matches(s: Saved, userId: int, postId: int) { s.userId == userId && s.postId == postId }

  function Unmatched(userId: int, postId: int): Saved -> bool {
    (s: Saved) => !Matches(s, userId, postId)
  }

  function MatchesFn(userId: int, postId: int): Saved -> bool {
    (s: Saved) => Matches(s, userId, postId)
  }

  predicate IsSaved(rows: seq<Saved>, userId: int, postId: int) {
    exists i :: 0 <= i < |rows| && Matches(rows[i], userId, postId)
  }

  datatype Toggled = Toggled(action: string, message: string)

  /** `toggleSavePost`: a saved post is unsaved (every matching row deleted), otherwise
      one row is inserted, stamped with the current time. */
  function Toggle(rows: seq<Saved>, userId: int, postId: int, now: int): (r: (seq<Saved>, Toggled))
    ensures IsSaved(rows, userId, postId) ==> (r.1 == Toggled("unsaved", "Đã bỏ lưu bài viết") &&
      r.0 == Seqs.Filter(rows, Unmatched(userId, postId)) && !IsSaved(r.0, userId, postId))
    ensures !IsSaved(rows, userId, postId) ==> (r.1 == Toggled("saved", "Đã lưu bài viết") &&
      r.0 == rows + [Saved(userId, postId, now)] && IsSaved(r.0, userId, postId))
  {
    if IsSaved(rows, userId, postId) then
      var kept := Seqs.Filter(rows, Unmatched(userId, postId));
      assert forall i :: 0 <= i < |kept| ==> !Matches(kept[i], userId, postId);
      (kept, Toggled("unsaved", "Đã bỏ lưu bài viết"))
    else
      var added := rows + [Saved(userId, postId, now)];
      assert Matches(added[|rows|], userId, postId);
      (added, Toggled("saved", "Đã lưu bài viết"))
  }

  /** Two toggles restore whether the post is saved, and from the unsaved state the table
      itself; other pairs are never touched. */
  lemma ToggleTwice(rows: seq<Saved>, userId: int, postId: int, now: int, later: int)
    ensures IsSaved(Toggle(Toggle(rows, userId, postId, now).0, userId, postId, later).0, userId, postId) == IsSaved(rows, userId, postId)
    ensures !IsSaved(rows, userId, postId) ==> Toggle(Toggle(rows, userId, postId, now).0, userId, postId, later).0 == rows
  {
    if !IsSaved(rows, userId, postId) {
      Seqs.FilterAppend(rows, [Saved(userId, postId, now)], Unmatched(userId, postId));
      Seqs.FilterAll(rows, Unmatched(userId, postId));
      Seqs.FilterNone([Saved(userId, postId, now)], Unmatched(userId, postId));
    }
  }

  lemma ToggleIsolated(rows: seq<Saved>, userId: int, postId: int, now: int, otherUser: int, otherPost: int)
    requires (otherUser, otherPost) != (userId, postId)
    ensures IsSaved(Toggle(rows, userId, postId, now).0, otherUser, otherPost) == IsSaved(rows, otherUser, otherPost)
  {
    var after := Toggle(rows, userId, postId, now).0;
    if IsSaved(rows, userId, postId) {
      if IsSaved(rows, otherUser, otherPost) {
        var i :| 0 <= i < |rows| && Matches(rows[i], otherUser, otherPost);
        assert Unmatched(userId, postId)(rows[i]);
        var j :| 0 <= j < |after| && after[j] == rows[i];
      }
    } else {
      if IsSaved(after, otherUser, otherPost) {
        var i :| 0 <= i < |after| && Matches(after[i], otherUser, otherPost);
        assert i < |rows| && after[i] == rows[i];
      }
      if IsSaved(rows, otherUser, otherPost) {
        var i :| 0 <= i < |rows| && Matches(rows[i], otherUser, otherPost);
        assert after[i] == rows[i];
      }
    }
  }

  /** `row.media ? row.media.split(';') : []`. */
  function ImageUrls(media: Option<string>): (urls: seq<string>)
    ensures media.None? || media.value == "" ==> urls == []
    ensures media.Some? && media.value != "" ==> |urls| >= 1
  {
    if media.None? || media.value == "" then [] else Text.Split(media.value, ';')
  }

  /** A non-empty media column is exactly its URLs joined by `;`, and no URL holds a `;`. */
  lemma ImageUrlsRoundTrip(media: string)
    requires media != ""
    ensures Text.Join(ImageUrls(Some(media)), ";") == media
    ensures forall k :: 0 <= k < |ImageUrls(Some(media))| ==> ';' !in ImageUrls(Some(media))[k]
  {
    Text.SplitJoin(media, ';');
  }

  /** The part of a `posts` row the page shows. */
  datatype Post = Post(id: int, content: string, media: Option<string>, createdAt: int, userId: int)

  /** The columns of `users` the page joins. */
  datatype Author = Author(fullName: Option<string>, username: string, avatar: Option<string>)

  /** The `post_id` column of every row of `likes`, `comments` and `shares`. */
  datatype Engagement = Engagement(likes: seq<int>, comments: seq<int>, shares: seq<int>)

  /** The `user` object of an item. */
  datatype ItemUser = ItemUser(id: int, fullName: Option<string>, username: string, profilePicture: Option<string>)

  /** An item of the page. */
  datatype Item = Item(id: int, content: string, imageUrls: seq<string>, createdAt: int, savedAt: int,
                       likesCount: nat, commentsCount: nat, shareCount: nat, user: ItemUser)

  function IsId(postId: int): int -> bool {
    (id: int) => id == postId
  }

  /** `(SELECT COUNT(*) FROM t WHERE post_id = p.id)`. */
  function CountFor(ids: seq<int>, postId: int): (n: nat)
    ensures n <= |ids|
    ensures n == 0 <==> forall k :: 0 <= k < |ids| ==> ids[k] != postId
  {
    Seqs.CountZero(ids, IsId(postId));
    Seqs.Count(ids, IsId(postId))
  }

  function NewestSaved(): (Saved, Saved) -> bool {
    (a: Saved, b: Saved) => a.savedAt >= b.savedAt
  }

  lemma NewestSavedTotal()
    ensures Seqs.TotalPreorder(NewestSaved())
  {}

  /** The user's saved rows whose post (and its author) exist, newest first. */
  function SavedOf(rows: seq<Saved>, userId: int, posts: map<int, Post>, users: map<int, Author>): (r: seq<Saved>)
    ensures multiset(r) == multiset(Seqs.Filter(rows, Joined(userId, posts, users)))
    ensures forall k :: 0 <= k < |r| ==> r[k].userId == userId && r[k].postId in posts && posts[r[k].postId].userId in users
  {
    var f := Seqs.Filter(rows, Joined(userId, posts, users));
    var r := Seqs.Sort(f, NewestSaved());
    Seqs.SortPermutation(f, NewestSaved());
    assert forall k :: 0 <= k < |r| ==> r[k] in f by {
      forall k | 0 <= k < |r| ensures r[k] in f { assert r[k] in multiset(r); }
    }
    r
  }

  function Joined(userId: int, posts: map<int, Post>, users: map<int, Author>): Saved -> bool {
    (s: Saved) => s.userId == userId && s.postId in posts && posts[s.postId].userId in users
  }

  /** One row of the result as the service maps it. */
  function ToItem(s: Saved, p: Post, users: map<int, Author>, eng: Engagement): (item: Item)
    requires p.userId in users
    ensures item.id == p.id && item.content == p.content && item.createdAt == p.createdAt && item.savedAt == s.savedAt
    ensures item.imageUrls == ImageUrls(p.media)
    ensures item.likesCount == CountFor(eng.likes, p.id) && item.commentsCount == CountFor(eng.comments, p.id) &&
      item.shareCount == CountFor(eng.shares, p.id)
    ensures item.user == ItemUser(p.userId, users[p.userId].fullName, users[p.userId].username, users[p.userId].avatar)
  {
    var a := users[p.userId];
    Item(p.id, p.content, ImageUrls(p.media), p.createdAt, s.savedAt,
         CountFor(eng.likes, p.id), CountFor(eng.comments, p.id), CountFor(eng.shares, p.id),
         ItemUser(p.userId, a.fullName, a.username, a.avatar))
  }

  datatype PageError = NegativeOffset | NonPositiveFetch

  /** `items` are the rows of `all` from `offset` on, at most `limit` of them, each with its
      post. */
  predicate IsWindow(items: seq<Item>, all: seq<Saved>, posts: map<int, Post>, users: map<int, Author>, eng: Engagement,
                     offset: int, limit: int) {
    |items| == (if offset >= |all| then 0 else if |all| - offset < limit then |all| - offset else limit) &&
    (forall k :: 0 <= k < |items| ==>
       0 <= offset + k < |all| && all[offset + k].postId in posts && posts[all[offset + k].postId].userId in users &&
       items[k] == ToItem(all[offset + k], posts[all[offset + k].postId], users, eng))
  }

  /** `getSavedPosts(userId, page = 1, limit = 10)`: `OFFSET (page - 1) * limit ROWS FETCH
      NEXT limit ROWS ONLY`, which the database refuses for a negative offset or a
      non-positive count. */
  function SavedPostsPage(rows: seq<Saved>, userId: int, posts: map<int, Post>, users: map<int, Author>, eng: Engagement,
                          page: Option<int>, limit: Option<int>)
    : (r: Result<seq<Item>, PageError>)
    ensures var (p, l) := (page.GetOr(1), limit.GetOr(10));
      ((p - 1) * l < 0 <==> r == Err(NegativeOffset)) &&
      ((p - 1) * l >= 0 && l <= 0 <==> r == Err(NonPositiveFetch)) &&
      (r.Ok? ==> IsWindow(r.value, SavedOf(rows, userId, posts, users), posts, users, eng, (p - 1) * l, l))
  {
    var (p, l) := (page.GetOr(1), limit.GetOr(10));
    var offset := (p - 1) * l;
    if offset < 0 then Err(NegativeOffset)
    else if l <= 0 then Err(NonPositiveFetch)
    else
      var all := SavedOf(rows, userId, posts, users);
      var n := if offset >= |all| then 0 else if |all| - offset < l then |all| - offset else l;
      var items := PageItems(all, posts, users, eng, offset, n);
      assert IsWindow(items, all, posts, users, eng, offset, l);
      Ok(items)
  }

  /** The `n` rows from `offset` on, each with its post, its author and its counts. */
  function PageItems(all: seq<Saved>, posts: map<int, Post>, users: map<int, Author>, eng: Engagement, offset: nat, n: nat)
    : (items: seq<Item>)
    requires n > 0 ==> offset + n <= |all|
    requires forall k :: 0 <= k < |all| ==> all[k].postId in posts && posts[all[k].postId].userId in users
    ensures |items| == n
    ensures forall k :: 0 <= k < n ==> items[k] == ToItem(all[offset + k], posts[all[offset + k].postId], users, eng)
  {
    seq(n, k requires 0 <= k < n => ToItem(all[offset + k], posts[all[offset + k].postId], users, eng))
  }

  /** The pages are newest first: every item of a page was saved no earlier than any item
      after it. */
  lemma PageNewestFirst(rows: seq<Saved>, userId: int, posts: map<int, Post>, users: map<int, Author>, eng: Engagement,
                        page: Option<int>, limit: Option<int>)
    requires SavedPostsPage(rows, userId, posts, users, eng, page, limit).Ok?
    ensures var items := SavedPostsPage(rows, userId, posts, users, eng, page, limit).value;
      forall i, j :: 0 <= i < j < |items| ==> items[i].savedAt >= items[j].savedAt
  {
    var all := SavedOf(rows, userId, posts, users);
    NewestSavedTotal();
    Seqs.SortSorted(Seqs.Filter(rows, Joined(userId, posts, users)), NewestSaved());
    var items := SavedPostsPage(rows, userId, posts, users, eng, page, limit).value;
    var offset := (page.GetOr(1) - 1) * limit.GetOr(10);
    forall i, j | 0 <= i < j < |items| ensures items[i].savedAt >= items[j].savedAt {
      assert NewestSaved()(all[offset + i], all[offset + j]);
    }
  }

  /** The `saved_posts` table. */
  class SavedPostStore {
    var saved: seq<Saved>

    constructor ()
      ensures saved == []
    {
      saved := [];
    }

    /** `toggleSavePost`. */
    method ToggleSavePost(userId: int, postId: int, now: int) returns (r: Toggled)
      modifies this
      ensures (saved, r) == Toggle(old(saved), userId, postId, now)
    {
      var found := CheckUserSavedPost(userId, postId);
      if found {
        saved := Seqs.Filter(saved, Unmatched(userId, postId));
        r := Toggled("unsaved", "Đã bỏ lưu bài viết");
      } else {
        saved := saved + [Saved(userId, postId, now)];
        r := Toggled("saved", "Đã lưu bài viết");
      }
    }

    /** `checkUserSavedPost`: true iff a row for the user and the post exists. */
    method CheckUserSavedPost(userId: int, postId: int) returns (found: bool)
      ensures found <==> exists i :: 0 <= i < |saved| && saved[i].userId == userId && saved[i].postId == postId
    {
      var rows := Seqs.Filter(saved, MatchesFn(userId, postId));
      found := |rows| > 0;
      if found {
        assert rows[0] in saved && Matches(rows[0], userId, postId);
      }
      if IsSaved(saved, userId, postId) {
        var i :| 0 <= i < |saved| && Matches(saved[i], userId, postId);
        assert MatchesFn(userId, postId)(saved[i]);
      }
    }
  }
}
