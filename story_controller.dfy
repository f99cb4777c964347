/** The story controller: the stories a user may see, grouped by author; recording a view;
    creating a story with its privacy list; and deleting one's own story. */
module StoryController {
  import opened Wrappers
  import Seqs

  /** A row of `stories`; times are milliseconds. */
  datatype Story = Story(id: int, userId: int, mediaType: string, mediaUrl: Option<string>,
    musicUrl: Option<string>, caption: string, background: Option<string>, textColor: string,
    fontSize: int, textPosition: Option<string>, showFrame: bool, sticker: Option<string>,
    stickerPosition: Option<string>, privacy: string, createdAt: int, expiresAt: int)

  /** The author columns joined from `users`. */
  datatype User = User(id: int, fullName: string, username: string, avatar: Option<string>)

  /** A row of `friendships` as the visibility test reads it. */
  datatype Friendship = Friendship(requesterId: int, receiverId: int, status: string)

  /** A row of `story_viewers`, the allowed list of a custom story. */
  datatype Viewer = Viewer(storyId: int, viewerId: int)

  /** A row of `story_views`. */
  datatype View = View(storyId: int, viewerId: int, viewedAt: int)

  const HourMs: int := 3600000

  // ---------------------------------------------------------------- getStories

  /** An accepted friendship between `a` and `b`, whichever of them sent it. */
  predicate Friends(fs: seq<Friendship>, a: int, b: int) {
    exists i :: 0 <= i < |fs| && fs[i].status == "accepted" &&
      ((fs[i].requesterId == a && fs[i].receiverId == b) || (fs[i].receiverId == a && fs[i].requesterId == b))
  }

  predicate AllowedViewer(viewers: seq<Viewer>, storyId: int, userId: int) {
    exists i :: 0 <= i < |viewers| && viewers[i] == Viewer(storyId, userId)
  }

  /** The `WHERE` of `getStories`: unexpired, and public, one's own, a friend's friends-only
      story, or a custom story that lists the user. */
  predicate Visible(s: Story, userId: int, now: int, fs: seq<Friendship>, viewers: seq<Viewer>) {
    s.expiresAt > now &&
    (s.privacy == "public" || s.userId == userId ||
     (s.privacy == "friends" && Friends(fs, userId, s.userId)) ||
     (s.privacy == "custom" && AllowedViewer(viewers, s.id, userId)))
  }

  function Shown(users: map<int, User>, fs: seq<Friendship>, viewers: seq<Viewer>, userId: int, now: int): Story -> bool {
    (s: Story) => s.userId in users && Visible(s, userId, now, fs, viewers)
  }

  /** `ORDER BY s.user_id, s.created_at`. */
  function ByAuthorThenTime(): (Story, Story) -> bool {
    (a: Story, b: Story) => a.userId < b.userId || (a.userId == b.userId && a.createdAt <= b.createdAt)
  }

  lemma ByAuthorThenTimeTotal()
    ensures Seqs.TotalPreorder(ByAuthorThenTime())
  {}

  /** The stories the query returns: exactly the visible stories of existing authors,
      ordered by author and then by creation time. */
  function VisibleStories(stories: seq<Story>, users: map<int, User>, fs: seq<Friendship>, viewers: seq<Viewer>,
                          userId: int, now: int): (r: seq<Story>)
    ensures multiset(r) == multiset(Seqs.Filter(stories, Shown(users, fs, viewers, userId, now)))
    ensures forall k :: 0 <= k < |r| ==> r[k] in stories && r[k].userId in users && Visible(r[k], userId, now, fs, viewers)
    ensures forall s :: s in stories && s.userId in users && Visible(s, userId, now, fs, viewers) ==> s in r
    ensures Seqs.Sorted(r, ByAuthorThenTime())
  {
    var f := Seqs.Filter(stories, Shown(users, fs, viewers, userId, now));
    SortedStories(f);
    Seqs.Sort(f, ByAuthorThenTime())
  }

  /** Sorting the shown stories keeps exactly them, in the feed order. */
  lemma SortedStories(f: seq<Story>)
    ensures var r := Seqs.Sort(f, ByAuthorThenTime());
      multiset(r) == multiset(f) && Seqs.Sorted(r, ByAuthorThenTime()) &&
      (forall k :: 0 <= k < |r| ==> r[k] in f) && (forall s :: s in f ==> s in r)
  {
    var r := Seqs.Sort(f, ByAuthorThenTime());
    Seqs.SortPermutation(f, ByAuthorThenTime());
    ByAuthorThenTimeTotal();
    Seqs.SortSorted(f, ByAuthorThenTime());
    forall k | 0 <= k < |r| ensures r[k] in f { assert r[k] in multiset(r); }
    forall s | s in f ensures s in r { assert s in multiset(f); }
  }

  /** The style and privacy columns of a story. */
  datatype Style = Style(musicUrl: Option<string>, textColor: string, fontSize: int, textPosition: Option<string>,
    showFrame: bool, sticker: Option<string>, stickerPosition: Option<string>, privacy: string)

  /** A result row: the selected columns of a story and its author; `style` holds the
      style columns when the query selects them. */
  datatype Row = Row(storyId: int, mediaType: string, mediaUrl: Option<string>, caption: string,
    background: Option<string>, createdAt: int, expiresAt: int,
    userId: int, fullName: string, username: string, avatar: Option<string>, style: Option<Style>)

  function StyleOf(s: Story): Style {
    Style(s.musicUrl, s.textColor, s.fontSize, s.textPosition, s.showFrame, s.sticker, s.stickerPosition, s.privacy)
  }

  /** The select list as written: story id, media type and URL, caption, background,
      creation and expiry time, and the author; no style column. */
  function SelectRow(s: Story, u: User): Row {
    Row(s.id, s.mediaType, s.mediaUrl, s.caption, s.background, s.createdAt, s.expiresAt,
        u.id, u.fullName, u.username, u.avatar, None)
  }

  /** The select list with the style columns that the grouping reads. */
  function SelectRowIntended(s: Story, u: User): Row {
    SelectRow(s, u).(style := Some(StyleOf(s)))
  }

  function Project(ss: seq<Story>, users: map<int, User>): (rows: seq<Row>)
    requires forall k :: 0 <= k < |ss| ==> ss[k].userId in users
    ensures |rows| == |ss|
  {
    seq(|ss|, k requires 0 <= k < |ss| => SelectRow(ss[k], users[ss[k].userId]))
  }

  function ProjectIntended(ss: seq<Story>, users: map<int, User>): (rows: seq<Row>)
    requires forall k :: 0 <= k < |ss| ==> ss[k].userId in users
    ensures |rows| == |ss|
  {
    seq(|ss|, k requires 0 <= k < |ss| => SelectRowIntended(ss[k], users[ss[k].userId]))
  }

  /** A story object of the response; `None` is a property that is undefined or null. */
  datatype Item = Item(id: int, mediaType: string, mediaUrl: Option<string>, musicUrl: Option<string>,
    caption: string, background: Option<string>, textColor: Option<string>, fontSize: Option<int>,
    textPosition: Option<string>, showFrame: Option<bool>, sticker: Option<string>,
    stickerPosition: Option<string>, privacy: Option<string>, createdAt: int, expiresAt: int)

  /** The object pushed for a row: a style property the row lacks is undefined. */
  function ItemOf(r: Row): Item {
    match r.style
    case None =>
      Item(r.storyId, r.mediaType, r.mediaUrl, None, r.caption, r.background, None, None,
           None, None, None, None, None, r.createdAt, r.expiresAt)
    case Some(st) =>
      Item(r.storyId, r.mediaType, r.mediaUrl, st.musicUrl, r.caption, r.background, Some(st.textColor),
           Some(st.fontSize), st.textPosition, Some(st.showFrame), st.sticker, st.stickerPosition,
           Some(st.privacy), r.createdAt, r.expiresAt)
  }

  /** Every column of a story, as the response would carry it. */
  function FullItem(s: Story): Item {
    Item(s.id, s.mediaType, s.mediaUrl, s.musicUrl, s.caption, s.background, Some(s.textColor),
         Some(s.fontSize), s.textPosition, Some(s.showFrame), s.sticker, s.stickerPosition,
         Some(s.privacy), s.createdAt, s.expiresAt)
  }

  function AuthorOf(r: Row): User { User(r.userId, r.fullName, r.username, r.avatar) }

  /** A response entry: an author and that author's stories. */
  datatype Group = Group(user: User, stories: seq<Item>)

  function ByAuthor(u: int): Row -> bool {
    (r: Row) => r.userId == u
  }

  function Items(rs: seq<Row>): (items: seq<Item>)
    ensures |items| == |rs|
  {
    seq(|rs|, k requires 0 <= k < |rs| => ItemOf(rs[k]))
  }

  /** The authors of `rows`, each once, in order of first appearance. */
  function Authors(rows: seq<Row>): seq<int>
    decreases |rows|
  {
    if rows == [] then []
    else
      var earlier := Authors(rows[..|rows| - 1]);
      var u := rows[|rows| - 1].userId;
      if u in earlier then earlier else earlier + [u]
  }

  /** The entry of author `u`: the author columns of that author's first row, and the
      stories of all that author's rows in row order. */
  function GroupOf(rows: seq<Row>, u: int): Group {
    var mine := Seqs.Filter(rows, ByAuthor(u));
    Group(if |mine| > 0 then AuthorOf(mine[0]) else User(u, "", "", None), Items(mine))
  }

  /** What the grouping of `getStories` produces from the rows. */
  function Groups(rows: seq<Row>): (gs: seq<Group>)
    ensures |gs| == |Authors(rows)|
  {
    var us := Authors(rows);
    seq(|us|, i requires 0 <= i < |us| => GroupOf(rows, us[i]))
  }

  /** `u` is an author of `rows` iff some row has it. */
  lemma {:induction false} AuthorsMember(rows: seq<Row>, u: int)
    ensures u in Authors(rows) <==> exists k :: 0 <= k < |rows| && rows[k].userId == u
    decreases |rows|
  {
    if rows != [] {
      var p := rows[..|rows| - 1];
      AuthorsMember(p, u);
      assert forall k :: 0 <= k < |p| ==> rows[k] == p[k];
    }
  }

  lemma {:induction false} AuthorsDistinct(rows: seq<Row>)
    ensures Seqs.Distinct(Authors(rows))
    decreases |rows|
  {
    if rows != [] {
      AuthorsDistinct(rows[..|rows| - 1]);
    }
  }

  /** An author has rows, and its entry is headed by that author; anyone else has none. */
  lemma MineNonEmpty(rows: seq<Row>, u: int)
    ensures |Seqs.Filter(rows, ByAuthor(u))| > 0 <==> u in Authors(rows)
    ensures u in Authors(rows) ==> GroupOf(rows, u).user.id == u
  {
    AuthorsMember(rows, u);
    var mine := Seqs.Filter(rows, ByAuthor(u));
    if u in Authors(rows) {
      var k :| 0 <= k < |rows| && rows[k].userId == u;
      assert ByAuthor(u)(rows[k]);
      assert rows[k] in mine;
    }
    if |mine| > 0 {
      assert mine[0] in rows && ByAuthor(u)(mine[0]);
      var k :| 0 <= k < |rows| && rows[k] == mine[0];
    }
  }

  lemma FilterOfSnoc(p: seq<Row>, r: Row, u: int)
    ensures Seqs.Filter(p + [r], ByAuthor(u)) ==
      Seqs.Filter(p, ByAuthor(u)) + (if r.userId == u then [r] else [])
  {
    Seqs.FilterAppend(p, [r], ByAuthor(u));
    assert [r][1..] == [];
  }

  lemma ItemsSnoc(rs: seq<Row>, r: Row)
    ensures Items(rs + [r]) == Items(rs) + [ItemOf(r)]
  {}

  lemma GroupOfSnoc(p: seq<Row>, r: Row, v: int)
    ensures v != r.userId ==> GroupOf(p + [r], v) == GroupOf(p, v)
    ensures v == r.userId && v !in Authors(p) ==> GroupOf(p + [r], v) == Group(AuthorOf(r), [ItemOf(r)])
    ensures v == r.userId && v in Authors(p) ==>
      GroupOf(p + [r], v) == Group(GroupOf(p, v).user, GroupOf(p, v).stories + [ItemOf(r)])
  {
    FilterOfSnoc(p, r, v);
    var mine := Seqs.Filter(p, ByAuthor(v));
    ItemsSnoc(mine, r);
    MineNonEmpty(p, v);
    if v != r.userId {
      assert mine + [] == mine;
    } else if v !in Authors(p) {
      assert mine + [r] == [r];
    } else {
      assert (mine + [r])[0] == mine[0];
    }
  }

  /** The groups of one more row: a new author gets a new last entry holding that row's
      story, a known author's entry gets the story appended, and no other entry changes. */
  lemma GroupsSnoc(p: seq<Row>, r: Row)
    ensures Authors(p + [r]) == if r.userId in Authors(p) then Authors(p) else Authors(p) + [r.userId]
    ensures r.userId !in Authors(p) ==> Groups(p + [r]) == Groups(p) + [Group(AuthorOf(r), [ItemOf(r)])]
    ensures forall j :: 0 <= j < |Authors(p)| && Authors(p)[j] == r.userId ==>
      Groups(p + [r]) == Groups(p)[j := Group(Groups(p)[j].user, Groups(p)[j].stories + [ItemOf(r)])]
  {
    var q := p + [r];
    assert q[..|q| - 1] == p;
    if r.userId in Authors(p) {
      forall j | 0 <= j < |Authors(p)| && Authors(p)[j] == r.userId
        ensures Groups(q) == Groups(p)[j := Group(Groups(p)[j].user, Groups(p)[j].stories + [ItemOf(r)])]
      {
        GroupsSnocKnown(p, r, j);
      }
    } else {
      GroupsSnocNew(p, r);
    }
  }

  lemma GroupsSnocNew(p: seq<Row>, r: Row)
    requires r.userId !in Authors(p) && Authors(p + [r]) == Authors(p) + [r.userId]
    ensures Groups(p + [r]) == Groups(p) + [Group(AuthorOf(r), [ItemOf(r)])]
  {
    var q := p + [r];
    var us := Authors(p);
    forall i | 0 <= i < |us| ensures Groups(q)[i] == Groups(p)[i] {
      GroupOfSnoc(p, r, us[i]);
    }
    GroupOfSnoc(p, r, r.userId);
  }

  lemma GroupsSnocKnown(p: seq<Row>, r: Row, j: int)
    requires 0 <= j < |Authors(p)| && Authors(p)[j] == r.userId && Authors(p + [r]) == Authors(p)
    ensures Groups(p + [r]) == Groups(p)[j := Group(Groups(p)[j].user, Groups(p)[j].stories + [ItemOf(r)])]
  {
    var q := p + [r];
    var us := Authors(p);
    AuthorsDistinct(p);
    forall i | 0 <= i < |us| && i != j ensures Groups(q)[i] == Groups(p)[i] {
      assert us[i] != us[j];
      GroupOfSnoc(p, r, us[i]);
    }
    GroupOfSnoc(p, r, r.userId);
  }

  /** `getStories`' grouping: a map from author id to entry, filled row by row. */
  method GroupRows(rows: seq<Row>) returns (groups: seq<Group>)
    ensures groups == Groups(rows)
  {
    groups := [];
    var index: map<int, nat> := map[];
    var i := 0;
    while i < |rows|
      invariant 0 <= i <= |rows|
      invariant groups == Groups(rows[..i])
      invariant forall u :: u in index <==> u in Authors(rows[..i])
      invariant forall u :: u in index ==> index[u] < |groups| && Authors(rows[..i])[index[u]] == u
    {
      var row := rows[i];
      assert rows[..i + 1] == rows[..i] + [row];
      GroupsSnoc(rows[..i], row);
      ghost var before := Authors(rows[..i]);
      ghost var after := Authors(rows[..i + 1]);
      assert forall k :: 0 <= k < |before| ==> after[k] == before[k];
      if row.userId !in index {
        index := index[row.userId := |groups|];
        groups := groups + [Group(AuthorOf(row), [])];
      }
      var j := index[row.userId];
      NewEntryStory(groups, j, row, Groups(rows[..i]), |before|);
      groups := groups[j := Group(groups[j].user, groups[j].stories + [ItemOf(row)])];
      if j < |before| {
        assert before[j] == row.userId;
      }
      i := i + 1;
    }
    assert rows[..i] == rows;
  }

  /** A new author's entry, added empty at the end, holds just that row's story once it
      is appended. */
  lemma NewEntryStory(groups: seq<Group>, j: int, row: Row, prev: seq<Group>, known: nat)
    requires 0 <= j < |groups| && |prev| == known && (j == known ==> groups == prev + [Group(AuthorOf(row), [])])
    ensures j == known ==>
      groups[j := Group(groups[j].user, groups[j].stories + [ItemOf(row)])] == prev + [Group(AuthorOf(row), [ItemOf(row)])]
  {
    if j == known {
      assert groups[j] == Group(AuthorOf(row), []);
      assert groups[j].stories + [ItemOf(row)] == [ItemOf(row)];
    }
  }

  /** Entry `i` is headed by the `i`-th author and holds at least one story. */
  lemma GroupsIds(rows: seq<Row>)
    ensures forall i :: 0 <= i < |Groups(rows)| ==>
      Groups(rows)[i].user.id == Authors(rows)[i] && |Groups(rows)[i].stories| > 0
  {
    var us := Authors(rows);
    forall i | 0 <= i < |us| ensures Groups(rows)[i].user.id == us[i] && |Groups(rows)[i].stories| > 0 {
      MineNonEmpty(rows, us[i]);
    }
  }

  /** The entries have distinct authors. */
  lemma GroupsDistinct(rows: seq<Row>)
    ensures forall i, j :: 0 <= i < j < |Groups(rows)| ==> Groups(rows)[i].user.id != Groups(rows)[j].user.id
  {
    GroupsIds(rows);
    AuthorsDistinct(rows);
  }

  /** Each entry holds, in row order, the stories of exactly that author's rows. */
  lemma GroupsStories(rows: seq<Row>)
    ensures forall i :: 0 <= i < |Groups(rows)| ==>
      Groups(rows)[i].stories == Items(Seqs.Filter(rows, ByAuthor(Groups(rows)[i].user.id)))
  {
    GroupsIds(rows);
  }

  /** Each entry is headed by the author columns of one of that author's rows. */
  lemma GroupsAuthorFromRow(rows: seq<Row>)
    ensures forall i :: 0 <= i < |Groups(rows)| ==>
      exists k :: 0 <= k < |rows| && rows[k].userId == Groups(rows)[i].user.id && Groups(rows)[i].user == AuthorOf(rows[k])
  {
    GroupsIds(rows);
    var us := Authors(rows);
    var gs := Groups(rows);
    forall i | 0 <= i < |gs|
      ensures exists k :: 0 <= k < |rows| && rows[k].userId == us[i] && gs[i].user == AuthorOf(rows[k])
    {
      var mine := Seqs.Filter(rows, ByAuthor(us[i]));
      MineNonEmpty(rows, us[i]);
      assert mine[0] in rows && ByAuthor(us[i])(mine[0]);
      var k :| 0 <= k < |rows| && rows[k] == mine[0];
    }
  }

  /** Every row's author has an entry. */
  lemma GroupsCover(rows: seq<Row>)
    ensures forall k :: 0 <= k < |rows| ==> exists i :: 0 <= i < |Groups(rows)| && Groups(rows)[i].user.id == rows[k].userId
  {
    GroupsIds(rows);
    var us := Authors(rows);
    forall k | 0 <= k < |rows| ensures exists i :: 0 <= i < |us| && Groups(rows)[i].user.id == rows[k].userId {
      AuthorsMember(rows, rows[k].userId);
      var i :| 0 <= i < |us| && us[i] == rows[k].userId;
    }
  }

  /** With rows ordered by author and then by time, as the query returns them, the entries
      come in increasing author id, which is also the order in which `Object.values` lists
      integer keys, and each entry's stories run from oldest to newest. */
  lemma {:induction false} GroupsOrdered(ss: seq<Story>, users: map<int, User>)
    requires forall k :: 0 <= k < |ss| ==> ss[k].userId in users && users[ss[k].userId].id == ss[k].userId
    requires Seqs.Sorted(ss, ByAuthorThenTime())
    ensures forall i, j :: 0 <= i < j < |Groups(ProjectIntended(ss, users))| ==>
      Groups(ProjectIntended(ss, users))[i].user.id < Groups(ProjectIntended(ss, users))[j].user.id
    ensures forall i, a, b :: 0 <= i < |Groups(ProjectIntended(ss, users))| && 0 <= a < b < |Groups(ProjectIntended(ss, users))[i].stories| ==>
      Groups(ProjectIntended(ss, users))[i].stories[a].createdAt <= Groups(ProjectIntended(ss, users))[i].stories[b].createdAt
  {
    var rows := ProjectIntended(ss, users);
    assert Seqs.Sorted(rows, RowOrder()) by {
      forall i, j | 0 <= i < j < |rows| ensures RowOrder()(rows[i], rows[j]) {
        assert ByAuthorThenTime()(ss[i], ss[j]);
      }
    }
    AuthorsAscending(rows);
    GroupsIds(rows);
    var gs := Groups(rows);
    forall i, a, b | 0 <= i < |gs| && 0 <= a < b < |gs[i].stories|
      ensures gs[i].stories[a].createdAt <= gs[i].stories[b].createdAt
    {
      var mine := Seqs.Filter(rows, ByAuthor(gs[i].user.id));
      Seqs.FilterSorted(rows, ByAuthor(gs[i].user.id), RowOrder());
      assert RowOrder()(mine[a], mine[b]);
    }
  }

  function RowOrder(): (Row, Row) -> bool {
    (a: Row, b: Row) => a.userId < b.userId || (a.userId == b.userId && a.createdAt <= b.createdAt)
  }

  lemma {:induction false} AuthorsAscending(rows: seq<Row>)
    requires Seqs.Sorted(rows, RowOrder())
    ensures forall i, j :: 0 <= i < j < |Authors(rows)| ==> Authors(rows)[i] < Authors(rows)[j]
    decreases |rows|
  {
    if rows != [] {
      var p := rows[..|rows| - 1];
      var last := rows[|rows| - 1];
      assert Seqs.Sorted(p, RowOrder());
      AuthorsAscending(p);
      forall i | 0 <= i < |Authors(p)| ensures Authors(p)[i] <= last.userId {
        AuthorsMember(p, Authors(p)[i]);
        var k :| 0 <= k < |p| && p[k].userId == Authors(p)[i];
        assert RowOrder()(rows[k], last);
      }
    }
  }

  /** Each story of an entry comes from one of that author's rows. */
  lemma GroupItemsFromRows(rows: seq<Row>)
    ensures forall i, k :: 0 <= i < |Groups(rows)| && 0 <= k < |Groups(rows)[i].stories| ==>
      exists j :: 0 <= j < |rows| && rows[j].userId == Groups(rows)[i].user.id && Groups(rows)[i].stories[k] == ItemOf(rows[j])
  {
    GroupsIds(rows);
    var gs := Groups(rows);
    forall i, k | 0 <= i < |gs| && 0 <= k < |gs[i].stories|
      ensures exists j :: 0 <= j < |rows| && rows[j].userId == gs[i].user.id && gs[i].stories[k] == ItemOf(rows[j])
    {
      var mine := Seqs.Filter(rows, ByAuthor(gs[i].user.id));
      assert gs[i].stories == Items(mine);
      assert mine[k] in rows && ByAuthor(gs[i].user.id)(mine[k]);
      var j :| 0 <= j < |rows| && rows[j] == mine[k];
    }
  }

  /** Every story of the response, as written, has its music, text colour, font size, text
      position, frame flag, sticker, sticker position and privacy undefined. */
  lemma GetStoriesDropsStyle(ss: seq<Story>, users: map<int, User>)
    requires forall k :: 0 <= k < |ss| ==> ss[k].userId in users
    ensures forall i, k :: 0 <= i < |Groups(Project(ss, users))| && 0 <= k < |Groups(Project(ss, users))[i].stories| ==>
      (var it := Groups(Project(ss, users))[i].stories[k];
       it.musicUrl.None? && it.textColor.None? && it.fontSize.None? && it.textPosition.None? &&
       it.showFrame.None? && it.sticker.None? && it.stickerPosition.None? && it.privacy.None?)
  {
    GroupItemsFromRows(Project(ss, users));
  }

  /** With the style columns selected, every story of an entry is a full copy of a story of
      that author among the input. */
  lemma GetStoriesIntendedKeepsStyle(ss: seq<Story>, users: map<int, User>)
    requires forall k :: 0 <= k < |ss| ==> ss[k].userId in users && users[ss[k].userId].id == ss[k].userId
    ensures forall i, k :: 0 <= i < |Groups(ProjectIntended(ss, users))| && 0 <= k < |Groups(ProjectIntended(ss, users))[i].stories| ==>
      exists j :: 0 <= j < |ss| && ss[j].userId == Groups(ProjectIntended(ss, users))[i].user.id &&
        Groups(ProjectIntended(ss, users))[i].stories[k] == FullItem(ss[j])
  {
    var rows := ProjectIntended(ss, users);
    GroupItemsFromRows(rows);
    var gs := Groups(rows);
    forall i, k | 0 <= i < |gs| && 0 <= k < |gs[i].stories|
      ensures exists j :: 0 <= j < |ss| && ss[j].userId == gs[i].user.id && gs[i].stories[k] == FullItem(ss[j])
    {
      var j :| 0 <= j < |rows| && rows[j].userId == gs[i].user.id && gs[i].stories[k] == ItemOf(rows[j]);
      assert rows[j] == SelectRowIntended(ss[j], users[ss[j].userId]);
      TextColorLost(ss[j], users[ss[j].userId]);
    }
  }

  /** A story, its text colour (never null in the table) and the row the query returns
      for it: the response loses the colour. */
  lemma TextColorLost(s: Story, u: User)
    ensures ItemOf(SelectRow(s, u)).textColor == None != Some(s.textColor) == FullItem(s).textColor
    ensures ItemOf(SelectRowIntended(s, u)) == FullItem(s)
  {}

  // ---------------------------------------------------------------- viewStory

  function SamePair(storyId: int, viewerId: int): View -> bool {
    (v: View) => v.storyId == storyId && v.viewerId == viewerId
  }

  function ViewCount(views: seq<View>, storyId: int, viewerId: int): nat {
    Seqs.Count(views, SamePair(storyId, viewerId))
  }

  /** `viewStory`: the pair is inserted, stamped with the time, only when no view of it exists. */
  function RecordView(views: seq<View>, storyId: int, viewerId: int, now: int): (r: seq<View>)
    ensures ViewCount(views, storyId, viewerId) > 0 ==> r == views
    ensures ViewCount(views, storyId, viewerId) == 0 ==> r == views + [View(storyId, viewerId, now)]
  {
    if ViewCount(views, storyId, viewerId) > 0 then views else views + [View(storyId, viewerId, now)]
  }

  /** After a view the pair has exactly one row when it had at most one before, and every
      other pair keeps its count. */
  lemma RecordViewOnce(views: seq<View>, storyId: int, viewerId: int, now: int)
    requires ViewCount(views, storyId, viewerId) <= 1
    ensures ViewCount(RecordView(views, storyId, viewerId, now), storyId, viewerId) == 1
    ensures forall s, v :: (s, v) != (storyId, viewerId) ==>
      ViewCount(RecordView(views, storyId, viewerId, now), s, v) == ViewCount(views, s, v)
  {
    if ViewCount(views, storyId, viewerId) == 0 {
      forall s, v ensures ViewCount(views + [View(storyId, viewerId, now)], s, v) ==
        ViewCount(views, s, v) + (if (s, v) == (storyId, viewerId) then 1 else 0)
      {
        Seqs.FilterAppend(views, [View(storyId, viewerId, now)], SamePair(s, v));
        assert [View(storyId, viewerId, now)][1..] == [];
      }
    }
  }

  /** Seeing a story again changes nothing. */
  lemma RecordViewIdempotent(views: seq<View>, storyId: int, viewerId: int, now: int, later: int)
    ensures RecordView(RecordView(views, storyId, viewerId, now), storyId, viewerId, later) ==
      RecordView(views, storyId, viewerId, now)
  {
    if ViewCount(views, storyId, viewerId) == 0 {
      Seqs.FilterAppend(views, [View(storyId, viewerId, now)], SamePair(storyId, viewerId));
      assert [View(storyId, viewerId, now)][1..] == [];
    }
  }

  // ---------------------------------------------------------------- createStory

  /** The body of `createStory`; `None` is a property left out of the request. */
  datatype StoryRequest = StoryRequest(mediaType: Option<string>, mediaUrl: Option<string>,
    musicUrl: Option<string>, caption: Option<string>, background: Option<string>,
    textColor: Option<string>, fontSize: Option<int>, textPosition: Option<string>,
    showFrame: Option<bool>, sticker: Option<string>, stickerPosition: Option<string>,
    privacy: Option<string>, allowedViewers: Option<seq<int>>, expiresInHours: Option<int>)

  const AllowedTypes: seq<string> := ["text", "image", "video"]

  /** JavaScript truthiness of a string property. */
  predicate Truthy(s: Option<string>) { s.Some? && s.value != "" }

  /** The three checks of `createStory`, in order, each answered with status 400. */
  function ValidateStory(mediaType: string, mediaUrl: Option<string>, caption: string): (r: Option<string>)
    ensures r.None? <==> (mediaType in AllowedTypes && (mediaType != "text" ==> Truthy(mediaUrl)) &&
                          (mediaType == "text" ==> caption != ""))
    ensures mediaType !in AllowedTypes ==> r == Some("media_type không hợp lệ")
    ensures (mediaType == "image" || mediaType == "video") && !Truthy(mediaUrl) ==> r == Some("Thiếu media_url cho image/video")
    ensures mediaType == "text" && caption == "" ==> r == Some("Text story phải có caption")
  {
    if mediaType !in AllowedTypes then Some("media_type không hợp lệ")
    else if mediaType != "text" && !Truthy(mediaUrl) then Some("Thiếu media_url cho image/video")
    else if mediaType == "text" && caption == "" then Some("Text story phải có caption")
    else None
  }

  /** The row inserted for a valid request, with the defaults of the destructuring:
      type text, caption empty, white text, size 24, frame shown, public, 24 hours. */
  function NewStory(req: StoryRequest, id: int, userId: int, now: int): (s: Story)
    ensures s.id == id && s.userId == userId && s.createdAt == now
    ensures s.expiresAt == now + req.expiresInHours.GetOr(24) * HourMs
    ensures req.mediaType.None? ==> s.mediaType == "text"
    ensures req.privacy.None? ==> s.privacy == "public"
    ensures req.textColor.None? ==> s.textColor == "#FFFFFF"
    ensures req.fontSize.None? ==> s.fontSize == 24
    ensures req.showFrame.None? ==> s.showFrame
    ensures req.caption.None? ==> s.caption == ""
  {
    Story(id, userId, req.mediaType.GetOr("text"), req.mediaUrl, req.musicUrl, req.caption.GetOr(""),
          req.background, req.textColor.GetOr("#FFFFFF"), req.fontSize.GetOr(24), req.textPosition,
          req.showFrame.GetOr(true), req.sticker, req.stickerPosition, req.privacy.GetOr("public"),
          now, now + req.expiresInHours.GetOr(24) * HourMs)
  }

  function ViewerRows(storyId: int, ids: seq<int>): (r: seq<Viewer>)
    ensures |r| == |ids|
  {
    seq(|ids|, k requires 0 <= k < |ids| => Viewer(storyId, ids[k]))
  }

  /** With the insert reporting its row (`CreateStoryIntended`), after the allowed list is
      inserted a user is allowed to see the new story iff the list names the user or the
      user was allowed before. As written no list is ever inserted (`CreateStory`). */
  lemma AllowedAfterCreate(viewers: seq<Viewer>, storyId: int, ids: seq<int>, userId: int)
    ensures AllowedViewer(viewers + ViewerRows(storyId, ids), storyId, userId) <==>
      (userId in ids || AllowedViewer(viewers, storyId, userId))
  {
    var all := viewers + ViewerRows(storyId, ids);
    if userId in ids {
      var k :| 0 <= k < |ids| && ids[k] == userId;
      assert all[|viewers| + k] == Viewer(storyId, userId);
    }
    if AllowedViewer(viewers, storyId, userId) {
      var i :| 0 <= i < |viewers| && viewers[i] == Viewer(storyId, userId);
      assert all[i] == viewers[i];
    }
    if AllowedViewer(all, storyId, userId) {
      var i :| 0 <= i < |all| && all[i] == Viewer(storyId, userId);
      if i >= |viewers| { assert ids[i - |viewers|] == userId; }
    }
  }

  /** The reply of `createStory`: a refusal (400), the created story (200), or a failure
      (500) after the story row was written. */
  datatype CreateOutcome = Refused(message: string) | Created(story: Story) | Failed

  // ---------------------------------------------------------------- deleteStory

  function NotId(storyId: int): Story -> bool {
    (s: Story) => s.id != storyId
  }

  predicate Owns(stories: seq<Story>, userId: int, storyId: int) {
    exists i :: 0 <= i < |stories| && stories[i].id == storyId && stories[i].userId == userId
  }

  datatype DeleteOutcome = Deleted | Forbidden(message: string)

  /** With ids unique, a delete that goes through removes exactly the requester's story. */
  lemma OnlyOwnerDeletes(stories: seq<Story>, userId: int, storyId: int)
    requires forall i, j :: 0 <= i < j < |stories| ==> stories[i].id != stories[j].id
    requires Owns(stories, userId, storyId)
    ensures forall s :: s in stories && s !in Seqs.Filter(stories, NotId(storyId)) ==> s.userId == userId && s.id == storyId
    ensures forall s :: s in stories && s.id != storyId ==> s in Seqs.Filter(stories, NotId(storyId))
  {
    forall s | s in stories && s !in Seqs.Filter(stories, NotId(storyId)) ensures s.userId == userId && s.id == storyId {
      var i :| 0 <= i < |stories| && stories[i].id == storyId && stories[i].userId == userId;
      var j :| 0 <= j < |stories| && stories[j] == s;
      assert !NotId(storyId)(s);
    }
  }

  /** The story tables. */
  class StoryStore {
    var stories: seq<Story>
    var views: seq<View>
    var viewers: seq<Viewer>
    var nextId: int

    constructor ()
      ensures stories == [] && views == [] && viewers == [] && nextId == 1
    {
      stories, views, viewers, nextId := [], [], [], 1;
    }

    /** `getStories`: the visible stories grouped by author, with the style columns
        selected (see `GetStoriesDropsStyle` for the query as written). */
    method GetStories(users: map<int, User>, fs: seq<Friendship>, userId: int, now: int) returns (groups: seq<Group>)
      ensures groups == Groups(ProjectIntended(VisibleStories(stories, users, fs, viewers, userId, now), users))
    {
      var visible := VisibleStories(stories, users, fs, viewers, userId, now);
      groups := GroupRows(ProjectIntended(visible, users));
    }

    /** `viewStory`: the check for an existing view, then the insert. */
    method ViewStory(viewerId: int, storyId: int, now: int)
      modifies this
      ensures views == RecordView(old(views), storyId, viewerId, now)
      ensures stories == old(stories) && viewers == old(viewers) && nextId == old(nextId)
    {
      var seen := Seqs.Filter(views, SamePair(storyId, viewerId));
      if |seen| == 0 {
        views := views + [View(storyId, viewerId, now)];
      }
    }

    /** `createStory` as written: validation, then the story insert. The `INSERT` has no
        `OUTPUT` clause, so the driver reports no row and `result.recordset[0]` throws
        once the story is stored: every valid request is answered 500 and no allowed
        viewer is inserted, whatever the privacy. */
    method CreateStory(userId: int, req: StoryRequest, now: int) returns (outcome: CreateOutcome)
      modifies this
      ensures var check := ValidateStory(req.mediaType.GetOr("text"), req.mediaUrl, req.caption.GetOr(""));
        check.Some? ==> outcome == Refused(check.value) && stories == old(stories) && nextId == old(nextId)
      ensures var check := ValidateStory(req.mediaType.GetOr("text"), req.mediaUrl, req.caption.GetOr(""));
        check.None? ==> (outcome == Failed && stories == old(stories) + [NewStory(req, old(nextId), userId, now)] &&
          nextId == old(nextId) + 1)
      ensures viewers == old(viewers) && views == old(views)
    {
      var check := ValidateStory(req.mediaType.GetOr("text"), req.mediaUrl, req.caption.GetOr(""));
      if check.Some? {
        return Refused(check.value);
      }
      var story := NewStory(req, nextId, userId, now);
      stories := stories + [story];
      nextId := nextId + 1;
      // no row is reported, so reading the inserted story throws and the catch replies 500
      outcome := Failed;
    }

    /** `createStory` as evidently intended, with the insert reporting its row (`OUTPUT
        INSERTED.*`): the story is stored and returned, and when the privacy is custom
        one `story_viewers` row is inserted per allowed id. */
    method CreateStoryIntended(userId: int, req: StoryRequest, now: int) returns (outcome: CreateOutcome)
      modifies this
      ensures var check := ValidateStory(req.mediaType.GetOr("text"), req.mediaUrl, req.caption.GetOr(""));
        check.Some? ==> outcome == Refused(check.value) && stories == old(stories) && viewers == old(viewers) && nextId == old(nextId)
      ensures var check := ValidateStory(req.mediaType.GetOr("text"), req.mediaUrl, req.caption.GetOr(""));
        check.None? ==> (
          outcome == Created(NewStory(req, old(nextId), userId, now)) &&
          stories == old(stories) + [NewStory(req, old(nextId), userId, now)] && nextId == old(nextId) + 1 &&
          var listed := req.privacy == Some("custom") && req.allowedViewers.Some?;
          (!listed ==> viewers == old(viewers)) &&
          (listed ==> viewers == old(viewers) + ViewerRows(old(nextId), req.allowedViewers.value)))
      ensures views == old(views)
    {
      var check := ValidateStory(req.mediaType.GetOr("text"), req.mediaUrl, req.caption.GetOr(""));
      if check.Some? {
        return Refused(check.value);
      }
      var story := NewStory(req, nextId, userId, now);
      stories := stories + [story];
      nextId := nextId + 1;
      if req.privacy == Some("custom") && req.allowedViewers.Some? {
        var ids := req.allowedViewers.value;
        var k := 0;
        while k < |ids|
          invariant 0 <= k <= |ids|
          invariant viewers == old(viewers) + ViewerRows(story.id, ids[..k])
          invariant stories == old(stories) + [story] && nextId == old(nextId) + 1 && views == old(views)
        {
          viewers := viewers + [Viewer(story.id, ids[k])];
          assert ViewerRows(story.id, ids[..k + 1]) == ViewerRows(story.id, ids[..k]) + [Viewer(story.id, ids[k])];
          k := k + 1;
        }
        assert ids[..k] == ids;
      }
      outcome := Created(story);
    }

    /** `deleteStory`: 403 unless the story is the requester's, otherwise every row with
        the id is deleted. */
    method DeleteStory(userId: int, storyId: int) returns (outcome: DeleteOutcome)
      modifies this
      ensures !Owns(old(stories), userId, storyId) <==> outcome == Forbidden("Bạn không có quyền xóa story này")
      ensures outcome.Forbidden? ==> stories == old(stories)
      ensures outcome.Deleted? ==> stories == Seqs.Filter(old(stories), NotId(storyId))
      ensures views == old(views) && viewers == old(viewers) && nextId == old(nextId)
    {
      var mine := Seqs.Filter(stories, OwnedPair(userId, storyId));
      if |mine| == 0 {
        return Forbidden("Bạn không có quyền xóa story này");
      }
      assert mine[0] in stories && OwnedPair(userId, storyId)(mine[0]);
      stories := Seqs.Filter(stories, NotId(storyId));
      outcome := Deleted;
    }
  }

  function OwnedPair(userId: int, storyId: int): Story -> bool {
    (s: Story) => s.id == storyId && s.userId == userId
  }
}
