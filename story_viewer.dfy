/** The story viewer of the frontend: the order in which story groups are shown, stepping
    to the next and previous story, and the avatar URL normaliser. */
module StoryViewer {
  import opened Wrappers
  import opened Text
  import Seqs

  /** One story as the viewer sees it. */
  datatype StoryItem = StoryItem(id: int, isViewed: bool)

  /** The stories of one author. */
  datatype StoryGroup = StoryGroup(userId: int, stories: seq<StoryItem>)

  predicate HasUnseen(g: StoryGroup) {
    exists k :: 0 <= k < |g.stories| && !g.stories[k].isViewed
  }

  /** The comparator orders groups by this rank: the current user's group, then groups with
      an unseen story, then fully seen groups. With one group per author it is consistent,
      and `Array.prototype.sort` is stable, so the sort is a stable sort by rank. */
  function Rank(me: int, g: StoryGroup): (r: nat)
    ensures r <= 2
    ensures r == 0 <==> g.userId == me
    ensures r == 1 <==> (g.userId != me && HasUnseen(g))
  {
    if g.userId == me then 0 else if HasUnseen(g) then 1 else 2
  }

  function ByRank(me: int): (StoryGroup, StoryGroup) -> bool {
    (a: StoryGroup, b: StoryGroup) => Rank(me, a) <= Rank(me, b)
  }

  /** `sortedStories`. */
  function SortedStories(me: int, all: seq<StoryGroup>): seq<StoryGroup> {
    Seqs.Sort(all, ByRank(me))
  }

  /** The sorted list holds the same groups, the current user's group comes before every
      other, and groups with an unseen story come before fully seen ones. */
  lemma SortedStoriesOrder(me: int, all: seq<StoryGroup>)
    ensures multiset(SortedStories(me, all)) == multiset(all)
    ensures var s := SortedStories(me, all);
      forall i, j :: 0 <= i < j < |s| && s[j].userId == me ==> s[i].userId == me
    ensures var s := SortedStories(me, all);
      forall i, j :: 0 <= i < j < |s| && s[j].userId != me && HasUnseen(s[j]) ==>
        (s[i].userId == me || HasUnseen(s[i]))
  {
    Seqs.SortPermutation(all, ByRank(me));
    Seqs.SortSorted(all, ByRank(me));
  }

  /** `findIndex` of the group of a user: -1 when there is none. */
  function FindGroup(groups: seq<StoryGroup>, userId: int): (i: int)
    ensures -1 <= i < |groups|
    ensures i >= 0 ==> groups[i].userId == userId && forall k :: 0 <= k < i ==> groups[k].userId != userId
    ensures i == -1 ==> forall k :: 0 <= k < |groups| ==> groups[k].userId != userId
    decreases |groups|
  {
    if |groups| == 0 then -1
    else if groups[0].userId == userId then 0
    else
      var r := FindGroup(groups[1..], userId);
      if r == -1 then -1 else r + 1
  }

  /** The story on screen: whose group, its stories and the position in them. */
  datatype ViewState = ViewState(userId: int, stories: seq<StoryItem>, currentIndex: int)

  /** `nextStory`: the next story of the same group, else the first story of the next group,
      else the viewer closes (`None`). */
  function NextStory(sorted: seq<StoryGroup>, v: ViewState): (r: Option<ViewState>)
    ensures v.currentIndex < |v.stories| - 1 ==> r == Some(v.(currentIndex := v.currentIndex + 1))
    ensures v.currentIndex >= |v.stories| - 1 && FindGroup(sorted, v.userId) < |sorted| - 1 ==>
      var g := sorted[FindGroup(sorted, v.userId) + 1];
      r == Some(ViewState(g.userId, g.stories, 0))
    ensures r.None? <==> (v.currentIndex >= |v.stories| - 1 && FindGroup(sorted, v.userId) == |sorted| - 1)
  {
    var ui := FindGroup(sorted, v.userId);
    if v.currentIndex < |v.stories| - 1 then Some(v.(currentIndex := v.currentIndex + 1))
    else if ui < |sorted| - 1 then
      var g := sorted[ui + 1];
      Some(ViewState(g.userId, g.stories, 0))
    else None
  }

  /** `prevStory`: the previous story of the same group, else the last story of the
      previous group, else nothing changes. */
  function PrevStory(sorted: seq<StoryGroup>, v: ViewState): (r: ViewState)
    ensures v.currentIndex > 0 ==> r == v.(currentIndex := v.currentIndex - 1)
    ensures v.currentIndex <= 0 && FindGroup(sorted, v.userId) > 0 ==>
      var g := sorted[FindGroup(sorted, v.userId) - 1];
      r == ViewState(g.userId, g.stories, |g.stories| - 1)
    ensures r == v <==> (v.currentIndex <= 0 && FindGroup(sorted, v.userId) <= 0)
  {
    var ui := FindGroup(sorted, v.userId);
    if v.currentIndex > 0 then v.(currentIndex := v.currentIndex - 1)
    else if ui > 0 then
      var g := sorted[ui - 1];
      ViewState(g.userId, g.stories, |g.stories| - 1)
    else v
  }

  /** Every author has at most one group. */
  predicate UniqueAuthors(groups: seq<StoryGroup>) {
    forall i, j :: 0 <= i < j < |groups| ==> groups[i].userId != groups[j].userId
  }

  /** The viewer shows an existing story of a group of the sorted list. */
  predicate OnGroup(sorted: seq<StoryGroup>, v: ViewState) {
    var ui := FindGroup(sorted, v.userId);
    ui >= 0 && v.stories == sorted[ui].stories && 0 <= v.currentIndex < |v.stories|
  }

  lemma FindUnique(groups: seq<StoryGroup>, i: int)
    requires UniqueAuthors(groups) && 0 <= i < |groups|
    ensures FindGroup(groups, groups[i].userId) == i
  {
    var r := FindGroup(groups, groups[i].userId);
    assert r != -1;
  }

  /** Going back after going forward returns to the same story. */
  lemma PrevAfterNext(sorted: seq<StoryGroup>, v: ViewState)
    requires UniqueAuthors(sorted) && OnGroup(sorted, v) && NextStory(sorted, v).Some?
    ensures PrevStory(sorted, NextStory(sorted, v).value) == v
  {
    var ui := FindGroup(sorted, v.userId);
    if v.currentIndex >= |v.stories| - 1 {
      FindUnique(sorted, ui + 1);
    }
  }

  /** Going forward after going back returns to the same story. */
  lemma NextAfterPrev(sorted: seq<StoryGroup>, v: ViewState)
    requires UniqueAuthors(sorted) && OnGroup(sorted, v) && PrevStory(sorted, v) != v
    ensures NextStory(sorted, PrevStory(sorted, v)) == Some(v)
  {
    var ui := FindGroup(sorted, v.userId);
    if v.currentIndex <= 0 {
      FindUnique(sorted, ui - 1);
    }
  }

  /** When no group is empty, stepping forward lands on an existing story of the list. */
  lemma NextStaysOnGroup(sorted: seq<StoryGroup>, v: ViewState)
    requires UniqueAuthors(sorted) && OnGroup(sorted, v) && NextStory(sorted, v).Some?
    requires forall k :: 0 <= k < |sorted| ==> |sorted[k].stories| > 0
    ensures OnGroup(sorted, NextStory(sorted, v).value)
  {
    var ui := FindGroup(sorted, v.userId);
    if v.currentIndex >= |v.stories| - 1 {
      FindUnique(sorted, ui + 1);
    }
  }

  const DefaultAvatar := "/default-avatar.png"

  /** `toUrl`: a blank avatar, or the text `null` or `undefined`, is the default avatar; a
      URL starting with `http` is kept; anything else is prefixed with the server origin. */
  function ToUrl(origin: string, path: Option<string>): (r: string)
    ensures (path.None? || path.value in ["", "null", "undefined"]) ==> r == DefaultAvatar
    ensures path.Some? && path.value !in ["", "null", "undefined"] ==>
      (if StartsWith(path.value, "http") then r == path.value else r == origin + path.value)
  {
    if path.None? || path.value == "" || path.value == "null" || path.value == "undefined" then DefaultAvatar
    else if StartsWith(path.value, "http") then path.value
    else origin + path.value
  }

  /** With a non-empty origin, `toUrl` keeps a given path exactly when it starts with
      `http`. */
  lemma ToUrlKeeps(origin: string, path: string)
    requires origin != "" && path !in ["", "null", "undefined"]
    ensures ToUrl(origin, Some(path)) == path <==> StartsWith(path, "http")
  {
    if !StartsWith(path, "http") {
      assert |origin + path| > |path|;
    }
  }
}
