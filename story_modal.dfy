/** The story-creation dialog of the frontend: choosing the friends who may see a custom
    story, accepting a media or music file, and the requests sent when the story is posted. */
module StoryModal {
  import opened Wrappers
  import opened Text
  import Seqs

  /** The dialog's three screens: the choice, the text editor and the media editor. */
  datatype Mode = Select | TextMode | MediaMode

  datatype MediaKind = Video | Image

  /** A file picked in the browser; `mimeType` is `file.type`. */
  datatype File = File(name: string, mimeType: string)

  /** The result of `Number(x)`: an integer, or a value that is not one (`NaN`, a fraction,
      an infinity). */
  datatype NumberValue = IntValue(value: int) | NotInteger

  /** Stories expire a day after they are posted, in milliseconds. */
  const DayMs: int := 24 * 60 * 60 * 1000

  /** The toggle of `toggleFriendSelection`: a selected id is filtered out, any other id is
      appended. */
  function Toggled(prev: seq<int>, id: int): (r: seq<int>)
    ensures forall x :: x in r <==> (x in prev) != (x == id)
    ensures id in prev ==> |r| < |prev|
    ensures id !in prev ==> r == prev + [id]
  {
    if id in prev then
      FilterDropsOne(prev, id);
      Seqs.Filter(prev, (x: int) => x != id)
    else
      prev + [id]
  }

  /** Toggling keeps every friend selected at most once. */
  lemma ToggledDistinct(prev: seq<int>, id: int)
    requires Seqs.Distinct(prev)
    ensures Seqs.Distinct(Toggled(prev, id))
  {
    if id in prev { Seqs.FilterDistinct(prev, (x: int) => x != id); }
  }

  /** Filtering out a present id shortens the list. */
  lemma {:induction false} FilterDropsOne(prev: seq<int>, id: int)
    requires id in prev
    ensures |Seqs.Filter(prev, (x: int) => x != id)| < |prev|
    decreases |prev|
  {
    var keep := (x: int) => x != id;
    assert prev == [prev[0]] + prev[1..];
    Seqs.FilterAppend([prev[0]], prev[1..], keep);
    if prev[0] == id {
      assert Seqs.Filter([prev[0]], keep) == [];
    } else {
      assert id in prev[1..];
      FilterDropsOne(prev[1..], id);
    }
  }

  /** Selecting a friend and unselecting them again gives back the same list. */
  lemma ToggleTwice(prev: seq<int>, id: int)
    requires id !in prev
    ensures Toggled(Toggled(prev, id), id) == prev
  {
    var keep := (x: int) => x != id;
    Seqs.FilterAppend(prev, [id], keep);
    Seqs.FilterAll(prev, keep);
    assert Seqs.Filter([id], keep) == [];
  }

  /** The request body of `POST /api/stories`. A text story always names the media type
      and URL `text`; a media story names the uploaded file's URL. */
  datatype StoryRequest =
    | TextStory(mediaType: string, mediaUrl: string, expiresAt: int, caption: Option<string>,
        backgroundColor: string, textColor: string, fontSize: int, showFrame: bool, privacy: string,
        allowedViewers: Option<seq<int>>)
    | MediaStory(mediaType: string, mediaUrl: string, musicUrl: Option<string>, expiresAt: int,
        caption: Option<string>, privacy: string, allowedViewers: Option<seq<int>>)

  /** What posting does: the files sent to `POST /api/upload` in order, the story request
      if one is sent, and whether the dialog closes (success) or stays open (an error). */
  datatype Submission = Submission(uploads: seq<File>, request: Option<StoryRequest>, closes: bool)

  class StoryDraft {
    var mode: Mode
    var mediaFile: Option<File>
    var mediaKind: Option<MediaKind>
    var mediaPreview: Option<string>
    var musicFile: Option<File>
    var musicUrl: Option<string>
    var textContent: string
    var fontSize: int
    var textColor: string
    var backgroundColor: string
    var showFrame: bool
    var privacy: string
    var showFriendsList: bool
    var selectedFriends: seq<int>

    /** The selection holds positive ids, each once, and the media screen is only reached
        with an accepted file. */
    ghost predicate Valid()
      reads this
    {
      Seqs.Distinct(selectedFriends) && (forall k :: 0 <= k < |selectedFriends| ==> selectedFriends[k] > 0) &&
      (mode == MediaMode ==> mediaFile.Some? && mediaKind.Some? && mediaPreview.Some?)
    }

    constructor ()
      ensures Valid() && mode == Select && mediaFile.None? && mediaKind.None? && mediaPreview.None?
      ensures musicFile.None? && musicUrl.None? && textContent == "" && fontSize == 24
      ensures textColor == "#FFFFFF" && backgroundColor == "#6366f1" && showFrame
      ensures privacy == "public" && !showFriendsList && selectedFriends == []
    {
      mode, mediaFile, mediaKind, mediaPreview := Select, None, None, None;
      musicFile, musicUrl := None, None;
      textContent, fontSize, textColor, backgroundColor, showFrame := "", 24, "#FFFFFF", "#6366f1", true;
      privacy, showFriendsList, selectedFriends := "public", false, [];
    }

    /** The text button of the choice screen. */
    method ChooseText()
      requires Valid()
      modifies this
      ensures Valid() && mode == TextMode
      ensures mediaFile == old(mediaFile) && musicFile == old(musicFile) && textContent == old(textContent)
      ensures privacy == old(privacy) && selectedFriends == old(selectedFriends)
    {
      mode := TextMode;
    }

    /** The back button of both editors: the choice screen again, the draft kept. */
    method Back()
      requires Valid()
      modifies this
      ensures Valid() && mode == Select
      ensures mediaFile == old(mediaFile) && musicFile == old(musicFile) && textContent == old(textContent)
      ensures privacy == old(privacy) && selectedFriends == old(selectedFriends)
    {
      mode := Select;
    }

    /** The audience radio buttons: the chosen value is kept, and choosing `custom` opens
        the friend list. */
    method ChoosePrivacy(value: string)
      requires Valid()
      modifies this
      ensures Valid() && privacy == value
      ensures showFriendsList == (value == "custom" || old(showFriendsList))
      ensures FriendListVisible() <==> value == "custom"
      ensures mode == old(mode) && selectedFriends == old(selectedFriends) && mediaFile == old(mediaFile)
    {
      privacy := value;
      if value == "custom" {
        showFriendsList := true;
      }
    }

    /** Whether the friend list is on screen. */
    predicate FriendListVisible()
      reads this
    {
      privacy == "custom" && showFriendsList
    }

    /** `toggleFriendSelection`: an id that is not a positive integer is ignored; any other
        id is added to the selection or removed from it. */
    method ToggleFriendSelection(friendId: NumberValue)
      requires Valid()
      modifies this
      ensures Valid()
      ensures friendId.NotInteger? || friendId.value <= 0 ==> selectedFriends == old(selectedFriends)
      ensures friendId.IntValue? && friendId.value > 0 ==>
        selectedFriends == Toggled(old(selectedFriends), friendId.value)
      ensures mode == old(mode) && mediaFile == old(mediaFile) && mediaKind == old(mediaKind)
      ensures mediaPreview == old(mediaPreview) && musicFile == old(musicFile) && privacy == old(privacy)
    {
      if friendId.NotInteger? || friendId.value <= 0 {
        return;
      }
      ToggledDistinct(selectedFriends, friendId.value);
      selectedFriends := Toggled(selectedFriends, friendId.value);
    }

    /** `handleMediaUpload`: without a file nothing happens; a file that is neither a video
        nor an image is refused; otherwise the dialog switches to the media screen with the
        file and its preview `preview`, and the previous preview is released (`revoked`). */
    method HandleMediaUpload(file: Option<File>, preview: string) returns (accepted: bool, revoked: Option<string>)
      requires Valid()
      modifies this
      ensures Valid()
      ensures accepted <==> (file.Some? &&
        (StartsWith(file.value.mimeType, "video/") || StartsWith(file.value.mimeType, "image/")))
      ensures !accepted ==> (revoked.None? && mode == old(mode) && mediaFile == old(mediaFile) &&
        mediaKind == old(mediaKind) && mediaPreview == old(mediaPreview))
      ensures accepted ==> (mode == MediaMode && mediaFile == file && mediaPreview == Some(preview) &&
        revoked == old(mediaPreview) &&
        mediaKind == Some(if StartsWith(file.value.mimeType, "video/") then Video else Image))
      ensures selectedFriends == old(selectedFriends) && musicFile == old(musicFile) && musicUrl == old(musicUrl)
      ensures textContent == old(textContent) && privacy == old(privacy)
    {
      revoked := None;
      if file.None? {
        return false, None;
      }
      var isVideo := StartsWith(file.value.mimeType, "video/");
      var isImage := StartsWith(file.value.mimeType, "image/");
      if !isVideo && !isImage {
        return false, None;
      }
      revoked := mediaPreview;
      mediaFile := file;
      mediaKind := Some(if isVideo then Video else Image);
      mediaPreview := Some(preview);
      mode := MediaMode;
      accepted := true;
    }

    /** `handleMusicUpload`: only an audio file is kept, with its object URL `url`. */
    method HandleMusicUpload(file: Option<File>, url: string) returns (accepted: bool)
      requires Valid()
      modifies this
      ensures Valid()
      ensures accepted <==> file.Some? && StartsWith(file.value.mimeType, "audio/")
      ensures accepted ==> musicFile == file && musicUrl == Some(url)
      ensures !accepted ==> musicFile == old(musicFile) && musicUrl == old(musicUrl)
      ensures mode == old(mode) && mediaFile == old(mediaFile) && mediaKind == old(mediaKind)
      ensures mediaPreview == old(mediaPreview) && selectedFriends == old(selectedFriends)
      ensures textContent == old(textContent) && privacy == old(privacy)
    {
      if file.None? || !StartsWith(file.value.mimeType, "audio/") {
        return false;
      }
      musicFile := file;
      musicUrl := Some(url);
      accepted := true;
    }

    /** The viewers sent with the story: the selection, for a custom audience only. */
    function AllowedViewers(): (v: Option<seq<int>>)
      reads this
      ensures v.Some? <==> privacy == "custom"
      ensures v.Some? ==> v.value == selectedFriends
    {
      if privacy == "custom" then Some(selectedFriends) else None
    }

    /** Whether the post button can be pressed: the text screen needs some text, the media
        screen only that nothing is being posted; the choice screen has no such button. */
    function CanSubmit(loading: bool): (b: bool)
      reads this
      ensures b ==> !loading && mode != Select
      ensures mode == TextMode ==> (b <==> !loading && textContent != "")
      ensures mode == MediaMode ==> (b <==> !loading)
    {
      match mode
      case Select => false
      case TextMode => !loading && textContent != ""
      case MediaMode => !loading
    }

    /** `handleSubmit` at time `now` (in milliseconds). `mediaAnswer` and `musicAnswer` are
        the URLs the upload endpoint answers with, `None` for a failed upload, and
        `posted` says whether the story request succeeds. Any failure leaves the dialog
        open. On the choice screen nothing is sent and the dialog still closes. */
    function Submit(now: int, mediaAnswer: Option<string>, musicAnswer: Option<string>, posted: bool): (s: Submission)
      reads this
      requires Valid()
      ensures mode == Select ==> s == Submission([], None, true)
      ensures mode == TextMode ==> s.uploads == [] && s.request.Some? && s.closes == posted
      ensures mode == MediaMode ==> |s.uploads| >= 1 && s.uploads[0] == mediaFile.value
      ensures mode == MediaMode && mediaAnswer.None? ==> s == Submission([mediaFile.value], None, false)
      ensures mode == MediaMode && mediaAnswer.Some? && musicFile.Some? ==>
        s.uploads == [mediaFile.value, musicFile.value] &&
        (musicAnswer.None? ==> s.request.None? && !s.closes)
      ensures s.request.Some? ==> s.request.value.expiresAt == now + DayMs
      ensures s.request.Some? ==> s.request.value.privacy == privacy && s.request.value.allowedViewers == AllowedViewers()
      ensures s.request.Some? && s.request.value.TextStory? ==>
        s.request.value.mediaType == "text" && s.request.value.mediaUrl == "text" && s.request.value.caption == Some(textContent)
      ensures s.request.Some? && s.request.value.MediaStory? ==>
        Some(s.request.value.mediaUrl) == mediaAnswer &&
        s.request.value.mediaType == (if mediaKind == Some(Video) then "video" else "image") &&
        s.request.value.musicUrl == (if musicFile.Some? then musicAnswer else None) &&
        s.request.value.caption == (if textContent == "" then None else Some(textContent))
      ensures s.closes ==> mode == Select || (s.request.Some? && posted)
    {
      var expiresAt := now + DayMs;
      match mode
      case Select => Submission([], None, true)
      case TextMode =>
        var r := TextStory("text", "text", expiresAt, Some(textContent), backgroundColor, textColor, fontSize, showFrame,
          privacy, AllowedViewers());
        Submission([], Some(r), posted)
      case MediaMode =>
        if mediaAnswer.None? then Submission([mediaFile.value], None, false)
        else
          var uploads := if musicFile.Some? then [mediaFile.value, musicFile.value] else [mediaFile.value];
          if musicFile.Some? && musicAnswer.None? then Submission(uploads, None, false)
          else
            var r := MediaStory(if mediaKind == Some(Video) then "video" else "image", mediaAnswer.value,
              if musicFile.Some? then musicAnswer else None, expiresAt,
              if textContent == "" then None else Some(textContent), privacy, AllowedViewers());
            Submission(uploads, Some(r), posted)
    }
  }

  /** A media type accepted as a story is never also an audio type, so a picked file is
      either media or music, not both. */
  lemma MediaIsNotMusic(t: string)
    requires StartsWith(t, "video/") || StartsWith(t, "image/")
    ensures !StartsWith(t, "audio/")
  {
    assert t[0] == t[..6][0];
  }
}
