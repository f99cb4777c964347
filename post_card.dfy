/** The post card of the frontend: the media-list parser, the URL normaliser, the upload
    response reader, the image-list editing of the edit form, the like counter and the
    edit-form save rule. */
module PostCard {
  import opened Wrappers
  import opened Text
  import Seqs
  import Json

  function TrimAll(xs: seq<string>): (r: seq<string>)
    ensures |r| == |xs| && forall k :: 0 <= k < |xs| ==> r[k] == Trim(xs[k])
  {
    seq(|xs|, k requires 0 <= k < |xs| => Trim(xs[k]))
  }

  function NonBlank(): string -> bool {
    (s: string) => s != ""
  }

  /** The media of a post as the card receives it: an array, a `;`-joined string, or
      anything else. */
  datatype RawImages = ImageArray(items: seq<string>) | ImageText(text: string) | NoImages

  /** A string that `parseImages` may produce: non-empty and trimmed. */
  predicate Clean(s: string) {
    s != "" && Trim(s) == s
  }

  /** `parseImages`: the trimmed non-empty entries of the array or of the `;`-split
      string; anything else gives no image. */
  function ParseImages(raw: RawImages): (r: seq<string>)
    ensures raw.NoImages? ==> r == []
    ensures forall k :: 0 <= k < |r| ==> Clean(r[k])
    ensures raw.ImageArray? ==> forall k :: 0 <= k < |raw.items| && Trim(raw.items[k]) != "" ==>
      Trim(raw.items[k]) in r
  {
    var parts := match raw
      case ImageArray(items) => TrimAll(items)
      case ImageText(text) => TrimAll(Split(text, ';'))
      case NoImages => [];
    var r := Seqs.Filter(parts, NonBlank());
    forall k | 0 <= k < |r| ensures Clean(r[k]) {
      assert r[k] in parts;
      var j :| 0 <= j < |parts| && parts[j] == r[k];
      TrimIdempotent(if raw.ImageArray? then raw.items[j] else if raw.ImageText? then Split(raw.text, ';')[j] else "");
    }
    if raw.ImageArray? then
      assert forall k :: 0 <= k < |raw.items| ==> parts[k] == Trim(raw.items[k]);
      r
    else r
  }

  /** The list an edit saves is the list the card shows again: a `;`-join of clean
      entries without `;` parses back to the same entries. */
  lemma {:induction false} ParseJoined(images: seq<string>)
    requires |images| >= 1
    requires forall k :: 0 <= k < |images| ==> Clean(images[k]) && ';' !in images[k]
    ensures ParseImages(ImageText(Join(images, ";"))) == images
  {
    JoinSplit(images, ';');
    assert Split(Join(images, ";"), ';') == images;
    assert TrimAll(images) == images;
    Seqs.FilterAll(images, NonBlank());
  }

  /** `/^https?:\/\//i`: a case-insensitive prefix test. */
  predicate StartsWithIgnoringCase(s: string, p: string) {
    |p| <= |s| && ToLower(s[..|p|]) == p
  }

  predicate HasScheme(s: string) {
    StartsWithIgnoringCase(s, "http://") || StartsWithIgnoringCase(s, "https://")
  }

  /** `toAbsoluteUrl`: the trimmed URL; blank stays blank, an `http(s)` URL is kept, a
      protocol-relative one gets `http:`, a root path gets the server origin, and anything
      else gets the origin and a `/`. */
  function ToAbsoluteUrl(origin: string, u: Option<string>): (r: string)
    ensures var s := Trim(u.GetOr(""));
      (s == "" ==> r == "") &&
      (s != "" && HasScheme(s) ==> r == s) &&
      (s != "" && !HasScheme(s) && StartsWith(s, "//") ==> r == "http:" + s) &&
      (s != "" && !HasScheme(s) && !StartsWith(s, "//") && StartsWith(s, "/") ==> r == origin + s) &&
      (s != "" && !HasScheme(s) && !StartsWith(s, "/") ==> r == origin + "/" + s)
  {
    var s := Trim(u.GetOr(""));
    if s == "" then ""
    else if HasScheme(s) then s
    else if StartsWith(s, "//") then "http:" + s
    else if StartsWith(s, "/") then origin + s
    else origin + "/" + s
  }

  /** The server origin is an `http` or `https` URL. */
  predicate GoodOrigin(origin: string) {
    StartsWith(origin, "http://") || StartsWith(origin, "https://")
  }

  lemma SchemeOfPrefix(r: string, p: string)
    requires StartsWith(p, "http://") || StartsWith(p, "https://")
    requires StartsWith(r, p)
    ensures HasScheme(r)
  {
    if StartsWith(p, "http://") {
      assert r[..7] == p[..7] == "http://";
      assert ToLower("http://") == "http://";
    } else {
      assert r[..8] == p[..8] == "https://";
      assert ToLower("https://") == "https://";
    }
  }

  /** Normalising twice is normalising once. */
  lemma ToAbsoluteUrlIdempotent(origin: string, u: Option<string>)
    requires GoodOrigin(origin)
    ensures ToAbsoluteUrl(origin, Some(ToAbsoluteUrl(origin, u))) == ToAbsoluteUrl(origin, u)
  {
    var s := Trim(u.GetOr(""));
    var r := ToAbsoluteUrl(origin, u);
    var i, j := TrimShape(u.GetOr(""));
    if s != "" {
      assert !IsSpace(r[|r| - 1]) by { assert r[|r| - 1] == s[|s| - 1]; }
      if HasScheme(s) {
        TrimIdempotent(u.GetOr(""));
      } else if StartsWith(s, "//") {
        assert StartsWith(r, "http://") by { assert r[..7] == "http:" + s[..2]; }
        SchemeOfPrefix(r, "http://");
        TrimNoop(r);
      } else if StartsWith(s, "/") {
        assert StartsWith(r, origin) by { assert r[..|origin|] == origin; }
        assert r[0] == origin[0] == 'h';
        SchemeOfPrefix(r, origin);
        TrimNoop(r);
      } else {
        assert StartsWith(r, origin) by { assert r[..|origin|] == origin; }
        assert r[0] == origin[0] == 'h';
        SchemeOfPrefix(r, origin);
        TrimNoop(r);
      }
    }
  }

  /** `f?.url || f?.path || f?.location` for one entry of `files`. */
  function FileLocation(f: Json.Value): Option<Json.Value> {
    var url := Json.Member(f, "url");
    var path := Json.Member(f, "path");
    if url.Some? && Json.Truthy(url.value) then url
    else if path.Some? && Json.Truthy(path.value) then path
    else Json.Member(f, "location")
  }

  predicate IsString(v: Option<Json.Value>) { v.Some? && v.value.Str? }

  function FileLocations(files: seq<Json.Value>): (r: seq<Json.Value>)
    ensures forall k :: 0 <= k < |r| ==> Json.Truthy(r[k])
    decreases |files|
  {
    if |files| == 0 then []
    else
      var loc := FileLocation(files[0]);
      (if loc.Some? && Json.Truthy(loc.value) then [loc.value] else []) + FileLocations(files[1..])
  }

  /** `extractUploadUrls`: the first of these that applies — a falsy response gives
      nothing, a string is itself, an array is itself, then the `urls` array, the `url`
      string, the `path` string, the `file` string or its `url` or `path` string, and the
      locations of `files`. */
  function ExtractUploadUrls(data: Option<Json.Value>): (r: seq<Json.Value>)
    ensures (data.None? || !Json.Truthy(data.value)) ==> r == []
    ensures data.Some? && data.value.Str? && Json.Truthy(data.value) ==> r == [data.value]
    ensures data.Some? && data.value.Arr? ==> r == data.value.items
    ensures data.Some? && data.value.Obj? ==>
      var urls := Json.Member(data.value, "urls");
      (urls.Some? && urls.value.Arr? ==> r == urls.value.items) &&
      (!(urls.Some? && urls.value.Arr?) && IsString(Json.Member(data.value, "url")) ==>
        r == [Json.Member(data.value, "url").value])
  {
    if data.None? || !Json.Truthy(data.value) then []
    else
      var d := data.value;
      if d.Str? then [d]
      else if d.Arr? then d.items
      else
        var urls := Json.Member(d, "urls");
        var url := Json.Member(d, "url");
        var path := Json.Member(d, "path");
        var file := Json.Member(d, "file");
        var files := Json.Member(d, "files");
        if urls.Some? && urls.value.Arr? then urls.value.items
        else if IsString(url) then [url.value]
        else if IsString(path) then [path.value]
        else if file.Some? && Json.Truthy(file.value) && file.value.Str? then [file.value]
        else if file.Some? && Json.Truthy(file.value) && IsString(Json.Member(file.value, "url")) then
          [Json.Member(file.value, "url").value]
        else if file.Some? && Json.Truthy(file.value) && IsString(Json.Member(file.value, "path")) then
          [Json.Member(file.value, "path").value]
        else if files.Some? && files.value.Arr? then FileLocations(files.value.items)
        else []
  }

  /** An object response yields only strings, or entries of one of its arrays, and the
      `files` branch yields only truthy locations. */
  lemma ExtractFromFiles(d: Json.Value)
    requires d.Obj?
    requires Json.Member(d, "urls").None? && Json.Member(d, "url").None? && Json.Member(d, "path").None?
    requires Json.Member(d, "file").None?
    requires Json.Member(d, "files").Some? && Json.Member(d, "files").value.Arr?
    ensures var r := ExtractUploadUrls(Some(d));
      r == FileLocations(Json.Member(d, "files").value.items) &&
      forall k :: 0 <= k < |r| ==> Json.Truthy(r[k])
  {}

  // ---------------------------------------------------------------- edit form images

  /** `moveEditImage`: take the image at `from` out and put it back at `to`. An index
      outside the list, or `to == from`, leaves the list alone. The callers pass the index
      of a listed image as `from`. */
  function MoveEditImage(images: seq<string>, from: int, to: int): (r: seq<string>)
    requires 0 <= from < |images|
    ensures multiset(r) == multiset(images) && |r| == |images|
    ensures (to < 0 || to >= |images| || from == to) ==> r == images
    ensures 0 <= to < |images| ==> r[to] == images[from]
  {
    if to < 0 || to >= |images| || from == to then images
    else
      var rest := images[..from] + images[from + 1..];
      var r := rest[..to] + [images[from]] + rest[to..];
      MovePermutes(images, from, to);
      r
  }

  lemma MovePermutes(images: seq<string>, from: int, to: int)
    requires 0 <= from < |images| && 0 <= to < |images|
    ensures var rest := images[..from] + images[from + 1..];
      multiset(rest[..to] + [images[from]] + rest[to..]) == multiset(images)
  {
    var rest := images[..from] + images[from + 1..];
    assert images == images[..from] + [images[from]] + images[from + 1..];
    assert rest == rest[..to] + rest[to..];
    var A, B, X := multiset(rest[..to]), multiset(rest[to..]), multiset{images[from]};
    assert multiset(rest[..to] + [images[from]] + rest[to..]) == A + X + B;
    var P, Q := multiset(images[..from]), multiset(images[from + 1..]);
    assert multiset(rest) == A + B && multiset(rest) == P + Q;
    assert multiset(images) == P + X + Q;
    assert A + X + B == (A + B) + X;
    assert P + X + Q == (P + Q) + X;
  }

  /** The images between the two positions shift by one, the others stay. */
  lemma MoveEditImageShape(images: seq<string>, from: int, to: int, k: int)
    requires 0 <= from < |images| && 0 <= to < |images| && from != to && 0 <= k < |images|
    ensures var r := MoveEditImage(images, from, to);
      (k < from && k < to) || (k > from && k > to) ==> r[k] == images[k]
    ensures var r := MoveEditImage(images, from, to);
      from < to && from <= k < to ==> r[k] == images[k + 1]
    ensures var r := MoveEditImage(images, from, to);
      to < from && to < k <= from ==> r[k] == images[k - 1]
  {}

  /** Moving an image back undoes the move. */
  lemma MoveEditImageBack(images: seq<string>, from: int, to: int)
    requires 0 <= from < |images| && 0 <= to < |images|
    ensures MoveEditImage(MoveEditImage(images, from, to), to, from) == images
  {
    if from != to {
      var b := MoveEditImage(MoveEditImage(images, from, to), to, from);
      forall k | 0 <= k < |images| ensures b[k] == images[k] {
        MoveBackAt(images, from, to, k);
      }
    }
  }

  lemma MoveBackAt(images: seq<string>, from: int, to: int, k: int)
    requires 0 <= from < |images| && 0 <= to < |images| && from != to && 0 <= k < |images|
    ensures MoveEditImage(MoveEditImage(images, from, to), to, from)[k] == images[k]
  {
    var r := MoveEditImage(images, from, to);
    if k != from {
      MoveEditImageShape(r, to, from, k);
      if from < to && from < k <= to {
        MoveEditImageShape(images, from, to, k - 1);
      } else if to < from && to <= k < from {
        MoveEditImageShape(images, from, to, k + 1);
      } else {
        MoveEditImageShape(images, from, to, k);
      }
    }
  }

  /** `removeEditImage`: every image except the one at `idx`. */
  function RemoveEditImage(images: seq<string>, idx: int): (r: seq<string>)
    ensures 0 <= idx < |images| ==> |r| == |images| - 1 && multiset(r) == multiset(images) - multiset{images[idx]}
    ensures 0 <= idx < |images| ==> forall k :: 0 <= k < |r| ==> r[k] == images[if k < idx then k else k + 1]
    ensures !(0 <= idx < |images|) ==> r == images
  {
    if 0 <= idx < |images| then
      assert images == images[..idx] + [images[idx]] + images[idx + 1..];
      images[..idx] + images[idx + 1..]
    else images
  }

  /** `addImageByUrl`: a blank entry changes nothing (`None`); otherwise the normalised URL
      is appended unless it is already listed. */
  function AddImageByUrl(origin: string, images: seq<string>, entry: string): (r: Option<seq<string>>)
    ensures r.None? <==> Trim(entry) == ""
    ensures r.Some? ==> var abs := ToAbsoluteUrl(origin, Some(Trim(entry)));
      abs != "" && abs in r.value && (abs in images ==> r.value == images) &&
      (abs !in images ==> r.value == images + [abs])
  {
    var raw := Trim(entry);
    if raw == "" then None
    else
      var abs := ToAbsoluteUrl(origin, Some(raw));
      TrimIdempotent(entry);
      Some(if abs in images then images else images + [abs])
  }

  /** Adding by URL never introduces a duplicate. */
  lemma AddImageKeepsDistinct(origin: string, images: seq<string>, entry: string)
    requires Seqs.Distinct(images)
    requires AddImageByUrl(origin, images, entry).Some?
    ensures Seqs.Distinct(AddImageByUrl(origin, images, entry).value)
  {
    var abs := ToAbsoluteUrl(origin, Some(Trim(entry)));
    var r := AddImageByUrl(origin, images, entry).value;
    if abs !in images {
      forall i, j | 0 <= i < j < |r| ensures r[i] != r[j] {
        if j == |images| { assert r[i] == images[i]; }
      }
    }
  }

  // ---------------------------------------------------------------- like counter

  /** The like counter after the server answers a like toggle: up by one on `liked`,
      otherwise down by one but never below zero. */
  function LikeCount(count: int, action: string): (r: int)
    ensures action == "liked" ==> r == count + 1
    ensures action != "liked" ==> r >= 0 && (count > 0 ==> r == count - 1) && (count <= 0 ==> r == 0)
  {
    if action == "liked" then count + 1 else if count - 1 > 0 then count - 1 else 0
  }

  /** A like followed by an unlike restores a non-negative count, and a counter that starts
      non-negative stays non-negative. */
  lemma LikeThenUnlike(count: int, action: string)
    requires count >= 0
    ensures LikeCount(LikeCount(count, "liked"), "unliked") == count
    ensures LikeCount(count, action) >= 0
  {}

  // ---------------------------------------------------------------- saving an edit

  /** The body `handleEditPost` sends. */
  datatype EditPayload = EditPayload(content: string, media: Option<string>, status: string)

  const EmptyPost := "Bài viết không được để trống"

  /** `handleEditPost`: trimmed text and the trimmed non-empty images; with neither the
      edit is refused, otherwise the images are sent `;`-joined, or `null` when there are
      none. */
  function SaveEdit(content: Option<string>, images: seq<string>, status: string): (r: Result<EditPayload, string>)
    ensures r.Err? <==> (Trim(content.GetOr("")) == "" && Seqs.Filter(TrimAll(images), NonBlank()) == [])
    ensures r.Err? ==> r.error == EmptyPost
    ensures r.Ok? ==> r.value.content == Trim(content.GetOr("")) && r.value.status == status
    ensures r.Ok? ==> var kept := Seqs.Filter(TrimAll(images), NonBlank());
      (kept == [] <==> r.value.media.None?) && (kept != [] ==> r.value.media == Some(Join(kept, ";")))
  {
    var text := Trim(content.GetOr(""));
    var kept := Seqs.Filter(TrimAll(images), NonBlank());
    if text == "" && kept == [] then Err(EmptyPost)
    else
      var joined := Join(kept, ";");
      assert kept != [] ==> joined != "" by {
        if kept != [] { JoinStartsWithFirst(kept); assert NonBlank()(kept[0]); }
      }
      Ok(EditPayload(text, if joined == "" then None else Some(joined), status))
  }

  lemma JoinStartsWithFirst(parts: seq<string>)
    requires |parts| >= 1
    ensures |Join(parts, ";")| >= |parts[0]|
  {}

  /** The saved media, read back by `parseImages`, is the list of images the edit kept,
      as long as no image URL contains `;`. */
  lemma SavedMediaParsesBack(content: Option<string>, images: seq<string>, status: string)
    requires forall k :: 0 <= k < |images| ==> ';' !in images[k]
    requires SaveEdit(content, images, status).Ok? && SaveEdit(content, images, status).value.media.Some?
    ensures ParseImages(ImageText(SaveEdit(content, images, status).value.media.value)) ==
      Seqs.Filter(TrimAll(images), NonBlank())
  {
    var kept := Seqs.Filter(TrimAll(images), NonBlank());
    forall k | 0 <= k < |kept| ensures Clean(kept[k]) && ';' !in kept[k] {
      assert kept[k] in TrimAll(images);
      var j :| 0 <= j < |images| && TrimAll(images)[j] == kept[k];
      TrimIdempotent(images[j]);
      var i0, j0 := TrimShape(images[j]);
      assert kept[k] == images[j][i0..j0];
    }
    ParseJoined(kept);
  }
}
