/** `getFullImageUrl`, the image URL normaliser of the frontend. */
module ImageHelper {
  import opened Wrappers
  import opened Text

  const DefaultImage := "/default.jpg"

  /** A URL that already names its scheme and host, or a root-relative path. */
  predicate IsFull(url: string) {
    StartsWith(url, "http://") || StartsWith(url, "https://") || StartsWith(url, "/")
  }

  /** An empty or missing URL becomes the default image, a full URL or a root-relative
      path is kept, and anything else is taken to be a host and gets `https://`. */
  function GetFullImageUrl(url: Option<string>): (r: string)
    ensures (url.None? || url.value == "") ==> r == DefaultImage
    ensures url.Some? && url.value != "" && IsFull(url.value) ==> r == url.value
    ensures url.Some? && url.value != "" && !IsFull(url.value) ==> r == "https://" + url.value
    ensures IsFull(r)
  {
    if url.None? || url.value == "" then DefaultImage
    else if StartsWith(url.value, "http://") || StartsWith(url.value, "https://") then url.value
    else if StartsWith(url.value, "/") then url.value
    else
      assert ("https://" + url.value)[..8] == "https://";
      "https://" + url.value
  }

  /** Normalising twice is normalising once. */
  lemma GetFullImageUrlIdempotent(url: Option<string>)
    ensures GetFullImageUrl(Some(GetFullImageUrl(url))) == GetFullImageUrl(url)
  {
    var r := GetFullImageUrl(url);
    assert r != "" by { assert StartsWith(r, "/") || StartsWith(r, "http://") || StartsWith(r, "https://"); }
  }

  /** The normaliser is the identity exactly on full URLs. */
  lemma GetFullImageUrlFixed(url: string)
    ensures GetFullImageUrl(Some(url)) == url <==> IsFull(url)
  {
    if url == "" {
      assert DefaultImage != url;
    } else if !IsFull(url) {
      assert |"https://" + url| != |url|;
    }
  }
}
