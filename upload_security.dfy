/** The upload security middleware: the file filter every upload configuration uses, the
    magic-number check on uploaded buffers, the daily upload quota and the mapping of
    upload errors to responses. */
module UploadSecurity {
  import opened Wrappers
  import Text
  import Ownership

  const ImageTypes: seq<string> := ["image/jpeg", "image/jpg", "image/png", "image/gif", "image/webp"]
  const VideoTypes: seq<string> := ["video/mp4", "video/mpeg", "video/quicktime", "video/webm"]
  const AudioTypes: seq<string> := ["audio/mpeg", "audio/mp3", "audio/wav", "audio/ogg"]
  const DocumentTypes: seq<string> :=
    ["application/pdf", "application/msword",
     "application/vnd.openxmlformats-officedocument.wordprocessingml.document"]

  const DangerousExtensions: seq<string> :=
    [".exe", ".bat", ".cmd", ".com", ".pif", ".scr", ".vbs", ".js", ".jar", ".msi", ".app",
     ".deb", ".rpm", ".sh", ".bash", ".php", ".asp", ".aspx", ".jsp"]

  /* ---------- path.extname ---------- */

  function StripTrailingSlashes(s: string): (r: string)
    ensures |r| <= |s| && r == s[..|r|]
    ensures r == "" || r[|r| - 1] != '/'
    decreases |s|
  {
    if s != "" && s[|s| - 1] == '/' then StripTrailingSlashes(s[..|s| - 1]) else s
  }

  /** The characters after the last `/`. */
  function LastSegment(s: string): (r: string)
    ensures |r| <= |s| && r == s[|s| - |r|..]
    ensures '/' !in r
    ensures |r| < |s| ==> s[|s| - |r| - 1] == '/'
    decreases |s|
  {
    if s == "" || s[|s| - 1] == '/' then "" else LastSegment(s[..|s| - 1]) + [s[|s| - 1]]
  }

  /** The index of the last `.`. */
  function LastDot(s: string): (r: Option<nat>)
    ensures r.None? <==> '.' !in s
    ensures r.Some? ==> r.value < |s| && s[r.value] == '.' && '.' !in s[r.value + 1..]
    decreases |s|
  {
    if s == "" then None
    else if s[|s| - 1] == '.' then Some(|s| - 1)
    else
      var r := LastDot(s[..|s| - 1]);
      assert s == s[..|s| - 1] + [s[|s| - 1]];
      assert r.Some? ==> s[r.value + 1..] == s[..|s| - 1][r.value + 1..] + [s[|s| - 1]];
      r
  }

  /** `path.extname`: from the last `.` of the last segment to its end; empty when the
      segment has no `.`, when that `.` is its first character, or for `..`. */
  function Extname(name: string): (ext: string)
    ensures ext == "" || (ext[0] == '.' && '.' !in ext[1..] && '/' !in ext)
  {
    var seg := LastSegment(StripTrailingSlashes(name));
    match LastDot(seg)
    case None => ""
    case Some(i) => if i == 0 || seg == ".." then "" else seg[i..]
  }

  /** The `/[<>:"|?*\x00-\x1f]/` test. */
  predicate SuspiciousChar(c: char) {
    c == '<' || c == '>' || c == ':' || c == '"' || c == '|' || c == '?' || c == '*' || c as int < 0x20
  }

  predicate Suspicious(name: string) { exists i :: 0 <= i < |name| && SuspiciousChar(name[i]) }

  predicate IsDangerous(name: string) { Text.ToLower(Extname(name)) in DangerousExtensions }

  datatype FilterResult = Accept | Refuse(message: string)

  const SecurityMessage: string := "File type not allowed for security reasons"

  function InvalidTypeMessage(allowed: seq<string>): string {
    "Invalid file type. Allowed types: " + Text.Join(allowed, ", ")
  }

  /** `createFileFilter(allowedTypes)` applied to one file: the dangerous extension is
      checked first, then the MIME type, then the filename's characters. */
  function FileFilter(allowed: seq<string>, name: string, mimetype: string): (r: FilterResult)
    ensures r == Accept <==> !IsDangerous(name) && mimetype in allowed && !Suspicious(name)
    ensures IsDangerous(name) ==> r == Refuse(SecurityMessage)
    ensures !IsDangerous(name) && mimetype !in allowed ==> r == Refuse(InvalidTypeMessage(allowed))
    ensures !IsDangerous(name) && mimetype in allowed && Suspicious(name) ==> r == Refuse("Invalid filename")
  {
    if IsDangerous(name) then Refuse(SecurityMessage)
    else if mimetype !in allowed then Refuse(InvalidTypeMessage(allowed))
    else if Suspicious(name) then Refuse("Invalid filename")
    else Accept
  }

  /** A wider allowlist accepts every file a narrower one does. */
  lemma FilterMonotone(narrow: seq<string>, wide: seq<string>, name: string, mimetype: string)
    requires forall t :: t in narrow ==> t in wide
    requires FileFilter(narrow, name, mimetype) == Accept
    ensures FileFilter(wide, name, mimetype) == Accept
  {}

  /** The extension of a name without `/` that ends in `.` followed by characters that
      are not `.`: that suffix, unless the `.` is the name's first character. */
  lemma ExtnameOfSuffix(name: string, n: nat)
    requires '/' !in name && 2 <= n <= |name| && name[|name| - n] == '.'
    requires forall k :: |name| - n < k < |name| ==> name[k] != '.'
    ensures Extname(name) == (if n == |name| then "" else name[|name| - n..])
  {
    assert name == "" || name[|name| - 1] != '/';
    assert StripTrailingSlashes(name) == name;
    var seg := LastSegment(name);
    assert seg == name;
    var d := LastDot(name);
    assert name[|name| - n] in name;
    assert d.Some? && d.value == |name| - n;
  }

  /** Every dangerous extension is a `.` followed by at least two characters none of which
      is a `.`. */
  lemma DangerousShape(d: string)
    requires d in DangerousExtensions
    ensures |d| >= 3 && d[0] == '.' && forall k :: 1 <= k < |d| ==> d[k] != '.'
  {}

  lemma ToLowerSuffix(s: string, i: nat)
    requires i <= |s|
    ensures Text.ToLower(s[i..]) == Text.ToLower(s)[i..]
  {
    Text.ToLowerLength(s);
    Text.ToLowerLength(s[i..]);
  }

  /** An accepted name without `/` ends in a dangerous extension (any letter case) only
      when it is that extension alone, a hidden file like `.sh` whose `extname` is
      empty. */
  lemma AcceptedNotDangerous(allowed: seq<string>, name: string, mimetype: string, d: string)
    requires FileFilter(allowed, name, mimetype) == Accept
    requires '/' !in name && d in DangerousExtensions && Text.EndsWith(Text.ToLower(name), d)
    ensures Text.ToLower(name) == d
  {
    DangerousShape(d);
    var low := Text.ToLower(name);
    Text.ToLowerLength(name);
    var n := |d|;
    var start := |name| - n;
    assert low[start..] == d;
    assert forall k :: start <= k < |name| ==> low[k] == d[k - start];
    assert forall k :: start <= k < |name| ==> (name[k] == '.' <==> low[k] == '.');
    ExtnameOfSuffix(name, n);
    ToLowerSuffix(name, start);
    assert low == low[start..];
  }

  /* ---------- Upload configurations ---------- */

  datatype UploadConfig = UploadConfig(fileSize: nat, files: nat, allowed: seq<string>)

  const MiB: nat := 1024 * 1024

  const ImageUpload: UploadConfig := UploadConfig(10 * MiB, 5, ImageTypes)
  const VideoUpload: UploadConfig := UploadConfig(100 * MiB, 1, VideoTypes)
  const AudioUpload: UploadConfig := UploadConfig(20 * MiB, 1, AudioTypes)
  const DocumentUpload: UploadConfig := UploadConfig(25 * MiB, 10, DocumentTypes)
  const MediaUpload: UploadConfig := UploadConfig(100 * MiB, 10, ImageTypes + VideoTypes + AudioTypes)
  const AvatarUpload: UploadConfig := UploadConfig(5 * MiB, 1, ImageTypes)

  /** The general media upload accepts whatever the image, video and audio uploads accept,
      and the avatar upload is the image filter with a smaller size and count. */
  lemma ConfigsAgree(name: string, mimetype: string)
    ensures FileFilter(ImageUpload.allowed, name, mimetype) == Accept ==> FileFilter(MediaUpload.allowed, name, mimetype) == Accept
    ensures FileFilter(VideoUpload.allowed, name, mimetype) == Accept ==> FileFilter(MediaUpload.allowed, name, mimetype) == Accept
    ensures FileFilter(AudioUpload.allowed, name, mimetype) == Accept ==> FileFilter(MediaUpload.allowed, name, mimetype) == Accept
    ensures FileFilter(AvatarUpload.allowed, name, mimetype) == FileFilter(ImageUpload.allowed, name, mimetype)
    ensures AvatarUpload.fileSize < ImageUpload.fileSize && AvatarUpload.files < ImageUpload.files
  {
    if FileFilter(ImageUpload.allowed, name, mimetype) == Accept {
      FilterMonotone(ImageTypes, ImageTypes + VideoTypes + AudioTypes, name, mimetype);
    }
    if FileFilter(VideoUpload.allowed, name, mimetype) == Accept {
      FilterMonotone(VideoTypes, ImageTypes + VideoTypes + AudioTypes, name, mimetype);
    }
    if FileFilter(AudioUpload.allowed, name, mimetype) == Accept {
      FilterMonotone(AudioTypes, ImageTypes + VideoTypes + AudioTypes, name, mimetype);
    }
  }

  /* ---------- Magic numbers ---------- */

  newtype Byte = x: int | 0 <= x < 256

  function HexDigit(d: nat): char
    requires d < 16
  {
    if d < 10 then ('0' as int + d) as char else ('a' as int + d - 10) as char
  }

  function HexByte(b: Byte): string {
    [HexDigit((b as nat) / 16), HexDigit((b as nat) % 16)]
  }

  /** `buffer.toString('hex')`: two lower-case hex digits per byte. */
  function Hex(bytes: seq<Byte>): (h: string)
    ensures |h| == 2 * |bytes|
    decreases |bytes|
  {
    if bytes == [] then "" else HexByte(bytes[0]) + Hex(bytes[1..])
  }

  lemma {:induction false} HexAppend(a: seq<Byte>, b: seq<Byte>)
    ensures Hex(a + b) == Hex(a) + Hex(b)
    decreases |a|
  {
    if a != [] {
      assert (a + b)[0] == a[0] && (a + b)[1..] == a[1..] + b;
      HexAppend(a[1..], b);
      calc {
        Hex(a + b);
        HexByte(a[0]) + Hex(a[1..] + b);
        HexByte(a[0]) + (Hex(a[1..]) + Hex(b));
        (HexByte(a[0]) + Hex(a[1..])) + Hex(b);
      }
    } else {
      assert a + b == b;
    }
  }

  lemma HexByteInjective(x: Byte, y: Byte)
    requires HexByte(x) == HexByte(y)
    ensures x == y
  {
    assert HexByte(x)[0] == HexByte(y)[0] && HexByte(x)[1] == HexByte(y)[1];
    assert (x as nat) / 16 == (y as nat) / 16;
    assert (x as nat) % 16 == (y as nat) % 16;
  }

  lemma {:induction false} HexInjective(a: seq<Byte>, b: seq<Byte>)
    requires Hex(a) == Hex(b)
    ensures a == b
    decreases |a|
  {
    if a != [] {
      assert Hex(a)[..2] == HexByte(a[0]) && Hex(b)[..2] == HexByte(b[0]);
      HexByteInjective(a[0], b[0]);
      assert Hex(a)[2..] == Hex(a[1..]) && Hex(b)[2..] == Hex(b[1..]);
      HexInjective(a[1..], b[1..]);
    }
  }

  /** `buffer.toString('hex', 0, 4)`. */
  function FirstHex(buffer: seq<Byte>): string {
    Hex(if |buffer| < 4 then buffer else buffer[..4])
  }

  /** The keys of the `signatures` object. */
  const Signatures: seq<string> :=
    ["ffd8ffe0", "ffd8ffe1", "ffd8ffe2", "89504e47", "47494638", "52494646",
     "00000018", "00000020", "1a45dfa3", "fffb", "fff3", "494433"]

  /** The same signatures as bytes. */
  const SignatureBytes: seq<seq<Byte>> :=
    [[0xff, 0xd8, 0xff, 0xe0], [0xff, 0xd8, 0xff, 0xe1], [0xff, 0xd8, 0xff, 0xe2], [0x89, 0x50, 0x4e, 0x47],
     [0x47, 0x49, 0x46, 0x38], [0x52, 0x49, 0x46, 0x46], [0x00, 0x00, 0x00, 0x18], [0x00, 0x00, 0x00, 0x20],
     [0x1a, 0x45, 0xdf, 0xa3], [0xff, 0xfb], [0xff, 0xf3], [0x49, 0x44, 0x33]]

  lemma SignaturesAsBytes()
    ensures |SignatureBytes| == |Signatures|
    ensures forall i :: 0 <= i < |Signatures| ==> Hex(SignatureBytes[i]) == Signatures[i]
  {
    ImageSignatures();
    ContainerSignatures();
    AudioSignatures();
  }

  /** The three JPEG signatures and the PNG one. */
  lemma ImageSignatures()
    ensures forall i :: 0 <= i < 4 ==> Hex(SignatureBytes[i]) == Signatures[i]
  {
    Hex4(0xff, 0xd8, 0xff, 0xe0);
    Hex4(0xff, 0xd8, 0xff, 0xe1);
    Hex4(0xff, 0xd8, 0xff, 0xe2);
    Hex4(0x89, 0x50, 0x4e, 0x47);
  }

  /** GIF, RIFF and the two MP4 box headers. */
  lemma ContainerSignatures()
    ensures forall i :: 4 <= i < 8 ==> Hex(SignatureBytes[i]) == Signatures[i]
  {
    Hex4(0x47, 0x49, 0x46, 0x38);
    Hex4(0x52, 0x49, 0x46, 0x46);
    Hex4(0x00, 0x00, 0x00, 0x18);
    Hex4(0x00, 0x00, 0x00, 0x20);
  }

  /** WebM and the three MP3 signatures. */
  lemma AudioSignatures()
    ensures forall i :: 8 <= i < 12 ==> Hex(SignatureBytes[i]) == Signatures[i]
  {
    Hex4(0x1a, 0x45, 0xdf, 0xa3);
    Hex2(0xff, 0xfb);
    Hex2(0xff, 0xf3);
    Hex3(0x49, 0x44, 0x33);
  }

  lemma Hex2(x: Byte, y: Byte)
    ensures Hex([x, y]) == HexByte(x) + HexByte(y)
  {
    assert [x, y][1..] == [y];
    assert [y][1..] == [];
  }

  lemma Hex3(x: Byte, y: Byte, z: Byte)
    ensures Hex([x, y, z]) == HexByte(x) + HexByte(y) + HexByte(z)
  {
    assert [x, y, z][1..] == [y, z];
    Hex2(y, z);
  }

  lemma Hex4(w: Byte, x: Byte, y: Byte, z: Byte)
    ensures Hex([w, x, y, z]) == HexByte(w) + HexByte(x) + HexByte(y) + HexByte(z)
  {
    assert [w, x, y, z][1..] == [x, y, z];
    Hex3(x, y, z);
  }

  /** The loop over `Object.entries(signatures)` with its `break`: some key is a prefix of
      the hex text. The order in which the keys are tried does not matter. */
  predicate ValidSignature(hex: string) {
    exists i :: 0 <= i < |Signatures| && Text.StartsWith(hex, Signatures[i])
  }

  /** A buffer passes the signature test exactly when it begins with one of the known
      byte signatures. */
  lemma SignatureIffPrefix(buffer: seq<Byte>)
    ensures ValidSignature(FirstHex(buffer)) <==>
      exists i :: 0 <= i < |SignatureBytes| && |SignatureBytes[i]| <= |buffer| && buffer[..|SignatureBytes[i]|] == SignatureBytes[i]
  {
    SignaturesAsBytes();
    SignatureLengths();
    forall i | 0 <= i < |SignatureBytes|
      ensures Text.StartsWith(FirstHex(buffer), Signatures[i]) <==>
        (|SignatureBytes[i]| <= |buffer| && buffer[..|SignatureBytes[i]|] == SignatureBytes[i])
    {
      HexPrefixIff(buffer, SignatureBytes[i]);
    }
  }

  lemma SignatureLengths()
    ensures forall i :: 0 <= i < |SignatureBytes| ==> |SignatureBytes[i]| <= 4
  {
  }

  /** The hex of the first bytes starts with the hex of a signature of at most four bytes
      exactly when the buffer starts with that signature. */
  lemma HexPrefixIff(buffer: seq<Byte>, sig: seq<Byte>)
    requires |sig| <= 4
    ensures Text.StartsWith(FirstHex(buffer), Hex(sig)) <==> (|sig| <= |buffer| && buffer[..|sig|] == sig)
  {
    var head := if |buffer| < 4 then buffer else buffer[..4];
    var n := |sig|;
    if |sig| <= |buffer| && buffer[..n] == sig {
      assert head == sig + head[n..];
      HexAppend(sig, head[n..]);
    }
    if Text.StartsWith(FirstHex(buffer), Hex(sig)) {
      assert n <= |head|;
      assert head == head[..n] + head[n..];
      HexAppend(head[..n], head[n..]);
      assert FirstHex(buffer)[..2 * n] == Hex(head[..n]);
      HexInjective(head[..n], sig);
      assert buffer[..n] == head[..n];
    }
  }

  /** An uploaded file as multer hands it over; `buffer` is absent for disk storage. */
  datatype UploadedFile = UploadedFile(originalName: string, mimetype: string, buffer: Option<seq<Byte>>)

  /** The file that makes `validateFileBuffer` answer 400: an `image/` file whose first bytes
      match no signature. */
  predicate Fails(f: Option<UploadedFile>) {
    f.Some? && f.value.buffer.Some? && !ValidSignature(FirstHex(f.value.buffer.value)) &&
    Text.StartsWith(f.value.mimetype, "image/")
  }

  const CorruptMessage: string := "Invalid file format. File may be corrupted or fake."

  /** `req.files || [req.file]`. */
  function FilesOf(file: Option<UploadedFile>, files: Option<seq<Option<UploadedFile>>>): seq<Option<UploadedFile>> {
    if files.Some? then files.value else [file]
  }

  /** `validateFileBuffer`: no file at all passes; otherwise the files are checked in
      order and the first failing one answers 400. */
  method ValidateFileBuffer(file: Option<UploadedFile>, files: Option<seq<Option<UploadedFile>>>)
    returns (v: Ownership.Verdict)
    ensures v == Ownership.Next <==> ((file.None? && files.None?) ||
      forall k :: 0 <= k < |FilesOf(file, files)| ==> !Fails(FilesOf(file, files)[k]))
    ensures v != Ownership.Next ==> v == Ownership.Reject(400, CorruptMessage)
  {
    if file.None? && files.None? {
      return Ownership.Next;
    }
    var all := FilesOf(file, files);
    var i := 0;
    while i < |all|
      invariant 0 <= i <= |all|
      invariant forall k :: 0 <= k < i ==> !Fails(all[k])
    {
      var f := all[i];
      if f.Some? && f.value.buffer.Some? {
        var hex := FirstHex(f.value.buffer.value);
        var valid := false;
        var j := 0;
        while j < |Signatures|
          invariant 0 <= j <= |Signatures|
          invariant valid <==> exists s :: 0 <= s < j && Text.StartsWith(hex, Signatures[s])
        {
          if Text.StartsWith(hex, Signatures[j]) {
            valid := true;
            break;
          }
          j := j + 1;
        }
        if !valid && Text.StartsWith(f.value.mimetype, "image/") {
          return Ownership.Reject(400, CorruptMessage);
        }
      }
      i := i + 1;
    }
    v := Ownership.Next;
  }

  /* ---------- Daily quota ---------- */

  const QuotaTtlSeconds: int := 86400

  function QuotaKey(userId: int): string {
    "upload:quota:user:" + Text.IntToString(userId)
  }

  /** `parseInt(process.env.MAX_UPLOADS_PER_DAY) || 100`; `None` is `NaN`. */
  function MaxUploadsPerDay(parsed: Option<int>): (m: int)
    ensures parsed.Some? && parsed.value != 0 ==> m == parsed.value
    ensures parsed.None? || parsed.value == 0 ==> m == 100
  {
    if parsed.None? || parsed.value == 0 then 100 else parsed.value
  }

  const QuotaMessage: string := "Daily upload quota exceeded. Please try again tomorrow."

  /** `checkUploadQuota`: counts the upload, starts the 24-hour window on the first, and
      refuses with 429 beyond the maximum; a cache that throws lets the upload through. */
  method CheckUploadQuota(cache: Ownership.CounterCache, userId: int, parsed: Option<int>, cacheDown: bool)
    returns (v: Ownership.Verdict)
    modifies cache
    ensures cacheDown ==> v == Ownership.Next && cache.counts == old(cache.counts) && cache.ttl == old(cache.ttl)
    ensures !cacheDown ==>
      var key := QuotaKey(userId);
      var n := (if key in old(cache.counts) then old(cache.counts)[key] else 0) + 1;
      cache.counts == old(cache.counts)[key := n] &&
      cache.ttl == (if n == 1 then old(cache.ttl)[key := QuotaTtlSeconds] else old(cache.ttl)) &&
      (v == Ownership.Next <==> n <= MaxUploadsPerDay(parsed)) &&
      (v != Ownership.Next ==> v == Ownership.Reject(429, QuotaMessage))
  {
    if cacheDown {
      return Ownership.Next;
    }
    var key := QuotaKey(userId);
    var count := cache.Incr(key);
    if count == 1 {
      cache.Expire(key, QuotaTtlSeconds);
    }
    if count > MaxUploadsPerDay(parsed) {
      return Ownership.Reject(429, QuotaMessage);
    }
    v := Ownership.Next;
  }

  /* ---------- Errors ---------- */

  datatype UploadError = MulterError(code: string, message: string) | OtherError(message: string)

  datatype ErrorReply = PassOn | Reply(status: int, message: string, detail: Option<string>)

  /** `handleUploadError`: the multer codes for size, count and field, any other multer
      error, any other error, and no error. */
  function HandleUploadError(err: Option<UploadError>): (r: ErrorReply)
    ensures err.None? <==> r == PassOn
    ensures err.Some? ==> r.Reply? && (r.status == 413 <==> err.value.MulterError? && err.value.code == "LIMIT_FILE_SIZE")
    ensures r.Reply? ==> r.status == 413 || r.status == 400
    ensures err.Some? && err.value.MulterError? && err.value.code == "LIMIT_FILE_SIZE" ==>
      r == Reply(413, "File too large", None)
    ensures err.Some? && err.value.MulterError? && err.value.code == "LIMIT_FILE_COUNT" ==>
      r == Reply(400, "Too many files", None)
    ensures err.Some? && err.value.MulterError? && err.value.code == "LIMIT_UNEXPECTED_FILE" ==>
      r == Reply(400, "Unexpected file field", None)
    ensures err.Some? && err.value.MulterError? && err.value.code != "LIMIT_FILE_SIZE" &&
            err.value.code != "LIMIT_FILE_COUNT" && err.value.code != "LIMIT_UNEXPECTED_FILE" ==>
      r == Reply(400, "Upload error", Some(err.value.message))
    ensures err.Some? && err.value.OtherError? ==>
      r == Reply(400, if err.value.message == "" then "Upload failed" else err.value.message, None)
  {
    match err
    case None => PassOn
    case Some(MulterError(code, message)) =>
      if code == "LIMIT_FILE_SIZE" then Reply(413, "File too large", None)
      else if code == "LIMIT_FILE_COUNT" then Reply(400, "Too many files", None)
      else if code == "LIMIT_UNEXPECTED_FILE" then Reply(400, "Unexpected file field", None)
      else Reply(400, "Upload error", Some(message))
    case Some(OtherError(message)) => Reply(400, if message == "" then "Upload failed" else message, None)
  }
}
