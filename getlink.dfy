/**
 * The `getlink` command (commands/getlink.js): finds the media a message
 * replies to (or the sender's recent cached media), derives a file
 * extension, and reports the outcome of re-uploading it to Catbox.  The
 * Graph API listing, the download and the upload are parameters; the
 * temporary file is tracked as a set of file names.
 */
module GetLink {
  import opened Wrappers
  import opened Text
  import opened Events
  import opened Caches

  /** A cached media entry is used for up to five minutes, inclusive. */
  const FallbackTtl: int := 5 * 60 * 1000

  const Instruction: string := "❎ | " + "Please reply to an image, video, or audio file, then run this command."

  // ------------------------------------------------------- getAttachmentUrl

  /** `event?.message?.reply_to?.mid || event?.message?.mid`: an empty reply mid falls through to `mid`. */
  function LinkMid(e: Event): (r: Option<string>)
    ensures Truthy(ReplyMidOf(e)) ==> r == ReplyMidOf(e)
    ensures !Truthy(ReplyMidOf(e)) ==> r == MidOf(e)
  {
    if Truthy(ReplyMidOf(e)) then ReplyMidOf(e) else MidOf(e)
  }

  /** `{ url, type }` as `getAttachmentUrl` returns it; `url` may be missing. */
  datatype Found = Found(url: Option<string>, mediaType: string)

  /**
   * The classification chain: image data first, then video, then audio,
   * then a truthy `file_url`; none of them gives type `unknown` and no URL.
   */
  function Classify(item: GraphItem): (r: Found)
    ensures item.imageData.Some? ==> r == Found(item.imageData.value.url, "image")
    ensures item.imageData.None? && item.videoData.Some? ==> r == Found(item.videoData.value.url, "video")
    ensures item.imageData.None? && item.videoData.None? && item.audioData.Some? ==> r == Found(item.audioData.value.url, "audio")
    ensures r.mediaType == "file" <==>
      item.imageData.None? && item.videoData.None? && item.audioData.None? && Truthy(item.fileUrl)
    ensures r.mediaType == "file" ==> r.url == item.fileUrl
    ensures r.mediaType == "unknown" <==>
      item.imageData.None? && item.videoData.None? && item.audioData.None? && !Truthy(item.fileUrl)
    ensures r.mediaType == "unknown" ==> r.url.None?
  {
    if item.imageData.Some? then Found(item.imageData.value.url, "image")
    else if item.videoData.Some? then Found(item.videoData.value.url, "video")
    else if item.audioData.Some? then Found(item.audioData.value.url, "audio")
    else if Truthy(item.fileUrl) then Found(item.fileUrl, "file")
    else Found(None, "unknown")
  }

  /**
   * `getAttachmentUrl(event, token)`, with `graph` answering the attachment
   * listing of a message id: `null` without a message id, on a failed
   * request or an empty listing; otherwise the first item, classified.
   */
  function AttachmentFor(e: Event, graph: string -> GraphReply): (r: Option<Found>)
    ensures !Truthy(LinkMid(e)) ==> r.None?
    ensures Truthy(LinkMid(e)) ==> r == match FirstItem(graph(LinkMid(e).value))
      case None => None
      case Some(item) => Some(Classify(item))
  {
    var mid := LinkMid(e);
    if !Truthy(mid) then None
    else
      match FirstItem(graph(mid.value))
      case None => None
      case Some(item) => Some(Classify(item))
  }

  /**
   * The attachment `execute` works on: the looked-up one whenever the lookup
   * gave anything (even without a URL), else the sender's cached media when
   * it is at most `FallbackTtl` old, its missing type read as `image`.
   */
  function WithFallback(found: Option<Found>, id: string, now: int, cache: MediaCache): (r: Option<Found>)
    ensures found.Some? ==> r == found
    ensures found.None? ==> (r.Some? <==> id in cache && now - cache[id].timestamp <= FallbackTtl)
    ensures found.None? && r.Some? ==>
      && r.value.url == Some(cache[id].value.url)
      && r.value.mediaType == (if cache[id].value.mediaType == "" then "image" else cache[id].value.mediaType)
  {
    if found.Some? then found
    else if id in cache && now - cache[id].timestamp <= FallbackTtl then
      var m := cache[id].value;
      Some(Found(Some(m.url), if m.mediaType == "" then "image" else m.mediaType))
    else None
  }

  /** An attachment with a non-empty URL: anything else gets the instruction message. */
  predicate Usable(a: Option<Found>) {
    a.Some? && Truthy(a.value.url)
  }

  // ------------------------------------------------------- getFileExtension

  /** The characters `[^.?]` admits. */
  predicate ExtChar(c: char) {
    c != '.' && c != '?'
  }

  /** The end of the run of extension characters starting at `p`. */
  function ExtEnd(s: string, p: nat): (e: nat)
    requires p <= |s|
    ensures p <= e <= |s|
    ensures forall q :: p <= q < e ==> ExtChar(s[q])
    ensures e == |s| || !ExtChar(s[e])
    decreases |s| - p
  {
    if p < |s| && ExtChar(s[p]) then ExtEnd(s, p + 1) else p
  }

  /**
   * `/\.([^.?]+)(?:\?|$)/` matches at `i`: a dot, then a non-empty run of
   * extension characters ending at `?` or at the end.  (A shorter run is
   * followed by an extension character, so backtracking finds nothing else.)
   */
  predicate ExtMatch(s: string, i: int) {
    0 <= i < |s| && s[i] == '.' && ExtEnd(s, i + 1) > i + 1 && (ExtEnd(s, i + 1) == |s| || s[ExtEnd(s, i + 1)] == '?')
  }

  /** The match at `i` is the leftmost. */
  predicate FirstExt(s: string, i: int) {
    ExtMatch(s, i) && forall k :: 0 <= k < i ==> !ExtMatch(s, k)
  }

  /** The leftmost match at or after `from`. */
  function FindExt(s: string, from: nat): (r: Option<nat>)
    requires from <= |s|
    ensures r.Some? ==> from <= r.value && ExtMatch(s, r.value) && forall i :: from <= i < r.value ==> !ExtMatch(s, i)
    ensures r.None? ==> forall i :: from <= i ==> !ExtMatch(s, i)
    decreases |s| - from
  {
    if from == |s| then None
    else if ExtMatch(s, from) then Some(from)
    else FindExt(s, from + 1)
  }

  /** The capture of the leftmost match, if any. */
  function UrlExtension(url: string): (r: Option<string>)
    ensures r.Some? <==> exists i :: ExtMatch(url, i)
    ensures r.Some? ==> exists i :: FirstExt(url, i) && r.value == url[i + 1..ExtEnd(url, i + 1)]
    ensures r.Some? ==> r.value != [] && '.' !in r.value && '?' !in r.value
  {
    match FindExt(url, 0)
    case None => None
    case Some(i) =>
      var x := url[i + 1..ExtEnd(url, i + 1)];
      assert forall q :: 0 <= q < |x| ==> x[q] == url[i + 1 + q];
      assert FirstExt(url, i);
      Some(x)
  }

  /**
   * `getFileExtension(type, url)`: fixed for images, videos and audio,
   * otherwise read from the URL, else `bin`; never empty, never holding a
   * `.` or a `?`.
   */
  function FileExtension(mediaType: string, url: string): (r: string)
    ensures r != [] && '.' !in r && '?' !in r
    ensures mediaType == "image" ==> r == "jpg"
    ensures mediaType == "video" ==> r == "mp4"
    ensures mediaType == "audio" ==> r == "mp3"
    ensures mediaType !in {"image", "video", "audio"} ==> r == UrlExtension(url).GetOr("bin")
  {
    if mediaType == "image" then "jpg"
    else if mediaType == "video" then "mp4"
    else if mediaType == "audio" then "mp3"
    else UrlExtension(url).GetOr("bin")
  }

  /**
   * A name whose only `?` comes after its extension yields that extension:
   * every earlier dot is followed by another dot before any `?`.
   */
  lemma ExtensionOfName(stem: string, ext: string, query: string)
    requires '?' !in stem && ext != [] && '.' !in ext && '?' !in ext
    requires query == [] || query[0] == '?'
    ensures UrlExtension(stem + "." + ext + query) == Some(ext)
  {
    var s := stem + "." + ext + query;
    var d := |stem|;
    assert s[d] == '.';
    forall q | d + 1 <= q < d + 1 + |ext| ensures ExtChar(s[q]) {
      assert s[q] == ext[q - d - 1];
    }
    var e := ExtEnd(s, d + 1);
    assert d + 1 + |ext| == |s| || s[d + 1 + |ext|] == query[0] == '?';
    assert e == d + 1 + |ext|;
    assert ExtMatch(s, d);
    forall k | 0 <= k < d ensures !ExtMatch(s, k) {
      if s[k] == '.' {
        var f := ExtEnd(s, k + 1);
        assert !ExtChar(s[d]);
        if f < d {
          assert s[f] == stem[f];
        }
      }
    }
    assert s[d + 1..e] == ext;
  }

  // --------------------------------------------------------------- messages

  /** The emoji shown for a media type; the folder is kept for types outside the three known ones. */
  function TypeEmoji(mediaType: string): (r: string)
    ensures mediaType == "image" ==> r == "🖼️"
    ensures mediaType == "video" ==> r == "🎥"
    ensures mediaType == "audio" ==> r == "🎵"
    ensures r == "📁" <==> mediaType !in {"image", "video", "audio"}
  {
    if mediaType == "image" then "🖼️"
    else if mediaType == "video" then "🎥"
    else if mediaType == "audio" then "🎵"
    else "📁"
  }

  /** `s.charAt(0).toUpperCase() + s.slice(1)` */
  function Capitalize(s: string): (r: string)
    ensures |r| == |s|
    ensures s != [] ==> r[0] == UpperChar(s[0]) && !('a' <= r[0] <= 'z') && r[1..] == s[1..]
  {
    if s == [] then [] else [UpperChar(s[0])] + s[1..]
  }

  /** The notice sent before the download: an hourglass, the media type, and its emoji last. */
  function Processing(mediaType: string): (r: string)
    ensures r != [] && r[0] == '\U{23F3}' && OccursAt(r, mediaType, 14)
    ensures |r| >= |TypeEmoji(mediaType)| && r[|r| - |TypeEmoji(mediaType)|..] == TypeEmoji(mediaType)
  {
    var lead := "⏳ | Uploading " + mediaType + " to Catbox... ";
    assert lead[14..14 + |mediaType|] == mediaType;
    lead + TypeEmoji(mediaType)
  }

  /** The failure sent when Catbox returns no link: a cross mark, then the media type. */
  function CatboxFailed(mediaType: string): (r: string)
    ensures r != [] && r[0] == '\U{274E}' && OccursAt(r, mediaType, 21)
    ensures r != UploadFailed(mediaType)
  {
    var m := "❎ | Failed to upload " + mediaType + " to Catbox. Please try again.";
    assert m[21..21 + |mediaType|] == mediaType;
    assert |m| != |UploadFailed(mediaType)|;
    m
  }

  /** The failure sent when the download or the upload throws: a cross mark, then the media type. */
  function UploadFailed(mediaType: string): (r: string)
    ensures r != [] && r[0] == '\U{274E}' && OccursAt(r, mediaType, 21)
  {
    var m := "❎ | Failed to upload " + mediaType + ". Please try again later.";
    assert m[21..21 + |mediaType|] == mediaType;
    m
  }

  function Success(mediaType: string, link: string): string {
    "✅ | " + Capitalize(mediaType) + " uploaded successfully! " + TypeEmoji(mediaType)
      + "\n\n🔗 Link: " + link + "\n\n📋 The link is permanent and ready to share!"
  }

  /** How the upload ended: it threw, or it returned a link (empty when it failed quietly). */
  datatype Upload = UploadThrew | UploadReturned(link: string)

  /** The message that ends the exchange, given how the download and the upload went. */
  function Verdict(mediaType: string, downloaded: bool, upload: Upload): (r: string)
    ensures !downloaded || upload.UploadThrew? ==> r == UploadFailed(mediaType)
    ensures downloaded && upload.UploadReturned? ==>
      r == (if upload.link == "" then CatboxFailed(mediaType) else Success(mediaType, upload.link))
  {
    if !downloaded then UploadFailed(mediaType)
    else match upload
      case UploadThrew => UploadFailed(mediaType)
      case UploadReturned(link) => if link == "" then CatboxFailed(mediaType) else Success(mediaType, link)
  }

  /** The decimal digits of `n`, as a template string renders it. */
  function Decimal(n: nat): (r: string)
    ensures r != [] && forall i :: 0 <= i < |r| ==> '0' <= r[i] <= '9'
  {
    if n < 10 then [('0' as int + n) as char] else Decimal(n / 10) + [('0' as int + n % 10) as char]
  }

  /** The number a string of decimal digits denotes, most significant digit first. */
  function Value(digits: string): int {
    if digits == [] then 0
    else Value(digits[..|digits| - 1]) * 10 + (digits[|digits| - 1] as int - '0' as int)
  }

  /** Reading the digits back gives the number: no two times render alike. */
  lemma {:induction false} DecimalValue(n: nat)
    ensures Value(Decimal(n)) == n
  {
    var d := Decimal(n);
    if n >= 10 {
      DecimalValue(n / 10);
      assert d[..|d| - 1] == Decimal(n / 10);
    } else {
      assert d[..0] == [];
    }
  }

  /**
   * `tmp_getlink_${Date.now()}.${fileExt}` (the directory is not modelled):
   * the fixed stem, the time in decimal, then the extension after a dot.
   */
  function TempName(now: nat, ext: string): (r: string)
    ensures |r| > 13 + |ext| && r[..12] == "tmp_getlink_"
    ensures r[|r| - |ext| - 1..] == "." + ext && Value(r[12..|r| - |ext| - 1]) == now
  {
    var r := "tmp_getlink_" + Decimal(now) + "." + ext;
    DecimalValue(now);
    assert r[12..|r| - |ext| - 1] == Decimal(now);
    r
  }

  /** `part` occurs in `s` at index `i`. */
  predicate OccursAt(s: string, part: string, i: int) {
    0 <= i <= |s| - |part| && s[i..i + |part|] == part
  }

  /**
   * The success message starts with the media type, first letter upper-cased,
   * and carries the link; no other outcome message starts like it.
   */
  lemma SuccessMessage(mediaType: string, link: string)
    ensures var m := Success(mediaType, link);
      && m[..4 + |mediaType|] == "✅ | " + Capitalize(mediaType)
      && m[0] != UploadFailed(mediaType)[0] && m[0] != CatboxFailed(mediaType)[0]
      && (exists i :: OccursAt(m, link, i))
  {
    var m := Success(mediaType, link);
    var lead := "✅ | " + Capitalize(mediaType) + " uploaded successfully! " + TypeEmoji(mediaType) + "\n\n🔗 Link: ";
    assert m == lead + link + "\n\n📋 The link is permanent and ready to share!";
    assert m[|lead|..|lead| + |link|] == link;
    assert OccursAt(m, link, |lead|);
    assert m[..4 + |mediaType|] == "✅ | " + Capitalize(mediaType);
    assert m[0] == '\U{2705}';
    assert UploadFailed(mediaType)[0] == '\U{274E}';
    assert CatboxFailed(mediaType)[0] == '\U{274E}';
  }

  /** The closing message reports success exactly when the file was fetched and Catbox returned a link. */
  lemma VerdictSuccessIff(mediaType: string, downloaded: bool, upload: Upload)
    ensures Verdict(mediaType, downloaded, upload)[0] == '\U{2705}' <==>
      downloaded && upload.UploadReturned? && upload.link != ""
  {
    assert UploadFailed(mediaType)[0] == '\U{274E}';
    assert CatboxFailed(mediaType)[0] == '\U{274E}';
    if downloaded && upload.UploadReturned? && upload.link != "" {
      SuccessMessage(mediaType, upload.link);
      assert Success(mediaType, upload.link)[0] == '\U{2705}';
    }
  }

  // ----------------------------------------------------------------- execute

  /**
   * `execute(senderId, args, token, event, sendMessage, mediaCache)`: the
   * messages sent, in order, and the files present afterwards.  Without a
   * usable attachment only the instruction is sent and nothing is uploaded;
   * otherwise a progress message is followed by one closing message, and the
   * temporary file is gone at the end on every path.
   */
  method Execute(senderId: string, event: Event, now: nat, mediaCache: MediaCache,
                 graph: string -> GraphReply, downloaded: bool, upload: Upload, files: set<string>)
    returns (sent: seq<string>, after: set<string>)
    ensures var a := WithFallback(AttachmentFor(event, graph), senderId, now, mediaCache);
      && (!Usable(a) ==> sent == [Instruction] && after == files)
      && (Usable(a) ==>
        && sent == [Processing(a.value.mediaType), Verdict(a.value.mediaType, downloaded, upload)]
        && after == files - {TempName(now, FileExtension(a.value.mediaType, a.value.url.value))})
  {
    var attachment := AttachmentFor(event, graph);
    if attachment.None? && senderId in mediaCache && now - mediaCache[senderId].timestamp <= FallbackTtl {
      var cached := mediaCache[senderId].value;
      attachment := Some(Found(Some(cached.url), if cached.mediaType == "" then "image" else cached.mediaType));
    }
    assert attachment == WithFallback(AttachmentFor(event, graph), senderId, now, mediaCache);
    if attachment.None? || !Truthy(attachment.value.url) {
      sent := [Instruction];
      after := files;
      return;
    }
    sent, after := Transfer(attachment.value.mediaType, attachment.value.url.value, now, downloaded, upload, files);
  }

  /**
   * The upload of a usable attachment: the progress message, one closing
   * message, and the temporary file removed by `finally` whether or not it was written.
   */
  method Transfer(mediaType: string, mediaUrl: string, now: nat, downloaded: bool, upload: Upload, files: set<string>)
    returns (sent: seq<string>, after: set<string>)
    ensures sent == [Processing(mediaType), Verdict(mediaType, downloaded, upload)]
    ensures after == files - {TempName(now, FileExtension(mediaType, mediaUrl))}
  {
    var tmp := TempName(now, FileExtension(mediaType, mediaUrl));
    sent := [Processing(mediaType)];
    after := files;
    if !downloaded {
      sent := sent + [UploadFailed(mediaType)];
    } else {
      after := after + {tmp};
      match upload
      case UploadThrew =>
        sent := sent + [UploadFailed(mediaType)];
      case UploadReturned(link) =>
        if link == "" {
          sent := sent + [CatboxFailed(mediaType)];
        } else {
          sent := sent + [Success(mediaType, link)];
        }
    }
    // `finally`: the temporary file is removed when it exists
    if tmp in after {
      after := after - {tmp};
    }
  }
}
