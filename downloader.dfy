/** bot/downloader.py: URL normalisation, classification of what the
    extraction engine returns, `choose_best_format`, and the variant
    pipeline of `extract_variants` (build, de-duplicate per label, rank).
    The engine itself is a parameter `fetch` from URL to metadata. */
module Downloader {
  import opened Wrappers
  import opened Text
  import opened Seqs

  // ---------------------------------------------------------------------
  // normalize_twitter_url

  /** One host rewrite of `normalize_twitter_url`: `host` becomes
      `twitter.com/` everywhere, but only when `host` occurs and
      `twitter.com` does not. */
  function RewriteHost(s: string, host: string): string
    requires host == "x.com/" || host == "t.co/"
  {
    if Contains(s, host) && !Contains(s, "twitter.com")
    then ReplaceAll(s, host, "twitter.com/") else s
  }

  /** bot/downloader.py `normalize_twitter_url`: strip, turn every
      `mobile.twitter.com` into `twitter.com`, then rewrite `x.com/` and
      after that `t.co/`. The result never has whitespace at either end. */
  function NormalizeTwitterUrl(url: string): (r: string)
    ensures IsStripped(r)
  {
    var s0 := Strip(url);
    var s1 := ReplaceAll(s0, "mobile.twitter.com", "twitter.com");
    var s2 := RewriteHost(s1, "x.com/");
    PrintableNotSpace('t');
    PrintableNotSpace('m');
    PrintableNotSpace('/');
    ReplaceKeepsStripped(s0, "mobile.twitter.com", "twitter.com");
    ReplaceKeepsStripped(s1, "x.com/", "twitter.com/");
    ReplaceKeepsStripped(s2, "t.co/", "twitter.com/");
    RewriteHost(s2, "t.co/")
  }

  /** A URL that already names `twitter.com` (and no mobile host) comes
      back only stripped. */
  lemma NormalizeKeepsCanonical(url: string)
    requires Contains(Strip(url), "twitter.com")
    requires !Contains(Strip(url), "mobile.twitter.com")
    ensures NormalizeTwitterUrl(url) == Strip(url)
  {
    ReplaceAbsent(Strip(url), "mobile.twitter.com", "twitter.com");
  }

  /** A rewrite to `twitter.com/` leaves `twitter.com` in the string. */
  lemma RewriteNamesTwitter(s: string, pat: string)
    requires pat == "x.com/" || pat == "t.co/"
    requires Contains(s, pat)
    ensures Contains(ReplaceAll(s, pat, "twitter.com/"), "twitter.com")
  {
    ReplaceIntroduces(s, pat, "twitter.com/");
    assert "twitter.com/" == "twitter.com" + "/";
    ContainsPrefixOf(ReplaceAll(s, pat, "twitter.com/"), "twitter.com", "/");
  }

  /** Normalising a second time changes nothing exactly when the first
      result holds no `mobile.twitter.com`; such an occurrence can be
      created by the first pass (NormalizeNotIdempotent). */
  lemma NormalizeIdempotentIff(url: string)
    ensures var n := NormalizeTwitterUrl(url);
      NormalizeTwitterUrl(n) == n <==> !Contains(n, "mobile.twitter.com")
  {
    var n := NormalizeTwitterUrl(url);
    StripOfStripped(n);
    var s0 := Strip(url);
    var s1 := ReplaceAll(s0, "mobile.twitter.com", "twitter.com");
    if !Contains(n, "mobile.twitter.com") {
      ReplaceAbsent(n, "mobile.twitter.com", "twitter.com");
      if !Contains(n, "twitter.com") {
        if Contains(s1, "x.com/") && !Contains(s1, "twitter.com") {
          RewriteNamesTwitter(s1, "x.com/");
        }
        assert !(Contains(s1, "x.com/") && !Contains(s1, "twitter.com"));
        if Contains(s1, "t.co/") && !Contains(s1, "twitter.com") {
          RewriteNamesTwitter(s1, "t.co/");
        }
        assert n == s1;
      }
    } else {
      var m := ReplaceAll(n, "mobile.twitter.com", "twitter.com");
      ReplaceIntroduces(n, "mobile.twitter.com", "twitter.com");
      ReplaceLength(n, "mobile.twitter.com", "twitter.com");
      assert NormalizeTwitterUrl(n) == m;
    }
  }

  /** A post path naming none of the hosts the normaliser rewrites. */
  predicate NamesNoHost(path: string) {
    IsStripped(path) && !Contains(path, "twitter.com")
    && !Contains(path, "x.com/") && !Contains(path, "t.co/")
  }

  lemma NoMobileHost(path: string)
    requires NamesNoHost(path)
    ensures !Contains(path, "mobile.twitter.com")
  {
    if Contains(path, "mobile.twitter.com") {
      assert "mobile.twitter.com" == "mobile." + "twitter.com";
      ContainsSuffixOf(path, "mobile.", "twitter.com");
    }
  }

  /** Reading off the normalised URL from the result of each stage. */
  lemma NormalizeStages(url: string, s1: string, s2: string, r: string)
    requires IsStripped(url)
    requires ReplaceAll(url, "mobile.twitter.com", "twitter.com") == s1
    requires RewriteHost(s1, "x.com/") == s2 && RewriteHost(s2, "t.co/") == r
    ensures NormalizeTwitterUrl(url) == r
  {
    StripOfStripped(url);
  }

  /** The ways of reading `https://<host>/<path>`. */
  lemma HostUrlShape(url: string, host: string, path: string)
    requires url == "https://" + host + "/"
    ensures url + path == "https://" + host + ['/'] + path
    ensures url + path == "https://" + (host + "/") + path
    ensures IsStripped(path) ==> IsStripped(url + path)
  {
    assert (url + path)[0] == 'h';
    PrintableNotSpace('h');
    PrintableNotSpace('/');
  }

  /** The rewritten URL, read as prefix, host and path. */
  lemma TwitterUrlShape(pre: string, url: string, path: string)
    requires url == pre + "twitter.com/"
    ensures url + path == pre + "twitter.com/" + path
    ensures Contains(url + path, "twitter.com")
  {
    assert url + path == pre + "twitter.com" + ("/" + path);
    ContainsMiddle(pre, "twitter.com", "/" + path);
  }

  /** A mobile Twitter URL loses its `mobile.` prefix and nothing else. */
  lemma NormalizeMobileHost(path: string)
    requires IsStripped(path) && !Contains(path, "mobile.twitter.com")
    ensures NormalizeTwitterUrl("https://mobile.twitter.com" + path) == "https://twitter.com" + path
  {
    TwitterPieces();
    var s := "https://mobile.twitter.com" + path;
    var r := "https://twitter.com" + path;
    MobileRewrite(path);
    MobileUrlStripped(path);
    assert Contains(r, "twitter.com") by {
      ConcatSplit("https://twitter.com", "https://", "twitter.com", path);
      ContainsMiddle("https://", "twitter.com", path);
    }
    NormalizeStages(s, r, r, r);
  }

  lemma MobileUrlStripped(path: string)
    requires IsStripped(path)
    ensures IsStripped("https://mobile.twitter.com" + path)
  {
    var s := "https://mobile.twitter.com" + path;
    assert s[0] == 'h';
    assert |path| == 0 ==> s[|s| - 1] == 'm';
    PrintableNotSpace('h');
    PrintableNotSpace('m');
  }

  lemma MobileRewrite(path: string)
    requires !Contains(path, "mobile.twitter.com")
    ensures ReplaceAll("https://mobile.twitter.com" + path, "mobile.twitter.com", "twitter.com")
      == "https://twitter.com" + path
  {
    MobileTwitterPieces();
    TwitterPieces();
    ConcatSplit("https://mobile.twitter.com", "https://", "mobile.twitter.com", path);
    ReplaceAfter("https://", "mobile.twitter.com", path, "twitter.com");
    ConcatSplit("https://twitter.com", "https://", "twitter.com", path);
  }

  // The URL prefixes, split where the lemmas above and below cut them.

  lemma TwitterPieces()
    ensures "https://twitter.com" == "https://" + "twitter.com"
    ensures "https://twitter.com/" == "https://" + "twitter.com/"
    ensures "https://twitter.com/" == "https://twitter.com" + "/"
  {
  }

  lemma MobileTwitterPieces()
    ensures "https://mobile.twitter.com" == "https://" + "mobile.twitter.com"
    ensures "https://mobile.twitter.com/" == "https://mobile." + "twitter.com/"
    ensures "https://mobile.twitter.com/" == "https://mobile.twitter.com" + "/"
  {
  }

  lemma XPieces()
    ensures "https://x.com/" == "https://" + "x.com/"
    ensures "https://x.com/" == "https://" + "x.com" + "/"
  {
  }

  lemma TcoPieces()
    ensures "https://t.co/" == "https://" + "t.co/"
    ensures "https://t.co/" == "https://" + "t.co" + "/"
  {
  }

  lemma MobileXPieces()
    ensures "https://mobile.x.com/" == "https://mobile." + "x.com/"
    ensures "https://mobile.x.com/" == "https://" + "mobile.x.com" + "/"
  {
  }

  /** An `x.com` post URL is rewritten to the `twitter.com` one. */
  lemma NormalizeXHost(path: string)
    requires NamesNoHost(path)
    ensures NormalizeTwitterUrl("https://x.com/" + path) == "https://twitter.com/" + path
  {
    XPieces();
    TwitterPieces();
    var s := "https://x.com/" + path;
    var r := "https://twitter.com/" + path;
    ShortHostKeepsRest("https://x.com/", "x.com", path);
    assert Contains(s, "x.com/") && ReplaceAll(s, "x.com/", "twitter.com/") == r by {
      ConcatSplit("https://x.com/", "https://", "x.com/", path);
      ConcatSplit("https://twitter.com/", "https://", "twitter.com/", path);
      ContainsMiddle("https://", "x.com/", path);
      ReplaceAfter("https://", "x.com/", path, "twitter.com/");
    }
    assert Contains(r, "twitter.com") by {
      TwitterUrlShape("https://", "https://twitter.com/", path);
    }
    NormalizeStages(s, s, r, r);
  }

  /** A `t.co` post URL is rewritten to the `twitter.com` one. */
  lemma NormalizeTcoHost(path: string)
    requires NamesNoHost(path)
    ensures NormalizeTwitterUrl("https://t.co/" + path) == "https://twitter.com/" + path
  {
    TcoPieces();
    TwitterPieces();
    var s := "https://t.co/" + path;
    var r := "https://twitter.com/" + path;
    ShortHostKeepsRest("https://t.co/", "t.co", path);
    assert !Contains(s, "x.com/") by {
      if Contains(s, "x.com/") {
        ContainsAfter("https://t.co/", path, "x.com/");
      }
    }
    assert Contains(s, "t.co/") && ReplaceAll(s, "t.co/", "twitter.com/") == r by {
      ConcatSplit("https://t.co/", "https://", "t.co/", path);
      ConcatSplit("https://twitter.com/", "https://", "twitter.com/", path);
      ContainsMiddle("https://", "t.co/", path);
      TcoNoEarlyStart(path);
      ReplaceOnce("https://", "t.co/", path, "twitter.com/");
    }
    NormalizeStages(s, s, s, r);
  }

  /** Before the host rewrites, `https://<host>/<path>` is stripped, holds
      no mobile host and does not name `twitter.com`. */
  lemma ShortHostKeepsRest(url: string, host: string, path: string)
    requires host == "x.com" || host == "t.co" || host == "mobile.x.com"
    requires url == "https://" + host + "/" && NamesNoHost(path)
    ensures IsStripped(url + path) && !Contains(url + path, "twitter.com")
    ensures ReplaceAll(url + path, "mobile.twitter.com", "twitter.com") == url + path
  {
    HostUrlShape(url, host, path);
    NoMobileHost(path);
    ShortHostLacksW(host);
    AbsentAcrossSlash("https://" + host, path, "mobile.twitter.com", 8);
    ReplaceAbsent(url + path, "mobile.twitter.com", "twitter.com");
    AbsentAcrossSlash("https://" + host, path, "twitter.com", 1);
  }

  /** The short hosts, with their scheme, have no 'w'. */
  lemma ShortHostLacksW(host: string)
    requires host == "x.com" || host == "t.co" || host == "mobile.x.com"
    ensures 'w' !in "https://" + host
  {
  }

  lemma TcoNoEarlyStart(path: string)
    ensures NoStartBefore("https://" + "t.co/" + path, "t.co/", 8)
  {
    var s := "https://" + "t.co/" + path;
    assert s[1..9] == "ttps://t";
    NoStartBeforeByChar(s, "t.co/", 8, 1);
  }

  /** A `mobile.x.com` URL comes out with a mobile Twitter host. */
  lemma NormalizeMobileXHost(path: string)
    requires NamesNoHost(path)
    ensures NormalizeTwitterUrl("https://mobile.x.com/" + path) == "https://mobile.twitter.com/" + path
  {
    MobileXPieces();
    MobileTwitterPieces();
    var s := "https://mobile.x.com/" + path;
    var r := "https://mobile.twitter.com/" + path;
    ShortHostKeepsRest("https://mobile.x.com/", "mobile.x.com", path);
    MobileXRewrite(path);
    assert Contains(r, "twitter.com") by {
      TwitterUrlShape("https://mobile.", "https://mobile.twitter.com/", path);
    }
    NormalizeStages(s, s, r, r);
  }

  lemma MobileXRewrite(path: string)
    requires NamesNoHost(path)
    ensures Contains("https://mobile.x.com/" + path, "x.com/")
    ensures ReplaceAll("https://mobile.x.com/" + path, "x.com/", "twitter.com/")
      == "https://mobile.twitter.com/" + path
  {
    MobileXPieces();
    MobileTwitterPieces();
    var s := "https://mobile.x.com/" + path;
    ConcatSplit("https://mobile.x.com/", "https://mobile.", "x.com/", path);
    ConcatSplit("https://mobile.twitter.com/", "https://mobile.", "twitter.com/", path);
    ContainsMiddle("https://mobile.", "x.com/", path);
    ReplaceAfter("https://mobile.", "x.com/", path, "twitter.com/");
  }

  /** Normalisation is not idempotent: a `mobile.x.com` URL needs a second
      pass to reach its `twitter.com` form. */
  lemma NormalizeNotIdempotent(path: string)
    requires NamesNoHost(path)
    ensures var n := NormalizeTwitterUrl("https://mobile.x.com/" + path);
      n == "https://mobile.twitter.com/" + path
      && NormalizeTwitterUrl(n) == "https://twitter.com/" + path
      && NormalizeTwitterUrl(n) != n
  {
    MobileTwitterPieces();
    TwitterPieces();
    NormalizeMobileXHost(path);
    NoMobileHost(path);
    AbsentAcrossSlash([], path, "mobile.twitter.com", 0);
    assert [] + ['/'] + path == "/" + path;
    SlashStripped(path);
    NormalizeMobileHost("/" + path);
    ConcatSplit("https://mobile.twitter.com/", "https://mobile.twitter.com", "/", path);
    ConcatSplit("https://twitter.com/", "https://twitter.com", "/", path);
    HostsDiffer(path);
  }

  lemma SlashStripped(path: string)
    requires IsStripped(path)
    ensures IsStripped("/" + path)
  {
    PrintableNotSpace('/');
    assert ("/" + path)[0] == '/';
    if |path| > 0 {
      assert ("/" + path)[|path|] == path[|path| - 1];
    }
  }

  lemma HostsDiffer(path: string)
    ensures "https://twitter.com/" + path != "https://mobile.twitter.com/" + path
  {
    assert ("https://twitter.com/" + path)[8] == 't';
    assert ("https://mobile.twitter.com/" + path)[8] == 'm';
  }

  // ---------------------------------------------------------------------
  // What the extraction engine returns

  /** One entry of the engine's `formats` list; a missing key is `None`. */
  datatype Format = Format(
    formatId: Option<string>,
    ext: Option<string>,
    vcodec: Option<string>,
    height: Option<nat>,
    filesize: Option<nat>,
    filesizeApprox: Option<nat>)

  /** The engine's metadata for a post; an absent or empty list is `[]`, a
      falsy playlist entry is `None`. */
  datatype Info = Info(
    id: Option<string>,
    title: Option<string>,
    uploader: Option<string>,
    channel: Option<string>,
    uploaderId: Option<string>,
    uploadDate: Option<string>,
    description: Option<string>,
    entries: seq<Option<Info>>,
    formats: seq<Format>,
    thumbnails: seq<string>,
    mediaUrls: seq<string>,
    isAnimatedGif: bool,
    animatedGif: bool)

  /** The four `media_type` strings "video", "gif", "photo" and "none". */
  datatype MediaType = Video | Gif | Photo | NoMedia

  /** The dictionary `extract_info` returns. */
  datatype InfoData = InfoData(
    info: Info,
    mediaType: MediaType,
    videoFormats: seq<Format>,
    images: seq<string>,
    mediaUrls: seq<string>,
    isGif: bool)

  /** bot/downloader.py `VideoVariant`. */
  datatype VideoVariant = VideoVariant(
    formatId: string,
    qualityLabel: string,
    ext: string,
    filesize: Option<nat>)

  /** bot/downloader.py `ExtractResult`. */
  datatype ExtractResult = ExtractResult(
    videoId: string,
    title: string,
    uploader: Option<string>,
    uploadDate: Option<string>,
    description: Option<string>,
    variants: seq<VideoVariant>,
    mediaType: MediaType)

  const InvalidPostMessage := "Could not read post or URL is invalid."
  const NoFormatMessage := "Video format not found."

  /** Python truthiness of an optional string. */
  predicate Truthy(o: Option<string>) {
    o.Some? && o.value != ""
  }

  /** Python's `a or b` on optional strings. */
  function OrElse(a: Option<string>, b: Option<string>): Option<string> {
    if Truthy(a) then a else b
  }

  // ---------------------------------------------------------------------
  // extract_info, after the engine call

  /** `es[k]` is the first non-null entry. */
  predicate FirstPresentAt(es: seq<Option<Info>>, k: int) {
    0 <= k < |es| && es[k].Some? && forall j :: 0 <= j < k ==> es[j].None?
  }

  /** The first non-null playlist entry, if any. */
  function FirstPresentEntry(es: seq<Option<Info>>): (r: Option<Info>)
    ensures r.None? <==> forall k :: 0 <= k < |es| ==> es[k].None?
    ensures r.Some? ==> exists k :: FirstPresentAt(es, k) && es[k] == r
  {
    if es == [] then None
    else if es[0].Some? then
      assert FirstPresentAt(es, 0);
      es[0]
    else
      var r := FirstPresentEntry(es[1..]);
      assert r.Some? ==> exists k :: FirstPresentAt(es, k) && es[k] == r by {
        if r.Some? {
          var k :| FirstPresentAt(es[1..], k) && es[1..][k] == r;
          assert es[k + 1] == r;
          assert forall j :: 1 <= j < k + 1 ==> es[j] == es[1..][j - 1];
          assert FirstPresentAt(es, k + 1);
        }
      }
      assert forall k :: 1 <= k < |es| ==> es[k] == es[1..][k - 1];
      r
  }

  /** bot/downloader.py:72-76: a playlist is replaced by its first
      non-null entry; a playlist of nulls is kept as it is. */
  function SelectEntry(info: Info): (r: Info)
    ensures (forall k :: 0 <= k < |info.entries| ==> info.entries[k].None?) ==> r == info
    ensures (exists k :: 0 <= k < |info.entries| && info.entries[k].Some?) ==>
      exists k :: FirstPresentAt(info.entries, k) && info.entries[k] == Some(r)
  {
    match FirstPresentEntry(info.entries)
    case None => info
    case Some(e) => e
  }

  /** bot/downloader.py:86: a video codec that is set and not "none", in an
      mp4 or webm container. */
  predicate IsVideoFormat(f: Format) {
    Truthy(f.vcodec) && f.vcodec.value != "none"
    && f.ext.Some? && (f.ext.value == "mp4" || f.ext.value == "webm")
  }

  /** The `for f in formats` loop of bot/downloader.py:84-87. */
  method FilterVideoFormats(formats: seq<Format>) returns (videoFormats: seq<Format>)
    ensures videoFormats == Filter(IsVideoFormat, formats)
  {
    videoFormats := [];
    var i := 0;
    while i < |formats|
      invariant 0 <= i <= |formats|
      invariant videoFormats == Filter(IsVideoFormat, formats[..i])
    {
      assert formats[..i + 1][..i] == formats[..i];
      if IsVideoFormat(formats[i]) {
        videoFormats := videoFormats + [formats[i]];
      }
      i := i + 1;
    }
    assert formats[..i] == formats;
  }

  /** bot/downloader.py:89-95: video before gif before photo. */
  function MediaTypeOf(videoFormats: seq<Format>, isGif: bool, images: seq<string>,
                       mediaUrls: seq<string>): MediaType
  {
    if |videoFormats| > 0 then Video
    else if isGif then Gif
    else if |images| > 0 || |mediaUrls| > 0 then Photo
    else NoMedia
  }

  /** What `extract_info` returns for a selected entry. */
  function Classify(info: Info): InfoData {
    var videoFormats := Filter(IsVideoFormat, info.formats);
    var isGif := info.isAnimatedGif || info.animatedGif;
    InfoData(info, MediaTypeOf(videoFormats, isGif, info.thumbnails, info.mediaUrls),
             videoFormats, info.thumbnails, info.mediaUrls, isGif)
  }

  /** bot/downloader.py `extract_info` after the engine call: the engine
      is the parameter `fetch`, applied to the normalised URL, and `None`
      stands for a falsy answer. */
  method ExtractInfo(url: string, fetch: string -> Option<Info>) returns (r: Result<InfoData>)
    ensures fetch(NormalizeTwitterUrl(url)).None? ==> r == Err(InvalidPostMessage)
    ensures fetch(NormalizeTwitterUrl(url)).Some? ==>
      r == Ok(Classify(SelectEntry(fetch(NormalizeTwitterUrl(url)).value)))
  {
    var answer := fetch(NormalizeTwitterUrl(url));
    if answer.None? {
      return Err(InvalidPostMessage);
    }
    var info := answer.value;
    if |info.entries| > 0 {
      var entry := FirstPresentEntry(info.entries);
      if entry.Some? {
        info := entry.value;
      }
    }
    var videoFormats := FilterVideoFormats(info.formats);
    var isGif := info.isAnimatedGif || info.animatedGif;
    var mediaType := MediaTypeOf(videoFormats, isGif, info.thumbnails, info.mediaUrls);
    r := Ok(InfoData(info, mediaType, videoFormats, info.thumbnails, info.mediaUrls, isGif));
  }

  /** The media type follows the priority video > gif > photo > none, and
      the video formats are exactly the qualifying formats. */
  lemma ClassifyMediaType(info: Info)
    ensures var d := Classify(info);
      var hasVideo := exists f :: f in info.formats && IsVideoFormat(f);
      var isGif := info.isAnimatedGif || info.animatedGif;
      var hasImage := |info.thumbnails| > 0 || |info.mediaUrls| > 0;
      && (forall f :: f in d.videoFormats <==> f in info.formats && IsVideoFormat(f))
      && (d.mediaType == Video <==> hasVideo)
      && (d.mediaType == Gif <==> !hasVideo && isGif)
      && (d.mediaType == Photo <==> !hasVideo && !isGif && hasImage)
      && (d.mediaType == NoMedia <==> !hasVideo && !isGif && !hasImage)
  {
    var vf := Filter(IsVideoFormat, info.formats);
    FilterMembers(IsVideoFormat, info.formats);
    if |vf| > 0 {
      assert vf[0] in vf;
    }
  }

  // ---------------------------------------------------------------------
  // choose_best_format

  predicate IsMp4(f: Format) {
    f.ext == Some("mp4")
  }

  /** `x.get("height") or 0`. */
  function Height0(f: Format): nat {
    match f.height
    case None => 0
    case Some(h) => h
  }

  /** The mp4 formats when there are any, otherwise all formats. */
  function Candidates(formats: seq<Format>): seq<Format> {
    var mp4s := Filter(IsMp4, formats);
    if |mp4s| > 0 then mp4s else formats
  }

  /** When an mp4 exists the candidates are exactly the mp4 formats;
      otherwise they are all the formats. So they are drawn from the
      formats and are never empty for a non-empty list. */
  lemma CandidatesFacts(formats: seq<Format>)
    ensures formats != [] ==> |Candidates(formats)| > 0
    ensures forall f :: f in Candidates(formats) ==> f in formats
    ensures (exists f :: f in formats && IsMp4(f)) ==>
      forall f :: f in Candidates(formats) <==> f in formats && IsMp4(f)
    ensures (forall f :: f in formats ==> !IsMp4(f)) ==> Candidates(formats) == formats
  {
    FilterMembers(IsMp4, formats);
    var mp4s := Filter(IsMp4, formats);
    if exists f :: f in formats && IsMp4(f) {
      var f :| f in formats && IsMp4(f);
      assert f in mp4s;
    } else if |mp4s| > 0 {
      assert mp4s[0] in mp4s;
    }
  }

  /** `s[i]` is as tall as every format and strictly taller than every
      earlier one: what a stable descending sort on height puts first. */
  predicate IsFirstTallest(s: seq<Format>, i: int) {
    0 <= i < |s|
    && (forall j :: 0 <= j < |s| ==> Height0(s[j]) <= Height0(s[i]))
    && (forall j :: 0 <= j < i ==> Height0(s[j]) < Height0(s[i]))
  }

  function FirstTallest(s: seq<Format>): (i: nat)
    requires |s| > 0
    ensures IsFirstTallest(s, i)
  {
    if |s| == 1 then 0
    else
      var k := FirstTallest(s[1..]) + 1;
      assert forall j :: 1 <= j < |s| ==> s[j] == s[1..][j - 1];
      if Height0(s[0]) >= Height0(s[k]) then 0 else k
  }

  /** bot/downloader.py `choose_best_format`. */
  function ChooseBestFormat(formats: seq<Format>): (r: Result<Format>)
    ensures r.Err? <==> formats == []
    ensures r.Err? ==> r.message == NoFormatMessage
    ensures r.Ok? ==> r.value in formats
    ensures r.Ok? && (exists f :: f in formats && IsMp4(f)) ==> IsMp4(r.value)
    ensures r.Ok? ==>
      exists i :: IsFirstTallest(Candidates(formats), i) && Candidates(formats)[i] == r.value
    // The choice is as tall as every mp4, or as every format when there is no mp4.
    ensures r.Ok? ==> forall f :: f in formats && (IsMp4(f) || forall g :: g in formats ==> !IsMp4(g)) ==>
      Height0(f) <= Height0(r.value)
  {
    if formats == [] then Err(NoFormatMessage)
    else
      var c := Candidates(formats);
      CandidatesFacts(formats);
      var i := FirstTallest(c);
      assert c[i] in c;
      assert forall f :: f in c ==> Height0(f) <= Height0(c[i]);
      Ok(c[i])
  }

  // ---------------------------------------------------------------------
  // extract_variants: one variant per video format with a height

  /** `if not height: continue` skips a missing or zero height. */
  predicate HasHeight(f: Format) {
    f.height.Some? && f.height.value > 0
  }

  /** The label `f"{height}p"`. */
  function QualityLabel(h: nat): string {
    NatToString(h) + "p"
  }

  /** The digits of a label give back its height, so distinct heights get
      distinct labels. */
  lemma QualityLabelDigits(h: nat)
    ensures KeepDigits(QualityLabel(h)) == NatToString(h)
    ensures DigitsToNat(KeepDigits(QualityLabel(h))) == h
  {
    KeepDigitsAppend(NatToString(h), "p");
    KeepDigitsOfDigits(NatToString(h));
  }

  lemma QualityLabelInjective(h1: nat, h2: nat)
    requires QualityLabel(h1) == QualityLabel(h2)
    ensures h1 == h2
  {
    QualityLabelDigits(h1);
    QualityLabelDigits(h2);
  }

  /** `str(f.get("format_id"))`: a missing id prints as "None". */
  function FormatIdText(o: Option<string>): string {
    match o
    case None => "None"
    case Some(s) => s
  }

  /** `f.get("filesize") or f.get("filesize_approx")`: a zero or missing
      size falls back to the approximate one, whatever it is. */
  function SizeOf(f: Format): Option<nat> {
    if f.filesize.Some? && f.filesize.value > 0 then f.filesize else f.filesizeApprox
  }

  /** `f.get("ext", "mp4")`. */
  function ExtOf(f: Format): string {
    match f.ext
    case None => "mp4"
    case Some(e) => e
  }

  function MakeVariant(f: Format): VideoVariant
    requires HasHeight(f)
  {
    VideoVariant(FormatIdText(f.formatId), QualityLabel(f.height.value), ExtOf(f), SizeOf(f))
  }

  /** The variants the loop of bot/downloader.py:134-147 appends. */
  function VariantsOf(fs: seq<Format>): seq<VideoVariant> {
    if fs == [] then []
    else
      var last := fs[|fs| - 1];
      VariantsOf(fs[..|fs| - 1]) + (if HasHeight(last) then [MakeVariant(last)] else [])
  }

  method BuildVariants(videoFormats: seq<Format>) returns (variants: seq<VideoVariant>)
    ensures variants == VariantsOf(videoFormats)
  {
    variants := [];
    for i := 0 to |videoFormats|
      invariant variants == VariantsOf(videoFormats[..i])
    {
      assert videoFormats[..i + 1][..i] == videoFormats[..i];
      var f := videoFormats[i];
      if !HasHeight(f) {
        continue;
      }
      variants := variants + [MakeVariant(f)];
    }
    assert videoFormats[..|videoFormats|] == videoFormats;
  }

  /** Exactly one variant per format with a height, in format order. */
  lemma {:induction false} VariantsFromFormats(fs: seq<Format>)
    ensures var hs := Filter(HasHeight, fs);
      && (forall f :: f in hs ==> HasHeight(f))
      && |VariantsOf(fs)| == |hs|
      && forall k :: 0 <= k < |hs| ==> VariantsOf(fs)[k] == MakeVariant(hs[k])
  {
    FilterMembers(HasHeight, fs);
    if fs != [] {
      var init := fs[..|fs| - 1];
      VariantsFromFormats(init);
      FilterMembers(HasHeight, init);
    }
  }

  // ---------------------------------------------------------------------
  // extract_variants: the best variant per label

  /** `v.filesize or 0`. */
  function Size0(v: VideoVariant): nat {
    match v.filesize
    case None => 0
    case Some(n) => n
  }

  /** The dictionary key of a variant. */
  function LabelOf(v: VideoVariant): string {
    v.qualityLabel
  }

  /** The dictionary `best_by_label`: its keys in insertion order and its
      entries. */
  datatype LabelTable = LabelTable(labels: seq<string>, best: map<string, VideoVariant>)

  /** One step of the loop of bot/downloader.py:151-157: a new label is
      appended; a known label's entry is replaced only by a strictly larger
      variant, keeping the label's position. */
  function Offer(t: LabelTable, v: VideoVariant): LabelTable {
    var l := v.qualityLabel;
    if l !in t.best then LabelTable(t.labels + [l], t.best[l := v])
    else if Size0(v) > Size0(t.best[l]) then LabelTable(t.labels, t.best[l := v])
    else t
  }

  function BestByLabel(vs: seq<VideoVariant>): LabelTable {
    if vs == [] then LabelTable([], map[])
    else Offer(BestByLabel(vs[..|vs| - 1]), vs[|vs| - 1])
  }

  /** Labels listed once each, exactly the keys, each keyed to a variant
      carrying that label. */
  predicate WellFormed(t: LabelTable) {
    (forall i, j :: 0 <= i < j < |t.labels| ==> t.labels[i] != t.labels[j])
    && (forall l :: l in t.labels ==> l in t.best)
    && (forall l :: l in t.best ==> l in t.labels)
    && (forall l :: l in t.best ==> t.best[l].qualityLabel == l)
  }

  /** `best_by_label.values()`, in key order. */
  function TableValues(t: LabelTable): seq<VideoVariant>
    requires WellFormed(t)
  {
    seq(|t.labels|, k requires 0 <= k < |t.labels| => t.best[t.labels[k]])
  }

  /** The values list each key's variant exactly once: no label is listed
      twice, and a label is listed exactly when it is a key. */
  lemma ValuesOncePerLabel(t: LabelTable)
    requires WellFormed(t)
    ensures DistinctBy(LabelOf, TableValues(t))
    ensures forall l :: l in t.best <==>
      exists k :: 0 <= k < |TableValues(t)| && TableValues(t)[k].qualityLabel == l
  {
    var r := TableValues(t);
    forall k | 0 <= k < |r| ensures r[k].qualityLabel == t.labels[k] {
      assert t.labels[k] in t.labels;
    }
    forall l | l in t.best ensures exists k :: 0 <= k < |r| && r[k].qualityLabel == l {
      var k :| 0 <= k < |t.labels| && t.labels[k] == l;
      assert r[k].qualityLabel == l;
    }
  }

  method DeduplicateByLabel(variants: seq<VideoVariant>) returns (unique: seq<VideoVariant>)
    ensures WellFormed(BestByLabel(variants))
    ensures unique == TableValues(BestByLabel(variants))
  {
    var labels: seq<string> := [];
    var bestByLabel: map<string, VideoVariant> := map[];
    for i := 0 to |variants|
      invariant LabelTable(labels, bestByLabel) == BestByLabel(variants[..i])
    {
      assert variants[..i + 1][..i] == variants[..i];
      var v := variants[i];
      if v.qualityLabel !in bestByLabel {
        labels := labels + [v.qualityLabel];
        bestByLabel := bestByLabel[v.qualityLabel := v];
        continue;
      }
      if Size0(v) > Size0(bestByLabel[v.qualityLabel]) {
        bestByLabel := bestByLabel[v.qualityLabel := v];
      }
    }
    assert variants[..|variants|] == variants;
    BestByLabelShape(variants);
    unique := seq(|labels|, k requires 0 <= k < |labels| => bestByLabel[labels[k]]);
  }

  /** The table is well formed, its keys are exactly the labels that
      occur, and every kept variant is one of the inputs. */
  lemma {:induction false} BestByLabelShape(vs: seq<VideoVariant>)
    ensures WellFormed(BestByLabel(vs))
    ensures forall l :: l in BestByLabel(vs).best <==>
      exists i :: 0 <= i < |vs| && vs[i].qualityLabel == l
    ensures forall l :: l in BestByLabel(vs).best ==> BestByLabel(vs).best[l] in vs
  {
    if vs != [] {
      var init := vs[..|vs| - 1];
      var x := vs[|vs| - 1];
      BestByLabelShape(init);
      assert forall i :: 0 <= i < |init| ==> vs[i] == init[i];
      var t := BestByLabel(init);
      var l := x.qualityLabel;
      if l !in t.best {
        assert forall i :: 0 <= i < |t.labels| ==> t.labels[i] in t.best;
      }
      forall m | m in BestByLabel(vs).best
        ensures exists i :: 0 <= i < |vs| && vs[i].qualityLabel == m
      {
        if m == l {
          assert vs[|vs| - 1].qualityLabel == m;
        } else {
          var i :| 0 <= i < |init| && init[i].qualityLabel == m;
          assert vs[i].qualityLabel == m;
        }
      }
    }
  }

  /** `vs[i]` is the first of the largest variants labelled `l`. */
  predicate IsFirstLargest(vs: seq<VideoVariant>, l: string, i: int) {
    0 <= i < |vs| && vs[i].qualityLabel == l
    && (forall j :: 0 <= j < |vs| && vs[j].qualityLabel == l ==> Size0(vs[j]) <= Size0(vs[i]))
    && (forall j :: 0 <= j < i && vs[j].qualityLabel == l ==> Size0(vs[j]) < Size0(vs[i]))
  }

  /** Each label keeps the first of its largest variants: a later variant
      wins only when strictly larger. */
  lemma {:induction false} BestIsFirstLargest(vs: seq<VideoVariant>, l: string)
    requires l in BestByLabel(vs).best
    ensures exists i :: IsFirstLargest(vs, l, i) && vs[i] == BestByLabel(vs).best[l]
  {
    var n := |vs| - 1;
    var init := vs[..n];
    var x := vs[n];
    var t := BestByLabel(init);
    if x.qualityLabel != l {
      BestIsFirstLargest(init, l);
      var i :| IsFirstLargest(init, l, i) && init[i] == t.best[l];
      FirstLargestExtend(vs, l, i);
    } else if l !in t.best {
      BestByLabelShape(init);
      FirstLargestLast(vs, init, l);
    } else {
      BestIsFirstLargest(init, l);
      var i :| IsFirstLargest(init, l, i) && init[i] == t.best[l];
      if Size0(x) > Size0(t.best[l]) {
        FirstLargestLast(vs, init, l);
      } else {
        FirstLargestExtend(vs, l, i);
      }
    }
  }

  /** A last variant that is not larger keeps the first largest one. */
  lemma FirstLargestExtend(vs: seq<VideoVariant>, l: string, i: int)
    requires |vs| > 0 && IsFirstLargest(vs[..|vs| - 1], l, i)
    requires vs[|vs| - 1].qualityLabel == l ==> Size0(vs[|vs| - 1]) <= Size0(vs[i])
    ensures IsFirstLargest(vs, l, i)
  {
    assert forall j :: 0 <= j < |vs| - 1 ==> vs[j] == vs[..|vs| - 1][j];
  }

  /** A last variant strictly larger than every earlier one with its label
      is the first largest. */
  lemma FirstLargestLast(vs: seq<VideoVariant>, init: seq<VideoVariant>, l: string)
    requires |vs| > 0 && init == vs[..|vs| - 1] && vs[|vs| - 1].qualityLabel == l
    requires forall j :: 0 <= j < |init| && init[j].qualityLabel == l ==>
      Size0(init[j]) < Size0(vs[|vs| - 1])
    ensures IsFirstLargest(vs, l, |vs| - 1)
  {
    assert forall j :: 0 <= j < |init| ==> vs[j] == init[j];
  }

  /** Keys keep their first-insertion position: the labels of any prefix
      are a prefix of the labels of the whole. */
  lemma {:induction false} LabelsGrow(vs: seq<VideoVariant>, n: nat)
    requires n <= |vs|
    ensures BestByLabel(vs[..n]).labels <= BestByLabel(vs).labels
    decreases |vs|
  {
    if n < |vs| {
      var init := vs[..|vs| - 1];
      assert init[..n] == vs[..n];
      LabelsGrow(init, n);
    } else {
      assert vs[..n] == vs;
    }
  }

  // ---------------------------------------------------------------------
  // extract_variants: ranking

  const QualityOrder: seq<string> := ["1080", "720", "480", "360", "240"]

  /** `xs.index(x) if x in xs else len(xs)`. */
  function IndexIn(xs: seq<string>, x: string): (i: nat)
    ensures i <= |xs|
    ensures i < |xs| ==> xs[i] == x && x !in xs[..i]
    ensures i == |xs| ==> x !in xs
  {
    if xs == [] then 0
    else if xs[0] == x then 0
    else
      var i := IndexIn(xs[1..], x) + 1;
      assert xs[..i] == [xs[0]] + xs[1..][..i - 1];
      i
  }

  /** The digits of a label, or "0" when it has none. */
  function LabelNumber(qualityLabel: string): string {
    var num := KeepDigits(qualityLabel);
    if num == "" then "0" else num
  }

  /** First component of `sort_key`: the label's position in
      `QUALITY_ORDER`, 5 for a label not listed. */
  function Rank(v: VideoVariant): nat {
    IndexIn(QualityOrder, LabelNumber(v.qualityLabel))
  }

  /** The rank of a label built from a height. */
  function HeightRank(h: nat): nat {
    if h == 1080 then 0 else if h == 720 then 1 else if h == 480 then 2
    else if h == 360 then 3 else if h == 240 then 4 else 5
  }

  lemma RankOfHeight(v: VideoVariant, h: nat)
    requires v.qualityLabel == QualityLabel(h)
    ensures Rank(v) == HeightRank(h)
  {
    QualityLabelDigits(h);
    var num := NatToString(h);
    assert LabelNumber(v.qualityLabel) == num;
    NumberInOrder(h);
  }

  lemma NumberInOrder(h: nat)
    ensures IndexIn(QualityOrder, NatToString(h)) == HeightRank(h)
  {
    var num := NatToString(h);
    IndexInOrder(num);
    QualityNumbers();
    NatToStringInjective(h, 1080);
    NatToStringInjective(h, 720);
    NatToStringInjective(h, 480);
    NatToStringInjective(h, 360);
    NatToStringInjective(h, 240);
  }

  /** `QUALITY_ORDER.index(num)`, or 5 when `num` is not listed. */
  lemma IndexInOrder(num: string)
    ensures IndexIn(QualityOrder, num) ==
      if num == "1080" then 0 else if num == "720" then 1 else if num == "480" then 2
      else if num == "360" then 3 else if num == "240" then 4 else 5
  {
    var q := QualityOrder;
    assert q[1..][1..][1..][1..][1..] == [];
  }

  lemma QualityNumbers()
    ensures NatToString(1080) == "1080" && NatToString(720) == "720"
    ensures NatToString(480) == "480" && NatToString(360) == "360"
    ensures NatToString(240) == "240"
  {
  }

  /** bot/downloader.py `sort_key`: the rank, then the size descending. */
  function SortKey(v: VideoVariant): (int, int) {
    (Rank(v), -(Size0(v) as int))
  }

  /** `sorted(best_by_label.values(), key=sort_key)`. */
  function SortVariants(vs: seq<VideoVariant>): seq<VideoVariant> {
    SortBy(SortKey, vs)
  }

  /** The ranked list is a permutation of its input, ordered by rank and
      then by size descending, and variants with the same rank and size
      keep their input order. */
  lemma SortVariantsSpec(vs: seq<VideoVariant>, rank: int, size: int)
    ensures var r := SortVariants(vs);
      && multiset(r) == multiset(vs)
      && (forall i, j :: 0 <= i < j < |r| ==>
            Rank(r[i]) < Rank(r[j]) || (Rank(r[i]) == Rank(r[j]) && Size0(r[i]) >= Size0(r[j])))
      && Filter(HasKey(SortKey, (rank, -size)), r) == Filter(HasKey(SortKey, (rank, -size)), vs)
  {
    SortSorted(SortKey, vs);
    SortStable(SortKey, vs, (rank, -size));
  }

  // ---------------------------------------------------------------------
  // extract_variants

  /** bot/downloader.py:127-131 and 167-175: the metadata with its
      fallbacks, and the ranked best variant per label. */
  function Resolve(d: InfoData): ExtractResult {
    var info := d.info;
    var table := BestByLabel(VariantsOf(d.videoFormats));
    BestByLabelShape(VariantsOf(d.videoFormats));
    ExtractResult(
      if Truthy(info.id) then info.id.value else "video",
      if Truthy(info.title) then info.title.value else "",
      OrElse(OrElse(info.uploader, info.channel), info.uploaderId),
      info.uploadDate,
      info.description,
      SortVariants(TableValues(table)),
      d.mediaType)
  }

  /** bot/downloader.py `extract_variants`; the error of `extract_info`
      propagates. */
  method ExtractVariants(url: string, fetch: string -> Option<Info>) returns (r: Result<ExtractResult>)
    ensures fetch(NormalizeTwitterUrl(url)).None? ==> r == Err(InvalidPostMessage)
    ensures fetch(NormalizeTwitterUrl(url)).Some? ==>
      r == Ok(Resolve(Classify(SelectEntry(fetch(NormalizeTwitterUrl(url)).value))))
  {
    var data := ExtractInfo(url, fetch);
    if data.Err? {
      return Err(data.message);
    }
    var info := data.value.info;
    var videoId := if Truthy(info.id) then info.id.value else "video";
    var title := if Truthy(info.title) then info.title.value else "";
    var uploader := OrElse(OrElse(info.uploader, info.channel), info.uploaderId);
    var variants := BuildVariants(data.value.videoFormats);
    var unique := DeduplicateByLabel(variants);
    var finalVariants := SortVariants(unique);
    r := Ok(ExtractResult(videoId, title, uploader, info.uploadDate, info.description,
                          finalVariants, data.value.mediaType));
  }

  /** The labels carried by a list of variants. */
  function OfferedLabels(vs: seq<VideoVariant>): set<string> {
    set v | v in vs :: v.qualityLabel
  }

  /** The labels of the formats that have a height. */
  function HeightLabels(fs: seq<Format>): set<string> {
    set f | f in fs && HasHeight(f) :: QualityLabel(f.height.value)
  }

  /** The offered labels are exactly the labels of the video formats that
      have a height. */
  lemma ResolvedLabels(d: InfoData)
    ensures OfferedLabels(Resolve(d).variants) == HeightLabels(d.videoFormats)
    ensures DistinctBy(LabelOf, Resolve(d).variants)
  {
    var fs := d.videoFormats;
    var built := VariantsOf(fs);
    BestByLabelShape(built);
    var values := TableValues(BestByLabel(built));
    var vs := Resolve(d).variants;
    assert vs == SortVariants(values);
    BuiltLabels(fs);
    KeptLabels(built);
    PermutedLabels(values, vs);
    ValuesOncePerLabel(BestByLabel(built));
    DistinctByPermutation(LabelOf, values, vs);
  }

  lemma BuiltLabels(fs: seq<Format>)
    ensures OfferedLabels(VariantsOf(fs)) == HeightLabels(fs)
  {
    BuiltHaveFormats(fs);
    FormatsGetBuilt(fs);
    forall l | l in HeightLabels(fs) ensures l in OfferedLabels(VariantsOf(fs)) {
      var f :| f in fs && HasHeight(f) && QualityLabel(f.height.value) == l;
      assert MakeVariant(f) in VariantsOf(fs);
    }
  }

  /** De-duplication keeps one variant for every label and no other. */
  lemma KeptLabels(vs: seq<VideoVariant>)
    ensures WellFormed(BestByLabel(vs))
    ensures OfferedLabels(TableValues(BestByLabel(vs))) == OfferedLabels(vs)
  {
    ValuesAreInputs(vs);
    InputsReachValues(vs);
    SameLabels(TableValues(BestByLabel(vs)), vs);
  }

  /** Kept variants drawn from the inputs, with one kept for every input's
      label, carry the same labels as the inputs. */
  lemma SameLabels(kept: seq<VideoVariant>, vs: seq<VideoVariant>)
    requires forall v :: v in kept ==> v in vs
    requires forall x :: x in vs ==> exists v :: v in kept && v.qualityLabel == x.qualityLabel
    ensures OfferedLabels(kept) == OfferedLabels(vs)
  {
    forall l | l in OfferedLabels(vs) ensures l in OfferedLabels(kept) {
      var x :| x in vs && x.qualityLabel == l;
      var v :| v in kept && v.qualityLabel == x.qualityLabel;
    }
  }

  lemma PermutedLabels(a: seq<VideoVariant>, b: seq<VideoVariant>)
    requires multiset(a) == multiset(b)
    ensures OfferedLabels(a) == OfferedLabels(b)
  {
    SameMembers(a, b);
  }

  /** Every kept variant is one of the inputs. */
  lemma ValuesAreInputs(vs: seq<VideoVariant>)
    ensures WellFormed(BestByLabel(vs))
    ensures forall v :: v in TableValues(BestByLabel(vs)) ==> v in vs
  {
    BestByLabelShape(vs);
    var t := BestByLabel(vs);
    forall v | v in TableValues(t) ensures v in vs {
      var k :| 0 <= k < |TableValues(t)| && TableValues(t)[k] == v;
      assert t.labels[k] in t.best;
    }
  }

  /** Every input's label has a kept variant. */
  lemma InputsReachValues(vs: seq<VideoVariant>)
    ensures WellFormed(BestByLabel(vs))
    ensures forall x :: x in vs ==>
      exists v :: v in TableValues(BestByLabel(vs)) && v.qualityLabel == x.qualityLabel
  {
    BestByLabelShape(vs);
    var t := BestByLabel(vs);
    forall x | x in vs
      ensures exists v :: v in TableValues(t) && v.qualityLabel == x.qualityLabel
    {
      var i :| 0 <= i < |vs| && vs[i] == x;
      assert x.qualityLabel in t.best;
      var k :| 0 <= k < |t.labels| && t.labels[k] == x.qualityLabel;
      assert TableValues(t)[k] in TableValues(t);
    }
  }

  lemma BuiltHaveFormats(fs: seq<Format>)
    ensures forall v :: v in VariantsOf(fs) ==> exists f :: f in fs && HasHeight(f) && v == MakeVariant(f)
  {
    var hs := Filter(HasHeight, fs);
    VariantsFromFormats(fs);
    FilterMembers(HasHeight, fs);
    forall v | v in VariantsOf(fs)
      ensures exists f :: f in fs && HasHeight(f) && v == MakeVariant(f)
    {
      var m :| 0 <= m < |VariantsOf(fs)| && VariantsOf(fs)[m] == v;
      assert hs[m] in hs;
    }
  }

  lemma FormatsGetBuilt(fs: seq<Format>)
    ensures forall f :: f in fs && HasHeight(f) ==> MakeVariant(f) in VariantsOf(fs)
  {
    var hs := Filter(HasHeight, fs);
    VariantsFromFormats(fs);
    FilterMembers(HasHeight, fs);
    forall f | f in fs && HasHeight(f) ensures MakeVariant(f) in VariantsOf(fs) {
      assert f in hs;
      var m :| 0 <= m < |hs| && hs[m] == f;
      assert VariantsOf(fs)[m] == MakeVariant(f);
    }
  }

  /** A variant built from a format of the given height. */
  function SampleVariant(h: nat): VideoVariant {
    VideoVariant("f", QualityLabel(h), "mp4", None)
  }

  /** Labels 360p, 1080p and 240p come out as 1080p, 360p, 240p. */
  lemma RankingExample()
    ensures SortVariants([SampleVariant(360), SampleVariant(1080), SampleVariant(240)])
      == [SampleVariant(1080), SampleVariant(360), SampleVariant(240)]
  {
    SampleKey(360);
    SampleKey(1080);
    SampleKey(240);
    SortThree(SampleVariant(360), SampleVariant(1080), SampleVariant(240));
  }

  /** Three variants where the middle one ranks first and the last one
      ranks last. */
  lemma SortThree(a: VideoVariant, b: VideoVariant, c: VideoVariant)
    requires PairLe(SortKey(b), SortKey(c)) && PairLe(SortKey(a), SortKey(c))
    requires !PairLe(SortKey(a), SortKey(b))
    ensures SortVariants([a, b, c]) == [b, a, c]
  {
    SortThreeBy(SortKey, a, b, c);
  }

  lemma SortThreeBy<T>(key: T -> (int, int), a: T, b: T, c: T)
    requires PairLe(key(b), key(c)) && PairLe(key(a), key(c)) && !PairLe(key(a), key(b))
    ensures SortBy(key, [a, b, c]) == [b, a, c]
  {
    assert [a, b, c][1..] == [b, c];
    SortTwoBy(key, b, c);
    assert [b, c][1..] == [c];
    assert InsertBy(key, a, [c]) == [a, c];
  }

  lemma SortTwoBy<T>(key: T -> (int, int), b: T, c: T)
    requires PairLe(key(b), key(c))
    ensures SortBy(key, [b, c]) == [b, c]
  {
    assert [b, c][1..] == [c];
    assert SortBy(key, [c]) == [c];
  }

  lemma SampleKey(h: nat)
    ensures SortKey(SampleVariant(h)) == (HeightRank(h), 0)
  {
    RankOfHeight(SampleVariant(h), h);
  }

  /** Three 720p variants of sizes 100, 200 and 200: the first of the two
      largest is kept. */
  lemma DedupExample()
    ensures var a := VideoVariant("1", "720p", "mp4", Some(100));
      var b := VideoVariant("2", "720p", "mp4", Some(200));
      var c := VideoVariant("3", "720p", "mp4", Some(200));
      BestByLabel([a, b, c]) == LabelTable(["720p"], map["720p" := b])
  {
    var a := VideoVariant("1", "720p", "mp4", Some(100));
    var b := VideoVariant("2", "720p", "mp4", Some(200));
    var c := VideoVariant("3", "720p", "mp4", Some(200));
    assert [a, b, c][..2] == [a, b];
    assert [a, b][..1] == [a];
    assert [a][..0] == [];
    assert BestByLabel([a]) == LabelTable(["720p"], map["720p" := a]);
    assert BestByLabel([a, b]) == LabelTable(["720p"], map["720p" := b]);
  }
}
