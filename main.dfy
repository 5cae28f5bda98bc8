// The two message handlers of bot/main.py and the state they share: the
// in-memory session store CONTEXT, the download directory seen as a map from
// paths to contents, and the statistics table. What the chat transport
// sends is recorded as a list of `Sent` values; the extraction engine, the
// download and the statistics write are oracles passed in by the caller.

module Main {
  import opened Wrappers
  import opened Text
  import opened Utils
  import opened Downloader
  import opened Cache
  import opened Keyboards
  import opened Seqs

  const InvalidLinkMessage := "Invalid or unsupported link."
  const CheckingMessage := "Checking the post..."
  const FetchErrorMessage := "An error occurred while fetching video info."
  const NoVideoMessage := "This post does not contain a video."
  const ChooseQualityLine := "Choose video quality:"
  const InvalidSelectionMessage := "Invalid selection."
  const SessionExpiredMessage := "Session expired. Send the URL again."
  const DownloadingMessage := "Downloading..."
  const DownloadErrorMessage := "An error occurred while downloading."

  /** What a handler asks the chat transport to do. */
  datatype Sent =
    | Answer(text: string)                              // message.answer
    | EditStatus(text: string, keyboard: seq<Button>)   // status.edit_text; [] = no markup
    | CallbackAnswer(text: string, showAlert: bool)     // callback.answer
    | EditMessage(text: string)                         // callback.message.edit_text
    | SendVideo(path: string, caption: string)          // callback.message.answer_video

  /** The download oracle: it fails, or writes `files` into the download
      directory and returns the path `tempPath` of the one it produced. */
  datatype DownloadOutcome = DownloadFailed | Downloaded(files: FileSystem, tempPath: string)

  /** `download_variant` only returns a path it has checked to exist. */
  predicate ReturnsWrittenFile(d: DownloadOutcome) {
    d.Downloaded? ==> d.tempPath in d.files
  }

  /** One row of the statistics table. */
  datatype Stat = Stat(userId: int, url: string, videoId: string, quality: string)

  // ---------------------------------------------------------------------
  // Callback data

  /** `_, video_id, format_id, label = data.split(":", 3)`: the unpacking
      succeeds exactly when there are four fields. */
  function ParseCallback(data: string): (r: Option<(string, string, string)>)
    ensures r.Some? <==> multiset(data)[':'] >= 3
    ensures r.Some? ==> ':' !in r.value.0 && ':' !in r.value.1
  {
    var parts := Split(data, ':', 3);
    SplitJoins(data, ':', 3);
    JoinCount(parts, ':');
    if |parts| == 4 then Some((parts[1], parts[2], parts[3])) else None
  }

  /** Parsing undoes the encoding of bot/keyboards.py, the label may even
      hold ':'. */
  lemma ParseOfCallbackData(videoId: string, formatId: string, qualityLabel: string)
    requires ':' !in videoId && ':' !in formatId
    ensures ParseCallback(CallbackData(videoId, formatId, qualityLabel)) == Some((videoId, formatId, qualityLabel))
  {
    SplitFour("q", videoId, formatId, qualityLabel, ':');
    CallbackDataPieces(videoId, formatId, qualityLabel);
  }

  /** Conversely, data with the "q:" prefix that parses is the encoding of
      the fields it parses to. */
  lemma CallbackDataOfParse(data: string)
    requires StartsWith(data, "q:") && ParseCallback(data).Some?
    ensures var (v, f, l) := ParseCallback(data).value; data == CallbackData(v, f, l)
  {
    var parts := Split(data, ':', 3);
    SplitJoins(data, ':', 3);
    JoinFour(parts, ':');
    HeadIsQ(data, parts[0], parts[1] + ([':'] + (parts[2] + ([':'] + parts[3]))));
    CallbackDataPieces(parts[1], parts[2], parts[3]);
  }

  /** The callback data as its four colon-separated pieces. */
  lemma CallbackDataPieces(videoId: string, formatId: string, qualityLabel: string)
    ensures CallbackData(videoId, formatId, qualityLabel) ==
      "q" + ([':'] + (videoId + ([':'] + (formatId + ([':'] + qualityLabel)))))
  {
    assert "q:" == "q" + [':'];
  }

  /** The colon-free head of data starting with "q:" is "q". */
  lemma HeadIsQ(data: string, head: string, rest: string)
    requires StartsWith(data, "q:") && ':' !in head && data == head + ([':'] + rest)
    ensures head == "q"
  {
    assert data[..2] == "q:";
    assert data[0] == 'q' && data[1] == ':';
    assert data[|head|] == ':';
    assert forall j :: 0 <= j < |head| ==> data[j] == head[j] != ':';
    assert |head| == 1;
    assert head == [head[0]];
  }

  // ---------------------------------------------------------------------
  // handle_url

  /** The (format id, label) options offered for a list of variants. */
  function Options(vs: seq<VideoVariant>): seq<(string, string)> {
    seq(|vs|, i requires 0 <= i < |vs| => (vs[i].formatId, vs[i].qualityLabel))
  }

  /** The keyboard sent for a resolved post offers each quality once: one
      button per ranked variant, in rank order and captioned with its label,
      no caption twice, and the captions are exactly the labels of the video
      formats that have a height. */
  lemma KeyboardOffersEachLabelOnce(d: InfoData, videoId: string, buttons: seq<Button>)
    requires IsQualityKeyboard(buttons, videoId, Options(Resolve(d).variants))
    ensures |buttons| == |Resolve(d).variants|
    ensures forall i :: 0 <= i < |buttons| ==> buttons[i].text == Resolve(d).variants[i].qualityLabel
    ensures forall i, j :: 0 <= i < j < |buttons| ==> buttons[i].text != buttons[j].text
    ensures (set b | b in buttons :: b.text) == HeightLabels(d.videoFormats)
  {
    ResolvedLabels(d);
    KeyboardOfVariants(Resolve(d).variants, videoId, buttons);
  }

  /** The keyboard for variants with distinct labels shows each label once. */
  lemma KeyboardOfVariants(vs: seq<VideoVariant>, videoId: string, buttons: seq<Button>)
    requires IsQualityKeyboard(buttons, videoId, Options(vs)) && DistinctBy(LabelOf, vs)
    ensures |buttons| == |vs|
    ensures forall i :: 0 <= i < |buttons| ==> buttons[i].text == vs[i].qualityLabel
    ensures forall i, j :: 0 <= i < j < |buttons| ==> buttons[i].text != buttons[j].text
    ensures (set b | b in buttons :: b.text) == OfferedLabels(vs)
  {
    forall i | 0 <= i < |buttons| ensures buttons[i].text == vs[i].qualityLabel {
      assert buttons[i] == QualityButton(videoId, Options(vs)[i]);
    }
    forall i, j | 0 <= i < j < |buttons| ensures buttons[i].text != buttons[j].text {
      assert LabelOf(vs[i]) != LabelOf(vs[j]);
    }
    forall l | l in OfferedLabels(vs) ensures l in (set b | b in buttons :: b.text) {
      var v :| v in vs && v.qualityLabel == l;
      var i :| 0 <= i < |vs| && vs[i] == v;
      assert buttons[i] in buttons;
    }
  }

  /** The caption lines: author, title and date when truthy, then the prompt. */
  function CaptionLines(res: ExtractResult): (lines: seq<string>)
    ensures |lines| >= 1 && lines[|lines| - 1] == ChooseQualityLine
  {
    (if Truthy(res.uploader) then ["Author: " + res.uploader.value] else []) +
    (if res.title != "" then ["Title: " + res.title] else []) +
    (if Truthy(res.uploadDate) then ["Date: " + res.uploadDate.value] else []) +
    [ChooseQualityLine]
  }

  /** A field's line is in the caption exactly when the field is truthy. */
  lemma CaptionShowsTruthyFields(res: ExtractResult)
    ensures Truthy(res.uploader) ==> "Author: " + res.uploader.value in CaptionLines(res)
    ensures !Truthy(res.uploader) ==> forall l :: l in CaptionLines(res) ==> !StartsWith(l, "Author: ")
    ensures res.title != "" ==> "Title: " + res.title in CaptionLines(res)
    ensures res.title == "" ==> forall l :: l in CaptionLines(res) ==> !StartsWith(l, "Title: ")
    ensures Truthy(res.uploadDate) ==> "Date: " + res.uploadDate.value in CaptionLines(res)
    ensures !Truthy(res.uploadDate) ==> forall l :: l in CaptionLines(res) ==> !StartsWith(l, "Date: ")
  {
    assert ChooseQualityLine[0] == 'C';
    if Truthy(res.uploader) {
      assert ("Author: " + res.uploader.value)[0] == 'A';
    }
    if res.title != "" {
      assert ("Title: " + res.title)[0] == 'T';
    }
    if Truthy(res.uploadDate) {
      assert ("Date: " + res.uploadDate.value)[0] == 'D';
    }
    forall l | l in CaptionLines(res)
      ensures StartsWith(l, "Author: ") ==> Truthy(res.uploader)
      ensures StartsWith(l, "Title: ") ==> res.title != ""
      ensures StartsWith(l, "Date: ") ==> Truthy(res.uploadDate)
    {
      if |l| > 0 {
        assert l[..1] == [l[0]];
      }
    }
  }

  /** The key of the session store: the chat of the message, or the user. */
  function ContextKey(chat: Option<int>, userId: int, videoId: string): (int, string) {
    (if chat.Some? then chat.value else userId, videoId)
  }

  /** The filesystem after the downloaded file at `tempPath` is moved to
      the canonical `path`, an older file there removed first
      (bot/main.py:103-111). */
  function Promoted(fs: FileSystem, tempPath: string, path: string): (r: FileSystem)
    requires tempPath in fs
    ensures path in r && r[path] == fs[tempPath]
    ensures tempPath != path ==> tempPath !in r
    ensures forall p :: p != tempPath && p != path ==> (p in r <==> p in fs) && (p in r ==> r[p] == fs[p])
  {
    if tempPath == path then fs
    else (fs - {tempPath, path})[path := fs[tempPath]]
  }

  /** The files after a choice whose canonical file is `path`: unchanged on
      a cache hit or a failed download, promoted after a download. */
  function FilesAfterChoice(fs: FileSystem, path: string, download: DownloadOutcome): FileSystem
    requires ReturnsWrittenFile(download)
  {
    if path in fs || download.DownloadFailed? then fs
    else Promoted(fs + download.files, download.tempPath, path)
  }

  /** What the user is sent after "Downloading...": the video, or the
      download error; nothing when the message is no longer accessible. */
  function RepliesAfterChoice(fs: FileSystem, path: string, download: DownloadOutcome,
                              chat: Option<int>, qualityLabel: string): seq<Sent>
  {
    if chat.None? then []
    else if path !in fs && download.DownloadFailed? then [EditMessage(DownloadErrorMessage)]
    else [SendVideo(path, "Quality: " + qualityLabel)]
  }

  /** Whether the handler reaches `record_stat` and the write succeeds. */
  predicate RecordsStat(fs: FileSystem, path: string, download: DownloadOutcome,
                        chat: Option<int>, statWritten: bool)
  {
    chat.Some? && (path in fs || download.Downloaded?) && statWritten
  }

  /** On a cache hit the download oracle is not consulted: files and replies
      are the same whatever it would have returned. */
  lemma CacheHitIgnoresDownload(fs: FileSystem, path: string, d1: DownloadOutcome, d2: DownloadOutcome,
                                chat: Option<int>, qualityLabel: string)
    requires path in fs && ReturnsWrittenFile(d1) && ReturnsWrittenFile(d2)
    ensures FilesAfterChoice(fs, path, d1) == FilesAfterChoice(fs, path, d2) == fs
    ensures RepliesAfterChoice(fs, path, d1, chat, qualityLabel) == RepliesAfterChoice(fs, path, d2, chat, qualityLabel)
  {
  }

  /** A video the handler sends is a file that exists afterwards, and after
      a download it holds the downloaded content. */
  lemma ServedFileExists(fs: FileSystem, path: string, download: DownloadOutcome,
                         chat: Option<int>, qualityLabel: string)
    requires ReturnsWrittenFile(download)
    ensures forall m :: m in RepliesAfterChoice(fs, path, download, chat, qualityLabel) && m.SendVideo? ==>
      m.path == path && path in FilesAfterChoice(fs, path, download)
    ensures path !in fs && download.Downloaded? ==>
      FilesAfterChoice(fs, path, download)[path] == download.files[download.tempPath]
  {
  }

  /** The edit of the status message and the new session store after the
      extraction of `url` in chat `chatId` gave `result` (`None`: it failed). */
  predicate IsReport(edit: Sent, before: map<(int, string), string>, after: map<(int, string), string>,
                     chatId: int, url: string, result: Option<ExtractResult>)
  {
    if result.None? then
      edit == EditStatus(FetchErrorMessage, []) && after == before
    else if result.value.variants == [] then
      edit == EditStatus(NoVideoMessage, []) && after == before
    else
      var res := result.value;
      edit.EditStatus? && edit.text == JoinWith(CaptionLines(res), '\n') &&
      IsQualityKeyboard(edit.keyboard, res.videoId, Options(res.variants)) &&
      after == before[(chatId, res.videoId) := url]
  }

  /** Pressing a button of the keyboard sent for a stored session, in the
      same chat, finds that session again. */
  lemma ButtonFindsSession(context: map<(int, string), string>, chatId: int, userId: int, videoId: string,
                           options: seq<(string, string)>, buttons: seq<Button>, i: nat)
    requires (chatId, videoId) in context
    requires IsQualityKeyboard(buttons, videoId, options) && i < |buttons|
    requires ':' !in videoId && ':' !in options[i].0
    ensures StartsWith(buttons[i].callbackData, "q:")
    ensures ParseCallback(buttons[i].callbackData) == Some((videoId, options[i].0, options[i].1))
    ensures ContextKey(Some(chatId), userId, videoId) in context
  {
    ParseOfCallbackData(videoId, options[i].0, options[i].1);
  }

  class Bot {
    /** `settings.download_dir`. */
    const cacheDir: string
    /** SHA-256 as a hex digest. */
    const sha: string -> string
    /** The regular expression engine's `\w`. */
    const isWord: char -> bool
    /** The extraction engine, applied to the normalised URL. */
    const fetch: string -> Option<Info>

    /** CONTEXT: (chat or user id, video id) to the stashed URL. */
    var context: map<(int, string), string>
    /** The files on disk. */
    var fs: FileSystem
    /** The rows written by `record_stat`. */
    var stats: seq<Stat>

    constructor (cacheDir: string, sha: string -> string, isWord: char -> bool,
                 fetch: string -> Option<Info>, fs: FileSystem)
      ensures this.cacheDir == cacheDir && this.sha == sha && this.isWord == isWord && this.fetch == fetch
      ensures context == map[] && this.fs == fs && stats == []
    {
      this.cacheDir := cacheDir;
      this.sha := sha;
      this.isWord := isWord;
      this.fetch := fetch;
      context := map[];
      this.fs := fs;
      stats := [];
    }

    /** The result the extraction of `url` resolves to, if any. */
    function Resolved(url: string): Option<ExtractResult> {
      var info := fetch(NormalizeTwitterUrl(url));
      if info.None? then None else Some(Resolve(Classify(SelectEntry(info.value))))
    }

    /** bot/main.py `handle_url` for a text message in chat `chatId`. */
    method HandleUrl(chatId: int, text: string) returns (sent: seq<Sent>)
      modifies this
      ensures fs == old(fs) && stats == old(stats)
      ensures ExtractUrl(text, isWord).None? ==> sent == [Answer(InvalidLinkMessage)] && context == old(context)
      ensures ExtractUrl(text, isWord).Some? ==>
        var url := ExtractUrl(text, isWord).value;
        |sent| == 2 && sent[0] == Answer(CheckingMessage) &&
        IsReport(sent[1], old(context), context, chatId, url, Resolved(url))
    {
      var url := ExtractUrl(text, isWord);
      if url.None? {
        return [Answer(InvalidLinkMessage)];
      }
      sent := [Answer(CheckingMessage)];
      var result := ExtractVariants(url.value, fetch);
      var report := Report(chatId, url.value, if result.Ok? then Some(result.value) else None);
      sent := sent + [report];
    }

    /** bot/main.py:39-64: the status message is edited to the error, to
        "no video", or to the caption with the quality keyboard, and only
        in the last case the session is stored. */
    method Report(chatId: int, url: string, result: Option<ExtractResult>) returns (edit: Sent)
      modifies this
      ensures fs == old(fs) && stats == old(stats)
      ensures IsReport(edit, old(context), context, chatId, url, result)
    {
      if result.None? {
        return EditStatus(FetchErrorMessage, []);
      }
      var res := result.value;
      if res.variants == [] {
        return EditStatus(NoVideoMessage, []);
      }
      var keyboard := BuildQualityKeyboard(res.videoId, Options(res.variants));
      edit := EditStatus(JoinWith(CaptionLines(res), '\n'), keyboard);
      context := context[(chatId, res.videoId) := url];
    }

    /** bot/main.py:103-111: the downloaded file is moved to the canonical
        path unless it is already there. */
    method PromoteDownload(tempPath: string, filePath: string)
      requires tempPath in fs
      modifies this
      ensures fs == Promoted(old(fs), tempPath, filePath)
      ensures context == old(context) && stats == old(stats)
    {
      if tempPath != filePath {
        if filePath in fs {
          fs := fs - {filePath};
        }
        var moved := fs[tempPath];
        fs := (fs - {tempPath})[filePath := moved];
      }
    }

    /** bot/main.py `handle_quality_choice` for callback `data` pressed by
        `userId` on a message in chat `chat` (`None` when the message is no
        longer accessible). */
    method HandleQualityChoice(data: string, chat: Option<int>, userId: int,
                               download: DownloadOutcome, statWritten: bool) returns (sent: seq<Sent>)
      requires IsSha256Hex(sha)
      requires ReturnsWrittenFile(download)
      modifies this
      // CONTEXT is read with `get`, never popped.
      ensures context == old(context)
      // Data without the "q:" prefix is not routed to this handler.
      ensures !StartsWith(data, "q:") ==> sent == [] && fs == old(fs) && stats == old(stats)
      ensures StartsWith(data, "q:") && ParseCallback(data).None? ==>
        sent == [CallbackAnswer(InvalidSelectionMessage, true)] && fs == old(fs) && stats == old(stats)
      ensures StartsWith(data, "q:") && ParseCallback(data).Some? ==>
        var (videoId, formatId, qualityLabel) := ParseCallback(data).value;
        var path := CachedFilePath(cacheDir, BuildCacheKey(videoId, qualityLabel, sha));
        if ContextKey(chat, userId, videoId) !in context then
          sent == [CallbackAnswer(SessionExpiredMessage, true)] && fs == old(fs) && stats == old(stats)
        else
          fs == FilesAfterChoice(old(fs), path, download) &&
          sent == [CallbackAnswer(DownloadingMessage, false)] + RepliesAfterChoice(old(fs), path, download, chat, qualityLabel) &&
          stats == old(stats) +
            (if RecordsStat(old(fs), path, download, chat, statWritten)
             then [Stat(userId, context[ContextKey(chat, userId, videoId)], videoId, qualityLabel)] else [])
    {
      if !StartsWith(data, "q:") {
        return [];
      }
      var parsed := ParseCallback(data);
      if parsed.None? {
        return [CallbackAnswer(InvalidSelectionMessage, true)];
      }
      var (videoId, formatId, qualityLabel) := parsed.value;
      var key := ContextKey(chat, userId, videoId);
      if key !in context {
        return [CallbackAnswer(SessionExpiredMessage, true)];
      }
      var replies := ServeChoice(context[key], videoId, qualityLabel, chat, userId, download, statWritten);
      sent := [CallbackAnswer(DownloadingMessage, false)] + replies;
    }

    /** bot/main.py:82-123, once the session is found: serve the cached
        file, or download and promote it, then send it and record the
        statistic. */
    method ServeChoice(url: string, videoId: string, qualityLabel: string, chat: Option<int>, userId: int,
                       download: DownloadOutcome, statWritten: bool) returns (replies: seq<Sent>)
      requires IsSha256Hex(sha)
      requires ReturnsWrittenFile(download)
      modifies this
      ensures context == old(context)
      ensures var path := CachedFilePath(cacheDir, BuildCacheKey(videoId, qualityLabel, sha));
        fs == FilesAfterChoice(old(fs), path, download) &&
        replies == RepliesAfterChoice(old(fs), path, download, chat, qualityLabel) &&
        stats == old(stats) +
          (if RecordsStat(old(fs), path, download, chat, statWritten)
           then [Stat(userId, url, videoId, qualityLabel)] else [])
    {
      replies := [];
      var cacheKey := BuildCacheKey(videoId, qualityLabel, sha);
      var cached := IsCached(fs, cacheDir, cacheKey);
      var filePath: string;
      if cached.Some? {
        filePath := cached.value;
      } else {
        if download.DownloadFailed? {
          // Without an accessible message, `edit_text` itself fails.
          if chat.Some? {
            replies := [EditMessage(DownloadErrorMessage)];
          }
          return;
        }
        fs := fs + download.files;
        filePath := CachedFilePath(cacheDir, cacheKey);
        PromoteDownload(download.tempPath, filePath);
      }
      // Without an accessible message, `answer_video` fails and the
      // handler stops before recording the statistic.
      if chat.None? {
        return;
      }
      replies := [SendVideo(filePath, "Quality: " + qualityLabel)];
      // A failed statistics write is swallowed.
      if statWritten {
        stats := stats + [Stat(userId, url, videoId, qualityLabel)];
      }
    }
  }
}
