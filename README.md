# Twitter/X video bot: a verified model of its core

The bot accepts a Twitter/X post link in a chat. It resolves the video
qualities the post offers, shows them as an inline keyboard, and sends back
the chosen quality, caching each downloaded file on disk under a hashed
name. This project models that pipeline and proves what it promises:

- link recognition (`extract_url` and its regular expression) and host
  normalisation (`normalize_twitter_url`);
- the post-processing of the extraction engine's metadata:
  - first-entry selection and media classification;
  - `choose_best_format`;
  - building one variant per video format;
  - de-duplication per quality label;
  - ranking by `QUALITY_ORDER`, then by size;
- cache naming (`build_cache_key`, `get_cached_file_path`, `is_cached`)
  over an abstract file system;
- the quality keyboard and the parsing of its callback data;
- the two chat handlers. They are a class `Main.Bot` that holds the session
  store `CONTEXT`, the file system and the statistics rows.

Files:

- `wrappers.dfy`: `Option` and `Result`.
- `text.dfy`: the Python string operations the bot uses. These are
  `str.strip`, `in`, `str.replace`, `str.split(sep, n)`, `sep.join`, `str(n)`
  and keeping the digits of a string.
- `seqs.dfy`: filtering and a stable sort by a pair key, i.e. Python's
  `sorted`.
- `utils.dfy`, `downloader.dfy`, `cache.dfy`, `keyboards.dfy` and
  `main.dfy` follow `bot/utils.py`, `bot/downloader.py`, `bot/cache.py`,
  `bot/keyboards.py` and `bot/main.py`.

The model turns several external pieces into parameters:

- The extraction engine is a function from the normalised URL to an
  optional `Info` value. `None` stands for a falsy answer.
- SHA-256 is a function that is only known to return 64 lower-case hex
  characters.
- The regular expression class `\w` is a character predicate. It agrees
  with `[A-Za-z0-9_]` on ASCII and never holds for whitespace.
- A download is an oracle value. It either failed, or it wrote some files
  and returned the path of one of them.
- Whether the statistics write succeeded is a boolean.

## Model

Some definitions carry no contract of their own. Their meaning is stated by the lemmas about them:

- `Text.ReplaceAll` is `str.replace` (bot/downloader.py:15-19), stated by ReplaceAbsent, ReplaceIntroduces, ReplaceOnce and ReplaceKeepsStripped.
- `Downloader.Classify` is the classification of bot/downloader.py:84-95, stated by ClassifyMediaType.
- `Downloader.VariantsOf` is the variant loop of bot/downloader.py:134-147, stated by VariantsFromFormats and BuildVariants.
- `Downloader.BestByLabel` is the dictionary loop of bot/downloader.py:150-157, stated by BestByLabelShape, BestIsFirstLargest, LabelsGrow, KeptLabels and DeduplicateByLabel.
- `Downloader.SortKey` is `sort_key` (bot/downloader.py:160-163), stated by RankOfHeight and SortVariantsSpec.
- `Downloader.Resolve` is the body of `extract_variants` after extraction (bot/downloader.py:117-175), stated by ExtractVariants and ResolvedLabels.
- `Utils.MatchLength` is the pattern of bot/utils.py:5 tried at one index, stated by MatchLengthIff and MatchLengthShape.
- `Main.FilesAfterChoice` and `Main.RepliesAfterChoice` are the effects of bot/main.py:82-123, stated by Bot.ServeChoice, CacheHitIgnoresDownload and ServedFileExists.

| member | source | states |
|---|---|---|
| Text.Strip | bot/downloader.py:14 | the result has no whitespace at either end, and it is an infix of the input with only whitespace around it |
| Text.StripOfStripped | bot/utils.py:11 | stripping a string with no whitespace at its ends changes nothing |
| Text.ReplaceAbsent | bot/downloader.py:15 | `replace` leaves a string without the pattern unchanged |
| Text.ReplaceIntroduces | bot/downloader.py:17 | after `replace` of a pattern that occurs, the replacement text occurs |
| Text.ReplaceOnce | bot/downloader.py:17 | the only occurrence of the pattern is replaced and the text around it is kept |
| Text.NatToString | bot/downloader.py:139 | `str(height)` is a non-empty string of decimal digits that reads back as the height, with a leading zero only for 0 |
| Text.KeepDigitsAppend | bot/downloader.py:161 | keeping the digits distributes over concatenation |
| Text.FirstIndex | bot/main.py:70 | the index of the first separator, and `None` exactly when there is none |
| Text.Split | bot/main.py:70 | `split(sep, n)` gives 1 to n+1 parts; every part but the last is separator-free, and the last one is too when fewer than n cuts were made |
| Text.SplitJoins | bot/main.py:70 | joining the parts of `split` with the separator gives back the string |
| Text.JoinCount | bot/main.py:70 | joining parts puts exactly one separator between neighbours |
| Text.SplitFour | bot/main.py:70 | four fields, the first three separator-free, joined by the separator, split back into those fields |
| Seqs.FilterMembers | bot/downloader.py:84-87 | a filter keeps exactly the elements that satisfy the predicate |
| Seqs.FilterAppend | bot/downloader.py:84-87 | filtering distributes over concatenation, so the kept elements stay in their original order |
| Seqs.SortBy | bot/downloader.py:165 | `sorted` returns a permutation of its input |
| Seqs.SortSorted | bot/downloader.py:165 | the sorted list is ascending under Python's tuple order on the key |
| Seqs.SortStable | bot/downloader.py:165 | the elements sharing any one key keep their input order |
| Seqs.DistinctByPermutation | bot/downloader.py:165 | reordering a list whose labels are pairwise distinct keeps them pairwise distinct |
| Utils.PathRun | bot/utils.py:5 | the path part takes the longest run of characters of `[\w\-_/%.?=&]` |
| Utils.AlternativesExclusive | bot/utils.py:5 | no two alternatives of the scheme, host or domain group match at the same place, even case-insensitively |
| Utils.PrefixMatchComplete | bot/utils.py:5 | whatever scheme, host and domain match at an index is what the recogniser finds there |
| Utils.MatchLengthIff | bot/utils.py:5 | the recogniser finds a match at an index exactly when the pattern matches there |
| Utils.MatchLengthShape | bot/utils.py:5 | a found match has the pattern's shape, and the character after it is outside the path class |
| Utils.FirstMatchIsLeftmost | bot/utils.py:11 | the first index where the recogniser finds a match gives the leftmost match |
| Utils.Search | bot/utils.py:11-12 | a result is the leftmost, maximal match in the text; no result means no match starts anywhere |
| Utils.ExtractUrl | bot/utils.py:8-12 | empty text gives `None`; otherwise the result is the leftmost match in the stripped text, and `None` means there is no match |
| Utils.ShortLinkNotRecognised | bot/utils.py:5 | `https://t.co/abc` is not recognised, because `t.co` must be followed by `.co` or `.com` |
| Utils.UpperCaseRecognised | bot/utils.py:5 | `HTTPS://X.COM/a` is recognised whole |
| Utils.FragmentEndsMatch | bot/utils.py:5 | in `https://x.co/ab#c` the match is `https://x.co/ab`: `x.co` is accepted and `#` ends the path |
| Downloader.NormalizeTwitterUrl | bot/downloader.py:12-20 | the normalised URL has no whitespace at either end |
| Downloader.NormalizeKeepsCanonical | bot/downloader.py:14-19 | a URL that names `twitter.com` and no `mobile.twitter.com` comes back only stripped |
| Downloader.NormalizeMobileHost | bot/downloader.py:15 | a `mobile.twitter.com` URL loses `mobile.` and nothing else |
| Downloader.NormalizeXHost | bot/downloader.py:16-17 | an `x.com` post URL becomes the `twitter.com` URL of the same path |
| Downloader.NormalizeTcoHost | bot/downloader.py:18-19 | a `t.co` post URL becomes the `twitter.com` URL of the same path |
| Downloader.NormalizeIdempotentIff | bot/downloader.py:15-19 | normalising twice equals normalising once exactly when the first result holds no `mobile.twitter.com` |
| Downloader.NormalizeNotIdempotent | bot/downloader.py:15-17 | `https://mobile.x.com/<path>` becomes `https://mobile.twitter.com/<path>`, and only a second pass gives `https://twitter.com/<path>` |
| Downloader.FirstPresentEntry | bot/downloader.py:74-76 | the first non-null playlist entry, and `None` exactly when every entry is null |
| Downloader.SelectEntry | bot/downloader.py:72-76 | a playlist is replaced by its first non-null entry, and a playlist of nulls is kept as it is |
| Downloader.FilterVideoFormats | bot/downloader.py:84-87 | the loop keeps exactly the formats with a truthy codec other than "none" in an mp4 or webm container, in order |
| Downloader.ExtractInfo | bot/downloader.py:69-104 | a falsy engine answer is the error "Could not read post or URL is invalid."; otherwise the selected entry classified |
| Downloader.ClassifyMediaType | bot/downloader.py:84-95 | the video formats are exactly the qualifying formats; the media type is video, else gif, else photo, else none, each condition stated in both directions |
| Downloader.CandidatesFacts | bot/downloader.py:111-112 | when an mp4 exists the candidates are exactly the mp4 formats, otherwise exactly all the formats; they are non-empty for a non-empty list |
| Downloader.FirstTallest | bot/downloader.py:113-114 | the index of a tallest candidate that is strictly taller than every earlier one |
| Downloader.ChooseBestFormat | bot/downloader.py:107-114 | an error exactly on an empty list, with message "Video format not found."; otherwise an input format, mp4 whenever one exists, the first of the tallest candidates, and as tall as every mp4 of the input (every format when there is no mp4) |
| Downloader.QualityLabelDigits | bot/downloader.py:139 | the digits of the label `"<height>p"` read back as the height |
| Downloader.QualityLabelInjective | bot/downloader.py:139 | distinct heights get distinct labels |
| Downloader.BuildVariants | bot/downloader.py:134-147 | the loop appends the variant of each format with a height, in format order |
| Downloader.VariantsFromFormats | bot/downloader.py:134-147 | exactly one variant per format with a truthy height, in order, carrying its label, `str(format_id)`, extension and `filesize or filesize_approx` |
| Downloader.ValuesOncePerLabel | bot/downloader.py:150-165 | `values()` lists no label twice, and a label is listed exactly when it is a key of the dictionary |
| Downloader.DeduplicateByLabel | bot/downloader.py:150-157 | the loop's dictionary is well formed and the de-duplicated list is its values in insertion order |
| Downloader.BestByLabelShape | bot/downloader.py:150-157 | the keys are exactly the labels that occur, each listed once, and every kept variant is an input carrying its key |
| Downloader.BestIsFirstLargest | bot/downloader.py:151-157 | each label keeps the first of its variants with the largest `filesize or 0`; a later one wins only when strictly larger |
| Downloader.LabelsGrow | bot/downloader.py:150-157 | a label keeps its first insertion position when its value is replaced |
| Downloader.KeptLabels | bot/downloader.py:150-157 | de-duplication keeps one variant for every label that occurs and for no other |
| Downloader.DedupExample | bot/downloader.py:150-157 | of three 720p variants of sizes 100, 200 and 200, the first 200 is kept |
| Downloader.IndexIn | bot/downloader.py:162 | `xs.index(x)` when `x` is listed, otherwise `len(xs)` |
| Downloader.IndexInOrder | bot/downloader.py:42 | the rank of "1080", "720", "480", "360" and "240" is 0 to 4, and any other number ranks 5 |
| Downloader.RankOfHeight | bot/downloader.py:160-163 | the rank of a variant built from a height is that height's place in `QUALITY_ORDER`, or 5 |
| Downloader.SortVariantsSpec | bot/downloader.py:160-165 | the ranked list is a permutation ordered by rank and then by size descending, with ties in input order |
| Downloader.RankingExample | bot/downloader.py:160-165 | labels 360p, 1080p and 240p come out as 1080p, 360p, 240p |
| Downloader.SortThree | bot/downloader.py:165 | a variant that ranks above an earlier one moves ahead of it, and the last-ranked one stays last |
| Downloader.ExtractVariants | bot/downloader.py:117-175 | the extraction error propagates; otherwise the id, title and author with their fallbacks and the ranked best variant per label |
| Downloader.ResolvedLabels | bot/downloader.py:134-165 | the offered labels are exactly the labels of the video formats that have a height, and no two variants share a label |
| Cache.BuildCacheKey | bot/cache.py:6-8 | the key is 32 lower-case hex characters, a prefix of the digest of `"<video_id>:<label>"` |
| Cache.KeyDependsOnlyOnPreimage | bot/cache.py:6-8 | pairs with the same preimage string get the same key |
| Cache.ColonShiftsKeepKey | bot/cache.py:7 | moving text across a ':' between the video id and the label keeps the key |
| Cache.ColonCollision | bot/cache.py:7 | ("a:b", "c") and ("a", "b:c") get the same key |
| Cache.PreimageInjective | bot/cache.py:7 | without ':' in the video ids, the preimage determines the pair |
| Cache.PreimageAmbiguous | bot/cache.py:7 | with a ':' in the video id, another pair has the same preimage |
| Cache.PathJoin | bot/cache.py:12 | POSIX `os.path.join`: an absolute name replaces the directory; an empty directory gives the name; otherwise the directory, then exactly one '/' (its own trailing one or an added one), then the name |
| Cache.PathJoinExample | bot/cache.py:12 | ("/tmp/cache", "k.mp4") and ("/tmp/cache/", "k.mp4") both give "/tmp/cache/k.mp4", and an absolute name is kept |
| Cache.CachedFilePath | bot/cache.py:11-12 | the path ends in `"<key>.mp4"` |
| Cache.CachedFileInDirectory | bot/cache.py:11-12 | for a cache key the path is the directory, then one '/' unless the directory is empty or already ends in '/', then `"<key>.mp4"`: the file lies directly inside the cache directory |
| Cache.PathDeterminesKey | bot/cache.py:11-12 | in one directory, distinct keys have distinct paths |
| Cache.IsCached | bot/cache.py:15-17 | the canonical path when it exists and `None` otherwise; being a function, it changes no file |
| Keyboards.CallbackData | bot/keyboards.py:7 | the callback data starts with "q:" and is the three fields with four characters of framing |
| Keyboards.BuildQualityKeyboard | bot/keyboards.py:4-7 | one button per option, in input order, whose text is the label and whose data encodes video id, format id and label |
| Main.ParseCallback | bot/main.py:69-73 | the four-way unpacking succeeds exactly when the data holds at least three ':', and then the video and format ids are colon-free |
| Main.ParseOfCallbackData | bot/keyboards.py:7 | parsing a button's data gives back its video id, format id and label when the ids are colon-free, even if the label holds ':' |
| Main.CallbackDataOfParse | bot/main.py:70 | data that starts with "q:" and parses is exactly the encoding of the fields it parses to |
| Main.KeyboardOfVariants | bot/main.py:48-49 | the keyboard for variants with distinct labels has one button per variant, captioned with its label, and no caption twice |
| Main.KeyboardOffersEachLabelOnce | bot/main.py:48-49 | the keyboard sent for a resolved post offers each quality once, in rank order, and its captions are exactly the labels of the video formats with a height |
| Main.CaptionLines | bot/main.py:51-58 | the caption ends with "Choose video quality:" |
| Main.CaptionShowsTruthyFields | bot/main.py:52-57 | the author, title and date lines appear exactly when the fields are truthy |
| Main.Promoted | bot/main.py:103-111 | after promotion the canonical path holds the downloaded content, a different temporary path is gone, and no other path changes |
| Main.CacheHitIgnoresDownload | bot/main.py:85-90 | on a cache hit the files stay as they are and the replies do not depend on the download |
| Main.ServedFileExists | bot/main.py:103-117 | a sent video is the canonical path and exists afterwards; after a download it holds the downloaded content |
| Main.ButtonFindsSession | bot/main.py:63-79 | a button of the keyboard sent for a stored session passes the "q:" filter, parses to its fields and finds that session in the same chat |
| Main.Bot.constructor | bot/main.py:126 | the session store and the statistics start empty |
| Main.Bot.HandleUrl | bot/main.py:29-64 | no link gives "Invalid or unsupported link." and no new session; otherwise "Checking the post..." and then the report of the extraction |
| Main.Bot.Report | bot/main.py:39-64 | an extraction error or an empty variant list edits the status to the matching message and stores nothing; otherwise the caption and keyboard, and the session `(chat, video id)` set to the URL, overwriting any earlier one |
| Main.Bot.PromoteDownload | bot/main.py:103-111 | the file system becomes the promotion of the temporary file to the canonical path |
| Main.Bot.HandleQualityChoice | bot/main.py:67-123 | bad data gives "Invalid selection." and a missing session gives "Session expired. Send the URL again.", neither with effects; otherwise the session is kept and the cached or downloaded file is sent, the error is shown, and the statistic is recorded when written |
| Main.Bot.ServeChoice | bot/main.py:82-123 | the file system, the replies and the statistics after serving from the cache or downloading and promoting |

## Left out

- The calls to the extraction engine and the downloader: `extract_info` up to its engine call, and `download_format` and `download_variant` (bot/downloader.py:45-67 and 178 onwards). Their results are parameters or oracle values.
- SHA-256 internals and the UTF-8 encoding of the preimage. The digest is a parameter applied to the string.
- Python's Unicode `\w`. It is a predicate parameter, constrained only on ASCII and whitespace.
- The chat transport: message objects, `parse_mode`, `InlineKeyboardBuilder.adjust` and `as_markup`, polling, and the fixed `/start` reply. Replies are values of the `Sent` datatype.
- Settings loading and the sqlite statistics module. The download directory is a constant of the bot. The statistics write is a boolean outcome, and a failed write is swallowed.
- `human_readable_filesize`, because it uses floating point.
- Negative heights and sizes. A format's `height`, `filesize` and `filesize_approx` are natural numbers, so the model does not cover an engine that reports, say, a height of -1, for which the source would build the label "-1p" ranked last.
- Concurrency between handlers, and failures of `os.remove`. `os.replace` is one atomic step on the file-system map.
- Main.Bot.HandleUrl: `extract_variants` is an `async` function passed to `asyncio.to_thread` (bot/main.py:38). As written, that call returns an un-awaited coroutine. The model gives the handler the extraction result that was evidently intended.
- Main.Bot.HandleQualityChoice: the same holds for `download_variant` at bot/main.py:93. The model uses the intended download outcome.
- Main.Bot.HandleQualityChoice: a callback whose message is no longer accessible is modelled as the handler stopping at its first use of the message. The file work still happens, but nothing is sent and no statistic is written. A missing callback data string is modelled as the empty string.
- Main.Bot.HandleQualityChoice: the statistics row stores the user id as an integer, where the source passes `str(user_id)`.
- The session store has no expiry, because the source has none.
