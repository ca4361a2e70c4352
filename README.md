# YouTube downloader core, modelled in Dafny

This project models the logic that turns an upstream extractor's answer into
what the downloader serves:

- the **format-catalog normaliser** of `getVideoInfo`;
- the **error messages** it produces;
- the **retry loop** of the serverless metadata endpoint;
- the **request guard chains** of both serverless endpoints;
- the **filename sanitiser**;
- the **delivery decision** of `downloadVideo`: direct stream, video-only stream, or best audio plus merge;
- the **temporary-file lifecycle** and the `headersSent`-guarded error replies.

The normaliser runs the same way in server.js and api/formats.js, so it is
modelled once and both places use it.

Modules, in dependency order:

| file | module | contents |
|---|---|---|
| wrappers.dfy | `Wrappers` | `Option`, `Result` |
| text.dfy | `Text` | decimal rendering of naturals and its inverse, `includes`, first index of a character |
| formats.dfy | `Formats` | upstream format records, the candidate filters, which format claims a height, the size and label rules |
| normalizer.dfy | `Normalizer` | the in-place stable sort on an array, the dedup loop, the specification `IsCatalog` and its uniqueness |
| video_info.dfy | `VideoInfo` | `getVideoInfo` of server.js with its error rewording |
| http.dfy | `Http` | request and response shapes, stream error replies guarded by `headersSent` |
| api_formats.dfy | `ApiFormats` | the retry loop and the handler of api/formats.js |
| title.dfy | `Title` | the title sanitiser and the filename |
| delivery.dfy | `Delivery` | itag lookup, best audio, the delivery plan, the Vercel flag |
| server_download.dfy | `ServerDownload` | `downloadVideo` as a class `Session` over temporary files, `headersSent` and replies |
| api_download.dfy | `ApiDownload` | the handler of api/download.js |

Representation choices:

- **JavaScript truthiness is explicit.**
  - `itag` is `Option<nat>`; it is truthy when it is `Some(n)` with `n != 0`.
  - `contentLength` and `lengthSeconds` are `Option<nat>`. `None` is a falsy string; `Some(n)` is a non-empty string, already parsed.
  - `height`, `fps`, `bitrate` and `audioBitrate` are naturals, with 0 for absent.
- **A requested itag is compared through one normalised key**, `Delivery.LooseKey`. This key stands for the string-to-number conversion that the source's loose `==` performs.
- **External calls are inputs.** URL validation, `ytdl.getInfo`, stream events, the ffmpeg outcome, the response's `finish` event and `process.env.VERCEL` are all inputs. In the guards and handlers (`FormatsGuard`, `DownloadGuard`, `HandleFormats`, `HandleDownload`) `validateURL` is a parameter of type `string -> bool`; `VideoInfo.GetVideoInfo`, `ApiFormats.FetchWithRetry` and `Session.DownloadVideo` take its verdict for the one URL as `urlValid: bool`. The upstream attempts of the retry loop are an oracle sequence.

## Model

| member | source | states |
|---|---|---|
| Formats.Filter | server.js:61-67 | the result is no longer than the input, holds only elements satisfying the predicate, and holds every input element that does |
| Formats.FilterConcat | server.js:61-67 | filtering distributes over concatenation, so the kept elements keep their upstream order and multiplicity |
| Formats.FilterSingle | server.js:61-67 | a single element is kept exactly when it satisfies the predicate |
| Formats.IsStrictCandidate | server.js:61-67 | (definition) the format has video, the 'mp4' container and a truthy height of at least 144 |
| Formats.LenientFilterIsStrict | server.js:72-80 | the lenient re-filter selects exactly the strict candidates, so an empty first result stays empty |
| Formats.FirstClaimIsEarliest | server.js:89-91 | the format that claims a height is the earliest one at that height with a truthy itag |
| Formats.FirstClaimExists | server.js:89-91 | any candidate with a truthy itag makes its height claimed |
| Formats.FirstClaimPrefix | server.js:89-91 | first seen wins: once a height is claimed, later formats never take it over |
| Formats.FirstClaimOfWithHeight | server.js:83-91 | which format claims a height depends only on the formats at that height, in their order |
| Formats.FileSize | server.js:94-100 | `contentLength` when truthy; else `floor(bitrate*lengthSeconds/8)` (stated as bounds on 8 times the result) when both are truthy; else null |
| Formats.QualityLabel | server.js:109 | `quality_label` parses back to the height, with an fps suffix exactly when fps > 30, and then the suffix is that fps; the parser takes numbers only without leading zeros |
| Formats.ParsedLabelIsCanonical | server.js:109-110 | a label that parses is the height, 'p' and the optional fps written without leading zeros, so the parse fixes the label string |
| Formats.MakeFormat | server.js:102-115 | the entry has the format's itag (non-zero), height, width, bitrate, hasAudio and hasVideo, 'mp4', isAdaptive == !hasAudio; fps is the format's fps, or 30 when falsy; the size rule; `quality_label` parses back to the height and the fps above 30; `qualityLabel` is the upstream label when non-empty, else one that parses back to the height |
| Normalizer.SwapKeepsByHeight | server.js:83 | swapping two neighbours of different heights keeps every height's subsequence |
| Normalizer.InsertAt | server.js:83 | one insertion pass extends the sorted prefix by one and keeps every height's subsequence |
| Normalizer.SortByHeightDesc | server.js:83 | sorts the array in place, descending by height; each height's formats keep their input order (stability) |
| Normalizer.KeepFirstPerHeight | server.js:86-117 | the result is the catalog: strictly descending heights; entries built from the first claimant of their height; every claimed height present; no longer than its input |
| Normalizer.CatalogOfSameByHeight | server.js:83-91 | a stable reordering by height does not change the catalog |
| Normalizer.CatalogEmptyIff | server.js:119-121 | the catalog is empty exactly when no upstream format passes the filter with a truthy itag |
| Normalizer.NormaliseFormats | server.js:61-123 | fails with 'No compatible MP4 formats found for this video' exactly when nothing is keepable; otherwise returns the catalog of the strict candidates, non-empty and no longer than the candidates (api/formats.js:53-114 runs the same steps) |
| Normalizer.DescendingSameElementsEqual | server.js:86-91 | two strictly descending height sequences with the same elements are equal |
| Normalizer.CatalogUnique | server.js:86-117 | the catalog specification determines the normaliser's output completely |
| Normalizer.CatalogEntry | server.js:102-115 | each entry comes from an upstream format that passed the filter, at the same height, with hasVideo, 'mp4' and height >= 144; it has that format's itag, width, bitrate and hasAudio, and isAdaptive == !hasAudio; fps is the format's fps, or 30 when falsy; the size rule holds; both labels parse back to the height |
| Normalizer.CatalogHeightsDistinct | server.js:87-91 | no two catalog entries share a height |
| VideoInfo.BuildInfo | server.js:125-134 | title, duration, uploader, view count and catalog are passed through; the thumbnail is the last one, and null exactly when there is none |
| VideoInfo.RewordError | server.js:139-147 | 'Video unavailable', then 'Could not extract functions', then '403', and the first match wins; the 'Failed to extract video information: ' prefix is used exactly when none matches |
| VideoInfo.RewordPlain | server.js:139-147 | a message lacking 'V', 'C', and '0' or '4' keeps the generic prefix |
| VideoInfo.GetVideoInfo | server.js:38-148 | an invalid URL gives the prefixed 'Invalid YouTube URL'; a fetch error is reworded; success holds exactly when something is keepable, with the catalog and the metadata fields; otherwise the prefixed 'No compatible MP4 formats' message |
| ApiFormats.FirstGood | api/formats.js:40-47 | the index of the first attempt whose fetch succeeds with a non-empty catalog; all earlier attempts fail |
| ApiFormats.Waits | api/formats.js:129-136 | the wait after the k-th failure is 2^k*1000 ms, and none follows the failure that uses up the retries |
| ApiFormats.WaitsValues | api/formats.js:129-136 | the waits are 2000 ms and then 4000 ms |
| ApiFormats.FetchWithRetry | api/formats.js:11-145 | at most 3 fetches; it returns on the first attempt that yields a catalog, and an empty catalog counts as a failure and is retried; the waits are the ones above; every failure, including an invalid URL, surfaces as the single generic message |
| ApiFormats.FormatsGuard | api/formats.js:155-173 | OPTIONS gives 200, any other non-GET 405, a missing url 400, an invalid url 400; it passes exactly a GET with a valid url |
| ApiFormats.HandleFormats | api/formats.js:148-184 | a guarded request makes no fetch and no wait; otherwise the fetch count and waits are those of the retry loop, and the reply is 200 exactly when some attempt is good, carrying the first good attempt's catalog and metadata, else 500 'Failed to fetch video information' with the generic details |
| Title.StripSpecial | server.js:169 | the result holds only word characters, whitespace, '.' and '-', holds every such character of the input, is no longer than it, and equals it when nothing is removed |
| Title.StripSpecialConcat | server.js:169 | stripping distributes over concatenation, so the kept characters keep their order and multiplicity |
| Title.StripSpecialSingle | server.js:169 | a single character survives exactly when it is a word character, whitespace, '.' or '-' |
| Title.CollapseSpaces | server.js:170 | leaves no whitespace and is no longer than its input |
| Title.CollapseAddsOnlyUnderscore | server.js:170 | every character of the result is a character of the input or '_' |
| Title.CollapsePlainPrefix | server.js:170 | whitespace-free text in front passes through unchanged; in particular collapsing is the identity on whitespace-free text |
| Title.CollapseRun | server.js:170 | a maximal whitespace run, of any length, becomes exactly one '_' and the text before it is unchanged |
| Title.CollapseKeepsVisible | server.js:170 | characters other than whitespace and '_' survive in order |
| Title.Truncate | server.js:171 | a prefix of at most n characters |
| Title.SanitiseTitle | server.js:168-171 | the sanitised title contains only `[A-Za-z0-9_.-]` and no whitespace, and has at most 100 characters (the same chain is at api/download.js:45-48) |
| Title.SanitiseSafeIdentity | server.js:168-171 | a safe title of at most 100 characters is unchanged |
| Title.SanitiseIdempotent | server.js:168-171 | sanitising twice gives the same result as once |
| Title.Filename | server.js:173 | the filename is the sanitised title followed by '.mp4', at most 104 characters, all of them in `[A-Za-z0-9_.-]` (also api/download.js:50) |
| Delivery.LooseKey | server.js:182 | a non-empty decimal key without a leading zero is the rendering of the number it converts to |
| Delivery.LooseKeyOfRendering | server.js:182 | the decimal rendering of a number converts to that number, and the empty string to 0 |
| Delivery.LooseKeyLeadingZero | server.js:182 | a leading zero does not change the number a digit string converts to |
| Text.DigitsRoundTrip | server.js:182 | a digit string without a leading zero renders back from its value |
| Delivery.FindByItag | server.js:182-185 | the index of the first format whose itag matches the key; None exactly when none matches (also api/download.js:57-60) |
| Delivery.BestAudio | server.js:227-237 | None exactly when there is no audio-only format; otherwise an audio-only format with the maximum audioBitrate, and every earlier audio-only format has a strictly lower bitrate (stable sort, earliest wins) |
| Delivery.PlanDownload | server.js:182-237 | not found exactly when no itag matches; direct exactly when the found format has video and audio; video-only exactly when it does not and no audio-only format exists; a merge uses the best audio-only format, also for an audio-only selection |
| Delivery.MergeAudioIsBest | server.js:227-237 | no audio-only format beats the merge's audio, and on a tie the chosen one comes no later |
| Delivery.IsVercel | api/download.js:31 | (definition) `VERCEL` is exactly '1' or 'true' |
| Http.NoRepliesAfterHeaders | server.js:204-211 | once headers are sent no stream error writes a reply |
| Http.StreamErrorReplies | api/download.js:86-94 | every reply a stream error writes is a 500 |
| Http.StreamErrorRepliesAtMostOne | server.js:204-211 | at most one error reply; exactly one when an error is the first event and headers were not sent, carrying that error's message |
| ServerDownload.UnlinkInOrder | server.js:325-334 | removes only existing files it names whose unlink does not throw, and nothing at all when the first one is absent or throws |
| ServerDownload.UnlinkExisting | server.js:340-346 | removes only existing files it names whose unlink does not throw, and nothing at all when the first existing one throws |
| ServerDownload.UnlinkInOrderPrefix | server.js:325-334 | the finish cleanup removes exactly the files before the first one that is missing or whose unlink throws |
| ServerDownload.FinishCleansUp | server.js:325-334 | when no unlink throws, the three temporary files are gone after 'finish' |
| ServerDownload.FinishStopsAtFirstFailure | server.js:325-334 | a throwing first unlink leaves all three files |
| ServerDownload.UnlinkExistingRemovesNamed | server.js:340-346 | when no unlink throws, the existence-guarded cleanup removes every named file |
| ServerDownload.FailureCleansUp | server.js:340-346 | after a failure with no unlink throwing, no temporary file is left |
| ServerDownload.UnlinkExistingRemovesMore | server.js:325-346 | the existence-guarded cleanup removes at least what the unguarded one removes |
| ServerDownload.Session.GuardedReply | server.js:348-353 | writes the reply only when headers were not sent; headers are sent afterwards |
| ServerDownload.Session.ServeMerge | server.js:240-354 | when creating the temporary directory throws: one 500 'Failed to download video' (the outer catch, server.js:366-374) and no file. On a download or remux failure: one 500 'Failed to merge video and audio' and the guarded cleanup, and no file is left when no unlink throws. On success: no reply, headers sent, and the files are the ordered cleanup's result after 'finish', or all three without it |
| ServerDownload.Session.DownloadVideo | server.js:157-375 | at most one error reply, only with headers sent. Gives 400 for an invalid URL, 500 'Failed to download video' when the fetch fails, the filename header from the sanitised title, and 400 'Requested format not found'. Direct replies are the guarded stream-error replies, and headers are sent once any event arrives; video-only writes no reply, and headers are sent once a chunk arrives; a merge is as above. Only a merge creates temporary files |
| ApiDownload.DownloadGuard | api/download.js:10-28 | OPTIONS gives 200, any other non-GET 405, a missing url or itag 400, an invalid url 400; it passes exactly a GET with both parameters and a valid url |
| ApiDownload.HandleDownload | api/download.js:31-97 | a guarded request yields the guard's reply and no filename; a fetch failure gives 500 'Failed to download video'; then the filename, 400 'Requested format not found', a 400 rejection with the Vercel error, details and suggested action exactly when `!hasAudio && hasVideo` on Vercel, and otherwise a direct stream of the found format whose error replies are the guarded stream-error replies |
| ApiDownload.GuardsPrecedeFetch | api/download.js:10-35 | a request the guards reject gets the same reply whatever the upstream and environment |
| ApiDownload.OffVercelAlwaysStreams | api/download.js:63-97 | off Vercel every found format is streamed directly: there is no merge path |
| Text.DigitsValueOfNatToString | server.js:109 | reading back a rendered natural gives the natural |
| Text.NotContainsMissingChar | server.js:139-143 | a message cannot include a pattern that uses a character the message lacks |

## Left out

- The `@distube/ytdl-core` library is foreign code, so it becomes model inputs:
  - `validateURL` is a function parameter or its verdict (see above);
  - `getInfo` is an input result;
  - download streams are event sequences;
  - the request headers it is given (user agents and so on) are not modelled.
- The ffmpeg remux is an external process. Together with the directory creation before it, it is modelled as a four-way outcome: creating the temporary directory throws, the downloads fail, the remux fails (possibly leaving the output file), or the merged file is produced.
- Stream piping and `Promise.all` concurrency are runtime plumbing. The two merge downloads are one joint outcome; the video-only path's stream errors have no handler in the source and are not modelled.
- `setTimeout` waiting: only the delay values are modelled (`ApiFormats.Waits`), not time.
- Console logging and progress reporting (server.js:214-219) use floating-point percentages and produce no state the core reads.
- `lastError` in api/formats.js is replaced by the generic message in the outer catch, so its value never reaches the caller and it is not tracked.
- Temporary-file names come from `Date.now()`; their uniqueness across concurrent requests is a concurrency concern. The three files are modelled as three distinct names.
- `fs.existsSync` of the temporary directory is not modelled: whether `mkdirSync` runs is folded into the merge outcome, whose `TempDirFailed` case stands for a throwing `mkdirSync` (answered by the outer catch).
- The read stream of the merged file (server.js:321-322) is not modelled; the source attaches no 'error' listener to it, so its failures are not handled there either.
- `parseInt`: `contentLength` and `lengthSeconds` arrive already parsed. A `lengthSeconds` that parses to NaN is not modelled.
- `bitrate * lengthSeconds / 8` is computed exactly on naturals, not in floating point.
- Formats.FileSize: does not model floating-point rounding of huge products, because bitrate times duration stays far below 2^53 for real videos.
- Delivery.LooseKey: covers plain decimal strings only. JavaScript's number conversion also accepts surrounding whitespace, signs, fractions, exponents and hex. Those strings map to `None`, which is correct for the non-numeric ones but wrong for the others.
- Delivery.BestAudio: `audioBitrate` is a natural. A missing `audioBitrate` makes the source's comparator return NaN, its order is then unspecified, and that case is not modelled.
- A query parameter given several times (an array in Express) is not modelled; parameters are absent or one string.
- `res.setHeader` for CORS and Content-Type and the response's `close` event are not modelled; they change no state the core reads. The `close` handler only logs, so disconnecting performs no cleanup (see below).
- Express routing of server.js (`/formats`, `/download`, `/`, `/health`), `listen` and shutdown are not part of this model. So are api/index.js and api/health.js, which only serve static files and a health check.
- Ordered cleanup vs. guaranteed cleanup: the cleanup comments at server.js:324 and server.js:339 suggest that the temporary files go on every exit path, client disconnect included. The code does less, and the model follows the code:
  - 'close' does nothing;
  - on 'finish' the unlinks run in order in one try, so a throwing unlink keeps the remaining files;
  - the failure cleanup also stops at the first unlink that throws.

  `ServerDownload.Session.DownloadVideo` states these cases, and the cleanup lemmas state when nothing is left.
- The directly streamed download is not cut off when the client disconnects, and no timeout bounds the metadata fetch. In the model neither leaves a trace in the state.
