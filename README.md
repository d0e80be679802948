# Wallpaper watcher: a Dafny model of its decision and placement logic

The wallpaper watcher follows subreddits and multireddits. Each image a post offers is
checked against the configured targets (destination folders with a minimum size, an aspect
ratio, a tolerance and an over-18 policy), and the image is downloaded once into the folder
of every target it suits. This project models four parts of it and proves their properties:

- **Target selection and source validation** (`wallpaperwatcher.py`):
  - the per-target suitability test, and the destinations and download list that
    `process_post` builds;
  - the start-up check that every configured source is used and every used source is
    configured.
- **File placement** (`downloader.py`):
  - the file name prefix and suffix derived from the URL path and the Content-Type;
  - the copy into each destination directory. It never overwrites a file. On a collision
    it probes `prefix (n)suffix` for n = 1, 2, …, or it skips the directory when
    existing files are to be skipped.
- **The streamed download** (`FileDownload.py`): the class `FileDownload`. It counts each
  chunk against a 50 MiB cap, hashes and writes the chunks it accepts, ignores the status
  line, refuses a second start, and gives a hash only once the download is done.
- **`SafeFilename`** (`SafeFilename.py`): the prefix with disallowed characters replaced
  by `_`, cut to 32 characters, and the suffix as it is.

Files:
- `common.dfy`: the `Option`, `Result` and `Outcome` types.
- `decimal.dfy`: decimal numerals, for `(n)` names and Content-Length.
- `pure_path.dfy`: `PurePath`'s stem and suffix split, and the safe character class
  `[A-Za-z0-9_.]`.
- `safe_filename.dfy`, `downloader.dfy`, `file_download.dfy`, `wallpaper_watcher.dfy`: one
  per source file.

How the model represents the system:
- The filesystem is the finite set of existing locations (directory, name). It is passed
  into the copy and returned from it.
- The HTTP fetch is a sequence of header-line and body-chunk events, plus a flag that says
  whether the fetch raised.
- SHA-256 is a function given to the `FileDownload` constructor. Its internals are not
  modelled.
- Exceptions are `Err`/`Fail` results.
- Aspect ratios are exact rationals (`real`), not floating-point numbers.

## Model

| member | source | states |
|---|---|---|
| `WallpaperWatcher.AspectRatio` | wallpaperwatcher.py:99 | the image ratio is width/height; a zero height raises (division by zero) |
| `WallpaperWatcher.Suits` | wallpaperwatcher.py:102-116 | a target is chosen iff the source is one of its sources, the image is at least as high and as wide as the target, the relative error \|(w/h − r)/r\| against the target's ratio r is within the tolerance, and the post is not over-18 unless the target allows it; it raises iff those first checks pass and r is zero |
| `WallpaperWatcher.DestinationsExact` | wallpaperwatcher.py:101-116 | the destinations are exactly the targets the image suits, no more than there are targets; choosing raises iff some target raises |
| `WallpaperWatcher.DestinationsPrefixRaises` | wallpaperwatcher.py:110-111 | an exception at one target ends the whole choice |
| `WallpaperWatcher.PathsOf` | wallpaperwatcher.py:116 | the download's directories are the chosen targets' paths, in target order |
| `WallpaperWatcher.SelectTargets` | wallpaperwatcher.py:101-116 | the loop over the targets builds the destinations the specification function gives, raising where it raises |
| `WallpaperWatcher.ImageDownload` | wallpaperwatcher.py:99-126 | an image schedules a download iff its destination set is non-empty, and that download carries the image URL, exactly those targets' paths and the skip flag; a zero height or a raising target raises |
| `WallpaperWatcher.SchedulePrefixRaises` | wallpaperwatcher.py:91-128 | once an image raises, no later image of the post is looked at |
| `WallpaperWatcher.ScheduledComplete` | wallpaperwatcher.py:118-126 | when nothing raises, every image that suits some target has its download scheduled |
| `WallpaperWatcher.ScheduledSound` | wallpaperwatcher.py:118-126 | every scheduled download is the download of one of the post's images |
| `WallpaperWatcher.ProcessPost` | wallpaperwatcher.py:73-128 | a post without a preview schedules nothing; otherwise the downloads are scheduled image by image, up to the first exception |
| `WallpaperWatcher.SuitabilityBoundary` | wallpaperwatcher.py:105-115 | for a 1920x1080, 16/9 target with 2% tolerance: 1920x1080 is taken; 1919x1080 (too narrow), 2560x1080 (ratio off by 1/3), an over-18 post and another source are not |
| `WallpaperWatcher.UsedSourcesMembers` | wallpaperwatcher.py:195-201 | the used sources are exactly the sources some target names |
| `WallpaperWatcher.FirstUnknown` | wallpaperwatcher.py:195-199 | finds the first target that names an undeclared source, or none when every target's sources are declared |
| `WallpaperWatcher.CheckSources` | wallpaperwatcher.py:181-204 | fails with NoSources when no subreddit or multi is declared; otherwise fails at the first target naming undeclared sources, giving the missing ones; otherwise fails with the declared sources no target uses; otherwise passes |
| `WallpaperWatcher.CheckPassesExactly` | wallpaperwatcher.py:192-204 | apart from the empty case, the check passes iff the declared sources equal the union of all targets' sources |
| `Decimal.NatToString` | downloader.py:68 | the count's numeral is non-empty, all digits, with no leading zero |
| `Decimal.ParseNat` | FileDownload.py:103 | a Content-Length is read iff it is a non-empty string of digits |
| `Decimal.ParseNatToString` | downloader.py:68 | reading back a count's numeral gives the count |
| `Decimal.NatToStringInjective` | downloader.py:66-71 | distinct counts have distinct numerals |
| `PurePaths.LastDot` | downloader.py:100 | finds the last '.' of a name, if any |
| `PurePaths.Suffix` | downloader.py:105 | the suffix is empty or a dot followed by at least one character and no other dot, and it ends the name |
| `PurePaths.Stem` | downloader.py:102 | the stem is the name without its suffix, and is non-empty when there is a suffix |
| `PurePaths.SplitJoined` | SafeFilename.py:24-28 | splitting a non-empty stem followed by an extension gives back that stem and extension |
| `SafeFilenames.ReplaceUnsafe` | SafeFilename.py:26 | the result has the input's length and only safe characters; a safe character is kept and any other becomes '_' |
| `SafeFilenames.SanitizePrefix` | SafeFilename.py:26 | the prefix has only characters in [A-Za-z0-9_.], has length min(len(stem), 32), and at each position keeps a safe stem character or has '_' |
| `SafeFilenames.NewSafeFilename` | SafeFilename.py:18-28 | uri is kept unchanged; prefix is the sanitised stem (same properties); suffix is exactly the path's suffix; the prefix is empty only for an empty name |
| `SafeFilenames.SanitizeSafe` | SafeFilename.py:26 | a safe string of at most 32 characters is its own prefix |
| `SafeFilenames.SanitizeIdempotent` | SafeFilename.py:26 | sanitising an already sanitised prefix changes nothing |
| `Downloader.DeleteUnsafe` | downloader.py:102 | the result has only characters in [A-Za-z0-9_.] and is no longer than the input |
| `Downloader.DeleteUnsafeAppend` | downloader.py:102 | deletion works character by character: it distributes over concatenation |
| `Downloader.DeleteUnsafeDropsUnsafe` | downloader.py:102 | a disallowed character contributes nothing to the result, wherever it stands (it is deleted, not replaced) |
| `Downloader.DeleteUnsafeKeepsSafe` | downloader.py:102 | an allowed character is kept, in place between the results for what precedes and what follows it |
| `Downloader.DeleteUnsafeFixed` | downloader.py:102 | a string is left unchanged iff all its characters are safe |
| `Downloader.DerivePrefix` | downloader.py:102 | the prefix is safe, at most 128 characters, and the first min(n, 128) of the n safe stem characters |
| `Downloader.DerivePrefixIdempotent` | downloader.py:102 | deriving a prefix from a derived prefix changes nothing |
| `Downloader.ContentTypeOf` | downloader.py:91-94 | the response's Content-Type, or "" without one |
| `Downloader.ChooseSuffix` | downloader.py:105-113 | the URL path's suffix is kept when non-empty; else the table's extension for a known content type; else no suffix |
| `Downloader.KnownTypesAreExtensions` | downloader.py:24-33 | every extension in the MIME table is a dot and letters, a suffix `PurePath` recognises |
| `Downloader.ChosenSuffixReadsBack` | downloader.py:105-113 | a file saved as a non-empty stem plus the chosen suffix reads back with that stem and suffix |
| `Downloader.NumberedNameInjective` | downloader.py:68 | different counts give different `prefix (n)suffix` names |
| `Downloader.ProbedBound` | downloader.py:65-71 | the probe cannot pass more counts than there are existing files, so it ends on every finite filesystem |
| `Downloader.FirstFreeUnique` | downloader.py:65-71 | there is only one smallest free count |
| `Downloader.FreeSlot` | downloader.py:65-71 | the probe returns the smallest n ≥ 1 whose `prefix (n)suffix` does not exist in the directory |
| `Downloader.NumberedNameIsFile` | downloader.py:68 | a numbered name is never empty, "." or "..", so it never denotes a directory |
| `Downloader.ProbeFreeName` | downloader.py:65-71 | the probe loop ends at the numbered name of the smallest free count |
| `Downloader.PlaceOne` | downloader.py:50-75 | the plain name is used when nothing exists there; when something does (a file, or the directory itself or its parent for the names "", "." and ".."), skipping gives nothing and otherwise the first free numbered name is used; a chosen location never exists already and never denotes a directory |
| `Downloader.PlacementSafe` | downloader.py:47-76 | no location returned existed before or denotes a directory, none is returned twice, and the filesystem gains exactly those; each directory gives at most one location, in directory order, and exactly one when not skipping |
| `Downloader.CopyToDestinations` | downloader.py:44-76 | the directory loop and the probe loop compute the placement the specification gives |
| `Downloader.DownloadImage` | downloader.py:97-115 | copies under the derived prefix and chosen suffix, never to an existing location, and to every directory when not skipping |
| `Downloader.CollidingCopies` | downloader.py:58-74 | with `photo.jpg` present, a copy goes to `photo (1).jpg` and the next one to `photo (2).jpg` |
| `FileDownloads.Trim` | FileDownload.py:60 | the header value has no surrounding white space |
| `FileDownloads.TrimCutsOnlySpace` | FileDownload.py:60 | the trimmed value is a slice of the text, and everything cut off before and after it is white space |
| `FileDownloads.FirstColon` | FileDownload.py:60 | finds the colon that separates a header's name from its value |
| `FileDownloads.ParseLine` | FileDownload.py:60 | a `Name: value` line stores the trimmed text after the first colon under the name before it, or appends it after a comma to an existing value, and leaves the other entries alone; a line without a colon changes nothing |
| `FileDownloads.FailingChunk` | FileDownload.py:66-68 | a failing run stops at a chunk |
| `FileDownloads.RunStoresBody` | FileDownload.py:65-70 | after a run within the cap, the byte count is the total length of all chunks, and the hashed and written bytes are all chunks concatenated in order |
| `FileDownloads.RunWithinCap` | FileDownload.py:66-68 | a run from within the cap succeeds iff the cumulative byte count stays at or below 50 MiB |
| `FileDownloads.RunFailure` | FileDownload.py:66-70 | when the cap is exceeded, the chunk that exceeds it is counted but neither hashed nor written, and everything before it was |
| `FileDownloads.RunParsesHeaders` | FileDownload.py:57-63 | the first header line (the status line) is never parsed; every later line is, in order |
| `FileDownloads.StatusLineIgnored` | FileDownload.py:59-63 | the text of the status line has no effect on the download's state |
| `FileDownloads.FileDownload.constructor` | FileDownload.py:43-55 | nothing received, hashed or written; no headers, no hash; not started, not done, status line not seen |
| `FileDownloads.FileDownload.ProcessHeader` | FileDownload.py:57-63 | the first call only notes the status line; later calls parse the line into the headers |
| `FileDownloads.FileDownload.ProcessChunk` | FileDownload.py:65-70 | the count grows by the chunk's length; past 50 MiB it fails and the chunk is neither hashed nor written; otherwise the chunk is appended to both |
| `FileDownloads.FileDownload.Start` | FileDownload.py:72-91 | a second start fails and changes nothing; otherwise the download is marked started before the fetch, the events are processed in order, and only a completed fetch stores the hash of the written bytes and then marks the download done, returning the headers |
| `FileDownloads.FileDownload.IsDone` | FileDownload.py:93-94 | done exactly when the hash has been computed |
| `FileDownloads.FileDownload.IsStarted` | FileDownload.py:96-97 | not started implies not done and no hash |
| `FileDownloads.FileDownload.GetProgress` | FileDownload.py:99-107 | 100 once done; minus the bytes received when Content-Length is absent or zero; else the percentage received; a non-numeric Content-Length fails |
| `FileDownloads.FileDownload.GetHash` | FileDownload.py:109-112 | fails while no hash has been computed, and otherwise gives it |
| `FileDownloads.FileDownload.GetMimeType` | FileDownload.py:114-117 | fails without a Content-Type header, and otherwise gives its value |
| `FileDownloads.HashReadableOnlyWhenDone` | FileDownload.py:83-86 | the hash is readable exactly when the download is done (the hash is stored before done is set) |
| `FileDownloads.ProgressWithinKnownLength` | FileDownload.py:103-107 | with a known length not yet exceeded, progress is between 0 and 100 |

## Left out

- The polling loop is not modelled: the tornado IO loop, the periodic callback, the
  SIGTERM handler and `shutdown`, and the praw streams and `next(source)` in
  `fetch_latest`. These are I/O and process lifecycle.
- Argument parsing and logging setup are not modelled.
- The concurrent side of downloading is not modelled: `asyncio.create_task`,
  `asyncio.wait` and the download semaphore in `do_download`. `ProcessPost` returns the
  downloads scheduled before an exception. They would still run, since their tasks
  already exist.
- `asyncreddit.py` (the Reddit API client) and `management_app.py` (the web handler) are
  not part of this model.
- Configuration loading is not part of this model. The model has no `config_objects`.
  Targets are a sequence in dictionary order whose names are distinct. A missing
  subreddit or multi section is an empty set.
- Each image record is assumed well-formed. `jsons.load(image['source'], RedditImage)`
  raises on a record with no `source` key or with a malformed one, which ends the post
  like a zero height does. The model's `Image` always has a URL, a width and a height.
- `post.preview['images']` is modelled as present or absent. A preview without an
  `images` key, which raises KeyError, is not modelled.
- URL parsing (`urllib3.parse_url`) and `PurePath`'s split of a path into components are
  not modelled. The final component of the URL's path is an input. Its stem and suffix
  follow `PurePath`'s rule.
- The model does not check that the temporary file is flushed or that the bytes copied
  match it. `shutil.copyfile` and `NamedTemporaryFile` become the addition of a location
  to the set of existing files. `mkdir` is not modelled: the empty name and "." denote the
  directory it creates, so they always exist. Directory paths are not normalised: a
  location is a (directory, name) pair, so two spellings of one directory are two
  directories.
- Copy and mkdir failures are not modelled.
- Of the names that denote something other than a file in the directory, only the
  empty name, "." and ".." are modelled. They always exist. The prefix holds only
  `[A-Za-z0-9_.]`, but a suffix taken from the URL path may hold other characters. The
  filesystem's treatment of such a suffix is not modelled.
- Tornado's header parsing is simplified:
  - header names are compared exactly, not case-insensitively;
  - continuation lines are not supported;
  - a line without a colon is ignored (tornado raises);
  - `Trim` strips only space, tab, carriage return and line feed. Python's `strip()`
    also strips the other Unicode white-space characters.
- The SHA-256 computation itself is not modelled. The hash is the given digest function
  applied to the bytes fed to the hasher.
- The `filestream` argument and the unused `_bytes_total` field of `FileDownload` are not
  modelled. Written bytes start empty.
- `FileDownloads.FileDownload.GetProgress`: reads Content-Length as a decimal numeral.
  Python's `float()` also accepts signs, fractions, exponents and surrounding spaces.
  The percentage is exact, not floating point.
- `WallpaperWatcher.Suits`: the ratio test uses exact rationals. Floating-point rounding
  at the tolerance boundary is not modelled.
- `Downloader.ChosenSuffixReadsBack`: covers only a non-empty chosen suffix. With no
  suffix, truncation to 128 characters can leave a stem in which `PurePath` finds a
  suffix.
