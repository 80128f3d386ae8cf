# Ubuntu Image Fetcher — a Dafny model

The Ubuntu Image Fetcher is a small command-line program. It reads image
URLs typed by the user, one or more per line and separated by commas, until
a line that reads "done". It then downloads each URL in turn into the folder
`Fetched_Images`. A reply whose `Content-Type` does not begin with `image/`
is skipped. A file whose name already exists is not written again. Network
errors and other errors are reported, and the next URL is processed anyway.

This project models that program in four modules:

- `Text` (`text.dfy`) holds the Python built-ins the program relies on.
  These are `str.strip` (using the exact code-point set of `str.isspace`),
  `str.lower` for ASCII letters, `str.startswith` and `str.split` with an
  explicit separator. It also holds the POSIX `os.path.basename` and
  `os.path.join`.
- `Fetcher` (`fetcher.dfy`) models `is_valid_image`,
  `get_filename_from_url` and `download_image`. `Download` is the
  specification: download_image as a function from the filesystem before
  the call to the reported outcome and the filesystem after it.
  `FileStore.DownloadImage` is the imperative version. It updates a
  `FileStore` object in place, and its contract says it follows `Download`.
- `Collector` (`collector.dfy`) models the `while True` loop of `main` that
  collects the URLs. `Collect` is the reference definition, one line at a
  time. `CollectUrls` is the loop itself.
- `Driver` (`driver.dfy`) models the `for url in urls` loop and `main` as a
  whole. `DownloadAll` is the fold of `Download` over the URLs. `FetchAll`
  and `Run` are the methods. The lemmas cover the write-once promise:
  1. a file, once saved, is never overwritten;
  2. it is still there, unchanged, at the end of the run;
  3. a later URL with the same file name is reported as a duplicate when
     its own reply is an image.

The filesystem is a map from path to file bytes plus a set of directory
paths. The network is a parameter `network(i, url)` giving the reply that
the i-th URL of the list would receive (no request is sent for it when the
folder cannot be made). `urlparse(url).path` is a parameter `pathOf`. The lines that
`input()` would return are a sequence of strings.

Note the order of the checks in the code:

- The reply is fetched and its content type is checked *before* the
  existing-file check (`python_libraries_week_6_assignment.py:20-36`).
- So a second submission of the same URL never overwrites the first file.
  But it is reported as "already downloaded" only when its own reply is
  again a successful image reply.
- Otherwise it is reported as a network error or as not-an-image.
- `Driver.SameNameNeverOverwritten` states exactly this.

## Model

| member | source | states |
|---|---|---|
| Text.IsSpace | python_libraries_week_6_assignment.py:61-63 | the code points str.isspace accepts, as a fixed table of ranges; the whitespace strip() removes |
| Text.Strip | python_libraries_week_6_assignment.py:61-63 | str.strip(): the text between the leading and the trailing whitespace runs; StripBounds states its properties |
| Text.StripBounds | python_libraries_week_6_assignment.py:61-63 | the stripped text neither starts nor ends with a character for which str.isspace holds; it is the stretch of the input after its leading whitespace; only whitespace follows it; it is empty exactly when the input is all whitespace (so `if u.strip()` drops exactly the blank pieces) |
| Text.AllSpaceAt | python_libraries_week_6_assignment.py:63 | a string is blank exactly when every character is whitespace |
| Text.LeadingSpaceRun | python_libraries_week_6_assignment.py:61-63 | the leading-whitespace run that strip removes is all whitespace, and maximal |
| Text.TrailingSpaceRun | python_libraries_week_6_assignment.py:61-63 | the trailing-whitespace run that strip removes is all whitespace, and maximal |
| Text.ToLower | python_libraries_week_6_assignment.py:61 | lower() keeps the length and lowers each character in place |
| Text.StartsWith | python_libraries_week_6_assignment.py:8 | startswith holds exactly when the prefix fits and equals the first characters |
| Text.Split | python_libraries_week_6_assignment.py:63 | line.split(','): at least one piece, and no piece contains the separator |
| Text.SplitJoin | python_libraries_week_6_assignment.py:63 | joining the pieces with ',' gives the line back, and there is one piece more than there are commas |
| Text.SegmentStart | python_libraries_week_6_assignment.py:12 | rfind('/')+1: no '/' from there on, and the character just before it is '/' |
| Text.Basename | python_libraries_week_6_assignment.py:12 | os.path.basename: the result holds no '/' |
| Text.JoinPath | python_libraries_week_6_assignment.py:31 | os.path.join: the name ends the path; a relative name comes right after the folder and exactly one '/', or no '/' when the folder is empty or already ends in one; an absolute name replaces the folder |
| Text.BasenameOfJoin | python_libraries_week_6_assignment.py:31 | the basename of join(folder, name) is name, for a non-empty name without '/' |
| Text.BasenameAfterSlash | python_libraries_week_6_assignment.py:12 | after an empty prefix or one ending in '/', the basename is whatever follows |
| Fetcher.HeaderOrEmpty | python_libraries_week_6_assignment.py:7 | headers.get('Content-Type', ''): the header's value, or "" when there is none |
| Fetcher.IsValidImage | python_libraries_week_6_assignment.py:6-8 | valid exactly when a Content-Type header is present and its value begins with "image/"; a missing header is never valid |
| Fetcher.FilenameFromPath | python_libraries_week_6_assignment.py:10-13 | the name is never empty and never holds '/'; the fallback "downloaded_image.jpg" is used for an empty path or one ending in '/'; for any other path the name is the text after its last '/' (or the whole path when it has none) |
| Fetcher.TargetPath | python_libraries_week_6_assignment.py:30-31 | os.path.join(dest_folder, get_filename_from_url(url)); TargetPathLonger and TargetPathInFolder state its properties |
| Fetcher.RaisesForStatus | python_libraries_week_6_assignment.py:22 | raise_for_status raises exactly for a status in 400..599 |
| Fetcher.Failed | python_libraries_week_6_assignment.py:21-22 | the request ends in a RequestException: a transport failure, or a 4xx/5xx status |
| Fetcher.CanMakeDirs | python_libraries_week_6_assignment.py:18 | os.makedirs(dest_folder, exist_ok=True) succeeds: the folder is non-empty and no regular file sits at its path |
| Fetcher.Exists | python_libraries_week_6_assignment.py:34 | os.path.exists: a file or a directory is at the path |
| Fetcher.TargetExists | python_libraries_week_6_assignment.py:34 | os.path.exists(filepath) after makedirs: something is at the target path, or the name is "." or "..", which join to the folder itself or its parent |
| Fetcher.TargetPathLonger | python_libraries_week_6_assignment.py:30-31 | the target path is longer than the folder, so it is never the folder itself |
| Fetcher.TargetPathInFolder | python_libraries_week_6_assignment.py:30-31 | the file sits directly inside the folder: the target is the folder, one '/' (none when the folder already ends in '/') and the derived name, or the name alone for an empty folder; its basename is that name |
| Fetcher.Download | python_libraries_week_6_assignment.py:15-48 | each outcome occurs exactly under its own condition, in the order makedirs failure, request failure or 4xx/5xx, non-image type, existing path, write; only a write changes the files, and it adds exactly one entry, at a path that did not exist, holding the reply body; the folder is created unless makedirs fails; no existing file changes |
| Fetcher.FileStore.DownloadImage | python_libraries_week_6_assignment.py:15-48 | the imperative download_image returns the outcome Download gives, and leaves the files and directories Download gives |
| Fetcher.SavesCatPng | python_libraries_week_6_assignment.py:21-43 | an "image/png" reply for a path ending in "/cat.png", with no Fetched_Images/cat.png yet, saves Fetched_Images/cat.png with exactly the reply bytes; nothing else changes but the folder being created |
| Fetcher.CatPngName | python_libraries_week_6_assignment.py:10-13 | a path ending in "/cat.png" gives the file name "cat.png" |
| Fetcher.DotPathIsDuplicate | python_libraries_week_6_assignment.py:30-36 | an image reply for a path ending in "/." (the folder itself) is reported as already downloaded and no file is written |
| Fetcher.SkipsHtml | python_libraries_week_6_assignment.py:24-27 | a "text/html" reply is skipped and no file is written |
| Fetcher.NotFoundIsNetworkError | python_libraries_week_6_assignment.py:18-46 | a 404 reply is a connection error; no file is written, but the folder exists |
| Fetcher.RootPathFallsBack | python_libraries_week_6_assignment.py:12-13 | the path "/" gives the fallback name |
| Collector.IsTerminator | python_libraries_week_6_assignment.py:61 | line.strip().lower() == "done" |
| Collector.TerminatorIgnoresCaseAndSpace | python_libraries_week_6_assignment.py:61 | a line ends collection exactly when, stripped, it is "done" in any mix of upper and lower case |
| Collector.Cleaned | python_libraries_week_6_assignment.py:63 | the comprehension keeps no more URLs than there are pieces |
| Collector.CleanedEntries | python_libraries_week_6_assignment.py:63 | from pieces without ',', every URL kept is non-empty, has no whitespace at either end and holds no ',' |
| Collector.Shifted | python_libraries_week_6_assignment.py:63 | every position is moved one place on |
| Collector.NonBlankPositions | python_libraries_week_6_assignment.py:63 | positions in increasing order, each of a piece that is not blank |
| Collector.NonBlankPositionsComplete | python_libraries_week_6_assignment.py:63 | every non-blank piece's position is listed |
| Collector.CleanedSelectsNonBlank | python_libraries_week_6_assignment.py:63 | the k-th URL of a line is its k-th non-blank piece, stripped: order kept, nothing else kept |
| Collector.LineUrls | python_libraries_week_6_assignment.py:63 | the comprehension over line.split(','): the URLs one line adds |
| Collector.LineUrlsShape | python_libraries_week_6_assignment.py:63 | a line's URLs are well-formed, one per non-blank comma-separated piece |
| Collector.Flatten | python_libraries_week_6_assignment.py:63 | what `urls` holds after extending it with each line's URLs in turn |
| Collector.FlattenAppend | python_libraries_week_6_assignment.py:63 | urls.extend keeps line order: the URLs of a + b are those of a followed by those of b |
| Collector.FlattenShape | python_libraries_week_6_assignment.py:63 | over several lines, URLs are well-formed, one per non-blank piece |
| Collector.Collect | python_libraries_week_6_assignment.py:58-63 | reference definition of the loop: end of input before "done" aborts, a terminator line ends collection, any other line adds its URLs in front of the rest |
| Collector.CollectUrls | python_libraries_week_6_assignment.py:58-63 | the loop returns what the line-by-line reference definition Collect gives |
| Collector.CollectStopsAtFirstTerminator | python_libraries_week_6_assignment.py:59-63 | at the first "done" line, the result is the URLs of the earlier lines, in order |
| Collector.CollectIgnoresLaterLines | python_libraries_week_6_assignment.py:61-62 | lines after the terminator contribute nothing |
| Collector.CollectExhaustedIff | python_libraries_week_6_assignment.py:59-62 | input runs out before "done" exactly when no line is a terminator |
| Collector.CollectedShape | python_libraries_week_6_assignment.py:58-63 | when "done" comes at line k, every collected URL is well-formed and the count equals the number of non-blank pieces before line k |
| Driver.DownloadAll | python_libraries_week_6_assignment.py:67-68 | one outcome per URL; files that existed before the loop are kept with their bytes; no file appears at the folder path |
| Driver.StepAt | python_libraries_week_6_assignment.py:67-68 | the i-th URL is handled by download_image on the filesystem the earlier URLs left, whatever their outcomes were (errors are isolated) |
| Driver.LaterStatesKeepFiles | python_libraries_week_6_assignment.py:67-68 | between any two points of the loop, files are kept with their bytes |
| Driver.SameNameNeverOverwritten | python_libraries_week_6_assignment.py:30-40 | once a URL is saved, a later URL with the same file name (the same URL submitted twice, for one) is never saved; it is a duplicate skip when its reply is an image; the first file's bytes are still there at the end |
| Driver.AtMostOneWritePerPath | python_libraries_week_6_assignment.py:34-40 | two successful downloads in one run write two different paths |
| Driver.FetchAll | python_libraries_week_6_assignment.py:67-68 | the for loop returns the outcomes and leaves the filesystem that DownloadAll gives |
| Driver.Run | python_libraries_week_6_assignment.py:50-71 | if the input ends before "done", nothing is downloaded and the filesystem is unchanged; otherwise every collected URL goes through the loop, in order, with DEFAULT_FOLDER |
| Driver.OneDownloadPerPiece | python_libraries_week_6_assignment.py:58-68 | a run that reaches "done" at line k calls download_image once per non-blank piece before it |

## Left out

- The HTTP request itself, its 10-second timeout and the response object
  are left out. `requests.get` is a parameter `network(i, url)`: either a
  transport failure or a reply with its status, Content-Type value and
  body. Case-insensitive header lookup is folded into that value.
- `urlparse` is a parameter `pathOf(url)`, the path component. A
  `ValueError` from parsing a malformed URL (reported by the generic
  handler) is not modelled.
- `print` output (the banners and the per-URL messages) is left out. Each
  message category is a distinct `Outcome` constructor.
- `input()` is replaced by the sequence of lines it would return. End of
  input before "done" stops `main` with an uncaught `EOFError`. The model
  shows this as `InputExhausted` and `Aborted`.
- `os.makedirs` is modelled as failing only on the empty path or a regular
  file at the folder path. What it does to parent directories is not
  modelled, and neither are permission errors, full disks, partial writes
  or failures of `open`/`write`. These would all be reported as other
  errors.
- `os.path` follows POSIX only. The Windows path rules are not modelled.
- Fetcher.Download: paths are compared as strings, apart from the names
  "." and "..". Other aliases of one path are treated as different
  paths and can be saved instead of skipped. The commonest is a
  case-insensitive filesystem (the default on macOS and Windows), where
  `Cat.png` and `cat.png` are one file. Others are `a//b`, `./a`, or a folder
  given with a trailing '/'. The parent folders of stored files are not
  counted as existing directories unless they are in the directory set.
- Fetcher.FileStore.DownloadImage: the same exists test as
  Fetcher.Download, with the same limits on path aliases and parent
  folders.
- Text.ToLower: lowers ASCII letters only, not all of Unicode. That is
  enough for comparing with "done": no character outside ASCII lowers to
  any of the letters d, o, n or e.
- Driver.SameNameNeverOverwritten: a second submission of a name that is
  already saved is promised the duplicate skip only when its own reply is
  a successful image reply. That is because the code fetches and
  validates before it checks for the file.
