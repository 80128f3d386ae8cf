/** One URL's fetch-and-save step: is_valid_image, get_filename_from_url and
    download_image. The network reply and the parsed URL path are inputs; the
    filesystem is a map from path to bytes plus a set of directories. */
module Fetcher {
  import opened Text

  newtype byte = x: int | 0 <= x < 256

  datatype Option<T> = None | Some(value: T)

  /** What requests.get gives back: a transport failure (connection refused,
      timeout, DNS failure, invalid URL, ...) or a reply with its status code,
      its Content-Type header if it has one, and its body. */
  datatype FetchResult =
    | ConnectionFailed
    | Response(status: int, contentType: Option<string>, body: seq<byte>)

  /** How the processing of one URL ends; each is a distinct console message. */
  datatype Outcome =
    | Success(filename: string, path: string)
    | SkipNotImage
    | SkipDuplicate(filename: string)
    | NetworkError
    | OtherError

  /** The filesystem as far as download_image can see it. */
  datatype Disk = Disk(files: map<string, seq<byte>>, dirs: set<string>)

  const IMAGE_PREFIX := "image/"
  const FALLBACK_NAME := "downloaded_image.jpg"
  const DEFAULT_FOLDER := "Fetched_Images"

  /** response.headers.get('Content-Type', ''). */
  function HeaderOrEmpty(header: Option<string>): string {
    match header
    case None => ""
    case Some(v) => v
  }

  /** is_valid_image: the Content-Type header is present and its value begins
      with "image/" (case-sensitively). */
  function IsValidImage(contentType: Option<string>): (b: bool)
    ensures b <==> contentType.Some? && |contentType.value| >= 6 && contentType.value[..6] == "image/"
  {
    StartsWith(HeaderOrEmpty(contentType), IMAGE_PREFIX)
  }

  /** get_filename_from_url, given the path component urlparse finds. Never
      empty and never containing '/': the text after the last '/' of the
      path, or the fallback name when the path is empty or ends in '/'. */
  function FilenameFromPath(urlPath: string): (name: string)
    ensures name != [] && '/' !in name
    ensures urlPath == [] || urlPath[|urlPath| - 1] == '/' ==> name == FALLBACK_NAME
    ensures urlPath != [] && urlPath[|urlPath| - 1] != '/' ==>
              |name| <= |urlPath| && urlPath[|urlPath| - |name|..] == name
              && (|name| == |urlPath| || urlPath[|urlPath| - |name| - 1] == '/')
  {
    var name := Basename(urlPath);
    assert urlPath != [] && urlPath[|urlPath| - 1] != '/' ==> name != [];
    if name != [] then name else FALLBACK_NAME
  }

  /** os.path.join(dest_folder, filename) for the file a URL would be saved to. */
  function TargetPath(folder: string, urlPath: string): string {
    JoinPath(folder, FilenameFromPath(urlPath))
  }

  /** The target is longer than `folder`, so it is never the folder itself. */
  lemma TargetPathLonger(folder: string, urlPath: string)
    ensures |TargetPath(folder, urlPath)| > |folder|
  {
    var name := FilenameFromPath(urlPath);
    assert name[0] != '/';
  }

  /** The target sits directly inside `folder`: the folder, one '/' unless
      the folder already ends in one, then the derived name. */
  lemma TargetPathInFolder(folder: string, urlPath: string)
    ensures TargetPath(folder, urlPath)[..|folder|] == folder
    ensures Basename(TargetPath(folder, urlPath)) == FilenameFromPath(urlPath)
    ensures folder != [] && folder[|folder| - 1] != '/' ==>
              TargetPath(folder, urlPath) == folder + "/" + FilenameFromPath(urlPath)
    ensures folder != [] && folder[|folder| - 1] == '/' ==>
              TargetPath(folder, urlPath) == folder + FilenameFromPath(urlPath)
    ensures folder == [] ==> TargetPath(folder, urlPath) == FilenameFromPath(urlPath)
  {
    var name := FilenameFromPath(urlPath);
    assert name[0] != '/';
    BasenameOfJoin(folder, name);
  }

  /** response.raise_for_status(): raises for 4xx and 5xx status codes. */
  predicate RaisesForStatus(status: int) {
    400 <= status < 600
  }

  /** The reply counts as a requests.exceptions.RequestException. */
  predicate Failed(response: FetchResult) {
    response.ConnectionFailed? || RaisesForStatus(response.status)
  }

  /** os.makedirs(folder, exist_ok=True) succeeds: it fails on the empty
      path and when a regular file already sits at `folder`. */
  predicate CanMakeDirs(d: Disk, folder: string) {
    folder != [] && folder !in d.files
  }

  /** os.path.exists: true for files and for directories. */
  predicate Exists(d: Disk, path: string) {
    path in d.files || path in d.dirs
  }

  /** os.path.exists(filepath) once the folder has been made: true for a
      file or directory already at the target path, and for the names "."
      and "..", which join to the folder itself and to its parent, both of
      which exist by then. */
  predicate TargetExists(d: Disk, folder: string, urlPath: string) {
    var name := FilenameFromPath(urlPath);
    name == "." || name == ".." || Exists(d, TargetPath(folder, urlPath))
  }

  /** download_image as a function of the filesystem before it: the outcome
      it reports and the filesystem after it. The checks run in the order
      folder creation, fetch failure, content type, existing file; only the
      last branch writes, and it writes exactly one new file. */
  function Download(d: Disk, folder: string, urlPath: string, response: FetchResult): (r: (Outcome, Disk))
    // which outcome is reported
    ensures r.0.OtherError? <==> !CanMakeDirs(d, folder)
    ensures r.0.NetworkError? <==> CanMakeDirs(d, folder) && Failed(response)
    ensures r.0.SkipNotImage? <==>
              CanMakeDirs(d, folder) && !Failed(response) && !IsValidImage(response.contentType)
    ensures r.0.SkipDuplicate? ==>
              r.0.filename == FilenameFromPath(urlPath) && TargetExists(d, folder, urlPath)
    ensures r.0.Success? ==>
              r.0.filename == FilenameFromPath(urlPath) && r.0.path == TargetPath(folder, urlPath)
              && !TargetExists(d, folder, urlPath)
    ensures CanMakeDirs(d, folder) && !Failed(response) && IsValidImage(response.contentType) ==>
              (r.0.Success? <==> !TargetExists(d, folder, urlPath))
    // what happens to the filesystem
    ensures r.0.OtherError? ==> r.1 == d
    ensures !r.0.OtherError? ==> r.1.dirs == d.dirs + {folder}
    ensures !r.0.Success? ==> r.1.files == d.files
    ensures r.0.Success? ==>
              response.Response? && r.1.files == d.files[r.0.path := response.body] && r.0.path !in d.files
    // an existing file is never changed
    ensures forall p :: p in d.files ==> p in r.1.files && r.1.files[p] == d.files[p]
  {
    if !CanMakeDirs(d, folder) then (OtherError, d)
    else
      var d1 := d.(dirs := d.dirs + {folder});
      if Failed(response) then (NetworkError, d1)
      else if !IsValidImage(response.contentType) then (SkipNotImage, d1)
      else
        var filename := FilenameFromPath(urlPath);
        var filepath := TargetPath(folder, urlPath);
        TargetPathLonger(folder, urlPath);
        if filename == "." || filename == ".." || Exists(d1, filepath) then
          (SkipDuplicate(filename), d1)
        else (Success(filename, filepath), d1.(files := d1.files[filepath := response.body]))
  }

  /** The filesystem, updated in place by download_image. */
  class FileStore {
    var files: map<string, seq<byte>>
    var dirs: set<string>

    function State(): Disk
      reads this
    {
      Disk(files, dirs)
    }

    constructor (initial: Disk)
      ensures State() == initial
    {
      files := initial.files;
      dirs := initial.dirs;
    }

    /** download_image(url, folder), where `urlPath` is urlparse(url).path
        and `response` is what requests.get(url) gave back. */
    method DownloadImage(folder: string, urlPath: string, response: FetchResult) returns (outcome: Outcome)
      modifies this
      ensures (outcome, State()) == Download(old(State()), folder, urlPath, response)
    {
      if !CanMakeDirs(State(), folder) {
        return OtherError;
      }
      dirs := dirs + {folder};
      if Failed(response) {
        return NetworkError;
      }
      if !IsValidImage(response.contentType) {
        return SkipNotImage;
      }
      var filename := FilenameFromPath(urlPath);
      var filepath := TargetPath(folder, urlPath);
      if TargetExists(State(), folder, urlPath) {
        return SkipDuplicate(filename);
      }
      files := files[filepath := response.body];
      return Success(filename, filepath);
    }
  }

  /** A reply declaring "image/png" for a URL whose path ends in "/cat.png",
      with no Fetched_Images/cat.png yet, is saved as Fetched_Images/cat.png
      with exactly the reply's bytes, and nothing else changes. */
  lemma SavesCatPng(d: Disk, urlPath: string, body: seq<byte>)
    requires |urlPath| >= 8 && urlPath[|urlPath| - 8..] == "/cat.png"
    requires CanMakeDirs(d, DEFAULT_FOLDER) && !Exists(d, "Fetched_Images/cat.png")
    ensures Download(d, DEFAULT_FOLDER, urlPath, Response(200, Some("image/png"), body))
         == (Success("cat.png", "Fetched_Images/cat.png"),
             Disk(d.files["Fetched_Images/cat.png" := body], d.dirs + {DEFAULT_FOLDER}))
  {
    var path := "Fetched_Images/cat.png";
    CatPngName(urlPath);
    assert TargetPath(DEFAULT_FOLDER, urlPath) == path;
    assert !TargetExists(d, DEFAULT_FOLDER, urlPath);
    assert IsValidImage(Some("image/png"));
    var r := Download(d, DEFAULT_FOLDER, urlPath, Response(200, Some("image/png"), body));
    assert r.0 == Success("cat.png", path);
    assert r.1.files == d.files[path := body];
  }

  /** A path ending in "/cat.png" names the file "cat.png". */
  lemma CatPngName(urlPath: string)
    requires |urlPath| >= 8 && urlPath[|urlPath| - 8..] == "/cat.png"
    ensures FilenameFromPath(urlPath) == "cat.png"
  {
    var dir := urlPath[..|urlPath| - 7];
    assert dir + "cat.png" == urlPath;
    BasenameAfterSlash(dir, "cat.png");
  }

  /** A URL path ending in "/." names the folder itself, which exists once
      it has been made: an image reply for it is reported as already
      downloaded and nothing is written. */
  lemma DotPathIsDuplicate(d: Disk, urlPath: string, body: seq<byte>)
    requires |urlPath| >= 2 && urlPath[|urlPath| - 2..] == "/."
    requires CanMakeDirs(d, DEFAULT_FOLDER)
    ensures var r := Download(d, DEFAULT_FOLDER, urlPath, Response(200, Some("image/png"), body));
            r.0 == SkipDuplicate(".") && r.1.files == d.files
  {
    var dir := urlPath[..|urlPath| - 1];
    assert dir + "." == urlPath;
    BasenameAfterSlash(dir, ".");
    assert FilenameFromPath(urlPath) == ".";
    assert "image/png"[..6] == "image/";
  }

  /** A reply declaring "text/html" is skipped and no file appears. */
  lemma SkipsHtml(d: Disk, urlPath: string, body: seq<byte>)
    requires CanMakeDirs(d, DEFAULT_FOLDER)
    ensures var r := Download(d, DEFAULT_FOLDER, urlPath, Response(200, Some("text/html"), body));
            r.0 == SkipNotImage && r.1.files == d.files
  {
    assert "text/html"[0] != "image/"[0];
  }

  /** A 404 reply is a network error and no file appears. */
  lemma NotFoundIsNetworkError(d: Disk, urlPath: string, contentType: Option<string>, body: seq<byte>)
    requires CanMakeDirs(d, DEFAULT_FOLDER)
    ensures var r := Download(d, DEFAULT_FOLDER, urlPath, Response(404, contentType, body));
            r.0 == NetworkError && r.1.files == d.files && DEFAULT_FOLDER in r.1.dirs
  {
  }

  /** The path "/" yields the fallback name. */
  lemma RootPathFallsBack()
    ensures FilenameFromPath("/") == FALLBACK_NAME
  {
  }
}
