/** The rest of main: download_image is called once per collected URL, in
    order, and whatever happens to one URL, the next one is still processed.
    `pathOf(u)` stands for urlparse(u).path; `network(i, u)` is the reply
    the i-th URL of the list, `u`, would receive. */
module Driver {
  import opened Fetcher
  import opened Collector

  /** The for-loop of main as a function of the filesystem before it: the
      outcome for each URL and the filesystem after the last one. There is
      one outcome per URL, no file that existed is changed, and no file ever
      appears at the folder's own path. */
  function DownloadAll(d: Disk, folder: string, urls: seq<string>,
                       pathOf: string -> string, network: (nat, string) -> FetchResult): (r: (seq<Outcome>, Disk))
    ensures |r.0| == |urls|
    ensures forall p :: p in d.files ==> p in r.1.files && r.1.files[p] == d.files[p]
    ensures folder !in d.files ==> folder !in r.1.files
    decreases |urls|
  {
    if urls == [] then ([], d)
    else
      var n := |urls| - 1;
      var before := DownloadAll(d, folder, urls[..n], pathOf, network);
      TargetPathLonger(folder, pathOf(urls[n]));
      var step := Download(before.1, folder, pathOf(urls[n]), network(n, urls[n]));
      (before.0 + [step.0], step.1)
  }

  /** The filesystem once the first `k` URLs have been processed. */
  function StateAfter(d: Disk, folder: string, urls: seq<string>,
                      pathOf: string -> string, network: (nat, string) -> FetchResult, k: nat): Disk
    requires k <= |urls|
  {
    DownloadAll(d, folder, urls[..k], pathOf, network).1
  }

  /** One more URL: the loop's result is that of the URLs before it,
      followed by download_image on the last one. */
  lemma DownloadAllLast(d: Disk, folder: string, urls: seq<string>,
                        pathOf: string -> string, network: (nat, string) -> FetchResult)
    requires urls != []
    ensures var n := |urls| - 1;
            var before := DownloadAll(d, folder, urls[..n], pathOf, network);
            var step := Download(before.1, folder, pathOf(urls[n]), network(n, urls[n]));
            DownloadAll(d, folder, urls, pathOf, network) == (before.0 + [step.0], step.1)
  {
  }

  /** The state after the first k URLs does not depend on the URLs after them. */
  lemma StateAfterPrefix(d: Disk, folder: string, urls: seq<string>,
                         pathOf: string -> string, network: (nat, string) -> FetchResult, n: nat, k: nat)
    requires k <= n <= |urls|
    ensures StateAfter(d, folder, urls[..n], pathOf, network, k) == StateAfter(d, folder, urls, pathOf, network, k)
  {
    assert urls[..n][..k] == urls[..k];
  }

  /** The i-th URL is processed by download_image on the filesystem the
      earlier URLs left behind, whatever their outcomes were. */
  lemma {:induction false} StepAt(d: Disk, folder: string, urls: seq<string>,
                                  pathOf: string -> string, network: (nat, string) -> FetchResult, i: nat)
    requires i < |urls|
    ensures var step := Download(StateAfter(d, folder, urls, pathOf, network, i),
                                 folder, pathOf(urls[i]), network(i, urls[i]));
            DownloadAll(d, folder, urls, pathOf, network).0[i] == step.0
            && StateAfter(d, folder, urls, pathOf, network, i + 1) == step.1
  {
    var n := |urls| - 1;
    DownloadAllLast(d, folder, urls, pathOf, network);
    if i < n {
      StepAt(d, folder, urls[..n], pathOf, network, i);
      StateAfterPrefix(d, folder, urls, pathOf, network, n, i);
      StateAfterPrefix(d, folder, urls, pathOf, network, n, i + 1);
      assert urls[..n][i] == urls[i];
    } else {
      assert urls[..n] == urls[..i];
      assert urls[..i + 1] == urls;
    }
  }

  /** Between two points of the loop, files that existed are kept with their
      bytes, and the folder's own path stays free of files. */
  lemma {:induction false} LaterStatesKeepFiles(d: Disk, folder: string, urls: seq<string>,
                                                pathOf: string -> string, network: (nat, string) -> FetchResult,
                                                k: nat, m: nat)
    requires k <= m <= |urls|
    ensures var before, after := StateAfter(d, folder, urls, pathOf, network, k),
                                 StateAfter(d, folder, urls, pathOf, network, m);
            (forall p :: p in before.files ==> p in after.files && after.files[p] == before.files[p])
            && (folder !in before.files ==> folder !in after.files)
  {
    if k < m {
      LaterStatesKeepFiles(d, folder, urls, pathOf, network, k, m - 1);
      StepAt(d, folder, urls, pathOf, network, m - 1);
      var prev := StateAfter(d, folder, urls, pathOf, network, m - 1);
      var urlPath := pathOf(urls[m - 1]);
      var step := Download(prev, folder, urlPath, network(m - 1, urls[m - 1]));
      assert StateAfter(d, folder, urls, pathOf, network, m) == step.1;
      TargetPathLonger(folder, urlPath);
      assert step.0.Success? ==> step.0.path != folder;
    }
  }

  /** A reply that passes the fetch and content-type checks. */
  predicate IsImageReply(response: FetchResult) {
    !Failed(response) && IsValidImage(response.contentType)
  }

  /** Write-once: once a URL has been saved, a later URL that derives the
      same file name (the same URL submitted twice, for one) is never saved
      over it. It is reported as a duplicate when its own reply is an image
      (a failed or non-image reply is reported as such first), and the first
      file's bytes are still there at the end of the run. */
  lemma SameNameNeverOverwritten(d: Disk, folder: string, urls: seq<string>,
                                 pathOf: string -> string, network: (nat, string) -> FetchResult,
                                 i: nat, j: nat)
    requires i < j < |urls|
    requires FilenameFromPath(pathOf(urls[i])) == FilenameFromPath(pathOf(urls[j]))
    requires DownloadAll(d, folder, urls, pathOf, network).0[i].Success?
    ensures var outcomes := DownloadAll(d, folder, urls, pathOf, network).0;
            !outcomes[j].Success?
            && (IsImageReply(network(j, urls[j])) ==>
                  outcomes[j] == SkipDuplicate(FilenameFromPath(pathOf(urls[j]))))
    ensures var r := DownloadAll(d, folder, urls, pathOf, network);
            network(i, urls[i]).Response?
            && r.0[i].path in r.1.files && r.1.files[r.0[i].path] == network(i, urls[i]).body
  {
    var r := DownloadAll(d, folder, urls, pathOf, network);
    var path := r.0[i].path;
    StepAt(d, folder, urls, pathOf, network, i);
    TargetPathLonger(folder, pathOf(urls[i]));
    var after := StateAfter(d, folder, urls, pathOf, network, i + 1);
    assert path in after.files && after.files[path] == network(i, urls[i]).body;
    assert folder != [] && folder !in after.files;
    LaterStatesKeepFiles(d, folder, urls, pathOf, network, i + 1, j);
    StepAt(d, folder, urls, pathOf, network, j);
    var atJ := StateAfter(d, folder, urls, pathOf, network, j);
    assert TargetPath(folder, pathOf(urls[j])) == path;
    assert CanMakeDirs(atJ, folder) && Exists(atJ, path);
    LaterStatesKeepFiles(d, folder, urls, pathOf, network, i + 1, |urls|);
    assert urls[..|urls|] == urls;
  }

  /** No path is written twice in one run. */
  lemma {:induction false} AtMostOneWritePerPath(d: Disk, folder: string, urls: seq<string>,
                                                 pathOf: string -> string, network: (nat, string) -> FetchResult,
                                                 i: nat, j: nat)
    requires i < j < |urls|
    requires DownloadAll(d, folder, urls, pathOf, network).0[i].Success?
    requires DownloadAll(d, folder, urls, pathOf, network).0[j].Success?
    ensures DownloadAll(d, folder, urls, pathOf, network).0[i].path
         != DownloadAll(d, folder, urls, pathOf, network).0[j].path
  {
    StepAt(d, folder, urls, pathOf, network, i);
    LaterStatesKeepFiles(d, folder, urls, pathOf, network, i + 1, j);
    StepAt(d, folder, urls, pathOf, network, j);
  }

  /** The for-loop of main: download_image on each URL, in order. */
  method FetchAll(store: FileStore, folder: string, urls: seq<string>,
                  pathOf: string -> string, network: (nat, string) -> FetchResult) returns (outcomes: seq<Outcome>)
    modifies store
    ensures (outcomes, store.State()) == DownloadAll(old(store.State()), folder, urls, pathOf, network)
  {
    ghost var start := store.State();
    outcomes := [];
    for i := 0 to |urls|
      invariant (outcomes, store.State()) == DownloadAll(start, folder, urls[..i], pathOf, network)
    {
      assert urls[..i + 1][..i] == urls[..i];
      var outcome := store.DownloadImage(folder, pathOf(urls[i]), network(i, urls[i]));
      outcomes := outcomes + [outcome];
    }
    assert urls[..|urls|] == urls;
  }

  /** How a run of main ends: the input ran out before "done" (the uncaught
      EOFError stops main before any download), or every collected URL was
      processed. */
  datatype RunResult = Aborted | Finished(urls: seq<string>, outcomes: seq<Outcome>)

  /** main(), with `lines` standing for what input() returns. */
  method Run(store: FileStore, lines: seq<string>,
             pathOf: string -> string, network: (nat, string) -> FetchResult) returns (result: RunResult)
    modifies store
    ensures Collect(lines) == InputExhausted ==> result == Aborted && store.State() == old(store.State())
    ensures Collect(lines).Terminated? ==>
              result.Finished? && result.urls == Collect(lines).urls
              && (result.outcomes, store.State())
                 == DownloadAll(old(store.State()), DEFAULT_FOLDER, Collect(lines).urls, pathOf, network)
  {
    var collected := CollectUrls(lines);
    match collected
    case InputExhausted =>
      result := Aborted;
    case Terminated(urls) =>
      var outcomes := FetchAll(store, DEFAULT_FOLDER, urls, pathOf, network);
      result := Finished(urls, outcomes);
  }

  /** A run that reaches "done" at line k calls download_image once per
      non-blank comma-separated piece of the lines before it. */
  lemma OneDownloadPerPiece(d: Disk, lines: seq<string>, k: nat,
                            pathOf: string -> string, network: (nat, string) -> FetchResult)
    requires k < |lines| && IsTerminator(lines[k])
    requires forall j :: 0 <= j < k ==> !IsTerminator(lines[j])
    ensures Collect(lines).Terminated?
    ensures |DownloadAll(d, DEFAULT_FOLDER, Collect(lines).urls, pathOf, network).0| == PieceCount(lines[..k])
  {
    CollectedShape(lines, k);
  }
}
