/** `download_file`: the local file name it derives from a URL, the rule that an
    existing file is never fetched again, and the effect of a fetch on disk. */
module Download {
  import opened Strings
  import opened Sequences

  /** The extension used when the URL's file name has no dot. */
  const DefaultExtension := "download"

  /** `url.split("/")[-1].split("?")[0]`: the last path segment without its query. */
  function OriginalFilename(url: string): (r: string)
    ensures '/' !in r && '?' !in r
    ensures r <= AfterLast(url, '/')
  {
    AfterLastIsSuffix(url, '/');
    BeforeFirst(AfterLast(url, '/'), '?')
  }

  /** The extension `download_file` gives the local file. */
  function Extension(url: string): (ext: string)
    ensures '.' !in ext && '/' !in ext && '?' !in ext
    ensures '.' !in OriginalFilename(url) ==> ext == DefaultExtension
    ensures '.' in OriginalFilename(url) ==> EndsWith(OriginalFilename(url), "." + ext)
  {
    var name := OriginalFilename(url);
    if '.' in name then
      var ext := AfterLast(name, '.');
      AfterLastIsSuffix(name, '.');
      assert name[|name| - |ext| - 1..] == "." + ext;
      ext
    else DefaultExtension
  }

  /** A URL naming a file `stem.ext` yields `ext`. */
  lemma ExtensionOfFileUrl(dir: string, stem: string, ext: string)
    requires '/' !in stem && '?' !in stem
    requires '/' !in ext && '?' !in ext && '.' !in ext
    ensures Extension(dir + "/" + stem + "." + ext) == ext
  {
    var file := stem + "." + ext;
    var url := dir + "/" + stem + "." + ext;
    assert url == dir + ['/'] + file;
    NoSlashInFile(stem, ext, []);
    AfterLastOfJoin(dir, '/', file);
    NameOfFile(stem, ext, []);
    assert file + [] == file;
    ExtensionOfName(url, file);
  }

  /** The same, with a query after the file name. */
  lemma ExtensionOfQueryUrl(dir: string, stem: string, ext: string, query: string)
    requires '/' !in stem && '?' !in stem
    requires '/' !in ext && '?' !in ext && '.' !in ext
    requires '/' !in query
    ensures Extension(dir + "/" + stem + "." + ext + "?" + query) == ext
  {
    var file := stem + "." + ext;
    var url := dir + "/" + stem + "." + ext + "?" + query;
    assert url == dir + ['/'] + (file + "?" + query);
    NoSlashInFile(stem, ext, "?" + query);
    assert file + "?" + query == file + ("?" + query);
    AfterLastOfJoin(dir, '/', file + ("?" + query));
    NameOfFile(stem, ext, "?" + query);
    ExtensionOfName(url, file + ("?" + query));
  }

  lemma ExtensionOfName(url: string, segment: string)
    requires AfterLast(url, '/') == segment
    requires var name := BeforeFirst(segment, '?'); '.' in name
    ensures Extension(url) == AfterLast(BeforeFirst(segment, '?'), '.')
  {
  }

  lemma NoSlashInFile(stem: string, ext: string, tail: string)
    requires '/' !in stem && '/' !in ext && '/' !in tail
    ensures '/' !in stem + "." + ext + tail
  {
  }

  /** The file name `stem.ext` followed by nothing or a query names extension `ext`. */
  lemma NameOfFile(stem: string, ext: string, tail: string)
    requires '?' !in stem && '?' !in ext && '.' !in ext
    requires tail == [] || tail[0] == '?'
    ensures '.' in BeforeFirst(stem + "." + ext + tail, '?')
    ensures AfterLast(BeforeFirst(stem + "." + ext + tail, '?'), '.') == ext
  {
    FileBeforeQuery(stem + "." + ext, tail);
    var file := stem + "." + ext;
    assert file == stem + ['.'] + ext;
    assert file[|stem|] == '.';
    AfterLastOfJoin(stem, '.', ext);
  }

  /** Cutting at the query leaves the file name. */
  lemma FileBeforeQuery(file: string, tail: string)
    requires '?' !in file
    requires tail == [] || tail[0] == '?'
    ensures BeforeFirst(file + tail, '?') == file
  {
    var s := file + tail;
    var r := BeforeFirst(s, '?');
    assert forall i :: 0 <= i < |file| ==> s[i] == file[i];
    assert |file| < |s| ==> s[|file|] == '?';
    assert |r| == |file|;
    assert s[..|file|] == file;
  }

  /** A URL whose last segment has no dot yields the default extension. */
  lemma ExtensionOfPlainUrl(dir: string, file: string)
    requires '/' !in file && '?' !in file && '.' !in file
    ensures Extension(dir + "/" + file) == DefaultExtension
  {
    assert dir + "/" + file == dir + ['/'] + file;
    AfterLastOfJoin(dir, '/', file);
    assert BeforeFirst(file, '?') == file;
  }

  /** `f"{file_prefix}{base_filename}.{extension}"`. */
  function LocalFilename(prefix: string, base: string, url: string): (r: string)
    ensures StartsWith(r, prefix + base)
    ensures AfterLast(r, '.') == Extension(url)
  {
    var ext := Extension(url);
    assert prefix + base + "." + ext == (prefix + base) + ['.'] + ext;
    AfterLastOfJoin(prefix + base, '.', ext);
    prefix + base + "." + ext
  }

  /** `os.path.join(a, b)` on POSIX: an absolute `b` replaces `a`; otherwise one
      `/` separates them unless `a` is empty or already ends with one. */
  function PathJoin(a: string, b: string): (r: string)
    ensures EndsWith(r, b)
    ensures StartsWith(b, "/") ==> r == b
    ensures !StartsWith(b, "/") ==> StartsWith(r, a) && |r| <= |a| + 1 + |b|
  {
    if StartsWith(b, "/") then b
    else if a == [] || a[|a| - 1] == '/' then a + b
    else a + "/" + b
  }

  /** How fetching a file's URL turns out. `FetchFailed`: the request or its status
      check raised, before the local file was opened. `StreamFailed`: the body
      failed part-way, after the local file was created. */
  datatype FileFetch = Fetched | FetchFailed | StreamFailed

  /** One call `download_file(session, url, folder, prefix, base)`. */
  datatype Request = Request(url: string, folder: string, prefix: string, base: string)

  /** Where the request's file goes: `os.path.join(dest_folder, local_filename)`. */
  function LocalPath(req: Request): string
  {
    PathJoin(req.folder, LocalFilename(req.prefix, req.base, req.url))
  }

  /** One `download_file` call as the disk sees it, once its local path is worked
      out: the path it checks and writes, and the URL it fetches. */
  datatype Transfer = Transfer(path: string, url: string)

  function TransferOf(req: Request): Transfer
  {
    Transfer(LocalPath(req), req.url)
  }

  /** The transfers of a sequence of calls, in order. */
  function Transfers(reqs: seq<Request>): seq<Transfer>
  {
    Map(reqs, TransferOf)
  }

  /** What downloads can change: the set of existing paths, and the list of file
      URLs requested so far. */
  datatype Disk = Disk(files: set<string>, fetched: seq<string>)

  /** The effect of one `download_file` call: an existing file is kept and nothing
      is fetched; otherwise the URL is fetched, and the file exists afterwards
      unless the fetch failed before it was opened. */
  function Step(d: Disk, t: Transfer, net: string -> FileFetch): (r: Disk)
    ensures t.path in d.files ==> r == d
    ensures t.path !in d.files ==> r.fetched == d.fetched + [t.url]
    ensures d.files <= r.files <= d.files + {t.path}
    ensures t.path in r.files <==> t.path in d.files || net(t.url) != FetchFailed
  {
    if t.path in d.files then d
    else if net(t.url) == FetchFailed then Disk(d.files, d.fetched + [t.url])
    else Disk(d.files + {t.path}, d.fetched + [t.url])
  }

  /** What `download_file` returns. */
  function Succeeds(d: Disk, t: Transfer, net: string -> FileFetch): (ok: bool)
    ensures ok ==> t.path in Step(d, t, net).files
    ensures !ok ==> t.path !in d.files && Step(d, t, net).fetched == d.fetched + [t.url]
  {
    t.path in d.files || net(t.url) == Fetched
  }

  /** A file that a fetch left behind, complete or partial, is skipped from then on:
      repeating the call reports success and fetches nothing. */
  lemma StepIdempotent(d: Disk, t: Transfer, net: string -> FileFetch)
    requires net(t.url) != FetchFailed
    ensures Succeeds(Step(d, t, net), t, net)
    ensures Step(Step(d, t, net), t, net) == Step(d, t, net)
  {
  }

  /** The downloads of a run, in order. */
  function ExecAll(d: Disk, ts: seq<Transfer>, net: string -> FileFetch): Disk
    decreases |ts|
  {
    if ts == [] then d
    else Step(ExecAll(d, ts[..|ts| - 1], net), ts[|ts| - 1], net)
  }

  lemma ExecAllSnoc(d: Disk, ts: seq<Transfer>, t: Transfer, net: string -> FileFetch)
    ensures ExecAll(d, ts + [t], net) == Step(ExecAll(d, ts, net), t, net)
  {
    assert (ts + [t])[..|ts|] == ts;
  }

  /** One more `download_file` call after a run of them. */
  lemma ExecRequestsSnoc(d: Disk, reqs: seq<Request>, req: Request, net: string -> FileFetch)
    ensures ExecAll(d, Transfers(reqs + [req]), net) == Step(ExecAll(d, Transfers(reqs), net), TransferOf(req), net)
  {
    MapAppend(reqs, [req], TransferOf);
    assert Map([req], TransferOf) == [TransferOf(req)];
    ExecAllSnoc(d, Transfers(reqs), TransferOf(req), net);
  }

  /** Running two batches one after the other is running them as one. */
  lemma {:induction false} ExecAllAppend(d: Disk, a: seq<Transfer>, b: seq<Transfer>, net: string -> FileFetch)
    ensures ExecAll(d, a + b, net) == ExecAll(ExecAll(d, a, net), b, net)
    decreases |b|
  {
    if b == [] {
      assert a + b == a;
    } else {
      var init := b[..|b| - 1];
      assert (a + b)[..|a + b| - 1] == a + init;
      ExecAllAppend(d, a, init, net);
    }
  }

  /** Downloads never remove a file. */
  lemma {:induction false} ExecAllGrows(d: Disk, ts: seq<Transfer>, net: string -> FileFetch)
    ensures d.files <= ExecAll(d, ts, net).files
    decreases |ts|
  {
    if ts != [] {
      ExecAllGrows(d, ts[..|ts| - 1], net);
    }
  }

  /** After a run, every file whose fetch got as far as opening it exists. */
  lemma {:induction false} ExecAllStores(d: Disk, ts: seq<Transfer>, net: string -> FileFetch, i: nat)
    requires i < |ts| && net(ts[i].url) != FetchFailed
    ensures ts[i].path in ExecAll(d, ts, net).files
    decreases |ts|
  {
    var init := ts[..|ts| - 1];
    if i < |init| {
      assert ts[i] == init[i];
      ExecAllStores(d, init, net, i);
    }
  }

  /** A run whose every file already exists changes nothing and fetches nothing. */
  lemma {:induction false} ExecAllSkips(d: Disk, ts: seq<Transfer>, net: string -> FileFetch)
    requires forall i :: 0 <= i < |ts| ==> ts[i].path in d.files
    ensures ExecAll(d, ts, net) == d
    decreases |ts|
  {
    if ts != [] {
      ExecAllSkips(d, ts[..|ts| - 1], net);
    }
  }

  /** Re-running the same downloads against unchanged remote content fetches nothing
      and creates nothing, provided no fetch failed before its file was opened the
      first time. */
  lemma RerunChangesNothing(d: Disk, ts: seq<Transfer>, net: string -> FileFetch)
    requires forall i :: 0 <= i < |ts| ==> net(ts[i].url) != FetchFailed
    ensures ExecAll(ExecAll(d, ts, net), ts, net) == ExecAll(d, ts, net)
  {
    forall i | 0 <= i < |ts|
      ensures ts[i].path in ExecAll(d, ts, net).files
    {
      ExecAllStores(d, ts, net, i);
    }
    ExecAllSkips(ExecAll(d, ts, net), ts, net);
  }

  /** A run whose every file that a fetch could open is already on disk creates
      no file, whatever the failed fetches do. */
  lemma {:induction false} ExecAllWithin(e: Disk, ts: seq<Transfer>, net: string -> FileFetch)
    requires forall i :: 0 <= i < |ts| && net(ts[i].url) != FetchFailed ==> ts[i].path in e.files
    ensures ExecAll(e, ts, net).files == e.files
    decreases |ts|
  {
    if ts != [] {
      var init := ts[..|ts| - 1];
      forall i | 0 <= i < |init| && net(init[i].url) != FetchFailed
        ensures init[i].path in e.files
      {
        assert init[i] == ts[i];
      }
      ExecAllWithin(e, init, net);
    }
  }

  /** Re-running the same downloads never creates a file the first run did not,
      even when some first-run fetches failed. */
  lemma RerunKeepsFiles(d: Disk, ts: seq<Transfer>, net: string -> FileFetch)
    ensures ExecAll(ExecAll(d, ts, net), ts, net).files == ExecAll(d, ts, net).files
  {
    var once := ExecAll(d, ts, net);
    forall i | 0 <= i < |ts| && net(ts[i].url) != FetchFailed
      ensures ts[i].path in once.files
    {
      ExecAllStores(d, ts, net, i);
    }
    ExecAllWithin(once, ts, net);
  }

  /** The filesystem and the session, as far as downloads see them. */
  class Downloader {
    var files: set<string>
    var fetched: seq<string>

    constructor (existing: set<string>)
      ensures files == existing && fetched == []
    {
      files := existing;
      fetched := [];
    }

    function State(): Disk
      reads this
    {
      Disk(files, fetched)
    }

    /** `download_file(session, url, dest_folder, file_prefix, base_filename)`;
        `net` says how fetching each URL turns out. */
    method DownloadFile(url: string, destFolder: string, filePrefix: string, baseFilename: string,
                        net: string -> FileFetch) returns (ok: bool)
      modifies this
      ensures State() == Step(old(State()), TransferOf(Request(url, destFolder, filePrefix, baseFilename)), net)
      ensures ok == Succeeds(old(State()), TransferOf(Request(url, destFolder, filePrefix, baseFilename)), net)
    {
      var localFilename := LocalFilename(filePrefix, baseFilename, url);
      var localPath := PathJoin(destFolder, localFilename);
      if localPath in files {
        return true;
      }
      fetched := fetched + [url];
      match net(url)
      case FetchFailed =>
        ok := false;
      case StreamFailed =>
        files := files + {localPath};
        ok := false;
      case Fetched =>
        files := files + {localPath};
        ok := true;
    }
  }
}
