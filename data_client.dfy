/**
 * The data client as the object `createDataClient` returns: its operations run
 * one step at a time and append what they do to `trace`. Each operation is proved
 * to append exactly the events, and settle with exactly the result, of its
 * counterpart in `Sync`.
 */
module DataClients {
  import opened Results
  import opened Failures
  import opened RequestHandler
  import opened Paths
  import opened Uri
  import opened Listing
  import opened Transport
  import opened Sync

  /** Concatenation is associative: appending in two steps is appending once. */
  lemma Associative<T>(a: seq<T>, b: seq<T>, c: seq<T>)
    ensures a + (b + c) == (a + b) + c
  {
  }

  class DataClient {
    const config: Config
    /** Requests made, local directories created and lines logged, in order. */
    var trace: seq<Event>

    constructor (config: Config)
      ensures this.config == config && trace == []
    {
      this.config := config;
      trace := [];
    }

    /** `getFile`: the retried download, then a success line or a failure line and a retry command. */
    method GetFile(file: string, destination: string, size: nat, download: nat -> StreamReply)
      returns (r: Result<nat, Failure>)
      modifies this
      ensures trace == old(trace) + Sync.GetFile(config, file, destination, size, download).events
      ensures r == Sync.GetFile(config, file, destination, size, download).result
    {
      var basename := config.ops.basename(file);
      var run := StreamRun(config, Download, download);
      trace := trace + [Remote(HttpGet(StreamUri(Download, file, destination, basename)), run.trace)];
      var target := config.ops.join(destination, basename);
      if run.result.Ok? {
        trace := trace + [FileDone(config, target, size)];
        r := Ok(size);
      } else {
        trace := trace + [FileNotDone(config, target), Log(Info, DownloadCommand(config.tokenFile, file, destination))];
        r := Err(run.result.error);
      }
    }

    /** `putFile`: the retried upload, then a success line or a failure line and a retry command. */
    method PutFile(file: string, size: nat, dest: string, upload: nat -> StreamReply) returns (r: Result<(), Failure>)
      modifies this
      ensures trace == old(trace) + Sync.PutFile(config, file, size, dest, upload).events
      ensures r == Sync.PutFile(config, file, size, dest, upload).result
    {
      var basename := config.ops.basename(file);
      var run := StreamRun(config, Upload, upload);
      trace := trace + [Remote(HttpPut(StreamUri(Upload, file, dest, basename)), run.trace)];
      var target := config.ops.posixJoin(dest, basename);
      if run.result.Ok? {
        trace := trace + [FileDone(config, target, size)];
        r := Ok(());
      } else {
        trace := trace + [FileNotDone(config, target), Log(Info, UploadCommand(config.tokenFile, file, dest, false))];
        r := Err(run.result.error);
      }
    }

    /** `propfindDirectory`: one retried PROPFIND. */
    method PropfindDirectory(dirname: string, probe: nat -> RawReply) returns (r: Result<(), Failure>)
      modifies this
      ensures trace == old(trace) + Sync.PropfindDirectory(config, dirname, probe).events
      ensures r == Sync.PropfindDirectory(config, dirname, probe).result
    {
      var run := RequestRun(config, probe);
      trace := trace + [Remote(Propfind(EncodePath(dirname)), run.trace)];
      r := run.result;
    }

    /** `createRemoteDirectory`: one retried MKCOL, and the line each attempt logs. */
    method CreateRemoteDirectory(dirname: string, create: nat -> RawReply) returns (r: Result<(), Failure>)
      modifies this
      ensures trace == old(trace) + Sync.CreateRemoteDirectory(config, dirname, create).events
      ensures r == Sync.CreateRemoteDirectory(config, dirname, create).result
    {
      var run := RequestRun(config, create);
      var request := [Remote(Mkcol(EncodePath(dirname)), run.trace)];
      trace := trace + request;
      ghost var head := trace;
      var k := 0;
      while k < |run.trace.calls|
        invariant 0 <= k <= |run.trace.calls|
        invariant trace == head + MkcolLogs(dirname, create, k)
      {
        ghost var logged := MkcolLogs(dirname, create, k);
        assert MkcolLogs(dirname, create, k + 1) == logged + [MkcolLog(dirname, create(k))];
        trace := trace + [MkcolLog(dirname, create(k))];
        k := k + 1;
      }
      Associative(old(trace), request, MkcolLogs(dirname, create, k));
      r := run.result;
    }

    /**
     * The probe of a remote folder and, when it is missing, its creation, as the
     * `folderExists` flag and the two try/catch blocks of `put` and
     * `getLocalDirectoryContents` compute them.
     */
    method CheckRemoteFolder(folder: string, probe: nat -> RawReply, create: nat -> RawReply)
      returns (status: FolderCheck)
      modifies this
      ensures trace == old(trace) + Sync.CheckRemoteFolder(config, folder, probe, create).events
      ensures status == Sync.CheckRemoteFolder(config, folder, probe, create).status
    {
      var found := PropfindDirectory(folder, probe);
      status := CreateIfMissing(folder, create, found);
      Associative(old(trace), Sync.PropfindDirectory(config, folder, probe).events,
        Sync.CreateIfMissing(config, folder, create, found).events);
    }

    /** The rest of `checkRemoteFolder`, once the PROPFIND has settled with `found`. */
    method CreateIfMissing(folder: string, create: nat -> RawReply, found: Result<(), Failure>)
      returns (status: FolderCheck)
      modifies this
      ensures trace == old(trace) + Sync.CreateIfMissing(config, folder, create, found).events
      ensures status == Sync.CreateIfMissing(config, folder, create, found).status
    {
      var folderExists: bool;
      if found.Ok? {
        folderExists := true;
      } else if HasStatus(found.error, 404) {
        folderExists := false;
      } else {
        status := ProbeFailed(found.error);
        return;
      }
      if folderExists {
        status := Present;
        return;
      }
      var made := CreateRemoteDirectory(folder, create);
      if made.Ok? {
        status := Created;
      } else if HasStatus(made.error, 405) {
        status := Raced;
      } else {
        status := CreateFailed(made.error);
      }
    }

    /** `listRemote`: the stat and the listing, both sent, combined by `filterResponse`. */
    method ListRemote(path: string, dir: RemoteStat) returns (r: Result<Listed<(), RemoteStat>, Failure>)
      requires dir.kind.RemoteDir?
      modifies this
      ensures trace == old(trace) + Sync.ListRemote(config, path, dir).events
      ensures r == Sync.ListRemote(config, path, dir).result
    {
      var stat := WebdavRun(config, path, dir.kind.stat);
      var list := WebdavRun(config, path, dir.kind.list);
      trace := trace + [Remote(Stat(path), stat.trace), Remote(List(path), list.trace)];
      if stat.result.Err? {
        r := Err(stat.result.error);
      } else if list.result.Err? {
        r := Err(list.result.error);
      } else {
        r := Ok(FilterResponse(path, (), dir.kind.children));
      }
    }

    /** `getRemoteDirectoryContents`: list, then go on with what the listing settled with. */
    method GetRemoteDirectoryContents(dir: Entry<RemoteStat>, recursive: bool, destination: string)
      returns (r: Result<(), Failure>)
      requires dir.detail.kind.RemoteDir?
      modifies this
      ensures trace == old(trace) + Sync.GetRemoteDirectoryContents(config, dir, recursive, destination).events
      ensures r == Sync.GetRemoteDirectoryContents(config, dir, recursive, destination).result
      decreases dir.detail, 2
    {
      var listing := ListRemote(dir.filename, dir.detail);
      r := DownloadListed(dir, recursive, destination, listing);
      Associative(old(trace), Sync.ListRemote(config, dir.filename, dir.detail).events,
                  ListedContents(config, dir, recursive, destination, listing).events);
    }

    /** After the listing: create the local directory, then visit the listed children. */
    method DownloadListed(dir: Entry<RemoteStat>, recursive: bool, destination: string,
                          listing: Result<Listed<(), RemoteStat>, Failure>)
      returns (r: Result<(), Failure>)
      requires dir.detail.kind.RemoteDir?
      requires listing.Ok? ==> listing.value.files == FilterFiles(EnforceForwardSlashes(dir.filename), dir.detail.kind.children)
      modifies this
      ensures trace == old(trace) + ListedContents(config, dir, recursive, destination, listing).events
      ensures r == ListedContents(config, dir, recursive, destination, listing).result
      decreases dir.detail, 1
    {
      var dirLocal := config.ops.join(destination, dir.detail.basename);
      if listing.Err? {
        trace := trace + DirectoryAbandoned(config, destination, dir.detail.basename, dirLocal, listing.error);
        r := Err(listing.error);
        return;
      }
      trace := trace + [EnsureDir(dirLocal)];
      if dir.detail.kind.ensureDir.Some? {
        var e := dir.detail.kind.ensureDir.value;
        trace := trace + DirectoryAbandoned(config, destination, dir.detail.basename, dirLocal, e);
        r := Err(e);
        return;
      }
      trace := trace + [Log(Success, DirectoryCopied(dirLocal))];
      assert trace == old(trace) + [EnsureDir(dirLocal), Log(Success, DirectoryCopied(dirLocal))];
      ListedChildrenSmaller(EnforceForwardSlashes(dir.filename), dir.detail);
      DownloadChildren(dir.detail, listing.value.files, recursive, dirLocal);
      Associative(old(trace), [EnsureDir(dirLocal), Log(Success, DirectoryCopied(dirLocal))],
                  RemoteChildren(config, dir.detail, listing.value.files, |listing.value.files|, recursive, dirLocal));
      r := Ok(());
    }

    /** The `mapSeries` over the listed children of `parent`, in order. */
    method DownloadChildren(parent: RemoteStat, files: seq<Entry<RemoteStat>>, recursive: bool, dirLocal: string)
      requires forall k :: 0 <= k < |files| ==> files[k].detail < parent
      modifies this
      ensures trace == old(trace) + RemoteChildren(config, parent, files, |files|, recursive, dirLocal)
      decreases parent, 0
    {
      var i := 0;
      while i < |files|
        invariant 0 <= i <= |files|
        invariant trace == old(trace) + RemoteChildren(config, parent, files, i, recursive, dirLocal)
      {
        ghost var done := RemoteChildren(config, parent, files, i, recursive, dirLocal);
        ghost var child := RemoteChild(config, files[i], recursive, dirLocal);
        assert RemoteChildren(config, parent, files, i + 1, recursive, dirLocal) == done + child;
        DownloadChild(files[i], recursive, dirLocal);
        Associative(old(trace), done, child);
        i := i + 1;
      }
    }

    /** The `mapSeries` callback: download a file, or walk a directory when `recursive`; failures are swallowed. */
    method DownloadChild(file: Entry<RemoteStat>, recursive: bool, dirLocal: string)
      modifies this
      ensures trace == old(trace) + RemoteChild(config, file, recursive, dirLocal)
      decreases file.detail, 3
    {
      if file.detail.kind.RemoteFile? {
        var _ := GetFile(file.filename, dirLocal, file.detail.kind.size, file.detail.kind.download);
      } else if recursive {
        var _ := GetRemoteDirectoryContents(file, recursive, dirLocal);
      }
    }

    /** `get`: a file is downloaded, a directory walked. */
    method Get(fileStat: Entry<RemoteStat>, recursive: bool, destination: string) returns (r: Result<Option<nat>, Failure>)
      modifies this
      ensures trace == old(trace) + Sync.Get(config, fileStat, recursive, destination).events
      ensures r == Sync.Get(config, fileStat, recursive, destination).result
    {
      if fileStat.detail.kind.RemoteFile? {
        var got := GetFile(fileStat.filename, destination, fileStat.detail.kind.size, fileStat.detail.kind.download);
        r := if got.Ok? then Ok(Some(got.value)) else Err(got.error);
      } else {
        var walked := GetRemoteDirectoryContents(fileStat, recursive, destination);
        r := if walked.Ok? then Ok(None) else Err(walked.error);
      }
    }

    /** `getLocalDirectoryContents`: `readdir`, then visit the entries. */
    method GetLocalDirectoryContents(dirname: string, destDir: string, recursive: bool, dir: LocalStat)
      returns (r: Result<(), Failure>)
      requires dir.IsDir?
      modifies this
      ensures trace == old(trace) + Sync.GetLocalDirectoryContents(config, dirname, destDir, recursive, dir).events
      ensures r == Sync.GetLocalDirectoryContents(config, dirname, destDir, recursive, dir).result
      decreases dir, 2
    {
      if dir.listing.Unreadable? {
        trace := trace + [Log(Error, LocalUnreadable(dirname))];
        r := Ok(());
      } else {
        assert forall k :: 0 <= k < |dir.listing.entries| ==> dir.listing.entries[k] in dir.listing.entries;
        r := UploadEntries(dirname, destDir, recursive, dir, dir.listing.entries);
      }
    }

    /** The `mapSeries` over the entries of a local directory; a rejected entry ends it. */
    method UploadEntries(dirname: string, destDir: string, recursive: bool, parent: LocalStat, files: seq<LocalEntry>)
      returns (r: Result<(), Failure>)
      requires forall k :: 0 <= k < |files| ==> files[k].stat < parent
      modifies this
      ensures trace == old(trace) + LocalChildren(config, dirname, destDir, recursive, parent, files, 0).events
      ensures r == LocalChildren(config, dirname, destDir, recursive, parent, files, 0).result
      decreases parent, 1
    {
      ghost var goal := LocalChildren(config, dirname, destDir, recursive, parent, files, 0);
      var i := 0;
      while i < |files|
        invariant 0 <= i <= |files|
        invariant old(trace) + goal.events == trace + LocalChildren(config, dirname, destDir, recursive, parent, files, i).events
        invariant goal.result == LocalChildren(config, dirname, destDir, recursive, parent, files, i).result
      {
        ghost var before := trace;
        ghost var rest := LocalChildren(config, dirname, destDir, recursive, parent, files, i + 1);
        var step := UploadEntry(dirname, destDir, recursive, files[i]);
        if step.Err? {
          r := step;
          return;
        }
        Associative(before, LocalChild(config, dirname, destDir, recursive, files[i]).events, rest.events);
        i := i + 1;
      }
      r := Ok(());
    }

    /** The `mapSeries` callback of `getLocalDirectoryContents`, for one entry. */
    method UploadEntry(dirname: string, destDir: string, recursive: bool, e: LocalEntry)
      returns (r: Result<(), Failure>)
      modifies this
      ensures trace == old(trace) + LocalChild(config, dirname, destDir, recursive, e).events
      ensures r == LocalChild(config, dirname, destDir, recursive, e).result
      decreases e.stat, 5
    {
      var filePath := config.ops.join(dirname, e.name);
      r := Ok(());
      match e.stat
      case StatFailed(err) =>
        if err.code == StrCode("ENOENT") {
          trace := trace + [Log(Error, LocalMissing(filePath))];
        } else {
          r := Err(StatTypeError);
        }
      case IsFile(size, upload) =>
        var _ := PutFile(filePath, size, destDir, upload);
      case IsDir(_, _, _) =>
        if recursive {
          r := UploadSubdirectory(filePath, config.ops.posixJoin(destDir, e.name), recursive, e.stat);
        }
    }

    /** A subdirectory met by a recursive upload: its remote folder, then its contents. */
    method UploadSubdirectory(filePath: string, childDir: string, recursive: bool, dir: LocalStat)
      returns (r: Result<(), Failure>)
      requires dir.IsDir?
      modifies this
      ensures trace == old(trace) + LocalSubdirectory(config, filePath, childDir, recursive, dir).events
      ensures r == LocalSubdirectory(config, filePath, childDir, recursive, dir).result
      decreases dir, 4
    {
      var status := CheckRemoteFolder(childDir, dir.probe, dir.create);
      r := UploadSubdirectoryContents(filePath, childDir, recursive, dir, status);
      Associative(old(trace), Sync.CheckRemoteFolder(config, childDir, dir.probe, dir.create).events,
                  SubdirectoryContents(config, filePath, childDir, recursive, dir, status).events);
    }

    /** After the folder check of a subdirectory: log and skip it, or upload its contents. */
    method UploadSubdirectoryContents(filePath: string, childDir: string, recursive: bool, dir: LocalStat,
                                      status: FolderCheck)
      returns (r: Result<(), Failure>)
      requires dir.IsDir?
      modifies this
      ensures trace == old(trace) + SubdirectoryContents(config, filePath, childDir, recursive, dir, status).events
      ensures r == SubdirectoryContents(config, filePath, childDir, recursive, dir, status).result
      decreases dir, 3
    {
      if status.ProbeFailed? || status.CreateFailed? {
        trace := trace + SubdirectorySkipped(config, filePath, childDir, status);
        r := Ok(());
        return;
      }
      if status.Raced? {
        trace := trace + [Log(Info, ChildExists(childDir))];
        r := GetLocalDirectoryContents(filePath, childDir, recursive, dir);
        Associative(old(trace), [Log(Info, ChildExists(childDir))], Sync.GetLocalDirectoryContents(config, filePath, childDir, recursive, dir).events);
      } else {
        r := GetLocalDirectoryContents(filePath, childDir, recursive, dir);
      }
    }

    /** `put`: upload a file, or make sure of the remote folder and upload a directory's contents. */
    method Put(fileStat: LocalStat, filename: string, destination: string, recursive: bool)
      returns (r: Result<(), Failure>)
      requires !fileStat.StatFailed?
      modifies this
      ensures trace == old(trace) + Sync.Put(config, fileStat, filename, destination, recursive).events
      ensures r == Sync.Put(config, fileStat, filename, destination, recursive).result
    {
      if fileStat.IsFile? {
        r := PutFile(filename, fileStat.size, destination, fileStat.upload);
        return;
      }
      var folder := config.ops.posixJoin(destination, config.ops.basename(filename));
      var status := CheckRemoteFolder(folder, fileStat.probe, fileStat.create);
      r := PutFolderContents(filename, folder, recursive, fileStat, status);
      Associative(old(trace), Sync.CheckRemoteFolder(config, folder, fileStat.probe, fileStat.create).events,
                  FolderContents(config, filename, folder, recursive, fileStat, status).events);
    }

    /** After the folder check of `put`: reject, or upload the directory's contents. */
    method PutFolderContents(filename: string, folder: string, recursive: bool, dir: LocalStat, status: FolderCheck)
      returns (r: Result<(), Failure>)
      requires dir.IsDir?
      modifies this
      ensures trace == old(trace) + FolderContents(config, filename, folder, recursive, dir, status).events
      ensures r == FolderContents(config, filename, folder, recursive, dir, status).result
    {
      if status.ProbeFailed? || status.CreateFailed? {
        r := Err(FolderFailure(folder, status));
        return;
      }
      if status.Raced? {
        trace := trace + [Log(Info, FolderExists(folder))];
        r := GetLocalDirectoryContents(filename, folder, recursive, dir);
        Associative(old(trace), [Log(Info, FolderExists(folder))], Sync.GetLocalDirectoryContents(config, filename, folder, recursive, dir).events);
      } else {
        r := GetLocalDirectoryContents(filename, folder, recursive, dir);
      }
    }
  }
}
