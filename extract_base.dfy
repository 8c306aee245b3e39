/**
 * The download cache of lib/jets/gems/extract/base.rb. The local disk is a
 * map from path to node, the remote side a partial map from URL to bytes:
 * a URL exists exactly when it is a key. A cached file is recognised by
 * its path alone.
 */
module ExtractBase {

  import opened Wrappers

  type Bytes = seq<bv8>

  /** What is stored at a path. */
  datatype Node = File(data: Bytes) | Dir

  type FileSystem = map<string, Node>

  /** `options[:downloads_root] || "/tmp/jets/#{project_name}/lambdagems"`. */
  function DownloadsRoot(option: Option<string>, projectName: string): (r: string)
    ensures option.Some? ==> r == option.value
    ensures option.None? ==> r == "/tmp/jets/" + projectName + "/lambdagems"
  {
    option.GetOr("/tmp/jets/" + projectName + "/lambdagems")
  }

  /** The directories above `path`: each prefix that ends just before a `/`. */
  function Ancestors(path: string): (r: set<string>)
    ensures forall d :: d in r ==> |d| < |path| && d < path
  {
    set i | 0 < i < |path| && path[i] == '/' :: path[..i]
  }

  /** `FileUtils.mkdir_p` for every directory in `dirs`: missing ones are created, nothing else changes. */
  function MakeDirs(fs: FileSystem, dirs: set<string>): (r: FileSystem)
    ensures r.Keys == fs.Keys + dirs
    ensures forall q :: q in fs ==> r[q] == fs[q]
    ensures forall q :: q in dirs && q !in fs ==> r[q] == Dir
  {
    map q | q in fs.Keys + dirs :: if q in fs then fs[q] else Dir
  }

  /** `q` is `root` or lies below it. */
  predicate InTree(q: string, root: string) {
    q == root || root + "/" <= q
  }

  /** `FileUtils.rm_rf(root)`: exactly the subtree at `root` is gone. */
  function RemoveTree(fs: FileSystem, root: string): (r: FileSystem)
    ensures forall q :: q in r <==> q in fs && !InTree(q, root)
    ensures forall q :: q in r ==> r[q] == fs[q]
  {
    map q | q in fs && !InTree(q, root) :: fs[q]
  }

  /**
   * What `download_file` gives: `nil` when the URL does not exist, `dest`,
   * or an error raised by `open(source_url)` while reading the remote file.
   */
  datatype Download = UrlMissing | Done(path: string) | ReadError

  /**
   * `download_file(url, dest)` on a disk `fs`: the result and the new disk.
   * The remote check comes first, so a missing URL gives `nil` even when
   * `dest` is cached; then an existing `dest` is returned untouched;
   * otherwise the parent directories are made and `File.open(dest, 'wb')`
   * creates `dest` empty before the remote file is read into it. `readOk`
   * says whether that read succeeds; when it fails the error propagates and
   * the empty file stays behind.
   */
  function Fetch(fs: FileSystem, remote: map<string, Bytes>, url: string, dest: string, readOk: bool): (r: (Download, FileSystem))
    ensures r.0.UrlMissing? <==> url !in remote
    ensures r.0.ReadError? <==> url in remote && dest !in fs && !readOk
    ensures r.0.Done? ==> r.0.path == dest && dest in r.1
    ensures url !in remote || dest in fs ==> r.1 == fs
    ensures url in remote && dest !in fs ==> dest in r.1 && r.1[dest] == File(if readOk then remote[url] else [])
    ensures forall q :: q in fs ==> q in r.1 && (q != dest ==> r.1[q] == fs[q])
    ensures forall q :: q != dest && q !in Ancestors(dest) ==> (q in r.1 <==> q in fs)
  {
    if url !in remote then (UrlMissing, fs)
    else if dest in fs then (Done(dest), fs)
    else
      var created := MakeDirs(fs, Ancestors(dest))[dest := File([])];
      if readOk then (Done(dest), created[dest := File(remote[url])]) else (ReadError, created)
  }

  /**
   * A second download of the same URL to the same path changes nothing on
   * the disk, whether or not either read succeeds; it gives the first
   * result again, or `dest` when the first read failed.
   */
  lemma FetchIdempotent(fs: FileSystem, remote: map<string, Bytes>, url: string, dest: string, ok1: bool, ok2: bool)
    ensures var (first, fs1) := Fetch(fs, remote, url, dest, ok1);
            var (second, fs2) := Fetch(fs1, remote, url, dest, ok2);
            fs2 == fs1 && second == (if first.ReadError? then Done(dest) else first)
  {
  }

  /** A URL that has vanished gives `nil` and leaves the disk alone, even over a cached file. */
  lemma VanishedUrl(fs: FileSystem, remote: map<string, Bytes>, url: string, dest: string, readOk: bool)
    requires url !in remote && dest in fs
    ensures Fetch(fs, remote, url, dest, readOk) == (UrlMissing, fs)
  {
  }

  /**
   * A read that fails leaves an empty file at `dest`, and every later
   * download to `dest` takes it as a cache hit and returns it unchanged.
   */
  lemma EmptyFileCached(fs: FileSystem, remote: map<string, Bytes>, url: string, dest: string, readOk: bool)
    requires url in remote && dest !in fs
    ensures var (first, fs1) := Fetch(fs, remote, url, dest, false);
            first == ReadError && fs1[dest] == File([])
            && Fetch(fs1, remote, url, dest, readOk) == (Done(dest), fs1)
  {
  }

  /** The log level names that matter here; others are kept by name. */
  datatype LogLevel = Debug | Info | Level(name: string)

  /** `say`'s test: print when the global level or the message's level is `:debug`. */
  function SayEnabled(global: LogLevel, level: LogLevel): (r: bool)
    ensures r <==> global == Debug || level == Debug
    ensures global != Debug ==> (r <==> level == Debug)
  {
    global == Debug || level == Debug
  }

  /** The class-wide `@@log_level`, shared by every extractor that holds it. */
  class LogSettings {
    var level: LogLevel

    /** The default level is `:info`. */
    constructor ()
      ensures level == Info
    {
      level := Info;
    }
  }

  /** What `sh` gives: `true` on success; otherwise it aborts with "Command Failed". */
  datatype ShOutcome = Succeeded(value: bool) | Aborted(message: string)

  /** `sh(command)`, given whether `system(command)` succeeded. */
  function Sh(success: bool): (r: ShOutcome)
    ensures r.Succeeded? <==> success
    ensures r.Succeeded? ==> r.value
    ensures r.Aborted? ==> r.message == "Command Failed"
  {
    if success then Succeeded(true) else Aborted("Command Failed")
  }

  /** `Extract::Base`: the name, options, the shared log level and the disk it works on. */
  class Base {
    const name: string
    const downloadsRoot: string
    const sourceUrl: string
    /** The remote files and their bytes. */
    const remote: map<string, Bytes>
    const log: LogSettings
    var fs: FileSystem

    /** `Base.new(name, options)`; `defaultSource` is `Jets.default_gems_source`. */
    constructor (name: string, downloadsRootOption: Option<string>, projectName: string,
                 sourceUrlOption: Option<string>, defaultSource: string,
                 remote: map<string, Bytes>, log: LogSettings, fs: FileSystem)
      ensures this.name == name
      ensures downloadsRoot == DownloadsRoot(downloadsRootOption, projectName)
      ensures sourceUrl == sourceUrlOption.GetOr(defaultSource)
      ensures this.remote == remote && this.log == log && this.fs == fs
    {
      this.name := name;
      downloadsRoot := DownloadsRoot(downloadsRootOption, projectName);
      sourceUrl := sourceUrlOption.GetOr(defaultSource);
      this.remote := remote;
      this.log := log;
      this.fs := fs;
    }

    /** `clean_downloads(folder)`: removes the cache subtree of `folder` and nothing else. */
    method CleanDownloads(folder: string)
      modifies this`fs
      ensures fs == RemoveTree(old(fs), downloadsRoot + "/downloads/" + folder)
    {
      var path := downloadsRoot + "/downloads/" + folder;
      fs := RemoveTree(fs, path);
    }

    /** `url_exists?(url)` */
    method UrlExists(url: string) returns (b: bool)
      ensures b <==> url in remote
    {
      b := url in remote;
    }

    /**
     * `download_file(source_url, dest)`: `dest`, `UrlMissing` for `nil`, or
     * `ReadError` when reading the remote file fails (`readOk` false).
     */
    method DownloadFile(url: string, dest: string, readOk: bool) returns (r: Download)
      modifies this`fs
      ensures (r, fs) == Fetch(old(fs), remote, url, dest, readOk)
    {
      var exist := UrlExists(url);
      if !exist {
        return UrlMissing;
      }
      if dest in fs {
        return Done(dest);
      }
      fs := MakeDirs(fs, Ancestors(dest));
      fs := fs[dest := File([])];
      if !readOk {
        return ReadError;
      }
      fs := fs[dest := File(remote[url])];
      return Done(dest);
    }

    /** `log_level=`: sets the level for every extractor sharing `log`. */
    method SetLogLevel(level: LogLevel)
      modifies log
      ensures log.level == level
    {
      log.level := level;
    }

    /** `say(message, level)`: the line printed, if any. */
    method Say(message: string, level: LogLevel) returns (printed: Option<string>)
      ensures printed.Some? <==> log.level == Debug || level == Debug
      ensures printed.Some? ==> printed.value == message
    {
      var enabled := SayEnabled(log.level, level);
      printed := if enabled then Some(message) else None;
    }
  }
}
