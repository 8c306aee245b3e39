/**
 * The Ruby runtime extractor of lib/jets/gems/extract/ruby.rb: from a
 * version or a name it derives the zip name, its URL and its cache path,
 * downloads the zip through the cache of `ExtractBase`, and unpacks it
 * into the build's `stage/code/opt`.
 */
module ExtractRuby {

  import opened Wrappers
  import opened Text
  import opened ExtractBase

  /**
   * `name.match(/^(\d+\.\d+\.\d+)$/)[1]`: the first line of `name` that is
   * a version and nothing else (`^` and `$` anchor at line ends).
   */
  function FirstVersionLine(s: string): (r: Option<string>)
    ensures r.Some? ==> NoNewline(r.value) && IsVersionText(r.value)
    decreases |s|
  {
    var n := NewlineIndex(s);
    if VersionEnd(s[..n], 0) == Some(n) then
      VersionEndSound(s[..n], 0);
      assert s[..n][0..n] == s[..n];
      Some(s[..n])
    else if n == |s| then None
    else FirstVersionLine(s[n + 1..])
  }

  /** `full_ruby_name`: "ruby-<version>.zip" for a bare version, "<name>.zip" otherwise. */
  function FullRubyName(name: string): (r: string)
    ensures |r| >= 4 && r[|r| - 4..] == ".zip"
  {
    match FirstVersionLine(name)
    case Some(version) => "ruby-" + version + ".zip"
    case None => name + ".zip"
  }

  /** A single-line name is a bare version exactly when it is a version text. */
  lemma VersionLineOfSingleLine(name: string)
    requires NoNewline(name)
    ensures FirstVersionLine(name) == (if IsVersionText(name) then Some(name) else None)
  {
    assert name[..|name|] == name;
    if IsVersionText(name) {
      assert name[0..|name|] == name;
      VersionEndComplete(name, 0, |name|);
    }
  }

  /**
   * For a single-line name: a bare version `v` gives "ruby-v.zip" and
   * anything else `name + ".zip"`.
   */
  lemma FullRubyNameSingleLine(name: string)
    requires NoNewline(name)
    ensures IsVersionText(name) ==> FullRubyName(name) == "ruby-" + name + ".zip"
    ensures !IsVersionText(name) ==> FullRubyName(name) == name + ".zip"
  {
    VersionLineOfSingleLine(name);
  }

  /** A single-line name that does not start with a digit is kept, with ".zip" added. */
  lemma NonDigitNameKept(name: string)
    requires NoNewline(name) && |name| > 0 && !IsDigit(name[0])
    ensures FullRubyName(name) == name + ".zip"
  {
    FullRubyNameSingleLine(name);
  }

  /** A bare `d.d.d` version gets "ruby-" in front. */
  lemma ShortVersionPrefixed(v: string)
    requires |v| == 5 && IsDigit(v[0]) && v[1] == '.' && IsDigit(v[2]) && v[3] == '.' && IsDigit(v[4])
    ensures FullRubyName(v) == "ruby-" + v + ".zip"
  {
    assert AllDigits(v[..1]) && AllDigits(v[2..3]) && AllDigits(v[4..]) by {
      assert v[..1][0] == v[0] && v[2..3][0] == v[2] && v[4..][0] == v[4];
    }
    assert VersionSplit(v, 1, 3);
    FullRubyNameSingleLine(v);
  }

  /** The documented examples: 2.5.3, ruby-2.5.3 and test-ruby-2.5.3. */
  lemma FullRubyNameExamples(v: string, r: string, t: string)
    requires v == "2.5.3" && r == "ruby-2.5.3" && t == "test-ruby-2.5.3"
    ensures FullRubyName(v) == "ruby-2.5.3.zip"
    ensures FullRubyName(r) == "ruby-2.5.3.zip"
    ensures FullRubyName(t) == "test-ruby-2.5.3.zip"
  {
    ShortVersionPrefixed(v);
    assert NoNewline(r) && !IsDigit(r[0]);
    NonDigitNameKept(r);
    assert NoNewline(t) && !IsDigit(t[0]);
    NonDigitNameKept(t);
  }

  /** `ruby_url`: the zip under the source's `rubies` folder. */
  function RubyUrl(sourceUrl: string, name: string): (r: string)
    ensures sourceUrl + "/rubies/" <= r
    ensures r[|r| - 4..] == ".zip"
  {
    sourceUrl + "/rubies/" + FullRubyName(name)
  }

  /** `download_path(filename)`: the file's place in the rubies cache. */
  function DownloadPath(downloadsRoot: string, filename: string): (r: string)
    ensures InTree(r, downloadsRoot + "/downloads/rubies")
  {
    var r := downloadsRoot + "/downloads/rubies/" + filename;
    assert downloadsRoot + "/downloads/rubies" + "/" <= r;
    r
  }

  /** `File.basename` of a path that does not end in `/`: the text after the last `/`. */
  function Basename(path: string): (r: string)
    ensures '/' !in r
    ensures |r| <= |path| && r == path[|path| - |r|..]
    ensures |r| < |path| ==> path[|path| - |r| - 1] == '/'
    decreases |path|
  {
    if path == [] then []
    else if path[|path| - 1] == '/' then []
    else
      var init := path[..|path| - 1];
      var b := Basename(init);
      var r := b + [path[|path| - 1]];
      assert init[|init| - |b|..] + [path[|path| - 1]] == path[|path| - |r|..];
      assert |r| < |path| ==> path[|path| - |r| - 1] == init[|init| - |b| - 1];
      r
  }

  /** The basename of a string that ends in `/` + a slash-free `f` is `f`. */
  lemma {:induction false} BasenameAfterSlash(prefix: string, f: string)
    requires '/' !in f
    ensures Basename(prefix + "/" + f) == f
    decreases |f|
  {
    if f == [] {
      assert (prefix + "/" + f)[|prefix + "/" + f| - 1] == '/';
    } else {
      var init := f[..|f| - 1];
      assert '/' !in init by {
        forall c | c in init ensures c != '/' { assert c in f; }
      }
      assert (prefix + "/" + f)[..|prefix + "/" + f| - 1] == prefix + "/" + init;
      BasenameAfterSlash(prefix, init);
      assert init + [f[|f| - 1]] == f;
    }
  }

  /** A version text holds digits and dots only, so no `/`. */
  lemma VersionTextHasNoSlash(version: string)
    requires IsVersionText(version)
    ensures '/' !in version
  {
    var a, b :| VersionSplit(version, a, b);
    forall k | 0 <= k < |version| ensures version[k] != '/' {
      if k < a { assert version[k] == version[..a][k]; }
      else if a < k < b { assert version[k] == version[a + 1..b][k - a - 1]; }
      else if b < k { assert version[k] == version[b + 1..][k - b - 1]; }
    }
  }

  /** `full_ruby_name` of a name without `/` has no `/` either. */
  lemma FullRubyNameHasNoSlash(name: string)
    requires '/' !in name
    ensures '/' !in FullRubyName(name)
  {
    var full := FullRubyName(name);
    match FirstVersionLine(name)
    case Some(version) =>
      VersionTextHasNoSlash(version);
      assert full == "ruby-" + version + ".zip";
      forall k | 0 <= k < |full| ensures full[k] != '/' {
        if 5 <= k < 5 + |version| { assert full[k] == version[k - 5]; }
      }
    case None =>
      assert full == name + ".zip";
      forall k | 0 <= k < |full| ensures full[k] != '/' {
        if k < |name| { assert full[k] == name[k]; }
      }
  }

  /** For a name without `/`, the file name taken from the URL is `full_ruby_name`. */
  lemma BasenameOfRubyUrl(sourceUrl: string, name: string)
    requires '/' !in name
    ensures Basename(RubyUrl(sourceUrl, name)) == FullRubyName(name)
  {
    var full := FullRubyName(name);
    FullRubyNameHasNoSlash(name);
    assert RubyUrl(sourceUrl, name) == (sourceUrl + "/rubies") + "/" + full;
    BasenameAfterSlash(sourceUrl + "/rubies", full);
  }

  /** `build_root/stage/code/opt`, where the runtime is unpacked. */
  function OptDir(buildRoot: string): string {
    buildRoot + "/stage/code/opt"
  }

  /** The directories `mkdir_p(dir)` makes sure of: `dir` and those above it. */
  function DirAndAncestors(dir: string): set<string> {
    {dir} + Ancestors(dir)
  }

  /**
   * What `download_ruby` does: return the zip's path, `exit`, raise
   * `NotFound`, or let the error of a failed read propagate.
   */
  datatype DownloadOutcome =
    | Downloaded(path: string)
    | Exited(status: int, message: string)
    | NotFound(message: string)
    | ReadRaised

  /** What `run` ends with. */
  datatype RunOutcome =
    | Unpacked(zip: string, dest: string)
    | Stopped(download: DownloadOutcome)
    | CommandAborted(message: string)

  /**
   * `download_ruby`'s branch on the result of `download_file`. The message
   * of the `exit_on_error` branch goes to `say` at `:info`, so it is printed
   * only when `SayEnabled` holds; `exit` ends with status 0.
   */
  function DownloadResult(url: string, fetched: Download, exitOnError: bool): (r: DownloadOutcome)
    ensures fetched.Done? ==> r == Downloaded(fetched.path)
    ensures fetched.UrlMissing? && exitOnError ==> r == Exited(0, "Url: " + url + " not found")
    ensures fetched.UrlMissing? && !exitOnError ==> r == NotFound("Url: " + url + " not found")
    ensures fetched.ReadError? ==> r == ReadRaised
  {
    match fetched
    case Done(path) => Downloaded(path)
    case UrlMissing =>
      var message := "Url: " + url + " not found";
      if exitOnError then Exited(0, message) else NotFound(message)
    case ReadError => ReadRaised
  }

  /**
   * The whole of `run` on a disk: clean the rubies cache first when asked,
   * download the zip through the cache (`readOk` says whether reading the
   * remote zip succeeds), then make the unpack directory and run `unzip`,
   * whose success is `unzipOk`.
   */
  function RunResult(fs: FileSystem, remote: map<string, Bytes>, downloadsRoot: string, sourceUrl: string,
                     name: string, clean: bool, exitOnError: bool, buildRoot: string,
                     readOk: bool, unzipOk: bool): (RunOutcome, FileSystem)
  {
    var fs1 := if clean then RemoveTree(fs, downloadsRoot + "/downloads/rubies") else fs;
    var url := RubyUrl(sourceUrl, name);
    var (fetched, fs2) := Fetch(fs1, remote, url, DownloadPath(downloadsRoot, Basename(url)), readOk);
    match DownloadResult(url, fetched, exitOnError)
    case Downloaded(zip) =>
      var fs3 := MakeDirs(fs2, DirAndAncestors(OptDir(buildRoot)));
      (if Sh(unzipOk).Succeeded? then Unpacked(zip, OptDir(buildRoot)) else CommandAborted(Sh(unzipOk).message), fs3)
    case other => (Stopped(other), fs2)
  }

  /**
   * With `:clean`, a cached zip never survives: when the URL exists, the
   * zip is downloaded afresh and, when the read succeeds, holds exactly the
   * remote bytes and is unpacked; a failed read stops the run with an
   * empty zip left behind.
   */
  lemma CleanRunFetchesFresh(fs: FileSystem, remote: map<string, Bytes>, downloadsRoot: string, sourceUrl: string,
                             name: string, exitOnError: bool, buildRoot: string, readOk: bool, unzipOk: bool)
    requires RubyUrl(sourceUrl, name) in remote
    ensures var (outcome, fs') := RunResult(fs, remote, downloadsRoot, sourceUrl, name, true, exitOnError, buildRoot, readOk, unzipOk);
            var zip := DownloadPath(downloadsRoot, Basename(RubyUrl(sourceUrl, name)));
            zip in fs' && fs'[zip] == File(if readOk then remote[RubyUrl(sourceUrl, name)] else [])
            && outcome == (if !readOk then Stopped(ReadRaised)
                           else if unzipOk then Unpacked(zip, OptDir(buildRoot)) else CommandAborted("Command Failed"))
  {
    var url := RubyUrl(sourceUrl, name);
    var zip := DownloadPath(downloadsRoot, Basename(url));
    var fs1 := RemoveTree(fs, downloadsRoot + "/downloads/rubies");
    assert zip !in fs1;
  }

  /** Without `:clean`, a zip already in the cache is never rewritten, whatever the remote holds now. */
  lemma CachedZipReused(fs: FileSystem, remote: map<string, Bytes>, downloadsRoot: string, sourceUrl: string,
                        name: string, exitOnError: bool, buildRoot: string, readOk: bool, unzipOk: bool)
    requires DownloadPath(downloadsRoot, Basename(RubyUrl(sourceUrl, name))) in fs
    ensures var (outcome, fs') := RunResult(fs, remote, downloadsRoot, sourceUrl, name, false, exitOnError, buildRoot, readOk, unzipOk);
            var zip := DownloadPath(downloadsRoot, Basename(RubyUrl(sourceUrl, name)));
            fs'[zip] == fs[zip]
  {
  }

  /**
   * A run whose read fails leaves an empty zip in the cache; the next run
   * without `:clean` takes it as downloaded and goes on to unpack it.
   */
  lemma StaleZipUnpacked(fs: FileSystem, remote: map<string, Bytes>, downloadsRoot: string, sourceUrl: string,
                         name: string, exitOnError: bool, buildRoot: string, readOk: bool, unzipOk: bool)
    requires RubyUrl(sourceUrl, name) in remote
    requires DownloadPath(downloadsRoot, Basename(RubyUrl(sourceUrl, name))) !in fs
    ensures var zip := DownloadPath(downloadsRoot, Basename(RubyUrl(sourceUrl, name)));
            var (first, fs1) := RunResult(fs, remote, downloadsRoot, sourceUrl, name, false, exitOnError, buildRoot, false, unzipOk);
            var (second, fs2) := RunResult(fs1, remote, downloadsRoot, sourceUrl, name, false, exitOnError, buildRoot, readOk, unzipOk);
            first == Stopped(ReadRaised) && zip in fs2 && fs2[zip] == File([])
            && second == (if unzipOk then Unpacked(zip, OptDir(buildRoot)) else CommandAborted("Command Failed"))
  {
    var url := RubyUrl(sourceUrl, name);
    var zip := DownloadPath(downloadsRoot, Basename(url));
    EmptyFileCached(fs, remote, url, zip, readOk);
  }

  /** A missing zip stops the run before anything is unpacked, by `exit` or by `NotFound`. */
  lemma MissingZipStops(fs: FileSystem, remote: map<string, Bytes>, downloadsRoot: string, sourceUrl: string,
                        name: string, clean: bool, exitOnError: bool, buildRoot: string, readOk: bool, unzipOk: bool)
    requires RubyUrl(sourceUrl, name) !in remote
    ensures var (outcome, fs') := RunResult(fs, remote, downloadsRoot, sourceUrl, name, clean, exitOnError, buildRoot, readOk, unzipOk);
            outcome.Stopped?
            && (exitOnError ==> outcome.download.Exited?)
            && (!exitOnError ==> outcome.download == NotFound("Url: " + RubyUrl(sourceUrl, name) + " not found"))
            && fs' == (if clean then RemoveTree(fs, downloadsRoot + "/downloads/rubies") else fs)
  {
  }

  /** `Extract::Ruby`: an `Extract::Base` and the options `run` reads. */
  class Ruby {
    const base: Base
    const clean: bool
    const exitOnError: bool
    /** `Jets.build_root`. */
    const buildRoot: string

    constructor (base: Base, clean: bool, exitOnError: bool, buildRoot: string)
      ensures this.base == base && this.clean == clean && this.exitOnError == exitOnError && this.buildRoot == buildRoot
    {
      this.base := base;
      this.clean := clean;
      this.exitOnError := exitOnError;
      this.buildRoot := buildRoot;
    }

    /**
     * `download_ruby`: fetch the zip into the cache, or stop when its URL is
     * not found; a failed read of the zip propagates.
     */
    method DownloadRuby(readOk: bool) returns (r: DownloadOutcome)
      modifies base`fs
      ensures var url := RubyUrl(base.sourceUrl, base.name);
              var (fetched, fs') := Fetch(old(base.fs), base.remote, url, DownloadPath(base.downloadsRoot, Basename(url)), readOk);
              base.fs == fs' && r == DownloadResult(url, fetched, exitOnError)
    {
      var url := RubyUrl(base.sourceUrl, base.name);
      var tarballDest := base.DownloadFile(url, DownloadPath(base.downloadsRoot, Basename(url)), readOk);
      if tarballDest.ReadError? {
        return ReadRaised;
      }
      if tarballDest.UrlMissing? {
        var message := "Url: " + url + " not found";
        if exitOnError {
          return Exited(0, message);
        } else {
          return NotFound(message);
        }
      }
      return Downloaded(tarballDest.path);
    }

    /** `unzip(path)`: make the unpack directory, then run `unzip` there. */
    method Unzip(path: string, unzipOk: bool) returns (r: ShOutcome)
      modifies base`fs
      ensures base.fs == MakeDirs(old(base.fs), DirAndAncestors(OptDir(buildRoot)))
      ensures r == Sh(unzipOk)
    {
      var dest := OptDir(buildRoot);
      base.fs := MakeDirs(base.fs, DirAndAncestors(dest));
      r := Sh(unzipOk);
    }

    /** `run`: clean the rubies cache when asked, download, unpack. */
    method Run(readOk: bool, unzipOk: bool) returns (r: RunOutcome)
      modifies base`fs
      ensures (r, base.fs) == RunResult(old(base.fs), base.remote, base.downloadsRoot, base.sourceUrl,
                                        base.name, clean, exitOnError, buildRoot, readOk, unzipOk)
    {
      ghost var fs1 := if clean then RemoveTree(base.fs, base.downloadsRoot + "/downloads/rubies") else base.fs;
      if clean {
        base.CleanDownloads("rubies");
        assert base.downloadsRoot + "/downloads/" + "rubies" == base.downloadsRoot + "/downloads/rubies";
      }
      assert base.fs == fs1;
      var zip := DownloadRuby(readOk);
      if !zip.Downloaded? {
        return Stopped(zip);
      }
      var sh := Unzip(zip.path, unzipOk);
      r := if sh.Succeeded? then Unpacked(zip.path, OptDir(buildRoot)) else CommandAborted(sh.message);
    }
  }
}
