/**
 * The missing-gem reporter of lib/jets/gems/report.rb: it splits each
 * `name-version` with `/(.*)-(\d+\.\d+\.\d+.*)/` and sends one
 * `report/missing?...` request per gem that matches. The HTTP requests and
 * threads are not modelled: `Missing` computes the request paths.
 */
module Report {

  import opened Wrappers
  import opened Text

  /** The default of `LAMBDAGEM_API_URL`. */
  const DefaultApiUrl := "https://api.lambdagems.com/api/v1"

  /** `LAMBDAGEM_API_URL`: the environment variable when set, else the default. */
  function ApiBase(env: Option<string>): (r: string)
    ensures env.Some? ==> r == env.value
    ensures env.None? ==> r == DefaultApiUrl
  {
    env.GetOr(DefaultApiUrl)
  }

  /** A dash at `k` of `line` followed by a version, as the regex needs it. */
  predicate VersionDashAt(line: string, k: nat) {
    k < |line| && line[k] == '-' && VersionEnd(line, k + 1).Some?
  }

  /** The last index below `n` where `VersionDashAt` holds. */
  function LastVersionDash(line: string, n: nat): (r: Option<nat>)
    requires n <= |line|
    ensures r.Some? ==> r.value < n && line[r.value] == '-'
    decreases n
  {
    if n == 0 then None
    else if VersionDashAt(line, n - 1) then Some(n - 1)
    else LastVersionDash(line, n - 1)
  }

  /** `LastVersionDash` finds a version dash, and none lies after it; `None` when there is none. */
  lemma {:induction false} LastVersionDashIsLast(line: string, n: nat)
    requires n <= |line|
    ensures LastVersionDash(line, n).Some? ==> VersionDashAt(line, LastVersionDash(line, n).value)
    ensures LastVersionDash(line, n).Some? ==> forall k :: LastVersionDash(line, n).value < k < n ==> !VersionDashAt(line, k)
    ensures LastVersionDash(line, n).None? <==> forall k :: 0 <= k < n ==> !VersionDashAt(line, k)
    decreases n
  {
    if n > 0 && !VersionDashAt(line, n - 1) {
      LastVersionDashIsLast(line, n - 1);
    }
  }

  /**
   * The match of the version pattern inside one line: the greedy `(.*)`
   * takes everything up to the LAST dash followed by `\d+\.\d+\.\d+`, and
   * the second group runs to the end of the line.
   */
  function SplitLine(line: string): (r: Option<(string, string)>)
    ensures r.Some? ==> r.value.0 + "-" + r.value.1 == line
  {
    match LastVersionDash(line, |line|)
    case None => None
    case Some(k) =>
      assert line[..k] + "-" + line[k + 1..] == line[..k] + line[k..k + 1] + line[k + 1..];
      Some((line[..k], line[k + 1..]))
  }

  /**
   * The split is at a dash followed by a version with no such dash after
   * it, and there is no match exactly when the line has no such dash.
   */
  lemma SplitLineAtLastDash(line: string)
    ensures SplitLine(line).Some? ==> VersionDashAt(line, |SplitLine(line).value.0|)
    ensures SplitLine(line).Some? ==> forall k :: |SplitLine(line).value.0| < k < |line| ==> !VersionDashAt(line, k)
    ensures SplitLine(line).None? <==> forall k :: 0 <= k < |line| ==> !VersionDashAt(line, k)
  {
    LastVersionDashIsLast(line, |line|);
  }

  /** The parts of a newline-free line joined by a dash are newline-free. */
  lemma JoinedPartsNoNewline(line: string, name: string, version: string)
    requires NoNewline(line) && name + "-" + version == line
    ensures NoNewline(name) && NoNewline(version)
  {
    forall k | 0 <= k < |name| ensures name[k] != '\n' {
      assert name[k] == line[k];
    }
    forall k | 0 <= k < |version| ensures version[k] != '\n' {
      assert version[k] == line[|name| + 1 + k];
    }
  }

  /**
   * `gem_name.match(version_pattern)` giving `[md[1], md[2]]`: the match
   * lies in the first line of the name that has one (`.` never crosses a
   * newline), or there is none.
   */
  function ParseGemName(s: string): (r: Option<(string, string)>)
    ensures r.Some? ==> NoNewline(r.value.0) && NoNewline(r.value.1)
    decreases |s|
  {
    var n := NewlineIndex(s);
    var m := SplitLine(s[..n]);
    if m.Some? then
      JoinedPartsNoNewline(s[..n], m.value.0, m.value.1);
      m
    else if n == |s| then None
    else ParseGemName(s[n + 1..])
  }

  /** A name without a newline is parsed as one line. */
  lemma ParseSingleLine(s: string)
    requires NoNewline(s)
    ensures ParseGemName(s) == SplitLine(s)
  {
    var n := NewlineIndex(s);
    assert n == |s|;
    assert s[..n] == s;
  }

  /**
   * Round trip: for a newline-free name the pattern matches, the parts
   * joined with "-" give the name back, the name part ends at the last
   * qualifying dash, and the version part starts with `\d+\.\d+\.\d+`.
   */
  lemma {:induction false} ParseRoundTrip(s: string)
    requires NoNewline(s)
    ensures ParseGemName(s).Some? ==>
      var (name, version) := ParseGemName(s).value;
      name + "-" + version == s
      && VersionEnd(s, |name| + 1).Some?
      && forall k :: |name| < k < |s| ==> !VersionDashAt(s, k)
    ensures ParseGemName(s).None? <==> forall k :: 0 <= k < |s| ==> !VersionDashAt(s, k)
  {
    ParseSingleLine(s);
    SplitLineAtLastDash(s);
  }

  /** The request path for one gem; the parts are not URL-encoded. */
  function MissingPath(name: string, version: string): string {
    "report/missing?name=" + name + "&version=" + version
  }

  /** The paths `report` requests, one per gem name that matches, in order. */
  function ReportPaths(gems: seq<string>): (r: seq<string>)
    ensures |r| <= |gems|
    decreases |gems|
  {
    if gems == [] then []
    else
      var rest := ReportPaths(gems[..|gems| - 1]);
      match ParseGemName(gems[|gems| - 1])
      case Some((name, version)) => rest + [MissingPath(name, version)]
      case None => rest
  }

  /** How many gem names fail to match, each giving a warning. */
  function Unparsable(gems: seq<string>): nat
    decreases |gems|
  {
    if gems == [] then 0
    else Unparsable(gems[..|gems| - 1]) + (if ParseGemName(gems[|gems| - 1]).None? then 1 else 0)
  }

  /** Every gem name gives either one request or one warning. */
  lemma {:induction false} PathsPlusWarnings(gems: seq<string>)
    ensures |ReportPaths(gems)| + Unparsable(gems) == |gems|
    decreases |gems|
  {
    if gems != [] {
      PathsPlusWarnings(gems[..|gems| - 1]);
    }
  }

  /** A gem name that matches has its request among the paths. */
  lemma {:induction false} MatchedGemRequested(gems: seq<string>, i: nat)
    requires i < |gems| && ParseGemName(gems[i]).Some?
    ensures MissingPath(ParseGemName(gems[i]).value.0, ParseGemName(gems[i]).value.1) in ReportPaths(gems)
    decreases |gems|
  {
    if i < |gems| - 1 {
      MatchedGemRequested(gems[..|gems| - 1], i);
    }
  }

  /** Every path requested comes from a gem name that matches. */
  lemma {:induction false} RequestedFromGem(gems: seq<string>, p: string)
    requires p in ReportPaths(gems)
    ensures exists i :: 0 <= i < |gems| && ParseGemName(gems[i]).Some?
                     && p == MissingPath(ParseGemName(gems[i]).value.0, ParseGemName(gems[i]).value.1)
    decreases |gems|
  {
    var init := gems[..|gems| - 1];
    if p in ReportPaths(init) {
      RequestedFromGem(init, p);
      var i :| 0 <= i < |init| && ParseGemName(init[i]).Some?
             && p == MissingPath(ParseGemName(init[i]).value.0, ParseGemName(init[i]).value.1);
      assert init[i] == gems[i];
    } else {
      assert ParseGemName(gems[|gems| - 1]).Some?;
    }
  }

  /** Requests of two lists joined are the requests of each, in order. */
  lemma {:induction false} ReportPathsAppend(a: seq<string>, b: seq<string>)
    ensures ReportPaths(a + b) == ReportPaths(a) + ReportPaths(b)
    decreases |b|
  {
    if b == [] {
      assert a + b == a;
    } else {
      var b' := b[..|b| - 1];
      assert (a + b)[..|a + b| - 1] == a + b';
      ReportPathsAppend(a, b');
    }
  }

  /** A line splits at a version dash with no dash after it. */
  lemma SplitAtFinalDash(line: string, k: nat)
    requires VersionDashAt(line, k)
    requires forall j :: k < j < |line| ==> line[j] != '-'
    ensures SplitLine(line) == Some((line[..k], line[k + 1..]))
  {
    SplitLineAtLastDash(line);
    var r := SplitLine(line);
    var n := |r.value.0|;
    assert n == k;
    assert r.value.0 == (r.value.0 + "-" + r.value.1)[..n];
    assert r.value.1 == (r.value.0 + "-" + r.value.1)[n + 1..];
  }

  /** The worked example: the name splits at the last dash before a version. */
  lemma SplitExample(s: string)
    requires s == "foo-bar-1.2.3"
    ensures ParseGemName(s) == Some(("foo-bar", "1.2.3"))
  {
    assert NoNewline(s);
    assert IsDigit(s[8]) && IsDigit(s[10]) && IsDigit(s[12]) && s[9] == '.' && s[11] == '.' && s[7] == '-';
    SplitAtVersionSuffix(s, 7);
    assert s[..7] == "foo-bar" && s[8..] == "1.2.3";
  }

  /** A newline-free name ending in `-d.d.d` splits at that dash. */
  lemma SplitAtVersionSuffix(s: string, k: nat)
    requires NoNewline(s) && k + 6 == |s| && s[k] == '-'
    requires IsDigit(s[k + 1]) && s[k + 2] == '.' && IsDigit(s[k + 3]) && s[k + 4] == '.' && IsDigit(s[k + 5])
    ensures ParseGemName(s) == Some((s[..k], s[k + 1..]))
  {
    VersionEndAt(s, k + 1, k + 6, 1, 3);
    SplitAtFinalDash(s, k);
    ParseSingleLine(s);
  }

  /**
   * `Report.missing(gems)`, that is `new(gems).report`: walk the gems, start
   * one request per name that matches and warn about every other one, then
   * join the requests. Here the requests are collected as paths, the
   * warnings counted, and `raised` is the error the join re-raises, if any.
   */
  method Missing(gems: seq<string>, network: string -> HttpResult) returns (paths: seq<string>, warnings: nat, raised: Option<string>)
    ensures paths == ReportPaths(gems)
    ensures warnings == Unparsable(gems)
    ensures |paths| + warnings == |gems|
    ensures raised == JoinError(paths, network)
  {
    paths, warnings := [], 0;
    var i := 0;
    while i < |gems|
      invariant 0 <= i <= |gems|
      invariant paths == ReportPaths(gems[..i])
      invariant warnings == Unparsable(gems[..i])
    {
      assert gems[..i + 1][..i] == gems[..i];
      var md := ParseGemName(gems[i]);
      if md.Some? {
        var (name, version) := md.value;
        paths := paths + [MissingPath(name, version)];
      } else {
        warnings := warnings + 1;
      }
      i := i + 1;
    }
    assert gems[..i] == gems;
    PathsPlusWarnings(gems);
    raised := Join(paths, network);
  }

  /** `url.include?("http") ? url : "http://#{url}"`. */
  function EnsureScheme(url: string): (r: string)
    ensures Contains(r, "http")
    ensures Contains(url, "http") ==> r == url
    ensures !Contains(url, "http") ==> r == "http://" + url
  {
    if Contains(url, "http") then url
    else
      assert OccursAt("http://" + url, "http", 0);
      "http://" + url
  }

  /** `api_url(path)`: the base, a slash and the path, with a scheme ensured. */
  function ApiUrl(base: string, path: string): (r: string)
    ensures r == base + "/" + path || r == "http://" + base + "/" + path
    ensures r == base + "/" + path <==> Contains(base + "/" + path, "http")
  {
    EnsureScheme(base + "/" + path)
  }

  /** Ensuring the scheme twice is ensuring it once. */
  lemma EnsureSchemeIdempotent(url: string)
    ensures EnsureScheme(EnsureScheme(url)) == EnsureScheme(url)
  {
  }

  /**
   * What a request gave back: a response, `Net::ReadTimeout`, or any other
   * error of the request (connection refused, DNS failure, `Net::OpenTimeout`).
   */
  datatype HttpResult = Responded(status: int, body: string) | ReadTimedOut | Failed(error: string)

  /** What `call_api` gives: `nil`, the response, or an exception it raises. */
  datatype CallResult = Nil | Response(status: int, body: string) | NoMethodError | Raised(error: string)

  /**
   * `call_api(path, async:)`: only `Net::ReadTimeout` is rescued, so any
   * other request error raises out of it, asynchronous or not; otherwise an
   * asynchronous call returns `nil`, and a synchronous one the response, or
   * fails on a timeout because `response` is then `nil` when its `code` is read.
   */
  function CallApi(async: bool, result: HttpResult): (r: CallResult)
    ensures result.Failed? ==> r == Raised(result.error)
    ensures async && !result.Failed? ==> r == Nil
    ensures !async && result.Responded? ==> r == Response(result.status, result.body)
    ensures !async && result.ReadTimedOut? ==> r == NoMethodError
  {
    match result
    case Failed(error) => Raised(error)
    case Responded(status, body) => if async then Nil else Response(status, body)
    case ReadTimedOut => if async then Nil else NoMethodError
  }

  /**
   * The index of the first path, in order, whose asynchronous `call_api`
   * raises; `|paths|` when none does. `network` gives the result of the
   * request for each path.
   */
  function FirstRaising(paths: seq<string>, network: string -> HttpResult): (i: nat)
    ensures i <= |paths|
    ensures i < |paths| ==> CallApi(true, network(paths[i])).Raised?
    ensures forall j :: 0 <= j < i ==> CallApi(true, network(paths[j])) == Nil
    decreases |paths|
  {
    if paths == [] then 0
    else if CallApi(true, network(paths[0])).Raised? then 0
    else
      var i := 1 + FirstRaising(paths[1..], network);
      assert forall j :: 1 <= j < i ==> paths[j] == paths[1..][j - 1];
      i
  }

  /**
   * What `threads.each(&:join)` raises: joining in creation order re-raises
   * the error of the first thread whose request failed; `None` when no
   * request failed.
   */
  function JoinError(paths: seq<string>, network: string -> HttpResult): Option<string> {
    var i := FirstRaising(paths, network);
    if i < |paths| then Some(CallApi(true, network(paths[i])).error) else None
  }

  /** The join raises exactly when some request failed with an error other than a read timeout. */
  lemma JoinRaisesIffFailed(paths: seq<string>, network: string -> HttpResult)
    ensures JoinError(paths, network).Some? <==> exists j :: 0 <= j < |paths| && network(paths[j]).Failed?
    ensures JoinError(paths, network).Some? ==>
              exists j :: 0 <= j < |paths| && network(paths[j]) == Failed(JoinError(paths, network).value)
  {
    var i := FirstRaising(paths, network);
    if i < |paths| {
      assert network(paths[i]).Failed?;
    }
  }

  /**
   * `threads.each(&:join)`: join the request threads in order; the first
   * one whose `call_api` raised re-raises its error.
   */
  method Join(paths: seq<string>, network: string -> HttpResult) returns (raised: Option<string>)
    ensures raised == JoinError(paths, network)
  {
    ghost var first := FirstRaising(paths, network);
    raised := None;
    var j := 0;
    while j < |paths|
      invariant 0 <= j <= first
      invariant raised.None?
    {
      var result := CallApi(true, network(paths[j]));
      if result.Raised? {
        raised := Some(result.error);
        break;
      }
      j := j + 1;
    }
  }
}
