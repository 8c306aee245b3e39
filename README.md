# jets-gems availability core in Dafny

Jets packages Ruby applications for AWS Lambda. Gems with native
extensions must be available precompiled for Lambda, so before a deploy
Jets checks each compiled gem against its configured "lambdagems"
sources. This project models that part of jets-gems and proves
properties of the model:

- **Check** (`check.dfy`, `lib/jets/gems/check.rb`). `gemspec_compiled_gems`
  picks the gems with extensions, leaving out those `bundle show` reports
  as deleted. `run` looks each one up on the sources in order and breaks at
  the first source that has it. It records found gems in `found_gems` and
  appends the others to `@missing_gems`. `run!` exits with status 1 when
  anything is missing, after printing `missing_message` and, only with
  consent, reporting the missing gems; a failed report request raises
  instead.
- **Report** (`report.dfy`, `lib/jets/gems/report.rb`). It splits
  `name-version` with the greedy pattern `/(.*)-(\d+\.\d+\.\d+.*)/` and
  builds one `report/missing?name=..&version=..` path per matching name. It
  also covers `api_url`, the return contract of `call_api` and the join
  that re-raises a failed request.
- **Extract::Base** (`extract_base.dfy`, `lib/jets/gems/extract/base.rb`).
  The download cache over a disk. The disk is a map from path to node and
  the remote side is a partial map from URL to bytes. Also `clean_downloads`,
  `sh`, `say` and the shared log level.
- **Extract::Ruby** (`extract_ruby.dfy`, `lib/jets/gems/extract/ruby.rb`).
  The runtime zip's name, URL and cache path, the not-found branch of
  `download_ruby`, and the clean → download → unzip order of `run`.
- **Agree** (`agree.dfy`, `lib/jets/gems/agree.rb`). The consent store.
  The contents of `~/.jets/agree` are an `Option<string>`, and `None`
  means the file is absent.
- `text.dfy` holds the Ruby string operations these rely on:
  - `include?`;
  - `strip`, which removes whitespace and NUL at both ends;
  - `=~ /y/i`;
  - the `\d+\.\d+\.\d+` pattern. Ruby's `.` never matches a newline and its
    `^`/`$` anchor at line ends, so the line structure of a name is part of
    the model.

  `wrappers.dfy` holds `Option`.

Imperative code in the source is imperative here:
- `Check` and `Agree` are classes with methods that update their fields.
- `Check.Run` and `Check.CheckGem` keep the source's nested loops, flag and
  `break`.
- `Report.Missing` keeps the loop of `report`.
- `Base` and `Ruby` are classes over a mutable disk `fs`.

Each method is proved against a specification function:
- `Check.Found`, `Check.Misses`, `Check.Probes` and `Check.FirstMatch` for
  the resolution;
- `Report.ReportPaths` for the paths reported;
- `ExtractBase.Fetch` for the download;
- `ExtractRuby.RunResult` for `run`;
- `Consent.Prompted` for `prompt`.

The properties are lemmas about those functions.

Inputs outside the code are parameters:
- `Jets::Gems::Exist#check` is a predicate `hasGem(gem, source)`, and
  `url_exists?` is membership of the URL in `remote`.
- The `Gem::Specification` list is a parameter, and so is `bundle show` (a
  function from a gem name to its output).
- The line read from standard input is a parameter.
- So are whether `system(...)` succeeded, `ENV['HOME']`, `Jets.build_root`
  and `Jets.config` values.

Points of the code the model keeps:
- `download_file` probes the remote before it looks at the cache
  (lib/jets/gems/extract/base.rb:41-46). So a cached file still costs a
  probe, and a cached file whose URL has vanished gives `nil`
  (`ExtractBase.VanishedUrl`).
- `download_file` opens `dest` for writing before it reads the remote file
  (lib/jets/gems/extract/base.rb:51-55). A read that fails leaves an empty
  file there, which every later call takes as a cache hit
  (`ExtractBase.EmptyFileCached`, `ExtractRuby.StaleZipUnpacked`).
- `call_api` rescues only `Net::ReadTimeout` (lib/jets/gems/report.rb:51-55).
  Any other request error is re-raised by the join in `report`
  (lib/jets/gems/report.rb:32), so `run!` then raises before its `exit 1`
  (`Report.JoinRaisesIffFailed`, `Check.Ending`).
- `prompt` stores "yes" when the stripped answer contains a `y` or `Y`
  anywhere in it (lib/jets/gems/agree.rb:14).
- `report` puts the name and version into the request path as they are,
  without URL encoding (lib/jets/gems/report.rb:24).
- `compiled_gems` is `gemspec_compiled_gems` alone; the detection that
  looked for compiled files in the build tree was removed
  (lib/jets/gems/check.rb:124-128).

## Model

| member | source | states |
|---|---|---|
| Text.Contains | lib/jets/gems/check.rb:158 | `include?`: true exactly when the text occurs at some index |
| Text.Strip | lib/jets/gems/agree.rb:13 | the result is an infix of the input with no whitespace at either end, and everything cut off on either side is whitespace |
| Text.StripUntrimmed | lib/jets/gems/agree.rb:21 | stripping a string with no whitespace at its ends returns it unchanged |
| Text.StripSurrounded | lib/jets/gems/agree.rb:21 | whitespace around a text with no whitespace at its ends is exactly what stripping removes |
| Text.HasLetterY | lib/jets/gems/agree.rb:14 | `=~ /y/i`: true exactly when some character is `y` or `Y` |
| Text.DigitRunMaximal | lib/jets/gems/report.rb:18 | `\d+` takes every digit it can: the run is digits and no digit follows it |
| Text.DigitRunExact | lib/jets/gems/report.rb:18 | a run of digits is covered by `DigitRun`, exactly when no digit follows |
| Text.VersionEnd | lib/jets/gems/report.rb:18 | a greedy match of `\d+\.\d+\.\d+` at an index ends after that index and within the string |
| Text.VersionEndSound | lib/jets/gems/report.rb:18 | whatever `VersionEnd` matches is a version text (digits, dot, digits, dot, digits) |
| Text.VersionEndComplete | lib/jets/gems/report.rb:18 | every version text at an index is found by `VersionEnd`, which ends at or after it, and exactly at its end when no digit follows |
| Consent.AnswerValue | lib/jets/gems/agree.rb:13-14 | the stored value is "yes" or "no", and it is "yes" exactly when the stripped answer contains `y` or `Y` |
| Consent.ConsentYes | lib/jets/gems/agree.rb:20-22 | `yes?`: the file exists and its contents, stripped, are "yes" |
| Consent.ConsentNo | lib/jets/gems/agree.rb:24-26 | `no?`: the file exists and its contents, stripped, are "no" |
| Consent.Prompted | lib/jets/gems/agree.rb:8-18 | an existing file keeps its contents; a missing one gets the answer's value |
| Consent.YesNoExclusive | lib/jets/gems/agree.rb:20-26 | `yes?` and `no?` never hold together |
| Consent.NoFileNeither | lib/jets/gems/agree.rb:20-26 | with no file, neither `yes?` nor `no?` holds |
| Consent.OtherContentsNeither | lib/jets/gems/agree.rb:20-26 | contents that strip to neither "yes" nor "no" satisfy neither predicate |
| Consent.MarkersRead | lib/jets/gems/agree.rb:20-34 | contents "yes" satisfy `yes?` and not `no?`; contents "no" the reverse |
| Consent.TrailingNewlineYes | lib/jets/gems/agree.rb:21 | a file holding "yes\n" counts as yes |
| Consent.PaddedMarkers | lib/jets/gems/agree.rb:20-26 | "yes" or "no" with any whitespace around it reads as that marker, and not as the other |
| Consent.EmptyAnswerIsNo | lib/jets/gems/agree.rb:13-14 | an empty answer, or "n", stores "no" |
| Consent.PromptIdempotent | lib/jets/gems/agree.rb:9 | a second prompt never changes what the first stored |
| Consent.PromptDecides | lib/jets/gems/agree.rb:13-17 | after a prompt on a missing file exactly one of `yes?` and `no?` holds |
| Consent.Agree.constructor | lib/jets/gems/agree.rb:3-5 | the agree file is `<home>/.jets/agree` |
| Consent.Agree.Prompt | lib/jets/gems/agree.rb:8-18 | the new contents are `Prompted` of the old contents and the answer |
| Consent.Agree.IsYes | lib/jets/gems/agree.rb:20-22 | the result is `ConsentYes` of the contents |
| Consent.Agree.IsNo | lib/jets/gems/agree.rb:24-26 | the result is `ConsentNo` of the contents |
| Consent.Agree.Yes | lib/jets/gems/agree.rb:28-30 | the file holds "yes"; afterwards `yes?` holds and `no?` does not, whatever came before |
| Consent.Agree.No | lib/jets/gems/agree.rb:32-34 | the file holds "no"; afterwards `no?` holds and `yes?` does not, whatever came before |
| Consent.Agree.WriteFile | lib/jets/gems/agree.rb:36-39 | the agree file holds exactly the content, and nothing else changes |
| Report.ApiBase | lib/jets/gems/report.rb:7 | the environment variable when set, else `https://api.lambdagems.com/api/v1` |
| Report.LastVersionDash | lib/jets/gems/report.rb:18 | the index found is below the bound and holds a dash |
| Report.LastVersionDashIsLast | lib/jets/gems/report.rb:18 | the index found is a dash followed by a version with no such dash after it below the bound; none exactly when there is no such dash |
| Report.SplitLine | lib/jets/gems/report.rb:18-22 | on a match, name + "-" + version is the line |
| Report.SplitLineAtLastDash | lib/jets/gems/report.rb:18 | the name ends at a dash followed by a version and no such dash comes later; no match exactly when the line has no such dash |
| Report.JoinedPartsNoNewline | lib/jets/gems/report.rb:21-22 | the two parts of a newline-free line are newline-free |
| Report.ParseGemName | lib/jets/gems/report.rb:18-22 | both parts of a match are free of newlines |
| Report.ParseSingleLine | lib/jets/gems/report.rb:21 | a name without a newline is matched as one line |
| Report.ParseRoundTrip | lib/jets/gems/report.rb:18-22 | for a newline-free name: the parts joined with "-" give the name back, the version part starts with a version, the split is at the last such dash, and there is no match exactly when there is no such dash |
| Report.SplitAtFinalDash | lib/jets/gems/report.rb:18 | a line whose last dash is followed by a version splits at that dash |
| Report.SplitAtVersionSuffix | lib/jets/gems/report.rb:18-22 | a newline-free name ending in `-d.d.d` splits at that dash |
| Report.SplitExample | lib/jets/gems/report.rb:18-22 | `foo-bar-1.2.3` gives name `foo-bar` and version `1.2.3` |
| Report.MissingPath | lib/jets/gems/report.rb:24 | the request path `report/missing?name=<name>&version=<version>`, without URL encoding |
| Report.ReportPaths | lib/jets/gems/report.rb:20-29 | no more paths than gem names |
| Report.Unparsable | lib/jets/gems/report.rb:26-28 | the number of gem names that do not match, one warning each |
| Report.PathsPlusWarnings | lib/jets/gems/report.rb:20-28 | every gem name gives exactly one request or one warning |
| Report.MatchedGemRequested | lib/jets/gems/report.rb:20-25 | each matching name has its `report/missing?name=..&version=..` path among the requests |
| Report.RequestedFromGem | lib/jets/gems/report.rb:20-25 | every requested path comes from a matching gem name |
| Report.ReportPathsAppend | lib/jets/gems/report.rb:20-29 | the paths are listed in the gems' order: those of two lists joined are those of each, in turn |
| Report.Missing | lib/jets/gems/report.rb:17-33 | the loop's paths are `ReportPaths`, its warnings count the names that do not match, the two add up to the number of names, and what the join raises is `JoinError` of the paths |
| Report.EnsureScheme | lib/jets/gems/report.rb:37 | the result contains "http"; a URL containing "http" is kept, any other gets "http://" in front |
| Report.ApiUrl | lib/jets/gems/report.rb:35-38 | the base, "/" and the path, with "http://" in front exactly when that string lacks "http" |
| Report.EnsureSchemeIdempotent | lib/jets/gems/report.rb:37 | ensuring the scheme twice is ensuring it once |
| Report.CallApi | lib/jets/gems/report.rb:40-66 | a request error other than a read timeout raises, asynchronous or not; otherwise an asynchronous call returns nil, and a synchronous one the response, or fails on a read timeout |
| Report.FirstRaising | lib/jets/gems/report.rb:32 | the first request, in the order the threads were made, whose call raises; every earlier call returned nil |
| Report.JoinError | lib/jets/gems/report.rb:32 | what the join raises: the error of the first request, in thread order, whose call raises; nothing when none does |
| Report.JoinRaisesIffFailed | lib/jets/gems/report.rb:32-56 | the join raises exactly when some request failed with an error other than a read timeout, and it raises that request's error |
| Report.Join | lib/jets/gems/report.rb:32 | joining the threads in order raises `JoinError` of the paths |
| Check.WeirdGem | lib/jets/gems/check.rb:155-158 | true exactly when the `bundle show` output contains "has been deleted" |
| Check.Kept | lib/jets/gems/check.rb:143-144 | a spec survives the `select` and the `reject!`: it has extensions and `weird_gem?` of its name is false |
| Check.CompiledGems | lib/jets/gems/check.rb:142-146 | no more names than specs |
| Check.CompiledGemsMembers | lib/jets/gems/check.rb:142-146 | a name is kept exactly when some spec with extensions and a name that is not weird has it as full name |
| Check.CompiledGemsAppend | lib/jets/gems/check.rb:142-146 | the filter keeps the specs' order |
| Check.FirstMatch | lib/jets/gems/check.rb:33-41 | the first source, in configured order, that has the gem: it has it and no earlier one does, or none does |
| Check.FirstMatchUnique | lib/jets/gems/check.rb:33-41 | any index with those properties is `FirstMatch` |
| Check.GemProbes | lib/jets/gems/check.rb:33-42 | the checks made for one gem are the sources in order up to the first match, or all sources; only the last check can succeed |
| Check.Found | lib/jets/gems/check.rb:29-46 | `found_gems` after the gems were checked in order: each gem some source has, mapped to its first such source |
| Check.Misses | lib/jets/gems/check.rb:30-46 | the gems appended to `@missing_gems`, in order: those no source has |
| Check.Probes | lib/jets/gems/check.rb:30-42 | every `Exist#check` call the loops make, in order: for each gem, its `GemProbes` |
| Check.FoundIsFirstSource | lib/jets/gems/check.rb:30-41 | a gem is a key of `found_gems` exactly when some source has it, and its value is the first such source |
| Check.MissedIffNoSource | lib/jets/gems/check.rb:30-46 | a gem is among the misses exactly when no source has it |
| Check.Partition | lib/jets/gems/check.rb:30-46 | every compiled gem lands in exactly one of `found_gems` and the misses |
| Check.MissesAppend | lib/jets/gems/check.rb:30-46 | misses are appended in `compiled_gems` order |
| Check.ShortCircuit | lib/jets/gems/check.rb:37-40 | once a source has the gem, no later source is checked |
| Check.Render | lib/jets/gems/check.rb:65-92 | a bullet line reads `* <item>` |
| Check.Bullets | lib/jets/gems/check.rb:67-74 | one bullet line per item, in order |
| Check.Guidance | lib/jets/gems/check.rb:80-87 | the consent block: the "already been notified" line when `yes?`, the four "choosen not to report" lines when `no?`, nothing otherwise |
| Check.MessageBody | lib/jets/gems/check.rb:66-79 | the lines before the consent block: the header, a blank line, a bullet per missing gem, a blank line, the sources header, a blank line, a bullet per source, then the remedy lines |
| Check.MessageFooter | lib/jets/gems/check.rb:88-91 | the lines after the consent block: a blank line, the compiled-gems note, the "More info" line, a blank line |
| Check.MissingMessage | lib/jets/gems/check.rb:64-95 | `missing_message` as its lines: the body, the consent block, the footer |
| Check.MessageText | lib/jets/gems/check.rb:64-95 | the message text has one line per template line, each its rendering |
| Check.BulletListed | lib/jets/gems/check.rb:67-74 | every item has its bullet among the bullet lines |
| Check.LinePrinted | lib/jets/gems/check.rb:93-94 | every line of the template is printed as its text |
| Check.MessageLists | lib/jets/gems/check.rb:64-87 | the message text lists every missing gem and every configured source as `* <name>` |
| Check.OnlyBullets | lib/jets/gems/check.rb:67-74 | the lists give only bullet lines |
| Check.GuidanceNotInBody | lib/jets/gems/check.rb:64-79 | neither guidance line is among the lines before the consent block |
| Check.MessageGuidance | lib/jets/gems/check.rb:80-87 | the "already been notified" line appears exactly when consent is yes, and the "choosen not to report" line exactly when it is no, so neither appears otherwise |
| Check.FoundStep | lib/jets/gems/check.rb:37-41 | checking one more gem adds it to `found_gems` with its first source, if any |
| Check.MissesStep | lib/jets/gems/check.rb:43-45 | checking one more gem appends it to the misses when no source has it |
| Check.ProbesStep | lib/jets/gems/check.rb:33-42 | checking one more gem appends its checks |
| Check.Check.constructor | lib/jets/gems/check.rb:9-12 | no gem is missing yet |
| Check.Check.IsMissing | lib/jets/gems/check.rb:60-62 | true exactly when `missing_gems` is non-empty |
| Check.Check.Run | lib/jets/gems/check.rb:27-58 | `missing_gems` grows by the misses, in order, and is never reset; the checks made are `Probes`; the run ends as `Ending` of `Found` and the new `missing_gems` |
| Check.Ending | lib/jets/gems/check.rb:48-57 | it returns `found_gems` exactly unless asked to exit early with a gem missing; then it prints the message, requests reports only when consent is yes, raises exactly when consent is yes and a report request failed, and otherwise exits with status 1 |
| Check.Check.Resolve | lib/jets/gems/check.rb:29-46 | the loops give `found_gems` as `Found`, append `Misses` to `missing_gems`, and make the checks `Probes` |
| Check.Check.CheckGem | lib/jets/gems/check.rb:32-42 | a source is found exactly when some source has the gem, it is the first such source, and the checks made are `GemProbes` |
| Check.Check.RunBang | lib/jets/gems/check.rb:14-16 | `run(exit_early: true)`: returns `found_gems` exactly when no gem is missing, and otherwise ends as `Ending` says |
| ExtractBase.DownloadsRoot | lib/jets/gems/extract/base.rb:12 | the option when given, else `/tmp/jets/<project>/lambdagems` |
| ExtractBase.Ancestors | lib/jets/gems/extract/base.rb:49 | the directories above a path are proper prefixes of it |
| ExtractBase.MakeDirs | lib/jets/gems/extract/base.rb:49 | `mkdir_p`: missing directories are created and nothing present changes |
| ExtractBase.RemoveTree | lib/jets/gems/extract/base.rb:19 | `rm_rf`: exactly the paths in the subtree are gone and every other path is unchanged |
| ExtractBase.Fetch | lib/jets/gems/extract/base.rb:39-57 | nil exactly when the URL does not exist; a missing URL or a cached file leaves the disk alone; otherwise the file holds exactly the remote bytes, or is left empty and the call raises when the read fails; only the file and the directories above it can appear |
| ExtractBase.FetchIdempotent | lib/jets/gems/extract/base.rb:43-46 | a second download of the same URL to the same path changes nothing on the disk and gives the first result again, or the path when the first read failed |
| ExtractBase.EmptyFileCached | lib/jets/gems/extract/base.rb:43-55 | a failed read leaves an empty file at the path, which every later download returns as a cache hit |
| ExtractBase.VanishedUrl | lib/jets/gems/extract/base.rb:41 | a URL that no longer exists gives nil with the disk untouched, even over a cached file |
| ExtractBase.SayEnabled | lib/jets/gems/extract/base.rb:69-72 | printing is on exactly when the global level or the message level is `:debug` |
| ExtractBase.LogSettings.constructor | lib/jets/gems/extract/base.rb:63 | the default level is `:info` |
| ExtractBase.Sh | lib/jets/gems/extract/base.rb:26-31 | true when the command succeeded, otherwise an abort with "Command Failed" |
| ExtractBase.Base.constructor | lib/jets/gems/extract/base.rb:8-14 | the downloads root is `DownloadsRoot` of the option; the source URL is the option or the default source |
| ExtractBase.Base.CleanDownloads | lib/jets/gems/extract/base.rb:16-20 | the disk loses exactly the subtree `downloads_root/downloads/<folder>` |
| ExtractBase.Base.UrlExists | lib/jets/gems/extract/base.rb:33-36 | true exactly when the remote has the URL |
| ExtractBase.Base.DownloadFile | lib/jets/gems/extract/base.rb:39-57 | the result and the new disk are `Fetch` of the old disk, including the empty file a failed read leaves |
| ExtractBase.Base.SetLogLevel | lib/jets/gems/extract/base.rb:65-67 | the shared level becomes the new one |
| ExtractBase.Base.Say | lib/jets/gems/extract/base.rb:69-72 | the message is printed exactly when the global or the message level is `:debug` |
| ExtractRuby.FirstVersionLine | lib/jets/gems/extract/ruby.rb:58 | what `/^(\d+\.\d+\.\d+)$/` captures is a newline-free version text |
| ExtractRuby.FullRubyName | lib/jets/gems/extract/ruby.rb:57-65 | the result always ends in ".zip" |
| ExtractRuby.VersionLineOfSingleLine | lib/jets/gems/extract/ruby.rb:58 | a single-line name matches exactly when it is a version text, and the match is the whole name |
| ExtractRuby.FullRubyNameSingleLine | lib/jets/gems/extract/ruby.rb:57-64 | a single-line bare version `v` gives `ruby-v.zip`; any other single-line name gives `name.zip` |
| ExtractRuby.NonDigitNameKept | lib/jets/gems/extract/ruby.rb:62-64 | a single-line name that does not start with a digit gets only ".zip" |
| ExtractRuby.ShortVersionPrefixed | lib/jets/gems/extract/ruby.rb:58-61 | a bare `d.d.d` version gets "ruby-" in front and ".zip" after |
| ExtractRuby.FullRubyNameExamples | lib/jets/gems/extract/ruby.rb:52-56 | `2.5.3`, `ruby-2.5.3` and `test-ruby-2.5.3` give `ruby-2.5.3.zip`, `ruby-2.5.3.zip` and `test-ruby-2.5.3.zip` |
| ExtractRuby.RubyUrl | lib/jets/gems/extract/ruby.rb:67-69 | the URL lies under `<source_url>/rubies/` and names a zip |
| ExtractRuby.DownloadPath | lib/jets/gems/extract/ruby.rb:45-47 | the path lies in the rubies cache `downloads_root/downloads/rubies` |
| ExtractRuby.Basename | lib/jets/gems/extract/ruby.rb:31 | the result is the slash-free tail of the path after its last `/` |
| ExtractRuby.BasenameAfterSlash | lib/jets/gems/extract/ruby.rb:31 | the basename of `prefix/f` is `f` when `f` has no `/` |
| ExtractRuby.VersionTextHasNoSlash | lib/jets/gems/extract/ruby.rb:58-61 | a version has no `/` |
| ExtractRuby.FullRubyNameHasNoSlash | lib/jets/gems/extract/ruby.rb:57-64 | a name without `/` gives a zip name without `/` |
| ExtractRuby.BasenameOfRubyUrl | lib/jets/gems/extract/ruby.rb:31 | for a name without `/`, the file name taken from `ruby_url` is `full_ruby_name` |
| ExtractRuby.OptDir | lib/jets/gems/extract/ruby.rb:20 | the unpack directory `<build_root>/stage/code/opt` |
| ExtractRuby.DownloadResult | lib/jets/gems/extract/ruby.rb:31-42 | a downloaded path is returned. A missing URL without `exit_on_error` raises `NotFound("Url: <url> not found")`. With `exit_on_error` it exits with status 0; the message goes to `say` at `:info`, so it is printed only when `SayEnabled` holds, that is when the global level is `:debug`. A failed read propagates |
| ExtractRuby.CleanRunFetchesFresh | lib/jets/gems/extract/ruby.rb:12-16 | with `:clean` and an existing URL, the zip is downloaded afresh, since the cache is cleared first: it holds exactly the remote bytes and is unpacked, or is empty when the read fails and the run stops |
| ExtractRuby.StaleZipUnpacked | lib/jets/gems/extract/ruby.rb:14-31 | after a run whose read failed, the next run without `:clean` takes the empty zip as downloaded and unpacks it |
| ExtractRuby.CachedZipReused | lib/jets/gems/extract/ruby.rb:14-16 | without `:clean`, a zip already in the cache is never rewritten, whether or not its URL still exists |
| ExtractRuby.RunResult | lib/jets/gems/extract/ruby.rb:12-17 | `run` on a disk: clear the rubies cache only with `:clean`, then `download_ruby`, then, only when the zip was downloaded, make the unpack directory and `unzip` |
| ExtractRuby.MissingZipStops | lib/jets/gems/extract/ruby.rb:28-40 | a missing zip ends the run before unpacking: it exits with `exit_on_error`, else raises `NotFound("Url: <url> not found")`, and the disk is only cleaned when asked |
| ExtractRuby.Ruby.constructor | lib/jets/gems/extract/base.rb:8-14 | the extractor holds its base and the options `run` reads |
| ExtractRuby.Ruby.DownloadRuby | lib/jets/gems/extract/ruby.rb:28-43 | the disk and the outcome are those of `Fetch` of the zip's URL into the rubies cache, then `DownloadResult`, a failed read included |
| ExtractRuby.Ruby.Unzip | lib/jets/gems/extract/ruby.rb:19-26 | `build_root/stage/code/opt` and its parents exist afterwards, and the result is `sh` of the command's success |
| ExtractRuby.Ruby.Run | lib/jets/gems/extract/ruby.rb:12-17 | the outcome and the disk are `RunResult`: clean only with `:clean` and before the download, then download, then unpack |

## Left out

- HTTP (`Net::HTTP`, `open-uri`) is not modelled. Neither are the 0.01 s `read_timeout`, `max_retries` and the concurrency of the `Thread.new`/`join` fan-out in `report`. These are network, concurrency and floating point. `report` is modelled as computing its request paths, in order, and the outcome of each request is an input (`network`, keyed by path, so two equal paths get the same outcome). Which errors a request can raise is abstracted into `Failed`. The remote read in `download_file` either succeeds with the bytes the probe saw or fails (`readOk`); a remote file that changes between the probe and the read is not modelled.
- `Jets::Gems::Exist` is not part of this model. Its `check` is the predicate `hasGem` and its `url_exists?` is membership in `remote`.
- `Gem::Specification.each` and the `bundle show` subprocess are foreign calls. They are inputs.
- `system`/`unzip` execution, `abort`, `exit` and `raise` are outcome values (`ShOutcome`, `RunOutcome`, `DownloadOutcome`). The unzipped files are not modelled; `unzipOk` stands for the command's success.
- `$stdin.gets` returning `nil` at end of input is not modelled; the answer is always a string.
- `missing_message` is modelled as its lines, blank ones included. Joining them into one string is not modelled.
- Check.MessageGuidance: is stated over the template's lines, not over the printed text. A gem named so that its bullet reads like a guidance line would print that text regardless of consent.
- `puts` and `say` output inside other methods is not modelled. `say` itself is modelled as the line it would print.
- `FileUtils.mkdir_p` failing because a file is in the way is not modelled. `MakeDirs` keeps whatever is already at a path.
- ExtractRuby.Basename: does not normalise paths or handle trailing slashes the way Ruby's `File.basename` does. The URLs it is applied to never end in `/`.
- Base#unzip(zipfile_path, parent_folder_dest) is only `sh` of an unzip command, and `Ruby#unzip` replaces it. `project_root` is not used by the modelled operations. Neither is modelled separately.
- `extend Memoist` / `memoize :agree` is modelled as a `Check` holding one `Agree` object.
- `Probes`/`GemProbes` is bookkeeping added by the model so that the short circuit can be stated. It is not a value the source keeps.
- The colour of the command echo in `sh` is logging and is not modelled. Line 27 of lib/jets/gems/extract/base.rb reads `.color:green)`, with an unmatched `)`, so as written the file would not parse; the model takes `.color(:green)` to be meant.
- Check.Check.Run: the `reports` requested are the paths computed by `Report.Missing`. Sending them is not modelled; their outcomes are the input `network`.
- Check.Found: `found_gems` is a `map`, so the insertion order of the Ruby Hash is not modelled. Nothing in the code reads that order.
