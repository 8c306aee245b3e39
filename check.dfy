/**
 * The availability check of lib/jets/gems/check.rb: every compiled gem of
 * the project is looked up on the configured lambdagems sources, in order,
 * stopping at the first source that has it; gems no source has are
 * collected in `missing_gems`, and `run!` stops the deploy when there are any.
 *
 * `Gem::Specification.each`, `bundle show` and `Jets::Gems::Exist#check`
 * are outside this model: they are the inputs `specs`, `bundleShow` and
 * `hasGem`.
 */
module Check {

  import opened Wrappers
  import opened Text
  import Consent
  import Report

  /** A `Gem::Specification` as far as the check uses it. */
  datatype GemSpec = GemSpec(name: string, fullName: string, extensions: seq<string>)

  /** `weird_gem?`, given what `bundle show <name> 2>&1` printed. */
  function WeirdGem(showOutput: string): (r: bool)
    ensures r <==> exists i: nat :: OccursAt(showOutput, "has been deleted", i)
  {
    Contains(showOutput, "has been deleted")
  }

  /** A spec `gemspec_compiled_gems` keeps: it has extensions and is not weird. */
  predicate Kept(spec: GemSpec, bundleShow: string -> string) {
    |spec.extensions| > 0 && !WeirdGem(bundleShow(spec.name))
  }

  /**
   * `gemspec_compiled_gems`: the specs with extensions (`select`), without
   * the weird ones (`reject!`), as full names (`map(&:full_name)`).
   */
  function CompiledGems(specs: seq<GemSpec>, bundleShow: string -> string): (r: seq<string>)
    ensures |r| <= |specs|
    decreases |specs|
  {
    if specs == [] then []
    else (if Kept(specs[0], bundleShow) then [specs[0].fullName] else []) + CompiledGems(specs[1..], bundleShow)
  }

  /** A name is a compiled gem exactly when some kept spec has it as full name. */
  lemma {:induction false} CompiledGemsMembers(specs: seq<GemSpec>, bundleShow: string -> string, x: string)
    ensures x in CompiledGems(specs, bundleShow) <==>
            exists i :: 0 <= i < |specs| && Kept(specs[i], bundleShow) && specs[i].fullName == x
    decreases |specs|
  {
    if specs != [] {
      CompiledGemsMembers(specs[1..], bundleShow, x);
      if exists i :: 0 <= i < |specs| && Kept(specs[i], bundleShow) && specs[i].fullName == x {
        var i :| 0 <= i < |specs| && Kept(specs[i], bundleShow) && specs[i].fullName == x;
        if i > 0 {
          assert specs[1..][i - 1] == specs[i];
        }
      }
      if x in CompiledGems(specs[1..], bundleShow) {
        var i :| 0 <= i < |specs[1..]| && Kept(specs[1..][i], bundleShow) && specs[1..][i].fullName == x;
        assert specs[i + 1] == specs[1..][i];
      }
    }
  }

  /** The filter keeps the specs' order: it distributes over concatenation. */
  lemma {:induction false} CompiledGemsAppend(a: seq<GemSpec>, b: seq<GemSpec>, bundleShow: string -> string)
    ensures CompiledGems(a + b, bundleShow) == CompiledGems(a, bundleShow) + CompiledGems(b, bundleShow)
    decreases |a|
  {
    if a == [] {
      assert a + b == b;
    } else {
      var c := a + b;
      assert c[0] == a[0] && c[1..] == a[1..] + b;
      var first := if Kept(a[0], bundleShow) then [a[0].fullName] else [];
      assert CompiledGems(c, bundleShow) == first + CompiledGems(c[1..], bundleShow);
      assert CompiledGems(a, bundleShow) == first + CompiledGems(a[1..], bundleShow);
      CompiledGemsAppend(a[1..], b, bundleShow);
    }
  }

  /**
   * The index of the first source, in configured order, on which `gem`
   * exists; `|sources|` when there is none.
   */
  function FirstMatch(gem: string, sources: seq<string>, hasGem: (string, string) -> bool): (i: nat)
    ensures i <= |sources|
    ensures i < |sources| ==> hasGem(gem, sources[i])
    ensures forall j :: 0 <= j < i ==> !hasGem(gem, sources[j])
    decreases |sources|
  {
    if sources == [] then 0
    else if hasGem(gem, sources[0]) then 0
    else
      var i := 1 + FirstMatch(gem, sources[1..], hasGem);
      assert forall j :: 1 <= j < i ==> sources[j] == sources[1..][j - 1];
      i
  }

  /** The contract of `FirstMatch` determines it: any index with those properties is it. */
  lemma FirstMatchUnique(gem: string, sources: seq<string>, hasGem: (string, string) -> bool, i: nat)
    requires i <= |sources|
    requires i < |sources| ==> hasGem(gem, sources[i])
    requires forall j :: 0 <= j < i ==> !hasGem(gem, sources[j])
    ensures FirstMatch(gem, sources, hasGem) == i
  {
  }

  /** `found_gems` after the gems `gems` were checked, in order. */
  function Found(gems: seq<string>, sources: seq<string>, hasGem: (string, string) -> bool): map<string, string>
    decreases |gems|
  {
    if gems == [] then map[]
    else
      var gem := gems[|gems| - 1];
      var m := Found(gems[..|gems| - 1], sources, hasGem);
      var i := FirstMatch(gem, sources, hasGem);
      if i < |sources| then m[gem := sources[i]] else m
  }

  /** The gems appended to `@missing_gems` when `gems` are checked, in order. */
  function Misses(gems: seq<string>, sources: seq<string>, hasGem: (string, string) -> bool): seq<string>
    decreases |gems|
  {
    if gems == [] then []
    else
      var gem := gems[|gems| - 1];
      var rest := Misses(gems[..|gems| - 1], sources, hasGem);
      if FirstMatch(gem, sources, hasGem) == |sources| then rest + [gem] else rest
  }

  /** The first `k` existence checks for `gem`: the first `k` sources. */
  function ProbePrefix(gem: string, sources: seq<string>, k: nat): seq<(string, string)>
    requires k <= |sources|
  {
    seq(k, j requires 0 <= j < k => (gem, sources[j]))
  }

  /**
   * The existence checks made for one gem: the sources in order, up to and
   * including the first that has the gem, or all of them when none does.
   */
  function GemProbes(gem: string, sources: seq<string>, hasGem: (string, string) -> bool): (p: seq<(string, string)>)
    ensures |p| <= |sources|
    ensures forall j :: 0 <= j < |p| ==> p[j] == (gem, sources[j])
    ensures FirstMatch(gem, sources, hasGem) < |sources| ==> |p| == FirstMatch(gem, sources, hasGem) + 1
    ensures FirstMatch(gem, sources, hasGem) == |sources| ==> |p| == |sources|
    ensures forall j :: 0 <= j < |p| ==> (hasGem(gem, sources[j]) <==> j == |p| - 1 && FirstMatch(gem, sources, hasGem) < |sources|)
  {
    var i := FirstMatch(gem, sources, hasGem);
    ProbePrefix(gem, sources, if i < |sources| then i + 1 else |sources|)
  }

  /** Every existence check `run` makes for `gems`, in the order it makes them. */
  function Probes(gems: seq<string>, sources: seq<string>, hasGem: (string, string) -> bool): seq<(string, string)>
    decreases |gems|
  {
    if gems == [] then []
    else Probes(gems[..|gems| - 1], sources, hasGem) + GemProbes(gems[|gems| - 1], sources, hasGem)
  }

  /**
   * A gem is a key of `found_gems` exactly when some source has it, and
   * then the recorded source is the first such source in configured order.
   */
  lemma {:induction false} FoundIsFirstSource(gems: seq<string>, sources: seq<string>, hasGem: (string, string) -> bool, gem: string)
    ensures gem in Found(gems, sources, hasGem) <==> gem in gems && FirstMatch(gem, sources, hasGem) < |sources|
    ensures gem in Found(gems, sources, hasGem) ==> Found(gems, sources, hasGem)[gem] == sources[FirstMatch(gem, sources, hasGem)]
    decreases |gems|
  {
    if gems != [] {
      var init := gems[..|gems| - 1];
      FoundIsFirstSource(init, sources, hasGem, gem);
      assert gems == init + [gems[|gems| - 1]];
    }
  }

  /** A gem is appended to the misses exactly when no source has it. */
  lemma {:induction false} MissedIffNoSource(gems: seq<string>, sources: seq<string>, hasGem: (string, string) -> bool, gem: string)
    ensures gem in Misses(gems, sources, hasGem) <==> gem in gems && forall s :: s in sources ==> !hasGem(gem, s)
    decreases |gems|
  {
    var i := FirstMatch(gem, sources, hasGem);
    assert (forall s :: s in sources ==> !hasGem(gem, s)) <==> i == |sources| by {
      if i < |sources| {
        assert sources[i] in sources;
      } else {
        forall s | s in sources ensures !hasGem(gem, s) {
          var j :| 0 <= j < |sources| && sources[j] == s;
        }
      }
    }
    if gems != [] {
      var init := gems[..|gems| - 1];
      MissedIffNoSource(init, sources, hasGem, gem);
      assert gems == init + [gems[|gems| - 1]];
    }
  }

  /** Every compiled gem lands in exactly one of `found_gems` and the misses. */
  lemma Partition(gems: seq<string>, sources: seq<string>, hasGem: (string, string) -> bool, gem: string)
    requires gem in gems
    ensures (gem in Found(gems, sources, hasGem)) != (gem in Misses(gems, sources, hasGem))
  {
    FoundIsFirstSource(gems, sources, hasGem, gem);
    MissedIffNoSource(gems, sources, hasGem, gem);
    var i := FirstMatch(gem, sources, hasGem);
    if i < |sources| {
      assert sources[i] in sources;
    } else {
      forall s | s in sources ensures !hasGem(gem, s) {
        var j :| 0 <= j < |sources| && sources[j] == s;
      }
    }
  }

  /** Misses keep the gems' order: checking `a` then `b` misses `a`'s, then `b`'s. */
  lemma {:induction false} MissesAppend(a: seq<string>, b: seq<string>, sources: seq<string>, hasGem: (string, string) -> bool)
    ensures Misses(a + b, sources, hasGem) == Misses(a, sources, hasGem) + Misses(b, sources, hasGem)
    decreases |b|
  {
    if b == [] {
      assert a + b == a;
    } else {
      var b' := b[..|b| - 1];
      assert (a + b)[..|a + b| - 1] == a + b';
      MissesAppend(a, b', sources, hasGem);
    }
  }

  /** The short circuit: a gem found on a source is never checked on a later one. */
  lemma ShortCircuit(gem: string, sources: seq<string>, hasGem: (string, string) -> bool, i: nat, k: nat)
    requires i < k < |sources| && hasGem(gem, sources[i])
    ensures |GemProbes(gem, sources, hasGem)| <= i + 1 < k + 1
  {
  }

  /**
   * The lines of the `missing_message` template: the fixed lines, the
   * blank ones, and a bullet per listed item. In ERB trim mode `-` only
   * `-%>` drops the newline after a tag, so the `%>` that opens each list
   * leaves a blank line under its header.
   */
  datatype Line =
    | MissingHeader | SourcesHeader | RemedyIntro | AnotherGem | CustomLayer
    | Notified | NotReported | ReportingHelps | TryAgain | NonReported
    | CompiledNote | MoreInfo | Blank | Bullet(item: string)

  const MissingHeaderText := "Your project requires compiled gems were not available in any of your lambdagems sources.  Unavailable pre-compiled gems:"
  const SourcesHeaderText := "Your current lambdagems sources:"
  const RemedyIntroText := "Jets is unable to build a deployment package that will work on AWS Lambda without the required pre-compiled gems. To remedy this, you can:"
  const AnotherGemText := "* Use another gem that does not require compilation."
  const CustomLayerText := "* Create your own custom layer with the gem: http://rubyonjets.com/docs/extras/custom-lambda-layers/"
  const NotifiedText := "* No need to report this to us, as we've already been notified."
  const NotReportedText := "* You have choosen not to report data to lambdagems so we will not be notified about these missing gems.  You can edit ~/.jets/agree to change this."
  const ReportingHelpsText := "* Reporting gems generally allows Lambdagems to build the missing gems within a few minutes."
  const TryAgainText := "* You can try redeploying again after a few minutes."
  const NonReportedText := "* Non-reported gems may take days or even longer to be built."
  const CompiledNoteText := "Compiled gems usually take some time to figure out how to build as they each depend on different libraries and packages."
  const MoreInfoText := "More info: http://rubyonjets.com/docs/lambdagems/"

  /** The text of a line; a bullet reads `* <item>`. */
  function Render(line: Line): (r: string)
    ensures line.Bullet? ==> r == "* " + line.item
  {
    match line
    case MissingHeader => MissingHeaderText
    case SourcesHeader => SourcesHeaderText
    case RemedyIntro => RemedyIntroText
    case AnotherGem => AnotherGemText
    case CustomLayer => CustomLayerText
    case Notified => NotifiedText
    case NotReported => NotReportedText
    case ReportingHelps => ReportingHelpsText
    case TryAgain => TryAgainText
    case NonReported => NonReportedText
    case CompiledNote => CompiledNoteText
    case MoreInfo => MoreInfoText
    case Blank => ""
    case Bullet(item) => "* " + item
  }

  /** The bullet lines of the message, one per item, in order. */
  function Bullets(items: seq<string>): (r: seq<Line>)
    ensures |r| == |items|
    ensures forall i :: 0 <= i < |items| ==> r[i] == Bullet(items[i])
  {
    seq(|items|, i requires 0 <= i < |items| => Bullet(items[i]))
  }

  /** The consent-dependent block: "notified" when `yes?`, "not reported" when `no?`, else none. */
  function Guidance(consent: Option<string>): seq<Line> {
    if Consent.ConsentYes(consent) then [Notified]
    else if Consent.ConsentNo(consent) then [NotReported, ReportingHelps, TryAgain, NonReported]
    else []
  }

  /** The lines of `missing_message` before the consent-dependent block. */
  function MessageBody(missing: seq<string>, sources: seq<string>): seq<Line> {
    [MissingHeader, Blank] + Bullets(missing) + [Blank, SourcesHeader, Blank] + Bullets(sources)
    + [Blank, RemedyIntro, Blank, AnotherGem, CustomLayer]
  }

  /** The lines of `missing_message` after the consent-dependent block. */
  const MessageFooter := [Blank, CompiledNote, MoreInfo, Blank]

  /** `missing_message`, as its lines. */
  function MissingMessage(missing: seq<string>, sources: seq<string>, consent: Option<string>): seq<Line> {
    MessageBody(missing, sources) + Guidance(consent) + MessageFooter
  }

  /** The text of `missing_message`, line by line. */
  function MessageText(missing: seq<string>, sources: seq<string>, consent: Option<string>): (r: seq<string>)
    ensures |r| == |MissingMessage(missing, sources, consent)|
    ensures forall i :: 0 <= i < |r| ==> r[i] == Render(MissingMessage(missing, sources, consent)[i])
  {
    var lines := MissingMessage(missing, sources, consent);
    seq(|lines|, i requires 0 <= i < |lines| => Render(lines[i]))
  }

  /** Each item has its bullet line. */
  lemma BulletListed(items: seq<string>, x: string)
    requires x in items
    ensures Bullet(x) in Bullets(items)
  {
    var i :| 0 <= i < |items| && items[i] == x;
    assert Bullets(items)[i] == Bullet(x);
  }

  /** A line of the message is printed as its text. */
  lemma LinePrinted(missing: seq<string>, sources: seq<string>, consent: Option<string>, line: Line)
    requires line in MissingMessage(missing, sources, consent)
    ensures Render(line) in MessageText(missing, sources, consent)
  {
    var lines := MissingMessage(missing, sources, consent);
    var i :| 0 <= i < |lines| && lines[i] == line;
    assert MessageText(missing, sources, consent)[i] == Render(line);
  }

  /** The message lists every missing gem and every configured source, each as `* <name>`. */
  lemma MessageLists(missing: seq<string>, sources: seq<string>, consent: Option<string>)
    ensures forall g :: g in missing ==> "* " + g in MessageText(missing, sources, consent)
    ensures forall s :: s in sources ==> "* " + s in MessageText(missing, sources, consent)
  {
    var lines := MissingMessage(missing, sources, consent);
    forall g | g in missing ensures "* " + g in MessageText(missing, sources, consent) {
      BulletListed(missing, g);
      assert Bullet(g) in lines;
      LinePrinted(missing, sources, consent, Bullet(g));
    }
    forall s | s in sources ensures "* " + s in MessageText(missing, sources, consent) {
      BulletListed(sources, s);
      assert Bullet(s) in lines;
      LinePrinted(missing, sources, consent, Bullet(s));
    }
  }

  /** Only bullets come from the lists. */
  lemma OnlyBullets(items: seq<string>, line: Line)
    requires line in Bullets(items)
    ensures line.Bullet?
  {
  }

  /** A line that is not a bullet and not a fixed line of the body is not in the body. */
  lemma GuidanceNotInBody(missing: seq<string>, sources: seq<string>, line: Line)
    requires line == Notified || line == NotReported
    ensures line !in MessageBody(missing, sources)
  {
    if line in Bullets(missing) { OnlyBullets(missing, line); }
    if line in Bullets(sources) { OnlyBullets(sources, line); }
  }

  /**
   * The "already notified" line appears exactly when consent is yes, and
   * the "chosen not to report" block exactly when it is no, so neither
   * appears otherwise.
   */
  lemma MessageGuidance(missing: seq<string>, sources: seq<string>, consent: Option<string>)
    ensures Notified in MissingMessage(missing, sources, consent) <==> Consent.ConsentYes(consent)
    ensures NotReported in MissingMessage(missing, sources, consent) <==> Consent.ConsentNo(consent)
  {
    var body, guidance := MessageBody(missing, sources), Guidance(consent);
    assert MissingMessage(missing, sources, consent) == body + guidance + MessageFooter;
    GuidanceNotInBody(missing, sources, Notified);
    GuidanceNotInBody(missing, sources, NotReported);
    Consent.YesNoExclusive(consent);
    assert Notified in guidance <==> Consent.ConsentYes(consent);
    assert NotReported in guidance <==> Consent.ConsentNo(consent);
  }

  /** Checking one more gem adds it to `found_gems` with its first source, if any. */
  lemma FoundStep(gems: seq<string>, i: nat, sources: seq<string>, hasGem: (string, string) -> bool)
    requires i < |gems|
    ensures var first := FirstMatch(gems[i], sources, hasGem);
            Found(gems[..i + 1], sources, hasGem)
            == (if first < |sources| then Found(gems[..i], sources, hasGem)[gems[i] := sources[first]]
                else Found(gems[..i], sources, hasGem))
  {
    var next := gems[..i + 1];
    assert next[..|next| - 1] == gems[..i] && next[|next| - 1] == gems[i];
  }

  /** Checking one more gem appends it to the misses when no source has it. */
  lemma MissesStep(gems: seq<string>, i: nat, sources: seq<string>, hasGem: (string, string) -> bool)
    requires i < |gems|
    ensures Misses(gems[..i + 1], sources, hasGem)
            == Misses(gems[..i], sources, hasGem)
               + (if FirstMatch(gems[i], sources, hasGem) == |sources| then [gems[i]] else [])
  {
    var next := gems[..i + 1];
    assert next[..|next| - 1] == gems[..i] && next[|next| - 1] == gems[i];
  }

  /** Checking one more gem appends its checks. */
  lemma ProbesStep(gems: seq<string>, i: nat, sources: seq<string>, hasGem: (string, string) -> bool)
    requires i < |gems|
    ensures Probes(gems[..i + 1], sources, hasGem) == Probes(gems[..i], sources, hasGem) + GemProbes(gems[i], sources, hasGem)
  {
    var next := gems[..i + 1];
    assert next[..|next| - 1] == gems[..i] && next[|next| - 1] == gems[i];
  }

  /**
   * What `run` ends with: it returns `found_gems`, or `run!` exits, or a
   * failed report request raises out of `Report.missing` before the exit.
   */
  datatype RunOutcome =
    | Returned(found: map<string, string>)
    | Exited(status: int, message: seq<string>, reports: seq<string>)
    | Raised(message: seq<string>, reports: seq<string>, error: string)

  /**
   * How `run` ends once it has the misses: with `exit_early` and a gem
   * missing, it prints the message, reports the missing gems only when
   * consent is yes, and exits with status 1 unless the report's join
   * re-raises a request error.
   */
  function Ending(found: map<string, string>, missing: seq<string>, sources: seq<string>,
                  consent: Option<string>, network: string -> Report.HttpResult, exitEarly: bool): (r: RunOutcome)
    ensures r.Returned? <==> !(exitEarly && missing != [])
    ensures r.Returned? ==> r.found == found
    ensures !r.Returned? ==> r.message == MessageText(missing, sources, consent)
    ensures !r.Returned? ==> r.reports == (if Consent.ConsentYes(consent) then Report.ReportPaths(missing) else [])
    ensures r.Raised? <==> exitEarly && missing != [] && Consent.ConsentYes(consent)
                           && exists j :: 0 <= j < |r.reports| && network(r.reports[j]).Failed?
    ensures r.Exited? ==> r.status == 1
  {
    if exitEarly && missing != [] then
      var message := MessageText(missing, sources, consent);
      if Consent.ConsentYes(consent) then
        var reports := Report.ReportPaths(missing);
        Report.JoinRaisesIffFailed(reports, network);
        match Report.JoinError(reports, network)
        case Some(error) => Raised(message, reports, error)
        case None => Exited(1, message, reports)
      else Exited(1, message, [])
    else Returned(found)
  }

  /** A `Check` object: the memoized `agree` and the `@missing_gems` it accumulates. */
  class Check {
    const agree: Consent.Agree
    var missingGems: seq<string>

    /** `Check.new`: no gem is missing yet. */
    constructor (agree: Consent.Agree)
      ensures this.agree == agree
      ensures missingGems == []
    {
      this.agree := agree;
      missingGems := [];
    }

    /** `missing?` */
    function IsMissing(): (r: bool)
      reads this
      ensures r <==> |missingGems| > 0
    {
      missingGems != []
    }

    /**
     * `run(exit_early:)`. Each compiled gem is checked on the sources in
     * order until one has it (`probes` lists the checks made); found gems
     * go into the returned `found_gems`, the others are appended to
     * `@missing_gems`, which is never reset. The run then ends as `Ending`
     * says; `network` gives the result of each report request.
     */
    method Run(specs: seq<GemSpec>, bundleShow: string -> string, sources: seq<string>,
               hasGem: (string, string) -> bool, network: string -> Report.HttpResult, exitEarly: bool)
      returns (outcome: RunOutcome, probes: seq<(string, string)>)
      modifies this
      ensures missingGems == old(missingGems) + Misses(CompiledGems(specs, bundleShow), sources, hasGem)
      ensures probes == Probes(CompiledGems(specs, bundleShow), sources, hasGem)
      ensures outcome == Ending(Found(CompiledGems(specs, bundleShow), sources, hasGem), missingGems,
                                sources, agree.contents, network, exitEarly)
    {
      var gems := CompiledGems(specs, bundleShow);
      var found;
      found, probes := Resolve(gems, sources, hasGem);
      if exitEarly && missingGems != [] {
        var message := MessageText(missingGems, sources, agree.contents);
        var yes := agree.IsYes();
        if yes {
          var reports, warnings, raised := Report.Missing(missingGems, network);
          if raised.Some? {
            return Raised(message, reports, raised.value), probes;
          }
          outcome := Exited(1, message, reports);
        } else {
          outcome := Exited(1, message, []);
        }
      } else {
        outcome := Returned(found);
      }
    }

    /**
     * The loops of `run`: each gem is checked on the sources in order;
     * found gems go into `found_gems`, the others are appended to
     * `@missing_gems`.
     */
    method Resolve(gems: seq<string>, sources: seq<string>, hasGem: (string, string) -> bool)
      returns (found: map<string, string>, probes: seq<(string, string)>)
      modifies this
      ensures found == Found(gems, sources, hasGem)
      ensures missingGems == old(missingGems) + Misses(gems, sources, hasGem)
      ensures probes == Probes(gems, sources, hasGem)
    {
      found := map[];
      probes := [];
      var i := 0;
      while i < |gems|
        invariant 0 <= i <= |gems|
        invariant found == Found(gems[..i], sources, hasGem)
        invariant missingGems == old(missingGems) + Misses(gems[..i], sources, hasGem)
        invariant probes == Probes(gems[..i], sources, hasGem)
      {
        var gem := gems[i];
        FoundStep(gems, i, sources, hasGem);
        MissesStep(gems, i, sources, hasGem);
        ProbesStep(gems, i, sources, hasGem);
        var source, gemProbes := CheckGem(gem, sources, hasGem);
        var gemExists := source.Some?;
        if gemExists {
          found := found[gem := source.value];
        }
        probes := probes + gemProbes;
        if !gemExists {
          missingGems := missingGems + [gem];
        }
        i := i + 1;
      }
      assert gems[..i] == gems;
    }

    /**
     * The inner loop of `run` for one gem: try the sources in order and
     * `break` at the first that has the gem. Gives that source, or `None`,
     * and the existence checks made.
     */
    method CheckGem(gem: string, sources: seq<string>, hasGem: (string, string) -> bool)
      returns (found: Option<string>, probes: seq<(string, string)>)
      ensures found.Some? <==> exists s :: s in sources && hasGem(gem, s)
      ensures found.Some? <==> FirstMatch(gem, sources, hasGem) < |sources|
      ensures found.Some? ==> found.value == sources[FirstMatch(gem, sources, hasGem)]
      ensures probes == GemProbes(gem, sources, hasGem)
    {
      ghost var first := FirstMatch(gem, sources, hasGem);
      found, probes := None, [];
      var gemExists := false;
      var j := 0;
      while j < |sources|
        invariant 0 <= j <= first
        invariant !gemExists && found.None?
        invariant probes == ProbePrefix(gem, sources, j)
      {
        var source := sources[j];
        var hit := hasGem(gem, source);
        assert ProbePrefix(gem, sources, j) + [(gem, source)] == ProbePrefix(gem, sources, j + 1);
        probes := probes + [(gem, source)];
        if hit {
          gemExists := true;
          found := Some(source);
          break;
        }
        j := j + 1;
      }
      if first < |sources| {
        assert sources[first] in sources;
      } else {
        forall s | s in sources ensures !hasGem(gem, s) {
          var k :| 0 <= k < |sources| && sources[k] == s;
        }
      }
    }

    /**
     * `run!`: `run(exit_early: true)`; it returns `found_gems` exactly when
     * no gem is missing, and otherwise exits with status 1 or raises.
     */
    method RunBang(specs: seq<GemSpec>, bundleShow: string -> string, sources: seq<string>,
                   hasGem: (string, string) -> bool, network: string -> Report.HttpResult)
      returns (outcome: RunOutcome, probes: seq<(string, string)>)
      modifies this
      ensures missingGems == old(missingGems) + Misses(CompiledGems(specs, bundleShow), sources, hasGem)
      ensures outcome.Returned? <==> missingGems == []
      ensures outcome == Ending(Found(CompiledGems(specs, bundleShow), sources, hasGem), missingGems,
                                sources, agree.contents, network, true)
    {
      outcome, probes := Run(specs, bundleShow, sources, hasGem, network, true);
    }
  }
}
