/**
 * The consent store of lib/jets/gems/agree.rb: whether the user agreed to
 * report missing binary gems, kept as the contents of `~/.jets/agree`.
 * The file's contents are `None` while the file does not exist.
 */
module Consent {

  import opened Wrappers
  import opened Text

  /** `yes?`: the file exists and its stripped contents are `yes`. */
  predicate ConsentYes(contents: Option<string>) {
    contents.Some? && Strip(contents.value) == "yes"
  }

  /** `no?`: the file exists and its stripped contents are `no`. */
  predicate ConsentNo(contents: Option<string>) {
    contents.Some? && Strip(contents.value) == "no"
  }

  /** The value `prompt` stores for an answer line read from standard input. */
  function AnswerValue(answer: string): (v: string)
    ensures v == "yes" || v == "no"
    ensures v == "yes" <==> exists i :: 0 <= i < |Strip(answer)| && (Strip(answer)[i] == 'y' || Strip(answer)[i] == 'Y')
  {
    if HasLetterY(Strip(answer)) then "yes" else "no"
  }

  /** The file contents after `prompt`: an existing file is never touched. */
  function Prompted(contents: Option<string>, answer: string): (c: Option<string>)
    ensures contents.Some? ==> c == contents
    ensures contents.None? ==> c == Some(AnswerValue(answer))
  {
    if contents.Some? then contents else Some(AnswerValue(answer))
  }

  /** `yes?` and `no?` never hold together. */
  lemma YesNoExclusive(contents: Option<string>)
    ensures !(ConsentYes(contents) && ConsentNo(contents))
  {
  }

  /** With no file, neither predicate holds. */
  lemma NoFileNeither()
    ensures !ConsentYes(None) && !ConsentNo(None)
  {
  }

  /** Contents that strip to neither marker satisfy neither predicate. */
  lemma OtherContentsNeither(text: string)
    requires Strip(text) != "yes" && Strip(text) != "no"
    ensures !ConsentYes(Some(text)) && !ConsentNo(Some(text))
  {
  }

  /** What `yes!` writes makes `yes?` hold and `no?` fail; `no!` the reverse. */
  lemma MarkersRead()
    ensures ConsentYes(Some("yes")) && !ConsentNo(Some("yes"))
    ensures ConsentNo(Some("no")) && !ConsentYes(Some("no"))
  {
    StripUntrimmed("yes");
    StripUntrimmed("no");
  }

  /**
   * Contents are compared after stripping: "yes" or "no" with any
   * whitespace around it reads as that marker.
   */
  lemma PaddedMarkers(w1: string, w2: string)
    requires AllSpace(w1) && AllSpace(w2)
    ensures ConsentYes(Some(w1 + "yes" + w2)) && !ConsentNo(Some(w1 + "yes" + w2))
    ensures ConsentNo(Some(w1 + "no" + w2)) && !ConsentYes(Some(w1 + "no" + w2))
  {
    StripSurrounded(w1, "yes", w2);
    StripSurrounded(w1, "no", w2);
  }

  /** A file holding "yes\n" counts as yes. */
  lemma TrailingNewlineYes(contents: string)
    requires contents == "yes\n"
    ensures ConsentYes(Some(contents))
  {
    var yes := contents[..3];
    assert yes == "yes";
    assert StripLeft(contents) == contents;
    assert StripRight(contents) == StripRight(yes);
    assert StripRight(yes) == yes;
  }

  /** An empty answer, or one without a `y`, stores "no". */
  lemma EmptyAnswerIsNo()
    ensures AnswerValue("") == "no"
    ensures AnswerValue("n") == "no"
  {
    StripUntrimmed("");
    assert !HasLetterY("");
    StripUntrimmed("n");
    assert !HasLetterY("n");
  }

  /** Prompting again never changes what the first prompt stored. */
  lemma PromptIdempotent(contents: Option<string>, first: string, second: string)
    ensures Prompted(Prompted(contents, first), second) == Prompted(contents, first)
  {
  }

  /** A prompt on a missing file decides the store: exactly one of `yes?` and `no?` holds. */
  lemma PromptDecides(answer: string)
    ensures ConsentYes(Prompted(None, answer)) != ConsentNo(Prompted(None, answer))
  {
    MarkersRead();
  }

  /** The `Agree` object: `@agree_file` and the file's contents. */
  class Agree {
    /** `"#{ENV['HOME']}/.jets/agree"`. */
    const agreeFile: string
    /** The contents of the agree file, `None` when it does not exist. */
    var contents: Option<string>

    /** `Agree.new`, given the home directory and what the file holds now. */
    constructor (home: string, current: Option<string>)
      ensures agreeFile == home + "/.jets/agree"
      ensures contents == current
    {
      agreeFile := home + "/.jets/agree";
      contents := current;
    }

    /**
     * `prompt`: when the file is missing, store "yes" if the stripped answer
     * holds a `y` or `Y` and "no" otherwise; when it exists, do nothing.
     */
    method Prompt(answer: string)
      modifies this
      ensures contents == Prompted(old(contents), answer)
    {
      if contents.Some? {
        return;
      }
      var value := if HasLetterY(Strip(answer)) then "yes" else "no";
      WriteFile(value);
    }

    /** `yes?` */
    method IsYes() returns (b: bool)
      ensures b == ConsentYes(contents)
    {
      b := ConsentYes(contents);
    }

    /** `no?` */
    method IsNo() returns (b: bool)
      ensures b == ConsentNo(contents)
    {
      b := ConsentNo(contents);
    }

    /** `yes!`: afterwards `yes?` holds and `no?` does not, whatever came before. */
    method Yes()
      modifies this
      ensures contents == Some("yes")
      ensures ConsentYes(contents) && !ConsentNo(contents)
    {
      WriteFile("yes");
      MarkersRead();
    }

    /** `no!`: afterwards `no?` holds and `yes?` does not, whatever came before. */
    method No()
      modifies this
      ensures contents == Some("no")
      ensures ConsentNo(contents) && !ConsentYes(contents)
    {
      WriteFile("no");
      MarkersRead();
    }

    /** `write_file`: the agree file holds exactly `content`, whatever it held before. */
    method WriteFile(content: string)
      modifies this
      ensures contents == Some(content)
    {
      contents := Some(content);
    }
  }
}
