/**
 * The Ruby `String` and `Regexp` operations the gem checks rely on:
 * `include?`, `strip`, `=~ /y/i`, and the `\d+\.\d+\.\d+` version pattern.
 * Ruby's `.` does not match a newline and `^`/`$` anchor at line ends, so
 * the line structure of a string is modelled too.
 */
module Text {

  import opened Wrappers

  /** `t` occurs in `s` starting at index `i`. */
  predicate OccursAt(s: string, t: string, i: nat) {
    i + |t| <= |s| && s[i..i + |t|] == t
  }

  /** `s` holds no newline character. */
  predicate NoNewline(s: string) {
    forall k :: 0 <= k < |s| ==> s[k] != '\n'
  }

  lemma OccursShift(s: string, t: string, i: nat)
    requires |s| > 0
    ensures OccursAt(s[1..], t, i) <==> OccursAt(s, t, i + 1)
  {
    if i + |t| <= |s| - 1 {
      assert s[1..][i..i + |t|] == s[i + 1..i + 1 + |t|];
    }
  }

  lemma ContainsStep(s: string, t: string)
    requires s != [] && !OccursAt(s, t, 0)
    ensures (exists i: nat :: OccursAt(s, t, i)) <==> (exists i: nat :: OccursAt(s[1..], t, i))
  {
    if exists i: nat :: OccursAt(s, t, i) {
      var i: nat :| OccursAt(s, t, i);
      assert i != 0;
      OccursShift(s, t, i - 1);
    }
    if exists i: nat :: OccursAt(s[1..], t, i) {
      var i: nat :| OccursAt(s[1..], t, i);
      OccursShift(s, t, i);
    }
  }

  /** Ruby's `String#include?`. */
  function Contains(s: string, t: string): (r: bool)
    ensures r <==> exists i: nat :: OccursAt(s, t, i)
    decreases |s|
  {
    if OccursAt(s, t, 0) then true
    else if s == [] then false
    else
      ContainsStep(s, t);
      Contains(s[1..], t)
  }

  /** The characters Ruby's `String#strip` removes: whitespace and NUL. */
  predicate IsSpace(c: char) {
    c == ' ' || c == '\t' || c == '\n' || c == '\U{000B}' || c == '\U{000C}' || c == '\r' || c == '\0'
  }

  function StripLeft(s: string): (r: string)
    ensures |r| <= |s| && r == s[|s| - |r|..]
    ensures forall k :: 0 <= k < |s| - |r| ==> IsSpace(s[k])
    ensures r == [] || !IsSpace(r[0])
    decreases |s|
  {
    if s != [] && IsSpace(s[0]) then StripLeft(s[1..]) else s
  }

  function StripRight(s: string): (r: string)
    ensures |r| <= |s| && r == s[..|r|]
    ensures forall k :: |r| <= k < |s| ==> IsSpace(s[k])
    ensures r == [] || !IsSpace(r[|r| - 1])
    decreases |s|
  {
    if s != [] && IsSpace(s[|s| - 1]) then StripRight(s[..|s| - 1]) else s
  }

  /**
   * Ruby's `String#strip`: the longest infix of `s` that neither starts nor
   * ends with whitespace, everything cut off on either side being whitespace.
   */
  function Strip(s: string): (r: string)
    ensures r == [] || (!IsSpace(r[0]) && !IsSpace(r[|r| - 1]))
    ensures exists i, j :: 0 <= i <= j <= |s| && r == s[i..j]
                        && (forall k :: 0 <= k < i ==> IsSpace(s[k]))
                        && (forall k :: j <= k < |s| ==> IsSpace(s[k]))
  {
    var left := StripLeft(s);
    var r := StripRight(left);
    var i := |s| - |left|;
    assert r == s[i..i + |r|];
    r
  }

  /** Stripping a string that has no whitespace at either end leaves it alone. */
  lemma StripUntrimmed(s: string)
    requires s == [] || (!IsSpace(s[0]) && !IsSpace(s[|s| - 1]))
    ensures Strip(s) == s
  {
    assert StripLeft(s) == s;
  }

  /** Every character of `w` is whitespace. */
  predicate AllSpace(w: string) {
    forall k :: 0 <= k < |w| ==> IsSpace(w[k])
  }

  lemma {:induction false} StripLeftSpaces(w: string, s: string)
    requires AllSpace(w) && (s == [] || !IsSpace(s[0]))
    ensures StripLeft(w + s) == s
    decreases |w|
  {
    if w == [] {
      assert w + s == s;
    } else {
      assert (w + s)[1..] == w[1..] + s;
      StripLeftSpaces(w[1..], s);
    }
  }

  lemma {:induction false} StripRightSpaces(s: string, w: string)
    requires AllSpace(w) && (s == [] || !IsSpace(s[|s| - 1]))
    ensures StripRight(s + w) == s
    decreases |w|
  {
    if w == [] {
      assert s + w == s;
    } else {
      assert (s + w)[..|s + w| - 1] == s + w[..|w| - 1];
      StripRightSpaces(s, w[..|w| - 1]);
    }
  }

  /** Whitespace around a text with no whitespace at its ends is all `strip` removes. */
  lemma StripSurrounded(w1: string, t: string, w2: string)
    requires AllSpace(w1) && AllSpace(w2)
    requires t != [] && !IsSpace(t[0]) && !IsSpace(t[|t| - 1])
    ensures Strip(w1 + t + w2) == t
  {
    assert w1 + t + w2 == w1 + (t + w2);
    StripLeftSpaces(w1, t + w2);
    StripRightSpaces(t, w2);
  }

  /** Ruby's `s =~ /y/i`: some character of `s` is `y` or `Y`. */
  function HasLetterY(s: string): (r: bool)
    ensures r <==> exists i :: 0 <= i < |s| && (s[i] == 'y' || s[i] == 'Y')
    decreases |s|
  {
    if s == [] then false
    else if s[0] == 'y' || s[0] == 'Y' then true
    else
      assert forall i :: 1 <= i < |s| ==> s[i] == s[1..][i - 1];
      HasLetterY(s[1..])
  }

  /** The index of the first newline of `s`, or `|s|` when there is none. */
  function NewlineIndex(s: string): (n: nat)
    ensures n <= |s|
    ensures n < |s| ==> s[n] == '\n'
    ensures NoNewline(s[..n])
    decreases |s|
  {
    if s == [] then 0
    else if s[0] == '\n' then 0
    else
      var n := 1 + NewlineIndex(s[1..]);
      assert s[..n] == [s[0]] + s[1..][..n - 1];
      n
  }

  /** Ruby's `\d`: an ASCII digit. */
  predicate IsDigit(c: char) {
    '0' <= c <= '9'
  }

  /** The length of the run of digits in `t` that starts at index `i`. */
  function DigitRun(t: string, i: nat): (n: nat)
    requires i <= |t|
    ensures i + n <= |t|
    decreases |t| - i
  {
    if i < |t| && IsDigit(t[i]) then 1 + DigitRun(t, i + 1) else 0
  }

  /** The run is all digits and maximal: no digit follows it. */
  lemma {:induction false} DigitRunMaximal(t: string, i: nat)
    requires i <= |t|
    ensures forall k :: i <= k < i + DigitRun(t, i) ==> IsDigit(t[k])
    ensures i + DigitRun(t, i) == |t| || !IsDigit(t[i + DigitRun(t, i)])
    decreases |t| - i
  {
    if i < |t| && IsDigit(t[i]) {
      DigitRunMaximal(t, i + 1);
    }
  }

  /**
   * Where a match of `\d+\.\d+\.\d+` starting at index `i` of `t` ends when
   * every `\d+` takes all the digits it can; `None` when nothing matches there.
   */
  function VersionEnd(t: string, i: nat): (r: Option<nat>)
    requires i <= |t|
    ensures r.Some? ==> i < r.value <= |t|
  {
    var a := i + DigitRun(t, i);
    if a == i || a == |t| || t[a] != '.' then None
    else
      var b := a + 1 + DigitRun(t, a + 1);
      if b == a + 1 || b == |t| || t[b] != '.' then None
      else
        var c := b + 1 + DigitRun(t, b + 1);
        if c == b + 1 then None else Some(c)
  }

  /** A non-empty string of digits. */
  ghost predicate AllDigits(s: string) {
    |s| > 0 && forall k :: 0 <= k < |s| ==> IsDigit(s[k])
  }

  /** `s` is digits, a dot at `a`, digits, a dot at `b`, digits. */
  ghost predicate VersionSplit(s: string, a: int, b: int) {
    0 < a < b < |s| && AllDigits(s[..a]) && s[a] == '.'
    && AllDigits(s[a + 1..b]) && s[b] == '.' && AllDigits(s[b + 1..])
  }

  /** Reference definition: `s` as a whole is a text `\d+\.\d+\.\d+` matches. */
  ghost predicate IsVersionText(s: string) {
    exists a, b :: VersionSplit(s, a, b)
  }

  /** A run of digits from `i` to `j` is covered by `DigitRun`, exactly when no digit follows. */
  lemma {:induction false} DigitRunExact(t: string, i: nat, j: nat)
    requires i <= j <= |t|
    requires forall k :: i <= k < j ==> IsDigit(t[k])
    ensures DigitRun(t, i) >= j - i
    ensures (j == |t| || !IsDigit(t[j])) ==> DigitRun(t, i) == j - i
    decreases j - i
  {
    if i < j {
      DigitRunExact(t, i + 1, j);
    }
  }

  /** The digits of an infix `t[i..e][lo..hi]` are digits of `t`. */
  lemma InfixDigits(t: string, i: nat, e: nat, lo: nat, hi: nat)
    requires i <= e <= |t| && lo < hi <= e - i
    requires AllDigits(t[i..e][lo..hi])
    ensures forall k :: i + lo <= k < i + hi ==> IsDigit(t[k])
  {
    forall k | i + lo <= k < i + hi ensures IsDigit(t[k]) {
      assert t[k] == t[i..e][lo..hi][k - i - lo];
    }
  }

  /** Digits of `t` from `lo` to `hi` are all the digits of that part of the infix `t[i..e]`. */
  lemma DigitsInInfix(t: string, i: nat, e: nat, lo: nat, hi: nat)
    requires i <= lo < hi <= e <= |t|
    requires forall k :: lo <= k < hi ==> IsDigit(t[k])
    ensures AllDigits(t[i..e][lo - i..hi - i])
  {
    var u := t[i..e][lo - i..hi - i];
    forall k | 0 <= k < |u| ensures IsDigit(u[k]) {
      assert u[k] == t[lo + k];
    }
  }

  /** Three runs of digits of `t` separated by dots at `a` and `b` make a version text. */
  lemma SplitOfRuns(t: string, i: nat, a: nat, b: nat, e: nat)
    requires i < a && a + 1 < b && b + 1 < e <= |t|
    requires forall k :: i <= k < a ==> IsDigit(t[k])
    requires forall k :: a + 1 <= k < b ==> IsDigit(t[k])
    requires forall k :: b + 1 <= k < e ==> IsDigit(t[k])
    requires t[a] == '.' && t[b] == '.'
    ensures VersionSplit(t[i..e], a - i, b - i)
  {
    var s := t[i..e];
    DigitsInInfix(t, i, e, i, a);
    DigitsInInfix(t, i, e, a + 1, b);
    DigitsInInfix(t, i, e, b + 1, e);
    assert s[..a - i] == s[0..a - i] && s[b - i + 1..] == s[b - i + 1..e - i];
  }

  /** What `VersionEnd` finds is a version text. */
  lemma VersionEndSound(t: string, i: nat)
    requires i <= |t|
    ensures VersionEnd(t, i).Some? ==> IsVersionText(t[i..VersionEnd(t, i).value])
  {
    if VersionEnd(t, i).Some? {
      var a := i + DigitRun(t, i);
      var b := a + 1 + DigitRun(t, a + 1);
      var e := b + 1 + DigitRun(t, b + 1);
      assert i < a < b < e && VersionEnd(t, i) == Some(e);
      DigitRunMaximal(t, i);
      DigitRunMaximal(t, a + 1);
      DigitRunMaximal(t, b + 1);
      SplitOfRuns(t, i, a, b, e);
    }
  }

  /** `VersionEnd` on a version text of `t` whose dots are at `i + a` and `i + b`. */
  lemma VersionEndAt(t: string, i: nat, e: nat, a: nat, b: nat)
    requires i <= e <= |t| && 0 < a && a + 1 < b && i + b + 1 < e
    requires forall k :: i <= k < i + a ==> IsDigit(t[k])
    requires forall k :: i + a + 1 <= k < i + b ==> IsDigit(t[k])
    requires forall k :: i + b + 1 <= k < e ==> IsDigit(t[k])
    requires t[i + a] == '.' && t[i + b] == '.'
    ensures VersionEnd(t, i).Some? && e <= VersionEnd(t, i).value
    ensures (e == |t| || !IsDigit(t[e])) ==> VersionEnd(t, i).value == e
  {
    DigitRunExact(t, i, i + a);
    DigitRunExact(t, i + a + 1, i + b);
    var n := DigitRun(t, i + b + 1);
    assert IsDigit(t[i + b + 1]);
    assert VersionEnd(t, i) == Some(i + b + 1 + n);
    DigitRunExact(t, i + b + 1, e);
  }

  /**
   * Every version text starting at `i` is found by `VersionEnd`, which ends
   * it no earlier; exactly there when the text is not followed by a digit.
   */
  lemma VersionEndComplete(t: string, i: nat, e: nat)
    requires i <= e <= |t| && IsVersionText(t[i..e])
    ensures VersionEnd(t, i).Some? && e <= VersionEnd(t, i).value
    ensures (e == |t| || !IsDigit(t[e])) ==> VersionEnd(t, i).value == e
  {
    var s := t[i..e];
    var a, b :| VersionSplit(s, a, b);
    assert s[..a] == s[0..a] && s[b + 1..] == s[b + 1..|s|];
    InfixDigits(t, i, e, 0, a);
    InfixDigits(t, i, e, a + 1, b);
    InfixDigits(t, i, e, b + 1, |s|);
    VersionEndAt(t, i, e, a, b);
  }
}
