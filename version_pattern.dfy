/**
 * The release version pattern `\d+\.\d+\.\d+(?:-M\d+)?[<seps>](\d+)$`
 * matched from the start of a text, as Python's `re.match` does: three
 * dotted numbers, an optional milestone "-M<digits>", one separator from a
 * given set, and the build number, which is the captured group. Python's
 * `$` also accepts one final newline. Digits are the ASCII ones.
 *
 * Since digits, dots, separators and the milestone marker never overlap,
 * the pattern has at most one way to match, and the matcher below reads
 * it greedily, number by number.
 */
module VersionPattern {
  import opened Py

  /** The length of the run of digits `s` starts with. */
  function SpanDigits(s: string): (n: nat)
    ensures n <= |s|
    ensures forall i :: 0 <= i < n ==> IsAsciiDigit(s[i])
    ensures n < |s| ==> !IsAsciiDigit(s[n])
    decreases |s|
  {
    if |s| > 0 && IsAsciiDigit(s[0]) then 1 + SpanDigits(s[1..]) else 0
  }

  /** A run of digits followed by a non-digit (or nothing) is read exactly. */
  lemma SpanOfDigitsThen(a: string, rest: string)
    requires forall i :: 0 <= i < |a| ==> IsAsciiDigit(a[i])
    requires |rest| == 0 || !IsAsciiDigit(rest[0])
    ensures SpanDigits(a + rest) == |a|
  {
    assert forall i :: 0 <= i < |a| ==> (a + rest)[i] == a[i];
    assert |rest| > 0 ==> (a + rest)[|a|] == rest[0];
  }

  /** What `$` may leave after the match: nothing, or one newline. */
  function BeforeEnd(s: string): string {
    if |s| > 0 && s[|s| - 1] == '\n' then s[..|s| - 1] else s
  }

  /** `\d+` followed by `c`: what follows `c`. */
  function DigitsThen(s: string, c: char): Option<string> {
    var n := SpanDigits(s);
    if 0 < n < |s| && s[n] == c then Some(s[n + 1..]) else None
  }

  /** The optional milestone `-M\d+`, skipped when present. */
  function SkipMilestone(s: string): string {
    if |s| >= 2 && s[0] == '-' && s[1] == 'M' && SpanDigits(s[2..]) > 0 then s[2 + SpanDigits(s[2..])..] else s
  }

  /** The build number when the whole of `s` is three numbers, a milestone, a separator and the build number. */
  function MatchNumbers(s: string, seps: set<char>): Option<string> {
    match DigitsThen(s, '.')
    case None => None
    case Some(s1) =>
      match DigitsThen(s1, '.')
      case None => None
      case Some(s2) =>
        var n := SpanDigits(s2);
        var tail := SkipMilestone(s2[n..]);
        if n > 0 && |tail| > 0 && tail[0] in seps && IsDigits(tail[1..]) then Some(tail[1..]) else None
  }

  /** The build number when `version` matches the pattern up to `$`. */
  function MatchVersion(version: string, seps: set<char>): Option<string> {
    MatchNumbers(BeforeEnd(version), seps)
  }

  // ----- the reference shape -----

  function Milestone(m: Option<string>): string {
    if m.Some? then "-M" + m.value else ""
  }

  /** The text of a version with the given parts. */
  function Numbers(a: string, b: string, c: string, m: Option<string>, sep: char, build: string): string {
    a + "." + b + "." + c + Milestone(m) + [sep] + build
  }

  /** The parts a version is made of, as the pattern requires them. */
  predicate WellFormed(a: string, b: string, c: string, m: Option<string>, sep: char, build: string, seps: set<char>) {
    && IsDigits(a) && IsDigits(b) && IsDigits(c)
    && (m.Some? ==> IsDigits(m.value))
    && sep in seps && !IsAsciiDigit(sep) && sep != '\n'
    && IsDigits(build)
  }

  lemma DigitsThenOf(a: string, c: char, rest: string)
    requires IsDigits(a) && !IsAsciiDigit(c)
    ensures DigitsThen(a + [c] + rest, c) == Some(rest)
  {
    SpanOfDigitsThen(a, [c] + rest);
    assert a + [c] + rest == a + ([c] + rest);
    assert (a + [c] + rest)[|a| + 1..] == rest;
  }

  lemma SkipGivenMilestone(d: string, t: string)
    requires IsDigits(d) && |t| > 0 && !IsAsciiDigit(t[0])
    ensures SkipMilestone("-M" + d + t) == t
  {
    var s := "-M" + d + t;
    assert s[2..] == d + t;
    SpanOfDigitsThen(d, t);
    assert s[2 + |d|..] == t;
  }

  lemma SkipMilestoneOf(m: Option<string>, sep: char, build: string)
    requires m.Some? ==> IsDigits(m.value)
    requires !IsAsciiDigit(sep) && IsDigits(build)
    ensures SkipMilestone(Milestone(m) + [sep] + build) == [sep] + build
  {
    if m.Some? {
      SkipGivenMilestone(m.value, [sep] + build);
      AppendAssoc("-M" + m.value, [sep], build);
    } else {
      var s := [sep] + build;
      assert Milestone(m) + [sep] + build == s;
      assert s[1] == build[0];
    }
  }

  /** A non-empty run of digits is a number. */
  lemma DigitsPrefix(t: string)
    requires SpanDigits(t) > 0
    ensures IsDigits(t[..SpanDigits(t)])
  {
  }

  /** A run of digits and `c` taken off the front: the digits, `c`, and what follows. */
  lemma DigitsThenParts(s: string, c: char)
    requires DigitsThen(s, c).Some?
    ensures IsDigits(s[..SpanDigits(s)])
    ensures s == s[..SpanDigits(s)] + [c] + DigitsThen(s, c).value
  {
  }

  /** The milestone in front of `s`, if there is one. */
  function MilestoneOf(s: string): Option<string> {
    if |s| >= 2 && s[0] == '-' && s[1] == 'M' && SpanDigits(s[2..]) > 0 then Some(s[2..][..SpanDigits(s[2..])]) else None
  }

  /** Skipping the milestone leaves the text after it. */
  lemma MilestoneParts(s: string)
    ensures MilestoneOf(s).Some? ==> IsDigits(MilestoneOf(s).value)
    ensures s == Milestone(MilestoneOf(s)) + SkipMilestone(s)
  {
    if MilestoneOf(s).Some? {
      var k := SpanDigits(s[2..]);
      assert s == "-M" + s[2..][..k] + s[2 + k..];
    }
  }

  lemma Halves(t: string, k: nat)
    requires k <= |t|
    ensures t == t[..k] + t[k..]
  {
  }

  /** Five pieces put back together in order are the version text. */
  lemma Reassemble(s: string, a: string, s1: string, b: string, s2: string, c: string, rest: string,
                   m: Option<string>, tail: string, sep: char, build: string)
    requires s == a + "." + s1 && s1 == b + "." + s2 && s2 == c + rest
    requires rest == Milestone(m) + tail && tail == [sep] + build
    ensures s == Numbers(a, b, c, m, sep, build)
  {
    var y := c + Milestone(m) + [sep] + build;
    assert s2 == y by {
      AppendAssoc(c, Milestone(m), [sep] + build);
      AppendAssoc(c + Milestone(m), [sep], build);
    }
    var p := a + "." + b + ".";
    calc {
      s;
      a + "." + (b + "." + y);
      { AppendAssoc(a + ".", b + ".", y); AppendAssoc(a + ".", b, "."); }
      p + y;
      { AppendAssoc(p, c + Milestone(m) + [sep], build);
        AppendAssoc(p, c + Milestone(m), [sep]);
        AppendAssoc(p, c, Milestone(m)); }
      Numbers(a, b, c, m, sep, build);
    }
  }

  /** Every version of the reference shape matches, and its build number is captured. */
  lemma MatchNumbersOfShape(a: string, b: string, c: string, m: Option<string>, sep: char, build: string, seps: set<char>)
    requires WellFormed(a, b, c, m, sep, build, seps)
    ensures MatchNumbers(Numbers(a, b, c, m, sep, build), seps) == Some(build)
  {
    var tail := [sep] + build;
    var rest := Milestone(m) + tail;
    var r2 := c + rest;
    var r1 := b + "." + r2;
    Reassemble(a + "." + r1, a, r1, b, r2, c, rest, m, tail, sep, build);
    DigitsThenOf(a, '.', r1);
    DigitsThenOf(b, '.', r2);
    SkipMilestoneOf(m, sep, build);
    AppendAssoc(Milestone(m), [sep], build);
    assert !IsAsciiDigit(rest[0]);
    SpanOfDigitsThen(c, rest);
    assert r2[|c|..] == rest;
    assert tail[1..] == build;
  }

  /** The parts a match is read from. */
  lemma MatchedParts(s: string, seps: set<char>) returns (a: string, b: string, c: string, m: Option<string>, sep: char)
    requires MatchNumbers(s, seps).Some?
    requires forall x :: x in seps ==> !IsAsciiDigit(x) && x != '\n'
    ensures WellFormed(a, b, c, m, sep, MatchNumbers(s, seps).value, seps)
    ensures s == Numbers(a, b, c, m, sep, MatchNumbers(s, seps).value)
  {
    var s1 := DigitsThen(s, '.').value;
    var s2 := DigitsThen(s1, '.').value;
    var n := SpanDigits(s2);
    var rest := s2[n..];
    var tail := SkipMilestone(rest);
    var build := MatchNumbers(s, seps).value;
    Halves(tail, 1);
    assert tail[..1] == [tail[0]];
    a, b, c, m, sep := s[..SpanDigits(s)], s1[..SpanDigits(s1)], s2[..n], MilestoneOf(rest), tail[0];
    MilestoneParts(rest);
    DigitsPrefix(s);
    DigitsPrefix(s1);
    DigitsPrefix(s2);
    assert WellFormed(a, b, c, m, sep, build, seps);
    assert s == Numbers(a, b, c, m, sep, build) by {
      DigitsThenParts(s, '.');
      DigitsThenParts(s1, '.');
      Halves(s2, n);
      Reassemble(s, a, s1, b, s2, c, rest, m, tail, sep, build);
    }
  }

  /** Every match is a version of the reference shape, read back from its parts. */
  lemma MatchNumbersHasShape(s: string, seps: set<char>)
    requires MatchNumbers(s, seps).Some?
    requires forall x :: x in seps ==> !IsAsciiDigit(x) && x != '\n'
    ensures exists a, b, c, m, sep ::
              WellFormed(a, b, c, m, sep, MatchNumbers(s, seps).value, seps)
              && s == Numbers(a, b, c, m, sep, MatchNumbers(s, seps).value)
  {
    var a, b, c, m, sep := MatchedParts(s, seps);
  }

  /** A version followed by one newline still matches, with the same build number. */
  lemma MatchVersionOfShape(a: string, b: string, c: string, m: Option<string>, sep: char, build: string, seps: set<char>)
    requires WellFormed(a, b, c, m, sep, build, seps)
    ensures MatchVersion(Numbers(a, b, c, m, sep, build), seps) == Some(build)
    ensures MatchVersion(Numbers(a, b, c, m, sep, build) + "\n", seps) == Some(build)
  {
    MatchNumbersOfShape(a, b, c, m, sep, build, seps);
    EndsInBuild(a, b, c, m, sep, build);
    BeforeEndNewline(Numbers(a, b, c, m, sep, build));
  }

  lemma EndsInBuild(a: string, b: string, c: string, m: Option<string>, sep: char, build: string)
    requires IsDigits(build)
    ensures BeforeEnd(Numbers(a, b, c, m, sep, build)) == Numbers(a, b, c, m, sep, build)
  {
    var v := Numbers(a, b, c, m, sep, build);
    assert v[|v| - 1] == build[|build| - 1];
  }

  lemma BeforeEndNewline(v: string)
    ensures BeforeEnd(v + "\n") == v
  {
    assert (v + "\n")[..|v|] == v;
  }

  /** Every matching version is of the reference shape, possibly followed by one newline. */
  lemma MatchVersionHasShape(version: string, seps: set<char>)
    requires MatchVersion(version, seps).Some?
    requires forall x :: x in seps ==> !IsAsciiDigit(x) && x != '\n'
    ensures exists a, b, c, m, sep ::
              && WellFormed(a, b, c, m, sep, MatchVersion(version, seps).value, seps)
              && (|| version == Numbers(a, b, c, m, sep, MatchVersion(version, seps).value)
                  || version == Numbers(a, b, c, m, sep, MatchVersion(version, seps).value) + "\n")
  {
    var a, b, c, m, sep := MatchedParts(BeforeEnd(version), seps);
    if |version| > 0 && version[|version| - 1] == '\n' {
      Halves(version, |version| - 1);
      assert version[|version| - 1..] == "\n";
    }
  }
}
