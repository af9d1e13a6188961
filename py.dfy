/**
 * The parts of Python's built-in behaviour that the release scripts rely on:
 * optional values, results that may carry one of the exceptions the code
 * raises, and the `str` methods (`split`, `join`, `replace`, `strip`,
 * `lstrip`, `startswith`, `endswith`, `lower`, `isdigit`, `in`).
 * Characters are Unicode scalar values; the whitespace, digit and case
 * tables are the ASCII ones.
 */
module Py {

  datatype Option<T> = None | Some(value: T)

  /** The exception kinds raised by the modelled code. */
  datatype Error =
    | KeyError(key: string)
    | IndexError
    | TypeError(what: string)
    | AttributeError(what: string)
    | ValueError(msg: string)
    | RuntimeError(msg: string)
    | Raised(kind: string, msg: string)

  datatype Result<T> = Ok(value: T) | Err(error: Error)
  {
    predicate IsFailure() { Err? }

    function PropagateFailure<U>(): Result<U>
      requires Err?
    {
      Err(error)
    }

    function Extract(): T
      requires Ok?
    {
      value
    }
  }

  // ---------------------------------------------------------------------
  // Prefixes, suffixes and substrings

  predicate StartsWith(s: string, p: string) {
    |p| <= |s| && s[..|p|] == p
  }

  predicate EndsWith(s: string, p: string) {
    |p| <= |s| && s[|s| - |p|..] == p
  }

  /** `sub` occurs in `s` starting at index `i`. */
  predicate OccursAt(s: string, sub: string, i: int) {
    0 <= i && i + |sub| <= |s| && s[i..i + |sub|] == sub
  }

  /** Python's `sub in s`. */
  predicate Contains(s: string, sub: string)
    decreases |s|
  {
    StartsWith(s, sub) || (|s| > 0 && Contains(s[1..], sub))
  }

  lemma {:induction false} ContainsIffOccurs(s: string, sub: string)
    ensures Contains(s, sub) <==> exists i :: OccursAt(s, sub, i)
    decreases |s|
  {
    assert OccursAt(s, sub, 0) <==> StartsWith(s, sub);
    if |s| > 0 {
      ContainsIffOccurs(s[1..], sub);
      forall i | 0 < i ensures OccursAt(s, sub, i) <==> OccursAt(s[1..], sub, i - 1) {
        if i + |sub| <= |s| {
          assert s[1..][i - 1..i - 1 + |sub|] == s[i..i + |sub|];
        }
      }
      if Contains(s[1..], sub) {
        var j :| OccursAt(s[1..], sub, j);
        assert OccursAt(s, sub, j + 1);
      }
    }
  }

  /** Every character of a contained text occurs in the containing one. */
  lemma ContainsChars(s: string, sub: string)
    ensures Contains(s, sub) ==> forall i :: 0 <= i < |sub| ==> sub[i] in s
  {
    ContainsIffOccurs(s, sub);
    if Contains(s, sub) {
      var k :| OccursAt(s, sub, k);
      forall i | 0 <= i < |sub| ensures sub[i] in s {
        assert s[k..k + |sub|][i] == s[k + i];
      }
    }
  }

  lemma {:induction false} ContainsCharIff(s: string, c: char)
    ensures Contains(s, [c]) <==> c in s
    decreases |s|
  {
    if |s| > 0 {
      ContainsCharIff(s[1..], c);
      assert s == [s[0]] + s[1..];
    }
  }

  // ---------------------------------------------------------------------
  // Splitting and joining

  /** Python's `re.split` on a one-character class: always at least one piece. */
  function SplitAny(s: string, seps: set<char>): (r: seq<string>)
    ensures |r| >= 1
    ensures forall i, k :: 0 <= i < |r| && 0 <= k < |r[i]| ==> r[i][k] !in seps
    decreases |s|
  {
    if |s| == 0 then [""]
    else if s[0] in seps then [""] + SplitAny(s[1..], seps)
    else
      var rest := SplitAny(s[1..], seps);
      [[s[0]] + rest[0]] + rest[1..]
  }

  /** Python's `s.split(sep)` for a one-character separator. */
  function Split(s: string, sep: char): (r: seq<string>)
    ensures |r| >= 1
    ensures forall i :: 0 <= i < |r| ==> sep !in r[i]
  {
    SplitAny(s, {sep})
  }

  /** Python's `sep.join(parts)`. */
  function Join(parts: seq<string>, sep: string): string
    decreases |parts|
  {
    if |parts| == 0 then ""
    else if |parts| == 1 then parts[0]
    else parts[0] + sep + Join(parts[1..], sep)
  }

  function Last<T>(xs: seq<T>): T
    requires |xs| > 0
  {
    xs[|xs| - 1]
  }

  lemma {:induction false} JoinAppend(parts: seq<string>, p: string, sep: string)
    ensures Join(parts + [p], sep) == if |parts| == 0 then p else Join(parts, sep) + sep + p
    decreases |parts|
  {
    if |parts| == 0 {
      assert parts + [p] == [p];
    } else if |parts| == 1 {
      assert parts + [p] == [parts[0], p];
      assert [parts[0], p][1..] == [p];
    } else {
      assert (parts + [p])[1..] == parts[1..] + [p];
      JoinAppend(parts[1..], p, sep);
    }
  }

  /** Splitting and joining back on the same separator gives the text back. */
  lemma {:induction false} JoinSplit(s: string, sep: char)
    ensures Join(Split(s, sep), [sep]) == s
    decreases |s|
  {
    if |s| > 0 {
      JoinSplit(s[1..], sep);
      var rest := Split(s[1..], sep);
      if s[0] == sep {
        assert Split(s, sep) == [""] + rest;
        assert ([""] + rest)[1..] == rest;
        assert s == [sep] + s[1..];
      } else {
        assert Split(s, sep) == [[s[0]] + rest[0]] + rest[1..];
        var r := [[s[0]] + rest[0]] + rest[1..];
        assert r[1..] == rest[1..];
        if |rest| == 1 {
          assert s == [s[0]] + rest[0];
        } else {
          assert Join(rest, [sep]) == rest[0] + [sep] + Join(rest[1..], [sep]);
          assert s == [s[0]] + s[1..];
        }
      }
    }
  }

  /** Joining pieces free of the separator and splitting again gives the pieces back. */
  lemma {:induction false} SplitJoin(parts: seq<string>, sep: char)
    requires |parts| >= 1
    requires forall i :: 0 <= i < |parts| ==> sep !in parts[i]
    ensures Split(Join(parts, [sep]), sep) == parts
    decreases |parts|, |parts[0]|
  {
    var p := parts[0];
    if |parts| == 1 {
      SplitNoSep(p, sep);
    } else if |p| == 0 {
      var tail := Join(parts[1..], [sep]);
      assert Join(parts, [sep]) == [sep] + tail;
      SplitJoin(parts[1..], sep);
      assert ([sep] + tail)[1..] == tail;
      assert parts == [""] + parts[1..];
    } else {
      var parts' := [p[1..]] + parts[1..];
      assert parts'[1..] == parts[1..];
      forall i | 0 <= i < |parts'| ensures sep !in parts'[i] {
        if i == 0 {
          assert forall c :: c in p[1..] ==> c in p;
        }
      }
      SplitJoin(parts', sep);
      var s := Join(parts, [sep]);
      assert s == p + [sep] + Join(parts[1..], [sep]);
      assert s == [p[0]] + Join(parts', [sep]);
      assert s[1..] == Join(parts', [sep]);
      assert s[0] == p[0];
      assert [p[0]] + p[1..] == p;
      assert parts == [p] + parts'[1..];
    }
  }

  /** A separator-free head and a separator split off as the first piece. */
  lemma {:induction false} SplitConcat(a: string, c: char, b: string)
    requires c !in a
    ensures Split(a + [c] + b, c) == [a] + Split(b, c)
    decreases |a|
  {
    if |a| == 0 {
      assert a + [c] + b == [c] + b;
      assert ([c] + b)[1..] == b;
    } else {
      SplitConcat(a[1..], c, b);
      var s := a + [c] + b;
      assert s[0] == a[0];
      assert s[1..] == a[1..] + [c] + b;
      assert [a[0]] + a[1..] == a;
    }
  }

  /** Splitting around one separator splits each side on its own. */
  lemma {:induction false} SplitAppend(a: string, c: char, b: string)
    ensures Split(a + [c] + b, c) == Split(a, c) + Split(b, c)
    decreases |a|
  {
    var s := a + [c] + b;
    if |a| == 0 {
      assert s == [c] + b;
      assert s[1..] == b;
      SplitStep(s, c);
    } else {
      SplitAppend(a[1..], c, b);
      assert s[0] == a[0];
      assert s[1..] == a[1..] + [c] + b;
      SplitStep(s, c);
      SplitStep(a, c);
      var head := Split(a[1..], c);
      assert Split(s[1..], c) == head + Split(b, c);
      if a[0] == c {
        SplitAppendAfterSep(a, c, b, head);
      } else {
        SplitAppendAfterChar(a, c, b, head);
      }
    }
  }

  lemma SplitAppendAfterSep(a: string, c: char, b: string, head: seq<string>)
    requires |a| > 0 && a[0] == c
    requires Split(a, c) == [""] + head
    requires Split(a + [c] + b, c) == [""] + (head + Split(b, c))
    ensures Split(a + [c] + b, c) == Split(a, c) + Split(b, c)
  {
    AppendAssoc3([""], head, Split(b, c));
  }

  lemma SplitAppendAfterChar(a: string, c: char, b: string, head: seq<string>)
    requires |a| > 0 && a[0] != c && |head| > 0
    requires Split(a, c) == [[a[0]] + head[0]] + head[1..]
    requires var rest := head + Split(b, c);
             Split(a + [c] + b, c) == [[a[0]] + rest[0]] + rest[1..]
    ensures Split(a + [c] + b, c) == Split(a, c) + Split(b, c)
  {
    var rest := head + Split(b, c);
    var first := [a[0]] + head[0];
    assert rest[0] == head[0] && rest[1..] == head[1..] + Split(b, c);
    AppendAssoc3([first], head[1..], Split(b, c));
  }

  lemma AppendAssoc3(x: seq<string>, y: seq<string>, z: seq<string>)
    ensures x + (y + z) == x + y + z
  {
  }

  /** One step of `split`: the first character either ends the first piece or joins it. */
  lemma SplitStep(s: string, c: char)
    requires |s| > 0
    ensures Split(s, c) == if s[0] == c then [""] + Split(s[1..], c)
                           else [[s[0]] + Split(s[1..], c)[0]] + Split(s[1..], c)[1..]
  {
  }

  lemma {:induction false} SplitNoSep(s: string, sep: char)
    requires sep !in s
    ensures Split(s, sep) == [s]
    decreases |s|
  {
    if |s| > 0 {
      assert sep !in s[1..];
      SplitNoSep(s[1..], sep);
      assert [s[0]] + s[1..] == s;
    }
  }

  lemma {:induction false} SplitAnyNoSep(s: string, seps: set<char>)
    requires forall c :: c in s ==> c !in seps
    ensures SplitAny(s, seps) == [s]
    decreases |s|
  {
    if |s| > 0 {
      SplitAnyNoSep(s[1..], seps);
      assert [s[0]] + s[1..] == s;
    }
  }

  /** The last piece of a split at any separator is a suffix of the text. */
  lemma {:induction false} SplitAnyLastIsSuffix(s: string, seps: set<char>)
    ensures EndsWith(s, Last(SplitAny(s, seps)))
    ensures |SplitAny(s, seps)| == 1 ==> SplitAny(s, seps)[0] == s
    decreases |s|
  {
    if |s| > 0 {
      SplitAnyLastIsSuffix(s[1..], seps);
      var rest := SplitAny(s[1..], seps);
      if s[0] !in seps && |rest| == 1 {
        SplitAnyWhole(s, seps);
      } else {
        SplitAnyLastOfRest(s, seps);
        EndsWithTail(s, Last(rest));
      }
    }
  }

  /** A text whose tail is one piece and whose head is no separator is one piece. */
  lemma SplitAnyWhole(s: string, seps: set<char>)
    requires |s| > 0 && s[0] !in seps
    requires |SplitAny(s[1..], seps)| == 1 && SplitAny(s[1..], seps)[0] == s[1..]
    ensures SplitAny(s, seps) == [s]
  {
    assert s == [s[0]] + s[1..];
  }

  /** Otherwise the last piece is the tail's last piece. */
  lemma SplitAnyLastOfRest(s: string, seps: set<char>)
    requires |s| > 0 && (s[0] in seps || |SplitAny(s[1..], seps)| > 1)
    ensures |SplitAny(s, seps)| > 1 && Last(SplitAny(s, seps)) == Last(SplitAny(s[1..], seps))
  {
  }

  lemma EndsWithAppended(s: string, p: string)
    ensures EndsWith(s + p, p)
  {
    assert (s + p)[|s|..] == p;
  }

  lemma EndsWithTail(s: string, p: string)
    requires |s| > 0 && EndsWith(s[1..], p)
    ensures EndsWith(s, p)
  {
    assert s[|s| - |p|..] == s[1..][|s| - 1 - |p|..];
  }

  /** The last piece of `a + [c] + b`, for a separator `c` and a separator-free `b`, is `b`. */
  lemma {:induction false} LastPieceAfterAnySeparator(a: string, c: char, b: string, seps: set<char>)
    requires c in seps
    requires forall x :: x in b ==> x !in seps
    ensures |SplitAny(a + [c] + b, seps)| >= 2
    ensures Last(SplitAny(a + [c] + b, seps)) == b
    decreases |a|
  {
    var s := a + [c] + b;
    if |a| == 0 {
      assert s == [c] + b && s[1..] == b;
      SplitAnyNoSep(b, seps);
    } else {
      assert s[1..] == a[1..] + [c] + b;
      LastPieceAfterAnySeparator(a[1..], c, b, seps);
      SplitAnyLastOfRest(s, seps);
    }
  }

  /** The first piece of a split is the text before the first separator. */
  lemma {:induction false} SplitFirstIsPrefix(s: string, sep: char)
    ensures StartsWith(s, Split(s, sep)[0])
    ensures Split(s, sep)[0] == s || (|Split(s, sep)[0]| < |s| && s[|Split(s, sep)[0]|] == sep)
    decreases |s|
  {
    if |s| > 0 && s[0] != sep {
      SplitFirstIsPrefix(s[1..], sep);
      var rest := Split(s[1..], sep);
      assert Split(s, sep)[0] == [s[0]] + rest[0];
      assert s == [s[0]] + s[1..];
    }
  }

  /**
   * The last piece of a split is a separator-free suffix that is either
   * the whole text or preceded by a separator.
   */
  lemma SplitLastIsSuffix(s: string, sep: char)
    ensures EndsWith(s, Last(Split(s, sep)))
    ensures Last(Split(s, sep)) == s || s[|s| - |Last(Split(s, sep))| - 1] == sep
  {
    var parts := Split(s, sep);
    var n := |parts|;
    JoinSplit(s, sep);
    if n > 1 {
      var init := parts[..n - 1];
      assert parts == init + [parts[n - 1]];
      JoinAppend(init, parts[n - 1], [sep]);
      assert s == (Join(init, [sep]) + [sep]) + parts[n - 1];
    }
  }

  /** The last piece of `a + [sep] + b`, for a separator-free `b`, is `b`. */
  lemma LastPieceAfterSeparator(a: string, sep: char, b: string)
    requires sep !in b
    ensures Last(Split(a + [sep] + b, sep)) == b
  {
    var s := a + [sep] + b;
    var l := Last(Split(s, sep));
    SplitLastIsSuffix(s, sep);
    assert sep !in l by {
      assert l in Split(s, sep);
    }
    assert s[|s| - |b| - 1] == sep;
    assert l == s[|s| - |l|..];
    assert |l| == |b|;
  }

  /** `os.path.basename`: the text after the last '/'. */
  function Basename(path: string): (r: string)
    ensures '/' !in r && EndsWith(path, r)
  {
    SplitLastIsSuffix(path, '/');
    Last(Split(path, '/'))
  }

  // ---------------------------------------------------------------------
  // Replacement

  /** Python's `s.replace(pat, repl)`: every non-overlapping occurrence, left to right. */
  function Replace(s: string, pat: string, repl: string): string
    decreases |s|
  {
    if |pat| == 0 then InsertEverywhere(s, repl)
    else if StartsWith(s, pat) then repl + Replace(s[|pat|..], pat, repl)
    else if |s| == 0 then ""
    else [s[0]] + Replace(s[1..], pat, repl)
  }

  /** `s.replace("", repl)`: `repl` before every character and at the end. */
  function InsertEverywhere(s: string, repl: string): string
    decreases |s|
  {
    if |s| == 0 then repl else repl + [s[0]] + InsertEverywhere(s[1..], repl)
  }

  /** Python's `s.replace(pat, repl, 1)`: only the first occurrence. */
  function ReplaceFirst(s: string, pat: string, repl: string): string
    decreases |s|
  {
    if StartsWith(s, pat) then repl + s[|pat|..]
    else if |s| == 0 then ""
    else [s[0]] + ReplaceFirst(s[1..], pat, repl)
  }

  /** Replacing text that does not occur leaves the string as it is. */
  lemma {:induction false} ReplaceAbsent(s: string, pat: string, repl: string)
    requires |pat| > 0 && !Contains(s, pat)
    ensures Replace(s, pat, repl) == s
    decreases |s|
  {
    if |s| > 0 {
      ReplaceAbsent(s[1..], pat, repl);
      assert [s[0]] + s[1..] == s;
    }
  }

  lemma {:induction false} ReplaceFirstAbsent(s: string, pat: string, repl: string)
    requires !Contains(s, pat)
    ensures ReplaceFirst(s, pat, repl) == s
    decreases |s|
  {
    if |s| > 0 {
      ReplaceFirstAbsent(s[1..], pat, repl);
      assert [s[0]] + s[1..] == s;
    }
  }

  /** Dropping the first character keeps the pattern out of the positions before the final one. */
  lemma NoEarlierOccurrenceShift(a: string, pat: string)
    requires |a| > 0
    requires forall i :: 0 <= i < |a| ==> !OccursAt(a + pat, pat, i)
    ensures forall i :: 0 <= i < |a[1..]| ==> !OccursAt(a[1..] + pat, pat, i)
  {
    var s := a + pat;
    forall i | 0 <= i < |a[1..]| ensures !OccursAt(a[1..] + pat, pat, i) {
      assert !OccursAt(s, pat, i + 1);
      if i + |pat| <= |a[1..] + pat| {
        assert (a[1..] + pat)[i..i + |pat|] == s[i + 1..i + 1 + |pat|];
      }
    }
  }

  /** A pattern whose only occurrence in `a + pat` is the final one is replaced once, at the end. */
  lemma {:induction false} ReplaceOnlyAtEnd(a: string, pat: string, repl: string)
    requires |pat| > 0
    requires forall i :: 0 <= i < |a| ==> !OccursAt(a + pat, pat, i)
    ensures Replace(a + pat, pat, repl) == a + repl
    decreases |a|
  {
    if |a| == 0 {
      assert a + pat == pat;
      assert pat[|pat|..] == "";
    } else {
      var s := a + pat;
      assert !OccursAt(s, pat, 0);
      assert s[1..] == a[1..] + pat;
      NoEarlierOccurrenceShift(a, pat);
      ReplaceOnlyAtEnd(a[1..], pat, repl);
      assert Replace(s, pat, repl) == [s[0]] + (a[1..] + repl);
      assert [a[0]] + a[1..] == a;
    }
  }

  /** Replacing every occurrence of a character by another character leaves none of the first. */
  lemma {:induction false} ReplaceRemovesChar(s: string, c: char, d: char)
    requires c != d
    ensures c !in Replace(s, [c], [d])
    ensures |Replace(s, [c], [d])| == |s|
    decreases |s|
  {
    if |s| > 0 {
      ReplaceRemovesChar(s[1..], c, d);
      if !StartsWith(s, [c]) {
        assert s[0] != c;
      }
    }
  }

  /** Replacing a text by itself changes nothing. */
  lemma {:induction false} ReplaceSelf(s: string, pat: string)
    requires |pat| > 0
    ensures Replace(s, pat, pat) == s
    decreases |s|
  {
    if StartsWith(s, pat) {
      ReplaceSelf(s[|pat|..], pat);
      assert s[..|pat|] + s[|pat|..] == s;
    } else if |s| > 0 {
      ReplaceSelf(s[1..], pat);
      assert [s[0]] + s[1..] == s;
    }
  }

  /**
   * One replacement pass can leave an occurrence behind even when `pat`
   * does not occur in `repl`: the replacement text and its neighbours can
   * form `pat` anew.
   */
  lemma ReplaceCanLeaveOccurrence()
    ensures !Contains(".", "1.2")
    ensures Replace("11.22", "1.2", ".") == "1.2"
    ensures Contains(Replace("11.22", "1.2", "."), "1.2")
  {
    assert "11.22"[..3][1] != "1.2"[1];
    assert !StartsWith("11.22", "1.2");
    assert "11.22"[1..] == "1.22";
    assert StartsWith("1.22", "1.2");
    assert "1.22"[3..] == "2";
    assert !StartsWith("2", "1.2");
    assert "2"[1..] == "";
    assert Replace("2", "1.2", ".") == "2";
    assert StartsWith("1.2", "1.2");
  }

  // ---------------------------------------------------------------------
  // Stripping and character classes

  /** The characters Python's `str.isspace` accepts in the ASCII range. */
  const Whitespace: set<char> := {' ', '\t', '\n', '\r', '\U{B}', '\U{C}', '\U{1C}', '\U{1D}', '\U{1E}', '\U{1F}'}

  /** Python's `s.lstrip(chars)`. */
  function LStripChars(s: string, chars: set<char>): (r: string)
    ensures |r| <= |s| && r == s[|s| - |r|..]
    ensures |r| > 0 ==> r[0] !in chars
    ensures forall i :: 0 <= i < |s| - |r| ==> s[i] in chars
    decreases |s|
  {
    if |s| > 0 && s[0] in chars then
      var r := LStripChars(s[1..], chars);
      assert s[1..][|s| - 1 - |r|..] == s[|s| - |r|..];
      assert forall i :: 1 <= i < |s| - |r| ==> s[i] == s[1..][i - 1];
      r
    else s
  }

  /** Python's `s.rstrip(chars)`. */
  function RStripChars(s: string, chars: set<char>): (r: string)
    ensures |r| <= |s| && r == s[..|r|]
    ensures |r| > 0 ==> r[|r| - 1] !in chars
    ensures forall i :: |r| <= i < |s| ==> s[i] in chars
    decreases |s|
  {
    if |s| > 0 && s[|s| - 1] in chars then
      var r := RStripChars(s[..|s| - 1], chars);
      assert s[..|s| - 1][..|r|] == s[..|r|];
      assert forall i :: |r| <= i < |s| - 1 ==> s[i] == s[..|s| - 1][i];
      r
    else s
  }

  /** Python's `s.strip()`. */
  function Strip(s: string): (r: string)
    ensures |r| > 0 ==> r[0] !in Whitespace && r[|r| - 1] !in Whitespace
    ensures |r| <= |s|
  {
    LStripChars(RStripChars(s, Whitespace), Whitespace)
  }

  /** `s.strip()` leaves a text without surrounding whitespace as it is. */
  lemma StripUnchanged(s: string)
    requires |s| > 0 ==> s[0] !in Whitespace && s[|s| - 1] !in Whitespace
    ensures Strip(s) == s
  {
  }

  /** `lstrip(chars)` removes a leading run of `chars` up to the first other character. */
  lemma {:induction false} LStripPrefix(run: string, s: string, chars: set<char>)
    requires forall i :: 0 <= i < |run| ==> run[i] in chars
    requires |s| > 0 ==> s[0] !in chars
    ensures LStripChars(run + s, chars) == s
    decreases |run|
  {
    if |run| == 0 {
      assert run + s == s;
    } else {
      LStripPrefix(run[1..], s, chars);
      assert (run + s)[0] == run[0];
      assert (run + s)[1..] == run[1..] + s;
    }
  }

  predicate IsAsciiDigit(c: char) {
    '0' <= c <= '9'
  }

  /** Python's `s.isdigit()`: non-empty and all digits. */
  predicate IsDigits(s: string) {
    |s| > 0 && forall i :: 0 <= i < |s| ==> IsAsciiDigit(s[i])
  }

  function LowerChar(c: char): char {
    if 'A' <= c <= 'Z' then (c as int + 32) as char else c
  }

  /** Python's `s.lower()`. */
  function Lower(s: string): (r: string)
    ensures |r| == |s|
    ensures forall i :: 0 <= i < |s| ==> r[i] == LowerChar(s[i])
  {
    seq(|s|, i requires 0 <= i < |s| => LowerChar(s[i]))
  }

  /** Python's `s[0:n]`. */
  function Take(s: string, n: nat): (r: string)
    ensures |r| == if |s| <= n then |s| else n
    ensures StartsWith(s, r)
  {
    if |s| <= n then s else s[..n]
  }

  // ---------------------------------------------------------------------
  // Integers

  function DigitValue(c: char): nat
    requires IsAsciiDigit(c)
  {
    c as int - '0' as int
  }

  function DigitsValue(s: string): nat
    requires forall i :: 0 <= i < |s| ==> IsAsciiDigit(s[i])
    decreases |s|
  {
    if |s| == 0 then 0 else DigitsValue(s[..|s| - 1]) * 10 + DigitValue(s[|s| - 1])
  }

  /** Python's `str(n)` for an integer. */
  function IntToString(n: int): (r: string)
    ensures n >= 0 ==> IsDigits(r)
    decreases if n < 0 then -n + 1 else n
  {
    if n < 0 then "-" + IntToString(-n)
    else if n < 10 then [('0' as int + n) as char]
    else IntToString(n / 10) + [('0' as int + n % 10) as char]
  }

  /**
   * The digit text `int()` accepts in base 10: ASCII digits, where single
   * underscores may separate two digits ("1_000").
   */
  predicate IsDigitText(s: string) {
    && |s| > 0 && IsAsciiDigit(s[0]) && IsAsciiDigit(s[|s| - 1])
    && (forall i :: 0 <= i < |s| ==> IsAsciiDigit(s[i]) || s[i] == '_')
    && (forall i :: 0 <= i < |s| - 1 && s[i] == '_' ==> s[i + 1] != '_')
  }

  /** The digits of a digit text, underscores dropped. */
  function DigitsOf(s: string): (r: string)
    requires forall i :: 0 <= i < |s| ==> IsAsciiDigit(s[i]) || s[i] == '_'
    ensures forall i :: 0 <= i < |r| ==> IsAsciiDigit(r[i])
    ensures (forall i :: 0 <= i < |s| ==> s[i] != '_') ==> r == s
    decreases |s|
  {
    if |s| == 0 then ""
    else (if s[0] == '_' then "" else [s[0]]) + DigitsOf(s[1..])
  }

  /** Python's `int(s)` for a string: optional surrounding whitespace and sign, then digit text. */
  function ParseInt(s: string): (r: Result<int>)
    ensures r.Ok? ==> Strip(s) != ""
  {
    var t := Strip(s);
    if IsDigitText(t) then Ok(DigitsValue(DigitsOf(t)))
    else if |t| > 0 && (t[0] == '-' || t[0] == '+') && IsDigitText(t[1..]) then
      Ok(if t[0] == '-' then 0 - DigitsValue(DigitsOf(t[1..])) else DigitsValue(DigitsOf(t[1..])) as int)
    else Err(ValueError("invalid literal for int() with base 10: " + s))
  }


  lemma {:induction false} DigitsValueOfIntToString(n: nat)
    ensures IsDigits(IntToString(n)) && DigitsValue(IntToString(n)) == n
    decreases n
  {
    if n >= 10 {
      DigitsValueOfIntToString(n / 10);
      var r := IntToString(n);
      assert r[..|r| - 1] == IntToString(n / 10);
    }
  }

  lemma StripDigits(s: string)
    requires IsDigits(s)
    ensures Strip(s) == s
  {
    var first, last := s[0], s[|s| - 1];
    assert IsAsciiDigit(first) && IsAsciiDigit(last);
    assert first !in Whitespace && last !in Whitespace;
    assert RStripChars(s, Whitespace) == s;
    assert LStripChars(s, Whitespace) == s;
  }

  /** `int(str(n))` gives `n` back for every natural number. */
  lemma ParseIntOfIntToString(n: nat)
    ensures ParseInt(IntToString(n)) == Ok(n)
  {
    var s := IntToString(n);
    DigitsValueOfIntToString(n);
    StripDigits(s);
    assert IsDigitText(s) && DigitsOf(s) == s;
  }

  /**
   * An underscore between two digit groups is dropped, as Python's `int()`
   * does: `a_b` parses to the value of the digits `ab`.
   */
  lemma {:induction false} ParseIntUnderscores(a: string, b: string)
    requires IsDigits(a) && IsDigits(b)
    ensures ParseInt(a + "_" + b) == ParseInt(a + b) == Ok(DigitsValue(a + b))
  {
    var s := a + "_" + b;
    assert s[0] == a[0] && s[|s| - 1] == b[|b| - 1];
    assert forall i :: 0 <= i < |s| ==> (i < |a| && s[i] == a[i]) || i == |a| || (i > |a| && s[i] == b[i - |a| - 1]);
    assert IsDigitText(s);
    var ab := a + b;
    assert forall i :: 0 <= i < |ab| ==> IsAsciiDigit(ab[i]);
    assert ab[0] == a[0] && ab[|ab| - 1] == b[|b| - 1];
    assert IsDigitText(ab);
    ParseIntOfDigitText(s);
    ParseIntOfDigitText(ab);
    DigitsOfUnderscore(a, b);
    assert forall i :: 0 <= i < |ab| ==> ab[i] != '_';
    assert DigitsOf(ab) == ab;
    assert ParseInt(s) == Ok(DigitsValue(ab));
  }

  lemma {:induction false} DigitsOfUnderscore(a: string, b: string)
    requires forall i :: 0 <= i < |a| ==> IsAsciiDigit(a[i])
    requires forall i :: 0 <= i < |b| ==> IsAsciiDigit(b[i])
    ensures DigitsOf(a + "_" + b) == a + b
    decreases |a|
  {
    var s := a + "_" + b;
    if |a| == 0 {
      assert s == ['_'] + b;
      DigitsOfCons('_', b);
    } else {
      assert s == [a[0]] + (a[1..] + "_" + b);
      DigitsOfCons(a[0], a[1..] + "_" + b);
      DigitsOfUnderscore(a[1..], b);
      assert [a[0]] + (a[1..] + b) == a + b;
    }
  }

  /** Digit text without a sign parses to the value of its digits. */
  lemma ParseIntOfDigitText(s: string)
    requires IsDigitText(s)
    ensures ParseInt(s) == Ok(DigitsValue(DigitsOf(s)))
  {
    assert IsAsciiDigit(s[0]) && IsAsciiDigit(s[|s| - 1]);
    StripUnchanged(s);
  }

  lemma DigitsOfCons(c: char, s: string)
    requires IsAsciiDigit(c) || c == '_'
    requires forall i :: 0 <= i < |s| ==> IsAsciiDigit(s[i]) || s[i] == '_'
    ensures DigitsOf([c] + s) == (if c == '_' then "" else [c]) + DigitsOf(s)
  {
    assert ([c] + s)[1..] == s;
  }

  /** A leading, trailing or doubled underscore is refused. */
  lemma ParseIntRefusesStrayUnderscores(a: string, b: string)
    requires IsDigits(a) && IsDigits(b)
    ensures ParseInt("_" + a).Err? && ParseInt("_" + a).error.ValueError?
    ensures ParseInt(a + "_").Err? && ParseInt(a + "_").error.ValueError?
    ensures ParseInt(a + "__" + b).Err? && ParseInt(a + "__" + b).error.ValueError?
  {
    RefusedUnsigned("_" + a, 0);
    RefusedUnsigned(a + "_", |a|);
    RefusedUnsigned(a + "__" + b, |a|);
  }

  /** Text that starts and ends with a digit or `_`, and has a stray underscore at `k`, is refused. */
  lemma RefusedUnsigned(s: string, k: nat)
    requires |s| > 0 && (IsAsciiDigit(s[0]) || s[0] == '_') && (IsAsciiDigit(s[|s| - 1]) || s[|s| - 1] == '_')
    requires k < |s| && s[k] == '_'
    requires k == 0 || k == |s| - 1 || s[k + 1] == '_'
    ensures ParseInt(s).Err? && ParseInt(s).error.ValueError?
  {
    StrayUnderscoreNotDigitText(s, k);
    DigitTextCharNotWhitespace(s[0]);
    DigitTextCharNotWhitespace(s[|s| - 1]);
    StripUnchanged(s);
  }

  lemma StrayUnderscoreNotDigitText(s: string, k: nat)
    requires k < |s| && s[k] == '_'
    requires k == 0 || k == |s| - 1 || s[k + 1] == '_'
    ensures !IsDigitText(s)
  {
    if 0 < k < |s| - 1 {
      assert s[k] == '_' && s[k + 1] == '_';
    }
  }

  lemma DigitTextCharNotWhitespace(c: char)
    requires IsAsciiDigit(c) || c == '_'
    ensures c !in Whitespace && c != '-' && c != '+'
  {
  }



  lemma AppendAssoc<T>(a: seq<T>, b: seq<T>, c: seq<T>)
    ensures (a + b) + c == a + (b + c)
  {
  }
}
