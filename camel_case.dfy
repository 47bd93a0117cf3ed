/**
 The case converter of the schema camelizer: `toCamelCase` and the allow-list
 of keys whose string values are converted too.

 `toCamelCase` is two regular-expression replacements in the original:
 every match of `[_-]+(.)` (global) becomes the upper-cased captured character,
 then a leading `[A-Z]` is lowered. Here the first replacement is a left-to-right
 scan that moves one character at a time (`Step`, `ReplaceRuns`); `RunRewritten`
 and `RunKeepsLast` show that its steps add up to the regex's matches of whole
 separator runs. The second replacement is `LowerFirst`.
 */
module CamelCase {

  /** The two word separators the converter recognises: `_` and `-`. */
  predicate IsSeparator(c: char) {
    c == '_' || c == '-'
  }

  /** The characters a regular-expression `.` does not match (no `s` flag). */
  predicate IsLineTerminator(c: char) {
    c == '\n' || c == '\r' || c == '\U{2028}' || c == '\U{2029}'
  }

  predicate IsAsciiUpper(c: char) {
    'A' <= c <= 'Z'
  }

  predicate IsAsciiLower(c: char) {
    'a' <= c <= 'z'
  }

  /** Lower-casing of an ASCII capital: the same letter of the alphabet, in lower case. */
  function ToLower(c: char): (l: char)
    ensures IsSeparator(l) <==> IsSeparator(c)
    ensures IsLineTerminator(l) <==> IsLineTerminator(c)
    ensures IsAsciiUpper(c) ==> IsAsciiLower(l) && l as int - 'a' as int == c as int - 'A' as int
    ensures !IsAsciiUpper(c) ==> l == c
  {
    if IsAsciiUpper(c) then (c as int + 32) as char else c
  }

  /**
   Upper-casing, restricted to ASCII letters: the same letter of the alphabet,
   in upper case, which lower-cases back to the original.
   */
  function ToUpper(c: char): (u: char)
    ensures IsSeparator(u) <==> IsSeparator(c)
    ensures IsLineTerminator(u) <==> IsLineTerminator(c)
    ensures IsAsciiLower(c) ==> IsAsciiUpper(u) && u as int - 'A' as int == c as int - 'a' as int
    ensures IsAsciiLower(c) ==> ToLower(u) == c
    ensures !IsAsciiLower(c) ==> u == c
  {
    if IsAsciiLower(c) then (c as int - 32) as char else c
  }

  /** Lower-casing a capital and upper-casing it again gives the capital back. */
  lemma CaseRoundTrip(c: char)
    ensures IsAsciiUpper(c) ==> ToUpper(ToLower(c)) == c
    ensures IsAsciiLower(c) ==> ToLower(ToUpper(c)) == c
  {
  }

  /** The test `/[_-]/.test(str)`. */
  predicate HasSeparator(s: string) {
    exists i :: 0 <= i < |s| && IsSeparator(s[i])
  }

  /**
   One step of the global replacement
   `str.replace(/[_-]+(.)/g, (_, char) => char.toUpperCase())` at the start of
   a non-empty string: the text emitted and the number of characters consumed.
   A character other than a separator is copied. A separator followed by
   another separator is dropped (the run goes on). The last separator of a run
   is dropped together with the character after it, which is upper-cased,
   when `.` matches that character. When the run is followed by the end of the
   string or by a line terminator the whole pattern cannot match; the greedy
   `[_-]+` backs off by one and `(.)` captures the run's last separator, so
   that separator stays (a run of length one does not match at all, which
   leaves it too).
   */
  function Step(s: string): (step: (string, nat))
    requires s != []
    ensures 1 <= step.1 <= |s| && |step.0| <= step.1
  {
    if !IsSeparator(s[0]) then ([s[0]], 1)
    else if |s| >= 2 && IsSeparator(s[1]) then ([], 1)
    else if |s| >= 2 && !IsLineTerminator(s[1]) then ([ToUpper(s[1])], 2)
    else ([s[0]], 1)
  }

  /** The whole replacement pass: steps from left to right until the string is used up. */
  function ReplaceRuns(s: string): (r: string)
    ensures |r| <= |s|
    decreases |s|
  {
    if s == [] then [] else Step(s).0 + ReplaceRuns(s[Step(s).1..])
  }

  /** The replacement `.replace(/^[A-Z]/, (char) => char.toLowerCase())`. */
  function LowerFirst(s: string): (r: string)
    ensures |r| == |s|
    ensures |r| > 0 ==> r[0] == ToLower(s[0]) && !IsAsciiUpper(r[0])
    ensures forall i :: 0 < i < |s| ==> r[i] == s[i]
    ensures |s| > 0 && !IsAsciiUpper(s[0]) ==> r == s
  {
    if |s| > 0 && IsAsciiUpper(s[0]) then [ToLower(s[0])] + s[1..] else s
  }

  /**
   A string the replacement pass leaves alone: every separator in it stands
   alone, directly before the end of the string or before a line terminator.
   */
  predicate Settled(t: string) {
    forall i :: 0 <= i < |t| && IsSeparator(t[i]) ==> i + 1 == |t| || IsLineTerminator(t[i + 1])
  }

  /**
   `toCamelCase`: a string without `_` or `-` is returned as it is; otherwise
   separator runs are rewritten and a leading ASCII capital is lowered.
   */
  function ToCamelCase(s: string): (r: string)
    ensures !HasSeparator(s) ==> r == s
    ensures |r| <= |s|
    ensures Settled(r)
    ensures HasSeparator(s) && |r| > 0 ==> !IsAsciiUpper(r[0])
  {
    if !HasSeparator(s) then
      s
    else
      ReplaceRunsSettled(s);
      LowerFirstSettled(ReplaceRuns(s));
      LowerFirst(ReplaceRuns(s))
  }

  /** The keys whose string values are also converted (`operationId`, `name`). */
  const TransformableKeys: seq<string> := ["operationId", "name"]

  /** `shouldTransformStringValue`: membership in the allow-list. */
  function ShouldTransformStringValue(key: string): (b: bool)
    ensures b <==> key == "operationId" || key == "name"
  {
    key in TransformableKeys
  }

  // ---------------------------------------------------------------------------
  // Properties of the scan

  /** A string with no separator passes through the scan untouched. */
  lemma {:induction false} ReplaceRunsNoSeparator(s: string)
    requires !HasSeparator(s)
    ensures ReplaceRuns(s) == s
    decreases |s|
  {
    if s != [] {
      assert !IsSeparator(s[0]);
      assert !HasSeparator(s[1..]) by {
        forall i | 0 <= i < |s[1..]| ensures !IsSeparator(s[1..][i]) {
          assert s[1..][i] == s[i + 1];
        }
      }
      ReplaceRunsNoSeparator(s[1..]);
    }
  }

  /** The first step only looks at characters before a split point that is not inside a separator run. */
  lemma StepPrefix(a: string, b: string)
    requires a != [] && !IsSeparator(a[|a| - 1])
    ensures Step(a + b) == Step(a)
  {
    assert (a + b)[0] == a[0];
    if IsSeparator(a[0]) {
      assert |a| >= 2 && (a + b)[1] == a[1];
    }
  }

  /** The scan distributes over a split point that is not inside a separator run. */
  lemma {:induction false} ReplaceRunsAppend(a: string, b: string)
    requires a == [] || !IsSeparator(a[|a| - 1])
    ensures ReplaceRuns(a + b) == ReplaceRuns(a) + ReplaceRuns(b)
    decreases |a|
  {
    if a == [] {
      assert a + b == b;
    } else {
      StepPrefix(a, b);
      var (e, d) := Step(a);
      assert (a + b)[d..] == a[d..] + b;
      ReplaceRunsAppend(a[d..], b);
      assert e + (ReplaceRuns(a[d..]) + ReplaceRuns(b)) == e + ReplaceRuns(a[d..]) + ReplaceRuns(b);
    }
  }

  /**
   A non-empty separator run followed by a character that `.` matches is
   deleted, and that character is upper-cased.
   */
  lemma {:induction false} RunRewritten(run: string, c: char, rest: string)
    requires |run| > 0 && forall i :: 0 <= i < |run| ==> IsSeparator(run[i])
    requires !IsSeparator(c) && !IsLineTerminator(c)
    ensures ReplaceRuns(run + [c] + rest) == [ToUpper(c)] + ReplaceRuns(rest)
    decreases |run|
  {
    var s := run + [c] + rest;
    assert s[0] == run[0];
    if |run| == 1 {
      assert s[1] == c && s[2..] == rest;
    } else {
      assert s[1] == run[1];
      assert s[1..] == run[1..] + [c] + rest;
      RunRewritten(run[1..], c, rest);
    }
  }

  /**
   A non-empty separator run at the end of the string, or before a line
   terminator, shrinks to its last separator.
   */
  lemma {:induction false} RunKeepsLast(run: string, rest: string)
    requires |run| > 0 && forall i :: 0 <= i < |run| ==> IsSeparator(run[i])
    requires rest == [] || IsLineTerminator(rest[0])
    ensures ReplaceRuns(run + rest) == [run[|run| - 1]] + ReplaceRuns(rest)
    decreases |run|
  {
    var s := run + rest;
    assert s[0] == run[0];
    assert s[1..] == run[1..] + rest;
    if |run| == 1 {
      assert s[1..] == rest;
      assert |s| >= 2 ==> s[1] == rest[0];
    } else {
      assert s[1] == run[1];
      RunKeepsLast(run[1..], rest);
    }
  }

  /** The scan leaves no separator that it would act on a second time. */
  lemma {:induction false} ReplaceRunsSettled(s: string)
    ensures Settled(ReplaceRuns(s))
    ensures s != [] && !IsSeparator(s[0]) ==> ReplaceRuns(s)[0] == s[0]
    decreases |s|
  {
    if s != [] {
      var (e, d) := Step(s);
      ReplaceRunsSettled(s[d..]);
      var t := ReplaceRuns(s[d..]);
      assert ReplaceRuns(s) == e + t;
      if e != [] && IsSeparator(e[0]) {
        // the run's last separator stays only before the end or a line terminator
        assert d == 1 && (|s| == 1 || IsLineTerminator(s[1]));
        assert |s| >= 2 ==> t[0] == s[1];
      }
    }
  }

  /** Lowering the first character keeps a settled string settled. */
  lemma LowerFirstSettled(t: string)
    requires Settled(t)
    ensures Settled(LowerFirst(t))
  {
    var r := LowerFirst(t);
    forall i | 0 <= i < |r| && IsSeparator(r[i]) ensures i + 1 == |r| || IsLineTerminator(r[i + 1]) {
      assert IsSeparator(t[i]);
    }
  }

  /** A settled string is a fixed point of the scan. */
  lemma {:induction false} SettledFixpoint(t: string)
    requires Settled(t)
    ensures ReplaceRuns(t) == t
    decreases |t|
  {
    if t != [] {
      assert Settled(t[1..]) by {
        forall i | 0 <= i < |t[1..]| && IsSeparator(t[1..][i])
          ensures i + 1 == |t[1..]| || IsLineTerminator(t[1..][i + 1])
        {
          assert t[1..][i] == t[i + 1];
        }
      }
      assert Step(t) == ([t[0]], 1);
      SettledFixpoint(t[1..]);
    }
  }

  /** Converting an already converted string changes nothing. */
  lemma ToCamelCaseIdempotent(s: string)
    ensures ToCamelCase(ToCamelCase(s)) == ToCamelCase(s)
  {
    var r := ToCamelCase(s);
    if HasSeparator(r) {
      SettledFixpoint(r);
    }
  }

  /** A prefix without separators is copied verbatim. */
  lemma WordCopied(w: string, t: string)
    requires !HasSeparator(w)
    ensures ReplaceRuns(w + t) == w + ReplaceRuns(t)
  {
    if w == [] {
      assert w + t == t;
    } else {
      assert !IsSeparator(w[|w| - 1]);
      ReplaceRunsAppend(w, t);
      ReplaceRunsNoSeparator(w);
    }
  }

  /** A word, a separator run and a matchable character: the run goes, the character is capitalised. */
  lemma WordThenRun(w: string, run: string, c: char, rest: string)
    requires !HasSeparator(w)
    requires |run| > 0 && forall i :: 0 <= i < |run| ==> IsSeparator(run[i])
    requires !IsSeparator(c) && !IsLineTerminator(c)
    ensures ReplaceRuns(w + run + [c] + rest) == w + [ToUpper(c)] + ReplaceRuns(rest)
  {
    var tail := run + [c] + rest;
    var r := ReplaceRuns(rest);
    assert w + run + [c] + rest == w + tail;
    WordCopied(w, tail);
    RunRewritten(run, c, rest);
    assert w + ([ToUpper(c)] + r) == w + [ToUpper(c)] + r;
  }

  /** A string whose one separator is followed by a matchable character loses the separator and capitalises that character. */
  lemma SingleSeparator(s: string, k: nat)
    requires k + 1 < |s| && IsSeparator(s[k])
    requires !IsSeparator(s[k + 1]) && !IsLineTerminator(s[k + 1])
    requires !HasSeparator(s[..k]) && !HasSeparator(s[k + 2..])
    ensures ReplaceRuns(s) == s[..k] + [ToUpper(s[k + 1])] + s[k + 2..]
  {
    assert s == s[..k] + s[k..k + 1] + [s[k + 1]] + s[k + 2..];
    WordThenRun(s[..k], s[k..k + 1], s[k + 1], s[k + 2..]);
    ReplaceRunsNoSeparator(s[k + 2..]);
  }

  // ---------------------------------------------------------------------------
  // Words joined by separators

  /** A word boundary of snake_case or kebab-case: a run of separators, then the next word. */
  datatype Segment = Segment(run: string, word: string)

  /**
   The run is non-empty and all separators; the word holds no separator and
   starts with a character that `.` matches.
   */
  predicate ValidSegment(g: Segment) {
    && |g.run| > 0
    && (forall i :: 0 <= i < |g.run| ==> IsSeparator(g.run[i]))
    && g.word != []
    && !IsLineTerminator(g.word[0])
    && !HasSeparator(g.word)
  }

  /** The runs and words of the segments, concatenated: `first + Joined(segs)` is the whole name. */
  function Joined(segs: seq<Segment>): string {
    if segs == [] then [] else segs[0].run + segs[0].word + Joined(segs[1..])
  }

  /** A word with its first character upper-cased. */
  function Capitalize(w: string): (r: string)
    ensures |r| == |w|
  {
    if w == [] then [] else [ToUpper(w[0])] + w[1..]
  }

  /** The words of the segments, capitalised and concatenated. */
  function Capitalized(segs: seq<Segment>): string {
    if segs == [] then [] else Capitalize(segs[0].word) + Capitalized(segs[1..])
  }

  /** The scan drops every run and capitalises the word after it. */
  lemma {:induction false} ReplaceRunsJoined(first: string, segs: seq<Segment>)
    requires !HasSeparator(first)
    requires forall i :: 0 <= i < |segs| ==> ValidSegment(segs[i])
    ensures ReplaceRuns(first + Joined(segs)) == first + Capitalized(segs)
    decreases |segs|
  {
    if segs == [] {
      ReplaceRunsNoSeparator(first);
      assert first + [] == first;
    } else {
      var g := segs[0];
      assert ValidSegment(g);
      var c, w := g.word[0], g.word[1..];
      var rest := Joined(segs[1..]);
      calc {
        ReplaceRuns(first + Joined(segs));
        { SegmentSplit(first, g, rest); }
        ReplaceRuns(first + g.run + [c] + (w + rest));
        { WordThenRun(first, g.run, c, w + rest); }
        first + [ToUpper(c)] + ReplaceRuns(w + rest);
        { SuffixNoSeparator(g.word);
          ReplaceRunsJoined(w, segs[1..]); }
        first + [ToUpper(c)] + (w + Capitalized(segs[1..]));
        { CapitalizedCons(first, segs); }
        first + Capitalized(segs);
      }
    }
  }

  /** Capitalising the first segment's word, with the concatenations regrouped. */
  lemma CapitalizedCons(first: string, segs: seq<Segment>)
    requires segs != [] && segs[0].word != []
    ensures first + Capitalized(segs)
         == first + [ToUpper(segs[0].word[0])] + (segs[0].word[1..] + Capitalized(segs[1..]))
  {
    var cs := Capitalized(segs[1..]);
    var x, w := [ToUpper(segs[0].word[0])], segs[0].word[1..];
    assert Capitalize(segs[0].word) == x + w;
    assert Capitalized(segs) == (x + w) + cs;
    Regroup(first, x, w, cs);
  }

  /** Concatenation regrouped. */
  lemma Regroup(a: string, x: string, w: string, cs: string)
    ensures a + ((x + w) + cs) == a + x + (w + cs)
  {
  }

  /** Dropping the first character of a word keeps it free of separators. */
  lemma SuffixNoSeparator(w: string)
    requires w != [] && !HasSeparator(w)
    ensures !HasSeparator(w[1..])
  {
    forall j | 0 <= j < |w| - 1 ensures !IsSeparator(w[1..][j]) {
      assert w[1..][j] == w[j + 1];
    }
  }

  /** The first character of a segment's word, split off and regrouped. */
  lemma SegmentSplit(first: string, g: Segment, rest: string)
    requires g.word != []
    ensures first + (g.run + g.word + rest) == first + g.run + [g.word[0]] + (g.word[1..] + rest)
  {
    assert g.word == [g.word[0]] + g.word[1..];
  }

  /** A name with at least one segment holds a separator. */
  lemma JoinedHasSeparator(first: string, segs: seq<Segment>)
    requires segs != [] && ValidSegment(segs[0])
    ensures HasSeparator(first + Joined(segs))
  {
    var s := first + Joined(segs);
    assert s[|first|] == segs[0].run[0];
  }

  /**
   snake_case and kebab-case become camelCase: when there is at least one
   separator run, every run disappears, the word after it is capitalised and
   a leading ASCII capital is lowered. A run of any length counts as one
   boundary.
   */
  lemma JoinedWordsCamelCase(first: string, segs: seq<Segment>)
    requires !HasSeparator(first) && segs != []
    requires forall i :: 0 <= i < |segs| ==> ValidSegment(segs[i])
    ensures ToCamelCase(first + Joined(segs)) == LowerFirst(first + Capitalized(segs))
  {
    JoinedHasSeparator(first, segs);
    ReplaceRunsJoined(first, segs);
  }

  // ---------------------------------------------------------------------------
  // Concrete conversions. Each input is a parameter fixed by the precondition,
  // and the proofs work on slices of it, which keeps the verifier from
  // evaluating the literals eagerly.

  /** A string without separators, whatever its capitals, is returned as it is. */
  lemma NoSeparatorExamples(camel: string, capital: string, schema: string, media: string)
    requires camel == "userName" && capital == "Ab" && schema == "$schema" && media == "application/json"
    ensures ToCamelCase(camel) == "userName"
    ensures ToCamelCase(capital) == "Ab"
    ensures ToCamelCase(schema) == "$schema"
    ensures ToCamelCase(media) == "application/json"
  {
  }

  /** snake_case input: the underscore goes and the next letter is capitalised. */
  lemma SnakeCaseExample(s: string)
    requires s == "user_name"
    ensures ToCamelCase(s) == "userName"
  {
    SingleSeparator(s, 4);
  }

  /** The second snake_case name of the tests' `required` list. */
  lemma SnakeCaseAgeExample(s: string)
    requires s == "user_age"
    ensures ToCamelCase(s) == "userAge"
  {
    SingleSeparator(s, 4);
  }

  /** kebab-case input: the hyphen goes and the next letter is capitalised. */
  lemma KebabCaseExample(s: string)
    requires s == "user-age"
    ensures ToCamelCase(s) == "userAge"
  {
    SingleSeparator(s, 4);
  }

  /** `API_KEY` becomes `aPIKEY`, not the documented `apiKey`: only the first character is lowered. */
  lemma UpperSnakeExample(s: string)
    requires s == "API_KEY"
    ensures ToCamelCase(s) == "aPIKEY"
  {
    SingleSeparator(s, 3);
    assert ToUpper(s[4]) == 'K';
    assert ReplaceRuns(s) == "APIKEY";
    assert ToLower('A') == 'a';
  }

  /** With a separator present, a leading capital is lowered. */
  lemma LeadingCapitalExample(s: string)
    requires s == "A_b"
    ensures ToCamelCase(s) == "aB"
  {
    SingleSeparator(s, 1);
    assert ToUpper(s[2]) == 'B';
    assert ToLower('A') == 'a';
  }

  /** A leading separator goes; the capital it produces is lowered again. */
  lemma LeadingSeparatorExample(s: string)
    requires s == "-name"
    ensures ToCamelCase(s) == "name"
  {
    SingleSeparator(s, 0);
    assert ToUpper(s[1]) == 'N';
    assert ToLower('N') == 'n';
  }

  /** Separators inside a path template are rewritten like any other. */
  lemma PathTemplateExample(s: string)
    requires s == "/users/{user_id}"
    ensures ToCamelCase(s) == "/users/{userId}"
  {
    SingleSeparator(s, 12);
  }

  /** A trailing run of two separators shrinks to one; a single trailing separator stays. */
  lemma TrailingSeparatorExamples(two: string, one: string)
    requires two == "a__" && one == "a_"
    ensures ToCamelCase(two) == "a_"
    ensures ToCamelCase(one) == "a_"
  {
    assert IsSeparator(two[1]) && IsSeparator(one[1]);
    assert two == two[..1] + (two[1..] + []);
    WordCopied(two[..1], two[1..] + []);
    RunKeepsLast(two[1..], []);
    assert one == one[..1] + (one[1..] + []);
    WordCopied(one[..1], one[1..] + []);
    RunKeepsLast(one[1..], []);
  }
}
