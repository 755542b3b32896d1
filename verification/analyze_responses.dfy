/** The response-analysis endpoint: it renders a response's answers into a
    prompt, asks a chat-completion service for three sections (traits,
    growth opportunities, manager support), cleans each section of
    markdown, and falls back to fixed sentences when anything fails. The
    service call and the extraction of the three sections from its reply
    are inputs. */
module AnalyzeResponses {
  import opened Basics
  import opened Text

  // ------------------------------------------------------------ cleaning

  /** The characters the first replacement deletes: `*`, `#`, a backquote,
      a backslash, and square and curly brackets. */
  predicate IsMarkdownChar(c: char) {
    c == '*' || c == '#' || c == '`' || c == '\\' || c == '[' || c == ']' || c == '{' || c == '}'
  }

  predicate NotMarkdown(c: char) {
    !IsMarkdownChar(c)
  }

  /** `replace(/\*\*?|##?|`|\\|\[|\]|\{|\}/g, '')`: every markdown
      character goes, whether alone or doubled. */
  function RemoveMarkdown(s: string): (r: string)
    ensures forall i | 0 <= i < |r| :: !IsMarkdownChar(r[i])
    ensures IsSubsequence(r, s)
  {
    FilterSubsequence(s, NotMarkdown);
    Filter(s, NotMarkdown)
  }

  /** Removing markdown drops every markdown character and keeps every
      other character as often as it occurs. */
  lemma RemoveMarkdownCounts(s: string)
    ensures forall c :: multiset(RemoveMarkdown(s))[c] == if IsMarkdownChar(c) then 0 else multiset(s)[c]
  {
    FilterCount(s, NotMarkdown);
  }

  /** The list-marker class as written, `[-â€¢*+]`: the bullet `•` read
      with the wrong encoding turns into the three characters â, € and ¢. */
  predicate IsMarkerAsWritten(c: char) {
    c == '-' || c == 'â' || c == '€' || c == '¢' || c == '*' || c == '+'
  }

  /** The list-marker class as intended, `[-•*+]`. */
  predicate IsMarker(c: char) {
    c == '-' || c == '•' || c == '*' || c == '+'
  }

  /** Where `^` matches in multi-line mode: at the start, or after a line
      terminator. */
  predicate LineStart(s: string, i: int)
    requires 0 <= i <= |s|
  {
    i == 0 || IsLineTerminator(s[i - 1])
  }

  /** The end of the run of white space starting at `j`. */
  function SkipWhitespace(s: string, j: nat): (k: nat)
    requires j <= |s|
    ensures j <= k <= |s|
    ensures forall m | j <= m < k :: IsWhitespace(s[m])
    ensures k < |s| ==> !IsWhitespace(s[k])
    decreases |s| - j
  {
    if j < |s| && IsWhitespace(s[j]) then SkipWhitespace(s, j + 1) else j
  }

  /** The multi-line replacement of a marker at the start of a line, and
      the white space after it, by nothing, on `s[i..]`: the white space
      may include line breaks, and the scan goes on where the match ended. */
  function StripFrom(s: string, i: nat, marker: char -> bool): (r: string)
    requires i <= |s|
    ensures forall x :: x in r ==> x in s[i..]
    decreases |s| - i
  {
    if i == |s| then ""
    else if LineStart(s, i) && marker(s[i]) then
      var k := SkipWhitespace(s, i + 1);
      var r := StripFrom(s, k, marker);
      assert forall x :: x in s[k..] ==> x in s[i..] by {
        forall x | x in s[k..]
          ensures x in s[i..]
        {
          var m :| 0 <= m < |s[k..]| && s[k..][m] == x;
          assert s[i..][m + k - i] == x;
        }
      }
      r
    else
      var r := StripFrom(s, i + 1, marker);
      assert s[i..] == [s[i]] + s[i + 1..];
      [s[i]] + r
  }

  /** The markers at line starts, with the white space after them, removed
      from `s`: the rest is kept in order, and every other character as
      often as it occurs. */
  function StripMarkers(s: string, marker: char -> bool): (r: string)
    ensures forall x :: x in r ==> x in s
    ensures IsSubsequence(r, s)
    ensures forall c :: !marker(c) && !IsWhitespace(c) ==> multiset(r)[c] == multiset(s)[c]
  {
    assert s[0..] == s;
    StripSubsequence(s, 0, marker);
    forall c | !marker(c) && !IsWhitespace(c)
      ensures multiset(StripFrom(s, 0, marker))[c] == multiset(s)[c]
    {
      StripKeepsText(s, 0, marker, c);
    }
    StripFrom(s, 0, marker)
  }

  /** Stripping removes only markers and white space: every other
      character is kept as often as it occurs. */
  lemma {:induction false} StripKeepsText(s: string, i: nat, marker: char -> bool, c: char)
    requires i <= |s|
    requires !marker(c) && !IsWhitespace(c)
    ensures multiset(StripFrom(s, i, marker))[c] == multiset(s[i..])[c]
    decreases |s| - i
  {
    if i < |s| {
      if LineStart(s, i) && marker(s[i]) {
        var k := SkipWhitespace(s, i + 1);
        StripKeepsText(s, k, marker, c);
        StripMarkerCount(s, i, marker, c);
      } else {
        StripKeepsText(s, i + 1, marker, c);
        StripOtherCount(s, i, marker, c);
      }
    }
  }

  /** Stripping only deletes: what is left is a subsequence of the input. */
  lemma {:induction false} StripSubsequence(s: string, i: nat, marker: char -> bool)
    requires i <= |s|
    ensures IsSubsequence(StripFrom(s, i, marker), s[i..])
    decreases |s| - i
  {
    if i < |s| {
      if LineStart(s, i) && marker(s[i]) {
        var k := SkipWhitespace(s, i + 1);
        StripSubsequence(s, k, marker);
        assert s[i..][k - i..] == s[k..];
        SubsequenceOfSuffix(StripFrom(s, k, marker), s[i..], k - i);
      } else {
        var r := StripFrom(s, i + 1, marker);
        StripSubsequence(s, i + 1, marker);
        assert ([s[i]] + r)[1..] == r && s[i..][1..] == s[i + 1..];
      }
    }
  }

  /** Stripping keeps, in order, every character that is neither a marker
      nor white space. */
  lemma {:induction false} StripOrder(s: string, i: nat, marker: char -> bool)
    requires i <= |s|
    ensures Filter(StripFrom(s, i, marker), KeptBy(marker)) == Filter(s[i..], KeptBy(marker))
    decreases |s| - i
  {
    if i < |s| {
      if LineStart(s, i) && marker(s[i]) {
        StripOrder(s, SkipWhitespace(s, i + 1), marker);
        MarkerFiltersOut(s, i, SkipWhitespace(s, i + 1), marker);
      } else {
        StripOrder(s, i + 1, marker);
        FilterCons(s[i], StripFrom(s, i + 1, marker), KeptBy(marker));
        FilterCons(s[i], s[i + 1..], KeptBy(marker));
        assert s[i..] == [s[i]] + s[i + 1..];
      }
    }
  }

  /** A marker and the white space after it hold no character cleaning keeps. */
  lemma MarkerFiltersOut(s: string, i: nat, k: nat, marker: char -> bool)
    requires i < k <= |s| && marker(s[i])
    requires forall m | i + 1 <= m < k :: IsWhitespace(s[m])
    ensures Filter(s[i..], KeptBy(marker)) == Filter(s[k..], KeptBy(marker))
  {
    assert forall m | 0 <= m < k - i :: s[i..][m] == s[i + m];
    FilterSkipsPrefix(s[i..], k - i, KeptBy(marker));
    assert s[i..][k - i..] == s[k..];
  }

  /** At a marker, the count of `c` is the count after the skipped white space. */
  lemma StripMarkerCount(s: string, i: nat, marker: char -> bool, c: char)
    requires i < |s| && LineStart(s, i) && marker(s[i])
    requires !marker(c) && !IsWhitespace(c)
    ensures multiset(StripFrom(s, i, marker))[c] == multiset(StripFrom(s, SkipWhitespace(s, i + 1), marker))[c]
    ensures multiset(s[i..])[c] == multiset(s[SkipWhitespace(s, i + 1)..])[c]
  {
    MarkerSkipped(s, i, SkipWhitespace(s, i + 1), c);
  }

  lemma MarkerSkipped(s: string, i: nat, k: nat, c: char)
    requires i < k <= |s| && c != s[i] && !IsWhitespace(c)
    requires forall m | i + 1 <= m < k :: IsWhitespace(s[m])
    ensures multiset(s[i..])[c] == multiset(s[k..])[c]
  {
    SkippedHasNo(s, i + 1, k, c);
    assert s[i..] == [s[i]] + (s[i + 1..k] + s[k..]);
    CountConcat([s[i]], s[i + 1..k] + s[k..], c);
    CountConcat(s[i + 1..k], s[k..], c);
  }

  /** Elsewhere, the character is kept. */
  lemma StripOtherCount(s: string, i: nat, marker: char -> bool, c: char)
    requires i < |s| && !(LineStart(s, i) && marker(s[i]))
    ensures multiset(StripFrom(s, i, marker))[c] == multiset([s[i]])[c] + multiset(StripFrom(s, i + 1, marker))[c]
    ensures multiset(s[i..])[c] == multiset([s[i]])[c] + multiset(s[i + 1..])[c]
  {
    assert s[i..] == [s[i]] + s[i + 1..];
    CountConcat([s[i]], StripFrom(s, i + 1, marker), c);
    CountConcat([s[i]], s[i + 1..], c);
  }

  lemma CountConcat(a: string, b: string, c: char)
    ensures multiset(a + b)[c] == multiset(a)[c] + multiset(b)[c]
  {
  }

  lemma SkippedHasNo(s: string, j: nat, k: nat, c: char)
    requires j <= k <= |s|
    requires forall m | j <= m < k :: IsWhitespace(s[m])
    requires !IsWhitespace(c)
    ensures multiset(s[j..k])[c] == 0
  {
    forall m | 0 <= m < |s[j..k]|
      ensures s[j..k][m] != c
    {
      assert s[j..k][m] == s[j + m];
    }
    assert c !in s[j..k];
  }

  /** A line that starts with a marker loses it and the white space after
      it. */
  lemma StripLeadingMarker(marker: char -> bool, m: char, rest: string)
    requires marker(m) && !IsLineTerminator(m)
    requires |rest| > 0 && !IsWhitespace(rest[0])
    requires forall i | 0 <= i < |rest| :: !IsLineTerminator(rest[i])
    ensures StripMarkers([m, ' '] + rest, marker) == rest
  {
    var s := [m, ' '] + rest;
    assert SkipWhitespace(s, 1) == 2 by {
      assert s[2] == rest[0];
    }
    assert s[2..] == rest;
    StripPlainTail(s, 2, marker);
  }

  /** Past the first character, a text without line breaks is left alone. */
  lemma {:induction false} StripPlainTail(s: string, i: nat, marker: char -> bool)
    requires 0 < i <= |s|
    requires forall m | 0 <= m < |s| :: !IsLineTerminator(s[m])
    ensures StripFrom(s, i, marker) == s[i..]
    decreases |s| - i
  {
    if i < |s| {
      StripPlainTail(s, i + 1, marker);
      assert s[i..] == [s[i]] + s[i + 1..];
    }
  }

  /** `replace(/[class]+/g, ' ')`: each maximal run of characters of the
      class becomes one space, and every other character is kept. When the
      space is not in the class, no character of the class is left. */
  function CollapseRuns(s: string, inClass: char -> bool): (r: string)
    ensures forall x :: x in r ==> x in s || x == ' '
    ensures forall i | 0 <= i < |r| && inClass(r[i]) ::
      r[i] == ' ' && (i + 1 < |r| ==> !inClass(r[i + 1]))
    ensures |s| > 0 && !inClass(s[0]) ==> |r| > 0 && r[0] == s[0]
    ensures |s| > 0 && inClass(s[0]) ==> |r| > 0 && r[0] == ' '
    decreases |s|
  {
    if |s| == 0 then ""
    else if inClass(s[0]) then
      var k := RunEnd(s, inClass);
      var r := " " + CollapseRuns(s[k..], inClass);
      assert forall x :: x in s[k..] ==> x in s by {
        forall x | x in s[k..]
          ensures x in s
        {
          var m :| 0 <= m < |s[k..]| && s[k..][m] == x;
          assert s[m + k] == x;
        }
      }
      r
    else
      var r := [s[0]] + CollapseRuns(s[1..], inClass);
      assert forall x :: x in s[1..] ==> x in s;
      r
  }

  /** The characters a collapse keeps as they are: those outside the class,
      other than the space it writes. */
  function Other(inClass: char -> bool): char -> bool {
    (x: char) => !inClass(x) && x != ' '
  }

  /** Collapsing keeps, in order, every character outside the class other
      than the space: only runs of the class are rewritten. */
  lemma {:induction false} CollapseRunsOthers(s: string, inClass: char -> bool)
    ensures Filter(CollapseRuns(s, inClass), Other(inClass)) == Filter(s, Other(inClass))
    decreases |s|
  {
    if |s| > 0 {
      if inClass(s[0]) {
        var k := RunEnd(s, inClass);
        CollapseRunsOthers(s[k..], inClass);
        FilterSkipsPrefix(s, k, Other(inClass));
        FilterCons(' ', CollapseRuns(s[k..], inClass), Other(inClass));
      } else {
        CollapseRunsOthers(s[1..], inClass);
        FilterCons(s[0], CollapseRuns(s[1..], inClass), Other(inClass));
        FilterCons(s[0], s[1..], Other(inClass));
        assert [s[0]] + s[1..] == s;
      }
    }
  }

  /** Text with no character of the class is left as it is. */
  lemma {:induction false} CollapseRunsFree(s: string, inClass: char -> bool)
    requires forall i | 0 <= i < |s| :: !inClass(s[i])
    ensures CollapseRuns(s, inClass) == s
  {
    if |s| > 0 {
      CollapseRunsFree(s[1..], inClass);
      assert s == [s[0]] + s[1..];
    }
  }

  /** A run of the class, however long, becomes one space. */
  lemma CollapseRunsRun(s: string, inClass: char -> bool)
    requires |s| > 0 && forall i | 0 <= i < |s| :: inClass(s[i])
    ensures CollapseRuns(s, inClass) == " "
  {
    RunEndAll(s, inClass);
    assert s[|s|..] == "";
  }

  lemma {:induction false} RunEndAll(s: string, inClass: char -> bool)
    requires |s| > 0 && forall i | 0 <= i < |s| :: inClass(s[i])
    ensures RunEnd(s, inClass) == |s|
  {
    if |s| > 1 {
      RunEndAll(s[1..], inClass);
    }
  }

  /** A run that ends inside `a` ends at the same place in `a + b`; a run
      that fills `a` ends with it when `b` does not go on with the class. */
  lemma {:induction false} RunEndConcat(a: string, b: string, inClass: char -> bool)
    requires |a| > 0 && inClass(a[0])
    requires RunEnd(a, inClass) == |a| ==> |b| == 0 || !inClass(b[0])
    ensures RunEnd(a + b, inClass) == RunEnd(a, inClass)
  {
    var s := a + b;
    assert s[0] == a[0];
    if |a| > 1 {
      assert s[1] == a[1];
      if inClass(a[1]) {
        assert s[1..] == a[1..] + b;
        RunEndConcat(a[1..], b, inClass);
      }
    } else if |b| > 0 {
      assert s[1] == b[0];
    }
  }

  /** Collapsing splits over a boundary that is not inside a run: where `a`
      ends or `b` starts with a character outside the class. With
      `CollapseRunsFree` and `CollapseRunsRun` this fixes the result on
      every text. */
  lemma {:induction false} CollapseRunsConcat(a: string, b: string, inClass: char -> bool)
    requires (|a| > 0 && !inClass(a[|a| - 1])) || (|b| > 0 && !inClass(b[0]))
    ensures CollapseRuns(a + b, inClass) == CollapseRuns(a, inClass) + CollapseRuns(b, inClass)
    decreases |a|, 2
  {
    if |a| == 0 {
      assert a + b == b;
    } else if !inClass(a[0]) {
      ConcatOtherHead(a, b, inClass);
    } else {
      ConcatRunHead(a, b, inClass);
    }
  }

  lemma {:induction false} ConcatOtherHead(a: string, b: string, inClass: char -> bool)
    requires |a| > 0 && !inClass(a[0])
    requires !inClass(a[|a| - 1]) || (|b| > 0 && !inClass(b[0]))
    ensures CollapseRuns(a + b, inClass) == CollapseRuns(a, inClass) + CollapseRuns(b, inClass)
    decreases |a|, 1
  {
    var a' := a[1..];
    assert CollapseRuns(a + b, inClass) == [a[0]] + CollapseRuns(a' + b, inClass) by {
      var s := a + b;
      assert s[0] == a[0] && s[1..] == a' + b;
      UnfoldOther(s, inClass);
    }
    assert CollapseRuns(a, inClass) == [a[0]] + CollapseRuns(a', inClass) by {
      UnfoldOther(a, inClass);
    }
    assert CollapseRuns(a' + b, inClass) == CollapseRuns(a', inClass) + CollapseRuns(b, inClass) by {
      if |a| == 1 {
        assert a' + b == b && a' == "";
      } else {
        CollapseRunsConcat(a', b, inClass);
      }
    }
    AppendAssoc([a[0]], CollapseRuns(a', inClass), CollapseRuns(b, inClass));
  }

  lemma {:induction false} ConcatRunHead(a: string, b: string, inClass: char -> bool)
    requires |a| > 0 && inClass(a[0])
    requires !inClass(a[|a| - 1]) || (|b| > 0 && !inClass(b[0]))
    ensures CollapseRuns(a + b, inClass) == CollapseRuns(a, inClass) + CollapseRuns(b, inClass)
    decreases |a|, 1
  {
    var k := RunEnd(a, inClass);
    var t := a[k..];
    UnfoldRunConcat(a, b, inClass);
    assert CollapseRuns(a, inClass) == " " + CollapseRuns(t, inClass) by {
      UnfoldRun(a, inClass);
    }
    AfterRunConcat(a, b, inClass);
    AppendAssoc(" ", CollapseRuns(t, inClass), CollapseRuns(b, inClass));
  }

  /** A run at the head of `a` that `b` does not go on with is one space
      in front of the rest of `a + b`. */
  lemma UnfoldRunConcat(a: string, b: string, inClass: char -> bool)
    requires |a| > 0 && inClass(a[0])
    requires !inClass(a[|a| - 1]) || (|b| > 0 && !inClass(b[0]))
    ensures CollapseRuns(a + b, inClass) == " " + CollapseRuns(a[RunEnd(a, inClass)..] + b, inClass)
  {
    var s := a + b;
    var k := RunEnd(a, inClass);
    RunEndConcat(a, b, inClass);
    assert s[0] == a[0] && s[k..] == a[k..] + b;
    UnfoldRun(s, inClass);
  }

  lemma {:induction false} AfterRunConcat(a: string, b: string, inClass: char -> bool)
    requires |a| > 0 && inClass(a[0])
    requires !inClass(a[|a| - 1]) || (|b| > 0 && !inClass(b[0]))
    ensures var t := a[RunEnd(a, inClass)..];
      CollapseRuns(t + b, inClass) == CollapseRuns(t, inClass) + CollapseRuns(b, inClass)
    decreases |a|, 0
  {
    var t := a[RunEnd(a, inClass)..];
    if |t| == 0 {
      assert t + b == b;
    } else {
      assert t[|t| - 1] == a[|a| - 1];
      CollapseRunsConcat(t, b, inClass);
    }
  }

  lemma AppendAssoc(x: string, p: string, q: string)
    ensures x + (p + q) == (x + p) + q
  {
  }

  lemma UnfoldOther(s: string, inClass: char -> bool)
    requires |s| > 0 && !inClass(s[0])
    ensures CollapseRuns(s, inClass) == [s[0]] + CollapseRuns(s[1..], inClass)
  {
  }

  lemma UnfoldRun(s: string, inClass: char -> bool)
    requires |s| > 0 && inClass(s[0])
    ensures CollapseRuns(s, inClass) == " " + CollapseRuns(s[RunEnd(s, inClass)..], inClass)
  {
  }

  predicate IsNewline(c: char) {
    c == '\n'
  }

  /** `replace(/\n+/g, ' ')`: each run of line feeds becomes one space and
      every other character is kept; no line feed is left. */
  function CollapseNewlines(s: string): (r: string)
    ensures forall i | 0 <= i < |r| :: r[i] != '\n'
    ensures forall x :: x in r ==> x in s || x == ' '
  {
    var r := CollapseRuns(s, IsNewline);
    assert forall i | 0 <= i < |r| :: !IsNewline(r[i]);
    r
  }

  function RunEnd(s: string, inClass: char -> bool): (k: nat)
    requires |s| > 0 && inClass(s[0])
    ensures 1 <= k <= |s|
    ensures forall m | 0 <= m < k :: inClass(s[m])
    ensures k < |s| ==> !inClass(s[k])
  {
    if |s| > 1 && inClass(s[1]) then 1 + RunEnd(s[1..], inClass) else 1
  }

  /** Text whose only white space is single spaces between other characters. */
  predicate Collapsed(s: string) {
    forall i | 0 <= i < |s| && IsWhitespace(s[i]) :: s[i] == ' ' && (i + 1 < |s| ==> !IsWhitespace(s[i + 1]))
  }

  /** A character no stage of cleaning removes: not markdown, not a list
      marker, not white space. */
  predicate Kept(c: char, marker: char -> bool) {
    !IsMarkdownChar(c) && !marker(c) && !IsWhitespace(c)
  }

  function KeptBy(marker: char -> bool): char -> bool {
    (c: char) => Kept(c, marker)
  }

  /** `cleanText` with the given list-marker class: no markdown character,
      no line break, no doubled white space and none at either end, and
      every character that is not markdown, a marker or white space kept
      as often as it occurs. */
  function CleanWith(text: string, marker: char -> bool): (r: string)
    ensures forall i | 0 <= i < |r| :: !IsMarkdownChar(r[i])
    ensures Collapsed(r)
    ensures forall i | 0 <= i < |r| :: !IsLineTerminator(r[i])
    ensures |r| == 0 || (!IsWhitespace(r[0]) && !IsWhitespace(r[|r| - 1]))
    ensures forall c :: Kept(c, marker) ==> multiset(r)[c] == multiset(text)[c]
  {
    var d := Stages(text, marker);
    StagesClean(text, marker);
    TrimKeepsClean(d);
    CleanKeeps(text, marker);
    Trim(d)
  }

  /** The four replacements, before the final trim. */
  function Stages(text: string, marker: char -> bool): string {
    CollapseRuns(CollapseNewlines(StripMarkers(RemoveMarkdown(text), marker)), IsWhitespace)
  }

  lemma StagesClean(text: string, marker: char -> bool)
    ensures forall x :: x in Stages(text, marker) ==> !IsMarkdownChar(x)
    ensures Collapsed(Stages(text, marker))
  {
    var b := StripMarkers(RemoveMarkdown(text), marker);
    assert forall x :: x in b ==> !IsMarkdownChar(x);
  }

  lemma CleanKeeps(text: string, marker: char -> bool)
    ensures forall c :: Kept(c, marker) ==> multiset(Trim(Stages(text, marker)))[c] == multiset(text)[c]
  {
    forall c | Kept(c, marker)
      ensures multiset(Trim(Stages(text, marker)))[c] == multiset(text)[c]
    {
      StagesKeep(text, marker, c);
      TrimKeepsText(Stages(text, marker), c);
    }
  }

  /** Cleaning keeps, in their order, the characters that are neither
      markdown, a marker nor white space: it only deletes and rewrites
      white space. */
  lemma CleanWithOrder(text: string, marker: char -> bool)
    ensures Filter(CleanWith(text, marker), KeptBy(marker)) == Filter(text, KeptBy(marker))
  {
    var k := KeptBy(marker);
    var a := RemoveMarkdown(text);
    FilterOfFilter(text, k, NotMarkdown);
    var b := StripMarkers(a, marker);
    StripOrder(a, 0, marker);
    assert a[0..] == a;
    var c := CollapseNewlines(b);
    CollapseOrder(b, IsNewline, marker);
    CollapseOrder(c, IsWhitespace, marker);
    TrimKeepsOrder(Stages(text, marker), k);
  }

  /** A collapse keeps, in order, the characters cleaning keeps, when its
      class is white space. */
  lemma CollapseOrder(s: string, inClass: char -> bool, marker: char -> bool)
    requires forall x :: inClass(x) ==> IsWhitespace(x)
    ensures Filter(CollapseRuns(s, inClass), KeptBy(marker)) == Filter(s, KeptBy(marker))
  {
    var o := Other(inClass);
    CollapseRunsOthers(s, inClass);
    assert forall x :: KeptBy(marker)(x) ==> o(x) by {
      assert IsWhitespace(' ');
    }
    FilterOfFilter(CollapseRuns(s, inClass), KeptBy(marker), o);
    FilterOfFilter(s, KeptBy(marker), o);
  }

  /** Trimming keeps, in order, every character that is not white space. */
  lemma TrimKeepsOrder(s: string, p: char -> bool)
    requires forall x :: p(x) ==> !IsWhitespace(x)
    ensures Filter(Trim(s), p) == Filter(s, p)
  {
    var a, b :| TrimmedAt(s, Trim(s), a, b);
    FilterInsideSlice(s, a, b, p);
  }

  /** The stages before trimming keep every character cleaning keeps. */
  lemma StagesKeep(text: string, marker: char -> bool, c: char)
    requires Kept(c, marker)
    ensures multiset(Stages(text, marker))[c] == multiset(text)[c]
  {
    RemoveMarkdownCounts(text);
    var b := StripMarkers(RemoveMarkdown(text), marker);
    CollapseKeeps(b, IsNewline, c);
    CollapseKeeps(CollapseNewlines(b), IsWhitespace, c);
  }

  /** Collapsing keeps every character outside the class other than the
      space as often as it occurs. */
  lemma CollapseKeeps(s: string, inClass: char -> bool, c: char)
    requires !inClass(c) && c != ' '
    ensures multiset(CollapseRuns(s, inClass))[c] == multiset(s)[c]
  {
    var r := CollapseRuns(s, inClass);
    CollapseRunsOthers(s, inClass);
    FilterCount(r, Other(inClass));
    FilterCount(s, Other(inClass));
    assert Other(inClass)(c);
  }

  /** Trimming collapsed text without markdown keeps it so, and leaves no
      line break. */
  lemma TrimKeepsClean(d: string)
    requires forall x :: x in d ==> !IsMarkdownChar(x)
    requires Collapsed(d)
    ensures var r := Trim(d);
      && (forall i | 0 <= i < |r| :: !IsMarkdownChar(r[i]))
      && Collapsed(r)
      && (forall i | 0 <= i < |r| :: !IsLineTerminator(r[i]))
  {
    var lo, hi :| TrimmedAt(d, Trim(d), lo, hi);
    forall i | 0 <= i < hi - lo
      ensures !IsMarkdownChar(d[lo..hi][i]) && !IsLineTerminator(d[lo..hi][i])
      ensures IsWhitespace(d[lo..hi][i]) ==> d[lo..hi][i] == ' ' && (i + 1 < hi - lo ==> !IsWhitespace(d[lo..hi][i + 1]))
    {
      SliceCharClean(d, lo, hi, i);
    }
  }

  /** One character of a slice of collapsed text without markdown, away
      from the slice's last character. */
  lemma SliceCharClean(d: string, lo: int, hi: int, i: int)
    requires forall x :: x in d ==> !IsMarkdownChar(x)
    requires Collapsed(d)
    requires 0 <= lo <= hi <= |d| && 0 <= i < hi - lo
    ensures !IsMarkdownChar(d[lo..hi][i]) && !IsLineTerminator(d[lo..hi][i])
    ensures IsWhitespace(d[lo..hi][i]) ==> d[lo..hi][i] == ' ' && (i + 1 < hi - lo ==> !IsWhitespace(d[lo..hi][i + 1]))
  {
    var r := d[lo..hi];
    assert r[i] == d[lo + i];
    assert r[i] in d;
    if IsLineTerminator(r[i]) {
      LineTerminatorIsWhitespace(r[i]);
    }
    if i + 1 < |r| {
      assert r[i + 1] == d[lo + i + 1];
    }
  }

  /** `cleanText` as written, with the mis-encoded marker class: the same
      guarantees as below, but a bullet `•` is kept as text. */
  function CleanTextAsWritten(text: string): (r: string)
    ensures forall i | 0 <= i < |r| :: !IsMarkdownChar(r[i])
    ensures Collapsed(r)
    ensures forall i | 0 <= i < |r| :: !IsLineTerminator(r[i])
    ensures |r| == 0 || (!IsWhitespace(r[0]) && !IsWhitespace(r[|r| - 1]))
    ensures forall c :: Kept(c, IsMarkerAsWritten) ==> multiset(r)[c] == multiset(text)[c]
    ensures multiset(r)['•'] == multiset(text)['•']
  {
    assert Kept('•', IsMarkerAsWritten);
    CleanWith(text, IsMarkerAsWritten)
  }

  /** `cleanText` with the intended marker class: no markdown character, no
      line break, no doubled white space and none at either end. */
  function CleanText(text: string): (r: string)
    ensures forall i | 0 <= i < |r| :: !IsMarkdownChar(r[i])
    ensures Collapsed(r)
    ensures forall i | 0 <= i < |r| :: !IsLineTerminator(r[i])
    ensures |r| == 0 || (!IsWhitespace(r[0]) && !IsWhitespace(r[|r| - 1]))
    ensures forall c :: Kept(c, IsMarker) ==> multiset(r)[c] == multiset(text)[c]
  {
    CleanWith(text, IsMarker)
  }

  /** `cleanText` as written keeps the characters it does not strip in
      their order. */
  lemma CleanTextAsWrittenOrder(text: string)
    ensures Filter(CleanTextAsWritten(text), KeptBy(IsMarkerAsWritten)) == Filter(text, KeptBy(IsMarkerAsWritten))
  {
    CleanWithOrder(text, IsMarkerAsWritten);
  }

  /** `cleanText` with the intended class keeps the characters it does not
      strip in their order. */
  lemma CleanTextOrder(text: string)
    ensures Filter(CleanText(text), KeptBy(IsMarker)) == Filter(text, KeptBy(IsMarker))
  {
    CleanWithOrder(text, IsMarker);
  }

  /** A bulleted line "• Great team" keeps its bullet when cleaned as
      written, and loses it when cleaned as intended. */
  lemma BulletWitness()
    ensures StripMarkers("• Great team", IsMarkerAsWritten) == "• Great team"
    ensures StripMarkers("• Great team", IsMarker) == "Great team"
  {
    BulletKeptAsWritten();
    BulletStripped();
  }

  lemma BulletStripped()
    ensures StripMarkers("• Great team", IsMarker) == "Great team"
  {
    var rest := "Great team";
    var bullet := "• Great team";
    NoLineBreaks(bullet);
    assert bullet == ['•', ' '] + rest;
    forall m | 0 <= m < |rest|
      ensures !IsLineTerminator(rest[m])
    {
      assert rest[m] == bullet[m + 2];
    }
    assert !IsWhitespace(rest[0]);
    StripLeadingMarker(IsMarker, '•', rest);
  }

  lemma BulletKeptAsWritten()
    ensures StripMarkers("• Great team", IsMarkerAsWritten) == "• Great team"
  {
    var bullet := "• Great team";
    assert !IsMarkerAsWritten(bullet[0]);
    NoLineBreaks(bullet);
    StripPlainTail(bullet, 1, IsMarkerAsWritten);
    assert bullet == [bullet[0]] + bullet[1..];
  }

  /** As written, a line opening with a price in euros loses its currency
      sign. */
  lemma EuroWitness()
    ensures StripMarkers("€5 bonus", IsMarkerAsWritten) == "5 bonus"
  {
    var euro := "€5 bonus";
    assert euro[1..] == "5 bonus";
    assert SkipWhitespace(euro, 1) == 1 by {
      assert !IsWhitespace(euro[1]);
    }
    NoLineBreaks(euro);
    StripPlainTail(euro, 1, IsMarkerAsWritten);
  }

  lemma NoLineBreaks(s: string)
    requires s == "• Great team" || s == "€5 bonus"
    ensures forall m | 0 <= m < |s| :: !IsLineTerminator(s[m])
  {
    forall m | 0 <= m < |s|
      ensures !IsLineTerminator(s[m])
    {
      assert s[m] == ' ' || s[m] == '•' || s[m] == '€' || ('0' <= s[m] <= 'z');
    }
  }

  // ----------------------------------------------------------- validation

  /** A section is meaningful when it is non-empty, does not contain
      "Unable to" (as every fallback sentence does) and is at least ten
      UTF-16 code units long. */
  predicate Meaningful(section: string) {
    section != "" && !Contains(section, "Unable to") && Utf16Length(section) >= 10
  }

  /** `hasValidContent`: every section is meaningful. */
  predicate HasValidContent(sections: seq<string>) {
    forall i | 0 <= i < |sections| :: Meaningful(sections[i])
  }

  /** The words of the three fallback sentences. */
  const TraitsWords := ["Unable", "to", "analyze", "traits", "at", "this", "time."]
  const GrowthWords := ["Unable", "to", "analyze", "growth", "opportunities", "at", "this", "time."]
  const SupportWords := ["Unable", "to", "provide", "manager", "support", "recommendations", "at", "this", "time."]

  const TraitsFallback := Unwords(TraitsWords)
  const GrowthFallback := Unwords(GrowthWords)
  const SupportFallback := Unwords(SupportWords)

  /** Every fallback sentence begins "Unable to", so it is never meaningful. */
  lemma FallbacksNotMeaningful()
    ensures !Meaningful(TraitsFallback) && !Meaningful(GrowthFallback) && !Meaningful(SupportFallback)
  {
    TraitsFallbackNotMeaningful();
    GrowthFallbackNotMeaningful();
    SupportFallbackNotMeaningful();
  }

  lemma TraitsFallbackNotMeaningful()
    ensures !Meaningful(TraitsFallback)
  {
    var rest := ["analyze", "traits", "at", "this", "time."];
    StartsUnableTo(rest);
    assert ["Unable", "to"] + rest == TraitsWords;
  }

  lemma GrowthFallbackNotMeaningful()
    ensures !Meaningful(GrowthFallback)
  {
    var rest := ["analyze", "growth", "opportunities", "at", "this", "time."];
    StartsUnableTo(rest);
    assert ["Unable", "to"] + rest == GrowthWords;
  }

  lemma SupportFallbackNotMeaningful()
    ensures !Meaningful(SupportFallback)
  {
    var rest := ["provide", "manager", "support", "recommendations", "at", "this", "time."];
    StartsUnableTo(rest);
    assert ["Unable", "to"] + rest == SupportWords;
  }

  lemma StartsUnableTo(rest: seq<string>)
    requires |rest| > 0
    ensures Contains(Unwords(["Unable", "to"] + rest), "Unable to")
  {
    var words := ["Unable", "to"] + rest;
    var tail := ["to"] + rest;
    assert words[0] == "Unable" && words[1..] == tail && |words| > 1;
    assert tail[0] == "to" && tail[1..] == rest && |tail| > 1;
    var s := Unwords(words);
    assert Join(tail, " ") == "to" + " " + Join(rest, " ");
    assert s == "Unable" + " " + Join(tail, " ");
    assert s[0..9] == "Unable to";
    assert OccursAt(s, "Unable to", 0);
  }

  // ------------------------------------------------------------- the route

  /** One answered question as sent by the page. */
  datatype Item = Item(question: string, answer: string, section: string)

  /** `Question: "q"\nResponse: "a"\nCategory: s`. */
  function RenderItem(it: Item): (r: string)
    ensures Contains(r, it.answer)
  {
    var head := "Question: \"" + it.question + "\"\nResponse: \"";
    var r := head + it.answer + "\"\nCategory: " + it.section;
    assert r[|head|..|head| + |it.answer|] == it.answer;
    assert OccursAt(r, it.answer, |head|);
    r
  }

  /** The items rendered in order, separated by blank lines. */
  function FormatResponses(items: seq<Item>): (r: string)
    ensures |items| == 1 ==> r == RenderItem(items[0])
  {
    Join(Map(items), "\n\n")
  }

  function Map(items: seq<Item>): (r: seq<string>)
    ensures |r| == |items|
    ensures forall i | 0 <= i < |items| :: r[i] == RenderItem(items[i])
  {
    if |items| == 0 then [] else [RenderItem(items[0])] + Map(items[1..])
  }

  /** Appending an item appends its rendering after a blank line, so the
      prompt lists the items in input order; and every answer appears. */
  lemma FormatResponsesOrder(items: seq<Item>, it: Item)
    requires |items| > 0
    ensures FormatResponses(items + [it]) == FormatResponses(items) + "\n\n" + RenderItem(it)
  {
    assert Map(items + [it]) == Map(items) + [RenderItem(it)];
    JoinSnoc(Map(items), "\n\n", RenderItem(it));
  }

  lemma FormatResponsesMentionsAnswers(items: seq<Item>, k: int)
    requires 0 <= k < |items|
    ensures Contains(FormatResponses(items), items[k].answer)
  {
    JoinContainsParts(Map(items), "\n\n", k);
    ContainsTransitive(FormatResponses(items), RenderItem(items[k]), items[k].answer);
  }

  /** The `responses` field of the request body. */
  datatype ResponsesField = Missing | NotAnArray | Items(items: seq<Item>)

  /** What came back from the service: a failed request, a reply whose
      text is not JSON, a reply without message content, or content from
      which the three section captures were taken (`None` when a pattern
      did not match). */
  datatype Upstream =
    | NotOk
    | Unparsable
    | NoContent
    | Sections(traits: Option<string>, growth: Option<string>, support: Option<string>)

  datatype Reply =
    | BadRequest(error: string)
    | ServerError(error: string)
    | Analysis(traits: string, growth: string, managerSupport: string)

  const FallbackReply := Analysis(TraitsFallback, GrowthFallback, SupportFallback)

  /** `match?.[1]?.trim() || fallback`: the trimmed capture, or the
      fallback when the pattern did not match or the capture is blank. */
  function SectionText(capture: Option<string>, fallback: string): (r: string)
    ensures capture.Some? && Trim(capture.value) != "" ==> r == Trim(capture.value)
    ensures capture.Some? && Trim(capture.value) == "" ==> r == fallback
    ensures capture.None? ==> r == fallback
  {
    if capture.Some? && Trim(capture.value) != "" then Trim(capture.value) else fallback
  }

  /** The reply built from the three captures: each is trimmed (its
      fallback sentence when missing or blank) and cleaned with the given
      list-marker class, and the three are returned when all are
      meaningful. */
  function SectionsReply(t: Option<string>, g: Option<string>, m: Option<string>, marker: char -> bool): (r: Reply)
    ensures r.Analysis?
    ensures r == FallbackReply || HasValidContent([r.traits, r.growth, r.managerSupport])
  {
    var sections := [
      CleanWith(SectionText(t, TraitsFallback), marker),
      CleanWith(SectionText(g, GrowthFallback), marker),
      CleanWith(SectionText(m, SupportFallback), marker)];
    if HasValidContent(sections) then Analysis(sections[0], sections[1], sections[2])
    else FallbackReply
  }

  /** `POST`, with the body already parsed (`None` when it is not JSON or
      is JSON `null`: destructuring either throws into the fallback),
      whether the key is configured, and the service's result as inputs.
      The sections are cleaned by `cleanText` as written. */
  function Post(body: Option<ResponsesField>, keyConfigured: bool, upstream: Upstream): (r: Reply)
    ensures r.BadRequest? <==> body.Some? && !body.value.Items?
    ensures r.BadRequest? ==> r.error == "Invalid responses format"
    ensures r.ServerError? <==> body.Some? && body.value.Items? && !keyConfigured
    ensures r.ServerError? ==> r.error == "AI analysis service is not configured"
    ensures r.Analysis? ==> r == FallbackReply || HasValidContent([r.traits, r.growth, r.managerSupport])
    ensures body.None? || (body.value.Items? && keyConfigured && !upstream.Sections?) ==> r == FallbackReply
  {
    match body
    case None => FallbackReply
    case Some(field) =>
      if !field.Items? then BadRequest("Invalid responses format")
      else if !keyConfigured then ServerError("AI analysis service is not configured")
      else match upstream
        case Sections(t, g, m) => SectionsReply(t, g, m, IsMarkerAsWritten)
        case _ => FallbackReply
  }

  /** A section whose pattern did not match yields the fallback reply, since
      its fallback sentence survives cleaning and is not meaningful. */
  lemma MissingSectionFallsBack(items: seq<Item>, t: Option<string>, g: Option<string>, m: Option<string>)
    requires t.None? || g.None? || m.None?
    ensures Post(Some(Items(items)), true, Sections(t, g, m)) == FallbackReply
  {
    FallbacksNotMeaningful();
    CleanFallbacksAsWritten();
  }

  /** One cleaned section shorter than ten code units, or containing
      "Unable to", turns the whole reply into the fallback reply. */
  lemma InvalidSectionFallsBack(items: seq<Item>, t: Option<string>, g: Option<string>, m: Option<string>)
    requires var a := CleanTextAsWritten(SectionText(t, TraitsFallback));
      var b := CleanTextAsWritten(SectionText(g, GrowthFallback));
      var c := CleanTextAsWritten(SectionText(m, SupportFallback));
      || Utf16Length(a) < 10 || Contains(a, "Unable to")
      || Utf16Length(b) < 10 || Contains(b, "Unable to")
      || Utf16Length(c) < 10 || Contains(c, "Unable to")
    ensures Post(Some(Items(items)), true, Sections(t, g, m)) == FallbackReply
  {
    PostUsesSections(Some(Items(items)), true, Sections(t, g, m));
    AsWrittenSections(t, g, m);
    SectionsReplyInvalid(t, g, m, IsMarkerAsWritten);
  }

  /** The reply is the fallback reply when one cleaned section is not
      meaningful. */
  lemma SectionsReplyInvalid(t: Option<string>, g: Option<string>, m: Option<string>, marker: char -> bool)
    requires var a := CleanWith(SectionText(t, TraitsFallback), marker);
      var b := CleanWith(SectionText(g, GrowthFallback), marker);
      var c := CleanWith(SectionText(m, SupportFallback), marker);
      !Meaningful(a) || !Meaningful(b) || !Meaningful(c)
    ensures SectionsReply(t, g, m, marker) == FallbackReply
  {
    var v := [
      CleanWith(SectionText(t, TraitsFallback), marker),
      CleanWith(SectionText(g, GrowthFallback), marker),
      CleanWith(SectionText(m, SupportFallback), marker)];
    assert !Meaningful(v[0]) || !Meaningful(v[1]) || !Meaningful(v[2]);
  }

  /** The reply is the three cleaned sections when all are meaningful. */
  lemma SectionsReplyValid(t: Option<string>, g: Option<string>, m: Option<string>, marker: char -> bool)
    requires Meaningful(CleanWith(SectionText(t, TraitsFallback), marker))
    requires Meaningful(CleanWith(SectionText(g, GrowthFallback), marker))
    requires Meaningful(CleanWith(SectionText(m, SupportFallback), marker))
    ensures SectionsReply(t, g, m, marker) == Analysis(
      CleanWith(SectionText(t, TraitsFallback), marker),
      CleanWith(SectionText(g, GrowthFallback), marker),
      CleanWith(SectionText(m, SupportFallback), marker))
  {
    ThreeValid(CleanWith(SectionText(t, TraitsFallback), marker),
      CleanWith(SectionText(g, GrowthFallback), marker),
      CleanWith(SectionText(m, SupportFallback), marker));
  }

  /** `cleanText` as written is cleaning with the as-written marker class. */
  lemma AsWrittenSections(t: Option<string>, g: Option<string>, m: Option<string>)
    ensures CleanTextAsWritten(SectionText(t, TraitsFallback)) == CleanWith(SectionText(t, TraitsFallback), IsMarkerAsWritten)
    ensures CleanTextAsWritten(SectionText(g, GrowthFallback)) == CleanWith(SectionText(g, GrowthFallback), IsMarkerAsWritten)
    ensures CleanTextAsWritten(SectionText(m, SupportFallback)) == CleanWith(SectionText(m, SupportFallback), IsMarkerAsWritten)
  {
  }

  /** With the body parsed, the key configured and the three captures
      taken, the reply is built from the captures, cleaned as written. */
  lemma PostUsesSections(body: Option<ResponsesField>, keyConfigured: bool, upstream: Upstream)
    requires body.Some? && body.value.Items? && keyConfigured && upstream.Sections?
    ensures Post(body, keyConfigured, upstream)
         == SectionsReply(upstream.traits, upstream.growth, upstream.support, IsMarkerAsWritten)
  {
    assert upstream == Sections(upstream.traits, upstream.growth, upstream.support);
    assert body == Some(Items(body.value.items));
  }

  /** Meaningful cleaned sections are returned as they are. */
  lemma ValidSectionsReturned(items: seq<Item>, t: Option<string>, g: Option<string>, m: Option<string>)
    requires Meaningful(CleanTextAsWritten(SectionText(t, TraitsFallback)))
    requires Meaningful(CleanTextAsWritten(SectionText(g, GrowthFallback)))
    requires Meaningful(CleanTextAsWritten(SectionText(m, SupportFallback)))
    ensures Post(Some(Items(items)), true, Sections(t, g, m)) == Analysis(
      CleanTextAsWritten(SectionText(t, TraitsFallback)),
      CleanTextAsWritten(SectionText(g, GrowthFallback)),
      CleanTextAsWritten(SectionText(m, SupportFallback)))
  {
    PostUsesSections(Some(Items(items)), true, Sections(t, g, m));
    AsWrittenSections(t, g, m);
    SectionsReplyValid(t, g, m, IsMarkerAsWritten);
  }

  /** What cleaning guarantees of a text: no markdown character, no line
      break, single spaces only, nothing to trim. */
  predicate IsClean(s: string) {
    && (forall i | 0 <= i < |s| :: !IsMarkdownChar(s[i]) && !IsLineTerminator(s[i]))
    && Collapsed(s)
    && (|s| == 0 || (!IsWhitespace(s[0]) && !IsWhitespace(s[|s| - 1])))
  }

  /** Every section the route answers with is clean, the fallbacks included. */
  lemma RepliedSectionsClean(body: Option<ResponsesField>, keyConfigured: bool, upstream: Upstream)
    requires Post(body, keyConfigured, upstream).Analysis?
    ensures var r := Post(body, keyConfigured, upstream);
      IsClean(r.traits) && IsClean(r.growth) && IsClean(r.managerSupport)
  {
    if Post(body, keyConfigured, upstream) == FallbackReply {
      FallbackReplyClean();
    } else {
      PostUsesSections(body, keyConfigured, upstream);
      SectionsReplyClean(upstream.traits, upstream.growth, upstream.support, IsMarkerAsWritten);
    }
  }

  lemma FallbackReplyClean()
    ensures IsClean(FallbackReply.traits) && IsClean(FallbackReply.growth) && IsClean(FallbackReply.managerSupport)
  {
    CleanFallbackKept(TraitsWords, IsMarker);
    CleanFallbackKept(GrowthWords, IsMarker);
    CleanFallbackKept(SupportWords, IsMarker);
    CleanWithIsClean(TraitsFallback, IsMarker);
    CleanWithIsClean(GrowthFallback, IsMarker);
    CleanWithIsClean(SupportFallback, IsMarker);
  }

  lemma SectionsReplyClean(t: Option<string>, g: Option<string>, m: Option<string>, marker: char -> bool)
    ensures var r := SectionsReply(t, g, m, marker);
      IsClean(r.traits) && IsClean(r.growth) && IsClean(r.managerSupport)
  {
    if SectionsReply(t, g, m, marker) == FallbackReply {
      FallbackReplyClean();
    } else {
      CleanWithIsClean(SectionText(t, TraitsFallback), marker);
      CleanWithIsClean(SectionText(g, GrowthFallback), marker);
      CleanWithIsClean(SectionText(m, SupportFallback), marker);
    }
  }

  lemma ThreeValid(a: string, b: string, c: string)
    requires Meaningful(a) && Meaningful(b) && Meaningful(c)
    ensures HasValidContent([a, b, c])
  {
  }

  lemma CleanWithIsClean(text: string, marker: char -> bool)
    ensures IsClean(CleanWith(text, marker))
  {
  }

  /** Cleaning as written leaves the fallback sentences as they are. */
  lemma CleanFallbacksAsWritten()
    ensures CleanTextAsWritten(TraitsFallback) == TraitsFallback
    ensures CleanTextAsWritten(GrowthFallback) == GrowthFallback
    ensures CleanTextAsWritten(SupportFallback) == SupportFallback
  {
    CleanFallbackKept(TraitsWords, IsMarkerAsWritten);
    CleanFallbackKept(GrowthWords, IsMarkerAsWritten);
    CleanFallbackKept(SupportWords, IsMarkerAsWritten);
  }

  /** Cleaning as intended leaves the fallback sentences as they are. */
  lemma CleanFallbacks()
    ensures CleanText(TraitsFallback) == TraitsFallback
    ensures CleanText(GrowthFallback) == GrowthFallback
    ensures CleanText(SupportFallback) == SupportFallback
  {
    CleanFallbackKept(TraitsWords, IsMarker);
    CleanFallbackKept(GrowthWords, IsMarker);
    CleanFallbackKept(SupportWords, IsMarker);
  }

  /** A fallback sentence is plain words beginning with "U", so cleaning
      with a marker class that leaves "U" alone keeps it as it is. */
  lemma CleanFallbackKept(words: seq<string>, marker: char -> bool)
    requires words == TraitsWords || words == GrowthWords || words == SupportWords
    requires !marker('U')
    ensures CleanWith(Unwords(words), marker) == Unwords(words)
  {
    PlainWordsAll(words);
    PlainUnwords(words);
    CleanPlain(Unwords(words), marker);
  }

  // ------------------------------------------------ plain text is kept

  /** A word: non-empty, no white space, no markdown character. */
  predicate PlainWord(w: string) {
    |w| > 0 && forall i | 0 <= i < |w| :: !IsWhitespace(w[i]) && !IsMarkdownChar(w[i])
  }

  /** Words separated by single spaces. */
  predicate Plain(s: string) {
    && (forall i | 0 <= i < |s| :: !IsMarkdownChar(s[i]))
    && (forall i | 0 <= i < |s| :: IsWhitespace(s[i]) ==> s[i] == ' ' && 0 < i < |s| - 1 && s[i + 1] != ' ')
  }

  lemma PlainWordsAll(words: seq<string>)
    requires words == ["Unable", "to", "analyze", "traits", "at", "this", "time."]
      || words == ["Unable", "to", "analyze", "growth", "opportunities", "at", "this", "time."]
      || words == ["Unable", "to", "provide", "manager", "support", "recommendations", "at", "this", "time."]
    ensures |words| > 0 && words[0] == "Unable"
    ensures forall k | 0 <= k < |words| :: PlainWord(words[k])
  {
    forall k | 0 <= k < |words|
      ensures PlainWord(words[k])
    {
      var w := words[k];
      forall i | 0 <= i < |w|
        ensures !IsWhitespace(w[i]) && !IsMarkdownChar(w[i])
      {
        assert 'a' <= w[i] <= 'z' || w[i] == 'U' || w[i] == '.';
      }
    }
  }

  /** Plain words joined by spaces make plain text. */
  lemma {:induction false} PlainUnwords(words: seq<string>)
    requires |words| > 0 && words[0] == "Unable"
    requires forall k | 0 <= k < |words| :: PlainWord(words[k])
    ensures Plain(Unwords(words)) && |Unwords(words)| > 0 && Unwords(words)[0] == 'U'
  {
    PlainJoin(words);
    assert Unwords(words)[0] == 'U' by {
      if |words| > 1 {
        assert Unwords(words) == words[0] + " " + Join(words[1..], " ");
      }
    }
  }

  /** Joined plain words: no markdown, and every white space is a single
      space strictly inside, followed by a word character. */
  lemma {:induction false} PlainJoin(words: seq<string>)
    requires |words| > 0
    requires forall k | 0 <= k < |words| :: PlainWord(words[k])
    ensures var s := Join(words, " ");
      |s| > 0 && !IsWhitespace(s[0]) && !IsWhitespace(s[|s| - 1])
      && (forall i | 0 <= i < |s| :: !IsMarkdownChar(s[i]))
      && (forall i | 0 <= i < |s| :: IsWhitespace(s[i]) ==> s[i] == ' ' && 0 < i < |s| - 1 && s[i + 1] != ' ')
  {
    if |words| > 1 {
      PlainJoin(words[1..]);
      var w := words[0];
      var t := Join(words[1..], " ");
      var s := Join(words, " ");
      assert s == w + " " + t;
      forall i | 0 <= i < |s|
        ensures !IsMarkdownChar(s[i])
        ensures IsWhitespace(s[i]) ==> s[i] == ' ' && 0 < i < |s| - 1 && s[i + 1] != ' '
      {
        if i < |w| {
          assert s[i] == w[i];
        } else if i == |w| {
          assert s[i + 1] == t[0];
        } else {
          assert s[i] == t[i - |w| - 1];
          if i + 1 < |s| {
            assert s[i + 1] == t[i - |w|];
          }
        }
      }
      assert s[|s| - 1] == t[|t| - 1];
    }
  }

  /** Cleaning leaves plain text that does not open with a marker
      unchanged. */
  lemma CleanPlain(s: string, marker: char -> bool)
    requires Plain(s) && (|s| > 0 ==> !marker(s[0]))
    ensures CleanWith(s, marker) == s
  {
    assert RemoveMarkdown(s) == s by {
      FilterAll(s, NotMarkdown);
    }
    assert forall m | 0 <= m < |s| :: !IsLineTerminator(s[m]);
    assert StripMarkers(s, marker) == s by {
      if |s| > 0 {
        StripPlainTail(s, 1, marker);
        assert s == [s[0]] + s[1..];
      }
    }
    NoNewlinesKept(s);
    SingleSpacesKept(s);
    if |s| > 0 {
      assert !IsWhitespace(s[0]) && !IsWhitespace(s[|s| - 1]);
    }
  }

  lemma {:induction false} NoNewlinesKept(s: string)
    requires forall m | 0 <= m < |s| :: s[m] != '\n'
    ensures CollapseNewlines(s) == s
  {
    if |s| > 0 {
      NoNewlinesKept(s[1..]);
    }
  }

  /** Text whose every white space is one space followed by a non-space
      character is left alone by collapsing. */
  lemma {:induction false} SingleSpacesKept(s: string)
    requires forall i | 0 <= i < |s| :: IsWhitespace(s[i]) ==> s[i] == ' ' && i + 1 < |s| && !IsWhitespace(s[i + 1])
    ensures CollapseRuns(s, IsWhitespace) == s
  {
    if |s| > 0 {
      if IsWhitespace(s[0]) {
        assert RunEnd(s, IsWhitespace) == 1;
      }
      SingleSpacesKept(s[1..]);
    }
  }
}
