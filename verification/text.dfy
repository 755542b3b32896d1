/** The JavaScript string operations the application relies on, over
    `string` (a sequence of Unicode scalar values): `includes`,
    `toLowerCase` (on the ASCII letters), `trim` and the white-space class
    `\s`, `split` on a character class, and `join`. */
module Text {

  /** The characters of JavaScript's `\s` class, which are also the ones
      `String.prototype.trim` removes. */
  predicate IsWhitespace(c: char) {
    var n := c as int;
    (0x09 <= n <= 0x0D) || n == 0x20 || n == 0xA0 || n == 0x1680
    || (0x2000 <= n <= 0x200A) || n == 0x2028 || n == 0x2029
    || n == 0x202F || n == 0x205F || n == 0x3000 || n == 0xFEFF
  }

  /** The characters after which `^` matches in a multi-line regular expression. */
  predicate IsLineTerminator(c: char) {
    var n := c as int;
    n == 0x0A || n == 0x0D || n == 0x2028 || n == 0x2029
  }

  lemma LineTerminatorIsWhitespace(c: char)
    requires IsLineTerminator(c)
    ensures IsWhitespace(c)
  {
  }

  // ---------------------------------------------------------------- includes

  /** `t` occurs in `s` starting at offset `i`. */
  predicate OccursAt(s: string, t: string, i: int) {
    0 <= i <= |s| - |t| && s[i..i + |t|] == t
  }

  /** `s.includes(t)`: `t` occurs in `s` at some offset. */
  predicate Contains(s: string, t: string) {
    exists i | 0 <= i <= |s| - |t| :: OccursAt(s, t, i)
  }

  lemma ContainsEmpty(s: string)
    ensures Contains(s, "")
  {
    assert OccursAt(s, "", 0);
  }

  /** A string cannot contain a text holding a character it lacks. */
  lemma NotContainsMissingChar(s: string, t: string, k: int)
    requires 0 <= k < |t| && t[k] !in s
    ensures !Contains(s, t)
  {
    forall i | 0 <= i <= |s| - |t|
      ensures !OccursAt(s, t, i)
    {
      assert s[i + k] in s;
      var w := s[i..i + |t|];
      assert w[k] == s[i + k] != t[k];
    }
  }

  /** `t` cannot occur where no character of `s` matches its first. */
  lemma NotContainsAtAnyStart(s: string, t: string)
    requires |t| > 0
    requires forall i | 0 <= i <= |s| - |t| :: s[i] != t[0]
    ensures !Contains(s, t)
  {
    forall i | 0 <= i <= |s| - |t|
      ensures !OccursAt(s, t, i)
    {
      assert s[i..i + |t|][0] == s[i];
    }
  }

  /** Containment is transitive. */
  lemma ContainsTransitive(a: string, b: string, c: string)
    requires Contains(a, b) && Contains(b, c)
    ensures Contains(a, c)
  {
    var j :| 0 <= j <= |a| - |b| && OccursAt(a, b, j);
    var i :| 0 <= i <= |b| - |c| && OccursAt(b, c, i);
    forall m | 0 <= m < |c|
      ensures a[j + i + m] == c[m]
    {
      assert a[j..j + |b|][i + m] == b[i + m];
      assert b[i..i + |c|][m] == c[m];
    }
    assert a[j + i..j + i + |c|] == c;
    assert OccursAt(a, c, j + i);
  }

  /** A string contains everything its prefix contains. */
  lemma ContainsInPrefix(p: string, rest: string, t: string)
    requires Contains(p, t)
    ensures Contains(p + rest, t)
  {
    var i :| 0 <= i <= |p| - |t| && OccursAt(p, t, i);
    assert (p + rest)[i..i + |t|] == p[i..i + |t|];
    assert OccursAt(p + rest, t, i);
  }

  /** A string contains everything its suffix contains. */
  lemma ContainsInSuffix(p: string, rest: string, t: string)
    requires Contains(rest, t)
    ensures Contains(p + rest, t)
  {
    var i :| 0 <= i <= |rest| - |t| && OccursAt(rest, t, i);
    assert (p + rest)[|p| + i..|p| + i + |t|] == rest[i..i + |t|];
    assert OccursAt(p + rest, t, |p| + i);
  }

  // ---------------------------------------------------------------- toLowerCase

  function LowerChar(c: char): char {
    if 'A' <= c <= 'Z' then (c as int + 32) as char else c
  }

  /** `s.toLowerCase()` on the ASCII letters; other characters are kept. */
  function ToLower(s: string): (r: string)
    ensures |r| == |s|
    ensures forall i | 0 <= i < |s| :: r[i] == LowerChar(s[i])
  {
    seq(|s|, i requires 0 <= i < |s| => LowerChar(s[i]))
  }

  lemma ToLowerAppend(a: string, b: string)
    ensures ToLower(a + b) == ToLower(a) + ToLower(b)
  {
  }

  /** No upper-case ASCII letter occurs in `s`. */
  predicate IsLower(s: string) {
    forall i | 0 <= i < |s| :: !('A' <= s[i] <= 'Z')
  }

  /** Lower-cased text is lower case, and lower-casing it again changes nothing. */
  lemma ToLowerIdempotent(s: string)
    ensures IsLower(ToLower(s))
    ensures ToLower(ToLower(s)) == ToLower(s)
  {
  }

  /** Lower-case text is its own lower-casing. */
  lemma ToLowerOfLower(s: string)
    requires IsLower(s)
    ensures ToLower(s) == s
  {
  }

  /** Lower-casing keeps every character that is not an upper-case ASCII letter. */
  lemma ToLowerKeepsOthers(s: string, i: int)
    requires 0 <= i < |s| && !('A' <= s[i] <= 'Z')
    ensures ToLower(s)[i] == s[i]
  {
  }

  /** Lowering both sides keeps an occurrence. */
  lemma ContainsLower(s: string, t: string)
    requires Contains(s, t)
    ensures Contains(ToLower(s), ToLower(t))
  {
    var i :| 0 <= i <= |s| - |t| && OccursAt(s, t, i);
    assert ToLower(s)[i..i + |t|] == ToLower(t) by {
      forall k | 0 <= k < |t|
        ensures ToLower(s)[i..i + |t|][k] == ToLower(t)[k]
      {
        assert s[i..i + |t|][k] == t[k];
      }
    }
    assert OccursAt(ToLower(s), ToLower(t), i);
  }

  // ---------------------------------------------------------------- trim

  function LeadingWhitespace(s: string): (n: nat)
    ensures n <= |s|
    ensures forall i | 0 <= i < n :: IsWhitespace(s[i])
    ensures n < |s| ==> !IsWhitespace(s[n])
  {
    if |s| > 0 && IsWhitespace(s[0]) then 1 + LeadingWhitespace(s[1..]) else 0
  }

  function TrailingWhitespace(s: string): (n: nat)
    ensures n <= |s|
    ensures forall i | |s| - n <= i < |s| :: IsWhitespace(s[i])
    ensures n < |s| ==> !IsWhitespace(s[|s| - n - 1])
  {
    if |s| > 0 && IsWhitespace(s[|s| - 1]) then 1 + TrailingWhitespace(s[..|s| - 1]) else 0
  }

  /** `s[a..b]` is `s` with white space only cut from either end. */
  predicate TrimmedAt(s: string, r: string, a: int, b: int) {
    0 <= a <= b <= |s| && r == s[a..b]
    && (forall i | 0 <= i < a :: IsWhitespace(s[i]))
    && (forall i | b <= i < |s| :: IsWhitespace(s[i]))
  }

  /** `s.trim()`: the slice of `s` left after cutting white space from both
      ends; the result neither starts nor ends with white space. */
  function Trim(s: string): (r: string)
    ensures |r| == 0 || (!IsWhitespace(r[0]) && !IsWhitespace(r[|r| - 1]))
    ensures exists a, b :: TrimmedAt(s, r, a, b)
    ensures (|s| == 0 || (!IsWhitespace(s[0]) && !IsWhitespace(s[|s| - 1]))) ==> r == s
  {
    var a := LeadingWhitespace(s);
    var t := s[a..];
    var n := TrailingWhitespace(t);
    assert t[..|t| - n] == s[a..|s| - n];
    assert forall i | |s| - n <= i < |s| :: s[i] == t[i - a];
    assert TrimmedAt(s, t[..|t| - n], a, |s| - n);
    t[..|t| - n]
  }

  /** Trimming keeps every character that is not white space, as often as
      it occurs. */
  lemma TrimKeepsText(s: string, c: char)
    requires !IsWhitespace(c)
    ensures multiset(Trim(s))[c] == multiset(s)[c]
  {
    var a, b :| TrimmedAt(s, Trim(s), a, b);
    assert s == s[..a] + s[a..b] + s[b..];
    NoCharIn(s[..a], c);
    NoCharIn(s[b..], c);
  }

  lemma NoCharIn(w: string, c: char)
    requires !IsWhitespace(c) && forall i | 0 <= i < |w| :: IsWhitespace(w[i])
    ensures multiset(w)[c] == 0
  {
    assert forall i | 0 <= i < |w| :: w[i] != c;
  }

  // ---------------------------------------------------------------- length

  /** The code units a character takes in UTF-16: two for a character
      outside the Basic Multilingual Plane, one otherwise. */
  function CodeUnits(c: char): nat {
    if c as int > 0xFFFF then 2 else 1
  }

  /** `s.length`: the number of UTF-16 code units of `s`, which is at least
      its number of characters. */
  function Utf16Length(s: string): (n: nat)
    ensures |s| <= n <= 2 * |s|
  {
    if |s| == 0 then 0 else CodeUnits(s[0]) + Utf16Length(s[1..])
  }

  lemma Utf16LengthCons(c: char, s: string)
    ensures Utf16Length([c] + s) == CodeUnits(c) + Utf16Length(s)
  {
    assert ([c] + s)[1..] == s;
  }

  lemma {:induction false} Utf16LengthAppend(a: string, b: string)
    ensures Utf16Length(a + b) == Utf16Length(a) + Utf16Length(b)
  {
    if |a| > 0 {
      assert (a + b)[0] == a[0] && (a + b)[1..] == a[1..] + b;
      Utf16LengthAppend(a[1..], b);
    } else {
      assert a + b == b;
    }
  }

  /** Text of the Basic Multilingual Plane takes one code unit per
      character. */
  lemma {:induction false} Utf16LengthBmp(s: string)
    requires forall i | 0 <= i < |s| :: s[i] as int <= 0xFFFF
    ensures Utf16Length(s) == |s|
  {
    if |s| > 0 {
      assert forall i | 0 <= i < |s[1..]| :: s[1..][i] == s[i + 1];
      Utf16LengthBmp(s[1..]);
    }
  }

  /** Lower-casing changes no length: it only maps ASCII letters to ASCII
      letters. */
  lemma {:induction false} ToLowerUnits(s: string)
    ensures Utf16Length(ToLower(s)) == Utf16Length(s)
  {
    if |s| > 0 {
      assert ToLower(s) == [LowerChar(s[0])] + ToLower(s[1..]);
      Utf16LengthCons(LowerChar(s[0]), ToLower(s[1..]));
      ToLowerUnits(s[1..]);
    }
  }

  // ---------------------------------------------------------------- split

  /** The delimiters of `split(/[.,!?]/)`. */
  predicate IsSentenceBreak(c: char) {
    c == '.' || c == ',' || c == '!' || c == '?'
  }

  function BreakCount(s: string): nat {
    if |s| == 0 then 0 else (if IsSentenceBreak(s[0]) then 1 else 0) + BreakCount(s[1..])
  }

  function WithoutBreaks(s: string): string {
    if |s| == 0 then ""
    else if IsSentenceBreak(s[0]) then WithoutBreaks(s[1..])
    else [s[0]] + WithoutBreaks(s[1..])
  }

  predicate BreakFree(s: string) {
    forall i | 0 <= i < |s| :: !IsSentenceBreak(s[i])
  }

  function Concat(pieces: seq<string>): string {
    if |pieces| == 0 then "" else pieces[0] + Concat(pieces[1..])
  }

  /** `s.split(/[.,!?]/)`: the maximal break-free runs of `s`, including the
      empty ones between adjacent delimiters and at both ends. */
  function Split(s: string): (pieces: seq<string>)
    ensures |pieces| >= 1
  {
    if |s| == 0 then [""]
    else
      var rest := Split(s[1..]);
      if IsSentenceBreak(s[0]) then [""] + rest
      else [[s[0]] + rest[0]] + rest[1..]
  }

  /** Splitting yields one more piece than there are delimiters, no piece
      holds a delimiter, and the pieces put back together are the text
      with its delimiters removed. */
  lemma {:induction false} SplitSound(s: string)
    ensures |Split(s)| == BreakCount(s) + 1
    ensures forall k | 0 <= k < |Split(s)| :: BreakFree(Split(s)[k])
    ensures Concat(Split(s)) == WithoutBreaks(s)
  {
    if |s| > 0 {
      SplitSound(s[1..]);
      var rest := Split(s[1..]);
      if IsSentenceBreak(s[0]) {
        assert Split(s) == [""] + rest;
        assert ([""] + rest)[1..] == rest;
      } else {
        var p := Split(s);
        assert p == [[s[0]] + rest[0]] + rest[1..];
        assert p[1..] == rest[1..];
        assert Concat(rest) == rest[0] + Concat(rest[1..]);
        assert Concat(p) == [s[0]] + rest[0] + Concat(rest[1..]);
        forall k | 0 <= k < |p|
          ensures BreakFree(p[k])
        {
          if k > 0 { assert p[k] == rest[k]; }
        }
      }
    }
  }

  /** A text without delimiters splits into itself alone. */
  lemma {:induction false} SplitBreakFree(s: string)
    requires BreakFree(s)
    ensures Split(s) == [s]
  {
    if |s| > 0 {
      assert BreakFree(s[1..]) by {
        forall i | 0 <= i < |s[1..]|
          ensures !IsSentenceBreak(s[1..][i])
        {
          assert s[1..][i] == s[i + 1];
        }
      }
      SplitBreakFree(s[1..]);
      assert [s[0]] + s[1..] == s;
    }
  }

  /** Where the cuts fall: the first piece is the text up to the first
      delimiter, and the rest are the pieces of the text after it. */
  lemma {:induction false} SplitAtFirstBreak(s: string, i: int)
    requires 0 <= i < |s| && IsSentenceBreak(s[i]) && BreakFree(s[..i])
    ensures Split(s) == [s[..i]] + Split(s[i + 1..])
  {
    if i > 0 {
      assert !IsSentenceBreak(s[..i][0]);
      var t := s[1..][..i - 1];
      assert BreakFree(t) by {
        forall j | 0 <= j < |t|
          ensures !IsSentenceBreak(t[j])
        {
          assert t[j] == s[..i][j + 1];
        }
      }
      SplitAtFirstBreak(s[1..], i - 1);
      assert s[1..][i..] == s[i + 1..];
      assert [s[0]] + s[1..][..i - 1] == s[..i];
    }
  }

  /** No piece is longer, in UTF-16 code units, than the text it was split
      from. */
  lemma {:induction false} SplitPieceUnits(s: string)
    ensures forall k | 0 <= k < |Split(s)| :: Utf16Length(Split(s)[k]) <= Utf16Length(s)
  {
    if |s| > 0 {
      SplitPieceUnits(s[1..]);
      var rest := Split(s[1..]);
      if !IsSentenceBreak(s[0]) {
        var p := Split(s);
        assert p == [[s[0]] + rest[0]] + rest[1..];
        assert forall k | 1 <= k < |p| :: p[k] == rest[k];
        Utf16LengthCons(s[0], rest[0]);
      }
    }
  }

  /** Lower-casing moves no delimiter. */
  lemma ToLowerKeepsBreaks(s: string)
    ensures forall i | 0 <= i < |s| :: IsSentenceBreak(ToLower(s)[i]) <==> IsSentenceBreak(s[i])
  {
  }

  /** Trimming text without delimiters leaves text without delimiters. */
  lemma TrimKeepsBreakFree(s: string)
    requires BreakFree(s)
    ensures BreakFree(Trim(s))
  {
    var a, b :| TrimmedAt(s, Trim(s), a, b);
    assert forall i | 0 <= i < b - a :: s[a..b][i] == s[a + i];
  }

  /** The pieces of lower-case text are lower case. */
  lemma {:induction false} SplitKeepsLower(s: string)
    requires IsLower(s)
    ensures forall k | 0 <= k < |Split(s)| :: IsLower(Split(s)[k])
  {
    if |s| > 0 {
      assert IsLower(s[1..]) by {
        forall i | 0 <= i < |s[1..]|
          ensures !('A' <= s[1..][i] <= 'Z')
        {
          assert s[1..][i] == s[i + 1];
        }
      }
      SplitKeepsLower(s[1..]);
      var rest := Split(s[1..]);
      if !IsSentenceBreak(s[0]) {
        var p := Split(s);
        assert p == [[s[0]] + rest[0]] + rest[1..];
        forall k | 0 <= k < |p|
          ensures IsLower(p[k])
        {
          if k > 0 {
            assert p[k] == rest[k];
          } else {
            assert IsLower(rest[0]);
            forall i | 0 <= i < |p[0]|
              ensures !('A' <= p[0][i] <= 'Z')
            {
              if i > 0 {
                assert p[0][i] == rest[0][i - 1];
              }
            }
          }
        }
      }
    }
  }

  /** Trimming lower-case text leaves lower-case text. */
  lemma TrimKeepsLower(s: string)
    requires IsLower(s)
    ensures IsLower(Trim(s))
  {
    var a, b :| TrimmedAt(s, Trim(s), a, b);
    assert forall i | 0 <= i < b - a :: s[a..b][i] == s[a + i];
  }

  // ---------------------------------------------------------------- join

  /** `[a, b, ...].join(sep)`. */
  function Join(parts: seq<string>, sep: string): (r: string)
    ensures |parts| == 1 ==> r == parts[0]
  {
    if |parts| == 0 then ""
    else if |parts| == 1 then parts[0]
    else parts[0] + sep + Join(parts[1..], sep)
  }

  /** Joining one more part appends the separator and that part: the parts
      appear in the result in their order. */
  lemma {:induction false} JoinSnoc(parts: seq<string>, sep: string, last: string)
    requires |parts| > 0
    ensures Join(parts + [last], sep) == Join(parts, sep) + sep + last
  {
    if |parts| == 1 {
      assert (parts + [last])[1..] == [last];
    } else {
      assert (parts + [last])[1..] == parts[1..] + [last];
      JoinSnoc(parts[1..], sep, last);
    }
  }

  /** Every part occurs in the joined text. */
  lemma {:induction false} JoinContainsParts(parts: seq<string>, sep: string, k: int)
    requires 0 <= k < |parts|
    ensures Contains(Join(parts, sep), parts[k])
  {
    if |parts| == 1 {
      assert OccursAt(parts[0], parts[0], 0);
    } else if k == 0 {
      assert OccursAt(parts[0], parts[0], 0);
      ContainsInPrefix(parts[0], sep + Join(parts[1..], sep), parts[0]);
      assert parts[0] + sep + Join(parts[1..], sep) == parts[0] + (sep + Join(parts[1..], sep));
    } else {
      JoinContainsParts(parts[1..], sep, k - 1);
      ContainsInSuffix(parts[0] + sep, Join(parts[1..], sep), parts[k]);
    }
  }

  /** The words joined with single spaces. */
  function Unwords(words: seq<string>): string {
    Join(words, " ")
  }
}
