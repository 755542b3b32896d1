/** The qualitative half of a value's report section: key phrases are
    extracted from the comments, grouped into strengths (comments of
    ratings 4 and 5) and opportunities (the rest), and only phrases that
    recur are kept; the first positive comments become quotes. */
module Qualitative {
  import opened Basics
  import opened Text
  import opened FeedbackTypes
  import opened FeedbackAnalysis

  /** Ratings of 4 and 5 count as positive. */
  predicate Positive(e: FeedbackEntry) {
    e.rating >= 4
  }

  /** A key phrase: lower case, free of sentence delimiters, and neither
      starting nor ending with white space. */
  predicate IsKeyPhrase(p: string) {
    IsLower(p) && BreakFree(p) && (|p| == 0 || (!IsWhitespace(p[0]) && !IsWhitespace(p[|p| - 1])))
  }

  function TrimAll(pieces: seq<string>): (r: seq<string>)
    ensures |r| == |pieces|
    ensures forall k | 0 <= k < |r| :: r[k] == Trim(pieces[k])
  {
    if |pieces| == 0 then [] else [Trim(pieces[0])] + TrimAll(pieces[1..])
  }

  /** The pieces of a comment that are kept: longer than ten UTF-16 code
      units before trimming. */
  function LongPieces(comment: string): seq<string> {
    Filter(Split(ToLower(comment)), IsLong)
  }

  /** `p.length > 10`. */
  predicate IsLong(p: string) {
    Utf16Length(p) > 10
  }

  /** The key phrases of one comment: its lower-cased sentence pieces longer
      than ten code units, trimmed. Every one is a key phrase. */
  function KeyPhrases(comment: string): (r: seq<string>)
    ensures AllKeyPhrases(r)
  {
    var pieces := LongPieces(comment);
    var lower := ToLower(comment);
    ToLowerIdempotent(comment);
    SplitKeepsLower(lower);
    SplitSound(lower);
    var r := TrimAll(pieces);
    assert AllKeyPhrases(r) by {
      forall k | 0 <= k < |r|
        ensures IsKeyPhrase(r[k])
      {
        assert pieces[k] in pieces;
        FilterMembership(Split(lower), IsLong, pieces[k]);
        var j :| 0 <= j < |Split(lower)| && Split(lower)[j] == pieces[k];
        TrimKeepsLower(pieces[k]);
        TrimKeepsBreakFree(pieces[k]);
      }
    }
    r
  }

  lemma TrimAllConcat(a: seq<string>, b: seq<string>)
    ensures TrimAll(a + b) == TrimAll(a) + TrimAll(b)
  {
  }

  /** A comment of one sentence yields itself, lower-cased and trimmed,
      when it is longer than ten code units, and nothing otherwise. */
  lemma KeyPhrasesOfOneSentence(comment: string)
    requires BreakFree(comment)
    ensures KeyPhrases(comment)
         == if Utf16Length(comment) > 10 then [Trim(ToLower(comment))] else []
  {
    var lower := ToLower(comment);
    ToLowerKeepsBreaks(comment);
    ToLowerUnits(comment);
    SplitBreakFree(lower);
    assert Split(lower) == [lower];
    assert Split(lower)[1..] == [];
  }

  /** A comment is cut at its first sentence delimiter: its key phrases are
      those of the sentence before the delimiter followed by those of the
      text after it. With `KeyPhrasesOfOneSentence` this fixes the key
      phrases of every comment. */
  lemma KeyPhrasesAtBreak(comment: string, i: int)
    requires 0 <= i < |comment| && IsSentenceBreak(comment[i]) && BreakFree(comment[..i])
    ensures KeyPhrases(comment) == KeyPhrases(comment[..i]) + KeyPhrases(comment[i + 1..])
  {
    var lower := ToLower(comment);
    ToLowerKeepsBreaks(comment);
    assert ToLower(comment[..i]) == lower[..i];
    assert ToLower(comment[i + 1..]) == lower[i + 1..];
    assert BreakFree(lower[..i]) by {
      forall j | 0 <= j < i
        ensures !IsSentenceBreak(lower[..i][j])
      {
        assert comment[..i][j] == comment[j];
      }
    }
    SplitAtFirstBreak(lower, i);
    SplitBreakFree(lower[..i]);
    FilterConcat([lower[..i]], Split(lower[i + 1..]), IsLong);
    TrimAllConcat(Filter([lower[..i]], IsLong), Filter(Split(lower[i + 1..]), IsLong));
  }

  /** A comment of at most ten code units has no key phrase. */
  lemma KeyPhrasesOfShortComment(comment: string)
    requires Utf16Length(comment) <= 10
    ensures KeyPhrases(comment) == []
  {
    var lower := ToLower(comment);
    ToLowerUnits(comment);
    SplitPieceUnits(lower);
    var pieces := LongPieces(comment);
    FilterCount(Split(lower), IsLong);
    forall x | IsLong(x)
      ensures x !in Split(lower)
    {
    }
    assert multiset(pieces) == multiset{};
  }

  /** Astral characters count twice: "nice " and three emoji are eight
      characters but eleven code units, enough for a key phrase. */
  lemma EmojiPhraseIsKept(c: string)
    requires c == "nice " + ['\U{1F600}', '\U{1F600}', '\U{1F600}']
    ensures |c| == 8 && KeyPhrases(c) == [c]
  {
    EmojiPhraseUnits(c);
    EmojiPhrasePlain(c);
    SentenceIsPhrase(c);
  }

  lemma EmojiPhraseUnits(c: string)
    requires c == "nice " + ['\U{1F600}', '\U{1F600}', '\U{1F600}']
    ensures Utf16Length(c) == 11
  {
    var w := "nice ";
    Utf16LengthBmp(w);
    AstralTail(w, '\U{1F600}');
  }

  /** Three astral characters after a text add six code units. */
  lemma AstralTail(w: string, e: char)
    requires e as int > 0xFFFF
    ensures Utf16Length(w + [e, e, e]) == Utf16Length(w) + 6
  {
    Utf16LengthCons(e, []);
    Utf16LengthCons(e, [e]);
    Utf16LengthCons(e, [e, e]);
    Utf16LengthAppend(w, [e, e, e]);
  }

  lemma EmojiPhrasePlain(c: string)
    requires c == "nice " + ['\U{1F600}', '\U{1F600}', '\U{1F600}']
    ensures |c| == 8 && BreakFree(c) && IsLower(c)
    ensures !IsWhitespace(c[0]) && !IsWhitespace(c[|c| - 1])
  {
  }

  /** A long lower-case sentence without white space at its ends is its
      own key phrase. */
  lemma SentenceIsPhrase(c: string)
    requires BreakFree(c) && IsLower(c) && Utf16Length(c) > 10
    requires !IsWhitespace(c[0]) && !IsWhitespace(c[|c| - 1])
    ensures KeyPhrases(c) == [c]
  {
    KeyPhrasesOfOneSentence(c);
    ToLowerOfLower(c);
    assert Trim(ToLower(c)) == c;
  }

  /** The key phrases of a sequence of entries' comments, in order. */
  function PhrasesOf(es: seq<FeedbackEntry>): seq<string> {
    if |es| == 0 then [] else KeyPhrases(es[0].qualitativeFeedback) + PhrasesOf(es[1..])
  }

  predicate AllKeyPhrases(phrases: seq<string>) {
    forall k | 0 <= k < |phrases| :: IsKeyPhrase(phrases[k])
  }

  lemma AllKeyPhrasesConcat(a: seq<string>, b: seq<string>)
    requires AllKeyPhrases(a) && AllKeyPhrases(b)
    ensures AllKeyPhrases(a + b)
  {
    forall k | 0 <= k < |a + b|
      ensures IsKeyPhrase((a + b)[k])
    {
      if k < |a| {
        assert (a + b)[k] == a[k];
      } else {
        assert (a + b)[k] == b[k - |a|];
      }
    }
  }

  /** Every phrase gathered from a sequence of comments is a key phrase. */
  lemma {:induction false} PhrasesOfAreKeyPhrases(es: seq<FeedbackEntry>)
    ensures AllKeyPhrases(PhrasesOf(es))
  {
    if |es| > 0 {
      PhrasesOfAreKeyPhrases(es[1..]);
      AllKeyPhrasesConcat(KeyPhrases(es[0].qualitativeFeedback), PhrasesOf(es[1..]));
    }
  }

  /** `filterOneOffs`: the comments that occur more than once, each kept at
      every one of its occurrences and in order. */
  function FilterOneOffs(comments: seq<string>): (r: seq<string>)
    ensures IsSubsequence(r, comments)
    ensures forall c :: multiset(r)[c] == if multiset(comments)[c] > 1 then multiset(comments)[c] else 0
  {
    FilterSubsequence(comments, (c: string) => multiset(comments)[c] > 1);
    FilterCount(comments, (c: string) => multiset(comments)[c] > 1);
    Filter(comments, (c: string) => multiset(comments)[c] > 1)
  }

  /** A comment survives exactly when it occurs at least twice. */
  lemma FilterOneOffsMembership(comments: seq<string>, c: string)
    ensures c in FilterOneOffs(comments) <==> multiset(comments)[c] >= 2
  {
    var r := FilterOneOffs(comments);
    assert c in r <==> multiset(r)[c] > 0;
  }

  /** Filtering a second time keeps everything: every survivor still occurs
      more than once. */
  lemma FilterOneOffsIdempotent(comments: seq<string>)
    ensures FilterOneOffs(FilterOneOffs(comments)) == FilterOneOffs(comments)
  {
    var r := FilterOneOffs(comments);
    forall i | 0 <= i < |r|
      ensures multiset(r)[r[i]] > 1
    {
      assert r[i] in multiset(r);
    }
    FilterAll(r, (c: string) => multiset(r)[c] > 1);
  }

  function Comments(es: seq<FeedbackEntry>): (r: seq<string>)
    ensures |r| == |es|
    ensures forall k | 0 <= k < |r| :: r[k] == es[k].qualitativeFeedback
  {
    if |es| == 0 then [] else [es[0].qualitativeFeedback] + Comments(es[1..])
  }

  datatype QualitativeSummary = QualitativeSummary(
    strengths: seq<string>,
    opportunities: seq<string>,
    quotes: seq<string>)

  /** The key phrases of the positive, respectively the other, entries of `v`. */
  function StrengthPhrases(entries: seq<FeedbackEntry>, v: Value): seq<string> {
    PhrasesOf(Filter(EntriesFor(entries, v), Positive))
  }

  function OpportunityPhrases(entries: seq<FeedbackEntry>, v: Value): seq<string> {
    PhrasesOf(Filter(EntriesFor(entries, v), (e: FeedbackEntry) => !Positive(e)))
  }

  /** `analyzeQualitativeFeedback`: strengths are the recurring key phrases
      of positive entries of `v`, opportunities those of the other entries,
      each kept in order and as often as it occurs, and the quotes are at
      most three comments of positive entries. */
  function AnalyzeQualitativeFeedback(entries: seq<FeedbackEntry>, v: Value): (r: QualitativeSummary)
    ensures forall p :: p in r.strengths <==> multiset(StrengthPhrases(entries, v))[p] >= 2
    ensures forall p :: p in r.opportunities <==> multiset(OpportunityPhrases(entries, v))[p] >= 2
    ensures IsSubsequence(r.strengths, StrengthPhrases(entries, v))
    ensures IsSubsequence(r.opportunities, OpportunityPhrases(entries, v))
    ensures forall p ::
              multiset(r.strengths)[p] == if multiset(StrengthPhrases(entries, v))[p] > 1 then multiset(StrengthPhrases(entries, v))[p] else 0
    ensures forall p ::
              multiset(r.opportunities)[p] == if multiset(OpportunityPhrases(entries, v))[p] > 1 then multiset(OpportunityPhrases(entries, v))[p] else 0
    ensures AllKeyPhrases(r.strengths) && AllKeyPhrases(r.opportunities)
    ensures |r.quotes| <= 3
  {
    var positives := Filter(EntriesFor(entries, v), Positive);
    var strengths := FilterOneOffs(StrengthPhrases(entries, v));
    var opportunities := FilterOneOffs(OpportunityPhrases(entries, v));
    forall p
      ensures p in strengths <==> multiset(StrengthPhrases(entries, v))[p] >= 2
      ensures p in opportunities <==> multiset(OpportunityPhrases(entries, v))[p] >= 2
    {
      FilterOneOffsMembership(StrengthPhrases(entries, v), p);
      FilterOneOffsMembership(OpportunityPhrases(entries, v), p);
    }
    PhrasesOfAreKeyPhrases(positives);
    PhrasesOfAreKeyPhrases(Filter(EntriesFor(entries, v), (e: FeedbackEntry) => !Positive(e)));
    KeyPhrasesSurvive(StrengthPhrases(entries, v));
    KeyPhrasesSurvive(OpportunityPhrases(entries, v));
    QualitativeSummary(strengths, opportunities, Take(Comments(positives), 3))
  }

  lemma KeyPhrasesSurvive(phrases: seq<string>)
    requires AllKeyPhrases(phrases)
    ensures AllKeyPhrases(FilterOneOffs(phrases))
  {
    var r := FilterOneOffs(phrases);
    forall k | 0 <= k < |r|
      ensures IsKeyPhrase(r[k])
    {
      assert r[k] in multiset(r);
      assert r[k] in multiset(phrases);
      var j :| 0 <= j < |phrases| && phrases[j] == r[k];
    }
  }

  /** Every quote is the comment of a positive entry for `v`, and the quotes
      are the first such comments in entry order. */
  lemma QuotesSound(entries: seq<FeedbackEntry>, v: Value, q: string)
    requires q in AnalyzeQualitativeFeedback(entries, v).quotes
    ensures exists e | e in entries :: e.value == v && Positive(e) && e.qualitativeFeedback == q
  {
    var positives := Filter(EntriesFor(entries, v), Positive);
    var cs := Comments(positives);
    var quotes := AnalyzeQualitativeFeedback(entries, v).quotes;
    var i :| 0 <= i < |quotes| && quotes[i] == q;
    assert quotes == cs[..|quotes|];
    var e := positives[i];
    assert e in positives;
    FilterMembership(EntriesFor(entries, v), Positive, e);
    EntriesForMembership(entries, v, e);
  }

  /** The quotes are the leading positive comments, in entry order. */
  lemma QuotesArePrefix(entries: seq<FeedbackEntry>, v: Value)
    ensures AnalyzeQualitativeFeedback(entries, v).quotes
         == Take(Comments(Filter(EntriesFor(entries, v), Positive)), 3)
  {
  }

  /** A value nobody rated has no strengths, opportunities or quotes. */
  lemma UnratedValueIsEmpty(entries: seq<FeedbackEntry>, v: Value)
    requires forall e | e in entries :: e.value != v
    ensures AnalyzeQualitativeFeedback(entries, v) == QualitativeSummary([], [], [])
  {
    var ve := EntriesFor(entries, v);
    if |ve| > 0 {
      EntriesForMembership(entries, v, ve[0]);
    }
  }

  /** Two colleagues who praise `v` in the same one-sentence comment make
      that sentence a strength, reported once per mention. */
  lemma SharedPraiseIsStrength(e1: FeedbackEntry, e2: FeedbackEntry, v: Value)
    requires e1.value == v && e2.value == v && Positive(e1) && Positive(e2)
    requires e1.qualitativeFeedback == e2.qualitativeFeedback
    requires BreakFree(e1.qualitativeFeedback) && Utf16Length(e1.qualitativeFeedback) > 10
    ensures var p := Trim(ToLower(e1.qualitativeFeedback));
      AnalyzeQualitativeFeedback([e1, e2], v).strengths == [p, p]
  {
    var c := e1.qualitativeFeedback;
    var p := Trim(ToLower(c));
    var es := [e1, e2];
    FilterAll(es, (e: FeedbackEntry) => e.value == v);
    FilterAll(es, Positive);
    KeyPhrasesOfOneSentence(c);
    PhrasesOfPair(e1, e2, [p]);
    var phrases := StrengthPhrases(es, v);
    assert phrases == [p, p];
    RepeatedPairSurvives(p);
  }

  lemma PhrasesOfPair(e1: FeedbackEntry, e2: FeedbackEntry, ps: seq<string>)
    requires KeyPhrases(e1.qualitativeFeedback) == ps && KeyPhrases(e2.qualitativeFeedback) == ps
    ensures PhrasesOf([e1, e2]) == ps + ps
  {
    var es := [e1, e2];
    assert es[0] == e1 && es[1..] == [e2];
    assert [e2][0] == e2 && [e2][1..] == [];
    assert PhrasesOf([e2]) == ps + PhrasesOf([]);
    assert PhrasesOf(es) == ps + PhrasesOf([e2]);
  }

  lemma RepeatedPairSurvives(p: string)
    ensures FilterOneOffs([p, p]) == [p, p]
  {
    assert multiset([p, p])[p] == 2;
    FilterAll([p, p], (c: string) => multiset([p, p])[c] > 1);
  }
}
