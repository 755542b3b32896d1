/** Feedback aggregation: survey answers become rated feedback entries,
    entries become per-value averages, repeated comment phrases, quotes,
    stakeholder alignment percentages, and finally a report. */
module FeedbackAnalysis {
  import opened Basics
  import opened Text
  import opened FeedbackTypes

  // ================================================================ survey conversion

  /** The survey question that asks about each value. */
  function QuestionFor(v: Value): string {
    match v
    case Collaboration => "How well does the person collaborate with others?"
    case Respect => "How respectful is the person in their interactions?"
    case Transparency => "How transparent is the person in their communication?"
    case Communication => "How effective is the person's communication?"
  }

  /** `SURVEY_TO_VALUE_MAP[question]`: only the four exact question texts
      map to a value, and each maps to the value it asks about. */
  function SurveyValue(question: string): (r: Option<Value>)
    ensures r.Some? ==> question == QuestionFor(r.value)
    ensures (exists v: Value :: question == QuestionFor(v)) ==> r.Some?
  {
    if question == QuestionFor(Collaboration) then Some(Collaboration)
    else if question == QuestionFor(Respect) then Some(Respect)
    else if question == QuestionFor(Transparency) then Some(Transparency)
    else if question == QuestionFor(Communication) then Some(Communication)
    else None
  }

  /** A field value of a stored survey response, by its JavaScript type. */
  datatype FieldValue = Num(n: int) | Str(s: string) | OtherType

  /** A stored survey response: its fields in JavaScript's enumeration order. */
  type SurveyRecord = seq<(string, FieldValue)>

  predicate DistinctKeys(rec: SurveyRecord) {
    forall i, j | 0 <= i < j < |rec| :: rec[i].0 != rec[j].0
  }

  function Lookup(rec: SurveyRecord, key: string): Option<FieldValue> {
    if |rec| == 0 then None
    else if rec[0].0 == key then Some(rec[0].1)
    else Lookup(rec[1..], key)
  }

  /** `response[question + '_comments'] || ''`, for string comments. */
  function CommentFor(rec: SurveyRecord, question: string): string {
    match Lookup(rec, question + "_comments")
    case Some(Str(c)) => c
    case _ => ""
  }

  /** `response.fromUserId || 'anonymous'`, for string ids. */
  function FromUserOf(rec: SurveyRecord): string {
    match Lookup(rec, "fromUserId")
    case Some(Str(u)) => if u == "" then "anonymous" else u
    case _ => "anonymous"
  }

  /** The keywords of each rung of the rating ladder; rung 1 has none. */
  function KeywordsFor(level: int): seq<string> {
    if level == 5 then ["excellent", "always"]
    else if level == 4 then ["very good", "usually"]
    else if level == 3 then ["good", "sometimes"]
    else if level == 2 then ["fair", "rarely"]
    else []
  }

  /** Some keyword of rung `level` occurs in the lower-cased answer. */
  predicate HasKeyword(lower: string, level: int) {
    exists w | w in KeywordsFor(level) :: Contains(lower, w)
  }

  lemma HasKeywordCases(lower: string, level: int)
    ensures HasKeyword(lower, level) <==>
      2 <= level <= 5 && (Contains(lower, KeywordsFor(level)[0]) || Contains(lower, KeywordsFor(level)[1]))
  {
    if 2 <= level <= 5 {
      assert |KeywordsFor(level)| == 2;
      assert forall w :: w in KeywordsFor(level) <==> w == KeywordsFor(level)[0] || w == KeywordsFor(level)[1];
    }
  }

  /** The rating of a text answer: the highest rung whose keyword occurs in
      the lower-cased answer, or 1 when none does. */
  function TextRating(answer: string): (r: int)
    ensures 1 <= r <= 5
    ensures r == 1 || HasKeyword(ToLower(answer), r)
    ensures forall level | r < level :: !HasKeyword(ToLower(answer), level)
  {
    var lower := ToLower(answer);
    HasKeywordCases(lower, 5);
    HasKeywordCases(lower, 4);
    HasKeywordCases(lower, 3);
    HasKeywordCases(lower, 2);
    assert forall level | level > 5 || level < 2 :: !HasKeyword(lower, level) by {
      forall level | level > 5 || level < 2
        ensures !HasKeyword(lower, level)
      {
        HasKeywordCases(lower, level);
      }
    }
    if Contains(lower, "excellent") || Contains(lower, "always") then 5
    else if Contains(lower, "very good") || Contains(lower, "usually") then 4
    else if Contains(lower, "good") || Contains(lower, "sometimes") then 3
    else if Contains(lower, "fair") || Contains(lower, "rarely") then 2
    else 1
  }

  /** "Very good" is rated 4 although it also contains "good": the ladder is
      tried from the top. */
  lemma VeryGoodRatesFour(answer: string)
    requires Contains(ToLower(answer), "very good")
    requires !Contains(ToLower(answer), "excellent") && !Contains(ToLower(answer), "always")
    ensures TextRating(answer) == 4
  {
    HasKeywordCases(ToLower(answer), 4);
    HasKeywordCases(ToLower(answer), 5);
  }

  /** The rating of any answer: numbers pass through unchecked, text goes
      through the keyword ladder, anything else is neutral. */
  function RatingOf(answer: FieldValue): (r: int)
    ensures answer.Num? ==> r == answer.n
    ensures answer.Str? ==> 1 <= r <= 5
    ensures answer.OtherType? ==> r == 3
  {
    match answer
    case Num(n) => n
    case Str(s) => TextRating(s)
    case OtherType => 3
  }

  function EntryFor(rec: SurveyRecord, field: (string, FieldValue), v: Value, userId: string, surveyId: string): FeedbackEntry {
    FeedbackEntry(FromUserOf(rec), userId, v, RatingOf(field.1), CommentFor(rec, field.0), surveyId)
  }

  /** The entries one response yields from the fields `fields` (a suffix of
      `rec`): one per field whose key is a mapped question, in field order. */
  function FieldEntries(rec: SurveyRecord, fields: seq<(string, FieldValue)>, userId: string, surveyId: string): (r: seq<FeedbackEntry>)
    ensures |r| <= |fields|
    ensures forall k | 0 <= k < |r| ::
      r[k].toUserId == userId && r[k].surveyId == surveyId && r[k].fromUserId == FromUserOf(rec)
  {
    if |fields| == 0 then []
    else
      var rest := FieldEntries(rec, fields[1..], userId, surveyId);
      match SurveyValue(fields[0].0)
      case None => rest
      case Some(v) => [EntryFor(rec, fields[0], v, userId, surveyId)] + rest
  }

  /** Every entry comes from a field whose key is the question of the
      entry's value: its rating is that field's answer rated, its comment is
      the comment stored for that question. */
  lemma {:induction false} FieldEntriesSound(rec: SurveyRecord, fields: seq<(string, FieldValue)>, userId: string, surveyId: string, e: FeedbackEntry)
    requires e in FieldEntries(rec, fields, userId, surveyId)
    ensures exists f | f in fields ::
      f.0 == QuestionFor(e.value) && e == EntryFor(rec, f, e.value, userId, surveyId)
  {
    var rest := FieldEntries(rec, fields[1..], userId, surveyId);
    if e in rest {
      FieldEntriesSound(rec, fields[1..], userId, surveyId, e);
      var f :| f in fields[1..] && f.0 == QuestionFor(e.value) && e == EntryFor(rec, f, e.value, userId, surveyId);
      assert f in fields;
    } else {
      assert fields[0] in fields;
    }
  }

  /** Every field whose key is a mapped question yields its entry. */
  lemma {:induction false} FieldEntriesComplete(rec: SurveyRecord, fields: seq<(string, FieldValue)>, userId: string, surveyId: string, f: (string, FieldValue))
    requires f in fields && SurveyValue(f.0).Some?
    ensures EntryFor(rec, f, SurveyValue(f.0).value, userId, surveyId) in FieldEntries(rec, fields, userId, surveyId)
  {
    if f != fields[0] {
      FieldEntriesComplete(rec, fields[1..], userId, surveyId, f);
    }
  }

  /** The entries of one survey response. */
  function RecordEntries(rec: SurveyRecord, userId: string, surveyId: string): seq<FeedbackEntry> {
    FieldEntries(rec, rec, userId, surveyId)
  }

  predicate DistinctValues(es: seq<FeedbackEntry>) {
    forall i, j | 0 <= i < j < |es| :: es[i].value != es[j].value
  }

  /** With distinct field keys (as in any JavaScript object), the mapped
      fields name distinct questions, so the entries rate distinct values. */
  lemma {:induction false} FieldEntriesDistinct(rec: SurveyRecord, fields: seq<(string, FieldValue)>, userId: string, surveyId: string)
    requires DistinctKeys(fields)
    ensures DistinctValues(FieldEntries(rec, fields, userId, surveyId))
  {
    if |fields| > 0 {
      var tail := fields[1..];
      var rest := FieldEntries(rec, tail, userId, surveyId);
      DistinctKeysTail(fields);
      FieldEntriesDistinct(rec, tail, userId, surveyId);
      match SurveyValue(fields[0].0)
      case None =>
      case Some(v) =>
        HeadValueFresh(rec, fields, userId, surveyId, v);
        ConsDistinct(EntryFor(rec, fields[0], v, userId, surveyId), rest);
    }
  }

  lemma DistinctKeysTail(fields: seq<(string, FieldValue)>)
    requires |fields| > 0 && DistinctKeys(fields)
    ensures DistinctKeys(fields[1..])
  {
    var tail := fields[1..];
    forall i, j | 0 <= i < j < |tail|
      ensures tail[i].0 != tail[j].0
    {
      assert tail[i] == fields[i + 1] && tail[j] == fields[j + 1];
    }
  }

  /** The value of the first mapped field is not rated again later. */
  lemma HeadValueFresh(rec: SurveyRecord, fields: seq<(string, FieldValue)>, userId: string, surveyId: string, v: Value)
    requires |fields| > 0 && DistinctKeys(fields) && SurveyValue(fields[0].0) == Some(v)
    ensures forall e | e in FieldEntries(rec, fields[1..], userId, surveyId) :: e.value != v
  {
    var tail := fields[1..];
    forall e | e in FieldEntries(rec, tail, userId, surveyId)
      ensures e.value != v
    {
      FieldEntriesSound(rec, tail, userId, surveyId, e);
      var f :| f in tail && f.0 == QuestionFor(e.value) && e == EntryFor(rec, f, e.value, userId, surveyId);
      var j :| 0 <= j < |tail| && tail[j] == f;
      assert fields[j + 1] == f;
      assert fields[0].0 != f.0;
      QuestionForInjective(v, e.value);
    }
  }

  /** An entry for a new value keeps the values distinct. */
  lemma ConsDistinct(x: FeedbackEntry, rest: seq<FeedbackEntry>)
    requires DistinctValues(rest)
    requires forall e | e in rest :: e.value != x.value
    ensures DistinctValues([x] + rest)
  {
    var r := [x] + rest;
    forall i, j | 0 <= i < j < |r|
      ensures r[i].value != r[j].value
    {
      assert r[j] == rest[j - 1];
      if i > 0 {
        assert r[i] == rest[i - 1];
      }
    }
  }

  /** Distinct values are asked about by distinct questions. */
  lemma QuestionForInjective(v: Value, w: Value)
    ensures QuestionFor(v) == QuestionFor(w) <==> v == w
  {
    QuestionLength(v);
    QuestionLength(w);
  }

  /** The four questions have different lengths. */
  lemma QuestionLength(v: Value)
    ensures |QuestionFor(v)| == match v
      case Collaboration => 49
      case Respect => 51
      case Transparency => 53
      case Communication => 44
  {
    match v
    case Collaboration => CollaborationQuestionLength();
    case Respect => RespectQuestionLength();
    case Transparency => TransparencyQuestionLength();
    case Communication => CommunicationQuestionLength();
  }

  lemma CollaborationQuestionLength()
    ensures |QuestionFor(Collaboration)| == 49
  {
  }

  lemma RespectQuestionLength()
    ensures |QuestionFor(Respect)| == 51
  {
  }

  lemma TransparencyQuestionLength()
    ensures |QuestionFor(Transparency)| == 53
  {
  }

  lemma CommunicationQuestionLength()
    ensures |QuestionFor(Communication)| == 44
  {
  }

  /** A sequence of distinct values has at most four elements. */
  lemma DistinctValuesAtMostFour(es: seq<FeedbackEntry>)
    requires DistinctValues(es)
    ensures |es| <= 4
  {
    var vs := ValueSet(es);
    var all: set<Value> := {Collaboration, Respect, Transparency, Communication};
    assert vs <= all by {
      forall v | v in vs
        ensures v in all
      {
        match v
        case Collaboration =>
        case Respect =>
        case Transparency =>
        case Communication =>
      }
    }
    SetSizeBound(vs, all);
    DistinctIndexImage(es);
  }

  lemma SetSizeBound(a: set<Value>, b: set<Value>)
    requires a <= b
    ensures |a| <= |b|
  {
    assert b == a + (b - a);
  }

  /** A sequence of entries with distinct values has as many values as entries. */
  lemma {:induction false} DistinctIndexImage(es: seq<FeedbackEntry>)
    requires DistinctValues(es)
    ensures |ValueSet(es)| == |es|
  {
    if |es| > 0 {
      DistinctValuesTail(es);
      DistinctIndexImage(es[1..]);
      ValueSetCons(es);
      HeadValueNotInTail(es);
    }
  }

  /** The values of the entries, as a set. */
  function ValueSet(es: seq<FeedbackEntry>): set<Value> {
    set k | 0 <= k < |es| :: es[k].value
  }

  lemma DistinctValuesTail(es: seq<FeedbackEntry>)
    requires |es| > 0 && DistinctValues(es)
    ensures DistinctValues(es[1..])
  {
    var tail := es[1..];
    forall i, j | 0 <= i < j < |tail|
      ensures tail[i].value != tail[j].value
    {
      assert tail[i] == es[i + 1] && tail[j] == es[j + 1];
    }
  }

  lemma ValueSetCons(es: seq<FeedbackEntry>)
    requires |es| > 0
    ensures ValueSet(es) == ValueSet(es[1..]) + {es[0].value}
  {
    var tail := es[1..];
    forall v | v in ValueSet(es)
      ensures v in ValueSet(tail) + {es[0].value}
    {
      var k :| 0 <= k < |es| && es[k].value == v;
      if k > 0 {
        assert tail[k - 1] == es[k];
      }
    }
    forall v | v in ValueSet(tail)
      ensures v in ValueSet(es)
    {
      var k :| 0 <= k < |tail| && tail[k].value == v;
      assert es[k + 1] == tail[k];
    }
  }

  lemma HeadValueNotInTail(es: seq<FeedbackEntry>)
    requires |es| > 0 && DistinctValues(es)
    ensures es[0].value !in ValueSet(es[1..])
  {
    var tail := es[1..];
    forall k | 0 <= k < |tail|
      ensures tail[k].value != es[0].value
    {
      assert tail[k] == es[k + 1];
    }
  }


  /** One survey response yields at most four entries, at most one per value. */
  lemma AtMostOneEntryPerValue(rec: SurveyRecord, userId: string, surveyId: string)
    requires DistinctKeys(rec)
    ensures DistinctValues(RecordEntries(rec, userId, surveyId))
    ensures |RecordEntries(rec, userId, surveyId)| <= 4
  {
    FieldEntriesDistinct(rec, rec, userId, surveyId);
    DistinctValuesAtMostFour(RecordEntries(rec, userId, surveyId));
  }

  /** `convertSurveyToFeedback`: the entries of every response, in order.
      Every entry is addressed to the given user and survey. */
  function ConvertSurveyToFeedback(data: seq<SurveyRecord>, userId: string, surveyId: string): (r: seq<FeedbackEntry>)
    ensures forall k | 0 <= k < |r| :: r[k].toUserId == userId && r[k].surveyId == surveyId
  {
    if |data| == 0 then []
    else RecordEntries(data[0], userId, surveyId) + ConvertSurveyToFeedback(data[1..], userId, surveyId)
  }

  /** Responses that are proper objects yield at most four entries each. */
  lemma {:induction false} ConvertedAtMostFourEach(data: seq<SurveyRecord>, userId: string, surveyId: string)
    requires forall i | 0 <= i < |data| :: DistinctKeys(data[i])
    ensures |ConvertSurveyToFeedback(data, userId, surveyId)| <= 4 * |data|
  {
    if |data| > 0 {
      DistinctKeysHeadTail(data, userId, surveyId);
      ConvertedAtMostFourEach(data[1..], userId, surveyId);
    }
  }

  lemma DistinctKeysHeadTail(data: seq<SurveyRecord>, userId: string, surveyId: string)
    requires |data| > 0 && forall i | 0 <= i < |data| :: DistinctKeys(data[i])
    ensures |RecordEntries(data[0], userId, surveyId)| <= 4
    ensures forall i | 0 <= i < |data[1..]| :: DistinctKeys(data[1..][i])
  {
    AtMostOneEntryPerValue(data[0], userId, surveyId);
    assert forall i | 0 <= i < |data[1..]| :: data[1..][i] == data[i + 1];
  }

  /** Every converted entry is the entry of some response's mapped field. */
  lemma {:induction false} ConvertedEntrySound(data: seq<SurveyRecord>, userId: string, surveyId: string, e: FeedbackEntry)
    requires e in ConvertSurveyToFeedback(data, userId, surveyId)
    ensures exists rec, f | rec in data && f in rec ::
      f.0 == QuestionFor(e.value) && e == EntryFor(rec, f, e.value, userId, surveyId)
  {
    var first := RecordEntries(data[0], userId, surveyId);
    if e in first {
      FieldEntriesSound(data[0], data[0], userId, surveyId, e);
      assert data[0] in data;
    } else {
      ConvertedEntrySound(data[1..], userId, surveyId, e);
      var rec, f :| rec in data[1..] && f in rec && f.0 == QuestionFor(e.value) && e == EntryFor(rec, f, e.value, userId, surveyId);
      assert rec in data;
    }
  }

  /** Numeric answers to the four mapped questions all lie on the 1..5 scale. */
  predicate NumericAnswersInScale(data: seq<SurveyRecord>) {
    forall rec, f | rec in data && f in rec ::
      SurveyValue(f.0).Some? && f.1.Num? ==> ValidRating(f.1.n)
  }

  /** Converted ratings are on the declared scale when the numeric answers
      are, since text and other answers always rate within 1..5. */
  lemma ConvertedRatingsValid(data: seq<SurveyRecord>, userId: string, surveyId: string)
    requires NumericAnswersInScale(data)
    ensures AllValidRatings(ConvertSurveyToFeedback(data, userId, surveyId))
  {
    var r := ConvertSurveyToFeedback(data, userId, surveyId);
    forall k | 0 <= k < |r|
      ensures ValidRating(r[k].rating)
    {
      ConvertedEntrySound(data, userId, surveyId, r[k]);
      var rec, f :| rec in data && f in rec && f.0 == QuestionFor(r[k].value) && r[k] == EntryFor(rec, f, r[k].value, userId, surveyId);
      assert SurveyValue(f.0).Some?;
    }
  }

  // ================================================================ value scores

  /** `entries.filter(entry => entry.value === value)`. */
  function EntriesFor(entries: seq<FeedbackEntry>, v: Value): (r: seq<FeedbackEntry>)
    ensures forall k | 0 <= k < |r| :: r[k].value == v
  {
    Filter(entries, (e: FeedbackEntry) => e.value == v)
  }

  /** An entry is selected exactly when it is among the entries and rates `v`. */
  lemma EntriesForMembership(entries: seq<FeedbackEntry>, v: Value, e: FeedbackEntry)
    ensures e in EntriesFor(entries, v) <==> e in entries && e.value == v
  {
    FilterMembership(entries, (e: FeedbackEntry) => e.value == v, e);
  }

  /** Selecting the entries of a value a second time changes nothing. */
  lemma EntriesForIdempotent(entries: seq<FeedbackEntry>, v: Value)
    ensures EntriesFor(EntriesFor(entries, v), v) == EntriesFor(entries, v)
  {
    FilterAll(EntriesFor(entries, v), (e: FeedbackEntry) => e.value == v);
  }

  /** The selected entries of valid entries are valid. */
  lemma EntriesForValid(entries: seq<FeedbackEntry>, v: Value)
    requires AllValidRatings(entries)
    ensures AllValidRatings(EntriesFor(entries, v))
  {
    var r := EntriesFor(entries, v);
    forall k | 0 <= k < |r|
      ensures ValidRating(r[k].rating)
    {
      EntriesForMembership(entries, v, r[k]);
      var m :| 0 <= m < |entries| && entries[m] == r[k];
    }
  }

  function SumRatings(es: seq<FeedbackEntry>): int {
    if |es| == 0 then 0 else es[0].rating + SumRatings(es[1..])
  }

  lemma {:induction false} SumRatingsBounds(es: seq<FeedbackEntry>, lo: int, hi: int)
    requires forall k | 0 <= k < |es| :: lo <= es[k].rating <= hi
    ensures lo * |es| <= SumRatings(es) <= hi * |es|
  {
    if |es| > 0 {
      assert forall k | 0 <= k < |es[1..]| :: es[1..][k] == es[k + 1];
      SumRatingsBounds(es[1..], lo, hi);
      MulSucc(lo, |es| - 1);
      MulSucc(hi, |es| - 1);
    }
  }

  lemma MulSucc(a: int, n: nat)
    ensures a * (n + 1) == a * n + a
  {
  }

  /** The mean of the ratings. */
  function Average(es: seq<FeedbackEntry>): real
    requires |es| > 0
  {
    SumRatings(es) as real / |es| as real
  }

  lemma CastMul(a: int, b: int)
    ensures (a * b) as real == a as real * b as real
  {
  }

  lemma QuotientWithin(s: real, n: real, lo: real, hi: real)
    requires n > 0.0 && lo * n <= s <= hi * n
    ensures lo <= s / n <= hi
  {
    assert s / n - lo == (s - lo * n) / n;
    assert hi - s / n == (hi * n - s) / n;
  }

  /** The mean of ratings that all lie in [lo, hi] lies in [lo, hi]. */
  lemma AverageWithin(es: seq<FeedbackEntry>, lo: int, hi: int)
    requires |es| > 0
    requires forall k | 0 <= k < |es| :: lo <= es[k].rating <= hi
    ensures lo as real <= Average(es) <= hi as real
  {
    SumRatingsBounds(es, lo, hi);
    CastMul(lo, |es|);
    CastMul(hi, |es|);
    QuotientWithin(SumRatings(es) as real, |es| as real, lo as real, hi as real);
  }

  /** `calculateValueScore`: 0 when the value has no entries, otherwise the
      mean rating of its entries, which for ratings on the declared scale
      lies in [1, 5]. */
  function CalculateValueScore(entries: seq<FeedbackEntry>, v: Value): (r: real)
    ensures |EntriesFor(entries, v)| == 0 ==> r == 0.0
    ensures AllValidRatings(entries) && |EntriesFor(entries, v)| > 0 ==> 1.0 <= r <= 5.0
  {
    var ve := EntriesFor(entries, v);
    if |ve| == 0 then 0.0
    else
      assert AllValidRatings(entries) ==> 1.0 <= Average(ve) <= 5.0 by {
        if AllValidRatings(entries) {
          EntriesForValid(entries, v);
          AverageWithin(ve, 1, 5);
        }
      }
      Average(ve)
  }

  /** The score of a value lies between the lowest and the highest rating
      given for that value. */
  lemma ValueScoreWithinRatings(entries: seq<FeedbackEntry>, v: Value, lo: int, hi: int)
    requires |EntriesFor(entries, v)| > 0
    requires forall e | e in entries && e.value == v :: lo <= e.rating <= hi
    ensures lo as real <= CalculateValueScore(entries, v) <= hi as real
  {
    var ve := EntriesFor(entries, v);
    forall k | 0 <= k < |ve|
      ensures lo <= ve[k].rating <= hi
    {
      EntriesForMembership(entries, v, ve[k]);
    }
    AverageWithin(ve, lo, hi);
  }
}
