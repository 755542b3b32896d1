/** The feedback report: a section per value (average, trend, recurring
    strengths and opportunities, quotes), a section per stakeholder group
    (alignment and evidence), and overall trends that list the first
    strengths, opportunities and derived action items. */
module Report {
  import opened Basics
  import opened Text
  import opened FeedbackTypes
  import opened FeedbackAnalysis
  import opened Qualitative
  import opened Alignment

  /** The report section of one value; the trend is always stable, since no
      earlier report is consulted. */
  function ValueScoreOf(entries: seq<FeedbackEntry>, v: Value): (r: ValueScore)
    ensures r.trend == Stable
    ensures |r.supportingQuotes| <= 3
    ensures AllKeyPhrases(r.strengths) && AllKeyPhrases(r.opportunities)
  {
    var q := AnalyzeQualitativeFeedback(entries, v);
    ValueScore(CalculateValueScore(entries, v), Stable, q.strengths, q.opportunities, q.quotes)
  }

  /** The strengths, respectively opportunities, of every value, in the
      order the values are declared. */
  function AllStrengths(scores: map<Value, ValueScore>): seq<string>
    requires forall v: Value :: v in scores
  {
    scores[Collaboration].strengths + scores[Respect].strengths
      + scores[Transparency].strengths + scores[Communication].strengths
  }

  function AllOpportunities(scores: map<Value, ValueScore>): seq<string>
    requires forall v: Value :: v in scores
  {
    scores[Collaboration].opportunities + scores[Respect].opportunities
      + scores[Transparency].opportunities + scores[Communication].opportunities
  }

  /** `Focus on ${opportunity.toLowerCase()}` for each opportunity. */
  function ActionItems(opportunities: seq<string>): (r: seq<string>)
    ensures |r| == |opportunities|
    ensures forall i | 0 <= i < |r| :: r[i] == "Focus on " + ToLower(opportunities[i])
  {
    if |opportunities| == 0 then []
    else ["Focus on " + ToLower(opportunities[0])] + ActionItems(opportunities[1..])
  }

  /** Every value's section, keyed by value. */
  function ValueScores(entries: seq<FeedbackEntry>): (r: map<Value, ValueScore>)
    ensures forall v: Value :: v in r && r[v] == ValueScoreOf(entries, v)
  {
    ValueDefinitionsCoverEachValueOnce();
    map v | v in AllValues :: ValueScoreOf(entries, v)
  }

  /** Every stakeholder group's section, keyed by group, from the link
      table as the program has it. */
  function Alignments(entries: seq<FeedbackEntry>): (r: map<StakeholderType, StakeholderAlignment>)
    ensures forall t: StakeholderType :: t in r && r[t] == CalculateStakeholderAlignmentAsWritten(entries, t)
  {
    StakeholderTableCoversEachGroupOnce();
    map t | t in AllStakeholders :: CalculateStakeholderAlignmentAsWritten(entries, t)
  }

  /** The same sections from the corrected link table. */
  function IntendedAlignments(entries: seq<FeedbackEntry>): (r: map<StakeholderType, StakeholderAlignment>)
    ensures forall t: StakeholderType :: t in r && r[t] == CalculateStakeholderAlignment(entries, t)
  {
    StakeholderTableCoversEachGroupOnce();
    map t | t in AllStakeholders :: CalculateStakeholderAlignment(entries, t)
  }

  predicate AllKeyPhrasesOver(scores: map<Value, ValueScore>)
    requires forall v: Value :: v in scores
  {
    forall v: Value :: AllKeyPhrases(scores[v].opportunities)
  }

  /** `generateFeedbackReportFromEntries`. Every value has the section its
      entries give it and every group the section of the alignment as the
      program computes it; the overall strengths and opportunities are the
      first three of all values' lists, in the order the values are
      declared; each action item is "Focus on " followed by the overall
      opportunity in the same place; and for ratings on the scale every
      average is 0 or in [1, 5] and every alignment is in [0, 100]. */
  function GenerateFeedbackReportFromEntries(userId: string, surveyId: string, entries: seq<FeedbackEntry>): (r: FeedbackReport)
    ensures r.userId == userId && r.surveyId == surveyId
    ensures forall v: Value :: v in r.valueScores && r.valueScores[v] == ValueScoreOf(entries, v)
    ensures forall t: StakeholderType ::
      t in r.stakeholderAlignment && r.stakeholderAlignment[t] == CalculateStakeholderAlignmentAsWritten(entries, t)
    ensures r.overallTrends.strengths == Take(AllStrengths(r.valueScores), 3)
    ensures r.overallTrends.opportunities == Take(AllOpportunities(r.valueScores), 3)
    ensures |r.overallTrends.actionItems| == |r.overallTrends.opportunities|
    ensures forall i | 0 <= i < |r.overallTrends.actionItems| ::
      r.overallTrends.actionItems[i] == "Focus on " + r.overallTrends.opportunities[i]
    ensures AllValidRatings(entries) ==> forall v: Value ::
      r.valueScores[v].averageScore == 0.0 || 1.0 <= r.valueScores[v].averageScore <= 5.0
    ensures AllValidRatings(entries) ==> forall t: StakeholderType ::
      0 <= r.stakeholderAlignment[t].alignment <= 100
  {
    var scores := ValueScores(entries);
    var alignments := Alignments(entries);
    var opportunities := AllOpportunities(scores);
    OpportunitiesAreKeyPhrases(entries);
    ActionItemsFollowOpportunities(opportunities);
    assert AllValidRatings(entries) ==> forall t: StakeholderType :: 0 <= alignments[t].alignment <= 100 by {
      if AllValidRatings(entries) {
        AlignmentsBounded(entries);
      }
    }
    var overall := OverallTrends(Take(AllStrengths(scores), 3), Take(opportunities, 3), Take(ActionItems(opportunities), 3));
    FeedbackReport(userId, surveyId, scores, alignments, overall)
  }

  /** The report with the corrected link table: it differs from the
      program's report in the stakeholder sections only. */
  function IntendedReportFromEntries(userId: string, surveyId: string, entries: seq<FeedbackEntry>): (r: FeedbackReport)
    ensures r == GenerateFeedbackReportFromEntries(userId, surveyId, entries).(stakeholderAlignment := r.stakeholderAlignment)
    ensures forall t: StakeholderType ::
      t in r.stakeholderAlignment && r.stakeholderAlignment[t] == CalculateStakeholderAlignment(entries, t)
    ensures AllValidRatings(entries) ==> forall t: StakeholderType ::
      0 <= r.stakeholderAlignment[t].alignment <= 100
  {
    assert AllValidRatings(entries) ==> forall t: StakeholderType :: 0 <= IntendedAlignments(entries)[t].alignment <= 100 by {
      if AllValidRatings(entries) {
        AlignmentsBounded(entries);
      }
    }
    GenerateFeedbackReportFromEntries(userId, surveyId, entries).(stakeholderAlignment := IntendedAlignments(entries))
  }

  /** One Collaboration entry rated 1 and one Communication entry rated 5:
      the program reports a Referrers alignment of 60, where the corrected
      link table gives 73. */
  lemma ReportReferrersWitness(userId: string, surveyId: string)
    ensures GenerateFeedbackReportFromEntries(userId, surveyId, WitnessEntries()).stakeholderAlignment[Referrers].alignment == 60
    ensures IntendedReportFromEntries(userId, surveyId, WitnessEntries()).stakeholderAlignment[Referrers].alignment == 73
  {
    ReferrersWitness();
  }

  /** Every overall opportunity is one of the key phrases. */
  lemma OpportunitiesAreKeyPhrases(entries: seq<FeedbackEntry>)
    ensures AllKeyPhrases(AllOpportunities(ValueScores(entries)))
  {
    var scores := ValueScores(entries);
    AllKeyPhrasesConcat(scores[Collaboration].opportunities, scores[Respect].opportunities);
    AllKeyPhrasesConcat(scores[Collaboration].opportunities + scores[Respect].opportunities, scores[Transparency].opportunities);
    AllKeyPhrasesConcat(scores[Collaboration].opportunities + scores[Respect].opportunities + scores[Transparency].opportunities, scores[Communication].opportunities);
  }

  /** Key phrases are lower case, so each of the first three action items
      is "Focus on " followed by the opportunity in the same place. */
  lemma ActionItemsFollowOpportunities(opportunities: seq<string>)
    requires AllKeyPhrases(opportunities)
    ensures |Take(ActionItems(opportunities), 3)| == |Take(opportunities, 3)|
    ensures forall i | 0 <= i < |Take(ActionItems(opportunities), 3)| ::
      Take(ActionItems(opportunities), 3)[i] == "Focus on " + Take(opportunities, 3)[i]
  {
    var actions := ActionItems(opportunities);
    forall i | 0 <= i < |Take(actions, 3)|
      ensures Take(actions, 3)[i] == "Focus on " + Take(opportunities, 3)[i]
    {
      assert Take(actions, 3)[i] == actions[i];
      assert Take(opportunities, 3)[i] == opportunities[i];
      assert IsKeyPhrase(opportunities[i]);
      ToLowerOfLower(opportunities[i]);
    }
  }

  /** For ratings on the scale every group's alignment is a percentage,
      with either link table. */
  lemma AlignmentsBounded(entries: seq<FeedbackEntry>)
    requires AllValidRatings(entries)
    ensures forall t: StakeholderType :: 0 <= Alignments(entries)[t].alignment <= 100
    ensures forall t: StakeholderType :: 0 <= IntendedAlignments(entries)[t].alignment <= 100
  {
    forall t: StakeholderType
      ensures 0 <= Alignments(entries)[t].alignment <= 100
      ensures 0 <= IntendedAlignments(entries)[t].alignment <= 100
    {
      if !(exists v: Value :: Contributes(WeightForAsWritten(t), entries, v)) {
        assert forall v: Value :: !Contributes(WeightForAsWritten(t), entries, v);
      }
      if !(exists v: Value :: Contributes(WeightFor(t), entries, v)) {
        assert forall v: Value :: !Contributes(WeightFor(t), entries, v);
      }
    }
  }

  /** Every overall strength is a strength of some value. */
  lemma OverallStrengthsComeFromValues(userId: string, surveyId: string, entries: seq<FeedbackEntry>, s: string)
    requires s in GenerateFeedbackReportFromEntries(userId, surveyId, entries).overallTrends.strengths
    ensures exists v: Value :: s in AnalyzeQualitativeFeedback(entries, v).strengths
  {
    var scores := ValueScores(entries);
    var all := AllStrengths(scores);
    assert Take(all, 3) == all[..|Take(all, 3)|];
    assert s in all;
    var q := AnalyzeQualitativeFeedback;
    if s in q(entries, Collaboration).strengths {
    } else if s in q(entries, Respect).strengths {
    } else if s in q(entries, Transparency).strengths {
    } else {
      assert s in q(entries, Communication).strengths;
    }
  }

  /** Without any entry the report is empty: every average is 0, every
      alignment is 0, and there are no strengths, opportunities, quotes,
      evidence or action items. */
  lemma EmptyReport(userId: string, surveyId: string)
    ensures var r := GenerateFeedbackReportFromEntries(userId, surveyId, []);
      && (forall v: Value :: r.valueScores[v] == ValueScore(0.0, Stable, [], [], []))
      && (forall t: StakeholderType :: r.stakeholderAlignment[t] == StakeholderAlignment(0, []))
      && r.overallTrends == OverallTrends([], [], [])
  {
    forall v: Value
      ensures AnalyzeQualitativeFeedback([], v) == QualitativeSummary([], [], [])
    {
      UnratedValueIsEmpty([], v);
    }
    forall t: StakeholderType
      ensures CalculateStakeholderAlignmentAsWritten([], t) == StakeholderAlignment(0, [])
    {
      NoEntriesNoEvidence(WeightForAsWritten(t), AllValues);
    }
  }

  lemma {:induction false} NoEntriesNoEvidence(w: Value -> nat, vs: seq<Value>)
    ensures TallyOver(w, [], vs) == Tally(0.0, 0, [])
  {
    if |vs| > 0 {
      NoEntriesNoEvidence(w, vs[..|vs| - 1]);
    }
  }

  /** `generateFeedbackReportFromSurvey`: the report of the converted
      entries, so each value's section is that of its converted answers and
      the overall lists are built as for entries. When the numeric answers
      are on the scale, every average is 0 or in [1, 5] and every alignment
      in [0, 100]. */
  function GenerateFeedbackReportFromSurvey(userId: string, surveyId: string, data: seq<SurveyRecord>): (r: FeedbackReport)
    ensures r.userId == userId && r.surveyId == surveyId
    ensures forall v: Value ::
      v in r.valueScores && r.valueScores[v] == ValueScoreOf(ConvertSurveyToFeedback(data, userId, surveyId), v)
    ensures forall t: StakeholderType ::
      t in r.stakeholderAlignment
      && r.stakeholderAlignment[t] == CalculateStakeholderAlignmentAsWritten(ConvertSurveyToFeedback(data, userId, surveyId), t)
    ensures r.overallTrends.strengths == Take(AllStrengths(r.valueScores), 3)
    ensures r.overallTrends.opportunities == Take(AllOpportunities(r.valueScores), 3)
    ensures NumericAnswersInScale(data) ==> forall v: Value ::
      r.valueScores[v].averageScore == 0.0 || 1.0 <= r.valueScores[v].averageScore <= 5.0
    ensures NumericAnswersInScale(data) ==> forall t: StakeholderType ::
      0 <= r.stakeholderAlignment[t].alignment <= 100
  {
    var entries := ConvertSurveyToFeedback(data, userId, surveyId);
    assert NumericAnswersInScale(data) ==> AllValidRatings(entries) by {
      if NumericAnswersInScale(data) {
        ConvertedRatingsValid(data, userId, surveyId);
      }
    }
    GenerateFeedbackReportFromEntries(userId, surveyId, entries)
  }
}
