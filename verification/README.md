# Employee survey and feedback insights, modelled in Dafny

The application collects an eleven-question employee survey, stores the
answers, and turns them into insights:

- a dashboard with four metric cards and a bar chart per question;
- a searchable list of stored responses, newest first (a column-sort handler is defined, but no control calls it);
- a 360-degree feedback report. Free-text survey answers become 1–5
  ratings for four company values (Collaboration, Respect, Transparency,
  Communication). The ratings are averaged per value, and repeated
  comment phrases are picked out as strengths or opportunities. For three
  stakeholder groups, each group's alignment with the values is scored
  from fixed expectation tables;
- two server routes that ask a chat-completion service for an analysis or
  a one-word sentiment, then clean up and validate its reply.

This project models that logic as pure Dafny functions over immutable
sequences, maps and datatypes, one module per source file. It proves the
properties each piece promises.

| module | file | models |
|---|---|---|
| `Basics` | basics.dfy | `Option`, `Math.round` as round-half-up on reals, the percentage `round(part/total*100)`, `slice(0, n)`, `filter` |
| `Text` | text.dfy | the JavaScript string operations used: `includes`, `toLowerCase`, `trim`, `split(/[.,!?]/)`, `join`, and `.length` in UTF-16 code units |
| `Sorting` | sorting.dfy | a stable sort by an integer key, standing in for `Array.prototype.sort` |
| `FeedbackTypes` | feedback_types.dfy | values, stakeholder groups, ratings, entries, the report shape and the two constant tables |
| `FeedbackAnalysis` | feedback_analysis.dfy | `convertSurveyToFeedback` and `calculateValueScore` |
| `Qualitative` | qualitative.dfy | `analyzeQualitativeFeedback` with `filterOneOffs` |
| `Alignment` | alignment.dfy | `calculateStakeholderAlignment` |
| `Report` | report.dfy | `generateFeedbackReportFromEntries` and `generateFeedbackReportFromSurvey` |
| `ResponseChart` | response_chart.dfy | the chart's `stats`, `getBarColor` and the count label |
| `Dashboard` | dashboard.dfy | `calculateMetrics` |
| `SurveyWizard` | survey_wizard.dfy | the question table, `handleNext` and the progress bar |
| `ResponseList` | response_list.dfy | `handleSort` (defined but never called), the search filter, the `createdAt` sort and key normalisation in `renderResponseDetail` |
| `AnalyzeResponses` | analyze_responses.dfy | `cleanText`, `hasValidContent`, the prompt body and the status/fallback decisions of `POST` |
| `AnalyzeSentiment` | analyze_sentiment.dfy | the decisions of the sentiment `POST` |

Modelling choices:

- **Plain input records.** The JavaScript records whose keys are
  enumerated (`Object.entries`) are sequences of key/value pairs, in
  enumeration order.
- **Inputs in place of I/O.** The chat-completion reply, whether an API
  key is configured, and the outcome of the database save are all
  parameters.
- **Numbers.** Averages and percentages are `real`, and `Math.round(x)` is
  `Floor(x + 0.5)`.

## Model

| member | source | states |
|---|---|---|
| Basics.Round | src/lib/utils/feedbackAnalysis.ts:168-170 | the result is the integer nearest to x, with halves rounded up |
| Basics.RoundMonotone | src/lib/utils/feedbackAnalysis.ts:168-170 | rounding never reverses the order of two numbers |
| Basics.Percentage | src/components/survey/ResponsChart.tsx:25 | a share with no total is 0; a part between 0 and the total gives a percentage in 0..100; the whole gives 100 |
| Basics.PercentageMonotone | src/app/dashboard/page.tsx:72-74 | a larger count never gives a smaller percentage of the same total |
| Basics.Take | src/lib/utils/feedbackAnalysis.ts:334-336 | `slice(0, n)` is the prefix of length min(n, length) |
| Basics.FilterCount | src/lib/utils/feedbackAnalysis.ts:112 | filtering keeps every occurrence of an element the predicate accepts and drops every occurrence of one it rejects |
| Basics.FilterSubsequence | src/app/survey/responses/page.tsx:223-231 | a filtered list is a subsequence of its input, so order is kept |
| Text.ToLower | src/lib/utils/feedbackAnalysis.ts:37 | lowercasing keeps the length and maps each character to its lowercase form |
| Text.ToLowerIdempotent | src/lib/utils/feedbackAnalysis.ts:93 | lowercasing twice is lowercasing once, and the result has no capital letters |
| Text.ContainsLower | src/app/survey/responses/page.tsx:229-230 | a substring stays a substring after both sides are lowercased |
| Text.Trim | src/lib/utils/feedbackAnalysis.ts:102 | the result is the slice of the input left when a leading and a trailing run of white space are cut off: everything before it and after it is white space, and it has no white space at either end; input without white space at its ends is returned unchanged |
| Text.TrimKeepsText | src/lib/utils/feedbackAnalysis.ts:102 | trimming keeps every character that is not white space, as often as it occurs |
| Text.SplitSound | src/lib/utils/feedbackAnalysis.ts:97 | splitting on `.,!?` gives one more piece than there are separators; no piece holds a separator; the pieces concatenate back to the input without its separators |
| Text.SplitAtFirstBreak | src/lib/utils/feedbackAnalysis.ts:97 | the first piece is the text before the first separator, and the remaining pieces are the split of the text after it |
| Text.SplitBreakFree | src/lib/utils/feedbackAnalysis.ts:97 | text without a separator splits into itself |
| Text.JoinContainsParts | src/app/survey/responses/page.tsx:226-229 | every joined part occurs in the joined string |
| Text.JoinSnoc | src/app/api/analyze-responses/route.ts:38-40 | joining one more part appends the separator and that part |
| Text.Utf16Length | src/lib/utils/feedbackAnalysis.ts:97 | `.length` counts UTF-16 code units: one per character of the Basic Multilingual Plane and two per astral character, so between the number of characters and twice it |
| Text.Utf16LengthAppend | src/app/api/analyze-responses/route.ts:126 | the code-unit length of a concatenation is the sum of the lengths |
| Text.Utf16LengthBmp | src/lib/utils/feedbackAnalysis.ts:97 | text of the Basic Multilingual Plane has as many code units as characters |
| Text.ToLowerUnits | src/lib/utils/feedbackAnalysis.ts:93-97 | lowercasing keeps the length in code units |
| Sorting.SortBy | src/components/survey/ResponsChart.tsx:26 | the result is ordered by the key, is a permutation of the input and keeps the key total |
| Sorting.Insert | src/components/survey/ResponsChart.tsx:26 | inserting into an ordered list keeps it ordered and adds exactly that element |
| Sorting.InsertStable | src/components/survey/ResponsChart.tsx:26 | inserting before the first element of the same key or smaller order keeps, for every key, the elements of that key in their order, the inserted one first |
| Sorting.SortByStable | src/components/survey/ResponsChart.tsx:26 | the sort is stable: for every key, the elements with that key appear in the result in their input order |
| FeedbackTypes.ValueDefinitionsCoverEachValueOnce | src/lib/types/feedback.ts:93-129 | there are four distinct values; the definitions table lists each exactly once, in declaration order, with a non-empty list of behavioural definitions |
| FeedbackTypes.StakeholderTableCoversEachGroupOnce | src/lib/types/feedback.ts:132-158 | there are three distinct stakeholder groups, and the expectations table lists each exactly once |
| FeedbackTypes.DefinitionOf | src/lib/types/feedback.ts:93-129 | every value has its definition in the table, with at least one behavioural definition |
| FeedbackTypes.ExpectationsOf | src/lib/utils/feedbackAnalysis.ts:130-132 | the lookup by group always finds that group's row, and its expectations list is non-empty |
| FeedbackAnalysis.SurveyValue | src/lib/utils/feedbackAnalysis.ts:11-16 | a question maps to a value exactly when it is, character for character, that value's question |
| FeedbackAnalysis.QuestionForInjective | src/lib/utils/feedbackAnalysis.ts:11-16 | the four mapped questions are pairwise different |
| FeedbackAnalysis.HasKeywordCases | src/lib/utils/feedbackAnalysis.ts:38-45 | levels 5, 4, 3 and 2 each recognise exactly their two keywords; no other level has keywords |
| FeedbackAnalysis.TextRating | src/lib/utils/feedbackAnalysis.ts:35-48 | a text answer rates 1..5: the highest level with a keyword in the lowercased answer, or 1 when there is none |
| FeedbackAnalysis.VeryGoodRatesFour | src/lib/utils/feedbackAnalysis.ts:38-42 | "very good" rates 4, not 3, when no level-5 keyword is present |
| FeedbackAnalysis.RatingOf | src/lib/utils/feedbackAnalysis.ts:32-51 | numbers pass through unclamped; strings rate 1..5; any other type rates 3 |
| FeedbackAnalysis.FieldEntries | src/lib/utils/feedbackAnalysis.ts:28-62 | at most one entry per field; each entry carries the target user, the survey and the response's author, or "anonymous" |
| FeedbackAnalysis.FieldEntriesSound | src/lib/utils/feedbackAnalysis.ts:28-62 | every entry comes from a field whose key is exactly its value's question, with that field's rating and comment |
| FeedbackAnalysis.FieldEntriesComplete | src/lib/utils/feedbackAnalysis.ts:28-30 | every field whose key is a mapped question produces its entry |
| FeedbackAnalysis.FieldEntriesDistinct | src/lib/utils/feedbackAnalysis.ts:28-30 | fields with distinct keys produce entries with distinct values |
| FeedbackAnalysis.DistinctValuesAtMostFour | src/lib/types/feedback.ts:2 | entries with pairwise distinct values number at most four |
| FeedbackAnalysis.AtMostOneEntryPerValue | src/lib/utils/feedbackAnalysis.ts:24-66 | one survey response yields at most one entry per value, so at most four |
| FeedbackAnalysis.ConvertSurveyToFeedback | src/lib/utils/feedbackAnalysis.ts:19-68 | every converted entry is addressed to the given user and survey |
| FeedbackAnalysis.ConvertedAtMostFourEach | src/lib/utils/feedbackAnalysis.ts:24-67 | n responses yield at most 4n entries |
| FeedbackAnalysis.ConvertedEntrySound | src/lib/utils/feedbackAnalysis.ts:19-68 | every converted entry comes from a field of some response, keyed by its value's question |
| FeedbackAnalysis.ConvertedRatingsValid | src/lib/utils/feedbackAnalysis.ts:32-51 | when every numeric answer to a mapped question is in 1..5, every converted rating is a valid rating |
| FeedbackAnalysis.EntriesFor | src/lib/utils/feedbackAnalysis.ts:75 | the kept entries all have the requested value |
| FeedbackAnalysis.EntriesForMembership | src/lib/utils/feedbackAnalysis.ts:75 | an entry is kept exactly when it is in the input and has the requested value |
| FeedbackAnalysis.EntriesForIdempotent | src/lib/utils/feedbackAnalysis.ts:75 | filtering by a value a second time changes nothing |
| FeedbackAnalysis.SumRatingsBounds | src/lib/utils/feedbackAnalysis.ts:78 | the rating sum lies between n times the lowest and n times the highest rating |
| FeedbackAnalysis.AverageWithin | src/lib/utils/feedbackAnalysis.ts:78-79 | the average lies between the lowest and the highest rating |
| FeedbackAnalysis.CalculateValueScore | src/lib/utils/feedbackAnalysis.ts:71-80 | 0 when the value has no entries; otherwise in 1..5 when all ratings are valid |
| FeedbackAnalysis.ValueScoreWithinRatings | src/lib/utils/feedbackAnalysis.ts:71-80 | the score of a rated value lies between the lowest and highest rating given to it |
| Qualitative.TrimAll | src/lib/utils/feedbackAnalysis.ts:102 | each phrase is stored trimmed, one for one |
| Qualitative.KeyPhrases | src/lib/utils/feedbackAnalysis.ts:93-102 | every extracted phrase is lowercase, holds no `.,!?` and has no white space at either end |
| Qualitative.KeyPhrasesAtBreak | src/lib/utils/feedbackAnalysis.ts:93-102 | the phrases of a comment are the phrases of the text before its first separator followed by the phrases of the text after it, so together with the one-sentence case they determine the phrases of every comment |
| Qualitative.KeyPhrasesOfOneSentence | src/lib/utils/feedbackAnalysis.ts:93-102 | a comment without separators and longer than 10 UTF-16 code units yields exactly itself, lowercased and trimmed; a shorter one yields nothing |
| Qualitative.KeyPhrasesOfShortComment | src/lib/utils/feedbackAnalysis.ts:97 | a comment of at most 10 UTF-16 code units yields no phrase, since the length is tested before trimming |
| Qualitative.SentenceIsPhrase | src/lib/utils/feedbackAnalysis.ts:93-102 | a lowercase sentence longer than 10 code units, without separators or white space at its ends, is its own single phrase |
| Qualitative.EmojiPhraseIsKept | src/lib/utils/feedbackAnalysis.ts:97 | "nice " followed by three astral emoji has eight characters but eleven code units, and is kept as a phrase |
| Qualitative.PhrasesOfAreKeyPhrases | src/lib/utils/feedbackAnalysis.ts:92-104 | the phrases of all entries together are all key phrases |
| Qualitative.FilterOneOffs | src/lib/utils/feedbackAnalysis.ts:107-113 | the result is a subsequence of the input; a phrase keeps all its occurrences if it occurs more than once, and otherwise disappears |
| Qualitative.FilterOneOffsMembership | src/lib/utils/feedbackAnalysis.ts:107-113 | a phrase survives exactly when it occurs at least twice |
| Qualitative.FilterOneOffsIdempotent | src/lib/utils/feedbackAnalysis.ts:107-113 | filtering one-offs a second time changes nothing |
| Qualitative.KeyPhrasesSurvive | src/lib/utils/feedbackAnalysis.ts:116-117 | filtering keeps the key-phrase form of the phrases |
| Qualitative.Comments | src/lib/utils/feedbackAnalysis.ts:120 | one comment per entry, in entry order |
| Qualitative.AnalyzeQualitativeFeedback | src/lib/utils/feedbackAnalysis.ts:83-123 | a strength is a phrase from a rating of 4 or more, and an opportunity one from a lower rating, occurring at least twice among that value's phrases; each list keeps those phrases in their order and as often as they occur; both lists are key phrases; at most 3 quotes |
| Qualitative.QuotesSound | src/lib/utils/feedbackAnalysis.ts:118-121 | every quote is the comment of an entry for that value rated 4 or more |
| Qualitative.QuotesArePrefix | src/lib/utils/feedbackAnalysis.ts:118-121 | the quotes are the first three comments of positively rated entries for the value, in entry order |
| Qualitative.UnratedValueIsEmpty | src/lib/utils/feedbackAnalysis.ts:87-122 | a value with no entries has no strengths, opportunities or quotes |
| Qualitative.SharedPraiseIsStrength | src/lib/utils/feedbackAnalysis.ts:92-116 | two positive entries with the same one-sentence comment make that sentence a strength, twice |
| Alignment.MappedExpectationsAreListed | src/lib/utils/feedbackAnalysis.ts:135-140 | every expectation the corrected value table links to appears in some group's expectations |
| Alignment.UnlistedLinkAsWritten | src/lib/utils/feedbackAnalysis.ts:139 | the table as written links Communication to "Clear, timely comms", which no group lists |
| Alignment.CountListed | src/lib/utils/feedbackAnalysis.ts:152-154 | the count of relevant expectations is at most the value's mapped expectations, and positive exactly when one of them is listed |
| Alignment.RelevantCountIn | src/lib/utils/feedbackAnalysis.ts:152-156 | a value weighs in for a group exactly when one of its mapped expectations is among the group's |
| Alignment.PeopleWeHelpWeights | src/lib/utils/feedbackAnalysis.ts:135-156 | for People We Help, every value has weight 1 |
| Alignment.SupportersWeights | src/lib/utils/feedbackAnalysis.ts:135-156 | for Supporters, only Transparency has weight, 1 |
| Alignment.ReferrersWeights | src/lib/utils/feedbackAnalysis.ts:135-156 | for Referrers, the weights are Collaboration 1, Respect 1, Transparency 0 and Communication 2 |
| Alignment.ReferrerCommunicationWeightAsWritten | src/lib/utils/feedbackAnalysis.ts:139 | as written, Communication weighs 1 for Referrers instead of the intended 2 |
| Alignment.ReferrersWeightsAsWritten | src/lib/utils/feedbackAnalysis.ts:135-156 | as written, the Referrers weights are Collaboration 1, Respect 1, Transparency 0 and Communication 1 |
| Alignment.WeightsAsWrittenAgree | src/lib/utils/feedbackAnalysis.ts:135-156 | the table as written gives every group the corrected weight for every value, except Communication for Referrers: 1 as written, 2 corrected |
| Alignment.PeopleWeHelpWeightsAsWritten | src/lib/utils/feedbackAnalysis.ts:135-156 | as written, People We Help weigh every value 1 |
| Alignment.SupportersWeightsAsWritten | src/lib/utils/feedbackAnalysis.ts:135-156 | as written, Supporters weigh only Transparency, 1 |
| Alignment.StepBounded | src/lib/utils/feedbackAnalysis.ts:147-166 | adding one value keeps the total between a fifth of the maximum and the maximum |
| Alignment.TallyBounds | src/lib/utils/feedbackAnalysis.ts:147-166 | after any values, the total lies between a fifth of the maximum possible score and that maximum |
| Alignment.TallyWeightPositive | src/lib/utils/feedbackAnalysis.ts:147-166 | the maximum possible score is positive exactly when some value has entries and weighs in |
| Alignment.RatioPercentBounds | src/lib/utils/feedbackAnalysis.ts:168-170 | a total between a fifth of the maximum and the maximum rounds to a percentage in 20..100 |
| Alignment.AlignmentWith | src/lib/utils/feedbackAnalysis.ts:126-176 | at most 3 pieces of evidence; alignment 0 when no value both has entries and weighs in; otherwise 20..100 for valid ratings |
| Alignment.CalculateStakeholderAlignment | src/lib/utils/feedbackAnalysis.ts:126-176 | the same bounds for a stakeholder group, with the corrected table |
| Alignment.CalculateStakeholderAlignmentAsWritten | src/lib/utils/feedbackAnalysis.ts:126-176 | the same bounds with the table as written |
| Alignment.TallyEvidenceSound | src/lib/utils/feedbackAnalysis.ts:160-164 | evidence is always the comment of a positively rated entry for a value that weighs in |
| Alignment.EvidenceSound | src/lib/utils/feedbackAnalysis.ts:160-174 | every supporting-evidence item is the comment of a positive entry whose value is relevant to the group |
| Alignment.EvidenceSoundAsWritten | src/lib/utils/feedbackAnalysis.ts:135-174 | with the table as written, every supporting-evidence item is the comment of a positive entry whose value weighs in for the group |
| Alignment.TallyOverSnoc | src/lib/utils/feedbackAnalysis.ts:147 | the values are processed in order, one step at a time |
| Alignment.TransparencyOnlyAlignment | src/lib/utils/feedbackAnalysis.ts:147-170 | with weight on Transparency alone, alignment is its average times 20, rounded, or 0 without entries |
| Alignment.SupportersFollowTransparency | src/lib/types/feedback.ts:143-147 | with the corrected table, Supporters' alignment depends on Transparency entries only |
| Alignment.SupportersFollowTransparencyAsWritten | src/lib/utils/feedbackAnalysis.ts:126-176 | with the table the program uses, Supporters' alignment is the Transparency average times 20, rounded, or 0 without Transparency entries |
| Alignment.UniformScore | src/lib/utils/feedbackAnalysis.ts:71-80 | when every rating is c, a rated value scores c |
| Alignment.UniformTally | src/lib/utils/feedbackAnalysis.ts:147-166 | when every rating is c, the total is c/5 of the maximum possible score |
| Alignment.UniformRatingsAlignment | src/lib/utils/feedbackAnalysis.ts:147-170 | with the corrected table, when every rating is c and some value weighs in, alignment is 20·c |
| Alignment.UniformRatingsAlignmentAsWritten | src/lib/utils/feedbackAnalysis.ts:147-170 | with the table as written, when every rating is c and some value weighs in, alignment is 20·c |
| Alignment.AlignmentIsRatio | src/lib/utils/feedbackAnalysis.ts:168-170 | alignment is the rounded ratio of total to maximum possible score, as a percentage |
| Alignment.ReferrersWitness | src/lib/utils/feedbackAnalysis.ts:139 | one Collaboration entry rated 1 and one Communication entry rated 5 give Referrers 60 as written but 73 when corrected |
| Report.ValueScoreOf | src/lib/utils/feedbackAnalysis.ts:269-275 | each value's trend is stable, with at most 3 quotes, and strengths and opportunities are key phrases |
| Report.ActionItems | src/lib/utils/feedbackAnalysis.ts:322-324 | one action item per opportunity, "Focus on " followed by the lowercased opportunity, in order |
| Report.ValueScores | src/lib/utils/feedbackAnalysis.ts:268-297 | every value has a score, computed from the entries |
| Report.Alignments | src/lib/utils/feedbackAnalysis.ts:300-313 | every stakeholder group has its alignment, computed with the value table as written |
| Report.IntendedAlignments | src/lib/utils/feedbackAnalysis.ts:300-313 | every stakeholder group has its alignment computed with the corrected value table |
| Report.OpportunitiesAreKeyPhrases | src/lib/utils/feedbackAnalysis.ts:318-319 | all collected opportunities are lowercase key phrases |
| Report.ActionItemsFollowOpportunities | src/lib/utils/feedbackAnalysis.ts:322-336 | the top three action items are "Focus on " followed by the top three opportunities, pairwise |
| Report.AlignmentsBounded | src/lib/utils/feedbackAnalysis.ts:300-313 | with valid ratings, every group's alignment is in 0..100, with either value table |
| Report.GenerateFeedbackReportFromEntries | src/lib/utils/feedbackAnalysis.ts:262-339 | keeps user and survey; each value's section is its score, phrases and quotes from the entries, with a stable trend and a score of 0 or in 1..5; each group's alignment is computed with the table as written and is in 0..100; the overall strengths and opportunities are the first three of all values' lists, in value order; each action item is "Focus on " and its opportunity |
| Report.IntendedReportFromEntries | src/lib/utils/feedbackAnalysis.ts:262-339 | the report with the corrected value table differs from the report as written only in its alignments, which are the corrected ones and lie in 0..100 |
| Report.ReportReferrersWitness | src/lib/utils/feedbackAnalysis.ts:139 | for one Collaboration entry rated 1 and one Communication entry rated 5, the report gives Referrers 60 as written and 73 corrected |
| Report.OverallStrengthsComeFromValues | src/lib/utils/feedbackAnalysis.ts:316-317 | every overall strength is a strength of some value |
| Report.EmptyReport | src/lib/utils/feedbackAnalysis.ts:262-339 | with no entries, all scores are 0 and all lists are empty |
| Report.NoEntriesNoEvidence | src/lib/utils/feedbackAnalysis.ts:147-149 | with no entries the tally stays empty |
| Report.GenerateFeedbackReportFromSurvey | src/lib/utils/feedbackAnalysis.ts:179-259 | keeps user and survey; the value sections and the as-written alignments are those of the converted entries; the overall lists are the first three of the values' lists; with numeric answers in 1..5 the scores are 0 or in 1..5 and the alignments in 0..100 |
| ResponseChart.ChartAnswers | src/app/dashboard/page.tsx:218 | one chart answer per response: the stored answer, or "No response" when it is missing or empty |
| ResponseChart.Options | src/components/survey/ResponsChart.tsx:18-22 | the options are distinct and are exactly the answers given |
| ResponseChart.StatsFor | src/components/survey/ResponsChart.tsx:22-25 | one row per option, with its count and share |
| ResponseChart.ChartStats | src/components/survey/ResponsChart.tsx:12-27 | the rows are ordered by count, largest first, and are a permutation of the unsorted rows |
| ResponseChart.RowsCountOccurrences | src/components/survey/ResponsChart.tsx:16-25 | each row's answer is not "No response"; its count is its number of occurrences, at least 1; its share of the answered responses is in 0..100 |
| ResponseChart.RowsCoverAnswers | src/components/survey/ResponsChart.tsx:16-22 | an answer has a row exactly when some response gives it and it is not "No response" |
| ResponseChart.RowsDistinct | src/components/survey/ResponsChart.tsx:18-22 | no answer has two rows |
| ResponseChart.CountsAddUp | src/components/survey/ResponsChart.tsx:16-20 | the counts add up to the number of answered responses |
| ResponseChart.OptionCountsAddUp | src/components/survey/ResponsChart.tsx:18-19 | over the distinct answers, the occurrence counts add up to the number of answers |
| ResponseChart.BarColorOf | src/components/survey/ResponsChart.tsx:29-34 | green from 75, blue in 50..74, yellow in 25..49, red below 25, each in both directions |
| ResponseChart.BarColorMonotone | src/components/survey/ResponsChart.tsx:29-34 | a larger share never gets a colour lower on the scale |
| ResponseChart.ResponseLabel | src/components/survey/ResponsChart.tsx:43 | "response" exactly for a count of one, "responses" otherwise |
| Dashboard.Rate | src/app/dashboard/page.tsx:69-90 | each rate is in 0..100 and is 0 without responses |
| Dashboard.RateExtremes | src/app/dashboard/page.tsx:69-90 | 100 when every response matches, 0 when none does |
| Dashboard.RateMonotone | src/app/dashboard/page.tsx:69-90 | a weaker matching test never gives a lower rate |
| Dashboard.Change | src/app/dashboard/page.tsx:103-104 | with responses: "Good" exactly above 75, "Fair" exactly in 51..75, "Needs Attention" exactly at 50 or below; without responses the no-responses text |
| Dashboard.TrendOf | src/app/dashboard/page.tsx:105-106 | neutral without responses; otherwise up exactly above 75 and down exactly at 50 or below |
| Dashboard.ChangeMatchesTrend | src/app/dashboard/page.tsx:103-106 | "Good" goes with up, "Needs Attention" with down, and "Fair" or no responses with neutral |
| Dashboard.RateCard | src/app/dashboard/page.tsx:100-108 | a rate card shows its title and the rate as a percentage, labelled and trended by the classification |
| Dashboard.Cards | src/app/dashboard/page.tsx:92-127 | four cards in fixed order: the response count, then the three rates, each classified |
| Dashboard.MetricsWith | src/app/dashboard/page.tsx:64-128 | four cards in fixed order, with the count and the three rates under a given satisfaction test, each classified |
| Dashboard.CalculateMetricsAsWritten | src/app/dashboard/page.tsx:69-71 | satisfaction counts every answer containing "satisfied" or "Satisfied" |
| Dashboard.CalculateMetrics | src/app/dashboard/page.tsx:64-128 | four titled cards; the count is the number of responses; satisfaction excludes "dissatisfied" answers; without responses every rate card is 0% with the no-responses text |
| Dashboard.SatisfactionOvercounted | src/app/dashboard/page.tsx:69-74 | the corrected rate never exceeds the rate as written |
| Dashboard.SatisfactionOptionsCounted | src/app/dashboard/page.tsx:69-71 | as written, every satisfaction option except "Neutral" counts; when corrected, only the two satisfied options do |
| Dashboard.GrowthOptionsCounted | src/app/dashboard/page.tsx:85-87 | exactly the first two growth options count as supported |
| Dashboard.BalanceOptionsCounted | src/app/dashboard/page.tsx:77-79 | exactly the first two balance options count as good |
| Dashboard.DissatisfiedWitness | src/app/dashboard/page.tsx:69-74 | a single "Very dissatisfied" response gives 100% satisfaction as written, 0% corrected |
| SurveyWizard.QuestionTable | src/app/survey/page.tsx:23-150 | eleven questions with ids 1..11 in order, pairwise distinct; the first ten are multiple choice and the last is free text |
| SurveyWizard.UserIdOf | src/app/survey/page.tsx:171 | the user's id when present and non-empty, otherwise the non-empty "anonymous" |
| SurveyWizard.UserEmailOf | src/app/survey/page.tsx:172 | the user's email when present and non-empty, otherwise the non-empty "anonymous" |
| SurveyWizard.HandleNext | src/app/survey/page.tsx:161-203 | the answer is stored under the current question's id and no other answer changes; before the last question only the index (advanced by one) and the answers change; on the last it submits with the user's id and email and marks the survey completed, leaving the error alone, or, when saving throws, records the error, clears the submitting flag and changes nothing else |
| SurveyWizard.HandleNextAnswers | src/app/survey/page.tsx:162 | the new answers are the old ones updated at the current question's id |
| SurveyWizard.AnswersUpTo | src/app/survey/page.tsx:162 | after k steps, the answers map ids 1..k to the first k answers, and nothing else |
| SurveyWizard.RunAnswers | src/app/survey/page.tsx:161-166 | answering from question k onward stores each answer under its id; short of the last question the wizard sits at the next one, not completed |
| SurveyWizard.RunSplit | src/app/survey/page.tsx:161-203 | answering a list is answering a prefix, then the rest |
| SurveyWizard.CompleteRun | src/app/survey/page.tsx:161-196 | answering all eleven questions completes the survey and submits exactly those answers with the user's id and email, whether the database save or the local fallback is used |
| SurveyWizard.Progress | src/app/survey/page.tsx:250 | the progress bar is in (0, 100] on every question |
| SurveyWizard.ProgressGrows | src/app/survey/page.tsx:250 | progress strictly grows with the index and is 100 on the last question |
| ResponseList.HandleSort | src/app/survey/responses/page.tsx:216-221 | the handler, which the page never calls, would set the key to the given one, and the direction to descending exactly when the same key was ascending |
| ResponseList.HandleSortTwice | src/app/survey/responses/page.tsx:216-221 | applying the handler twice to the current key restores the configuration |
| ResponseList.FirstClickAscends | src/app/survey/responses/page.tsx:182-221 | from the initial newest-first configuration, the handler applied to the date would sort ascending |
| ResponseList.ResponseData | src/app/survey/responses/page.tsx:225 | the answers when present, else the responses, else nothing |
| ResponseList.ShownValues | src/app/survey/responses/page.tsx:228 | one displayed string per stored value, in order |
| ResponseList.FilterResponses | src/app/survey/responses/page.tsx:223-231 | every kept response matches the search term |
| ResponseList.FilterResponsesKeeps | src/app/survey/responses/page.tsx:223-231 | a response is kept exactly when it is in the list and matches; the result is a subsequence of the list |
| ResponseList.EmptySearchKeepsAll | src/app/survey/responses/page.tsx:229-230 | an empty search keeps the whole list |
| ResponseList.SearchFindsOwnText | src/app/survey/responses/page.tsx:226-230 | searching for a response's email or any of its answers, in any letter case, finds it |
| ResponseList.SortResponses | src/app/survey/responses/page.tsx:232-239 | the result is a permutation; by date it is ordered ascending or descending as configured; any other key leaves the order unchanged |
| ResponseList.SortResponsesStable | src/app/survey/responses/page.tsx:232-239 | responses with the same creation second keep their relative order |
| ResponseList.FilteredAndSorted | src/app/survey/responses/page.tsx:223-239 | by date, the filtered list is ordered in the configured direction |
| ResponseList.PageListNewestFirst | src/app/survey/responses/page.tsx:182-239 | the sort configuration never leaves its initial value, so the list is newest first and holds exactly the matching responses |
| ResponseList.FilteredAndSortedKeeps | src/app/survey/responses/page.tsx:223-239 | a response appears, as often as in the input, exactly when it matches |
| ResponseList.Decimal | src/app/survey/responses/page.tsx:249 | the decimal digits of n read back as n |
| ResponseList.DecimalInjective | src/app/survey/responses/page.tsx:249 | different numbers have different decimal forms |
| ResponseList.NormaliseKey | src/app/survey/responses/page.tsx:249 | a key left as text is the original key |
| ResponseList.NormaliseKeyOfDecimal | src/app/survey/responses/page.tsx:249 | a decimal key becomes that number |
| ResponseList.NormaliseKeyIgnoresPadding | src/app/survey/responses/page.tsx:249 | spaces around a decimal key do not change the number it becomes |
| ResponseList.NormaliseAnswersDomain | src/app/survey/responses/page.tsx:246-253 | a key has a formatted answer exactly when some entry under it holds text |
| ResponseList.NormaliseAnswersLastWins | src/app/survey/responses/page.tsx:246-253 | when keys collide after normalisation, the last text value wins |
| ResponseList.DisplayedAnswer | src/app/survey/responses/page.tsx:269 | the formatted answer for the question id when non-empty, otherwise "No response" |
| ResponseList.DisplayedAnswers | src/app/survey/responses/page.tsx:266-271 | one displayed answer per question, in question order |
| ResponseList.StoredRecord | src/app/survey/page.tsx:173 | a stored answers map becomes one decimal-keyed text entry per id |
| ResponseList.StoredRecordNormalises | src/app/survey/responses/page.tsx:246-253 | normalising a stored record recovers each answer under its numeric id |
| ResponseList.StoredAnswersDisplayed | src/app/survey/responses/page.tsx:243-271 | a stored submission displays each question's answer, or "No response" when it is empty |
| ResponseList.SubmissionDisplayed | src/app/survey/responses/page.tsx:243-271 | what the wizard submits is what the list displays, question by question |
| AnalyzeResponses.RemoveMarkdown | src/app/api/analyze-responses/route.ts:9 | no markdown character is left, and the result is a subsequence of the input |
| AnalyzeResponses.RemoveMarkdownCounts | src/app/api/analyze-responses/route.ts:9 | every markdown character goes and every other character is kept as often as it occurs |
| AnalyzeResponses.StripMarkers | src/app/api/analyze-responses/route.ts:10 | stripping list markers only deletes: the result is a subsequence of the input, keeping every character that is neither a marker nor white space as often as it occurs |
| AnalyzeResponses.StripSubsequence | src/app/api/analyze-responses/route.ts:10 | what stripping leaves of a suffix is a subsequence of it |
| AnalyzeResponses.StripOrder | src/app/api/analyze-responses/route.ts:10 | stripping keeps, in order, every character that is neither a marker nor white space |
| AnalyzeResponses.StripKeepsText | src/app/api/analyze-responses/route.ts:10 | stripping list markers keeps every character that is neither a marker nor white space, as often as it occurs |
| AnalyzeResponses.StripLeadingMarker | src/app/api/analyze-responses/route.ts:10 | a marker and the space after it at the start of a line are removed, and the rest of the line is kept |
| AnalyzeResponses.SkipWhitespace | src/app/api/analyze-responses/route.ts:10 | the marker's following white space is skipped up to the next other character |
| AnalyzeResponses.CollapseRuns | src/app/api/analyze-responses/route.ts:12 | each character of the class left is a space followed by a character outside the class; a leading run becomes a leading space and any other first character is kept; nothing but spaces is introduced |
| AnalyzeResponses.CollapseRunsOthers | src/app/api/analyze-responses/route.ts:11-12 | every character outside the class other than the space is kept, in order |
| AnalyzeResponses.CollapseRunsRun | src/app/api/analyze-responses/route.ts:11-12 | a run of the class, however long, becomes exactly one space |
| AnalyzeResponses.CollapseRunsFree | src/app/api/analyze-responses/route.ts:11-12 | text with no character of the class is left unchanged |
| AnalyzeResponses.CollapseRunsConcat | src/app/api/analyze-responses/route.ts:11-12 | when two texts are joined where no run is cut (the first ends, or the second begins, with a character outside the class), collapsing the join is joining the collapses, so runs are rewritten one at a time |
| AnalyzeResponses.CollapseKeeps | src/app/api/analyze-responses/route.ts:11-12 | a character outside the class other than the space occurs as often after collapsing as before |
| AnalyzeResponses.CollapseNewlines | src/app/api/analyze-responses/route.ts:11 | no line feed is left and nothing but spaces is introduced; it is the collapse of line-feed runs, so each run becomes one space and every other character is kept |
| AnalyzeResponses.CleanWith | src/app/api/analyze-responses/route.ts:7-14 | the cleaned text has no markdown character, no line break, no two adjacent white-space characters and no white space at either end, and it keeps every character that is neither markdown, a list marker nor white space as often as it occurs (their order is kept by `CleanWithOrder`) |
| AnalyzeResponses.CleanWithOrder | src/app/api/analyze-responses/route.ts:7-14 | cleaning keeps, in their order, the characters that are neither markdown, a list marker nor white space |
| AnalyzeResponses.CollapseOrder | src/app/api/analyze-responses/route.ts:11-12 | collapsing white-space runs keeps, in order, the characters cleaning keeps |
| AnalyzeResponses.TrimKeepsOrder | src/app/api/analyze-responses/route.ts:13 | trimming keeps, in order, every character that is not white space |
| AnalyzeResponses.StagesKeep | src/app/api/analyze-responses/route.ts:8-12 | the stages before trimming keep every character that is neither markdown, a list marker nor white space, as often as it occurs |
| AnalyzeResponses.CleanTextAsWritten | src/app/api/analyze-responses/route.ts:7-14 | with the marker class as written: the same four shape guarantees and the same kept characters, among them every bullet "•" |
| AnalyzeResponses.CleanText | src/app/api/analyze-responses/route.ts:7-14 | with the intended marker class: the same four shape guarantees and the same kept characters |
| AnalyzeResponses.CleanTextAsWrittenOrder | src/app/api/analyze-responses/route.ts:7-14 | with the marker class as written, the kept characters stay in their order |
| AnalyzeResponses.CleanTextOrder | src/app/api/analyze-responses/route.ts:7-14 | with the intended marker class, the kept characters stay in their order |
| AnalyzeResponses.CleanWithIsClean | src/app/api/analyze-responses/route.ts:7-14 | cleaned text is clean |
| AnalyzeResponses.CleanPlain | src/app/api/analyze-responses/route.ts:7-14 | words separated by single spaces, not opening with a list marker, are left unchanged by cleaning |
| AnalyzeResponses.TrimKeepsClean | src/app/api/analyze-responses/route.ts:13 | trimming keeps the text free of markdown characters and line breaks, with white space collapsed |
| AnalyzeResponses.BulletWitness | src/app/api/analyze-responses/route.ts:10 | "• Great team" keeps its bullet as written and loses it when corrected |
| AnalyzeResponses.BulletKeptAsWritten | src/app/api/analyze-responses/route.ts:10 | as written, a leading "•" is not stripped |
| AnalyzeResponses.BulletStripped | src/app/api/analyze-responses/route.ts:10 | corrected, "• Great team" becomes "Great team" |
| AnalyzeResponses.EuroWitness | src/app/api/analyze-responses/route.ts:10 | as written, "€5 bonus" loses its currency sign |
| AnalyzeResponses.FallbacksNotMeaningful | src/app/api/analyze-responses/route.ts:118-127 | none of the three fallback sentences counts as meaningful |
| AnalyzeResponses.CleanFallbacks | src/app/api/analyze-responses/route.ts:118-120 | cleaning with the intended marker class leaves the fallback sentences unchanged |
| AnalyzeResponses.CleanFallbacksAsWritten | src/app/api/analyze-responses/route.ts:118-120 | cleaning as written leaves the fallback sentences unchanged |
| AnalyzeResponses.RenderItem | src/app/api/analyze-responses/route.ts:39 | a rendered item contains its answer |
| AnalyzeResponses.FormatResponses | src/app/api/analyze-responses/route.ts:38-40 | a single item is rendered alone |
| AnalyzeResponses.FormatResponsesOrder | src/app/api/analyze-responses/route.ts:38-40 | items are rendered in input order, separated by a blank line |
| AnalyzeResponses.FormatResponsesMentionsAnswers | src/app/api/analyze-responses/route.ts:38-40 | every answer appears in the prompt body |
| AnalyzeResponses.SectionText | src/app/api/analyze-responses/route.ts:118-120 | the trimmed capture when it is not blank; the fallback when nothing was captured or the capture is blank |
| AnalyzeResponses.SectionsReply | src/app/api/analyze-responses/route.ts:117-134 | for any marker class, the reply is either the fallback or three sections that are all valid |
| AnalyzeResponses.SectionsReplyValid | src/app/api/analyze-responses/route.ts:117-134 | when the three cleaned sections are meaningful, the reply is exactly those sections |
| AnalyzeResponses.SectionsReplyInvalid | src/app/api/analyze-responses/route.ts:123-142 | when one cleaned section is not meaningful, the reply is the fallback |
| AnalyzeResponses.Post | src/app/api/analyze-responses/route.ts:16-153 | 400 with its message exactly when a parsed object body has a `responses` that is missing, falsy or not an array; the fallback for a body that is not JSON or is `null`; 500 exactly when the key is missing; otherwise the fallback or valid sections, and the fallback whenever the service fails |
| AnalyzeResponses.MissingSectionFallsBack | src/app/api/analyze-responses/route.ts:113-142 | a reply without one of the three headings yields the fallback |
| AnalyzeResponses.InvalidSectionFallsBack | src/app/api/analyze-responses/route.ts:117-142 | one section that, cleaned as written, is shorter than 10 code units or contains "Unable to" makes the whole reply the fallback |
| AnalyzeResponses.PostUsesSections | src/app/api/analyze-responses/route.ts:103-134 | with valid input, a key and a reply, the answer is the reply's sections cleaned with the marker class as written |
| AnalyzeResponses.ValidSectionsReturned | src/app/api/analyze-responses/route.ts:117-134 | meaningful sections, cleaned as written, are returned as they are |
| AnalyzeResponses.RepliedSectionsClean | src/app/api/analyze-responses/route.ts:16-153 | every section the route returns is clean |
| AnalyzeSentiment.Post | src/app/api/analyze-sentiment/route.ts:6-73 | 400 exactly for missing or empty text; otherwise a word among positive, neutral and negative; a non-neutral word only comes from a configured service's reply; neutral without a key, on failure, or for unparsable JSON |
| AnalyzeSentiment.StatusMatchesReply | src/app/api/analyze-sentiment/route.ts:10-72 | status 400 goes with the refusal and status 200 with a valid label |
| AnalyzeSentiment.RecognisedWordPassedOn | src/app/api/analyze-sentiment/route.ts:56-64 | a recognised word is returned lowercased and trimmed, whatever its case and padding |
| AnalyzeSentiment.NormaliseLabel | src/app/api/analyze-sentiment/route.ts:57-60 | a label that is already normalised is recognised as itself |

## Left out

- Database and authentication: Firestore reads and writes, the `serverTimestamp`, and the `localStorage` fallback are not modelled. The outcome of a save is an input (`SaveOutcome`), and fetched responses are an input sequence.
- The chat-completion HTTP calls are not modelled. Their result is an input: a failed request, a malformed reply, or the reply text, already split into the three sections.
- The section-extraction regular expressions at src/app/api/analyze-responses/route.ts:113-115 are not modelled. Each section is an optional capture given as input.
- The prompt instructions (system text and headings) are not modelled. Only the formatting of the responses into the prompt body is.
- IEEE double arithmetic is not modelled. Averages and percentages are exact reals, and `Math.round` is round-half-up on them.
- JavaScript key enumeration order is not modelled. Records are sequences in enumeration order. For that reason the chart's order among equal counts is not stated.
- ResponseChart.ChartStats: the source counts answers in a plain object, so an answer naming an inherited member behaves differently. "constructor" or "toString" gets a string count and a NaN share, and "__proto__" gets no row. The model treats every answer as an ordinary key.
- ResponseChart.RowsCountOccurrences: the count and share are stated for ordinary answers only; for "constructor"-like answers the source's count is a string, as for ResponseChart.ChartStats above.
- ResponseChart.RowsCoverAnswers: an answer "__proto__" gets no row in the source, as for ResponseChart.ChartStats above.
- ResponseChart.CountsAddUp: the sum equals the total only when no answer names an inherited member; a "__proto__" answer is counted in `total` without a row in the source.
- FeedbackAnalysis.SurveyValue: a plain-object lookup would also see inherited keys such as "constructor". The model maps only the four own keys.
- ResponseList.NormaliseKey: only blank keys (read as 0) and runs of decimal digits, optionally surrounded by white space, are recognised as numbers. Other forms that `Number()` accepts stay text: signs, decimal points, exponents and hex.
- ResponseList.SortResponses: every stored response is assumed to have a `createdAt`. The comparator's "return 0" for a missing timestamp is not modelled.
- ResponseList.ShownValues: the text a non-string JSON value shows in the search string is carried by the value as an input; JavaScript's `String()` conversion is not modelled.
- Text.ToLower: letter case is folded for ASCII letters only.
- FeedbackAnalysis.RatingOf: a numeric answer is an integer. Fractions such as 4.5 and NaN, which the source passes through into the averages, are not modelled.
- FeedbackAnalysis.FieldEntries: a `_comments` or `fromUserId` that is present but not a string is read as "" or "anonymous". The source keeps such a value, and the later `toLowerCase()` call at src/lib/utils/feedbackAnalysis.ts:93 throws on it.
- FeedbackAnalysis.CommentFor: a non-string comment is read as "", as for FieldEntries above.
- FeedbackAnalysis.FromUserOf: a non-string `fromUserId` is read as "anonymous", as for FieldEntries above.
- SurveyWizard.HandleNext: the flag for submission in progress is never reset after a successful submission, as in the source. The model does not state anything about later clicks.
- ResponseList.HandleSort: nothing on the responses page calls the handler, so the sort configuration keeps its initial value and the list is always newest first. The handler is modelled as written, but no property is stated about a sequence of clicks.
- Submission timestamps, report ids and `generatedAt` (`Date.now`, `new Date()`) are not modelled.
- The rendering of the rating question type is not modelled. The survey's table has no rating question.
- SurveyWizard.QuestionText, SurveyWizard.QuestionOptions and SurveyWizard.QuestionSection are plain data: the wording, options and section of each question. No property is proved about them beyond what the dashboard lemmas use.
- AnalyzeResponses.CleanText: cleaning is not shown to be idempotent in general. It is only shown to fix the fallback sentences and all plain text.
- FeedbackAnalysis.ConvertedAtMostFourEach: the bound of four entries per response is proved only for responses whose keys are distinct, as they are for JavaScript objects.
- AnalyzeSentiment.Post: a `text` that is not a string is not modelled. The field is modelled as an optional string.
- Spreadsheet and CSV import, the delete endpoints, the report generator component, and the presentational components are not modelled. They are UI and library glue with no logic beyond the functions above.

## Findings

| source | as written | input that shows it | evidently intended | confidence | as-written member | corrected member |
|---|---|---|---|---|---|---|
| src/app/dashboard/page.tsx:69-71 | counts an answer as satisfied when it contains "satisfied" or "Satisfied", which includes "Somewhat dissatisfied" and "Very dissatisfied" | one response answering "Very dissatisfied" gives a Satisfaction Rate of 100% | only "Very satisfied" and "Somewhat satisfied" count, so that response gives 0% | high (not executed) | Dashboard.CalculateMetricsAsWritten | Dashboard.CalculateMetrics |
| src/app/api/analyze-responses/route.ts:10 | the list-marker class `[-â€¢*+]` is the bullet "•" mis-decoded as three characters, so it matches "â", "€" and "¢" but not "•" | "• Great team" keeps its bullet; "€5 bonus" loses its euro sign | strip "-", "•", "*" or "+" at a line start | high (not executed) | AnalyzeResponses.CleanTextAsWritten | AnalyzeResponses.CleanText |
| src/lib/utils/feedbackAnalysis.ts:139 | Communication is linked to "Clear, timely comms", which is not an expectation of any group; exact matching never finds it | a Collaboration entry rated 1 and a Communication entry rated 5 give Referrers 60% | the link names Referrers' "Clear, timely comms (within 12 hrs)", giving Communication weight 2 and 73% | medium (not executed) | Alignment.CalculateStakeholderAlignmentAsWritten | Alignment.CalculateStakeholderAlignment |
