/** The peer-feedback vocabulary: the four organisational values, the three
    stakeholder groups, feedback entries and reports, and the two constant
    tables that define what each value means and what each stakeholder
    group expects. */
module FeedbackTypes {

  /** The four values a colleague is rated on. */
  datatype Value = Collaboration | Respect | Transparency | Communication

  /** The values in the order the source declares them, which is also the
      order in which every per-value object of a report is built and
      enumerated. */
  const AllValues: seq<Value> := [Collaboration, Respect, Transparency, Communication]

  /** The three external parties whose expectations the values serve. */
  datatype StakeholderType = PeopleWeHelp | Supporters | Referrers

  const AllStakeholders: seq<StakeholderType> := [PeopleWeHelp, Supporters, Referrers]

  /** The declared rating scale `1 | 2 | 3 | 4 | 5`. Entries carry a plain
      `int` because the survey conversion casts unchecked numbers to it. */
  predicate ValidRating(r: int) {
    1 <= r <= 5
  }

  /** One rating of one value given by one colleague to another. The
      entry id and the timestamp are not part of the model. */
  datatype FeedbackEntry = FeedbackEntry(
    fromUserId: string,
    toUserId: string,
    value: Value,
    rating: int,
    qualitativeFeedback: string,
    surveyId: string)

  predicate AllValidRatings(entries: seq<FeedbackEntry>) {
    forall i | 0 <= i < |entries| :: ValidRating(entries[i].rating)
  }

  datatype ValueDefinition = ValueDefinition(
    value: Value,
    description: string,
    behavioralDefinitions: seq<string>)

  datatype StakeholderExpectation = StakeholderExpectation(
    stakeholder: StakeholderType,
    expectations: seq<string>)

  /** The behavioural definition of each value. */
  const ValueDefinitions: seq<ValueDefinition> := [
    ValueDefinition(Collaboration, "Working together effectively as a team", [
      "Engage the right people",
      "Share calendars and information",
      "Create space for team thinking",
      "Contribute to visibility"]),
    ValueDefinition(Respect, "Showing consideration for others", [
      "Consider others' time and needs",
      "Balance work demands respectfully"]),
    ValueDefinition(Transparency, "Being open and honest in communication", [
      "Provide timely, direct feedback",
      "Share information that affects work",
      "Avoid withholding relevant context"]),
    ValueDefinition(Communication, "Clear and effective information sharing", [
      "Be open about challenges and day-to-day experience",
      "Ensure consistent external updates"])
  ]

  /** What each stakeholder group expects, word for word. */
  const StakeholderExpectations: seq<StakeholderExpectation> := [
    StakeholderExpectation(PeopleWeHelp, [
      "Pets go home safely and in good condition",
      "Clear communication",
      "Timely updates",
      "Ability to rely on us despite limited proof"]),
    StakeholderExpectation(Supporters, [
      "Appreciate transparency and proof of impact",
      "Want donations used responsibly"]),
    StakeholderExpectation(Referrers, [
      "Clear, timely comms (within 12 hrs)",
      "Regular updates",
      "Smooth logistics",
      "Ability to rely on us"])
  ]

  /** The definitions table lists the values in declaration order, so each
      value appears in it exactly once. */
  lemma ValueDefinitionsCoverEachValueOnce()
    ensures |ValueDefinitions| == |AllValues| == 4
    ensures forall i | 0 <= i < 4 :: ValueDefinitions[i].value == AllValues[i]
    ensures forall i, j | 0 <= i < j < 4 :: AllValues[i] != AllValues[j]
    ensures forall v: Value :: v in AllValues
    ensures forall i | 0 <= i < 4 :: |ValueDefinitions[i].behavioralDefinitions| > 0
  {
    forall v: Value
      ensures v in AllValues
    {
      match v
      case Collaboration => assert AllValues[0] == v;
      case Respect => assert AllValues[1] == v;
      case Transparency => assert AllValues[2] == v;
      case Communication => assert AllValues[3] == v;
    }
  }

  /** The expectations table lists each stakeholder group exactly once. */
  lemma StakeholderTableCoversEachGroupOnce()
    ensures |StakeholderExpectations| == |AllStakeholders| == 3
    ensures forall i | 0 <= i < 3 :: StakeholderExpectations[i].stakeholder == AllStakeholders[i]
    ensures forall i, j | 0 <= i < j < 3 :: AllStakeholders[i] != AllStakeholders[j]
    ensures forall t: StakeholderType :: t in AllStakeholders
  {
    forall t: StakeholderType
      ensures t in AllStakeholders
    {
      match t
      case PeopleWeHelp => assert AllStakeholders[0] == t;
      case Supporters => assert AllStakeholders[1] == t;
      case Referrers => assert AllStakeholders[2] == t;
    }
  }

  /** `VALUE_DEFINITIONS.find(d => d.value === v)`: always found. */
  function DefinitionOf(v: Value): (d: ValueDefinition)
    ensures d in ValueDefinitions && d.value == v
    ensures |d.behavioralDefinitions| > 0
  {
    match v
    case Collaboration => ValueDefinitions[0]
    case Respect => ValueDefinitions[1]
    case Transparency => ValueDefinitions[2]
    case Communication => ValueDefinitions[3]
  }

  /** `STAKEHOLDER_EXPECTATIONS.find(e => e.type === t)?.expectations || []`:
      the group is always found, so its own list is returned. */
  function ExpectationsOf(t: StakeholderType): (e: seq<string>)
    ensures StakeholderExpectation(t, e) in StakeholderExpectations
    ensures |e| > 0
  {
    match t
    case PeopleWeHelp => StakeholderExpectations[0].expectations
    case Supporters => StakeholderExpectations[1].expectations
    case Referrers => StakeholderExpectations[2].expectations
  }

  datatype Trend = Improving | Stable | Declining

  /** The per-value section of a report. */
  datatype ValueScore = ValueScore(
    averageScore: real,
    trend: Trend,
    strengths: seq<string>,
    opportunities: seq<string>,
    supportingQuotes: seq<string>)

  /** The per-stakeholder section of a report; `alignment` is documented as
      a percentage from 0 to 100. */
  datatype StakeholderAlignment = StakeholderAlignment(
    alignment: int,
    supportingEvidence: seq<string>)

  datatype OverallTrends = OverallTrends(
    strengths: seq<string>,
    opportunities: seq<string>,
    actionItems: seq<string>)

  /** A report; its id and generation time come from the clock and are not
      part of the model. */
  datatype FeedbackReport = FeedbackReport(
    userId: string,
    surveyId: string,
    valueScores: map<Value, ValueScore>,
    stakeholderAlignment: map<StakeholderType, StakeholderAlignment>,
    overallTrends: OverallTrends)
}
