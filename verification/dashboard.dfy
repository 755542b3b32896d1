/** The dashboard's four metric cards: the number of survey responses and
    three rates, each the rounded percentage of responses whose answer to
    one question mentions a favourable phrase. */
module Dashboard {
  import opened Basics
  import opened Text
  import opened SurveyWizard

  /** A stored response's answers, keyed by question id. */
  type Answers = map<int, string>

  /** `answers[q]?.includes(t)`: false when question `q` was not answered. */
  predicate AnswerIncludes(a: Answers, q: int, t: string) {
    q in a && Contains(a[q], t)
  }

  /** The satisfaction test as written: the answer to question 1 mentions
      "satisfied" or "Satisfied", which "Somewhat dissatisfied" and "Very
      dissatisfied" also do. */
  predicate SatisfiedAsWritten(a: Answers) {
    AnswerIncludes(a, 1, "satisfied") || AnswerIncludes(a, 1, "Satisfied")
  }

  /** The satisfaction test as intended: as written, but not an answer
      that mentions dissatisfaction. */
  predicate Satisfied(a: Answers) {
    SatisfiedAsWritten(a) && !AnswerIncludes(a, 1, "dissatisfied") && !AnswerIncludes(a, 1, "Dissatisfied")
  }

  /** The answer to question 5 mentions "Excellent" or "Good". */
  predicate GoodBalance(a: Answers) {
    AnswerIncludes(a, 5, "Excellent") || AnswerIncludes(a, 5, "Good")
  }

  /** The answer to question 4 mentions "strong support" or "guidance". */
  predicate GrowthSupported(a: Answers) {
    AnswerIncludes(a, 4, "strong support") || AnswerIncludes(a, 4, "guidance")
  }

  /** The rounded share, in percent, of responses meeting `p`; 0 without
      responses. */
  function Rate(responses: seq<Answers>, p: Answers -> bool): (r: int)
    ensures 0 <= r <= 100
    ensures |responses| == 0 ==> r == 0
  {
    Percentage(|Filter(responses, p)|, |responses|)
  }

  /** Every response meets `p` exactly when the rate is that of all of them:
      100, or 0 without responses; none meets it exactly when the rate is
      computed from no matches, which shows 0. */
  lemma RateExtremes(responses: seq<Answers>, p: Answers -> bool)
    ensures (forall i | 0 <= i < |responses| :: p(responses[i])) && |responses| > 0 ==> Rate(responses, p) == 100
    ensures (forall i | 0 <= i < |responses| :: !p(responses[i])) ==> Rate(responses, p) == 0
  {
    if forall i | 0 <= i < |responses| :: p(responses[i]) {
      FilterAll(responses, p);
    }
    if forall i | 0 <= i < |responses| :: !p(responses[i]) {
      if |Filter(responses, p)| > 0 {
        var x := Filter(responses, p)[0];
        FilterMembership(responses, p, x);
        assert false;
      }
    }
  }

  /** Testing more leniently never shows a lower rate. */
  lemma {:induction false} RateMonotone(responses: seq<Answers>, p: Answers -> bool, q: Answers -> bool)
    requires forall a :: p(a) ==> q(a)
    ensures Rate(responses, p) <= Rate(responses, q)
  {
    FilterLengthMonotone(responses, p, q);
    PercentageMonotone(|Filter(responses, p)|, |Filter(responses, q)|, |responses|);
  }

  lemma {:induction false} FilterLengthMonotone(s: seq<Answers>, p: Answers -> bool, q: Answers -> bool)
    requires forall a :: p(a) ==> q(a)
    ensures |Filter(s, p)| <= |Filter(s, q)|
  {
    if |s| > 0 {
      FilterLengthMonotone(s[1..], p, q);
    }
  }

  datatype CardTrend = Up | Down | Level

  /** A card shows either a count or a percentage. */
  datatype CardValue = Count(n: nat) | Percent(p: int)

  datatype MetricCard = MetricCard(
    title: string,
    value: CardValue,
    change: string,
    trend: CardTrend,
    description: string)

  const NoResponsesYet := "No survey responses yet"

  /** The verdict under a rate: "Good" above 75, "Fair" above 50, otherwise
      "Needs Attention"; without responses, a note that there are none. */
  function Change(total: nat, rate: int): (c: string)
    ensures total == 0 <==> c == NoResponsesYet
    ensures total > 0 ==>
      && (c == "Good" <==> rate > 75)
      && (c == "Fair" <==> 50 < rate <= 75)
      && (c == "Needs Attention" <==> rate <= 50)
  {
    if total == 0 then NoResponsesYet
    else if rate > 75 then "Good"
    else if rate > 50 then "Fair"
    else "Needs Attention"
  }

  /** The arrow beside a rate: up above 75, level above 50, otherwise down;
      level without responses. */
  function TrendOf(total: nat, rate: int): (t: CardTrend)
    ensures total == 0 ==> t == Level
    ensures total > 0 ==> (t == Up <==> rate > 75) && (t == Down <==> rate <= 50)
  {
    if total == 0 then Level
    else if rate > 75 then Up
    else if rate > 50 then Level
    else Down
  }

  /** The verdict and the arrow always tell the same story. */
  lemma ChangeMatchesTrend(total: nat, rate: int)
    ensures Change(total, rate) == "Good" <==> TrendOf(total, rate) == Up
    ensures Change(total, rate) == "Needs Attention" <==> TrendOf(total, rate) == Down
    ensures Change(total, rate) == "Fair" || Change(total, rate) == NoResponsesYet <==> TrendOf(total, rate) == Level
  {
  }

  function RateCard(title: string, description: string, total: nat, rate: int): (c: MetricCard)
    requires 0 <= rate <= 100
    ensures c.title == title && c.value.Percent? && 0 <= c.value.p <= 100 && c.value.p == rate
    ensures c.change == Change(total, rate) && c.trend == TrendOf(total, rate)
  {
    MetricCard(title, Percent(rate), Change(total, rate), TrendOf(total, rate), description)
  }

  const CardTitles := ["Total Responses", "Satisfaction Rate", "Work-Life Balance", "Growth Support"]

  /** `calculateMetrics`, with the satisfaction test given as a parameter so
      that both the written and the intended test can be stated. */
  function MetricsWith(responses: seq<Answers>, satisfied: Answers -> bool): (cards: seq<MetricCard>)
    ensures |cards| == 4
    ensures forall i | 0 <= i < 4 :: cards[i].title == CardTitles[i]
    ensures cards[0].value == Count(|responses|) && cards[0].trend == Level
    ensures cards[0].change == if |responses| == 0 then NoResponsesYet else ""
    ensures cards[1].value == Percent(Rate(responses, satisfied))
    ensures cards[2].value == Percent(Rate(responses, GoodBalance))
    ensures cards[3].value == Percent(Rate(responses, GrowthSupported))
    ensures forall i | 1 <= i < 4 ::
      && cards[i].value.Percent? && 0 <= cards[i].value.p <= 100
      && cards[i].change == Change(|responses|, cards[i].value.p)
      && cards[i].trend == TrendOf(|responses|, cards[i].value.p)
  {
    Cards(|responses|, Rate(responses, satisfied), Rate(responses, GoodBalance), Rate(responses, GrowthSupported))
  }

  /** The four cards for `total` responses and the three rates. */
  function Cards(total: nat, satisfaction: int, balance: int, growth: int): (cards: seq<MetricCard>)
    requires 0 <= satisfaction <= 100 && 0 <= balance <= 100 && 0 <= growth <= 100
    ensures |cards| == 4
    ensures forall i | 0 <= i < 4 :: cards[i].title == CardTitles[i]
    ensures cards[0].value == Count(total) && cards[0].trend == Level
    ensures cards[0].change == if total == 0 then NoResponsesYet else ""
    ensures cards[1].value == Percent(satisfaction)
    ensures cards[2].value == Percent(balance)
    ensures cards[3].value == Percent(growth)
    ensures forall i | 1 <= i < 4 ::
      && cards[i].value.Percent? && 0 <= cards[i].value.p <= 100
      && cards[i].change == Change(total, cards[i].value.p)
      && cards[i].trend == TrendOf(total, cards[i].value.p)
  {
    [ MetricCard("Total Responses", Count(total), if total == 0 then NoResponsesYet else "", Level,
        "Total number of survey responses received"),
      RateCard("Satisfaction Rate", "Percentage of employees satisfied with their role", total, satisfaction),
      RateCard("Work-Life Balance", "Employees reporting good work-life balance", total, balance),
      RateCard("Growth Support", "Employees feeling supported in their professional growth", total, growth) ]
  }

  /** The dashboard as written. */
  function CalculateMetricsAsWritten(responses: seq<Answers>): (cards: seq<MetricCard>)
    ensures |cards| == 4
    ensures cards[1].value == Percent(Rate(responses, SatisfiedAsWritten))
  {
    MetricsWith(responses, SatisfiedAsWritten)
  }

  /** The dashboard with the intended satisfaction test. Without responses
      every rate card shows 0% with the note that there are none. */
  function CalculateMetrics(responses: seq<Answers>): (cards: seq<MetricCard>)
    ensures |cards| == 4
    ensures forall i | 0 <= i < 4 :: cards[i].title == CardTitles[i]
    ensures cards[0].value == Count(|responses|)
    ensures cards[1].value == Percent(Rate(responses, Satisfied))
    ensures |responses| == 0 ==> forall i | 1 <= i < 4 ::
      cards[i].value == Percent(0) && cards[i].change == NoResponsesYet && cards[i].trend == Level
  {
    MetricsWith(responses, Satisfied)
  }

  /** The intended satisfaction rate never exceeds the written one. */
  lemma SatisfactionOvercounted(responses: seq<Answers>)
    ensures CalculateMetrics(responses)[1].value.p <= CalculateMetricsAsWritten(responses)[1].value.p
  {
    RateMonotone(responses, Satisfied, SatisfiedAsWritten);
  }

  /** Which of the answers offered for question 1 mention which phrase. */
  lemma SatisfactionPhrases()
    ensures forall i | 0 <= i < 5 && i != 2 :: Contains(SatisfactionOptions[i], "satisfied")
    ensures !Contains(SatisfactionOptions[2], "satisfied") && !Contains(SatisfactionOptions[2], "Satisfied")
    ensures forall i | 0 <= i < 2 :: !Contains(SatisfactionOptions[i], "dissatisfied")
    ensures forall i | 0 <= i < 2 :: !Contains(SatisfactionOptions[i], "Dissatisfied")
    ensures forall i | 3 <= i < 5 :: Contains(SatisfactionOptions[i], "dissatisfied")
  {
    SatisfiedMentions();
    DissatisfiedMentions();
    SatisfiedIsNotDissatisfied();
    var o := SatisfactionOptions;
    NotContainsMissingChar(o[2], "satisfied", 0);
    NotContainsMissingChar(o[2], "Satisfied", 0);
    NotContainsMissingChar(o[0], "Dissatisfied", 0);
    NotContainsMissingChar(o[1], "Dissatisfied", 0);
  }

  lemma SatisfiedMentions()
    ensures Contains("Very satisfied", "satisfied")
    ensures Contains("Somewhat satisfied", "satisfied")
  {
    Mentions("Very satisfied", "satisfied", 5);
    Mentions("Somewhat satisfied", "satisfied", 9);
  }

  lemma DissatisfiedMentions()
    ensures Contains("Somewhat dissatisfied", "dissatisfied") && Contains("Somewhat dissatisfied", "satisfied")
    ensures Contains("Very dissatisfied", "dissatisfied") && Contains("Very dissatisfied", "satisfied")
  {
    SomewhatDissatisfiedMentions();
    VeryDissatisfiedMentions();
  }

  lemma SomewhatDissatisfiedMentions()
    ensures Contains("Somewhat dissatisfied", "dissatisfied") && Contains("Somewhat dissatisfied", "satisfied")
  {
    var s := "Somewhat dissatisfied";
    Mentions(s, "dissatisfied", 9);
    assert s[12..] == "satisfied";
    Mentions(s, "satisfied", 12);
  }

  lemma VeryDissatisfiedMentions()
    ensures Contains("Very dissatisfied", "dissatisfied") && Contains("Very dissatisfied", "satisfied")
  {
    var s := "Very dissatisfied";
    Mentions(s, "dissatisfied", 5);
    assert s[8..] == "satisfied";
    Mentions(s, "satisfied", 8);
  }

  /** A phrase found at a given place is mentioned. */
  lemma Mentions(s: string, t: string, i: int)
    requires 0 <= i <= |s| - |t| && s[i..i + |t|] == t
    ensures Contains(s, t)
  {
    assert OccursAt(s, t, i);
  }

  lemma SatisfiedIsNotDissatisfied()
    ensures !Contains("Very satisfied", "dissatisfied")
    ensures !Contains("Somewhat satisfied", "dissatisfied")
  {
    var a := "Very satisfied";
    assert a[0] == 'V' && a[1] == 'e' && a[2] == 'r';
    NotContainsAtAnyStart(a, "dissatisfied");
    var b := "Somewhat satisfied";
    assert b[0] == 'S' && b[1] == 'o' && b[2] == 'm' && b[3] == 'e' && b[4] == 'w' && b[5] == 'h' && b[6] == 'a';
    NotContainsAtAnyStart(b, "dissatisfied");
  }

  /** Among the answers offered for question 1, the written test accepts
      both dissatisfied ones, the intended test only the two satisfied ones. */
  lemma SatisfactionOptionsCounted()
    ensures forall i | 0 <= i < |SatisfactionOptions| ::
      SatisfiedAsWritten(map[1 := SatisfactionOptions[i]]) <==> i != 2
    ensures forall i | 0 <= i < |SatisfactionOptions| ::
      Satisfied(map[1 := SatisfactionOptions[i]]) <==> i < 2
  {
    SatisfactionPhrases();
  }

  /** Among the answers offered for question 4, the test accepts exactly
      the first two. */
  lemma GrowthOptionsCounted()
    ensures forall i | 0 <= i < |GrowthOptions| ::
      GrowthSupported(map[4 := GrowthOptions[i]]) <==> i < 2
  {
    var o := GrowthOptions;
    assert OccursAt(o[0], "strong support", 15);
    assert OccursAt(o[1], "guidance", 32);
    GrowthLacks(2);
    GrowthLacks(3);
    GrowthLacks(4);
  }

  /** The last three answers to question 4 have no letter g, so they
      mention neither phrase. */
  lemma GrowthLacks(i: int)
    requires 2 <= i < 5
    ensures !Contains(GrowthOptions[i], "strong support") && !Contains(GrowthOptions[i], "guidance")
  {
    var o := GrowthOptions[i];
    assert 'g' !in o;
    NotContainsMissingChar(o, "strong support", 5);
    NotContainsMissingChar(o, "guidance", 0);
  }

  /** Which of the answers offered for question 5 mention which phrase. */
  lemma BalancePhrases()
    ensures Contains(BalanceOptions[0], "Excellent") && Contains(BalanceOptions[1], "Good")
    ensures forall i | 2 <= i < 5 :: !Contains(BalanceOptions[i], "Excellent") && !Contains(BalanceOptions[i], "Good")
  {
    var o := BalanceOptions;
    assert OccursAt(o[0], "Excellent", 0);
    assert OccursAt(o[1], "Good", 0);
    BalanceLacksExcellent();
    BalanceLacksGood();
  }

  lemma BalanceLacksExcellent()
    ensures forall i | 2 <= i < 5 :: !Contains(BalanceOptions[i], "Excellent")
  {
    var o := BalanceOptions;
    NotContainsMissingChar(o[2], "Excellent", 1);
    NotContainsMissingChar(o[3], "Excellent", 1);
    NotContainsMissingChar(o[4], "Excellent", 1);
  }

  lemma BalanceLacksGood()
    ensures forall i | 2 <= i < 5 :: !Contains(BalanceOptions[i], "Good")
  {
    var o := BalanceOptions;
    NotContainsMissingChar(o[2], "Good", 0);
    NotContainsMissingChar(o[3], "Good", 0);
    NotContainsMissingChar(o[4], "Good", 0);
  }

  /** Among the answers offered for question 5, the test accepts exactly
      the first two. */
  lemma BalanceOptionsCounted()
    ensures forall i | 0 <= i < |BalanceOptions| ::
      GoodBalance(map[5 := BalanceOptions[i]]) <==> i < 2
  {
    BalancePhrases();
  }

  /** One "Very dissatisfied" response: the written dashboard shows 100%
      satisfaction, the intended one 0%. */
  lemma DissatisfiedWitness()
    ensures CalculateMetricsAsWritten([map[1 := "Very dissatisfied"]])[1].value == Percent(100)
    ensures CalculateMetrics([map[1 := "Very dissatisfied"]])[1].value == Percent(0)
  {
    var rs: seq<Answers> := [map[1 := "Very dissatisfied"]];
    SatisfactionOptionsCounted();
    assert SatisfactionOptions[4] == "Very dissatisfied";
    assert SatisfiedAsWritten(rs[0]) && !Satisfied(rs[0]);
    RateExtremes(rs, SatisfiedAsWritten);
    RateExtremes(rs, Satisfied);
  }
}
