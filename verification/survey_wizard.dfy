/** The employee survey: eleven questions asked one at a time. Each answer
    is recorded under the question's id; the answer to the last question
    submits the whole survey, to the database or, when that fails, to the
    browser's local storage. */
module SurveyWizard {
  import opened Basics

  datatype QuestionType = TextQuestion | MultiChoice | RatingQuestion

  datatype Question = Question(id: int, qtype: QuestionType)

  const EngagementSection := "General Engagement & Work Satisfaction"
  const WorkStyleSection := "MBTI-Inspired Work Style & Team Dynamics"
  const OpenSection := "Open Feedback"

  /** The options of question 1 (role satisfaction). */
  const SatisfactionOptions: seq<string> := [
    "Very satisfied",
    "Somewhat satisfied",
    "Neutral",
    "Somewhat dissatisfied",
    "Very dissatisfied"]

  /** The options of question 4 (support for growth). */
  const GrowthOptions: seq<string> := [
    "Yes, I receive strong support",
    "Somewhat, but I would like more guidance",
    "Neutral",
    "Not really, I feel limited in opportunities",
    "No, there is little to no support"]

  /** The options of question 5 (work-life balance). */
  const BalanceOptions: seq<string> := [
    "Excellent – I can manage both well",
    "Good – I balance it most of the time",
    "Average – It could be better",
    "Poor – I struggle with balance",
    "Very poor – Work dominates my life"]

  /** The questions, in the order they are asked. Each question's wording,
      options and section are looked up by its id. */
  const Questions: seq<Question> := [
    Question(1, MultiChoice),
    Question(2, MultiChoice),
    Question(3, MultiChoice),
    Question(4, MultiChoice),
    Question(5, MultiChoice),
    Question(6, MultiChoice),
    Question(7, MultiChoice),
    Question(8, MultiChoice),
    Question(9, MultiChoice),
    Question(10, MultiChoice),
    Question(11, TextQuestion)]

  /** The wording of question `id`. */
  function QuestionText(id: int): string {
    if id == 1 then "How satisfied are you with your current role?"
    else if id == 2 then "Do you feel that your contributions are valued by your team and leadership?"
    else if id == 3 then "How would you describe the communication within your team?"
    else if id == 4 then "Do you feel supported in your professional growth and development?"
    else if id == 5 then "How would you rate your work-life balance?"
    else if id == 6 then "How do you prefer to make decisions at work?"
    else if id == 7 then "Which working style suits you best?"
    else if id == 8 then "How do you approach new challenges?"
    else if id == 9 then "How do you prefer to receive feedback?"
    else if id == 10 then "What best describes your approach to planning and structure at work?"
    else if id == 11 then "What is one thing the company could do to improve your experience at work?"
    else ""
  }

  /** The options offered by question `id`; the open question offers none. */
  function QuestionOptions(id: int): seq<string> {
    if id == 1 then SatisfactionOptions
    else if id == 2 then ["Always", "Most of the time", "Sometimes", "Rarely", "Never"]
    else if id == 3 then ["Excellent – Clear, open, and effective",
      "Good – Mostly clear but can be improved",
      "Average – Sometimes unclear",
      "Poor – Often unclear or ineffective",
      "Very poor – Lack of communication"]
    else if id == 4 then GrowthOptions
    else if id == 5 then BalanceOptions
    else if id == 6 then ["Based on logic, facts, and objective analysis",
      "Based on personal values, emotions, and team dynamics"]
    else if id == 7 then ["Working alone with minimal interruptions",
      "Collaborating with others regularly",
      "A mix of both"]
    else if id == 8 then ["I analyze the situation carefully before acting",
      "I take an intuitive approach and adapt as I go"]
    else if id == 9 then ["Direct and to the point",
      "With a balance of positive reinforcement and constructive criticism",
      "Indirectly, through observations and gradual improvement suggestions"]
    else if id == 10 then ["I prefer a well-structured plan with clear steps",
      "I like flexibility and adjusting plans as needed"]
    else []
  }

  /** The section question `id` belongs to. */
  function QuestionSection(id: int): string {
    if 1 <= id <= 5 then EngagementSection
    else if 6 <= id <= 10 then WorkStyleSection
    else OpenSection
  }

  /** Question `i` (counting from 0) has id `i + 1`, so the ids are 1..11
      and distinct; every question but the last is multiple choice. */
  lemma QuestionTable()
    ensures |Questions| == 11
    ensures forall i | 0 <= i < |Questions| :: Questions[i].id == i + 1
    ensures forall i, j | 0 <= i < j < |Questions| :: Questions[i].id != Questions[j].id
    ensures forall i | 0 <= i < 10 :: Questions[i].qtype == MultiChoice
    ensures Questions[10].qtype == TextQuestion
  {
  }

  lemma QuestionIdAt(k: int)
    requires 0 <= k < |Questions|
    ensures |Questions| == 11 && Questions[k].id == k + 1
  {
    QuestionTable();
  }

  /** The signed-in user, when there is one. */
  datatype User = User(uid: string, email: Option<string>)

  /** What is submitted after the last question. */
  datatype Submission = Submission(userId: string, userEmail: string, answers: map<int, string>)

  /** Where the submission ended up. The outcome of the two saves is an input. */
  datatype SaveOutcome =
    | SavedToDatabase
    | SavedLocally
    | SaveFailed(message: Option<string>)

  datatype Store = NotStored | Database | LocalStorage

  datatype WizardState = WizardState(
    current: nat,
    answers: map<int, string>,
    completed: bool,
    submitting: bool,
    error: Option<string>,
    submitted: Option<Submission>,
    store: Store)

  const Initial := WizardState(0, map[], false, false, None, None, NotStored)

  /** `user?.uid || 'anonymous'`. */
  function UserIdOf(user: Option<User>): (r: string)
    ensures r != ""
    ensures user.Some? && user.value.uid != "" ==> r == user.value.uid
  {
    if user.Some? && user.value.uid != "" then user.value.uid else "anonymous"
  }

  /** `user?.email || 'anonymous'`. */
  function UserEmailOf(user: Option<User>): (r: string)
    ensures r != ""
    ensures user.Some? && user.value.email.Some? && user.value.email.value != "" ==> r == user.value.email.value
  {
    if user.Some? && user.value.email.Some? && user.value.email.value != "" then user.value.email.value
    else "anonymous"
  }

  /** `handleNext`: the answer is stored under the current question's id,
      leaving the other answers alone. Before the last question the wizard
      moves on by one; on the last it submits, and it is completed unless
      even the local fallback failed, in which case it reports the error
      and stops submitting. */
  function HandleNext(s: WizardState, answer: string, user: Option<User>, outcome: SaveOutcome): (r: WizardState)
    requires s.current < |Questions|
    ensures r.current < |Questions|
    ensures Questions[s.current].id in r.answers && r.answers[Questions[s.current].id] == answer
    ensures forall k | k != Questions[s.current].id ::
      (k in r.answers <==> k in s.answers) && (k in s.answers ==> r.answers[k] == s.answers[k])
    ensures s.current < |Questions| - 1 ==>
      r == s.(current := s.current + 1, answers := r.answers)
    ensures s.current == |Questions| - 1 && !outcome.SaveFailed? ==>
      && r.current == s.current
      && r.completed && r.submitting
      && r.submitted == Some(Submission(UserIdOf(user), UserEmailOf(user), r.answers))
      && r.store == (if outcome.SavedToDatabase? then Database else LocalStorage)
      && r.error == s.error
    ensures s.current == |Questions| - 1 && outcome.SaveFailed? ==>
      && r == s.(answers := r.answers, submitting := false, error := r.error)
      && r.error == Some(if outcome.message.Some? then outcome.message.value else "An unknown error occurred")
  {
    var newAnswers := s.answers[Questions[s.current].id := answer];
    if s.current < |Questions| - 1 then
      s.(current := s.current + 1, answers := newAnswers)
    else
      var submission := Submission(UserIdOf(user), UserEmailOf(user), newAnswers);
      match outcome
      case SavedToDatabase =>
        s.(answers := newAnswers, submitting := true, submitted := Some(submission), store := Database, completed := true)
      case SavedLocally =>
        s.(answers := newAnswers, submitting := true, submitted := Some(submission), store := LocalStorage, completed := true)
      case SaveFailed(message) =>
        var text := if message.Some? then message.value else "An unknown error occurred";
        s.(answers := newAnswers, submitting := false, error := Some(text))
  }

  /** Feeds `answers` to the wizard one by one, each save ending as `outcome`. */
  function Run(s: WizardState, answers: seq<string>, user: Option<User>, outcome: SaveOutcome): (r: WizardState)
    requires s.current + |answers| <= |Questions|
    ensures r.current <= s.current + |answers|
    decreases |answers|
  {
    if |answers| == 0 then s
    else Run(HandleNext(s, answers[0], user, outcome), answers[1..], user, outcome)
  }

  /** The answers map after the first `k` questions have been answered. */
  function AnswersUpTo(answers: seq<string>, k: nat): (m: map<int, string>)
    requires k <= |answers|
    ensures forall i :: i in m <==> 1 <= i <= k
    ensures forall i | 1 <= i <= k :: m[i] == answers[i - 1]
  {
    if k == 0 then map[] else AnswersUpTo(answers, k - 1)[k := answers[k - 1]]
  }

  /** Answering from a state that has answered exactly the first `k`
      questions leads, after `|rest|` more answers, to the state that has
      answered the first `k + |rest|`. */
  lemma {:induction false} RunAnswers(all: seq<string>, k: nat, s: WizardState, user: Option<User>, outcome: SaveOutcome)
    requires k + 1 <= |all| <= |Questions|
    requires s.current == k && s.answers == AnswersUpTo(all, k) && !s.completed
    ensures var r := Run(s, all[k..], user, outcome);
      r.answers == AnswersUpTo(all, |all|)
      && (|all| < |Questions| ==> r.current == |all| && !r.completed)
    decreases |all| - k
  {
    var next := HandleNext(s, all[k], user, outcome);
    StepAnswers(all, k, s, user, outcome);
    SliceStep(all, k);
    RunFirst(s, all[k..], user, outcome);
    if k + 1 < |all| {
      RunAnswers(all, k + 1, next, user, outcome);
    } else {
      assert all[k + 1..] == [];
    }
  }

  lemma SliceStep<T>(all: seq<T>, k: nat)
    requires k < |all|
    ensures |all[k..]| == |all| - k && all[k..][0] == all[k] && all[k..][1..] == all[k + 1..]
  {
  }

  /** Answering question `k + 1` after the first `k`. */
  lemma StepAnswers(all: seq<string>, k: nat, s: WizardState, user: Option<User>, outcome: SaveOutcome)
    requires k + 1 <= |all| <= |Questions|
    requires s.current == k && s.answers == AnswersUpTo(all, k) && !s.completed
    ensures var next := HandleNext(s, all[k], user, outcome);
      next.answers == AnswersUpTo(all, k + 1)
      && (k + 1 < |Questions| ==> next.current == k + 1 && !next.completed)
  {
    QuestionIdAt(k);
    HandleNextAnswers(s, all[k], user, outcome);
  }

  lemma HandleNextAnswers(s: WizardState, answer: string, user: Option<User>, outcome: SaveOutcome)
    requires s.current < |Questions|
    ensures HandleNext(s, answer, user, outcome).answers == s.answers[Questions[s.current].id := answer]
  {
  }

  lemma RunFirst(s: WizardState, answers: seq<string>, user: Option<User>, outcome: SaveOutcome)
    requires s.current + |answers| <= |Questions| && |answers| > 0
    ensures Run(s, answers, user, outcome) == Run(HandleNext(s, answers[0], user, outcome), answers[1..], user, outcome)
  {
  }

  /** The answers of a prefix are the answers of the whole up to its length. */
  lemma {:induction false} AnswersUpToPrefix(all: seq<string>, n: nat, k: nat)
    requires k <= n <= |all|
    ensures AnswersUpTo(all[..n], k) == AnswersUpTo(all, k)
  {
    if k > 0 {
      AnswersUpToPrefix(all, n, k - 1);
    }
  }

  /** Answering all eleven questions from the start, with a save that
      succeeds in either store, completes the survey and submits every
      answer under its question's id. */
  lemma CompleteRun(all: seq<string>, user: Option<User>, outcome: SaveOutcome)
    requires |all| == |Questions|
    requires !outcome.SaveFailed?
    ensures var r := Run(Initial, all, user, outcome);
      && r.completed
      && r.answers == AnswersUpTo(all, |all|)
      && r.submitted == Some(Submission(UserIdOf(user), UserEmailOf(user), AnswersUpTo(all, |all|)))
  {
    var first := all[..10];
    assert first[0..] == first;
    RunAnswers(first, 0, Initial, user, outcome);
    var before := Run(Initial, first, user, outcome);
    AnswersUpToPrefix(all, 10, 10);
    RunSplit(Initial, all, 10, user, outcome);
    LastAnswer(all, before, user, outcome);
  }

  /** The last answer, given after the first ten, submits them all. */
  lemma LastAnswer(all: seq<string>, before: WizardState, user: Option<User>, outcome: SaveOutcome)
    requires |all| == |Questions| && !outcome.SaveFailed?
    requires before.current == 10 && before.answers == AnswersUpTo(all, 10)
    ensures var r := Run(before, all[10..], user, outcome);
      && r.completed
      && r.answers == AnswersUpTo(all, |all|)
      && r.submitted == Some(Submission(UserIdOf(user), UserEmailOf(user), AnswersUpTo(all, |all|)))
  {
    QuestionIdAt(10);
    assert all[10..] == [all[10]];
    RunFirst(before, [all[10]], user, outcome);
    assert [all[10]][1..] == [];
  }

  /** Running a sequence is running its prefix and then the rest. */
  lemma {:induction false} RunSplit(s: WizardState, all: seq<string>, n: nat, user: Option<User>, outcome: SaveOutcome)
    requires n <= |all| && s.current + |all| <= |Questions|
    ensures Run(s, all, user, outcome) == Run(Run(s, all[..n], user, outcome), all[n..], user, outcome)
    decreases n
  {
    if n > 0 {
      var next := HandleNext(s, all[0], user, outcome);
      RunFirst(s, all, user, outcome);
      RunFirst(s, all[..n], user, outcome);
      assert all[1..][..n - 1] == all[..n][1..];
      assert all[1..][n - 1..] == all[n..];
      RunSplit(next, all[1..], n - 1, user, outcome);
    }
  }

  /** The progress bar: `((currentQuestion + 1) / questions.length) * 100`. */
  function Progress(current: nat): (p: real)
    ensures current < |Questions| ==> 0.0 < p <= 100.0
  {
    (current + 1) as real / |Questions| as real * 100.0
  }

  /** Progress grows with every step and is full on the last question. */
  lemma ProgressGrows(i: nat, j: nat)
    requires i < j
    ensures Progress(i) < Progress(j)
    ensures Progress(|Questions| - 1) == 100.0
  {
  }
}
