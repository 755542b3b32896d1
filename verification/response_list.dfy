/** The survey responses page: a list of stored responses that can be
    searched and sorted by submission time, and the detail of one response,
    whose answers are re-keyed by question number before they are shown. */
module ResponseList {
  import opened Basics
  import opened Text
  import opened Sorting
  import opened SurveyWizard

  // ------------------------------------------------------------- sorting

  datatype Direction = Asc | Desc

  datatype SortConfig = SortConfig(key: string, direction: Direction)

  const CreatedAt := "createdAt"

  /** The list starts newest first. */
  const InitialSort := SortConfig(CreatedAt, Desc)

  /** `handleSort`: a click on a column would sort by it descending only
      when it was already sorted by it ascending, and ascending otherwise.
      The page defines it but no control calls it, so the page itself
      always keeps `InitialSort`. */
  function HandleSort(prev: SortConfig, key: string): (r: SortConfig)
    ensures r.key == key
    ensures r.direction == Desc <==> prev.key == key && prev.direction == Asc
  {
    SortConfig(key, if prev.key == key && prev.direction == Asc then Desc else Asc)
  }

  /** Clicking the current column twice restores the order it had. */
  lemma HandleSortTwice(c: SortConfig)
    ensures HandleSort(HandleSort(c, c.key), c.key) == c
  {
  }

  /** Were it called, the first click on the submission time, which starts
      out descending, would sort it ascending. */
  lemma FirstClickAscends()
    ensures HandleSort(InitialSort, CreatedAt) == SortConfig(CreatedAt, Asc)
  {
  }

  // ----------------------------------------------------------- responses

  /** A stored answer: a string, or some other value shown as `shown` when
      joined into text. */
  datatype AnswerValue = Text(text: string) | NonText(shown: string)

  /** An answers object, as its (key, value) entries in enumeration order. */
  type Record = seq<(string, AnswerValue)>

  /** A stored response: the survey writes `answers`; imported responses
      may carry `responses` instead. */
  datatype StoredResponse = StoredResponse(
    id: string,
    userEmail: Option<string>,
    answers: Option<Record>,
    responses: Option<Record>,
    createdAt: int)

  /** `response.answers || response.responses || {}`. */
  function ResponseData(r: StoredResponse): (d: Record)
    ensures r.answers.Some? ==> d == r.answers.value
    ensures r.answers.None? && r.responses.Some? ==> d == r.responses.value
    ensures r.answers.None? && r.responses.None? ==> d == []
  {
    if r.answers.Some? then r.answers.value
    else if r.responses.Some? then r.responses.value
    else []
  }

  function Shown(v: AnswerValue): string {
    match v
    case Text(s) => s
    case NonText(s) => s
  }

  function ShownValues(d: Record): (r: seq<string>)
    ensures |r| == |d|
    ensures forall i | 0 <= i < |d| :: r[i] == Shown(d[i].1)
  {
    if |d| == 0 then [] else [Shown(d[0].1)] + ShownValues(d[1..])
  }

  /** The lowercased space-join of the email (empty when missing) and every
      answer value. */
  function SearchString(r: StoredResponse): string {
    var email := if r.userEmail.Some? then r.userEmail.value else "";
    ToLower(Join([email] + ShownValues(ResponseData(r)), " "))
  }

  predicate Matches(r: StoredResponse, term: string) {
    Contains(SearchString(r), ToLower(term))
  }

  /** The search filter keeps, in order, exactly the responses whose search
      text contains the lowercased term. */
  function FilterResponses(rs: seq<StoredResponse>, term: string): (r: seq<StoredResponse>)
    ensures forall i | 0 <= i < |r| :: Matches(r[i], term)
  {
    Filter(rs, (x: StoredResponse) => Matches(x, term))
  }

  lemma FilterResponsesKeeps(rs: seq<StoredResponse>, term: string, x: StoredResponse)
    ensures x in FilterResponses(rs, term) <==> x in rs && Matches(x, term)
    ensures IsSubsequence(FilterResponses(rs, term), rs)
  {
    FilterMembership(rs, (x: StoredResponse) => Matches(x, term), x);
    FilterSubsequence(rs, (x: StoredResponse) => Matches(x, term));
  }

  /** An empty search keeps every response. */
  lemma EmptySearchKeepsAll(rs: seq<StoredResponse>)
    ensures FilterResponses(rs, "") == rs
  {
    forall i | 0 <= i < |rs|
      ensures Matches(rs[i], "")
    {
      ContainsEmpty(SearchString(rs[i]));
    }
    FilterAll(rs, (x: StoredResponse) => Matches(x, ""));
  }

  /** Searching for a response's email, or for any of its answer values, in
      any letter case, finds it. */
  lemma SearchFindsOwnText(r: StoredResponse, term: string)
    requires (r.userEmail.Some? && ToLower(term) == ToLower(r.userEmail.value))
      || (exists i | 0 <= i < |ResponseData(r)| :: ToLower(term) == ToLower(Shown(ResponseData(r)[i].1)))
    ensures Matches(r, term)
  {
    var email := if r.userEmail.Some? then r.userEmail.value else "";
    var parts := [email] + ShownValues(ResponseData(r));
    if r.userEmail.Some? && ToLower(term) == ToLower(r.userEmail.value) {
      PartFound(parts, 0, term);
    } else {
      var i :| 0 <= i < |ResponseData(r)| && ToLower(term) == ToLower(Shown(ResponseData(r)[i].1));
      assert parts[i + 1] == Shown(ResponseData(r)[i].1);
      PartFound(parts, i + 1, term);
    }
  }

  /** A term equal to one of the joined parts, up to letter case, is found
      in the lowercased join. */
  lemma PartFound(parts: seq<string>, k: int, term: string)
    requires 0 <= k < |parts| && ToLower(term) == ToLower(parts[k])
    ensures Contains(ToLower(Join(parts, " ")), ToLower(term))
  {
    JoinContainsParts(parts, " ", k);
    ContainsLower(Join(parts, " "), parts[k]);
  }

  function Seconds(r: StoredResponse): int {
    r.createdAt
  }

  /** The comparator on `createdAt.seconds`: with that key the list is put
      in ascending or descending order of submission time; any other key
      leaves it as it is. */
  function SortResponses(rs: seq<StoredResponse>, config: SortConfig): (r: seq<StoredResponse>)
    ensures multiset(r) == multiset(rs)
    ensures config.key == CreatedAt ==> Ordered(r, Seconds, config.direction == Desc)
    ensures config.key != CreatedAt ==> r == rs
  {
    if config.key == CreatedAt then SortBy(rs, Seconds, config.direction == Desc) else rs
  }

  /** The sort is stable: responses stored in the same second keep their
      stored order. */
  lemma SortResponsesStable(rs: seq<StoredResponse>, config: SortConfig, k: int)
    ensures Filter(SortResponses(rs, config), KeyIs(Seconds, k)) == Filter(rs, KeyIs(Seconds, k))
  {
    if config.key == CreatedAt {
      SortByStable(rs, Seconds, config.direction == Desc, k);
    }
  }

  /** `filteredAndSortedResponses`. */
  function FilteredAndSorted(rs: seq<StoredResponse>, term: string, config: SortConfig): (r: seq<StoredResponse>)
    ensures config.key == CreatedAt ==> Ordered(r, Seconds, config.direction == Desc)
  {
    SortResponses(FilterResponses(rs, term), config)
  }

  /** The page never changes its sort configuration, so its list is the
      matching responses, newest first. */
  lemma PageListNewestFirst(rs: seq<StoredResponse>, term: string, x: StoredResponse)
    ensures Ordered(FilteredAndSorted(rs, term, InitialSort), Seconds, true)
    ensures x in FilteredAndSorted(rs, term, InitialSort) <==> x in rs && Matches(x, term)
  {
    FilteredAndSortedKeeps(rs, term, InitialSort, x);
  }

  /** The list shows exactly the matching responses, each as often as it is
      stored. */
  lemma FilteredAndSortedKeeps(rs: seq<StoredResponse>, term: string, config: SortConfig, x: StoredResponse)
    ensures x in FilteredAndSorted(rs, term, config) <==> x in rs && Matches(x, term)
    ensures multiset(FilteredAndSorted(rs, term, config))[x] == if Matches(x, term) then multiset(rs)[x] else 0
  {
    FilterResponsesKeeps(rs, term, x);
    FilterCount(rs, (y: StoredResponse) => Matches(y, term));
    assert x in FilteredAndSorted(rs, term, config) <==> x in multiset(FilteredAndSorted(rs, term, config));
  }

  // -------------------------------------------------------- normalisation

  /** An answer key after `Number(key)`: numeric-looking keys become
      numbers, others stay text. */
  datatype Key = NumKey(n: int) | StrKey(s: string)

  predicate IsDigit(c: char) {
    '0' <= c <= '9'
  }

  predicate IsDigits(s: string) {
    |s| > 0 && forall i | 0 <= i < |s| :: IsDigit(s[i])
  }

  function DigitValue(c: char): nat
    requires IsDigit(c)
  {
    (c as int) - ('0' as int)
  }

  /** The number a run of decimal digits denotes. */
  function DigitsValue(s: string): nat
    requires forall i | 0 <= i < |s| :: IsDigit(s[i])
    decreases |s|
  {
    if |s| == 0 then 0 else DigitsValue(s[..|s| - 1]) * 10 + DigitValue(s[|s| - 1])
  }

  function DigitChar(d: nat): (c: char)
    requires d < 10
    ensures IsDigit(c) && DigitValue(c) == d
  {
    (('0' as int) + d) as char
  }

  /** `String(n)`: the decimal digits of `n`, without leading zeros. */
  function Decimal(n: nat): (s: string)
    ensures IsDigits(s)
    ensures DigitsValue(s) == n
  {
    if n < 10 then
      [DigitChar(n)]
    else
      var init := Decimal(n / 10);
      var s := init + [DigitChar(n % 10)];
      assert s[..|s| - 1] == init;
      s
  }

  /** Distinct numbers are written differently. */
  lemma DecimalInjective(m: nat, n: nat)
    requires Decimal(m) == Decimal(n)
    ensures m == n
  {
  }

  /** `!isNaN(Number(key)) ? Number(key) : key` for keys in decimal
      notation: after trimming white space, an empty key is 0 and a run of
      digits is its value; any other key stays text. */
  function NormaliseKey(key: string): (k: Key)
    ensures k.StrKey? ==> k.s == key
  {
    var t := Trim(key);
    if t == "" then NumKey(0)
    else if IsDigits(t) then NumKey(DigitsValue(t))
    else StrKey(key)
  }

  /** A question id written in decimal is read back as that id. */
  lemma NormaliseKeyOfDecimal(n: nat)
    ensures NormaliseKey(Decimal(n)) == NumKey(n)
  {
    var s := Decimal(n);
    assert !IsWhitespace(s[0]) && !IsWhitespace(s[|s| - 1]);
  }

  /** A key that only differs by surrounding white space is read the same. */
  lemma NormaliseKeyIgnoresPadding(n: nat)
    ensures NormaliseKey(" " + Decimal(n) + " ") == NumKey(n)
  {
    var s := Decimal(n);
    var p := " " + s + " ";
    assert LeadingWhitespace(p) == 1 by {
      assert p[1..] == s + " ";
      assert !IsWhitespace(p[1]);
    }
    assert Trim(p) == s by {
      var t := p[1..];
      assert t == s + " ";
      assert TrailingWhitespace(t) == 1 by {
        assert !IsWhitespace(t[|t| - 2]);
        TrailingOne(s);
      }
    }
    NormaliseKeyOfDecimal(n);
  }

  lemma TrailingOne(s: string)
    requires |s| > 0 && !IsWhitespace(s[|s| - 1])
    ensures TrailingWhitespace(s + " ") == 1
  {
    var t := s + " ";
    assert t[..|t| - 1] == s;
  }

  /** The answers re-keyed, string values only, a later entry replacing an
      earlier one with the same key. */
  function NormaliseAnswers(d: Record): map<Key, string>
    decreases |d|
  {
    if |d| == 0 then map[]
    else
      var m := NormaliseAnswers(d[..|d| - 1]);
      var last := d[|d| - 1];
      if last.1.Text? then m[NormaliseKey(last.0) := last.1.text] else m
  }

  /** A string-valued entry under key `k`. */
  predicate TextUnder(e: (string, AnswerValue), k: Key) {
    e.1.Text? && NormaliseKey(e.0) == k
  }

  /** Some string-valued entry of `d` has key `k`. */
  predicate AnsweredIn(d: Record, k: Key) {
    exists i | 0 <= i < |d| :: TextUnder(d[i], k)
  }

  /** A key is answered exactly when some string-valued entry has it. */
  lemma {:induction false} NormaliseAnswersDomain(d: Record, k: Key)
    ensures k in NormaliseAnswers(d) <==> AnsweredIn(d, k)
    decreases |d|
  {
    if |d| > 0 {
      NormaliseAnswersDomain(d[..|d| - 1], k);
      if AnsweredIn(d[..|d| - 1], k) {
        AnsweredInInit(d, k);
      }
      if AnsweredIn(d, k) {
        AnsweredInSplit(d, k);
      }
      assert TextUnder(d[|d| - 1], k) ==> AnsweredIn(d, k);
    }
  }

  lemma AnsweredInInit(d: Record, k: Key)
    requires |d| > 0 && AnsweredIn(d[..|d| - 1], k)
    ensures AnsweredIn(d, k)
  {
    var init := d[..|d| - 1];
    var i :| 0 <= i < |init| && TextUnder(init[i], k);
    assert d[i] == init[i];
  }

  lemma AnsweredInSplit(d: Record, k: Key)
    requires |d| > 0 && AnsweredIn(d, k)
    ensures AnsweredIn(d[..|d| - 1], k) || TextUnder(d[|d| - 1], k)
  {
    var init := d[..|d| - 1];
    var i :| 0 <= i < |d| && TextUnder(d[i], k);
    if i < |d| - 1 {
      assert init[i] == d[i];
    }
  }

  /** The shown answer for a key is the last string value given under it. */
  lemma {:induction false} NormaliseAnswersLastWins(d: Record, i: int)
    requires 0 <= i < |d| && d[i].1.Text?
    requires forall j | i < j < |d| :: !(d[j].1.Text? && NormaliseKey(d[j].0) == NormaliseKey(d[i].0))
    ensures NormaliseKey(d[i].0) in NormaliseAnswers(d)
    ensures NormaliseAnswers(d)[NormaliseKey(d[i].0)] == d[i].1.text
    decreases |d|
  {
    if i < |d| - 1 {
      var init := d[..|d| - 1];
      assert init[i] == d[i];
      NormaliseAnswersLastWins(init, i);
    }
  }

  const NoResponse := "No response"

  /** `formattedResponses[q.id] || 'No response'`. */
  function DisplayedAnswer(formatted: map<Key, string>, id: int): (a: string)
    ensures a == NoResponse || (NumKey(id) in formatted && a == formatted[NumKey(id)] != "")
    ensures NumKey(id) in formatted && formatted[NumKey(id)] != "" ==> a == formatted[NumKey(id)]
  {
    if NumKey(id) in formatted && formatted[NumKey(id)] != "" then formatted[NumKey(id)] else NoResponse
  }

  /** The answers shown for a response, one per question, in question order. */
  function DisplayedAnswers(r: StoredResponse): (shown: seq<string>)
    ensures |shown| == |Questions|
    ensures forall q | 0 <= q < |Questions| :: shown[q] == DisplayedAnswer(NormaliseAnswers(ResponseData(r)), Questions[q].id)
  {
    var formatted := NormaliseAnswers(ResponseData(r));
    seq(|Questions|, q requires 0 <= q < |Questions| => DisplayedAnswer(formatted, Questions[q].id))
  }

  /** The stored form of a submitted answers map: an entry per question id,
      the id written in decimal. */
  function StoredRecord(answers: map<int, string>, ids: seq<nat>): (d: Record)
    requires forall k | 0 <= k < |ids| :: ids[k] in answers
    ensures |d| == |ids|
    ensures forall k | 0 <= k < |ids| :: d[k] == (Decimal(ids[k]), Text(answers[ids[k]]))
  {
    if |ids| == 0 then [] else [(Decimal(ids[0]), Text(answers[ids[0]]))] + StoredRecord(answers, ids[1..])
  }

  /** Re-keying a stored submission recovers each answer under its id. */
  lemma StoredRecordNormalises(answers: map<int, string>, ids: seq<nat>, k: int)
    requires forall j | 0 <= j < |ids| :: ids[j] in answers
    requires 0 <= k < |ids|
    requires forall a, b | 0 <= a < b < |ids| :: ids[a] != ids[b]
    ensures NumKey(ids[k]) in NormaliseAnswers(StoredRecord(answers, ids))
    ensures NormaliseAnswers(StoredRecord(answers, ids))[NumKey(ids[k])] == answers[ids[k]]
  {
    var d := StoredRecord(answers, ids);
    NormaliseKeyOfDecimal(ids[k]);
    forall j | k < j < |d|
      ensures !(d[j].1.Text? && NormaliseKey(d[j].0) == NormaliseKey(d[k].0))
    {
      NormaliseKeyOfDecimal(ids[j]);
    }
    NormaliseAnswersLastWins(d, k);
  }

  /** The question ids 1 to 11, in order. */
  const QuestionIds: seq<nat> := seq(11, i => i + 1)

  /** A stored answers map keyed by the question ids is shown on the
      responses page answer by answer, an empty answer as "No response". */
  lemma StoredAnswersDisplayed(m: map<int, string>, r: StoredResponse)
    requires forall i | 1 <= i <= |QuestionIds| :: i in m
    requires r.answers == Some(StoredRecord(m, QuestionIds))
    ensures forall q | 0 <= q < |Questions| ::
      DisplayedAnswers(r)[q] == if m[q + 1] != "" then m[q + 1] else NoResponse
  {
    forall q | 0 <= q < |Questions|
      ensures DisplayedAnswers(r)[q] == if m[q + 1] != "" then m[q + 1] else NoResponse
    {
      StoredAnswerDisplayed(m, r, q);
    }
  }

  lemma StoredAnswerDisplayed(m: map<int, string>, r: StoredResponse, q: int)
    requires forall i | 1 <= i <= |QuestionIds| :: i in m
    requires r.answers == Some(StoredRecord(m, QuestionIds))
    requires 0 <= q < |Questions|
    ensures q + 1 in m
    ensures DisplayedAnswers(r)[q] == if m[q + 1] != "" then m[q + 1] else NoResponse
  {
    QuestionIdIsPosition(q);
    StoredRecordNormalises(m, QuestionIds, q);
  }

  lemma QuestionIdIsPosition(q: int)
    requires 0 <= q < |Questions|
    ensures |QuestionIds| == |Questions| && QuestionIds[q] == q + 1 == Questions[q].id
  {
    QuestionTable();
  }

  /** A completed survey, stored under its question ids, is shown on the
      responses page answer by answer, an empty answer as "No response". */
  lemma SubmissionDisplayed(all: seq<string>, user: Option<User>, outcome: SaveOutcome, r: StoredResponse)
    requires |all| == |Questions| && !outcome.SaveFailed?
    requires r.answers == Some(StoredRecord(AnswersUpTo(all, |all|), QuestionIds))
    ensures Run(Initial, all, user, outcome).submitted
      == Some(Submission(UserIdOf(user), UserEmailOf(user), AnswersUpTo(all, |all|)))
    ensures forall q | 0 <= q < |Questions| ::
      DisplayedAnswers(r)[q] == if all[q] != "" then all[q] else NoResponse
  {
    CompleteRun(all, user, outcome);
    StoredAnswersDisplayed(AnswersUpTo(all, |all|), r);
  }
}
