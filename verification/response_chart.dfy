/** The bar chart under each dashboard question: the answers given, each
    with how many responses chose it and the rounded share of the answered
    responses, most frequent first; "No response" is not counted. */
module ResponseChart {
  import opened Basics
  import opened Sorting
  import opened Dashboard

  const NoResponse := "No response"

  /** The answers to question `q`, one per response: `r.answers[q] || 'No response'`. */
  function ChartAnswers(responses: seq<Answers>, q: int): (r: seq<string>)
    ensures |r| == |responses|
    ensures forall i | 0 <= i < |r| ::
      r[i] == if q in responses[i] && responses[i][q] != "" then responses[i][q] else NoResponse
  {
    if |responses| == 0 then []
    else
      var a := if q in responses[0] && responses[0][q] != "" then responses[0][q] else NoResponse;
      [a] + ChartAnswers(responses[1..], q)
  }

  predicate Answered(a: string) {
    a != NoResponse
  }

  /** The responses that are counted. */
  function Counted(responses: seq<string>): seq<string> {
    Filter(responses, Answered)
  }

  predicate NoDuplicates<T(==)>(s: seq<T>) {
    forall i, j | 0 <= i < j < |s| :: s[i] != s[j]
  }

  /** The distinct answers, in the order they first appear. The counting
      object would list integer-like answers first, in ascending order;
      key enumeration order is not modelled. */
  function Options(s: seq<string>): (d: seq<string>)
    ensures NoDuplicates(d)
    ensures forall x :: x in d <==> x in s
    decreases |s|
  {
    if |s| == 0 then []
    else
      var init := s[..|s| - 1];
      var last := s[|s| - 1];
      assert s == init + [last];
      var d := Options(init);
      if last in d then d else d + [last]
  }

  datatype Stat = Stat(option: string, count: int, percentage: int)

  function CountOf(st: Stat): int {
    st.count
  }

  /** The row of one answer among the counted `answers`. */
  function StatOf(option: string, answers: seq<string>): Stat {
    var n := multiset(answers)[option];
    Stat(option, n, Percentage(n, |answers|))
  }

  function StatsFor(options: seq<string>, answers: seq<string>): (r: seq<Stat>)
    ensures |r| == |options|
    ensures forall i | 0 <= i < |r| :: r[i] == StatOf(options[i], answers)
  {
    if |options| == 0 then []
    else [StatOf(options[0], answers)] + StatsFor(options[1..], answers)
  }

  /** The chart's rows, before and after sorting by count, largest first. */
  function ChartStats(responses: seq<string>): (r: seq<Stat>)
    ensures Ordered(r, CountOf, true)
    ensures multiset(r) == multiset(StatsFor(Options(Counted(responses)), Counted(responses)))
    ensures SumBy(r, CountOf) == SumBy(StatsFor(Options(Counted(responses)), Counted(responses)), CountOf)
  {
    var answers := Counted(responses);
    SortBy(StatsFor(Options(answers), answers), CountOf, true)
  }

  /** Each row counts exactly the responses giving its answer, at least one
      of them, never "No response", and shows a share between 0 and 100 of
      the answered responses. */
  lemma RowsCountOccurrences(responses: seq<string>, i: int)
    requires 0 <= i < |ChartStats(responses)|
    ensures var st := ChartStats(responses)[i];
      && st.option != NoResponse
      && st.count == multiset(responses)[st.option] >= 1
      && st.percentage == Percentage(st.count, |Counted(responses)|)
      && 0 <= st.percentage <= 100
  {
    var answers := Counted(responses);
    var stats := StatsFor(Options(answers), answers);
    var st := ChartStats(responses)[i];
    assert st in multiset(stats);
    var k :| 0 <= k < |stats| && stats[k] == st;
    var o := Options(answers)[k];
    assert st == StatOf(o, answers);
    FilterCount(responses, Answered);
    FilterMembership(responses, Answered, o);
    assert o in answers;
    assert multiset(answers)[o] >= 1;
    assert multiset(answers)[o] <= |answers| by {
      assert multiset(answers)[o] <= |multiset(answers)|;
    }
  }

  /** An answer has a row exactly when some response gives it and it is
      not "No response". */
  lemma RowsCoverAnswers(responses: seq<string>, x: string)
    ensures (exists i | 0 <= i < |ChartStats(responses)| :: ChartStats(responses)[i].option == x)
      <==> x in responses && x != NoResponse
  {
    var answers := Counted(responses);
    var opts := Options(answers);
    var stats := StatsFor(opts, answers);
    var r := ChartStats(responses);
    FilterMembership(responses, Answered, x);
    if x in responses && x != NoResponse {
      var k :| 0 <= k < |opts| && opts[k] == x;
      assert stats[k] in multiset(r);
    }
    if exists i | 0 <= i < |r| :: r[i].option == x {
      var i :| 0 <= i < |r| && r[i].option == x;
      RowsCountOccurrences(responses, i);
    }
  }

  /** No answer has two rows. */
  lemma RowsDistinct(responses: seq<string>)
    ensures forall i, j | 0 <= i < j < |ChartStats(responses)| ::
      ChartStats(responses)[i].option != ChartStats(responses)[j].option
  {
    var answers := Counted(responses);
    var opts := Options(answers);
    var stats := StatsFor(opts, answers);
    var r := ChartStats(responses);
    assert NoDuplicates(stats) by {
      forall i, j | 0 <= i < j < |stats|
        ensures stats[i] != stats[j]
      {
        assert stats[i].option == opts[i] && stats[j].option == opts[j];
      }
    }
    NoDuplicatesCount(stats);
    forall i, j | 0 <= i < j < |r|
      ensures r[i].option != r[j].option
    {
      assert r[i] in multiset(stats) && r[j] in multiset(stats);
      var a :| 0 <= a < |stats| && stats[a] == r[i];
      var b :| 0 <= b < |stats| && stats[b] == r[j];
      if r[i].option == r[j].option {
        assert r[i] == StatOf(r[i].option, answers) == r[j];
        RepeatCount(r, i, j);
        assert false;
      }
    }
  }

  /** The counts add up to the number of answered responses. */
  lemma CountsAddUp(responses: seq<string>)
    ensures SumBy(ChartStats(responses), CountOf) == |Counted(responses)|
  {
    OptionCountsAddUp(Counted(responses));
  }

  lemma {:induction false} NoDuplicatesCount<T>(s: seq<T>)
    requires NoDuplicates(s)
    ensures forall x :: multiset(s)[x] <= 1
  {
    if |s| > 0 {
      assert s == [s[0]] + s[1..];
      NoDuplicatesCount(s[1..]);
      assert s[0] !in s[1..];
    }
  }

  lemma RepeatCount<T>(s: seq<T>, i: int, j: int)
    requires 0 <= i < j < |s| && s[i] == s[j]
    ensures multiset(s)[s[i]] >= 2
  {
    assert s == s[..j] + [s[j]] + s[j + 1..];
    assert s[..j][i] == s[i];
    assert multiset(s[..j])[s[i]] >= 1;
  }

  lemma {:induction false} SumByAppend(a: seq<Stat>, b: seq<Stat>)
    ensures SumBy(a + b, CountOf) == SumBy(a, CountOf) + SumBy(b, CountOf)
  {
    if |a| > 0 {
      assert (a + b)[1..] == a[1..] + b;
      SumByAppend(a[1..], b);
    } else {
      assert a + b == b;
    }
  }

  /** Counting one more answer adds one to the row of that answer only. */
  lemma {:induction false} CountsShift(d: seq<string>, s: seq<string>, x: string)
    requires NoDuplicates(d)
    ensures SumBy(StatsFor(d, s + [x]), CountOf) == SumBy(StatsFor(d, s), CountOf) + (if x in d then 1 else 0)
  {
    if |d| > 0 {
      NoDuplicatesTail(d);
      CountsShift(d[1..], s, x);
      OneMoreCount(s, x, d[0]);
      assert x in d <==> x == d[0] || x in d[1..] by {
        assert d == [d[0]] + d[1..];
      }
      assert d[0] !in d[1..] by {
        NoDuplicatesHead(d);
      }
      SumByCons(StatsFor(d, s + [x]));
      SumByCons(StatsFor(d, s));
    }
  }

  lemma NoDuplicatesTail<T>(d: seq<T>)
    requires |d| > 0 && NoDuplicates(d)
    ensures NoDuplicates(d[1..])
  {
    forall i, j | 0 <= i < j < |d[1..]|
      ensures d[1..][i] != d[1..][j]
    {
      assert d[1..][i] == d[i + 1] && d[1..][j] == d[j + 1];
    }
  }

  lemma NoDuplicatesHead<T>(d: seq<T>)
    requires |d| > 0 && NoDuplicates(d)
    ensures d[0] !in d[1..]
  {
    forall k | 0 <= k < |d[1..]|
      ensures d[1..][k] != d[0]
    {
      assert d[1..][k] == d[k + 1];
    }
  }

  lemma OneMoreCount(s: seq<string>, x: string, o: string)
    ensures multiset(s + [x])[o] == multiset(s)[o] + (if o == x then 1 else 0)
  {
    assert multiset(s + [x]) == multiset(s) + multiset{x};
  }

  lemma SumByCons(r: seq<Stat>)
    requires |r| > 0
    ensures SumBy(r, CountOf) == r[0].count + SumBy(r[1..], CountOf)
  {
  }

  lemma {:induction false} StatsForSnoc(d: seq<string>, y: string, s: seq<string>)
    ensures StatsFor(d + [y], s) == StatsFor(d, s) + [StatOf(y, s)]
  {
  }

  /** Over the distinct answers, the occurrence counts add up to the number
      of answers. */
  lemma {:induction false} OptionCountsAddUp(s: seq<string>)
    ensures SumBy(StatsFor(Options(s), s), CountOf) == |s|
    decreases |s|
  {
    if |s| > 0 {
      var init := s[..|s| - 1];
      var last := s[|s| - 1];
      assert s == init + [last];
      var d := Options(init);
      OptionCountsAddUp(init);
      CountsShift(d, init, last);
      if last !in d {
        StatsForSnoc(d, last, s);
        SumByAppend(StatsFor(d, s), [StatOf(last, s)]);
        assert last !in init;
        assert multiset(s)[last] == 1 by {
          assert multiset(s) == multiset(init) + multiset{last};
        }
      }
    }
  }

  datatype BarColor = Green | Blue | Yellow | Red

  /** The bar's colour by share: green from 75, blue from 50, yellow from 25,
      otherwise red. */
  function BarColorOf(percentage: int): (c: BarColor)
    ensures c == Green <==> percentage >= 75
    ensures c == Blue <==> 50 <= percentage < 75
    ensures c == Yellow <==> 25 <= percentage < 50
    ensures c == Red <==> percentage < 25
  {
    if percentage >= 75 then Green
    else if percentage >= 50 then Blue
    else if percentage >= 25 then Yellow
    else Red
  }

  function ColorRank(c: BarColor): nat {
    match c
    case Red => 0
    case Yellow => 1
    case Blue => 2
    case Green => 3
  }

  /** A larger share never gets a colour further down the scale. */
  lemma BarColorMonotone(p: int, q: int)
    requires p <= q
    ensures ColorRank(BarColorOf(p)) <= ColorRank(BarColorOf(q))
  {
  }

  /** "response" for a single response, "responses" otherwise. */
  function ResponseLabel(count: int): (word: string)
    ensures word == "response" <==> count == 1
    ensures word == "response" || word == "responses"
  {
    if count == 1 then "response" else "responses"
  }
}
