/** Stakeholder alignment: how well the ratings of the values serve what a
    stakeholder group expects. Each value is linked to a few expectation
    texts; a value counts once per linked text that the group lists, and
    the alignment is the weighted mean of the value scores as a percentage
    of the best possible score. */
module Alignment {
  import opened Basics
  import opened Text
  import opened FeedbackTypes
  import opened FeedbackAnalysis
  import opened Qualitative

  /** The expectation texts the source links to each value, as written.
      "Clear, timely comms" is not the text any group lists: the Referrers
      list "Clear, timely comms (within 12 hrs)". */
  function MappedExpectationsAsWritten(v: Value): seq<string> {
    match v
    case Collaboration => ["Pets go home safely and in good condition", "Smooth logistics"]
    case Respect => ["Ability to rely on us despite limited proof", "Ability to rely on us"]
    case Transparency => ["Appreciate transparency and proof of impact", "Clear communication"]
    case Communication => ["Clear, timely comms", "Regular updates", "Timely updates"]
  }

  /** The links with the Communication text spelled as the Referrers list it. */
  function MappedExpectations(v: Value): seq<string> {
    match v
    case Communication => ["Clear, timely comms (within 12 hrs)", "Regular updates", "Timely updates"]
    case _ => MappedExpectationsAsWritten(v)
  }

  /** Some group lists the expectation text `x`. */
  predicate IsListedExpectation(x: string) {
    exists t: StakeholderType :: x in ExpectationsOf(t)
  }

  /** Every text the corrected links name is listed by some stakeholder group. */
  lemma MappedExpectationsAreListed(v: Value, x: string)
    requires x in MappedExpectations(v)
    ensures IsListedExpectation(x)
  {
    var pw, su, re := ExpectationsOf(PeopleWeHelp), ExpectationsOf(Supporters), ExpectationsOf(Referrers);
    match v
    case Collaboration =>
      if x == pw[0] { assert x in pw; } else { assert x == re[2]; assert x in re; }
    case Respect =>
      if x == pw[3] { assert x in pw; } else { assert x == re[3]; assert x in re; }
    case Transparency =>
      if x == su[0] { assert x in su; } else { assert x == pw[1]; assert x in pw; }
    case Communication =>
      if x == pw[2] { assert x in pw; } else if x == re[0] { assert x in re; } else { assert x == re[1]; assert x in re; }
  }

  /** As written, the Communication link "Clear, timely comms" is listed by
      no group, so it never counts. */
  lemma UnlistedLinkAsWritten()
    ensures "Clear, timely comms" in MappedExpectationsAsWritten(Communication)
    ensures !IsListedExpectation("Clear, timely comms")
  {
    assert MappedExpectationsAsWritten(Communication)[0] == "Clear, timely comms";
    assert "Clear communication"[5] != "Clear, timely comms"[5];
    forall t: StakeholderType
      ensures "Clear, timely comms" !in ExpectationsOf(t)
    {
    }
  }

  /** How many of `xs` occur in `ys`. */
  function CountListed(xs: seq<string>, ys: seq<string>): (n: nat)
    ensures n <= |xs|
    ensures n > 0 <==> exists x | x in xs :: x in ys
  {
    if |xs| == 0 then 0
    else
      var n := (if xs[0] in ys then 1 else 0) + CountListed(xs[1..], ys);
      assert forall x | x in xs :: x == xs[0] || x in xs[1..];
      n
  }

  /** How many of the links of `v` group `t` lists: the weight of `v` for `t`. */
  function RelevantCountIn(table: Value -> seq<string>, v: Value, t: StakeholderType): (n: nat)
    ensures n <= |table(v)|
    ensures n > 0 <==> exists x | x in table(v) :: x in ExpectationsOf(t)
  {
    CountListed(table(v), ExpectationsOf(t))
  }

  function RelevantCount(v: Value, t: StakeholderType): nat {
    RelevantCountIn(MappedExpectations, v, t)
  }

  /** The weights for the people we help: every value once. */
  lemma PeopleWeHelpWeights()
    ensures RelevantCount(Collaboration, PeopleWeHelp) == 1
    ensures RelevantCount(Respect, PeopleWeHelp) == 1
    ensures RelevantCount(Transparency, PeopleWeHelp) == 1
    ensures RelevantCount(Communication, PeopleWeHelp) == 1
  {
    PeopleWeHelpCollaboration();
    PeopleWeHelpRespect();
    PeopleWeHelpTransparency();
    PeopleWeHelpCommunication();
  }

  lemma PeopleWeHelpCollaboration()
    ensures RelevantCount(Collaboration, PeopleWeHelp) == 1
  {
    var pw := ExpectationsOf(PeopleWeHelp);
    assert MappedExpectations(Collaboration)[0] == pw[0];
    assert "Smooth logistics" !in pw;
  }

  lemma PeopleWeHelpRespect()
    ensures RelevantCount(Respect, PeopleWeHelp) == 1
  {
    var pw := ExpectationsOf(PeopleWeHelp);
    assert MappedExpectations(Respect)[0] == pw[3];
    assert "Ability to rely on us" !in pw;
  }

  lemma PeopleWeHelpTransparency()
    ensures RelevantCount(Transparency, PeopleWeHelp) == 1
  {
    var pw := ExpectationsOf(PeopleWeHelp);
    assert MappedExpectations(Transparency)[1] == pw[1];
    assert "Ability to rely on us despite limited proof"[1] != "Appreciate transparency and proof of impact"[1];
    assert "Appreciate transparency and proof of impact" !in pw;
  }

  lemma PeopleWeHelpCommunication()
    ensures RelevantCount(Communication, PeopleWeHelp) == 1
  {
    var pw := ExpectationsOf(PeopleWeHelp);
    assert MappedExpectations(Communication)[2] == pw[2];
    assert "Clear, timely comms (within 12 hrs)" !in pw;
    assert "Regular updates" !in pw;
  }

  /** The weights for the supporters: transparency only. */
  lemma SupportersWeights()
    ensures RelevantCount(Collaboration, Supporters) == 0
    ensures RelevantCount(Respect, Supporters) == 0
    ensures RelevantCount(Transparency, Supporters) == 1
    ensures RelevantCount(Communication, Supporters) == 0
  {
    assert "Ability to rely on us despite limited proof"[1] != "Appreciate transparency and proof of impact"[1];
  }

  /** The weights for the referrers: collaboration, respect, and
      communication twice. */
  lemma ReferrersWeights()
    ensures RelevantCount(Collaboration, Referrers) == 1
    ensures RelevantCount(Respect, Referrers) == 1
    ensures RelevantCount(Transparency, Referrers) == 0
    ensures RelevantCount(Communication, Referrers) == 2
  {
    ReferrersCollaboration();
    ReferrersRespect();
    ReferrersTransparency();
    ReferrersCommunication();
  }

  lemma ReferrersCollaboration()
    ensures RelevantCount(Collaboration, Referrers) == 1
  {
    var re := ExpectationsOf(Referrers);
    assert MappedExpectations(Collaboration)[1] == re[2];
    assert "Pets go home safely and in good condition" !in re;
  }

  lemma ReferrersRespect()
    ensures RelevantCount(Respect, Referrers) == 1
  {
    var re := ExpectationsOf(Referrers);
    assert MappedExpectations(Respect)[1] == re[3];
    assert "Ability to rely on us despite limited proof" !in re;
  }

  lemma ReferrersTransparency()
    ensures RelevantCount(Transparency, Referrers) == 0
  {
    var re := ExpectationsOf(Referrers);
    assert "Appreciate transparency and proof of impact" !in re;
    assert "Clear communication" !in re;
  }

  lemma ReferrersCommunication()
    ensures RelevantCount(Communication, Referrers) == 2
  {
    var re := ExpectationsOf(Referrers);
    assert MappedExpectations(Communication)[0] == re[0];
    assert MappedExpectations(Communication)[1] == re[1];
    assert "Timely updates" !in re;
  }

  /** As written, communication weighs only once for the referrers. */
  lemma ReferrerCommunicationWeightAsWritten()
    ensures RelevantCountIn(MappedExpectationsAsWritten, Communication, Referrers) == 1
    ensures RelevantCount(Communication, Referrers) == 2
  {
    ReferrersWeights();
    UnlistedLinkAsWritten();
  }

  /** The two link tables give every group the same weight for every value,
      except that the referrers weigh communication once as written and
      twice when corrected. */
  lemma WeightsAsWrittenAgree(t: StakeholderType, v: Value)
    ensures t != Referrers || v != Communication
         ==> RelevantCountIn(MappedExpectationsAsWritten, v, t) == RelevantCount(v, t)
    ensures t == Referrers && v == Communication
         ==> RelevantCountIn(MappedExpectationsAsWritten, v, t) == 1 && RelevantCount(v, t) == 2
  {
    if v == Communication {
      if t == Referrers {
        ReferrerCommunicationWeightAsWritten();
      } else {
        var e := ExpectationsOf(t);
        UnlistedLinkAsWritten();
        assert "Clear, timely comms" !in e;
        assert "Clear, timely comms (within 12 hrs)" !in e;
        assert MappedExpectationsAsWritten(Communication)[1..] == MappedExpectations(Communication)[1..];
      }
    }
  }

  /** As written, the people we help weigh every value once. */
  lemma PeopleWeHelpWeightsAsWritten()
    ensures RelevantCountIn(MappedExpectationsAsWritten, Collaboration, PeopleWeHelp) == 1
    ensures RelevantCountIn(MappedExpectationsAsWritten, Respect, PeopleWeHelp) == 1
    ensures RelevantCountIn(MappedExpectationsAsWritten, Transparency, PeopleWeHelp) == 1
    ensures RelevantCountIn(MappedExpectationsAsWritten, Communication, PeopleWeHelp) == 1
  {
    PeopleWeHelpWeights();
    WeightsAsWrittenAgree(PeopleWeHelp, Collaboration);
    WeightsAsWrittenAgree(PeopleWeHelp, Respect);
    WeightsAsWrittenAgree(PeopleWeHelp, Transparency);
    WeightsAsWrittenAgree(PeopleWeHelp, Communication);
  }

  /** As written, the supporters weigh transparency alone. */
  lemma SupportersWeightsAsWritten()
    ensures RelevantCountIn(MappedExpectationsAsWritten, Collaboration, Supporters) == 0
    ensures RelevantCountIn(MappedExpectationsAsWritten, Respect, Supporters) == 0
    ensures RelevantCountIn(MappedExpectationsAsWritten, Transparency, Supporters) == 1
    ensures RelevantCountIn(MappedExpectationsAsWritten, Communication, Supporters) == 0
  {
    SupportersWeights();
    WeightsAsWrittenAgree(Supporters, Collaboration);
    WeightsAsWrittenAgree(Supporters, Respect);
    WeightsAsWrittenAgree(Supporters, Transparency);
    WeightsAsWrittenAgree(Supporters, Communication);
  }

  /** The running totals of the alignment loop. */
  datatype Tally = Tally(total: real, maxScore: int, evidence: seq<string>)

  /** The comments of the positive entries among `es`. */
  function PositiveComments(es: seq<FeedbackEntry>): seq<string> {
    Comments(Filter(es, Positive))
  }

  /** `v` contributes to the alignment: it has entries and a positive weight. */
  predicate Contributes(weight: Value -> nat, entries: seq<FeedbackEntry>, v: Value) {
    |EntriesFor(entries, v)| > 0 && weight(v) > 0
  }

  /** One round of the loop: a contributing value adds its score times its
      weight, five times its weight to the best possible score, and the
      comments of its positive entries to the evidence. */
  function Step(weight: Value -> nat, entries: seq<FeedbackEntry>, acc: Tally, v: Value): Tally {
    var ve := EntriesFor(entries, v);
    if |ve| == 0 || weight(v) == 0 then acc
    else Tally(acc.total + CalculateValueScore(ve, v) * weight(v) as real,
               acc.maxScore + 5 * weight(v),
               acc.evidence + PositiveComments(ve))
  }

  /** The loop over `vs`, in order. */
  function TallyOver(weight: Value -> nat, entries: seq<FeedbackEntry>, vs: seq<Value>): Tally {
    if |vs| == 0 then Tally(0.0, 0, [])
    else Step(weight, entries, TallyOver(weight, entries, vs[..|vs| - 1]), vs[|vs| - 1])
  }

  /** The totals of the alignment loop are consistent with scores in [1, 5]. */
  predicate Bounded(r: Tally) {
    && r.maxScore >= 0
    && r.maxScore as real <= 5.0 * r.total
    && r.total <= r.maxScore as real
  }

  /** Adding a score in [1, 5] with a positive weight keeps the total
      between a fifth of the best possible score and all of it. */
  lemma StepKeepsBounds(total: real, maxScore: int, score: real, weight: nat)
    requires maxScore >= 0 && maxScore as real <= 5.0 * total && total <= maxScore as real
    requires 1.0 <= score <= 5.0
    ensures Bounded(Tally(total + score * weight as real, maxScore + 5 * weight, []))
  {
    var w := weight as real;
    var c := score * w;
    assert (maxScore + 5 * weight) as real == maxScore as real + 5.0 * w;
    MulNonNegative(score - 1.0, w);
    MulNonNegative(5.0 - score, w);
    assert (score - 1.0) * w == c - w;
    assert (5.0 - score) * w == 5.0 * w - c;
    assert 5.0 * (total + c) == 5.0 * total + 5.0 * c;
  }

  lemma MulNonNegative(a: real, b: real)
    requires a >= 0.0 && b >= 0.0
    ensures a * b >= 0.0
  {
  }

  lemma StepBounded(weight: Value -> nat, entries: seq<FeedbackEntry>, acc: Tally, v: Value)
    requires AllValidRatings(entries) && Bounded(acc)
    ensures Bounded(Step(weight, entries, acc, v))
  {
    var ve := EntriesFor(entries, v);
    if |ve| > 0 && weight(v) > 0 {
      EntriesForIdempotent(entries, v);
      EntriesForValid(entries, v);
      var score := CalculateValueScore(ve, v);
      StepKeepsBounds(acc.total, acc.maxScore, score, weight(v));
    }
  }

  /** With ratings on the scale every value score lies in [1, 5], so the
      total lies between a fifth of the best possible score and all of it. */
  lemma {:induction false} TallyBounds(weight: Value -> nat, entries: seq<FeedbackEntry>, vs: seq<Value>)
    requires AllValidRatings(entries)
    ensures Bounded(TallyOver(weight, entries, vs))
  {
    if |vs| > 0 {
      var init := vs[..|vs| - 1];
      TallyBounds(weight, entries, init);
      StepBounded(weight, entries, TallyOver(weight, entries, init), vs[|vs| - 1]);
    }
  }

  /** The best possible score is positive exactly when some value of `vs`
      contributes. */
  lemma {:induction false} TallyWeightPositive(weight: Value -> nat, entries: seq<FeedbackEntry>, vs: seq<Value>)
    ensures TallyOver(weight, entries, vs).maxScore >= 0
    ensures TallyOver(weight, entries, vs).maxScore > 0 <==> exists i | 0 <= i < |vs| :: Contributes(weight, entries, vs[i])
  {
    if |vs| > 0 {
      var init := vs[..|vs| - 1];
      TallyWeightPositive(weight, entries, init);
      assert forall i | 0 <= i < |init| :: init[i] == vs[i];
      if exists i | 0 <= i < |init| :: Contributes(weight, entries, init[i]) {
        var i :| 0 <= i < |init| && Contributes(weight, entries, init[i]);
        assert Contributes(weight, entries, vs[i]);
      }
    }
  }

  /** `Math.round((totalScore / maxPossibleScore) * 100)`, or 0 when nothing counted. */
  function AlignmentOf(tally: Tally): int {
    if tally.maxScore > 0 then Round(tally.total / tally.maxScore as real * 100.0) else 0
  }

  lemma RatioPercentBounds(total: real, maxScore: real)
    requires maxScore > 0.0 && maxScore <= 5.0 * total && total <= maxScore
    ensures 20 <= Round(total / maxScore * 100.0) <= 100
  {
    var q := total / maxScore;
    DivideMonotone(maxScore / 5.0, total, maxScore);
    DivideMonotone(total, maxScore, maxScore);
    assert maxScore / 5.0 / maxScore == 0.2;
    assert maxScore / maxScore == 1.0;
    RoundMonotone(20.0, q * 100.0);
    RoundMonotone(q * 100.0, 100.0);
  }

  /** `calculateStakeholderAlignment` with the weights given by a link table:
      at most three pieces of evidence; 0 when no value contributes; and,
      for ratings on the scale, a percentage between 20 and 100 once some
      value contributes. */
  function AlignmentWith(weight: Value -> nat, entries: seq<FeedbackEntry>): (r: StakeholderAlignment)
    ensures |r.supportingEvidence| <= 3
    ensures (forall v: Value :: !Contributes(weight, entries, v)) ==> r.alignment == 0
    ensures AllValidRatings(entries) && (exists v: Value :: Contributes(weight, entries, v)) ==> 20 <= r.alignment <= 100
  {
    var tally := TallyOver(weight, entries, AllValues);
    TallyWeightPositive(weight, entries, AllValues);
    assert (exists v: Value :: Contributes(weight, entries, v)) ==> tally.maxScore > 0 by {
      if exists v: Value :: Contributes(weight, entries, v) {
        var v: Value :| Contributes(weight, entries, v);
        ContributorCounts(weight, entries, v);
      }
    }
    assert AllValidRatings(entries) && tally.maxScore > 0 ==> 20 <= AlignmentOf(tally) <= 100 by {
      if AllValidRatings(entries) && tally.maxScore > 0 {
        TallyBounds(weight, entries, AllValues);
        RatioPercentBounds(tally.total, tally.maxScore as real);
      }
    }
    StakeholderAlignment(AlignmentOf(tally), Take(tally.evidence, 3))
  }

  /** A value that contributes makes the best possible score positive. */
  lemma ContributorCounts(weight: Value -> nat, entries: seq<FeedbackEntry>, v: Value)
    requires Contributes(weight, entries, v)
    ensures TallyOver(weight, entries, AllValues).maxScore > 0
  {
    TallyWeightPositive(weight, entries, AllValues);
    ValueDefinitionsCoverEachValueOnce();
    assert v in AllValues;
    var i :| 0 <= i < |AllValues| && AllValues[i] == v;
    assert Contributes(weight, entries, AllValues[i]);
  }

  /** The weight of each value for group `t`, from the corrected links. */
  function WeightFor(t: StakeholderType): Value -> nat {
    (v: Value) => RelevantCount(v, t)
  }

  /** `calculateStakeholderAlignment`, with the corrected link table. */
  function CalculateStakeholderAlignment(entries: seq<FeedbackEntry>, t: StakeholderType): (r: StakeholderAlignment)
    ensures |r.supportingEvidence| <= 3
    ensures (forall v: Value :: !Contributes(WeightFor(t), entries, v)) ==> r.alignment == 0
    ensures AllValidRatings(entries) && (exists v: Value :: Contributes(WeightFor(t), entries, v)) ==> 20 <= r.alignment <= 100
  {
    AlignmentWith(WeightFor(t), entries)
  }

  /** The weight of each value for group `t`, from the links as written. */
  function WeightForAsWritten(t: StakeholderType): Value -> nat {
    (v: Value) => RelevantCountIn(MappedExpectationsAsWritten, v, t)
  }

  /** `calculateStakeholderAlignment` as written. */
  function CalculateStakeholderAlignmentAsWritten(entries: seq<FeedbackEntry>, t: StakeholderType): (r: StakeholderAlignment)
    ensures |r.supportingEvidence| <= 3
    ensures (forall v: Value :: !Contributes(WeightForAsWritten(t), entries, v)) ==> r.alignment == 0
    ensures AllValidRatings(entries) && (exists v: Value :: Contributes(WeightForAsWritten(t), entries, v)) ==> 20 <= r.alignment <= 100
  {
    AlignmentWith(WeightForAsWritten(t), entries)
  }

  /** Every piece of evidence gathered over `vs` is the comment of a positive
      entry whose value carries weight. */
  lemma {:induction false} TallyEvidenceSound(weight: Value -> nat, entries: seq<FeedbackEntry>, vs: seq<Value>, x: string)
    requires x in TallyOver(weight, entries, vs).evidence
    ensures exists e | e in entries :: Positive(e) && weight(e.value) > 0 && e.qualitativeFeedback == x
  {
    var init := vs[..|vs| - 1];
    var prev := TallyOver(weight, entries, init);
    if x !in prev.evidence {
      var v := vs[|vs| - 1];
      var ve := EntriesFor(entries, v);
      var pos := Filter(ve, Positive);
      assert x in Comments(pos);
      var k :| 0 <= k < |pos| && Comments(pos)[k] == x;
      var e := pos[k];
      assert e in pos;
      FilterMembership(ve, Positive, e);
      EntriesForMembership(entries, v, e);
    } else {
      TallyEvidenceSound(weight, entries, init, x);
    }
  }

  /** The supporting evidence is drawn from positive comments on values the
      group cares about. */
  lemma EvidenceSound(entries: seq<FeedbackEntry>, t: StakeholderType, x: string)
    requires x in CalculateStakeholderAlignment(entries, t).supportingEvidence
    ensures exists e | e in entries :: Positive(e) && RelevantCount(e.value, t) > 0 && e.qualitativeFeedback == x
  {
    var tally := TallyOver(WeightFor(t), entries, AllValues);
    assert Take(tally.evidence, 3) == tally.evidence[..|Take(tally.evidence, 3)|];
    assert x in tally.evidence;
    TallyEvidenceSound(WeightFor(t), entries, AllValues, x);
  }

  /** The same holds of the links as written. */
  lemma EvidenceSoundAsWritten(entries: seq<FeedbackEntry>, t: StakeholderType, x: string)
    requires x in CalculateStakeholderAlignmentAsWritten(entries, t).supportingEvidence
    ensures exists e | e in entries ::
      Positive(e) && RelevantCountIn(MappedExpectationsAsWritten, e.value, t) > 0 && e.qualitativeFeedback == x
  {
    var tally := TallyOver(WeightForAsWritten(t), entries, AllValues);
    assert Take(tally.evidence, 3) == tally.evidence[..|Take(tally.evidence, 3)|];
    assert x in tally.evidence;
    TallyEvidenceSound(WeightForAsWritten(t), entries, AllValues, x);
  }

  /** The loop over one more value is one more round. */
  lemma TallyOverSnoc(weight: Value -> nat, entries: seq<FeedbackEntry>, vs: seq<Value>, v: Value)
    ensures TallyOver(weight, entries, vs + [v]) == Step(weight, entries, TallyOver(weight, entries, vs), v)
  {
    assert (vs + [v])[..|vs|] == vs;
  }

  /** A value without weight leaves the totals alone. */
  lemma StepSkips(weight: Value -> nat, entries: seq<FeedbackEntry>, acc: Tally, v: Value)
    requires weight(v) == 0
    ensures Step(weight, entries, acc, v) == acc
  {
  }

  /** Weights that count transparency once and nothing else make the
      alignment the transparency score as a percentage of 5. */
  lemma TransparencyOnlyAlignment(w: Value -> nat, entries: seq<FeedbackEntry>)
    requires w(Collaboration) == 0 && w(Respect) == 0 && w(Transparency) == 1 && w(Communication) == 0
    ensures AlignmentWith(w, entries).alignment
         == if |EntriesFor(entries, Transparency)| == 0 then 0
            else Round(CalculateValueScore(entries, Transparency) * 20.0)
  {
    var empty := Tally(0.0, 0, []);
    assert AllValues == [] + [Collaboration] + [Respect] + [Transparency] + [Communication];
    TallyOverSnoc(w, entries, [], Collaboration);
    StepSkips(w, entries, empty, Collaboration);
    TallyOverSnoc(w, entries, [Collaboration], Respect);
    StepSkips(w, entries, empty, Respect);
    TallyOverSnoc(w, entries, [Collaboration, Respect], Transparency);
    var third := Step(w, entries, empty, Transparency);
    TallyOverSnoc(w, entries, [Collaboration, Respect, Transparency], Communication);
    StepSkips(w, entries, third, Communication);
    var ve := EntriesFor(entries, Transparency);
    if |ve| > 0 {
      EntriesForIdempotent(entries, Transparency);
      var score := CalculateValueScore(ve, Transparency);
      assert third == Tally(score * 1.0, 5, PositiveComments(ve));
      assert TallyOver(w, entries, AllValues) == third;
      assert CalculateValueScore(entries, Transparency) == score;
      FifthAsPercent(score);
      assert AlignmentOf(third) == Round(score * 20.0);
    }
  }

  /** The supporters care only about transparency: their alignment is the
      transparency score as a percentage of 5. */
  lemma SupportersFollowTransparency(entries: seq<FeedbackEntry>)
    ensures CalculateStakeholderAlignment(entries, Supporters).alignment
         == if |EntriesFor(entries, Transparency)| == 0 then 0
            else Round(CalculateValueScore(entries, Transparency) * 20.0)
  {
    SupportersWeights();
    TransparencyOnlyAlignment(WeightFor(Supporters), entries);
  }

  /** As written too, the supporters' alignment is the transparency score
      as a percentage of 5: the unlisted link touches only communication. */
  lemma SupportersFollowTransparencyAsWritten(entries: seq<FeedbackEntry>)
    ensures CalculateStakeholderAlignmentAsWritten(entries, Supporters).alignment
         == if |EntriesFor(entries, Transparency)| == 0 then 0
            else Round(CalculateValueScore(entries, Transparency) * 20.0)
  {
    SupportersWeightsAsWritten();
    TransparencyOnlyAlignment(WeightForAsWritten(Supporters), entries);
  }

  lemma FifthAsPercent(score: real)
    ensures score * 1.0 / 5 as real * 100.0 == score * 20.0
  {
  }

  /** One contributing round keeps the ratio `c` : 5 when the score is `c`. */
  lemma UniformStep(total: real, maxScore: int, c: int, w: nat)
    requires 5.0 * total == (c * maxScore) as real
    ensures 5.0 * (total + c as real * w as real) == (c * (maxScore + 5 * w)) as real
  {
    CastMul(c, maxScore + 5 * w);
    CastMul(c, maxScore);
    CastMul(c, w);
    assert c * (maxScore + 5 * w) == c * maxScore + 5 * (c * w);
  }

  /** When every rating is `c`, so is the score of every value with entries. */
  lemma UniformScore(entries: seq<FeedbackEntry>, v: Value, c: int)
    requires forall e | e in entries :: e.rating == c
    requires |EntriesFor(entries, v)| > 0
    ensures CalculateValueScore(EntriesFor(entries, v), v) == c as real
  {
    var ve := EntriesFor(entries, v);
    EntriesForIdempotent(entries, v);
    forall e | e in ve && e.value == v
      ensures c <= e.rating <= c
    {
      EntriesForMembership(entries, v, e);
    }
    ValueScoreWithinRatings(ve, v, c, c);
  }

  lemma StepUniform(weight: Value -> nat, entries: seq<FeedbackEntry>, acc: Tally, v: Value, c: int)
    requires forall e | e in entries :: e.rating == c
    requires 5.0 * acc.total == (c * acc.maxScore) as real
    ensures 5.0 * Step(weight, entries, acc, v).total == (c * Step(weight, entries, acc, v).maxScore) as real
  {
    var ve := EntriesFor(entries, v);
    if |ve| > 0 && weight(v) > 0 {
      UniformScore(entries, v, c);
      UniformStep(acc.total, acc.maxScore, c, weight(v));
    }
  }

  /** When every rating is `c`, the totals keep the ratio `c` : 5. */
  lemma {:induction false} UniformTally(weight: Value -> nat, entries: seq<FeedbackEntry>, vs: seq<Value>, c: int)
    requires forall e | e in entries :: e.rating == c
    ensures 5.0 * TallyOver(weight, entries, vs).total == (c * TallyOver(weight, entries, vs).maxScore) as real
  {
    if |vs| > 0 {
      var init := vs[..|vs| - 1];
      UniformTally(weight, entries, init, c);
      StepUniform(weight, entries, TallyOver(weight, entries, init), vs[|vs| - 1], c);
    }
  }

  lemma UniformPercent(total: real, maxScore: int, c: int)
    requires maxScore > 0 && 5.0 * total == (c * maxScore) as real
    ensures Round(total / maxScore as real * 100.0) == 20 * c
  {
    CastMul(c, maxScore);
    var m := maxScore as real;
    assert total == c as real * m / 5.0;
    assert total / m == c as real / 5.0;
  }

  /** When every rating is `c`, whatever the weights, the alignment is
      exactly 20 * `c` percent once some value contributes. */
  lemma UniformAlignmentWith(w: Value -> nat, entries: seq<FeedbackEntry>, v: Value, c: int)
    requires forall e | e in entries :: e.rating == c
    requires Contributes(w, entries, v)
    ensures AlignmentWith(w, entries).alignment == 20 * c
  {
    var tally := TallyOver(w, entries, AllValues);
    UniformTally(w, entries, AllValues, c);
    ContributorCounts(w, entries, v);
    UniformPercent(tally.total, tally.maxScore, c);
  }

  /** When every rating is `c`, a group any value contributes to is aligned
      at exactly 20 * `c` percent. */
  lemma UniformRatingsAlignment(entries: seq<FeedbackEntry>, t: StakeholderType, c: int)
    requires forall e | e in entries :: e.rating == c
    requires exists v: Value :: Contributes(WeightFor(t), entries, v)
    ensures CalculateStakeholderAlignment(entries, t).alignment == 20 * c
  {
    var v: Value :| Contributes(WeightFor(t), entries, v);
    UniformAlignmentWith(WeightFor(t), entries, v, c);
  }

  /** As written, when every rating is `c`, a group any value contributes
      to is aligned at exactly 20 * `c` percent. */
  lemma UniformRatingsAlignmentAsWritten(entries: seq<FeedbackEntry>, t: StakeholderType, c: int)
    requires forall e | e in entries :: e.rating == c
    requires exists v: Value :: Contributes(WeightForAsWritten(t), entries, v)
    ensures CalculateStakeholderAlignmentAsWritten(entries, t).alignment == 20 * c
  {
    var v: Value :| Contributes(WeightForAsWritten(t), entries, v);
    UniformAlignmentWith(WeightForAsWritten(t), entries, v, c);
  }

  /** The entries of a witness: collaboration rated 1, communication rated 5. */
  function WitnessEntries(): seq<FeedbackEntry> {
    [FeedbackEntry("a", "u", Collaboration, 1, "", "s"),
     FeedbackEntry("b", "u", Communication, 5, "", "s")]
  }

  /** The witness selections and scores. */
  lemma WitnessScores()
    ensures EntriesFor(WitnessEntries(), Collaboration) == [WitnessEntries()[0]]
    ensures EntriesFor(WitnessEntries(), Respect) == []
    ensures EntriesFor(WitnessEntries(), Transparency) == []
    ensures EntriesFor(WitnessEntries(), Communication) == [WitnessEntries()[1]]
    ensures CalculateValueScore([WitnessEntries()[0]], Collaboration) == 1.0
    ensures CalculateValueScore([WitnessEntries()[1]], Communication) == 5.0
  {
    var es := WitnessEntries();
    assert es[1..][1..] == [];
    EntriesForIdempotent(es, Collaboration);
    EntriesForIdempotent(es, Communication);
  }

  /** With the witness entries, only collaboration and communication count,
      with scores 1 and 5. */
  lemma WitnessTally(w: Value -> nat)
    requires w(Collaboration) > 0 && w(Communication) > 0
    ensures TallyOver(w, WitnessEntries(), AllValues).total == (w(Collaboration) + 5 * w(Communication)) as real
    ensures TallyOver(w, WitnessEntries(), AllValues).maxScore == 5 * (w(Collaboration) + w(Communication))
  {
    WitnessScores();
    TallyOfTwo(w, WitnessEntries(), 1.0, 5.0);
    WitnessTotals(w(Collaboration), w(Communication));
  }

  /** Entries for collaboration and communication only: the totals are
      their two weighted scores. */
  lemma TallyOfTwo(w: Value -> nat, es: seq<FeedbackEntry>, sc: real, sm: real)
    requires EntriesFor(es, Respect) == [] && EntriesFor(es, Transparency) == []
    requires Contributes(w, es, Collaboration) && Contributes(w, es, Communication)
    requires CalculateValueScore(EntriesFor(es, Collaboration), Collaboration) == sc
    requires CalculateValueScore(EntriesFor(es, Communication), Communication) == sm
    ensures TallyOver(w, es, AllValues).total == 0.0 + sc * w(Collaboration) as real + sm * w(Communication) as real
    ensures TallyOver(w, es, AllValues).maxScore == 0 + 5 * w(Collaboration) + 5 * w(Communication)
  {
    var t0 := Tally(0.0, 0, []);
    TallyOverAllValues(w, es);
    StepScored(w, es, t0, Collaboration, sc);
    var first := Step(w, es, t0, Collaboration);
    StepNoEntries(w, es, first, Respect);
    StepNoEntries(w, es, first, Transparency);
    StepScored(w, es, first, Communication, sm);
  }

  /** The loop over the four values, one round after another. */
  lemma TallyOverAllValues(w: Value -> nat, es: seq<FeedbackEntry>)
    ensures TallyOver(w, es, AllValues)
         == Step(w, es, Step(w, es, Step(w, es, Step(w, es, Tally(0.0, 0, []), Collaboration), Respect), Transparency), Communication)
  {
    assert AllValues == [] + [Collaboration] + [Respect] + [Transparency] + [Communication];
    TallyOverSnoc(w, es, [], Collaboration);
    TallyOverSnoc(w, es, [Collaboration], Respect);
    TallyOverSnoc(w, es, [Collaboration, Respect], Transparency);
    TallyOverSnoc(w, es, [Collaboration, Respect, Transparency], Communication);
  }

  /** A value without entries leaves the totals alone. */
  lemma StepNoEntries(weight: Value -> nat, entries: seq<FeedbackEntry>, acc: Tally, v: Value)
    requires EntriesFor(entries, v) == []
    ensures Step(weight, entries, acc, v) == acc
  {
  }

  /** A contributing value with score `score` adds `score` per unit of
      weight and 5 per unit of weight to the best possible score. */
  lemma StepScored(weight: Value -> nat, entries: seq<FeedbackEntry>, acc: Tally, v: Value, score: real)
    requires Contributes(weight, entries, v)
    requires CalculateValueScore(EntriesFor(entries, v), v) == score
    ensures Step(weight, entries, acc, v).total == acc.total + score * weight(v) as real
    ensures Step(weight, entries, acc, v).maxScore == acc.maxScore + 5 * weight(v)
  {
  }

  /** The alignment is the rounded ratio of the loop's totals. */
  lemma AlignmentIsRatio(w: Value -> nat, entries: seq<FeedbackEntry>)
    ensures AlignmentWith(w, entries).alignment == AlignmentOf(TallyOver(w, entries, AllValues))
  {
  }

  /** The witness alignment for any weights of collaboration and
      communication. */
  lemma WitnessAlignment(w: Value -> nat)
    requires w(Collaboration) > 0 && w(Communication) > 0
    ensures AlignmentWith(w, WitnessEntries()).alignment
         == Round((w(Collaboration) + 5 * w(Communication)) as real / (5 * (w(Collaboration) + w(Communication))) as real * 100.0)
  {
    WitnessTally(w);
    AlignmentIsRatio(w, WitnessEntries());
  }

  lemma WitnessTotals(a: nat, b: nat)
    ensures 0.0 + 1.0 * a as real + 5.0 * b as real == (a + 5 * b) as real
    ensures 0 + 5 * a + 5 * b == 5 * (a + b)
  {
  }

  /** As written, the referrers are aligned at 60 percent with the witness
      entries; with the link spelled as the referrers list it, at 73. */
  lemma ReferrersWitness()
    ensures CalculateStakeholderAlignmentAsWritten(WitnessEntries(), Referrers).alignment == 60
    ensures CalculateStakeholderAlignment(WitnessEntries(), Referrers).alignment == 73
  {
    ReferrersWeights();
    ReferrersWeightsAsWritten();
    WitnessAlignment(WeightForAsWritten(Referrers));
    WitnessAlignment(WeightFor(Referrers));
    WitnessPercents();
  }

  lemma WitnessPercents()
    ensures Round((1 + 5 * 1) as real / (5 * (1 + 1)) as real * 100.0) == 60
    ensures Round((1 + 5 * 2) as real / (5 * (1 + 2)) as real * 100.0) == 73
  {
    assert (1 + 5 * 1) as real / (5 * (1 + 1)) as real * 100.0 == 60.0;
    assert (1 + 5 * 2) as real / (5 * (1 + 2)) as real * 100.0 == 1100.0 / 15.0;
  }

  /** The referrers' weights from the links as written: communication
      counts once, like collaboration and respect. */
  lemma ReferrersWeightsAsWritten()
    ensures RelevantCountIn(MappedExpectationsAsWritten, Collaboration, Referrers) == 1
    ensures RelevantCountIn(MappedExpectationsAsWritten, Respect, Referrers) == 1
    ensures RelevantCountIn(MappedExpectationsAsWritten, Transparency, Referrers) == 0
    ensures RelevantCountIn(MappedExpectationsAsWritten, Communication, Referrers) == 1
  {
    ReferrersRespect();
    ReferrersTransparency();
    var re := ExpectationsOf(Referrers);
    assert MappedExpectationsAsWritten(Collaboration)[1] == re[2];
    assert MappedExpectationsAsWritten(Communication)[1] == re[1];
    UnlistedLinkAsWritten();
  }
}
