/** The evaluation run when the candidate presses the button: categorise the
    probability, attribute the decision score to the features, pick the
    weak and strong areas, and write their messages. The scaler and the
    classifier are not modelled: their outputs are the inputs here. */
module Evaluation {
  import opened Features
  import opened Readiness
  import opened Attribution
  import opened Selection
  import opened Feedback

  datatype Report = Report(
    category: Category,
    weakAreas: seq<Feature>,
    strongAreas: seq<Feature>,
    toImprove: Section,
    strengths: Section)

  /** The signed contribution of feature f: its scaled value times its
      coefficient, both read at f's column. */
  function ColumnContribution(scaled: seq<real>, coef: seq<real>, f: Feature): real
    requires |scaled| == |FeatureColumns| && |coef| == |FeatureColumns|
  {
    scaled[ColumnIndex(f)] * coef[ColumnIndex(f)]
  }

  /** `scaled` is the scaler's output for the assembled vector, `coef` the
      classifier's coefficients, `probability` its positive-class
      probability. Every selected area has a message in its table, and a
      section falls back to its fixed sentence exactly when nothing was
      selected for it. */
  function Evaluate(scaled: seq<real>, coef: seq<real>, probability: real): (r: Report)
    requires |scaled| == |FeatureColumns| && |coef| == |FeatureColumns|
    ensures InBand(probability, r.category)
    ensures r.weakAreas == WeakAreas(FeatureContrib(scaled, coef))
    ensures r.strongAreas == StrongAreas(FeatureContrib(scaled, coef))
    ensures |r.weakAreas| <= 3 && |r.strongAreas| <= 2
    ensures forall f :: f in r.weakAreas ==> f in ImprovementTips
    ensures forall f :: f in r.strongAreas ==> f in StrengthNotes
    ensures r.toImprove == Render(r.weakAreas, ImprovementTips, NoWeakAreas)
    ensures r.strengths == Render(r.strongAreas, StrengthNotes, BalancedProfile)
    ensures r.toImprove == Fallback(NoWeakAreas) <==> r.weakAreas == []
    ensures r.strengths == Fallback(BalancedProfile) <==> r.strongAreas == []
  {
    var fc := FeatureContrib(scaled, coef);
    var weak := WeakAreas(fc);
    var strong := StrongAreas(fc);
    TablesCoverCurated();
    Report(
      Categorize(probability),
      weak,
      strong,
      Render(weak, ImprovementTips, NoWeakAreas),
      Render(strong, StrengthNotes, BalancedProfile))
  }

  /** The areas to improve are curated features whose scaled value times
      coefficient is negative, most negative first with ties in curated
      order; a negative curated feature is missing only when three are
      already listed, none of them less negative than it. */
  lemma WeakAreasByColumn(scaled: seq<real>, coef: seq<real>)
    requires |scaled| == |FeatureColumns| && |coef| == |FeatureColumns|
    ensures var w := WeakAreas(FeatureContrib(scaled, coef));
      && (forall i :: 0 <= i < |w| ==> w[i] in Curated && ColumnContribution(scaled, coef, w[i]) < 0.0)
      && (forall i, j :: 0 <= i < j < |w| ==>
            || ColumnContribution(scaled, coef, w[i]) < ColumnContribution(scaled, coef, w[j])
            || (ColumnContribution(scaled, coef, w[i]) == ColumnContribution(scaled, coef, w[j])
                && CuratedRank(w[i]) < CuratedRank(w[j])))
      && (forall f :: f in Curated && ColumnContribution(scaled, coef, f) < 0.0 && f !in w ==>
            && |w| == 3
            && forall i :: 0 <= i < |w| ==> ColumnContribution(scaled, coef, w[i]) <= ColumnContribution(scaled, coef, f))
  {
    var fc := FeatureContrib(scaled, coef);
    var w := WeakAreas(fc);
    forall i | 0 <= i < |w| ensures w[i] in Curated && ColumnContribution(scaled, coef, w[i]) < 0.0 {
      assert fc[w[i]] == ColumnContribution(scaled, coef, w[i]);
    }
    forall i, j | 0 <= i < j < |w|
      ensures || ColumnContribution(scaled, coef, w[i]) < ColumnContribution(scaled, coef, w[j])
              || (ColumnContribution(scaled, coef, w[i]) == ColumnContribution(scaled, coef, w[j])
                  && CuratedRank(w[i]) < CuratedRank(w[j]))
    {
      assert fc[w[i]] == ColumnContribution(scaled, coef, w[i]);
      assert fc[w[j]] == ColumnContribution(scaled, coef, w[j]);
    }
    forall f | f in Curated && ColumnContribution(scaled, coef, f) < 0.0 && f !in w
      ensures |w| == 3
      ensures forall i :: 0 <= i < |w| ==> ColumnContribution(scaled, coef, w[i]) <= ColumnContribution(scaled, coef, f)
    {
      assert fc[f] == ColumnContribution(scaled, coef, f);
      forall i | 0 <= i < |w| ensures ColumnContribution(scaled, coef, w[i]) <= ColumnContribution(scaled, coef, f) {
        assert fc[w[i]] == ColumnContribution(scaled, coef, w[i]);
      }
    }
  }

  /** The strengths are curated features whose scaled value times
      coefficient is positive, most positive first with ties in curated
      order; a positive curated feature is missing only when two are
      already listed, none of them less positive than it. */
  lemma StrongAreasByColumn(scaled: seq<real>, coef: seq<real>)
    requires |scaled| == |FeatureColumns| && |coef| == |FeatureColumns|
    ensures var s := StrongAreas(FeatureContrib(scaled, coef));
      && (forall i :: 0 <= i < |s| ==> s[i] in Curated && ColumnContribution(scaled, coef, s[i]) > 0.0)
      && (forall i, j :: 0 <= i < j < |s| ==>
            || ColumnContribution(scaled, coef, s[i]) > ColumnContribution(scaled, coef, s[j])
            || (ColumnContribution(scaled, coef, s[i]) == ColumnContribution(scaled, coef, s[j])
                && CuratedRank(s[i]) < CuratedRank(s[j])))
      && (forall f :: f in Curated && ColumnContribution(scaled, coef, f) > 0.0 && f !in s ==>
            && |s| == 2
            && forall i :: 0 <= i < |s| ==> ColumnContribution(scaled, coef, s[i]) >= ColumnContribution(scaled, coef, f))
  {
    var fc := FeatureContrib(scaled, coef);
    var s := StrongAreas(fc);
    forall i | 0 <= i < |s| ensures s[i] in Curated && ColumnContribution(scaled, coef, s[i]) > 0.0 {
      assert fc[s[i]] == ColumnContribution(scaled, coef, s[i]);
    }
    forall i, j | 0 <= i < j < |s|
      ensures || ColumnContribution(scaled, coef, s[i]) > ColumnContribution(scaled, coef, s[j])
              || (ColumnContribution(scaled, coef, s[i]) == ColumnContribution(scaled, coef, s[j])
                  && CuratedRank(s[i]) < CuratedRank(s[j]))
    {
      assert fc[s[i]] == ColumnContribution(scaled, coef, s[i]);
      assert fc[s[j]] == ColumnContribution(scaled, coef, s[j]);
    }
    forall f | f in Curated && ColumnContribution(scaled, coef, f) > 0.0 && f !in s
      ensures |s| == 2
      ensures forall i :: 0 <= i < |s| ==> ColumnContribution(scaled, coef, s[i]) >= ColumnContribution(scaled, coef, f)
    {
      assert fc[f] == ColumnContribution(scaled, coef, f);
      forall i | 0 <= i < |s| ensures ColumnContribution(scaled, coef, s[i]) >= ColumnContribution(scaled, coef, f) {
        assert fc[s[i]] == ColumnContribution(scaled, coef, s[i]);
      }
    }
  }

  /** No feature is reported both as an area to improve and as a strength. */
  lemma EvaluateDisjoint(scaled: seq<real>, coef: seq<real>, probability: real)
    requires |scaled| == |FeatureColumns| && |coef| == |FeatureColumns|
    ensures forall f :: f in Evaluate(scaled, coef, probability).weakAreas ==>
              f !in Evaluate(scaled, coef, probability).strongAreas
  {
    var fc := FeatureContrib(scaled, coef);
    WeakStrongDisjoint(fc);
  }

  /** The messages shown identify the areas behind them: two lists of
      areas with table entries (as every report's lists have) rendered into
      the same sections are the same lists, in the same order. */
  lemma MessagesIdentifyAreas(w1: seq<Feature>, s1: seq<Feature>, w2: seq<Feature>, s2: seq<Feature>)
    requires forall f :: f in w1 ==> f in ImprovementTips
    requires forall f :: f in w2 ==> f in ImprovementTips
    requires forall f :: f in s1 ==> f in StrengthNotes
    requires forall f :: f in s2 ==> f in StrengthNotes
    requires Render(w1, ImprovementTips, NoWeakAreas) == Render(w2, ImprovementTips, NoWeakAreas)
    requires Render(s1, StrengthNotes, BalancedProfile) == Render(s2, StrengthNotes, BalancedProfile)
    ensures w1 == w2 && s1 == s2
  {
    TablesUnambiguous();
    RenderInjective(w1, w2, ImprovementTips, NoWeakAreas);
    RenderInjective(s1, s2, StrengthNotes, BalancedProfile);
  }
}
