/** The score card shown above the raw analysis (app.py, `score_html`), without its
    HTML: the score and its band, the four sub-score bars, the project facts and
    the three alert counts. */
module Dashboard {
  import opened Wrappers
  import opened Text
  import opened Palette
  import opened Schema

  datatype Bar = Bar(name: string, value: int, colour: Colour)

  datatype Card =
    | NoData
    | ScoreCard(
        score: int,
        colour: Colour,
        blurb: string,
        bars: seq<Bar>,
        projectType: string,
        complexity: string,
        reason: string,
        highRisks: nat,
        ambiguities: nat,
        scopeWarnings: nat)

  /** How many characters of the score breakdown the card shows before "...". */
  const BlurbLength: nat := 80

  /** A risk counts as high when its severity, lower-cased, is "high"; a missing
      severity reads as "" and so never counts. */
  predicate IsHighRisk(r: Risk)
    ensures IsHighRisk(r) <==> r.severity.Some? && SameIgnoringCase(r.severity.value, "high")
  {
    LowerEqualsIff(r.severity.GetOr(""), "high");
    Lower(r.severity.GetOr("")) == "high"
  }

  /** The high-severity risks, in order. */
  function HighRisks(risks: seq<Risk>): (h: seq<Risk>)
    ensures |h| <= |risks|
    ensures forall r :: r in h <==> r in risks && IsHighRisk(r)
    ensures forall r :: multiset(h)[r] == if IsHighRisk(r) then multiset(risks)[r] else 0
  {
    if |risks| == 0 then []
    else
      assert risks == [risks[0]] + risks[1..];
      (if IsHighRisk(risks[0]) then [risks[0]] else []) + HighRisks(risks[1..])
  }

  /** One sub-score bar: the reported value, 0 when missing, in its score band. */
  function MakeBar(name: string, value: Option<int>): (b: Bar)
    ensures b.name == name
    ensures value.Some? ==> b.value == value.value
    ensures value.None? ==> b.value == 0
    ensures b.colour == ScoreBand(b.value)
  {
    var v := value.GetOr(0);
    Bar(name, v, ScoreBand(v))
  }

  /** `score_html(analysis)`: no card for a missing or empty analysis; otherwise the
      overall score (0 when absent) with its band, the sub-scores in a fixed order,
      and alert counts taken from the lists themselves. */
  function Project(analysis: Option<Analysis>): (c: Card)
    ensures c.NoData? <==> analysis.None? || analysis.value.IsEmpty()
    ensures c.ScoreCard? ==> c.score == analysis.value.Scores().overall.GetOr(0)
    ensures c.ScoreCard? ==> c.colour == ScoreBand(c.score)
    ensures c.ScoreCard? ==>
              var qs := analysis.value.Scores();
              && |c.bars| == 4
              && c.bars[0].name == "Clarity" && c.bars[0].value == qs.clarity.GetOr(0)
              && c.bars[1].name == "Completeness" && c.bars[1].value == qs.completeness.GetOr(0)
              && c.bars[2].name == "Consistency" && c.bars[2].value == qs.consistency.GetOr(0)
              && c.bars[3].name == "Testability" && c.bars[3].value == qs.testability.GetOr(0)
              && forall i :: 0 <= i < 4 ==> c.bars[i].colour == ScoreBand(c.bars[i].value)
    ensures c.ScoreCard? ==> c.highRisks == |HighRisks(analysis.value.RiskList())|
    ensures c.ScoreCard? ==> c.highRisks <= |analysis.value.RiskList()|
    ensures c.ScoreCard? ==> c.ambiguities == |analysis.value.AmbiguityList()|
    ensures c.ScoreCard? ==> c.scopeWarnings == |analysis.value.ScopeCreepList()|
  {
    match analysis
    case None => NoData
    case Some(a) =>
      if a.IsEmpty() then NoData
      else
        var qs := a.Scores();
        var pi := a.Info();
        var score := qs.overall.GetOr(0);
        ScoreCard(
          score, ScoreBand(score),
          Take(qs.breakdown.GetOr(""), BlurbLength) + "...",
          [MakeBar("Clarity", qs.clarity), MakeBar("Completeness", qs.completeness),
           MakeBar("Consistency", qs.consistency), MakeBar("Testability", qs.testability)],
          pi.detectedType.GetOr("N/A"), pi.complexity.GetOr("N/A"), pi.complexityReason.GetOr("N/A"),
          |HighRisks(a.RiskList())|, |a.AmbiguityList()|, |a.ScopeCreepList()|)
  }

  /** The high-risk count reaches the number of risks exactly when every risk is high. */
  lemma {:induction false} AllHighIffFullCount(risks: seq<Risk>)
    ensures |HighRisks(risks)| == |risks| <==> forall i :: 0 <= i < |risks| ==> IsHighRisk(risks[i])
  {
    if |risks| > 0 {
      var rest := risks[1..];
      HighRisksCons(risks);
      if IsHighRisk(risks[0]) {
        AllHighIffFullCount(rest);
        assert |HighRisks(risks)| == 1 + |HighRisks(rest)|;
        if forall i :: 0 <= i < |rest| ==> IsHighRisk(rest[i]) {
          forall i | 0 <= i < |risks| ensures IsHighRisk(risks[i]) {
            if i > 0 { assert risks[i] == rest[i - 1]; }
          }
        }
        if forall i :: 0 <= i < |risks| ==> IsHighRisk(risks[i]) {
          forall i | 0 <= i < |rest| ensures IsHighRisk(rest[i]) {
            assert rest[i] == risks[i + 1];
          }
        }
      } else {
        assert |HighRisks(risks)| == |HighRisks(rest)| <= |rest| < |risks|;
      }
    }
  }

  lemma HighRisksCons(risks: seq<Risk>)
    requires |risks| > 0
    ensures HighRisks(risks) == (if IsHighRisk(risks[0]) then [risks[0]] else []) + HighRisks(risks[1..])
  {
  }

  /** The high-risk count is zero exactly when no risk is high. */
  lemma NoneHighIffZeroCount(risks: seq<Risk>)
    ensures |HighRisks(risks)| == 0 <==> forall i :: 0 <= i < |risks| ==> !IsHighRisk(risks[i])
  {
    var h := HighRisks(risks);
    if |h| > 0 {
      assert h[0] in h;
      var i :| 0 <= i < |risks| && risks[i] == h[0];
    } else {
      forall i | 0 <= i < |risks| ensures !IsHighRisk(risks[i]) {
        assert risks[i] in risks && risks[i] !in h;
      }
    }
  }

  /** The alert counts never read the model's own `summary.total_*` figures: two
      analyses that differ only in their summary get the same counts. */
  lemma AlertsIgnoreReportedTotals(a: Analysis, s: Option<Summary>)
    requires !a.IsEmpty() && !a.(summary := s).IsEmpty()
    ensures Project(Some(a)).highRisks == Project(Some(a.(summary := s))).highRisks
    ensures Project(Some(a)).ambiguities == Project(Some(a.(summary := s))).ambiguities
    ensures Project(Some(a)).scopeWarnings == Project(Some(a.(summary := s))).scopeWarnings
  {
  }
}
