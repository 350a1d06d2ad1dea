/** The JSON shapes the language model is asked to return. Every key is optional,
    as the source reads each one with `dict.get(key, default)`; list-valued keys
    read as the empty list when absent. */
module Schema {
  import opened Wrappers

  datatype ProjectInfo = ProjectInfo(
    detectedType: Option<string>,
    complexity: Option<string>,
    complexityReason: Option<string>,
    totalRequirements: Option<int>)

  datatype QualityScore = QualityScore(
    overall: Option<int>,
    clarity: Option<int>,
    completeness: Option<int>,
    consistency: Option<int>,
    testability: Option<int>,
    breakdown: Option<string>)

  datatype FunctionalReq = FunctionalReq(
    id: Option<string>, description: Option<string>,
    priority: Option<string>, category: Option<string>)

  datatype NonFunctionalReq = NonFunctionalReq(
    id: Option<string>, category: Option<string>, description: Option<string>)

  datatype Constraint = Constraint(id: Option<string>, description: Option<string>)

  datatype Risk = Risk(
    id: Option<string>, kind: Option<string>,
    description: Option<string>, severity: Option<string>)

  datatype Ambiguity = Ambiguity(
    id: Option<string>, text: Option<string>,
    issue: Option<string>, suggestion: Option<string>)

  datatype MissingInfo = MissingInfo(
    id: Option<string>, area: Option<string>,
    description: Option<string>, impact: Option<string>)

  datatype ScopeCreep = ScopeCreep(
    id: Option<string>, statement: Option<string>, reason: Option<string>)

  datatype Question = Question(id: Option<string>, question: Option<string>)

  datatype Summary = Summary(
    totalFr: Option<int>,
    totalNfr: Option<int>,
    totalAmbiguities: Option<int>,
    totalRisks: Option<int>,
    totalScopeCreep: Option<int>,
    overallQuality: Option<string>,
    recommendation: Option<string>)

  const NoProjectInfo := ProjectInfo(None, None, None, None)
  const NoQualityScore := QualityScore(None, None, None, None, None, None)
  const NoSummary := Summary(None, None, None, None, None, None, None)

  /** The decoded analysis object. `otherKeys` names the keys outside the schema,
      which no renderer reads but which make the object non-empty. */
  datatype Analysis = Analysis(
    projectInfo: Option<ProjectInfo>,
    qualityScore: Option<QualityScore>,
    functional: Option<seq<FunctionalReq>>,
    nonFunctional: Option<seq<NonFunctionalReq>>,
    constraints: Option<seq<Constraint>>,
    risks: Option<seq<Risk>>,
    ambiguities: Option<seq<Ambiguity>>,
    missingInformation: Option<seq<MissingInfo>>,
    scopeCreep: Option<seq<ScopeCreep>>,
    clarificationQuestions: Option<map<string, seq<Question>>>,
    summary: Option<Summary>,
    otherKeys: set<string>)
  {
    /** Python's `not analysis`: the object has no keys at all. */
    predicate IsEmpty() {
      && projectInfo.None? && qualityScore.None? && functional.None?
      && nonFunctional.None? && constraints.None? && risks.None? && ambiguities.None?
      && missingInformation.None? && scopeCreep.None? && clarificationQuestions.None?
      && summary.None? && otherKeys == {}
    }

    function Info(): ProjectInfo { projectInfo.GetOr(NoProjectInfo) }
    function Scores(): QualityScore { qualityScore.GetOr(NoQualityScore) }
    function Totals(): Summary { summary.GetOr(NoSummary) }
    function FunctionalList(): seq<FunctionalReq> { functional.GetOr([]) }
    function NonFunctionalList(): seq<NonFunctionalReq> { nonFunctional.GetOr([]) }
    function ConstraintList(): seq<Constraint> { constraints.GetOr([]) }
    function RiskList(): seq<Risk> { risks.GetOr([]) }
    function AmbiguityList(): seq<Ambiguity> { ambiguities.GetOr([]) }
    function MissingList(): seq<MissingInfo> { missingInformation.GetOr([]) }
    function ScopeCreepList(): seq<ScopeCreep> { scopeCreep.GetOr([]) }
    function Questions(): map<string, seq<Question>> { clarificationQuestions.GetOr(map[]) }
  }

  const EmptyAnalysis := Analysis(None, None, None, None, None, None, None, None, None, None, None, {})

  /** `not analysis` holds only for `{}`: then every read falls back to its default,
      and any key at all, even one outside the schema, makes the object non-empty. */
  lemma EmptyIffNoKeys(a: Analysis, k: string)
    ensures a.IsEmpty() <==> a == EmptyAnalysis
    ensures a.IsEmpty() ==> && a.Info() == NoProjectInfo && a.Scores() == NoQualityScore
                            && a.Totals() == NoSummary && a.RiskList() == [] && a.Questions() == map[]
    ensures !a.(otherKeys := a.otherKeys + {k}).IsEmpty()
  {
  }

  datatype Change = Change(id: Option<string>, description: Option<string>)
  datatype Edit = Edit(id: Option<string>, before: Option<string>, after: Option<string>)
  datatype QualityChange = QualityChange(
    oldScore: Option<int>, newScore: Option<int>, verdict: Option<string>)

  /** The decoded comparison object; the source passes it to the UI unread. */
  datatype Comparison = Comparison(
    added: Option<seq<Change>>,
    removed: Option<seq<Change>>,
    modified: Option<seq<Edit>>,
    scopeChanges: Option<seq<string>>,
    qualityChange: Option<QualityChange>,
    summary: Option<string>)
}
