/** The PDF report (pdf_generator.py) as an ordered sequence of abstract blocks:
    what each block says and in what order, without reportlab's styling, widths,
    spacers or rules. */
module Report {
  import opened Wrappers
  import opened Text
  import opened Palette
  import opened Schema

  datatype Cell = Plain(text: string) | Marked(text: string, colour: Colour)

  datatype Block =
    | Banner(title: string, subtitle: string)
    | InfoPanel(projectType: string, complexity: string, totalRequirements: Option<int>, reason: string)
    | Heading(title: string)
    | ScorePanel(overall: int, colour: Colour, clarity: int, completeness: int,
                 consistency: int, testability: int, assessment: string)
    | StatsPanel(functional: int, nonFunctional: int, ambiguities: int, risks: int,
                 scopeCreep: int, quality: string)
    | Recommendation(text: string)
    | Placeholder(text: string)
    | Table(header: seq<string>, rows: seq<seq<Cell>>)
    | Footer(text: string)

  const ReportTitle: string := "🧠  reqMind AI — Requirements Analysis Report"
  const ReportSubtitle: string := "HEC Hackathon 2026 · Group 26"
  const FooterText: string := "Generated by reqMind AI  ·  HEC Hackathon 2026  ·  Cohort 02 · Group 26"
  const QualityHeading: string := "📊  Requirement Quality Score"
  const SummaryHeading: string := "📋  Summary"
  const StakeholderHeading: string := "💬  Stakeholder Clarification Questions"
  const NoItems: string := "No items identified."

  /** `_priority_color`: a case-insensitive "high" is red, "medium" amber, and
      anything else, a missing value included, green. */
  function PriorityColour(p: Option<string>): (c: Colour)
    ensures c == Red <==> p.Some? && SameIgnoringCase(p.value, "high")
    ensures c == Amber <==> p.Some? && SameIgnoringCase(p.value, "medium")
  {
    var v := Lower(p.GetOr(""));
    LowerEqualsIff(p.GetOr(""), "high");
    LowerEqualsIff(p.GetOr(""), "medium");
    if v == "high" then Red else if v == "medium" then Amber else Green
  }

  /** `_severity_color`, written separately in the source with the same rules. */
  function SeverityColour(s: Option<string>): (c: Colour)
    ensures c == Red <==> s.Some? && SameIgnoringCase(s.value, "high")
    ensures c == Amber <==> s.Some? && SameIgnoringCase(s.value, "medium")
  {
    var v := Lower(s.GetOr(""));
    LowerEqualsIff(s.GetOr(""), "high");
    LowerEqualsIff(s.GetOr(""), "medium");
    if v == "high" then Red else if v == "medium" then Amber else Green
  }

  /** Letter case does not matter, and an unknown level such as "Critical" is green. */
  lemma LevelExamples()
    ensures PriorityColour(Some("HIGH")) == Red && SeverityColour(Some("Medium")) == Amber
    ensures PriorityColour(Some("Critical")) == Green && SeverityColour(Some("")) == Green
    ensures PriorityColour(None) == Green
  {
    assert Lower("HIGH") == "high";
    assert Lower("Medium") == "medium";
  }

  /** The two colour functions agree on every input. */
  lemma PriorityAndSeverityAgree(x: Option<string>)
    ensures PriorityColour(x) == SeverityColour(x)
  {
  }

  /** One output element per input element, in input order. */
  function MapSeq<A, B>(xs: seq<A>, f: A -> B): (ys: seq<B>)
    ensures |ys| == |xs|
    ensures forall i :: 0 <= i < |xs| ==> ys[i] == f(xs[i])
  {
    if |xs| == 0 then [] else [f(xs[0])] + MapSeq(xs[1..], f)
  }

  /** One row of the functional requirements table: a cell per header column, the
      priority last, shown as "Low" when missing and coloured by the reported level. */
  function FunctionalRow(r: FunctionalReq): (c: seq<Cell>)
    ensures |c| == |SectionHeader(FunctionalSection)|
    ensures c[0] == Plain(r.id.GetOr("")) && c[1].Plain? && c[2].Plain?
    ensures c[3] == Marked(r.priority.GetOr("Low"), PriorityColour(r.priority))
  {
    assert Lower("Low") == "low";
    var p := r.priority.GetOr("Low");
    [Plain(r.id.GetOr("")), Plain(r.description.GetOr("")), Plain(r.category.GetOr("")),
     Marked(p, PriorityColour(Some(p)))]
  }

  /** A non-functional requirement row: a plain cell per header column. */
  function NonFunctionalRow(r: NonFunctionalReq): (c: seq<Cell>)
    ensures |c| == |SectionHeader(NonFunctionalSection)|
    ensures c[0] == Plain(r.id.GetOr("")) && forall i :: 0 <= i < |c| ==> c[i].Plain?
  {
    [Plain(r.id.GetOr("")), Plain(r.category.GetOr("")), Plain(r.description.GetOr(""))]
  }

  /** A constraint row: a plain cell per header column. */
  function ConstraintRow(r: Constraint): (c: seq<Cell>)
    ensures |c| == |SectionHeader(ConstraintSection)|
    ensures c[0] == Plain(r.id.GetOr("")) && forall i :: 0 <= i < |c| ==> c[i].Plain?
  {
    [Plain(r.id.GetOr("")), Plain(r.description.GetOr(""))]
  }

  /** A risk row: a cell per header column, the severity last, shown as "Low" when
      missing and coloured by the reported level. */
  function RiskRow(r: Risk): (c: seq<Cell>)
    ensures |c| == |SectionHeader(RiskSection)|
    ensures c[0] == Plain(r.id.GetOr("")) && c[1].Plain? && c[2].Plain?
    ensures c[3] == Marked(r.severity.GetOr("Low"), SeverityColour(r.severity))
  {
    assert Lower("Low") == "low";
    var sev := r.severity.GetOr("Low");
    [Plain(r.id.GetOr("")), Plain(r.kind.GetOr("")), Plain(r.description.GetOr("")),
     Marked(sev, SeverityColour(Some(sev)))]
  }

  /** An ambiguity row: a plain cell per header column. */
  function AmbiguityRow(r: Ambiguity): (c: seq<Cell>)
    ensures |c| == |SectionHeader(AmbiguitySection)|
    ensures c[0] == Plain(r.id.GetOr("")) && forall i :: 0 <= i < |c| ==> c[i].Plain?
  {
    [Plain(r.id.GetOr("")), Plain(r.text.GetOr("")), Plain(r.issue.GetOr("")),
     Plain(r.suggestion.GetOr(""))]
  }

  /** A missing-information row: a plain cell per header column, the impact included. */
  function MissingRow(r: MissingInfo): (c: seq<Cell>)
    ensures |c| == |SectionHeader(MissingSection)|
    ensures c[0] == Plain(r.id.GetOr("")) && forall i :: 0 <= i < |c| ==> c[i].Plain?
  {
    [Plain(r.id.GetOr("")), Plain(r.area.GetOr("")), Plain(r.description.GetOr("")),
     Plain(r.impact.GetOr(""))]
  }

  /** A scope-creep row: a plain cell per header column. */
  function ScopeCreepRow(r: ScopeCreep): (c: seq<Cell>)
    ensures |c| == |SectionHeader(ScopeCreepSection)|
    ensures c[0] == Plain(r.id.GetOr("")) && forall i :: 0 <= i < |c| ==> c[i].Plain?
  {
    [Plain(r.id.GetOr("")), Plain(r.statement.GetOr("")), Plain(r.reason.GetOr(""))]
  }

  /** A missing priority or severity is shown, and coloured, as "Low". */
  lemma MissingLevelShownAsLow(fr: FunctionalReq, risk: Risk)
    requires fr.priority.None? && risk.severity.None?
    ensures FunctionalRow(fr)[3] == Marked("Low", Green)
    ensures RiskRow(risk)[3] == Marked("Low", Green)
  {
  }

  /** The tabular sections, in report order. */
  datatype Section =
    | FunctionalSection | NonFunctionalSection | ConstraintSection | RiskSection
    | AmbiguitySection | MissingSection | ScopeCreepSection

  const SectionOrder: seq<Section> := [
    FunctionalSection, NonFunctionalSection, ConstraintSection, RiskSection,
    AmbiguitySection, MissingSection, ScopeCreepSection]

  function SectionTitle(s: Section): string {
    match s
    case FunctionalSection => "🔍  Functional Requirements"
    case NonFunctionalSection => "⚙️  Non-Functional Requirements"
    case ConstraintSection => "🔒  Constraints"
    case RiskSection => "🚨  Risk Analysis"
    case AmbiguitySection => "⚠️  Detected Ambiguities"
    case MissingSection => "🔎  Missing Information"
    case ScopeCreepSection => "🎯  Scope Creep Warnings"
  }

  function SectionHeader(s: Section): seq<string> {
    match s
    case FunctionalSection => ["ID", "Description", "Category", "Priority"]
    case NonFunctionalSection => ["ID", "Category", "Description"]
    case ConstraintSection => ["ID", "Description"]
    case RiskSection => ["ID", "Type", "Description", "Severity"]
    case AmbiguitySection => ["ID", "Statement", "Issue", "Suggestion (Fix)"]
    case MissingSection => ["ID", "Area", "Description", "Impact"]
    case ScopeCreepSection => ["ID", "Statement", "Reason"]
  }

  /** The line shown instead of an empty table: the ambiguities and missing-information
      sections have their own; the others use the `section` helper's. */
  function EmptyText(s: Section): string {
    match s
    case AmbiguitySection => "No ambiguities found."
    case MissingSection => "No missing information identified."
    case _ => NoItems
  }

  function SectionRows(a: Analysis, s: Section): seq<seq<Cell>> {
    match s
    case FunctionalSection => MapSeq(a.FunctionalList(), FunctionalRow)
    case NonFunctionalSection => MapSeq(a.NonFunctionalList(), NonFunctionalRow)
    case ConstraintSection => MapSeq(a.ConstraintList(), ConstraintRow)
    case RiskSection => MapSeq(a.RiskList(), RiskRow)
    case AmbiguitySection => MapSeq(a.AmbiguityList(), AmbiguityRow)
    case MissingSection => MapSeq(a.MissingList(), MissingRow)
    case ScopeCreepSection => MapSeq(a.ScopeCreepList(), ScopeCreepRow)
  }

  /** How many items the analysis lists for a section. */
  function ItemCount(a: Analysis, s: Section): nat {
    match s
    case FunctionalSection => |a.FunctionalList()|
    case NonFunctionalSection => |a.NonFunctionalList()|
    case ConstraintSection => |a.ConstraintList()|
    case RiskSection => |a.RiskList()|
    case AmbiguitySection => |a.AmbiguityList()|
    case MissingSection => |a.MissingList()|
    case ScopeCreepSection => |a.ScopeCreepList()|
  }

  /** Every row of a section has one cell per header column, and there is one row
      per listed item. */
  lemma SectionRowsFit(a: Analysis, s: Section)
    ensures |SectionRows(a, s)| == ItemCount(a, s)
    ensures forall i :: 0 <= i < |SectionRows(a, s)| ==> |SectionRows(a, s)[i]| == |SectionHeader(s)|
  {
  }

  /** The block under a section's heading: the section's own placeholder text when
      there are no rows, otherwise a table under the section's header. */
  function SectionBody(a: Analysis, s: Section): (b: Block)
    ensures b.Placeholder? || b.Table?
    ensures b.Placeholder? ==> b.text == EmptyText(s)
    ensures b.Table? ==> b.header == SectionHeader(s)
  {
    var rows := SectionRows(a, s);
    if |rows| == 0 then Placeholder(EmptyText(s)) else Table(SectionHeader(s), rows)
  }

  /** Each section's heading followed by its body, for the sections `ss` in order. */
  function Sections(a: Analysis, ss: seq<Section>): (r: seq<Block>)
    ensures |r| == 2 * |ss|
  {
    if |ss| == 0 then []
    else [Heading(SectionTitle(ss[0])), SectionBody(a, ss[0])] + Sections(a, ss[1..])
  }

  /** The clarification roles, in the order the report lists them. */
  datatype Role = Client | Developer | Tester | ProjectManager

  const RoleOrder: seq<Role> := [Client, Developer, Tester, ProjectManager]

  function RoleRank(r: Role): nat {
    match r
    case Client => 0
    case Developer => 1
    case Tester => 2
    case ProjectManager => 3
  }

  function RoleKey(r: Role): string {
    match r
    case Client => "client"
    case Developer => "developer"
    case Tester => "tester"
    case ProjectManager => "project_manager"
  }

  function RoleLabel(r: Role): string {
    match r
    case Client => "👤 Client"
    case Developer => "💻 Developer"
    case Tester => "🧪 Tester"
    case ProjectManager => "📋 Project Manager"
  }

  /** `cq.get(role, [])`. */
  function QuestionsFor(cq: map<string, seq<Question>>, r: Role): seq<Question> {
    if RoleKey(r) in cq then cq[RoleKey(r)] else []
  }

  ghost predicate Ascending(rs: seq<Role>) {
    forall i, j :: 0 <= i < j < |rs| ==> RoleRank(rs[i]) < RoleRank(rs[j])
  }

  /** The roles of `roles` that have at least one question, in the same order. */
  function ActiveRoles(cq: map<string, seq<Question>>, roles: seq<Role>): (rs: seq<Role>)
    ensures |rs| <= |roles|
    ensures forall r :: r in rs <==> r in roles && |QuestionsFor(cq, r)| > 0
    ensures Ascending(roles) ==> Ascending(rs)
  {
    if |roles| == 0 then []
    else
      var rest := ActiveRoles(cq, roles[1..]);
      assert Ascending(roles) ==> Ascending([roles[0]] + rest) by {
        if Ascending(roles) {
          AscendingCons(roles, rest);
        }
      }
      if |QuestionsFor(cq, roles[0])| > 0 then [roles[0]] + rest else rest
  }

  /** Putting the first role of an ascending list in front of an ascending selection
      of the others keeps the order. */
  lemma AscendingCons(roles: seq<Role>, rest: seq<Role>)
    requires |roles| > 0 && Ascending(roles) && Ascending(rest)
    requires forall r :: r in rest ==> r in roles[1..]
    ensures Ascending([roles[0]] + rest)
  {
    forall r | r in rest ensures RoleRank(roles[0]) < RoleRank(r) {
      var j :| 0 <= j < |roles| - 1 && roles[1..][j] == r;
      assert roles[j + 1] == r;
    }
    var s := [roles[0]] + rest;
    forall i, j | 0 <= i < j < |s| ensures RoleRank(s[i]) < RoleRank(s[j]) {
      assert s[j] == rest[j - 1] && rest[j - 1] in rest;
      if i > 0 { assert s[i] == rest[i - 1]; }
    }
  }

  function QuestionRow(q: Question): seq<Cell> {
    [Plain(q.id.GetOr("")), Plain(q.question.GetOr(""))]
  }

  /** A role's table: headed by the role's label and "Question", one two-cell row
      per question of that role, in the order given. */
  function RoleTable(cq: map<string, seq<Question>>, r: Role): (b: Block)
    ensures b.Table? && b.header == [RoleLabel(r), "Question"]
    ensures |b.rows| == |QuestionsFor(cq, r)|
    ensures forall i :: 0 <= i < |b.rows| ==> b.rows[i] == QuestionRow(QuestionsFor(cq, r)[i])
  {
    Table([RoleLabel(r), "Question"], MapSeq(QuestionsFor(cq, r), QuestionRow))
  }

  lemma RoleLabelInjective(r1: Role, r2: Role)
    requires RoleLabel(r1) == RoleLabel(r2)
    ensures r1 == r2
  {
    assert RoleLabel(r1)[0] == RoleLabel(r2)[0];
  }

  /** `RoleTables(cq)`: one table per role with questions, in the fixed role order. */
  function RoleTables(cq: map<string, seq<Question>>): (ts: seq<Block>)
    ensures |ts| <= 4
    ensures forall i :: 0 <= i < |ts| ==> ts[i].Table? && |ts[i].rows| > 0 && TableFits(ts[i])
    ensures forall i :: 0 <= i < |ts| ==> |ts[i].header| == 2
  {
    var rs := ActiveRoles(cq, RoleOrder);
    var ts := MapSeq(rs, (r: Role) => RoleTable(cq, r));
    forall i | 0 <= i < |ts| ensures ts[i].Table? && |ts[i].rows| > 0 && TableFits(ts[i]) {
      assert ts[i] == RoleTable(cq, rs[i]);
      assert rs[i] in rs;
      RoleTableFits(cq, rs[i]);
    }
    ts
  }

  lemma RoleWithQuestionsHasTable(cq: map<string, seq<Question>>, r: Role)
    requires |QuestionsFor(cq, r)| > 0
    ensures exists i :: 0 <= i < |RoleTables(cq)| && RoleTables(cq)[i] == RoleTable(cq, r)
  {
    var rs := ActiveRoles(cq, RoleOrder);
    assert r in RoleOrder;
    var i :| 0 <= i < |rs| && rs[i] == r;
    var ts := RoleTables(cq);
    assert ts == MapSeq(rs, (x: Role) => RoleTable(cq, x));
    assert ts[i] == RoleTable(cq, rs[i]);
  }

  lemma TabledRoleHasQuestions(cq: map<string, seq<Question>>, r: Role, i: int)
    requires 0 <= i < |RoleTables(cq)| && RoleTables(cq)[i] == RoleTable(cq, r)
    ensures |QuestionsFor(cq, r)| > 0
  {
    var rs := ActiveRoles(cq, RoleOrder);
    assert RoleTables(cq)[i] == RoleTable(cq, rs[i]);
    assert RoleTable(cq, rs[i]).header == [RoleLabel(rs[i]), "Question"];
    assert RoleTable(cq, r).header == [RoleLabel(r), "Question"];
    RoleLabelInjective(rs[i], r);
    assert rs[i] in rs;
  }

  /** A role gets a table exactly when it has at least one question; keys other than
      the four roles are never read. */
  lemma RoleTableIffQuestions(cq: map<string, seq<Question>>, r: Role)
    ensures (exists i :: 0 <= i < |RoleTables(cq)| && RoleTables(cq)[i] == RoleTable(cq, r))
            <==> |QuestionsFor(cq, r)| > 0
  {
    if |QuestionsFor(cq, r)| > 0 {
      RoleWithQuestionsHasTable(cq, r);
    }
    if i :| 0 <= i < |RoleTables(cq)| && RoleTables(cq)[i] == RoleTable(cq, r) {
      TabledRoleHasQuestions(cq, r, i);
    }
  }

  /** The stakeholder tables in order: each emitted table belongs to a role that
      comes later in the fixed order than the one before it. */
  lemma RoleTablesOrdered(cq: map<string, seq<Question>>)
    ensures exists rs :: Ascending(rs) && |rs| == |RoleTables(cq)|
              && forall i :: 0 <= i < |rs| ==> RoleTables(cq)[i] == RoleTable(cq, rs[i])
  {
    var rs := ActiveRoles(cq, RoleOrder);
    assert Ascending(RoleOrder);
    assert Ascending(rs);
    var ts := RoleTables(cq);
    assert |rs| == |ts| && forall i :: 0 <= i < |rs| ==> ts[i] == RoleTable(cq, rs[i]);
  }

  /** Keys outside the four roles never change the stakeholder tables. */
  lemma OtherRoleKeysIgnored(cq: map<string, seq<Question>>, k: string, qs: seq<Question>)
    requires k !in {"client", "developer", "tester", "project_manager"}
    ensures RoleTables(cq[k := qs]) == RoleTables(cq)
  {
    var cq' := cq[k := qs];
    assert forall r :: QuestionsFor(cq', r) == QuestionsFor(cq, r);
    assert forall r :: RoleTable(cq', r) == RoleTable(cq, r);
    assert ActiveRoles(cq', RoleOrder) == ActiveRoles(cq, RoleOrder) by {
      ActiveRolesAgree(cq', cq, RoleOrder);
    }
  }

  lemma {:induction false} ActiveRolesAgree(c1: map<string, seq<Question>>, c2: map<string, seq<Question>>, roles: seq<Role>)
    requires forall r :: QuestionsFor(c1, r) == QuestionsFor(c2, r)
    ensures ActiveRoles(c1, roles) == ActiveRoles(c2, roles)
  {
    if |roles| > 0 {
      ActiveRolesAgree(c1, c2, roles[1..]);
    }
  }

  /** The recommendation line, shown only for a present, non-empty recommendation. */
  function RecommendationLine(a: Analysis): (r: seq<Block>)
    ensures |r| <= 1
    ensures |r| == 1 <==> HasRecommendation(a)
    ensures |r| == 1 ==> r[0] == Recommendation(a.Totals().recommendation.value)
  {
    match a.Totals().recommendation
    case Some(t) => if t != "" then [Recommendation(t)] else []
    case None => []
  }

  predicate HasRecommendation(a: Analysis) {
    a.Totals().recommendation.Some? && a.Totals().recommendation.value != ""
  }

  /** A count from the model's summary when it reported one, else the list's length. */
  function ReportedOr(reported: Option<int>, listed: nat): (n: int)
    ensures reported.Some? ==> n == reported.value
    ensures reported.None? ==> n == listed
  {
    reported.GetOr(listed)
  }

  /** The header, project banner, score panel and summary panel. */
  function Front(a: Analysis): (f: seq<Block>)
    ensures |f| == if HasRecommendation(a) then 7 else 6
    ensures f[0] == Banner(ReportTitle, ReportSubtitle) && f[1].InfoPanel? && f[2] == Heading(QualityHeading)
    ensures f[3].ScorePanel? && f[3].overall == a.Scores().overall.GetOr(0) && f[3].colour == ScoreBand(f[3].overall)
    ensures f[4] == Heading(SummaryHeading) && f[5].StatsPanel?
    ensures HasRecommendation(a) ==> f[6] == Recommendation(a.Totals().recommendation.value)
  {
    var pi := a.Info();
    var qs := a.Scores();
    var sm := a.Totals();
    var overall := qs.overall.GetOr(0);
    [Banner(ReportTitle, ReportSubtitle),
     InfoPanel(pi.detectedType.GetOr("N/A"), pi.complexity.GetOr("N/A"),
               pi.totalRequirements, pi.complexityReason.GetOr("")),
     Heading(QualityHeading),
     ScorePanel(overall, ScoreBand(overall), qs.clarity.GetOr(0), qs.completeness.GetOr(0),
                qs.consistency.GetOr(0), qs.testability.GetOr(0), qs.breakdown.GetOr("")),
     Heading(SummaryHeading),
     StatsPanel(ReportedOr(sm.totalFr, |a.FunctionalList()|),
                ReportedOr(sm.totalNfr, |a.NonFunctionalList()|),
                ReportedOr(sm.totalAmbiguities, |a.AmbiguityList()|),
                ReportedOr(sm.totalRisks, |a.RiskList()|),
                ReportedOr(sm.totalScopeCreep, |a.ScopeCreepList()|),
                sm.overallQuality.GetOr("N/A"))]
    + RecommendationLine(a)
  }

  /** `generate_pdf(analysis)` without the layout: every block of the report in order. */
  function Generate(a: Analysis): (r: seq<Block>)
    ensures |r| > 5 && r[0] == Banner(ReportTitle, ReportSubtitle) && r[|r| - 1] == Footer(FooterText)
    ensures r[3].ScorePanel? && r[3].colour == ScoreBand(r[3].overall)
  {
    var f, m, t := Front(a), Sections(a, SectionOrder), RoleTables(a.Questions());
    AssembleEnds(f, m, t);
    Assemble(f, m, t)
  }

  /** The stakeholder tables close the report: right after their heading, in the
      order `RoleTables` gives them, with only the footer after them. */
  lemma StakeholderTablesInReport(a: Analysis)
    ensures var r, t := Generate(a), RoleTables(a.Questions());
            && |r| >= |t| + 2
            && r[|r| - |t| - 2] == Heading(StakeholderHeading)
            && r[|r| - |t| - 1..|r| - 1] == t
  {
    var f, m, t := Front(a), Sections(a, SectionOrder), RoleTables(a.Questions());
    assert Generate(a) == (f + m + [Heading(StakeholderHeading)]) + t + [Footer(FooterText)];
  }

  /** The six fixed front blocks hold no table and no recommendation. */
  lemma FrontHoldsNoTable(a: Analysis)
    ensures forall i :: 0 <= i < 6 ==> !Front(a)[i].Recommendation? && !Front(a)[i].Table?
  {
  }

  /** An assembled report starts with its front blocks. */
  lemma AssemblePrefix(f: seq<Block>, m: seq<Block>, t: seq<Block>)
    ensures |Assemble(f, m, t)| > |f|
    ensures forall i :: 0 <= i < |f| ==> Assemble(f, m, t)[i] == f[i]
  {
  }

  /** Every report starts with the front blocks of its analysis. */
  lemma GenerateStartsWithFront(a: Analysis)
    ensures |Generate(a)| > |Front(a)|
    ensures forall i :: 0 <= i < |Front(a)| ==> Generate(a)[i] == Front(a)[i]
  {
    AssemblePrefix(Front(a), Sections(a, SectionOrder), RoleTables(a.Questions()));
  }

  lemma AssembleEnds(f: seq<Block>, m: seq<Block>, t: seq<Block>)
    requires |f| >= 6
    ensures |Assemble(f, m, t)| > 5
    ensures Assemble(f, m, t)[0] == f[0] && Assemble(f, m, t)[3] == f[3]
    ensures Assemble(f, m, t)[|Assemble(f, m, t)| - 1] == Footer(FooterText)
  {
    AssembleAt(f, m, t, 0);
    AssembleAt(f, m, t, 3);
    AssembleAt(f, m, t, |f| + |m| + 1 + |t|);
  }

  /** The front blocks, the sections, the stakeholder heading and tables, the footer. */
  function Assemble(front: seq<Block>, sections: seq<Block>, roles: seq<Block>): seq<Block> {
    front + sections + [Heading(StakeholderHeading)] + roles + [Footer(FooterText)]
  }

  /** Where each part of an assembled report sits. */
  lemma AssembleAt(f: seq<Block>, m: seq<Block>, t: seq<Block>, i: int)
    requires 0 <= i < |Assemble(f, m, t)|
    ensures |Assemble(f, m, t)| == |f| + |m| + |t| + 2
    ensures i < |f| ==> Assemble(f, m, t)[i] == f[i]
    ensures |f| <= i < |f| + |m| ==> Assemble(f, m, t)[i] == m[i - |f|]
    ensures i == |f| + |m| ==> Assemble(f, m, t)[i] == Heading(StakeholderHeading)
    ensures |f| + |m| < i < |f| + |m| + 1 + |t| ==> Assemble(f, m, t)[i] == t[i - |f| - |m| - 1]
    ensures i == |f| + |m| + 1 + |t| ==> Assemble(f, m, t)[i] == Footer(FooterText)
  {
  }

  /** The titles of the report's headings, in order. */
  function Headings(bs: seq<Block>): seq<string> {
    if |bs| == 0 then []
    else (if bs[0].Heading? then [bs[0].title] else []) + Headings(bs[1..])
  }

  lemma {:induction false} HeadingsAppend(xs: seq<Block>, ys: seq<Block>)
    ensures Headings(xs + ys) == Headings(xs) + Headings(ys)
  {
    if |xs| > 0 {
      assert (xs + ys)[0] == xs[0];
      assert (xs + ys)[1..] == xs[1..] + ys;
      HeadingsAppend(xs[1..], ys);
    } else {
      assert xs + ys == ys;
    }
  }

  lemma {:induction false} NoHeadings(bs: seq<Block>)
    requires forall i :: 0 <= i < |bs| ==> !bs[i].Heading?
    ensures Headings(bs) == []
  {
    if |bs| > 0 {
      NoHeadings(bs[1..]);
    }
  }

  function SectionTitles(ss: seq<Section>): seq<string> {
    if |ss| == 0 then [] else [SectionTitle(ss[0])] + SectionTitles(ss[1..])
  }

  lemma {:induction false} SectionsHeadings(a: Analysis, ss: seq<Section>)
    ensures Headings(Sections(a, ss)) == SectionTitles(ss)
  {
    if |ss| > 0 {
      var pair := [Heading(SectionTitle(ss[0])), SectionBody(a, ss[0])];
      HeadingsAppend(pair, Sections(a, ss[1..]));
      assert Headings(pair) == [SectionTitle(ss[0])] by {
        assert pair[1..] == [SectionBody(a, ss[0])];
        HeadingsAppendOther([], SectionBody(a, ss[0]));
        assert [] + [SectionBody(a, ss[0])] == [SectionBody(a, ss[0])];
      }
      SectionsHeadings(a, ss[1..]);
    } else {
      assert Sections(a, ss) == [];
    }
  }

  /** The headings every report has, whatever the analysis holds. */
  const ReportHeadings: seq<string> :=
    [QualityHeading, SummaryHeading] + SectionTitles(SectionOrder) + [StakeholderHeading]

  lemma FrontHeadings(a: Analysis)
    ensures Headings(Front(a)) == [QualityHeading, SummaryHeading]
  {
    var f := Front(a);
    var fixed := f[..6];
    assert f == fixed + RecommendationLine(a);
    HeadingsAppend(fixed, RecommendationLine(a));
    NoHeadings(RecommendationLine(a));
    assert Headings(fixed) == [QualityHeading, SummaryHeading] by {
      assert fixed == [fixed[0], fixed[1]] + ([fixed[2]] + ([fixed[3]] + [fixed[4], fixed[5]]));
      HeadingsAppend([fixed[0], fixed[1]], [fixed[2]] + ([fixed[3]] + [fixed[4], fixed[5]]));
      HeadingsAppend([fixed[2]], [fixed[3]] + [fixed[4], fixed[5]]);
      HeadingsAppend([fixed[3]], [fixed[4], fixed[5]]);
      NoHeadings([fixed[0], fixed[1]]);
      NoHeadings([fixed[3]]);
      assert Headings([fixed[4], fixed[5]]) == [SummaryHeading] by {
        assert [fixed[4], fixed[5]][1..] == [fixed[5]];
        NoHeadings([fixed[5]]);
      }
      assert Headings([fixed[2]]) == [QualityHeading] by {
        NoHeadings([fixed[2]][1..]);
      }
    }
  }

  lemma HeadingsAppendHeading(c: seq<Block>, title: string)
    ensures Headings(c + [Heading(title)]) == Headings(c) + [title]
  {
    HeadingsAppend(c, [Heading(title)]);
    assert [Heading(title)][1..] == [];
  }

  lemma HeadingsAppendOther(c: seq<Block>, b: Block)
    requires !b.Heading?
    ensures Headings(c + [b]) == Headings(c)
  {
    HeadingsAppend(c, [b]);
    assert [b][1..] == [];
  }

  lemma HeadingsAppendNone(c: seq<Block>, t: seq<Block>)
    requires forall i :: 0 <= i < |t| ==> !t[i].Heading?
    ensures Headings(c + t) == Headings(c)
  {
    HeadingsAppend(c, t);
    NoHeadings(t);
  }

  lemma HeadingsOfLayout(f: seq<Block>, m: seq<Block>, t: seq<Block>)
    requires forall i :: 0 <= i < |t| ==> !t[i].Heading?
    ensures Headings(Assemble(f, m, t)) == Headings(f) + Headings(m) + [StakeholderHeading]
  {
    var b := f + m + [Heading(StakeholderHeading)];
    assert Assemble(f, m, t) == b + t + [Footer(FooterText)];
    HeadingsAppend(f, m);
    HeadingsAppendHeading(f + m, StakeholderHeading);
    HeadingsAppendNone(b, t);
    HeadingsAppendOther(b + t, Footer(FooterText));
  }

  /** The section order is fixed: the report's headings are always the quality score,
      the summary, the seven tabular sections in order, then the stakeholder questions,
      with or without items in any of them. */
  lemma ReportSectionOrder(a: Analysis)
    ensures Headings(Generate(a)) == ReportHeadings
  {
    var t := RoleTables(a.Questions());
    HeadingsOfLayout(Front(a), Sections(a, SectionOrder), t);
    FrontHeadings(a);
    SectionsHeadings(a, SectionOrder);
  }

  lemma {:induction false} SectionsAt(a: Analysis, ss: seq<Section>, k: nat)
    requires k < |ss|
    ensures Sections(a, ss)[2 * k] == Heading(SectionTitle(ss[k]))
    ensures Sections(a, ss)[2 * k + 1] == SectionBody(a, ss[k])
  {
    var h, b, rest := Heading(SectionTitle(ss[0])), SectionBody(a, ss[0]), Sections(a, ss[1..]);
    SectionsCons(a, ss);
    if k > 0 {
      assert rest[2 * (k - 1)] == Heading(SectionTitle(ss[k])) && rest[2 * (k - 1) + 1] == SectionBody(a, ss[k]) by {
        SectionsAt(a, ss[1..], k - 1);
        assert ss[1..][k - 1] == ss[k];
      }
      PairConsAt(h, b, rest, k);
    }
  }

  lemma SectionsCons(a: Analysis, ss: seq<Section>)
    requires |ss| > 0
    ensures Sections(a, ss) == [Heading(SectionTitle(ss[0])), SectionBody(a, ss[0])] + Sections(a, ss[1..])
  {
  }

  /** Indexing past a leading pair. */
  lemma PairConsAt<T>(x: T, y: T, t: seq<T>, k: nat)
    requires 0 < k && 2 * k + 1 < |t| + 2
    ensures ([x, y] + t)[2 * k] == t[2 * (k - 1)]
    ensures ([x, y] + t)[2 * k + 1] == t[2 * (k - 1) + 1]
  {
  }

  /** Where a section stands in the fixed order. */
  function SectionPosition(s: Section): (k: nat)
    ensures k < |SectionOrder| && SectionOrder[k] == s
  {
    match s
    case FunctionalSection => 0
    case NonFunctionalSection => 1
    case ConstraintSection => 2
    case RiskSection => 3
    case AmbiguitySection => 4
    case MissingSection => 5
    case ScopeCreepSection => 6
  }

  /** Each tabular section is its heading followed by one block: the section's
      placeholder when it lists no items, otherwise a table with the section's
      header and one row per item, in input order. The sections follow the six
      fixed front blocks and the recommendation line when there is one. */
  lemma SectionLayout(a: Analysis, s: Section)
    ensures var r := Generate(a);
            var i := (if HasRecommendation(a) then 7 else 6) + 2 * SectionPosition(s);
            && i + 1 < |r|
            && r[i] == Heading(SectionTitle(s))
            && r[i + 1] == (if ItemCount(a, s) == 0 then Placeholder(EmptyText(s))
                            else Table(SectionHeader(s), SectionRows(a, s)))
  {
    var k := SectionPosition(s);
    GenerateSectionPair(a, k);
    assert |Front(a)| == if HasRecommendation(a) then 7 else 6;
    SectionBodyByCount(a, s);
  }

  /** The `k`-th section's heading and body, placed after the front blocks. */
  lemma GenerateSectionPair(a: Analysis, k: nat)
    requires k < |SectionOrder|
    ensures |Front(a)| + 2 * k + 1 < |Generate(a)|
    ensures Generate(a)[|Front(a)| + 2 * k] == Heading(SectionTitle(SectionOrder[k]))
    ensures Generate(a)[|Front(a)| + 2 * k + 1] == SectionBody(a, SectionOrder[k])
  {
    var f, m, t := Front(a), Sections(a, SectionOrder), RoleTables(a.Questions());
    assert Generate(a) == Assemble(f, m, t);
    AssemblePairAt(f, m, t, 2 * k);
    SectionsAt(a, SectionOrder, k);
  }

  /** A section body is never an empty table, and each of its rows is as wide as
      its header. */
  lemma BodyFits(a: Analysis, s: Section)
    ensures TableFits(SectionBody(a, s))
  {
    SectionRowsFit(a, s);
  }

  /** A section's body is its placeholder exactly when the analysis lists no items
      for it, and otherwise a table with one row per item, in order. */
  lemma SectionBodyByCount(a: Analysis, s: Section)
    ensures SectionBody(a, s) == if ItemCount(a, s) == 0 then Placeholder(EmptyText(s))
                                 else Table(SectionHeader(s), SectionRows(a, s))
  {
    SectionRowsFit(a, s);
  }

  /** Two neighbouring section blocks keep their order in an assembled report. */
  lemma AssemblePairAt(f: seq<Block>, m: seq<Block>, t: seq<Block>, j: nat)
    requires j + 1 < |m|
    ensures |f| + j + 1 < |Assemble(f, m, t)|
    ensures Assemble(f, m, t)[|f| + j] == m[j] && Assemble(f, m, t)[|f| + j + 1] == m[j + 1]
  {
    AssembleAt(f, m, t, |f| + j);
    AssembleAt(f, m, t, |f| + j + 1);
  }

  /** The report opens with the header, the project-info banner, the quality-score
      heading and panel, then the summary heading and panel, whatever the analysis holds. */
  lemma FrontLayout(a: Analysis)
    ensures var r := Generate(a);
            && r[0].Banner? && r[1].InfoPanel? && r[2] == Heading(QualityHeading)
            && r[3].ScorePanel? && r[4] == Heading(SummaryHeading) && r[5].StatsPanel?
  {
    GenerateStartsWithFront(a);
  }

  /** Each figure of the summary panel is the model's reported total when the summary
      has one, and otherwise the length of the corresponding list. */
  lemma SummaryCountsFallBack(a: Analysis)
    ensures var p := Generate(a)[5]; var sm := a.Totals();
            && p.StatsPanel?
            && (sm.totalFr.Some? ==> p.functional == sm.totalFr.value)
            && (sm.totalFr.None? ==> p.functional == |a.FunctionalList()|)
            && (sm.totalNfr.Some? ==> p.nonFunctional == sm.totalNfr.value)
            && (sm.totalNfr.None? ==> p.nonFunctional == |a.NonFunctionalList()|)
            && (sm.totalAmbiguities.Some? ==> p.ambiguities == sm.totalAmbiguities.value)
            && (sm.totalAmbiguities.None? ==> p.ambiguities == |a.AmbiguityList()|)
            && (sm.totalRisks.Some? ==> p.risks == sm.totalRisks.value)
            && (sm.totalRisks.None? ==> p.risks == |a.RiskList()|)
            && (sm.totalScopeCreep.Some? ==> p.scopeCreep == sm.totalScopeCreep.value)
            && (sm.totalScopeCreep.None? ==> p.scopeCreep == |a.ScopeCreepList()|)
  {
    GenerateStartsWithFront(a);
  }

  /** A table that has rows, each with one cell per header column. */
  predicate TableFits(b: Block) {
    b.Table? ==> |b.rows| > 0 && forall i :: 0 <= i < |b.rows| ==> |b.rows[i]| == |b.header|
  }

  lemma SectionsFit(a: Analysis, ss: seq<Section>)
    ensures forall i :: 0 <= i < |Sections(a, ss)| ==>
              TableFits(Sections(a, ss)[i]) && !Sections(a, ss)[i].Recommendation?
  {
    forall i | 0 <= i < |Sections(a, ss)|
      ensures TableFits(Sections(a, ss)[i]) && !Sections(a, ss)[i].Recommendation?
    {
      SectionsAt(a, ss, i / 2);
      if i % 2 == 1 { BodyFits(a, ss[i / 2]); }
    }
  }

  lemma RoleTableFits(cq: map<string, seq<Question>>, r: Role)
    requires |QuestionsFor(cq, r)| > 0
    ensures RoleTable(cq, r).Table? && TableFits(RoleTable(cq, r))
  {
    var rows := MapSeq(QuestionsFor(cq, r), QuestionRow);
    forall i | 0 <= i < |rows| ensures |rows[i]| == 2 {
      assert rows[i] == QuestionRow(QuestionsFor(cq, r)[i]);
    }
  }

  /** The report never holds an empty table, and every table row has one cell per
      header column: an empty list always becomes a placeholder instead. */
  lemma NoEmptyTables(a: Analysis)
    ensures forall i :: 0 <= i < |Generate(a)| ==> TableFits(Generate(a)[i])
  {
    FrontHoldsNoTable(a);
    var f := Front(a);
    var m := Sections(a, SectionOrder);
    var t := RoleTables(a.Questions());
    SectionsFit(a, SectionOrder);
    var r := Assemble(f, m, t);
    forall i | 0 <= i < |r| ensures TableFits(r[i]) {
      AssembleAt(f, m, t, i);
    }
  }

  /** In an assembled report, a block that is neither in the sections nor in the
      role tables comes from the front. */
  lemma RecommendationFromFront(f: seq<Block>, m: seq<Block>, t: seq<Block>, i: int)
    requires forall j :: 0 <= j < |m| ==> !m[j].Recommendation?
    requires forall j :: 0 <= j < |t| ==> !t[j].Recommendation?
    requires 0 <= i < |Assemble(f, m, t)| && Assemble(f, m, t)[i].Recommendation?
    ensures i < |f| && f[i].Recommendation?
  {
    AssembleAt(f, m, t, i);
  }

  lemma OnlyRecommendationLine(a: Analysis, i: int)
    requires 0 <= i < |Generate(a)| && Generate(a)[i].Recommendation?
    ensures i == 6 && HasRecommendation(a)
  {
    FrontHoldsNoTable(a);
    var f := Front(a);
    var m := Sections(a, SectionOrder);
    var t := RoleTables(a.Questions());
    SectionsFit(a, SectionOrder);
    RecommendationFromFront(f, m, t, i);
  }

  /** The recommendation line appears, once and right after the summary panel, exactly
      when the summary has a non-empty recommendation. */
  lemma RecommendationShownIff(a: Analysis)
    ensures (exists i :: 0 <= i < |Generate(a)| && Generate(a)[i].Recommendation?) <==> HasRecommendation(a)
    ensures HasRecommendation(a) ==> Generate(a)[6] == Recommendation(a.Totals().recommendation.value)
  {
    if HasRecommendation(a) {
        AssembleAt(Front(a), Sections(a, SectionOrder), RoleTables(a.Questions()), 6);
    } else if i :| 0 <= i < |Generate(a)| && Generate(a)[i].Recommendation? {
      OnlyRecommendationLine(a, i);
    }
  }
}
