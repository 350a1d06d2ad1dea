/** How the two views of one analysis relate: the dashboard card and the PDF
    report are computed independently from the same dictionary, and these lemmas
    say where they agree and where they do not. */
module Agreement {
  import opened Wrappers
  import opened Text
  import opened Palette
  import opened Schema
  import Dashboard
  import Report

  /** The dashboard counts a risk as high exactly when the report paints its
      severity cell red, a missing severity (shown as "Low") included. */
  lemma HighRiskIffRedSeverity(r: Risk)
    ensures Dashboard.IsHighRisk(r) <==> Report.SeverityColour(r.severity) == Red
    ensures Dashboard.IsHighRisk(r) <==> Report.RiskRow(r)[3] == Report.Marked(r.severity.GetOr("Low"), Red)
  {
    LowerEqualsIff(r.severity.GetOr(""), "high");
  }

  /** A row whose cell in column `col` is marked red. */
  predicate RedAt(row: seq<Report.Cell>, col: nat) {
    col < |row| && row[col].Marked? && row[col].colour == Red
  }

  /** How many rows carry a red marked cell in column `col`: none exactly when no row
      does, all of them exactly when every row does. */
  function RedCells(rows: seq<seq<Report.Cell>>, col: nat): (n: nat)
    ensures n <= |rows|
    ensures n == 0 <==> forall i :: 0 <= i < |rows| ==> !RedAt(rows[i], col)
    ensures n == |rows| <==> forall i :: 0 <= i < |rows| ==> RedAt(rows[i], col)
  {
    if |rows| == 0 then 0
    else
      var rest := rows[1..];
      assert forall i :: 1 <= i < |rows| ==> rows[i] == rest[i - 1];
      (if RedAt(rows[0], col) then 1 else 0) + RedCells(rest, col)
  }

  /** The card's high-risk count is the number of red severity cells in the
      report's risk table. */
  lemma {:induction false} HighRiskCountIsRedRowCount(risks: seq<Risk>)
    ensures |Dashboard.HighRisks(risks)| == RedCells(Report.MapSeq(risks, Report.RiskRow), 3)
  {
    if |risks| > 0 {
      var rows := Report.MapSeq(risks, Report.RiskRow);
      var rest := Report.MapSeq(risks[1..], Report.RiskRow);
      assert rows[1..] == rest;
      HighRiskCountIsRedRowCount(risks[1..]);
      HighRiskIffRedSeverity(risks[0]);
      if Dashboard.IsHighRisk(risks[0]) {
        assert Dashboard.HighRisks(risks) == [risks[0]] + Dashboard.HighRisks(risks[1..]);
      } else {
        assert Dashboard.HighRisks(risks) == Dashboard.HighRisks(risks[1..]);
      }
    }
  }

  /** The report's score panel shows the card's score in the card's colour. */
  lemma ScoreColourAgrees(a: Analysis)
    requires !a.IsEmpty()
    ensures Report.Generate(a)[3].overall == Dashboard.Project(Some(a)).score
    ensures Report.Generate(a)[3].colour == Dashboard.Project(Some(a)).colour
  {
    ScoreAt(a);
    var overall := a.Scores().overall.GetOr(0);
    assert Report.Front(a)[3].overall == overall;
    assert Dashboard.Project(Some(a)).score == overall;
  }

  /** Where the report's score panel sits. */
  lemma ScoreAt(a: Analysis)
    ensures Report.Generate(a)[3] == Report.Front(a)[3]
  {
    Report.GenerateStartsWithFront(a);
  }

  /** Where the report's summary panel sits. */
  lemma StatsAt(a: Analysis)
    ensures Report.Generate(a)[5] == Report.Front(a)[5]
  {
    Report.GenerateStartsWithFront(a);
  }

  /** The report's summary counts come from the model's own totals when it gave
      them; without them they match the card's counts. */
  lemma CountsAgreeWithoutReportedTotals(a: Analysis)
    requires !a.IsEmpty()
    requires a.Totals().totalAmbiguities.None? && a.Totals().totalScopeCreep.None?
    ensures Report.Generate(a)[5].StatsPanel?
    ensures Report.Generate(a)[5].ambiguities == Dashboard.Project(Some(a)).ambiguities
    ensures Report.Generate(a)[5].scopeCreep == Dashboard.Project(Some(a)).scopeWarnings
  {
    StatsAt(a);
  }

  /** When the model's reported ambiguity total is not the length of its list, the
      two views show different numbers: the card counts the list, the report
      quotes the total. */
  lemma ReportedTotalsCanDisagree(a: Analysis, n: int)
    requires !a.IsEmpty()
    requires a.Totals().totalAmbiguities == Some(n) && n != |a.AmbiguityList()|
    ensures Report.Generate(a)[5].StatsPanel?
    ensures Report.Generate(a)[5].ambiguities == n
    ensures Report.Generate(a)[5].ambiguities != Dashboard.Project(Some(a)).ambiguities
  {
    StatsAt(a);
  }
}
