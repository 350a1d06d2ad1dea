# ReqMind AI — the deterministic glue around the language model

ReqMind AI analyses software-requirements documents. It sends the document to a hosted
language model. It then shows the model's JSON answer in two ways: as a score card on a web
page, and as a PDF report. It can also compare two versions of a document. Everything
around the model call is deterministic, and that part is modelled here:

- **Normalizer** (`analyzer.py`): the clean-up applied to the model's reply before
  `json.loads`. It strips the reply, removes one leading "```json", then one leading "```",
  then one trailing "```", and strips again. Document analysis and comparison both use it.
- **Extraction** (`app.py`, `extract_text`): choosing a reader from the lower-cased file
  extension, as `os.path.splitext` finds it, and the clean-up each reader's output gets.
  The readers themselves are parameters.
- **App** (`app.py`, `analyze`, `compare`, `full_analyze`): the input gate. A file wins
  over pasted text. Empty or too-short sources are refused before the model is called.
  The model's failures are sorted into the user-facing messages.
- **Dashboard** (`app.py`, `score_html` without its HTML): the traffic-light band for a
  score, the high-severity risk count and the alert counts.
- **Report** (`pdf_generator.py`): `generate_pdf` as an ordered sequence of abstract
  blocks. These are banner, panels, headings, placeholders, tables with header and rows,
  and the footer. The module also holds `_priority_color` / `_severity_color`, the
  `section` helper and the stakeholder tables.
- **Agreement**: where the score card and the report agree about the same analysis, and
  where they do not.

The analysis JSON is the `Schema.Analysis` datatype. Every key is an `Option`, because the
source reads every key with `dict.get(key, default)`. List-valued keys read as the empty
list when absent. Text uses ASCII whitespace as Python's `str.isspace` defines it (9–13,
28–32) and ASCII lower-casing.

The language model, `json.loads`, the file readers and the PDF writer are fields of
`App.Env`. They are arbitrary functions, so every property about the handlers holds for
any model reply and any decoder. "The model is never called" is stated as: the outcome
does not change when the model function is replaced by any other.

Some behaviour of the code that the model keeps as written:
- The missing-information table's impact column is plain text (pdf_generator.py:271-276).
  Only priority and severity cells are coloured.
- The comparison result is passed to the UI unread (app.py:91-92, 383-386), so
  `App.Compare` returns the decoded comparison as it is.
- `compare` reports a JSON decoding error as the generic "❌ Error: …" message carrying
  the decoder's text (app.py:93-94). Only `analyze` has the separate "AI returned invalid
  response" message, and that message is fixed (app.py:54-55).
- `analyze` tests `file_input is not None` (app.py:40), so an empty path counts as a file
  and gives "Could not extract text". `compare` tests the path's truthiness (app.py:84-85),
  so an empty path there means "no file".

## Model

| member | source | states |
|---|---|---|
| Text.Strip | analyzer.py:76 | `strip()` returns text with no whitespace at either end, and only whitespace lies around it in the input |
| Text.StripUnique | analyzer.py:76 | any trimmed text surrounded only by whitespace in `s` is exactly what `strip()` returns |
| Text.StripIdempotent | analyzer.py:76 | stripping twice gives the same text as stripping once |
| Text.RemovePrefix | analyzer.py:76 | `removeprefix` takes off one copy of the prefix if the text starts with it, and otherwise leaves the text unchanged |
| Text.RemoveSuffix | analyzer.py:76 | `removesuffix` takes off one copy of the suffix if the text ends with it, and otherwise leaves the text unchanged |
| Text.Lower | app.py:19 | `lower()` keeps the length and lower-cases exactly the ASCII capitals |
| Text.Take | app.py:145 | the blurb cut `s[:n]` is the first `n` characters, or all of `s` when it is shorter |
| Text.StripEmptyIffAllSpace | app.py:44 | text strips to nothing exactly when it is all whitespace |
| Text.LowerEqualsIff | app.py:129 | `s.lower() == w` for a lower-case word `w` holds exactly when `s` equals `w` ignoring letter case |
| Normalizer.Unfence | analyzer.py:76 | for every input, the input is the result with at most one "```json", "```" or "```json```" before it and at most one "```" after it; text with no fence at either end comes back unchanged |
| Normalizer.DecodeReply | analyzer.py:76-77 | the decoder only ever sees a trimmed, contiguous piece of the raw reply, and for a reply without fences it sees the stripped reply |
| Normalizer.Normalize | analyzer.py:76 | the normalised reply never starts or ends with whitespace |
| Normalizer.NormalizeIsInfix | analyzer.py:76 | the normalised reply is a contiguous piece of the raw reply, so it is never longer |
| Normalizer.FenceRoundTrip | analyzer.py:76 | trimmed JSON fenced as "```json" or bare "```", with any whitespace around the fence, normalises back to exactly the JSON |
| Normalizer.BareFenceRoundTrip | analyzer.py:76 | the round trip without surrounding whitespace |
| Normalizer.UnfencedOnlyStripped | analyzer.py:76 | a reply whose stripped form neither starts nor ends with "```" only loses its outer whitespace |
| Normalizer.FencedDecodesLikeBare | analyzer.py:76-77 | a fenced reply reaches the decoder as the same text as the bare JSON, so both decode alike, for any decoder |
| Normalizer.OneFenceLayerRemoved | analyzer.py:76 | only one layer of fences is removed: a doubly fenced reply keeps its inner fence, so normalising is not idempotent |
| Normalizer.BothPrefixesRemoved | analyzer.py:76 | "```json" and a following "```" are both removed in one pass |
| Normalizer.UpperCaseTagKept | analyzer.py:76 | the tag match is case-sensitive: "```JSON" loses only its backticks and keeps "JSON" |
| Extraction.LastIndexOf | app.py:19 | `rfind`: the last position holding the character, or -1 exactly when it does not occur |
| Extraction.Extension | app.py:19 | the extension is empty or a dot plus a dot-free, slash-free ending of the path; it is non-empty exactly when the last path component has a dot preceded by some non-dot character |
| Extraction.ReaderFor | app.py:16-34 | the PDF reader exactly for a non-empty path with extension ".pdf" in any case, the DOCX reader exactly for ".docx" when python-docx imported, the text reader exactly for ".txt" or ".md", and no reader exactly otherwise |
| Extraction.JoinPages | app.py:21-27 | the joined PDF text is empty exactly when every page is empty, and all whitespace exactly when every page is |
| Extraction.JoinPagesAppend | app.py:21-27 | the pages of two runs join to the first run's text followed by the second's, so page order is kept |
| Extraction.JoinOnePage | app.py:21-27 | one page gives its text and a newline, or nothing when it has no text |
| Extraction.NonBlank | app.py:30 | exactly the non-blank paragraphs are kept, never more of them than given |
| Extraction.NonBlankSubMultiset | app.py:30 | each kept paragraph occurs no more often than in the document |
| Extraction.NonBlankAppend | app.py:30 | filtering two runs of paragraphs one after the other gives the two filtered runs in the same order |
| Extraction.JoinLines | app.py:30 | `"\n".join`: the first line opens the text and the last closes it; non-empty lines join to "" exactly when there are none |
| Extraction.SplitJoinLines | app.py:30 | splitting the joined text at newlines gives back the lines, when none of them holds a newline |
| Extraction.ExtractText | app.py:16-34 | no reader gives ""; a PDF or text result is the reader's text with only its outer whitespace removed, empty exactly when that text (for a PDF, every page) is blank; a DOCX result is empty exactly when every paragraph is blank |
| Extraction.ReaderIgnoresCase | app.py:19 | paths that differ only in letter case get the same reader |
| Extraction.UpperCasePdf | app.py:19-20 | "Spec.PDF" is read as a PDF |
| Extraction.DocxNeedsLibrary | app.py:28 | "brief.docx" has a reader with python-docx and none without it |
| Extraction.LastSuffixCounts | app.py:19 | only the last suffix counts: "notes.v2.md" is a markdown file |
| Extraction.HiddenFileHasNoReader | app.py:19 | a name that is only a leading dot and a suffix (".md") has no extension |
| Extraction.DirectoryDotIgnored | app.py:19 | a dot in a directory name is not an extension |
| Palette.ScoreBand | app.py:105 | green exactly when score ≥ 70, amber exactly when 40 ≤ score < 70, red exactly when score < 40 |
| Palette.ScoreBandMonotone | app.py:105-108 | a higher score never gets a more alarming band |
| Dashboard.IsHighRisk | app.py:129 | a risk is high exactly when its severity is present and equals "high" ignoring letter case |
| Dashboard.HighRisks | app.py:128-129 | the high risks are exactly the risks whose lower-cased severity is "high", each with its multiplicity |
| Dashboard.MakeBar | app.py:107-108 | a sub-score bar shows the reported value, 0 when missing, in that value's score band |
| Dashboard.Project | app.py:98-130 | a missing or empty analysis gives no card; otherwise the score is the reported overall score or 0, the bars are Clarity, Completeness, Consistency and Testability in that order with their reported values or 0, score and bars use the score bands, the high-risk count is the number of high risks, and the ambiguity and scope-creep counts are the list lengths |
| Dashboard.AllHighIffFullCount | app.py:129 | the high-risk count equals the number of risks exactly when every risk is high |
| Dashboard.NoneHighIffZeroCount | app.py:129 | the high-risk count is zero exactly when no risk is high |
| Dashboard.AlertsIgnoreReportedTotals | app.py:128-130 | changing the model's `summary` never changes the card's alert counts |
| Report.PriorityColour | pdf_generator.py:28-32 | red exactly for a case-insensitive "high", amber exactly for "medium", green for anything else including a missing value |
| Report.SeverityColour | pdf_generator.py:35-39 | the same rules for severity |
| Report.PriorityAndSeverityAgree | pdf_generator.py:28-39 | the two colour functions agree on every input |
| Report.LevelExamples | pdf_generator.py:28-39 | "HIGH" is red, "Medium" amber, "Critical", "" and a missing value green |
| Report.FunctionalRow | pdf_generator.py:195-207 | one cell per column of the functional header; the priority cell shows the priority or "Low" and takes the reported priority's colour; the other cells are plain |
| Report.NonFunctionalRow | pdf_generator.py:209-218 | one plain cell per column of the non-functional header, the id first |
| Report.ConstraintRow | pdf_generator.py:220-226 | one plain cell per column of the constraints header, the id first |
| Report.RiskRow | pdf_generator.py:228-241 | one cell per column of the risk header; the severity cell shows the severity or "Low" and takes the reported severity's colour; the other cells are plain |
| Report.AmbiguityRow | pdf_generator.py:243-256 | one plain cell per column of the ambiguities header, the id first |
| Report.MissingRow | pdf_generator.py:270-283 | one plain cell per column of the missing-information header, the impact included |
| Report.ScopeCreepRow | pdf_generator.py:297-306 | one plain cell per column of the scope-creep header, the id first |
| Report.MissingLevelShownAsLow | pdf_generator.py:197-203 | a missing priority or severity is shown, and coloured, as "Low" |
| Report.SectionRowsFit | pdf_generator.py:195-306 | each section has one row per listed item, each row as wide as the section's header |
| Report.SectionBody | pdf_generator.py:145-164 | a section's body is either the section's own placeholder text or a table under the section's own header |
| Report.SectionBodyByCount | pdf_generator.py:145-164 | the body is the placeholder exactly when the analysis lists no items for the section, and otherwise a table with one row per item, in order |
| Report.BodyFits | pdf_generator.py:145-164 | a section's table is never empty, and each of its rows is as wide as its header |
| Report.ActiveRoles | pdf_generator.py:317-320 | exactly the roles with at least one question remain, with their order kept |
| Report.RoleTable | pdf_generator.py:318-323 | a role's table is headed by the role's label and "Question", with one id-and-question row per question of that role, in the order given |
| Report.RoleTables | pdf_generator.py:317-336 | at most four stakeholder tables, each with a two-column header and at least one row of that width |
| Report.RoleTableIffQuestions | pdf_generator.py:317-320 | a role gets a table exactly when it has at least one question |
| Report.RoleTablesOrdered | pdf_generator.py:311-320 | the stakeholder tables follow the order client, developer, tester, project manager |
| Report.OtherRoleKeysIgnored | pdf_generator.py:310-320 | adding a key other than the four roles never changes the stakeholder tables |
| Report.Front | pdf_generator.py:69-192 | the banner, project info, quality heading, score panel showing the overall score or 0 in its band, summary heading and summary panel, then the recommendation line exactly when there is one |
| Report.Sections | pdf_generator.py:145-306 | each tabular section contributes exactly two blocks, its heading and its body |
| Report.AssembleAt | pdf_generator.py:42-345 | where each part of the report sits: the front blocks, then the sections, the stakeholder heading, the stakeholder tables, and the footer last |
| Report.RecommendationLine | pdf_generator.py:188-190 | at most one line, present exactly when the summary has a non-empty recommendation, and showing that recommendation |
| Report.ReportedOr | pdf_generator.py:170-174 | the model's reported count when present, otherwise the list's own length |
| Report.Generate | pdf_generator.py:42-345 | the report opens with the banner, ends with the footer, and colours its score panel by the score band |
| Report.StakeholderTablesInReport | pdf_generator.py:308-345 | the stakeholder tables come right after their heading, in the order `RoleTables` gives them, and only the footer follows them |
| Report.ReportSectionOrder | pdf_generator.py:69-345 | the headings are always quality score, summary, the seven tabular sections in their fixed order, then stakeholder questions |
| Report.FrontLayout | pdf_generator.py:69-192 | header, project info, quality heading and panel, summary heading and panel come first, in that order |
| Report.SummaryCountsFallBack | pdf_generator.py:170-174 | each summary figure is the model's reported total when present, else the length of its list |
| Report.SectionLayout | pdf_generator.py:145-164 | each tabular section is its heading followed by its placeholder when it has no items, otherwise by a table with its header and one row per item in order |
| Report.NoEmptyTables | pdf_generator.py:145-164 | no table in the report is empty, and every row has one cell per header column |
| Report.RecommendationShownIff | pdf_generator.py:188-190 | the recommendation line appears, right after the summary panel, exactly when the recommendation is present and non-empty |
| Schema.EmptyIffNoKeys | app.py:99 | `not analysis` holds only for the empty object: every read then gives its default, and any key, even one outside the schema, makes the analysis non-empty |
| App.Message | app.py:43-57 | only a reported exception's message starts with "❌ Error: ", and what follows is the exception's text |
| App.MessageInjective | app.py:43-94 | different failures are never shown with the same text |
| App.AnalysisText | app.py:39-45 | with a file, the extracted text; without one, the pasted text with its outer whitespace removed, empty exactly when it is all whitespace |
| App.StatusOf | app.py:64-70 | the status shows the detected type, complexity and overall quality, each "N/A" when the reply omits it, and the overall score as reported |
| App.AnalysisSource | app.py:38-50 | "could not extract" exactly when a file gives no text; "please paste" exactly when there is no file and the text is blank; "too short" exactly when the source is non-empty and under 30 characters; otherwise the source |
| App.Analyze | app.py:38-79 | a refused source is the outcome; a success carries the PDF writer's result for that analysis's report and the status fields |
| App.RefusedWithoutModelCall | app.py:38-50 | a refused source gives the same refusal whatever the model and decoder would do |
| App.FileTakesPrecedence | app.py:40-43 | with a file given, the pasted text never matters, even when extraction fails |
| App.ModelReplyDecoded | app.py:52-55 | the model's reply is normalised and decoded; a decode failure gives "AI returned invalid response" |
| App.ModelErrorReported | app.py:56-57 | a failed model call is reported as "❌ Error: " followed by its message |
| App.InvalidResponseIsDistinct | app.py:54-57 | the invalid-response message differs from every generic error message |
| App.PdfFailureKeepsResult | app.py:59-62 | a PDF that cannot be written still returns the analysis, with no PDF path |
| App.CompareText | app.py:84-85 | with a non-empty file path, the extracted text; otherwise the pasted text with its outer whitespace removed, empty exactly when it is all whitespace |
| App.Compare | app.py:83-94 | "provide both" exactly when either side is empty after extraction or strip; any other refusal is a generic error |
| App.CompareNeedsBothWithoutModelCall | app.py:84-88 | a missing side is refused whatever the model would do |
| App.SameNormalisation | analyzer.py:104-105 | comparison decodes its reply through the same normalisation as analysis, and passes decode failures on as generic errors |
| App.FullAnalyze | app.py:372-375 | the card is blank exactly when the analysis was refused or came back empty |
| Agreement.HighRiskIffRedSeverity | pdf_generator.py:230-237 | the card counts a risk as high exactly when the report paints its severity red |
| Agreement.RedCells | pdf_generator.py:230-237 | the red-cell count is zero exactly when no row is red in that column, and the number of rows exactly when every row is |
| Agreement.HighRiskCountIsRedRowCount | app.py:128-129 | the card's high-risk count equals the number of red severity cells in the report's risk table |
| Agreement.ScoreColourAgrees | pdf_generator.py:119 | the report's score panel shows the card's score in the card's colour |
| Agreement.CountsAgreeWithoutReportedTotals | pdf_generator.py:170-174 | without reported totals, the report's ambiguity and scope-creep figures match the card's |
| Agreement.ReportedTotalsCanDisagree | pdf_generator.py:172 | when the reported ambiguity total is not the list length, the report shows the total and the card shows the length |

## Left out

- The language-model call, its prompts, model name, temperature and token limits. The call is a parameter returning a reply or an error message.
- The internals of `json.loads`. Decoding is a parameter returning the decoded object or the decoder's message. The model does not check that the decoded object has the schema's shape.
- The PDF, DOCX and text-file readers, and the file reads in `extract_text`. These are parameters. Only the extension dispatch and the clean-up of their output are modelled.
- Gradio UI wiring, HTML and CSS building, and the conic-gradient angle `score*3.6`, which is a float. The card keeps only the values that the HTML shows.
- reportlab styling: hex colours, column widths, paragraph styles, spacers and rules, `doc.build` and the temporary file path. The report keeps only block kinds and their text.
- Unicode `str.strip()` and `str.lower()`. Only ASCII whitespace and ASCII letters are modelled.
- Fractional scores. Scores are `int` in the model; Python bands a score such as 72.5 like any other number, and the model cannot hold it.
- Values of the wrong JSON type. A reply that decodes to something other than an object, or a `quality_score`, `project_info` or `summary` that is not an object, makes `analyze` raise at app.py:64-70, outside any `try`. A `null` severity makes `score_html` raise at app.py:129; the report shows it without raising. The model's datatypes have no such values.
- Reader exceptions. `pdfplumber`, `python-docx` and `open` can raise on a missing or corrupt file. `extract_text` does not catch this, so the exception escapes `analyze` (app.py:41) and `compare` (app.py:84-85). `Files` holds total functions, so the model has no such path.
- `None` for the pasted text in `compare`. `old_text.strip()` would raise on it; the model takes text as a string.
- Windows path separators in `os.path.splitext`. Only POSIX paths are modelled.
