/** The two request handlers (app.py, `analyze` and `compare`) and the analyze button's
    wiring to the score card (`full_analyze`). The language model, the JSON decoder,
    the file readers and the PDF writer are parameters. */
module App {
  import opened Wrappers
  import opened Text
  import opened Normalizer
  import opened Schema
  import opened Extraction
  import Dashboard
  import Report

  /** Shorter sources are refused before the model is asked. */
  const MinimumLength: nat := 30

  /** The user-facing failures, each with its own message. */
  datatype Notice =
    | ExtractionFailed
    | NoInput
    | TooShort
    | InvalidResponse
    | Failed(detail: string)
    | NeedBoth

  /** The prefix of the message that reports an exception raised by the model call. */
  const ErrorPrefix: string := "❌ Error: "

  /** The text shown for each failure; only a reported exception carries the error prefix,
      followed by the exception's own message. */
  function Message(n: Notice): (r: string)
    ensures n.Failed? <==> StartsWith(r, ErrorPrefix)
    ensures n.Failed? ==> RemovePrefix(r, ErrorPrefix) == n.detail
  {
    match n
    case ExtractionFailed =>
      var r := "❌ Could not extract text from file.";
      assert r[2] != ErrorPrefix[2];
      r
    case NoInput =>
      var r := "⚠️ Please paste requirements OR upload a file.";
      assert r[2] != ErrorPrefix[2];
      r
    case TooShort =>
      var r := "⚠️ Text too short." + " Please provide more detailed requirements.";
      assert r[3] != ErrorPrefix[3];
      r
    case InvalidResponse =>
      var r := "❌ AI returned invalid response." + " Please try again.";
      assert r[2] != ErrorPrefix[2];
      r
    case Failed(detail) => ErrorPrefix + detail
    case NeedBoth =>
      var r := "⚠️ Please provide both Old and New documents.";
      assert r[2] != ErrorPrefix[2];
      r
  }

  /** Different failures are never shown with the same text. */
  lemma MessageInjective(a: Notice, b: Notice)
    ensures Message(a) == Message(b) <==> a == b
  {
    if Message(a) == Message(b) && a.Failed? && b.Failed? {
      assert a.detail == RemovePrefix(Message(a), ErrorPrefix);
    }
  }

  /** What the model is asked: one document to analyse, or two versions to compare. */
  datatype Prompt = AnalyzePrompt(document: string) | ComparePrompt(older: string, newer: string)

  /** Everything outside the model: the file readers, whether python-docx imported, the
      language model (its reply or the message of the exception it raised), `json.loads`
      viewed through each schema (the decoded object or the decoder's message), and the
      PDF writer (the file's path, or none when writing raised). */
  datatype Env = Env(
    files: Files,
    docxAvailable: bool,
    complete: Prompt -> Result<string, string>,
    parseAnalysis: string -> Result<Analysis, string>,
    parseComparison: string -> Result<Comparison, string>,
    writePdf: seq<Report.Block> -> Option<string>)

  /** The status line's fields; an absent score shows as "N/A" like the other fields. */
  datatype Status = Status(projectType: string, score: Option<int>, complexity: string, quality: string)

  datatype AnalyzeOutcome =
    | Analyzed(result: Analysis, pdfPath: Option<string>, status: Status)
    | Rejected(notice: Notice)

  datatype CompareOutcome = Compared(comparison: Comparison) | CompareRejected(notice: Notice)

  const CompareDone: string := "✅ Comparison complete!"

  /** The text `analyze` would send: the uploaded file's text when a file is given,
      otherwise the pasted text stripped. */
  function AnalysisText(text: string, file: Option<string>, env: Env): (r: string)
    ensures file.Some? ==> r == ExtractText(file.value, env.docxAvailable, env.files)
    ensures file.None? ==> Trimmed(r) && StripsTo(text, LeadCount(text), r)
    ensures file.None? ==> (r == "" <==> AllSpace(text))
  {
    StripEmptyIffAllSpace(text);
    if file.Some? then ExtractText(file.value, env.docxAvailable, env.files) else Strip(text)
  }

  /** The checks `analyze` makes before calling the model. */
  function AnalysisSource(text: string, file: Option<string>, env: Env): (r: Result<string, Notice>)
    ensures r.Success? ==> r.value == AnalysisText(text, file, env) && |r.value| >= MinimumLength
    ensures r == Failure(ExtractionFailed) <==> file.Some? && AnalysisText(text, file, env) == ""
    ensures r == Failure(NoInput) <==> file.None? && AllSpace(text)
    ensures r == Failure(TooShort) <==> AnalysisText(text, file, env) != "" && |AnalysisText(text, file, env)| < MinimumLength
    ensures r.Failure? ==> r.error in {ExtractionFailed, NoInput, TooShort}
  {
    var source := AnalysisText(text, file, env);
    assert file.None? ==> (source == "" <==> AllSpace(text)) by {
      if file.None? { StripEmptyIffAllSpace(text); }
    }
    if file.Some? && source == "" then Failure(ExtractionFailed)
    else if file.None? && source == "" then Failure(NoInput)
    else if |source| < MinimumLength then Failure(TooShort)
    else Success(source)
  }

  /** The status line's fields: each reported value, or "N/A" when the reply omits it;
      the score is left absent and shown as "N/A" by the line itself. */
  function StatusOf(a: Analysis): (r: Status)
    ensures r.projectType == (if a.Info().detectedType.Some? then a.Info().detectedType.value else "N/A")
    ensures r.complexity == (if a.Info().complexity.Some? then a.Info().complexity.value else "N/A")
    ensures r.quality == (if a.Totals().overallQuality.Some? then a.Totals().overallQuality.value else "N/A")
    ensures r.score == a.Scores().overall
  {
    Status(a.Info().detectedType.GetOr("N/A"), a.Scores().overall,
           a.Info().complexity.GetOr("N/A"), a.Totals().overallQuality.GetOr("N/A"))
  }

  /** `analyze(text_input, file_input)`. */
  function Analyze(text: string, file: Option<string>, env: Env): (o: AnalyzeOutcome)
    ensures AnalysisSource(text, file, env).Failure? ==> o == Rejected(AnalysisSource(text, file, env).error)
    ensures o.Analyzed? ==> o.pdfPath == env.writePdf(Report.Generate(o.result)) && o.status == StatusOf(o.result)
  {
    match AnalysisSource(text, file, env)
    case Failure(n) => Rejected(n)
    case Success(source) =>
      match env.complete(AnalyzePrompt(source))
      case Failure(e) => Rejected(Failed(e))
      case Success(raw) =>
        match DecodeReply(raw, env.parseAnalysis)
        case Failure(_) => Rejected(InvalidResponse)
        case Success(result) => Analyzed(result, env.writePdf(Report.Generate(result)), StatusOf(result))
  }

  /** A refused source never reaches the model: the outcome is the refusal, whatever
      the model or the decoder would have done. */
  lemma RefusedWithoutModelCall(text: string, file: Option<string>, env: Env,
                                complete: Prompt -> Result<string, string>,
                                parse: string -> Result<Analysis, string>)
    requires AnalysisSource(text, file, env).Failure?
    ensures Analyze(text, file, env) == Analyze(text, file, env.(complete := complete, parseAnalysis := parse))
    ensures Analyze(text, file, env).Rejected?
  {
    assert AnalysisSource(text, file, env) == AnalysisSource(text, file, env.(complete := complete, parseAnalysis := parse));
  }

  /** An uploaded file takes precedence: the pasted text is then never read, even when
      nothing could be extracted from the file. */
  lemma FileTakesPrecedence(text1: string, text2: string, path: string, env: Env)
    ensures Analyze(text1, Some(path), env) == Analyze(text2, Some(path), env)
  {
    assert AnalysisText(text1, Some(path), env) == AnalysisText(text2, Some(path), env);
    assert AnalysisSource(text1, Some(path), env) == AnalysisSource(text2, Some(path), env);
  }

  /** The model is asked about exactly the accepted source, its reply is normalised and
      decoded, and a decoding failure becomes the "invalid response" notice. */
  lemma ModelReplyDecoded(text: string, file: Option<string>, env: Env, raw: string)
    requires AnalysisSource(text, file, env).Success?
    requires env.complete(AnalyzePrompt(AnalysisSource(text, file, env).value)) == Success(raw)
    ensures env.parseAnalysis(Normalize(raw)).Failure? ==> Analyze(text, file, env) == Rejected(InvalidResponse)
    ensures env.parseAnalysis(Normalize(raw)).Success? ==>
              Analyze(text, file, env).Analyzed? && Analyze(text, file, env).result == env.parseAnalysis(Normalize(raw)).value
  {
  }

  /** An exception from the model call is reported with its own message. */
  lemma ModelErrorReported(text: string, file: Option<string>, env: Env, e: string)
    requires AnalysisSource(text, file, env).Success?
    requires env.complete(AnalyzePrompt(AnalysisSource(text, file, env).value)) == Failure(e)
    ensures Analyze(text, file, env) == Rejected(Failed(e))
    ensures Message(Analyze(text, file, env).notice) == "❌ Error: " + e
  {
  }

  /** The invalid-response message differs from every generic error message. */
  lemma InvalidResponseIsDistinct(e: string)
    ensures Message(InvalidResponse) != Message(Failed(e))
  {
    assert Message(InvalidResponse)[2] == "❌ AI returned invalid response."[2] == 'A';
    assert Message(Failed(e))[2] == "❌ Error: "[2] == 'E';
  }

  /** A PDF that could not be written does not lose the analysis. */
  lemma PdfFailureKeepsResult(text: string, file: Option<string>, env: Env, raw: string)
    requires AnalysisSource(text, file, env).Success?
    requires env.complete(AnalyzePrompt(AnalysisSource(text, file, env).value)) == Success(raw)
    requires env.parseAnalysis(Normalize(raw)).Success?
    requires env.writePdf(Report.Generate(env.parseAnalysis(Normalize(raw)).value)).None?
    ensures Analyze(text, file, env).Analyzed? && Analyze(text, file, env).pdfPath.None?
  {
  }

  /** One side of `compare`: a file's text when a non-empty path is given, otherwise
      the pasted text stripped. */
  function CompareText(file: Option<string>, text: string, env: Env): (r: string)
    ensures file.Some? && file.value != "" ==> r == ExtractText(file.value, env.docxAvailable, env.files)
    ensures file.None? || file.value == "" ==> Trimmed(r) && StripsTo(text, LeadCount(text), r)
    ensures file.None? || file.value == "" ==> (r == "" <==> AllSpace(text))
  {
    StripEmptyIffAllSpace(text);
    if file.Some? && file.value != "" then ExtractText(file.value, env.docxAvailable, env.files)
    else Strip(text)
  }

  /** `compare(old_file, new_file, old_text, new_text)`. Unlike `analyze`, a decoding
      error here is reported as a generic error carrying the decoder's message. */
  function Compare(oldFile: Option<string>, newFile: Option<string>, oldText: string, newText: string,
                   env: Env): (o: CompareOutcome)
    ensures (CompareText(oldFile, oldText, env) == "" || CompareText(newFile, newText, env) == "")
            <==> o == CompareRejected(NeedBoth)
    ensures o.CompareRejected? ==> o.notice == NeedBoth || o.notice.Failed?
  {
    var older := CompareText(oldFile, oldText, env);
    var newer := CompareText(newFile, newText, env);
    if older == "" || newer == "" then CompareRejected(NeedBoth)
    else
      match env.complete(ComparePrompt(older, newer))
      case Failure(e) => CompareRejected(Failed(e))
      case Success(raw) =>
        match DecodeReply(raw, env.parseComparison)
        case Failure(e) => CompareRejected(Failed(e))
        case Success(c) => Compared(c)
  }

  /** Comparing needs both documents, and refuses without asking the model. */
  lemma CompareNeedsBothWithoutModelCall(oldFile: Option<string>, newFile: Option<string>,
                                         oldText: string, newText: string, env: Env,
                                         complete: Prompt -> Result<string, string>)
    requires CompareText(oldFile, oldText, env) == "" || CompareText(newFile, newText, env) == ""
    ensures Compare(oldFile, newFile, oldText, newText, env)
            == Compare(oldFile, newFile, oldText, newText, env.(complete := complete))
  {
  }

  /** Analysis and comparison decode their replies through the same normalisation. */
  lemma SameNormalisation(oldFile: Option<string>, newFile: Option<string>, oldText: string, newText: string,
                          env: Env, raw: string)
    requires CompareText(oldFile, oldText, env) != "" && CompareText(newFile, newText, env) != ""
    requires env.complete(ComparePrompt(CompareText(oldFile, oldText, env), CompareText(newFile, newText, env))) == Success(raw)
    ensures env.parseComparison(Normalize(raw)).Success? ==>
              Compare(oldFile, newFile, oldText, newText, env) == Compared(env.parseComparison(Normalize(raw)).value)
    ensures env.parseComparison(Normalize(raw)).Failure? ==>
              Compare(oldFile, newFile, oldText, newText, env) == CompareRejected(Failed(env.parseComparison(Normalize(raw)).error))
  {
  }

  /** `full_analyze`: the handler's outcome and the score card shown beside it, which is
      blank when the analysis failed or came back empty. */
  function FullAnalyze(text: string, file: Option<string>, env: Env): (r: (AnalyzeOutcome, Dashboard.Card))
    ensures r.0 == Analyze(text, file, env)
    ensures r.1.NoData? <==> r.0.Rejected? || r.0.result.IsEmpty()
  {
    var o := Analyze(text, file, env);
    (o, if o.Analyzed? then Dashboard.Project(Some(o.result)) else Dashboard.NoData)
  }
}
