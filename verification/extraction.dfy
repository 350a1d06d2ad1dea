/** Choosing a text reader from a file's extension, and the clean-up each reader's
    output gets (app.py, `extract_text`). The readers themselves (pdfplumber,
    python-docx, a plain file read) are parameters. */
module Extraction {
  import opened Wrappers
  import opened Text

  /** The position of the last `c` in `s`, or -1 when there is none. */
  function LastIndexOf(s: string, c: char): (i: int)
    ensures -1 <= i < |s|
    ensures i >= 0 ==> s[i] == c
    ensures forall j :: i < j < |s| ==> s[j] != c
  {
    if |s| == 0 then -1
    else if s[|s| - 1] == c then |s| - 1
    else LastIndexOf(s[..|s| - 1], c)
  }

  /** Some character of `s[lo..hi]` is not a dot. */
  predicate HasNonDot(s: string, lo: int, hi: int)
    requires 0 <= lo && hi <= |s|
  {
    exists j :: lo <= j < hi && s[j] != '.'
  }

  /** `os.path.splitext(path)[1]` for POSIX paths. The final path component has an
      extension exactly when one of its dots follows a character other than a dot;
      the extension then runs from the component's last dot to the end. */
  function Extension(path: string): (ext: string)
    ensures ext == "" || (ext[0] == '.' && EndsWith(path, ext))
    ensures '/' !in ext
    ensures forall i :: 0 < i < |ext| ==> ext[i] != '.'
    ensures var sep := LastIndexOf(path, '/');
            ext != "" <==> exists k :: sep < k < |path| && path[k] == '.' && HasNonDot(path, sep + 1, k)
  {
    var sep := LastIndexOf(path, '/');
    var dot := LastIndexOf(path, '.');
    if dot > sep && HasNonDot(path, sep + 1, dot) then path[dot..]
    else
      assert forall k :: sep < k < |path| && path[k] == '.' ==> !HasNonDot(path, sep + 1, k) by {
        forall k | sep < k < |path| && path[k] == '.' ensures !HasNonDot(path, sep + 1, k) {
          assert k <= dot;
          assert forall j :: sep + 1 <= j < dot ==> path[j] == '.';
        }
      }
      ""
  }

  datatype Reader = PdfReader | DocxReader | TextReader

  /** The reader for `path`, chosen by its lower-cased extension: ".pdf", ".docx" (only
      when the python-docx import succeeded), ".txt" or ".md"; none for an empty path
      or any other extension. */
  function ReaderFor(path: string, docxAvailable: bool): (r: Option<Reader>)
    ensures r == Some(PdfReader) <==> path != "" && Lower(Extension(path)) == ".pdf"
    ensures r == Some(DocxReader) <==> path != "" && Lower(Extension(path)) == ".docx" && docxAvailable
    ensures r == Some(TextReader) <==> path != "" && Lower(Extension(path)) in {".txt", ".md"}
    ensures r.None? <==>
              (path == "" || Lower(Extension(path)) !in {".pdf", ".txt", ".md"} + (if docxAvailable then {".docx"} else {}))
  {
    if path == "" then None
    else
      var ext := Lower(Extension(path));
      if ext == ".pdf" then Some(PdfReader)
      else if ext == ".docx" && docxAvailable then Some(DocxReader)
      else if ext == ".txt" || ext == ".md" then Some(TextReader)
      else None
  }

  /** What the foreign readers return for a path: each PDF page's text ("" where a
      page has none), each DOCX paragraph's text, and a text file's contents. */
  datatype Files = Files(
    pdfPages: string -> seq<string>,
    docxParagraphs: string -> seq<string>,
    textContents: string -> string)

  /** Each page with text, followed by a newline. The result is empty exactly when
      every page is, and all whitespace exactly when every page is. */
  function JoinPages(pages: seq<string>): (r: string)
    ensures r == "" <==> forall i :: 0 <= i < |pages| ==> pages[i] == ""
    ensures AllSpace(r) <==> forall i :: 0 <= i < |pages| ==> AllSpace(pages[i])
  {
    if |pages| == 0 then ""
    else
      var head := if pages[0] == "" then "" else pages[0] + "\n";
      var rest := JoinPages(pages[1..]);
      AllSpaceAppend(head, rest);
      AllSpaceAppend(pages[0], "\n");
      assert forall i :: 1 <= i < |pages| ==> pages[i] == pages[1..][i - 1];
      head + rest
  }

  /** The pages of two runs, joined, are the two joined runs one after the other:
      the page text keeps the order of the pages. */
  lemma {:induction false} JoinPagesAppend(xs: seq<string>, ys: seq<string>)
    ensures JoinPages(xs + ys) == JoinPages(xs) + JoinPages(ys)
  {
    if |xs| == 0 {
      assert xs + ys == ys;
    } else {
      assert (xs + ys)[0] == xs[0];
      assert (xs + ys)[1..] == xs[1..] + ys;
      JoinPagesAppend(xs[1..], ys);
    }
  }

  /** A single page: its text and a newline, or nothing for a page without text. */
  lemma JoinOnePage(p: string)
    ensures JoinPages([p]) == if p == "" then "" else p + "\n"
  {
    assert [p][1..] == [];
  }

  /** The elements of `xs` that satisfy `keep`, in order. */
  function Filter<T>(xs: seq<T>, keep: T -> bool): (r: seq<T>)
    ensures |r| <= |xs|
    ensures forall i :: 0 <= i < |r| ==> r[i] in xs && keep(r[i])
    ensures forall i :: 0 <= i < |xs| && keep(xs[i]) ==> xs[i] in r
  {
    if |xs| == 0 then []
    else (if keep(xs[0]) then [xs[0]] else []) + Filter(xs[1..], keep)
  }

  /** An element is kept exactly when it is given and satisfies `keep`. */
  lemma FilterMembers<T>(xs: seq<T>, keep: T -> bool)
    ensures forall x :: x in Filter(xs, keep) <==> x in xs && keep(x)
  {
    var r := Filter(xs, keep);
    forall x | x in r ensures x in xs && keep(x) {
      var i :| 0 <= i < |r| && r[i] == x;
    }
    forall x | x in xs && keep(x) ensures x in r {
      var i :| 0 <= i < |xs| && xs[i] == x;
    }
  }

  /** Filtering never repeats an element more often than the input holds it. */
  lemma {:induction false} FilterSubMultiset<T>(xs: seq<T>, keep: T -> bool)
    ensures multiset(Filter(xs, keep)) <= multiset(xs)
  {
    if |xs| > 0 {
      assert xs == [xs[0]] + xs[1..];
      FilterSubMultiset(xs[1..], keep);
    }
  }

  /** Filtering a concatenation filters each part and keeps them in order. */
  lemma {:induction false} FilterAppend<T>(xs: seq<T>, ys: seq<T>, keep: T -> bool)
    ensures Filter(xs + ys, keep) == Filter(xs, keep) + Filter(ys, keep)
  {
    if |xs| == 0 {
      assert xs + ys == ys;
    } else {
      assert (xs + ys)[0] == xs[0];
      assert (xs + ys)[1..] == xs[1..] + ys;
      FilterAppend(xs[1..], ys, keep);
    }
  }

  /** A paragraph with something other than whitespace (`p.text.strip()` is truthy). */
  predicate NotBlank(p: string) {
    Strip(p) != ""
  }

  /** The paragraphs that are not blank, in order. */
  function NonBlank(paragraphs: seq<string>): (r: seq<string>)
    ensures |r| <= |paragraphs|
    ensures forall i :: 0 <= i < |r| ==> NotBlank(r[i])
    ensures forall p :: p in r <==> p in paragraphs && NotBlank(p)
    ensures |paragraphs| == 1 ==> r == (if NotBlank(paragraphs[0]) then paragraphs else [])
  {
    var r := Filter(paragraphs, NotBlank);
    FilterMembers(paragraphs, NotBlank);
    assert |paragraphs| == 1 ==> r == (if NotBlank(paragraphs[0]) then paragraphs else []) by {
      if |paragraphs| == 1 { assert paragraphs[1..] == []; }
    }
    r
  }

  /** Each kept paragraph is kept no more often than it was given. */
  lemma NonBlankSubMultiset(paragraphs: seq<string>)
    ensures multiset(NonBlank(paragraphs)) <= multiset(paragraphs)
  {
    FilterSubMultiset(paragraphs, NotBlank);
  }

  /** Filtering a concatenation filters each part and keeps them in order; with the
      one-paragraph case this pins down the kept paragraphs and their order. */
  lemma NonBlankAppend(xs: seq<string>, ys: seq<string>)
    ensures NonBlank(xs + ys) == NonBlank(xs) + NonBlank(ys)
  {
    FilterAppend(xs, ys, NotBlank);
  }

  /** Python's `"\n".join(xs)`: the first line opens the text and the last one closes it. */
  function JoinLines(xs: seq<string>): (r: string)
    ensures (forall i :: 0 <= i < |xs| ==> xs[i] != "") ==> (r == "" <==> |xs| == 0)
    ensures |xs| > 0 ==> StartsWith(r, xs[0]) && EndsWith(r, xs[|xs| - 1])
  {
    if |xs| == 0 then ""
    else if |xs| == 1 then xs[0]
    else xs[0] + "\n" + JoinLines(xs[1..])
  }

  /** Splitting at every newline, as Python's `s.split("\n")`: always at least one piece. */
  function SplitLines(s: string): (r: seq<string>)
    ensures |r| > 0
  {
    if |s| == 0 then [""]
    else
      var rest := SplitLines(s[1..]);
      if s[0] == '\n' then [""] + rest else [[s[0]] + rest[0]] + rest[1..]
  }

  /** Text without a newline joins the first piece of whatever follows it. */
  lemma {:induction false} SplitLinesPrefix(w: string, t: string)
    requires '\n' !in w
    ensures SplitLines(w + t) == [w + SplitLines(t)[0]] + SplitLines(t)[1..]
  {
    if |w| > 0 {
      assert (w + t)[1..] == w[1..] + t;
      assert w[0] in w;
      SplitLinesPrefix(w[1..], t);
      assert [w[0]] + (w[1..] + SplitLines(t)[0]) == w + SplitLines(t)[0];
    } else {
      var r := SplitLines(t);
      assert w + t == t && w + r[0] == r[0];
      assert r == [r[0]] + r[1..];
    }
  }

  /** Joining lines that hold no newline and splitting the result gives them back. */
  lemma {:induction false} SplitJoinLines(xs: seq<string>)
    requires |xs| > 0
    requires forall i :: 0 <= i < |xs| ==> '\n' !in xs[i]
    ensures SplitLines(JoinLines(xs)) == xs
  {
    if |xs| == 1 {
      SplitLinesPrefix(xs[0], "");
      assert xs[0] + "" == xs[0];
    } else {
      var tail := JoinLines(xs[1..]);
      assert JoinLines(xs) == xs[0] + ("\n" + tail);
      SplitLinesPrefix(xs[0], "\n" + tail);
      assert ("\n" + tail)[1..] == tail;
      assert SplitLines("\n" + tail) == [""] + SplitLines(tail);
      SplitJoinLines(xs[1..]);
      assert xs[0] + "" == xs[0];
      assert [xs[0]] + xs[1..] == xs;
    }
  }

  /** `extract_text(path)`: "" for no path or an unsupported extension. A PDF's or a
      text file's result is the reader's text with only its outer whitespace removed,
      and is empty exactly when that text is all whitespace. A DOCX result is the
      non-blank paragraphs joined by newlines, empty exactly when every paragraph is blank. */
  function ExtractText(path: string, docxAvailable: bool, files: Files): (r: string)
    ensures ReaderFor(path, docxAvailable).None? ==> r == ""
    ensures ReaderFor(path, docxAvailable) == Some(PdfReader) ==>
              var text := JoinPages(files.pdfPages(path));
              && Trimmed(r) && StripsTo(text, LeadCount(text), r)
              && (r == "" <==> forall i :: 0 <= i < |files.pdfPages(path)| ==> AllSpace(files.pdfPages(path)[i]))
    ensures ReaderFor(path, docxAvailable) == Some(TextReader) ==>
              var text := files.textContents(path);
              Trimmed(r) && StripsTo(text, LeadCount(text), r) && (r == "" <==> AllSpace(text))
    ensures ReaderFor(path, docxAvailable) == Some(DocxReader) ==>
              (r == "" <==> forall p :: p in files.docxParagraphs(path) ==> Strip(p) == "")
  {
    match ReaderFor(path, docxAvailable)
    case None => ""
    case Some(PdfReader) =>
      var text := JoinPages(files.pdfPages(path));
      StripEmptyIffAllSpace(text);
      Strip(text)
    case Some(DocxReader) =>
      var kept := NonBlank(files.docxParagraphs(path));
      assert forall i :: 0 <= i < |kept| ==> kept[i] != "";
      assert |kept| == 0 <==> forall p :: p in files.docxParagraphs(path) ==> Strip(p) == "" by {
        if |kept| > 0 { assert kept[0] in kept; }
      }
      JoinLines(kept)
    case Some(TextReader) =>
      StripEmptyIffAllSpace(files.textContents(path));
      Strip(files.textContents(path))
  }

  /** Lower-casing keeps every '/' and '.' where it was. */
  lemma {:induction false} LastIndexOfIgnoresCase(p: string, q: string, c: char)
    requires c == '/' || c == '.'
    requires Lower(p) == Lower(q)
    ensures LastIndexOf(p, c) == LastIndexOf(q, c)
  {
    if |p| > 0 {
      var n := |p| - 1;
      assert LowerChar(p[n]) == Lower(p)[n] == Lower(q)[n] == LowerChar(q[n]);
      assert p[n] == c <==> q[n] == c;
      var p', q' := p[..n], q[..n];
      assert forall i :: 0 <= i < n ==> Lower(p')[i] == Lower(p)[i] && Lower(q')[i] == Lower(q)[i];
      assert Lower(p') == Lower(q');
      LastIndexOfIgnoresCase(p', q', c);
    }
  }

  lemma LowerSlice(p: string, q: string, k: nat)
    requires Lower(p) == Lower(q) && k <= |p|
    ensures Lower(p[k..]) == Lower(q[k..])
  {
    assert forall i :: 0 <= i < |p| - k ==> Lower(p[k..])[i] == Lower(p)[k + i];
    assert forall i :: 0 <= i < |q| - k ==> Lower(q[k..])[i] == Lower(q)[k + i];
  }

  lemma NonDotIgnoresCase(p: string, q: string, lo: int, hi: int)
    requires Lower(p) == Lower(q) && 0 <= lo && hi <= |p|
    ensures HasNonDot(p, lo, hi) <==> HasNonDot(q, lo, hi)
  {
    forall j | lo <= j < hi ensures p[j] == '.' <==> q[j] == '.' {
      assert LowerChar(p[j]) == Lower(p)[j] == Lower(q)[j] == LowerChar(q[j]);
    }
  }

  /** Lower-casing a path lower-cases its extension and changes nothing else about it. */
  lemma ExtensionIgnoresCase(p: string, q: string)
    requires Lower(p) == Lower(q)
    ensures Lower(Extension(p)) == Lower(Extension(q))
  {
    LastIndexOfIgnoresCase(p, q, '/');
    LastIndexOfIgnoresCase(p, q, '.');
    var sep := LastIndexOf(p, '/');
    var dot := LastIndexOf(p, '.');
    if dot > sep {
      NonDotIgnoresCase(p, q, sep + 1, dot);
      LowerSlice(p, q, dot);
    }
  }

  /** The extension is compared after lower-casing, so paths that differ only in
      letter case (".PDF" and ".pdf") get the same reader. */
  lemma ReaderIgnoresCase(p: string, q: string, docxAvailable: bool)
    requires Lower(p) == Lower(q)
    ensures ReaderFor(p, docxAvailable) == ReaderFor(q, docxAvailable)
  {
    ExtensionIgnoresCase(p, q);
  }

  /** An upper-case ".PDF" reads as a PDF. */
  lemma UpperCasePdf(docxAvailable: bool)
    ensures ReaderFor("Spec.PDF", docxAvailable) == Some(PdfReader)
  {
    PdfExtension();
    assert Lower(".PDF") == ".pdf";
  }

  lemma PdfExtension()
    ensures Extension("Spec.PDF") == ".PDF"
  {
    var spec := "Spec.PDF";
    assert '/' !in spec;
    assert spec[4] == '.' && spec[5] != '.' && spec[6] != '.' && spec[7] != '.';
    assert spec[0] != '.';
  }

  lemma DocxExtension()
    ensures Extension("brief.docx") == ".docx"
  {
    var brief := "brief.docx";
    assert '/' !in brief;
    assert brief[5] == '.' && brief[6] != '.' && brief[7] != '.' && brief[8] != '.' && brief[9] != '.';
    assert brief[0] != '.';
  }

  /** ".docx" has a reader only when python-docx is available. */
  lemma DocxNeedsLibrary()
    ensures ReaderFor("brief.docx", true) == Some(DocxReader)
    ensures ReaderFor("brief.docx", false) == None
  {
    DocxExtension();
    assert Lower(".docx") == ".docx";
  }

  /** Only the last suffix is the extension. */
  lemma LastSuffixCounts(docxAvailable: bool)
    ensures ReaderFor("notes.v2.md", docxAvailable) == Some(TextReader)
  {
    var notes := "notes.v2.md";
    assert LastIndexOf(notes, '.') == 8;
    assert '/' !in notes;
    assert notes[0] != '.';
    assert Extension(notes) == ".md";
  }

  /** A file name that is a leading dot and a suffix (".md") has no extension,
      so it gets no reader. */
  lemma HiddenFileHasNoReader(docxAvailable: bool)
    ensures ReaderFor("docs/.md", docxAvailable) == None
  {
    var hidden := "docs/.md";
    assert LastIndexOf(hidden, '.') == 5;
    assert LastIndexOf(hidden, '/') == 4 by {
      assert LastIndexOf(hidden[..5], '/') == 4;
      assert LastIndexOf(hidden[..6], '/') == 4;
      assert LastIndexOf(hidden[..7], '/') == 4;
    }
    assert !HasNonDot(hidden, 5, 5);
    assert Extension(hidden) == "";
  }

  /** A dot in a directory name is not an extension. */
  lemma DirectoryDotIgnored(docxAvailable: bool)
    ensures ReaderFor("v1.txt/readme", docxAvailable) == None
  {
    assert Extension("v1.txt/readme") == "";
  }
}
