/**
 * PDF batch extraction and its validation (core/pdf_loader.py).
 *
 * Parsing a PDF is left to the library; what the model keeps is what the
 * loop does with the outcome. Each uploaded file is described by the texts
 * its pages yield before the library raises (all of its pages when it never
 * raises) and by whether it raises at all.
 */
module PdfLoader {
  import opened Outcomes
  import opened Text

  /**
   * One uploaded file: its name, the text `extract_text` returns for each
   * page read before an exception (an exception while opening the file
   * leaves this empty), and whether an exception was raised.
   */
  datatype PdfFile = PdfFile(name: string, pages: seq<string>, failed: bool)

  /**
   * The text of some pages, one after the other (an empty page adds
   * nothing, so skipping it as the source does is the same)
   */
  function PagesText(pages: seq<string>): string {
    if pages == [] then [] else PagesText(pages[..|pages| - 1]) + pages[|pages| - 1]
  }

  /** The text of all files, in file order and, within a file, in page order */
  function FilesText(files: seq<PdfFile>): string {
    if files == [] then []
    else FilesText(files[..|files| - 1]) + PagesText(files[|files| - 1].pages)
  }

  /** The text of some pages is whitespace-only exactly when every page is */
  lemma {:induction false} PagesTextBlank(pages: seq<string>)
    ensures IsBlank(PagesText(pages)) <==> forall i | 0 <= i < |pages| :: IsBlank(pages[i])
  {
    if pages != [] {
      var front, last := pages[..|pages| - 1], pages[|pages| - 1];
      PagesTextBlank(front);
      BlankConcat(PagesText(front), last);
      assert forall i | 0 <= i < |front| :: front[i] == pages[i];
    }
  }

  /** The text of a batch is whitespace-only exactly when every file's pages are */
  lemma {:induction false} FilesTextBlank(files: seq<PdfFile>)
    ensures IsBlank(FilesText(files)) <==>
            forall i, j | 0 <= i < |files| && 0 <= j < |files[i].pages| :: IsBlank(files[i].pages[j])
  {
    if files != [] {
      var front, last := files[..|files| - 1], files[|files| - 1];
      FilesTextBlank(front);
      PagesTextBlank(last.pages);
      BlankConcat(FilesText(front), PagesText(last.pages));
      assert forall i | 0 <= i < |front| :: front[i] == files[i];
    }
  }

  /** The names of the files that raised, in file order */
  function SkippedNames(files: seq<PdfFile>): (r: seq<string>)
    ensures |r| <= |files|
  {
    if files == [] then []
    else
      var last := files[|files| - 1];
      SkippedNames(files[..|files| - 1]) + (if last.failed then [last.name] else [])
  }

  /** No name is listed exactly when no file raised */
  lemma {:induction false} NoneSkippedIffNoneFailed(files: seq<PdfFile>)
    ensures SkippedNames(files) == [] <==> forall i | 0 <= i < |files| :: !files[i].failed
  {
    if files != [] {
      var front := files[..|files| - 1];
      NoneSkippedIffNoneFailed(front);
      assert forall i | 0 <= i < |front| :: front[i] == files[i];
    }
  }

  /**
   * extract_text_from_pdfs: the concatenated text of every page read and the
   * names of the files that raised. Text gathered from a file before it
   * raised is kept.
   */
  method ExtractTextFromPdfs(files: seq<PdfFile>) returns (text: string, skipped: seq<string>)
    ensures text == FilesText(files)
    ensures skipped == SkippedNames(files)
  {
    text := "";
    skipped := [];
    for i := 0 to |files|
      invariant text == FilesText(files[..i])
      invariant skipped == SkippedNames(files[..i])
    {
      var pdf := files[i];
      for j := 0 to |pdf.pages|
        invariant text == FilesText(files[..i]) + PagesText(pdf.pages[..j])
      {
        var extracted := pdf.pages[j];
        if extracted != "" {
          text := text + extracted;
        }
        assert pdf.pages[..j + 1][..j] == pdf.pages[..j];
      }
      assert pdf.pages[..|pdf.pages|] == pdf.pages;
      if pdf.failed {
        skipped := skipped + [pdf.name];
      }
      assert files[..i + 1][..i] == files[..i];
    }
    assert files[..|files|] == files;
  }

  lemma {:induction false} FilesTextAppend(a: seq<PdfFile>, b: seq<PdfFile>)
    ensures FilesText(a + b) == FilesText(a) + FilesText(b)
  {
    if b == [] {
      assert a + b == a;
    } else {
      var front, last := b[..|b| - 1], b[|b| - 1];
      assert (a + b)[..|a + b| - 1] == a + front;
      assert (a + b)[|a + b| - 1] == last;
      assert FilesText(b) == FilesText(front) + PagesText(last.pages);
      calc {
        FilesText(a + b);
        FilesText(a + front) + PagesText(last.pages);
        { FilesTextAppend(a, front); }
        FilesText(a) + FilesText(front) + PagesText(last.pages);
        FilesText(a) + FilesText(b);
      }
    }
  }

  lemma {:induction false} SkippedNamesAppend(a: seq<PdfFile>, b: seq<PdfFile>)
    ensures SkippedNames(a + b) == SkippedNames(a) + SkippedNames(b)
  {
    if b == [] {
      assert a + b == a;
    } else {
      var front, last := b[..|b| - 1], b[|b| - 1];
      var own := if last.failed then [last.name] else [];
      assert (a + b)[..|a + b| - 1] == a + front;
      assert (a + b)[|a + b| - 1] == last;
      assert SkippedNames(b) == SkippedNames(front) + own;
      calc {
        SkippedNames(a + b);
        SkippedNames(a + front) + own;
        { SkippedNamesAppend(a, front); }
        SkippedNames(a) + SkippedNames(front) + own;
        SkippedNames(a) + SkippedNames(b);
      }
    }
  }

  /**
   * What one file contributes, wherever it sits in the batch: all the text it
   * yielded, whether or not it then raised, and its name in the skipped list
   * exactly when it raised. The files before and after it are unaffected.
   */
  lemma FileContribution(before: seq<PdfFile>, f: PdfFile, after: seq<PdfFile>)
    ensures FilesText(before + [f] + after) == FilesText(before) + PagesText(f.pages) + FilesText(after)
    ensures SkippedNames(before + [f] + after)
         == SkippedNames(before) + (if f.failed then [f.name] else []) + SkippedNames(after)
  {
    FilesTextAppend(before + [f], after);
    SkippedNamesAppend(before + [f], after);
    assert (before + [f])[..|before|] == before;
  }

  /** A batch in which every file raised before yielding any text gives no text and lists every file */
  lemma {:induction false} AllFailedBatch(files: seq<PdfFile>)
    requires forall i | 0 <= i < |files| :: files[i].failed && files[i].pages == []
    ensures FilesText(files) == []
    ensures |SkippedNames(files)| == |files|
    ensures forall i | 0 <= i < |files| :: SkippedNames(files)[i] == files[i].name
  {
    if files != [] {
      AllFailedBatch(files[..|files| - 1]);
    }
  }

  /** The outcome of validate_extracted_text */
  datatype Validation = Validation(success: bool, warning: Option<string>, error: Option<string>)

  const NoReadableText := "No readable text found in the uploaded PDFs."

  /**
   * The warning listing the skipped files: after "Skipped " comes the
   * decimal count, which reads back as the number of names, then the
   * fixed phrase and the names joined by ", ".
   */
  function SkippedWarning(skipped: seq<string>): (r: string)
    ensures "Skipped " <= r
    ensures var n := |Decimal(|skipped|)|;
            && 8 + n <= |r|
            && r[8..8 + n] == Decimal(|skipped|)
            && ParseDecimal(r[8..8 + n]) == |skipped|
            && r[8 + n..] == " file(s) due to read errors: " + Join(skipped, ", ")
  {
    var count := Decimal(|skipped|);
    DecimalRoundTrip(|skipped|);
    var head, rest := "Skipped " + count, " file(s) due to read errors: " + Join(skipped, ", ");
    assert |"Skipped "| == 8 && head[8..] == count;
    assert (head + rest)[..|head|] == head && (head + rest)[|head|..] == rest;
    head + rest
  }

  /**
   * validate_extracted_text: a warning exactly when some file was skipped,
   * an error exactly when the text has no non-whitespace character, and
   * success exactly when there is no error.
   */
  function ValidateExtractedText(text: string, skipped: seq<string>): (r: Validation)
    ensures r.warning.None? <==> skipped == []
    ensures r.warning.Some? ==> r.warning.value == SkippedWarning(skipped)
    ensures r.error.Some? <==> IsBlank(text)
    ensures r.error.Some? ==> r.error.value == NoReadableText
    ensures r.success <==> !IsBlank(text)
  {
    var warning := if skipped != [] then Some(SkippedWarning(skipped)) else None;
    // `not text.strip()`, which is IsBlank(text) by StripEmptyIffBlank
    if IsBlank(text) then Validation(false, warning, Some(NoReadableText))
    else Validation(true, warning, None)
  }
}
