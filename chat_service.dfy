/**
 * The chat workflow (core/chat_service.py): rendering the recent
 * conversation for the prompt, the document ingestion decision, and the
 * question pipeline that ends with two saved messages.
 *
 * The chunker and the language-model chain are libraries; they are
 * parameters here (`split`, `invoke`), as is similarity ranking.
 */
module ChatService {
  import opened Outcomes
  import opened Text
  import opened Database
  import opened PdfLoader
  import VectorIndex

  // ---------------------------------------------------------------------
  // format_conversation_history
  // ---------------------------------------------------------------------

  const NoHistory := "No previous conversation."

  /** Python's `s[start:]`: a negative start counts from the end, and both kinds are clamped to the list */
  function SliceFrom<T>(s: seq<T>, start: int): (r: seq<T>)
    ensures |r| <= |s| && r == s[|s| - |r|..]
    ensures start >= 0 ==> |r| == if start < |s| then |s| - start else 0
    ensures start < 0 ==> |r| == if -start < |s| then -start else |s|
  {
    var b := if start < 0 then (if |s| + start < 0 then 0 else |s| + start)
             else (if start > |s| then |s| else start);
    s[b..]
  }

  /**
   * The messages kept for the prompt:
   * `conversation_list[-(max_messages * 2):]` when the list is longer than
   * `max_messages * 2`, the whole list otherwise. With a positive
   * max_messages this is the last `2 * max_messages` messages; with 0 the
   * slice `[-0:]` keeps everything; a negative value drops that many
   * leading pairs.
   */
  function Window(msgs: seq<Msg>, maxMessages: int): (r: seq<Msg>)
    ensures |r| <= |msgs| && r == msgs[|msgs| - |r|..]
    ensures maxMessages > 0 ==> |r| == if 2 * maxMessages < |msgs| then 2 * maxMessages else |msgs|
    ensures maxMessages == 0 ==> r == msgs
    ensures maxMessages < 0 ==> |r| == if |msgs| + 2 * maxMessages > 0 then |msgs| + 2 * maxMessages else 0
  {
    if |msgs| > maxMessages * 2 then SliceFrom(msgs, -(maxMessages * 2)) else msgs
  }

  /** One line of the rendered history: "User" for the role "user", "Assistant" for any other role */
  function Render(m: Msg): (r: string)
    ensures "User: " <= r <==> m.role == "user"
    ensures m.role != "user" ==> "Assistant: " <= r
    ensures |m.content| <= |r| && r[|r| - |m.content|..] == m.content
    ensures |r| == (if m.role == "user" then 6 else 11) + |m.content|
  {
    var tag := (if m.role == "user" then "User" else "Assistant") + ": ";
    assert tag[0] == (if m.role == "user" then 'U' else 'A');
    assert (tag + m.content)[..|tag|] == tag;
    tag + m.content
  }

  function RenderAll(msgs: seq<Msg>): (r: seq<string>)
    ensures |r| == |msgs| && forall i | 0 <= i < |msgs| :: r[i] == Render(msgs[i])
  {
    if msgs == [] then [] else [Render(msgs[0])] + RenderAll(msgs[1..])
  }

  /**
   * format_conversation_history: the sentinel exactly for an empty list;
   * otherwise the rendered lines of the window joined by newlines, which is
   * empty only when a negative max_messages leaves no message in the window.
   */
  function FormatHistory(msgs: seq<Msg>, maxMessages: int): (r: string)
    ensures r == NoHistory <==> msgs == []
    ensures r == [] <==> msgs != [] && Window(msgs, maxMessages) == []
    ensures msgs != [] && Window(msgs, maxMessages) != [] ==> Render(Window(msgs, maxMessages)[0]) <= r
  {
    if msgs == [] then NoHistory
    else
      var lines := RenderAll(Window(msgs, maxMessages));
      assert lines != [] ==> lines[0][0] == 'U' || lines[0][0] == 'A';
      Join(lines, "\n")
  }

  /** Reads one rendered line back */
  function ParseLine(line: string): Option<Msg> {
    if "User: " <= line then Some(Msg("user", line[6..]))
    else if "Assistant: " <= line then Some(Msg("assistant", line[11..]))
    else None
  }

  function ParseLines(lines: seq<string>): Option<seq<Msg>> {
    if lines == [] then Some([])
    else
      var first, rest := ParseLine(lines[0]), ParseLines(lines[1..]);
      if first.Some? && rest.Some? then Some([first.value] + rest.value) else None
  }

  /** Reads a rendered history back, one message per line */
  function ParseHistory(text: string): Option<seq<Msg>> {
    ParseLines(Split(text, '\n'))
  }

  /** The message as its rendered line labels it: any role other than "user" reads as "assistant" */
  function AsLabelled(m: Msg): Msg {
    Msg(if m.role == "user" then "user" else "assistant", m.content)
  }

  function AsLabelledAll(msgs: seq<Msg>): seq<Msg> {
    if msgs == [] then [] else [AsLabelled(msgs[0])] + AsLabelledAll(msgs[1..])
  }

  /** A rendered line starts with "User: " exactly for the role "user", and carries the content verbatim */
  lemma {:induction false} RenderParse(m: Msg)
    ensures ParseLine(Render(m)) == Some(AsLabelled(m))
  {
    if m.role == "user" {
      assert Render(m) == "User: " + m.content;
    } else {
      assert Render(m) == "Assistant: " + m.content;
      assert Render(m)[..6] != "User: " by { assert Render(m)[0] == 'A'; }
    }
  }

  /** The label adds no newline, so a single-line message renders as a single line */
  lemma RenderKeepsLine(m: Msg)
    requires '\n' !in m.content
    ensures '\n' !in Render(m)
  {
    var roleName := if m.role == "user" then "User" else "Assistant";
    assert '\n' !in roleName + ": ";
    assert Render(m) == (roleName + ": ") + m.content;
  }

  lemma {:induction false} ParseRenderAll(msgs: seq<Msg>)
    ensures ParseLines(RenderAll(msgs)) == Some(AsLabelledAll(msgs))
  {
    if msgs != [] {
      var lines := RenderAll(msgs);
      ParseRenderAll(msgs[1..]);
      RenderParse(msgs[0]);
      assert lines[1..] == RenderAll(msgs[1..]);
    }
  }

  /**
   * When no message contains a newline, the rendered history reads back as
   * exactly the messages of the window, in their order, labelled "user" or
   * "assistant": nothing is dropped, added, reordered or altered.
   */
  lemma {:induction false} FormatHistoryRoundTrip(msgs: seq<Msg>, maxMessages: int)
    requires Window(msgs, maxMessages) != []
    requires forall i | 0 <= i < |msgs| :: '\n' !in msgs[i].content
    ensures ParseHistory(FormatHistory(msgs, maxMessages)) == Some(AsLabelledAll(Window(msgs, maxMessages)))
  {
    var w := Window(msgs, maxMessages);
    var lines := RenderAll(w);
    assert FormatHistory(msgs, maxMessages) == Join(lines, ['\n']);
    forall i | 0 <= i < |lines|
      ensures '\n' !in lines[i]
    {
      assert w[i] == msgs[|msgs| - |w| + i];
      RenderKeepsLine(w[i]);
    }
    SplitJoin(lines, '\n');
    ParseRenderAll(w);
  }

  // ---------------------------------------------------------------------
  // process_documents
  // ---------------------------------------------------------------------

  /** The status record process_documents returns */
  datatype DocResult = DocResult(success: bool, warning: Option<string>, error: Option<string>)

  const NoInputError := "Please provide either PDF files or text input."

  /** The chunker: raw text to chunks (`split_text_into_chunks`, a library splitter) */
  type Chunker = string -> seq<string>

  /**
   * The text handed to the chunker: the PDF text, then a newline and the
   * free text when there is some. It is whitespace-only exactly when both
   * the PDF text and the free text are.
   */
  function CombinedText(files: seq<PdfFile>, textInput: string): (r: string)
    ensures FilesText(files) <= r
    ensures IsBlank(r) <==> IsBlank(FilesText(files)) && IsBlank(textInput)
  {
    var tail := if textInput != "" then "\n" + textInput else "";
    BlankConcat(FilesText(files), tail);
    BlankConcat("\n", textInput);
    FilesText(files) + tail
  }

  /**
   * The warning process_documents reports: none when no file raised (an
   * empty upload included), otherwise the validation warning.
   */
  function DocumentsWarning(files: seq<PdfFile>): (r: Option<string>)
    ensures r.None? <==> forall i | 0 <= i < |files| :: !files[i].failed
    ensures r.Some? ==> r.value == SkippedWarning(SkippedNames(files))
  {
    NoneSkippedIffNoneFailed(files);
    if SkippedNames(files) != [] then Some(SkippedWarning(SkippedNames(files))) else None
  }

  /**
   * process_documents. `files == []` stands for both None and an empty
   * upload list, `textInput == ""` for both None and empty text: the source
   * only tests their truthiness. It succeeds exactly when the combined text
   * has a non-whitespace character, and then indexes the chunks of that
   * text once. On failure the error is the PDF validation error when there
   * was no free text to fall back on, and the generic one otherwise; the
   * index is then left as it was. The skip warning is reported either way.
   */
  method ProcessDocuments(files: seq<PdfFile>, textInput: string, split: Chunker, store: VectorIndex.Store)
    returns (result: DocResult)
    modifies store
    ensures result.success <==> !IsBlank(FilesText(files)) || !IsBlank(textInput)
    ensures result.warning == DocumentsWarning(files)
    ensures result.error == if result.success then None
                            else if files != [] && textInput == "" then Some(NoReadableText)
                            else Some(NoInputError)
    ensures result.success ==>
              && store.index == Some(split(CombinedText(files, textInput)))
              && store.builds == old(store.builds) + [split(CombinedText(files, textInput))]
    ensures !result.success ==> store.index == old(store.index) && store.builds == old(store.builds)
  {
    result := DocResult(false, None, None);
    var rawText := "";

    if files != [] {
      var pdfText, skipped := ExtractTextFromPdfs(files);
      var validation := ValidateExtractedText(pdfText, skipped);

      if validation.warning.Some? {
        result := result.(warning := validation.warning);
      }
      assert result.warning == DocumentsWarning(files);

      if validation.error.Some? && textInput == "" {
        result := result.(error := validation.error);
        assert IsBlank(FilesText(files)) && IsBlank(textInput);
        return;
      }

      rawText := rawText + pdfText;
    }
    assert result == DocResult(false, DocumentsWarning(files), None);

    if textInput != "" {
      rawText := rawText + "\n" + textInput;
    }
    assert rawText == CombinedText(files, textInput);

    // `not raw_text.strip()`, which is IsBlank(raw_text) by StripEmptyIffBlank
    if IsBlank(rawText) {
      assert files == [] || textInput != "";
      result := result.(error := Some(NoInputError));
      return;
    }

    var chunks := split(rawText);
    store.Build(chunks);
    result := result.(success := true);
  }

  /**
   * Every uploaded PDF raised before yielding text, but free text with some
   * non-whitespace was given: the batch succeeds, the warning names every
   * file in upload order, and the combined text is the free text after a
   * newline.
   */
  lemma {:induction false} AllPdfsFailedButTextGiven(files: seq<PdfFile>, textInput: string)
    requires files != []
    requires forall i | 0 <= i < |files| :: files[i].failed && files[i].pages == []
    requires !IsBlank(textInput)
    ensures !IsBlank(CombinedText(files, textInput))
    ensures CombinedText(files, textInput) == "\n" + textInput
    ensures DocumentsWarning(files).Some?
    ensures SkippedNames(files) == seq(|files|, i requires 0 <= i < |files| => files[i].name)
  {
    AllFailedBatch(files);
  }

  // ---------------------------------------------------------------------
  // process_user_question
  // ---------------------------------------------------------------------

  /** Why a question got no answer: no index saved yet, or the chain raised (with its message) */
  datatype QaError = IndexNotFound | SynthesisFailed(message: string)

  /** The language-model chain: (retrieved chunks, rendered history, question) to an answer or an error message */
  type Synthesizer = (seq<string>, string, string) -> Result<string, string>

  /**
   * The outcome of process_user_question: search, render the history
   * (None counts as an empty list) with max_history as the window, invoke
   * the chain.
   */
  function Answer(index: Option<seq<string>>, question: string, history: Option<seq<Msg>>, maxHistory: int,
                  rank: VectorIndex.Ranker, invoke: Synthesizer): (r: Result<string, QaError>)
    ensures r == Failure(IndexNotFound) <==> index.None?
    ensures r.Success? ==>
              && index.Some?
              && invoke(rank(index.value, question, VectorIndex.TopK), FormatHistory(history.GetOr([]), maxHistory), question)
                 == Success(r.value)
    ensures index.Some? ==>
              var reply := invoke(rank(index.value, question, VectorIndex.TopK), FormatHistory(history.GetOr([]), maxHistory), question);
              && (reply.Success? ==> r == Success(reply.value))
              && (reply.Failure? ==> r == Failure(SynthesisFailed(reply.error)))
  {
    match VectorIndex.Search(index, question, rank)
    case Failure(_) => Failure(IndexNotFound)
    case Success(docs) =>
      match invoke(docs, FormatHistory(history.GetOr([]), maxHistory), question)
      case Failure(e) => Failure(SynthesisFailed(e))
      case Success(answer) => Success(answer)
  }

  /**
   * process_user_question: on an answer, the question and then the answer
   * are appended to the log, as "user" and "assistant"; when the search or
   * the chain fails, the log is untouched.
   */
  method ProcessUserQuestion(question: string, history: Option<seq<Msg>>, maxHistory: int,
                             store: VectorIndex.Store, db: MessageStore,
                             rank: VectorIndex.Ranker, invoke: Synthesizer)
    returns (r: Result<string, QaError>)
    requires db.Valid()
    modifies db
    ensures db.Valid()
    ensures r == Answer(store.index, question, history, maxHistory, rank, invoke)
    ensures r.Success? ==> db.Messages() == old(db.Messages()) + [Msg("user", question), Msg("assistant", r.value)]
    ensures r.Success? ==>
              db.rows == old(db.rows) + [Row(old(db.nextId), "user", question), Row(old(db.nextId) + 1, "assistant", r.value)]
    ensures r.Success? ==> db.nextId == old(db.nextId) + 2
    ensures r.Failure? ==> unchanged(db)
  {
    var docs := VectorIndex.Search(store.index, question, rank);
    if docs.Failure? {
      return Failure(IndexNotFound);
    }

    var historyText := FormatHistory(history.GetOr([]), maxHistory);

    var response := invoke(docs.value, historyText, question);
    if response.Failure? {
      return Failure(SynthesisFailed(response.error));
    }
    var answer := response.value;

    db.SaveMessage("user", question);
    db.SaveMessage("assistant", answer);
    r := Success(answer);
  }
}
