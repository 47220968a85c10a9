# RAG chatbot core in Dafny

A model of the deterministic core of a retrieval-augmented chatbot built on
Streamlit, LangChain, FAISS and sqlite. The model covers:

- **Conversation history for the prompt** (`core/chat_service.py`,
  `format_conversation_history`). The last `2 * max_messages` messages are
  kept with Python slice semantics, each is labelled `User:` or `Assistant:`,
  and the lines are joined with newlines. An empty list gives the sentinel
  `"No previous conversation."`.
- **Document ingestion** (`process_documents`). PDF text extraction and its
  validation, the optional free text, and the whitespace check are combined
  into a `{success, warning, error}` record. On success the combined text is
  chunked and indexed exactly once.
- **Question answering** (`process_user_question`). The pipeline runs
  similarity search, then history rendering, then the language-model chain.
  When it gets an answer it appends two messages to the log: the user's
  question, then the assistant's answer.
- **PDF batch extraction** (`core/pdf_loader.py`). Each uploaded file is
  abstracted as its name, the page texts it yielded before any failure, and
  whether it raised. Validation is a pure classifier that builds the warning
  and error strings.
- **The message log** (`core/database.py`). The sqlite table `messages` is a
  class holding a sequence of rows and the AUTOINCREMENT counter. Saving
  appends a row, reading returns the most recent rows oldest-first, and
  clearing empties the table without resetting the counter.

Files:

- `outcomes.dfy`: `Option` and `Result`.
- `text.dfy`: the Python string operations the core calls: `strip` (with
  Python's whitespace set), `join` and `str(n)`. It also holds their
  inverses, `Split` and `ParseDecimal`, which only the round-trip lemmas use.
- `pdf_loader.dfy`, `database.dfy`, `chat_service.dfy`: the three core files.
- `vector_index.dfy`: the saved FAISS index, reduced to "present or not".
  Ranking is an abstract function.

Modelling choices:

- The window slice `conversation_list[-(max_messages * 2):]` is modelled
  exactly for every integer. A value of 0 keeps the whole list (`[-0:]`), and
  a negative value drops leading messages. There is no precondition, even
  though the UI clamps the value to 1..20 (`app.py:164-170`).
- `None` and `""` for the free text are one value (`""`), and `None` and `[]`
  for the uploaded files are one value (`[]`). The source only tests their
  truthiness.
- `not x.strip()` is written as `IsBlank(x)`, meaning every character
  satisfies Python's `str.isspace`. `Text.StripEmptyIffBlank` proves the two
  equivalent, with `Strip` defined as Python's `strip()`.
- Each of the three key steps is an abstract function parameter: the chunker
  (`split_text_into_chunks`), the similarity ranking, and the language-model
  chain (`chain.invoke`). The chain may fail with a message.
- `ORDER BY timestamp DESC` is read as "newest inserted first". This is an
  assumption. `CURRENT_TIMESTAMP` has one-second resolution, so the source
  leaves the order of rows saved in the same second unspecified.

## Model

| member | source | states |
|---|---|---|
| Text.StripEmptyIffBlank | core/pdf_loader.py:63 | `Strip` models `str.strip()` and `IsSpace` models `str.isspace` with Python's whitespace set. `Strip(s)` is empty exactly when every character of `s` satisfies `IsSpace`. This justifies writing `not text.strip()` as `IsBlank(text)`. |
| Text.TrimLeft | core/pdf_loader.py:63 | The result is a suffix of the input. Every dropped character is whitespace, and the result does not start with whitespace. |
| Text.TrimRight | core/pdf_loader.py:63 | The result is a prefix of the input. Every dropped character is whitespace, and the result does not end with whitespace. |
| Text.BlankConcat | core/chat_service.py:112-119 | A concatenation is whitespace-only exactly when both parts are. |
| Text.Join | core/chat_service.py:30 | `sep.join(xs)` of a non-empty list starts with its first element, so there is no leading separator. |
| Text.Split | core/chat_service.py:30 | Splitting on a character gives at least one piece, and no piece contains that character. |
| Text.SplitJoin | core/chat_service.py:30 | Joining lines that have no newline with `"\n"` and splitting the result on newlines gives back exactly those lines. |
| Text.Decimal | core/pdf_loader.py:59 | `str(n)` of a count is a non-empty string of decimal digits with no leading zero. |
| Text.DecimalRoundTrip | core/pdf_loader.py:59 | Reading the rendered count back gives the count. |
| PdfLoader.PagesTextBlank | core/pdf_loader.py:27-30 | The text accumulated from a file's pages is whitespace-only exactly when every page read is. |
| PdfLoader.FilesTextBlank | core/pdf_loader.py:17-30 | The text accumulated from a batch is whitespace-only exactly when every page read from every file is. |
| PdfLoader.SkippedNames | core/pdf_loader.py:32-36 | There is at most one skipped name per uploaded file. |
| PdfLoader.NoneSkippedIffNoneFailed | core/pdf_loader.py:18-36 | No name is listed exactly when no file raised. |
| PdfLoader.ExtractTextFromPdfs | core/pdf_loader.py:7-38 | The nested loop returns the non-empty page texts concatenated in file order, then page order, counting pages read before a failure. It also returns the names of the files that raised, in upload order. |
| PdfLoader.FilesTextAppend | core/pdf_loader.py:17-30 | The extracted text of two consecutive batches is the text of the first followed by the text of the second. |
| PdfLoader.SkippedNamesAppend | core/pdf_loader.py:18-36 | The skipped names of two consecutive batches are those of the first followed by those of the second. |
| PdfLoader.FileContribution | core/pdf_loader.py:20-36 | A file's pages reach the text whether or not the file later fails. Its name is listed exactly once if it failed, and not at all if it completed. |
| PdfLoader.AllFailedBatch | core/pdf_loader.py:20-38 | If every file fails before yielding a page, the text is empty and every name is listed, in order. |
| PdfLoader.SkippedWarning | core/pdf_loader.py:58-61 | The warning starts with "Skipped ". Then comes the count, which reads back as the number of skipped files, then " file(s) due to read errors: " and the names joined with ", ". |
| PdfLoader.ValidateExtractedText | core/pdf_loader.py:40-68 | The warning is absent exactly when no file was skipped. Otherwise it is "Skipped N file(s) due to read errors: " followed by the names joined with ", ". The error is "No readable text found in the uploaded PDFs." exactly when the text is whitespace-only. Success holds exactly when it is not. |
| Database.Reverse | core/database.py:73 | `messages[::-1]` has the same length as its input, and element i is the input's element at the mirrored position. |
| Database.Limited | core/database.py:62-64 | The LIMIT clause keeps a prefix of the newest-first listing. A positive limit n keeps min(n, count) rows. None or 0 (no clause) keeps every row, and so does a negative limit, as SQLite reads it. |
| Database.Recent | core/database.py:49-73 | The read is a suffix of the log in chronological order. A positive limit n gives min(n, count) messages. No limit, 0 or a negative limit gives the whole log. |
| Database.ReverseOfNewestPrefix | core/database.py:62-73 | Reversing the first k rows of the newest-first listing gives the last k rows, oldest first. |
| Database.MessageStore.constructor | core/database.py:8-15 | A fresh database has no table and no rows, and its id counter starts at 1. |
| Database.MessageStore.InitializeDatabase | core/database.py:17-28 | `CREATE TABLE IF NOT EXISTS` leaves the table present and never alters or removes a row or the id counter. |
| Database.MessageStore.SaveMessage | core/database.py:30-47 | Exactly one row is appended, holding the role and content verbatim, and earlier rows are unchanged. Its id was never issued before and is greater than every id before it. The ids stay strictly increasing. |
| Database.MessageStore.GetConversationHistory | core/database.py:49-73 | Returns `Recent(rows, limit)` and changes neither the rows nor the id counter. |
| Database.MessageStore.ClearHistory | core/database.py:75-81 | Every row is removed. The counter and the set of issued ids are kept, so ids are never reused after a clear. |
| Database.SaveReadClearScenario | core/database.py:30-81 | After two saves, a read with limit 1 gives the answer alone and a read without a limit gives both messages in order. After a clear, a read gives nothing, and the next save gets id 3. |
| VectorIndex.Search | core/vector_store.py:28-66 | Search fails with NotFound exactly when no index has been saved. Otherwise it returns the ranking of the saved chunks for the query with k = 4. |
| VectorIndex.Store.Build | core/vector_store.py:9-26 | Saves the index of exactly the given chunks and records one more build. |
| ChatService.SliceFrom | core/chat_service.py:23 | Python `s[start:]` is a suffix whose length follows the clamping rules for non-negative and negative starts. |
| ChatService.Window | core/chat_service.py:22-23 | The kept messages are a suffix of the list in original order. A positive max_messages keeps min(2 * max_messages, len) of them, 0 keeps the whole list, and a negative value drops 2 * abs(max_messages) leading messages. |
| ChatService.Render | core/chat_service.py:27-28 | A line starts with "User: " exactly when the role is "user", and with "Assistant: " for any other role. It ends with the content verbatim, and nothing but the label and ": " comes before the content. |
| ChatService.RenderAll | core/chat_service.py:25-28 | The `formatted.append` loop gives one line per message, in order, each the rendering of that message. |
| ChatService.FormatHistory | core/chat_service.py:8-30 | The result is the sentinel exactly for an empty list. It is empty exactly when the window is empty, and otherwise it starts with the first kept message's line. |
| ChatService.RenderParse | core/chat_service.py:26-28 | A rendered line starts "User: " exactly for the role "user", and "Assistant: " for every other role. It carries the content verbatim. |
| ChatService.RenderKeepsLine | core/chat_service.py:26-28 | The label adds no newline to a message. |
| ChatService.ParseRenderAll | core/chat_service.py:25-28 | Reading back the rendered lines of a message list gives every message, in order, with its role as labelled. |
| ChatService.FormatHistoryRoundTrip | core/chat_service.py:19-30 | When no message contains a newline, reading back the formatted history gives exactly the window's messages in order. Nothing is dropped, added, reordered or altered. |
| ChatService.CombinedText | core/chat_service.py:98-116 | `raw_text` starts with the PDF text. With `"\n" + text_input` appended it is whitespace-only exactly when both the PDF text and the free text are. |
| ChatService.DocumentsWarning | core/chat_service.py:101-106 | The reported warning is absent exactly when no uploaded file raised. Otherwise it is the validation warning over the skipped names. |
| ChatService.ProcessDocuments | core/chat_service.py:77-128 | Success holds exactly when the PDF text or the free text has a non-whitespace character. The skip warning is kept on every path. On failure the error is the PDF validation error if PDFs were given without free text, and "Please provide either PDF files or text input." otherwise, and the index is untouched. On success the combined text is chunked and indexed exactly once. |
| ChatService.AllPdfsFailedButTextGiven | core/chat_service.py:101-121 | If every PDF fails but non-blank free text is given, the combined text is that text after a newline and it is not blank. The warning lists every file. |
| ChatService.Answer | core/chat_service.py:47-69 | A question fails with "index not found" exactly when no index has been saved. When an index exists, the chain is called with the top 4 chunks, the history rendered with max_history (None as empty) and the question. Its answer is returned as the result, and its failure is returned as SynthesisFailed with the chain's message. |
| ChatService.ProcessUserQuestion | core/chat_service.py:32-75 | The result is search, then formatting of the history (None counts as empty) with max_history, then the chain. On an answer, ("user", question) and then ("assistant", answer) are appended as two new rows with the next two ids, and the counter advances by 2. If search or the chain fails, the log is unchanged. |

## Left out

- Chunking (`core/text_splitter.py`) is an abstract function `string -> seq<string>`. Its chunk size and overlap live in a library.
- Embeddings and FAISS similarity are floating-point numerics, so ranking is an abstract function. Only the "no index saved" failure (`core/vector_store.py:40-43`) is modelled. The lazy singletons are not modelled.
- The language-model chain (`core/llm_chain.py`) is an opaque function that returns an answer or an error message. The prompt text and the Groq model are not modelled.
- Environment and configuration lookup (`core/config.py`) is I/O.
- Filesystem and connection handling are not modelled: `os.makedirs`, sqlite connect/commit/close, and the storage path.
- pypdf parsing is not modelled. A file is given by the page texts it yields and whether it raises. `PdfStreamError` and other exceptions are handled identically in the source, so they are one flag.
- Timestamps are not stored. Read order is insertion order, an assumption about `ORDER BY timestamp DESC` at one-second resolution rather than a proved fact.
- Concurrent writers to the database file are not modelled.
- Streamlit pages and session state (`app.py`, `Pages/`) are not modelled, nor is the test script under `tests/`.
- ChatService.ProcessDocuments: the chunker and the index build are assumed to return. In the source either can raise, for example when the embedding model fails to load. The exception then leaves process_documents without a result record. `create_vector_store` creates the index directory before embedding (`core/vector_store.py:17`), so after a failed build the existence check at `core/vector_store.py:40` passes and the next search fails inside `FAISS.load_local` rather than with "index not found". The model has no such "directory but no index" state.
- VectorIndex.Search: "NotFound exactly when no index has been saved" relies on the build never failing, as in the line above.
- ChatService.FormatHistoryRoundTrip: requires every message to be a single line. A newline inside a content makes the rendered text ambiguous to read back, in the source as well.
- ChatService.ProcessUserQuestion: exceptions are results. The source propagates them to its caller, so no message is saved in either case.
