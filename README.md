# summary-report text core in Dafny

This project models the text-processing core of the summary-report web
service (`app.py`):

- **Chunking** (`chunk_text`). The text is split into words. The words go
  greedily into chunks of roughly `max_chunk_size` characters (default 1024).
  A running counter grows by each word's length plus one, and a chunk is
  closed as soon as the counter reaches the limit.
- **Summarizing** (`summarize_chunks`). Each chunk goes to the summarization
  model in order. A success contributes the model's summary and a space. A
  failure contributes an inline error marker with the exception's message.
  A failure never stops the remaining chunks.
- **Request handling** (`process_upload` and `summarize`, the handler of
  `POST /summarize`). This maps an abstract request (an optional uploaded
  file, a JSON body) to a status code and a JSON body.

Files:

- `text.dfy` (module `Text`): Python's `str.isspace`, `str.split()`,
  `" ".join` and `str.strip()`. Whitespace is the exact set of code points
  Python treats as whitespace.
- `chunker.dfy` (module `Chunker`):
  - `Chunks` is the reference definition: a grouping defined chunk by chunk
    from the front.
  - `IsGreedyGrouping` states the laws of the greedy grouping, and
    `GreedyGroupingUnique` proves that at most one grouping obeys them.
  - `ChunkText` is the imperative loop of `chunk_text`. It is proved to
    return exactly `Chunks`.
- `summarizer.dfy` (module `Summarizer`):
  - `SummaryOf` is the fold that specifies `summarize_chunks`.
  - `SummarizeChunks` is its loop, proved equal to `SummaryOf`.
- `handler.dfy` (module `Handler`): `ProcessUpload` and `HandleSummarize`
  are pure functions over an abstract request.
  - PDF text extraction, OCR and the summarization model are parameters
    (`Services`). Each is a function that returns a value or raises with a
    message.
  - A JSON body is a map of values, or the exception raised while reading it.

Behaviour worth knowing:

- The size limit is soft. A word is always added to the open chunk before
  the counter is compared with the limit (app.py:49-54). So a word whose
  `len + 1` reaches the limit ends its chunk. It is alone in that chunk only
  if no chunk was open: at the start of the text, or right after a chunk
  closed. Otherwise it joins the open chunk, which closes right after it.
  With the limit 5, `"b " + "a" * 10` is the single chunk `"b " + "a" * 10`,
  while `"a" * 10 + " b"` is the two chunks `"a" * 10` and `"b"`.
- An exception raised by PDF extraction or OCR is caught inside
  `process_upload` (app.py:95-96). The handler then answers **400** with
  "Error in processing PDF: " and the message (app.py:109-110).
- A JSON body without a `"text"` key is answered with "No file or text
  provided" (app.py:113, 121-122). "No text provided" is only for a
  `"text"` value that is present but falsy (app.py:115-116).
- Inline text that is all whitespace is truthy. It has no chunks, so the
  answer is 200 with an empty summary. An upload whose text is all
  whitespace is refused with 400.
- A truthy `"text"` value that is not a string (a number, a list, `true`)
  reaches `text.split()`. That raises an `AttributeError`, which the handler
  answers with 500 and "'<type>' object has no attribute 'split'".

## Model

| member | source | states |
|---|---|---|
| Text.IsSpace | app.py:43 | the whitespace test that `split()` and `strip()` without arguments use: exactly the code points for which Python's `str.isspace()` holds |
| Text.Join | app.py:52 | `" ".join(ws)`: the words with a single `' '` between neighbours, and nothing before the first or after the last |
| Text.Words | app.py:43 | `text.split()`: every element is a non-empty run of non-whitespace, and the list is empty exactly when the text is empty or all whitespace |
| Text.WordsOfJoin | app.py:52 | splitting `" ".join(ws)` gives back `ws` for any list of words: join and split are inverse |
| Text.JoinIsCanonical | app.py:52 | a joined non-empty list of words starts with a non-whitespace character, and every whitespace character in it is a single `' '` followed by a non-whitespace character |
| Text.Strip | app.py:84 | `full_text.strip()` is a contiguous piece of the input with only whitespace cut away before and after it; its ends are not whitespace, and it is empty exactly when the input is all whitespace |
| Chunker.Groups | app.py:48-57 | the grouping of the words into chunks, defined chunk by chunk from the front: each chunk takes the words up to the first one that brings the counter to the limit |
| Chunker.Cost | app.py:46-54 | the value of the counter `current_length` after adding the words: each word's length plus one, the first word included, which is why a closed chunk's length is at least `max - 1` |
| Chunker.JoinEach | app.py:52-57 | each group of words joined by single spaces, in order: the strings appended to `chunks` |
| Chunker.Chunks | app.py:42-59 | what `chunk_text(text, max)` returns: the groups of `text.split()`, each joined by single spaces (`JoinEach`) |
| Chunker.FirstCut | app.py:48-54 | the first chunk takes the shortest prefix of the words whose counter reaches the limit, or all words if none does |
| Chunker.ChunkText | app.py:42-59 | the loop of `chunk_text` returns exactly the reference chunking `Chunks(text, max)`, for every text and every integer limit |
| Chunker.ScanWord | app.py:49-50 | appending a word to an open chunk adds its length plus one to the counter and keeps every proper prefix of the chunk below the limit |
| Chunker.CloseChunk | app.py:51-54 | closing a chunk whose counter reached the limit emits its join and keeps the closed chunks, in order, equal to the words consumed |
| Chunker.FinishGrouping | app.py:56-57 | after the last word, the closed chunks plus the leftover chunk (only if non-empty) are the reference grouping |
| Chunker.GroupsAreGreedy | app.py:48-57 | the reference grouping obeys the greedy laws: it flattens to the words, has no empty group, every group but the last reached the limit, and no group could have closed earlier |
| Chunker.GreedyGroupingUnique | app.py:48-57 | any two groupings of the same words that obey the greedy laws are equal, so the laws characterise the chunking |
| Chunker.ChunksAreGreedy | app.py:43-57 | splitting every returned chunk back into words gives a grouping of `text.split()` that obeys the greedy laws |
| Chunker.ChunksPreserveWords | app.py:43-57 | the words of all chunks, concatenated in order, are exactly the words of the text: none dropped, duplicated or reordered |
| Chunker.ChunksEmptyIffBlank | app.py:43-59 | the chunk list is empty exactly when the text is empty or all whitespace |
| Chunker.ChunkIsCanonical | app.py:49-57 | every chunk is non-empty, equals its own words joined by single spaces, and has no leading, trailing or doubled whitespace |
| Chunker.GroupSoftBound | app.py:50-54 | a group whose counter reached the limit joins to at least `max - 1` characters, and a group of several words without its last word stays below the limit |
| Chunker.ChunkSoftBound | app.py:50-54 | every chunk except the last has `len + 1 >= max`, and a chunk of several words exceeds the limit by at most its last word |
| Chunker.LongWordEndsChunk | app.py:49-54 | a word with `len + 1 >= max` is always the last word of its chunk, so the chunk closes right after it and the word is never split |
| Chunker.SecondWordJoinsOpenChunk | app.py:48-54 | a word whose counter stays below the limit shares its chunk with the next word, however long that word is: `w + " " + long` is one chunk |
| Chunker.LongWordJoinsOpenChunkExample | app.py:48-54 | with the limit 5, `"b " + "a" * 10` is one chunk: the ten-letter word joins the open chunk instead of starting its own |
| Chunker.LongWordAloneWhenNoChunkOpen | app.py:48-57 | a word whose `len + 1` reaches the limit with no chunk open is a chunk of its own, and the next word starts a new chunk: `long + " " + w` is the chunks `long` and `w` |
| Chunker.LongWordAloneExample | app.py:48-57 | with the limit 5, `"a" * 10 + " b"` is the two chunks `"a" * 10` and `"b"` |
| Chunker.SingleGroup | app.py:56-57 | words no proper prefix of which reaches the limit form a single chunk |
| Chunker.ShortTextOneChunk | app.py:48-57 | a non-blank text whose joined words are shorter than the limit is one chunk: its words joined by single spaces |
| Chunker.OneWordOneChunk | app.py:49-57 | a text of a single word is a single chunk, whatever the word's length |
| Chunker.LongWordExample | app.py:42-59 | `"a" * 2000` with the default limit 1024 is the single chunk `"a" * 2000` |
| Chunker.HelloWorldWords | app.py:43 | `"hello world".split()` is `["hello", "world"]` |
| Chunker.HelloWorldOneChunk | app.py:42-59 | `chunk_text("hello world")` is `["hello world"]` |
| Summarizer.Segment | app.py:66-69 | what one chunk adds to the result: the summary followed by `" "` when the model returns, `"\nError in summarization: "` followed by the message when it raises |
| Summarizer.SummaryOf | app.py:61-70 | the result of `summarize_chunks`: the chunks' segments concatenated in chunk order, starting from the empty string |
| Summarizer.SummarizeChunks | app.py:61-70 | the loop of `summarize_chunks` returns exactly the in-order fold `SummaryOf` of the chunks' segments |
| Summarizer.SummaryOfSnoc | app.py:63-69 | handling one more chunk appends exactly that chunk's segment: `summary + " "` on success, the error marker and message on failure |
| Summarizer.SummaryOfAppend | app.py:63-69 | the summary of two runs of chunks is the concatenation of their summaries |
| Summarizer.SegmentInPlace | app.py:63-69 | chunk k's segment sits between the summary of the chunks before it and that of the chunks after it, whatever any chunk's outcome, so a failure never stops later chunks |
| Summarizer.SummaryLength | app.py:62-70 | the result has at least one character per chunk, and it is empty exactly when there are no chunks |
| Summarizer.AllFailed | app.py:68-69 | when every call raises with message m, the result is `"\nError in summarization: " + m` repeated once per chunk |
| Handler.NoSplitMessage | app.py:119-126 | the message "'<type>' object has no attribute 'split'" of the `AttributeError` that `text.split()` raises inside `chunk_text` on a non-string value, which the handler returns as the 500 body |
| Handler.ProcessUpload | app.py:72-96 | a summary is produced only for a combined text that is not all whitespace, and it is never empty; otherwise the message is "No extractable text found in the PDF." or starts with "Error in processing PDF: " |
| Handler.HandleSummarize | app.py:98-126 | the status is 200, 400 or 500, and it is 200 exactly when the body carries a summary |
| Handler.EmptyFilenameRefused | app.py:104-105 | an uploaded file with an empty file name gets 400 "No selected file" |
| Handler.UploadIgnoresJson | app.py:102-111 | when a file is present the JSON body does not affect the answer |
| Handler.UploadOutcome | app.py:72-111 | an upload gets 200 exactly when extraction and OCR both return and `text + "\n" + ocr` is not all whitespace; the summary is then that of the combined text's chunks and is non-empty; an all-whitespace combined text gets 400 "No extractable text found in the PDF." |
| Handler.ExtractionFailureIsClientError | app.py:95-110 | an exception from extraction or OCR gets 400 and "Error in processing PDF: " followed by its message |
| Handler.InlineTextOutcome | app.py:113-124 | without a file: no `"text"` key gets 400 "No file or text provided", an empty or falsy value gets 400 "No text provided", and 200 comes exactly from a non-empty string, with the summary of its chunks |
| Handler.BlankInlineTextHasEmptySummary | app.py:113-124 | non-empty inline text that is all whitespace gets 200 with an empty summary |
| Handler.ServerErrorCauses | app.py:113-126 | the answer is 500 exactly when there is no file and either reading the JSON body raises or `"text"` is a truthy non-string; the error is then the exception's message, or "'<type>' object has no attribute 'split'" for the value's type |
| Handler.EmptyJsonExample | app.py:121-122 | `{}` without a file gets 400 "No file or text provided" |
| Handler.HelloWorldExample | app.py:113-124 | `{"text": "hello world"}` gets 200, and its summary is the one segment of the chunk `"hello world"` |

## Left out

- PDF parsing and image extraction (app.py:15-34) and OCR (app.py:36-40) are
  foreign libraries working on byte streams and images. They are the
  parameters `Services.extract` and `Services.ocr`: each returns the
  document text and images (or the OCR text), or raises with a message.
  How the pages' text and the per-image OCR lines are concatenated is not
  modelled.
- The summarization model and its load at import time (app.py:13, 66) are
  a machine-learning black box. The model is the parameter
  `Services.summarize`, which returns a summary or raises with a message.
  Being a function of the chunk text, it gives two equal chunks the same
  outcome; no lemma depends on this.
  The `max_length`, `min_length` and `do_sample` arguments are not modelled.
- Flask routing, reading the multipart form, JSON decoding and `jsonify`
  are not modelled. A request is the abstract `Request`, and a response is
  a status with either an `error` or a `summary` body. A JSON body whose top
  level is not an object (a list, a string) is not modelled. Reading the
  body counts as raising, with the exception's message.
- The port and environment handling and `app.run` (app.py:128-130) are
  server configuration.
- Python strings are sequences of code points, and Dafny's `char` cannot
  hold a lone surrogate. Text containing lone surrogates is not modelled.
- The counter and lengths are unbounded integers. Python's integers are
  unbounded too, so nothing is lost.
- `process_upload`'s catch-all around chunking and summarizing
  (app.py:95-96) is modelled only for extraction and OCR. `chunk_text` and
  `summarize_chunks` raise nothing the model can see, because every
  summarization failure is caught per chunk.
- Handler.HandleSummarize and Handler.ProcessUpload: their own contracts
  state only the status range and the shape of the result. The full outcome
  of each case is stated by the lemmas `Handler.EmptyFilenameRefused`,
  `Handler.UploadOutcome`, `Handler.ExtractionFailureIsClientError`,
  `Handler.InlineTextOutcome` and `Handler.ServerErrorCauses`.
