/** `summarize_chunks`: each chunk goes to the summarization model in order;
    a success contributes the summary and a space, a failure an inline error
    marker, and a failure never stops the remaining chunks. */
module Summarizer {

  /** What one call of the summarization model does: it returns a summary
      text, or it raises an exception whose message is `message`. */
  datatype SummaryOutcome = Summarized(text: string) | Failed(message: string)

  /** The text put in place of a chunk whose summarization raised. */
  const ErrorMarker := "\nError in summarization: "

  /** The piece of the result that one chunk contributes. */
  function Segment(o: SummaryOutcome): string
  {
    match o
    case Summarized(t) => t + " "
    case Failed(m) => ErrorMarker + m
  }

  /** The result of `summarize_chunks(chunks)` when the model maps each chunk
      to `summarize(chunk)`: the chunks' segments concatenated in order. */
  function SummaryOf(summarize: string -> SummaryOutcome, chunks: seq<string>): string
  {
    if chunks == [] then ""
    else Segment(summarize(chunks[0])) + SummaryOf(summarize, chunks[1..])
  }

  /** Every segment has at least one character, so the result has at least
      as many characters as there are chunks, and is empty only for no chunks. */
  lemma {:induction false} SummaryLength(summarize: string -> SummaryOutcome, chunks: seq<string>)
    ensures |SummaryOf(summarize, chunks)| >= |chunks|
    ensures SummaryOf(summarize, chunks) == "" <==> chunks == []
  {
    if chunks != [] {
      SummaryLength(summarize, chunks[1..]);
    }
  }

  lemma Assoc<T>(x: seq<T>, y: seq<T>, z: seq<T>)
    ensures x + (y + z) == (x + y) + z
  {
  }

  /** One unfolding of `SummaryOf`. */
  lemma SummaryOfCons(summarize: string -> SummaryOutcome, s: seq<string>)
    requires s != []
    ensures SummaryOf(summarize, s) == Segment(summarize(s[0])) + SummaryOf(summarize, s[1..])
  {
  }

  /** The summary of consecutive runs of chunks is the concatenation of their
      summaries: the fold is independent of where the chunk list is cut. */
  lemma {:induction false} SummaryOfAppend(summarize: string -> SummaryOutcome, a: seq<string>, b: seq<string>)
    ensures SummaryOf(summarize, a + b) == SummaryOf(summarize, a) + SummaryOf(summarize, b)
  {
    if a == [] {
      assert a + b == b;
    } else {
      var ab := a + b;
      assert ab[0] == a[0];
      assert ab[1..] == a[1..] + b;
      var seg := Segment(summarize(a[0]));
      var sa, sb := SummaryOf(summarize, a[1..]), SummaryOf(summarize, b);
      SummaryOfAppend(summarize, a[1..], b);
      SummaryOfCons(summarize, ab);
      SummaryOfCons(summarize, a);
      Assoc(seg, sa, sb);
    }
  }

  /** A single chunk contributes exactly its segment. */
  lemma SummaryOfOne(summarize: string -> SummaryOutcome, c: string)
    ensures SummaryOf(summarize, [c]) == Segment(summarize(c))
  {
    assert [c][1..] == [];
  }

  lemma SplitAround<T>(s: seq<T>, k: nat)
    requires k < |s|
    ensures s == s[..k] + ([s[k]] + s[k + 1..])
  {
  }

  /** Chunk `k`'s segment sits in the result right after the segments of the
      chunks before it and right before those of the chunks after it, whatever
      the outcome of any chunk: one segment per chunk, in chunk order, and a
      failing chunk never keeps later chunks from being summarized. */
  lemma SegmentInPlace(summarize: string -> SummaryOutcome, chunks: seq<string>, k: nat)
    requires k < |chunks|
    ensures SummaryOf(summarize, chunks)
         == SummaryOf(summarize, chunks[..k]) + Segment(summarize(chunks[k])) + SummaryOf(summarize, chunks[k + 1..])
  {
    var head, c, rest := chunks[..k], chunks[k], chunks[k + 1..];
    SplitAround(chunks, k);
    SummaryOfAppend(summarize, head, [c] + rest);
    SummaryOfAppend(summarize, [c], rest);
    SummaryOfOne(summarize, c);
  }

  /** `n` copies of `s`, one after the other. */
  function Repeat(s: string, n: nat): string
  {
    if n == 0 then "" else s + Repeat(s, n - 1)
  }

  /** When every call fails, the result is one error marker with its message
      per chunk and nothing else. */
  lemma {:induction false} AllFailed(summarize: string -> SummaryOutcome, chunks: seq<string>, message: string)
    requires forall k :: 0 <= k < |chunks| ==> summarize(chunks[k]) == Failed(message)
    ensures SummaryOf(summarize, chunks) == Repeat(ErrorMarker + message, |chunks|)
  {
    if chunks != [] {
      AllFailed(summarize, chunks[1..], message);
    }
  }

  /** Summarizing one more chunk appends that chunk's segment. */
  lemma SummaryOfSnoc(summarize: string -> SummaryOutcome, chunks: seq<string>, i: nat)
    requires i < |chunks|
    ensures SummaryOf(summarize, chunks[..i + 1]) == SummaryOf(summarize, chunks[..i]) + Segment(summarize(chunks[i]))
  {
    assert chunks[..i + 1] == chunks[..i] + [chunks[i]];
    SummaryOfAppend(summarize, chunks[..i], [chunks[i]]);
    SummaryOfOne(summarize, chunks[i]);
  }

  /** `summarize_chunks(chunks)`: the loop accumulating `summarized_text`. */
  method SummarizeChunks(summarize: string -> SummaryOutcome, chunks: seq<string>) returns (summarizedText: string)
    ensures summarizedText == SummaryOf(summarize, chunks)
  {
    summarizedText := "";
    for i := 0 to |chunks|
      invariant summarizedText == SummaryOf(summarize, chunks[..i])
    {
      var chunk := chunks[i];
      var piece: string;
      match summarize(chunk) {
        case Summarized(summary) =>
          piece := summary + " ";
        case Failed(message) =>
          piece := ErrorMarker + message;
      }
      assert piece == Segment(summarize(chunk));
      SummaryOfSnoc(summarize, chunks, i);
      summarizedText := summarizedText + piece;
    }
    assert chunks[..|chunks|] == chunks;
  }
}
