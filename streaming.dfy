/**
 * The web-rag answer view: the streaming parser that re-scans the whole
 * accumulated text after every chunk and updates the sources and answer
 * state, the empty-query gating of the request and the prompts shown when
 * nothing can be asked yet.
 */
module WebRagResult {
  import opened Wrappers
  import opened Text
  import opened Tokens
  import opened Markdown

  /**
   * The sources payload of `sink`: present only once `</search>` occurs;
   * then the text before the first `</search>` with the first `<search>`
   * in it deleted.
   */
  function ExtractSources(sink: string): (r: Option<string>)
    ensures r.Some? <==> Contains(sink, SearchEnd)
  {
    if Contains(sink, SearchEnd) then Some(ReplaceFirst(SplitHead(sink, SearchEnd), SearchStart, ""))
    else None
  }

  /**
   * The raw answer of `sink`: present only once `<completion>` occurs; then
   * the text between the first and the second `<completion>` (or to the end)
   * with the first `</completion>` in it deleted.
   */
  function ExtractAnswer(sink: string): (r: Option<string>)
    ensures r.Some? <==> Contains(sink, LlmStart)
  {
    match SplitSecond(sink, LlmStart)
    case None => None
    case Some(md) => Some(ReplaceFirst(md, LlmEnd, ""))
  }

  /** The `sources` state after one parse pass over `sink`: set only when a payload is found. */
  function UpdateSources(current: Option<string>, sink: string): Option<string> {
    if ExtractSources(sink).Some? then ExtractSources(sink) else current
  }

  /** The `markdown` state after one parse pass over `sink`: set only when an answer is found. */
  function UpdateMarkdown(current: string, sink: string): string {
    match ExtractAnswer(sink)
    case Some(md) => MarkdownParse(md)
    case None => current
  }

  /** The response of the completion proxy: its status and, when it has a body, the decoded chunks. */
  datatype Response = Response(status: int, body: Option<seq<string>>)

  /** The state hooks of the view: `sources`, `markdown` and `error`. */
  class AnswerPanel {
    var sources: Option<string>
    var markdown: string
    var error: Option<int>

    constructor ()
      ensures sources == None && markdown == "" && error == None
    {
      sources, markdown, error := None, "", None;
    }

    /**
     * The read loop: append every chunk to `sink` in arrival order and, after
     * each, re-scan the whole `sink` and update `sources` and `markdown`.
     * Its last pass is over the complete text.
     */
    method ReadChunks(chunks: seq<string>) returns (sink: string)
      modifies this
      ensures sink == Concat(chunks)
      ensures sources == UpdateSources(old(sources), sink)
      ensures markdown == UpdateMarkdown(old(markdown), sink)
      ensures error == old(error)
    {
      sink := "";
      var i := 0;
      while i < |chunks|
        invariant 0 <= i <= |chunks|
        invariant sink == Concat(chunks[..i])
        invariant sources == UpdateSources(old(sources), sink)
        invariant markdown == UpdateMarkdown(old(markdown), sink)
        invariant error == old(error)
      {
        ghost var before := sink;
        sink := sink + chunks[i];
        assert chunks[..i + 1][..i] == chunks[..i];
        assert sink == Concat(chunks[..i + 1]);
        if Contains(sink, SearchEnd) {
          sources := ExtractSources(sink);
        } else {
          SourcesSticky(before, chunks[i]);
        }
        var md := ExtractAnswer(sink);
        if md.Some? {
          markdown := MarkdownParse(md.value);
        } else {
          AnswerSticky(before, chunks[i]);
        }
        i := i + 1;
      }
      assert chunks[..i] == chunks;
    }

    /**
     * `parseStreaming`: a non-200 status is recorded as the error and nothing
     * is parsed; a response without a body changes nothing; otherwise the
     * chunks are read and one final pass is made over the complete text.
     */
    method ParseStreaming(response: Response)
      modifies this
      ensures response.status != 200 ==>
        error == Some(response.status) && sources == old(sources) && markdown == old(markdown)
      ensures response.status == 200 && response.body.None? ==>
        error == old(error) && sources == old(sources) && markdown == old(markdown)
      ensures response.status == 200 && response.body.Some? ==>
        && error == old(error)
        && sources == UpdateSources(old(sources), Concat(response.body.value))
        && markdown == UpdateMarkdown(old(markdown), Concat(response.body.value))
    {
      if response.status != 200 {
        error := Some(response.status);
        return;
      }
      if response.body.None? {
        return;
      }
      var sink := ReadChunks(response.body.value);
      ghost var afterLoop := markdown;
      var md := ExtractAnswer(sink);
      if md.Some? {
        markdown := MarkdownParse(md.value);
      }
      assert markdown == afterLoop;  // the final pass repeats the last in-loop pass
    }

    /** The effect cleanup run when `query` or `userId` changes: both results are cleared. */
    method Cleanup()
      modifies this
      ensures sources == None && markdown == "" && error == old(error)
    {
      sources := None;
      markdown := "";
    }

    /**
     * The effect body for a new query: an empty query starts no request and
     * changes nothing; any other query is streamed. The debounce delay
     * before the request is not modelled.
     */
    method QueryEffect(query: string, response: Response) returns (started: bool)
      modifies this
      ensures started <==> query != ""
      ensures !started ==> sources == old(sources) && markdown == old(markdown) && error == old(error)
      ensures started && response.status != 200 ==>
        error == Some(response.status) && sources == old(sources) && markdown == old(markdown)
      ensures started && response.status == 200 && response.body.None? ==>
        error == old(error) && sources == old(sources) && markdown == old(markdown)
      ensures started && response.status == 200 && response.body.Some? ==>
        && error == old(error)
        && sources == UpdateSources(old(sources), Concat(response.body.value))
        && markdown == UpdateMarkdown(old(markdown), Concat(response.body.value))
    {
      started := query != "";
      if started {
        ParseStreaming(response);
      }
    }
  }

  /** The closing `</search>` already seen stays the first one, so the sources never change again. */
  lemma SourcesStable(s: string, t: string)
    requires ExtractSources(s).Some?
    ensures ExtractSources(s + t) == ExtractSources(s)
  {
    IndexOfExtend(s, t, SearchEnd);
    ContainsExtend(s, t, SearchEnd);
    IndexOfSpec(s, SearchEnd);
    var i := IndexOf(s, SearchEnd).value;
    assert (s + t)[..i] == s[..i];
  }

  /** A sink without sources before a chunk had none: appending can only make them appear. */
  lemma SourcesSticky(s: string, t: string)
    requires ExtractSources(s + t).None?
    ensures ExtractSources(s).None?
  {
    if Contains(s, SearchEnd) {
      ContainsExtend(s, t, SearchEnd);
    }
  }

  /** Once `<completion>` has been seen an answer is present in every later sink. */
  lemma AnswerSticky(s: string, t: string)
    requires ExtractAnswer(s + t).None?
    ensures ExtractAnswer(s).None?
  {
    if Contains(s, LlmStart) {
      ContainsExtend(s, t, LlmStart);
    }
  }

  /** Sources published after the first k chunks equal those of the complete response. */
  lemma SourcesFixedAcrossChunks(chunks: seq<string>, k: nat)
    requires k <= |chunks| && ExtractSources(Concat(chunks[..k])).Some?
    ensures ExtractSources(Concat(chunks)) == ExtractSources(Concat(chunks[..k]))
  {
    ConcatSplit(chunks, k);
    SourcesStable(Concat(chunks[..k]), Concat(chunks[k..]));
  }

  /** The sources are the text before the first `</search>`, with its first `<search>` removed. */
  lemma SourcesDecomposition(pre: string, post: string)
    requires !Contains(pre, SearchEnd)
    ensures ExtractSources(pre + SearchEnd + post) == Some(ReplaceFirst(pre, SearchStart, ""))
  {
    TokensLeadUnique();
    SplitHeadAt(pre, SearchEnd, post);
  }

  /**
   * The answer is `split("<completion>")[1]` with its first `</completion>`
   * removed: the text after the first `<completion>`, cut short at a second one.
   */
  lemma AnswerCutAtSecondStart(pre: string, post: string)
    requires !Contains(pre, LlmStart)
    ensures ExtractAnswer(pre + LlmStart + post) == Some(ReplaceFirst(SplitHead(post, LlmStart), LlmEnd, ""))
  {
    TokensLeadUnique();
    SplitSecondAt(pre, LlmStart, post);
  }

  /** Without a second `<completion>`, the answer is the whole rest with its first `</completion>` removed. */
  lemma AnswerDecomposition(pre: string, body: string)
    requires !Contains(pre, LlmStart) && !Contains(body, LlmStart)
    ensures ExtractAnswer(pre + LlmStart + body) == Some(ReplaceFirst(body, LlmEnd, ""))
  {
    AnswerCutAtSecondStart(pre, body);
    SplitHeadSpec(body, LlmStart);
  }

  /**
   * A sources payload: it may hold any text, '<' included, except the two
   * tokens the parser searches for after it.
   */
  predicate SourcesPayload(src: string) {
    !Contains(src, SearchEnd) && !Contains(src, LlmStart)
  }

  /** An answer payload: any text except the two answer tokens. */
  predicate AnswerPayload(ans: string) {
    !Contains(ans, LlmStart) && !Contains(ans, LlmEnd)
  }

  /**
   * A complete well-formed response: the sources segment, any text `mid`
   * between the segments, and the answer segment.
   */
  function CompleteStream(src: string, mid: string, ans: string): string {
    SearchStart + src + SearchEnd + mid + LlmStart + ans + LlmEnd
  }

  /** Whatever follows `<search>src</search>`, the sources are `src`. */
  lemma SourcesSegment(src: string, rest: string)
    requires !Contains(src, SearchEnd)
    ensures ExtractSources(SearchStart + src + SearchEnd + rest) == Some(src)
  {
    NotContainsAfterLead(SearchStart, src, SearchEnd);
    SourcesDecomposition(SearchStart + src, rest);
    NotContainsWithoutLead("", SearchStart);
    TokensLeadUnique();
    ReplaceFirstAt("", SearchStart, src, "");
    assert "" + SearchStart + src == SearchStart + src;
    assert "" + "" + src == src;
  }

  /** The text before the first `<completion>` of a well-formed response holds no `<completion>`. */
  lemma AnswerPrefixFree(src: string, mid: string)
    requires !Contains(src, LlmStart) && !Contains(mid, LlmStart)
    ensures !Contains(SearchStart + src + SearchEnd + mid, LlmStart)
  {
    TokensLeadUnique();
    NotContainsAfterLead(SearchStart, src, LlmStart);
    NotContainsAfterLead(SearchEnd, mid, LlmStart);
    NotContainsAcrossLead(SearchStart + src, SearchEnd + mid, LlmStart);
    assert (SearchStart + src) + (SearchEnd + mid) == SearchStart + src + SearchEnd + mid;
  }

  /** After `<search>src</search>mid<completion>`, the answer is the rest with its first `</completion>` removed. */
  lemma AnswerSegment(src: string, mid: string, body: string)
    requires !Contains(src, LlmStart) && !Contains(mid, LlmStart) && !Contains(body, LlmStart)
    ensures ExtractAnswer(SearchStart + src + SearchEnd + mid + LlmStart + body) == Some(ReplaceFirst(body, LlmEnd, ""))
  {
    AnswerPrefixFree(src, mid);
    AnswerDecomposition(SearchStart + src + SearchEnd + mid, body);
  }

  /** A closed answer body `ans</completion>` holds no `<completion>` and unwraps to `ans`. */
  lemma ClosedAnswer(ans: string)
    requires AnswerPayload(ans)
    ensures !Contains(ans + LlmEnd, LlmStart)
    ensures ReplaceFirst(ans + LlmEnd, LlmEnd, "") == ans
  {
    TokensLeadUnique();
    OpeningTokensNotInClosing();
    NotContainsAcrossLead(ans, LlmEnd, LlmStart);
    ReplaceFirstAt(ans, LlmEnd, "", "");
    assert ans + LlmEnd + "" == ans + LlmEnd;
    assert ans + "" + "" == ans;
  }

  /**
   * The protocol round trip: a complete response
   * `<search>src</search>mid<completion>ans</completion>` yields exactly `src`
   * as the sources and `ans` as the raw answer.
   */
  lemma StreamRoundTrip(src: string, mid: string, ans: string)
    requires SourcesPayload(src) && !Contains(mid, LlmStart) && AnswerPayload(ans)
    ensures ExtractSources(CompleteStream(src, mid, ans)) == Some(src)
    ensures ExtractAnswer(CompleteStream(src, mid, ans)) == Some(ans)
  {
    var sink := CompleteStream(src, mid, ans);
    var body := ans + LlmEnd;
    assert sink == SearchStart + src + SearchEnd + (mid + LlmStart + body);
    SourcesSegment(src, mid + LlmStart + body);
    assert sink == SearchStart + src + SearchEnd + mid + LlmStart + body;
    ClosedAnswer(ans);
    AnswerSegment(src, mid, body);
  }

  /**
   * What a completed well-formed response leaves on screen: `src` as the
   * sources and the normalised `ans` as the answer, however it was chunked.
   */
  lemma CompletedStreamShown(chunks: seq<string>, src: string, mid: string, ans: string, sources: Option<string>, markdown: string)
    requires SourcesPayload(src) && !Contains(mid, LlmStart) && AnswerPayload(ans)
    requires Concat(chunks) == CompleteStream(src, mid, ans)
    ensures UpdateSources(sources, Concat(chunks)) == Some(src)
    ensures UpdateMarkdown(markdown, Concat(chunks)) == MarkdownParse(ans)
  {
    StreamRoundTrip(src, mid, ans);
  }

  /**
   * Mid-stream: once the sources and part `partial` of the answer have
   * arrived, the sources are final and the answer shown is `partial`.
   */
  lemma StreamPartialAnswer(src: string, mid: string, partial: string)
    requires SourcesPayload(src) && !Contains(mid, LlmStart) && AnswerPayload(partial)
    ensures ExtractSources(SearchStart + src + SearchEnd + mid + LlmStart + partial) == Some(src)
    ensures ExtractAnswer(SearchStart + src + SearchEnd + mid + LlmStart + partial) == Some(partial)
  {
    var sink := SearchStart + src + SearchEnd + mid + LlmStart + partial;
    assert sink == SearchStart + src + SearchEnd + (mid + LlmStart + partial);
    SourcesSegment(src, mid + LlmStart + partial);
    AnswerSegment(src, mid, partial);
    ReplaceFirstWithout(partial, LlmEnd, "");
  }

  /** Before `</search>` has arrived no sources are published and no answer is shown. */
  lemma StreamBeforeSources(partial: string)
    requires SourcesPayload(partial)
    ensures ExtractSources(SearchStart + partial) == None
    ensures ExtractAnswer(SearchStart + partial) == None
  {
    NotContainsAfterLead(SearchStart, partial, SearchEnd);
    NotContainsAfterLead(SearchStart, partial, LlmStart);
  }

  /** The overlay texts: no document uploaded yet, and no query typed yet. */
  const UploadPrompt: string := "Please upload atleast one document to submit queries."
  const QueryPrompt: string := "Please submit a query."

  /**
   * The two overlays, each under its own condition. `uploadedDocuments` is
   * optional: a missing list fails the `=== 0` test and passes the `!== 0`
   * test. The two conditions exclude each other, so at most one shows.
   */
  function Prompts(uploadedDocuments: Option<seq<string>>, query: string): (r: seq<string>)
    ensures |r| <= 1
    ensures UploadPrompt in r <==> uploadedDocuments == Some([])
    ensures QueryPrompt in r <==> uploadedDocuments != Some([]) && query == ""
  {
    (if uploadedDocuments.Some? && |uploadedDocuments.value| == 0 then [UploadPrompt] else [])
    + (if !(uploadedDocuments.Some? && |uploadedDocuments.value| == 0) && query == "" then [QueryPrompt] else [])
  }
}
