/** The `/ask` endpoint (app.py, `ask_question`): fetch the transcript, get
    the video's retriever from the cache, retrieve the chunks relevant to the
    question, join them into the context block, fill the prompt template,
    call the language model, and format its answer as bullets. */
module Ask {
  import opened Text
  import opened Results
  import opened Formatter
  import opened Transcripts
  import opened RetrieverCache

  /** What the endpoint answers: the formatted answer, an `HTTPException`
      raised by the fetcher, or an exception nobody catches, which the
      framework turns into an internal server error. */
  datatype Response =
    | Answer(text: String)
    | HttpFailure(status: int, detail: String)
    | ServerError(cause: String)

  /** The retrieved documents' page contents joined with a blank line
      between each two. */
  function ContextBlock(docs: seq<String>): String
  {
    Join(docs, "\n\n")
  }

  /** The context block holds the retrieved texts in retrieval order, each
      separated from the next by exactly one blank line, and nothing else;
      no documents give the empty context. */
  lemma ContextLayout(docs: seq<String>)
    ensures docs == [] ==> ContextBlock(docs) == []
    ensures docs != [] ==> |ContextBlock(docs)| + 2 == Offset(docs, "\n\n", |docs|)
    ensures forall i :: 0 <= i < |docs| ==> PieceAt(ContextBlock(docs), docs, "\n\n", i)
    ensures forall i :: 0 <= i < |docs| - 1 ==> SeparatorAfter(ContextBlock(docs), docs, "\n\n", i)
  {
    JoinLayout(docs, "\n\n");
  }

  /** The fixed text of the prompt template around its two placeholders. */
  const PromptHead: String :=
    "\nYou are a helpful AI assistant.\n"
    + "Answer the question based on the given YouTube video transcript.\n"
    + "Make sure each bullet point starts with '*'.\n"
    + "If the question cannot be answered, say you don't know.\n\n"
  const PromptMiddle: String := "\n\nQuestion:\n"
  const PromptTail: String := "\n"

  /** The prompt template filled in: the instructions, the context block
      verbatim, the question heading, the question verbatim, and a final
      newline, with nothing else. */
  function RenderPrompt(context: String, question: String): (p: String)
    ensures |p| == |PromptHead| + |context| + |PromptMiddle| + |question| + |PromptTail|
    ensures p[..|PromptHead|] == PromptHead
    ensures p[|PromptHead|..|PromptHead| + |context|] == context
    ensures p[|PromptHead| + |context|..|PromptHead| + |context| + |PromptMiddle|] == PromptMiddle
    ensures p[|p| - |PromptTail| - |question|..|p| - |PromptTail|] == question
    ensures p[|p| - |PromptTail|..] == PromptTail
  {
    PromptHead + context + PromptMiddle + question + PromptTail
  }

  /** The prompt determines what was filled in: two prompts that are equal,
      for questions of the same length, came from the same context and the
      same question. */
  lemma RenderPromptReadBack(c1: String, q1: String, c2: String, q2: String)
    requires |q1| == |q2|
    requires RenderPrompt(c1, q1) == RenderPrompt(c2, q2)
    ensures c1 == c2 && q1 == q2
  {
    var p := RenderPrompt(c1, q1);
    assert |c1| == |c2|;
    assert c1 == p[|PromptHead|..|PromptHead| + |c1|] == c2;
    assert q1 == p[|p| - |PromptTail| - |q1|..|p| - |PromptTail|] == q2;
  }

  /** `ask_question` for one request. `api` is the transcript service,
      `build` the vector-store construction, `retrieve` the retriever's
      similarity search, and `llm` the language model; each of the last
      three yields its result or the message of the exception it raised. */
  function Ask<R>(cache: Cache<R>, videoId: VideoId, question: String,
                  api: (VideoId, Language) -> Attempt,
                  build: String -> Result<R, String>,
                  retrieve: (R, String) -> Result<seq<String>, String>,
                  llm: String -> Result<String, String>): (out: (Response, Cache<R>))
    ensures FetchTranscript(videoId, api).result.Failure? ==>
      var e := FetchTranscript(videoId, api).result.error;
      out == (HttpFailure(e.status, e.detail), cache)
    ensures out.0.HttpFailure? ==> out.0.status in {404, 500} && out.1 == cache
    ensures out.0.HttpFailure? <==> FetchTranscript(videoId, api).result.Failure?
    ensures Extends(out.1.entries, cache.entries)
    ensures out.1.entries.Keys <= cache.entries.Keys + {videoId}
    ensures out.1.builds <= cache.builds + 1
    ensures videoId in cache.entries ==> out.1 == cache
    ensures out.0.Answer? ==> videoId in out.1.entries
    ensures out.0.Answer? ==>
      var docs := retrieve(out.1.entries[videoId], question);
      && docs.Success?
      && llm(RenderPrompt(ContextBlock(docs.value), question)).Success?
      && out.0.text == FormatAnswer(llm(RenderPrompt(ContextBlock(docs.value), question)).value)
    ensures FetchTranscript(videoId, api).result.Success? && videoId !in cache.entries ==>
      var t := FetchTranscript(videoId, api).result.value;
      && out.1.builds == cache.builds + 1
      && (build(t).Success? ==> out.1.entries == cache.entries[videoId := build(t).value])
      && (build(t).Failure? ==> out == (ServerError(build(t).error), cache.(builds := cache.builds + 1)))
    ensures FetchTranscript(videoId, api).result.Success? && videoId in out.1.entries ==>
      var docs := retrieve(out.1.entries[videoId], question);
      docs.Success? && llm(RenderPrompt(ContextBlock(docs.value), question)).Success? ==>
      out.0.Answer?
    ensures FetchTranscript(videoId, api).result.Success? && videoId in out.1.entries ==>
      var docs := retrieve(out.1.entries[videoId], question);
      && (docs.Failure? ==> out.0 == ServerError(docs.error))
      && (docs.Success? && llm(RenderPrompt(ContextBlock(docs.value), question)).Failure? ==>
            out.0 == ServerError(llm(RenderPrompt(ContextBlock(docs.value), question)).error))
    ensures out.0.Answer? && out.0.text != [] ==>
      forall line :: line in Split(out.0.text, '\n') ==> IsBullet(line) && !IsBlank(line)
  {
    var fetched := FetchTranscript(videoId, api);
    FetchErrors(videoId, api);
    if fetched.result.Failure? then
      (HttpFailure(fetched.result.error.status, fetched.result.error.detail), cache)
    else
      var (got, next) := GetRetriever(cache, fetched.result.value, videoId, build);
      GetRetrieverExtends(cache, fetched.result.value, videoId, build);
      if got.Failure? then
        (ServerError(got.error), next)
      else
        match retrieve(got.value, question)
        case Failure(e) => (ServerError(e), next)
        case Success(docs) =>
          match llm(RenderPrompt(ContextBlock(docs), question))
          case Failure(e) => (ServerError(e), next)
          case Success(raw) =>
            AnswerIsBulleted(raw);
            (Answer(FormatAnswer(raw)), next)
  }

  /** Two requests about the same video: once the first got an answer, the
      second builds nothing and leaves the cache as it was, whatever
      transcript the service returns the second time. */
  lemma AskAgainNoBuild<R>(cache: Cache<R>, videoId: VideoId, q1: String, q2: String,
                           api1: (VideoId, Language) -> Attempt,
                           api2: (VideoId, Language) -> Attempt,
                           build: String -> Result<R, String>,
                           retrieve: (R, String) -> Result<seq<String>, String>,
                           llm: String -> Result<String, String>)
    requires Ask(cache, videoId, q1, api1, build, retrieve, llm).0.Answer?
    ensures var c1 := Ask(cache, videoId, q1, api1, build, retrieve, llm).1;
      Ask(c1, videoId, q2, api2, build, retrieve, llm).1 == c1
  {
  }

  /** A cached video is answered from its stored retriever: once the
      transcript is fetched, what it says does not matter, so two services
      that both deliver some transcript give the same response and cache. */
  lemma CachedIgnoresTranscript<R>(cache: Cache<R>, videoId: VideoId, question: String,
                                   api1: (VideoId, Language) -> Attempt,
                                   api2: (VideoId, Language) -> Attempt,
                                   build: String -> Result<R, String>,
                                   retrieve: (R, String) -> Result<seq<String>, String>,
                                   llm: String -> Result<String, String>)
    requires videoId in cache.entries
    requires FetchTranscript(videoId, api1).result.Success?
    requires FetchTranscript(videoId, api2).result.Success?
    ensures Ask(cache, videoId, question, api1, build, retrieve, llm)
         == Ask(cache, videoId, question, api2, build, retrieve, llm)
  {
  }

  /** A cached video still needs its transcript: when the fetch fails the
      request fails with the fetcher's error even though a retriever is
      stored. */
  lemma CachedVideoStillFetches<R>(cache: Cache<R>, videoId: VideoId, question: String,
                                   api: (VideoId, Language) -> Attempt,
                                   build: String -> Result<R, String>,
                                   retrieve: (R, String) -> Result<seq<String>, String>,
                                   llm: String -> Result<String, String>)
    requires videoId in cache.entries
    requires !api(videoId, Hindi).Fetched? && api(videoId, English).TranscriptsDisabled?
    ensures Ask(cache, videoId, question, api, build, retrieve, llm).0
         == HttpFailure(404, DisabledDetail)
  {
  }
}
