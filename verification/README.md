# VidQuery backend core, modelled in Dafny

VidQuery answers questions about a YouTube video from its transcript. The
backend (`app.py`) fetches the transcript, builds a similarity retriever over
it, caches that retriever per video, asks a language model with the
retrieved context, and reformats the model's answer as a bulleted list.
Retrieval and generation happen in libraries that this model does not see.
What the backend decides itself is modelled here, as pure functions over
`seq<char>` strings:

- `Text` (`text.dfy`) defines the Python string primitives the backend
  relies on. `IsSpace` is Python's `str.isspace`, with the full Unicode
  whitespace set. `Strip` is `str.strip()`. `Split` is `str.split(c)` for a
  one-character separator. `Join` is `sep.join(parts)`. Lemmas give the
  round trips between `Split` and `Join`, and a layout lemma says where each
  piece and separator sits in a join.
- `Formatter` (`formatter.dfy`) models the comprehension that turns the
  model's raw text into `formatted_answer`. It splits on `"\n"` and drops
  lines that strip to nothing. A line whose stripped form starts with `*`
  is kept verbatim, with its original whitespace. Any other line becomes
  `"* "` followed by the stripped line. The lines are re-joined with `"\n"`.
- `Transcripts` (`transcripts.dfy`) models `fetch_transcript`. The
  transcript service is a parameter `api` that answers one `Attempt` per
  video and language. Hindi is tried first, and any failure falls back to
  English. The English failure is classified as 404 or 500 with fixed
  details. The segment texts are joined with single spaces.
- `RetrieverCache` (`cache.dfy`) models `VECTOR_STORE_CACHE` and
  `get_retriever` as a `map` from video id to retriever. The vector-store
  construction is a parameter `build`. A `builds` counter records how many
  times `build` ran. The counter is instrumentation only: the source has no
  such field.
- `Ask` (`ask.dfy`) models the `/ask` handler. It fetches the transcript,
  gets the retriever, joins the retrieved page contents with `"\n\n"`, fills
  the prompt template, calls the model (the parameter `llm`) and formats the
  answer. An exception that the handler does not catch becomes
  `ServerError`. FastAPI answers such exceptions with status 500.
- `Results` (`results.dfy`) holds the `Result` datatype used for operations
  that can raise.

Notes on what the code does:

- The code checks the *stripped* line for the leading `*`. A bullet line
  keeps its original indentation; only non-bullet lines are trimmed.
- An answer whose lines are all blank formats to the empty string. The
  "every line is a bullet" property is therefore stated for non-empty
  answers.
- A successful fetch with zero segments yields the empty transcript `""`.
  The code does not reject it.
- The transcript is fetched on every request, even when the video's
  retriever is already cached. A fetch failure fails the request even for
  a cached video (`Ask.CachedVideoStillFetches`). The cache only skips the
  build.
- The handler is `async`, but it calls `fetch_transcript` and
  `get_retriever` without awaiting; its first `await` comes after them.
  So it holds the event loop from the cache lookup through the build and
  the insertion, and within one process requests reach the cache one at a
  time. `RetrieverCache.Serve` models exactly that. Only the chain
  invocation runs in worker threads.
- Failures of the build, the retrieval or the model call are not turned
  into `HTTPException`s. They reach the framework as plain exceptions.

## Model

| member | source | states |
|---|---|---|
| Text.IsSpace | app.py:125 | the characters `strip()` removes: Python's `str.isspace` set (ASCII tab to carriage return, the four information separators, space, next line, no-break space, ogham space, the en quad to hair space block, the line and paragraph separators, the narrow no-break space, the medium mathematical space and the ideographic space). Its meaning is stated through Text.Strip, Text.StripIsInfix and Text.StripUnique |
| Text.Strip | app.py:125 | the stripped line has no whitespace at either end, and it is empty exactly when every character of the line is whitespace |
| Text.StripIsInfix | app.py:125 | `strip()` keeps a contiguous part of the line. Only whitespace lies before and after it, and it contains no character the line lacks |
| Text.StripUnique | app.py:125 | any text that lies between a whitespace prefix and a whitespace suffix, and has no whitespace at either end, is what `strip()` returns |
| Text.StripIdempotent | app.py:125 | stripping a stripped line changes nothing |
| Text.Split | app.py:125 | `split("\n")` returns one more piece than the text has separators, and no piece contains a separator |
| Text.Join | app.py:126 | `sep.join(parts)`. Specified by Text.JoinSplit and Text.SplitJoin (the round trips with `split`) and by Text.JoinLayout (no pieces give `""`; otherwise where every piece and separator sits) |
| Text.JoinSplit | app.py:124-125 | re-joining the pieces of a split with the separator gives back the original text |
| Text.SplitJoin | app.py:124-126 | splitting a join of separator-free lines gives back exactly those lines, when there is at least one line |
| Text.JoinLayout | app.py:80 | joining no pieces gives the empty text. Otherwise the pieces appear in order, each at its offset; each two neighbours are separated by exactly the separator; the length is the sum of the pieces and separators |
| Text.StartsWith | app.py:125 | `str.startswith`: the text begins with the prefix. It is the test inside Formatter.IsBullet, so Formatter.FormatLine's contract states what it decides |
| Formatter.FormatAnswer | app.py:124-126 | `formatted_answer` computed from `answer_text`. Specified by Formatter.AnswerLines, Formatter.AnswerIsBulleted, Formatter.EmptyAnswer, Formatter.FormatIdempotent and Formatter.FormatLiteralExample |
| Formatter.IsBlank | app.py:125 | the filter `if line.strip()` drops exactly these lines: the ones of whitespace only. Specified by Text.Strip (the strip is empty exactly then) and Formatter.NonBlank |
| Formatter.IsBullet | app.py:125 | the test `line.strip().startswith("*")`. Specified by Formatter.FormatLine (a line is kept verbatim exactly when it holds) |
| Formatter.FormatLine | app.py:125 | every formatted line is a non-blank bullet line. It gains no line break. It equals its input exactly when the input's stripped form already starts with `*` |
| Formatter.FormatLineKeepsText | app.py:125 | a non-blank line keeps its text: stripped, the output is the stripped input, with `"* "` in front unless the input was already a bullet. A non-bullet line's output has no whitespace to strip, so it is exactly `"* "` followed by the stripped line |
| Formatter.NonBlank | app.py:125 | the filter keeps only lines that do not strip to nothing, and only lines of the input |
| Formatter.NonBlankAppend | app.py:125 | the filter distributes over concatenation, so it keeps non-blank lines in their original order |
| Formatter.FormatLines | app.py:124-126 | the comprehension yields at most as many lines as it reads. Each is a non-blank bullet line, and none contains a line break if the input lines contain none |
| Formatter.FormatLinesCorrespond | app.py:124-126 | output lines correspond one-to-one and in order with the non-blank input lines: output line i is the formatting of non-blank input line i |
| Formatter.FormatLinesFixed | app.py:125 | a list of non-blank bullet lines passes through the comprehension unchanged |
| Formatter.AnswerLines | app.py:124-126 | the lines of the formatted answer are exactly the formatted non-blank lines of the raw answer. With no such line the answer is "" |
| Formatter.AnswerIsBulleted | app.py:124-126 | every line of a non-empty formatted answer, once stripped, starts with `*`, and no line is empty or whitespace-only |
| Formatter.EmptyAnswer | app.py:124-126 | the formatted answer is empty exactly when every line of the raw answer is blank |
| Formatter.FormatIdempotent | app.py:124-126 | formatting an already formatted answer returns it unchanged |
| Formatter.FormatExample | app.py:124-126 | for three non-empty lines without surrounding whitespace or line breaks (a plain line, a bullet line starting with `*`, a plain line), with an empty line between the last two: the answer is the first line with `"* "` in front, the bullet line unchanged and the last line with `"* "` in front, joined by single line breaks; the empty line is dropped |
| Formatter.FormatLiteralExample | app.py:124-126 | `"Line one\n* Line two\n\nLine three"` formats to `"* Line one\n* Line two\n* Line three"` |
| Transcripts.Classify | app.py:74-79 | disabled transcripts and a missing transcript map to 404, any other English failure maps to 500. The details are the two fixed sentences, or the fixed prefix followed by the exception's message |
| Transcripts.TranscriptText | app.py:80 | the transcript text built from the segment texts. Specified by Transcripts.TranscriptLayout (zero segments give `""`) and Transcripts.TranscriptRoundTrip |
| Transcripts.FetchTranscript | app.py:68-81 | Hindi is always tried first. English is tried exactly when Hindi failed. The fetch succeeds exactly when one of the two attempts returned a transcript. The text is the segments of the attempt that succeeded, Hindi first, joined with single spaces. A failure is the classification of the English attempt |
| Transcripts.HindiFirst | app.py:69-70 | a Hindi transcript is used as is and English is never asked for. The outcome does not depend on what English would answer |
| Transcripts.EnglishDecides | app.py:71-79 | once Hindi fails, for any reason including disabled transcripts, the outcome depends only on the English attempt |
| Transcripts.FetchErrors | app.py:72-79 | a 404 with the disabled detail occurs exactly when Hindi failed and English reported disabled transcripts. A 404 with the not-found detail occurs exactly when English found no transcript. A 500 occurs exactly when English raised anything else, and its detail is the fixed prefix followed by the exception's message. No other status occurs |
| Transcripts.TranscriptLayout | app.py:80 | zero segments give the empty transcript. Otherwise the transcript text holds the segment texts in order, with exactly one space between each two, and nothing else |
| Transcripts.TranscriptRoundTrip | app.py:80 | segments without spaces can be read back by splitting the transcript text on spaces |
| RetrieverCache.Empty | app.py:96 | `VECTOR_STORE_CACHE = {}` at process start: no entries and no builds. Used by RetrieverCache.BuildsFromStart |
| RetrieverCache.GetRetriever | app.py:96-102 | on a hit, the stored retriever is returned and the cache is unchanged, whatever the transcript. On a miss, exactly one build happens. A successful build is inserted under the video id; a failed build leaves the entries unchanged |
| RetrieverCache.GetRetrieverExtends | app.py:98-102 | a lookup never removes or replaces an entry, and the only key it can add is the requested video id |
| RetrieverCache.SecondCallHits | app.py:98-99 | after a successful lookup, a second lookup for the same video returns the same retriever, builds nothing and leaves the cache unchanged, whatever transcript it gets |
| RetrieverCache.FailedBuildRetries | app.py:100-101 | a failed build leaves no entry, so the next request for that video builds again |
| RetrieverCache.Serve | app.py:96-102 | the cache after requests are served one after another. Specified by RetrieverCache.ServeCachesAll, RetrieverCache.ServeBuildsOnce and RetrieverCache.OneBuildPerVideo |
| RetrieverCache.IdsMembers | app.py:110 | a video is among the requested ids exactly when some request asks for it, so `Ids(requests)` is the set of requested videos |
| RetrieverCache.ServeCachesAll | app.py:98-102 | when builds succeed on the requested transcripts, after serving a sequence of requests one by one, the cached videos are exactly those cached before plus every requested video (`Ids(requests)`, which RetrieverCache.IdsMembers characterises) |
| RetrieverCache.ServeBuildsOnce | app.py:98-101 | when builds succeed on the requested transcripts, serving a sequence of requests adds one build for each distinct requested video that was not cached before, and none for repeats. The requested videos are `Ids(requests)`, as RetrieverCache.IdsMembers states |
| RetrieverCache.OneBuildPerVideo | app.py:96-102 | when builds succeed on the requested transcripts, serving any sequence of requests runs exactly one build per video that was not yet cached, and afterwards every requested video is cached |
| RetrieverCache.BuildsFromStart | app.py:96-102 | starting from the empty cache, with builds that succeed on the requested transcripts, the number of builds equals the number of distinct videos requested |
| Ask.ContextBlock | app.py:113 | the context built from the retrieved documents. Specified by Ask.ContextLayout (zero documents give `""`) |
| Ask.ContextLayout | app.py:113 | zero documents give the empty context. Otherwise the context block holds the retrieved page contents in retrieval order. Each two are separated by exactly one blank line (`"\n\n"`), and nothing else is added |
| Ask.RenderPrompt | app.py:50-63 | the prompt is the fixed instructions, the context block verbatim, a blank line and the `Question:` heading, the question verbatim, and a final newline, with nothing else |
| Ask.RenderPromptReadBack | app.py:50-63 | the filled template determines what was filled in: equal prompts for questions of the same length come from the same context and question |
| Ask.Ask | app.py:107-128 | a fetch failure becomes the fetcher's 404/500 error with the cache untouched, even for a cached video, and an HTTP error comes from nowhere else. The cache only grows, by at most one key and at most one build; a request for a cached video changes nothing. A fetched video that is not cached is built exactly once, from the fetched transcript: a successful build is inserted under the video id, and a failed build ends the request with its error. If the video's retriever is cached after the lookup, a failed retrieval, or a failed model call on the prompt built from what was retrieved, ends the request with that failure's error as a server error; when both succeed, the request is answered. An answer leaves the video cached. Its text is the formatting of the model's reply to the prompt built from what the video's cached retriever found for the question, and every line of a non-empty answer is a non-blank bullet line |
| Ask.AskAgainNoBuild | app.py:109-110 | once a request about a video got an answer, the next request about that video builds nothing and leaves the cache unchanged, whatever the question and transcript |
| Ask.CachedIgnoresTranscript | app.py:109-110 | a cached video is answered from its stored retriever: once some transcript is fetched, its content changes neither the response nor the cache |
| Ask.CachedVideoStillFetches | app.py:109-110 | a cached video whose transcripts are disabled still fails with 404 "Transcripts are disabled for this video." |

## Left out

- The transcript service (`YouTubeTranscriptApi().fetch`) is network I/O. It is the parameter `api`, which returns an `Attempt` per video and language.
- `create_dynamic_vector_store` (app.py:86-91) is the parameter `build`. The text splitter (chunk size 1000, overlap 200), the HuggingFace embeddings and the FAISS index are library code that is not visible here and relies on floating-point similarity.
- The retriever's similarity search, including `k = 3`, is the parameter `retrieve`. The model does not bound how many documents it returns.
- The Gemini model call and `StrOutputParser` are the parameter `llm`.
- The worker threads of `run_in_threadpool` are not modelled. Only the chain invocation runs there, and it does not touch the cache. Several server processes would each hold their own cache; one process is modelled.
- `build`, `retrieve` and `llm` are modelled as fixed functions of their inputs. Sampling in the model, which can give two identical prompts different replies, and transient failures are not modelled. Ask.CachedIgnoresTranscript's "same response" relies on this.
- FastAPI routing, CORS, the pydantic request model, the `/health` endpoint and the API-key environment setup (app.py:20) are configuration or plumbing.
- `script.js` is browser UI code. It posts `video_url` while the backend expects `video_id`; that mismatch is between the two programs, not logic of the core.
- Ask.Ask: an uncaught exception is modelled as `ServerError(cause)`. FastAPI's own 500 response body ("Internal Server Error") is not modelled.
- RetrieverCache.OneBuildPerVideo: the exact build count is stated for builds that succeed on every requested transcript. When a requested build fails, every retry builds again (RetrieverCache.FailedBuildRetries), so the count then depends on the order of the requests.
- Text.Split: only one-character separators are modelled. That is all the source uses.
