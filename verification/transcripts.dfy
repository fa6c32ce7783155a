/** The transcript fetcher (app.py, `fetch_transcript`): try the Hindi
    transcript, fall back to English on any failure, classify the English
    failure as an HTTP error, and join the segment texts with single spaces. */
module Transcripts {
  import opened Text
  import opened Results

  /** The id of a YouTube video, as the request carries it. */
  type VideoId = String

  /** The two languages the fetcher asks for, "hi" and then "en". */
  datatype Language = Hindi | English

  /** What one call to the transcript service for one language yields: the
      texts of the transcript's segments in time order, or the exception it
      raised. */
  datatype Attempt =
    | Fetched(segments: seq<String>)
    | TranscriptsDisabled
    | NoTranscriptFound
    | Failed(message: String)

  /** The `HTTPException` the fetcher raises: a status code and a detail. */
  datatype HttpError = HttpError(status: int, detail: String)

  /** One run of the fetcher: the languages it asked for, in order, and the
      transcript text or the HTTP error it raised. */
  datatype Fetch = Fetch(tried: seq<Language>, result: Result<String, HttpError>)

  const DisabledDetail: String := "Transcripts are disabled for this video."
  const NotFoundDetail: String := "No transcript found in Hindi or English."
  const FailurePrefix: String := "Error fetching English transcript: "

  /** The transcript text: the segment texts joined with one space each. */
  function TranscriptText(segments: seq<String>): String
  {
    Join(segments, " ")
  }

  /** How the English attempt's exception becomes an HTTP error. */
  function Classify(english: Attempt): (e: HttpError)
    requires !english.Fetched?
    ensures e.status == 404 <==> english.TranscriptsDisabled? || english.NoTranscriptFound?
    ensures e.status == 500 <==> english.Failed?
    ensures english.TranscriptsDisabled? ==> e.detail == DisabledDetail
    ensures english.NoTranscriptFound? ==> e.detail == NotFoundDetail
    ensures english.Failed? ==>
      StartsWith(e.detail, FailurePrefix) && e.detail[|FailurePrefix|..] == english.message
  {
    match english
    case TranscriptsDisabled => HttpError(404, DisabledDetail)
    case NoTranscriptFound => HttpError(404, NotFoundDetail)
    case Failed(message) =>
      var d := FailurePrefix + message;
      assert d[..|FailurePrefix|] == FailurePrefix;
      HttpError(500, d)
  }

  /** `fetch_transcript(video_id)` against a transcript service `api`, which
      answers one attempt per video id and language. */
  function FetchTranscript(videoId: VideoId, api: (VideoId, Language) -> Attempt): (f: Fetch)
    ensures 1 <= |f.tried| <= 2 && f.tried[0] == Hindi
    ensures f.tried == [Hindi] <==> api(videoId, Hindi).Fetched?
    ensures |f.tried| == 2 ==> f.tried[1] == English
    ensures f.result.Success? <==>
      api(videoId, Hindi).Fetched? || api(videoId, English).Fetched?
    ensures api(videoId, Hindi).Fetched? ==>
      f.result == Success(TranscriptText(api(videoId, Hindi).segments))
    ensures !api(videoId, Hindi).Fetched? && api(videoId, English).Fetched? ==>
      f.result == Success(TranscriptText(api(videoId, English).segments))
    ensures f.result.Failure? ==>
      !api(videoId, English).Fetched? && f.result.error == Classify(api(videoId, English))
  {
    match api(videoId, Hindi)
    case Fetched(segments) => Fetch([Hindi], Success(TranscriptText(segments)))
    case _ =>
      var english := api(videoId, English);
      if english.Fetched? then
        Fetch([Hindi, English], Success(TranscriptText(english.segments)))
      else
        Fetch([Hindi, English], Failure(Classify(english)))
  }

  /** A Hindi transcript wins: English is never asked for, and the text is
      the Hindi segments joined, whatever English would have answered. */
  lemma HindiFirst(videoId: VideoId, api: (VideoId, Language) -> Attempt, api': (VideoId, Language) -> Attempt)
    requires api(videoId, Hindi).Fetched?
    requires api'(videoId, Hindi) == api(videoId, Hindi)
    ensures FetchTranscript(videoId, api).tried == [Hindi]
    ensures FetchTranscript(videoId, api).result
         == Success(TranscriptText(api(videoId, Hindi).segments))
    ensures FetchTranscript(videoId, api') == FetchTranscript(videoId, api)
  {
  }

  /** When Hindi fails, for whatever reason (transcripts disabled included),
      the outcome depends on the English attempt alone. */
  lemma EnglishDecides(videoId: VideoId, api: (VideoId, Language) -> Attempt, api': (VideoId, Language) -> Attempt)
    requires !api(videoId, Hindi).Fetched? && !api'(videoId, Hindi).Fetched?
    requires api(videoId, English) == api'(videoId, English)
    ensures FetchTranscript(videoId, api) == FetchTranscript(videoId, api')
    ensures FetchTranscript(videoId, api).tried == [Hindi, English]
  {
  }

  /** The error classification of the whole fetcher: a not-found error
      exactly when Hindi failed and English reported disabled transcripts or
      no transcript, with the fixed details; an internal error exactly when
      Hindi failed and English raised anything else, with its message after
      the fixed prefix. */
  lemma FetchErrors(videoId: VideoId, api: (VideoId, Language) -> Attempt)
    ensures var f := FetchTranscript(videoId, api);
      && (f.result == Failure(HttpError(404, DisabledDetail)) <==>
            !api(videoId, Hindi).Fetched? && api(videoId, English).TranscriptsDisabled?)
      && (f.result == Failure(HttpError(404, NotFoundDetail)) <==>
            !api(videoId, Hindi).Fetched? && api(videoId, English).NoTranscriptFound?)
      && (f.result.Failure? && f.result.error.status == 500 <==>
            !api(videoId, Hindi).Fetched? && api(videoId, English).Failed?)
      && (f.result.Failure? ==> f.result.error.status in {404, 500})
      && (!api(videoId, Hindi).Fetched? && api(videoId, English).Failed? ==>
            f.result == Failure(HttpError(500, FailurePrefix + api(videoId, English).message)))
  {
    var f := FetchTranscript(videoId, api);
    if f.result.Failure? && f.result.error.status == 404 {
      assert !api(videoId, English).Failed?;
    }
    assert DisabledDetail != NotFoundDetail by {
      assert DisabledDetail[0] != NotFoundDetail[0];
    }
  }

  /** The transcript text holds the segments in order, each followed by
      exactly one space except the last, and nothing else; no segments give
      the empty text. */
  lemma TranscriptLayout(segments: seq<String>)
    ensures segments == [] ==> TranscriptText(segments) == []
    ensures segments != [] ==> |TranscriptText(segments)| + 1 == Offset(segments, " ", |segments|)
    ensures forall i :: 0 <= i < |segments| ==> PieceAt(TranscriptText(segments), segments, " ", i)
    ensures forall i :: 0 <= i < |segments| - 1 ==> SeparatorAfter(TranscriptText(segments), segments, " ", i)
  {
    JoinLayout(segments, " ");
  }

  /** Segments without spaces can be read back from the transcript text. */
  lemma TranscriptRoundTrip(segments: seq<String>)
    requires |segments| >= 1
    requires forall i :: 0 <= i < |segments| ==> ' ' !in segments[i]
    ensures Split(TranscriptText(segments), ' ') == segments
  {
    SplitJoin(segments, ' ');
  }
}
