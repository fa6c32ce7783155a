/** The retriever cache (app.py, `VECTOR_STORE_CACHE` and `get_retriever`):
    a process-wide map from video id to the retriever built from that
    video's transcript, filled on first use and never invalidated. */
module RetrieverCache {
  import opened Text
  import opened Results
  import opened Transcripts

  /** The cache's map, plus the number of times a retriever was built.
      The count is instrumentation: the source keeps no such counter, it
      stands for the observable cost of a build. */
  datatype Cache<R> = Cache(entries: map<VideoId, R>, builds: nat)

  /** The cache at process start. */
  function Empty<R>(): Cache<R>
  {
    Cache(map[], 0)
  }

  /** `get_retriever(transcript, video_id)`, with the vector-store
      construction (`create_dynamic_vector_store`) as the function `build`,
      which yields a retriever or the message of the exception it raised.
      A hit returns the stored retriever and ignores the transcript; a miss
      builds and then inserts, so a failed build inserts nothing. */
  function GetRetriever<R>(cache: Cache<R>, transcript: String, videoId: VideoId,
                           build: String -> Result<R, String>): (out: (Result<R, String>, Cache<R>))
    ensures videoId in cache.entries ==>
      out.0 == Success(cache.entries[videoId]) && out.1 == cache
    ensures videoId !in cache.entries ==>
      && out.0 == build(transcript)
      && out.1.builds == cache.builds + 1
      && (out.0.Success? ==> out.1.entries == cache.entries[videoId := out.0.value])
      && (out.0.Failure? ==> out.1.entries == cache.entries)
    ensures out.0.Success? ==> videoId in out.1.entries && out.1.entries[videoId] == out.0.value
  {
    if videoId in cache.entries then
      (Success(cache.entries[videoId]), cache)
    else
      match build(transcript)
      case Success(retriever) =>
        (Success(retriever), Cache(cache.entries[videoId := retriever], cache.builds + 1))
      case Failure(e) =>
        (Failure(e), Cache(cache.entries, cache.builds + 1))
  }

  /** Every entry of `small` is in `large` with the same retriever. */
  ghost predicate Extends<R>(large: map<VideoId, R>, small: map<VideoId, R>) {
    forall k :: k in small ==> k in large && large[k] == small[k]
  }

  /** The cache only grows: no lookup removes or replaces an entry, and the
      only key that can appear is the one asked for. */
  lemma GetRetrieverExtends<R>(cache: Cache<R>, transcript: String, videoId: VideoId,
                               build: String -> Result<R, String>)
    ensures var c := GetRetriever(cache, transcript, videoId, build).1;
      && Extends(c.entries, cache.entries)
      && c.entries.Keys <= cache.entries.Keys + {videoId}
      && c.builds >= cache.builds
  {
  }

  /** Asking twice for the same video returns the same retriever, and the
      second call builds nothing and changes nothing, whatever transcript it
      is given; once a build succeeded the video is never built again. */
  lemma SecondCallHits<R>(cache: Cache<R>, t1: String, t2: String, videoId: VideoId,
                          build: String -> Result<R, String>)
    requires GetRetriever(cache, t1, videoId, build).0.Success?
    ensures var (r1, c1) := GetRetriever(cache, t1, videoId, build);
      var (r2, c2) := GetRetriever(c1, t2, videoId, build);
      r2 == r1 && c2 == c1
  {
  }

  /** A failed build leaves no entry, so the next request for that video
      builds again. */
  lemma FailedBuildRetries<R>(cache: Cache<R>, t1: String, t2: String, videoId: VideoId,
                              build: String -> Result<R, String>)
    requires GetRetriever(cache, t1, videoId, build).0.Failure?
    ensures var c1 := GetRetriever(cache, t1, videoId, build).1;
      && videoId !in c1.entries
      && GetRetriever(c1, t2, videoId, build).1.builds == c1.builds + 1
  {
  }

  /** One request to the cache: the video and the transcript fetched for it. */
  datatype Request = Request(videoId: VideoId, transcript: String)

  /** The video ids of a sequence of requests. */
  function Ids(requests: seq<Request>): set<VideoId>
    decreases |requests|
  {
    if |requests| == 0 then {} else {requests[0].videoId} + Ids(requests[1..])
  }

  /** A video is among the ids exactly when some request asks for it. */
  lemma {:induction false} IdsMembers(requests: seq<Request>, v: VideoId)
    ensures v in Ids(requests) <==> exists i :: 0 <= i < |requests| && requests[i].videoId == v
    decreases |requests|
  {
    if |requests| > 0 {
      IdsMembers(requests[1..], v);
      if v in Ids(requests[1..]) {
        var i :| 0 <= i < |requests[1..]| && requests[1..][i].videoId == v;
        assert requests[i + 1].videoId == v;
      }
      if exists i :: 0 <= i < |requests| && requests[i].videoId == v {
        var i :| 0 <= i < |requests| && requests[i].videoId == v;
        if i > 0 {
          assert requests[1..][i - 1].videoId == v;
        }
      }
    }
  }

  /** The cache after serving `requests` one after the other. */
  function Serve<R>(cache: Cache<R>, requests: seq<Request>,
                    build: String -> Result<R, String>): Cache<R>
    decreases |requests|
  {
    if |requests| == 0 then
      cache
    else
      var next := GetRetriever(cache, requests[0].transcript, requests[0].videoId, build).1;
      Serve(next, requests[1..], build)
  }

  /** Counting the videos a run will build: the first request's video is
      new or not, and the rest are counted against the grown key set. */
  lemma CountUncached(keys: set<VideoId>, v: VideoId, later: set<VideoId>)
    ensures |({v} + later) - keys| == |later - (keys + {v})| + (if v in keys then 0 else 1)
  {
    var all := ({v} + later) - keys;
    if v in keys {
      assert later - (keys + {v}) == all;
    } else {
      assert later - (keys + {v}) == all - {v};
      assert all == (all - {v}) + {v};
    }
  }

  /** One request against a build that succeeds: the key set gains the
      video, and a build happens exactly when it was not cached. */
  lemma ServeOne<R>(cache: Cache<R>, request: Request, build: String -> Result<R, String>)
    requires build(request.transcript).Success?
    ensures var next := GetRetriever(cache, request.transcript, request.videoId, build).1;
      && next.entries.Keys == cache.entries.Keys + {request.videoId}
      && next.builds == cache.builds + (if request.videoId in cache.entries then 0 else 1)
  {
  }

  /** Builds that succeed on every requested transcript succeed on those
      of the remaining requests. */
  lemma RestSucceed<R>(requests: seq<Request>, build: String -> Result<R, String>)
    requires |requests| > 0
    requires forall i :: 0 <= i < |requests| ==> build(requests[i].transcript).Success?
    ensures forall i :: 0 <= i < |requests[1..]| ==> build(requests[1..][i].transcript).Success?
  {
  }

  /** When building succeeds on every requested transcript, every requested
      video ends up cached. */
  lemma {:induction false} ServeCachesAll<R>(cache: Cache<R>, requests: seq<Request>,
                                             build: String -> Result<R, String>)
    requires forall i :: 0 <= i < |requests| ==> build(requests[i].transcript).Success?
    ensures Serve(cache, requests, build).entries.Keys == cache.entries.Keys + Ids(requests)
    decreases |requests|
  {
    if |requests| > 0 {
      var next := GetRetriever(cache, requests[0].transcript, requests[0].videoId, build).1;
      assert Serve(cache, requests, build) == Serve(next, requests[1..], build);
      ServeOne(cache, requests[0], build);
      RestSucceed(requests, build);
      ServeCachesAll(next, requests[1..], build);
    }
  }

  /** When building succeeds on every requested transcript, serving builds
      once per uncached video. */
  lemma {:induction false} ServeBuildsOnce<R>(cache: Cache<R>, requests: seq<Request>,
                                              build: String -> Result<R, String>)
    requires forall i :: 0 <= i < |requests| ==> build(requests[i].transcript).Success?
    ensures Serve(cache, requests, build).builds
         == cache.builds + |Ids(requests) - cache.entries.Keys|
    decreases |requests|
  {
    if |requests| > 0 {
      var v := requests[0].videoId;
      var next := GetRetriever(cache, requests[0].transcript, v, build).1;
      assert Serve(cache, requests, build) == Serve(next, requests[1..], build);
      ServeOne(cache, requests[0], build);
      RestSucceed(requests, build);
      ServeBuildsOnce(next, requests[1..], build);
      CountUncached(cache.entries.Keys, v, Ids(requests[1..]));
    } else {
      assert Ids(requests) == {};
    }
  }

  /** When building succeeds on every requested transcript, serving a
      sequence of requests builds exactly once per video that was not cached
      yet, and afterwards every requested video is cached. */
  lemma OneBuildPerVideo<R>(cache: Cache<R>, requests: seq<Request>,
                            build: String -> Result<R, String>)
    requires forall i :: 0 <= i < |requests| ==> build(requests[i].transcript).Success?
    ensures Serve(cache, requests, build).entries.Keys == cache.entries.Keys + Ids(requests)
    ensures Serve(cache, requests, build).builds
         == cache.builds + |Ids(requests) - cache.entries.Keys|
  {
    ServeCachesAll(cache, requests, build);
    ServeBuildsOnce(cache, requests, build);
  }

  /** From process start, with builds that succeed on every requested
      transcript, the number of builds is the number of distinct videos
      asked about. */
  lemma BuildsFromStart<R>(requests: seq<Request>, build: String -> Result<R, String>)
    requires forall i :: 0 <= i < |requests| ==> build(requests[i].transcript).Success?
    ensures Serve(Empty(), requests, build).builds == |Ids(requests)|
    ensures Serve(Empty(), requests, build).entries.Keys == Ids(requests)
  {
    OneBuildPerVideo(Empty(), requests, build);
    assert Ids(requests) - {} == Ids(requests);
  }
}
