/** The serverless download endpoint api/download.js: the guard chain, the
    filename, the itag lookup, the rejection of formats that would need a
    merge on Vercel, and the direct stream otherwise. The stream's error
    replies are `Http.StreamErrorReplies`. */
module ApiDownload {
  import opened Wrappers
  import opened Formats
  import opened VideoInfo
  import opened Http
  import opened Title
  import opened Delivery

  const ParamsRequired: string := "URL and itag parameters are required"
  const VercelUnsupported: string := "High-quality format not supported in Vercel deployment"
  const VercelDetails: string :=
    "This high-quality format requires merging audio and video streams, which is not supported in our " +
    "serverless deployment. Please select a format with both audio and video, or use the local version " +
    "of the app for high-quality downloads."
  const VercelSuggestion: string :=
    "Please select a format with \"hasAudio: true\" or use our desktop/local version for high-quality downloads."

  /** The guard chain of api/download.js:10-28: the response it short-cuts
      with, or None when the request goes on to the upstream fetch. */
  function DownloadGuard(req: Request, isValid: string -> bool): (r: Option<Response>)
    ensures req.verb == "OPTIONS" ==> r == Some(Response(200, NoBody))
    ensures req.verb != "OPTIONS" && req.verb != "GET" ==> r == Some(Response(405, ErrorBody(MethodNotAllowed)))
    ensures req.verb == "GET" && (Missing(req.url) || Missing(req.itag)) ==>
              r == Some(Response(400, ErrorBody(ParamsRequired)))
    ensures req.verb == "GET" && !Missing(req.url) && !Missing(req.itag) && !isValid(req.url.value) ==>
              r == Some(Response(400, ErrorBody(InvalidUrlMessage)))
    ensures r.None? <==> req.verb == "GET" && !Missing(req.url) && !Missing(req.itag) && isValid(req.url.value)
  {
    if req.verb == "OPTIONS" then Some(Response(200, NoBody))
    else if req.verb != "GET" then Some(Response(405, ErrorBody(MethodNotAllowed)))
    else if Missing(req.url) || Missing(req.itag) then Some(Response(400, ErrorBody(ParamsRequired)))
    else if !isValid(req.url.value) then Some(Response(400, ErrorBody(InvalidUrlMessage)))
    else None
  }

  /** The handler's reply: the Content-Disposition filename it sets, the
      response it starts (a JSON reply or the piped stream), and the 500
      replies the stream's error handler writes afterwards, which replace the
      stream when an error comes before any chunk. */
  datatype Reply = Reply(filename: Option<string>, response: Response, streamErrors: seq<Response>)

  /** The handler of api/download.js. `isValid` stands for `ytdl.validateURL`,
      `vercel` for `process.env.VERCEL`, `info` for the outcome of
      `ytdl.getInfo` and `events` for what the piped stream reports. */
  function HandleDownload(req: Request, isValid: string -> bool, vercel: Option<string>,
                          info: Result<UpstreamInfo, string>, events: seq<StreamEvent>): (r: Reply)
    ensures DownloadGuard(req, isValid).Some? ==> r == Reply(None, DownloadGuard(req, isValid).value, [])
    ensures DownloadGuard(req, isValid).None? && info.Failure? ==>
              r == Reply(None, Response(500, ErrorDetailsBody(DownloadVideoFailed, info.error)), [])
    ensures r.response.body.StreamBody? ==> r.streamErrors == StreamErrorReplies(events, false)
    ensures !r.response.body.StreamBody? ==> r.streamErrors == []
    ensures r.filename.Some? <==> DownloadGuard(req, isValid).None? && info.Success?
    ensures r.filename.Some? ==>
              var formats := info.value.formats;
              var found := FindByItag(formats, LooseKey(req.itag.value));
              && r.filename == Some(Filename(info.value.videoDetails.title))
              && (found.None? ==> r.response == Response(400, ErrorBody(FormatNotFound)))
              && (found.Some? ==>
                    var f := formats[found.value];
                    && (r.response.body.RejectionBody? <==> !f.hasAudio && f.hasVideo && IsVercel(vercel))
                    && (r.response.body.RejectionBody? ==>
                          r.response == Response(400, RejectionBody(VercelUnsupported, VercelDetails, VercelSuggestion)))
                    && (!r.response.body.RejectionBody? ==> r.response == Response(200, StreamBody(f))))
  {
    match DownloadGuard(req, isValid)
    case Some(resp) => Reply(None, resp, [])
    case None =>
      match info
      case Failure(e) => Reply(None, Response(500, ErrorDetailsBody(DownloadVideoFailed, e)), [])
      case Success(upstream) =>
        var filename := Some(Filename(upstream.videoDetails.title));
        match FindByItag(upstream.formats, LooseKey(req.itag.value))
        case None => Reply(filename, Response(400, ErrorBody(FormatNotFound)), [])
        case Some(i) =>
          var f := upstream.formats[i];
          if !f.hasAudio && f.hasVideo && IsVercel(vercel) then
            Reply(filename, Response(400, RejectionBody(VercelUnsupported, VercelDetails, VercelSuggestion)), [])
          else Reply(filename, Response(200, StreamBody(f)), StreamErrorReplies(events, false))
  }

  /** Requests the guards turn away never depend on the upstream outcome, the
      stream or the environment: no fetch happens before the guards pass. */
  lemma GuardsPrecedeFetch(req: Request, isValid: string -> bool, vercel1: Option<string>, vercel2: Option<string>,
                           info1: Result<UpstreamInfo, string>, info2: Result<UpstreamInfo, string>,
                           events1: seq<StreamEvent>, events2: seq<StreamEvent>)
    requires DownloadGuard(req, isValid).Some?
    ensures HandleDownload(req, isValid, vercel1, info1, events1) == HandleDownload(req, isValid, vercel2, info2, events2)
  {
  }

  /** There is no merge path here: every reply to a found format is the
      rejection or a direct stream of that very format, and off Vercel it is
      always the stream. */
  lemma OffVercelAlwaysStreams(req: Request, isValid: string -> bool, vercel: Option<string>,
                               info: Result<UpstreamInfo, string>, events: seq<StreamEvent>)
    requires !IsVercel(vercel)
    requires DownloadGuard(req, isValid).None? && info.Success?
    requires FindByItag(info.value.formats, LooseKey(req.itag.value)).Some?
    ensures HandleDownload(req, isValid, vercel, info, events).response ==
              Response(200, StreamBody(info.value.formats[FindByItag(info.value.formats, LooseKey(req.itag.value)).value]))
  {
  }
}
