/** The request and response shapes the handlers read and write, and the
    `headersSent` guard on error replies written from stream events
    (server.js:204-211, api/download.js:86-94). */
module Http {
  import opened Wrappers
  import opened Formats
  import opened VideoInfo

  /** A request as far as the handlers look at it: the method and the `url`
      and `itag` query parameters (None when absent). */
  datatype Request = Request(verb: string, url: Option<string>, itag: Option<string>)

  /** The bodies the handlers write. */
  datatype Body =
    | NoBody
    | ErrorBody(error: string)
    | ErrorDetailsBody(error: string, details: string)
    | RejectionBody(error: string, details: string, suggestedAction: string)
    | InfoBody(info: Info)
    | StreamBody(format: RawFormat)

  datatype Response = Response(status: nat, body: Body)

  const MethodNotAllowed: string := "Method not allowed"
  const DownloadFailed: string := "Download failed"
  const FormatNotFound: string := "Requested format not found"
  const DownloadVideoFailed: string := "Failed to download video"

  /** `!p` for a query parameter: absent or empty. */
  predicate Missing(p: Option<string>) {
    p.None? || p.value == ""
  }

  /** What a download stream reports after it has been piped to the response:
      a chunk written to the client (which sends the headers), or an error. */
  datatype StreamEvent = Chunk | StreamError(message: string)

  /** The 500 replies written by the stream's error handler
      `if (!res.headersSent) res.status(500).json(...)`, starting from the
      given `headersSent`. */
  function StreamErrorReplies(events: seq<StreamEvent>, headersSent: bool): (r: seq<Response>)
    ensures forall i :: 0 <= i < |r| ==> r[i].status == 500
  {
    if events == [] then []
    else match events[0]
      case Chunk => StreamErrorReplies(events[1..], true)
      case StreamError(m) =>
        if headersSent then StreamErrorReplies(events[1..], true)
        else [Response(500, ErrorDetailsBody(DownloadFailed, m))] + StreamErrorReplies(events[1..], true)
  }

  /** Once headers are sent no stream error is answered. */
  lemma {:induction false} NoRepliesAfterHeaders(events: seq<StreamEvent>)
    ensures StreamErrorReplies(events, true) == []
  {
    if events != [] {
      NoRepliesAfterHeaders(events[1..]);
    }
  }

  /** At most one error reply is written, and it is written exactly when an
      error comes before any chunk and headers were not already sent; it
      carries that first error's message. */
  lemma {:induction false} StreamErrorRepliesAtMostOne(events: seq<StreamEvent>, headersSent: bool)
    ensures |StreamErrorReplies(events, headersSent)| <= 1
    ensures |StreamErrorReplies(events, headersSent)| == 1 <==>
              !headersSent && events != [] && events[0].StreamError?
    ensures !headersSent && events != [] && events[0].StreamError? ==>
              StreamErrorReplies(events, headersSent) ==
                [Response(500, ErrorDetailsBody(DownloadFailed, events[0].message))]
  {
    if events != [] {
      NoRepliesAfterHeaders(events[1..]);
    }
  }
}
