/** The serverless metadata endpoint api/formats.js: its `getVideoInfo` with
    the retry loop around the upstream fetch (api/formats.js:8-146), which
    runs the same normaliser as server.js, and the request handler's guard
    chain (api/formats.js:148-185). Each upstream attempt's outcome is
    given in advance as one element of an oracle sequence. */
module ApiFormats {
  import opened Wrappers
  import opened Formats
  import opened Normalizer
  import opened VideoInfo
  import opened Http

  const MaxRetries: nat := 3
  const GenericMessage: string :=
    "Failed to extract video information. " + "Please try a different video " + "or a simpler URL."

  /** One call of `ytdl.getInfo`: the info it returns, or the message it throws. */
  type Attempt = Result<UpstreamInfo, string>

  /** An attempt that ends the loop: the fetch succeeds and the normaliser
      keeps at least one format (otherwise it throws inside the try). */
  predicate Good(a: Attempt) {
    a.Success? && HasKeepable(a.value.formats)
  }

  /** Index of the first good attempt, or |attempts| when there is none. */
  function FirstGood(attempts: seq<Attempt>): (r: nat)
    ensures r <= |attempts|
    ensures r < |attempts| ==> Good(attempts[r])
    ensures forall i :: 0 <= i < r ==> !Good(attempts[i])
  {
    if attempts == [] then 0 else if Good(attempts[0]) then 0 else 1 + FirstGood(attempts[1..])
  }

  function Pow2(k: nat): (r: nat)
    ensures r >= 1
  {
    if k == 0 then 1 else 2 * Pow2(k - 1)
  }

  /** The wait after the k-th failure (k counted from 1), `2^k * 1000` ms. */
  function BackoffDelay(k: nat): nat {
    Pow2(k) * 1000
  }

  /** The waits that follow `failures` consecutive failed attempts: one after
      each failure except one that exhausts the retries. */
  function Waits(failures: nat): (r: seq<nat>)
    requires failures <= MaxRetries
    ensures |r| == if failures < MaxRetries then failures else MaxRetries - 1
    ensures forall i :: 0 <= i < |r| ==> r[i] == BackoffDelay(i + 1)
  {
    if failures == 0 then []
    else Waits(failures - 1) + (if failures < MaxRetries then [BackoffDelay(failures)] else [])
  }

  /** The waits are 2000 ms and then 4000 ms; nothing follows the last attempt. */
  lemma WaitsValues()
    ensures Waits(1) == [2000]
    ensures Waits(2) == [2000, 4000]
    ensures Waits(3) == [2000, 4000]
  {
    assert Pow2(2) == 4;
  }

  /** `getVideoInfo` of api/formats.js. `urlValid` is `ytdl.validateURL(url)`;
      `attempts[i]` is the outcome of the (i+1)-th `ytdl.getInfo` call. Returns
      the response, the number of fetches made and the waits observed. */
  method FetchWithRetry(urlValid: bool, attempts: seq<Attempt>)
      returns (r: Result<Info, string>, fetches: nat, waits: seq<nat>)
    requires |attempts| >= MaxRetries
    ensures !urlValid ==> r == Failure(GenericMessage) && fetches == 0 && waits == []
    ensures urlValid ==>
              var k := FirstGood(attempts[..MaxRetries]);
              && (r.Success? <==> k < MaxRetries)
              && fetches == (if k < MaxRetries then k + 1 else MaxRetries)
              && waits == Waits(if k < MaxRetries then k else MaxRetries)
    ensures r.Failure? ==> r.error == GenericMessage
    ensures r.Success? ==>
              var a := attempts[FirstGood(attempts[..MaxRetries])].value;
              && IsCatalog(r.value.formats, Candidates(a.formats), a.videoDetails.lengthSeconds)
              && r.value == BuildInfo(a.videoDetails, r.value.formats)
  {
    fetches, waits := 0, [];
    if !urlValid {
      return Failure(GenericMessage), fetches, waits;
    }
    ghost var window := attempts[..MaxRetries];
    var retries := 0;
    while retries < MaxRetries
      invariant 0 <= retries <= MaxRetries
      invariant fetches == retries
      invariant forall i :: 0 <= i < retries ==> !Good(window[i])
      invariant waits == Waits(retries)
    {
      fetches := fetches + 1;
      var outcome := attempts[retries];
      if outcome.Success? {
        var info := outcome.value;
        var catalog := NormaliseFormats(info.formats, info.videoDetails.lengthSeconds);
        if catalog.Success? {
          return Success(BuildInfo(info.videoDetails, catalog.value)), fetches, waits;
        }
      }
      retries := retries + 1;
      if retries < MaxRetries {
        waits := waits + [BackoffDelay(retries)];
      }
    }
    r := Failure(GenericMessage);
  }

  const UrlRequired: string := "URL parameter is required"
  const FetchFailed: string := "Failed to fetch video information"

  /** The guard chain of api/formats.js:155-173: the response it short-cuts
      with, or None when the request reaches `getVideoInfo`. */
  function FormatsGuard(req: Request, isValid: string -> bool): (r: Option<Response>)
    ensures req.verb == "OPTIONS" ==> r == Some(Response(200, NoBody))
    ensures req.verb != "OPTIONS" && req.verb != "GET" ==> r == Some(Response(405, ErrorBody(MethodNotAllowed)))
    ensures req.verb == "GET" && Missing(req.url) ==> r == Some(Response(400, ErrorBody(UrlRequired)))
    ensures req.verb == "GET" && !Missing(req.url) && !isValid(req.url.value) ==>
              r == Some(Response(400, ErrorBody(InvalidUrlMessage)))
    ensures r.None? <==> req.verb == "GET" && !Missing(req.url) && isValid(req.url.value)
  {
    if req.verb == "OPTIONS" then Some(Response(200, NoBody))
    else if req.verb != "GET" then Some(Response(405, ErrorBody(MethodNotAllowed)))
    else if Missing(req.url) then Some(Response(400, ErrorBody(UrlRequired)))
    else if !isValid(req.url.value) then Some(Response(400, ErrorBody(InvalidUrlMessage)))
    else None
  }

  /** The handler of api/formats.js. `isValid` stands for `ytdl.validateURL`. */
  method HandleFormats(req: Request, isValid: string -> bool, attempts: seq<Attempt>)
      returns (resp: Response, fetches: nat, waits: seq<nat>)
    requires |attempts| >= MaxRetries
    ensures FormatsGuard(req, isValid).Some? ==>
              resp == FormatsGuard(req, isValid).value && fetches == 0 && waits == []
    ensures fetches > 0 ==> FormatsGuard(req, isValid).None?
    ensures FormatsGuard(req, isValid).None? ==>
              var k := FirstGood(attempts[..MaxRetries]);
              && fetches == (if k < MaxRetries then k + 1 else MaxRetries)
              && waits == Waits(if k < MaxRetries then k else MaxRetries)
              && (resp.status == 200 <==> k < MaxRetries)
              && (resp.status == 200 ==>
                    var a := attempts[k].value;
                    && resp.body.InfoBody?
                    && IsCatalog(resp.body.info.formats, Candidates(a.formats), a.videoDetails.lengthSeconds)
                    && resp.body.info == BuildInfo(a.videoDetails, resp.body.info.formats))
              && (resp.status != 200 ==> resp == Response(500, ErrorDetailsBody(FetchFailed, GenericMessage)))
  {
    var guard := FormatsGuard(req, isValid);
    if guard.Some? {
      return guard.value, 0, [];
    }
    var r;
    r, fetches, waits := FetchWithRetry(isValid(req.url.value), attempts);
    if r.Success? {
      resp := Response(200, InfoBody(r.value));
    } else {
      resp := Response(500, ErrorDetailsBody(FetchFailed, r.error));
    }
  }
}
