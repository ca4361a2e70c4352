/** `downloadVideo` of server.js (server.js:157-375) as a state machine over
    one response: which temporary files exist, whether headers have been
    sent, the error replies written and the Content-Disposition filename.
    The upstream fetch, the two downloads, the ffmpeg remux and the
    response's 'finish' event are given as outcomes. */
module ServerDownload {
  import opened Wrappers
  import opened Formats
  import opened VideoInfo
  import opened Http
  import opened Title
  import opened Delivery

  /** The three paths `video-<t>.mp4`, `audio-<t>.mp4` and `output-<t>.mp4`
      of one merge. */
  datatype TempFile = VideoTemp | AudioTemp | OutputTemp

  /** The order in which both cleanup blocks unlink the temporary files. */
  const CleanupOrder: seq<TempFile> := [VideoTemp, AudioTemp, OutputTemp]
  const AllTemps: set<TempFile> := {VideoTemp, AudioTemp, OutputTemp}

  const MergeFailedMessage: string := "Failed to merge video and audio"

  /** The 'finish' cleanup (server.js:325-334): `unlinkSync` of each path in
      order inside one try, so an absent file or a failing unlink abandons the
      rest. `failing` are the files whose unlink throws although they exist. */
  function UnlinkInOrder(files: set<TempFile>, order: seq<TempFile>, failing: set<TempFile>): (r: set<TempFile>)
    ensures r <= files
    ensures files - r <= Named(order) - failing
    ensures order != [] && (order[0] !in files || order[0] in failing) ==> r == files
  {
    if order == [] || order[0] !in files || order[0] in failing then files
    else
      NamedCons(order);
      var r := UnlinkInOrder(files - {order[0]}, order[1..], failing);
      assert forall x :: x in files - r ==> x == order[0] || x in (files - {order[0]}) - r;
      r
  }

  /** The failure cleanup (server.js:340-346): each path is unlinked only if it
      exists, still inside one try, so only a failing unlink abandons the rest. */
  function UnlinkExisting(files: set<TempFile>, order: seq<TempFile>, failing: set<TempFile>): (r: set<TempFile>)
    ensures r <= files
    ensures files - r <= Named(order) - failing
    ensures order != [] && order[0] in files && order[0] in failing ==> r == files
  {
    if order == [] then files
    else if order[0] !in files then
      NamedCons(order);
      UnlinkExisting(files, order[1..], failing)
    else if order[0] in failing then files
    else
      NamedCons(order);
      var r := UnlinkExisting(files - {order[0]}, order[1..], failing);
      assert forall x :: x in files - r ==> x == order[0] || x in (files - {order[0]}) - r;
      r
  }

  /** The files named in order. */
  function Named(order: seq<TempFile>): set<TempFile> {
    set i | 0 <= i < |order| :: order[i]
  }

  lemma NamedCons(order: seq<TempFile>)
    requires order != []
    ensures Named(order) == {order[0]} + Named(order[1..])
  {
    assert forall i :: 0 < i < |order| ==> order[i] == order[1..][i - 1];
  }

  /** Without failing unlinks, the guarded cleanup removes every file it names. */
  lemma {:induction false} UnlinkExistingRemovesNamed(files: set<TempFile>, order: seq<TempFile>, failing: set<TempFile>)
    requires files !! failing
    ensures UnlinkExisting(files, order, failing) == files - Named(order)
    decreases |order|
  {
    if order != [] {
      NamedCons(order);
      if order[0] !in files {
        UnlinkExistingRemovesNamed(files, order[1..], failing);
      } else {
        UnlinkExistingRemovesNamed(files - {order[0]}, order[1..], failing);
        assert (files - {order[0]}) - Named(order[1..]) == files - Named(order);
      }
    }
  }

  /** The unguarded cleanup removes exactly the files before the first one that
      is absent or fails to unlink. */
  lemma {:induction false} UnlinkInOrderPrefix(files: set<TempFile>, order: seq<TempFile>, failing: set<TempFile>, k: nat)
    requires k <= |order|
    requires forall i, j :: 0 <= i < j < |order| ==> order[i] != order[j]
    requires forall i :: 0 <= i < k ==> order[i] in files && order[i] !in failing
    requires k < |order| ==> order[k] !in files || order[k] in failing
    ensures UnlinkInOrder(files, order, failing) == files - Named(order[..k])
    decreases k
  {
    if k == 0 {
      assert Named(order[..0]) == {};
    } else {
      var rest := order[1..];
      assert Named(order[..k]) == {order[0]} + Named(rest[..k - 1]) by {
        assert forall i :: 0 < i < k ==> order[..k][i] == rest[..k - 1][i - 1];
      }
      forall i | 0 <= i < k - 1 ensures rest[i] in files - {order[0]} {
        assert rest[i] == order[i + 1];
      }
      if k - 1 < |rest| {
        assert rest[k - 1] == order[k];
      }
      UnlinkInOrderPrefix(files - {order[0]}, rest, failing, k - 1);
    }
  }

  /** The guarded cleanup removes at least what the unguarded one does. */
  lemma {:induction false} UnlinkExistingRemovesMore(files: set<TempFile>, order: seq<TempFile>, failing: set<TempFile>)
    ensures UnlinkExisting(files, order, failing) <= UnlinkInOrder(files, order, failing)
    decreases |order|
  {
    if order != [] && order[0] in files && order[0] !in failing {
      UnlinkExistingRemovesMore(files - {order[0]}, order[1..], failing);
    }
  }

  /** After a 'finish' with no failing unlink, no temporary file is left. */
  lemma FinishCleansUp()
    ensures UnlinkInOrder(AllTemps, CleanupOrder, {}) == {}
  {
    UnlinkInOrderPrefix(AllTemps, CleanupOrder, {}, 3);
    assert CleanupOrder[..3] == CleanupOrder;
    assert Named(CleanupOrder) == AllTemps by {
      assert CleanupOrder[0] == VideoTemp && CleanupOrder[1] == AudioTemp && CleanupOrder[2] == OutputTemp;
    }
  }

  /** A failing unlink of the video file on 'finish' keeps all three files. */
  lemma FinishStopsAtFirstFailure(failing: set<TempFile>)
    requires VideoTemp in failing
    ensures UnlinkInOrder(AllTemps, CleanupOrder, failing) == AllTemps
  {
  }

  /** After a failure with no failing unlink, no temporary file is left. */
  lemma FailureCleansUp(files: set<TempFile>)
    ensures UnlinkExisting(files, CleanupOrder, {}) == {}
  {
    UnlinkExistingRemovesNamed(files, CleanupOrder, {});
    assert Named(CleanupOrder) == AllTemps by {
      assert CleanupOrder[0] == VideoTemp && CleanupOrder[1] == AudioTemp && CleanupOrder[2] == OutputTemp;
    }
    forall f | f in files ensures f in AllTemps {
      assert f.VideoTemp? || f.AudioTemp? || f.OutputTemp?;
    }
  }

  /** How the merge branch ends (server.js:240-353): creating the temporary
      directory throws (before any temporary file exists, so the outer catch
      of server.js:366-374 answers), one of the two downloads fails, ffmpeg
      fails (possibly leaving the output file), or the merged file is
      produced. */
  datatype MergeOutcome =
    | TempDirFailed(message: string)
    | DownloadsFailed(message: string)
    | RemuxFailed(message: string, outputLeft: bool)
    | Merged

  /** The response of one `downloadVideo` call. */
  class Session {
    var files: set<TempFile>
    var headersSent: bool
    var replies: seq<Response>
    var disposition: Option<string>

    /** At most one error reply, and only together with sent headers. */
    predicate Valid()
      reads this
    {
      |replies| <= 1 && (replies != [] ==> headersSent)
    }

    constructor()
      ensures files == {} && !headersSent && replies == [] && disposition == None
      ensures Valid()
    {
      files, headersSent, replies, disposition := {}, false, [], None;
    }

    /** `if (!res.headersSent) res.status(s).json(b)`. */
    method GuardedReply(resp: Response)
      modifies this
      ensures headersSent
      ensures replies == if old(headersSent) then old(replies) else old(replies) + [resp]
      ensures files == old(files) && disposition == old(disposition)
    {
      if !headersSent {
        replies := replies + [resp];
        headersSent := true;
      }
    }

    /** The merge branch (server.js:240-354) from the creation of the two
        download files: on success the merged file is piped and 'finish'
        unlinks the three files in order; on failure the existing files are
        unlinked and the error JSON is sent unless headers already went out.
        A failing `mkdirSync` gets the outer catch's reply and leaves no file. */
    method ServeMerge(merge: MergeOutcome, failing: set<TempFile>, finished: bool)
      requires files == {} && !headersSent && replies == []
      modifies this
      ensures Valid() && disposition == old(disposition)
      ensures merge.TempDirFailed? ==>
                replies == [Response(500, ErrorDetailsBody(DownloadVideoFailed, merge.message))] && files == {}
      ensures merge.DownloadsFailed? || merge.RemuxFailed? ==>
                && replies == [Response(500, ErrorDetailsBody(MergeFailedMessage, merge.message))]
                && files == UnlinkExisting({VideoTemp, AudioTemp} +
                                             (if merge.RemuxFailed? && merge.outputLeft then {OutputTemp} else {}),
                                           CleanupOrder, failing)
                && (failing == {} ==> files == {})
      ensures merge.Merged? ==>
                && replies == [] && headersSent
                && files == (if finished then UnlinkInOrder(AllTemps, CleanupOrder, failing) else AllTemps)
                && (finished && failing == {} ==> files == {})
    {
      if merge.TempDirFailed? {
        GuardedReply(Response(500, ErrorDetailsBody(DownloadVideoFailed, merge.message)));
        return;
      }
      files := {VideoTemp, AudioTemp};
      if merge.Merged? {
        files := AllTemps;
        headersSent := true;
        if finished {
          files := UnlinkInOrder(files, CleanupOrder, failing);
          if failing == {} { FinishCleansUp(); }
        }
      } else {
        if merge.RemuxFailed? && merge.outputLeft {
          files := files + {OutputTemp};
        }
        assert files == {VideoTemp, AudioTemp} +
                        (if merge.RemuxFailed? && merge.outputLeft then {OutputTemp} else {});
        if failing == {} { FailureCleansUp(files); }
        files := UnlinkExisting(files, CleanupOrder, failing);
        GuardedReply(Response(500, ErrorDetailsBody(MergeFailedMessage, merge.message)));
      }
    }

    /** `downloadVideo(url, itag, res)` on a fresh response. `urlValid` is
        `ytdl.validateURL(url)`, `info` the outcome of `ytdl.getInfo`,
        `events` what the piped stream reports on the streaming paths,
        `merge` how the merge branch ends, `failing` the temporary files whose
        unlink throws, and `finished` whether the response emits 'finish'
        after the merged file has been piped. */
    method DownloadVideo(urlValid: bool, info: Result<UpstreamInfo, string>, itag: string,
                         events: seq<StreamEvent>, merge: MergeOutcome,
                         failing: set<TempFile>, finished: bool)
      requires files == {} && !headersSent && replies == [] && disposition == None
      modifies this
      ensures Valid()
      ensures !urlValid ==> replies == [Response(400, ErrorBody(InvalidUrlMessage))] && files == {}
      ensures urlValid && info.Failure? ==>
                replies == [Response(500, ErrorDetailsBody(DownloadVideoFailed, info.error))] && files == {}
      ensures disposition.Some? <==> urlValid && info.Success?
      ensures urlValid && info.Success? ==>
                var plan := PlanDownload(info.value.formats, LooseKey(itag));
                && disposition == Some(Filename(info.value.videoDetails.title))
                && (plan.NotFound? ==> replies == [Response(400, ErrorBody(FormatNotFound))] && files == {})
                && (plan.Direct? ==>
                      replies == StreamErrorReplies(events, false) && files == {} && headersSent == (events != []))
                && (plan.VideoOnly? ==> replies == [] && files == {} && headersSent == (Chunk in events))
                && (plan.Merge? && merge.TempDirFailed? ==>
                      replies == [Response(500, ErrorDetailsBody(DownloadVideoFailed, merge.message))] && files == {})
                && (plan.Merge? && (merge.DownloadsFailed? || merge.RemuxFailed?) ==>
                      && replies == [Response(500, ErrorDetailsBody(MergeFailedMessage, merge.message))]
                      && files == UnlinkExisting({VideoTemp, AudioTemp} +
                                                   (if merge.RemuxFailed? && merge.outputLeft then {OutputTemp} else {}),
                                                 CleanupOrder, failing)
                      && (failing == {} ==> files == {}))
                && (plan.Merge? && merge.Merged? ==>
                      && replies == [] && headersSent
                      && files == (if finished then UnlinkInOrder(AllTemps, CleanupOrder, failing) else AllTemps)
                      && (finished && failing == {} ==> files == {}))
    {
      if !urlValid {
        replies := [Response(400, ErrorBody(InvalidUrlMessage))];
        headersSent := true;
        return;
      }
      if info.Failure? {
        GuardedReply(Response(500, ErrorDetailsBody(DownloadVideoFailed, info.error)));
        return;
      }
      var upstream := info.value;
      disposition := Some(Filename(upstream.videoDetails.title));
      var plan := PlanDownload(upstream.formats, LooseKey(itag));
      match plan {
        case NotFound =>
          replies := [Response(400, ErrorBody(FormatNotFound))];
          headersSent := true;
        case Direct(_) =>
          StreamErrorRepliesAtMostOne(events, false);
          replies := StreamErrorReplies(events, false);
          headersSent := events != [];
        case VideoOnly(_) =>
          headersSent := Chunk in events;
        case Merge(_, _) =>
          ServeMerge(merge, failing, finished);
      }
    }
  }
}
