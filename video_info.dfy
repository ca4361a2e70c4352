/** The metadata request of server.js: `getVideoInfo` (server.js:38-149)
    around the normaliser, including the rewording of every failure in its
    outer catch. URL validation and the upstream fetch are inputs. */
module VideoInfo {
  import opened Wrappers
  import opened Text
  import opened Formats
  import opened Normalizer

  /** The parts of the upstream `videoDetails` the responses use;
      `lengthSeconds` is None when that string is falsy. */
  datatype VideoDetails = VideoDetails(
    title: string,
    lengthSeconds: Option<nat>,
    thumbnails: seq<string>,
    author: string,
    viewCount: string)

  /** What the upstream extractor returns for one URL. */
  datatype UpstreamInfo = UpstreamInfo(videoDetails: VideoDetails, formats: seq<RawFormat>)

  /** The metadata response; `duration` is None where `parseInt` yields NaN,
      `thumbnail` is None where the source sends null. */
  datatype Info = Info(
    title: string,
    duration: Option<nat>,
    thumbnail: Option<string>,
    uploader: string,
    viewCount: string,
    formats: seq<Format>)

  const InvalidUrlMessage: string := "Invalid " + "YouTube URL"
  // The long messages are written in pieces so that the verifier can look
  // at their characters cheaply.
  const UnavailableMessage: string := "This video " + "is unavailable " + "or private"
  const SystemsUpdatedMessage: string :=
    "YouTube has " + "updated their " + "systems. Please " + "try again later " + "or use a " + "different video"
  const AccessDeniedMessage: string := "Access denied. " + "This video may " + "be region-restricted"
  const ExtractFailedPrefix: string := "Failed to extract video information: "

  /** The metadata object returned on success (server.js:125-134): the
      details passed through, the catalog, and the last thumbnail, or null
      when there is none. */
  function BuildInfo(d: VideoDetails, formats: seq<Format>): (r: Info)
    ensures r.title == d.title && r.duration == d.lengthSeconds && r.formats == formats
    ensures r.uploader == d.author && r.viewCount == d.viewCount
    ensures r.thumbnail.None? <==> d.thumbnails == []
    ensures r.thumbnail.Some? ==> r.thumbnail.value == d.thumbnails[|d.thumbnails| - 1]
  {
    Info(
      title := d.title,
      duration := d.lengthSeconds,
      thumbnail := if |d.thumbnails| > 0 then Some(d.thumbnails[|d.thumbnails| - 1]) else None,
      uploader := d.author,
      viewCount := d.viewCount,
      formats := formats)
  }

  /** The catch block of server.js:139-147: the first matching substring
      decides the message; otherwise the original message is kept behind a
      fixed prefix. */
  function RewordError(message: string): (r: string)
    ensures Contains(message, "Video unavailable") ==> r == UnavailableMessage
    ensures !Contains(message, "Video unavailable") && Contains(message, "Could not extract functions") ==>
              r == SystemsUpdatedMessage
    ensures (!Contains(message, "Video unavailable") && !Contains(message, "Could not extract functions") &&
             Contains(message, "403")) ==> r == AccessDeniedMessage
    ensures r == ExtractFailedPrefix + message <==>
              !Contains(message, "Video unavailable") && !Contains(message, "Could not extract functions") &&
              !Contains(message, "403")
  {
    assert (ExtractFailedPrefix + message)[0] == 'F';
    if Contains(message, "Video unavailable") then UnavailableMessage
    else if Contains(message, "Could not extract functions") then SystemsUpdatedMessage
    else if Contains(message, "403") then AccessDeniedMessage
    else ExtractFailedPrefix + message
  }

  /** A message lacking the letters 'V' and 'C', and one of '0' and '4',
      matches none of the special cases and keeps the generic prefix. */
  lemma RewordPlain(message: string)
    requires 'V' !in message && 'C' !in message && ('0' !in message || '4' !in message)
    ensures RewordError(message) == ExtractFailedPrefix + message
  {
    NotContainsMissingChar(message, "Video unavailable", 'V');
    NotContainsMissingChar(message, "Could not extract functions", 'C');
    if '0' !in message {
      NotContainsMissingChar(message, "403", '0');
    } else {
      NotContainsMissingChar(message, "403", '4');
    }
  }

  /** The two messages `getVideoInfo` itself raises lack letters that the
      three special substrings need; one fact per lemma keeps each proof
      small. */
  lemma InvalidUrlLacksV() ensures 'V' !in InvalidUrlMessage {}
  lemma InvalidUrlLacksC() ensures 'C' !in InvalidUrlMessage {}
  lemma InvalidUrlLacks4() ensures '4' !in InvalidUrlMessage {}
  lemma NoCompatibleLacksV() ensures 'V' !in NoCompatibleFormats {}
  lemma NoCompatibleLacksC() ensures 'C' !in NoCompatibleFormats {}
  lemma NoCompatibleLacks0() ensures '0' !in NoCompatibleFormats {}

  /** `getVideoInfo` of server.js. `urlValid` is the verdict of
      `ytdl.validateURL`, `upstream` the outcome of `ytdl.getInfo`. */
  method GetVideoInfo(urlValid: bool, upstream: Result<UpstreamInfo, string>) returns (r: Result<Info, string>)
    ensures !urlValid ==> r == Failure(ExtractFailedPrefix + InvalidUrlMessage)
    ensures urlValid && upstream.Failure? ==> r == Failure(RewordError(upstream.error))
    ensures urlValid && upstream.Success? ==> (r.Success? <==> HasKeepable(upstream.value.formats))
    ensures urlValid && upstream.Success? && r.Failure? ==>
              r.error == ExtractFailedPrefix + NoCompatibleFormats
    ensures r.Success? ==>
              && urlValid && upstream.Success?
              && IsCatalog(r.value.formats, Candidates(upstream.value.formats),
                           upstream.value.videoDetails.lengthSeconds)
              && r.value == BuildInfo(upstream.value.videoDetails, r.value.formats)
  {
    if !urlValid {
      var message := InvalidUrlMessage;
      InvalidUrlLacksV();
      InvalidUrlLacksC();
      InvalidUrlLacks4();
      RewordPlain(message);
      return Failure(RewordError(message));
    }
    match upstream {
      case Failure(e) =>
        r := Failure(RewordError(e));
      case Success(info) =>
        var catalog := NormaliseFormats(info.formats, info.videoDetails.lengthSeconds);
        match catalog {
          case Failure(e) =>
            NoCompatibleLacksV();
            NoCompatibleLacksC();
            NoCompatibleLacks0();
            RewordPlain(e);
            r := Failure(RewordError(e));
          case Success(formats) =>
            r := Success(BuildInfo(info.videoDetails, formats));
        }
    }
  }
}
