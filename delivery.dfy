/** How a download request is served once the upstream formats are known
    (server.js:181-237, api/download.js:31 and 57-69): the requested format
    is looked up by itag, and then streamed directly, streamed without
    audio, or downloaded together with the best audio-only format for a
    merge. */
module Delivery {
  import opened Wrappers
  import opened Text
  import opened Formats

  /** The number a loose `==` compares a numeric itag against: JavaScript's
      string-to-number conversion, for the plain decimal strings this model
      covers (the empty string converts to 0); None stands for any string
      that converts to no natural number. */
  function LooseKey(s: string): (r: Option<nat>)
    ensures r.Some? && s != "" ==> NatToString(r.value) == s || s[0] == '0'
  {
    if s == "" then Some(0)
    else if AllDigits(s) then
      DigitsRoundTrip(s);
      Some(DigitsValue(s))
    else None
  }

  /** A requested itag that is the decimal rendering of a number converts to
      that number, so it matches a format with that itag; the empty string
      converts to 0. */
  lemma LooseKeyOfRendering(n: nat)
    ensures LooseKey(NatToString(n)) == Some(n)
    ensures LooseKey("") == Some(0)
  {
    DigitsValueOfNatToString(n);
  }

  /** Leading zeros do not change the number a digit string converts to. */
  lemma LooseKeyLeadingZero(s: string)
    requires AllDigits(s)
    ensures LooseKey("0" + s) == LooseKey(s)
  {
    assert AllDigits("0" + s);
    LeadingZeroValue(s);
  }

  lemma {:induction false} LeadingZeroValue(s: string)
    requires AllDigits(s)
    ensures AllDigits("0" + s) && DigitsValue("0" + s) == DigitsValue(s)
    decreases |s|
  {
    assert AllDigits("0" + s);
    if s != [] {
      var t := "0" + s;
      assert t[..|t| - 1] == "0" + s[..|s| - 1];
      assert t[|t| - 1] == s[|s| - 1];
      LeadingZeroValue(s[..|s| - 1]);
    } else {
      assert "0" + s == "0";
      assert "0"[..0] == [];
    }
  }

  /** `f.itag == itag` for a normalised key: an undefined itag matches
      nothing, and neither does a key that is not a number. */
  predicate ItagMatches(f: RawFormat, key: Option<nat>) {
    f.itag.Some? && key.Some? && f.itag.value == key.value
  }

  /** `formats.find(f => f.itag == itag)`, as an index. */
  function FindByItag(formats: seq<RawFormat>, key: Option<nat>): (r: Option<nat>)
    ensures r.Some? ==> r.value < |formats| && ItagMatches(formats[r.value], key)
    ensures r.Some? ==> forall j :: 0 <= j < r.value ==> !ItagMatches(formats[j], key)
    ensures r.None? <==> forall j :: 0 <= j < |formats| ==> !ItagMatches(formats[j], key)
  {
    if formats == [] then None
    else if ItagMatches(formats[0], key) then Some(0)
    else
      var r := FindByItag(formats[1..], key);
      assert forall j :: 1 <= j < |formats| ==> formats[j] == formats[1..][j - 1];
      if r.Some? then Some(r.value + 1) else None
  }

  /** `f.hasAudio && !f.hasVideo`. */
  predicate IsAudioOnly(f: RawFormat) {
    f.hasAudio && !f.hasVideo
  }

  /** The first element after filtering the audio-only formats and sorting
      them stably by `audioBitrate`, descending: the earliest audio-only format
      with the largest bitrate, as an index. */
  function BestAudio(formats: seq<RawFormat>): (r: Option<nat>)
    ensures r.None? <==> forall j :: 0 <= j < |formats| ==> !IsAudioOnly(formats[j])
    ensures r.Some? ==> r.value < |formats| && IsAudioOnly(formats[r.value])
    ensures r.Some? ==> forall j :: 0 <= j < |formats| && IsAudioOnly(formats[j]) ==>
                          formats[j].audioBitrate <= formats[r.value].audioBitrate
    ensures r.Some? ==> forall j :: 0 <= j < r.value && IsAudioOnly(formats[j]) ==>
                          formats[j].audioBitrate < formats[r.value].audioBitrate
  {
    if formats == [] then None
    else
      var init := formats[..|formats| - 1];
      var last := formats[|formats| - 1];
      var r := BestAudio(init);
      assert forall j :: 0 <= j < |init| ==> init[j] == formats[j];
      if !IsAudioOnly(last) then r
      else if r.None? || formats[r.value].audioBitrate < last.audioBitrate then Some(|formats| - 1)
      else r
  }

  /** The way a found format is served. `Merge` carries the audio format. */
  datatype Plan =
    | NotFound
    | Direct(video: RawFormat)
    | VideoOnly(video: RawFormat)
    | Merge(video: RawFormat, audio: RawFormat)

  /** The decision of server.js:182-237: a format with both video and audio
      is streamed directly; anything else (including an audio-only
      selection) goes down the merge branch, which streams alone when no
      audio-only format exists. */
  function PlanDownload(formats: seq<RawFormat>, key: Option<nat>): (p: Plan)
    ensures p.NotFound? <==> FindByItag(formats, key).None?
    ensures !p.NotFound? ==> p.video == formats[FindByItag(formats, key).value]
    ensures p.Direct? <==> !p.NotFound? && p.video.hasVideo && p.video.hasAudio
    ensures p.VideoOnly? <==> !p.NotFound? && !(p.video.hasVideo && p.video.hasAudio) && BestAudio(formats).None?
    ensures p.Merge? ==> p.audio == formats[BestAudio(formats).value] && IsAudioOnly(p.audio)
  {
    match FindByItag(formats, key)
    case None => NotFound
    case Some(i) =>
      var f := formats[i];
      if f.hasVideo && f.hasAudio then Direct(f)
      else match BestAudio(formats)
        case None => VideoOnly(f)
        case Some(j) => Merge(f, formats[j])
  }

  /** The chosen audio has the highest bitrate among the audio-only formats,
      and ties go to the earliest. */
  lemma MergeAudioIsBest(formats: seq<RawFormat>, key: Option<nat>, j: nat)
    requires PlanDownload(formats, key).Merge?
    requires j < |formats| && IsAudioOnly(formats[j])
    ensures formats[j].audioBitrate <= PlanDownload(formats, key).audio.audioBitrate
    ensures formats[j].audioBitrate == PlanDownload(formats, key).audio.audioBitrate ==>
              exists k :: 0 <= k <= j && formats[k] == PlanDownload(formats, key).audio
  {
    var b := BestAudio(formats).value;
    if formats[j].audioBitrate == formats[b].audioBitrate {
      assert b <= j;
    }
  }

  /** `process.env.VERCEL === '1' || process.env.VERCEL === 'true'`. */
  predicate IsVercel(env: Option<string>) {
    env == Some("1") || env == Some("true")
  }
}
