/** The upstream rendition records and the catalog entries derived from them
    (server.js:89-117, duplicated in api/formats.js:80-108): which renditions
    are candidates, which one claims a height, and how an entry's byte size,
    frame rate and labels are worked out. */
module Formats {
  import opened Wrappers
  import opened Text

  /** One format as the upstream extractor reports it. Numeric fields use 0
      for "absent or falsy"; `itag` distinguishes undefined (None) from a
      number; `contentLength` is None when the upstream string is falsy
      (absent or empty) and otherwise holds its parsed value. */
  datatype RawFormat = RawFormat(
    itag: Option<nat>,
    container: string,
    hasVideo: bool,
    hasAudio: bool,
    height: nat,
    width: nat,
    fps: nat,
    bitrate: nat,
    contentLength: Option<nat>,
    audioBitrate: nat,
    qualityLabel: string)

  /** One catalog entry, with the fields of the object the normaliser pushes. */
  datatype Format = Format(
    itag: nat,
    ext: string,
    height: nat,
    width: nat,
    fps: nat,
    filesize: Option<nat>,
    quality_label: string,
    qualityLabel: string,
    bitrate: nat,
    hasAudio: bool,
    hasVideo: bool,
    isAdaptive: bool)

  const TargetContainer: string := "mp4"
  const MinHeight: nat := 144
  const DefaultFps: nat := 30

  /** `format.itag` is truthy. */
  predicate HasTruthyItag(f: RawFormat) {
    f.itag.Some? && f.itag.value != 0
  }

  /** The first filter (server.js:61-67). */
  predicate IsStrictCandidate(f: RawFormat) {
    f.hasVideo && f.container == TargetContainer && f.height != 0 && f.height >= MinHeight
  }

  /** The "more lenient" second filter (server.js:73-78): the same conjuncts
      in another order. */
  predicate IsLenientCandidate(f: RawFormat) {
    f.container == TargetContainer && f.hasVideo && f.height != 0 && f.height >= MinHeight
  }

  /** `Array.prototype.filter`: the elements satisfying p, in their order. */
  function Filter<T(!new)>(s: seq<T>, p: T -> bool): (r: seq<T>)
    ensures |r| <= |s|
    ensures forall i :: 0 <= i < |r| ==> p(r[i])
    ensures forall x :: x in r <==> x in s && p(x)
  {
    if s == [] then [] else (if p(s[0]) then [s[0]] else []) + Filter(s[1..], p)
  }

  /** Filtering distributes over concatenation, and a single element is kept
      exactly when it satisfies the predicate. Together these fix the result:
      the kept elements come in their original order, each as often as in
      the input. */
  lemma {:induction false} FilterConcat<T(!new)>(a: seq<T>, b: seq<T>, p: T -> bool)
    ensures Filter(a + b, p) == Filter(a, p) + Filter(b, p)
  {
    if a != [] {
      assert (a + b)[1..] == a[1..] + b;
      FilterConcat(a[1..], b, p);
    } else {
      assert a + b == b;
    }
  }

  lemma FilterSingle<T(!new)>(x: T, p: T -> bool)
    ensures Filter([x], p) == if p(x) then [x] else []
  {
    assert [x][1..] == [];
  }

  /** Filtering by two predicates that agree everywhere gives the same sequence. */
  lemma {:induction false} FilterExtensional<T(!new)>(s: seq<T>, p: T -> bool, q: T -> bool)
    requires forall x :: p(x) == q(x)
    ensures Filter(s, p) == Filter(s, q)
  {
    if s != [] {
      FilterExtensional(s[1..], p, q);
    }
  }

  /** The strict candidates, in upstream order. */
  function Candidates(raw: seq<RawFormat>): seq<RawFormat> {
    Filter(raw, IsStrictCandidate)
  }

  /** The fallback filter selects exactly the strict candidates, so an empty
      strict result stays empty. */
  lemma LenientFilterIsStrict(raw: seq<RawFormat>)
    ensures Filter(raw, IsLenientCandidate) == Candidates(raw)
  {
    FilterExtensional(raw, IsLenientCandidate, IsStrictCandidate);
  }

  /** Format f would claim height h in the dedup loop: it is at that height and
      has a truthy itag. */
  predicate Claims(f: RawFormat, h: nat) {
    f.height == h && HasTruthyItag(f)
  }

  /** The first format in s that claims height h, if any: the dedup loop's
      decision for h after scanning s from the front. */
  function FirstClaim(s: seq<RawFormat>, h: nat): (r: Option<RawFormat>)
    ensures r.Some? ==> r.value in s && Claims(r.value, h)
  {
    if s == [] then None
    else
      var r := FirstClaim(s[..|s| - 1], h);
      if r.Some? then r
      else if Claims(s[|s| - 1], h) then Some(s[|s| - 1])
      else None
  }

  /** Extending a sequence at the end only decides heights not yet claimed. */
  lemma FirstClaimSnoc(s: seq<RawFormat>, x: RawFormat, h: nat)
    ensures FirstClaim(s + [x], h) ==
              if FirstClaim(s, h).Some? then FirstClaim(s, h)
              else if Claims(x, h) then Some(x) else None
  {
    assert (s + [x])[..|s|] == s;
  }

  /** A claimed height stays claimed, by the same format, in any extension. */
  lemma {:induction false} FirstClaimPrefix(s: seq<RawFormat>, t: seq<RawFormat>, h: nat)
    requires FirstClaim(s, h).Some?
    ensures FirstClaim(s + t, h) == FirstClaim(s, h)
    decreases |t|
  {
    if t != [] {
      var t' := t[..|t| - 1];
      assert s + t == (s + t') + [t[|t| - 1]];
      FirstClaimPrefix(s, t', h);
      FirstClaimSnoc(s + t', t[|t| - 1], h);
    } else {
      assert s + t == s;
    }
  }

  /** Every format that claims a height makes that height claimed. */
  lemma {:induction false} FirstClaimExists(s: seq<RawFormat>, i: nat, h: nat)
    requires i < |s| && Claims(s[i], h)
    ensures FirstClaim(s, h).Some?
    decreases |s|
  {
    if i < |s| - 1 {
      assert s[..|s| - 1][i] == s[i];
      FirstClaimExists(s[..|s| - 1], i, h);
    }
  }

  /** The claimant is the earliest: no format before it claims the height. */
  lemma {:induction false} FirstClaimIsEarliest(s: seq<RawFormat>, h: nat)
    requires FirstClaim(s, h).Some?
    ensures exists i :: 0 <= i < |s| && s[i] == FirstClaim(s, h).value &&
                        forall j :: 0 <= j < i ==> !Claims(s[j], h)
    decreases |s|
  {
    var init := s[..|s| - 1];
    if FirstClaim(init, h).Some? {
      FirstClaimIsEarliest(init, h);
      var i :| 0 <= i < |init| && init[i] == FirstClaim(init, h).value &&
               forall j :: 0 <= j < i ==> !Claims(init[j], h);
      assert s[i] == init[i];
    } else {
      forall j | 0 <= j < |s| - 1 ensures !Claims(s[j], h) {
        assert s[j] == init[j];
        if Claims(s[j], h) { FirstClaimExists(init, j, h); }
      }
    }
  }

  /** The formats of s at height h, in their order. */
  function WithHeight(s: seq<RawFormat>, h: nat): (r: seq<RawFormat>)
    ensures |r| <= |s|
    ensures forall i :: 0 <= i < |r| ==> r[i].height == h
  {
    if s == [] then [] else (if s[0].height == h then [s[0]] else []) + WithHeight(s[1..], h)
  }

  lemma {:induction false} WithHeightConcat(a: seq<RawFormat>, b: seq<RawFormat>, h: nat)
    ensures WithHeight(a + b, h) == WithHeight(a, h) + WithHeight(b, h)
  {
    if a != [] {
      assert (a + b)[1..] == a[1..] + b;
      WithHeightConcat(a[1..], b, h);
    } else {
      assert a + b == b;
    }
  }

  /** Which format claims a height depends only on the formats at that height. */
  lemma {:induction false} FirstClaimOfWithHeight(s: seq<RawFormat>, h: nat)
    ensures FirstClaim(s, h) == FirstClaim(WithHeight(s, h), h)
  {
    if s != [] {
      var rest := WithHeight(s[1..], h);
      FirstClaimOfWithHeight(s[1..], h);
      FirstClaimCons(s[0], s[1..], h);
      assert s == [s[0]] + s[1..];
      if s[0].height == h {
        assert WithHeight(s, h) == [s[0]] + rest;
        FirstClaimCons(s[0], rest, h);
      } else {
        assert WithHeight(s, h) == rest;
      }
    }
  }

  /** FirstClaim seen from the front: a leading claimant wins. */
  lemma {:induction false} FirstClaimCons(x: RawFormat, s: seq<RawFormat>, h: nat)
    ensures FirstClaim([x] + s, h) == if Claims(x, h) then Some(x) else FirstClaim(s, h)
    decreases |s|
  {
    if s == [] {
      assert ([x] + s)[..0] == [];
    } else {
      var init := s[..|s| - 1];
      assert ([x] + s)[..|s|] == [x] + init;
      FirstClaimCons(x, init, h);
    }
  }

  /** The derived byte size (server.js:94-100): the reported length when it is
      truthy, else the estimate bitrate * duration / 8 rounded down when both
      are truthy, else null. */
  function FileSize(f: RawFormat, lengthSeconds: Option<nat>): (r: Option<nat>)
    ensures f.contentLength.Some? ==> r == f.contentLength
    ensures r.None? <==> f.contentLength.None? && (f.bitrate == 0 || lengthSeconds.None?)
    ensures f.contentLength.None? && r.Some? ==>
              r.value * 8 <= f.bitrate * lengthSeconds.value < r.value * 8 + 8
  {
    if f.contentLength.Some? then f.contentLength
    else if f.bitrate != 0 && lengthSeconds.Some? then Some((f.bitrate * lengthSeconds.value) / 8)
    else None
  }

  /** A quality label taken apart: the height and the optional fps suffix. */
  datatype LabelParts = LabelParts(height: nat, fps: Option<nat>)

  /** Reads a label of the shape digits "p" [digits], each number written
      without leading zeros. */
  function ParseQualityLabel(s: string): Option<LabelParts> {
    var i := IndexOf(s, 'p');
    if i == |s| || i == 0 || !AllDigits(s[..i]) || !AllDigits(s[i + 1..]) then None
    else if (i > 1 && s[0] == '0') || (|s| > i + 2 && s[i + 1] == '0') then None
    else Some(LabelParts(DigitsValue(s[..i]), if i + 1 == |s| then None else Some(DigitsValue(s[i + 1..]))))
  }

  /** A rendered height, "p" and an optional rendered frame rate parse back
      to those numbers. */
  lemma LabelParses(height: nat, fps: Option<nat>)
    ensures ParseQualityLabel(NatToString(height) + "p" + (if fps.Some? then NatToString(fps.value) else "")) ==
              Some(LabelParts(height, fps))
  {
    var a := NatToString(height);
    var b := if fps.Some? then NatToString(fps.value) else "";
    var s := a + "p" + b;
    assert s == a + ['p'] + b;
    assert 'p' !in a by {
      assert forall k :: 0 <= k < |a| ==> IsDigit(a[k]);
    }
    IndexOfAfterPrefix(a, 'p', b);
    assert s[..|a|] == a;
    assert s[|a| + 1..] == b;
    DigitsValueOfNatToString(height);
    if fps.Some? {
      DigitsValueOfNatToString(fps.value);
    }
  }

  /** The `quality_label` template: height, "p", and the raw frame rate only
      when it is above 30. The label determines the height, and carries a
      frame-rate suffix exactly when the frame rate exceeds 30, in which case
      the suffix is that rate. */
  function QualityLabel(height: nat, fps: nat): (r: string)
    ensures ParseQualityLabel(r) == Some(LabelParts(height, if fps > DefaultFps then Some(fps) else None))
  {
    LabelParses(height, if fps > DefaultFps then Some(fps) else None);
    NatToString(height) + "p" + (if fps > DefaultFps then NatToString(fps) else "")
  }

  /** The parser accepts nothing but the canonical rendering: a label that
      parses is the height, "p" and the optional frame rate, each written
      without leading zeros. With the contract of QualityLabel, a label that
      parses like `QualityLabel(h, fps)` is that very string. */
  lemma ParsedLabelIsCanonical(s: string)
    requires ParseQualityLabel(s).Some?
    ensures var parts := ParseQualityLabel(s).value;
            s == NatToString(parts.height) + "p" + (if parts.fps.Some? then NatToString(parts.fps.value) else "")
  {
    var i := IndexOf(s, 'p');
    var a := s[..i];
    var b := s[i + 1..];
    CanonicalDigits(a);
    if b != [] {
      CanonicalDigits(b);
    }
    assert s == a + "p" + b;
  }

  /** A digit string with no leading zero, or the lone "0", renders back from
      its value. */
  lemma CanonicalDigits(a: string)
    requires a != [] && AllDigits(a) && (|a| > 1 ==> a[0] != '0')
    ensures NatToString(DigitsValue(a)) == a
  {
    if a[0] == '0' {
      assert a == "0";
      assert DigitsValue(a) == DigitsValue(a[..0]) * 10 + 0;
    } else {
      DigitsRoundTrip(a);
    }
  }

  /** The catalog entry built from a kept format (server.js:102-115). */
  function MakeFormat(f: RawFormat, lengthSeconds: Option<nat>): (r: Format)
    requires HasTruthyItag(f)
    ensures r.itag != 0 && f.itag == Some(r.itag)
    ensures r.ext == TargetContainer && r.height == f.height && r.width == f.width && r.bitrate == f.bitrate
    ensures r.hasAudio == f.hasAudio && r.hasVideo == f.hasVideo && r.isAdaptive == !f.hasAudio
    ensures (f.fps != 0 ==> r.fps == f.fps) && (f.fps == 0 ==> r.fps == DefaultFps)
    ensures r.filesize == FileSize(f, lengthSeconds)
    ensures ParseQualityLabel(r.quality_label) == Some(LabelParts(f.height, if f.fps > DefaultFps then Some(f.fps) else None))
    ensures f.qualityLabel != "" ==> r.qualityLabel == f.qualityLabel
    ensures f.qualityLabel == "" ==> ParseQualityLabel(r.qualityLabel) == Some(LabelParts(f.height, None))
  {
    LabelParses(f.height, None);
    assert NatToString(f.height) + "p" + "" == NatToString(f.height) + "p";
    Format(
      itag := f.itag.value,
      ext := TargetContainer,
      height := f.height,
      width := f.width,
      fps := if f.fps != 0 then f.fps else DefaultFps,
      filesize := FileSize(f, lengthSeconds),
      quality_label := QualityLabel(f.height, f.fps),
      qualityLabel := if f.qualityLabel != "" then f.qualityLabel else NatToString(f.height) + "p",
      bitrate := f.bitrate,
      hasAudio := f.hasAudio,
      hasVideo := f.hasVideo,
      isAdaptive := !f.hasAudio)
  }
}
