/** The format-catalog normaliser of `getVideoInfo` (server.js:61-123,
    duplicated in api/formats.js:53-114): filter the upstream formats, sort
    them by height in place, keep the first format with an itag at each
    height, and fail when nothing is kept. */
module Normalizer {
  import opened Wrappers
  import opened Formats
  import opened Text

  // Written in pieces so that the verifier can look at its characters cheaply.
  const NoCompatibleFormats: string := "No " + "compatible " + "MP4 " + "formats " + "found for " + "this video"

  ghost predicate SortedByHeightDesc(s: seq<RawFormat>) {
    forall p, q :: 0 <= p < q < |s| ==> s[p].height >= s[q].height
  }

  /** t is a rearrangement of s that keeps, at every height, the formats of
      that height in their original order: what a stable sort by height
      guarantees. */
  ghost predicate SameByHeight(s: seq<RawFormat>, t: seq<RawFormat>) {
    forall h :: WithHeight(s, h) == WithHeight(t, h)
  }

  /** Exchanging two neighbours of different heights keeps every height's
      subsequence. */
  lemma SwapKeepsByHeight(s: seq<RawFormat>, j: nat)
    requires 0 < j < |s| && s[j - 1].height != s[j].height
    ensures SameByHeight(s[j - 1 := s[j]][j := s[j - 1]], s)
  {
    var t := s[j - 1 := s[j]][j := s[j - 1]];
    var pre, post := s[..j - 1], s[j + 1..];
    assert s == pre + [s[j - 1], s[j]] + post;
    assert t == pre + [s[j], s[j - 1]] + post;
    forall h ensures WithHeight(t, h) == WithHeight(s, h) {
      WithHeightConcat(pre + [s[j - 1], s[j]], post, h);
      WithHeightConcat(pre, [s[j - 1], s[j]], h);
      WithHeightConcat(pre + [s[j], s[j - 1]], post, h);
      WithHeightConcat(pre, [s[j], s[j - 1]], h);
      assert [s[j - 1], s[j]][1..] == [s[j]];
      assert [s[j], s[j - 1]][1..] == [s[j - 1]];
    }
  }

  /** The first n formats are in descending height order. */
  ghost predicate SortedPrefix(s: seq<RawFormat>, n: nat) {
    forall p, q :: 0 <= p < q < n && q < |s| ==> s[p].height >= s[q].height
  }

  /** The state of the inner insertion loop: positions up to i are sorted
      apart from position j, whose format is higher than everything after it
      up to i. */
  ghost predicate Sinking(s: seq<RawFormat>, i: nat, j: nat) {
    && j <= i < |s|
    && (forall p, q :: 0 <= p < q <= i && p != j && q != j ==> s[p].height >= s[q].height)
    && (forall q :: j < q <= i ==> s[j].height > s[q].height)
  }

  /** Swapping the sinking format with a lower predecessor moves it one step on. */
  lemma SinkStep(s: seq<RawFormat>, i: nat, j: nat)
    requires Sinking(s, i, j) && 0 < j && s[j - 1].height < s[j].height
    ensures Sinking(s[j - 1 := s[j]][j := s[j - 1]], i, j - 1)
  {
    var t := s[j - 1 := s[j]][j := s[j - 1]];
    forall q | j - 1 < q <= i ensures t[j - 1].height > t[q].height {
      if q > j {
        assert s[j - 1].height >= s[q].height;
      }
    }
  }

  /** The sinking format has found its place once its predecessor is not lower. */
  lemma SinkDone(s: seq<RawFormat>, i: nat, j: nat)
    requires Sinking(s, i, j) && (j == 0 || s[j - 1].height >= s[j].height)
    ensures SortedPrefix(s, i + 1)
  {
    forall p, q | 0 <= p < q < i + 1 ensures s[p].height >= s[q].height {
      if q == j && p < j - 1 {
        assert s[p].height >= s[j - 1].height;
      }
    }
  }

  /** One pass of the insertion sort: format i sinks into the sorted prefix. */
  method InsertAt(a: array<RawFormat>, i: nat)
    requires i < a.Length && SortedPrefix(a[..], i)
    modifies a
    ensures SortedPrefix(a[..], i + 1)
    ensures SameByHeight(a[..], old(a[..]))
  {
    var j: nat := i;
    while j > 0 && a[j - 1].height < a[j].height
      invariant Sinking(a[..], i, j)
      invariant SameByHeight(a[..], old(a[..]))
    {
      SinkStep(a[..], i, j);
      SwapKeepsByHeight(a[..], j);
      a[j - 1], a[j] := a[j], a[j - 1];
      j := j - 1;
    }
    SinkDone(a[..], i, j);
  }

  /** `availableFormats.sort((a, b) => (b.height || 0) - (a.height || 0))`
      (server.js:83): an in-place stable sort, descending by height. Heights
      are naturals with 0 for "absent", so `height || 0` is the height. */
  method SortByHeightDesc(a: array<RawFormat>)
    modifies a
    ensures SortedByHeightDesc(a[..])
    ensures SameByHeight(a[..], old(a[..]))
  {
    var i := 0;
    while i < a.Length
      invariant 0 <= i <= a.Length
      invariant SortedPrefix(a[..], i)
      invariant SameByHeight(a[..], old(a[..]))
    {
      InsertAt(a, i);
      i := i + 1;
    }
  }

  /** Each entry is built from the first candidate, in upstream order, that
      claims its height. */
  ghost predicate EntriesAreClaims(out: seq<Format>, cands: seq<RawFormat>, lengthSeconds: Option<nat>) {
    forall p :: 0 <= p < |out| ==>
      FirstClaim(cands, out[p].height).Some? &&
      out[p] == MakeFormat(FirstClaim(cands, out[p].height).value, lengthSeconds)
  }

  /** Every height some candidate claims has an entry. */
  ghost predicate ClaimsCovered(out: seq<Format>, cands: seq<RawFormat>) {
    forall h :: FirstClaim(cands, h).Some? ==> HasHeight(out, h)
  }

  /** The normalised catalog of the candidates `cands`: strictly descending
      by height; each entry is built from the first candidate (in upstream
      order) that claims its height; and every claimed height is present. */
  ghost predicate IsCatalog(out: seq<Format>, cands: seq<RawFormat>, lengthSeconds: Option<nat>) {
    StrictlyDescending(out) && EntriesAreClaims(out, cands, lengthSeconds) && ClaimsCovered(out, cands)
  }

  /** Some upstream format passes the filter and has a truthy itag, i.e. the
      dedup loop keeps something. */
  predicate HasKeepable(raw: seq<RawFormat>) {
    exists i :: 0 <= i < |raw| && IsStrictCandidate(raw[i]) && HasTruthyItag(raw[i])
  }

  /** `seen` holds exactly the heights claimed in `prefix`. */
  ghost predicate SeenIsClaimed(prefix: seq<RawFormat>, seen: set<nat>) {
    forall h :: h in seen <==> FirstClaim(prefix, h).Some?
  }

  /** Every entry sits at a seen height and is built from its first claimant. */
  ghost predicate EntriesFromClaims(prefix: seq<RawFormat>, out: seq<Format>, seen: set<nat>, lengthSeconds: Option<nat>) {
    forall p :: 0 <= p < |out| ==>
      && out[p].height in seen
      && FirstClaim(prefix, out[p].height).Some?
      && out[p] == MakeFormat(FirstClaim(prefix, out[p].height).value, lengthSeconds)
  }

  /** Some entry of out is at height h. */
  ghost predicate HasHeight(out: seq<Format>, h: nat) {
    exists p :: 0 <= p < |out| && out[p].height == h
  }

  /** Every seen height has an entry. */
  ghost predicate SeenHasEntry(out: seq<Format>, seen: set<nat>) {
    forall h :: h in seen ==> HasHeight(out, h)
  }

  ghost predicate StrictlyDescending(out: seq<Format>) {
    Descending(Heights(out))
  }

  /** What the dedup loop knows after scanning `prefix`. */
  ghost predicate DedupState(prefix: seq<RawFormat>, out: seq<Format>, seen: set<nat>, lengthSeconds: Option<nat>) {
    SeenIsClaimed(prefix, seen) && EntriesFromClaims(prefix, out, seen, lengthSeconds) &&
    SeenHasEntry(out, seen) && StrictlyDescending(out)
  }

  lemma KeepSeen(prefix: seq<RawFormat>, x: RawFormat, seen: set<nat>)
    requires SeenIsClaimed(prefix, seen)
    requires x.height !in seen && HasTruthyItag(x)
    ensures SeenIsClaimed(prefix + [x], seen + {x.height})
  {
    forall h ensures h in seen + {x.height} <==> FirstClaim(prefix + [x], h).Some? {
      FirstClaimSnoc(prefix, x, h);
    }
  }

  lemma KeepEntries(prefix: seq<RawFormat>, x: RawFormat, out: seq<Format>, seen: set<nat>, lengthSeconds: Option<nat>)
    requires SeenIsClaimed(prefix, seen) && EntriesFromClaims(prefix, out, seen, lengthSeconds)
    requires x.height !in seen && HasTruthyItag(x)
    ensures EntriesFromClaims(prefix + [x], out + [MakeFormat(x, lengthSeconds)], seen + {x.height}, lengthSeconds)
  {
    var out' := out + [MakeFormat(x, lengthSeconds)];
    forall p | 0 <= p < |out'|
      ensures out'[p].height in seen + {x.height}
      ensures FirstClaim(prefix + [x], out'[p].height).Some?
      ensures out'[p] == MakeFormat(FirstClaim(prefix + [x], out'[p].height).value, lengthSeconds)
    {
      FirstClaimSnoc(prefix, x, out'[p].height);
      if p < |out| {
        assert out'[p] == out[p];
      }
    }
  }

  lemma KeepSeenHasEntry(x: RawFormat, out: seq<Format>, seen: set<nat>, e: Format)
    requires SeenHasEntry(out, seen) && e.height == x.height
    ensures SeenHasEntry(out + [e], seen + {x.height})
  {
    var out' := out + [e];
    forall h | h in seen + {x.height} ensures HasHeight(out', h) {
      if h == x.height {
        assert out'[|out|].height == h;
      } else {
        var p :| 0 <= p < |out| && out[p].height == h;
        assert out'[p].height == h;
      }
    }
  }

  lemma KeepDescending(out: seq<Format>, seen: set<nat>, e: Format)
    requires StrictlyDescending(out)
    requires forall p :: 0 <= p < |out| ==> out[p].height in seen && out[p].height >= e.height
    requires e.height !in seen
    ensures StrictlyDescending(out + [e])
  {
  }

  /** One iteration that keeps x: its height was unseen and its itag truthy. */
  lemma DedupKeep(prefix: seq<RawFormat>, x: RawFormat, out: seq<Format>, seen: set<nat>, lengthSeconds: Option<nat>)
    requires DedupState(prefix, out, seen, lengthSeconds)
    requires forall p :: 0 <= p < |out| ==> out[p].height >= x.height
    requires x.height !in seen && HasTruthyItag(x)
    ensures DedupState(prefix + [x], out + [MakeFormat(x, lengthSeconds)], seen + {x.height}, lengthSeconds)
  {
    KeepSeen(prefix, x, seen);
    KeepEntries(prefix, x, out, seen, lengthSeconds);
    KeepSeenHasEntry(x, out, seen, MakeFormat(x, lengthSeconds));
    KeepDescending(out, seen, MakeFormat(x, lengthSeconds));
  }

  /** One iteration that skips x: its height was seen or its itag is falsy. */
  lemma DedupSkip(prefix: seq<RawFormat>, x: RawFormat, out: seq<Format>, seen: set<nat>, lengthSeconds: Option<nat>)
    requires DedupState(prefix, out, seen, lengthSeconds)
    requires x.height in seen || !HasTruthyItag(x)
    ensures DedupState(prefix + [x], out, seen, lengthSeconds)
  {
    forall h ensures h in seen <==> FirstClaim(prefix + [x], h).Some? {
      FirstClaimSnoc(prefix, x, h);
    }
    forall p | 0 <= p < |out|
      ensures FirstClaim(prefix + [x], out[p].height) == FirstClaim(prefix, out[p].height)
    {
      FirstClaimSnoc(prefix, x, out[p].height);
    }
  }

  /** The dedup loop's invariant after k of the sorted formats. */
  ghost predicate DedupInv(sorted: seq<RawFormat>, k: nat, out: seq<Format>, seen: set<nat>, lengthSeconds: Option<nat>) {
    && k <= |sorted|
    && |out| <= k
    && DedupState(sorted[..k], out, seen, lengthSeconds)
    && (forall p, q :: 0 <= p < |out| && k <= q < |sorted| ==> out[p].height >= sorted[q].height)
  }

  /** One iteration of the dedup loop keeps its invariant. */
  lemma DedupStep(sorted: seq<RawFormat>, k: nat, out: seq<Format>, seen: set<nat>, lengthSeconds: Option<nat>)
    requires SortedByHeightDesc(sorted)
    requires DedupInv(sorted, k, out, seen, lengthSeconds) && k < |sorted|
    ensures var x := sorted[k];
            if x.height !in seen && HasTruthyItag(x)
            then DedupInv(sorted, k + 1, out + [MakeFormat(x, lengthSeconds)], seen + {x.height}, lengthSeconds)
            else DedupInv(sorted, k + 1, out, seen, lengthSeconds)
  {
    var x := sorted[k];
    assert sorted[..k + 1] == sorted[..k] + [x];
    if x.height !in seen && HasTruthyItag(x) {
      DedupKeep(sorted[..k], x, out, seen, lengthSeconds);
    } else {
      DedupSkip(sorted[..k], x, out, seen, lengthSeconds);
    }
  }

  /** After the whole sorted sequence is scanned, the state is a catalog. */
  lemma DedupDone(sorted: seq<RawFormat>, out: seq<Format>, seen: set<nat>, lengthSeconds: Option<nat>)
    requires DedupInv(sorted, |sorted|, out, seen, lengthSeconds)
    ensures IsCatalog(out, sorted, lengthSeconds) && |out| <= |sorted|
  {
    assert sorted[..|sorted|] == sorted;
  }

  /** The dedup loop (server.js:86-117) over the sorted formats: keep a
      format when its height is unseen and its itag is truthy. */
  method KeepFirstPerHeight(sorted: seq<RawFormat>, lengthSeconds: Option<nat>) returns (uniqueFormats: seq<Format>)
    requires SortedByHeightDesc(sorted)
    ensures IsCatalog(uniqueFormats, sorted, lengthSeconds)
    ensures |uniqueFormats| <= |sorted|
  {
    uniqueFormats := [];
    var seenHeights: set<nat> := {};
    var k := 0;
    while k < |sorted|
      invariant DedupInv(sorted, k, uniqueFormats, seenHeights, lengthSeconds)
    {
      var format := sorted[k];
      DedupStep(sorted, k, uniqueFormats, seenHeights, lengthSeconds);
      if !(format.height in seenHeights) && HasTruthyItag(format) {
        seenHeights := seenHeights + {format.height};
        uniqueFormats := uniqueFormats + [MakeFormat(format, lengthSeconds)];
      }
      k := k + 1;
    }
    DedupDone(sorted, uniqueFormats, seenHeights, lengthSeconds);
  }

  /** The catalog depends on the candidates only through each height's
      subsequence, so a stable re-ordering by height leaves it unchanged. */
  lemma CatalogOfSameByHeight(out: seq<Format>, s: seq<RawFormat>, t: seq<RawFormat>, lengthSeconds: Option<nat>)
    requires SameByHeight(s, t)
    requires IsCatalog(out, s, lengthSeconds)
    ensures IsCatalog(out, t, lengthSeconds)
  {
    forall h ensures FirstClaim(s, h) == FirstClaim(t, h) {
      FirstClaimOfWithHeight(s, h);
      FirstClaimOfWithHeight(t, h);
    }
  }

  /** The catalog of the candidates is empty exactly when no upstream format
      passes the filter with a truthy itag. */
  lemma CatalogEmptyIff(out: seq<Format>, raw: seq<RawFormat>, lengthSeconds: Option<nat>)
    requires IsCatalog(out, Candidates(raw), lengthSeconds)
    ensures out == [] <==> !HasKeepable(raw)
  {
    var available := Candidates(raw);
    if HasKeepable(raw) {
      var i :| 0 <= i < |raw| && IsStrictCandidate(raw[i]) && HasTruthyItag(raw[i]);
      assert raw[i] in available;
      var j :| 0 <= j < |available| && available[j] == raw[i];
      FirstClaimExists(available, j, raw[i].height);
    }
    if out != [] {
      var f := FirstClaim(available, out[0].height).value;
      assert f in raw && IsStrictCandidate(f) && HasTruthyItag(f);
    }
  }

  /** Filtering, sorting and dedup of `getVideoInfo` (server.js:61-123). */
  method NormaliseFormats(raw: seq<RawFormat>, lengthSeconds: Option<nat>) returns (r: Result<seq<Format>, string>)
    ensures r.Failure? <==> !HasKeepable(raw)
    ensures r.Failure? ==> r.error == NoCompatibleFormats
    ensures r.Success? ==> IsCatalog(r.value, Candidates(raw), lengthSeconds)
    ensures r.Success? ==> 0 < |r.value| <= |Candidates(raw)|
  {
    var availableFormats := Filter(raw, IsStrictCandidate);
    if |availableFormats| == 0 {
      availableFormats := Filter(raw, IsLenientCandidate);
    }
    LenientFilterIsStrict(raw);

    var a := new RawFormat[|availableFormats|](i requires 0 <= i < |availableFormats| => availableFormats[i]);
    assert a[..] == availableFormats;
    SortByHeightDesc(a);
    var sorted := a[..];

    var uniqueFormats := KeepFirstPerHeight(sorted, lengthSeconds);
    CatalogOfSameByHeight(uniqueFormats, sorted, availableFormats, lengthSeconds);
    CatalogEmptyIff(uniqueFormats, raw, lengthSeconds);
    if |uniqueFormats| == 0 {
      r := Failure(NoCompatibleFormats);
    } else {
      r := Success(uniqueFormats);
    }
  }

  ghost predicate Descending(x: seq<nat>) {
    forall i, j :: 0 <= i < j < |x| ==> x[i] > x[j]
  }

  /** Every element of x occurs in y. */
  ghost predicate Within(x: seq<nat>, y: seq<nat>) {
    forall i :: 0 <= i < |x| ==> x[i] in y
  }

  lemma HeadsAgree(x: seq<nat>, y: seq<nat>)
    requires Descending(x) && Descending(y) && Within(x, y) && Within(y, x) && |x| > 0
    ensures |y| > 0 && x[0] == y[0]
  {
    assert x[0] in y;
    var j :| 0 <= j < |y| && y[j] == x[0];
    assert y[0] in x;
    var i :| 0 <= i < |x| && x[i] == y[0];
    assert x[0] >= x[i];
    assert y[0] >= y[j];
  }

  lemma TailWithin(x: seq<nat>, y: seq<nat>)
    requires Descending(x) && Within(x, y) && |x| > 0 && |y| > 0 && x[0] == y[0]
    ensures Within(x[1..], y[1..])
  {
    forall i | 0 <= i < |x| - 1 ensures x[1..][i] in y[1..] {
      assert x[i + 1] in y;
      var j :| 0 <= j < |y| && y[j] == x[i + 1];
      assert x[0] > x[i + 1];
      assert j != 0;
      assert y[1..][j - 1] == x[1..][i];
    }
  }

  /** Two strictly descending sequences of naturals with the same elements
      are equal. */
  lemma {:induction false} DescendingSameElementsEqual(x: seq<nat>, y: seq<nat>)
    requires Descending(x) && Descending(y) && Within(x, y) && Within(y, x)
    ensures x == y
    decreases |x|
  {
    if x != [] {
      HeadsAgree(x, y);
      TailWithin(x, y);
      TailWithin(y, x);
      DescendingSameElementsEqual(x[1..], y[1..]);
      assert x == [x[0]] + x[1..] && y == [y[0]] + y[1..];
    } else if y != [] {
      HeadsAgree(y, x);
    }
  }

  /** The heights of a catalog, in order. */
  function Heights(out: seq<Format>): (r: seq<nat>)
    ensures |r| == |out| && forall i :: 0 <= i < |out| ==> r[i] == out[i].height
  {
    seq(|out|, i requires 0 <= i < |out| => out[i].height)
  }

  /** The catalog of given candidates is unique: IsCatalog determines the
      normaliser's output completely. */
  lemma CatalogUnique(a: seq<Format>, b: seq<Format>, cands: seq<RawFormat>, lengthSeconds: Option<nat>)
    requires IsCatalog(a, cands, lengthSeconds) && IsCatalog(b, cands, lengthSeconds)
    ensures a == b
  {
    var x, y := Heights(a), Heights(b);
    CoveredBy(a, b, cands, lengthSeconds);
    CoveredBy(b, a, cands, lengthSeconds);
    forall i | 0 <= i < |x| ensures x[i] in y {
      var q :| 0 <= q < |b| && b[q].height == a[i].height;
      assert y[q] == x[i];
    }
    forall j | 0 <= j < |y| ensures y[j] in x {
      var p :| 0 <= p < |a| && a[p].height == b[j].height;
      assert x[p] == y[j];
    }
    DescendingSameElementsEqual(x, y);
    forall i | 0 <= i < |a| ensures a[i] == b[i] {
      assert x[i] == y[i];
    }
  }

  lemma CoveredBy(a: seq<Format>, b: seq<Format>, cands: seq<RawFormat>, lengthSeconds: Option<nat>)
    requires EntriesAreClaims(a, cands, lengthSeconds) && ClaimsCovered(b, cands)
    ensures forall p :: 0 <= p < |a| ==> HasHeight(b, a[p].height)
  {
    forall p | 0 <= p < |a| ensures HasHeight(b, a[p].height) {
      assert FirstClaim(cands, a[p].height).Some?;
    }
  }

  /** What every catalog entry satisfies, in terms of the upstream format it
      was built from: the filter's conditions, the itag, the frame rate
      default, the size rule, the label and the adaptive flag. */
  lemma CatalogEntry(out: seq<Format>, raw: seq<RawFormat>, lengthSeconds: Option<nat>, p: nat)
    requires IsCatalog(out, Candidates(raw), lengthSeconds) && p < |out|
    ensures var f := FirstClaim(Candidates(raw), out[p].height).value;
            && f in raw && IsStrictCandidate(f) && f.height == out[p].height
            && out[p].hasVideo && out[p].ext == TargetContainer && out[p].height >= MinHeight
            && out[p].itag != 0 && f.itag == Some(out[p].itag)
            && out[p].isAdaptive == !out[p].hasAudio && out[p].hasAudio == f.hasAudio
            && out[p].width == f.width && out[p].bitrate == f.bitrate
            && (f.fps != 0 ==> out[p].fps == f.fps) && (f.fps == 0 ==> out[p].fps == DefaultFps)
            && out[p].filesize == FileSize(f, lengthSeconds)
            && ParseQualityLabel(out[p].quality_label) ==
                 Some(LabelParts(out[p].height, if f.fps > DefaultFps then Some(f.fps) else None))
            && (f.qualityLabel != "" ==> out[p].qualityLabel == f.qualityLabel)
            && (f.qualityLabel == "" ==>
                  ParseQualityLabel(out[p].qualityLabel) == Some(LabelParts(out[p].height, None)))
  {
  }

  /** Catalog entries at distinct positions have distinct heights. */
  lemma CatalogHeightsDistinct(out: seq<Format>, cands: seq<RawFormat>, lengthSeconds: Option<nat>, p: nat, q: nat)
    requires IsCatalog(out, cands, lengthSeconds) && p < |out| && q < |out| && p != q
    ensures out[p].height != out[q].height
  {
  }
}
