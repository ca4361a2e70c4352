/** The download filename built from the video title (server.js:168-173,
    repeated at api/download.js:45-50): characters other than word
    characters, whitespace, '.' and '-' are removed, every whitespace run
    becomes one '_', the result is cut to 100 characters and ".mp4" is
    appended. */
module Title {

  const MaxTitleLength: nat := 100
  const Extension: string := ".mp4"

  /** `\w` of a JavaScript regular expression without the `u` flag. */
  predicate IsWordChar(c: char) {
    ('A' <= c <= 'Z') || ('a' <= c <= 'z') || ('0' <= c <= '9') || c == '_'
  }

  /** `\s` of a JavaScript regular expression: the ECMAScript WhiteSpace and
      LineTerminator code points. */
  predicate IsSpace(c: char) {
    c == '\t' || c == '\n' || c == '\U{B}' || c == '\U{C}' || c == '\r' || c == ' ' ||
    c == '\U{A0}' || c == '\U{1680}' || ('\U{2000}' <= c <= '\U{200A}') ||
    c == '\U{2028}' || c == '\U{2029}' || c == '\U{202F}' || c == '\U{205F}' ||
    c == '\U{3000}' || c == '\U{FEFF}'
  }

  /** The characters `/[^\w\s.-]/gi` leaves in place. */
  predicate IsKept(c: char) {
    IsWordChar(c) || IsSpace(c) || c == '.' || c == '-'
  }

  /** The characters a sanitised title may contain. */
  predicate IsSafe(c: char) {
    IsWordChar(c) || c == '.' || c == '-'
  }

  /** s holds no whitespace. */
  predicate NoSpace(s: string) {
    forall i :: 0 <= i < |s| ==> !IsSpace(s[i])
  }

  /** s is made of whitespace only. */
  predicate AllSpace(s: string) {
    forall i :: 0 <= i < |s| ==> IsSpace(s[i])
  }

  predicate AllSafe(s: string) {
    forall i :: 0 <= i < |s| ==> IsSafe(s[i])
  }

  /** `.replace(/[^\w\s.-]/gi, '')`: the kept characters, in order. */
  function StripSpecial(s: string): (r: string)
    ensures |r| <= |s|
    ensures forall i :: 0 <= i < |r| ==> IsKept(r[i])
    ensures forall c :: c in r <==> c in s && IsKept(c)
    ensures (forall i :: 0 <= i < |s| ==> IsKept(s[i])) ==> r == s
  {
    if s == [] then []
    else (if IsKept(s[0]) then [s[0]] else []) + StripSpecial(s[1..])
  }

  /** Stripping works character by character: it distributes over
      concatenation, and a single character is kept exactly when it is one of
      the kept kinds. Together these fix the result, order and repetitions
      included. */
  lemma {:induction false} StripSpecialConcat(a: string, b: string)
    ensures StripSpecial(a + b) == StripSpecial(a) + StripSpecial(b)
  {
    if a != [] {
      assert (a + b)[1..] == a[1..] + b;
      StripSpecialConcat(a[1..], b);
    } else {
      assert a + b == b;
    }
  }

  lemma StripSpecialSingle(c: char)
    ensures StripSpecial([c]) == if IsKept(c) then [c] else []
  {
    assert [c][1..] == [];
  }

  /** s without its leading whitespace. */
  function DropSpaces(s: string): (r: string)
    ensures |r| <= |s|
    ensures r == [] || !IsSpace(r[0])
    ensures r == s[|s| - |r|..]
  {
    if s != [] && IsSpace(s[0]) then DropSpaces(s[1..]) else s
  }

  /** The characters of s that are neither whitespace nor '_'. */
  function Visible(s: string): string {
    if s == [] then []
    else (if IsSpace(s[0]) || s[0] == '_' then [] else [s[0]]) + Visible(s[1..])
  }

  lemma {:induction false} VisibleDropSpaces(s: string)
    ensures Visible(DropSpaces(s)) == Visible(s)
  {
    if s != [] && IsSpace(s[0]) {
      VisibleDropSpaces(s[1..]);
    }
  }

  /** `.replace(/\s+/g, '_')`: every maximal whitespace run becomes one '_'. */
  function CollapseSpaces(s: string): (r: string)
    ensures |r| <= |s|
    ensures NoSpace(r)
    decreases |s|
  {
    if s == [] then []
    else if IsSpace(s[0]) then ['_'] + CollapseSpaces(DropSpaces(s[1..]))
    else [s[0]] + CollapseSpaces(s[1..])
  }

  /** Collapsing adds no character but '_'. */
  lemma {:induction false} CollapseAddsOnlyUnderscore(s: string)
    ensures forall i :: 0 <= i < |CollapseSpaces(s)| ==> CollapseSpaces(s)[i] in s || CollapseSpaces(s)[i] == '_'
    decreases |s|
  {
    if s != [] {
      var tail := if IsSpace(s[0]) then DropSpaces(s[1..]) else s[1..];
      CollapseAddsOnlyUnderscore(tail);
      CharsOfSuffix(s, tail, CollapseSpaces(tail));
    }
  }

  /** Characters drawn from a suffix of s are characters of s. */
  lemma CharsOfSuffix(s: string, t: string, r: string)
    requires |t| <= |s| && t == s[|s| - |t|..]
    requires forall i :: 0 <= i < |r| ==> r[i] in t || r[i] == '_'
    ensures forall i :: 0 <= i < |r| ==> r[i] in s || r[i] == '_'
  {
    forall i | 0 <= i < |r| && r[i] in t ensures r[i] in s {
      var j :| 0 <= j < |t| && t[j] == r[i];
      assert s[|s| - |t| + j] == t[j];
    }
  }

  /** Collapsing whitespace touches nothing but whitespace and underscores:
      the other characters survive, in order. */
  lemma {:induction false} CollapseKeepsVisible(s: string)
    ensures Visible(CollapseSpaces(s)) == Visible(s)
    decreases |s|
  {
    if s != [] {
      if IsSpace(s[0]) {
        CollapseKeepsVisible(DropSpaces(s[1..]));
        VisibleDropSpaces(s[1..]);
        assert Visible(['_'] + CollapseSpaces(DropSpaces(s[1..]))) == Visible(CollapseSpaces(DropSpaces(s[1..]))) by {
          assert (['_'] + CollapseSpaces(DropSpaces(s[1..])))[1..] == CollapseSpaces(DropSpaces(s[1..]));
        }
      } else {
        CollapseKeepsVisible(s[1..]);
        assert ([s[0]] + CollapseSpaces(s[1..]))[1..] == CollapseSpaces(s[1..]);
      }
    }
  }

  /** A whitespace run of any length before a non-whitespace character is
      dropped whole. */
  lemma {:induction false} DropSpacesRun(w: string, b: string)
    requires AllSpace(w)
    requires b == [] || !IsSpace(b[0])
    ensures DropSpaces(w + b) == b
  {
    if w != [] {
      assert (w + b)[0] == w[0];
      assert (w + b)[1..] == w[1..] + b;
      DropSpacesRun(w[1..], b);
    } else {
      assert w + b == b;
    }
  }

  /** Each maximal whitespace run becomes exactly one '_': in `a + w + b` with
      `a` free of whitespace, `w` a non-empty whitespace run and `b` not
      starting with whitespace, the run is replaced by a single '_' and
      nothing before it changes. With the identity on whitespace-free text
      this fixes the result completely. */
  lemma CollapseRun(a: string, w: string, b: string)
    requires NoSpace(a)
    requires w != [] && AllSpace(w)
    requires b == [] || !IsSpace(b[0])
    ensures CollapseSpaces(a + (w + b)) == a + ("_" + CollapseSpaces(b))
  {
    CollapsePlainPrefix(a, w + b);
    CollapseRunHead(w, b);
  }

  /** Text free of whitespace in front passes through unchanged; with an
      empty t, collapsing is the identity on whitespace-free text. */
  lemma {:induction false} CollapsePlainPrefix(a: string, t: string)
    requires NoSpace(a)
    ensures CollapseSpaces(a + t) == a + CollapseSpaces(t)
    decreases |a|
  {
    if a == [] {
      assert a + t == t;
    } else {
      var a' := a[1..];
      assert a + t == [a[0]] + (a' + t);
      CollapseCons(a[0], a' + t);
      CollapsePlainPrefix(a', t);
      assert a == [a[0]] + a';
    }
  }

  /** A leading whitespace run becomes one '_'. */
  lemma CollapseRunHead(w: string, b: string)
    requires w != [] && AllSpace(w)
    requires b == [] || !IsSpace(b[0])
    ensures CollapseSpaces(w + b) == "_" + CollapseSpaces(b)
  {
    var s := w + b;
    assert s[0] == w[0];
    assert s[1..] == w[1..] + b;
    DropSpacesRun(w[1..], b);
  }

  /** A leading character other than whitespace is kept. */
  lemma CollapseCons(c: char, t: string)
    requires !IsSpace(c)
    ensures CollapseSpaces([c] + t) == [c] + CollapseSpaces(t)
  {
    assert ([c] + t)[0] == c;
    assert ([c] + t)[1..] == t;
  }

  /** `.substring(0, n)`. Every character left at this point is in the Basic
      Multilingual Plane, so UTF-16 units and characters coincide. */
  function Truncate(s: string, n: nat): (r: string)
    ensures |r| == if |s| <= n then |s| else n
    ensures r <= s
  {
    if |s| <= n then s else s[..n]
  }

  /** Collapsing the whitespace of stripped text leaves only safe characters. */
  lemma CollapsedIsSafe(s: string)
    requires forall i :: 0 <= i < |s| ==> IsKept(s[i])
    ensures AllSafe(CollapseSpaces(s))
  {
    var r := CollapseSpaces(s);
    CollapseAddsOnlyUnderscore(s);
    forall i | 0 <= i < |r| ensures IsSafe(r[i]) {
      if r[i] != '_' {
        assert r[i] in s;
      }
    }
  }

  /** The sanitised title: it holds only `[A-Za-z0-9_.-]`, no whitespace, and
      at most 100 characters. */
  function SanitiseTitle(title: string): (r: string)
    ensures AllSafe(r)
    ensures NoSpace(r)
    ensures |r| <= MaxTitleLength
  {
    var collapsed := CollapseSpaces(StripSpecial(title));
    CollapsedIsSafe(StripSpecial(title));
    Truncate(collapsed, MaxTitleLength)
  }

  /** The name sent in Content-Disposition: the sanitised title followed by
      ".mp4", so it too holds only safe characters. */
  function Filename(title: string): (r: string)
    ensures |Extension| <= |r| <= MaxTitleLength + |Extension|
    ensures r[..|r| - |Extension|] == SanitiseTitle(title)
    ensures r[|r| - |Extension|..] == Extension
    ensures AllSafe(r)
  {
    var t := SanitiseTitle(title);
    SafeConcat(t, Extension);
    t + Extension
  }

  /** Two safe strings joined are safe, and the join splits back at the seam. */
  lemma SafeConcat(a: string, b: string)
    requires AllSafe(a) && b == Extension
    ensures AllSafe(a + b) && (a + b)[..|a|] == a && (a + b)[|a|..] == b
  {
    assert forall i :: |a| <= i < |a| + |b| ==> (a + b)[i] == b[i - |a|];
  }

  /** A short title made of safe characters passes through unchanged. */
  lemma SanitiseSafeIdentity(title: string)
    requires AllSafe(title) && |title| <= MaxTitleLength
    ensures SanitiseTitle(title) == title
  {
    CollapsePlainPrefix(title, []);
    assert title + [] == title;
    assert forall i :: 0 <= i < |title| ==> IsKept(title[i]);
    assert NoSpace(title);
  }

  /** Sanitising is idempotent. */
  lemma SanitiseIdempotent(title: string)
    ensures SanitiseTitle(SanitiseTitle(title)) == SanitiseTitle(title)
  {
    SanitiseSafeIdentity(SanitiseTitle(title));
  }
}
