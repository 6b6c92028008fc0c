/** The two per-row classifiers of the log analyzer: the image test on the
    request path (`\.(jpg|gif|png)$`, case-insensitive, searched) and the
    browser search on the user agent (`(Firefox|Chrome|Internet Explorer|Safari)`,
    case-insensitive, leftmost match). Patterns are written in folded (lower-case)
    form; see `Text.Fold`. */
module Classify {
  import opened Wrappers
  import opened Text

  /** The three alternatives of the image pattern, after the dot. */
  const ImageExtensions: seq<string> := ["jpg", "gif", "png"]

  /** The four alternatives of the browser pattern, in the order the regex
      tries them. */
  const Browsers: seq<string> := ["firefox", "chrome", "internet explorer", "safari"]

  // ---------------------------------------------------------------------------
  // Image requests
  // ---------------------------------------------------------------------------

  /** The image regex matches at position `i` of `path`: a dot and one of the
      extensions, followed by `$`, which in Python matches at the very end of
      the string and also just before a newline that ends the string. */
  ghost predicate ImageMatchAt(path: string, i: nat) {
    exists e :: e in ImageExtensions && MatchesAt(path, i, "." + e)
      && (i + 4 == |path| || (i + 5 == |path| && path[i + 4] == '\n'))
  }

  /** `s` ends in ".jpg", ".gif" or ".png", in any case. */
  predicate HasImageSuffix(s: string) {
    |s| >= 4 && exists e | e in ImageExtensions :: MatchesAt(s, |s| - 4, "." + e)
  }

  /** `image_pattern.search(path)` succeeds. */
  predicate IsImagePath(path: string) {
    || HasImageSuffix(path)
    || (|path| > 0 && path[|path| - 1] == '\n' && HasImageSuffix(path[..|path| - 1]))
  }

  /** The suffix test is exactly the regex search: it succeeds if and only if
      the pattern matches at some position of the path. */
  lemma ImageTestIsRegexSearch(path: string)
    ensures IsImagePath(path) <==> exists i: nat :: ImageMatchAt(path, i)
  {
    if IsImagePath(path) {
      SuffixIsMatch(path);
    }
    if i: nat :| ImageMatchAt(path, i) {
      MatchIsSuffix(path, i);
    }
  }

  lemma SuffixIsMatch(path: string)
    requires IsImagePath(path)
    ensures exists i: nat :: ImageMatchAt(path, i)
  {
    if HasImageSuffix(path) {
      assert ImageMatchAt(path, |path| - 4);
    } else {
      var p := path[..|path| - 1];
      var e :| e in ImageExtensions && MatchesAt(p, |p| - 4, "." + e);
      assert MatchesAt(path, |p| - 4, "." + e);
      assert ImageMatchAt(path, |path| - 5);
    }
  }

  lemma MatchIsSuffix(path: string, i: nat)
    requires ImageMatchAt(path, i)
    ensures IsImagePath(path)
  {
    var e :| e in ImageExtensions && MatchesAt(path, i, "." + e)
      && (i + 4 == |path| || (i + 5 == |path| && path[i + 4] == '\n'));
    if i + 4 == |path| {
      assert HasImageSuffix(path);
    } else {
      var p := path[..|path| - 1];
      assert MatchesAt(p, |p| - 4, "." + e);
      assert HasImageSuffix(p);
    }
  }

  /** Apart from a path ending in a newline, a path is an image request
      exactly when its last four characters, case-folded, are ".jpg", ".gif"
      or ".png": "a.JPG" counts and "a.jpgx" does not. */
  lemma ImageIffFoldedSuffix(path: string)
    requires |path| == 0 || path[|path| - 1] != '\n'
    ensures IsImagePath(path) <==> |path| >= 4 && FoldAll(path[|path| - 4..]) in [".jpg", ".gif", ".png"]
  {
    if |path| >= 4 {
      var i := |path| - 4;
      assert path[i..i + 4] == path[i..];
      MatchesAtSlice(path, i, ".jpg");
      MatchesAtSlice(path, i, ".gif");
      MatchesAtSlice(path, i, ".png");
      assert "." + ImageExtensions[0] == ".jpg";
      assert "." + ImageExtensions[1] == ".gif";
      assert "." + ImageExtensions[2] == ".png";
    }
  }

  // ---------------------------------------------------------------------------
  // Browsers
  // ---------------------------------------------------------------------------

  /** Where the browser regex matched: the start position and the index of
      the alternative that matched there. */
  datatype BrowserMatch = BrowserMatch(start: nat, alt: nat)

  /** `m` is the match `re.search` reports: its alternative matches at its
      start, no alternative matches anywhere earlier, and no earlier
      alternative matches at the same start. */
  ghost predicate IsLeftmostMatch(ua: string, m: BrowserMatch) {
    && m.alt < |Browsers|
    && MatchesAt(ua, m.start, Browsers[m.alt])
    && (forall j: nat, k :: j < m.start && 0 <= k < |Browsers| ==> !MatchesAt(ua, j, Browsers[k]))
    && (forall k :: 0 <= k < m.alt ==> !MatchesAt(ua, m.start, Browsers[k]))
  }

  /** No browser name occurs anywhere in `ua`. */
  ghost predicate NoBrowserIn(ua: string) {
    forall j: nat, k :: 0 <= k < |Browsers| ==> !MatchesAt(ua, j, Browsers[k])
  }

  /** The first alternative, from `k` on, that matches at position `i`. */
  function AltAt(ua: string, i: nat, k: nat): (r: Option<nat>)
    requires k <= |Browsers|
    ensures r.Some? ==> k <= r.value < |Browsers| && MatchesAt(ua, i, Browsers[r.value])
    ensures r.Some? ==> forall a :: k <= a < r.value ==> !MatchesAt(ua, i, Browsers[a])
    ensures r.None? ==> forall a :: k <= a < |Browsers| ==> !MatchesAt(ua, i, Browsers[a])
    decreases |Browsers| - k
  {
    if k == |Browsers| then None
    else if MatchesAt(ua, i, Browsers[k]) then Some(k)
    else AltAt(ua, i, k + 1)
  }

  /** The regex engine's scan: try every start position from `i` on, left to
      right, and report the first one where some alternative matches. */
  function SearchFrom(ua: string, i: nat): (r: Option<BrowserMatch>)
    requires i <= |ua|
    ensures r.Some? ==> i <= r.value.start && r.value.alt < |Browsers|
    ensures r.Some? ==> MatchesAt(ua, r.value.start, Browsers[r.value.alt])
    ensures r.Some? ==> forall k :: 0 <= k < r.value.alt ==> !MatchesAt(ua, r.value.start, Browsers[k])
    ensures r.Some? ==> forall j: nat, k :: i <= j < r.value.start && 0 <= k < |Browsers| ==> !MatchesAt(ua, j, Browsers[k])
    ensures r.None? ==> forall j: nat, k :: i <= j && 0 <= k < |Browsers| ==> !MatchesAt(ua, j, Browsers[k])
    decreases |ua| - i
  {
    match AltAt(ua, i, 0)
    case Some(k) => Some(BrowserMatch(i, k))
    case None =>
      if i == |ua| then None
      else SearchFrom(ua, i + 1)
  }

  /** `browser_pattern.search(user_agent)`. */
  function FindBrowser(ua: string): (r: Option<BrowserMatch>)
    ensures r.Some? ==> IsLeftmostMatch(ua, r.value)
    ensures r.None? <==> NoBrowserIn(ua)
  {
    SearchFrom(ua, 0)
  }

  /** `browser_match.group()`: the text the regex matched, exactly as it is
      written in the user agent, so that "firefox" and "Firefox" are different
      keys. */
  function BrowserKey(ua: string): (r: Option<string>)
    ensures r.None? <==> NoBrowserIn(ua)
    ensures r.Some? ==> FoldAll(r.value) in Browsers
    ensures r.Some? ==> exists m :: IsLeftmostMatch(ua, m) && r.value == ua[m.start..m.start + |Browsers[m.alt]|]
  {
    match FindBrowser(ua)
    case Some(m) =>
      var key := ua[m.start..m.start + |Browsers[m.alt]|];
      MatchesAtSlice(ua, m.start, Browsers[m.alt]);
      Some(key)
    case None => None
  }

  /** The leftmost match is unique, so `FindBrowser`'s contract fixes its
      answer. */
  lemma LeftmostMatchUnique(ua: string, m1: BrowserMatch, m2: BrowserMatch)
    requires IsLeftmostMatch(ua, m1) && IsLeftmostMatch(ua, m2)
    ensures m1 == m2
  {
    assert m1.start == m2.start by {
      assert MatchesAt(ua, m1.start, Browsers[m1.alt]);
      assert MatchesAt(ua, m2.start, Browsers[m2.alt]);
    }
    assert MatchesAt(ua, m1.start, Browsers[m1.alt]);
    assert MatchesAt(ua, m2.start, Browsers[m2.alt]);
  }

  /** Any leftmost match determines the key: the literal text it covers. */
  lemma KeyOfLeftmostMatch(ua: string, m: BrowserMatch)
    requires IsLeftmostMatch(ua, m)
    ensures BrowserKey(ua) == Some(ua[m.start..m.start + |Browsers[m.alt]|])
  {
    var found := FindBrowser(ua);
    assert !NoBrowserIn(ua) by {
      assert MatchesAt(ua, m.start, Browsers[m.alt]);
    }
    LeftmostMatchUnique(ua, found.value, m);
  }
}
