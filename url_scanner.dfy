/**
 * The three script scans of `getContentDetails`:
 * `text.match(/(https?:\/\/[^\s"']+\.EXT[^\s"']*)/)` for EXT one of m3u8,
 * mpd and mp4. `Scan` is the scanner, written as recursive string functions;
 * `InPattern` is the language of the pattern, and `ScanFindsLeftmostLongest`
 * proves that the scanner returns the leftmost-longest match: the match
 * starting leftmost and, at that start, the longest one. For this pattern that
 * is the match JavaScript's backtracking matcher reports (see `SchemeEnd` and
 * `MatchAt`).
 */
module UrlScanner {
  import opened Wrappers
  import opened Text

  /** The file extensions looked for: HLS playlists, DASH manifests, MP4 files. */
  datatype Ext = M3u8 | Mpd | Mp4

  /** The literal `\.EXT` part of the pattern. */
  function DotExt(x: Ext): (d: string)
    ensures |d| > 1 && d[0] == '.'
  {
    match x
    case M3u8 => ".m3u8"
    case Mpd => ".mpd"
    case Mp4 => ".mp4"
  }

  /** The characters the class `[^\s"']` excludes. */
  predicate IsStop(c: char) {
    IsSpace(c) || c == '"' || c == '\''
  }

  predicate NoStop(w: string) {
    forall i :: 0 <= i < |w| ==> !IsStop(w[i])
  }

  /** What follows the scheme: `[^\s"']+\.EXT[^\s"']*` */
  predicate IsTail(b: string, x: Ext) {
    0 < |b| && NoStop(b) && Contains(b[1..], DotExt(x))
  }

  /** `w` as a whole is in the language of `https?:\/\/[^\s"']+\.EXT[^\s"']*`. */
  predicate InPattern(w: string, x: Ext) {
    (StartsWith(w, "http://") && IsTail(w[7..], x))
    || (StartsWith(w, "https://") && IsTail(w[8..], x))
  }

  /** The pattern matches exactly `s[p..e]`. */
  predicate MatchesSpan(s: string, x: Ext, p: nat, e: nat) {
    p <= e <= |s| && InPattern(s[p..e], x)
  }

  /**
   * `m` is the match a JavaScript regular expression reports for the pattern
   * in `s`: it starts at `p`, no match starts before `p`, and no longer match
   * starts at `p`.
   */
  ghost predicate IsLeftmostLongest(s: string, x: Ext, p: nat, m: string) {
    p + |m| <= |s| && m == s[p..p + |m|]
    && MatchesSpan(s, x, p, p + |m|)
    && (forall p': nat, e': nat :: p' < p ==> !MatchesSpan(s, x, p', e'))
    && (forall e': nat :: p + |m| < e' ==> !MatchesSpan(s, x, p, e'))
  }

  /**
   * The index just past `https://` or `http://` at `p`. `s?` is greedy, so
   * `https://` is tried first; where it occurs, `http://` cannot.
   */
  function SchemeEnd(s: string, p: nat): (q: Option<nat>)
    ensures q.Some? ==> p + 7 <= q.value <= |s|
  {
    if OccursAt(s, p, "https://") then Some(p + 8)
    else if OccursAt(s, p, "http://") then Some(p + 7)
    else None
  }

  /** The end of the run of non-stop characters that starts at `q`. */
  function RunEnd(s: string, q: nat): (e: nat)
    requires q <= |s|
    ensures q <= e <= |s|
    ensures NoStop(s[q..e])
    ensures e < |s| ==> IsStop(s[e])
    decreases |s| - q
  {
    if q == |s| || IsStop(s[q]) then q else RunEnd(s, q + 1)
  }

  /**
   * The match starting at `p`, if any: the character classes are greedy, so
   * it runs to the end of the non-stop run after the scheme, and it exists when
   * `\.EXT` occurs in that run after at least one character.
   */
  function MatchAt(s: string, x: Ext, p: nat): Option<string>
    requires p <= |s|
  {
    match SchemeEnd(s, p)
    case None => None
    case Some(q) =>
      var e := RunEnd(s, q);
      if q < e && Contains(s[q + 1..e], DotExt(x)) then Some(s[p..e]) else None
  }

  /** The first start position, from `p` on, at which the pattern matches. */
  function FirstStart(s: string, x: Ext, p: nat): (q: Option<nat>)
    requires p <= |s|
    ensures q.Some? ==> p <= q.value <= |s| && MatchAt(s, x, q.value).Some?
    decreases |s| - p
  {
    if MatchAt(s, x, p).Some? then Some(p)
    else if p == |s| then None
    else FirstStart(s, x, p + 1)
  }

  /** `text.match(/(https?:\/\/[^\s"']+\.EXT[^\s"']*)/)`, with the group as the value. */
  function Scan(s: string, x: Ext): Option<string> {
    match FirstStart(s, x, 0)
    case None => None
    case Some(q) => MatchAt(s, x, q)
  }

  /** A span in the pattern's language starts with the scheme `SchemeEnd` finds, followed by a tail. */
  lemma SpanHasScheme(s: string, x: Ext, p: nat, e: nat)
    requires MatchesSpan(s, x, p, e)
    ensures SchemeEnd(s, p).Some? && SchemeEnd(s, p).value <= e
    ensures IsTail(s[SchemeEnd(s, p).value..e], x)
  {
    var w := s[p..e];
    if StartsWith(w, "https://") && IsTail(w[8..], x) {
      assert s[p..p + 8] == w[..8];
      assert OccursAt(s, p, "https://");
      assert w[8..] == s[p + 8..e];
    } else {
      assert s[p..p + 7] == w[..7];
      assert OccursAt(s, p, "http://");
      assert w[7..] == s[p + 7..e];
      assert !OccursAt(s, p, "https://") by {
        assert s[p + 4] == w[4] == ':';
      }
    }
  }

  /** A scheme found at `p` followed by a tail is a span in the pattern's language. */
  lemma SchemeThenTail(s: string, x: Ext, p: nat, e: nat)
    requires p <= e <= |s| && SchemeEnd(s, p).Some?
    requires SchemeEnd(s, p).value <= e && IsTail(s[SchemeEnd(s, p).value..e], x)
    ensures MatchesSpan(s, x, p, e)
  {
    var q := SchemeEnd(s, p).value;
    SliceOfSlice(s, p, e, 0, q - p);
    SliceOfSlice(s, p, e, q - p, e - p);
    if q != p + 8 {
      assert OccursAt(s, p, "http://");
    }
  }

  /** With a scheme at `p`, a span from `p` matches exactly when the part after the scheme is a tail. */
  lemma SpanAfterScheme(s: string, x: Ext, p: nat, e: nat)
    requires p <= e <= |s|
    ensures SchemeEnd(s, p).None? ==> !MatchesSpan(s, x, p, e)
    ensures SchemeEnd(s, p).Some? ==>
      (MatchesSpan(s, x, p, e) <==> SchemeEnd(s, p).value <= e && IsTail(s[SchemeEnd(s, p).value..e], x))
  {
    if MatchesSpan(s, x, p, e) {
      SpanHasScheme(s, x, p, e);
    }
    if SchemeEnd(s, p).Some? && SchemeEnd(s, p).value <= e && IsTail(s[SchemeEnd(s, p).value..e], x) {
      SchemeThenTail(s, x, p, e);
    }
  }

  /** A stop-free stretch from `q` never reaches past the end of the run. */
  lemma RunCovers(s: string, q: nat, e: nat)
    requires q <= e <= |s| && NoStop(s[q..e])
    ensures e <= RunEnd(s, q)
  {
  }

  /** A tail starting at `q` ends inside the run from `q`, and that run holds `.EXT`. */
  lemma TailInRun(s: string, x: Ext, q: nat, e: nat)
    requires q <= e <= |s| && IsTail(s[q..e], x)
    ensures e <= RunEnd(s, q) && q < RunEnd(s, q) && Contains(s[q + 1..RunEnd(s, q)], DotExt(x))
  {
    var d := DotExt(x);
    var b := s[q..e];
    RunCovers(s, q, e);
    assert b[1..] == s[q + 1..e];
    ContainsInWiderSlice(s, q + 1, e, RunEnd(s, q), d);
  }

  /** Every span from `p` in the pattern's language ends inside the run after the scheme. */
  lemma SpanInRun(s: string, x: Ext, p: nat, e: nat)
    requires p <= |s| && MatchesSpan(s, x, p, e)
    ensures SchemeEnd(s, p).Some?
    ensures var q := SchemeEnd(s, p).value; var e0 := RunEnd(s, q);
      e <= e0 && q < e0 && Contains(s[q + 1..e0], DotExt(x))
  {
    SpanAfterScheme(s, x, p, e);
    TailInRun(s, x, SchemeEnd(s, p).value, e);
  }

  /** When the run after the scheme holds `.EXT`, the whole run is a match. */
  lemma RunMatches(s: string, x: Ext, p: nat)
    requires p <= |s| && SchemeEnd(s, p).Some?
    requires var q := SchemeEnd(s, p).value; var e0 := RunEnd(s, q);
      q < e0 && Contains(s[q + 1..e0], DotExt(x))
    ensures var e0 := RunEnd(s, SchemeEnd(s, p).value);
      MatchAt(s, x, p) == Some(s[p..e0]) && MatchesSpan(s, x, p, e0)
  {
    var q := SchemeEnd(s, p).value;
    var e0 := RunEnd(s, q);
    SpanAfterScheme(s, x, p, e0);
    assert s[q..e0][1..] == s[q + 1..e0];
    assert IsTail(s[q..e0], x);
  }

  /**
   * `MatchAt` is exact: it finds a span from `p` when there is one, and then
   * the longest.
   */
  lemma MatchAtExact(s: string, x: Ext, p: nat)
    requires p <= |s|
    ensures MatchAt(s, x, p).None? ==> forall e: nat :: !MatchesSpan(s, x, p, e)
    ensures MatchAt(s, x, p).Some? ==>
      var m := MatchAt(s, x, p).value;
      p + |m| <= |s| && m == s[p..p + |m|] && MatchesSpan(s, x, p, p + |m|)
      && forall e': nat :: p + |m| < e' ==> !MatchesSpan(s, x, p, e')
  {
    forall e: nat | MatchesSpan(s, x, p, e)
      ensures SchemeEnd(s, p).Some? && e <= RunEnd(s, SchemeEnd(s, p).value)
      ensures MatchAt(s, x, p).Some?
    {
      SpanInRun(s, x, p, e);
    }
    if MatchAt(s, x, p).Some? {
      RunMatches(s, x, p);
    }
  }

  lemma FirstStartExact(s: string, x: Ext, p: nat)
    requires p <= |s|
    decreases |s| - p
    ensures FirstStart(s, x, p).None? ==> forall p': nat, e': nat :: p <= p' ==> !MatchesSpan(s, x, p', e')
    ensures FirstStart(s, x, p).Some? ==>
      forall p': nat, e': nat :: p <= p' < FirstStart(s, x, p).value ==> !MatchesSpan(s, x, p', e')
  {
    MatchAtExact(s, x, p);
    if MatchAt(s, x, p).None? {
      if p < |s| {
        FirstStartExact(s, x, p + 1);
      } else {
        forall p': nat, e': nat | p < p' ensures !MatchesSpan(s, x, p', e') {}
      }
    }
  }

  /** The scanner finds nothing exactly when no span of `s` is in the pattern's language. */
  lemma ScanNoneExactly(s: string, x: Ext)
    ensures Scan(s, x).None? <==> forall p: nat, e: nat :: !MatchesSpan(s, x, p, e)
  {
    FirstStartExact(s, x, 0);
    if FirstStart(s, x, 0).Some? {
      var q := FirstStart(s, x, 0).value;
      MatchAtExact(s, x, q);
      assert MatchesSpan(s, x, q, q + |MatchAt(s, x, q).value|);
    }
  }

  /** What the scanner finds starts leftmost and, there, is longest. */
  lemma ScanSomeLeftmostLongest(s: string, x: Ext)
    requires Scan(s, x).Some?
    ensures exists p: nat :: IsLeftmostLongest(s, x, p, Scan(s, x).value)
  {
    FirstStartExact(s, x, 0);
    var q := FirstStart(s, x, 0).value;
    MatchAtExact(s, x, q);
    assert IsLeftmostLongest(s, x, q, Scan(s, x).value);
  }

  /**
   * The scanner agrees with the regular expression: it finds nothing exactly
   * when no span of `s` is in the pattern's language, and otherwise it finds
   * the leftmost-longest match.
   */
  lemma ScanFindsLeftmostLongest(s: string, x: Ext)
    ensures Scan(s, x).None? <==> forall p: nat, e: nat :: !MatchesSpan(s, x, p, e)
    ensures Scan(s, x).Some? ==> exists p: nat :: IsLeftmostLongest(s, x, p, Scan(s, x).value)
  {
    ScanNoneExactly(s, x);
    if Scan(s, x).Some? {
      ScanSomeLeftmostLongest(s, x);
    }
  }

  lemma SchemesHaveNoStop()
    ensures NoStop("http://") && NoStop("https://")
  {
  }

  /** A stop-free scheme followed by a tail has no stop character. */
  lemma SchemeTailNoStop(w: string, n: nat, x: Ext)
    requires n <= |w| && NoStop(w[..n]) && IsTail(w[n..], x)
    ensures NoStop(w)
  {
    var b := w[n..];
    forall i | 0 <= i < |w| ensures !IsStop(w[i]) {
      if i >= n {
        assert w[i] == b[i - n];
      } else {
        assert w[i] == w[..n][i];
      }
    }
  }

  /** A scheme followed by a tail contains `.EXT`. */
  lemma SchemeTailHasExt(w: string, n: nat, x: Ext)
    requires n <= |w| && IsTail(w[n..], x)
    ensures Contains(w, DotExt(x))
  {
    var b := w[n..];
    var d := DotExt(x);
    var k: nat :| k <= |b[1..]| && OccursAt(b[1..], k, d);
    assert b[1..] == w[n + 1..];
    SliceOfSlice(w, n + 1, |w|, k, k + |d|);
    assert OccursAt(w, n + 1 + k, d);
  }

  /** A word of the pattern's language has no stop character and contains `.EXT`. */
  lemma InPatternShape(w: string, x: Ext)
    requires InPattern(w, x)
    ensures NoStop(w) && Contains(w, DotExt(x))
    ensures StartsWith(w, "http://") || StartsWith(w, "https://")
  {
    SchemesHaveNoStop();
    var n := if StartsWith(w, "http://") && IsTail(w[7..], x) then 7 else 8;
    SchemeTailNoStop(w, n, x);
    SchemeTailHasExt(w, n, x);
  }

  /**
   * Every URL the scripts yield starts with `http://` or `https://`, holds the
   * extension looked for, contains no white space or quote, and is text of the
   * script.
   */
  lemma ScannedUrlShape(s: string, x: Ext)
    requires Scan(s, x).Some?
    ensures var u := Scan(s, x).value;
      (StartsWith(u, "http://") || StartsWith(u, "https://"))
      && Contains(u, DotExt(x)) && NoStop(u) && Contains(s, u)
  {
    ScanFindsLeftmostLongest(s, x);
    var u := Scan(s, x).value;
    var p :| IsLeftmostLongest(s, x, p, u);
    InPatternShape(u, x);
    assert OccursAt(s, p, u);
  }
}
