/**
 * The JavaScript string built-ins the plugin relies on: the white-space class
 * shared by the regular-expression escape `\s` and `String.prototype.trim`,
 * `startsWith`, `includes`, `trim`, and the truthiness of an attribute value.
 */
module Text {
  import opened Wrappers

  /**
   * ECMAScript white space and line terminators: TAB, LF, VT, FF, CR, SPACE,
   * NO-BREAK SPACE, the other Unicode space separators, LINE SEPARATOR,
   * PARAGRAPH SEPARATOR and the byte-order mark.
   */
  predicate IsSpace(c: char) {
    var n := c as int;
    n == 0x09 || n == 0x0A || n == 0x0B || n == 0x0C || n == 0x0D || n == 0x20
    || n == 0xA0 || n == 0x1680 || (0x2000 <= n <= 0x200A)
    || n == 0x2028 || n == 0x2029 || n == 0x202F || n == 0x205F
    || n == 0x3000 || n == 0xFEFF
  }

  /** `s.startsWith(prefix)` */
  predicate StartsWith(s: string, prefix: string) {
    |prefix| <= |s| && s[..|prefix|] == prefix
  }

  /** `pat` occurs in `s` at index `k`. */
  predicate OccursAt(s: string, k: nat, pat: string) {
    k + |pat| <= |s| && s[k..k + |pat|] == pat
  }

  /** `s.includes(pat)` */
  predicate Contains(s: string, pat: string) {
    exists k: nat | k <= |s| :: OccursAt(s, k, pat)
  }

  /** A string is truthy in JavaScript unless it is missing (`null`) or empty. */
  predicate Truthy(o: Option<string>) {
    o.Some? && o.value != ""
  }

  lemma ContainsInLeft(a: string, b: string, pat: string)
    requires Contains(a, pat)
    ensures Contains(a + b, pat)
  {
    var k: nat :| k <= |a| && OccursAt(a, k, pat);
    assert (a + b)[k..k + |pat|] == a[k..k + |pat|];
    assert OccursAt(a + b, k, pat);
  }

  lemma ContainsInRight(a: string, b: string, pat: string)
    requires Contains(b, pat)
    ensures Contains(a + b, pat)
  {
    var k: nat :| k <= |b| && OccursAt(b, k, pat);
    assert (a + b)[|a| + k..|a| + k + |pat|] == b[k..k + |pat|];
    assert OccursAt(a + b, |a| + k, pat);
  }

  /** An occurrence inside `s[lo..hi]` is still one inside the longer slice `s[lo..hi']`. */
  lemma ContainsInWiderSlice(s: string, lo: nat, hi: nat, hi': nat, pat: string)
    requires lo <= hi <= hi' <= |s|
    requires Contains(s[lo..hi], pat)
    ensures Contains(s[lo..hi'], pat)
  {
    var k: nat :| k <= hi - lo && OccursAt(s[lo..hi], k, pat);
    assert k + |pat| <= hi - lo;
    var wide, narrow := s[lo..hi'][k..k + |pat|], s[lo..hi][k..k + |pat|];
    forall j | 0 <= j < |pat| ensures wide[j] == narrow[j] {
      assert wide[j] == s[lo + k + j];
    }
    assert wide == narrow;
    assert OccursAt(s[lo..hi'], k, pat);
  }

  lemma SliceOfSlice(s: string, p: nat, e: nat, a: nat, b: nat)
    requires p <= e <= |s| && a <= b <= e - p
    ensures s[p..e][a..b] == s[p + a..p + b]
  {
    var u, v := s[p..e][a..b], s[p + a..p + b];
    forall j | 0 <= j < b - a ensures u[j] == v[j] {
      assert u[j] == s[p + a + j];
    }
  }

  /** Every character of `w` is white space. */
  predicate AllSpace(w: string) {
    forall i :: 0 <= i < |w| ==> IsSpace(w[i])
  }

  /** `s` with its leading white space removed. */
  function TrimStart(s: string): (r: string)
    ensures |r| <= |s| && r == s[|s| - |r|..]
    ensures r == [] || !IsSpace(r[0])
    ensures AllSpace(s[..|s| - |r|])
  {
    if s != [] && IsSpace(s[0]) then
      var r := TrimStart(s[1..]);
      assert s[..|s| - |r|] == [s[0]] + s[1..][..|s| - 1 - |r|];
      r
    else s
  }

  /** `s` with its trailing white space removed. */
  function TrimEnd(s: string): (r: string)
    ensures |r| <= |s| && r == s[..|r|]
    ensures r == [] || !IsSpace(r[|r| - 1])
    ensures AllSpace(s[|r|..])
  {
    if s != [] && IsSpace(s[|s| - 1]) then
      var r := TrimEnd(s[..|s| - 1]);
      assert s[|r|..] == s[..|s| - 1][|r|..] + [s[|s| - 1]];
      r
    else s
  }

  /** `r` is `s[a..a + |r|]` and everything outside it is white space. */
  predicate TrimmedAt(s: string, a: nat, r: string) {
    a + |r| <= |s| && r == s[a..a + |r|]
    && AllSpace(s[..a]) && AllSpace(s[a + |r|..])
  }

  /** Neither the first nor the last character is white space. */
  predicate IsTrimmed(s: string) {
    s == [] || (!IsSpace(s[0]) && !IsSpace(s[|s| - 1]))
  }

  /**
   * `s.trim()`: the longest infix of `s` that neither starts nor ends with
   * white space, obtained by dropping only white space on either side.
   */
  function Trim(s: string): (r: string)
    ensures IsTrimmed(r)
    ensures exists a: nat :: TrimmedAt(s, a, r)
    ensures IsTrimmed(s) ==> r == s
  {
    var u := TrimEnd(s);
    var r := TrimStart(u);
    var a := |u| - |r|;
    assert u[..a] == s[..a];
    assert TrimmedAt(s, a, r);
    r
  }
}
