/**
 * Conversation identifiers. The click handler recovers an entry's GUID from
 * its link with `href.match(/\/c\/([a-f0-9\-]+)/)`, and the relocation
 * functions look the entry up again by the exact link `/c/<guid>`. This
 * module models the match (leftmost, greedy) and proves it inverts that link
 * format.
 */
module Guids {
  import opened Wrappers

  /** The character class `[a-f0-9\-]`. */
  predicate IsGuidChar(c: char) {
    ('a' <= c <= 'f') || ('0' <= c <= '9') || c == '-'
  }

  /** A possible capture of the group `([a-f0-9\-]+)`: non-empty, GUID characters only. */
  predicate IsGuid(g: string) {
    |g| > 0 && forall k :: 0 <= k < |g| ==> IsGuidChar(g[k])
  }

  /** The path prefix every conversation link starts with. */
  const Prefix: string := "/c/"

  /** The link the relocation functions search for. */
  function LinkOf(g: string): string {
    Prefix + g
  }

  /** The pattern can start a match at position i: "/c/" followed by at least one GUID character. */
  predicate MatchesAt(href: string, i: int) {
    && 0 <= i && i + 3 < |href|
    && href[i] == '/' && href[i + 1] == 'c' && href[i + 2] == '/'
    && IsGuidChar(href[i + 3])
  }

  /** k is the leftmost position at or after i where a match starts. */
  predicate FirstMatch(href: string, i: int, k: int) {
    i <= k && MatchesAt(href, k) && forall j :: i <= j < k ==> !MatchesAt(href, j)
  }

  /** g is what the greedy group captures for a match starting at k: the longest GUID run after "/c/". */
  predicate GreedyCapture(href: string, k: int, g: string) {
    && 0 <= k
    && k + 3 + |g| <= |href|
    && href[k + 3..k + 3 + |g|] == g
    && IsGuid(g)
    && (k + 3 + |g| == |href| || !IsGuidChar(href[k + 3 + |g|]))
  }

  /** Length of the longest run of GUID characters in s that starts at j. */
  function RunLength(s: string, j: nat): (n: nat)
    requires j <= |s|
    ensures j + n <= |s|
    ensures forall k :: j <= k < j + n ==> IsGuidChar(s[k])
    ensures j + n == |s| || !IsGuidChar(s[j + n])
    decreases |s| - j
  {
    if j == |s| || !IsGuidChar(s[j]) then 0 else 1 + RunLength(s, j + 1)
  }

  /** The greedy capture of a match at k: the longest run of GUID characters after the prefix. */
  function CaptureAt(href: string, k: int): (g: string)
    requires MatchesAt(href, k)
    ensures GreedyCapture(href, k, g)
  {
    var n := RunLength(href, k + 3);
    var g := href[k + 3..k + 3 + n];
    assert forall j :: 0 <= j < |g| ==> g[j] == href[k + 3 + j];
    g
  }

  /** The capture group of the leftmost match that starts at or after position i. */
  function ExtractFrom(href: string, i: nat): (r: Option<string>)
    requires i <= |href|
    ensures r.Some? <==> exists k :: i <= k < |href| && MatchesAt(href, k)
    ensures r.Some? ==> exists k :: FirstMatch(href, i, k) && GreedyCapture(href, k, r.value)
    decreases |href| - i
  {
    if i + 3 >= |href| then
      assert forall k :: i <= k < |href| ==> !MatchesAt(href, k);
      None
    else if MatchesAt(href, i) then
      var g := CaptureAt(href, i);
      assert FirstMatch(href, i, i);
      Some(g)
    else
      var r := ExtractFrom(href, i + 1);
      if r.Some? then
        var k :| FirstMatch(href, i + 1, k) && GreedyCapture(href, k, r.value);
        assert FirstMatch(href, i, k);
        r
      else r
  }

  /** `href.match(/\/c\/([a-f0-9\-]+)/)`, returning the first capture group or None for no match. */
  function ExtractGuid(href: string): (r: Option<string>)
    ensures r.Some? <==> exists k :: 0 <= k < |href| && MatchesAt(href, k)
    ensures r.Some? ==> IsGuid(r.value)
    ensures r.Some? ==> exists k :: FirstMatch(href, 0, k) && GreedyCapture(href, k, r.value)
  {
    ExtractFrom(href, 0)
  }

  /** A match has exactly one greedy capture. */
  lemma GreedyCaptureUnique(href: string, k: int, g: string, h: string)
    requires GreedyCapture(href, k, g) && GreedyCapture(href, k, h)
    ensures g == h
  {
    var m := if |g| < |h| then |g| else |h|;
    assert forall j :: 0 <= j < m ==> g[j] == href[k + 3 + j] == h[j];
    assert |g| == |h|;
  }

  /** Extraction inverts the link format the relocation functions search for. */
  lemma ExtractGuidRoundTrip(g: string)
    requires IsGuid(g)
    ensures ExtractGuid(LinkOf(g)) == Some(g)
  {
    var href := LinkOf(g);
    assert href[3] == g[0];
    assert MatchesAt(href, 0);
    var r := ExtractGuid(href);
    var k :| FirstMatch(href, 0, k) && GreedyCapture(href, k, r.value);
    assert k == 0;
    assert href[3..] == g;
    assert forall j :: 3 <= j < |href| ==> href[j] == g[j - 3];
    assert GreedyCapture(href, 0, g);
    GreedyCaptureUnique(href, 0, r.value, g);
  }
}
