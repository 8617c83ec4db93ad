/** The feed poller's parsing step: the id of the newest video in a channel's
    Atom feed, found with `/<yt:videoId>([^<]+)<\/yt:videoId>/`. */
module Feed {
  import opened Wrappers

  const OpenTag: string := "<yt:videoId>"
  const CloseTag: string := "</yt:videoId>"

  /** The end of the longest run of characters other than `<` that starts at
      `j`: how far the greedy `[^<]+` reaches. */
  function RunEnd(s: string, j: nat): (k: nat)
    requires j <= |s|
    ensures j <= k <= |s|
    ensures '<' !in s[j..k]
    ensures k == |s| || s[k] == '<'
    decreases |s| - j
  {
    if j == |s| || s[j] == '<' then j
    else
      var k := RunEnd(s, j + 1);
      assert s[j..k] == [s[j]] + s[j + 1..k];
      k
  }

  /** The regular expression tried at position `p` only. Because `[^<]+`
      cannot cross a `<` and the closing tag starts with one, the greedy run
      is the only candidate for the capture: backtracking never helps. */
  function MatchAt(s: string, p: nat): Option<string>
    requires p <= |s|
  {
    var b := p + |OpenTag|;
    if b <= |s| && s[p..b] == OpenTag then
      var k := RunEnd(s, b);
      if k > b && k + |CloseTag| <= |s| && s[k..k + |CloseTag|] == CloseTag then Some(s[b..k])
      else None
    else None
  }

  /** The leftmost match at or after `p`, as `String.prototype.match` scans. */
  function SearchFrom(s: string, p: nat): Option<string>
    requires p <= |s|
    decreases |s| - p
  {
    match MatchAt(s, p)
    case Some(id) => Some(id)
    case None => if p == |s| then None else SearchFrom(s, p + 1)
  }

  /** `xmlData.match(...)` followed by `[1]`, or `false` (None) without a match. */
  function ExtractVideoId(xml: string): (r: Option<string>)
    ensures r.Some? ==> |r.value| > 0 && '<' !in r.value
  {
    var r := SearchFrom(xml, 0);
    SearchFromSound(xml, 0);
    r
  }

  /** `getRSS`: `reply` is the feed body, or None when the request threw. */
  function GetRss(reply: Option<string>): (r: Option<string>)
    ensures reply.None? ==> r.None?
    ensures r.Some? ==> |r.value| > 0 && '<' !in r.value
  {
    match reply
    case None => None
    case Some(xml) => ExtractVideoId(xml)
  }

  /** Reference semantics of the pattern: it matches `s` at `p`, capturing `id`. */
  ghost predicate IsMatch(s: string, p: int, id: string)
  {
    && 0 <= p
    && p + |OpenTag| + |id| + |CloseTag| <= |s|
    && s[p..p + |OpenTag|] == OpenTag
    && |id| > 0 && '<' !in id
    && s[p + |OpenTag|..p + |OpenTag| + |id|] == id
    && s[p + |OpenTag| + |id|..p + |OpenTag| + |id| + |CloseTag|] == CloseTag
  }

  /** No match starts anywhere in `[lo, hi)`. */
  ghost predicate NoMatchIn(s: string, lo: int, hi: int)
  {
    forall q, id :: lo <= q < hi ==> !IsMatch(s, q, id)
  }

  lemma {:induction false} RunEndAt(s: string, j: nat, k: nat)
    requires j <= k <= |s|
    requires '<' !in s[j..k]
    requires k == |s| || s[k] == '<'
    ensures RunEnd(s, j) == k
    decreases |s| - j
  {
    if j < k {
      assert s[j] == s[j..k][0];
      assert s[j + 1..k] == s[j..k][1..];
      RunEndAt(s, j + 1, k);
    }
  }

  /** The anchored matcher agrees with the reference semantics. */
  lemma MatchAtIff(s: string, p: nat, id: string)
    requires p <= |s|
    ensures MatchAt(s, p) == Some(id) <==> IsMatch(s, p, id)
  {
    var b := p + |OpenTag|;
    if IsMatch(s, p, id) {
      var k := b + |id|;
      assert s[k] == CloseTag[0];
      RunEndAt(s, b, k);
    }
  }

  lemma {:induction false} SearchFromSound(s: string, p: nat)
    requires p <= |s|
    ensures SearchFrom(s, p).Some? ==>
              exists q :: p <= q && IsMatch(s, q, SearchFrom(s, p).value) && NoMatchIn(s, p, q)
    ensures SearchFrom(s, p).None? ==> NoMatchIn(s, p, |s| + 1)
    decreases |s| - p
  {
    match MatchAt(s, p)
    case Some(id) =>
      MatchAtIff(s, p, id);
      assert IsMatch(s, p, id) && NoMatchIn(s, p, p);
    case None =>
      forall id ensures !IsMatch(s, p, id) { MatchAtIff(s, p, id); }
      if p < |s| {
        SearchFromSound(s, p + 1);
        if SearchFrom(s, p + 1).Some? {
          var q :| p + 1 <= q && IsMatch(s, q, SearchFrom(s, p + 1).value) && NoMatchIn(s, p + 1, q);
          assert IsMatch(s, q, SearchFrom(s, p).value) && NoMatchIn(s, p, q);
        }
      }
  }

  /** Whatever the pattern matches first is what is extracted, and conversely:
      the result is the capture of the leftmost match. */
  lemma ExtractLeftmost(xml: string, id: string)
    ensures ExtractVideoId(xml) == Some(id) <==>
              exists p :: IsMatch(xml, p, id) && NoMatchIn(xml, 0, p)
  {
    SearchFromSound(xml, 0);
    if p :| IsMatch(xml, p, id) && NoMatchIn(xml, 0, p) {
      var r := ExtractVideoId(xml);
      assert p <= |xml|;
      assert r.Some?;
      var q :| 0 <= q && IsMatch(xml, q, r.value) && NoMatchIn(xml, 0, q);
      assert q == p;
      MatchAtIff(xml, p, id);
      MatchAtIff(xml, p, r.value);
    }
  }

  /** `getRSS` answers `false` exactly when the pattern matches nowhere. */
  lemma ExtractNone(xml: string)
    ensures ExtractVideoId(xml).None? <==> NoMatchIn(xml, 0, |xml| + 1)
  {
    SearchFromSound(xml, 0);
    var r := ExtractVideoId(xml);
    if r.Some? {
      var q :| 0 <= q && IsMatch(xml, q, r.value) && NoMatchIn(xml, 0, q);
      assert q <= |xml|;
    }
  }

  /** Round trip: a feed whose first entry is `<yt:videoId>id</yt:videoId>`
      yields `id`, whatever follows it. */
  lemma ExtractFirstEntry(id: string, rest: string)
    requires |id| > 0 && '<' !in id
    ensures ExtractVideoId(OpenTag + id + CloseTag + rest) == Some(id)
  {
    var s := OpenTag + id + CloseTag + rest;
    assert s[..|OpenTag|] == OpenTag;
    assert s[|OpenTag|..|OpenTag| + |id|] == id;
    assert s[|OpenTag| + |id|..|OpenTag| + |id| + |CloseTag|] == CloseTag;
    assert IsMatch(s, 0, id) && NoMatchIn(s, 0, 0);
    ExtractLeftmost(s, id);
  }
}
