/** `extract_urls`: `re.findall(r'https?://[^\s]+', text)` written out as a scanner. */
module Urls {
  import opened Wrappers
  import opened Strings

  const Http := "http://"
  const Https := "https://"

  /** The length of the scheme `https?://` starting at index `i`, or 0 when none starts there.
      The two schemes exclude each other (index 4 is ':' in one and 's' in the other). */
  function SchemeAt(t: string, i: nat): (n: nat)
    ensures n == 0 || n == 7 || n == 8
    ensures n == 7 <==> OccursAt(t, Http, i)
    ensures n == 8 <==> OccursAt(t, Https, i)
  {
    assert OccursAt(t, Http, i) ==> t[i + 4] == Http[4] == ':';
    assert OccursAt(t, Https, i) ==> t[i + 4] == Https[4] == 's';
    if OccursAt(t, Http, i) then 7 else if OccursAt(t, Https, i) then 8 else 0
  }

  /** The first whitespace position at or after `j`, or the end of the text. */
  function RunEnd(t: string, j: nat): (e: nat)
    requires j <= |t|
    ensures j <= e <= |t|
    ensures forall k :: j <= k < e ==> !IsSpace(t[k])
    ensures e == |t| || IsSpace(t[e])
    decreases |t| - j
  {
    if j == |t| || IsSpace(t[j]) then j else RunEnd(t, j + 1)
  }

  /** Where the greedy match of the pattern attempted at index `i` ends, if it succeeds:
      a scheme, then the longest run of non-whitespace, which may not be empty. */
  function MatchAt(t: string, i: nat): (r: Option<nat>)
    ensures r.Some? ==> i + SchemeAt(t, i) < r.value <= |t| && SchemeAt(t, i) > 0
    ensures r.Some? ==> r.value == |t| || IsSpace(t[r.value])
    ensures r.Some? ==> forall k :: i + SchemeAt(t, i) <= k < r.value ==> !IsSpace(t[k])
    ensures r.None? <==> SchemeAt(t, i) == 0 || i + SchemeAt(t, i) == |t| || IsSpace(t[i + SchemeAt(t, i)])
  {
    var n := SchemeAt(t, i);
    if n == 0 then None
    else
      var e := RunEnd(t, i + n);
      if e > i + n then Some(e) else None
  }

  /** A stretch `[start, end)` of the text that one match covers. */
  datatype Span = Span(start: nat, end: nat)

  /** Every span is the match attempted at its own start, at or after `i`. */
  ghost predicate AllMatches(t: string, i: nat, spans: seq<Span>) {
    forall k :: 0 <= k < |spans| ==> i <= spans[k].start && MatchAt(t, spans[k].start) == Some(spans[k].end)
  }

  /** Spans come left to right without overlapping. */
  ghost predicate InOrder(spans: seq<Span>) {
    forall k :: 0 <= k < |spans| - 1 ==> spans[k].end <= spans[k + 1].start
  }

  /** Position `p` lies inside one of the spans. */
  ghost predicate Covered(spans: seq<Span>, p: nat) {
    exists k :: 0 <= k < |spans| && spans[k].start <= p < spans[k].end
  }

  /** Every position from `i` on where a match could start lies inside some span. */
  ghost predicate NoneSkipped(t: string, i: nat, spans: seq<Span>) {
    forall p :: i <= p < |t| && MatchAt(t, p).Some? ==> Covered(spans, p)
  }

  /** The spans `re.findall` reports when it scans `t` from index `i`. */
  ghost predicate IsFindAll(t: string, i: nat, spans: seq<Span>) {
    AllMatches(t, i, spans) && InOrder(spans) && NoneSkipped(t, i, spans)
  }

  /** Scan from `i`: try a match; on success resume at its end, else one character on. */
  function Scan(t: string, i: nat): (r: seq<Span>)
    ensures forall k :: 0 <= k < |r| ==> i <= r[k].start < r[k].end <= |t|
    decreases |t| - i
  {
    if i >= |t| then []
    else match MatchAt(t, i)
      case Some(e) => [Span(i, e)] + Scan(t, e)
      case None => Scan(t, i + 1)
  }

  lemma {:induction false} ScanMatches(t: string, i: nat)
    ensures AllMatches(t, i, Scan(t, i))
    decreases |t| - i
  {
    if i < |t| {
      match MatchAt(t, i)
      case Some(e) => ScanMatches(t, e);
      case None => ScanMatches(t, i + 1);
    }
  }

  lemma {:induction false} ScanInOrder(t: string, i: nat)
    ensures InOrder(Scan(t, i))
    decreases |t| - i
  {
    if i < |t| {
      match MatchAt(t, i)
      case Some(e) => ScanInOrder(t, e);
      case None => ScanInOrder(t, i + 1);
    }
  }

  lemma {:induction false} ScanNoneSkipped(t: string, i: nat)
    ensures NoneSkipped(t, i, Scan(t, i))
    decreases |t| - i
  {
    if i < |t| {
      var m := MatchAt(t, i);
      if m.Some? {
        var e := m.value;
        ScanNoneSkipped(t, e);
        assert Scan(t, i) == [Span(i, e)] + Scan(t, e);
        SkippedNoneAfterMatch(t, i, e, Scan(t, e));
      } else {
        ScanNoneSkipped(t, i + 1);
        forall p | i <= p < |t| && MatchAt(t, p).Some? ensures Covered(Scan(t, i), p) {
          assert p != i;
        }
      }
    }
  }

  /** A match over `[i, e)` followed by spans that skip nothing from `e` on skips nothing
      from `i` on. */
  lemma SkippedNoneAfterMatch(t: string, i: nat, e: nat, rest: seq<Span>)
    requires i < e && NoneSkipped(t, e, rest)
    ensures NoneSkipped(t, i, [Span(i, e)] + rest)
  {
    var spans := [Span(i, e)] + rest;
    CoveredCons(Span(i, e), rest);
    forall p | i <= p < |t| && MatchAt(t, p).Some? ensures Covered(spans, p) {
      if p >= e {
        assert Covered(rest, p);
      }
    }
  }

  /** A span put in front covers its own positions and keeps what the others cover. */
  lemma CoveredCons(sp: Span, rest: seq<Span>)
    ensures forall p: nat :: sp.start <= p < sp.end ==> Covered([sp] + rest, p)
    ensures forall p: nat :: Covered(rest, p) ==> Covered([sp] + rest, p)
  {
    var spans := [sp] + rest;
    forall p: nat | sp.start <= p < sp.end ensures Covered(spans, p) {
      assert spans[0] == sp;
    }
    forall p: nat | Covered(rest, p) ensures Covered(spans, p) {
      var k :| 0 <= k < |rest| && rest[k].start <= p < rest[k].end;
      assert spans[k + 1] == rest[k];
    }
  }

  /** The scanner is exactly `findall`'s leftmost, non-overlapping iteration. */
  lemma ScanIsFindAll(t: string, i: nat)
    ensures IsFindAll(t, i, Scan(t, i))
  {
    ScanMatches(t, i);
    ScanInOrder(t, i);
    ScanNoneSkipped(t, i);
  }

  /** The matches of `https?://[^\s]+` in `t`, as spans. */
  function UrlSpans(t: string): seq<Span> {
    Scan(t, 0)
  }

  /** What every returned string looks like: a scheme, at least one more character, and no
      whitespace anywhere. */
  predicate IsUrl(u: string) {
    && ((StartsWith(u, Http) && |u| > |Http|) || (StartsWith(u, Https) && |u| > |Https|))
    && NoSpace(u)
  }

  /** `extract_urls(text)` of app/utils.py, and of app/utils/data_tools.py, which is the same. */
  function ExtractUrls(t: string): (r: seq<string>)
    ensures |r| == |UrlSpans(t)|
    ensures forall k :: 0 <= k < |r| ==> IsUrl(r[k])
    ensures forall k :: 0 <= k < |r| ==>
      && UrlSpans(t)[k].end <= |t|
      && r[k] == t[UrlSpans(t)[k].start..UrlSpans(t)[k].end]
      && (UrlSpans(t)[k].end == |t| || IsSpace(t[UrlSpans(t)[k].end]))
  {
    var spans := UrlSpans(t);
    ScanMatches(t, 0);
    MatchedTextsAreUrls(t, spans);
    seq(|spans|, k requires 0 <= k < |spans| => t[spans[k].start..spans[k].end])
  }

  lemma MatchedTextsAreUrls(t: string, spans: seq<Span>)
    requires AllMatches(t, 0, spans)
    ensures forall k :: 0 <= k < |spans| ==> spans[k].end <= |t|
    ensures forall k :: 0 <= k < |spans| ==> spans[k].end == |t| || IsSpace(t[spans[k].end])
    ensures forall k :: 0 <= k < |spans| ==> IsUrl(t[spans[k].start..spans[k].end])
  {
    forall k | 0 <= k < |spans| ensures IsUrl(t[spans[k].start..spans[k].end]) {
      UrlShape(t, spans[k].start, spans[k].end);
    }
  }

  /** The text of a successful match has the shape `IsUrl` describes. */
  lemma UrlShape(t: string, i: nat, e: nat)
    requires MatchAt(t, i) == Some(e)
    ensures IsUrl(t[i..e])
  {
    var u := t[i..e];
    var n := SchemeAt(t, i);
    assert u[..n] == t[i..i + n];
    forall k | 0 <= k < |u| ensures !IsSpace(u[k]) {
      assert u[k] == t[i + k];
      if k < n {
        assert t[i + k] == (if n == 7 then Http else Https)[k];
      }
    }
  }

  /** A text without the substring "http" holds no URL. */
  lemma UrlNeedsHttp(t: string)
    ensures |ExtractUrls(t)| > 0 ==> Contains(t, "http")
  {
    var spans := UrlSpans(t);
    if |spans| > 0 {
      var i := spans[0].start;
      ScanMatches(t, 0);
      assert MatchAt(t, i).Some?;
      assert t[i..i + 4] == "http" by {
        if SchemeAt(t, i) == 7 {
          assert t[i..i + 4] == t[i..i + 7][..4];
        } else {
          assert t[i..i + 4] == t[i..i + 8][..4];
        }
      }
      assert OccursAt(t, "http", i);
    }
  }
}
