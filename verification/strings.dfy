/** Character classes and the handful of Python `str` operations the pipeline relies on. */
module Strings {

  /** Python's `str.isspace`, which is also the set `\s` matches in a `str` regular expression. */
  predicate IsSpace(c: char) {
    var n := c as int;
    (9 <= n <= 13) || (28 <= n <= 32) || n == 0x85 || n == 0xA0 || n == 0x1680
    || (0x2000 <= n <= 0x200A) || n == 0x2028 || n == 0x2029 || n == 0x202F
    || n == 0x205F || n == 0x3000
  }

  /** The ASCII digits; `\d` is modelled on ASCII input only. */
  predicate IsDigit(c: char) {
    '0' <= c <= '9'
  }

  predicate AllDigits(s: string) {
    forall i :: 0 <= i < |s| ==> IsDigit(s[i])
  }

  predicate NoSpace(s: string) {
    forall i :: 0 <= i < |s| ==> !IsSpace(s[i])
  }

  // ---------------------------------------------------------------------------
  // Prefixes, suffixes and substrings (Python's `startswith`, `endswith`, `in`)
  // ---------------------------------------------------------------------------

  predicate StartsWith(s: string, p: string) {
    |p| <= |s| && s[..|p|] == p
  }

  predicate EndsWith(s: string, p: string) {
    |p| <= |s| && s[|s| - |p|..] == p
  }

  /** `sub` occurs in `s` starting at index `i`. */
  predicate OccursAt(s: string, sub: string, i: int) {
    0 <= i && i + |sub| <= |s| && s[i..i + |sub|] == sub
  }

  /** Python's `sub in s`, computed by a left-to-right scan. */
  function Contains(s: string, sub: string): (r: bool)
    ensures r <==> exists i :: OccursAt(s, sub, i)
    decreases |s|
  {
    if StartsWith(s, sub) then
      assert OccursAt(s, sub, 0);
      true
    else if |s| == 0 then
      false
    else
      var rest := Contains(s[1..], sub);
      ShiftOccurrence(s, sub);
      rest
  }

  /** Occurrences in `s[1..]` are the occurrences in `s` past index 0, moved one place left. */
  lemma ShiftOccurrence(s: string, sub: string)
    requires |s| > 0 && !StartsWith(s, sub)
    ensures (exists i :: OccursAt(s[1..], sub, i)) <==> (exists i :: OccursAt(s, sub, i))
  {
    forall i | OccursAt(s[1..], sub, i) ensures OccursAt(s, sub, i + 1) {
      assert s[1..][i..i + |sub|] == s[i + 1..i + 1 + |sub|];
    }
    forall i | 0 < i && OccursAt(s, sub, i) ensures OccursAt(s[1..], sub, i - 1) {
      assert s[1..][i - 1..i - 1 + |sub|] == s[i..i + |sub|];
    }
  }

  // ---------------------------------------------------------------------------
  // str.lower()
  // ---------------------------------------------------------------------------

  predicate IsUpper(c: char) {
    'A' <= c <= 'Z'
  }

  function LowerChar(c: char): char {
    if IsUpper(c) then (c as int + 32) as char else c
  }

  /** `str.lower()` on ASCII letters; every other character is left as it is. */
  function Lower(s: string): (r: string)
    ensures |r| == |s|
    ensures forall i :: 0 <= i < |r| ==> !IsUpper(r[i])
    ensures forall i :: 0 <= i < |r| ==> r[i] == s[i] || (IsUpper(s[i]) && r[i] as int == s[i] as int + 32)
  {
    seq(|s|, i requires 0 <= i < |s| => LowerChar(s[i]))
  }

  /** Lower-casing twice is lower-casing once. */
  lemma LowerIdempotent(s: string)
    ensures Lower(Lower(s)) == Lower(s)
  {
    var l := Lower(s);
    assert forall i :: 0 <= i < |l| ==> LowerChar(l[i]) == l[i];
  }

  // ---------------------------------------------------------------------------
  // str.strip()
  // ---------------------------------------------------------------------------

  function TrimStart(s: string): (r: string)
    ensures |r| <= |s| && r == s[|s| - |r|..]
    ensures forall k :: 0 <= k < |s| - |r| ==> IsSpace(s[k])
    ensures r == [] || !IsSpace(r[0])
  {
    if |s| > 0 && IsSpace(s[0]) then TrimStart(s[1..]) else s
  }

  function TrimEnd(s: string): (r: string)
    ensures |r| <= |s| && r == s[..|r|]
    ensures forall k :: |r| <= k < |s| ==> IsSpace(s[k])
    ensures r == [] || !IsSpace(r[|r| - 1])
  {
    if |s| > 0 && IsSpace(s[|s| - 1]) then TrimEnd(s[..|s| - 1]) else s
  }

  /** `r` is `s` with the `i` characters before it and everything after it being whitespace. */
  predicate TrimmedFrom(s: string, r: string, i: int) {
    && 0 <= i && i + |r| <= |s| && s[i..i + |r|] == r
    && (forall k :: 0 <= k < i ==> IsSpace(s[k]))
    && (forall k :: i + |r| <= k < |s| ==> IsSpace(s[k]))
  }

  /** Python's `str.strip()` with no argument. */
  function Strip(s: string): (r: string)
    ensures exists i :: TrimmedFrom(s, r, i)
    ensures r == [] || (!IsSpace(r[0]) && !IsSpace(r[|r| - 1]))
  {
    var a := TrimStart(s);
    var r := TrimEnd(a);
    assert TrimmedFrom(s, r, |s| - |a|);
    r
  }

  /** Stripping is determined by the two properties above: any whitespace-framed slice
      with non-space ends is the stripped string. */
  lemma StripUnique(s: string, r: string, i: int)
    requires TrimmedFrom(s, r, i)
    requires r == [] || (!IsSpace(r[0]) && !IsSpace(r[|r| - 1]))
    ensures Strip(s) == r
  {
    var t := Strip(s);
    var j :| TrimmedFrom(s, t, j);
    TrimmedSame(s, r, i, t, j);
  }

  /** Two whitespace-framed slices of one text with non-space ends coincide. */
  lemma TrimmedSame(s: string, r: string, i: int, t: string, j: int)
    requires TrimmedFrom(s, r, i) && (r == [] || (!IsSpace(r[0]) && !IsSpace(r[|r| - 1])))
    requires TrimmedFrom(s, t, j) && (t == [] || (!IsSpace(t[0]) && !IsSpace(t[|t| - 1])))
    ensures r == t
  {
    if t != [] {
      assert s[j] == t[0];
    }
    if r != [] {
      assert s[i] == r[0];
    }
    if r != [] && t != [] {
      assert i == j;
      assert s[i + |r| - 1] == r[|r| - 1] && s[j + |t| - 1] == t[|t| - 1];
      assert |r| == |t|;
    }
  }

  /** Stripping an already-stripped string changes nothing. */
  lemma StripIdempotent(s: string)
    ensures Strip(Strip(s)) == Strip(s)
  {
    var r := Strip(s);
    assert TrimmedFrom(r, r, 0);
    StripUnique(r, r, 0);
  }

  // ---------------------------------------------------------------------------
  // str.split('\n') and its inverse '\n'.join(...)
  // ---------------------------------------------------------------------------

  /** Python's `s.split('\n')`: always at least one piece, possibly empty ones. */
  function SplitLines(s: string): (r: seq<string>)
    ensures |r| >= 1
    ensures forall k :: 0 <= k < |r| ==> '\n' !in r[k]
  {
    if |s| == 0 then [""]
    else if s[0] == '\n' then [""] + SplitLines(s[1..])
    else
      var rest := SplitLines(s[1..]);
      [[s[0]] + rest[0]] + rest[1..]
  }

  function JoinLines(lines: seq<string>): string
    requires |lines| >= 1
  {
    if |lines| == 1 then lines[0] else lines[0] + "\n" + JoinLines(lines[1..])
  }

  /** Splitting loses nothing: joining the pieces back with '\n' gives the text. */
  lemma {:induction false} JoinSplitLines(s: string)
    ensures JoinLines(SplitLines(s)) == s
  {
    if |s| == 0 {
    } else if s[0] == '\n' {
      JoinSplitLines(s[1..]);
      var rest := SplitLines(s[1..]);
      assert SplitLines(s) == [""] + rest;
      assert ([""] + rest)[1..] == rest;
    } else {
      JoinSplitLines(s[1..]);
      var rest := SplitLines(s[1..]);
      var r := [[s[0]] + rest[0]] + rest[1..];
      assert SplitLines(s) == r;
      if |rest| == 1 {
        assert s == [s[0]] + s[1..];
      } else {
        assert r[1..] == rest[1..];
        assert JoinLines(rest) == rest[0] + "\n" + JoinLines(rest[1..]);
        assert s == [s[0]] + s[1..];
      }
    }
  }

  /** A newline splits the text into the lines before it followed by the lines after it. */
  lemma {:induction false} SplitLinesAppend(a: string, b: string)
    ensures SplitLines(a + "\n" + b) == SplitLines(a) + SplitLines(b)
  {
    var s := a + "\n" + b;
    if |a| == 0 {
      assert s == "\n" + b;
      assert s[1..] == b;
    } else {
      SplitLinesAppend(a[1..], b);
      assert s[1..] == a[1..] + "\n" + b;
      SplitLinesFirst(s, a, SplitLines(b));
    }
  }

  /** One step of SplitLinesAppend: the first character of `s` and of `a` agree, and the
      pieces of their tails differ only by the trailing pieces `tail`. */
  lemma SplitLinesFirst(s: string, a: string, tail: seq<string>)
    requires |a| > 0 && |s| > 0 && s[0] == a[0]
    requires SplitLines(s[1..]) == SplitLines(a[1..]) + tail
    ensures SplitLines(s) == SplitLines(a) + tail
  {
    SplitLinesStep(s);
    SplitLinesStep(a);
    PrependAppend(a[0], SplitLines(a[1..]), tail);
  }

  /** How one more leading character changes the pieces: a newline opens an empty first
      piece, any other character joins the first piece. */
  function Prepend(c: char, rest: seq<string>): seq<string>
    requires |rest| > 0
  {
    if c == '\n' then [""] + rest else [[c] + rest[0]] + rest[1..]
  }

  lemma SplitLinesStep(s: string)
    requires |s| > 0
    ensures SplitLines(s) == Prepend(s[0], SplitLines(s[1..]))
  {
  }

  /** Prepending a character commutes with appending trailing pieces. */
  lemma PrependAppend(c: char, r: seq<string>, tail: seq<string>)
    requires |r| > 0
    ensures Prepend(c, r + tail) == Prepend(c, r) + tail
  {
    assert (r + tail)[0] == r[0];
    assert (r + tail)[1..] == r[1..] + tail;
  }
}
