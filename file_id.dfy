/** `extract_file_id`: the file identifier is the digit run captured by
    `re.search(r'/files/(\d+)', arg)`, or, when that pattern does not occur,
    the argument with surrounding whitespace stripped. */
module FileId {
  import opened Wrappers
  import opened Ascii

  /** The literal part of the pattern `/files/(\d+)`. */
  const MARKER: string := "/files/"

  /** The pattern matches at position `i`: the marker, then at least one digit. */
  predicate MatchesAt(s: string, i: nat)
  {
    i + |MARKER| < |s| && s[i..i + |MARKER|] == MARKER && IsDigit(s[i + |MARKER|])
  }

  ghost predicate NoMatch(s: string)
  {
    forall i: nat :: !MatchesAt(s, i)
  }

  /** The scan `re.search` performs: the leftmost match position at or after `from`. */
  function FindMatch(s: string, from: nat): (r: Option<nat>)
    decreases |s| - from
    ensures r.Some? ==> from <= r.value && MatchesAt(s, r.value)
    ensures r.Some? ==> forall j: nat :: from <= j < r.value ==> !MatchesAt(s, j)
    ensures r.None? ==> forall j: nat :: from <= j ==> !MatchesAt(s, j)
  {
    if |s| <= from + |MARKER| then None
    else if MatchesAt(s, from) then Some(from)
    else FindMatch(s, from + 1)
  }

  /** Where the greedy `\d+` starting at `j` stops. */
  function DigitRunEnd(s: string, j: nat): (k: nat)
    requires j <= |s|
    decreases |s| - j
    ensures j <= k <= |s|
    ensures forall m :: j <= m < k ==> IsDigit(s[m])
    ensures k == |s| || !IsDigit(s[k])
  {
    if j < |s| && IsDigit(s[j]) then DigitRunEnd(s, j + 1) else j
  }

  /** `m.group(1)` for `m = re.search(r'/files/(\d+)', s)`, `None` when `m` is `None`. */
  function Search(s: string): (g: Option<string>)
    ensures g.Some? ==> 0 < |g.value| < |s| && AllDigits(g.value)
  {
    match FindMatch(s, 0)
    case None => None
    case Some(i) => Some(s[i + |MARKER| .. DigitRunEnd(s, i + |MARKER|)])
  }

  /** Number of leading whitespace characters. */
  function StripStart(s: string): (a: nat)
    ensures a <= |s|
    ensures forall m :: 0 <= m < a ==> IsSpace(s[m])
    ensures a == |s| || !IsSpace(s[a])
  {
    if |s| > 0 && IsSpace(s[0]) then 1 + StripStart(s[1..]) else 0
  }

  /** Index just past the last non-whitespace character (0 when there is none). */
  function StripStop(s: string): (b: nat)
    ensures b <= |s|
    ensures forall m :: b <= m < |s| ==> IsSpace(s[m])
    ensures b == 0 || !IsSpace(s[b - 1])
  {
    if |s| > 0 && IsSpace(s[|s| - 1]) then StripStop(s[..|s| - 1]) else |s|
  }

  /** `s[a..b]` is what `str.strip()` leaves: only whitespace is cut off on
      either side, and the remainder is empty or begins and ends with a
      character that is not whitespace. */
  ghost predicate StripsTo(s: string, a: nat, b: nat)
  {
    && a <= b <= |s|
    && (forall m :: 0 <= m < a ==> IsSpace(s[m]))
    && (forall m :: b <= m < |s| ==> IsSpace(s[m]))
    && (a < b ==> !IsSpace(s[a]) && !IsSpace(s[b - 1]))
  }

  /** `str.strip()` with no argument. */
  function Strip(s: string): (r: string)
    ensures StripsTo(s, StripStart(s), StripStart(s) + |r|)
    ensures r == s[StripStart(s)..StripStart(s) + |r|]
  {
    var a := StripStart(s);
    var b := StripStop(s);
    if b <= a then [] else s[a..b]
  }

  /** `extract_file_id`: never longer than its argument, and a non-empty run
      of digits whenever the pattern is found. */
  function ExtractFileId(arg: string): (r: string)
    ensures |r| <= |arg|
    ensures Search(arg).Some? ==> 0 < |r| && AllDigits(r)
  {
    match Search(arg)
    case Some(g) => g
    case None => Strip(arg)
  }

  /** Any two cuts that `str.strip()` could make leave the same string, so
      `StripsTo` characterises `Strip`. */
  lemma StripUnique(s: string, a: nat, b: nat, a': nat, b': nat)
    requires StripsTo(s, a, b) && StripsTo(s, a', b')
    ensures s[a..b] == s[a'..b']
  {
    if a < b {
      assert !IsSpace(s[a]) && !IsSpace(s[b - 1]);
      assert a == a' && b == b';
    } else {
      // s is whitespace throughout, so the other cut is empty too
      assert forall m :: 0 <= m < |s| ==> IsSpace(s[m]);
      assert a' == b';
    }
  }

  /** `Strip` removes whitespace and nothing else: every cut of the argument
      that `StripsTo` describes is what `Strip` returns. */
  lemma StripCharacterised(s: string, a: nat, b: nat)
    requires StripsTo(s, a, b)
    ensures Strip(s) == s[a..b]
  {
    StripUnique(s, a, b, StripStart(s), StripStart(s) + |Strip(s)|);
  }

  /** A match inside a slice is a match in the whole string. */
  lemma MatchInSlice(s: string, a: nat, b: nat, i: nat)
    requires a <= b <= |s| && MatchesAt(s[a..b], i)
    ensures MatchesAt(s, a + i)
  {
    var x, y := s[a..b][i..i + |MARKER|], s[a + i..a + i + |MARKER|];
    assert forall m :: 0 <= m < |x| ==> x[m] == y[m];
  }

  /** A string of digits holds no `/files/` marker. */
  lemma DigitsHaveNoMatch(s: string)
    requires AllDigits(s)
    ensures NoMatch(s)
  {
    forall i: nat ensures !MatchesAt(s, i) {
      if i + |MARKER| < |s| {
        assert s[i..i + |MARKER|][0] == s[i];
      }
    }
  }

  /** Match case: the result is the maximal digit run right after the
      leftmost `/files/` that is followed by a digit; an earlier `/files/`
      without a digit after it is skipped. The run is non-empty, all digits,
      and taken verbatim, so leading zeros are kept. */
  lemma ExtractMatched(s: string, i: nat)
    requires MatchesAt(s, i)
    requires forall j: nat :: j < i ==> !MatchesAt(s, j)
    ensures var r := ExtractFileId(s); var k := i + |MARKER| + |r|;
      && 0 < |r| && k <= |s| && r == s[i + |MARKER|..k]
      && AllDigits(r) && (k == |s| || !IsDigit(s[k]))
  {
    var m := FindMatch(s, 0);
    assert m.Some? by {
      assert m.None? ==> !MatchesAt(s, i);
    }
    assert i <= m.value;
    assert m.value <= i;
    var k := DigitRunEnd(s, i + |MARKER|);
    assert ExtractFileId(s) == s[i + |MARKER|..k];
    assert s[i + |MARKER|..k][0] == s[i + |MARKER|];
  }

  /** No-match case: the argument comes back stripped of surrounding
      whitespace, its interior untouched; nothing fails. */
  lemma ExtractUnmatched(s: string)
    requires NoMatch(s)
    ensures ExtractFileId(s) == Strip(s)
  {
    assert FindMatch(s, 0).None?;
  }

  /** A match exists exactly when `re.search` finds one. */
  lemma SearchFindsIff(s: string)
    ensures Search(s).Some? <==> !NoMatch(s)
  {
  }

  /** The result is always a contiguous piece of the argument. */
  lemma ExtractIsSubstring(s: string)
    ensures exists a: nat, b: nat :: a <= b <= |s| && ExtractFileId(s) == s[a..b]
  {
    match FindMatch(s, 0)
    case None =>
      var a := StripStart(s);
      assert ExtractFileId(s) == s[a..a + |Strip(s)|];
    case Some(i) =>
      var a := i + |MARKER|;
      var b := DigitRunEnd(s, a);
      assert ExtractFileId(s) == s[a..b];
  }

  /** A string that neither starts nor ends with whitespace is its own strip. */
  lemma StripFixed(r: string)
    requires r == [] || (!IsSpace(r[0]) && !IsSpace(r[|r| - 1]))
    ensures Strip(r) == r
  {
    StripUnique(r, 0, |r|, StripStart(r), StripStart(r) + |Strip(r)|);
  }

  /** Stripping twice is stripping once. */
  lemma StripIdempotent(s: string)
    ensures Strip(Strip(s)) == Strip(s)
  {
    var r := Strip(s);
    var a := StripStart(s);
    if r != [] {
      assert r[0] == s[a] && r[|r| - 1] == s[a + |r| - 1];
    }
    StripFixed(r);
  }

  /** `extract_file_id` is idempotent: fed its own output it returns it unchanged. */
  lemma {:induction false} ExtractIdempotent(s: string)
    ensures ExtractFileId(ExtractFileId(s)) == ExtractFileId(s)
  {
    var r := ExtractFileId(s);
    match FindMatch(s, 0)
    case Some(i) =>
      var a := i + |MARKER|;
      var b := DigitRunEnd(s, a);
      assert r == s[a..b];
      DigitsHaveNoMatch(r);
      ExtractUnmatched(r);
      StripFixed(r);
    case None =>
      var a := StripStart(s);
      assert r == s[a..a + |r|];
      forall j: nat ensures !MatchesAt(r, j) {
        if MatchesAt(r, j) {
          MatchInSlice(s, a, a + |r|, j);
        }
      }
      ExtractUnmatched(r);
      StripIdempotent(s);
  }

  /** Text without a match of its own, followed by `/files/`, has no match
      that starts before the marker: the character after such a match would
      fall inside the marker, which holds no digit. */
  lemma NoMatchBeforeMarker(p: string, rest: string)
    requires NoMatch(p)
    ensures forall j: nat :: j < |p| ==> !MatchesAt(p + MARKER + rest, j)
  {
    var s := p + MARKER + rest;
    assert forall m :: 0 <= m < |p| ==> s[m] == p[m];
    forall j: nat | j < |p| ensures !MatchesAt(s, j) {
      if j + |MARKER| < |p| {
        var x, y := s[j..j + |MARKER|], p[j..j + |MARKER|];
        assert forall m :: 0 <= m < |x| ==> x[m] == y[m];
        assert s[j + |MARKER|] == p[j + |MARKER|];
        assert !MatchesAt(p, j);
      } else {
        assert s[j + |MARKER|] == MARKER[j + |MARKER| - |p|];
      }
    }
  }

  /** A `/files/<digits>` occurrence preceded by text that holds no match of
      its own yields exactly those digits, whatever follows them (provided it
      does not start with another digit). */
  lemma ExtractAfterPrefix(p: string, d: string, q: string)
    requires NoMatch(p)
    requires 0 < |d| && AllDigits(d)
    requires q == [] || !IsDigit(q[0])
    ensures ExtractFileId(p + MARKER + d + q) == d
  {
    var s := p + MARKER + d + q;
    var i := |p|;
    var k := i + |MARKER| + |d|;
    assert s[i..i + |MARKER|] == MARKER;
    assert s[i + |MARKER|] == d[0];
    NoMatchBeforeMarker(p, d + q);
    assert s == p + MARKER + (d + q);
    assert forall m :: i + |MARKER| <= m < k ==> s[m] == d[m - (i + |MARKER|)];
    if q != [] {
      assert s[k] == q[0];
    }
    assert MatchesAt(s, i);
    assert FindMatch(s, 0) == Some(i);
    assert DigitRunEnd(s, i + |MARKER|) == k;
    assert s[i + |MARKER|..k] == d;
  }

  /** A bare identifier with whitespace around it resolves to the identifier. */
  lemma ExtractPaddedDigits(w: string, d: string, w': string)
    requires AllSpace(w) && AllSpace(w')
    requires 0 < |d| && AllDigits(d)
    ensures ExtractFileId(w + d + w') == d
  {
    var s := w + d + w';
    assert forall m :: 0 <= m < |s| ==> IsSpace(s[m]) || IsDigit(s[m]);
    forall i: nat ensures !MatchesAt(s, i) {
      if i + |MARKER| < |s| {
        assert s[i..i + |MARKER|][1] == s[i + 1];
      }
    }
    ExtractUnmatched(s);
    assert s[|w|] == d[0] && s[|w| + |d| - 1] == d[|d| - 1];
    StripCharacterised(s, |w|, |w| + |d|);
    assert s[|w|..|w| + |d|] == d;
  }
}
