/**
 * Python's notion of whitespace (str.isspace, the `\s` class of a str
 * regular expression) and str.strip() with no argument, stated over
 * index ranges of a string.
 */
module Text {
  /**
   * Py_UNICODE_ISSPACE: the characters both `\s` and str.strip() treat as
   * whitespace, by code point: U+0009..U+000D, U+001C..U+0020, U+0085,
   * U+00A0, U+1680, U+2000..U+200A, U+2028, U+2029, U+202F, U+205F, U+3000.
   */
  predicate IsSpace(c: char) {
    if c <= ' ' then
      c == ' ' || ('\t' <= c <= '\r') || '\U{1C}' <= c
    else
      c == '\U{85}' || c == '\U{A0}' || c == '\U{1680}' || ('\U{2000}' <= c <= '\U{200A}') ||
      c == '\U{2028}' || c == '\U{2029}' || c == '\U{202F}' || c == '\U{205F}' || c == '\U{3000}'
  }

  /** Every character of s[i..j] is whitespace. */
  predicate SpaceBetween(s: string, i: nat, j: nat)
    requires i <= j <= |s|
  {
    forall k :: i <= k < j ==> IsSpace(s[k])
  }

  predicate AllSpace(s: string) {
    SpaceBetween(s, 0, |s|)
  }

  /** Neither end of `s` is whitespace. */
  predicate Stripped(s: string) {
    s == [] || (!IsSpace(s[0]) && !IsSpace(s[|s| - 1]))
  }

  /** `t` occurs in `s` starting at index `i`. */
  predicate At(s: string, i: int, t: string) {
    0 <= i && i + |t| <= |s| && s[i..i + |t|] == t
  }

  /** The first index at or after `i` that is not whitespace, or |s|. */
  function SkipSpace(s: string, i: nat): (r: nat)
    requires i <= |s|
    ensures i <= r <= |s|
    ensures r < |s| ==> !IsSpace(s[r])
    decreases |s| - i
  {
    if i < |s| && IsSpace(s[i]) then SkipSpace(s, i + 1) else i
  }

  /** The least index r in [lo, hi] such that s[r..hi] is all whitespace. */
  function BackSpace(s: string, lo: nat, hi: nat): (r: nat)
    requires lo <= hi <= |s|
    ensures lo <= r <= hi
    ensures lo < r ==> !IsSpace(s[r - 1])
    decreases hi - lo
  {
    if lo < hi && IsSpace(s[hi - 1]) then BackSpace(s, lo, hi - 1) else hi
  }

  /** SkipSpace skips only whitespace. */
  lemma SkipSpaceSkipsSpace(s: string, i: nat)
    requires i <= |s|
    ensures SpaceBetween(s, i, SkipSpace(s, i))
    decreases |s| - i
  {
    if i < |s| && IsSpace(s[i]) {
      SkipSpaceSkipsSpace(s, i + 1);
    }
  }

  /** BackSpace drops only whitespace. */
  lemma BackSpaceDropsSpace(s: string, lo: nat, hi: nat)
    requires lo <= hi <= |s|
    ensures SpaceBetween(s, BackSpace(s, lo, hi), hi)
    decreases hi - lo
  {
    if lo < hi && IsSpace(s[hi - 1]) {
      BackSpaceDropsSpace(s, lo, hi - 1);
    }
  }

  /** No whitespace run starting at i reaches past SkipSpace(s, i). */
  lemma {:induction false} SkipSpaceIsLongest(s: string, i: nat, x: nat)
    requires i <= x <= |s| && SpaceBetween(s, i, x)
    ensures x <= SkipSpace(s, i)
    decreases x - i
  {
    if i < x {
      SkipSpaceIsLongest(s, i + 1, x);
    }
  }

  /** No whitespace run ending at or after hi starts between lo and BackSpace(s, lo, hi). */
  lemma {:induction false} BackSpaceIsLongest(s: string, lo: nat, hi: nat, x: nat, y: nat)
    requires lo <= hi <= y && lo <= x <= y <= |s| && SpaceBetween(s, x, y)
    ensures BackSpace(s, lo, hi) <= x
    decreases hi
  {
    if x < hi {
      BackSpaceIsLongest(s, lo, hi - 1, x, y);
    }
  }

  /** SkipSpace stops at the first non-space character after a run of whitespace. */
  lemma SkipSpaceStops(s: string, i: nat, j: nat)
    requires i <= j < |s| && SpaceBetween(s, i, j) && !IsSpace(s[j])
    ensures SkipSpace(s, i) == j
  {
    SkipSpaceIsLongest(s, i, j);
    SkipSpaceSkipsSpace(s, i);
  }

  /** BackSpace stops right after the last non-space character before hi. */
  lemma BackSpaceStops(s: string, lo: nat, hi: nat, j: nat)
    requires lo <= j <= hi <= |s| && SpaceBetween(s, j, hi)
    requires lo < j ==> !IsSpace(s[j - 1])
    ensures BackSpace(s, lo, hi) == j
  {
    BackSpaceIsLongest(s, lo, hi, j, hi);
    BackSpaceDropsSpace(s, lo, hi);
  }

  /** Two whitespace runs from the same index that both stop at a non-space character are equal. */
  lemma SpaceRunUnique(s: string, i: nat, x: nat, y: nat)
    requires i <= x < |s| && i <= y < |s|
    requires SpaceBetween(s, i, x) && SpaceBetween(s, i, y)
    requires !IsSpace(s[x]) && !IsSpace(s[y])
    ensures x == y
  {
  }

  lemma SpaceBetweenSlice(s: string, i: nat, j: nat)
    requires i <= j <= |s| && SpaceBetween(s, i, j)
    ensures AllSpace(s[i..j])
  {
    assert forall k :: 0 <= k < j - i ==> s[i..j][k] == s[i + k];
  }

  /** str.strip(): skips the leading, then the trailing whitespace. */
  function Strip(s: string): (r: string)
    ensures Stripped(r)
  {
    var lo := SkipSpace(s, 0);
    var hi := BackSpace(s, lo, |s|);
    s[lo..hi]
  }

  /**
   * Strip is determined by its specification: a piece of `s` that is
   * stripped and has only whitespace around it is what Strip returns.
   */
  lemma StripUnique(s: string, i: nat, j: nat)
    requires i <= j <= |s|
    requires SpaceBetween(s, 0, i) && SpaceBetween(s, j, |s|)
    requires i < j ==> !IsSpace(s[i]) && !IsSpace(s[j - 1])
    ensures Strip(s) == s[i..j]
  {
    if i < j {
      SkipSpaceStops(s, 0, i);
      BackSpaceStops(s, i, |s|, j);
    } else {
      SpaceBetweenJoin(s, 0, i, |s|);
      SkipSpaceIsLongest(s, 0, |s|);
    }
  }

  lemma StripStripped(s: string)
    requires Stripped(s)
    ensures Strip(s) == s
  {
    StripUnique(s, 0, |s|);
  }

  /** Leading whitespace never changes what strip() returns. */
  lemma StripIgnoresLeading(w: string, x: string)
    requires AllSpace(w)
    ensures Strip(w + x) == Strip(x)
  {
    var lo, hi := StripBounds(x);
    ShiftedStrip(w, x, lo, hi);
    StripUnique(w + x, |w| + lo, |w| + hi);
  }

  /** Where the piece Strip keeps starts and ends, with only whitespace around it. */
  lemma StripBounds(x: string) returns (lo: nat, hi: nat)
    ensures lo <= hi <= |x| && SpaceBetween(x, 0, lo) && SpaceBetween(x, hi, |x|)
    ensures lo < hi ==> !IsSpace(x[lo]) && !IsSpace(x[hi - 1])
    ensures Strip(x) == x[lo..hi]
  {
    lo := SkipSpace(x, 0);
    hi := BackSpace(x, lo, |x|);
    SkipSpaceSkipsSpace(x, 0);
    BackSpaceDropsSpace(x, lo, |x|);
  }

  /** The piece Strip keeps of `x` keeps its properties after whitespace `w` is put in front. */
  lemma ShiftedStrip(w: string, x: string, lo: nat, hi: nat)
    requires AllSpace(w) && lo <= hi <= |x|
    requires SpaceBetween(x, 0, lo) && SpaceBetween(x, hi, |x|)
    requires lo < hi ==> !IsSpace(x[lo]) && !IsSpace(x[hi - 1])
    ensures var s, n := w + x, |w|;
            SpaceBetween(s, 0, n + lo) && SpaceBetween(s, n + hi, |s|) &&
            (n + lo < n + hi ==> !IsSpace(s[n + lo]) && !IsSpace(s[n + hi - 1])) &&
            s[n + lo..n + hi] == x[lo..hi]
  {
    var s, n := w + x, |w|;
    assert s[n..] == x;
    SpaceBetweenShifted(w, x, 0, lo);
    SpaceBetweenShifted([], w, 0, n);
    assert [] + w == w;
    SpaceBetweenJoin(s, 0, n, n + lo);
    SpaceBetweenShifted(w, x, hi, |x|);
  }

  /** Whether a range is whitespace does not depend on what precedes it. */
  lemma SpaceBetweenShifted(w: string, x: string, i: nat, j: nat)
    requires i <= j <= |x|
    ensures SpaceBetween(w + x, |w| + i, |w| + j) == SpaceBetween(x, i, j)
  {
    var s := w + x;
    assert forall k :: i <= k < j ==> s[|w| + k] == x[k];
    if SpaceBetween(x, i, j) {
      forall k | |w| + i <= k < |w| + j ensures IsSpace(s[k]) {
        assert s[k] == x[k - |w|];
      }
    }
  }

  lemma SpaceBetweenJoin(s: string, i: nat, j: nat, k: nat)
    requires i <= j <= k <= |s| && SpaceBetween(s, i, j) && SpaceBetween(s, j, k)
    ensures SpaceBetween(s, i, k)
  {
  }

  /** Trailing whitespace never changes what strip() returns. */
  lemma StripIgnoresTrailing(x: string, w: string)
    requires AllSpace(w)
    ensures Strip(x + w) == Strip(x)
  {
    var lo := SkipSpace(x, 0);
    var hi := BackSpace(x, lo, |x|);
    SkipSpaceSkipsSpace(x, 0);
    BackSpaceDropsSpace(x, lo, |x|);
    ExtendedStrip(x, w, lo, hi);
    StripUnique(x + w, lo, hi);
  }

  /** The piece Strip keeps of `x` keeps its properties after whitespace `w` is put behind. */
  lemma ExtendedStrip(x: string, w: string, lo: nat, hi: nat)
    requires AllSpace(w) && lo <= hi <= |x|
    requires SpaceBetween(x, 0, lo) && SpaceBetween(x, hi, |x|)
    requires lo < hi ==> !IsSpace(x[lo]) && !IsSpace(x[hi - 1])
    ensures var s := x + w;
            SpaceBetween(s, 0, lo) && SpaceBetween(s, hi, |s|) &&
            (lo < hi ==> !IsSpace(s[lo]) && !IsSpace(s[hi - 1])) &&
            s[lo..hi] == x[lo..hi]
  {
    var s := x + w;
    SpaceBetweenPrefix(x, w, 0, lo);
    SpaceBetweenPrefix(x, w, hi, |x|);
    SpaceBetweenShifted(x, w, 0, |w|);
    SpaceBetweenJoin(s, hi, |x|, |s|);
    assert s[..|x|] == x;
  }

  /** Whether a range is whitespace does not depend on what follows it. */
  lemma SpaceBetweenPrefix(x: string, w: string, i: nat, j: nat)
    requires i <= j <= |x|
    ensures SpaceBetween(x + w, i, j) == SpaceBetween(x, i, j)
  {
    assert forall k :: i <= k < j ==> (x + w)[k] == x[k];
  }

  /** Whitespace around a string never changes what strip() returns. */
  lemma StripIgnoresPadding(w1: string, x: string, w2: string)
    requires AllSpace(w1) && AllSpace(w2)
    ensures Strip(w1 + x + w2) == Strip(x)
  {
    StripIgnoresTrailing(w1 + x, w2);
    StripIgnoresLeading(w1, x);
  }

  lemma StripIdempotent(s: string)
    ensures Strip(Strip(s)) == Strip(s)
  {
    StripStripped(Strip(s));
  }
}
