/**
 * parse_string: re.search(r"OUTPUT:\s*(.+?)\s*REASONING:\s*(.+)", s, re.DOTALL)
 * followed by strip() of both groups, or ValueError when nothing matches.
 *
 * The pattern is described by the set of all ways it can match (IsMatch) and
 * by the order in which Python's backtracking matcher tries them (Before);
 * re.search returns the first match in that order (IsFirstMatch). FirstMatch
 * computes it by scanning, and ParseString is proved to return its groups.
 */
module ResponseParser {
  import opened Results
  import opened Text

  const OutputLabel: string := "OUTPUT:"
  const ReasoningLabel: string := "REASONING:"
  const FormatErrorMessage: string :=
    "The generated response is not in the expected 'OUTPUT:... REASONING:...' format."

  /**
   * One way for the pattern to match: `OUTPUT:` at p, group 1 is s[a..e],
   * `REASONING:` at q, group 2 is s[b..f]. The `\s*` runs are s[p+7..a],
   * s[e..q] and s[q+10..b]; DOTALL lets both groups hold any character.
   */
  datatype Match = Match(p: nat, a: nat, e: nat, q: nat, b: nat, f: nat)

  predicate IsMatch(s: string, m: Match) {
    At(s, m.p, OutputLabel) && At(s, m.q, ReasoningLabel) &&
    m.p + |OutputLabel| <= m.a < m.e <= m.q &&
    m.q + |ReasoningLabel| <= m.b < m.f <= |s| &&
    SpaceBetween(s, m.p + |OutputLabel|, m.a) &&
    SpaceBetween(s, m.e, m.q) &&
    SpaceBetween(s, m.q + |ReasoningLabel|, m.b)
  }

  /**
   * The matcher tries m1 before m2: start positions from the left, then the
   * greedy `\s*` longest first, the lazy `(.+?)` shortest first, the second
   * `\s*` longest first, the third `\s*` longest first, the greedy `(.+)`
   * longest first.
   */
  predicate Before(m1: Match, m2: Match) {
    m1.p < m2.p ||
    (m1.p == m2.p && (m1.a > m2.a ||
    (m1.a == m2.a && (m1.e < m2.e ||
    (m1.e == m2.e && (m1.q > m2.q ||
    (m1.q == m2.q && (m1.b > m2.b ||
    (m1.b == m2.b && m1.f > m2.f)))))))))
  }

  /** The match re.search reports. */
  ghost predicate IsFirstMatch(s: string, m: Match) {
    IsMatch(s, m) && forall m' :: IsMatch(s, m') ==> m' == m || Before(m, m')
  }

  /** The first index at or after `from` where `t` occurs in `s`. */
  function FindFrom(s: string, t: string, from: nat): (r: Option<nat>)
    ensures r.Some? ==> from <= r.value && At(s, r.value, t)
    decreases |s| - from
  {
    if from + |t| > |s| then None
    else if s[from..from + |t|] == t then Some(from)
    else FindFrom(s, t, from + 1)
  }

  /** FindFrom finds the first occurrence: every occurrence at or after `from` is at or after what it returns. */
  lemma {:induction false} FindFromIsFirst(s: string, t: string, from: nat, k: nat)
    requires from <= k && At(s, k, t)
    ensures FindFrom(s, t, from).Some? && FindFrom(s, t, from).value <= k
    decreases k - from
  {
    if s[from..from + |t|] != t {
      FindFromIsFirst(s, t, from + 1, k);
    }
  }

  /** The match with `OUTPUT:` at p, group 1 starting at a and `REASONING:` at q. */
  function Complete(s: string, p: nat, a: nat, q: nat): Match
    requires a < q && q + |ReasoningLabel| < |s|
  {
    var e := BackSpace(s, a + 1, q);
    var w := SkipSpace(s, q + |ReasoningLabel|);
    Match(p, a, e, q, if w < |s| then w else |s| - 1, |s|)
  }

  /**
   * The match starting at the `OUTPUT:` at p that the matcher finds first, if
   * any. Group 1 starts after all the whitespace that follows `OUTPUT:`,
   * unless no `REASONING:` with text after it starts later than that; then,
   * if that whitespace is not empty, group 1 is its last character and the
   * `REASONING:` right after it is the delimiter.
   */
  function MatchAt(s: string, p: nat): (r: Option<Match>)
    requires At(s, p, OutputLabel)
    ensures r.Some? ==> r.value.p == p && r.value.f == |s|
  {
    var c := p + |OutputLabel|;
    var a := SkipSpace(s, c);
    var next := FindFrom(s, ReasoningLabel, a + 1);
    if next.Some? && next.value + |ReasoningLabel| < |s| then Some(Complete(s, p, a, next.value))
    else if c < a && At(s, a, ReasoningLabel) && a + |ReasoningLabel| < |s| then Some(Complete(s, p, a - 1, a))
    else None
  }

  /** The scan that finds re.search's match: only the first `OUTPUT:` can start one. */
  function FirstMatch(s: string): (r: Option<Match>)
    ensures r.Some? ==> FindFrom(s, OutputLabel, 0).Some?
    ensures r.Some? ==> r.value.p == FindFrom(s, OutputLabel, 0).value && r.value.f == |s|
  {
    match FindFrom(s, OutputLabel, 0)
    case None => None
    case Some(p) => MatchAt(s, p)
  }

  lemma ReasoningNotSpace(s: string, q: int)
    requires At(s, q, ReasoningLabel)
    ensures !IsSpace(s[q])
  {
    assert s[q] == s[q..q + |ReasoningLabel|][0];
  }

  lemma CompleteIsMatch(s: string, p: nat, a: nat, q: nat)
    requires At(s, p, OutputLabel) && At(s, q, ReasoningLabel)
    requires p + |OutputLabel| <= a < q && q + |ReasoningLabel| < |s|
    requires SpaceBetween(s, p + |OutputLabel|, a)
    ensures IsMatch(s, Complete(s, p, a, q))
  {
    BackSpaceDropsSpace(s, a + 1, q);
    SkipSpaceSkipsSpace(s, q + |ReasoningLabel|);
  }

  lemma MatchAtIsMatch(s: string, p: nat)
    requires At(s, p, OutputLabel)
    ensures MatchAt(s, p).Some? ==> IsMatch(s, MatchAt(s, p).value)
  {
    var c := p + |OutputLabel|;
    var a := SkipSpace(s, c);
    var next := FindFrom(s, ReasoningLabel, a + 1);
    if next.Some? && next.value + |ReasoningLabel| < |s| {
      FoundIsMatch(s, p, a, next.value);
    } else if c < a && At(s, a, ReasoningLabel) && a + |ReasoningLabel| < |s| {
      FallbackIsMatch(s, p, a);
    } else {
      MatchAtNone(s, p, a);
    }
  }

  lemma MatchAtNone(s: string, p: nat, a: nat)
    requires At(s, p, OutputLabel) && SkipSpace(s, p + |OutputLabel|) == a
    requires var next := FindFrom(s, ReasoningLabel, a + 1);
             !(next.Some? && next.value + |ReasoningLabel| < |s|)
    requires !(p + |OutputLabel| < a && At(s, a, ReasoningLabel) && a + |ReasoningLabel| < |s|)
    ensures MatchAt(s, p).None?
  {
  }

  lemma FoundIsMatch(s: string, p: nat, a: nat, q: nat)
    requires At(s, p, OutputLabel) && SkipSpace(s, p + |OutputLabel|) == a
    requires FindFrom(s, ReasoningLabel, a + 1) == Some(q) && q + |ReasoningLabel| < |s|
    ensures MatchAt(s, p).Some? && IsMatch(s, MatchAt(s, p).value)
  {
    SkipSpaceSkipsSpace(s, p + |OutputLabel|);
    CompleteIsMatch(s, p, a, q);
    MatchAtFound(s, p, a, q);
  }

  lemma FallbackIsMatch(s: string, p: nat, a: nat)
    requires At(s, p, OutputLabel) && SkipSpace(s, p + |OutputLabel|) == a
    requires var next := FindFrom(s, ReasoningLabel, a + 1);
             !(next.Some? && next.value + |ReasoningLabel| < |s|)
    requires p + |OutputLabel| < a && At(s, a, ReasoningLabel) && a + |ReasoningLabel| < |s|
    ensures MatchAt(s, p).Some? && IsMatch(s, MatchAt(s, p).value)
  {
    SkipSpaceSkipsSpace(s, p + |OutputLabel|);
    CompleteIsMatch(s, p, a - 1, a);
    MatchAtFallback(s, p, a);
  }

  lemma FirstMatchIsMatch(s: string)
    ensures FirstMatch(s).Some? ==> IsMatch(s, FirstMatch(s).value)
  {
    if FindFrom(s, OutputLabel, 0).Some? {
      MatchAtIsMatch(s, FindFrom(s, OutputLabel, 0).value);
    }
  }

  /** The case where a `REASONING:` with text after it follows the first non-space after `OUTPUT:`. */
  lemma CompleteIsFirst(s: string, p: nat, a: nat, q: nat, m': Match)
    requires At(s, p, OutputLabel) && IsMatch(s, m') && p <= m'.p
    requires SkipSpace(s, p + |OutputLabel|) == a
    requires FindFrom(s, ReasoningLabel, a + 1) == Some(q) && q + |ReasoningLabel| < |s|
    ensures Complete(s, p, a, q) == m' || Before(Complete(s, p, a, q), m')
  {
    if p == m'.p {
      SkipSpaceIsLongest(s, p + |OutputLabel|, m'.a);
      if m'.a == a {
        SameStartIsFirst(s, a, q, m');
      }
    }
  }

  /** CompleteIsFirst for a match whose group 1 starts where the scan's does. */
  lemma SameStartIsFirst(s: string, a: nat, q: nat, m': Match)
    requires IsMatch(s, m') && m'.a == a
    requires FindFrom(s, ReasoningLabel, a + 1) == Some(q) && q + |ReasoningLabel| < |s|
    ensures Complete(s, m'.p, a, q) == m' || Before(Complete(s, m'.p, a, q), m')
  {
    GroupOneBound(s, a, q, m');
    if m'.e == BackSpace(s, a + 1, q) {
      TailIsFirst(s, q, m');
    }
  }

  /** Group 1 of a match starting at a ends no earlier than the scan's, and its `REASONING:` is no earlier. */
  lemma GroupOneBound(s: string, a: nat, q: nat, m': Match)
    requires IsMatch(s, m') && m'.a == a
    requires FindFrom(s, ReasoningLabel, a + 1) == Some(q)
    ensures q <= m'.q && BackSpace(s, a + 1, q) <= m'.e
  {
    DelimiterBound(s, a + 1, q, m'.e, m'.q);
  }

  /**
   * The first `REASONING:` from `from` is no later than one at q2, and the
   * whitespace before it starts no later than whitespace e..q2 before q2.
   */
  lemma DelimiterBound(s: string, from: nat, q: nat, e: nat, q2: nat)
    requires from <= e <= q2 && At(s, q2, ReasoningLabel) && SpaceBetween(s, e, q2)
    requires FindFrom(s, ReasoningLabel, from) == Some(q)
    ensures q <= q2 && BackSpace(s, from, q) <= e
  {
    FindFromIsFirst(s, ReasoningLabel, from, q2);
    BackSpaceIsLongest(s, from, q, e, q2);
  }

  /**
   * Among matches agreeing on `OUTPUT:` and group 1, the one with `REASONING:`
   * right after the whitespace that ends group 1 and the longest whitespace
   * after that comes first.
   */
  lemma TailIsFirst(s: string, q: nat, m': Match)
    requires IsMatch(s, m') && At(s, q, ReasoningLabel) && q + |ReasoningLabel| < |s|
    requires m'.a < q && BackSpace(s, m'.a + 1, q) == m'.e && m'.q >= q
    ensures Complete(s, m'.p, m'.a, q) == m' || Before(Complete(s, m'.p, m'.a, q), m')
  {
    ReasoningNotSpace(s, q);
    ReasoningNotSpace(s, m'.q);
    BackSpaceDropsSpace(s, m'.a + 1, q);
    SpaceRunUnique(s, m'.e, q, m'.q);
    SkipSpaceIsLongest(s, q + |ReasoningLabel|, m'.b);
  }

  /** The case where group 1 has to be the last whitespace character after `OUTPUT:`. */
  lemma FallbackIsFirst(s: string, p: nat, a: nat, m': Match)
    requires At(s, p, OutputLabel) && IsMatch(s, m') && p <= m'.p
    requires SkipSpace(s, p + |OutputLabel|) == a
    requires var next := FindFrom(s, ReasoningLabel, a + 1);
             !(next.Some? && next.value + |ReasoningLabel| < |s|)
    ensures p + |OutputLabel| < a && At(s, a, ReasoningLabel) && a + |ReasoningLabel| < |s|
    ensures Complete(s, p, a - 1, a) == m' || Before(Complete(s, p, a - 1, a), m')
  {
    FallbackDelimiter(s, p, a, m');
    if p == m'.p && m'.a == a - 1 && m'.e == a {
      assert SpaceBetween(s, a + |ReasoningLabel|, m'.b);
      SkipSpaceIsLongest(s, a + |ReasoningLabel|, m'.b);
    }
  }

  /** Without a later `REASONING:`, every match from p uses the one ending the whitespace after `OUTPUT:`. */
  lemma FallbackDelimiter(s: string, p: nat, a: nat, m': Match)
    requires At(s, p, OutputLabel) && IsMatch(s, m') && p <= m'.p
    requires SkipSpace(s, p + |OutputLabel|) == a
    requires var next := FindFrom(s, ReasoningLabel, a + 1);
             !(next.Some? && next.value + |ReasoningLabel| < |s|)
    ensures m'.q == a && p + |OutputLabel| < a && At(s, a, ReasoningLabel) && a + |ReasoningLabel| < |s|
  {
    OnlyDelimiter(s, p + |OutputLabel|, a, m'.q);
    assert m'.p + |OutputLabel| <= m'.a < m'.q;
  }

  /**
   * With no `REASONING:` that has text after it past a, the first non-space
   * character after c, such a `REASONING:` at or after c is at a.
   */
  lemma OnlyDelimiter(s: string, c: nat, a: nat, q: nat)
    requires c <= q && At(s, q, ReasoningLabel) && q + |ReasoningLabel| < |s|
    requires SkipSpace(s, c) == a
    requires var next := FindFrom(s, ReasoningLabel, a + 1);
             !(next.Some? && next.value + |ReasoningLabel| < |s|)
    ensures q == a
  {
    assert a <= q by {
      SkipSpaceSkipsSpace(s, c);
      ReasoningNotSpace(s, q);
    }
    if q > a {
      FindFromIsFirst(s, ReasoningLabel, a + 1, q);
    }
  }

  /** MatchAt when a `REASONING:` with text after it follows the whitespace after `OUTPUT:`. */
  lemma MatchAtFound(s: string, p: nat, a: nat, q: nat)
    requires At(s, p, OutputLabel) && SkipSpace(s, p + |OutputLabel|) == a
    requires FindFrom(s, ReasoningLabel, a + 1) == Some(q) && q + |ReasoningLabel| < |s|
    ensures MatchAt(s, p) == Some(Complete(s, p, a, q))
  {
    assert FindFrom(s, ReasoningLabel, a + 1) == FindFrom(s, ReasoningLabel, SkipSpace(s, p + |OutputLabel|) + 1);
  }

  /** MatchAt when the `REASONING:` ending the whitespace after `OUTPUT:` is the only delimiter left. */
  lemma MatchAtFallback(s: string, p: nat, a: nat)
    requires At(s, p, OutputLabel) && SkipSpace(s, p + |OutputLabel|) == a
    requires var next := FindFrom(s, ReasoningLabel, a + 1);
             !(next.Some? && next.value + |ReasoningLabel| < |s|)
    requires p + |OutputLabel| < a && At(s, a, ReasoningLabel) && a + |ReasoningLabel| < |s|
    ensures MatchAt(s, p) == Some(Complete(s, p, a - 1, a))
  {
    assert FindFrom(s, ReasoningLabel, a + 1) == FindFrom(s, ReasoningLabel, SkipSpace(s, p + |OutputLabel|) + 1);
  }

  /** A match whose `OUTPUT:` is at or after p is found from p, or comes after what is found. */
  lemma MatchAtIsFirst(s: string, p: nat, m': Match)
    requires At(s, p, OutputLabel) && IsMatch(s, m') && p <= m'.p
    ensures MatchAt(s, p).Some?
    ensures MatchAt(s, p).value == m' || Before(MatchAt(s, p).value, m')
  {
    var a := SkipSpace(s, p + |OutputLabel|);
    var next := FindFrom(s, ReasoningLabel, a + 1);
    if next.Some? && next.value + |ReasoningLabel| < |s| {
      MatchAtFound(s, p, a, next.value);
      CompleteIsFirst(s, p, a, next.value, m');
    } else {
      FallbackIsFirst(s, p, a, m');
      MatchAtFallback(s, p, a);
    }
  }

  /** Every match of the pattern is found by the scan or comes after the one it finds. */
  lemma FirstMatchIsFirst(s: string, m': Match)
    requires IsMatch(s, m')
    ensures FirstMatch(s).Some?
    ensures FirstMatch(s).value == m' || Before(FirstMatch(s).value, m')
  {
    FindFromIsFirst(s, OutputLabel, 0, m'.p);
    var p := FindFrom(s, OutputLabel, 0).value;
    MatchAtIsFirst(s, p, m');
  }

  /**
   * parse_string: the stripped groups of the first match, or the ValueError
   * message when there is none. Neither result starts or ends with
   * whitespace.
   */
  function ParseString(s: string): (r: Result<(string, string), string>)
    ensures r.Failure? ==> r.error == FormatErrorMessage
    ensures r.Success? ==> Stripped(r.value.0) && Stripped(r.value.1)
  {
    match FirstMatch(s)
    case None => Failure(FormatErrorMessage)
    case Some(m) =>
      FirstMatchIsMatch(s);
      Success((Strip(s[m.a..m.e]), Strip(s[m.b..m.f])))
  }

  /**
   * ParseString fails exactly when the pattern does not match; otherwise it
   * returns the stripped groups of the match re.search reports.
   */
  lemma ParseStringIsFirstMatch(s: string)
    ensures ParseString(s).Failure? <==> forall m :: !IsMatch(s, m)
    ensures ParseString(s).Success? ==>
              exists m :: IsFirstMatch(s, m) && ParseString(s).value == (Strip(s[m.a..m.e]), Strip(s[m.b..m.f]))
  {
    FirstMatchIsMatch(s);
    forall m' | IsMatch(s, m') ensures FirstMatch(s).Some? && (FirstMatch(s).value == m' || Before(FirstMatch(s).value, m')) {
      FirstMatchIsFirst(s, m');
    }
  }

  /** ParseString reports the strip of the two groups of the first match. */
  lemma ParseOfMatch(s: string, m: Match)
    requires FirstMatch(s) == Some(m)
    ensures IsMatch(s, m)
    ensures ParseString(s) == Success((Strip(s[m.a..m.e]), Strip(s[m.b..m.f])))
  {
    FirstMatchIsMatch(s);
  }

  /** The first match when a later `REASONING:` follows the whitespace after `OUTPUT:`. */
  lemma FirstMatchFound(s: string, p: nat, a: nat, q: nat)
    requires FindFrom(s, OutputLabel, 0) == Some(p)
    requires SkipSpace(s, p + |OutputLabel|) == a
    requires FindFrom(s, ReasoningLabel, a + 1) == Some(q) && q + |ReasoningLabel| < |s|
    ensures FirstMatch(s) == Some(Complete(s, p, a, q))
  {
    MatchAtFound(s, p, a, q);
  }

  /** The first match when the only delimiter is the `REASONING:` that ends the whitespace after `OUTPUT:`. */
  lemma FirstMatchFallback(s: string, p: nat, a: nat)
    requires FindFrom(s, OutputLabel, 0) == Some(p)
    requires SkipSpace(s, p + |OutputLabel|) == a && p + |OutputLabel| < a
    requires FindFrom(s, ReasoningLabel, a + 1).None?
    requires At(s, a, ReasoningLabel) && a + |ReasoningLabel| < |s|
    ensures FirstMatch(s) == Some(Complete(s, p, a - 1, a))
  {
    MatchAtFallback(s, p, a);
  }

  /** A `REASONING:` at q with at least one character after it. */
  predicate Delimits(s: string, q: int) {
    At(s, q, ReasoningLabel) && q + |ReasoningLabel| < |s|
  }

  lemma MatchFromLabels(s: string, p: nat, q: nat)
    requires At(s, p, OutputLabel) && Delimits(s, q) && p + |OutputLabel| < q
    ensures ParseString(s).Success?
  {
    var m := Match(p, p + |OutputLabel|, q, q, q + |ReasoningLabel|, |s|);
    assert IsMatch(s, m);
    FirstMatchIsFirst(s, m);
  }

  lemma LabelsFromMatch(s: string)
    requires ParseString(s).Success?
    ensures exists p, q :: At(s, p, OutputLabel) && Delimits(s, q) && p + |OutputLabel| < q
  {
    FirstMatchIsMatch(s);
    var m := FirstMatch(s).value;
    assert At(s, m.p, OutputLabel) && Delimits(s, m.q) && m.p + |OutputLabel| < m.q;
  }

  /** parse_string succeeds exactly when some `OUTPUT:` is followed, at least one character after its colon, by a `REASONING:` with text after it. */
  lemma ParseSucceedsIff(s: string)
    ensures ParseString(s).Success? <==>
            exists p, q :: At(s, p, OutputLabel) && Delimits(s, q) && p + |OutputLabel| < q
  {
    if ParseString(s).Success? {
      LabelsFromMatch(s);
    } else {
      forall p, q | At(s, p, OutputLabel) && Delimits(s, q) ensures p + |OutputLabel| >= q {
        if p + |OutputLabel| < q { MatchFromLabels(s, p, q); }
      }
    }
  }

  /** Stripped group 1 is the stripped text between the two labels. */
  lemma OutputIsSection(s: string, m: Match)
    requires IsMatch(s, m)
    ensures Strip(s[m.a..m.e]) == Strip(s[m.p + |OutputLabel|..m.q])
  {
    StripPadded(s, m.p + |OutputLabel|, m.a, m.e, m.q);
  }

  /** Stripped group 2, when it runs to the end, is the stripped text after `REASONING:`. */
  lemma ReasoningIsSection(s: string, m: Match)
    requires IsMatch(s, m) && m.f == |s|
    ensures Strip(s[m.b..m.f]) == Strip(s[m.q + |ReasoningLabel|..])
  {
    var d := m.q + |ReasoningLabel|;
    StripPadded(s, d, m.b, |s|, |s|);
    assert s[d..] == s[d..|s|];
  }

  /** Whitespace s[i..j] and s[k..l] around s[j..k] is dropped by strip(). */
  lemma StripPadded(s: string, i: nat, j: nat, k: nat, l: nat)
    requires i <= j <= k <= l <= |s|
    requires SpaceBetween(s, i, j) && SpaceBetween(s, k, l)
    ensures Strip(s[j..k]) == Strip(s[i..l])
  {
    SpaceBetweenSlice(s, i, j);
    SpaceBetweenSlice(s, k, l);
    assert s[i..l] == s[i..j] + s[j..k] + s[k..l];
    StripIgnoresPadding(s[i..j], s[j..k], s[k..l]);
  }

  /**
   * Which `REASONING:` delimits the sections after the `OUTPUT:` at p: the
   * first one with text after it that starts later than the first
   * non-space character after `OUTPUT:`, or, when there is none and
   * whitespace follows `OUTPUT:`, one right at that character.
   */
  ghost predicate ChosenDelimiter(s: string, p: nat, q: nat)
    requires p + |OutputLabel| <= |s|
  {
    var a := SkipSpace(s, p + |OutputLabel|);
    Delimits(s, q) &&
    ((a < q && forall k :: a < k < q ==> !Delimits(s, k)) ||
     (p + |OutputLabel| < a == q && forall k :: a < k ==> !Delimits(s, k)))
  }

  /** `OUTPUT:` first occurs at p, and the chosen `REASONING:` for it is at q. */
  ghost predicate Delimiters(s: string, p: nat, q: nat) {
    At(s, p, OutputLabel) && (forall k :: 0 <= k < p ==> !At(s, k, OutputLabel)) &&
    p + |OutputLabel| < q && ChosenDelimiter(s, p, q)
  }

  /**
   * On success the output is the stripped text between the first `OUTPUT:`
   * and the chosen `REASONING:`, and the reasoning is the stripped rest of
   * the response.
   */
  lemma ParsedSections(s: string)
    requires ParseString(s).Success?
    ensures exists p: nat, q: nat :: p + |OutputLabel| < q && q + |ReasoningLabel| <= |s| && Delimiters(s, p, q) &&
              ParseString(s).value == (Strip(s[p + |OutputLabel|..q]), Strip(s[q + |ReasoningLabel|..]))
  {
    var m := FirstMatch(s).value;
    FirstMatchSections(s, m);
  }

  lemma FirstMatchSections(s: string, m: Match)
    requires FirstMatch(s) == Some(m)
    ensures Delimiters(s, m.p, m.q) && m.q + |ReasoningLabel| <= |s|
    ensures ParseString(s).value == (Strip(s[m.p + |OutputLabel|..m.q]), Strip(s[m.q + |ReasoningLabel|..]))
  {
    FirstMatchIsMatch(s);
    ParseOfMatch(s, m);
    OutputIsSection(s, m);
    ReasoningIsSection(s, m);
    FirstMatchDelimiters(s);
  }

  lemma FirstMatchDelimiters(s: string)
    requires FirstMatch(s).Some?
    ensures Delimiters(s, FirstMatch(s).value.p, FirstMatch(s).value.q)
  {
    FirstMatchIsMatch(s);
    ChosenDelimiterOfFirstMatch(s);
    var p := FirstMatch(s).value.p;
    forall k | 0 <= k < p ensures !At(s, k, OutputLabel) {
      if At(s, k, OutputLabel) { FindFromIsFirst(s, OutputLabel, 0, k); }
    }
  }

  lemma ChosenDelimiterOfFirstMatch(s: string)
    requires FirstMatch(s).Some?
    ensures FindFrom(s, OutputLabel, 0).Some?
    ensures ChosenDelimiter(s, FindFrom(s, OutputLabel, 0).value, FirstMatch(s).value.q)
  {
    var p := FindFrom(s, OutputLabel, 0).value;
    var a := SkipSpace(s, p + |OutputLabel|);
    var next := FindFrom(s, ReasoningLabel, a + 1);
    if next.Some? && next.value + |ReasoningLabel| < |s| {
      FirstMatchFound(s, p, a, next.value);
      FoundIsChosen(s, p, a, next.value);
    } else {
      assert At(s, p, OutputLabel) && MatchAt(s, p).Some?;
      if !(p + |OutputLabel| < a && At(s, a, ReasoningLabel) && a + |ReasoningLabel| < |s|) {
        MatchAtNone(s, p, a);
        assert false;
      }
      MatchAtFallback(s, p, a);
      FallbackIsChosen(s, p, a);
    }
  }

  lemma FoundIsChosen(s: string, p: nat, a: nat, q: nat)
    requires p + |OutputLabel| <= |s| && SkipSpace(s, p + |OutputLabel|) == a
    requires FindFrom(s, ReasoningLabel, a + 1) == Some(q) && q + |ReasoningLabel| < |s|
    ensures ChosenDelimiter(s, p, q)
  {
    forall k | a < k < q ensures !Delimits(s, k) {
      if Delimits(s, k) { FindFromIsFirst(s, ReasoningLabel, a + 1, k); }
    }
  }

  lemma FallbackIsChosen(s: string, p: nat, a: nat)
    requires Delimits(s, a) && p + |OutputLabel| < a == SkipSpace(s, p + |OutputLabel|)
    requires var next := FindFrom(s, ReasoningLabel, a + 1);
             !(next.Some? && next.value + |ReasoningLabel| < |s|)
    ensures ChosenDelimiter(s, p, a)
  {
    forall k | a < k ensures !Delimits(s, k) {
      if Delimits(s, k) { FindFromIsFirst(s, ReasoningLabel, a + 1, k); }
    }
  }

  /**
   * Unless the text after `OUTPUT:` itself starts with `REASONING:`, the
   * delimiter is the first `REASONING:` after `OUTPUT:` that has text after it.
   */
  lemma DelimiterIsFirstAfterOutput(s: string, p: nat, q: nat)
    requires p + |OutputLabel| <= |s| && ChosenDelimiter(s, p, q)
    requires !At(s, SkipSpace(s, p + |OutputLabel|), ReasoningLabel)
    ensures p + |OutputLabel| < q && forall k :: p + |OutputLabel| <= k < q ==> !Delimits(s, k)
  {
    var c := p + |OutputLabel|;
    var a := SkipSpace(s, c);
    SkipSpaceSkipsSpace(s, c);
    forall k | c <= k < q ensures !Delimits(s, k) {
      if k < a {
        assert IsSpace(s[k]);
        if At(s, k, ReasoningLabel) { ReasoningNotSpace(s, k); }
      }
    }
  }

  /** The response a well-behaved generator returns: output `o`, whitespace `sep`, reasoning `r`. */
  function Response(o: string, sep: string, r: string): string {
    OutputLabel + " " + o + sep + ReasoningLabel + " " + r
  }

  lemma ReasoningLabelHasNoSpace(i: int)
    requires 0 <= i < |ReasoningLabel|
    ensures !IsSpace(ReasoningLabel[i])
  {
  }

  /** No `REASONING:` starts in `o` after its first character. */
  predicate NoLaterLabel(o: string) {
    forall k :: 1 <= k < |o| ==> !At(o, k, ReasoningLabel)
  }

  /**
   * s is laid out as a response: `OUTPUT:`, a space, o, sep, `REASONING:`,
   * a space, r.
   */
  predicate LaidOut(s: string, o: string, sep: string, r: string) {
    var n := |OutputLabel| + 1;
    var q := n + |o| + |sep|;
    var d := q + |ReasoningLabel|;
    && |s| == d + 1 + |r|
    && s[..|OutputLabel|] == OutputLabel && s[n - 1] == ' '
    && s[n..n + |o|] == o
    && (forall i :: 0 <= i < |sep| ==> s[n + |o| + i] == sep[i])
    && s[q..d] == ReasoningLabel && s[d] == ' '
    && s[d + 1..] == r
  }

  /** Where each part of a built response sits. */
  lemma ResponseIsLaidOut(o: string, sep: string, r: string)
    ensures LaidOut(Response(o, sep, r), o, sep, r)
  {
  }

  /** No `REASONING:` starts inside `o`, after its first character, or in the whitespace after it. */
  lemma NoDelimiterInOutput(s: string, o: string, sep: string, r: string, k: int)
    requires LaidOut(s, o, sep, r)
    requires NoLaterLabel(o) && sep != [] && AllSpace(sep)
    requires |OutputLabel| + 2 <= k < |OutputLabel| + 1 + |o| + |sep|
    ensures !At(s, k, ReasoningLabel)
  {
    var n := |OutputLabel| + 1;
    if k + |ReasoningLabel| <= n + |o| {
      var window, inO := s[k..k + |ReasoningLabel|], o[k - n..k - n + |ReasoningLabel|];
      forall i | 0 <= i < |window| ensures window[i] == inO[i] {
        assert s[k + i] == s[n..n + |o|][k - n + i];
      }
      assert window == inO;
      assert !At(o, k - n, ReasoningLabel);
    } else if k + |ReasoningLabel| <= |s| {
      var j := if k < n + |o| then n + |o| else k;
      assert s[j] == sep[j - n - |o|];
      assert IsSpace(s[j]);
      ReasoningLabelHasNoSpace(j - k);
      assert s[k..k + |ReasoningLabel|][j - k] == s[j];
    }
  }

  /**
   * Round trip: a response built from a stripped, non-empty output in which
   * no `REASONING:` starts after the first character, any non-empty
   * whitespace and a stripped reasoning parses back to exactly that output
   * and reasoning.
   */
  lemma RoundTrip(o: string, sep: string, r: string)
    requires o != [] && Stripped(o) && NoLaterLabel(o)
    requires sep != [] && AllSpace(sep)
    requires Stripped(r)
    ensures ParseString(Response(o, sep, r)) == Success((o, r))
  {
    ResponseIsLaidOut(o, sep, r);
    LaidOutParses(Response(o, sep, r), o, sep, r);
  }

  /** RoundTrip for any string laid out as such a response. */
  lemma LaidOutParses(s: string, o: string, sep: string, r: string)
    requires LaidOut(s, o, sep, r)
    requires o != [] && Stripped(o) && NoLaterLabel(o)
    requires sep != [] && AllSpace(sep)
    requires Stripped(r)
    ensures ParseString(s) == Success((o, r))
  {
    RoundTripMatch(s, o, sep, r);
    ParseOfMatch(s, FirstMatch(s).value);
    RoundTripSections(s, o, sep, r);
  }

  lemma RoundTripSections(s: string, o: string, sep: string, r: string)
    requires LaidOut(s, o, sep, r)
    requires Stripped(o) && Stripped(r)
    ensures var n := |OutputLabel| + 1;
            var d := n + |o| + |sep| + |ReasoningLabel|;
            && Strip(s[n..n + |o|]) == o
            && Strip(s[if r == [] then d else d + 1..|s|]) == r
  {
    var n := |OutputLabel| + 1;
    var d := n + |o| + |sep| + |ReasoningLabel|;
    if r == [] {
      assert s[d..] == [s[d]] + s[d + 1..];
      assert s[d..] == " ";
      StripUnique(" ", 1, 1);
    } else {
      StripStripped(r);
    }
  }

  /** The regex match of a string laid out as a response has its groups exactly around o and r. */
  lemma RoundTripMatch(s: string, o: string, sep: string, r: string)
    requires LaidOut(s, o, sep, r)
    requires o != [] && Stripped(o) && NoLaterLabel(o)
    requires sep != [] && AllSpace(sep)
    requires Stripped(r)
    ensures var n := |OutputLabel| + 1;
            var q := n + |o| + |sep|;
            var d := q + |ReasoningLabel|;
            FirstMatch(s) == Some(Match(0, n, n + |o|, q, if r == [] then d else d + 1, |s|))
  {
    var n := |OutputLabel| + 1;
    var q := n + |o| + |sep|;
    var d := q + |ReasoningLabel|;
    ResponseOutputLabel(s, o, sep, r);
    ResponseDelimiter(s, o, sep, r);
    ResponseSpaces(s, o, sep, r);
    FirstMatchFound(s, 0, n, q);
    assert Complete(s, 0, n, q) == Match(0, n, n + |o|, q, if r == [] then d else d + 1, |s|);
  }

  lemma ResponseOutputLabel(s: string, o: string, sep: string, r: string)
    requires LaidOut(s, o, sep, r)
    requires o != [] && Stripped(o)
    ensures FindFrom(s, OutputLabel, 0) == Some(0) && SkipSpace(s, |OutputLabel|) == |OutputLabel| + 1
  {
    assert At(s, 0, OutputLabel);
    assert s[|OutputLabel| + 1] == s[|OutputLabel| + 1..|OutputLabel| + 1 + |o|][0];
    SkipSpaceStops(s, |OutputLabel|, |OutputLabel| + 1);
  }

  lemma ResponseDelimiter(s: string, o: string, sep: string, r: string)
    requires LaidOut(s, o, sep, r)
    requires o != [] && NoLaterLabel(o)
    requires sep != [] && AllSpace(sep)
    ensures var n := |OutputLabel| + 1;
            FindFrom(s, ReasoningLabel, n + 1) == Some(n + |o| + |sep|)
  {
    var n := |OutputLabel| + 1;
    var q := n + |o| + |sep|;
    assert At(s, q, ReasoningLabel);
    FindFromIsFirst(s, ReasoningLabel, n + 1, q);
    var f := FindFrom(s, ReasoningLabel, n + 1);
    if f.value < q { NoDelimiterInOutput(s, o, sep, r, f.value); }
  }

  lemma ResponseSpaces(s: string, o: string, sep: string, r: string)
    requires LaidOut(s, o, sep, r)
    requires o != [] && Stripped(o)
    requires AllSpace(sep)
    requires Stripped(r)
    ensures var n := |OutputLabel| + 1;
            var q := n + |o| + |sep|;
            var d := q + |ReasoningLabel|;
            BackSpace(s, n + 1, q) == n + |o| && SkipSpace(s, d) == d + 1
  {
    ResponseSeparator(s, o, sep, r);
    ResponseReasoningStart(s, o, sep, r);
  }

  lemma ResponseSeparator(s: string, o: string, sep: string, r: string)
    requires LaidOut(s, o, sep, r)
    requires o != [] && Stripped(o)
    requires AllSpace(sep)
    ensures var n := |OutputLabel| + 1;
            BackSpace(s, n + 1, n + |o| + |sep|) == n + |o|
  {
    var n := |OutputLabel| + 1;
    var q := n + |o| + |sep|;
    forall k | n + |o| <= k < q ensures IsSpace(s[k]) {
      assert s[n + |o| + (k - n - |o|)] == sep[k - n - |o|];
    }
    assert s[n + |o| - 1] == s[n..n + |o|][|o| - 1];
    BackSpaceStops(s, n + 1, q, n + |o|);
  }

  lemma ResponseReasoningStart(s: string, o: string, sep: string, r: string)
    requires LaidOut(s, o, sep, r)
    requires Stripped(r)
    ensures var d := |OutputLabel| + 1 + |o| + |sep| + |ReasoningLabel|;
            SkipSpace(s, d) == d + 1
  {
    var d := |OutputLabel| + 1 + |o| + |sep| + |ReasoningLabel|;
    assert SpaceBetween(s, d, d + 1);
    if r != [] {
      assert s[d + 1] == s[d + 1..][0];
      SkipSpaceStops(s, d, d + 1);
    }
  }

  /** The example of a well-formed response. */
  lemma WellFormedExample()
    ensures ParseString("OUTPUT: A\nREASONING: B") == Success(("A", "B"))
  {
    assert Response("A", "\n", "B") == "OUTPUT: A\nREASONING: B";
    RoundTrip("A", "\n", "B");
  }

  /** Only whitespace after `REASONING:` still matches, and the reasoning is empty. */
  lemma BlankReasoning()
    ensures ParseString("OUTPUT: a REASONING: ") == Success(("a", ""))
  {
    assert Response("a", " ", "") == "OUTPUT: a REASONING: ";
    RoundTrip("a", " ", "");
  }

  lemma ReasoningStartsWithR(s: string, q: int)
    requires At(s, q, ReasoningLabel)
    ensures s[q] == 'R'
  {
    assert s[q] == s[q..q + |ReasoningLabel|][0];
  }

  /** Group 1 needs a character, so labels with nothing between them do not match. */
  lemma AdjacentLabelsFail()
    ensures ParseString("OUTPUT:REASONING: x").Failure?
  {
    var s := "OUTPUT:REASONING: x";
    assert s[8] == 'E';
    forall p, q | At(s, p, OutputLabel) && Delimits(s, q) ensures p + |OutputLabel| >= q {
      ReasoningStartsWithR(s, q);
    }
    ParseSucceedsIff(s);
  }

  /** A response with no `REASONING:` section fails. */
  lemma MissingReasoningFails()
    ensures ParseString("OUTPUT: just this").Failure?
  {
    var s := "OUTPUT: just this";
    assert forall i :: 0 <= i < |s| ==> s[i] != 'R';
    forall q | Delimits(s, q) ensures false {
      ReasoningStartsWithR(s, q);
    }
    ParseSucceedsIff(s);
  }

  /**
   * The delimiter is not always the first `REASONING:` after `OUTPUT:`: when
   * the output text itself starts with `REASONING:`, the greedy whitespace
   * after `OUTPUT:` makes the next one the delimiter.
   */
  lemma LeadingReasoningIsOutput()
    ensures ParseString("OUTPUT: REASONING: x REASONING: y") == Success(("REASONING: x", "y"))
  {
    var o := "REASONING: x";
    assert o[1] == 'E' && o[2] == 'A';
    forall k | 1 <= k < |o| ensures !At(o, k, ReasoningLabel) {
      if At(o, k, ReasoningLabel) {
        ReasoningStartsWithR(o, k);
      }
    }
    assert o[0] == 'R' && o[11] == 'x';
    assert Response(o, " ", "y") == "OUTPUT: REASONING: x REASONING: y";
    RoundTrip(o, " ", "y");
  }

  /** With a single `REASONING:` right after the whitespace, group 1 is that whitespace and the output is empty. */
  lemma EmptyOutput(s: string)
    requires s == OutputLabel + " " + ReasoningLabel + " x"
    ensures ParseString(s) == Success(("", "x"))
  {
    assert EmptyOutputLayout(s) by {
      assert s[..7] == OutputLabel;
      assert s[8..18] == ReasoningLabel;
    }
    EmptyOutputMatch(s);
    ParseOfMatch(s, Match(0, 7, 8, 8, 19, 20));
    assert s[7..8] == " " && s[19..20] == "x";
    StripUnique(" ", 1, 1);
    StripStripped("x");
  }

  /** The layout of `"OUTPUT: REASONING: x"`, character by character. */
  predicate EmptyOutputLayout(s: string) {
    |s| == 20 && s[..7] == OutputLabel && s[7] == ' ' && s[8..18] == ReasoningLabel &&
    s[18] == ' ' && s[19] == 'x'
  }

  lemma EmptyOutputMatch(s: string)
    requires EmptyOutputLayout(s)
    ensures FirstMatch(s) == Some(Match(0, 7, 8, 8, 19, 20))
  {
    assert FindFrom(s, OutputLabel, 0) == Some(0) by {
      assert s[0..7] == s[..7];
    }
    assert SkipSpace(s, 7) == 8 by {
      assert s[8] == s[8..18][0];
    }
    assert FindFrom(s, ReasoningLabel, 9).None? by {
      assert s[9] == s[8..18][1] && s[10] == s[8..18][2];
      if At(s, 9, ReasoningLabel) {
        ReasoningStartsWithR(s, 9);
      }
      if At(s, 10, ReasoningLabel) {
        ReasoningStartsWithR(s, 10);
      }
      assert FindFrom(s, ReasoningLabel, 11).None?;
    }
    assert At(s, 8, ReasoningLabel);
    assert BackSpace(s, 8, 8) == 8;
    assert SkipSpace(s, 18) == 19;
    FirstMatchFallback(s, 0, 8);
  }

  /**
   * A later `REASONING:` with nothing after it cannot delimit: group 2 needs a
   * character. The one right after the whitespace delimits instead, and the
   * trailing label stays in the reasoning.
   */
  lemma TrailingLabelIsReasoning(s: string)
    requires s == OutputLabel + " " + ReasoningLabel + " x " + ReasoningLabel
    ensures ParseString(s) == Success(("", "x " + ReasoningLabel))
  {
    TrailingLaidOut(s);
    TrailingLabelMatch(s);
    ParseOfMatch(s, Match(0, 7, 8, 8, 19, 31));
    StripUnique(" ", 1, 1);
    StripStripped("x " + ReasoningLabel);
  }

  lemma TrailingLaidOut(s: string)
    requires s == OutputLabel + " " + ReasoningLabel + " x " + ReasoningLabel
    ensures TrailingLayout(s) && s[7..8] == " " && s[19..31] == "x " + ReasoningLabel
  {
    assert s[..7] == OutputLabel;
    assert s[8..18] == ReasoningLabel;
    assert s[21..] == ReasoningLabel;
    assert s[19..31] == s[19..21] + s[21..];
    assert s[19..21] == "x ";
  }

  /** The layout of `"OUTPUT: REASONING: x REASONING:"`, character by character. */
  predicate TrailingLayout(s: string) {
    |s| == 31 && s[..7] == OutputLabel && s[7] == ' ' && s[8..18] == ReasoningLabel &&
    s[18] == ' ' && s[19] == 'x' && s[20] == ' ' && s[21..] == ReasoningLabel
  }

  lemma TrailingLabelMatch(s: string)
    requires TrailingLayout(s)
    ensures FirstMatch(s) == Some(Match(0, 7, 8, 8, 19, 31))
  {
    assert FindFrom(s, OutputLabel, 0) == Some(0) by {
      assert s[0..7] == s[..7];
    }
    assert SkipSpace(s, 7) == 8 by {
      assert s[8] == s[8..18][0];
    }
    TrailingLabelFound(s, 9);
    assert At(s, 8, ReasoningLabel);
    assert BackSpace(s, 8, 8) == 8;
    assert SkipSpace(s, 18) == 19;
  }

  lemma {:induction false} TrailingLabelFound(s: string, k: nat)
    requires TrailingLayout(s) && 9 <= k <= 21
    ensures FindFrom(s, ReasoningLabel, k) == Some(21)
    decreases 21 - k
  {
    if k < 21 {
      if k < 18 {
        assert s[k] == s[8..18][k - 8];
      }
      if At(s, k, ReasoningLabel) {
        ReasoningStartsWithR(s, k);
        assert false;
      }
      TrailingLabelFound(s, k + 1);
    } else {
      assert s[21..31] == s[21..];
    }
  }
}
