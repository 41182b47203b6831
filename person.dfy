/**
 * The PERSON pass: `re.finditer(r"\b([A-Z][a-z]+(?: [A-Z][a-z]+)*)\b", text)`
 * followed by the filter that keeps a match only when `len(name.split()) <= 4`.
 *
 * The regular-expression engine is modelled as it runs: one token
 * `[A-Z][a-z]+` taking its lower-case tail greedily, then the starred group
 * taken as often as possible, backtracking to the longest prefix that ends on
 * a word boundary. MatchIsLongestNameRun proves that this is the longest run
 * of capitalised tokens from the start offset that ends on a boundary.
 */
module PersonPass {
  import opened Wrappers
  import opened Text
  import opened Entities

  /** Matches with more words than this are dropped. */
  const MaxNameTokens := 4

  // ---------------------------------------------------------------------------
  // The language matched: `[A-Z][a-z]+( [A-Z][a-z]+)*`, described one
  // character at a time.

  /** The character at `k` of a name run is allowed by its predecessor. */
  predicate NameCharOk(s: string, k: int)
    requires 0 <= k < |s|
  {
    if k == 0 || s[k - 1] == ' ' then IsUpper(s[k])
    else IsLower(s[k]) || (s[k] == ' ' && IsLower(s[k - 1]))
  }

  /** `s` is one or more tokens `[A-Z][a-z]+`, separated by single spaces. */
  predicate IsNameRun(s: string)
  {
    && |s| >= 2
    && IsLower(s[|s| - 1])
    && forall k | 0 <= k < |s| :: NameCharOk(s, k)
  }

  /** The pattern without its leading `\b` accepts `[i, f)`: a name run that ends on a boundary. */
  predicate IsMatchEnd(s: string, i: int, f: int)
  {
    0 <= i < f <= |s| && AtBoundary(s, f) && IsNameRun(s[i..f])
  }

  /** `[i, e)` would be a match of the whole pattern, `\b` on both sides included. */
  predicate IsNameMatch(s: string, i: int, e: int)
  {
    IsMatchEnd(s, i, e) && AtBoundary(s, i)
  }

  // ---------------------------------------------------------------------------
  // The engine.

  /** The end of the run of lower-case letters that starts at `j`. */
  function LowerRunEnd(s: string, j: nat): (e: nat)
    requires j <= |s|
    ensures j <= e <= |s|
    ensures forall k | j <= k < e :: IsLower(s[k])
    ensures e == |s| || !IsLower(s[e])
    decreases |s| - j
  {
    if j < |s| && IsLower(s[j]) then LowerRunEnd(s, j + 1) else j
  }

  /** One token `[A-Z][a-z]+` at `i`, its tail taken greedily: the offset it ends at. */
  function TokenEnd(s: string, i: nat): (r: Option<nat>)
    requires i <= |s|
    ensures r.Some? ==> i + 2 <= r.value <= |s|
  {
    if i + 1 < |s| && IsUpper(s[i]) && IsLower(s[i + 1]) then Some(LowerRunEnd(s, i + 2))
    else None
  }

  /**
   * `(?: [A-Z][a-z]+)*\b` after a token that ends at `e`: one more token is
   * tried first (the star is greedy), and only when no continuation of it can
   * finish on a boundary does the engine fall back to `\b` at `e`.
   */
  function ExtendRun(s: string, e: nat): (r: Option<nat>)
    requires e <= |s|
    ensures r.Some? ==> e <= r.value <= |s|
    decreases |s| - e
  {
    var next := if e < |s| && s[e] == ' ' then TokenEnd(s, e + 1) else None;
    var longer := if next.Some? then ExtendRun(s, next.value) else None;
    if longer.Some? then longer
    else if AtBoundary(s, e) then Some(e)
    else None
  }

  /** The end of the match anchored at `i`, if the pattern matches there. */
  function MatchAt(s: string, i: nat): (r: Option<nat>)
    requires i <= |s|
    ensures r.Some? ==> i + 2 <= r.value <= |s|
  {
    if !AtBoundary(s, i) then None
    else match TokenEnd(s, i)
      case None => None
      case Some(e) => ExtendRun(s, e)
  }

  // ---------------------------------------------------------------------------
  // `finditer` and the token-count filter.

  /**
   * The PERSON spans found by scanning from `pos`: at each offset the pattern
   * is tried; a match is consumed whole (so matches never overlap) and kept
   * only if its text has at most MaxNameTokens words; otherwise the scan moves
   * on by one character.
   */
  function PersonScan(s: string, pos: nat): seq<Entity>
    requires pos <= |s|
    decreases |s| - pos
  {
    if pos == |s| then []
    else match MatchAt(s, pos)
      case None => PersonScan(s, pos + 1)
      case Some(e) =>
        (if WordCount(s[pos..e]) <= MaxNameTokens then [Entity(pos, e, Person, s[pos..e])] else [])
        + PersonScan(s, e)
  }

  /** The PERSON block of the extractor's output. */
  function PersonSpans(s: string): seq<Entity>
  {
    PersonScan(s, 0)
  }

  // ---------------------------------------------------------------------------
  // The engine computes the longest name run that ends on a boundary.

  /** A single token is a name run. */
  lemma TokenIsNameRun(s: string, i: nat)
    requires i <= |s| && TokenEnd(s, i).Some?
    ensures IsNameRun(s[i..TokenEnd(s, i).value])
  {
    var e := TokenEnd(s, i).value;
    var t := s[i..e];
    forall k | 0 <= k < |t| ensures NameCharOk(t, k) {
      if k > 0 { assert t[k] == s[i + k] && t[k - 1] == s[i + k - 1]; }
    }
  }

  /** A name run followed by a space and a token is a longer name run. */
  lemma ExtendNameRun(s: string, i: nat, e: nat)
    requires i < e < |s| && IsNameRun(s[i..e]) && s[e] == ' ' && TokenEnd(s, e + 1).Some?
    ensures IsNameRun(s[i..TokenEnd(s, e + 1).value])
  {
    var e2 := TokenEnd(s, e + 1).value;
    var t, u := s[i..e], s[i..e2];
    assert IsLower(s[e + 2]) && e2 > e + 2;
    assert u[|u| - 1] == s[e2 - 1];
    forall k | 0 <= k < |u| ensures NameCharOk(u, k) {
      assert u[k] == s[i + k];
      if k > 0 { assert u[k - 1] == s[i + k - 1]; }
      if k < |t| {
        assert t[k] == s[i + k];
        if k > 0 { assert t[k - 1] == s[i + k - 1]; }
        assert NameCharOk(t, k);
      } else if k == |t| {
        assert t[|t| - 1] == s[e - 1];
      }
    }
  }

  /**
   * If a name run from `i` ends at a word end `e` that is not last, the next
   * characters are a space and a token, and that token ends no later than the longer run.
   */
  lemma BeyondWordEnd(s: string, i: nat, e: nat, f: nat)
    requires IsMatchEnd(s, i, f)
    requires i < e < f && IsNameRun(s[i..e]) && (e == |s| || !IsLower(s[e]))
    ensures e < |s| && s[e] == ' ' && TokenEnd(s, e + 1).Some? && TokenEnd(s, e + 1).value <= f
  {
    var t, u := s[i..e], s[i..f];
    var d := e - i;
    assert u[d - 1] == t[d - 1] == s[e - 1];
    assert NameCharOk(u, d) && u[d] == s[e];
    assert s[e] == ' ';
    assert d + 1 < |u|;
    assert NameCharOk(u, d + 1) && u[d + 1] == s[e + 1];
    assert d + 2 < |u|;
    assert NameCharOk(u, d + 2) && u[d + 2] == s[e + 2];
    assert u[|u| - 1] == s[f - 1];
  }

  /** Every match end from `i` lies at or after the end of the first token. */
  lemma FirstTokenEnd(s: string, i: nat, f: nat)
    requires IsMatchEnd(s, i, f)
    ensures TokenEnd(s, i).Some? && TokenEnd(s, i).value <= f
  {
    var u := s[i..f];
    assert NameCharOk(u, 0) && u[0] == s[i];
    assert NameCharOk(u, 1) && u[1] == s[i + 1];
    assert u[|u| - 1] == s[f - 1];
  }

  /** ExtendRun, applied at a word end of a name run from `i`, returns the last match end. */
  lemma {:induction false} ExtendRunIsLongest(s: string, i: nat, e: nat)
    requires i < e <= |s| && IsNameRun(s[i..e]) && (e == |s| || !IsLower(s[e]))
    ensures ExtendRun(s, e).Some? ==>
      IsMatchEnd(s, i, ExtendRun(s, e).value) &&
      forall f | ExtendRun(s, e).value < f <= |s| :: !IsMatchEnd(s, i, f)
    ensures ExtendRun(s, e).None? ==> forall f | e <= f <= |s| :: !IsMatchEnd(s, i, f)
    decreases |s| - e
  {
    var next := if e < |s| && s[e] == ' ' then TokenEnd(s, e + 1) else None;
    if next.Some? {
      ExtendNameRun(s, i, e);
      ExtendRunIsLongest(s, i, next.value);
    }
    forall f | e < f <= |s| && IsMatchEnd(s, i, f)
      ensures next.Some? && next.value <= f
    {
      BeyondWordEnd(s, i, e, f);
    }
  }

  /**
   * The regular-expression match at `i` is the longest name run from `i` that
   * has `\b` at both ends; there is no match exactly when there is no such run.
   */
  lemma MatchIsLongestNameRun(s: string, i: nat)
    requires i <= |s|
    ensures MatchAt(s, i).Some? ==>
      IsNameMatch(s, i, MatchAt(s, i).value) &&
      forall f | MatchAt(s, i).value < f <= |s| :: !IsNameMatch(s, i, f)
    ensures MatchAt(s, i).None? ==> forall f | i < f <= |s| :: !IsNameMatch(s, i, f)
  {
    if AtBoundary(s, i) {
      forall f | i < f <= |s| && IsMatchEnd(s, i, f) ensures TokenEnd(s, i).Some? && TokenEnd(s, i).value <= f {
        FirstTokenEnd(s, i, f);
      }
      if TokenEnd(s, i).Some? {
        TokenIsNameRun(s, i);
        ExtendRunIsLongest(s, i, TokenEnd(s, i).value);
      }
    }
  }

  // ---------------------------------------------------------------------------
  // Properties of the PERSON block.

  /** Every PERSON span found from `pos` is a span of the text, labelled PERSON, starting at or after `pos`. */
  lemma {:induction false} PersonScanSound(s: string, pos: nat)
    requires pos <= |s|
    ensures forall e | e in PersonScan(s, pos) :: e.kind == Person && pos <= e.start && SpanOf(e, s)
    decreases |s| - pos
  {
    if pos < |s| {
      match MatchAt(s, pos)
      case None => PersonScanSound(s, pos + 1);
      case Some(f) => PersonScanSound(s, f);
    }
  }

  /** No name run has a whitespace-only text, so it has at least one word. */
  lemma NameRunHasWord(t: string)
    requires IsNameRun(t)
    ensures WordCount(t) >= 1
  {
    assert NameCharOk(t, 0) && !IsWhitespace(t[0]);
  }

  /** In a name run, every prefix has one more word than the spaces before its last character. */
  lemma {:induction false} NameRunPrefixWords(t: string, n: nat)
    requires IsNameRun(t) && 1 <= n <= |t|
    ensures WordCount(t[..n]) == SpaceCount(t[..n - 1]) + 1
  {
    assert NameCharOk(t, 0);
    if n == 1 {
      assert t[..1][..0] == [];
    } else {
      NameRunPrefixWords(t, n - 1);
      assert t[..n][..n - 1] == t[..n - 1];
      assert t[..n - 1][..n - 2] == t[..n - 2];
      NameRunWordStart(t, n - 1);
      assert StartsWord(t[..n], n - 1) <==> t[n - 2] == ' ';
    }
  }

  /** Inside a name run, a word of `str.split()` starts exactly after a space. */
  lemma NameRunWordStart(t: string, k: nat)
    requires IsNameRun(t) && 1 <= k < |t|
    ensures !IsWhitespace(t[k]) && IsWhitespace(t[k - 1]) <==> t[k - 1] == ' '
  {
    assert NameCharOk(t, k) && NameCharOk(t, k - 1);
  }

  /** A name run has one word per token: one more than its spaces. */
  lemma NameRunWordCount(t: string)
    requires IsNameRun(t)
    ensures WordCount(t) == SpaceCount(t) + 1
  {
    NameRunPrefixWords(t, |t|);
    assert t[..|t|] == t;
  }

  /**
   * Every PERSON span is the whole regular-expression match at its start, so
   * it is the longest boundary-terminated name run there (never a truncated
   * one), and it has between one and MaxNameTokens words.
   */
  lemma {:induction false} PersonScanShape(s: string, pos: nat)
    requires pos <= |s|
    ensures forall e | e in PersonScan(s, pos) ::
      && SpanOf(e, s)
      && MatchAt(s, e.start) == Some(e.end)
      && IsNameMatch(s, e.start, e.end)
      && (forall f | e.end < f <= |s| :: !IsNameMatch(s, e.start, f))
      && IsNameRun(e.text)
      && 1 <= WordCount(e.text) <= MaxNameTokens
    decreases |s| - pos
  {
    if pos < |s| {
      match MatchAt(s, pos)
      case None => PersonScanShape(s, pos + 1);
      case Some(f) =>
        MatchIsLongestNameRun(s, pos);
        if IsNameRun(s[pos..f]) { NameRunHasWord(s[pos..f]); }
        PersonScanShape(s, f);
    }
  }

  /** Every PERSON span has one to MaxNameTokens tokens: at most three spaces. */
  lemma PersonSpanTokens(s: string)
    ensures forall e | e in PersonSpans(s) :: WordCount(e.text) == SpaceCount(e.text) + 1 <= MaxNameTokens
  {
    PersonScanShape(s, 0);
    forall e | e in PersonSpans(s) ensures WordCount(e.text) == SpaceCount(e.text) + 1 {
      NameRunWordCount(e.text);
    }
  }

  /** PERSON spans come in text order and do not overlap one another. */
  lemma {:induction false} PersonScanOrdered(s: string, pos: nat)
    requires pos <= |s|
    ensures InTextOrder(PersonScan(s, pos))
    decreases |s| - pos
  {
    if pos < |s| {
      match MatchAt(s, pos)
      case None => PersonScanOrdered(s, pos + 1);
      case Some(f) =>
        PersonScanOrdered(s, f);
        PersonScanSound(s, f);
        if WordCount(s[pos..f]) <= MaxNameTokens {
          ConsInTextOrder(Entity(pos, f, Person, s[pos..f]), PersonScan(s, f));
        }
    }
  }


  /** `[j, k)` is a name run. */
  predicate NameRunBetween(s: string, j: int, k: int)
  {
    0 <= j <= k <= |s| && IsNameRun(s[j..k])
  }

  /** The text before `i` is a name run and one space: a match that started earlier could reach `i`. */
  predicate FollowsName(s: string, i: int)
  {
    1 < i <= |s| && s[i - 1] == ' ' && NameRunEndsAt(s, i - 1)
  }

  /** Some name run ends at `k`. */
  predicate NameRunEndsAt(s: string, k: int)
  {
    exists j | 0 <= j < k :: NameRunBetween(s, j, k)
  }

  /** A match found at `j` that covers the start of another match at `i` means `i` follows a name. */
  lemma CoveredMatchFollowsName(s: string, j: nat, f: nat, i: nat)
    requires j < i < f <= |s| && MatchAt(s, j) == Some(f) && MatchAt(s, i).Some?
    ensures FollowsName(s, i)
    ensures s[i - 1] == ' ' && NameRunBetween(s, j, i - 1)
  {
    MatchIsLongestNameRun(s, j);
    var u := s[j..f];
    var d := i - j;
    assert IsUpper(s[i]) && AtBoundary(s, i);
    assert u[d - 1] == s[i - 1];
    assert NameCharOk(u, d - 1);
    assert NameCharOk(u, 0) && NameCharOk(u, 1);
    assert s[i - 1] == ' ' && d >= 3;
    var t := s[j..i - 1];
    forall k | 0 <= k < |t| ensures NameCharOk(t, k) {
      assert t[k] == u[k];
      assert NameCharOk(u, k);
      if k > 0 { assert t[k - 1] == u[k - 1]; }
    }
    assert t[|t| - 1] == u[d - 2];
    assert NameRunBetween(s, j, i - 1);
  }

  /**
   * Scanning from any `pos <= i` arrives at `i` when `i` starts a match that
   * does not follow a name: every span found on the way ends by `i`, and
   * every span found from `i` on is found as well.
   */
  lemma {:induction false} ScanReaches(s: string, pos: nat, i: nat)
    requires pos <= i <= |s| && MatchAt(s, i).Some? && !FollowsName(s, i)
    ensures forall e | e in PersonScan(s, pos) :: e.end <= i || e in PersonScan(s, i)
    ensures forall e | e in PersonScan(s, i) :: e in PersonScan(s, pos)
    decreases i - pos
  {
    if pos < i {
      match MatchAt(s, pos)
      case None => ScanReaches(s, pos + 1, i);
      case Some(f) =>
        if i < f { CoveredMatchFollowsName(s, pos, f, i); }
        ScanReaches(s, f, i);
    }
  }

  /**
   * Completeness of the PERSON pass: a match of at most MaxNameTokens words
   * that does not follow a name yields a PERSON span.
   */
  lemma PersonFound(s: string, i: nat)
    requires i <= |s| && MatchAt(s, i).Some? && !FollowsName(s, i)
    requires WordCount(s[i..MatchAt(s, i).value]) <= MaxNameTokens
    ensures Entity(i, MatchAt(s, i).value, Person, s[i..MatchAt(s, i).value]) in PersonSpans(s)
  {
    ScanReaches(s, 0, i);
  }

  /** A name run, a space and another name run make one name run. */
  lemma JoinNameRuns(s: string, j: nat, m: nat, f: nat)
    requires j < m && m + 1 < f <= |s| && s[m] == ' '
    requires IsNameRun(s[j..m]) && IsNameRun(s[m + 1..f])
    ensures IsNameRun(s[j..f])
  {
    var t, v, u := s[j..m], s[m + 1..f], s[j..f];
    var d := m - j;
    assert u[|u| - 1] == v[|v| - 1];
    forall k | 0 <= k < |u| ensures NameCharOk(u, k) {
      assert u[k] == s[j + k];
      if k > 0 { assert u[k - 1] == s[j + k - 1]; }
      if k < d {
        assert t[k] == s[j + k];
        if k > 0 { assert t[k - 1] == s[j + k - 1]; }
        assert NameCharOk(t, k);
      } else if k == d {
        assert t[d - 1] == s[m - 1];
      } else {
        assert v[k - d - 1] == s[k + j];
        if k > d + 1 { assert v[k - d - 2] == s[k + j - 1]; }
        assert NameCharOk(v, k - d - 1);
      }
    }
  }

  /**
   * A match [j, g) that covers the start of a longer-than-allowed match
   * [i, f) reaches at least to f, and is dropped as well.
   */
  lemma CoveringMatchDropped(s: string, j: nat, g: nat, i: nat)
    requires j < i < g <= |s| && MatchAt(s, j) == Some(g) && MatchAt(s, i).Some?
    requires WordCount(s[i..MatchAt(s, i).value]) > MaxNameTokens
    ensures MatchAt(s, i).value <= g && WordCount(s[j..g]) > MaxNameTokens
  {
    CoverReachesEnd(s, j, g, i);
    WordCountWithin(s, j, i, MatchAt(s, i).value, g);
  }

  /** A match [j, g) that covers the start of a match [i, f) reaches at least to f. */
  lemma CoverReachesEnd(s: string, j: nat, g: nat, i: nat)
    requires j < i < g <= |s| && MatchAt(s, j) == Some(g) && MatchAt(s, i).Some?
    ensures MatchAt(s, i).value <= g && s[i - 1] == ' '
  {
    var f := MatchAt(s, i).value;
    CoveredMatchFollowsName(s, j, g, i);
    MatchIsLongestNameRun(s, i);
    MatchIsLongestNameRun(s, j);
    JoinNameRuns(s, j, i - 1, f);
    assert IsNameMatch(s, j, f);
  }

  /**
   * Scanning from any `pos <= i`, where `[i, f)` is a match of more than
   * MaxNameTokens words, reports no span that overlaps `[i, f)`.
   */
  lemma {:induction false} LongRunSkipped(s: string, pos: nat, i: nat)
    requires pos <= i <= |s| && MatchAt(s, i).Some?
    requires WordCount(s[i..MatchAt(s, i).value]) > MaxNameTokens
    ensures forall e | e in PersonScan(s, pos) :: e.end <= i || MatchAt(s, i).value <= e.start
    decreases i - pos
  {
    var f := MatchAt(s, i).value;
    if pos == i {
      PersonScanSound(s, f);
    } else {
      match MatchAt(s, pos)
      case None => LongRunSkipped(s, pos + 1, i);
      case Some(g) =>
        if g <= i {
          LongRunSkipped(s, g, i);
        } else {
          CoveringMatchDropped(s, pos, g, i);
          PersonScanSound(s, g);
        }
    }
  }

  /**
   * A match of more than MaxNameTokens words is dropped whole: no PERSON span
   * overlaps it, so in particular none of its first four tokens is reported.
   */
  lemma LongRunDropped(s: string, i: nat)
    requires i <= |s| && MatchAt(s, i).Some?
    requires WordCount(s[i..MatchAt(s, i).value]) > MaxNameTokens
    ensures forall e | e in PersonSpans(s) :: e.end <= i || MatchAt(s, i).value <= e.start
  {
    LongRunSkipped(s, 0, i);
  }
}
