/**
 * The LOCATION and LAW passes: for each keyword of a fixed list, in list
 * order, `re.finditer(keyword, text, flags=re.IGNORECASE)`. No keyword holds a
 * regular-expression metacharacter, so each search is a case-insensitive
 * substring search, leftmost first and without overlap for one keyword.
 */
module KeywordPass {
  import opened Text
  import opened Entities

  const LocationKeywords: seq<string> := [
    "Madrid", "Barcelona", "Spain", "Mexico", "Colombia", "Argentina",
    "Lima", "USA", "Peru", "Bogota", "Ecuador", "Chile", "Brazil"
  ]

  const LawKeywords: seq<string> := [
    "murder", "trafficking", "possession", "kidnapping", "arrested",
    "sentenced", "convicted", "assault", "robbery", "fraud", "charged",
    "indicted", "prosecutor"
  ]

  /** Keyword lists the passes can search: no empty keyword, no two equal ignoring case. */
  predicate ValidKeywords(kws: seq<string>)
  {
    && (forall k | 0 <= k < |kws| :: |kws[k]| > 0)
    && (forall a, b | 0 <= a < b < |kws| :: !EqualsIgnoreCase(kws[a], kws[b]))
  }

  /** `kw` occurs at `p`, ignoring case. */
  predicate OccursAt(s: string, kw: string, p: int)
  {
    0 <= p && p + |kw| <= |s| && EqualsIgnoreCase(s[p..p + |kw|], kw)
  }

  /** The spans of one `finditer` over `s` from `pos`, with `kind` as their label. */
  function KeywordScan(s: string, kw: string, kind: Label, pos: nat): seq<Entity>
    requires |kw| > 0 && pos <= |s|
    decreases |s| - pos
  {
    if pos + |kw| > |s| then []
    else if OccursAt(s, kw, pos) then
      [Entity(pos, pos + |kw|, kind, s[pos..pos + |kw|])] + KeywordScan(s, kw, kind, pos + |kw|)
    else KeywordScan(s, kw, kind, pos + 1)
  }

  /** All the keywords' spans, grouped by keyword in list order. */
  function KeywordSpans(s: string, kws: seq<string>, kind: Label): seq<Entity>
    requires forall k | 0 <= k < |kws| :: |kws[k]| > 0
  {
    if kws == [] then []
    else KeywordSpans(s, kws[..|kws| - 1], kind) + KeywordScan(s, kws[|kws| - 1], kind, 0)
  }

  /** The position of the keyword that `t` equals ignoring case, or `|kws|` if there is none. */
  function KeywordIndex(kws: seq<string>, t: string): (k: nat)
    ensures k <= |kws|
    ensures k < |kws| ==> EqualsIgnoreCase(t, kws[k])
  {
    if kws == [] then 0
    else if EqualsIgnoreCase(t, kws[0]) then 0
    else 1 + KeywordIndex(kws[1..], t)
  }

  // ---------------------------------------------------------------------------
  // Properties.

  /** A keyword span is a span of the text, labelled `kind`, whose text equals the keyword ignoring case. */
  predicate IsKeywordSpan(e: Entity, s: string, kw: string, kind: Label)
  {
    e.kind == kind && e.end == e.start + |kw| && SpanOf(e, s) && EqualsIgnoreCase(e.text, kw)
  }

  /** Soundness of one search: every reported span is an occurrence of the keyword at or after `pos`. */
  lemma {:induction false} KeywordScanSound(s: string, kw: string, kind: Label, pos: nat)
    requires |kw| > 0 && pos <= |s|
    ensures forall e | e in KeywordScan(s, kw, kind, pos) :: pos <= e.start && IsKeywordSpan(e, s, kw, kind)
    decreases |s| - pos
  {
    if pos + |kw| <= |s| {
      if OccursAt(s, kw, pos) {
        KeywordScanSound(s, kw, kind, pos + |kw|);
      } else {
        KeywordScanSound(s, kw, kind, pos + 1);
      }
    }
  }

  /**
   * Soundness of a pass: every span of the block is a span of the text with
   * the pass's label, and its text equals one of the list's keywords ignoring case.
   */
  lemma {:induction false} KeywordSpansSound(s: string, kws: seq<string>, kind: Label)
    requires forall k | 0 <= k < |kws| :: |kws[k]| > 0
    ensures forall e | e in KeywordSpans(s, kws, kind) ::
      e.kind == kind && SpanOf(e, s) && exists kw | kw in kws :: EqualsIgnoreCase(e.text, kw)
  {
    if kws != [] {
      var front, kw := kws[..|kws| - 1], kws[|kws| - 1];
      KeywordSpansSound(s, front, kind);
      KeywordScanSound(s, kw, kind, 0);
      forall e | e in KeywordSpans(s, kws, kind)
        ensures e.kind == kind && SpanOf(e, s) && exists kw | kw in kws :: EqualsIgnoreCase(e.text, kw)
      {
        if e in KeywordSpans(s, front, kind) {
          var w :| w in front && EqualsIgnoreCase(e.text, w);
          assert w in kws;
        } else {
          assert IsKeywordSpan(e, s, kw, kind);
          assert kw in kws;
        }
      }
    }
  }

  /** The spans of one keyword come in text order and do not overlap. */
  lemma {:induction false} KeywordScanOrdered(s: string, kw: string, kind: Label, pos: nat)
    requires |kw| > 0 && pos <= |s|
    ensures InTextOrder(KeywordScan(s, kw, kind, pos))
    decreases |s| - pos
  {
    if pos + |kw| <= |s| {
      if OccursAt(s, kw, pos) {
        KeywordScanOrdered(s, kw, kind, pos + |kw|);
        KeywordScanSound(s, kw, kind, pos + |kw|);
        ConsInTextOrder(Entity(pos, pos + |kw|, kind, s[pos..pos + |kw|]), KeywordScan(s, kw, kind, pos + |kw|));
      } else {
        KeywordScanOrdered(s, kw, kind, pos + 1);
      }
    }
  }



  /**
   * Every occurrence at or after `pos` is reported, unless it starts strictly
   * inside an occurrence already reported (the matches of one keyword never overlap).
   */
  lemma {:induction false} KeywordScanComplete(s: string, kw: string, kind: Label, pos: nat, p: int)
    requires |kw| > 0 && pos <= p && pos <= |s| && OccursAt(s, kw, p)
    ensures || Entity(p, p + |kw|, kind, s[p..p + |kw|]) in KeywordScan(s, kw, kind, pos)
            || exists e | e in KeywordScan(s, kw, kind, pos) :: e.start < p < e.end
    decreases |s| - pos
  {
    var r := KeywordScan(s, kw, kind, pos);
    if pos < p {
      if OccursAt(s, kw, pos) {
        if p < pos + |kw| {
          assert r[0].start < p < r[0].end;
        } else {
          KeywordScanComplete(s, kw, kind, pos + |kw|, p);
        }
      } else {
        KeywordScanComplete(s, kw, kind, pos + 1, p);
      }
    }
  }

  /** No proper suffix of `kw` equals its prefix of the same length, ignoring case. */
  predicate SelfOverlapFree(kw: string)
  {
    forall d | 0 < d < |kw| :: !EqualsIgnoreCase(kw[d..], kw[..|kw| - d])
  }

  /** Two occurrences of a keyword that overlap give a border of the keyword. */
  lemma OverlapIsBorder(s: string, kw: string, q: int, p: int)
    requires OccursAt(s, kw, q) && OccursAt(s, kw, p) && q < p < q + |kw|
    ensures !SelfOverlapFree(kw)
  {
    var d := p - q;
    var a, b := kw[d..], kw[..|kw| - d];
    forall k | 0 <= k < |a| ensures ToLower(a[k]) == ToLower(b[k]) {
      assert s[q..q + |kw|][d + k] == s[p..p + |kw|][k];
    }
    assert EqualsIgnoreCase(a, b);
  }

  /** For a keyword without self-overlap, every occurrence from `pos` on is reported. */
  lemma KeywordScanFindsAll(s: string, kw: string, kind: Label, pos: nat, p: int)
    requires |kw| > 0 && SelfOverlapFree(kw) && pos <= p && pos <= |s| && OccursAt(s, kw, p)
    ensures Entity(p, p + |kw|, kind, s[p..p + |kw|]) in KeywordScan(s, kw, kind, pos)
  {
    KeywordScanComplete(s, kw, kind, pos, p);
    KeywordScanSound(s, kw, kind, pos);
    var r := KeywordScan(s, kw, kind, pos);
    if e :| e in r && e.start < p < e.end {
      OverlapIsBorder(s, kw, e.start, p);
    }
  }

  /** With a valid list, a span matched by keyword `k` has keyword index `k`. */
  lemma {:induction false} IndexOfMatched(kws: seq<string>, k: nat, t: string)
    requires ValidKeywords(kws) && k < |kws| && EqualsIgnoreCase(t, kws[k])
    ensures KeywordIndex(kws, t) == k
  {
    if k > 0 {
      if EqualsIgnoreCase(t, kws[0]) {
        EqualsIgnoreCaseSymmetric(t, kws[0]);
        EqualsIgnoreCaseTransitive(kws[0], t, kws[k]);
        assert false;
      }
      assert ValidKeywords(kws[1..]) by {
        forall a, b | 0 <= a < b < |kws[1..]| ensures !EqualsIgnoreCase(kws[1..][a], kws[1..][b]) {
          assert kws[1..][a] == kws[a + 1] && kws[1..][b] == kws[b + 1];
        }
      }
      IndexOfMatched(kws[1..], k - 1, t);
    }
  }

  /** `a` comes before `b` in the keyword-list order, then by offset. */
  predicate KeywordPrecedes(kws: seq<string>, a: Entity, b: Entity)
  {
    || KeywordIndex(kws, a.text) < KeywordIndex(kws, b.text)
    || (KeywordIndex(kws, a.text) == KeywordIndex(kws, b.text) && a.end <= b.start)
  }

  /**
   * The spans of the first `n` keywords are ordered by keyword position in the
   * list, then by offset, and each matched one of those `n` keywords.
   */
  lemma {:induction false} KeywordSpansOrderedPrefix(s: string, kws: seq<string>, kind: Label, n: nat)
    requires ValidKeywords(kws) && n <= |kws|
    ensures forall e | e in KeywordSpans(s, kws[..n], kind) :: KeywordIndex(kws, e.text) < n
    ensures forall a, b | 0 <= a < b < |KeywordSpans(s, kws[..n], kind)| ::
      KeywordPrecedes(kws, KeywordSpans(s, kws[..n], kind)[a], KeywordSpans(s, kws[..n], kind)[b])
  {
    if n > 0 {
      var kw := kws[n - 1];
      assert kws[..n][..n - 1] == kws[..n - 1];
      var front, last := KeywordSpans(s, kws[..n - 1], kind), KeywordScan(s, kw, kind, 0);
      assert KeywordSpans(s, kws[..n], kind) == front + last;
      KeywordSpansOrderedPrefix(s, kws, kind, n - 1);
      KeywordScanOrdered(s, kw, kind, 0);
      KeywordScanSound(s, kw, kind, 0);
      forall e | e in last ensures KeywordIndex(kws, e.text) == n - 1 {
        assert IsKeywordSpan(e, s, kw, kind);
        IndexOfMatched(kws, n - 1, e.text);
      }
      var r := front + last;
      forall a, b | 0 <= a < b < |r| ensures KeywordPrecedes(kws, r[a], r[b]) {
        if b < |front| {
          assert r[a] == front[a] && r[b] == front[b];
        } else if a < |front| {
          assert r[a] in front && r[b] in last;
        } else {
          assert r[a] == last[a - |front|] && r[b] == last[b - |front|];
          assert r[a] in last && r[b] in last;
        }
      }
    }
  }

  /** The whole keyword block is ordered by keyword position, then by offset. */
  lemma KeywordSpansOrdered(s: string, kws: seq<string>, kind: Label)
    requires ValidKeywords(kws)
    ensures forall e | e in KeywordSpans(s, kws, kind) :: KeywordIndex(kws, e.text) < |kws|
    ensures forall a, b | 0 <= a < b < |KeywordSpans(s, kws, kind)| ::
      KeywordPrecedes(kws, KeywordSpans(s, kws, kind)[a], KeywordSpans(s, kws, kind)[b])
  {
    KeywordSpansOrderedPrefix(s, kws, kind, |kws|);
    assert kws[..|kws|] == kws;
  }

  /** Every occurrence of a self-overlap-free keyword of the list yields a span in the block. */
  lemma KeywordSpansFindAll(s: string, kws: seq<string>, kind: Label, k: nat, p: int)
    requires (forall j | 0 <= j < |kws| :: |kws[j]| > 0) && k < |kws|
    requires SelfOverlapFree(kws[k]) && OccursAt(s, kws[k], p)
    ensures Entity(p, p + |kws[k]|, kind, s[p..p + |kws[k]|]) in KeywordSpans(s, kws, kind)
  {
    KeywordScanFindsAll(s, kws[k], kind, 0, p);
    KeywordSpansContain(s, kws, kind, k, Entity(p, p + |kws[k]|, kind, s[p..p + |kws[k]|]));
  }

  /** Every occurrence of a keyword of the list yields a span in the block, or lies strictly inside an earlier span of the same keyword. */
  lemma KeywordSpansCover(s: string, kws: seq<string>, kind: Label, k: nat, p: int)
    requires (forall j | 0 <= j < |kws| :: |kws[j]| > 0) && k < |kws| && OccursAt(s, kws[k], p)
    ensures || Entity(p, p + |kws[k]|, kind, s[p..p + |kws[k]|]) in KeywordSpans(s, kws, kind)
            || exists e | e in KeywordSpans(s, kws, kind) :: IsKeywordSpan(e, s, kws[k], kind) && e.start < p < e.end
  {
    KeywordScanComplete(s, kws[k], kind, 0, p);
    KeywordScanSound(s, kws[k], kind, 0);
    if e :| e in KeywordScan(s, kws[k], kind, 0) && e.start < p < e.end {
      KeywordSpansContain(s, kws, kind, k, e);
      assert IsKeywordSpan(e, s, kws[k], kind);
    } else {
      KeywordSpansContain(s, kws, kind, k, Entity(p, p + |kws[k]|, kind, s[p..p + |kws[k]|]));
    }
  }

  /** The text of any span of the block matches, up to ASCII case, the keyword at a position of the list. */
  lemma KeywordSpanText(s: string, kws: seq<string>, kind: Label, e: Entity)
    requires ValidKeywords(kws) && e in KeywordSpans(s, kws, kind)
    ensures KeywordIndex(kws, e.text) < |kws|
  {
    KeywordSpansOrdered(s, kws, kind);
  }

  /** The empty text has no keyword spans. */
  lemma {:induction false} KeywordSpansOfEmptyText(kws: seq<string>, kind: Label)
    requires forall k | 0 <= k < |kws| :: |kws[k]| > 0
    ensures KeywordSpans("", kws, kind) == []
  {
    if kws != [] {
      KeywordSpansOfEmptyText(kws[..|kws| - 1], kind);
    }
  }

  /** Every span reported for keyword `kws[k]` is part of the keyword block. */
  lemma {:induction false} KeywordSpansContain(s: string, kws: seq<string>, kind: Label, k: nat, e: Entity)
    requires (forall j | 0 <= j < |kws| :: |kws[j]| > 0) && k < |kws|
    requires e in KeywordScan(s, kws[k], kind, 0)
    ensures e in KeywordSpans(s, kws, kind)
  {
    if k < |kws| - 1 {
      var front := kws[..|kws| - 1];
      assert front[k] == kws[k];
      KeywordSpansContain(s, front, kind, k, e);
    }
  }

  // ---------------------------------------------------------------------------
  // Facts about the two fixed lists.

  lemma LocationKeywordsValid()
    ensures ValidKeywords(LocationKeywords)
  {
    var kws := LocationKeywords;
    forall a, b | 0 <= a < b < |kws| ensures !EqualsIgnoreCase(kws[a], kws[b]) {
      if |kws[a]| == |kws[b]| {
        if ToLower(kws[a][0]) != ToLower(kws[b][0]) { DifferIgnoringCase(kws[a], kws[b], 0); }
        else { DifferIgnoringCase(kws[a], kws[b], 1); }
      }
    }
  }

  lemma LawKeywordsValid()
    ensures ValidKeywords(LawKeywords)
  {
    var kws := LawKeywords;
    forall a, b | 0 <= a < b < |kws| ensures !EqualsIgnoreCase(kws[a], kws[b]) {
      if |kws[a]| == |kws[b]| {
        if ToLower(kws[a][0]) != ToLower(kws[b][0]) { DifferIgnoringCase(kws[a], kws[b], 0); }
        else { DifferIgnoringCase(kws[a], kws[b], 1); }
      }
    }
  }

  /** A border of length `|kw| - d` fails at one of its first two characters. */
  lemma NoBorderAt(kw: string, d: nat)
    requires 0 < d < |kw|
    requires ToLower(kw[d]) != ToLower(kw[0]) || (d + 1 < |kw| && ToLower(kw[d + 1]) != ToLower(kw[1]))
    ensures !EqualsIgnoreCase(kw[d..], kw[..|kw| - d])
  {
    if ToLower(kw[d]) != ToLower(kw[0]) {
      DifferIgnoringCase(kw[d..], kw[..|kw| - d], 0);
    } else {
      DifferIgnoringCase(kw[d..], kw[..|kw| - d], 1);
    }
  }

  /** "Argentina" begins and ends with an `a`: two of its occurrences can share a letter. */
  lemma ArgentinaOverlapsItself()
    ensures !SelfOverlapFree(LocationKeywords[5])
  {
    var kw := LocationKeywords[5];
    assert EqualsIgnoreCase(kw[8..], kw[..1]);
  }

  /** Every location keyword other than "Argentina" cannot overlap itself. */
  lemma LocationKeywordsSelfOverlapFree(k: nat)
    requires k < |LocationKeywords| && k != 5
    ensures SelfOverlapFree(LocationKeywords[k])
  {
    var kw := LocationKeywords[k];
    forall d | 0 < d < |kw| ensures !EqualsIgnoreCase(kw[d..], kw[..|kw| - d]) {
      NoBorderAt(kw, d);
    }
  }

  /** No law keyword can overlap itself. */
  lemma LawKeywordsSelfOverlapFree(k: nat)
    requires k < |LawKeywords|
    ensures SelfOverlapFree(LawKeywords[k])
  {
    var kw := LawKeywords[k];
    forall d | 0 < d < |kw| ensures !EqualsIgnoreCase(kw[d..], kw[..|kw| - d]) {
      NoBorderAt(kw, d);
    }
  }
}
