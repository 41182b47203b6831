/**
 * `extract_entities`: the PERSON pass, then the LOCATION pass, then the LAW
 * pass, each appending to one list; no pass suppresses, merges or re-sorts
 * another's spans.
 */
module Extract {
  import opened Text
  import opened Entities
  import opened PersonPass
  import opened KeywordPass

  /** The list `extract_entities` returns. */
  function Extraction(s: string): seq<Entity>
  {
    PersonSpans(s) + KeywordSpans(s, LocationKeywords, Location) + KeywordSpans(s, LawKeywords, Law)
  }

  // ---------------------------------------------------------------------------
  // Properties of the returned list.

  /** Every returned span lies inside the text and carries exactly the text it covers. */
  lemma ExtractionSpans(s: string)
    ensures forall e | e in Extraction(s) :: 0 <= e.start < e.end <= |s| && e.text == s[e.start..e.end]
  {
    PersonScanSound(s, 0);
    KeywordSpansSound(s, LocationKeywords, Location);
    KeywordSpansSound(s, LawKeywords, Law);
  }

  /** The PERSON, LOCATION and LAW sub-lists are exactly the three blocks. */
  lemma ExtractionBlocks(s: string)
    ensures OfKind(Extraction(s), Person) == PersonSpans(s)
    ensures OfKind(Extraction(s), Location) == KeywordSpans(s, LocationKeywords, Location)
    ensures OfKind(Extraction(s), Law) == KeywordSpans(s, LawKeywords, Law)
  {
    var p, l, w := PersonSpans(s), KeywordSpans(s, LocationKeywords, Location), KeywordSpans(s, LawKeywords, Law);
    PersonScanSound(s, 0);
    KeywordSpansSound(s, LocationKeywords, Location);
    KeywordSpansSound(s, LawKeywords, Law);
    OfKindAppend(p + l, w, Person);
    OfKindAppend(p, l, Person);
    OfKindAppend(p + l, w, Location);
    OfKindAppend(p, l, Location);
    OfKindAppend(p + l, w, Law);
    OfKindAppend(p, l, Law);
    OfKindAll(p, Person);
    OfKindAll(l, Location);
    OfKindAll(w, Law);
    OfKindNone(l, Person);
    OfKindNone(w, Person);
    OfKindNone(p, Location);
    OfKindNone(w, Location);
    OfKindNone(p, Law);
    OfKindNone(l, Law);
  }

  /** The block a label belongs to: PERSON first, then LOCATION, then LAW. */
  function Rank(kind: Label): nat
  {
    match kind
    case Person => 0
    case Location => 1
    case Law => 2
  }

  /** The keyword group of a span within its block (0 for PERSON spans). */
  function Group(e: Entity): nat
  {
    match e.kind
    case Person => 0
    case Location => KeywordIndex(LocationKeywords, e.text)
    case Law => KeywordIndex(LawKeywords, e.text)
  }

  /** `a` is output before `b`: by block, then by keyword position in the list, then by offset. */
  predicate OutputBefore(a: Entity, b: Entity)
  {
    || Rank(a.kind) < Rank(b.kind)
    || (Rank(a.kind) == Rank(b.kind) && Group(a) < Group(b))
    || (Rank(a.kind) == Rank(b.kind) && Group(a) == Group(b) && a.end <= b.start)
  }

  /** Every span of `r` is output before every later one. */
  predicate Ordered(r: seq<Entity>)
  {
    forall a, b | 0 <= a < b < |r| :: OutputBefore(r[a], r[b])
  }

  /** Two ordered lists, the second wholly in later blocks, make an ordered list. */
  lemma BlocksOrdered(x: seq<Entity>, y: seq<Entity>)
    requires Ordered(x) && Ordered(y)
    requires forall e, f | e in x && f in y :: Rank(e.kind) < Rank(f.kind)
    ensures Ordered(x + y)
  {
    var r := x + y;
    forall a, b | 0 <= a < b < |r| ensures OutputBefore(r[a], r[b]) {
      if b < |x| {
        assert r[a] == x[a] && r[b] == x[b];
      } else if a < |x| {
        assert r[a] in x && r[b] in y;
      } else {
        assert r[a] == y[a - |x|] && r[b] == y[b - |x|];
      }
    }
  }

  /** The PERSON block is ordered by offset. */
  lemma PersonBlockOrdered(s: string)
    ensures Ordered(PersonSpans(s))
    ensures forall e | e in PersonSpans(s) :: e.kind == Person
  {
    PersonScanSound(s, 0);
    PersonScanOrdered(s, 0);
  }

  /** The LOCATION block is ordered by keyword position, then by offset. */
  lemma LocationBlockOrdered(s: string)
    ensures Ordered(KeywordSpans(s, LocationKeywords, Location))
    ensures forall e | e in KeywordSpans(s, LocationKeywords, Location) :: e.kind == Location
  {
    var l := KeywordSpans(s, LocationKeywords, Location);
    KeywordSpansSound(s, LocationKeywords, Location);
    LocationKeywordsValid();
    KeywordSpansOrdered(s, LocationKeywords, Location);
    forall a, b | 0 <= a < b < |l| ensures OutputBefore(l[a], l[b]) {
      assert l[a] in l && l[b] in l;
      assert KeywordPrecedes(LocationKeywords, l[a], l[b]);
    }
  }

  /** The LAW block is ordered by keyword position, then by offset. */
  lemma LawBlockOrdered(s: string)
    ensures Ordered(KeywordSpans(s, LawKeywords, Law))
    ensures forall e | e in KeywordSpans(s, LawKeywords, Law) :: e.kind == Law
  {
    var w := KeywordSpans(s, LawKeywords, Law);
    KeywordSpansSound(s, LawKeywords, Law);
    LawKeywordsValid();
    KeywordSpansOrdered(s, LawKeywords, Law);
    forall a, b | 0 <= a < b < |w| ensures OutputBefore(w[a], w[b]) {
      assert w[a] in w && w[b] in w;
      assert KeywordPrecedes(LawKeywords, w[a], w[b]);
    }
  }

  /**
   * The list is ordered PERSON block, LOCATION block, LAW block; inside a
   * keyword block by the keyword's position in its list; and inside one
   * keyword's group (and the PERSON block) by offset, without overlap.
   */
  lemma ExtractionOrder(s: string)
    ensures Ordered(Extraction(s))
  {
    var p, l, w := PersonSpans(s), KeywordSpans(s, LocationKeywords, Location), KeywordSpans(s, LawKeywords, Law);
    PersonBlockOrdered(s);
    LocationBlockOrdered(s);
    LawBlockOrdered(s);
    BlocksOrdered(p, l);
    BlocksOrdered(p + l, w);
  }

  /**
   * Every case-insensitive occurrence of a location keyword yields a
   * LOCATION span, for every keyword but "Argentina" (see ArgentinaFound).
   */
  lemma LocationFound(s: string, k: nat, p: int)
    requires k < |LocationKeywords| && k != 5
    requires OccursAt(s, LocationKeywords[k], p)
    ensures Entity(p, p + |LocationKeywords[k]|, Location, s[p..p + |LocationKeywords[k]|]) in Extraction(s)
  {
    LocationKeywordsSelfOverlapFree(k);
    KeywordSpansFindAll(s, LocationKeywords, Location, k, p);
    InLocationBlock(s, Entity(p, p + |LocationKeywords[k]|, Location, s[p..p + |LocationKeywords[k]|]));
  }

  /** A LOCATION span is part of the returned list. */
  lemma InLocationBlock(s: string, e: Entity)
    requires e in KeywordSpans(s, LocationKeywords, Location)
    ensures e in Extraction(s)
  {
  }

  /** Every case-insensitive occurrence of a law keyword yields a LAW span. */
  lemma LawFound(s: string, k: nat, p: int)
    requires k < |LawKeywords| && OccursAt(s, LawKeywords[k], p)
    ensures Entity(p, p + |LawKeywords[k]|, Law, s[p..p + |LawKeywords[k]|]) in Extraction(s)
  {
    LawKeywordsSelfOverlapFree(k);
    KeywordSpansFindAll(s, LawKeywords, Law, k, p);
  }

  /** An occurrence of "Argentina" yields a span, or lies strictly inside the span of an earlier, overlapping occurrence of "Argentina". */
  lemma ArgentinaFound(s: string, p: int)
    requires OccursAt(s, LocationKeywords[5], p)
    ensures || Entity(p, p + 9, Location, s[p..p + 9]) in Extraction(s)
            || exists e | e in Extraction(s) ::
                 e.kind == Location && SpanOf(e, s) && EqualsIgnoreCase(e.text, LocationKeywords[5]) && e.start < p < e.end
  {
    LocationKeywordsValid();
    assert |LocationKeywords[5]| == 9;
    var kw := LocationKeywords[5];
    KeywordSpansCover(s, LocationKeywords, Location, 5, p);
    if e :| e in KeywordSpans(s, LocationKeywords, Location) && IsKeywordSpan(e, s, kw, Location) && e.start < p < e.end {
      InLocationBlock(s, e);
    } else {
      InLocationBlock(s, Entity(p, p + 9, Location, s[p..p + 9]));
    }
  }

  /** The empty text has no entities. */
  lemma EmptyTextNoEntities()
    ensures Extraction("") == []
  {
    KeywordSpansOfEmptyText(LocationKeywords, Location);
    KeywordSpansOfEmptyText(LawKeywords, Law);
  }

  /** The three passes over `text`, appending to one list as the source does. */
  method ExtractEntities(text: string) returns (entities: seq<Entity>)
    ensures entities == Extraction(text)
  {
    entities := FindPersons(text);
    var located := AppendKeywordSpans(text, LocationKeywords, Location);
    entities := entities + located;
    var legal := AppendKeywordSpans(text, LawKeywords, Law);
    entities := entities + legal;
  }

  /** The PERSON loop: `re.finditer` over the capitalised-token pattern and the word-count filter. */
  method FindPersons(text: string) returns (persons: seq<Entity>)
    ensures persons == PersonSpans(text)
  {
    persons := [];
    var pos := 0;
    while pos < |text|
      invariant 0 <= pos <= |text|
      invariant persons + PersonScan(text, pos) == PersonSpans(text)
      decreases |text| - pos
    {
      var found, next := PersonAt(text, pos);
      persons := persons + found;
      pos := next;
    }
  }

  /** One step of `finditer` from `pos`: the span found there, if any is kept, and where the search resumes. */
  method PersonAt(text: string, pos: nat) returns (found: seq<Entity>, next: nat)
    requires pos < |text|
    ensures pos < next <= |text|
    ensures PersonScan(text, pos) == found + PersonScan(text, next)
  {
    var m := MatchAt(text, pos);
    if m.Some? {
      var name := text[pos..m.value];
      found := if WordCount(name) <= MaxNameTokens then [Entity(pos, m.value, Person, name)] else [];
      next := m.value;
    } else {
      found, next := [], pos + 1;
    }
  }

  /** `for kw in kws: for m in re.finditer(kw, text, flags=re.IGNORECASE)`, collecting the spans. */
  method AppendKeywordSpans(text: string, kws: seq<string>, kind: Label) returns (spans: seq<Entity>)
    requires forall k | 0 <= k < |kws| :: |kws[k]| > 0
    ensures spans == KeywordSpans(text, kws, kind)
  {
    spans := [];
    for k := 0 to |kws|
      invariant spans == KeywordSpans(text, kws[..k], kind)
    {
      var found := FindAll(text, kws[k], kind);
      assert kws[..k + 1][..k] == kws[..k];
      spans := spans + found;
    }
    assert kws[..|kws|] == kws;
  }

  /** One `re.finditer(kw, text, flags=re.IGNORECASE)`: leftmost matches, each search resuming after the last match. */
  method FindAll(text: string, kw: string, kind: Label) returns (spans: seq<Entity>)
    requires |kw| > 0
    ensures spans == KeywordScan(text, kw, kind, 0)
  {
    spans := [];
    var pos := 0;
    ghost var whole := KeywordScan(text, kw, kind, pos);
    while pos + |kw| <= |text|
      invariant 0 <= pos <= |text|
      invariant spans + KeywordScan(text, kw, kind, pos) == whole
      decreases |text| - pos
    {
      var found, next := KeywordAt(text, kw, kind, pos);
      AppendAssociative(spans, found, KeywordScan(text, kw, kind, next));
      spans := spans + found;
      pos := next;
    }
  }

  /** One step of the search from `pos`: the occurrence there, if any, and where the search resumes. */
  method KeywordAt(text: string, kw: string, kind: Label, pos: nat) returns (found: seq<Entity>, next: nat)
    requires |kw| > 0 && pos + |kw| <= |text|
    ensures pos < next <= |text|
    ensures KeywordScan(text, kw, kind, pos) == found + KeywordScan(text, kw, kind, next)
  {
    if OccursAt(text, kw, pos) {
      found, next := [Entity(pos, pos + |kw|, kind, text[pos..pos + |kw|])], pos + |kw|;
    } else {
      found, next := [], pos + 1;
    }
  }
}
