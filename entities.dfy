/** The labelled spans that the extractor produces and the summary builder consumes. */
module Entities {

  datatype Label = Person | Location | Law

  /**
   * One labelled span: the half-open offsets `[start, end)` into the text and
   * the covered text itself; `kind` is the `label` key of the dictionaries the extractor appends.
   */
  datatype Entity = Entity(start: int, end: int, kind: Label, text: string)

  /** `e` is a non-empty span of `s` whose `text` is exactly the covered slice. */
  predicate SpanOf(e: Entity, s: string)
  {
    0 <= e.start < e.end <= |s| && e.text == s[e.start..e.end]
  }

  /** Each span of `r` ends at or before the start of every later one. */
  predicate InTextOrder(r: seq<Entity>)
  {
    forall a, b | 0 <= a < b < |r| :: r[a].end <= r[b].start
  }

  /** A span ending before all of an ordered list, put in front of it, keeps the list ordered. */
  lemma ConsInTextOrder(h: Entity, rest: seq<Entity>)
    requires InTextOrder(rest) && forall e | e in rest :: h.end <= e.start
    ensures InTextOrder([h] + rest)
  {
    var r := [h] + rest;
    forall a, b | 0 <= a < b < |r| ensures r[a].end <= r[b].start {
      assert r[b] == rest[b - 1] && rest[b - 1] in rest;
      if a > 0 {
        assert r[a] == rest[a - 1];
      }
    }
  }

  /** Appending span lists is associative (stated once, so that loops appending to a list need not rediscover it). */
  lemma AppendAssociative(a: seq<Entity>, b: seq<Entity>, c: seq<Entity>)
    ensures (a + b) + c == a + (b + c)
  {
  }

  /** The spans of `es` with label `kind`, in their order in `es` (`[e for e in es if e['label'] == kind]`). */
  function OfKind(es: seq<Entity>, kind: Label): (r: seq<Entity>)
    ensures |r| <= |es|
  {
    if es == [] then []
    else (if es[0].kind == kind then [es[0]] else []) + OfKind(es[1..], kind)
  }

  /** The filter keeps exactly the spans that carry `kind`. */
  lemma {:induction false} OfKindMembers(es: seq<Entity>, kind: Label)
    ensures forall e :: e in OfKind(es, kind) <==> e in es && e.kind == kind
  {
    if es != [] {
      OfKindMembers(es[1..], kind);
      assert es == [es[0]] + es[1..];
    }
  }

  /** Filtering by label distributes over concatenation. */
  lemma {:induction false} OfKindAppend(a: seq<Entity>, b: seq<Entity>, kind: Label)
    ensures OfKind(a + b, kind) == OfKind(a, kind) + OfKind(b, kind)
  {
    if a != [] {
      var head := if a[0].kind == kind then [a[0]] else [];
      assert (a + b)[0] == a[0] && (a + b)[1..] == a[1..] + b;
      assert OfKind(a + b, kind) == head + OfKind(a[1..] + b, kind);
      OfKindAppend(a[1..], b, kind);
      AppendAssociative(head, OfKind(a[1..], kind), OfKind(b, kind));
    } else {
      assert a + b == b;
    }
  }

  /** A list whose spans all carry `kind` is its own filter. */
  lemma {:induction false} OfKindAll(es: seq<Entity>, kind: Label)
    requires forall e | e in es :: e.kind == kind
    ensures OfKind(es, kind) == es
  {
    if es != [] {
      assert forall e | e in es[1..] :: e in es;
      OfKindAll(es[1..], kind);
    }
  }

  /** A list with no span of `kind` filters to nothing. */
  lemma OfKindNone(es: seq<Entity>, kind: Label)
    requires forall e | e in es :: e.kind != kind
    ensures OfKind(es, kind) == []
  {
  }
}
