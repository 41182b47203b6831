/**
 * `build_summary`: one case record per PERSON span, gathering the LAW texts
 * that start within 200 characters of the name and the LOCATION texts that
 * start within 300, each list without repeats.
 */
module Summary {
  import opened Entities
  import opened FromKeys

  /** One record of the summary; `status` is always empty. */
  datatype CaseSummary = CaseSummary(name: string, crimes: seq<string>, status: string, locations: seq<string>)

  /** A LAW span is related to a person when its start is strictly closer than this. */
  const CrimeRadius := 200
  /** A LOCATION span is related to a person when its start is strictly closer than this. */
  const LocationRadius := 300

  function Abs(x: int): (r: nat)
    ensures r == x || r == -x
  {
    if x < 0 then -x else x
  }

  /** The texts of the spans whose start lies strictly within `radius` of `pos`, in list order. */
  function Nearby(spans: seq<Entity>, pos: int, radius: nat): (r: seq<string>)
    ensures |r| <= |spans|
    ensures forall t :: t in r <==> exists e | e in spans :: e.text == t && Abs(e.start - pos) < radius
  {
    if spans == [] then []
    else
      var front := spans[..|spans| - 1];
      var last := spans[|spans| - 1];
      assert spans == front + [last];
      Nearby(front, pos, radius) + (if Abs(last.start - pos) < radius then [last.text] else [])
  }

  /** Nearby is a filter: it keeps the order of the spans, so it distributes over concatenation. */
  lemma {:induction false} NearbyAppend(a: seq<Entity>, b: seq<Entity>, pos: int, radius: nat)
    ensures Nearby(a + b, pos, radius) == Nearby(a, pos, radius) + Nearby(b, pos, radius)
  {
    if b == [] {
      assert a + b == a;
    } else {
      var b0, last := b[..|b| - 1], b[|b| - 1];
      assert (a + b)[..|a + b| - 1] == a + b0 && (a + b)[|a + b| - 1] == last;
      NearbyAppend(a, b0, pos, radius);
    }
  }

  /** A single span contributes its text exactly when it starts within the radius. */
  lemma NearbySingle(e: Entity, pos: int, radius: nat)
    ensures Nearby([e], pos, radius) == if Abs(e.start - pos) < radius then [e.text] else []
  {
    assert [e][..0] == [];
  }

  /** The position in `spans` of the first span within the radius whose text is `t`. */
  function FirstNear(spans: seq<Entity>, t: string, pos: int, radius: nat): (k: nat)
    requires t in Nearby(spans, pos, radius)
    ensures k < |spans| && spans[k].text == t && Abs(spans[k].start - pos) < radius
    ensures forall j | 0 <= j < k :: !(spans[j].text == t && Abs(spans[j].start - pos) < radius)
  {
    var front := spans[..|spans| - 1];
    if t in Nearby(front, pos, radius) then
      var k := FirstNear(front, t, pos, radius);
      assert forall j | 0 <= j <= k :: spans[j] == front[j];
      k
    else
      assert forall j | 0 <= j < |front| :: spans[j] == front[j] && front[j] in front;
      |spans| - 1
  }

  /** A span appended at the end does not move the first related span of a text already related. */
  lemma FirstNearPrefix(spans: seq<Entity>, e: Entity, t: string, pos: int, radius: nat)
    requires t in Nearby(spans, pos, radius)
    ensures t in Nearby(spans + [e], pos, radius)
    ensures FirstNear(spans + [e], t, pos, radius) == FirstNear(spans, t, pos, radius)
  {
    assert (spans + [e])[..|spans|] == spans;
  }

  /** A span appended at the end is the first related span of its text, if that text was not related before. */
  lemma FirstNearLast(spans: seq<Entity>, e: Entity, pos: int, radius: nat)
    requires Abs(e.start - pos) < radius && e.text !in Nearby(spans, pos, radius)
    ensures e.text in Nearby(spans + [e], pos, radius)
    ensures FirstNear(spans + [e], e.text, pos, radius) == |spans|
  {
    assert (spans + [e])[..|spans|] == spans;
  }

  /** `texts` lists related texts in the order of their first related span in `spans`. */
  predicate FirstSeenOrder(texts: seq<string>, spans: seq<Entity>, pos: int, radius: nat)
  {
    forall a, b | 0 <= a < b < |texts| ::
      && texts[a] in Nearby(spans, pos, radius)
      && texts[b] in Nearby(spans, pos, radius)
      && FirstNear(spans, texts[a], pos, radius) < FirstNear(spans, texts[b], pos, radius)
  }

  /** Appending a span keeps the first-seen order of texts already related. */
  lemma FirstSeenOrderKept(d: seq<string>, spans: seq<Entity>, e: Entity, pos: int, radius: nat)
    requires FirstSeenOrder(d, spans, pos, radius)
    ensures FirstSeenOrder(d, spans + [e], pos, radius)
  {
    forall a, b | 0 <= a < b < |d|
      ensures && d[a] in Nearby(spans + [e], pos, radius) && d[b] in Nearby(spans + [e], pos, radius)
              && FirstNear(spans + [e], d[a], pos, radius) < FirstNear(spans + [e], d[b], pos, radius)
    {
      FirstNearPrefix(spans, e, d[a], pos, radius);
      FirstNearPrefix(spans, e, d[b], pos, radius);
    }
  }

  /** Appending a related span with a new text puts that text last in first-seen order. */
  lemma FirstSeenOrderExtended(d: seq<string>, spans: seq<Entity>, e: Entity, pos: int, radius: nat)
    requires FirstSeenOrder(d, spans, pos, radius)
    requires forall t | t in d :: t in Nearby(spans, pos, radius)
    requires Abs(e.start - pos) < radius && e.text !in Nearby(spans, pos, radius)
    ensures FirstSeenOrder(d + [e.text], spans + [e], pos, radius)
  {
    var s1, d1 := spans + [e], d + [e.text];
    FirstNearLast(spans, e, pos, radius);
    forall a, b | 0 <= a < b < |d1|
      ensures && d1[a] in Nearby(s1, pos, radius) && d1[b] in Nearby(s1, pos, radius)
              && FirstNear(s1, d1[a], pos, radius) < FirstNear(s1, d1[b], pos, radius)
    {
      assert d1[a] == d[a] && d[a] in d;
      FirstNearPrefix(spans, e, d[a], pos, radius);
      if b < |d| {
        assert d1[b] == d[b];
        FirstNearPrefix(spans, e, d[b], pos, radius);
      }
    }
  }

  /** The deduplicated related texts come in the order of their first related span. */
  lemma {:induction false} DedupNearbyOrdered(spans: seq<Entity>, pos: int, radius: nat)
    ensures FirstSeenOrder(Dedup(Nearby(spans, pos, radius)), spans, pos, radius)
  {
    if spans != [] {
      var n := |spans| - 1;
      var front, e := spans[..n], spans[n];
      assert front + [e] == spans;
      DedupNearbyOrdered(front, pos, radius);
      DedupNearbySnoc(front, e, pos, radius);
      var d0 := Dedup(Nearby(front, pos, radius));
      if Abs(e.start - pos) < radius && e.text !in d0 {
        FirstSeenOrderExtended(d0, front, e, pos, radius);
      } else {
        FirstSeenOrderKept(d0, front, e, pos, radius);
      }
    }
  }

  /** One more span adds its text to the deduplicated related texts when it is related and its text is new. */
  lemma DedupNearbySnoc(front: seq<Entity>, e: Entity, pos: int, radius: nat)
    ensures Dedup(Nearby(front + [e], pos, radius))
         == if Abs(e.start - pos) < radius && e.text !in Dedup(Nearby(front, pos, radius))
            then Dedup(Nearby(front, pos, radius)) + [e.text]
            else Dedup(Nearby(front, pos, radius))
  {
    var n0, n1 := Nearby(front, pos, radius), Nearby(front + [e], pos, radius);
    NearbyAppend(front, [e], pos, radius);
    NearbySingle(e, pos, radius);
    if Abs(e.start - pos) < radius {
      assert n1 == n0 + [e.text];
      assert n1[..|n1| - 1] == n0 && n1[|n1| - 1] == e.text;
      assert Dedup(n1) == if e.text in Dedup(n0) then Dedup(n0) else Dedup(n0) + [e.text];
    } else {
      assert n1 == n0;
    }
  }

  /** The record for person span `p`. */
  function Record(p: Entity, laws: seq<Entity>, locations: seq<Entity>): CaseSummary
  {
    CaseSummary(p.text, Dedup(Nearby(laws, p.start, CrimeRadius)), "", Dedup(Nearby(locations, p.start, LocationRadius)))
  }

  /** The records of `persons`, one per person, in order. */
  function Records(persons: seq<Entity>, laws: seq<Entity>, locations: seq<Entity>): seq<CaseSummary>
  {
    if persons == [] then []
    else Records(persons[..|persons| - 1], laws, locations) + [Record(persons[|persons| - 1], laws, locations)]
  }

  /** Extending the persons by one extends the records by that person's record. */
  lemma RecordsSnoc(persons: seq<Entity>, laws: seq<Entity>, locations: seq<Entity>, n: nat)
    requires n < |persons|
    ensures Records(persons[..n + 1], laws, locations) == Records(persons[..n], laws, locations) + [Record(persons[n], laws, locations)]
  {
    assert persons[..n + 1][..n] == persons[..n];
  }

  /** The summary of an entity list: the records of its PERSON spans. */
  function SummaryOf(entities: seq<Entity>): seq<CaseSummary>
  {
    Records(OfKind(entities, Person), OfKind(entities, Law), OfKind(entities, Location))
  }

  /** The three filters, then the loop over the persons building one record each. */
  method BuildSummary(text: string, entities: seq<Entity>) returns (summary: seq<CaseSummary>)
    ensures summary == SummaryOf(entities)
  {
    var persons := OfKind(entities, Person);
    var laws := OfKind(entities, Law);
    var locations := OfKind(entities, Location);
    summary := [];
    for i := 0 to |persons|
      invariant summary == Records(persons[..i], laws, locations)
    {
      var record := RecordFor(persons[i], laws, locations);
      RecordsSnoc(persons, laws, locations, i);
      summary := summary + [record];
    }
    assert persons[..|persons|] == persons;
  }

  /** The body of the loop over the persons: one record. */
  method RecordFor(p: Entity, laws: seq<Entity>, locations: seq<Entity>) returns (record: CaseSummary)
    ensures record == Record(p, laws, locations)
  {
    var crimes := RelatedTexts(laws, p.start, CrimeRadius);
    var places := RelatedTexts(locations, p.start, LocationRadius);
    record := CaseSummary(p.text, Dedup(crimes), "", Dedup(places));
  }

  /** The inner loop: the texts of the spans within `radius` of `pos`, appended in list order. */
  method RelatedTexts(spans: seq<Entity>, pos: int, radius: nat) returns (related: seq<string>)
    ensures related == Nearby(spans, pos, radius)
  {
    related := [];
    for k := 0 to |spans|
      invariant related == Nearby(spans[..k], pos, radius)
    {
      assert spans[..k + 1][..k] == spans[..k];
      if Abs(spans[k].start - pos) < radius {
        related := related + [spans[k].text];
      }
    }
    assert spans[..|spans|] == spans;
  }

  // ---------------------------------------------------------------------------
  // Properties of the summary.

  /** Record `i` is the record of person `i`, and there are as many records as persons. */
  lemma {:induction false} RecordsAt(persons: seq<Entity>, laws: seq<Entity>, locations: seq<Entity>)
    ensures |Records(persons, laws, locations)| == |persons|
    ensures forall i | 0 <= i < |persons| :: Records(persons, laws, locations)[i] == Record(persons[i], laws, locations)
  {
    if persons != [] {
      var n := |persons| - 1;
      RecordsAt(persons[..n], laws, locations);
    }
  }

  /** One record per PERSON span, in order, named by its text, with an empty status. */
  lemma SummaryRecords(entities: seq<Entity>)
    ensures |SummaryOf(entities)| == |OfKind(entities, Person)|
    ensures forall i | 0 <= i < |SummaryOf(entities)| ::
      SummaryOf(entities)[i].name == OfKind(entities, Person)[i].text && SummaryOf(entities)[i].status == ""
  {
    RecordsAt(OfKind(entities, Person), OfKind(entities, Law), OfKind(entities, Location));
  }

  /**
   * A text is among a record's crimes exactly when some LAW span with that
   * text starts strictly fewer than 200 characters from the person's start.
   */
  lemma CrimesNearby(entities: seq<Entity>, i: nat, t: string)
    requires i < |OfKind(entities, Person)|
    ensures i < |SummaryOf(entities)|
    ensures t in SummaryOf(entities)[i].crimes <==>
      exists l | l in entities :: l.kind == Law && l.text == t && Abs(l.start - OfKind(entities, Person)[i].start) < CrimeRadius
  {
    RecordsAt(OfKind(entities, Person), OfKind(entities, Law), OfKind(entities, Location));
    OfKindMembers(entities, Law);
  }

  /**
   * A text is among a record's locations exactly when some LOCATION span with
   * that text starts strictly fewer than 300 characters from the person's start.
   */
  lemma LocationsNearby(entities: seq<Entity>, i: nat, t: string)
    requires i < |OfKind(entities, Person)|
    ensures i < |SummaryOf(entities)|
    ensures t in SummaryOf(entities)[i].locations <==>
      exists l | l in entities :: l.kind == Location && l.text == t && Abs(l.start - OfKind(entities, Person)[i].start) < LocationRadius
  {
    RecordsAt(OfKind(entities, Person), OfKind(entities, Law), OfKind(entities, Location));
    OfKindMembers(entities, Location);
  }

  /** Each crime is the text of a LAW span of the list, and each location the text of a LOCATION span. */
  lemma RecordTextsFromSpans(entities: seq<Entity>, i: nat, t: string)
    requires i < |OfKind(entities, Person)|
    ensures i < |SummaryOf(entities)|
    ensures t in SummaryOf(entities)[i].crimes ==> exists l | l in OfKind(entities, Law) :: l.text == t
    ensures t in SummaryOf(entities)[i].locations ==> exists l | l in OfKind(entities, Location) :: l.text == t
  {
    RecordsAt(OfKind(entities, Person), OfKind(entities, Law), OfKind(entities, Location));
  }

  /**
   * The crimes and locations of a record have no repeats (the order of their
   * first related spans is RecordListsInFirstSeenOrder).
   */
  lemma RecordListsDistinct(entities: seq<Entity>, i: nat)
    requires i < |OfKind(entities, Person)|
    ensures i < |SummaryOf(entities)|
    ensures NoDup(SummaryOf(entities)[i].crimes) && NoDup(SummaryOf(entities)[i].locations)
  {
    RecordsAt(OfKind(entities, Person), OfKind(entities, Law), OfKind(entities, Location));
  }

  /**
   * The crimes of a record come in the order of their first related span in
   * the LAW sub-list, and its locations in the order of their first related
   * span in the LOCATION sub-list.
   */
  lemma RecordListsInFirstSeenOrder(entities: seq<Entity>, i: nat)
    requires i < |OfKind(entities, Person)|
    ensures i < |SummaryOf(entities)|
    ensures FirstSeenOrder(SummaryOf(entities)[i].crimes, OfKind(entities, Law), OfKind(entities, Person)[i].start, CrimeRadius)
    ensures FirstSeenOrder(SummaryOf(entities)[i].locations, OfKind(entities, Location), OfKind(entities, Person)[i].start, LocationRadius)
  {
    var persons := OfKind(entities, Person);
    RecordsAt(persons, OfKind(entities, Law), OfKind(entities, Location));
    DedupNearbyOrdered(OfKind(entities, Law), persons[i].start, CrimeRadius);
    DedupNearbyOrdered(OfKind(entities, Location), persons[i].start, LocationRadius);
  }

  /** No entities, no records. */
  lemma EmptySummary()
    ensures SummaryOf([]) == []
  {
  }
}
