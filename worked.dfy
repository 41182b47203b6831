/**
 * An example sentence: the entities of "John Smith was arrested in Madrid
 * for murder." and the two case records built from them, and a few
 * single-keyword cases of the substring search.
 */
module WorkedExample {
  import opened Wrappers
  import opened Text
  import opened Entities
  import opened PersonPass
  import opened KeywordPass
  import opened Extract
  import opened FromKeys
  import opened Summary

  /** The example sentence. */
  const Sentence := "John Smith " + "was arrested " + "in Madrid " + "for murder."

  /** The first twelve characters of the sentence. */
  lemma SentenceStart()
    ensures |Sentence| == 45
    ensures Sentence[0] == 'J' && Sentence[1] == 'o' && Sentence[2] == 'h' && Sentence[3] == 'n' && Sentence[4] == ' '
    ensures Sentence[5] == 'S' && Sentence[6] == 'm' && Sentence[7] == 'i' && Sentence[8] == 't' && Sentence[9] == 'h'
    ensures Sentence[10] == ' ' && Sentence[11] == 'w'
  {
  }

  /** The characters of the sentence around "Madrid". */
  lemma SentenceMiddle()
    ensures |Sentence| == 45
    ensures Sentence[23] == ' ' && Sentence[24] == 'i' && Sentence[25] == 'n' && Sentence[26] == ' ' && Sentence[27] == 'M' && Sentence[28] == 'a'
    ensures Sentence[29] == 'd' && Sentence[30] == 'r' && Sentence[31] == 'i' && Sentence[32] == 'd' && Sentence[33] == ' ' && Sentence[34] == 'f'
  {
  }

  /** The four entity texts of the sentence, at their offsets. */
  lemma SentenceSlices()
    ensures Sentence[0..10] == "John Smith"
    ensures Sentence[27..33] == "Madrid"
    ensures Sentence[38..44] == "murder"
    ensures Sentence[15..23] == "arrested"
  {
    JohnSmithSlice();
    MadridSlice();
    assert Sentence[38] == 'm' && Sentence[39] == 'u' && Sentence[40] == 'r' && Sentence[41] == 'd' && Sentence[42] == 'e' && Sentence[43] == 'r';
    assert Sentence[15] == 'a' && Sentence[16] == 'r' && Sentence[17] == 'r' && Sentence[18] == 'e';
    assert Sentence[19] == 's' && Sentence[20] == 't' && Sentence[21] == 'e' && Sentence[22] == 'd';
  }

  lemma JohnSmithSlice()
    ensures Sentence[0..10] == "John Smith"
  {
    SentenceStart();
  }

  lemma MadridSlice()
    ensures Sentence[27..33] == "Madrid"
  {
    SentenceMiddle();
  }

  /** The name pattern matches "John Smith" at the start of any text that begins "John Smith w". */
  lemma JohnSmithMatch(s: string)
    requires |s| >= 12
    requires s[0] == 'J' && s[1] == 'o' && s[2] == 'h' && s[3] == 'n' && s[4] == ' '
    requires s[5] == 'S' && s[6] == 'm' && s[7] == 'i' && s[8] == 't' && s[9] == 'h'
    requires s[10] == ' ' && s[11] == 'w'
    ensures MatchAt(s, 0) == Some(10)
  {
    assert LowerRunEnd(s, 4) == 4;
    assert LowerRunEnd(s, 2) == 4;
    assert TokenEnd(s, 0) == Some(4);
    assert LowerRunEnd(s, 10) == 10;
    assert LowerRunEnd(s, 7) == 10;
    assert TokenEnd(s, 5) == Some(10);
    assert TokenEnd(s, 11) == None;
    assert ExtendRun(s, 10) == Some(10);
    assert ExtendRun(s, 4) == Some(10);
  }

  /** "John Smith" is two words. */
  lemma JohnSmithWords()
    ensures WordCount("John Smith") == 2
  {
    assert "John Smith"[..9] == "John Smit";
    assert "John Smit"[..8] == "John Smi";
    assert "John Smi"[..7] == "John Sm";
    assert "John Sm"[..6] == "John S";
    assert "John S"[..5] == "John ";
    assert "John "[..4] == "John";
    assert "John"[..3] == "Joh";
    assert "Joh"[..2] == "Jo";
    assert "Jo"[..1] == "J";
    assert "J"[..0] == "";
  }

  /** "John Smith" at 0 is the whole match of the name pattern there, and a PERSON span. */
  lemma JohnSmithIsAPerson()
    ensures John in Extraction(Sentence)
  {
    SentenceStart();
    JohnSmithMatch(Sentence);
    JohnSmithSlice();
    JohnSmithWords();
    PersonFound(Sentence, 0);
  }

  /** The name pattern matches "Madrid" at 27 of any text that has " in Madrid f" at 23. */
  lemma MadridMatch(s: string)
    requires |s| >= 35
    requires s[23] == ' ' && s[24] == 'i' && s[25] == 'n' && s[26] == ' ' && s[27] == 'M' && s[28] == 'a'
    requires s[29] == 'd' && s[30] == 'r' && s[31] == 'i' && s[32] == 'd' && s[33] == ' ' && s[34] == 'f'
    ensures MatchAt(s, 27) == Some(33)
    ensures !FollowsName(s, 27)
  {
    assert LowerRunEnd(s, 33) == 33;
    assert LowerRunEnd(s, 29) == 33;
    assert TokenEnd(s, 27) == Some(33);
    assert TokenEnd(s, 34) == None;
    assert ExtendRun(s, 33) == Some(33);
    forall j | 0 <= j < 26 ensures !NameRunBetween(s, j, 26) {
      var t := s[j..26];
      if j < 25 {
        assert !NameCharOk(t, 24 - j) by {
          assert t[24 - j] == s[24];
          if j < 24 {
            assert t[23 - j] == s[23];
          }
        }
      }
    }
  }

  /** "Madrid" is one word. */
  lemma MadridWords()
    ensures WordCount("Madrid") == 1
  {
    assert "Madrid"[..5] == "Madri";
    assert "Madri"[..4] == "Madr";
    assert "Madr"[..3] == "Mad";
    assert "Mad"[..2] == "Ma";
    assert "Ma"[..1] == "M";
    assert "M"[..0] == "";
  }

  /** "Madrid" at 27 is also matched by the name pattern, and no name run precedes it, so it is a PERSON span too. */
  lemma MadridIsAPerson()
    ensures MadridName in Extraction(Sentence)
  {
    SentenceMiddle();
    MadridMatch(Sentence);
    MadridSlice();
    MadridWords();
    PersonFound(Sentence, 27);
  }

  /** "Madrid" at 27 is a LOCATION span. */
  lemma MadridIsALocation()
    ensures MadridPlace in Extraction(Sentence)
  {
    MadridSlice();
    LocationFound(Sentence, 0, 27);
  }

  /** "murder" at 38 is a LAW span. */
  lemma MurderFound()
    ensures Murder in Extraction(Sentence)
  {
    SentenceSlices();
    LawFound(Sentence, 0, 38);
  }

  /** "arrested" at 15 is a LAW span. */
  lemma ArrestedFound()
    ensures Arrested in Extraction(Sentence)
  {
    assert LawKeywords[4] == "arrested";
    SentenceSlices();
    LawFound(Sentence, 4, 15);
  }

  /** The list positions of the two LAW keywords of the example. */
  lemma MurderAndArrestedIndices()
    ensures KeywordIndex(LawKeywords, "murder") == 0
    ensures KeywordIndex(LawKeywords, "arrested") == 4
  {
    LawKeywordsValid();
    assert LawKeywords[4] == "arrested";
    IndexOfMatched(LawKeywords, 0, "murder");
    IndexOfMatched(LawKeywords, 4, "arrested");
  }

  /**
   * In any text, every "murder" span is reported before every "arrested"
   * span, wherever they occur: the LAW block follows the keyword list.
   */
  lemma MurderBeforeArrested(s: string, i: nat, j: nat)
    requires i < |Extraction(s)| && j < |Extraction(s)|
    requires Extraction(s)[i].kind == Law && Extraction(s)[i].text == "murder"
    requires Extraction(s)[j].kind == Law && Extraction(s)[j].text == "arrested"
    ensures i < j
  {
    MurderAndArrestedIndices();
    ExtractionOrder(s);
    assert !OutputBefore(Extraction(s)[j], Extraction(s)[i]);
  }

  /** The search is by substring: wherever a text has "assaulted", it has the LAW span "assault" there. */
  lemma AssaultedYieldsAssault(s: string, p: nat)
    requires p + 9 <= |s| && s[p..p + 9] == "assaulted"
    ensures Entity(p, p + 7, Law, "assault") in Extraction(s)
  {
    assert LawKeywords[7] == "assault";
    assert s[p..p + 7] == s[p..p + 9][..7] == "assault";
    LawFound(s, 7, p);
  }

  /** The search ignores case and reports the text as written: "MADRID" is a LOCATION span "MADRID". */
  lemma UpperCaseMadrid(s: string, p: nat)
    requires p + 6 <= |s| && s[p..p + 6] == "MADRID"
    ensures Entity(p, p + 6, Location, "MADRID") in Extraction(s)
  {
    assert EqualsIgnoreCase("MADRID", LocationKeywords[0]);
    LocationFound(s, 0, p);
  }

  const John := Entity(0, 10, Person, "John Smith")
  const MadridName := Entity(27, 33, Person, "Madrid")
  const MadridPlace := Entity(27, 33, Location, "Madrid")
  const Murder := Entity(38, 44, Law, "murder")
  const Arrested := Entity(15, 23, Law, "arrested")

  /** The three filters of the example list. */
  lemma ExampleFilters(kind: Label)
    ensures OfKind([John, MadridName, MadridPlace, Murder, Arrested], kind)
         == (if kind == Person then [John, MadridName] else if kind == Law then [Murder, Arrested] else [MadridPlace])
  {
    var e0, e1, e2 := [John, MadridName, MadridPlace, Murder, Arrested], [MadridName, MadridPlace, Murder, Arrested], [MadridPlace, Murder, Arrested];
    var e3, e4: seq<Entity> := [Murder, Arrested], [Arrested];
    assert e0[1..] == e1 && e1[1..] == e2 && e2[1..] == e3 && e3[1..] == e4 && e4[1..] == [];
    assert OfKind(e4, kind) == (if kind == Law then [Arrested] else []);
    assert OfKind(e3, kind) == (if kind == Law then [Murder, Arrested] else []);
    assert OfKind(e2, kind) == (if kind == Law then [Murder, Arrested] else if kind == Location then [MadridPlace] else []);
    assert OfKind(e1, kind) == (if kind == Law then [Murder, Arrested] else if kind == Location then [MadridPlace] else [MadridName]);
  }

  lemma DedupExample()
    ensures Dedup(["murder", "arrested"]) == ["murder", "arrested"]
    ensures Dedup(["Madrid"]) == ["Madrid"]
  {
    assert NoDup(["murder", "arrested"]) by {
      assert |"murder"| != |"arrested"|;
    }
    DedupOfDistinct(["murder", "arrested"]);
    DedupOfDistinct(["Madrid"]);
  }

  lemma NearbyExample(pos: int)
    requires 0 <= pos <= 27
    ensures Nearby([Murder, Arrested], pos, CrimeRadius) == ["murder", "arrested"]
    ensures Nearby([MadridPlace], pos, LocationRadius) == ["Madrid"]
  {
    assert [Murder, Arrested][..1] == [Murder];
    assert [Murder][..0] == [];
    assert [MadridPlace][..0] == [];
  }

  lemma RecordExample(p: Entity)
    requires 0 <= p.start <= 27
    ensures Record(p, [Murder, Arrested], [MadridPlace]) == CaseSummary(p.text, ["murder", "arrested"], "", ["Madrid"])
  {
    NearbyExample(p.start);
    DedupExample();
  }

  lemma RecordsOfTwo(a: Entity, b: Entity, laws: seq<Entity>, locations: seq<Entity>)
    ensures Records([a, b], laws, locations) == [Record(a, laws, locations), Record(b, laws, locations)]
  {
    assert [a, b][..1] == [a];
    assert [a][..0] == [];
    assert Records([a], laws, locations) == [Record(a, laws, locations)];
  }

  lemma ExampleSummaryRecords()
    ensures SummaryOf([John, MadridName, MadridPlace, Murder, Arrested])
         == Records([John, MadridName], [Murder, Arrested], [MadridPlace])
  {
    var es := [John, MadridName, MadridPlace, Murder, Arrested];
    ExampleFilters(Person);
    ExampleFilters(Law);
    ExampleFilters(Location);
    var persons, laws, locations := OfKind(es, Person), OfKind(es, Law), OfKind(es, Location);
    assert persons == [John, MadridName] && laws == [Murder, Arrested] && locations == [MadridPlace];
    assert SummaryOf(es) == Records(persons, laws, locations);
  }

  lemma WorkedExampleSummary()
    ensures SummaryOf([John, MadridName, MadridPlace, Murder, Arrested])
         == [CaseSummary("John Smith", ["murder", "arrested"], "", ["Madrid"]),
             CaseSummary("Madrid", ["murder", "arrested"], "", ["Madrid"])]
  {
    ExampleSummaryRecords();
    RecordsOfTwo(John, MadridName, [Murder, Arrested], [MadridPlace]);
    RecordExample(John);
    RecordExample(MadridName);
  }
}
