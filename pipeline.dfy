/**
 * The request handler's core: the summary is built from the entities that
 * the extractor returns for the same text.
 */
module Pipeline {
  import opened Text
  import opened Entities
  import opened PersonPass
  import opened KeywordPass
  import opened Extract
  import opened Summary

  /**
   * There is one case record per PERSON span the extractor reports, in text
   * order; each is named by a run of one to four capitalised words.
   */
  lemma CaseRecordsFromExtraction(s: string)
    ensures |SummaryOf(Extraction(s))| == |PersonSpans(s)|
    ensures forall i | 0 <= i < |PersonSpans(s)| ::
      && SummaryOf(Extraction(s))[i].name == PersonSpans(s)[i].text
      && IsNameRun(SummaryOf(Extraction(s))[i].name)
      && 1 <= WordCount(SummaryOf(Extraction(s))[i].name) <= MaxNameTokens
  {
    ExtractionBlocks(s);
    SummaryRecords(Extraction(s));
    PersonScanShape(s, 0);
    forall i | 0 <= i < |PersonSpans(s)| ensures PersonSpans(s)[i] in PersonScan(s, 0) {
    }
  }

  /** Every crime in a record matches, up to ASCII case, a law keyword (KeywordIndex names which). */
  lemma CrimesAreLawKeywords(s: string, i: nat, t: string)
    requires i < |PersonSpans(s)|
    ensures i < |SummaryOf(Extraction(s))|
    ensures t in SummaryOf(Extraction(s))[i].crimes ==> KeywordIndex(LawKeywords, t) < |LawKeywords|
  {
    ExtractionBlocks(s);
    RecordTextsFromSpans(Extraction(s), i, t);
    if t in SummaryOf(Extraction(s))[i].crimes {
      var l :| l in KeywordSpans(s, LawKeywords, Law) && l.text == t;
      LawKeywordsValid();
      KeywordSpanText(s, LawKeywords, Law, l);
    }
  }

  /** Every location in a record matches, up to ASCII case, a location keyword. */
  lemma LocationsAreLocationKeywords(s: string, i: nat, t: string)
    requires i < |PersonSpans(s)|
    ensures i < |SummaryOf(Extraction(s))|
    ensures t in SummaryOf(Extraction(s))[i].locations ==> KeywordIndex(LocationKeywords, t) < |LocationKeywords|
  {
    ExtractionBlocks(s);
    RecordTextsFromSpans(Extraction(s), i, t);
    if t in SummaryOf(Extraction(s))[i].locations {
      var l :| l in KeywordSpans(s, LocationKeywords, Location) && l.text == t;
      LocationKeywordsValid();
      KeywordSpanText(s, LocationKeywords, Location, l);
    }
  }

  /** An empty text gives no entities and no case records. */
  lemma EmptyTextEmptySummary()
    ensures Extraction("") == [] && SummaryOf(Extraction("")) == []
  {
    EmptyTextNoEntities();
    EmptySummary();
  }
}
