# Entity extraction and case summaries, modelled in Dafny

This project models the core of a small crime-report service (`app.py`). The
core is two functions.

- `extract_entities(text)` makes three passes over a text and returns
  labelled spans (`start`, `end`, `label`, `text`).
  - The PERSON pass searches for runs of capitalised ASCII words, using the
    pattern `\b([A-Z][a-z]+(?: [A-Z][a-z]+)*)\b`. It keeps a match only when
    the match has at most four words.
  - The LOCATION pass searches, case-insensitively, for each of 13 place
    names in list order.
  - The LAW pass does the same for each of 13 legal terms.
- `build_summary(text, entities)` builds one case record per PERSON span.
  - `crimes` holds the texts of LAW spans that start fewer than 200
    characters from the person's start.
  - `locations` holds the texts of LOCATION spans that start fewer than 300
    characters away.
  - Each list is deduplicated, keeping the order of first occurrence.
  - `status` is always empty.

The modules follow the program's structure. Each paragraph names the
definitions that carry the model and the source lines they model.

- `Text`: character classes, the ASCII `\b` test `AtBoundary` (app.py:58),
  ASCII case folding `ToLower` and `EqualsIgnoreCase` (app.py:74, 89), and
  `WordCount`, the word count of `str.split()` (app.py:60).
- `Entities`: the span datatype `Entity` (app.py:61-66), and the label filter
  `OfKind` with its laws (app.py:105-107).
- `PersonPass`:
  - the regular-expression engine on the PERSON pattern (app.py:58):
    `LowerRunEnd` (`[a-z]+`), `TokenEnd` (one greedy token), `ExtendRun`
    (the greedy star, which backtracks to a word boundary) and `MatchAt`
    (the whole pattern anchored at one offset);
  - `PersonScan` and `PersonSpans`: `finditer` without overlap, and the
    four-word filter (app.py:58-66);
  - a proof that each match is the longest boundary-terminated name run.
- `KeywordPass`: the two keyword lists `LocationKeywords` (app.py:69-72) and
  `LawKeywords` (app.py:83-87). `KeywordScan` is the case-insensitive,
  non-overlapping substring search of one `finditer` (app.py:74, 89), and
  `KeywordSpans` runs it for each keyword in list order (app.py:73-80, 88-95).
- `Extract`: `Extraction`, the list `extract_entities` returns
  (app.py:54-97). The same extractor appears as the imperative methods
  `ExtractEntities`, `FindPersons`, `AppendKeywordSpans` and `FindAll`, with
  loops, proved equal to `Extraction`. The module also proves the bounds,
  soundness, completeness and output-order properties.
- `FromKeys`: `Dedup`, which is `list(dict.fromkeys(xs))` (app.py:128, 130).
- `Summary`:
  - `Nearby`, the proximity filter of the two inner loops (app.py:118-124);
  - `Record`, one case record (app.py:126-131);
  - `Records` and `SummaryOf`, the whole summary (app.py:104-133);
  - the imperative methods `BuildSummary`, `RecordFor` and `RelatedTexts`,
    proved equal to them;
  - the proximity, record-count, no-repeat and first-seen-order properties.
- `Pipeline`: what holds when the summary is built from the extractor's own
  output, as the request handler does (app.py:149-150).
- `WorkedExample`: the sentence "John Smith was arrested in Madrid for
  murder.", with a few single-keyword cases.

Three behaviours of `app.py` are easy to miss.

- Inside the LOCATION block and the LAW block, spans are grouped by keyword
  in list order. They are ascending by `start` only within one keyword's
  group. There is no ordering by `start` across the whole block.
- In the example sentence, "Madrid" is also a PERSON span, because it is a
  capitalised word. So the sentence gives two case records.
- In the example sentence, each record's crimes are `["murder", "arrested"]`.
  "murder" is first in the keyword list, so it comes first, although it comes
  later in the text.

## Model

| member | source | states |
|---|---|---|
| Text.WordCount | app.py:60 | `len(name.split())` is at most the length, and is zero exactly when the text is all whitespace |
| Text.SpaceCount | app.py:60 | the number of spaces is at most the length |
| Text.WordCountPrefix | app.py:60 | a prefix has no more words than the whole text |
| Text.WordCountSuffix | app.py:60 | text after a whitespace character has no more words than the whole text |
| Text.WordCountWithin | app.py:60 | a slice that starts after a whitespace character has no more words than an enclosing slice |
| PersonPass.MatchAt | app.py:58 | a match of the PERSON pattern anchored at `i` ends at least two characters later and inside the text |
| PersonPass.TokenIsNameRun | app.py:58 | one token `[A-Z][a-z]+` is a name run |
| PersonPass.ExtendNameRun | app.py:58 | a name run followed by a space and a token is a longer name run |
| PersonPass.ExtendRunIsLongest | app.py:58 | the greedy, backtracking star ends on the last boundary-terminated name run from the match start, or fails when there is none |
| PersonPass.MatchIsLongestNameRun | app.py:58 | the match at `i` is a name run with `\b` at both ends, and no longer one exists; there is no match exactly when no such run exists |
| PersonPass.PersonScanSound | app.py:58-66 | every PERSON span is labelled PERSON, lies in the text, and its text is the slice it covers |
| PersonPass.NameRunHasWord | app.py:60 | a name run has at least one word |
| PersonPass.NameRunPrefixWords | app.py:59-60 | each prefix of a name run has one more word than the spaces before its last character |
| PersonPass.NameRunWordCount | app.py:59-60 | `len(name.split())` of a name run is its number of spaces plus one: one word per token |
| PersonPass.PersonScanShape | app.py:58-66 | every PERSON span is the whole match at its start, so it is never a truncated run; it is one to four single-space-separated capitalised tokens |
| PersonPass.PersonSpanTokens | app.py:58-66 | every PERSON span has one word per token, so at most three spaces |
| PersonPass.PersonScanOrdered | app.py:58 | PERSON spans come in text order and do not overlap |
| PersonPass.CoveredMatchFollowsName | app.py:58 | a match that starts inside an earlier match is preceded by a space, and from the earlier start up to that space is a name run |
| PersonPass.ScanReaches | app.py:58 | the scan reaches every match start that does not follow a name |
| PersonPass.PersonFound | app.py:58-66 | every match of at most four words that does not follow a name is reported as a PERSON span |
| PersonPass.JoinNameRuns | app.py:58 | a name run, a space and a name run form one name run |
| PersonPass.CoverReachesEnd | app.py:58 | a match that covers the start of another match reaches at least to that match's end, and that start follows a space |
| PersonPass.CoveringMatchDropped | app.py:58-60 | a match that covers the start of a match of five or more words also has five or more words |
| PersonPass.LongRunSkipped | app.py:58-60 | scanning from any offset up to the start of a match of five or more words reports no span overlapping that match |
| PersonPass.LongRunDropped | app.py:58-60 | every match of five or more words the pattern can make, wherever it starts, is overlapped by no PERSON span; none of its tokens is reported on its own |
| KeywordPass.KeywordIndex | app.py:73 | the position of the keyword a text equals ignoring case; a position inside the list names a matching keyword |
| KeywordPass.KeywordScanSound | app.py:74-80 | every span of one search is an occurrence of the keyword, ignoring case, labelled as the pass says |
| KeywordPass.KeywordSpansSound | app.py:73-80 | every span of a keyword pass lies in the text, carries the pass's label, and its text equals a keyword of the list ignoring case |
| KeywordPass.KeywordScanOrdered | app.py:74 | the spans of one keyword come in text order and do not overlap |
| KeywordPass.KeywordScanComplete | app.py:74 | every occurrence of the keyword is reported, or starts strictly inside a reported one |
| KeywordPass.OverlapIsBorder | app.py:74 | two overlapping occurrences of a keyword mean the keyword overlaps itself |
| KeywordPass.KeywordScanFindsAll | app.py:74 | for a keyword that cannot overlap itself, every occurrence is reported |
| KeywordPass.IndexOfMatched | app.py:73 | in a list without duplicates, a text that matches keyword `k` has keyword index `k` |
| KeywordPass.KeywordSpansOrderedPrefix | app.py:73-80 | the spans of the first `n` keywords are ordered by keyword position, then by offset |
| KeywordPass.KeywordSpansOrdered | app.py:73-80 | a keyword block is grouped by keyword in list order, ascending and non-overlapping within a group |
| KeywordPass.KeywordSpansFindAll | app.py:73-80 | every occurrence of a self-overlap-free keyword of the list is in the block |
| KeywordPass.KeywordSpansCover | app.py:73-80 | every occurrence of any keyword of the list is in the block, or starts strictly inside a block span that is an occurrence of the same keyword |
| KeywordPass.KeywordSpanText | app.py:73-80 | the text of every span in the block matches a keyword of the list |
| KeywordPass.KeywordSpansOfEmptyText | app.py:73-80 | the empty text yields no keyword spans |
| KeywordPass.KeywordSpansContain | app.py:73-80 | the spans found for one keyword all appear in the block |
| KeywordPass.LocationKeywordsValid | app.py:69-72 | the 13 place names are non-empty and pairwise different ignoring case |
| KeywordPass.LawKeywordsValid | app.py:83-87 | the 13 legal terms are non-empty and pairwise different ignoring case |
| KeywordPass.ArgentinaOverlapsItself | app.py:70 | "Argentina" overlaps itself, because it begins and ends with `a` |
| KeywordPass.LocationKeywordsSelfOverlapFree | app.py:69-72 | every place name except "Argentina" cannot overlap itself |
| KeywordPass.LawKeywordsSelfOverlapFree | app.py:83-87 | no legal term can overlap itself |
| Entities.OfKind | app.py:105-107 | a label filter is no longer than its input |
| Entities.OfKindMembers | app.py:105-107 | a label filter keeps exactly the spans with that label |
| Entities.OfKindAppend | app.py:105-107 | a label filter distributes over concatenation |
| Entities.OfKindAll | app.py:105-107 | a list whose spans all have the label is its own filter |
| Entities.OfKindNone | app.py:105-107 | a list with no span of the label filters to nothing |
| Extract.ExtractionSpans | app.py:54-97 | every returned span has `0 <= start < end <= len(text)`, and its text is `text[start:end]` |
| Extract.ExtractionBlocks | app.py:55-97 | the PERSON, LOCATION and LAW sub-lists are exactly the three passes' outputs |
| Extract.PersonBlockOrdered | app.py:58-66 | the PERSON block is in text order, and all its spans are PERSON |
| Extract.LocationBlockOrdered | app.py:73-80 | the LOCATION block is in keyword-list order, then text order, and all its spans are LOCATION |
| Extract.LawBlockOrdered | app.py:88-95 | the LAW block is in keyword-list order, then text order, and all its spans are LAW |
| Extract.BlocksOrdered | app.py:55-97 | joining two ordered blocks, the second labelled later, gives an ordered list |
| Extract.ExtractionOrder | app.py:55-97 | the returned list is the PERSON block, then the LOCATION block, then the LAW block, each ordered as above |
| Extract.LocationFound | app.py:69-80 | every case-insensitive occurrence of a place name except "Argentina" yields a LOCATION span with the text as written |
| Extract.InLocationBlock | app.py:73-80 | a LOCATION span of the pass is in the returned list |
| Extract.LawFound | app.py:83-95 | every case-insensitive occurrence of a legal term yields a LAW span |
| Extract.ArgentinaFound | app.py:70-80 | an occurrence of "Argentina" yields a LOCATION span, or starts strictly inside a LOCATION span that is itself an occurrence of "Argentina" |
| Extract.EmptyTextNoEntities | app.py:54-97 | the empty text has no entities |
| Extract.ExtractEntities | app.py:54-97 | the three appending loops return `Extraction(text)` |
| Extract.FindPersons | app.py:58-66 | the PERSON loop returns the PERSON block |
| Extract.PersonAt | app.py:58-66 | one `finditer` step advances the scan and adds the span found there, if it is kept |
| Extract.AppendKeywordSpans | app.py:73-80 | the loop over a keyword list returns that list's block |
| Extract.FindAll | app.py:74-80 | one `finditer` loop returns the spans of one keyword |
| Extract.KeywordAt | app.py:74-80 | one search step advances the scan and adds the occurrence found there |
| FromKeys.FirstIndex | app.py:128 | the first position of an element |
| FromKeys.Dedup | app.py:128 | the result has no repeats, and it has exactly the elements of the input |
| FromKeys.DedupFirstOccurrenceOrder | app.py:128 | kept elements appear in the order of their first occurrences in the input |
| FromKeys.DedupOfDistinct | app.py:128 | a list without repeats is returned unchanged |
| FromKeys.DedupIdempotent | app.py:128 | deduplicating twice is deduplicating once |
| Summary.Abs | app.py:119 | `abs` returns the number or its negation, never negative |
| Summary.Nearby | app.py:118-124 | a text is collected exactly when a span with that text starts strictly within the radius of the position |
| Summary.NearbyAppend | app.py:118-124 | collecting is a filter: it distributes over concatenation, so it keeps the order of the spans |
| Summary.NearbySingle | app.py:118-124 | one span contributes its text exactly when it starts within the radius |
| Summary.FirstNear | app.py:118-124 | the index of the first span within the radius that has a given collected text |
| Summary.FirstNearPrefix | app.py:118-124 | appending a span does not move the first related span of a text already collected |
| Summary.FirstNearLast | app.py:118-124 | an appended related span with a new text is that text's first related span |
| Summary.FirstSeenOrderKept | app.py:118-131 | appending a span keeps a list of collected texts in first-seen order |
| Summary.FirstSeenOrderExtended | app.py:118-131 | appending a related span with a new text keeps first-seen order when that text goes last |
| Summary.DedupNearbySnoc | app.py:118-130 | one more span adds its text to the deduplicated list exactly when it is related and its text is new |
| Summary.DedupNearbyOrdered | app.py:118-131 | the deduplicated collected texts are in the order of each text's first related span |
| Summary.RecordsSnoc | app.py:111-131 | one more person appends that person's record |
| Summary.BuildSummary | app.py:104-133 | the filters and the loop over persons return `SummaryOf(entities)` |
| Summary.RecordFor | app.py:112-131 | one iteration builds the record of one person |
| Summary.RelatedTexts | app.py:118-124 | the inner loop collects the texts of the spans within the radius, in list order |
| Summary.RecordsAt | app.py:111-131 | record `i` is the record of person `i`, and there are as many records as persons |
| Summary.SummaryRecords | app.py:111-131 | one record per PERSON span, in order, named by the span text, with an empty status |
| Summary.CrimesNearby | app.py:118-128 | a text is a crime of record `i` exactly when some LAW span with that text starts fewer than 200 characters from the person; a distance of 200 is excluded |
| Summary.LocationsNearby | app.py:122-130 | a text is a location of record `i` exactly when some LOCATION span with that text starts fewer than 300 characters from the person; a distance of 300 is excluded |
| Summary.RecordTextsFromSpans | app.py:118-130 | every crime is the text of a LAW span, and every location the text of a LOCATION span |
| Summary.RecordListsInFirstSeenOrder | app.py:118-130 | a record's crimes follow the order of their first related LAW span, and its locations that of their first related LOCATION span |
| Summary.RecordListsDistinct | app.py:126-131 | the crimes and locations of a record have no repeats |
| Summary.EmptySummary | app.py:104-133 | no entities give no records |
| Pipeline.CaseRecordsFromExtraction | app.py:149-150 | there is one record per PERSON span, in text order; each name is one to four capitalised words |
| Pipeline.CrimesAreLawKeywords | app.py:149-150 | every crime matches a legal term |
| Pipeline.LocationsAreLocationKeywords | app.py:149-150 | every location matches a place name |
| Pipeline.EmptyTextEmptySummary | app.py:149-150 | an empty text gives no entities and no records |
| WorkedExample.JohnSmithMatch | app.py:58 | the PERSON pattern matches "John Smith" at the start of the sentence |
| WorkedExample.JohnSmithIsAPerson | app.py:58-66 | "John Smith" at 0 is a PERSON span of the sentence |
| WorkedExample.MadridMatch | app.py:58 | the PERSON pattern matches "Madrid" at 27, and no name run comes before it |
| WorkedExample.MadridIsAPerson | app.py:58-66 | "Madrid" at 27 is a PERSON span of the sentence |
| WorkedExample.MadridIsALocation | app.py:73-80 | "Madrid" at 27 is a LOCATION span of the sentence |
| WorkedExample.MurderFound | app.py:88-95 | "murder" at 38 is a LAW span of the sentence |
| WorkedExample.ArrestedFound | app.py:88-95 | "arrested" at 15 is a LAW span of the sentence |
| WorkedExample.MurderAndArrestedIndices | app.py:83-84 | "murder" and "arrested" are legal terms 0 and 4 |
| WorkedExample.MurderBeforeArrested | app.py:83-95 | in any text, every "murder" span is output before every "arrested" span |
| WorkedExample.AssaultedYieldsAssault | app.py:85-95 | the search is by substring, so "assaulted" yields the LAW span "assault" |
| WorkedExample.UpperCaseMadrid | app.py:73-80 | "MADRID" yields a LOCATION span whose text keeps the case as written |
| WorkedExample.ExampleFilters | app.py:105-107 | the three label filters of the example's five spans |
| WorkedExample.DedupExample | app.py:128 | deduplicating the example's lists changes nothing |
| WorkedExample.NearbyExample | app.py:118-124 | a person who starts at or before offset 27 is near both LAW spans and the LOCATION span |
| WorkedExample.RecordExample | app.py:126-131 | such a person's record has crimes `["murder", "arrested"]` and locations `["Madrid"]` |
| WorkedExample.WorkedExampleSummary | app.py:104-133 | the example's five spans give two records, "John Smith" and "Madrid", each with crimes `["murder", "arrested"]`, status `""` and locations `["Madrid"]` |

## Left out

- The web layer is not modelled. This covers Flask, CORS, the `/api/process` route, the 400 check for blank input, and JSON serialisation (app.py:1-5, 140-156).
- Translation is not modelled: the DeepL request, its error fallback, and the API-key configuration (app.py:10, 17-47). It is a network call and depends on process configuration.
- Server start-up is not modelled (app.py:163-164).
- Text.AtBoundary: only ASCII letters, digits and `_` count as word characters. Python's `\b` also counts non-ASCII letters.
- Text.ToLower: case-insensitive matching folds ASCII letters only. Python's `re.IGNORECASE` also applies Unicode folding, for example the Kelvin sign matches `k`.
- Keywords are searched as literal strings. None of them contains a regular-expression metacharacter, so this matches the source.
- Entities.Entity: the source's dictionaries become a datatype, and the `label` key becomes the field `kind`.
- Summary.BuildSummary: it takes the `text` argument and ignores it, as the source does.
- Lists are appended by building new sequences, not by updating a list in place. The three passes append in turn to the one `entities` list (app.py:55, 61, 75, 90). Nothing else refers to that list while it is built, so aliasing plays no part.
- Extract.LocationFound: "Argentina" is excluded. It begins and ends with `a`, so in "Argentinargentina" the second occurrence starts inside the first. `finditer` does not report it. Extract.ArgentinaFound states what does hold for that keyword.
- PersonPass.PersonFound: completeness is stated only for a match whose start does not directly follow a name run and a space. Such a start may lie inside an earlier match and is then rightly not reported, like "Smith" in "John Smith". It may also be reported, like "Bob" in "xAnn Bob", but the lemma does not cover that case.
- WorkedExample.WorkedExampleSummary: the example is proved span by span. Each of its five spans is in the extractor's output, and the LAW spans are in list order. That the output for the sentence holds no other span is not proved.
