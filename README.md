# ProVerse-Live core, modelled in Dafny

ProVerse-Live listens to a sermon and suggests Bible verses live. This
project models and proves the four places where its logic lives:

- **The hybrid search engine** (`src/search/engine.ts`), modules `Engine`,
  `Fusion`, `Ranking`, `Themes`, `Lists`. A `SearchEngine` class holds the
  corpus, the embedding cache and whether the lexical index was built.
  `InitEngine` sets them. `QuerySuggestions` runs the query steps in order:
  - blank-window exit;
  - theme detection;
  - query embedding;
  - lazy population of the cache in batches of 500;
  - the dense top 50;
  - de-duplicated lexical hit ids;
  - reciprocal-rank fusion cut to 40;
  - the weighted re-rank, which drops ids without a verse or an embedding;
  - the hysteresis reorder;
  - the cut to `topK` with the output mapping.

  Each step is proved against a function, and `Respond` specifies a whole
  query: its result and the cache it leaves behind.
- **The history log** (`src/lib/history-store.ts`), module `History`. A
  `HistoryStore` class owns the storage slot. `AddEvent` keeps a
  newest-first log capped at 1000 events; there are also `GetHistory`,
  `Clear` and `ExportToCSV`. The CSV export is proved to read back, through
  a reference CSV reader, as the header and one row of field values per
  event.
- **The plain-text Bible builder** (`scripts/build-bible.js`), module
  `BuildBible`. It covers:
  - `autoThemes`;
  - `normalizeBook` and `bookToOSIS`;
  - the line pattern of `parsePlainText`, which is modelled as a
    backtracking matcher and proved to pick the longest possible book group;
  - the parsing loop itself.
- **The Project Gutenberg KJV heading recogniser**
  (`scripts/build-bible-kjv-gutenberg.js`), module `Gutenberg`. It covers
  `cleanBookName`, an ordered chain of prefix strips plus a table of
  variants, and `detectBookFromHeader`, which maps a book heading to a
  canonical name. Every regular expression there has the `i` flag. The
  model therefore compares literal words after ASCII lower-casing.

Shared pieces:
- `Text`: JavaScript's whitespace and word classes, case mapping, trim,
  whitespace collapsing, substring search, join and split, decimal numerals.
- `Wrappers`: `Option` and `Result`.
- `Types`: the `Verse` and `Suggestion` records.

Foreign calls are parameters of the model:
- the embedding model: a function from text to an optional vector, where
  `None` means the provider failed;
- cosine similarity: a function from two vectors to a real;
- `toFixed(3)` rounding: a function on reals;
- the FlexSearch result: a list of optional per-field id lists;
- the clock and the random id suffix of the history store.

The table of canonical book names (`BOOK_NAME_TO_OSIS`) is not part of this
model; it is the set-valued parameter `books`.

Some behaviour of the code is easy to miss; the model follows the code:
- After a lazy population that fails part-way, the cache is non-empty. The
  code only populates an empty cache, so later queries never retry; they
  fail on the missing embedding (`Engine.NoRetryAfterPartialPopulation`).
- Lower-case ordinals behave as the code makes them:
  - "the first book of moses, called genesis" reaches the Moses lookup
    with the key "first" and gives `undefined`;
  - `cleanBookName`'s ordinal callback turns "first" into "undefined".

## Model

| member | source | states |
|---|---|---|
| `Themes.DetectThemes` | src/search/engine.ts:43-55 | a theme is returned exactly when the lower-cased text contains one of its keywords; themes come in table order (a subsequence of anxiety, forgiveness, love, faith), without repeats |
| `Themes.MentionsAnyIff` | src/search/engine.ts:53 | the keyword test holds exactly when some keyword of the list occurs in the text |
| `Themes.MatchingMembers` | src/search/engine.ts:50-55 | for any keyword table, a theme is reported exactly when one of its keywords occurs |
| `Themes.MatchingOrdered` | src/search/engine.ts:52-54 | reported themes are a subsequence of the table's theme names |
| `Themes.MatchingDistinct` | src/search/engine.ts:52-54 | a table without repeated names reports each theme at most once |
| `Fusion.Rrf` | src/search/engine.ts:35-41 | the nested-loop score record, then a stable sort by descending score, yields exactly the fusion specification `RrfSpec` |
| `Fusion.ScoreList` | src/search/engine.ts:37-39 | after one more list, the record's keys are the first-seen ids so far and each score is the sum of `1/(k+rank+1)` over the lists seen |
| `Fusion.RrfExactlyOnce` | src/search/engine.ts:35-41 | the fused list holds every id of every input list, each exactly once |
| `Fusion.RrfOrdered` | src/search/engine.ts:40 | ids come out by non-increasing fused score; ties keep first-seen order |
| `Fusion.RrfScorePositive` | src/search/engine.ts:38 | an id's fused score is positive exactly when some list contains it |
| `Fusion.RrfSingle` | src/search/engine.ts:35-41 | fusing one list without repeats returns that list: the result depends only on ranks |
| `Lists.Dedup` | src/search/engine.ts:226 | the de-duplicated list has the same elements and is no longer |
| `Lists.DedupFirstSeen` | src/search/engine.ts:226 | de-duplication has no repeats and keeps first-occurrence order |
| `Lists.DedupDistinct` | src/search/engine.ts:226 | a list without repeats is its own de-duplication |
| `Lists.SliceTo` | src/search/engine.ts:221 | `slice(0, end)` is a prefix of length `min(end, n)`, and counts back from the end for a negative `end` |
| `Lists.SortDesc` | src/search/engine.ts:220 | sorting is a permutation |
| `Lists.SortDescSorted` | src/search/engine.ts:220 | the sort is stable and non-increasing by score |
| `Lists.SortDescOrdered` | src/search/engine.ts:261 | an already ordered list is left unchanged |
| `Ranking.DenseTopShape` | src/search/engine.ts:218-222 | the dense list has the smaller of 50 and the corpus size in corpus ids, without repeats when corpus ids are distinct |
| `Ranking.DenseTopRankOnly` | src/search/engine.ts:218-222 | any strictly increasing reshaping of the similarities gives the same dense list |
| `Ranking.BmIdsFirstSeen` | src/search/engine.ts:225-226 | `bmIds` is exactly the ids of the field results, without repeats, in first-seen order across the concatenated results |
| `Ranking.EvaluateSpec` | src/search/engine.ts:232-258 | an id is dropped exactly when it has no verse or no cached embedding; otherwise the score is `0.8·dense + 0.15·lex + 0.05·theme`, with lex 0.02 for a lexical hit and theme 0.05 for a shared theme, and each reason string is present exactly when its condition holds |
| `Ranking.BoostsAreSmall` | src/search/engine.ts:246-249 | the boosts add at most 0.0055 to `0.8·dense`, so a dense lead above 0.006875 always wins |
| `Ranking.ReRankSound` | src/search/engine.ts:232-261 | every re-ranked candidate is the evaluation of a fused id and its verse is in the corpus |
| `Ranking.ReRankComplete` | src/search/engine.ts:232-261 | no fused id with a verse and an embedding is lost |
| `Ranking.ReRankOrdered` | src/search/engine.ts:260-261 | candidates are ordered by non-increasing score and have distinct ids when the fused ids are distinct |
| `Ranking.StabilizeSpec` | src/search/engine.ts:269-276 | hysteresis is a permutation; it changes the list exactly when the previous top differs from the new top, is within 0.05 of it and is still ranked; it then moves to the front and the others keep their order |
| `Ranking.StabilizeDistinct` | src/search/engine.ts:269-276 | hysteresis keeps candidate ids distinct |
| `Ranking.HysteresisExamples` | src/search/engine.ts:270-275 | with the previous confidence 0.70, a new top at 0.74 is held back and one at 0.76 wins |
| `Ranking.Present` | src/search/engine.ts:278-287 | at most `topK` suggestions, or all when fewer are ranked; each copies the candidate at the same rank, its confidence is the rounded score, and empty reasons become "hybrid retrieval" |
| `Engine.Hysteresis` | src/search/engine.ts:270-275 | the `splice`/`unshift` reorder computes `Stabilize` |
| `Engine.Rank` | src/search/engine.ts:218-287 | the dense, lexical, fusion, re-rank, hysteresis and output steps compute `Answer` |
| `Engine.EmbedBatch` | src/search/engine.ts:212-213 | a successful batch has one vector per text |
| `Engine.EmbedBatchSpec` | src/search/engine.ts:212-213 | a batch fails exactly when some text fails to embed, and otherwise holds the texts' vectors in order |
| `Engine.PopulateAligned` | src/search/engine.ts:209-216 | population appends whole batches in corpus order; entry `j` is the embedding of verse `j` |
| `Engine.PopulateComplete` | src/search/engine.ts:209-216 | the cache covers the corpus exactly when every verse text embeds |
| `Engine.SearchEngine.constructor` | src/search/engine.ts:19-24 | a new engine has no corpus, no cache and no index |
| `Engine.SearchEngine.InitEngine` | src/search/engine.ts:105-109 | the corpus is the given one, the index is built and the cache is the precomputed embeddings or empty |
| `Engine.SearchEngine.PopulateCache` | src/search/engine.ts:209-216 | the loop leaves the cache equal to `Populate`, and reports success exactly when the cache covers the corpus |
| `Engine.SearchEngine.QuerySuggestions` | src/search/engine.ts:191-288 | the result and the new cache are those of `Respond`; the corpus and index are unchanged |
| `Engine.RespondErrors` | src/search/engine.ts:199-225 | a query fails with ProviderUnavailable exactly when the window or, on an empty cache, some verse fails to embed; with EmbeddingMissing exactly when a non-empty cache is shorter than the corpus; with IndexMissing exactly when the cache is complete and no index exists |
| `Engine.RespondCache` | src/search/engine.ts:199-216 | a blank window answers `[]` and changes nothing; population runs only on an empty cache and leaves entry `j` embedding verse `j` |
| `Engine.RespondAnswers` | src/search/engine.ts:218-287 | every answer has at most 40 and at most `topK` suggestions, each a distinct corpus verse with the requested translation and a reason |
| `Engine.AfterEmbeddingErrors` | src/search/engine.ts:209-225 | after the window embeds, the error depends only on how complete the cache is and on the index |
| `Engine.AfterEmbeddingCache` | src/search/engine.ts:209-216 | a non-empty cache is kept; an empty one is refilled aligned with the corpus |
| `Engine.AfterEmbeddingAnswers` | src/search/engine.ts:218-287 | answers after the embedding step meet the same bounds |
| `Engine.NoRetryAfterPartialPopulation` | src/search/engine.ts:209-216 | after a population that fails part-way, every later non-blank query whose window embeds fails with EmbeddingMissing |
| `Engine.AnswerSpec` | src/search/engine.ts:218-287 | the ranking steps over a complete cache meet the answer bounds |
| `Engine.ReRankBounds` | src/search/engine.ts:229-261 | the re-ranked candidates are at most 40, distinct and from the corpus |
| `Engine.StabilizeBounds` | src/search/engine.ts:269-276 | hysteresis preserves those bounds |
| `Engine.PresentBounds` | src/search/engine.ts:278-287 | the output step turns those bounds into the answer bounds |
| `History.Read` | src/lib/history-store.ts:18-27 | only a stored event array reads as events; anything else reads as `[]` |
| `History.NewIdTimestamp` | src/lib/history-store.ts:47 | the id is the decimal timestamp, a dash and the suffix, and its leading digits read back as the timestamp |
| `History.Stamp` | src/lib/history-store.ts:46-51 | the new event carries the caller's fields plus the given id, time and timestamp |
| `History.Pushed` | src/lib/history-store.ts:52-55 | the stored list is the new event, then earlier events in order, cut to 1000 |
| `History.KeepSpec` | src/lib/history-store.ts:62 | the filter is an ordered subsequence holding every event with the action, as often as the list does, and nothing else |
| `History.KeepPrefix` | src/lib/history-store.ts:55 | filtering a prefix gives a prefix of the filtered list |
| `History.PushedViews` | src/lib/history-store.ts:52-62 | after a push the new event heads its own action's view, and every view loses at most its oldest entries |
| `History.EscapePlain` | src/lib/history-store.ts:86 | a field without quotes is left unescaped |
| `History.RowParses` | src/lib/history-store.ts:81-94 | one quoted, comma-joined row reads back as its fields, with the doubled quotes undone |
| `History.RowsParse` | src/lib/history-store.ts:94 | the newline-joined rows read back as one field list per event |
| `History.HeaderSplits` | src/lib/history-store.ts:71-92 | the header line splits back into the eight column names |
| `History.ParseCsvOf` | src/lib/history-store.ts:91-94 | a text reads as its first line's column names followed by the rows of the rest |
| `History.ExportRoundTrip` | src/lib/history-store.ts:69-95 | the export reads back as the header and one row per event, with verse and text unescaped, when the unescaped fields contain no quote |
| `History.HistoryStore.constructor` | src/lib/history-store.ts:16-20 | the store starts with the given storage slot |
| `History.HistoryStore.Write` | src/lib/history-store.ts:29-35 | a refused write changes nothing; an accepted one reads back as written |
| `History.HistoryStore.AddEvent` | src/lib/history-store.ts:44-57 | returns the stamped event; the stored list becomes the event followed by the previous events, cut to 1000 |
| `History.HistoryStore.GetHistory` | src/lib/history-store.ts:59-63 | "all" returns the stored list; an action returns exactly the events with that action, in stored order |
| `History.HistoryStore.Clear` | src/lib/history-store.ts:65-67 | after an accepted write every view of the history is empty |
| `History.HistoryStore.ExportToCSV` | src/lib/history-store.ts:69-96 | the export of the stored events reads back as the header and their rows, when the unescaped fields contain no quote |
| `BuildBible.AutoThemes` | scripts/build-bible.js:11-19 | a tag is pushed exactly when the lower-cased text contains one of its keywords; tags come in the order anxiety, forgiveness, love, faith, without repeats |
| `BuildBible.TaggedAutoThemes` | scripts/build-bible.js:11-19 | the builder's table reports a theme exactly when one of its keywords occurs, in table order, once |
| `BuildBible.AutoThemesTable` | scripts/build-bible.js:14-17 | the four tests of the builder read entry by entry, with no "troubled" and no "charity" |
| `BuildBible.AutoThemesDetected` | scripts/build-bible.js:11-19 | every theme the builder attaches to a text is one the engine detects in it |
| `BuildBible.UpperFirstWordSpec` | scripts/build-bible.js:22 | every other character is unchanged, and the first word character becomes its upper-case form, so it is no longer lower case |
| `BuildBible.NormalizeBookSpec` | scripts/build-bible.js:21-23 | the name has no leading, trailing or doubled whitespace, and equals the collapsed, trimmed name except that its first word character is upper-cased |
| `BuildBible.NormalizeBookIdempotent` | scripts/build-bible.js:21-23 | normalising twice is normalising once |
| `BuildBible.BookToOSIS` | scripts/build-bible.js:24 | the OSIS code has no whitespace and no lower-case letter |
| `BuildBible.BookToOSISReference` | scripts/build-bible.js:24 | the OSIS code is the upper-cased non-whitespace characters of the name |
| `BuildBible.SplitLines` | scripts/build-bible.js:28 | splitting always yields at least one line |
| `BuildBible.SplitLinesJoin` | scripts/build-bible.js:28 | without carriage returns, joining the lines with newlines gives the text back |
| `BuildBible.SplitLinesCrLf` | scripts/build-bible.js:28 | a newline, optionally preceded by a carriage return, separates one line from the lines of the rest |
| `BuildBible.NonEmptyFilter` | scripts/build-bible.js:28 | the kept lines are an ordered subsequence holding every non-empty line |
| `BuildBible.MatchLineSpec` | scripts/build-bible.js:30-32 | a line matches exactly when some split point works; the book group is the longest prefix of book shape followed by a matching `\s+C:V\s+text` |
| `BuildBible.MatchLineOf` | scripts/build-bible.js:30-32 | every line made of a book, whitespace, digits, a colon, digits, whitespace and text matches |
| `BuildBible.LineRecords` | scripts/build-bible.js:32-33 | a line yields at most one record |
| `BuildBible.ParsePlainText` | scripts/build-bible.js:27-47 | the loop yields the records of the non-empty lines in order |
| `BuildBible.RecordsBound` | scripts/build-bible.js:31-45 | there are never more records than lines |
| `BuildBible.RecordsFromLines` | scripts/build-bible.js:31-45 | the records are exactly those of the matching lines |
| `BuildBible.RecordId` | scripts/build-bible.js:35 | the id is the OSIS code, chapter and verse joined by dots; it splits back into them and has no whitespace or lower-case letter |
| `BuildBible.RecordFields` | scripts/build-bible.js:36-43 | the book is normalised, the text trimmed, chapter and verse are the numerals' values, and the themes are the builder's tags of the text |
| `BuildBible.BookCharsNoDot` | scripts/build-bible.js:35 | an OSIS code of a matched book has no dot, so the id's dots separate its three parts |
| `Gutenberg.StrippedNormalized` | scripts/build-bible-kjv-gutenberg.js:3-17 | after the strips the name has single spaces and no outer whitespace |
| `Gutenberg.StrippedChain` | scripts/build-bible-kjv-gutenberg.js:9-17 | without a leading "The", stripping is the prefix chain applied once each, in order |
| `Gutenberg.CleanBookNameNormalized` | scripts/build-bible-kjv-gutenberg.js:1-61 | the result is a variant's canonical name or a single-spaced, trimmed name |
| `Gutenberg.StrippedPlain` | scripts/build-bible-kjv-gutenberg.js:3-60 | a name that no rewrite after "The" applies to comes back unchanged |
| `Gutenberg.CanonicalUnchanged` | scripts/build-bible-kjv-gutenberg.js:1-61 | such a name comes back unchanged, with or without a leading "The " |
| `Gutenberg.VariantsApplied` | scripts/build-bible-kjv-gutenberg.js:20-51 | a variant key, with or without "The ", maps to its canonical name |
| `Gutenberg.NotVariant` | scripts/build-bible-kjv-gutenberg.js:20-51 | a name that starts unlike every key is not a variant |
| `Gutenberg.OrdinalNumbered` | scripts/build-bible-kjv-gutenberg.js:54 | "First X", "Second X", "Third X" become "1 X", "2 X", "3 X" |
| `Gutenberg.OrdinalBookOf` | scripts/build-bible-kjv-gutenberg.js:54-57 | "First Book of X" and its kin become "1 X", "2 X", "3 X" |
| `Gutenberg.DigitBookOfBook` | scripts/build-bible-kjv-gutenberg.js:57 | "d Book of X" collapses to "d X" |
| `Gutenberg.GeneralOfClean` | scripts/build-bible-kjv-gutenberg.js:14-15 | "General of X" cleans to "of X": the "Epistle of" strip no longer applies once "General" is gone |
| `Gutenberg.ApostleClean` | scripts/build-bible-kjv-gutenberg.js:1-61 | "John" and "Peter" clean to themselves |
| `Gutenberg.Known` | scripts/build-bible-kjv-gutenberg.js:77 | the name itself exactly when the table knows it, and `null` exactly when it does not |
| `Gutenberg.KnownClean` | scripts/build-bible-kjv-gutenberg.js:76-77 | the cleaned name exactly when the table knows the cleaned name, and `null` exactly when it does not |
| `Gutenberg.KingsBook` | scripts/build-bible-kjv-gutenberg.js:92-94 | the cleaned "1 X" for the ordinal spelled "First" and "2 X" for any other, X without a leading "the", exactly when the table knows it, else `null` |
| `Gutenberg.LetterClean` | scripts/build-bible-kjv-gutenberg.js:1-61 | a one-word name cleans to itself, or to its canonical name when it is a variant spelling such as "Psalm" |
| `Gutenberg.DigitLetterClean` | scripts/build-bible-kjv-gutenberg.js:53-60 | "d X" for a digit d and a one-word X that is no variant cleans to itself |
| `Gutenberg.BookOfProphetAsWritten` | scripts/build-bible-kjv-gutenberg.js:9-12 | as written, "Book of the Prophet X" cleans to "the Prophet X": line 10 fires first, so lines 11 and 12 never match |
| `Gutenberg.BookOfProphetFixed` | scripts/build-bible-kjv-gutenberg.js:9-12 | with the longer prefixes tried first, "Book of the Prophet X" cleans to what "X" alone cleans to |
| `Gutenberg.CleanBookNameFixedAgrees` | scripts/build-bible-kjv-gutenberg.js:9-17 | the reordering changes nothing on a name that none of the three "Book of" prefixes begins |
| `Gutenberg.MosesBook` | scripts/build-bible-kjv-gutenberg.js:68-70 | the lookup gives a Moses book, and `undefined` exactly for an ordinal not spelled First to Fifth |
| `Gutenberg.MosesOrdinal` | scripts/build-bible-kjv-gutenberg.js:67 | each title ordinal is recognised as its own alternative |
| `Gutenberg.MosesHeadings` | scripts/build-bible-kjv-gutenberg.js:67-71 | "The First…Fifth Book of Moses, Called X" gives Genesis, Exodus, Leviticus, Numbers, Deuteronomy, whatever X is |
| `Gutenberg.ProphetHeading` | scripts/build-bible-kjv-gutenberg.js:73-78 | "The Book of the Prophet X" gives the cleaned X when the table knows it and `null` otherwise; X itself when X is no variant |
| `Gutenberg.BookOfHeading` | scripts/build-bible-kjv-gutenberg.js:73-78 | "The Book of X" gives the cleaned X when the table knows it and `null` otherwise; X itself when X is no variant |
| `Gutenberg.ProverbsTitle` | scripts/build-bible-kjv-gutenberg.js:81 | "The Proverbs" in any case gives Proverbs |
| `Gutenberg.SongTitle` | scripts/build-bible-kjv-gutenberg.js:84 | "The Song of Solomon" gives Song of Solomon |
| `Gutenberg.LamentationsTitle` | scripts/build-bible-kjv-gutenberg.js:87 | "The Lamentations of Jeremiah" gives Lamentations |
| `Gutenberg.ActsTitle` | scripts/build-bible-kjv-gutenberg.js:105 | "The Acts of the Apostles" gives Acts |
| `Gutenberg.KingsHeading` | scripts/build-bible-kjv-gutenberg.js:89-95 | "The First/Second Book of the X" gives the cleaned "1 X"/"2 X" when the table knows it, else `null` |
| `Gutenberg.KingsPlainHeading` | scripts/build-bible-kjv-gutenberg.js:89-95 | "The First/Second Book of X" gives the cleaned "1 X"/"2 X" when the table knows it, else `null` |
| `Gutenberg.KingsTitles` | scripts/build-bible-kjv-gutenberg.js:89-95 | "The First Book of the Kings" gives "1 Kings" and the second "2 Kings", when the table knows them, else `null` |
| `Gutenberg.GospelHeading` | scripts/build-bible-kjv-gutenberg.js:97-102 | "The Gospel according to St. X" gives the cleaned X when the table knows it and `null` otherwise; X itself when X is no variant |
| `Gutenberg.OrdinalNotKings` | scripts/build-bible-kjv-gutenberg.js:90 | an ordinal heading not followed by "Book" never reaches the Kings pattern |
| `Gutenberg.TargetOf` | scripts/build-bible-kjv-gutenberg.js:108 | the epistle pattern captures "John" or "Peter" from "of John" or "of Peter" |
| `Gutenberg.EpistleLineBook` | scripts/build-bible-kjv-gutenberg.js:108-118 | an ordinal epistle heading gives the lookup of its cleaned target, numbered only when that target is John or Peter |
| `Gutenberg.EpistleOfName` | scripts/build-bible-kjv-gutenberg.js:108-118 | "The <ordinal> Epistle of X" gives the lookup of the cleaned X, numbered only when it is John or Peter |
| `Gutenberg.EpistleToHeading` | scripts/build-bible-kjv-gutenberg.js:107-119 | "The Epistle of Paul the Apostle to the X" gives the cleaned X when the table knows it and `null` otherwise; X itself when X is no variant |
| `Gutenberg.OrdinalEpistleAsWritten` | scripts/build-bible-kjv-gutenberg.js:110-118 | as written, "The First Epistle of Paul the Apostle to the X", X not John or Peter, looks up the bare X, so gives `null` when the table lacks it |
| `Gutenberg.EpistleNameFixedAgrees` | scripts/build-bible-kjv-gutenberg.js:110-118 | the corrected lookup uses the digit for every name, and agrees with the source without a digit or for John and Peter |
| `Gutenberg.OrdinalEpistleFixed` | scripts/build-bible-kjv-gutenberg.js:110-118 | with the correction, the same heading gives "1 X", "2 X" or "3 X" when the table knows it, else `null` |
| `Gutenberg.NumberedAgrees` | scripts/build-bible-kjv-gutenberg.js:107-119 | the correction changes nothing on lines without an epistle match, without an ordinal, or addressed to John or Peter |
| `Gutenberg.EpistleOfApostle` | scripts/build-bible-kjv-gutenberg.js:108-116 | "The First/Second/Third Epistle of John/Peter" gives "1/2/3 John/Peter" when the table knows it, else `null` |
| `Gutenberg.EpistleGeneralName` | scripts/build-bible-kjv-gutenberg.js:108-118 | "The <ordinal> Epistle General of X" looks up the cleaned "General of X" |
| `Gutenberg.EpistleGeneralAsWritten` | scripts/build-bible-kjv-gutenberg.js:108-118 | as written, "The First Epistle General of Peter" looks up "of Peter", so gives `null` unless the table has that name |
| `Gutenberg.EpistleGeneralFixed` | scripts/build-bible-kjv-gutenberg.js:108-118 | with "General" accepted after "Epistle", the same heading gives "1 Peter" when known |
| `Gutenberg.FixedAgrees` | scripts/build-bible-kjv-gutenberg.js:108 | the correction changes nothing on headings without "General" after "Epistle" |
| `Gutenberg.DetectBookFromHeaderFixed` | scripts/build-bible-kjv-gutenberg.js:63-129 | the corrected recogniser returns `null`, a known name or a fixed title, and `undefined` only on Moses headings |
| `Gutenberg.RevelationHeading` | scripts/build-bible-kjv-gutenberg.js:122-124 | every heading "The Revelation…" gives Revelation |
| `Gutenberg.FallbackHeading` | scripts/build-bible-kjv-gutenberg.js:126-128 | a line that does not begin with "The" and never mentions Revelation gives its cleaned self when the table knows it, else `null` |
| `Gutenberg.Classify` | scripts/build-bible-kjv-gutenberg.js:66-128 | a found name is in the table or is a fixed title; `undefined` only comes from a Moses heading with a mis-cased ordinal |
| `Gutenberg.ClassifyNamed` | scripts/build-bible-kjv-gutenberg.js:74-102 | the prophets, fixed titles, Kings and gospels never give `undefined`, and only known or fixed names |
| `Gutenberg.ClassifyLate` | scripts/build-bible-kjv-gutenberg.js:105-128 | Acts, the epistles, Revelation and the fallback never give `undefined`, and only known or fixed names |
| `Gutenberg.DetectBookFromHeader` | scripts/build-bible-kjv-gutenberg.js:63-129 | every result is `null`, a name in the table, or one of the fixed titles; `undefined` only on a Moses heading |

## Left out

- The embedding model, its single-flight loading and CDN errors
  (`ensureEmbedder`, `embed`): these are concurrency and a foreign call, so
  the model only has the abstract text-to-vector function. A batch fails as
  a whole when one of its texts fails.
- Cosine similarity, its `1e-8` epsilon and `toFixed(3)` rounding are
  floating point. They are abstract functions, and scores are exact reals.
- The FlexSearch index build and search are a foreign library. The search
  result is an input; only whether the index exists is modelled.
- A missing embedding in the dense step makes the source throw from
  `cos`. The model reports it as the error `EmbeddingMissing`, and does not
  model the JavaScript exception itself.
- The commented-out earlier `querySuggestions` is dead code.
- `console.warn` calls are logging only.
- `localStorage`, `JSON.parse`/`JSON.stringify`, `Date` and `Math.random`:
  - the storage is a slot field, and a quota failure is the `accepted` flag;
  - JSON decoding is reduced to the slot's cases;
  - id suffix, time and timestamp are parameters;
  - the ISO date and the number-to-string conversion in the export are
    abstract functions.
- `History.ExportRoundTrip`: it is stated only for exports whose unescaped
  fields (id, date, time, translation, confidence) contain no double
  quote. The action is always a plain word. The source does not escape
  those fields, so other inputs have no round trip.
- Only ASCII is modelled for case mapping and for the `\w` class;
  `toLowerCase`/`toUpperCase` on other letters is not part of this model.
  Whitespace covers JavaScript's `\s` set as listed in `Text.IsSpace`.
- Property lookups on `Object.prototype` keys (a heading such as "The
  Constructor" finding the inherited `constructor` in the tables) are not
  modelled. Names are looked up in the variants table and in `books` only.
- `Object.entries` lists integer-like keys first. No key of the models'
  tables is integer-like, so insertion order is assumed.
- `parseUSFM` and `main` of the plain-text builder, the whole of
  `scripts/precompute-embeddings.js` and `scripts/test-connection.js`, the
  ProPresenter client and the React components: these are filesystem,
  network and UI code, and are not part of this model.
- `Engine.SearchEngine.PopulateCache` and `Engine.SearchEngine.QuerySuggestions`:
  each query runs to the end before the next starts. In the source the
  batch loop awaits between batches and has no guard, so two overlapping
  queries that both find the cache empty would interleave their batches.
  The alignment of the cache with the corpus (`PopulateAligned`,
  `RespondCache`) is proved for queries that do not overlap.
- Parsed chapter and verse numbers are the decimal values of the digit
  groups as unbounded integers; `Number` would lose precision above 2^53.

## Findings

| source | as written | input that shows it | evidently intended | confidence | as-written member | corrected member |
|---|---|---|---|---|---|---|
| scripts/build-bible-kjv-gutenberg.js:108 | the epistle pattern takes "General" only before "Epistle", so for "The First Epistle General of Peter" the name group captures "General of Peter", which cleans to "of Peter" and is not a book | "The First Epistle General of Peter" gives `null` | "1 Peter" (likewise "The First Epistle General of John" gives "1 John"), as the comment on line 107 names that heading | not executed | `Gutenberg.EpistleGeneralAsWritten` | `Gutenberg.EpistleGeneralFixed` |
| scripts/build-bible-kjv-gutenberg.js:113-118 | the ordinal of an epistle heading is used only when the cleaned name is John or Peter, so every other numbered epistle looks up its bare name | "The First Epistle of Paul the Apostle to the Corinthians" looks up "Corinthians", and gives `null` when the table has only "1 Corinthians" and "2 Corinthians" | "1 Corinthians", the numbered book, as for John and Peter | not executed | `Gutenberg.OrdinalEpistleAsWritten` | `Gutenberg.OrdinalEpistleFixed` |
| scripts/build-bible-kjv-gutenberg.js:10-12 | "Book of" is removed before "Book of the" and "Book of the Prophet" are tried, so those two strips never apply | `cleanBookName("Book of the Prophet Isaiah")` gives "the Prophet Isaiah", which is no book, so the fallback of line 127 gives `null` for that heading | "Isaiah", as the comment on line 12 says | not executed | `Gutenberg.BookOfProphetAsWritten` | `Gutenberg.BookOfProphetFixed` |
