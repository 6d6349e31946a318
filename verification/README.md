# Commercial-lease assistant core, modelled in Dafny

This project models the retrieval core of a commercial-lease question-answering
backend and proves properties of that model.

- **`LeaseVectorStore`** (backend/utils/retriever.py). An in-memory store of
  embeddings, texts and per-position metadata. It supports batch and single
  insertion, update, clearing, statistics, snapshot save/load, top-k similarity
  search (plain and filtered), removal by position, and grouping of
  near-duplicates.
- **Internal knowledge-base agent** (backend/agents/internal_kb_agent.py). It
  does the following:
  - routes a question to the question/answer, property or master-clause base
    by keyword counts;
  - builds each base's store lazily (cache, then persisted file, then embed the
    source);
  - builds the search texts of property and master-clause rows;
  - shapes raw search results into tagged hits;
  - formats the plain answer shown without a language model;
  - answers a question (`answer_internal_question`), with the search outcome
    and the language model's reply given as parameters.
- **Data scripts.** The clause extractor of
  backend/scripts/populate_vector_store.py, and `clean_money` and the pair
  generator of backend/scripts/generate_qa_csv.py.
- **Text normalisation.** The `clean_text` of backend/models/clause_classifier.py.
- **Keyword analysers.** The keyword fallback of backend/models/risk_detector.py
  and the suggestions of backend/models/redline_suggestor.py.
- **CSV loaders.** Those of backend/utils/file_utils.py.
- **Chat route decisions** (backend/api/routes/chat.py). It covers which agent a
  `source` selects, how the answering base is recognised from the answer text,
  the health summary, the rebuild summary and the knowledge-base self-test.

Everything the original does outside pure logic is a parameter of the model:

| What the original does | What the model uses instead |
|---|---|
| Similarity arithmetic | a function `sim` |
| The embedding service | a function from texts to optional embeddings |
| The file system | a value for what a path holds (`Persisted`, `CsvFile`) |
| How a pickle write ends | `SaveOutcome`: saved, failed to open (the file is untouched), or failed while writing after the open truncated the file |
| What an agent call does, as seen by the routes | a function to its answer or the text of its exception |
| Building the agent and searching, inside `answer_internal_question` | their hits, or the text of the exception they raised |
| The language model's reply | its text, or the text of the exception the call raised |

Strings are sequences of characters. Python's `\w`, `\s`, `lower()` and
`strip()` are read on ASCII text.

Modules:
- `VectorStore`, `StoreSearch`, `StoreRemoval` and `Duplicates`: the store.
- `KbRecords`, `KbRouter`, `KbBuild` and `KbSearch`: the agent.
- `ClauseExtract`, `QaGenerate`, `CleanText`, `KeywordRules`, `FileUtils` and
  `ChatRoutes`: the scripts, the analysers, the loaders and the routes.
- `Seqs`, `Text` and `Wrappers`: generic sequence, string and result helpers.

## Model

| member | source | states |
|---|---|---|
| VectorStore.AddEmbeddings | backend/utils/retriever.py:19-38 | A count mismatch raises and changes nothing. Otherwise both lists grow by the inputs in order. A metadata list of the wrong length raises only after the lists grew. Matching metadata item i lands under key old-length + i, and all other keys keep their entry. |
| VectorStore.AddPreservesWellFormed | backend/utils/retriever.py:19-38 | Whether it succeeds or raises, a batch insert keeps one embedding per text and metadata only at existing positions. |
| VectorStore.AddSingleText | backend/utils/retriever.py:214-227 | One text and embedding are appended; non-empty metadata goes under the new position. |
| VectorStore.AddSingleIsBatchOfOne | backend/utils/retriever.py:214-227 | The single insert equals the batch insert of one record and never raises. |
| VectorStore.UpdateText | backend/utils/retriever.py:229-249 | A position outside the texts raises IndexError with the state unchanged. Otherwise the text is replaced, and the embedding and metadata are replaced only when given. Metadata keys are never lost, and the store invariant is kept. |
| VectorStore.Clear | backend/utils/retriever.py:147-151 | The store is left empty and well formed. |
| VectorStore.MetadataCount | backend/utils/retriever.py:130-145 | A well-formed store has at most one metadata entry per text. |
| VectorStore.GetStats | backend/utils/retriever.py:130-145 | An empty store reports zeros. Otherwise it reports the text count, the first vector's dimension and whether metadata exists. The coverage is the metadata count over the text count, 0 when there are no texts. In a well-formed store it lies between 0 and 1. |
| VectorStore.CoverageFull | backend/utils/retriever.py:139-145 | In a well-formed store with records, the coverage is 1 exactly when every record has metadata, and 0 exactly when none has. |
| VectorStore.Save | backend/utils/retriever.py:78-100 | The snapshot holds the embeddings, texts and metadata and the format version "1.0". |
| VectorStore.Load | backend/utils/retriever.py:102-128 | A missing file or an unreadable one raises and leaves the state unchanged. A snapshot replaces the whole state, with absent fields read as empty. |
| VectorStore.SaveLoadRoundTrip | backend/utils/retriever.py:78-128 | Loading a saved snapshot into any store reproduces the saved store exactly. |
| StoreSearch.Scores | backend/utils/retriever.py:58-59 | There is one similarity per stored vector, in stored order. |
| StoreSearch.InsertMembers | backend/utils/retriever.py:61 | Inserting a position into a ranking adds exactly that position. |
| StoreSearch.InsertRanked | backend/utils/retriever.py:61 | Inserting keeps the scores non-increasing. |
| StoreSearch.InsertDistinct | backend/utils/retriever.py:61 | Inserting a new position keeps the positions distinct. |
| StoreSearch.Rank | backend/utils/retriever.py:61 | The ranking is a permutation of the positions below n, ordered by non-increasing score (descending argsort). |
| StoreSearch.TopIndices | backend/utils/retriever.py:61 | The top-k slice of the descending ranking uses Python slice semantics. Every index is a stored position. |
| StoreSearch.TopIndicesAreBest | backend/utils/retriever.py:40-76 | The reported positions are distinct and best first, and there are min(k, n) of them when k >= 0. No position left out scores higher than one reported. |
| StoreSearch.PrefixBest | backend/utils/retriever.py:61 | Whatever a prefix of a ranking leaves out scores no higher than anything in the prefix. |
| StoreSearch.ResultAt | backend/utils/retriever.py:63-74 | The result carries the stored text and the score at its position. It has metadata exactly when that position has an entry. |
| StoreSearch.Collect | backend/utils/retriever.py:63-74 | The loop succeeds exactly when every chosen position has a text, and then result i is the record at position i of the ranking. |
| StoreSearch.Search | backend/utils/retriever.py:40-76 | An empty store gives no results. A non-empty store raises the dimension error when the query is empty or some stored vector's width differs from the query's; this also covers stored vectors of differing widths. A comparable store with a text for each vector never raises, and nothing else raises. There are min(k, n) results, with scores non-increasing, and each is the stored record at its ranked position. |
| StoreSearch.FirstMatches | backend/utils/retriever.py:202-210 | The result is the first max(k, 1) accepted results of the ranking, in ranking order. |
| StoreSearch.ScanFiltered | backend/utils/retriever.py:202-210 | The early-exit scanning loop computes the first max(k, 1) accepted results. Because the exit test follows the append, k <= 0 still keeps one. |
| StoreSearch.SearchWithFilter | backend/utils/retriever.py:182-212 | An empty store gives no results. An error of the full search is passed on. Without a filter the result is the top-k prefix of the full ranking; with a filter, the first accepted results of the full ranking. |
| StoreSearch.UnfilteredIsTopK | backend/utils/retriever.py:199-212 | Without a filter, the filtered search raises exactly when the plain top-k search does, and otherwise equals it. |
| StoreSearch.FilteredIsOrderedSubset | backend/utils/retriever.py:202-210 | A filtered search returns only results the filter accepts, in ranking order, and at most max(k, 1) of them. |
| StoreRemoval.DeleteAt | backend/utils/retriever.py:165-166 | `del xs[i]` keeps the elements before i and shifts the later ones down by one. |
| StoreRemoval.ShiftFacts | backend/utils/retriever.py:168-180 | After a deletion at idx, keys below idx keep their entry and keys above move down one. The entry at idx is gone. |
| StoreRemoval.RemoveOne | backend/utils/retriever.py:163-180 | A position outside the texts is skipped and changes nothing. |
| StoreRemoval.RemoveOneMetadata | backend/utils/retriever.py:168-180 | The key-by-key metadata remapping of one deletion, for any store. |
| StoreRemoval.RemoveByIndex | backend/utils/retriever.py:153-180 | A top-down loop over positions does exactly the deletions of the source's sorted, de-duplicated, descending list, in the same order, and stops at the first exception. |
| StoreRemoval.OutOfRangeIgnored | backend/utils/retriever.py:164 | Positions outside the store are ignored, however they are mixed with valid ones. |
| StoreRemoval.RemoveTwoInSequence | backend/utils/retriever.py:161-166 | Removing i and then a lower j is the same as removing both at once. |
| StoreRemoval.Records | backend/utils/retriever.py:13-17 | Record p of the position-free view is the text, embedding and metadata stored at p. |
| StoreRemoval.RemoveOneRecords | backend/utils/retriever.py:163-180 | One in-range deletion from a well-formed store deletes exactly that record, metadata included, and the store stays well formed. |
| StoreRemoval.RemoveKeepsRecords | backend/utils/retriever.py:153-180 | Deleting a set of positions from a well-formed store keeps exactly the records at the other positions, in order, each with its own metadata. It never raises. |
| StoreRemoval.RemoveKeepsTexts | backend/utils/retriever.py:153-180 | The surviving texts are the original texts minus the removed positions, in their original order. |
| Duplicates.MatchesSound | backend/utils/retriever.py:274-280 | Every position the inner loop collects is later than the head, unprocessed and similar enough. |
| Duplicates.MatchesAscending | backend/utils/retriever.py:274-280 | The inner loop collects positions in increasing order. |
| Duplicates.MatchesComplete | backend/utils/retriever.py:274-280 | Every later, unprocessed, similar-enough position is collected. |
| Duplicates.ScanShape | backend/utils/retriever.py:270-284 | Every group is a head followed by at least one later similar position, increasing, with no already-processed member. |
| Duplicates.ScanDisjoint | backend/utils/retriever.py:270-284 | No position is in two groups, and groups come in increasing order of head. |
| Duplicates.ScanComplete | backend/utils/retriever.py:270-284 | For every similar-enough pair, one member was already processed or is grouped. |
| Duplicates.GroupsCorrect | backend/utils/retriever.py:251-286 | Returned groups are well shaped and within the store. They are disjoint and ordered by head. Every similar pair has a grouped member. |
| Duplicates.CollectSimilar | backend/utils/retriever.py:272-284 | The inner loop returns the group the head opens (empty when nothing matches) and the processed set grown by its members. |
| Duplicates.FindDuplicates | backend/utils/retriever.py:251-286 | Fewer than two vectors give no groups. Two or more vectors raise a dimension error exactly when they do not all share one non-zero width, since stacking and comparing them fails. Otherwise the nested loops return exactly the groups of the greedy single pass. |
| KbRouter.ParseKbType | backend/agents/internal_kb_agent.py:292-302 | A name denotes a base exactly when it is one of the three base names. |
| KbRouter.ParseName | backend/agents/internal_kb_agent.py:292-302 | Every base's name parses back to that base. |
| KbRouter.CountIsOccurringKeywords | backend/agents/internal_kb_agent.py:280-281 | The count is the number of listed keywords occurring in the text. Each keyword counts at most once, however often it occurs. |
| KbRouter.Classify | backend/agents/internal_kb_agent.py:257-288 | The property base is chosen exactly when more property keywords occur than legal ones, and the master-clause base exactly when more legal ones occur. A tie, including none, goes to the question/answer base. |
| KbRouter.ClassifyIgnoresCase | backend/agents/internal_kb_agent.py:264-281 | Letter case never changes the routing. |
| KbRouter.TerminationCountsTwice | backend/agents/internal_kb_agent.py:270-281 | Matching is by substring: "termination" also counts "term". |
| KbRouter.TransferMatchesSf | backend/agents/internal_kb_agent.py:267-281 | Matching is not by whole word: "transfer" counts the property keyword "sf". |
| KbBuild.FromSource | backend/agents/internal_kb_agent.py:180-197 | An empty source returns nothing and leaves the slot alone. The build returns a store exactly when the embeddings are accepted and the save completes. That store is cached and persisted, and it is the one built from the embeddings and texts. A failure before the save, or in opening the file, leaves the file alone. A failure while pickling leaves the file truncated and unreadable, because the file is opened for writing first (backend/utils/retriever.py:95-100). |
| KbBuild.LazyBuild | backend/agents/internal_kb_agent.py:167-197 | The cache wins unless the build is forced; next a readable persisted file is loaded; otherwise the store is built from source. An unreadable file leaves an empty store cached first. |
| KbBuild.BuildIsCached | backend/agents/internal_kb_agent.py:169-170 | After any successful build, an unforced call returns the same store and changes nothing. |
| KbBuild.BuildThenReload | backend/agents/internal_kb_agent.py:172-197 | A fresh agent later loads from the file exactly the store a forced build persisted, whatever the source then holds. |
| KbBuild.FailedDumpLosesSnapshot | backend/agents/internal_kb_agent.py:172-197 | A forced build whose pickling fails returns nothing and leaves the file unreadable. The next fresh agent therefore cannot load the previous store, caches an empty store and builds from source again. |
| KbBuild.UnreadableThenEmptySource | backend/agents/internal_kb_agent.py:172-182 | An unreadable file plus an empty source returns nothing but leaves an empty store cached, which the next call returns. |
| KbBuild.BuiltIsWellFormed | backend/agents/internal_kb_agent.py:184-195 | A built store has one embedding per text and no metadata. |
| KbBuild.BuildVectorStore | backend/agents/internal_kb_agent.py:156-165 | An unknown name raises ValueError and changes nothing. A known name runs that base's lazy build, and the other two bases are untouched. |
| KbBuild.RebuildAll | backend/agents/internal_kb_agent.py:542-560 | Every base reports True. Each base ends in the state of a forced build from source with its own save outcome. It is cached exactly when that build was saved. |
| KbBuild.RebuildAllFiles | backend/agents/internal_kb_agent.py:542-560 | After a rebuild, a cached base's file holds that store. A base whose pickling failed has an unreadable file. Any other failure leaves the base's file as it was. |
| KbRecords.GetFirst | backend/agents/internal_kb_agent.py:101-120 | `get(key, "")` reads the first column named key, whatever follows. |
| KbRecords.ColumnPartsArePresentColumns | backend/agents/internal_kb_agent.py:101-120 | The parts are exactly the non-empty columns of the table, rendered with their labels, in table order. |
| KbRecords.PropertySearchTextShape | backend/agents/internal_kb_agent.py:91-124 | A property search text joins the labelled non-empty property columns with " \| ", in the fixed column order. |
| KbRecords.PropertySearchTextEmpty | backend/agents/internal_kb_agent.py:101-122 | A row with no property column gives the empty string. |
| KbRecords.PropertySearchTexts | backend/agents/internal_kb_agent.py:91-124 | There is one text per row, in row order. |
| KbRecords.TermPartsAreAnsweredTerms | backend/agents/internal_kb_agent.py:142-150 | A key term contributes "term: answer" exactly when both its column and its answer column are non-empty. |
| KbRecords.MasterClauseSearchTextShape | backend/agents/internal_kb_agent.py:126-154 | A master-clause text lists the present document columns, then the answered key terms in table order. |
| KbRecords.MasterClauseSearchTexts | backend/agents/internal_kb_agent.py:126-154 | There is one text per row, in row order. |
| KbRecords.FieldLinesAreShownFields | backend/agents/internal_kb_agent.py:467-473 | A property answer lists exactly the columns whose value is not blank, in column order. |
| KbRecords.ImportantLinesAreFoundFields | backend/agents/internal_kb_agent.py:474-484 | A contract answer lists exactly the important fields the record fills, in list order. |
| KbRecords.FormatSimpleResponse | backend/agents/internal_kb_agent.py:458-486 | The "no results" text is returned exactly when there are no hits. Otherwise only the best hit is shown: a question/answer hit as its Q and A lines, a property hit as the property header and its field lines, and a clause hit as the contract header and its important-field lines. Every such answer starts with a bold marker. |
| KbRecords.OnlyBestHitShown | backend/agents/internal_kb_agent.py:463-486 | Only the best hit is shown; the later hits change nothing. |
| KbSearch.FirstAnswering | backend/agents/internal_kb_agent.py:320 | No pair is found exactly when no pair has that answer; a found pair has it. |
| KbSearch.FirstAnsweringIsFirst | backend/agents/internal_kb_agent.py:320 | The pair found is the first one with that answer. |
| KbSearch.ShapeQaKeepsAnswered | backend/agents/internal_kb_agent.py:316-329 | A result is kept exactly when its text is some pair's answer. It becomes a hit carrying the first such pair and the result's score, in search order. |
| KbSearch.ShapeQaHitsAreAnswers | backend/agents/internal_kb_agent.py:316-329 | Every question/answer hit repeats a stored answer, and there are no more hits than results. |
| KbSearch.SearchQa | backend/agents/internal_kb_agent.py:304-335 | No store, no query embedding or a raising search gives no hits. Otherwise the hits are the results whose text is some stored answer, each turned into a hit with the first such pair, in search order. Every hit is a question/answer hit that repeats a stored answer. |
| KbSearch.SearchTexts | backend/agents/internal_kb_agent.py:199-255 | Each base stores one search text per row, in row order. |
| KbSearch.ShapeRecordsAsWritten | backend/agents/internal_kb_agent.py:349-355 | As written, result i is paired with row i of the data, whatever row it was found at. |
| KbSearch.ByIndexPairsOwnRow | backend/agents/internal_kb_agent.py:349-355 | With the corrected pairing, each result is paired with the row at its matched position. |
| KbSearch.SearchRecordsAsWritten | backend/agents/internal_kb_agent.py:337-387 | The search as written: no store, no query embedding or a raising search gives no hits. Every hit is tagged with its base, and hit i carries row i of the data. |
| KbSearch.SearchRecords | backend/agents/internal_kb_agent.py:337-387 | The corrected search from the Findings table: no store, no query embedding or a raising search gives no hits, and every hit is tagged with its base. |
| KbSearch.SearchRecordsPairsMatchedRow | backend/agents/internal_kb_agent.py:337-387 | On a store built from the rows, the search succeeds exactly when the query is comparable with the vectors, and a raising search gives no hits. Each corrected hit is the row whose search text is its result's text, with that score, in search order. |
| KbSearch.AsWrittenPairsWrongRow | backend/agents/internal_kb_agent.py:349-355 | With two rows and the second scoring higher, the as-written hit carries the first row while the result is the second row's text. |
| KbSearch.AsWrittenExample | backend/agents/internal_kb_agent.py:349-355 | The same mispairing on a concrete pair of rows. |
| KbSearch.SearchIn | backend/agents/internal_kb_agent.py:304-387 | With the corrected record pairing, every hit of a base's search is tagged with that base. |
| KbSearch.Route | backend/agents/internal_kb_agent.py:290-302 | A given name picks a base exactly when it is one of the three base names, and then the base it names. Without a name, the classifier's choice is always taken. |
| KbSearch.SearchKb | backend/agents/internal_kb_agent.py:290-302 | With the corrected record pairing, an unknown name finds nothing and builds nothing. Otherwise every hit comes from the chosen base, and the other bases are untouched. |
| KbSearch.SearchKbDefaultsToClassifier | backend/agents/internal_kb_agent.py:290-302 | Without a name, the search behaves as if called with the classifier's choice. |
| KbSearch.AnswerQuestion | backend/agents/internal_kb_agent.py:390-455 | A blank question is refused before any agent is built. An exception while building or searching gives the processing error with its text. No hits give the agent's own "no relevant information" notice. Hits are shown as `format_simple_response` lays them out when no model is used; otherwise the model's reply is passed on stripped, and a model failure puts its error before the formatted hits. Without the model the answer is never `format_simple_response`'s "No results found." |
| KbSearch.CrossedExactlyOnFailure | backend/agents/internal_kb_agent.py:412-427 | Without the model, an answer starts with the cross mark exactly when the question was blank or building or searching raised. |
| KeywordRules.Messages | backend/models/redline_suggestor.py:17-18 | No message is listed exactly when no keyword occurs as a whole word, ignoring case. |
| KeywordRules.SuggestRedline | backend/models/redline_suggestor.py:16-19 | The default text is returned when nothing fires; otherwise the firing suggestions joined by " \| ". |
| KeywordRules.SuggestIff | backend/models/redline_suggestor.py:16-19 | The default text comes back exactly when no keyword fires. |
| KeywordRules.SuggestionsRecoverable | backend/models/redline_suggestor.py:16-19 | Splitting a non-default answer on the bars gives back exactly the firing suggestions. |
| KeywordRules.DetectRisk | backend/models/risk_detector.py:36-56 | A blank clause is low risk ("empty clause"). Otherwise it is flagged exactly when a risky keyword occurs as a whole word in the stripped clause; the flag carries the warning sign and the joined messages, and the low-risk text is given otherwise. |
| KeywordRules.SameKeywords | backend/models/risk_detector.py:23-33 | Both tables have nine entries with the same keywords in the same order. |
| KeywordRules.KeywordsAreWords | backend/models/redline_suggestor.py:4-14 | Every keyword is a non-empty run of lower-case letters, so the pattern matches the keyword literally. |
| KeywordRules.RedlineBarFree | backend/models/redline_suggestor.py:4-14 | No suggestion text contains a bar, so the joined answer splits unambiguously. |
| KeywordRules.RiskyBarFree | backend/models/risk_detector.py:23-33 | No risk message contains a bar. |
| KeywordRules.SuggestionsLonger | backend/models/redline_suggestor.py:4-19 | Every suggestion is longer than the default answer. |
| KeywordRules.MessagesFromTable | backend/models/redline_suggestor.py:17-18 | Every listed message is the text of a rule of the table. |
| KeywordRules.HasWordStrip | backend/models/risk_detector.py:37 | Stripping the clause first never changes which keyword fires. |
| KeywordRules.RiskAgreesWithRedline | backend/models/risk_detector.py:52-55 | Without a trained model, a clause is flagged as risky exactly when some redline suggestion applies to it. |
| KeywordRules.CaseIgnored | backend/models/risk_detector.py:53 | Matching ignores case: "exclusive" fires in "Exclusive use". |
| KeywordRules.WholeWordsOnly | backend/models/risk_detector.py:53 | Matching needs a whole word: "exclusive" does not fire in "exclusively", though it is a substring. |
| KeywordRules.WholeKeywordNeeded | backend/models/risk_detector.py:53 | "indemnify" does not fire in "Indemnification". |
| KeywordRules.RiskMessagesRecoverable | backend/models/risk_detector.py:52-55 | A flagged clause's message is the warning sign followed by text that splits back into exactly the firing risk messages. |
| CleanText.DropPunctuation | backend/models/clause_classifier.py:10 | No character outside word and space characters is left, and no character is added. |
| CleanText.DropIsFilter | backend/models/clause_classifier.py:10 | Exactly the word and space characters are kept, in order. |
| CleanText.CollapseFacts | backend/models/clause_classifier.py:11 | After collapsing, the only white space is single blanks. A leading run becomes a blank, and no character outside `[\w\s]` is introduced. |
| CleanText.CollapseNormal | backend/models/clause_classifier.py:11 | Text whose only white space is single blanks is left alone. |
| CleanText.Clean | backend/models/clause_classifier.py:9-12 | The result is the words of the text once punctuation is dropped, lowered, in order, joined by single blanks. It holds only lower-case word characters and single blanks, with no blank at either end. |
| CleanText.StripCollapseIsJoin | backend/models/clause_classifier.py:11-12 | Collapsing white-space runs to one blank and stripping gives the text's words joined by single blanks. |
| CleanText.CollapseLower | backend/models/clause_classifier.py:11-12 | Lowering and collapsing white space can be done in either order. |
| CleanText.CleanShaped | backend/models/clause_classifier.py:9-12 | Text already in that shape is its own cleaning. |
| CleanText.CleanIdempotent | backend/models/clause_classifier.py:9-12 | Cleaning twice is cleaning once. |
| CleanText.PunctuationBetweenBlanks | backend/models/clause_classifier.py:10-11 | Punctuation goes before spaces are collapsed, so "a , b" becomes "a b" with one blank. |
| CleanText.PunctuationThenBlanks | backend/models/clause_classifier.py:9-12 | `clean_text("a , b")` is "a b". |
| QaGenerate.CleanMoney | backend/scripts/generate_qa_csv.py:7-8 | The result is the input's characters other than commas and dollar signs, in order, with the white space at both ends stripped. So it has no comma, no dollar sign and no white space at either end. |
| QaGenerate.CleanMoneyIdempotent | backend/scripts/generate_qa_csv.py:7-8 | Cleaning an amount twice is cleaning it once. |
| QaGenerate.GenerateQaIsKeptRows | backend/scripts/generate_qa_csv.py:16-33 | There is one pair per complete row, in input order, and nothing else. |
| QaGenerate.SkippedIff | backend/scripts/generate_qa_csv.py:24-25 | A row is skipped exactly when its address, suite, rent per SF or monthly rent is empty after cleaning. |
| QaGenerate.PairIsStripped | backend/scripts/generate_qa_csv.py:27-31 | The generated question and answer have no white space at either end. |
| QaGenerate.AmountsAreBare | backend/scripts/generate_qa_csv.py:19-20 | The amounts quoted in an answer hold no thousands separator and no dollar sign. |
| QaGenerate.GeneratedPairsTidy | backend/scripts/generate_qa_csv.py:16-33 | Every generated pair is non-empty and stripped. |
| FileUtils.PairRowsIsFilter | backend/utils/file_utils.py:29-34 | There is one stripped pair per row with both cells non-empty, in file order, and nothing else. |
| FileUtils.PairRowsNonEmpty | backend/utils/file_utils.py:29-37 | Some pair is read exactly when some row has both cells non-empty after stripping. |
| FileUtils.LoadInternalKnowledgeBase | backend/utils/file_utils.py:7-41 | A missing file, and only a missing one, is reported as not found. A parse failure is wrapped as a RuntimeError. A readable file loads exactly when some row holds a usable pair, and otherwise fails with the wrapped "empty" error. Loaded pairs are stripped and non-empty. |
| FileUtils.LoadKeepsRowOrder | backend/utils/file_utils.py:29-34 | The loaded pairs come out in the order of their rows. |
| FileUtils.ReadWrittenRows | backend/utils/file_utils.py:29-34 | Rows written from stripped, non-empty pairs read back as those pairs. |
| FileUtils.GeneratedKbLoads | backend/scripts/generate_qa_csv.py:35-38 | The generator's output file loads back as exactly the generated pairs, or fails as empty when no row was complete. |
| FileUtils.ValidateCsvColumns | backend/utils/file_utils.py:70-97 | The answer is True or an error, never False. A missing file, and only a missing one, is not found. True comes back exactly when every required column is in a non-empty header. The reported columns are exactly the absent required ones. |
| FileUtils.MissingInRequiredOrder | backend/utils/file_utils.py:90 | The missing columns are listed in required order. |
| ClauseExtract.ClauseTextIsLines | backend/scripts/populate_vector_store.py:68-75 | Growing the clause text piece by piece gives exactly its lines joined by newlines. |
| ClauseExtract.RowClausesAreFilledColumns | backend/scripts/populate_vector_store.py:64-76 | A row gives one clause per clause column whose value is not blank, in column order, and nothing else. |
| ClauseExtract.ExtractClauses | backend/scripts/populate_vector_store.py:19-77 | A row yields at most one clause per clause column. |
| ClauseExtract.ExtractBound | backend/scripts/populate_vector_store.py:24-58 | With 33 clause columns, a row yields at most 33 clauses. |
| ClauseExtract.ExtractAppend | backend/scripts/populate_vector_store.py:60-76 | Clauses come in row-major order: those of a batch are those of its first part followed by those of the rest. |
| ClauseExtract.ExtractOneRow | backend/scripts/populate_vector_store.py:60-76 | A single row contributes exactly the clauses of its filled columns, in column order. |
| ClauseExtract.DocumentLinePresence | backend/scripts/populate_vector_store.py:69-70 | A clause has a document line exactly when the document name is non-empty. |
| ClauseExtract.PartiesLinePresence | backend/scripts/populate_vector_store.py:71-72 | A clause has a parties line exactly when the parties are non-empty. |
| ClauseExtract.DetailsLinePresence | backend/scripts/populate_vector_store.py:74-75 | A clause has a details line exactly when the answer cell is not blank. |
| ClauseExtract.ClauseLinesPresence | backend/scripts/populate_vector_store.py:68-75 | The three optional lines appear exactly under their conditions. |
| ChatRoutes.DetectKb | backend/api/routes/chat.py:76-83 | An answer is recognised as property exactly when it holds the property marker. It is recognised as contract exactly when it holds the contract marker and not the property one, and as question/answer exactly when it holds both Q and A markers and neither other marker. |
| ChatRoutes.NoResultsUnknown | backend/api/routes/chat.py:76-83 | `format_simple_response`'s "No results found." text names no base. |
| ChatRoutes.NoHitsUnknown | backend/api/routes/chat.py:76-83 | The agent's "no relevant information" notice, which is what a route receives when the search finds nothing, names no base. |
| ChatRoutes.PropertyAnswerDetected | backend/api/routes/chat.py:76-83 | A formatted property answer is always recognised as property. |
| ChatRoutes.ClauseAnswerDetected | backend/api/routes/chat.py:76-83 | A formatted contract answer is recognised as contract, or as property when a field value holds the property marker. |
| ChatRoutes.QaAnswerDetected | backend/api/routes/chat.py:76-83 | A formatted question/answer answer is always recognised as some base. |
| ChatRoutes.MapSource | backend/api/routes/chat.py:66-68 | "internal" and "auto", and only these, let the agent choose. A base name fixes that base, and "lease" selects the lease agent. |
| ChatRoutes.AcceptedSources | backend/api/routes/chat.py:66-122 | Exactly the six documented sources are accepted. |
| ChatRoutes.SourceNamesBase | backend/api/routes/chat.py:68 | A base name as source requests that base. |
| ChatRoutes.ChatRouter | backend/api/routes/chat.py:48-131 | For agents given as answer-or-exception, the call succeeds exactly when the question is not blank, the source is accepted and the chosen agent answers without raising. A failure echoes the source and carries the exception text, including an agent's own exception. An internal answer is tagged with the detected base, and a lease answer with the lease tag. |
| ChatRoutes.BlankQuestionFirst | backend/api/routes/chat.py:62-63 | A blank question fails with the empty-question error, whatever the source. |
| ChatRoutes.RoutedPropertyAnswer | backend/api/routes/chat.py:66-95 | A formatted property answer for source "property" is tagged "property". |
| ChatRoutes.ChatInternalEnhanced | backend/api/routes/chat.py:133-184 | For an agent given as answer-or-exception, the call succeeds exactly when the question is not blank and the agent answers. It then returns the agent's answer tagged with the detected base. An agent exception becomes the error, behind the cross mark. |
| ChatRoutes.RoutesAgree | backend/api/routes/chat.py:76-83 | Given the same agent answer, both internal routes tag it with the same base. |
| ChatRoutes.ProbeStatus | backend/api/routes/chat.py:443-460 | A probe reports "ok" exactly when it answered and the answer does not start with the cross mark. |
| ChatRoutes.HealthOverall | backend/api/routes/chat.py:462-471 | Healthy exactly when all internal probes and the lease probe pass. Error exactly when both sides fail. Degraded exactly when one side passes. |
| ChatRoutes.CrossedAnswerDegrades | backend/api/routes/chat.py:451-467 | One internal answer starting with the cross mark is enough to lose "healthy". |
| ChatRoutes.FormattedAnswersPass | backend/api/routes/chat.py:443-451 | A formatted answer never starts with the cross mark, so its probe passes. |
| ChatRoutes.SummariseRebuild | backend/api/routes/chat.py:300-312 | At most as many bases succeeded as were rebuilt. Success means at least one base succeeded, and all succeeded exactly when every entry is True. |
| ChatRoutes.RebuildAllSucceeds | backend/api/routes/chat.py:297-312 | The rebuild summary reports all three bases rebuilt. |
| ChatRoutes.TestKnowledgeBase | backend/api/routes/chat.py:580-628 | An unknown base fails with the invalid-type error. For an agent given as answer-or-exception, a known base succeeds exactly when the agent answers and the answer does not start with the cross mark. An answer is reported with its fixed question; an exception leaves only the error text in the report. |
| ChatRoutes.ModelFreeAnswerPasses | backend/api/routes/chat.py:443-451 | Without the language model, the answer to a non-blank question whose search does not raise passes the probe, whether or not anything was found. |
| ChatRoutes.TestOfFormattedAnswerSucceeds | backend/api/routes/chat.py:598-619 | When the agent answers the base's test question without the language model and its search does not raise, testing that base succeeds, whether or not anything was found. |
| ChatRoutes.AsWrittenInternalCallsFail | backend/api/routes/chat.py:70-74 | As written, every call passes the undeclared `kb_type=` keyword and so raises. The router then fails for every internal source, the internal route for every question, and the test for every base, each with the keyword error. The health check never reports healthy. |

## Left out

**Machine learning and the surrounding model code**
- The trained-model branch of `detect_risk` (lines 42-49) is not modelled. It needs a pickled scikit-learn model, so `DetectRisk` models the keyword fallback that runs when no model is loaded.
- Classifier training and model loading in backend/models/clause_classifier.py are not modelled: they are library calls.

**Language models and the agent's text output**
- `KbSearch.AnswerQuestion` takes the language model's reply, and the outcome of building the agent and searching, as parameters. The prompt built by `format_context_for_llm` and the call's settings are not modelled. Only the `use_llm` branch calls a model; the health check and the knowledge-base test pass `use_llm=False`.
- The routes take what a call to `answer_internal_question` does as a parameter: its answer text, or the text of the exception it raised. `ChatRoutes.ModelFreeAnswerPasses` and `ChatRoutes.TestOfFormattedAnswerSucceeds` tie that parameter to `KbSearch.AnswerQuestion`.
- The lease agent (`answer_lease_question`) and its enrichment fields are parameters, not models.

**Numeric and matching semantics**
- `StoreSearch.Scores` treats similarity as an abstract function `sim` to exact reals. Cosine arithmetic in floating point is not modelled.
- `StoreSearch.Rank` breaks ties by position. NumPy's `argsort` tie order is unspecified; every stated property except the exact tie order holds for any ranking.
- `VectorStore.GetStats` gives the coverage as an exact rational; the source uses a float.
- Python's `\w`, `\s`, `lower()` and `strip()` are modelled on ASCII only. Non-ASCII characters count as neither word nor space characters.

**Persistence**
- Pickle files and the file system are reduced to what a path holds (`Persisted`, `CsvFile`). Byte-level formats are not modelled.
- CSV quoting, short rows in `csv.DictReader`, pandas NaN cells and duplicate column names are not modelled. A record is an ordered list of string cells.

**Logging and reporting**
- Timestamps, logging, the `metadata` dictionaries of responses and the `success_rate` string are not modelled: they carry no logic.

**Route-level behaviour**
- `ChatRoutes.ChatRouter` states its success case for an agent that accepts the requested base. As written, the call passes `kb_type=`, which `answer_internal_question` does not declare, so it always raises. `ChatRoutes.AsWrittenInternalCallsFail` shows that outcome (see Findings).
- `ChatRoutes.ChatInternalEnhanced` likewise states its success case for an agent that accepts `kb_type=`. As written, every non-blank question ends in the keyword error.
- `ChatRoutes.TestKnowledgeBase` likewise states its success case for an agent that accepts `kb_type=`. As written, every known base reports the keyword error.
- `ChatRoutes.TestOfFormattedAnswerSucceeds` holds only for the corrected call. The route as written never succeeds.
- `KbSearch.SearchRecords` pairs each result with the row it was found at, which is the corrected pairing from the Findings table. `KbSearch.SearchRecordsAsWritten` is the pairing as written.
- `KbSearch.SearchIn` uses the corrected pairing for the property and master-clause bases. As written, hit i carries row i of the data.
- `KbSearch.SearchKb` inherits the corrected pairing from `KbSearch.SearchIn`.
- `ChatRoutes.ErrorText` assumes `str(HTTPException)` renders as "status: detail".
- `load_commercial_lease_csv`, the QA and record loaders inside the agent, and `get_kb_stats` are not modelled: they only read files.
- The "Unknown result type" branch of `format_simple_response` is not modelled. It cannot be reached with the tagged `KbHit` type.

## Findings

| source | as written | input that shows it | evidently intended | confidence | as-written member | corrected member |
|---|---|---|---|---|---|---|
| backend/agents/internal_kb_agent.py:349-355 | The property search pairs ranked result i with row i of the data list (the same loop is at lines 375-381 for master clauses). | Two rows whose search texts differ, where the second row's vector scores higher against the query. The top result is the second row's text, but the hit carries the first row. | Each hit carries the row at the position the result was found at. | not executed | KbSearch.AsWrittenPairsWrongRow | KbSearch.SearchRecordsPairsMatchedRow |
| backend/api/routes/chat.py:70-74 | The router, the internal route (lines 148-153), the health check (lines 445-450) and the knowledge-base test (lines 606-611) all call `answer_internal_question` with a `kb_type=` keyword. The function declares no such parameter (backend/agents/internal_kb_agent.py:390-397), so Python raises `TypeError` before the agent runs. | Any non-blank question sent with source "internal", or a test of base "qa". | The requested base, or the agent's own choice, answers the question. | not executed | ChatRoutes.AsWrittenInternalCallsFail | ChatRoutes.TestOfFormattedAnswerSucceeds |
