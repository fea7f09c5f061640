# Ainfer retrieval core in Dafny

Ainfer is a question-answering page over uploaded PDF files. This project models the part of it that is not user interface or a remote service:

- Parsing: each PDF becomes a list of paragraphs with bounding boxes.
- Embedding: one vector is obtained per paragraph, reusing vectors cached in the session, plus one vector for the question.
- Ranking: paragraphs are sorted by similarity to the question.
- Context selection: the best paragraphs whose scores stay close together (sample standard deviation below 0.01, at most 10) form the context.
- Highlighting: the chosen paragraphs are marked in their files.
- Session store: files, embeddings, remembered uploads and answers live in one string-keyed map.
- Page glue: merging uploaded and remembered files, trimming stop sequences from an answer, joining the context, and choosing which file to display.

The model has one module per source file:

| module | source file |
|---|---|
| `Cache` | `ainfer/cache.py` |
| `Memory` | `ainfer/memory.py` |
| `Embeddings` | the embedding half of `ainfer/ranking.py` |
| `Ranking` | the rest of `ainfer/ranking.py` |
| `ParseFile` | `ainfer/files/parse_file.py` |
| `HighlightFile` | `ainfer/files/highlight_file.py` |
| `FileTypes` | `ainfer/types/files.py` |
| `RankingTypes` | `ainfer/types/ranking.py` |
| `Entrypoint` | the modelled helpers of `ainfer/entrypoint.py` |

The helper modules are:

- `Session`: the session map as a class with one `map` field.
- `Wrappers`: `Option` and `Result`.
- `Seqs`: Python's `endswith`, `s[:-n]` and `list.index`.
- `Statistics`: sum, mean and sample variance.
- `Sorting`: a stable sort by score.

The operations that update state in place are methods with loops and invariants. Each is proved equal to a specification function, or, for the context walk, to be the unique solution of a selection predicate:

- the session writes;
- the embedding collection, the cache write-back, and the in-place fill of the placeholder array;
- the context walk;
- the grouping dictionary.

The pure parts are functions and lemmas.

The remote services and libraries are parameters:

- The embedding service is an `Embedder` function. It returns `None` on failure and otherwise one vector per text.
- The similarity measure is a `Similarity` function.
- The PDF reader is a `PdfReader` from bytes to pages of text blocks.
- The PDF annotator is an `Annotator` from bytes and highlights to bytes.

## Model

| member | source | states |
|---|---|---|
| FileTypes.FileFormat.Dotted | ainfer/types/files.py:29-30 | `dotted()` is "." followed by the format's value |
| FileTypes.IsPdf | ainfer/types/files.py:32-34 | `is_pdf`: the name ends with ".pdf" (spelled out by `SuffixTestsSpelledOut`) |
| FileTypes.IsDocx | ainfer/types/files.py:36-38 | `is_docx`: the name ends with ".docx" (spelled out by `SuffixTestsSpelledOut`) |
| FileTypes.IsTxt | ainfer/types/files.py:40-42 | `is_txt`: the name ends with ".txt" (spelled out by `SuffixTestsSpelledOut`) |
| FileTypes.SuffixTestsSpelledOut | ainfer/types/files.py:24-42 | The dotted forms are ".pdf", ".docx" and ".txt"; `is_pdf`, `is_docx` and `is_txt` hold exactly when the name's last 4, 5 or 4 characters are those, case included |
| FileTypes.FormatsAreExclusive | ainfer/types/files.py:32-42 | No file name passes two of the three suffix tests |
| FileTypes.PdfSuffixEdgeCases | ainfer/types/files.py:32-34 | ".pdf" alone is a PDF; "reportpdf" (no dot) and "report.PDF" (upper case) are not |
| Cache.CacheFile | ainfer/cache.py:20-21 | Writes the file's bytes under its bare name and changes no other key; reading that name back gives the same file |
| Cache.StoreFiles | ainfer/cache.py:15-17 | After writing a list of files, the keys are the old keys plus every file name, and every other key keeps its value |
| Cache.CacheFiles | ainfer/cache.py:15-17 | The loop of single writes leaves exactly the store `StoreFiles` describes |
| Cache.StoreFilesLastWriteWins | ainfer/cache.py:15-21 | Each name maps to the bytes of the last file with that name |
| Cache.GetFileFromCache | ainfer/cache.py:28-29 | Returns a file with the asked name and the stored bytes; the key must be present and hold bytes |
| Cache.GetFilesFromCache | ainfer/cache.py:24-25 | One file per name, same length, same order, each the single-name read |
| Cache.CachedFilesRoundTrip | ainfer/cache.py:15-29 | Writing files with distinct names and reading them back by name gives the same files in the same order |
| Cache.CacheParsedFileEmbeddings | ainfer/cache.py:32-41 | Writes the vectors under `name + "_embeddings"` and nothing else; afterwards the file counts as cached and reading gives the same vectors |
| Cache.ParsedFileEmbeddingsAreCached | ainfer/cache.py:40-41 | Whether the session holds an entry under the file's embeddings key (made true by `CacheParsedFileEmbeddings`) |
| Cache.GetParsedFileEmbeddingsFromCache | ainfer/cache.py:36-37 | Returns exactly the stored vectors; the key must be present and hold vectors |
| Cache.EmbeddingsKeySharedIffSameName | ainfer/cache.py:33-41 | Two parsed files share an embeddings entry exactly when their names are equal, whatever their contents |
| Cache.CacheAnswer | ainfer/cache.py:44-53 | Writes the answer under the key and nothing else; afterwards the key counts as cached and reading gives the answer |
| Cache.AnswerIsCached | ainfer/cache.py:48-49 | Whether the session holds an entry under the answer key (made true by `CacheAnswer`) |
| Cache.GetAnswerFromCache | ainfer/cache.py:52-53 | Returns exactly the stored answer; the key must be present and hold an answer |
| Cache.BuildAnswerCacheKey | ainfer/cache.py:56-57 | The key ends with the question |
| Cache.AnswerKeyIgnoresBoundaries | ainfer/cache.py:56-57 | The key has no separators: moving the last name onto the front of the question gives the same key |
| Cache.AnswerKeyCollision | ainfer/cache.py:56-57 | ["a.pdf","b.pdf"] with "X" and ["a.pdf","b"] with ".pdfX" give the same answer key |
| Cache.FileNamedLikeEmbeddingsKeyOverwritesEmbeddings | ainfer/cache.py:20-37 | Caching a file named `x_embeddings` replaces the embeddings entry of every parsed file named `x` |
| Memory.MemorizedFileKeyFromFile | ainfer/memory.py:35-36 | The key is the file's name followed by the suffix: it starts with the name and ends with the suffix |
| Memory.IsMemorizedFile | ainfer/memory.py:39-41 | A session item is a memorized file when its key ends with the suffix (see `FileKeyRoundTrip`, `CachedFileWithSuffixIsRemembered`) |
| Memory.FileNameFromMemorizedFileKey | ainfer/memory.py:44-45 | `key[:-len(suffix)]`: for a key ending in the suffix, the name plus the suffix gives the key back; a key shorter than the suffix gives "" |
| Memory.FileKeyRoundTrip | ainfer/memory.py:35-45 | A file's memorized key passes `_is_memorized_file`, and stripping the suffix gives back the file's name |
| Memory.MemorizedKeyRoundTrip | ainfer/memory.py:39-45 | For any key ending in the suffix, the stripped name plus the suffix gives back the key |
| Memory.MemorizedKeySharedIffSameName | ainfer/memory.py:35-36 | Two files share a memorized key exactly when their names are equal |
| Memory.FileFromMemorizedFile | ainfer/memory.py:48-52 | The file holds the stored bytes, and for a memorized key its own memorized key is that key |
| Memory.MemorizeFiles | ainfer/memory.py:18-24 | The delete-then-set loop leaves the same store as setting each file's key to its bytes in order |
| Memory.MemorizeAllFrame | ainfer/memory.py:18-24 | Memorizing changes no key other than the memorized keys of the input files |
| Memory.MemorizeAllLastWins | ainfer/memory.py:18-24 | Each file's key maps to its bytes unless a later file has the same name |
| Memory.GetFilesFromMemory | ainfer/memory.py:27-32 | One file per session key ending in the suffix, in any order: as many files as such keys, their keys exactly those keys, names distinct, each file holding its key's bytes |
| Memory.CachedFileWithSuffixIsRemembered | ainfer/memory.py:27-32 | A file cached under the name `x_memorized_file` by the cache module is read back from memory as a file named `x` |
| ParseFile.KeptIffTextAndNonzeroNumber | ainfer/files/parse_file.py:38-43 | Because `previous_block_id` stays 0, a block is kept exactly when it is a text block (type 0) with a nonzero block number |
| ParseFile.BlocksNumberedZeroAreDropped | ainfer/files/parse_file.py:38-46 | A page whose blocks are all numbered 0 yields no paragraph |
| ParseFile.AllKeptPageKeepsEveryBlock | ainfer/files/parse_file.py:40-46 | A page whose blocks are all kept yields one entry per block, in block order, each that block's text and box on that page |
| ParseFile.ReplaceNewlines | ainfer/files/parse_file.py:44 | Same length, every newline turned into a space, every other character kept, no newline left |
| ParseFile.PageParagraphData | ainfer/files/parse_file.py:40-46 | One page's (paragraph, coordinates) entries, block by block (characterised by `PageDataFromKeptBlocks`) |
| ParseFile.ParagraphData | ainfer/files/parse_file.py:37-46 | A document's entries, page by page (characterised by `ParagraphDataFromKeptBlocks`) |
| ParseFile.KeptIndices | ainfer/files/parse_file.py:40-43 | Strictly increasing indices, each of a kept block, and every kept block's index among them |
| ParseFile.PageDataFromKeptBlocks | ainfer/files/parse_file.py:40-46 | A page yields one entry per kept block, in block order: entry i is the i-th kept block's text with newlines replaced and its box on that page; nothing else |
| ParseFile.KeptPositionsSpec | ainfer/files/parse_file.py:39-43 | The (page, block) positions are exactly the kept blocks of the document, in reading order (pages in order, blocks in order within a page) |
| ParseFile.ParagraphDataFromKeptBlocks | ainfer/files/parse_file.py:37-46 | A document yields one entry per kept block, in reading order: entry i is the i-th kept block's extraction with its page's zero-based index; no kept block is missed |
| ParseFile.PageDataOnItsPage | ainfer/files/parse_file.py:39-45 | All entries of a page carry that page's index |
| ParseFile.ParagraphDataInPageOrder | ainfer/files/parse_file.py:39-46 | Page indexes are within the document and never decrease along the output |
| ParseFile.ParsePdf | ainfer/files/parse_file.py:26-34 | The parsed file keeps name and bytes; paragraphs and coordinates have equal length and are index-aligned with the extracted data |
| ParseFile.ParsedParagraphsHaveNoNewline | ainfer/files/parse_file.py:28-44 | No parsed paragraph contains a newline |
| ParseFile.ParseFile | ainfer/files/parse_file.py:18-23 | Succeeds exactly for ".pdf" names, with the PDF parse; otherwise it fails with not-implemented for DOCX, or for TXT on any other name |
| ParseFile.ParseFiles | ainfer/files/parse_file.py:14-15 | Succeeds exactly when every name is a PDF, and then has the same length and order as the input, each entry that file's PDF parse |
| ParseFile.ParseFilesStopsAtFirstFailure | ainfer/files/parse_file.py:14-23 | A failed parse reports the error of the first file that is not a PDF |
| Statistics.SampleVariance | ainfer/ranking.py:55 | The sample variance (n - 1 denominator) is never negative |
| Statistics.ConstantHasZeroVariance | ainfer/ranking.py:55 | Equal values have zero sample variance |
| Sorting.SortByScore | ainfer/ranking.py:43 | The result is sorted ascending by score and is a permutation of the input |
| Sorting.SortIsStable | ainfer/ranking.py:43 | Among entries with equal score, the sorted order is the input order |
| Embeddings.NoneCountIsUncachedParagraphs | ainfer/ranking.py:71-82 | The placeholders are exactly as many as the paragraphs sent to the service |
| Embeddings.SlotsCoverEveryParagraph | ainfer/ranking.py:71-77 | With one cached vector per paragraph for cached files, there is one slot per paragraph of all files |
| Embeddings.FillKeepsPresentAndFillsInOrder | ainfer/ranking.py:109-112 | Filled slots keep every cached vector; the i-th placeholder gets the i-th new vector |
| Embeddings.CacheMissingFrame | ainfer/ranking.py:100-106 | Writing the new vectors back touches only the embeddings keys of the uncached files |
| Embeddings.CacheMissingKeys | ainfer/ranking.py:100-106 | After the write-back every old key is still present, and every uncached file has an embeddings entry |
| Embeddings.FillSlotsMatchesCache | ainfer/ranking.py:94-95 | With distinct file names, the filled slots equal, file after file, the vectors the updated cache holds: each uncached file gets exactly its consecutive chunk of new vectors |
| Embeddings.EmbeddingsOutcome | ainfer/ranking.py:69-97 | `None` exactly when the service fails; otherwise one vector per slot plus the service's last vector (the question's) at the end |
| Embeddings.OutcomeHasOneVectorPerParagraphAndQuestionLast | ainfer/ranking.py:91-97 | On success there are total-paragraph-count + 1 vectors, and the last is the question's |
| Embeddings.SpliceAgreesWithCache | ainfer/ranking.py:91-96 | With distinct file names, the paragraph vectors returned are exactly what the updated cache holds for the files |
| Embeddings.SecondRequestEmbedsOnlyTheQuestion | ainfer/ranking.py:71-82 | After a successful step every file is cached, so the next request sends only its question |
| Embeddings.ServiceFailureYieldsNothing | ainfer/ranking.py:84-89 | A service failure returns `None` and leaves the cache unchanged |
| Embeddings.CollectSlots | ainfer/ranking.py:70-77 | The first loop builds the cached-or-placeholder slots and the list of uncached files, in order |
| Embeddings.PopLeft | ainfer/ranking.py:103-104 | Popping n vectors off the queue gives its first n vectors, in order, and leaves the rest |
| Embeddings.CacheMissingEmbeddings | ainfer/ranking.py:100-106 | The loop writes each uncached file its consecutive chunk of `len(paragraphs)` new vectors, files in order |
| Embeddings.PopulateWithMissingEmbeddings | ainfer/ranking.py:109-112 | The in-place loop leaves the array holding the filled slots: cached vectors kept, placeholders replaced in order |
| Embeddings.FillSlots | ainfer/ranking.py:95 | Filling a copy of the slots in place and reading it back gives the filled slots |
| Embeddings.GetEmbeddings | ainfer/ranking.py:69-97 | Returns `EmbeddingsOutcome` and leaves the session store as `StoreAfter`: unchanged on failure, otherwise each uncached file's new vectors written back |
| Ranking.FilesAndParagraphs | ainfer/ranking.py:30 | One (file, paragraph) pair per paragraph, the paragraphs in file-then-paragraph order |
| Ranking.PairsKnowTheirFile | ainfer/ranking.py:30 | The pair for paragraph j of file k sits after all paragraphs of the files before k and names file k itself, not just some file with the same text |
| Ranking.PairsBelongToLoadedFiles | ainfer/ranking.py:30 | Every pair names a loaded file and one of that file's paragraphs |
| Ranking.Similarities | ainfer/ranking.py:36-37 | One score per paragraph vector: its similarity to the question vector |
| Ranking.Zip | ainfer/ranking.py:39-41 | Python's `zip`: as long as the shorter input, pairing entries index by index |
| Ranking.Rank | ainfer/ranking.py:29-43 | Sorted ascending by score and a permutation of the scored triples |
| Ranking.RankScoresEveryParagraph | ainfer/ranking.py:30-43 | With one vector per paragraph plus the question's, every paragraph is scored once, in order, by its own vector against the question's |
| Ranking.RankedParagraphsBelongToTheirFiles | ainfer/ranking.py:30-43 | Every ranked entry is a paragraph of the file it names, and that file was loaded |
| Ranking.RankIsStable | ainfer/ranking.py:43 | Equal scores keep their flattened order |
| Ranking.BestParagraphIsLast | ainfer/ranking.py:43 | The last ranked entry has the highest score |
| Ranking.RankAsWritten | ainfer/ranking.py:29-43 | The ranking step as written: it fails exactly when the embeddings are `None`, and otherwise ranks them |
| Ranking.ServiceFailureRaisesAsWritten | ainfer/ranking.py:32-34 | On a failed embedding request the step as written raises instead of returning `None` |
| Ranking.RankParagraphs | ainfer/ranking.py:29-43 | Returns `None` exactly when the service fails, otherwise the ranking of the returned embeddings; the session store ends as the embedding step leaves it |
| Ranking.ContextSelectionUnique | ainfer/ranking.py:46-61 | At most one context size satisfies the stopping rule |
| Ranking.ChooseParagraphsForContext | ainfer/ranking.py:46-61 | Removes the last ranked entry from the caller's list; the context is a non-empty suffix of the ranking of at most 10 entries; each admitted candidate kept the sample standard deviation below 0.01; the walk stopped at the first candidate that would not, or at 10 |
| Ranking.FirstStopKeepsOnlyTheTop | ainfer/ranking.py:46-56 | When the runner-up and the best score are already too dispersed, the context is the best paragraph alone |
| Ranking.CloseScoresAreTooDispersed | ainfer/ranking.py:55 | Scores of 0.90 and 0.95 reach the threshold: their sample standard deviation is about 0.035 |
| Ranking.EqualScoresFillTheContext | ainfer/ranking.py:46-61 | Equal scores never stop the walk: the context takes min(length, 10) paragraphs |
| Ranking.ContextHoldsTheBestScores | ainfer/ranking.py:46-61 | On an ascending ranking, any top-k suffix (the walk's context is one, by `ChooseParagraphsForContext`) holds the best scores: no paragraph left out scores higher than one in it |
| HighlightFile.Position | ainfer/files/highlight_file.py:47-51 | The first index holding the file, or the length when it is absent |
| HighlightFile.AppendSpec | ainfer/files/highlight_file.py:50 | `groups[file].append(p)` adds p to file's entry only; the keys stay as they were for a known file, and a new file's key is added at the end; keys stay distinct |
| HighlightFile.FirstSeenOrderSnoc | ainfer/files/highlight_file.py:47-51 | One more ranked paragraph keeps the first-seen order of the files already seen, and a file seen for the first time goes after all of them |
| HighlightFile.GroupedInFirstSeenOrder | ainfer/files/highlight_file.py:47-51 | The entries come in the order in which their files first appear among the ranked paragraphs |
| HighlightFile.GroupedSpec | ainfer/files/highlight_file.py:47-51 | One entry per distinct file, ordered by where each file is first seen, each holding exactly that file's paragraphs in input order; no file lost or invented |
| HighlightFile.GroupCountIsDistinctFileCount | ainfer/files/highlight_file.py:20 | There are as many groups as distinct files among the chosen paragraphs |
| HighlightFile.FindGroup | ainfer/files/highlight_file.py:50 | The dictionary key search returns the index of the file's entry, or the length when it has none |
| HighlightFile.GroupParagraphsByFile | ainfer/files/highlight_file.py:47-51 | The dictionary-building loop yields exactly the grouping `Grouped` |
| HighlightFile.CoordinatesOf | ainfer/files/highlight_file.py:25 | The box at the first index whose paragraph text matches |
| HighlightFile.DistinctParagraphsGetTheirOwnBox | ainfer/files/highlight_file.py:25 | When paragraphs are distinct, each paragraph gets the box at its own index |
| HighlightFile.Polygon | ainfer/files/highlight_file.py:30-31 | Four corners (x0,y0), (x1,y0), (x1,y1), (x0,y1): a closed rectangle with axis-parallel sides whose vertices are box corners |
| HighlightFile.HighlightOf | ainfer/files/highlight_file.py:30-33 | The polygon is drawn on the page given by the box's last component |
| HighlightFile.Highlights | ainfer/files/highlight_file.py:25-33 | One highlight per paragraph, in order |
| HighlightFile.HighlightParagraphsInFile | ainfer/files/highlight_file.py:23-44 | The result keeps name, paragraphs and coordinates; only the bytes change, to the annotator's output for the highlights |
| HighlightFile.ParagraphsOfLocatable | ainfer/files/highlight_file.py:25 | If every chosen paragraph can be located in its file, so can each file's group |
| HighlightFile.HighlightParagraphsInFiles | ainfer/files/highlight_file.py:19-20 | One highlighted copy per distinct file among the chosen paragraphs, ordered by where each file is first seen, each marking exactly that file's chosen paragraphs |
| Entrypoint.BuildContext | ainfer/entrypoint.py:33-38 | No paragraph gives ""; one paragraph gives its own text |
| Entrypoint.ParagraphTexts | ainfer/entrypoint.py:38 | The paragraph texts of the triples, in order |
| Entrypoint.SplitUndoesJoin | ainfer/entrypoint.py:38 | Lines without line breaks, joined with "\n" and split again, come back unchanged |
| Entrypoint.ContextSplitsBackIntoParagraphs | ainfer/entrypoint.py:33-38 | The context splits on "\n" back into exactly the chosen paragraphs, in order (parsed paragraphs hold no newline) |
| Entrypoint.TrimStopSequences | ainfer/entrypoint.py:41-45 | The result is a prefix of the answer |
| Entrypoint.NoMatchKeepsText | ainfer/entrypoint.py:41-45 | If no stop sequence ends the answer, it comes back unchanged |
| Entrypoint.FirstMatchIsCutOnce | ainfer/entrypoint.py:42-44 | The first matching stop sequence, in list order, is cut exactly once; an empty stop sequence leaves "" (`s[:-0]`) |
| Entrypoint.DoubledStopLosesOneCopy | ainfer/entrypoint.py:42-44 | "ok\n\n" trimmed with "\n" gives "ok\n" |
| Entrypoint.NotUploadedMembers | ainfer/entrypoint.py:166 | The filter keeps exactly the remembered files whose names were not uploaded |
| Entrypoint.NotUploadedKeepsOrder | ainfer/entrypoint.py:166 | The filter distributes over concatenation, so kept files stay in their remembered order |
| Entrypoint.NotUploadedOfOne | ainfer/entrypoint.py:166 | A single remembered file is kept exactly when its name was not uploaded |
| Entrypoint.MergeRawFiles | ainfer/entrypoint.py:160-166 | The uploads come first, unchanged; the rest is the filtered remembered list, that is, exactly the remembered files whose names are not among the uploads, in their remembered order |
| Entrypoint.NotUploadedKeepsDistinctNames | ainfer/entrypoint.py:166 | Filtering keeps remembered names distinct |
| Entrypoint.MergeKeepsNamesDistinct | ainfer/entrypoint.py:160-166 | With distinct names in each list, the merged list has distinct names |
| Entrypoint.MergeLosesNoName | ainfer/entrypoint.py:160-166 | Every name of either list is in the merged list |
| Entrypoint.DisplayIndex | ainfer/entrypoint.py:191-195 | The first position of the top-ranked file's name among the uploaded names, or `None` exactly when it was not uploaded now |

## Left out

- The Streamlit page and widgets are not modelled: upload, sidebar, progress bar, display, HTML and logo helpers, and `main` beyond the helpers above. The session state is the class `Session.SessionState`.
- The Cohere calls (`embed`, `generate`, `tokenize`) are not modelled. The embedding service is the parameter `embed`, and only its contract is assumed: a successful answer has one vector per text. The service's exception becomes `None`, and the warning it shows is not modelled.
- `get_similarity` is not modelled. It is numpy floating-point cosine, and the similarity is a function parameter.
- Floating point is not modelled. Scores and coordinates are reals, so there is no rounding. The standard deviation test is stated on the variance, against 0.01 squared.
- fitz (PyMuPDF) is not modelled. Opening a document and listing blocks is the `PdfReader` parameter. Drawing and `pdf.write()` are the opaque `Annotator` parameter, applied to the list of highlights; the drawing style (colours, opacity) is not modelled.
- `ainfer/files/download_file.py`, logging and `ainfer/client.py` are not part of this model.
- The session map holds Python values of any type. Here a value is a file's bytes, a list of vectors or an answer string. Each getter requires the key to hold the right kind, which the source assumes without checking.
- Missing keys are preconditions, not modelled errors. In the source `get_file_from_cache`, `get_parsed_file_embeddings_from_cache` and `get_answer_from_cache` raise `KeyError` on a missing key; here they require the key to be present.
- Memory.GetFilesFromMemory: returns the files in an unspecified order, since the order in which the session map is iterated is not modelled.
- Ranking.ChooseParagraphsForContext: requires a non-empty ranking, where the source's `pop` raises `IndexError`. It returns the shortened list instead of shortening the caller's list in place.
- Entrypoint.DisplayIndex: requires a non-empty ranking, where the source's `ranked_paragraphs[-1]` raises `IndexError`.
- HighlightFile.HighlightParagraphsInFile: requires every chosen paragraph to be found in its file with a box, where the source's `.index` raises `ValueError` or the coordinate lookup raises `IndexError`.
- The `.docx` and `.txt` parsers raise `NotImplementedError` in the source. They are modelled as the `Err(NotImplemented(...))` result and stop `ParseFiles` at the first such file.
- Ranking.RankAsWritten: the source raises a `TypeError` at `len(None)`. It is modelled as the error value `LenOfNone`.
- Entrypoint.BuildContext: its own contract covers only the empty and one-element cases. The general join is stated by `Entrypoint.ContextSplitsBackIntoParagraphs`, for paragraphs without line breaks.

Three behaviours of the code that are easy to misread:

- The stopping rule uses the sample standard deviation (`statistics.stdev`, n - 1 denominator).
- The 0.01 threshold is small: scores that fall from 0.95 to 0.90 already reach it (under either standard deviation), so the walk stops and only the best paragraph is chosen (`Ranking.CloseScoresAreTooDispersed` with `Ranking.FirstStopKeepsOnlyTheTop`).
- `previous_block_id` is never updated, so the block-number test drops exactly the text blocks numbered 0 (`ParseFile.KeptIffTextAndNonzeroNumber`).

## Findings

| source | as written | input that shows it | evidently intended | confidence | as-written member | corrected member |
|---|---|---|---|---|---|---|
| ainfer/ranking.py:34 | `rank_paragraphs` calls `len(embeddings)` before checking for `None`, so when `get_embeddings` returns `None` (service failure) it raises `TypeError`. The caller at ainfer/entrypoint.py:191 tests `ranked_paragraphs is not None` and never sees `None` | any request where the embedding service fails (`embed` returns `None`) | return `None` when the embeddings are `None`, so that the page's `is not None` check handles the failure | not executed | Ranking.RankAsWritten (with Ranking.ServiceFailureRaisesAsWritten) | Ranking.RankParagraphs |
