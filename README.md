# keywordlens-ai in Dafny

keywordlens-ai screens Amazon search keywords against a product. A product
description is embedded with the Zhipu embedding service, every keyword is
embedded the same way, and the cosine similarity ranks the keywords. The
web workflow (`WorkflowEngine`) splits the ranked keywords into three
queues by two thresholds:
- above 0.6 goes to manual review, marked `pending`;
- from 0.45 to 0.6 goes to automatic verification, marked `AUTO`;
- below 0.45 is excluded, marked `deleted`.

Automatic verification searches Amazon for each keyword and merges the
product photos into one grid image. It then asks the Zhipu vision model
whether the grid shows products like the reference image. The operator
reviews the manual queue item by item, and the result is exported as an
Excel sheet with `Score` and `Status` columns next to the keyword column.

Command-line scripts do the same screening in batch:
- `demo_zhipu_filter.py` and `auto_filter_with_ai.py` use a single
  threshold;
- `batch_analyze_with_ai.py` keeps a resumable progress file;
- `analyze_keyword_with_ai.py` analyses one keyword;
- `search_amazon.py` scrapes result images;
- `merge_images.py` builds the grid;
- `generate_product_description.py` writes the product description.

The model has one module per source file:
- `WorkflowEngine`, `WorkflowQueues`, `WorkflowVerification` and
  `WorkflowExport` (all `workflow_engine.py`);
- `ZhipuVision`, `ZhipuScoring`, `MergeImages`, `SearchAmazon`,
  `BatchAnalyze`, `AnalyzeKeyword`;
- `DemoZhipuFilter` and `AutoFilterWithAi`, with their shared logic in
  `ThresholdFilter`;
- `GenerateDescription` and `Server`.

Four helper modules hold the Python built-ins the code relies on:
- `Strings`: strip, lower, split, join, replace, slicing and `int()`;
- `Paths`: `pathlib`'s parsing of a path, `/` and `str()`;
- `Sorting`: Python's stable `sorted(..., reverse=True)` on a key, and list
  comprehension filters;
- `Frames`: a pandas sheet as a sequence of named columns.

`WorkflowEngine.Engine`, `BatchAnalyze.ProgressTracker` and
`SearchAmazon.AmazonSearcher` are classes whose methods update their fields
in place, as the Python objects do. Loops in the source are `while` loops
with invariants, proved against specification functions. The rest is
functions and lemmas.

Everything outside the program is a parameter of the model:
- the embedding service is a function from batch number to reply;
- cosine similarity is a function on vectors, plus a flag for a NumPy
  failure;
- the vision model's reply and its JSON decoding are values;
- downloads are a function from URL index to fetch outcome;
- browser pages are values;
- the file system is "exists" flags and already-parsed sheets;
- answers typed at `input()` prompts are strings.

Scores are exact reals.

Where the repository's design notes and the code differ, the model follows
the code:
- In `configure_manual_review`, a high-score item that is not sent to
  manual review goes to the auto queue with status `kept`. It is not
  excluded.
- `get_manual_list` moves only `pending` items to the front. It does not
  rank other statuses.
- Scored items always carry a float score, so no `None`-as-0 case exists.
- The export matches sheet cells to results by `str(val)`, with no
  trimming.
- The batch folder name replaces spaces and slashes and cuts to 50
  characters, without stripping.
- The grid canvas's row count comes from the number of successful
  downloads, not from the number of URLs.

## Model

| member | source | states |
|---|---|---|
| `WorkflowEngine.Engine.constructor` | amazon-keyword-filter/scripts/workflow_engine.py:28-59 | A new engine has three empty queues, no data, no counts, and an idle status. |
| `WorkflowEngine.Engine.StartAnalysis` | amazon-keyword-filter/scripts/workflow_engine.py:61-78 | Starting an analysis clears the queues and sets the total to the number of keywords. It marks the engine as scoring and records the product image and description. |
| `WorkflowEngine.Engine.ScoreAndSplit` | amazon-keyword-filter/scripts/workflow_engine.py:80-138 | A scoring error only sets the error status, and the queues are unchanged. A successful scoring replaces the queues with the three-way split of the results and sets progress to 100. The status message depends on whether the manual queue is empty. |
| `WorkflowEngine.Engine.RunScoringAsWritten` | amazon-keyword-filter/scripts/workflow_engine.py:88 | The call as written passes `progress_callback`, which `score_keywords` does not accept. So the status becomes the TypeError's scoring error and no queue changes. |
| `WorkflowEngine.Engine.RunScoring` | amazon-keyword-filter/scripts/workflow_engine.py:80-138 | With the keyword argument dropped, a successful scoring puts every scored keyword in exactly one queue, by the split rule. A failed scoring reports its error. |
| `WorkflowEngine.ScoringAsWrittenLosesKeywords` | amazon-keyword-filter/scripts/workflow_engine.py:88 | Uploading one keyword and analysing it as written queues nothing and ends in the scoring error. |
| `WorkflowEngine.ScoringQueuesKeywords` | amazon-keyword-filter/scripts/workflow_engine.py:80-112 | The corrected scoring queues exactly as many keywords as scoring returned, for the same one-keyword upload. |
| `WorkflowEngine.ScoreUpload` | amazon-keyword-filter/scripts/workflow_engine.py:80-112 | Starting an analysis of any upload and then running the corrected scoring records the upload size and queues exactly the keywords scoring returned. |
| `WorkflowEngine.Engine.ConfigureManualReview` | amazon-keyword-filter/scripts/workflow_engine.py:326-382 | The three queues are pooled and routed again by the include flags. No item is lost or added. The cursor resets, and the result is the manual queue's length. |
| `WorkflowEngine.Engine.MoveAllToManual` | amazon-keyword-filter/scripts/workflow_engine.py:322-324 | Every item ends in the manual queue, all of them pending, and the other queues are empty. |
| `WorkflowEngine.Engine.HandleManualAction` | amazon-keyword-filter/scripts/workflow_engine.py:384-412 | An index out of range gives "Invalid index" and changes nothing. Otherwise only that item's status changes, by the action. The cursor moves to the next item, and reaching the end marks the review complete. |
| `WorkflowEngine.Engine.ManualNavigate` | amazon-keyword-filter/scripts/workflow_engine.py:414-422 | A valid index makes that item the current one. Any other index gives "Index out of bounds" and leaves the cursor alone. |
| `WorkflowEngine.Engine.CurrentManualKeyword` | amazon-keyword-filter/scripts/workflow_engine.py:303-306 | There is a current keyword exactly when the cursor is inside the manual queue, and it is the item at the cursor. |
| `WorkflowEngine.Engine.GetStatus` | amazon-keyword-filter/scripts/workflow_engine.py:286-301 | The counts are the queue lengths. The pending count reaches the total exactly when all manual items are pending, and is 0 exactly when none are. |
| `WorkflowEngine.Engine.GetManualList` | amazon-keyword-filter/scripts/workflow_engine.py:308-312 | The list is the pending items and then the others, each group in queue order. |
| `WorkflowEngine.Engine.GetAllKeywordsList` | amazon-keyword-filter/scripts/workflow_engine.py:314-320 | The list is a permutation of the three queues, ranked by score from high to low. |
| `WorkflowEngine.Engine.StartAutoVerification` | amazon-keyword-filter/scripts/workflow_engine.py:139-145 | An empty auto queue starts nothing. Otherwise the result reports how many items were started, and the queue and counts become the verified ones. |
| `WorkflowEngine.Engine.RunVerification` | amazon-keyword-filter/scripts/workflow_engine.py:153-261 | After the worker loop, the auto queue is every item verified on its own. The keep and drop counts grow by the items that verification kept and dropped. |
| `WorkflowEngine.Engine.ProcessOneItem` | amazon-keyword-filter/scripts/workflow_engine.py:166-244 | Processing item `i` replaces only that item, by `VerifyItem`, and counts it as kept or dropped. |
| `WorkflowEngine.VerifyOne` | amazon-keyword-filter/scripts/workflow_engine.py:166-244 | The worker's result for one item is the specification's step. |
| `WorkflowEngine.Engine.SetData` | amazon-keyword-filter/scripts/workflow_engine.py:466-469 | The sheet and keyword column are stored. |
| `WorkflowEngine.Engine.GenerateExportExcel` | amazon-keyword-filter/scripts/workflow_engine.py:471-540 | The export is the sheet export of all three queues. With no data loaded it fails with "No data loaded". |
| `WorkflowQueues.StatusNamesDistinct` | amazon-keyword-filter/scripts/workflow_engine.py:392-397 | Different statuses are written under different names, so an exported label identifies its status. |
| `WorkflowQueues.FromScored` | amazon-keyword-filter/scripts/zhipu_scoring.py:105-111 | Each scored result becomes a queue item with the same keyword and score, in the same order. |
| `WorkflowQueues.SplitPlacement` | amazon-keyword-filter/scripts/workflow_engine.py:98-110 | An item goes to manual exactly when its score is above 0.6. It goes to auto exactly when the score is from 0.45 to 0.6, and to excluded exactly below 0.45. The status is pending, AUTO or deleted to match. |
| `WorkflowQueues.ConfigPlacement` | amazon-keyword-filter/scripts/workflow_engine.py:343-372 | For each tier, an item goes to manual exactly when its tier's flag is set. An unflagged high item goes to auto as `kept`, an unflagged middle item stays auto, and an unflagged low item is excluded as deleted. |
| `WorkflowQueues.RoutePlaced` | amazon-keyword-filter/scripts/workflow_engine.py:98-110 | Every item a queue receives was placed in that queue, with the status the placement gives. |
| `WorkflowQueues.RouteAppend` | amazon-keyword-filter/scripts/workflow_engine.py:98-110 | Routing a concatenation routes each part, in order. |
| `WorkflowQueues.RouteSizes` | amazon-keyword-filter/scripts/workflow_engine.py:98-110 | The three queues together are as long as the input. |
| `WorkflowQueues.RoutePartition` | amazon-keyword-filter/scripts/workflow_engine.py:343-372 | Apart from statuses, the three queues are a permutation of the input. |
| `WorkflowQueues.SplitQueues` | amazon-keyword-filter/scripts/workflow_engine.py:90-112 | The loop builds exactly the routed manual, auto and excluded queues, and loses no item. |
| `WorkflowQueues.ConfigureQueues` | amazon-keyword-filter/scripts/workflow_engine.py:335-372 | The loop over the pooled items builds exactly the queues the configuration rule routes. |
| `WorkflowQueues.RouteFixed` | amazon-keyword-filter/scripts/workflow_engine.py:343-372 | Routing a queue already placed by the rule returns it unchanged. |
| `WorkflowQueues.RouteNone` | amazon-keyword-filter/scripts/workflow_engine.py:343-372 | A queue receives nothing from items the rule places elsewhere. |
| `WorkflowQueues.RouteIdempotent` | amazon-keyword-filter/scripts/workflow_engine.py:343-372 | Routing the three routed queues again gives the same queues. |
| `WorkflowQueues.RouteAgain` | amazon-keyword-filter/scripts/workflow_engine.py:343-372 | Routing one queue again keeps it, and yields nothing for the other queues. |
| `WorkflowQueues.ConfigureIdempotent` | amazon-keyword-filter/scripts/workflow_engine.py:343-372 | Applying the same review configuration twice gives the queues of applying it once. |
| `WorkflowQueues.ActionStatus` | amazon-keyword-filter/scripts/workflow_engine.py:392-397 | "keep", "delete" and "undecided" set kept, deleted and undecided. Any other action keeps the status. |
| `WorkflowQueues.PendingCountBounds` | amazon-keyword-filter/scripts/workflow_engine.py:295 | The pending count is the queue length exactly when all items are pending, and 0 exactly when none are. |
| `WorkflowQueues.ManualListPendingFirst` | amazon-keyword-filter/scripts/workflow_engine.py:312 | A stable descending sort on "is pending" gives the pending items in order, then the rest in order. |
| `WorkflowQueues.AllKeywordsRanked` | amazon-keyword-filter/scripts/workflow_engine.py:318-320 | The unified list is a permutation of the three queues, sorted by score from high to low. Items with equal scores keep their queue order. |
| `WorkflowVerification.VerifyItem` | amazon-keyword-filter/scripts/workflow_engine.py:166-244 | Verification keeps an item's keyword and score, and never both keeps and drops it. A kept item is verified_keep, a dropped one is verified_delete, and an unchanged one keeps its status. |
| `WorkflowVerification.VerifyItemCases` | amazon-keyword-filter/scripts/workflow_engine.py:175-244 | No images means verified_delete with "No images found on Amazon". A search error, a missing collage or a missing key leaves the item unchanged. A missing reference image means verified_delete with "Missing Reference Image". The item is kept exactly when the normalised vision reply decides "YES". |
| `WorkflowVerification.RequestFailureDrops` | amazon-keyword-filter/scripts/workflow_engine.py:227-240 | A failed vision request drops the item, with "API Error: ..." as the reason. |
| `WorkflowVerification.VerifiedQueue` | amazon-keyword-filter/scripts/workflow_engine.py:160 | The verified queue has the same length, and each item is verified with its own outcome. |
| `WorkflowVerification.Verified` | amazon-keyword-filter/scripts/workflow_engine.py:160 | Only AUTO items are submitted. Any other item comes back unchanged, and keywords and scores never change. |
| `WorkflowVerification.Targets` | amazon-keyword-filter/scripts/workflow_engine.py:160 | The number of AUTO items among the first `n` is at most `n`. |
| `WorkflowVerification.CountsMatchQueue` | amazon-keyword-filter/scripts/workflow_engine.py:230-240 | The keep count equals the number of items that became verified_keep. Keeps plus drops never exceed the AUTO items submitted. |
| `WorkflowVerification.NoTargetsNoChange` | amazon-keyword-filter/scripts/workflow_engine.py:160-163 | A queue with no AUTO item is returned unchanged, with no counts. |
| `WorkflowVerification.NoCountsBelow` | amazon-keyword-filter/scripts/workflow_engine.py:160-163 | With no AUTO item, no prefix of the queue adds to either count. |
| `WorkflowExport.ResultMap` | amazon-keyword-filter/scripts/workflow_engine.py:494 | The result map has exactly the queued keywords as keys, each mapped to an item with that keyword. |
| `WorkflowExport.ResultMapLast` | amazon-keyword-filter/scripts/workflow_engine.py:494 | For a repeated keyword, the last queued item wins. |
| `WorkflowExport.ResultColumns` | amazon-keyword-filter/scripts/workflow_engine.py:496-506 | Row by row, the score is the matched item's score or empty. The status is its status name or "unprocessed". |
| `WorkflowExport.ScoresFor` | amazon-keyword-filter/scripts/workflow_engine.py:499-506 | The score column has one entry per row, looked up by the cell's text. |
| `WorkflowExport.StatusesFor` | amazon-keyword-filter/scripts/workflow_engine.py:499-506 | The status column has one entry per row, "unprocessed" when the keyword is unknown. |
| `WorkflowExport.InsertAt` | amazon-keyword-filter/scripts/workflow_engine.py:537-540 | Inserting puts the column at the index and shifts the later columns right by one. |
| `WorkflowExport.Laid` | amazon-keyword-filter/scripts/workflow_engine.py:537-540 | The target layout is the columns up to the keyword column, then the two new columns, then the rest. |
| `WorkflowExport.InsertTwice` | amazon-keyword-filter/scripts/workflow_engine.py:537-540 | Inserting `Status` and then `Score` at the same index right of the keyword column gives keyword, Score, Status. |
| `WorkflowExport.ExportSucceeds` | amazon-keyword-filter/scripts/workflow_engine.py:481-482 | With data loaded, the export succeeds exactly when the keyword column's name labels one column and is neither `Score` nor `Status`. |
| `WorkflowExport.ExportLayout` | amazon-keyword-filter/scripts/workflow_engine.py:533-540 | After the old columns are dropped, the keyword column is directly followed by the new Score and Status columns. The sheet grows by exactly two columns. |
| `WorkflowExport.ExportDropsStaleColumns` | amazon-keyword-filter/scripts/workflow_engine.py:533-534 | No original column named `Score` or `Status` survives the export. |
| `WorkflowExport.ExportRowValues` | amazon-keyword-filter/scripts/workflow_engine.py:494-506 | A row whose keyword was never queued reads empty and "unprocessed". Otherwise it shows the last matching item's score and status. |
| `WorkflowExport.ExportSheet` | amazon-keyword-filter/scripts/workflow_engine.py:484-540 | The export of loaded data is the specified export, whose properties the lemmas above give. |
| `ZhipuVision.NewClient` | amazon-keyword-filter/scripts/zhipu_vision.py:14-17 | A client is built exactly when the argument or the environment gives a non-empty key, with the argument preferred. Otherwise it fails with "ZHIPU_API_KEY is missing". |
| `ZhipuVision.ImageUrl` | amazon-keyword-filter/scripts/zhipu_vision.py:66 | An `http` source is sent as is. Anything else is wrapped as a JPEG data URL. |
| `ZhipuVision.ImageUrlCarriesSource` | amazon-keyword-filter/scripts/zhipu_vision.py:66-72 | Every image reaches the model as an `http` URL or as a data URL carrying exactly the given base64 text. |
| `ZhipuVision.CleanContent` | amazon-keyword-filter/scripts/zhipu_vision.py:95 | The cleaned reply has no leading or trailing whitespace. |
| `ZhipuVision.CleanFencedReply` | amazon-keyword-filter/scripts/zhipu_vision.py:95 | A reply fenced as a ```` ```json ```` block comes back as its stripped body. |
| `ZhipuVision.ApiError` | amazon-keyword-filter/scripts/zhipu_vision.py:113-120 | The error record decides "NO", with score 0.0, similar count 0, and "API Error: " plus the message as reason. |
| `ZhipuVision.RawTextResult` | amazon-keyword-filter/scripts/zhipu_vision.py:103-111 | A reply that is not JSON decides "YES" exactly when it mentions YES (any case) or 是. Its score is 0.5, and its reason is the first 100 characters. |
| `ZhipuVision.AnalyzeImageSync` | amazon-keyword-filter/scripts/zhipu_vision.py:87-120 | A failed request gives the error record, and unparseable text gives the raw-text record. A decoded dict keeps all its keys and values and gains `decision` and `reason`. A decoded list without both keys gives the error record with Python's "list indices must be integers or slices, not str". Every dict result has both keys. |
| `ZhipuVision.DefaultsOnlyFillGaps` | amazon-keyword-filter/scripts/zhipu_vision.py:97-102 | The defaults "NO" and the first 50 characters apply only to missing keys. A dict that has both keys comes back unchanged. |
| `ZhipuVision.FailuresDecideNo` | amazon-keyword-filter/scripts/zhipu_vision.py:113-120 | A failed request or an unusable decoded value always gives a dict deciding "NO". |
| `ZhipuScoring.Zero` | amazon-keyword-filter/scripts/zhipu_scoring.py:53 | The fill vector has 2048 zeros, the embedding dimension. |
| `ZhipuScoring.Batches` | amazon-keyword-filter/scripts/zhipu_scoring.py:24-33 | Batches hold 1 to 64 texts each, and concatenated they give back the input. |
| `ZhipuScoring.Zeros` | amazon-keyword-filter/scripts/zhipu_scoring.py:53 | `n` zero vectors. |
| `ZhipuScoring.BatchResult` | amazon-keyword-filter/scripts/zhipu_scoring.py:35-69 | An all-blank batch adds nothing. A failed request adds one zero vector per non-blank text. Success adds the service's vectors. |
| `ZhipuScoring.EmbedBatch` | amazon-keyword-filter/scripts/zhipu_scoring.py:32-69 | One pass of the batch loop adds exactly `BatchResult`. |
| `ZhipuScoring.EmbeddingList` | amazon-keyword-filter/scripts/zhipu_scoring.py:32-69 | The loop's output is the batch results in batch order. |
| `ZhipuScoring.EmbeddingArray` | amazon-keyword-filter/scripts/zhipu_scoring.py:71 | `np.array` succeeds exactly when every gathered vector has the first one's length, and then holds them all. Otherwise it raises numpy's inhomogeneous-shape `ValueError`. |
| `ZhipuScoring.GetEmbedding` | amazon-keyword-filter/scripts/zhipu_scoring.py:15-71 | The result is the batch results in batch order when they form a rectangular array. Otherwise the call raises numpy's error. |
| `ZhipuScoring.ServiceDimensionsArray` | amazon-keyword-filter/scripts/zhipu_scoring.py:50-71 | When the service only returns 2048-entry vectors, building the array cannot fail, because the zero fill has 2048 entries too. |
| `ZhipuScoring.AllFailuresZeroFill` | amazon-keyword-filter/scripts/zhipu_scoring.py:50-69 | When every request fails, the result is one zero vector per non-blank text. |
| `ZhipuScoring.BlankTextsEmbedNothing` | amazon-keyword-filter/scripts/zhipu_scoring.py:35-37 | All-blank input gives no vectors. |
| `ZhipuScoring.ExactServiceLength` | amazon-keyword-filter/scripts/zhipu_scoring.py:64-65 | When the service answers every batch with one vector per text, there is one vector per non-blank text. |
| `ZhipuScoring.ZeroScores` | amazon-keyword-filter/scripts/zhipu_scoring.py:87 | Every keyword is scored 0.0, in input order. |
| `ZhipuScoring.Paired` | amazon-keyword-filter/scripts/zhipu_scoring.py:105-111 | Keyword `k` is paired with similarity `k`. |
| `ZhipuScoring.PairScores` | amazon-keyword-filter/scripts/zhipu_scoring.py:104-111 | With fewer similarities than keywords, the loop raises `IndexError` at the first missing one. Otherwise each keyword gets its own similarity, in input order. |
| `ZhipuScoring.ScoreKeywords` | amazon-keyword-filter/scripts/zhipu_scoring.py:73-115 | No keywords or an empty description gives an empty result. A non-empty success scores every keyword. The result is `ScoreSpec`: a description whose embedding raises, even for unequal vector lengths, scores every keyword 0.0, while keyword vectors of unequal lengths make the call raise. |
| `ZhipuScoring.RaggedKeywordVectorsRaise` | amazon-keyword-filter/scripts/zhipu_scoring.py:90 | Keyword vectors of unequal lengths make scoring fail with numpy's inhomogeneous-shape message, because nothing around the keyword embedding catches it. |
| `ZhipuScoring.SortKeepsKeywords` | amazon-keyword-filter/scripts/zhipu_scoring.py:114 | Sorting by score keeps the multiset of keywords. |
| `ZhipuScoring.ScoredResultsRankKeywords` | amazon-keyword-filter/scripts/zhipu_scoring.py:105-114 | A successful non-empty result scores each input keyword exactly once, highest score first. |
| `ZhipuScoring.ScoredPairsRanked` | amazon-keyword-filter/scripts/zhipu_scoring.py:105-114 | Once similarities are computed, the result is exactly the (keyword, own similarity) pairs, highest score first, with equal scores in input order. |
| `ZhipuScoring.BlankDescriptionScoresZero` | amazon-keyword-filter/scripts/zhipu_scoring.py:83-87 | A whitespace-only description scores every keyword 0.0. |
| `ZhipuScoring.BlankKeywordRaises` | amazon-keyword-filter/scripts/zhipu_scoring.py:106-107 | A blank keyword gets no vector, so indexing the vectors by keyword position raises and scoring fails. |
| `MergeImages.DownloadImage` | amazon-keyword-filter/scripts/merge_images.py:50-80 | An image is returned only from a successful fetch. With verification off, no retry re-enables it. |
| `MergeImages.DownloadRetry` | amazon-keyword-filter/scripts/merge_images.py:50-80 | An SSL failure with verification on retries once without verification. Any other failure gives no image. |
| `MergeImages.Collected` | amazon-keyword-filter/scripts/merge_images.py:117-146 | There are at most as many successes as URLs. |
| `MergeImages.FailedOf` | amazon-keyword-filter/scripts/merge_images.py:117-146 | There are at most as many failures as URLs. |
| `MergeImages.CollectPartition` | amazon-keyword-filter/scripts/merge_images.py:117-146 | Successes and failures together account for every URL once. A 1-based index is a success exactly when its download gave an image, and a failure exactly when it did not. |
| `MergeImages.CollectedDistinct` | amazon-keyword-filter/scripts/merge_images.py:137-146 | Collected indices are distinct and between 1 and the number of URLs. |
| `MergeImages.CollectedFrom` | amazon-keyword-filter/scripts/merge_images.py:137-146 | Every collected index is a submitted URL's position plus one. |
| `MergeImages.RowsCeil` | amazon-keyword-filter/scripts/merge_images.py:161 | The row count is the ceiling of images over columns. |
| `MergeImages.CellAt` | amazon-keyword-filter/scripts/merge_images.py:172-176 | Image `idx` is pasted in column `(idx-1) % columns`, within the canvas width. |
| `MergeImages.CellsDisjoint` | amazon-keyword-filter/scripts/merge_images.py:172-179 | Different indices are pasted into non-overlapping cells. |
| `MergeImages.CellInside` | amazon-keyword-filter/scripts/merge_images.py:161-176 | An index up to `n` lies within the height of an `n`-image canvas. |
| `MergeImages.Layout` | amazon-keyword-filter/scripts/merge_images.py:172-179 | Each collected image gets the cell of its own index. |
| `MergeImages.CanvasFor` | amazon-keyword-filter/scripts/merge_images.py:161-179 | The canvas is `columns` cells wide and just enough rows high for the collected images, with one cell per image. |
| `MergeImages.MergeImagesGrid` | amazon-keyword-filter/scripts/merge_images.py:83-201 | No URLs gives no file. A file is written exactly when some download succeeded, at `str(Path(output_path))`, with the canvas above. |
| `MergeImages.CollectDownloads` | amazon-keyword-filter/scripts/merge_images.py:141-146 | The completion loop collects exactly the successes and failures, in completion order. |
| `MergeImages.PlaceCells` | amazon-keyword-filter/scripts/merge_images.py:172-179 | The paste loop places each image in its cell. |
| `MergeImages.AllFetchedInside` | amazon-keyword-filter/scripts/merge_images.py:161-176 | When every download succeeds, every image lies on the canvas. |
| `MergeImages.FailureLeavesImageOffCanvas` | amazon-keyword-filter/scripts/merge_images.py:161-176 | With five columns and only image 6 downloaded, the canvas is one row high and image 6 is pasted below it. |
| `MergeImages.UrlListEntries` | amazon-keyword-filter/scripts/merge_images.py:252-254 | Every URL parsed from `--urls` is non-empty, stripped and free of commas. |
| `MergeImages.UrlListRoundTrip` | amazon-keyword-filter/scripts/merge_images.py:252-254 | Joining clean URLs with commas and parsing gives them back. |
| `BatchAnalyze.Load` | amazon-keyword-filter/scripts/batch_analyze_with_ai.py:55-70 | A readable cache file is used as is. Otherwise progress starts empty, "in_progress". |
| `BatchAnalyze.AppendNew` | amazon-keyword-filter/scripts/batch_analyze_with_ai.py:78-89 | A name already listed leaves the list alone, and a new one is appended. |
| `BatchAnalyze.AppendNewKeepsDistinct` | amazon-keyword-filter/scripts/batch_analyze_with_ai.py:78-89 | Appending keeps a duplicate-free list duplicate-free and adds exactly the name. |
| `BatchAnalyze.RemoveFirstDistinct` | amazon-keyword-filter/scripts/batch_analyze_with_ai.py:94-95 | Removing from a duplicate-free list removes the name entirely. |
| `BatchAnalyze.McpCompletedMoves` | amazon-keyword-filter/scripts/batch_analyze_with_ai.py:91-97 | Completing a folder moves it from pending to completed. Every other folder stays in the list it was in, and both lists stay duplicate-free. |
| `BatchAnalyze.FolderSetSize` | amazon-keyword-filter/scripts/batch_analyze_with_ai.py:104-107 | The completed set is no larger than the list, and equal in size when the list has no duplicates. |
| `BatchAnalyze.ProgressTracker.constructor` | amazon-keyword-filter/scripts/batch_analyze_with_ai.py:50-53 | A tracker starts from the loaded progress. |
| `BatchAnalyze.ProgressTracker.AddCompleted` | amazon-keyword-filter/scripts/batch_analyze_with_ai.py:78-83 | The folder is added to completed once and becomes the current folder. |
| `BatchAnalyze.ProgressTracker.AddMcpPending` | amazon-keyword-filter/scripts/batch_analyze_with_ai.py:85-89 | The folder is added to pending once. |
| `BatchAnalyze.ProgressTracker.AddMcpCompleted` | amazon-keyword-filter/scripts/batch_analyze_with_ai.py:91-97 | The folder's first pending entry is removed and the folder is added to completed once. |
| `BatchAnalyze.ProgressTracker.AddFailed` | amazon-keyword-filter/scripts/batch_analyze_with_ai.py:99-102 | One failure record is appended. |
| `BatchAnalyze.ProgressTracker.SetStatus` | amazon-keyword-filter/scripts/batch_analyze_with_ai.py:114-117 | The status is replaced. |
| `BatchAnalyze.ProgressTracker.CompletedFolders` | amazon-keyword-filter/scripts/batch_analyze_with_ai.py:104-107 | The set holds exactly the completed folders. |
| `BatchAnalyze.ProgressTracker.GetMcpPending` | amazon-keyword-filter/scripts/batch_analyze_with_ai.py:109-112 | The pending folders, as a value. |
| `BatchAnalyze.PendingCopyIsIndependent` | amazon-keyword-filter/scripts/batch_analyze_with_ai.py:109-112 | A copy taken before a completion keeps the old list while the tracker's list changes. |
| `Strings.SafeName` | amazon-keyword-filter/scripts/search_amazon.py:94 | The name has no spaces or slashes, and each character is the keyword's own, with spaces and slashes replaced by `_`. Its length is the keyword's length when that is at most `n`, and exactly `n` otherwise. |
| `Strings.Take` | amazon-keyword-filter/scripts/analyze_keyword_with_ai.py:239 | `s[:n]` is a prefix of `s`. It is all of `s` when `s` fits, and exactly `n` long otherwise. |
| `BatchAnalyze.SafeKeyword` | amazon-keyword-filter/scripts/batch_analyze_with_ai.py:273 | The folder name has no spaces or slashes. Its length is the keyword's length when that is at most 50, and exactly 50 otherwise. |
| `BatchAnalyze.SafeKeywordKeepsEdges` | amazon-keyword-filter/scripts/batch_analyze_with_ai.py:273 | Surrounding spaces are not stripped: "  spaces  " becomes "__spaces__". |
| `BatchAnalyze.FilterStage` | amazon-keyword-filter/scripts/batch_analyze_with_ai.py:495-526 | With filtering off or an empty filter result, all keywords are kept. Otherwise the filtered ones are. The stage is empty only for empty input. |
| `BatchAnalyze.SearchSingleKeyword` | amazon-keyword-filter/scripts/batch_analyze_with_ai.py:591-611 | A returned search is cached under the keyword. An exception leaves the cache alone. The failure list grows by the failure record. |
| `BatchAnalyze.FailureRecord` | amazon-keyword-filter/scripts/batch_analyze_with_ai.py:602-611 | A failure is recorded exactly when the search raised or found nothing, and it names the keyword. |
| `BatchAnalyze.FailureRecordCases` | amazon-keyword-filter/scripts/batch_analyze_with_ai.py:602-611 | A search that found products records nothing. An exception records its message. |
| `SearchAmazon.Candidates` | amazon-keyword-filter/scripts/search_amazon.py:472-478 | The precise selector's elements are used when there are any. Otherwise the generic ones are. |
| `SearchAmazon.Prefix` | amazon-keyword-filter/scripts/search_amazon.py:482 | A slice `[:n]` with `n >= 0` is a prefix of length `min(n, len)`. |
| `SearchAmazon.PyPrefix` | amazon-keyword-filter/scripts/search_amazon.py:482 | A slice `[:n]` for any integer `n` is a prefix. A negative `n` drops the last `-n` elements, or all of them when there are fewer. |
| `SearchAmazon.AcceptedUrlsPrefix` | amazon-keyword-filter/scripts/search_amazon.py:482-499 | Accepted URLs of a prefix of the page start the accepted URLs of the page. |
| `SearchAmazon.KeptUrlsBounds` | amazon-keyword-filter/scripts/search_amazon.py:482-499 | For `max >= 0`, at most `max` URLs are kept, and exactly `max` when enough candidates qualify. A negative `max` keeps at most one. Each kept URL is an `http` URL with no logo or ad-feedback marker. |
| `SearchAmazon.AcceptedUrlsSafe` | amazon-keyword-filter/scripts/search_amazon.py:487-491 | Every accepted URL starts with `http` and contains neither "amazon-logo" nor "ad-feedback". |
| `SearchAmazon.AcceptedUrlsOrigin` | amazon-keyword-filter/scripts/search_amazon.py:482-499 | Every accepted URL is the `src` of an accepted element, in page order. |
| `SearchAmazon.FilterUrls` | amazon-keyword-filter/scripts/search_amazon.py:481-499 | For any integer `max`, the loop with its early break gives the kept URLs: the accepted URLs of `[:max * 2]`, cut where `len(image_urls) >= max` first holds. |
| `SearchAmazon.KeptAtStop` | amazon-keyword-filter/scripts/search_amazon.py:495-496 | Stopping when the break test passes (at `max` URLs, or at one URL when `max <= 0`) or at the end of the slice gives the kept URLs. |
| `SearchAmazon.FirstAccepted` | amazon-keyword-filter/scripts/search_amazon.py:482-496 | There are no accepted URLs exactly when no element is accepted. Otherwise the first is the `src` of the first accepted element. |
| `SearchAmazon.NegativeMaxKeepsFirst` | amazon-keyword-filter/scripts/search_amazon.py:482-496 | With a negative `max_products`, the result is the `src` of the first accepted element before the last `-2 * max` elements, or nothing when none of them is accepted. |
| `SearchAmazon.SearchOutcome` | amazon-keyword-filter/scripts/search_amazon.py:504-515 | The count is the number of URLs: at most `max`, or at most one for a negative `max`. A failed page gives none. A loaded page gives the kept URLs. |
| `SearchAmazon.EnsureDriverStep` | amazon-keyword-filter/scripts/search_amazon.py:430-436 | Afterwards there is a driver. An existing, initialised driver is kept. |
| `SearchAmazon.CloseStep` | amazon-keyword-filter/scripts/search_amazon.py:517-522 | Closing leaves no driver, and closing with no driver does nothing. |
| `SearchAmazon.DriverLifecycle` | amazon-keyword-filter/scripts/search_amazon.py:430-436 | Ensuring twice launches once. Closing twice is closing once. Ensuring after a close launches a new driver. |
| `SearchAmazon.AmazonSearcher.constructor` | amazon-keyword-filter/scripts/search_amazon.py:424-428 | A searcher starts with its domain and no driver. |
| `SearchAmazon.AmazonSearcher.EnsureDriver` | amazon-keyword-filter/scripts/search_amazon.py:430-436 | The driver state takes the ensure step. |
| `SearchAmazon.AmazonSearcher.Search` | amazon-keyword-filter/scripts/search_amazon.py:438-515 | A search ensures the driver and returns the page's filtered result. |
| `SearchAmazon.AmazonSearcher.Close` | amazon-keyword-filter/scripts/search_amazon.py:517-522 | The driver state takes the close step. |
| `SearchAmazon.ScreenshotName` | amazon-keyword-filter/scripts/search_amazon.py:94-108 | The file name is `amazon_search_..._<timestamp>.png` and contains no slash. |
| `SearchAmazon.PathJoin` | amazon-keyword-filter/scripts/search_amazon.py:101 | The joined path starts with the directory and ends with the name (`os.path.join`). |
| `SearchAmazon.ScreenshotPath` | amazon-keyword-filter/scripts/search_amazon.py:97-108 | With no path, the generated name is used. A file path is used as is. A directory gets the generated name inside it. |
| `SearchAmazon.SearchOnce` | amazon-keyword-filter/scripts/search_amazon.py:147-265 | A failed page gives no URLs and no screenshot. A loaded page gives the filtered URLs and, when asked, a screenshot at the computed path. |
| `SearchAmazon.Defaults` | amazon-keyword-filter/scripts/search_amazon.py:296-305 | The defaults are amazon.com, 20 products, headless, and a 5-second wait. |
| `SearchAmazon.AfterFirst` | amazon-keyword-filter/scripts/search_amazon.py:321-323 | The text after the first separator is a proper suffix that follows the separator. |
| `SearchAmazon.SecondFieldIsSplit` | amazon-keyword-filter/scripts/search_amazon.py:321-323 | That text is `split(sep)[1]` when it holds no further separator. |
| `SearchAmazon.ParseCommandLine` | amazon-keyword-filter/scripts/search_amazon.py:273-327 | With no keyword, it prints usage and exits. Otherwise the arguments are applied in order, and the first bad number crashes. |
| `SearchAmazon.FailureStops` | amazon-keyword-filter/scripts/search_amazon.py:308-327 | Once an argument fails, later arguments do not matter. |
| `SearchAmazon.LastDomainWins` | amazon-keyword-filter/scripts/search_amazon.py:324-325 | A later domain argument replaces an earlier one. |
| `SearchAmazon.WaitBranch` | amazon-keyword-filter/scripts/search_amazon.py:320-321 | `--wait=` sets the wait to the parsed number or fails on the text. |
| `SearchAmazon.WaitArg` | amazon-keyword-filter/scripts/search_amazon.py:320-321 | `--wait=<n>` sets the wait to `n`. |
| `SearchAmazon.WaitWithoutNumberCrashes` | amazon-keyword-filter/scripts/search_amazon.py:321 | `--wait=` with nothing after it raises. |
| `SearchAmazon.ScreenshotPathArg` | amazon-keyword-filter/scripts/search_amazon.py:322-323 | `--screenshot-path=<p>` stores `p`. |
| `SearchAmazon.NumberArg` | amazon-keyword-filter/scripts/search_amazon.py:326-327 | A bare number sets the product count. |
| `AnalyzeKeyword.AnalyzeReferenceProduct` | amazon-keyword-filter/scripts/analyze_keyword_with_ai.py:104-112 | The reference analysis is the MCP placeholder for the image. |
| `AnalyzeKeyword.AnalyzeMergedGrid` | amazon-keyword-filter/scripts/analyze_keyword_with_ai.py:195-200 | The similarity analysis is pending, with the placeholder for the grid. |
| `AnalyzeKeyword.MatchCount` | amazon-keyword-filter/scripts/analyze_keyword_with_ai.py:374 | At most as many matches as products. |
| `AnalyzeKeyword.MaxSimilarity` | amazon-keyword-filter/scripts/analyze_keyword_with_ai.py:381 | The greatest similarity, reached by some product, or 0 with none. |
| `AnalyzeKeyword.Summarize` | amazon-keyword-filter/scripts/analyze_keyword_with_ai.py:372-394 | A pending analysis gives the pending summary. Otherwise the summary counts matches and takes the maximum, and it is qualified exactly at 2 or more matches. |
| `AnalyzeKeyword.MatchCountPrefix` | amazon-keyword-filter/scripts/analyze_keyword_with_ai.py:374 | A prefix never has more matches. |
| `AnalyzeKeyword.MatchWitness` | amazon-keyword-filter/scripts/analyze_keyword_with_ai.py:374 | A positive match count has a matching product as its last match. |
| `AnalyzeKeyword.Qualified` | amazon-keyword-filter/scripts/analyze_keyword_with_ai.py:382 | Qualified exactly when two different products reach the threshold. |
| `AnalyzeKeyword.TwoWitnesses` | amazon-keyword-filter/scripts/analyze_keyword_with_ai.py:382 | Two matches yield two matching products. |
| `AnalyzeKeyword.TwoMatchesCount` | amazon-keyword-filter/scripts/analyze_keyword_with_ai.py:382 | Two matching products give at least two matches. |
| `AnalyzeKeyword.OneMatchCounts` | amazon-keyword-filter/scripts/analyze_keyword_with_ai.py:374 | A matching product adds one to the count. |
| `AnalyzeKeyword.FolderName` | amazon-keyword-filter/scripts/analyze_keyword_with_ai.py:239-241 | With a timestamp free of slashes, the folder name is one plain path part. |
| `AnalyzeKeyword.KeywordDir` | amazon-keyword-filter/scripts/analyze_keyword_with_ai.py:235-247 | The keyword's folder is the output folder as `pathlib` normalises it, a slash and the folder name (just the anchor and the name when the output folder has no parts). |
| `AnalyzeKeyword.KeywordDirParts` | amazon-keyword-filter/scripts/analyze_keyword_with_ai.py:235-247 | Read back as a path, the keyword folder is the output folder's path with the folder name as its last part. |
| `AnalyzeKeyword.DotPrefixDropped` | amazon-keyword-filter/scripts/analyze_keyword_with_ai.py:211 | An output folder `./name` gives `name/<folder>`, so the default `./ai_analysis_results` records `ai_analysis_results/<keyword>_<timestamp>`. |
| `AnalyzeKeyword.MergedPath` | amazon-keyword-filter/scripts/analyze_keyword_with_ai.py:291 | The merged image is `merged_grid.jpg` directly inside the keyword folder. |
| `AnalyzeKeyword.MergeReturnsMergedPath` | amazon-keyword-filter/scripts/merge_images.py:194-201 | The path `merge_images_grid` hands back for this run is the merged path unchanged. |
| `Paths.ParseRender` | amazon-keyword-filter/scripts/analyze_keyword_with_ai.py:235-241 | Writing a path with `str` and reading it back with `Path` gives the same path. |
| `Paths.NormalizeIdempotent` | amazon-keyword-filter/scripts/merge_images.py:194-201 | `str(Path(...))` of an already normalised path changes nothing. |
| `Paths.CurrentDirPrefix` | amazon-keyword-filter/scripts/analyze_keyword_with_ai.py:211 | A leading `./` adds no part, and for a relative path the normalised string is the same. |
| `Paths.ChildName` | amazon-keyword-filter/scripts/analyze_keyword_with_ai.py:241 | `/` with a plain name appends it as the last part; its string is the path's string, a slash and the name. |
| `AnalyzeKeyword.WeightsError` | amazon-keyword-filter/scripts/analyze_keyword_with_ai.py:174-177 | The scoring-criteria lines of the grid prompt raise `AttributeError` on features, or on weights, that are not a dict. They raise `TypeError` at the first of color, style, features and shape whose weight is null or a dict. |
| `AnalyzeKeyword.FirstScaleErrorNone` | amazon-keyword-filter/scripts/analyze_keyword_with_ai.py:174-177 | The weights go through exactly when every present weight can be multiplied by 100. |
| `AnalyzeKeyword.FirstScaleErrorFirst` | amazon-keyword-filter/scripts/analyze_keyword_with_ai.py:174-177 | When they raise, it is with the message of the first weight in reading order that is present and cannot be multiplied. |
| `AnalyzeKeyword.WeightsErrorExactly` | amazon-keyword-filter/scripts/analyze_keyword_with_ai.py:174-177 | The prompt raises exactly on features that are not a dict whose weights, when given, are a dict of multipliable values. |
| `AnalyzeKeyword.NullColourRaises` | amazon-keyword-filter/scripts/analyze_keyword_with_ai.py:174 | A null colour weight raises "unsupported operand type(s) for *: 'NoneType' and 'int'", whatever the other weights are. |
| `AnalyzeKeyword.AnalyzeSteps` | amazon-keyword-filter/scripts/analyze_keyword_with_ai.py:325-357 | After the merge, the run raises exactly on supplied reference features that the grid prompt cannot be built on. Otherwise it records the reused or fresh reference analysis, the pending similarity step and the pending summary, and changes nothing else. |
| `AnalyzeKeyword.AnalyzeKeywordWithAi` | amazon-keyword-filter/scripts/analyze_keyword_with_ai.py:203-400 | No URLs stops with the no-images error. A failed merge stops with the merge error. Otherwise the call raises exactly when the caller supplied reference features that the grid prompt cannot be built on, with that exception's text. If it does not raise, the grid info at the merged path, the reused or fresh reference analysis and the pending similarity step are recorded. A decoded `null` counts as no reference. The recorded folder is the `pathlib` form of the keyword folder. |
| `AnalyzeKeyword.GridFitsUrls` | amazon-keyword-filter/scripts/analyze_keyword_with_ai.py:308 | The recorded row count is just enough for all URLs. |
| `ThresholdFilter.LoadKeywords` | demo_zhipu_filter.py:63-90 | Loading succeeds exactly when the file exists, the column is there once, and pandas reads it as text: it holds some text, or the sheet has no rows. A header-only sheet gives no keywords. A missing file, a missing or repeated column, and a column of numbers and blanks only (where `.str` raises) are each reported. |
| `ThresholdFilter.LoadedKeywordsClean` | demo_zhipu_filter.py:86-87 | Loaded keywords are non-empty and stripped, and each is the stripped text of a text cell. Every text cell that is not blank contributes its stripped text. |
| `ThresholdFilter.FetchBatchesSucceed` | demo_zhipu_filter.py:111-146 | The batches succeed exactly when every request succeeds, and then give the replies in order. |
| `ThresholdFilter.FetchBatchesFirstFailure` | demo_zhipu_filter.py:111-146 | A failed fetch stops at the first failing batch and reports its reason. |
| `ThresholdFilter.FetchOutcome` | demo_zhipu_filter.py:111-146 | The embedding succeeds exactly when every batch request succeeds. Otherwise it stops with the first failure's reason. |
| `ThresholdFilter.FetchNothing` | demo_zhipu_filter.py:111-146 | No texts means no requests and no vectors. |
| `ThresholdFilter.GetEmbedding` | demo_zhipu_filter.py:96-146 | The batch loop computes exactly `Fetch`. |
| `ThresholdFilter.Zip` | demo_zhipu_filter.py:214 | Pairs keyword `k` with similarity `k`, up to the shorter length. |
| `ThresholdFilter.Similarities` | demo_zhipu_filter.py:211 | One cosine per keyword vector. |
| `ThresholdFilter.Max` | demo_zhipu_filter.py:228 | The greatest similarity, reached by some keyword. |
| `ThresholdFilter.Min` | demo_zhipu_filter.py:229 | The least similarity, reached by some keyword. |
| `ThresholdFilter.ScoreMap` | demo_zhipu_filter.py:235 | The score map has exactly the ranked keywords as keys. |
| `ThresholdFilter.ScoreMapLast` | demo_zhipu_filter.py:235 | A repeated keyword maps to its last score. |
| `ThresholdFilter.FilterKeywords` | demo_zhipu_filter.py:187-238 | The filter computes exactly the filter specification. |
| `ThresholdFilter.PassingPrefix` | demo_zhipu_filter.py:218 | In a ranked list, the passing keywords form a prefix: everything before scores at least the threshold, everything after below it. |
| `ThresholdFilter.FilterReportCorrect` | demo_zhipu_filter.py:214-238 | The ranking is a stable descending permutation of the scored keywords. The kept keywords are exactly those at or above the threshold. Kept plus removed equals the total. |
| `ThresholdFilter.StatsBounds` | demo_zhipu_filter.py:221-231 | The minimum, mean and maximum are ordered and attained, and the pass and filter rates add up to 1. |
| `ThresholdFilter.MeanBounds` | demo_zhipu_filter.py:227 | The mean lies between the minimum and the maximum. |
| `ThresholdFilter.SumBounds` | demo_zhipu_filter.py:227 | The sum of bounded scores is bounded by count times the bounds. |
| `ThresholdFilter.RatesAddUp` | demo_zhipu_filter.py:225-226 | The filter rate is one minus the pass rate. |
| `ThresholdFilter.NoKeywordsStops` | demo_zhipu_filter.py:203-211 | With no keywords, no request is made. Once the description has a vector, the filter stops, because `cosine_similarity` raises on the empty keyword array. |
| `ThresholdFilter.AllScoresLastWins` | demo_zhipu_filter.py:235 | `all_scores` gives each keyword its last ranked score. |
| `ThresholdFilter.SheetNames` | demo_zhipu_filter.py:332 | The column names of a sheet, in order. |
| `ThresholdFilter.Sheet` | demo_zhipu_filter.py:332 | A frame read as a sheet keeps its columns and names. |
| `ThresholdFilter.SetColumn` | demo_zhipu_filter.py:332 | Setting a column replaces a column of that name in place or appends it. Every other column is unchanged. |
| `ThresholdFilter.SetBoth` | demo_zhipu_filter.py:332-340 | Setting two differently named columns leaves both present. |
| `ThresholdFilter.ScoreFor` | demo_zhipu_filter.py:332 | A cell's score is found exactly when it is text and a scored keyword. |
| `ThresholdFilter.CellScores` | demo_zhipu_filter.py:332 | One score lookup per row. |
| `ThresholdFilter.OutputName` | demo_zhipu_filter.py:315-317 | The default output name is the input stem plus the suffix. |
| `ThresholdFilter.OutputNameAt` | demo_zhipu_filter.py:315-317 | `stem.ext` becomes `stem<suffix>.ext`. |
| `DemoZhipuFilter.ProductDescription` | demo_zhipu_filter.py:149-184 | The description starts with the base description and a space. |
| `DemoZhipuFilter.DescriptionHasTerms` | demo_zhipu_filter.py:149-184 | Every search term appears in the description. |
| `DemoZhipuFilter.Bands` | demo_zhipu_filter.py:261-266 | Four score bands. |
| `DemoZhipuFilter.BandsPartition` | demo_zhipu_filter.py:261-266 | The four bands partition the ranked keywords. |
| `DemoZhipuFilter.BandCountsAddUp` | demo_zhipu_filter.py:268-272 | The printed band counts add up to the total. |
| `DemoZhipuFilter.DemoStatus` | demo_zhipu_filter.py:335-338 | A missing score is "no score". Otherwise the status is passed at or above the threshold and rejected below it. |
| `DemoZhipuFilter.DemoStatuses` | demo_zhipu_filter.py:340 | One status per row. |
| `DemoZhipuFilter.ArrangeColumns` | demo_zhipu_filter.py:346-352 | The column order is a rearrangement of the names. The score and status columns go to positions k+1 and k+2, where k is the keyword column's position taken before the two are removed. When both were newly appended, that is right after the keyword column and the other columns keep their order. |
| `DemoZhipuFilter.ArrangedMembers` | demo_zhipu_filter.py:346-352 | Removing and reinserting the two names keeps the names and puts them after the keyword column. |
| `DemoZhipuFilter.ArrangedLayout` | demo_zhipu_filter.py:346-352 | For two appended columns, the order is the keyword prefix, the two new names, then the rest. |
| `DemoZhipuFilter.RemovedPair` | demo_zhipu_filter.py:346-349 | Removing the two appended names gives the original names. |
| `DemoZhipuFilter.InsertedPair` | demo_zhipu_filter.py:350-351 | Inserting at `k+1` and `k+2` places the pair right after position `k`. |
| `DemoZhipuFilter.Select` | demo_zhipu_filter.py:353 | Selecting by name gives those columns in that order. |
| `DemoZhipuFilter.SaveToExcel` | demo_zhipu_filter.py:296-356 | A missing keyword column writes nothing, and a repeated one raises. Otherwise the workbook goes to the given or `_result` name, with the score (相似度得分) and status (状态) columns set, each the only column with its label. When the read sheet's labels are distinct and new, the two columns sit right after the keyword column. A repeated score label makes `get_status` raise. |
| `DemoZhipuFilter.PlaceResultColumns` | demo_zhipu_filter.py:332-353 | Setting and moving the two columns gives the described layout. |
| `DemoZhipuFilter.SetTwoColumns` | demo_zhipu_filter.py:332-353 | After both columns are set and selected, each name holds its new column. |
| `DemoZhipuFilter.SelectLabelled` | demo_zhipu_filter.py:353 | A uniquely named column survives selection. |
| `DemoZhipuFilter.NewColumnsCase` | demo_zhipu_filter.py:343-353 | On a sheet without score or status columns, the result is the columns up to the keyword, the two new columns, then the rest. |
| `DemoZhipuFilter.AppendedNames` | demo_zhipu_filter.py:346-352 | Reordering appended names equals inserting into the original names. |
| `DemoZhipuFilter.NewColumnsAppended` | demo_zhipu_filter.py:332-340 | New names are appended at the end. |
| `DemoZhipuFilter.NewColumnsLayout` | demo_zhipu_filter.py:343-353 | Selecting the reordered names gives the target layout. |
| `DemoZhipuFilter.LayoutSource` | demo_zhipu_filter.py:353 | Each output column comes from the matching input or new column. |
| `DemoZhipuFilter.RunDemo` | demo_zhipu_filter.py:366-424 | A load failure is reported. A filter failure is reported, including the one a header-only sheet reaches through its empty keyword list. Otherwise the report is the filter result, written to `圣帕发箍_result.xlsx`, unless the sheet repeats the score label and the write raises. |
| `DemoZhipuFilter.HeaderOnlySheetFails` | demo_zhipu_filter.py:63-90 | A sheet with the keyword column and no rows loads no keywords. Once the description has a vector, the filter then stops because `cosine_similarity` raises on the empty keyword array, so the demo ends in a filter failure, not a load failure. |
| `AutoFilterWithAi.CreateDescriptionInteractive` | amazon-keyword-filter/scripts/auto_filter_with_ai.py:91-127 | The description is the non-empty stripped answers' clauses, joined. |
| `AutoFilterWithAi.BlankAnswersGiveDot` | amazon-keyword-filter/scripts/auto_filter_with_ai.py:123 | All-blank answers give ".". |
| `AutoFilterWithAi.InteractiveParts` | amazon-keyword-filter/scripts/auto_filter_with_ai.py:96-121 | Each clause comes from exactly one non-empty answer. All answered gives all five clauses in order. |
| `AutoFilterWithAi.LoadDescriptionFromJson` | amazon-keyword-filter/scripts/auto_filter_with_ai.py:80-88 | No file gives none. An unreadable file raises. A JSON object gives its `description`, or "". |
| `AutoFilterWithAi.ChooseDescription` | amazon-keyword-filter/scripts/auto_filter_with_ai.py:348-371 | A non-empty argument wins. Then a truthy file value. Then the questions, when answered "y". |
| `AutoFilterWithAi.AutoStatus` | amazon-keyword-filter/scripts/auto_filter_with_ai.py:299-301 | Passed exactly when there is a score at or above the threshold. Otherwise rejected. |
| `AutoFilterWithAi.AutoStatuses` | amazon-keyword-filter/scripts/auto_filter_with_ai.py:299-301 | One status per row. |
| `AutoFilterWithAi.PresentRows` | amazon-keyword-filter/scripts/auto_filter_with_ai.py:304 | Rows with a score, in ascending order. |
| `AutoFilterWithAi.MissingRows` | amazon-keyword-filter/scripts/auto_filter_with_ai.py:304 | Rows without a score, in ascending order. |
| `AutoFilterWithAi.RowsSplit` | amazon-keyword-filter/scripts/auto_filter_with_ai.py:304 | The scored and unscored rows are a partition of all rows. |
| `AutoFilterWithAi.RowOrderPermutation` | amazon-keyword-filter/scripts/auto_filter_with_ai.py:304 | The sort order is a permutation of the rows. |
| `AutoFilterWithAi.RowOrderSorted` | amazon-keyword-filter/scripts/auto_filter_with_ai.py:304 | Scored rows come first, from high to low. Unscored rows come last, in their original order (pandas' `na_position='last'`). |
| `AutoFilterWithAi.SortedRowsScored` | amazon-keyword-filter/scripts/auto_filter_with_ai.py:304 | Sorting the scored rows keeps them scored. |
| `AutoFilterWithAi.SortedRowsDescending` | amazon-keyword-filter/scripts/auto_filter_with_ai.py:304 | Sorted scored rows have descending scores. |
| `AutoFilterWithAi.ScoredThenMissing` | amazon-keyword-filter/scripts/auto_filter_with_ai.py:304 | Concatenating them gives the stated order. |
| `AutoFilterWithAi.Pick` | amazon-keyword-filter/scripts/auto_filter_with_ai.py:304 | Reordering takes value `order[k]` to position `k`. |
| `AutoFilterWithAi.SortRows` | amazon-keyword-filter/scripts/auto_filter_with_ai.py:304 | Reordering rows keeps the columns and their names. |
| `AutoFilterWithAi.JsonNameOfWorkbook` | amazon-keyword-filter/scripts/auto_filter_with_ai.py:312 | `stem.xlsx` and `stem.xls` get the report `stem.json`. |
| `AutoFilterWithAi.SavedResultsCorrect` | amazon-keyword-filter/scripts/auto_filter_with_ai.py:281-316 | Saving writes the given or `_filtered` workbook and its JSON report. The rows are permuted by the sort order, and the score and status columns are reordered with them. |
| `AutoFilterWithAi.SavedRowsOrdered` | amazon-keyword-filter/scripts/auto_filter_with_ai.py:298-304 | In the saved sheet, scores descend with the blanks last. Each row is passed exactly when its own score reaches the threshold. |
| `AutoFilterWithAi.SortedColumnIn` | amazon-keyword-filter/scripts/auto_filter_with_ai.py:304 | Each column is reordered by the same row order. |
| `AutoFilterWithAi.SortedScores` | amazon-keyword-filter/scripts/auto_filter_with_ai.py:304 | The reordered score column descends, with the blanks last. |
| `AutoFilterWithAi.SortedStatuses` | amazon-keyword-filter/scripts/auto_filter_with_ai.py:299-304 | Statuses move with their scores. |
| `AutoFilterWithAi.RunAutoFilter` | amazon-keyword-filter/scripts/auto_filter_with_ai.py:322-401 | A load failure exits. A completed run used the given threshold and saved its results. |
| `GenerateDescription.ProductName` | amazon-keyword-filter/scripts/generate_product_description.py:113 | A blank name becomes the default. Otherwise the stripped name is used. |
| `GenerateDescription.ListField` | amazon-keyword-filter/scripts/generate_product_description.py:159-164 | An empty answer gives no items. Otherwise each comma-separated piece, stripped. |
| `GenerateDescription.GenerateProductDescriptionManual` | amazon-keyword-filter/scripts/generate_product_description.py:98-168 | The record is built from the stripped answers. |
| `GenerateDescription.ManualParts` | amazon-keyword-filter/scripts/generate_product_description.py:131-152 | The first clause names the product. Every other clause comes from exactly one non-empty answer. |
| `GenerateDescription.AllAnswered` | amazon-keyword-filter/scripts/generate_product_description.py:131-154 | With all answers given, there are eight clauses in order. |
| `GenerateDescription.NoneAnswered` | amazon-keyword-filter/scripts/generate_product_description.py:131 | With nothing answered, only the name clause remains. |
| `GenerateDescription.JoinHasParts` | amazon-keyword-filter/scripts/generate_product_description.py:154 | Every clause appears in the joined text. |
| `GenerateDescription.JoinStarts` | amazon-keyword-filter/scripts/generate_product_description.py:154 | The joined text starts with the first clause. |
| `GenerateDescription.ManualInfoShape` | amazon-keyword-filter/scripts/generate_product_description.py:154-168 | The description starts with "This is a <name>", ends with ".", and contains every clause. |
| `GenerateDescription.ListFieldJoin` | amazon-keyword-filter/scripts/generate_product_description.py:159-164 | Clean items joined with commas and parsed again give back the items. |
| `GenerateDescription.ListFieldOfSplit` | amazon-keyword-filter/scripts/generate_product_description.py:159-164 | Already-stripped pieces parse to themselves. |
| `GenerateDescription.ListFieldSingle` | amazon-keyword-filter/scripts/generate_product_description.py:159-164 | An answer without commas gives one item. |
| `GenerateDescription.RunGenerator` | amazon-keyword-filter/scripts/generate_product_description.py:184-224 | A missing argument or image exits 1. `--manual` or a "y" answer writes the record. Anything else exits 0. |
| `Server.FirstPresent` | amazon-keyword-filter/server.py:53-58 | The first candidate the sheet has, and none exactly when no candidate is there. |
| `Server.FirstPresentAt` | amazon-keyword-filter/server.py:53-58 | The first candidate present is the one chosen. |
| `Server.KeywordColumnOf` | amazon-keyword-filter/server.py:53-65 | The chosen column is a column of the sheet. There is none exactly when the sheet is empty and has no known header. |
| `Server.KeywordColumnPriority` | amazon-keyword-filter/server.py:53-58 | The earliest known header present wins. |
| `Server.KeywordColumnFallback` | amazon-keyword-filter/server.py:60-63 | Without a known header, the first column is used. |
| `Server.FindKeywordColumn` | amazon-keyword-filter/server.py:53-58 | The search loop finds exactly the first candidate present. |
| `Frames.DropMissingPositions` | amazon-keyword-filter/server.py:70 | `dropna()` removes exactly the missing cells and keeps the others in order, each shifted left by the missing cells before it. |
| `Server.ColumnKeywords` | amazon-keyword-filter/server.py:70 | The keywords are the column's non-missing cells as text, one per cell, in sheet order: the cell at row i is at i minus the number of missing cells above it. |
| `Server.UploadExcel` | amazon-keyword-filter/server.py:46-74 | An unreadable file gives 400 with its error. A sheet with no usable column gives 400 with the detail "400: Empty Excel" (the 400 raised inside the `try` is caught and re-raised with its text). Otherwise the sheet and column are stored and the keywords returned with their count. |

## Left out

- Threads, locks, `as_completed` and the verification worker pool. Pools become sequential loops, and the completion order of downloads is a permutation parameter.
- Browser control: `init_driver`, page waits, scrolling, `hide_clutter`, taking screenshots, `open_browser`, and the two-attempt browser navigation thread (`_navigate_browser`). These only drive Chrome. Each page's elements are given as values.
- Network access: `requests`, the `urllib3` retry sessions of `create_session`, and the Zhipu client. Each reply is a parameter.
- Floating point, NumPy's cosine similarity, `np.mean` and rounding. Scores are exact reals, and the cosine is a parameter.
- PIL image decoding, resizing and border drawing. The grid model places cells; it does not draw pixels.
- File, JSON and Excel reading and writing. Files are modelled as "exists" flags, parsed values and result records.
- `main` functions with `argparse`, `run.py`, `setup_env.py`, and `check_environment`. The `argv` handling of `search_amazon.py` and `generate_product_description.py` is modelled.
- FastAPI routing and CORS, apart from `upload_excel`. The other endpoints only call the engine methods that are modelled.
- `print_results` output beyond the band counts, and console logging throughout.
- `analyze_product_with_mcp` and `analyze_product_image_with_mcp`: placeholders that return `None`.
- Functions of `batch_analyze_with_ai.py` other than the progress tracker, the folder name, the filter stage and the single-keyword search. The others orchestrate scripts already modelled.
- `ProgressTracker.save` and `get_summary`: the JSON dump, and a copy of the whole record.
- `Strings.Strip`, `Strings.Lower` and `Strings.Upper` treat only ASCII characters as whitespace and letters.
- Repeated column labels cannot come from a sheet read with `pd.read_excel`, which renames a repeated header `X` to `X.1`, `X.2` and so on. The repeated-label outcomes model what pandas does on a frame that has such labels. These are `ColumnRepeated` in `ThresholdFilter.LoadKeywords`, `DemoZhipuFilter.SaveToExcel` and `AutoFilterWithAi.SaveResults`, and the first-column choice of `Server.ColumnKeywords` and `DemoZhipuFilter.Select`. A read sheet never reaches them.
- `Server.ColumnKeywords`: for a repeated column label, the model takes the first such column; pandas would return a frame.
- `AutoFilterWithAi.RunAutoFilter`: a truthy description file value that is not a string is modelled as exit 1; Python would pass it on and fail later.
- `ThresholdFilter.GetEmbedding`: the demo and auto scripts raise on any failed batch and do not skip blank texts, unlike the web scoring. The model follows each script. Their final `np.array` is not checked for vectors of unequal lengths, unlike `ZhipuScoring.EmbeddingArray`. Such vectors are taken as given, and the similarity step's failure flag stands for the error that `cosine_similarity` would raise on them.
- `AutoFilterWithAi.RunAutoFilter`: states only that a completed run used the given threshold and saved its results, not the full report.
- `AutoFilterWithAi.SavedResultsCorrect`: rows with equal scores keep their sheet order, as `AutoFilterWithAi.RowOrder` states. pandas' `sort_values` uses an unstable quicksort by default, so for larger sheets the source may order such rows differently.
- `ThresholdFilter.LoadKeywords`: in a column mixing text and numbers, `.str.strip()` turns each number into NaN, and `if kw` keeps it. The model leaves number cells out of the keywords, because a keyword here is a string. The consequence is a real difference. The NaN keywords reach `requests.post(json=...)`, which serialises with `allow_nan=False` and raises. So on such a column the source's demo and automatic filters always fail, and the model's succeed on the text keywords.
- `DemoZhipuFilter.SaveToExcel` and `AutoFilterWithAi.SaveResults`: a repeated score label is reported as a failure. On a sheet with no rows, pandas raises only when the status label count differs from the score label count.
- `Strings.ParseInt` reads only an optional sign and ASCII digits. Python's `int()` also accepts underscores between digits (`"1_0"`) and non-ASCII decimal digits. `Strings.IsDigits` likewise covers only ASCII digits, while `isdigit()` also accepts characters such as `²`, on which `int()` raises.
- `MergeImages.MergeImagesGrid` and `AnalyzeKeyword.AnalyzeKeywordWithAi` require at least one grid column. With 0 columns the source returns early when there is nothing to place, and otherwise stops with `ZeroDivisionError`.
- `DemoZhipuFilter.Select` takes the first column for each label. pandas' `df[cols]` returns every column with a repeated label.
- `BatchAnalyze.Load`: a checkpoint that decodes is assumed to hold every key of the progress record, with lists of names. The source uses any decoded JSON as it is. For a file such as `{}`, `add_completed` then raises `KeyError` on `completed_folders`, while `get_completed_folders` and `get_mcp_pending` fall back to empty lists through `.get`. The model has no such partial record.
- `SearchAmazon.SearchOnce`: an exception in `hide_clutter_elements` or `save_screenshot` runs inside the same `try` as the search and would empty the result. The browser steps are not modelled, so the model has no such failure.

## Findings

| source | as written | input that shows it | evidently intended | confidence | as-written member | corrected member |
|---|---|---|---|---|---|---|
| amazon-keyword-filter/scripts/workflow_engine.py:88 | `score_keywords(keywords, product_description, progress_callback=progress_cb)`, but `score_keywords` (zhipu_scoring.py:73) takes no such argument. The TypeError is caught at lines 133-134, so every analysis ends in "Error during scoring" with nothing queued. | upload the keyword "hair stick" and analyse it with the description "a wooden hair stick" | score the keywords and split every one of them into the manual, auto and excluded queues | high; not executed | `WorkflowEngine.ScoringAsWrittenLosesKeywords` | `WorkflowEngine.Engine.RunScoring` |
