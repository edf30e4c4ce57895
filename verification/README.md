# Yomekuro in Dafny

This project models the parts of Yomekuro, a self-hosted e-book library with a manga OCR converter, that
keep state or compute something hard, and proves what they keep.

- `PdfExport` writes a PDF of images by hand. `PdfReader`, `PdfSyntax` and `PdfContent` are an independent
  reader for such files after ISO 32000-1:2008 (sections 7.3.8, 7.5.4, 7.5.5, 7.7.3 and 7.8.2), and
  `PdfRoundTrip` shows when it recovers the pages.
- `ZipCache` is the reference-counted cache of open archives, as objects; `ZipCacheSpec` is the same as a
  machine on values, on which safety and true LRU order (`ZipCacheLru`) are proved of every sequence of calls.
- `JobQueue` is the queue of conversion jobs shared by server and worker; `JobQueueSpec` is its state
  machine of rows, goroutines and removals of files, `JobQueueProofs` says what every run keeps,
  `JobQueueExclusion` exactly when books and input folders are converted one at a time, `JobQueueRequests`
  when a crash serves a request as the live worker would have, and `JobQueueDrain` why the queue runs dry.
- `ProgressWriter` splits and throttles the converter's output, independently of how it was cut into writes.
- `TextWrap` wraps a title greedily, with the fewest possible lines.
- `Scanner` indexes a library incrementally; `ScannerSpec` is its effect on values and `ScannerProofs`
  compares it with an index from scratch and keeps rows and cover files in step.
- `OcrLines`, `Medians`, `OcrBlocks` and `OcrPage` fit font sizes to OCR lines and drop duplicate lines.
- `MokuroBuild` builds a book from every finished OCR file while more are being written; `MokuroSpec` is
  its machine on values, with writes between any two looks at a file.
- `Collapse` strips wrapping directories from an unpacked archive, and `SortTitle` makes titles sort by
  their numbers. `Decimal`, `FileNames` and `Wrappers` hold what several of them need.

What the source changes in place is a class or a loop here, tied by its postconditions to a function on
values; the theorems are about those functions and so about every sequence of calls.

Where code and comments disagree the model follows the code. `cleanupFailedJob` says that the output
folder is empty when it is called, which an added volume breaks; no lemma relies on it. A comment calls the
claim of a job one-at-a-time for a book, to which the folder scan is an exception
(`JobQueueDrain.ScanMayDoubleABook`, and `JobQueueExclusion.ScanMayDoubleAFolder` for one folder). A job
cancelled to stop and then paused is stopped by a live worker but paused after a crash
(`JobQueueRequests.PauseMayComeTooLate`). A block of OCR lines can lose its only writable line as a
duplicate (`OcrPage.DroppingMayEmptyABlock`). A build overtaken by a write is repeated from the same
contents (`MokuroSpec.OvertakenBuildsRepeat`). The collapse of a wrapper with an entry of its own name
fails half way. Padding sort titles to six digits stops working at a million.

## Model

| member | source | states |
|---|---|---|
| `PdfRoundTrip.RoundTrip` | internal/api/pdf_export.go:37-94 | For every list of pages, a reader that follows startxref, the 20-byte table entries, Root, Pages, Kids, each /Length and the drawing commands of a page recovers exactly the pages in order, each with its box, the placement (width, 0, 0, height, 0, 0) of the image it draws by name, and that image as 8-bit RGB JPEG data of its size, if and only if every page has data and the last object starts below 10^10; otherwise it recovers nothing. The data may hold any bytes |
| `PdfRoundTrip.ImageFillsBox` | internal/api/pdf_export.go:71-76 | The image of an exported page covers exactly its MediaBox: no point of it lies outside and every point of the box shows one |
| `PdfRoundTrip.ContentDraws` | internal/api/pdf_export.go:71-72 | The content stream reads back, token by token, as the image Im0 drawn by that placement |
| `PdfContent.TokensReadBack` | internal/api/pdf_export.go:71-72 | Numbers, names and operators written with single spaces read back as they were |
| `PdfRoundTrip.ObjectReadsBack` | internal/api/pdf_export.go:48-56 | An object found at an offset reads back as its header and its stream, which /Length alone cuts out, even from data containing endstream or endobj |
| `PdfRoundTrip.PageReadsBack` | internal/api/pdf_export.go:65-84 | Resolving a page and the content and image it refers to gives the page written, or nothing when its data was nil |
| `PdfRoundTrip.TreeReadsBack` | internal/api/pdf_export.go:58-84 | From the trailer, Root, Pages and Kids lead to all pages in order, or to nothing when one has no data |
| `PdfRoundTrip.EntriesReadBack` | internal/api/pdf_export.go:87-91 | A table of ten-digit entries reads back if and only if every offset is below 10^10 |
| `PdfRoundTrip.XrefReadsBack` | internal/api/pdf_export.go:86-91 | The whole table, with the free entry of object 0 and its count, reads back to the recorded offsets under the same condition |
| `PdfRoundTrip.NarrowWhenLastIs` | internal/api/pdf_export.go:44-49 | Offsets never exceed that of the object written last, so the condition on the table is a condition on one offset |
| `PdfRoundTrip.PageObjectsAt` | internal/api/pdf_export.go:65-84 | The three objects of a page stand in the file exactly at the offsets recorded under their own numbers |
| `PdfRoundTrip.StartXrefReadsBack` | internal/api/pdf_export.go:92-92 | From the end of the file, startxref leads to the position written there |
| `PdfSyntax.ValReadsBack` | internal/api/pdf_export.go:62-82 | Every object value (numbers, references, names, arrays, dictionaries) parses back from its text, unless what follows could be read as part of it |
| `Decimal.PaddedLength` | internal/api/pdf_export.go:89-91 | A zero-padded number has exactly w characters if and only if it is below 10^w |
| `PdfExport.PdfWriter.WriteObj` | internal/api/pdf_export.go:48-56 | Appends one object and records the old length of the buffer at its number, and changes no other offset |
| `PdfExport.BuildImagesPDF` | internal/api/pdf_export.go:37-94 | Returns the file the round trip is about, through a growing buffer and an offsets array filled out of numeric order |
| `PdfExport.WritePage` | internal/api/pdf_export.go:65-84 | Writes content, page and image and fills the three offsets in numeric order |
| `PdfExport.WriteXref` | internal/api/pdf_export.go:86-91 | Prints the table from the array |
| `ZipCacheSpec.RunIsSafe` | internal/api/content.go:64-146 | After every sequence of get and Release: the reader of a held handle is open, a reader is closed at most once and exactly when its entry has left the cache and no handle is outstanding, refs counts the outstanding handles, and list and map hold the same distinct paths, at most max(cap, 1) |
| `ZipCacheSpec.NewInv` | internal/api/content.go:100-106 | A new cache of any capacity is in the invariant |
| `ZipCacheSpec.GetInv` | internal/api/content.go:110-146 | get keeps the invariant through hits, stale hashes, failed opens and evictions |
| `ZipCacheSpec.ReleaseInv` | internal/api/content.go:81-88 | Releasing a held handle keeps the invariant |
| `ZipCacheSpec.GetReturnsRequested` | internal/api/content.go:110-146 | get fails exactly on a miss that cannot be opened; otherwise it hands out a new handle to an open entry of the requested path and hash |
| `ZipCacheSpec.GetReusesCached` | internal/api/content.go:114-145 | A cached entry of the path and hash is the one handed out, without opening the file; without one a new entry is, if the file opens, and none otherwise |
| `ZipCacheLru.CacheIsLru` | internal/api/content.go:110-146 | After every run of successful gets with interleaved releases the cache lists the max(cap, 1) paths used last, latest first |
| `ZipCacheLru.RunIsOrdered` | internal/api/content.go:110-146 | After every run, failed gets included, the cache lists distinct paths by their last successful get, latest first |
| `ZipCacheLru.EvictionIsLeastRecent` | internal/api/content.go:132-140 | In every run a get pushes out another path only when the cache is full and the path asked for is new, and then the last of the list, used before everything that stays |
| `ZipCacheLru.RecentIsByLastUse` | internal/api/content.go:110-146 | The reference order used there: the distinct paths of a history, each once, sorted by last use |
| `ZipCacheLru.GetPaths` | internal/api/content.go:114-145 | A successful get moves its path to the front and keeps as many others, in order, as there is room for |
| `ZipCacheLru.FailedGetForgets` | internal/api/content.go:121-130 | A get that cannot reopen a changed file forgets that path and nothing else |
| `ZipCache.CacheEntry.CloseOrMarkEvicted` | internal/api/content.go:92-98 | Closes the reader when nobody reads, else marks the entry |
| `ZipCache.ZipHandle.Release` | internal/api/content.go:81-88 | Keeps the whole heap of entries, readers and handles in the invariant and makes the abstract release |
| `ZipCache.ZipCache.constructor` | internal/api/content.go:100-106 | An empty cache in the invariant |
| `ZipCache.ZipCache.Get` | internal/api/content.go:110-146 | Keeps the invariant, makes the abstract get, returns null on its failure and otherwise a new handle to an open entry with the requested path and hash |
| `ZipCache.ZipCache.DropStale` | internal/api/content.go:121-124 | Takes a changed file out of map and list |
| `ZipCache.ZipCache.EvictBack` | internal/api/content.go:132-140 | Takes the entry used longest ago out when the cache is full |
| `JobQueueProofs.RunInv` | converter/watch.go:44-159 | Every reachable state: goroutines drive exactly the running rows, queued rows carry no pause request and no volume, ended rows no stop request, two running rows of one book include one the folder scan started, and every removal of files was justified |
| `JobQueueProofs.StepInv` | converter/watch.go:44-159 | Each of the thirteen kinds of step keeps that invariant |
| `JobQueueExclusion.RunBooksExclusive` | converter/db.go:73-100 | Over a whole run, bulk reconverts and the folder scan included: no state has two running rows of one book if and only if the folder scan never started a book that was being converted |
| `JobQueueExclusion.StepBooksExclusive` | converter/db.go:73-100 | One step keeps books exclusive if and only if it is no folder scan that starts a book already running; a claim never breaks it |
| `JobQueueProofs.RunBookExclusive` | converter/db.go:73-100 | Who breaks it: of two rows of one book running at once, in any reachable state, one was started by the folder scan and one is manual |
| `JobQueueExclusion.RunPathExclusive` | converter/db.go:73-100 | Over a whole run, the folder scan included: no state has two running rows on one input folder if and only if every claim was of a row whose folder was not being converted |
| `JobQueueExclusion.StepPathExclusive` | converter/db.go:155-185 | One step keeps folders exclusive if and only if it claims no row whose folder is being converted; the guarded folder scan never breaks it |
| `JobQueueExclusion.KeptFoldersAreExclusive` | converter/db.go:73-100 | It is enough that nobody queues a job into a folder that an active row of another book uses |
| `JobQueueExclusion.ScanMayDoubleAFolder` | internal/api/converter.go:289-293 | A run that breaks it: the folder scan starts the staging folder of an added volume as a book of its own before the upload inserts its row, which is then claimed |
| `JobQueueExclusion.RunPathsAgree` | converter/db.go:155-185 | That guard at the enqueue is exact: the active rows of every folder belong to one book in all states of a run if and only if no job was ever queued against it |
| `JobQueueExclusion.StepPathsAgree` | converter/db.go:155-185 | One step keeps folders to one book if and only if it queues nothing into the folder of another book, which the folder scan never does |
| `JobQueueProofs.RequestsSurvive` | converter/db.go:102-148 | Between any two moments of any run: an ended row stays as it is, a deleted row never returns, identity columns never change, and a stop request is still set or the row has ended |
| `JobQueueRequests.ReclaimServesLikePoller` | converter/db.go:13-48 | In every reachable state a flagged row reclaimed after a crash gets the status and flags of the next poll and the end of the conversion, pause before stop and apart from the volume shown, if and only if the conversion was not cancelled to stop before it was asked to pause; the live worker removes files exactly when it stops with nothing converted and may clean up, reclaiming never does |
| `JobQueueRequests.RunCancelledAsAsked` | converter/watch.go:94-120 | In every run the row of a cancelled conversion still carries the request it was cancelled for |
| `JobQueueRequests.PauseMayComeTooLate` | converter/watch.go:92-143 | A run that reaches the exception: stopped and then paused, an upload is stopped and its files removed by the live worker, but paused and kept after a crash |
| `JobQueueProofs.WipeIsCharged` | converter/watch.go:127-170 | A step removes files for at most one row, which is neither force_ocr nor manual: one that ends stopped or failed with no volume converted, or one that is deleted |
| `JobQueueProofs.FinishOutcome` | converter/watch.go:127-159 | A conversion ends paused or stopped exactly if it was cancelled so, done exactly if it was not, err is nil, fail is 0 and ok positive, and failed otherwise with the text of err, of partial or of no success; files go exactly if it ends stopped or failed with nothing converted and may clean up; nothing else changes |
| `JobQueueDrain.QueueRunsDry` | converter/watch.go:44-56 | A sequence of claims and finished conversions is no longer than 2*pending + running; one that cannot go on has exactly that length and leaves no row pending or running, and without pauses every row ended |
| `JobQueueDrain.ClaimTakesOldestOfBook` | converter/db.go:73-100 | A claimed row is an oldest pending row of its book, and no row of the book was running |
| `JobQueueDrain.DrainStep` | converter/db.go:73-100 | Claims accumulate to one oldest row of every book that had none running |
| `JobQueueDrain.WorkRemains` | converter/watch.go:44-56 | While a row is pending or running the worker can claim or finish one |
| `JobQueueDrain.ScanMayDoubleABook` | converter/watch.go:195-260 | A concrete run in which the folder scan starts a book of which an added volume is already converting, so the exclusion by book does need its exception |
| `JobQueue.Queue.CreateConversionJob` | internal/api/converter.go:272-284 | Keeps the invariant; a queued row is the only change and takes its folder from the folder scan; for a new book it is the one active row of its name and can be claimed at once; a taken name changes nothing |
| `JobQueue.Queue.CreateReconvertJob` | internal/api/converter.go:880-897 | Keeps the invariant; a queued row is the only change, is alone in its book, can be claimed at once and is never cleaned up after; a taken name changes nothing |
| `JobQueue.Queue.CreateReconvertJobsBulk` | internal/db/converter_jobs.go:62-87 | Keeps the invariant; one pending force_ocr row per volume, in order, with one creation time, and no other row changes |
| `JobQueue.Queue.PauseQueue` | internal/db/converter_jobs.go:141-154 | Keeps the invariant; the two updates make one, after which nothing is queued, every running row was asked to pause or is in the middle of a volume and unchanged, and no row lost a request or its identity |
| `JobQueue.Queue.ResumeQueue` | internal/db/converter_jobs.go:158-166 | Keeps the invariant; nothing is left paused, what was is queued with its identity and stop request, and every other row is unchanged |
| `JobQueueProofs.ResumeUndoesPause` | internal/db/converter_jobs.go:141-166 | Resuming after a pause gives queued and ended rows back as they were, and running rows up to the request to pause |
| `JobQueue.Queue.DeleteConversionJob` | internal/api/converter.go:943-977 | Keeps the invariant; a running row stays and is told to stop, any other is gone, no other row changes, and files go exactly for a queued, failed or stopped upload with an input folder |
| `JobQueue.Queue.ReclaimOrphanedJobs` | converter/db.go:13-48 | The three updates in turn do to every row what one case distinction says |
| `JobQueue.Queue.ClaimNextJob` | converter/db.go:73-100 | Of the pending rows of which no row of the book runs it marks an oldest as running and changes nothing else, or there is none |
| `JobQueue.Queue.UpdateJobVolume` | converter/db.go:118-122 | Keeps the invariant, sets the volume of one row and nothing else; while one is named, pausing the queue leaves the conversion alone |
| `JobQueue.Queue.StartWatch` | converter/watch.go:19-40 | Keeps the invariant; no row is left running, those that were are queued again, or paused or stopped if flagged, and every other row is unchanged |
| `JobQueue.Queue.DrainQueue` | converter/watch.go:44-56 | Ends; leaves every pending row blocked by a running row of its book, exactly one oldest row claimed for each book that had none running, each with the right permission to clean up |
| `JobQueue.Queue.PollSignals` | converter/watch.go:94-120 | Keeps the invariant; a conversion with a request ends paused or stopped after it, whatever Convert returns, and one without a request goes on |
| `JobQueue.Queue.FinishConversion` | converter/watch.go:127-159 | Keeps the invariant; its row ends as FinishOutcome says, files go exactly under the condition there and only for a disposable row, and no other row, goroutine or folder changes |
| `JobQueue.Queue.ScanManualFolder` | converter/watch.go:195-260 | Starts a folder exactly if no queued, running or paused row has it, it needs conversion, is not in progress and its row can be made, as a running manual row without permission to clean up; else nothing changes |
| `ProgressWriter.ChunkingIsInvisible` | converter/mokuro.go:69-101 | However a stream is cut into writes, the bytes sent, the volumes reported, the bytes held back and the redraw count are those of one write of the whole stream |
| `ProgressWriter.StreamComesTo` | converter/mokuro.go:69-101 | From the start of a stream, in any chunks: sent on are, in order, the newline lines and the redraws whose number is a multiple of every; reported is what the line pattern finds in the newline lines; held back is what follows the last separator |
| `ProgressWriter.FeedConcat` | converter/mokuro.go:69-101 | Two writes do what one write of both does |
| `ProgressWriter.SplitIsACut` | converter/mokuro.go:71-78 | Lines and remainder put together are the stream, and separators stand only where it was cut |
| `ProgressWriter.SplitConcat` | converter/mokuro.go:71-78 | Splitting a concatenation is splitting the first part and then its remainder with the second |
| `ProgressWriter.OneInEvery` | converter/mokuro.go:91-99 | Of the redraws exactly floor((k + n) / every) - floor(k / every) are sent on, and all of them when every <= 1 |
| `ProgressWriter.LinesSent` | converter/mokuro.go:80-99 | From the start of a stream the lines sent are all newline lines and floor(crCount / every) redraws |
| `ProgressWriter.ThrottleWriter.Write` | converter/mokuro.go:69-101 | The loop does what the one-shot splitter says, from the start of a stream in the terms of StreamComesTo; after an error of the destination it reports 0 bytes and what was sent is a beginning of what would have been |
| `ProgressWriter.ThrottleWriter.Emit` | converter/mokuro.go:103-109 | Sends the line and a newline, or a beginning of that |
| `TextWrap.WrapText` | internal/thumbnail/thumbnail.go:102-138 | Returns the first maxLines greedy lines; what it returns for maxLines < 1 is stated too |
| `TextWrap.WrappedLines` | internal/thumbnail/thumbnail.go:102-138 | At most maxLines lines, each fitting or a single rune, holding a beginning of the text without newlines, and all of it unless lines were cut off |
| `TextWrap.WidthAdds` | internal/thumbnail/thumbnail.go:103-124 | A text is as wide as its runes together, one without a glyph being ten units wide |
| `TextWrap.LinesFit` | internal/thumbnail/thumbnail.go:116-132 | Every greedy line fits the width unless it is a single rune |
| `TextWrap.LinesHoldText` | internal/thumbnail/thumbnail.go:102-138 | The greedy lines hold the whole text, newlines aside |
| `TextWrap.GreedyIsALayout` | internal/thumbnail/thumbnail.go:102-138 | For a text whose runes all fit, newlines included, greedy wrapping splits it into fitting lines broken at every newline |
| `TextWrap.GreedyIsMinimal` | internal/thumbnail/thumbnail.go:102-138 | No other split of it into fitting lines, broken at every newline, has fewer lines |
| `ScannerProofs.ScanAgrees` | internal/scanner/scanner.go:34-96 | If the mtime/size and hash shortcuts can be trusted for the files found, then after a scan every found file that parses has the row and cover an index from scratch would give it: an .epub as the EPUB parser reads it, an .html or .htm as the HTML parser does with the stem as series and a .png card, with name, size, hash, microsecond time and the cover bytes under the extension of their type |
| `ScannerProofs.RunAgrees` | internal/scanner/scanner.go:34-96 | The same after the last scan of any trusted run from an empty index, over changing disks |
| `ScannerProofs.CurrentIffShortcutHonest` | internal/scanner/scanner.go:119-139 | Without any trust: after processing, a file that parses is up to date if and only if no shortcut was taken or the row kept was made from the content now on disk |
| `ScannerProofs.RowsAreFiles` | internal/scanner/scanner.go:34-96 | After a successful scan the rows of the library are exactly the found files that parse or already had a row, and rows of other libraries are untouched |
| `ScannerProofs.SecondScanIsQuiet` | internal/scanner/scanner.go:100-236 | Scanning again with every file looking as it did changes no row and no cover file, trusted shortcuts or not |
| `ScannerProofs.RefusalKeepsAll` | internal/scanner/scanner.go:67-70 | A scan is refused exactly when it found nothing although the library has books, and then nothing changes |
| `ScannerProofs.CoversConserved` | internal/scanner/scanner.go:79-87 | After any sequence of scans of any libraries, whatever changed on disk between scans or between the files of a scan, the cover files are exactly those the rows name, and each row has its own id |
| `ScannerProofs.ChangingDisk` | internal/scanner/scanner.go:39-56 | As a walk comes to each path once, a scan of a changing disk is the scan of the files as they looked when it came to them, so the results on one disk hold of it |
| `ScannerProofs.CoversUnshared` | internal/scanner/scanner.go:238-249 | No two rows name the same cover file |
| `ScannerProofs.ProcessCovers` | internal/scanner/scanner.go:220-236 | Processing a file keeps cover files and rows in step, through re-parse, media-type change and cover loss |
| `ScannerProofs.PurgeCovers` | internal/db/books.go:282-302 | Deleting rows removes exactly their covers |
| `ScannerProofs.ProcessFresh` | internal/scanner/scanner.go:100-236 | Where shortcuts are trusted, processing leaves the row of an index from scratch, or changes nothing if the file does not parse |
| `ScannerProofs.ProcessOthers` | internal/scanner/scanner.go:100-236 | Processing a file touches no other row and no other cover, and adds a row exactly if the file parses |
| `ScannerProofs.FoundIsTheWalk` | internal/scanner/scanner.go:39-56 | The files found are the paths of exactly the callbacks that hand over a supported file, in walk order |
| `FileNames.ExtIsSuffix` | internal/scanner/scanner.go:251-258 | A file has a given extension exactly when its path ends in it, whatever the case of the letters |
| `FileNames.StemAndExt` | internal/scanner/scanner.go:166-166 | Stem and extension make up the base name, and the extension is its last dot and what follows |
| `FileNames.BaseIsLast` | internal/scanner/scanner.go:158-158 | The base name is what follows the last slash |
| `FileNames.LowerMeans` | internal/scanner/scanner.go:255-258 | Lower case moves A to Z by 32 and nothing else |
| `Scanner.Scanner.ScanLibrary` | internal/scanner/scanner.go:34-96 | Ties the walk loop to the scan of a changing disk on values; an unreadable root ends it with an error and deletes nothing |
| `Scanner.Scanner.ProcessFile` | internal/scanner/scanner.go:100-236 | A file with the size and microsecond time of its row is skipped; one with its hash only gets the new size and time; any other goes to the parser for its extension and is then in the index as that reads it, under its old id and library if it had a row; a failure changes no row and no cover |
| `ScannerProofs.ReindexCovers` | internal/scanner/scanner.go:220-249 | Saving a parsed file's cover and row and removing the cover it supersedes keeps cover files and rows in step |
| `Scanner.Scanner.DeleteBooksNotIn` | internal/db/books.go:282-302 | Deletes the library's rows of other paths with the covers they named, and alters no row |
| `OcrLines.SpanIsPositive` | converter/epub.go:366-391 | For every non-empty text, in a column or a row, advance plus slack is at least 0.06, and a lone opening bracket in a column meets that bound |
| `OcrLines.FittedSize` | converter/epub.go:402-426 | A size exists exactly for a quad of four points with an axis and a visible text, and then 0 < size <= axis / 0.06 and text and slack span the axis |
| `OcrLines.UprightSize` | converter/epub.go:412-422 | In an upright quad, under any measure right for straight segments, a row of text and its slack span the width and a column the height |
| `OcrLines.AxisOfQuad` | converter/epub.go:412-419 | In any quad the axis runs between the midpoints of the edges the text starts and ends at |
| `OcrLines.MirrorKeepsAxis` | converter/epub.go:412-419 | Mirroring a quad turns rows into columns and keeps the axis, for a symmetric measure |
| `OcrLines.SlackTable` | converter/epub.go:366-391 | The slack by orientation, opening bracket and closing bracket or mark |
| `OcrLines.AdvanceCounts` | converter/epub.go:315-325 | A text is 0.55 wide for each narrow character and 1 for any other |
| `OcrLines.WhiteSpace` | converter/epub.go:406-406 | What trimming takes for white space |
| `OcrLines.AdvanceEm` | converter/epub.go:315-325 | The loop computes the sum of the advances, at least 0.55 for each rune |
| `OcrLines.HeadsAndTails` | converter/epub.go:371-372 | No character is both an opening and a closing one, and all of them are full-width |
| `OcrLines.TrimDropsSpaces` | converter/epub.go:406-406 | Trimming drops white space at both ends and nothing else |
| `OcrBlocks.NeverEmptied` | converter/epub.go:457-522 | In every aligned block some line is not a duplicate |
| `OcrBlocks.HalfIsKept` | converter/epub.go:457-522 | At least half of the lines that serve as size references are kept, and one if there is any |
| `OcrBlocks.DuplicateIsSmall` | converter/epub.go:484-490 | A duplicate is smaller than at least half of the other reference lines |
| `OcrBlocks.DuplicateMeans` | converter/epub.go:457-490 | A line is a duplicate exactly if its block has three lines, its quad covers 0.8 of the box and its size is below 0.6 of its siblings' median |
| `OcrBlocks.SiblingsAreMeasured` | converter/epub.go:501-515 | The siblings are, in order, exactly the other lines of six characters or more that a size can be fitted to |
| `OcrBlocks.ExtentIsTight` | converter/epub.go:468-477 | The extent of a quad holds all its points and touches one on every side |
| `OcrBlocks.Measure` | converter/epub.go:468-477 | The loop computes that extent |
| `Medians.MedianSplits` | converter/epub.go:517-521 | The median is one of the sizes, with at least half of them on either side |
| `OcrPage.LineGeometry` | converter/epub.go:402-426 | A size is returned exactly for four points with an axis and a visible text; it lies above 0 and up to axis / 0.06, and at that size text and slack span the axis |
| `OcrPage.SiblingMedianFs` | converter/epub.go:501-522 | The median over the other substantial fitted lines, if there is one |
| `OcrPage.IsDuplicateBlockLine` | converter/epub.go:457-490 | True exactly for a line that covers 0.8 of the box and is below 0.6 of its siblings' median, in a block of three lines or more |
| `OcrPage.BlockRefFontSize` | converter/epub.go:527-549 | The median over substantial lines that are not duplicates, or 0 for fewer than three or without OCR |
| `OcrPage.RefIsAKeptSize` | converter/epub.go:527-549 | A reference size is the size of a kept line, with at least half of the kept sizes on either side |
| `OcrPage.KeptSizesAreMeasured` | converter/epub.go:527-544 | The sizes behind a reference are, in order, exactly those of the lines of six characters or more that fit and are not duplicates |
| `OcrPage.RefNeedsThree` | converter/epub.go:527-549 | A block has a reference size if and only if OCR is on and there are three of them |
| `OcrPage.ClampBounds` | converter/epub.go:576-583 | A fitted size within a factor of 1.15 of the reference is left alone and any other becomes the reference |
| `OcrPage.SizesAgree` | converter/epub.go:576-583 | Any two fitted lines of a block with a reference are written within a factor of 1.3225 of each other |
| `OcrPage.WriteLineDiv` | converter/epub.go:553-626 | Appends the line with its size, or nothing for an empty text or a flat quad |
| `OcrPage.LineDivMeans` | converter/epub.go:553-612 | With OCR and a fit a line is written at its clamped size, and otherwise so that its characters fill the height of a column or the width of a row |
| `OcrPage.WholeBlock` | converter/epub.go:629-642 | A block without a quad for each line is written whole in its own size or 16, or not at all without text or box |
| `OcrPage.OneBlock` | converter/epub.go:290-302 | A page of one block is that block |
| `OcrPage.PageInOrder` | converter/epub.go:290-302 | Blocks are written one after the other |
| `OcrPage.JoinInOrder` | converter/epub.go:304-304 | The lines of such a block are put together in order |
| `OcrPage.BlockShowsALine` | converter/epub.go:290-302 | A block that shows something without dropping still does with it, if the lines serving as size references can be written |
| `OcrPage.LineDivsAreShown` | converter/epub.go:290-302 | A block is written as exactly the lines that can be written and are not dropped, in order, so it is empty if and only if there are none |
| `OcrPage.DroppingMayEmptyABlock` | converter/epub.go:290-302 | A block that dropping does empty: the duplicate could be written, its siblings with quads without width cannot |
| `OcrPage.PageIsVisible` | converter/epub.go:290-302 | Everything a page writes has text and a positive size, and prints with a size other than 0.0 if and only if it is above 0.05 |
| `OcrPage.PageLines` | converter/epub.go:290-302 | The loops over blocks and lines write, in order, what each block is written as |
| `MokuroBuild.Converter.Convert` | converter/convert.go:141-174 | With writes falling anywhere, even between a stat and its parse: after the final pass every .mokuro that parses is an untouched leftover or was last attempted from its final contents, which were built twice if and only if their write overtook an attempt, and the invariant below holds |
| `MokuroBuild.Converter.BuildEPUBsForNewMokuroFiles` | converter/convert.go:200-238 | A pass keeps the invariant, and a pass without writes leaves every file settled |
| `MokuroBuild.Converter.SnapshotMokuroMTimes` | converter/convert.go:179-195 | Records exactly the .mokuro files there, with their timestamps |
| `MokuroSpec.VisitInv` | converter/convert.go:200-238 | One round keeps: attempts at a file move forward in its versions, the record is that of the last attempt or of the snapshot, leftovers are attempted only after a rewrite, and ok and fail count the attempts whose build succeeded and failed |
| `MokuroSpec.MokuroName` | converter/convert.go:186-188 | The files looked at are those, not directories, whose names end in .mokuro |
| `MokuroSpec.OnceWithoutRaces` | converter/convert.go:209-223 | If no write ever fell between a stat and its parse, no version is attempted twice |
| `MokuroSpec.RepeatMeansRace` | converter/convert.go:209-223 | A version attempted twice was overtaken by a write the first time and seen by the stat the second time |
| `MokuroSpec.TwiceIffOvertakenAndNot` | converter/convert.go:209-223 | At any time, any version of a file was built twice if and only if one attempt at it was overtaken by its write and another was not disturbed |
| `MokuroSpec.FinalTwiceIffOvertaken` | converter/convert.go:200-238 | The final contents of a settled file were built twice if and only if their write overtook an attempt |
| `MokuroSpec.AtMostTwice` | converter/convert.go:209-223 | No version is attempted three times |
| `MokuroSpec.OvertakenBuildsRepeat` | converter/convert.go:209-223 | An attempt overtaken by a write that parses is repeated from the same contents in the next pass |
| `MokuroSpec.UntouchedNotBuilt` | converter/convert.go:212-214 | A file left over from before that was not rewritten is never attempted |
| `MokuroSpec.SettledIsBuilt` | converter/convert.go:200-238 | A settled file is an untouched leftover or was last attempted from its final contents |
| `Collapse.Archive.CollapseSingleRoot` | internal/archive/archive.go:266-307 | Succeeds if and only if no wrapper has an entry of its own name, and then leaves the core of the tree; otherwise the outer wrappers are gone and entries of the clashing one are either where they were or moved out |
| `Collapse.ChainAndCore` | internal/archive/archive.go:266-307 | The tree is its core wrapped in the chain of wrappers, and the core is not itself a collapsible wrapper |
| `Collapse.CollapsibleMeans` | internal/archive/archive.go:272-292 | Collapsed is exactly a directory with one entry that is a directory holding a subdirectory or two names ending in .pdf, in any case |
| `Collapse.ChainIsUnique` | internal/archive/archive.go:266-307 | No other chain and core have that property |
| `Collapse.CollapseKeepsFiles` | internal/archive/archive.go:293-303 | Every file keeps its contents and loses exactly the chain from its path |
| `Collapse.HalfMovedKeepsFiles` | internal/archive/archive.go:293-297 | When collapsing stops half way no entry is lost |
| `Collapse.IsWrapperOfVolumes` | internal/archive/archive.go:281-292 | The counting loop decides whether a directory has a subdirectory or at least two PDFs |
| `Collapse.Archive.MoveOut` | internal/archive/archive.go:293-297 | Moves all entries out, or stops at the one the wrapper itself is in the way of |
| `SortTitle.NaturalOrder` | internal/epub/opf.go:266-278 | Titles that agree outside their numbers, all below 10^6, sort by their numbers left to right |
| `SortTitle.NaturalUpToAMillion` | internal/epub/opf.go:274-278 | That holds below a bound if and only if the bound is at most 10^6 |
| `SortTitle.PadTwice` | internal/epub/opf.go:274-278 | Padding a padded title changes nothing, whatever its numbers |
| `SortTitle.NumbersAreKept` | internal/epub/opf.go:274-278 | A sort title has the numbers of its title in order, those from 2^63 on capped at 2^63 - 1 |
| `SortTitle.PadKeeps` | internal/epub/opf.go:274-278 | Padding changes nothing outside the numbers |
| `SortTitle.RunIsPadded` | internal/epub/opf.go:274-278 | A number is printed in at least six digits, with zeros in front only to make six |
| `SortTitle.ArticleIsDropped` | internal/epub/opf.go:266-271 | The, A or An goes with its space, once, and any other title stays whole |
| `SortTitle.SortTitleTwice` | internal/epub/opf.go:266-278 | A sort title is its own sort title if and only if no second article follows the first |
| `SortTitle.ComputeSortTitle` | internal/epub/opf.go:266-278 | The loop strips the first article that fits, once, and pads |

## Left out

- HTTP handlers, sign-in, sessions, subprocesses, archive and image decoding, fonts, XML and OPF parsing,
  Unicode normalisation: what they return is a parameter here (page bytes, glyph advances, parse results,
  whether an archive opens, what a conversion counted).
- I/O and database errors, except where the table says so: a failed open, a failing destination, an
  unreadable root, a clashing rename.
- Floating point is exact arithmetic on reals. `math.Hypot` is any function of the two differences, so no
  property of it is used; the lean and the position of a line are not modelled, only its size.
- OcrPage.PageIsVisible: printing to one decimal is rounding of a real, halves to the even digit.
- Quad points are pairs; the source would panic on a point with fewer than two coordinates.
- The integer widths of Go, where the source cannot reach them with real data: buffer lengths, counters,
  box areas and the 26.6 fixed-point widths of `wrapText`. The saturation of `strconv.Atoi` is modelled.
- PdfExport.BuildImagesPDF: bytes are characters, and the header of an object is the text of a value, which
  its comment compares with the format string.
- ZipCache.ZipCache.Get: a call holds the mutex throughout, so it is one step; `closeAll` has no caller.
- JobQueueSpec: statements and read-then-write handlers are single steps and there is one drain loop; two
  claimers at once, and isolation levels, are not modelled. `updated_at` and `detector_size` are dropped.
- JobQueueExclusion.KeptFoldersAreExclusive: the source does not see to its condition. The folder of an added
  volume is filled before its row is inserted, so the folder scan may start it first as a book of its own
  (`JobQueueExclusion.ScanMayDoubleAFolder`), and a reconvert may find its folder under another Unicode form
  of the name; how folders are named is not modelled.
- JobQueueProofs.WipeIsCharged: says nothing about the contents of a removed folder or about other rows that
  share it; a failed upload and a later reconvert can share an input folder.
- JobQueue.Queue.ScanManualFolder: the set of folders in progress is modelled, but no invariant of it is claimed.
- JobQueue.Queue.ClaimNextJob: rows created at the same time, as bulk rows are, may be claimed in either order.
- Library deletion and series rename, which change rows outside the queue and the scanner.
- ScannerSpec: a UUID is a number never used before, a cover path is that number with an extension, and tags
  and counts for the log are dropped; a parser also gets the library, whose path stands for its id.
- ScannerProofs.ChangingDisk: a file may change between scans and between the files of a scan, but is stat'ed,
  hashed and parsed at one moment.
- ScannerProofs.ScanAgrees: for found files whose row, if any, belongs to the library scanned; a row keeps
  the library that first indexed it.
- ProgressWriter.ThrottleWriter.Write: the regular expression for volume names is any function of a line.
- MokuroBuild.Converter.Convert: files are never removed while it runs, and the directory can be read.
- MokuroSpec.AtMostTwice: every write gives its file a timestamp the file never had.
- Collapse.Archive.CollapseSingleRoot: directory order is arbitrary, so which entries were moved before a
  clash is left open.
- SortTitle.NaturalOrder: byte order, not a database collation.
- Cover scaling, volume-name sorting, ISBN checks, bookmarks, tags, configuration: easy members only.
