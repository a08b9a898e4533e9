# USB Sentinel, verified

A Dafny model of the scan engine of USB Sentinel, a C program that examines the files of a USB stick or
an internal drive for disguised executables, hostile shortcuts and known hashes, and keeps and shows
reports of its scans. The model follows the C code branch by branch; what the code promises is proved
about it for every input, every run or every interleaving.

A byte is a character or a small integer, a C string a Dafny string without NUL, and unsigned counters
wrap at 2^64 where the code lets them. Code that updates objects, arrays and buffers in place does so
here: the JSON writer and parser, the SHA-256 context, the traversal state, the store, the CSV buffer,
the detectors' slots. Each such method is tied to a function of its inputs or its old state, and the
theorems are about those functions.

## The parts

- `JsonSyntax`, `JsonWriter`, `JsonDocument`, `JsonMisuse`, `JsonReader`, `JsonRoundTrip`, `JsonMembers`,
  `Decimal`: the writer as a stack machine with a sticky error, what it does not notice, the depth-limited
  reader, and how far they undo each other.
- `JsonGrammar`, `JsonWritten`, `JsonAccepted`, `JsonAcceptedTrees`: RFC 8259 as derivation trees that know
  of neither; what is written is JSON, and what is read is exactly the grammar with three liberties.
- `Walk`, `WalkSet`, `WalkPolicy`, `WalkStops`, `WalkLimits`, `Traversal`, `Scanner`, `Registry`: the
  depth-first walk under cancellation, path failures and device removal; the declarative set it visits;
  when and how it stops; the checks of a finished and an unfinished scan.
- `WebApp`, `WebCancel`, `WebHandlers`, `Worker`, `WebJson`, `WebReading`: the web handler thread and one
  scan worker over mutex-protected state, whole handlers, and the JSON the interface answers with.
- `SafeId`, `ReportNames`, `LastScan`, `ReportStore`, `StoreOutcome`, `ReportHistory`, `Index`: names that
  order by time, temporary file and rename with every state of the disk on record, what is found after
  any run with crashes in it, and the index as a cache.
- `Sha256Round`, `Sha256`, `Sha256Padding`, `Sha256Constants`, `Sha256Primes`, `Sha256Examples`,
  `ByteNumbers` (FIPS 180-4), `Utf8` (RFC 3629), `Csv`, `CsvReading` (RFC 4180), `Lnk`, `LnkParser`,
  `LnkRoundTrip`, `LnkLayout` ([MS-SHLLINK]): byte transformers with a standard behind them.
- `Location`, `LocationBound`, `LocationGlobs`, `Detection`, `Filename`, `FilenameRules`, `LnkInspect`,
  `LnkRules`, `Signatures`, `SignatureLines`, `SignatureList`, `HashMatch`: the location policy and the
  detectors, and beside each of them its rules as patterns and tables.
- `ScanModel`, `Report`, `ReportReading`, `Summary`, `Counting`: the scan result, the three formatters over
  it and what their texts say of it.
- `CText`: C strings, status codes and ASCII case.

## Where the code and its documentation part

- `src/detectors/suspicious_filename.c:76-80` says a leading dot is no separator. The code takes it for one
  exactly when it is the n-th dot from the end (`Filename.LeadingDotIff`), so that `.exe` and `.pdf.exe` are
  reported (`Filename.DotfilesAreReported`).
- `src/core/location.c:10-16` says that ignoring components past the 96th errs toward the stricter
  rules. `LocationBound.LoosensShortcutsIff` and `LocationBound.WeakensFilenamesIff` say exactly when it does
  the opposite, `LocationBound.BoundCanLoosen` gives such a path and `LocationBound.WalkCanLoosen` a walk that
  meets it; `WalkPolicy.BoundIsNeverReached` shows that no walk does while names hold no separators.
- `include/usbsentinel/storage.h:65-71` promises that a crash never leaves a corrupt report. The
  temporary path is cut without notice, so a report path of 511 characters is its own temporary file:
  `ReportStore.CrashSafeIff` says exactly when the promise holds.
- `include/usbsentinel/storage.h:39-45` says that the encoding of device identities avoids collisions. The
  escape character is not escaped: `SafeId.SharesIff` says exactly which identities share a directory.
- The reader accepts more than RFC 8259: raw control characters in strings, superfluous leading zeros and a
  point without digits after it, and after a minus sign a fraction without a whole part. It accepts less
  in two ways: numbers have fewer than 64 characters, and values sit inside fewer than 32 containers.
  `JsonAcceptedTrees.AcceptedIffDerived` says so exactly.
- The writer lets a scalar sit inside 32 containers and the reader does not:
  `JsonRoundTrip.WriterIsDeeperThanReader`. It notices every misuse but two: `JsonMisuse.UnnoticedMisuseIff`.

## Model

| member | source | states |
|---|---|---|
| `JsonWriter.Writer.constructor` | src/core/json.c:13-20 | a fresh writer is the initial machine with no calls made |
| `JsonWriter.Writer.BeforeAValue` | src/core/json.c:85-113 | the comma and key bookkeeping before a value, on the per-level arrays, is that of the machine |
| `JsonWriter.Writer.PutEscaped` | src/core/json.c:115-144 | escaping byte by byte appends exactly the quoted text, which JsonWritten proves to be a string of section 7 of RFC 8259 for those bytes |
| `JsonWriter.Writer.BeginObject` | src/core/json.c:146-164 | the writer's fields stay those of the machine run on all calls so far; a 33rd level is the sticky error Unsupported |
| `JsonWriter.Writer.EndObject` | src/core/json.c:166-177 | closing what is not an open object is the sticky error Internal; a key without a value goes unnoticed |
| `JsonWriter.Writer.BeginArray` | src/core/json.c:179-196 | as BeginObject, for arrays |
| `JsonWriter.Writer.EndArray` | src/core/json.c:198-209 | as EndObject, for arrays |
| `JsonWriter.Writer.Key` | src/core/json.c:211-227 | a key where none is wanted is the sticky error Internal |
| `JsonWriter.Writer.PutString` | src/core/json.c:229-239 | one Str call of the machine |
| `JsonWriter.Writer.PutInt` | src/core/json.c:241-267 | one Int call of the machine, signed or unsigned |
| `JsonWriter.Writer.PutBool` | src/core/json.c:269-279 | one Boolean call of the machine |
| `JsonWriter.Writer.PutNull` | src/core/json.c:281-291 | one Nil call of the machine |
| `JsonWriter.Writer.MemberString` | src/core/json.c:293-297 | a key followed by its string value |
| `JsonWriter.Writer.MemberInt` | src/core/json.c:299-309 | a key followed by its integer value |
| `JsonWriter.Writer.MemberBool` | src/core/json.c:311-315 | a key followed by its boolean value |
| `JsonWriter.Writer.FinishDocument` | src/core/json.c:317-336 | an error, an open container or no text is refused; otherwise the text is handed out |
| `JsonWriter.ErrorIsSticky` | src/core/json.c:146-291 | after an error no call changes anything |
| `JsonWriter.BeforeTells` | src/core/json.c:85-113 | a value is refused exactly where a key is wanted; elsewhere a comma is written exactly when it is not the first of its container |
| `JsonWritten.EscapedIsPieces` | src/core/json.c:115-144 | section 7 of RFC 8259 derives every escaped text, and it stands for the bytes that were escaped |
| `JsonWritten.EscapeTable` | src/core/json.c:115-144 | of the spellings the RFC allows, the one that is written: seven short escapes, four lower-case digits for the other control characters, everything else as it is |
| `JsonWritten.FinishedIsJson` | src/core/json.c:85-336 | RFC 8259, as derivation trees apart from the writer and the reader, derives whatever a disciplined call sequence finishes with, and its meaning is the described tree |
| `JsonWritten.FinishHasNoControl` | src/core/json.c:85-336 | whatever the calls, misuses included, no character below U+0020 is ever handed out |
| `JsonDocument.DisciplinedIffDescription` | src/core/json.c:85-113 | a call sequence gives every key one value and has one top-level value exactly when it is the description of a tree |
| `JsonDocument.WriteValue` | src/core/json.c:85-291 | describing a tree appends exactly its text, or ends in Unsupported exactly when a container is opened inside 32 others |
| `JsonDocument.TreeFinishes` | src/core/json.c:317-336 | the calls that describe a tree within the writer's limit finish with its text |
| `JsonDocument.DisciplinedFinish` | src/core/json.c:317-336 | a disciplined, complete call sequence finishes with the text of its tree if and only if the tree nests within the writer's limit |
| `JsonReader.Append` | src/core/json.c:459-593 | the growing string buffer keeps its contents and room for a terminator |
| `JsonReader.Parser.SkipWhite` | src/core/json.c:377-387 | stops at the first character that is not white space |
| `JsonReader.Parser.ParseStringLiteral` | src/core/json.c:459-593 | on any bytes: agrees with the grammar of string literals and never leaves the text; embedded NULs cut the string |
| `JsonReader.Parser.ParseNumberToken` | src/core/json.c:595-636 | collects the token the code collects, at most 63 characters, and accepts it exactly when strtod would consume all of it |
| `JsonReader.Parser.MatchLiteral` | src/core/json.c:638-649 | consumes the literal or nothing |
| `JsonReader.Parser.ParseAnObject` | src/core/json.c:686-753 | the member loop agrees with the grammar and restores the depth on every path |
| `JsonReader.Parser.ParseAnArray` | src/core/json.c:755-804 | the item loop agrees with the grammar and restores the depth on every path |
| `JsonReader.Parser.ParseAValue` | src/core/json.c:806-886 | terminates on any text with the position inside it and the depth where it was, with the result of the grammar |
| `JsonReader.ParseInto` | src/core/json.c:888-916 | the result is written on success only; a failure leaves it untouched |
| `JsonReader.AcceptedIsShallow` | src/core/json.c:806-886 | every value of an accepted tree sits inside fewer than 32 containers and every number is one strtod gave |
| `JsonReader.ObjectGet` | src/core/json.c:923-936 | the first member with the key; nothing for a value that is no object |
| `JsonAcceptedTrees.AcceptedIffDerived` | src/core/json.c:377-916 | the reader accepts a text as a tree if and only if the grammar, with three liberties the reader takes, derives the text with that meaning and no value sits inside 32 containers |
| `JsonAcceptedTrees.JsonIsAccepted` | src/core/json.c:377-916 | every JSON text of RFC 8259 that is not nested too deeply and has no number of 64 characters is accepted as what it means |
| `JsonAcceptedTrees.RejectedIs` | src/core/json.c:888-916 | what is not accepted is malformed or too deep, and no other error is reported |
| `JsonRoundTrip.RoundTrip` | src/core/json.c:85-336 | any disciplined call sequence that finishes yields text the reader maps back to the described tree, keys in order, if and only if no value sits inside 32 containers |
| `JsonRoundTrip.ReadPrinted` | src/core/json.c:459-916 | whatever strtod does, the text of any tree of 64-bit integers is read back as that tree with each number as strtod reads it or, when it is too deep, as Unsupported |
| `JsonRoundTrip.ReadRendered` | src/core/json.c:459-916 | reading the text of a tree gives the tree back or, when it is too deep, Unsupported; numbers are any 64-bit integers that strtod reads back |
| `JsonRoundTrip.IntegersReadBack` | src/core/json.c:595-636 | integers of magnitude up to 2^53 are such numbers |
| `JsonRoundTrip.ShallowTreesFinish` | src/core/json.c:317-336 | a tree within the reader's depth is written without error and read back unchanged |
| `JsonRoundTrip.WriterIsDeeperThanReader` | src/core/json.c:806-812 | a scalar inside 32 arrays is written and cannot be read back: the two limits differ by one |
| `JsonMisuse.UnnoticedMisuseIff` | src/core/json.c:91-336 | every call sequence the writer finishes is a complete document if and only if no key is directly followed by the end of its object and exactly one value is begun outside all containers: there is no third misuse it misses |
| `JsonRoundTrip.DanglingKeyFinishes` | src/core/json.c:166-177 | an object of one key without a value, whatever the key: the writer finishes and the reader rejects the text |
| `JsonRoundTrip.TwoRootsFinish` | src/core/json.c:91-94 | any two top-level trees within the limit: the writer finishes with their texts run together |
| `JsonRoundTrip.TwoRootsReadAsOne` | src/core/json.c:91-94 | 1 and then 2 come back as the number 12, so the text of two roots may read as one tree that is neither |
| `WebJson.BuildDevices` | src/gui_web/gui_web_app.c:188-261 | the device list keeps the discipline and never fails: its text is that of exactly the USB volumes, in order |
| `WebJson.BuildProgress` | src/gui_web/gui_web_app.c:505-539 | the progress answer keeps the discipline and never fails |
| `WebReading.ProgressIsReadable` | src/gui_web/gui_web_app.c:505-539 | a parser makes a tree of the progress answer with each field under its own key |
| `WebReading.DevicesTell` | src/gui_web/gui_web_app.c:188-261 | the device list has one element for each USB volume, in order, and each field of the volume is under its own key |
| `WebApp.App.SetUpScan` | src/gui_web/gui_web_app.c:474-481 | the second critical section: the previous result is handed out for freeing and the fields are set for a new scan |
| `WebApp.App.HandleCancel` | src/gui_web/gui_web_app.c:541-549 | raises the flag while a scan is running and changes nothing otherwise |
| `WebApp.App.OnScanDone` | src/gui_web/gui_web_app.c:338-357 | publishes status and result, sets done and clears busy in one section; the old result is handed out |
| `WebHandlers.HandleScanStart` | src/gui_web/gui_web_app.c:430-503 | the exact code of every answer; a request turned down leaves the fields and the last result as they were, one that gets to the set-up drops the last result, and it is busy exactly when it is accepted; undisturbed, the sections in a row are a run of the two-thread machine |
| `WebHandlers.HandleReport` | src/gui_web/gui_web_app.c:561-587 | answers with the JSON report of the last result exactly when there is one, and is such a run |
| `WebHandlers.HandleProgress` | src/gui_web/gui_web_app.c:505-539 | answers with the text of the fields as they are when the mutex is held |
| `WebHandlers.RunScan` | src/gui_web/gui_web_app.c:299-357 | the callbacks of a scan thread, however often it reports: in the end its status and its result are published and the last result is handed out, and they are a run of the worker in the machine |
| `WebApp.RunKeepsInv` | src/gui_web/gui_web_app.c:299-587 | every step of the handler thread and of a worker keeps the invariant |
| `WebApp.AtMostOneWorker` | src/gui_web/gui_web_app.c:430-503 | after every interleaving at most one worker is live, outside set-up exactly when busy; done implies not busy and busy implies no result |
| `WebApp.CheckThenSetIsSafe` | src/gui_web/gui_web_app.c:444-481 | when the fields are set up after the unlocked gap, busy is still false and no worker is live |
| `WebApp.NoFault` | src/gui_web/gui_web_app.c:338-357 | nothing is freed twice or used after it is freed |
| `WebApp.NoResultIsLost` | src/gui_web/gui_web_app.c:338-371 | every result ever allocated has exactly one owner or has been freed |
| `WebApp.ReportedResultStays` | src/gui_web/gui_web_app.c:561-587 | no step frees or replaces the result a report is being built from |
| `WebApp.NothingCrossesScans` | src/gui_web/gui_web_app.c:299-305 | progress shown and cancellation seen belong to the current scan |
| `WebCancel.FlagIff` | src/gui_web/gui_web_app.c:93-110 | over every interleaving the cancel flag is up if and only if a cancel or a shutdown came while a scan was running and no scan has been set up since |
| `WebCancel.CancelReachesWorker` | src/gui_web/gui_web_app.c:541-549 | after a cancel or a shutdown while a scan is running, whatever else happens before the next set-up, the flag is up and the next poll of the live worker sees it |
| `WebCancel.SeenWasAsked` | src/gui_web/gui_web_app.c:299-305 | a worker has seen a cancellation only when one was asked for |
| `WebApp.DoneExactlyOnce` | src/gui/gui_worker.c:73-108 | each scan that got a thread reports exactly once |
| `WebApp.ShutdownIsClean` | src/gui_web/gui_web_app.c:93-150 | after shutdown no worker is live, and freeing the state releases every result |
| `Worker.RunWorker` | src/gui/gui_worker.c:73-108 | on_done is called exactly once and owns a live result or gets none; without it, or on failure, the result is freed |
| `Walk.NothingAfterStop` | src/scanner/scanner.c:111-237 | after device removal or cancellation nothing more is visited, skipped or excluded |
| `Walk.CancelledRunIsPrefix` | src/scanner/scanner.c:111-237 | a run cancelled at any poll has done exactly a prefix of what the uncancelled run does |
| `WalkStops.RemovedIff` | src/scanner/scanner.c:98-109 | in every world a run ends in removal if and only if one of its probes found the root gone, that probe is its last, and the skips are the probes that found it there |
| `WalkStops.MountedIsNeverRemoved` | src/scanner/scanner.c:98-109 | so a volume that stays is never taken for removed and each failing directory is one skip |
| `WalkStops.CancelledIff` | src/scanner/scanner.c:145-148 | a run is cancelled if and only if one of its polls said so, and that poll is its last |
| `WalkStops.CancelIsPrompt` | src/scanner/scanner.c:135-233 | a cancellation that is up from poll n on lets at most n files and exclusions through |
| `WalkStops.StoppedRunIsPrefix` | src/scanner/scanner.c:111-237 | whatever stops a run, it has done what the undisturbed walk of the tree does first, and no more |
| `WalkLimits.PathOfVisit` | src/scanner/scanner.c:163-176 | the path of a visited file is the root and the names on the way, each after one separator |
| `WalkLimits.Limits` | src/scanner/scanner.c:111-176 | no visited file lies more than 64 directories below the root or has a path of 2048 characters |
| `WalkLimits.LengthLimit` | src/scanner/scanner.c:163-176 | and every path of 2047 characters fits |
| `WalkLimits.DeepestIsVisited` | src/scanner/scanner.c:111-133 | and a file 64 directories below the root is visited |
| `WalkLimits.ExcludedIff` | src/scanner/scanner.c:178-205 | a path is excluded if and only if the device is tuned and the path, by its pattern, is one of the scanner's own scratch trees |
| `WalkSet.WalkVisitsTheSet` | src/scanner/scanner.c:111-237 | a walk that is not stopped calls the detectors exactly once for each file of the declarative set and for nothing else, and the number of files is the cardinality of that set |
| `WalkSet.DirCovers` | src/scanner/scanner.c:111-237 | the positions in walk order are distinct and are exactly the eligible ones: openable, non-reparse, non-excluded ancestors within depth 64 and a path that fits |
| `WalkSet.DirLog` | src/scanner/scanner.c:98-237 | unless it is stopped, what a walk does is a function of the tree alone, whatever the polls and probes answer |
| `WalkPolicy.PruningIsFiltering` | src/scanner/scanner.c:178-205 | not descending into fixture directories leaves out exactly the files whose own directory is one |
| `WalkPolicy.BoundIsNeverReached` | src/core/location.c:10-16 | with names free of separators no visited path has as many as 96 components, so each is classified by all of them |
| `Traversal.State.ClassifyPathFailure` | src/scanner/scanner.c:98-109 | one probe of the root: an answer is one more skip, modulo 2^64; none means that the device is gone and nothing is counted |
| `Traversal.State.Dispatch` | src/scanner/scanner.c:224-232 | every slot's result advances by one call of its detector |
| `Traversal.State.VisitFile` | src/scanner/scanner.c:207-232 | file and byte counters move modulo 2^64 and every slot sees the file |
| `Traversal.State.PollCancelled` | src/scanner/scanner.c:145-148 | one poll before each entry; a yes ends the walk |
| `Traversal.State.WalkOne` | src/scanner/scanner.c:163-232 | one entry: reparse points, over-long paths and excluded directories are passed over |
| `Traversal.State.WalkListing` | src/scanner/scanner.c:135-233 | the loop over one listing refines the walk as a function |
| `Traversal.State.WalkDir` | src/scanner/scanner.c:111-237 | terminates; counters, flags and slots are those of the walk as a function; only the root's own failure is an error |
| `Scanner.PrepareSlots` | src/scanner/scanner.c:352-384 | one slot for each per-file detector, in registry order |
| `Scanner.RunWholeChecks` | src/scanner/scanner.c:285-302 | each whole-volume detector is run once, in registry order |
| `Scanner.SkipWholeChecks` | src/scanner/scanner.c:304-320 | each whole-volume detector is reported skipped with the reason |
| `Scanner.DescribeTraversal` | src/scanner/scanner.c:448-480 | the file_traversal check with its counters, or the root's error |
| `Scanner.Scan` | src/scanner/scanner.c:386-514 | the checks are those of the finished or unfinished walk, and the status is Completed exactly when the root opened, no poll was answered with a cancellation and no probe found the root gone |
| `Scanner.EveryDetectorOnce` | src/scanner/scanner.c:484-506 | file_traversal comes first and then every registered detector exactly once |
| `Scanner.UnfinishedWalkSkipsAll` | src/scanner/scanner.c:490-506 | after an unfinished walk every detector check is skipped, without findings, whatever had been found; the reason, word for word, is the root's failure, a cancellation or the device's removal, whichever comes first in this order |
| `Scanner.FinishedWalkRunsAll` | src/scanner/scanner.c:285-302 | after an undisturbed walk each whole-volume check is what its detector made of a fresh one, and each per-file check what its detector made of the visits, one call for each in order |
| `Scanner.TraversalTells` | src/scanner/scanner.c:448-480 | file_traversal gives the root's error, or the outcome and the files, bytes, skips and exclusions of the walk modulo 2^64 |
| `Scanner.PolicyIsTold` | src/scanner/scanner.c:330-350 | what the policy suppressed and lowered is told after the check's own message, as far as there is room |
| `Scanner.MessageIsComplete` | src/scanner/scanner.c:456-478 | the traversal message with any 64-bit counters is never cut by its buffer, and is this text |
| `Registry.ReportNamesEveryDetector` | src/detectors/registry.c:11-29 | the checks of any scan are file_traversal and the four registered detectors, by their ids and in this order |
| `Registry.ScanLosesNothing` | src/scanner/scanner.c:484-489 | a finished scan's filename and shortcut checks, with what they count as suppressed, account for every finding of the strict rules on the same files, in their order; lowered counts the filename findings below High |
| `Sha256Round.OneRound` | src/platform/sha256.c:69-85 | one round with shifts in place of rotations is the round of section 6.2.2 of FIPS 180-4 |
| `Sha256.FillSchedule` | src/platform/sha256.c:54-64 | the in-place schedule is the recursive one of section 6.2.2 |
| `Sha256.CompressBlock` | src/platform/sha256.c:45-89 | one block changes the state as section 6.2.2 says |
| `Sha256.Context.constructor` | src/platform/sha256.c:91-107 | the initial state encodes the empty message |
| `Sha256.Context.Update` | src/platform/sha256.c:109-148 | after any updates the context encodes the fold over all whole blocks and the tail of everything fed |
| `Sha256.Context.Final` | src/platform/sha256.c:150-186 | the digest is that of the padded message, in the one-block and the two-block case, and the context is wiped |
| `Sha256.HashChunks` | src/platform/sha256.c:109-186 | however a message is cut into pieces, the digest is that of the whole |
| `Sha256.PiecesAreWhole` | src/platform/sha256.c:109-148 | the pieces of a message cut at any places, put together as HashChunks does, are the message |
| `Sha256Examples.AbcDigest` | src/platform/sha256.c:45-186 | the digest of the standard's one-block example is the published one |
| `Sha256Examples.LettersDigest` | src/platform/sha256.c:45-186 | and so is that of its two-block example of 56 bytes |
| `Sha256Padding.PaddedLength` | src/platform/sha256.c:150-186 | the padding takes one more block when the tail is shorter than 56 bytes and two otherwise |
| `Sha256Padding.LengthDenotes` | src/platform/sha256.c:150-186 | the length field is the 64-bit big-endian number of bits |
| `Sha256Padding.PaddingIsInjective` | src/platform/sha256.c:150-186 | different messages of fewer than 2^64 bits are padded differently |
| `Sha256Constants.RoundConstantsAreCubeRoots` | src/platform/sha256.c:18-35 | the 64 constants are the fractional parts of the cube roots of the numbers of the table, section 4.2.2 |
| `Sha256Constants.InitialWordsAreSquareRoots` | src/platform/sha256.c:91-107 | the initial words are the fractional parts of the square roots of its first eight, section 5.3.3 |
| `Sha256Primes.ListsThePrimes` | src/platform/sha256.c:18-35 | the table lists every prime up to its last entry and nothing else |
| `Sha256Primes.InOrder` | src/platform/sha256.c:18-35 | and in increasing order: they are the first 64 primes |
| `ReportNames.CompactTimestamp` | src/storage/storage.c:82-104 | drops hyphens and colons and succeeds exactly when 16 characters remain |
| `ReportNames.ExpandInvertsCompact` | src/storage/storage.c:106-116 | expanding a compacted timestamp gives the timestamp back |
| `ReportNames.CompactOrder` | src/storage/storage.c:223-228 | strcmp orders compact timestamps exactly as the calendar orders their times |
| `ReportNames.StrippedIs` | src/storage/storage.c:82-104 | everything but the hyphens and the colons is kept, in its order |
| `LastScan.DescribedName` | src/storage/storage.c:230-252 | of a report's name: its time, its id when that has fewer than 64 characters and the count |
| `LastScan.DescribedTable` | src/storage/storage.c:230-252 | of any other name: what its characters say when it has a report's shape, and nothing otherwise |
| `LastScan.LastScan` | src/storage/storage.c:175-255 | a missing directory is no scan; otherwise the count of report names and what the greatest of them says |
| `ReportHistory.ListingAgrees` | src/storage/storage.c:199-252 | from any listing that lists exactly the files of a directory of reports, in any order, last_scan gives the number of .json reports on disk and the time and id of a scan that none of them is later than; an id of 64 characters or more is left empty |
| `ReportHistory.LastScanAfterAnyRun` | src/storage/storage.c:175-511 | after any run of report writes and index refreshes that fit, for any devices, each stopped or failing anywhere and going on with what the others left: every report on disk is complete, none that was there or was reported as written is missing, and last_scan gives their number and the latest |
| `ReportHistory.WritesReports` | src/storage/storage.c:440-511 | a run writes no .json file into a device's directory but under the name of a report, and neither the index nor a temporary file is taken for one |
| `ReportStore.Store.WriteFile` | src/platform/fs_posix.c:436-491 | opening truncates and every write leaves a state of the disk on record |
| `ReportStore.Store.ReplaceFile` | src/platform/fs_posix.c:493-506 | an atomic rename or no change |
| `ReportStore.Store.DeleteFile` | src/platform/fs_posix.c:508-520 | removes the file or leaves the disk as it is |
| `ReportStore.Store.Save` | src/storage/storage.c:491-505 | on a store opened on any disk, as long as calls have a temporary path of their own no state the disk is ever in holds an incomplete report |
| `ReportStore.Store.WriteReportFile` | src/storage/storage.c:440-511 | the disks it passes through and its result, for every failure: a bad id, timestamp or path touches nothing; success leaves the content under the report's path |
| `ReportStore.CrashSafeIff` | src/storage/storage.c:487-505 | whatever reports and leftovers are on disk, whatever fails and wherever the process stops, every report on disk is the whole content of some call, if and only if the path is shorter than 511 characters, is no report's, or the content is empty |
| `ReportStore.RunsAreCrashSafe` | src/storage/storage.c:487-505 | so it is over any number of saves, each stopped or failing anywhere, each going on with the reports and half-written temporary files of all before it |
| `ReportStore.SaveKeepsOthers` | src/storage/storage.c:491-505 | no state of the disk in a save differs elsewhere than in the temporary file and the saved one, and a save that fails leaves the saved file as it was |
| `ReportStore.SavedIsThere` | src/storage/storage.c:495-505 | a save reported as done leaves the whole content under its path |
| `StoreOutcome.SaveTold` | src/storage/storage.c:487-511 | the status of a save is that of the first call on the host that failed, or success; then the content is in place and no temporary file is left, and after a failure one is left only when it cannot be deleted |
| `StoreOutcome.TargetTable` | src/storage/storage.c:440-486 | where a report goes, part by part, and which error a bad id, a bad timestamp or a path that does not fit gives, in which order |
| `StoreOutcome.WriteTold` | src/storage/storage.c:440-511 | a bad id or directory is found before anything is done and any other bad path once the directory is made; a report with a path is saved, and the first failure is the one that is told |
| `ReportHistory.WrittenNameIsReadable` | src/storage/storage.c:484-486 | a written name is one whose time and id last_scan reads back, exactly as long as it is not cut to its buffer |
| `SafeId.Make` | src/storage/storage.c:46-75 | the encoding of an identity when it is not empty and fits, and the error otherwise |
| `SafeId.EscapeTable` | src/storage/storage.c:46-75 | letters, digits, '.', '-' and '_' stay; any other byte becomes '_' and two upper-case digits |
| `SafeId.SharesIff` | src/storage/storage.c:46-75 | an identity shares its directory with another exactly when it holds an unsafe byte or the escape of one |
| `SafeId.SharedDirectory` | src/storage/storage.c:46-75 | two serial numbers, one with a space and one with its escape, share one |
| `Index.BuildIndex` | src/storage/storage.c:335-402 | the text built from any old text carries every other well-formed entry and the device's own last scan |
| `Index.IndexAgrees` | src/storage/storage.c:309-429 | whatever text was there, the new text parses, its entry for the device is the directory-derived last scan and every other key's first well-formed entry is unchanged |
| `Index.NewShows` | src/storage/storage.c:335-402 | under the literal keys of the file, the new text shows the device once, after the others, with its time, id and count, or not at all when it has no scan |
| `Index.EntryTable` | src/storage/storage.c:358-381 | which values under devices are entries, and what is read from them: an id and a time of any type and an integral count in the range of a long long |
| `Index.RefreshIndex` | src/storage/storage.c:309-429 | the index file is replaced as a whole by that text or left as it is, and no other file but the temporary one is touched |
| `Index.WriteReport` | src/storage/storage.c:513-530 | once the report and the index are reported as done, the report is on disk as given and the index, under its literal keys, says of the device how many reports it has and which scan none of them is later than |
| `Utf8.LengthIffScalar` | src/platform/fs_posix.c:87-129 | nonzero exactly on encodings of Unicode scalar values, section 4 of RFC 3629, and then the length of that encoding |
| `Utf8.Sanitize` | src/platform/fs_posix.c:156-190 | the two-cursor loop writes exactly the sanitized text and a terminator within the buffer |
| `Utf8.OutputIsWellFormed` | src/platform/fs_posix.c:156-190 | on any bytes the output is well-formed UTF-8 and shorter than the buffer |
| `Utf8.FullSteps` | src/platform/fs_posix.c:156-190 | each encoding of a scalar value is kept and each byte that starts none becomes U+FFFD |
| `Utf8.CutAtBoundary` | src/platform/fs_posix.c:168-187 | truncation drops whole sequences only, and only when the next one does not fit |
| `Utf8.UnchangedIffWellFormedAndFits` | src/platform/fs_posix.c:156-190 | text comes out unchanged if and only if it is well-formed and fits |
| `Utf8.Idempotent` | src/platform/fs_posix.c:156-190 | sanitizing twice is sanitizing once |
| `Utf8.NeverTruncates` | src/platform/fs_posix.c:152-187 | nothing is dropped when three bytes for each input byte fit |
| `Utf8.NoZeroAppears` | src/platform/fs_posix.c:156-190 | a C string stays a C string |
| `Csv.Buffer.WriteField` | src/reporting/report.c:346-393 | a field is quoted, doubled and marked exactly as it must be |
| `Csv.Buffer.WriteRow` | src/reporting/report.c:397-429 | nine fields, commas between them, CRLF at the end |
| `Csv.BuildCsv` | src/reporting/report.c:431-513 | header, then one row for each finding and one for each check without findings |
| `Csv.CsvRoundTrip` | src/reporting/report.c:431-513 | a reader for section 2 of RFC 4180 recovers the header and exactly those nine-field records, each field the original up to the formula mark |
| `Csv.NoFormulaRecovered` | src/reporting/report.c:357-381 | no recovered field is one a spreadsheet would evaluate |
| `CsvReading.RecordsAre` | src/reporting/report.c:431-513 | the record of each finding, and of each check without findings, is where it belongs and holds scan, device, check, severity, path and message in this order |
| `CsvReading.NoFormula` | src/reporting/report.c:357-381 | no field of any record of the file, the header's included, begins with one of the four marks |
| `Report.WriteDevice` | src/reporting/report.c:14-52 | the calls that describe the device |
| `Report.WriteCapabilities` | src/reporting/report.c:54-61 | the calls that describe the capabilities |
| `Report.WriteChecks` | src/reporting/report.c:63-110 | the calls that describe the checks in order, and the four counts of the summary |
| `Report.BuildJson` | src/reporting/report.c:112-177 | the builder keeps the writer's discipline: it never fails and its text is that of the report as a tree |
| `Report.ReportRoundTrip` | src/reporting/report.c:112-177 | the report parses back to that tree, its checks in order, when its numbers are at most 2^53 |
| `ReportReading.ReportIsReadable` | src/reporting/report.c:14-177 | a parser makes a tree of the report's text in which every field of the scan, its device, its checks and their findings is under its own key, with the words of the format |
| `ReportReading.ReportDetermines` | src/reporting/report.c:14-177 | two scans whose reports read alike have the same ids, times, status, device, capabilities, checks and findings |
| `Summary.Summarize` | src/gui/gui_report_view.c:144-196 | the counts, and the verdict: Clean exactly when the scan completed, every check ran and no finding is above Info; no result is Incomplete |
| `Summary.VerdictTable` | src/gui/gui_report_view.c:144-196 | Threat exactly when some finding is High, Suspicious or worse exactly when some finding is above Info, Clean exactly when it is neither, the scan completed and every check ran |
| `Counting.StatusCountIs` | src/reporting/report.c:63-110 | the count of a status is the number of checks with it |
| `Counting.SeverityCountIs` | src/gui/gui_report_view.c:144-196 | the count of a severity is the number of findings of that severity in all checks |
| `Summary.FormattersAgree` | src/gui/gui_report_view.c:144-196 | the text of the JSON report parsed, the counts on screen and the text of the CSV report read by section 2 of RFC 4180: the four counts of the JSON summary are those on screen, and for each severity so are the findings under the JSON checks and the CSV records |
| `Lnk.AcceptanceIsLocal` | src/detectors/lnk_inspect.c:192-301 | an accepted shortcut stays accepted with the same target and arguments under any appended bytes, and a prefix is accepted if and only if it covers what had to be looked at |
| `Lnk.LinkInfoLocal` | src/detectors/lnk_inspect.c:228-272 | LinkInfo ([MS-SHLLINK] section 2.3) depends on no byte beyond its reach, which may lie beyond its declared size |
| `Lnk.StringDataLocal` | src/detectors/lnk_inspect.c:136-178 | StringData (section 2.4) depends on no byte beyond its block |
| `LnkParser.InRange` | src/detectors/lnk_inspect.c:70-76 | the check without sums is the range check |
| `LnkParser.ReadU16` | src/detectors/lnk_inspect.c:78-86 | a little-endian word, or nothing when it does not lie in the buffer |
| `LnkParser.ReadU32` | src/detectors/lnk_inspect.c:88-97 | a little-endian double word, or nothing |
| `LnkParser.ReadCStringAnsi` | src/detectors/lnk_inspect.c:105-124 | up to a NUL or the bound, cut to the output buffer |
| `LnkParser.ReadStringData` | src/detectors/lnk_inspect.c:136-178 | the block's length, and its characters with '?' for what is not ASCII |
| `LnkParser.ReadLinkInfo` | src/detectors/lnk_inspect.c:228-272 | the local base path exactly when the structure declares one, malformed when any of its checks fails |
| `LnkParser.ParseLnk` | src/detectors/lnk_inspect.c:192-301 | every read lies below the length, and the result is that of the format on those bytes alone |
| `LnkRoundTrip.RoundTrip` | src/detectors/lnk_inspect.c:192-301 | any shortcut with an ASCII target and arguments that fit, whatever other sections it has, is read back under any appended bytes; no proper prefix of it is accepted |
| `LnkLayout.ParsedIffLaidOut` | src/detectors/lnk_inspect.c:192-301 | bytes are parsed as a shortcut with a target and arguments if and only if they are laid out as one by the offsets and sizes of [MS-SHLLINK] |
| `LnkInspect.LnkExtensionIgnoresCase` | src/detectors/lnk_inspect.c:374-384 | the extension test is '.lnk' in any case |
| `LnkInspect.ContainsIgnoringCase` | src/detectors/lnk_inspect.c:331-358 | finds the word in any case, never the empty word |
| `LnkInspect.BaseNameOf` | src/detectors/lnk_inspect.c:360-370 | what follows the last separator of either kind |
| `LnkInspect.IsInterpreter` | src/detectors/lnk_inspect.c:521-526 | the target's base name is an interpreter, in any case |
| `LnkInspect.FindMarker` | src/detectors/lnk_inspect.c:528-535 | the first marker of the list that the arguments contain, and one exactly when they contain any |
| `LnkInspect.ReadCapped` | src/detectors/lnk_inspect.c:475-488 | however the reads are sized, the buffer holds the first 262144 bytes |
| `LnkInspect.Slot.OnFile` | src/detectors/lnk_inspect.c:416-567 | the new state of the check, for every size, content and policy |
| `LnkInspect.PolicyOutcome` | src/detectors/lnk_inspect.c:393-403 | the policy never invents or changes a finding: it reports the strict one or counts it |
| `LnkInspect.AttackIsReported` | src/detectors/lnk_inspect.c:544-561 | an interpreter target with a suspicious argument is reported everywhere but in the component store |
| `LnkRules.ShortcutTable` | src/detectors/lnk_inspect.c:510-561 | under the strict rules an interpreter target alone or a marker alone is High too; in the Start Menu only both together are; in the component store everything is counted |
| `LnkRules.FileTable` | src/detectors/lnk_inspect.c:416-518 | which files are read: .lnk by name, up to 256 KiB, that can be opened; a larger one is a Warning, or counted where the policy holds |
| `LnkRules.MalformedTable` | src/detectors/lnk_inspect.c:490-518 | what cannot be parsed is a Warning under the strict rules and counted under the policy |
| `LnkRules.TargetsAre` | src/detectors/lnk_inspect.c:305-370 | an interpreter target: after the last separator, in lower case, one of the ten names |
| `LnkRules.MarkerIs` | src/detectors/lnk_inspect.c:310-358 | the marker is the first word of the list that occurs in the arguments in any case |
| `LnkRules.SuspiciousWords` | src/detectors/lnk_inspect.c:544-567 | what such a finding says, cut to its 255 characters |
| `LnkRules.FindingIs` | src/detectors/lnk_inspect.c:405-414 | a reported shortcut adds one finding with the path below the volume, a counted one only counts, and nothing else changes |
| `LnkInspect.NothingUncounted` | src/detectors/lnk_inspect.c:416-567 | over any files the tuned findings are the strict findings, in order and unchanged, without those counted as suppressed |
| `Signatures.Parse` | src/detectors/signature_list.c:134-219 | one line in pointer steps is the line's quiet, malformed or entry result |
| `SignatureLines.EntryIff` | src/detectors/signature_list.c:134-219 | a line is an entry if and only if it is 64 hexadecimal digits, a number of at most 31 characters and a name, with colons between them |
| `SignatureLines.QuietIff` | src/detectors/signature_list.c:134-219 | and is passed over in silence if and only if it is empty or a comment |
| `Signatures.PrintParses` | src/detectors/signature_list.c:134-219 | printing any entry and parsing the line gives the entry back, colons in the name included |
| `Signatures.LinesPartition` | src/detectors/signature_list.c:243-274 | the lines put together again are the buffer, up to a final newline |
| `Signatures.EveryLineCounts` | src/detectors/signature_list.c:243-274 | entries, malformed and quiet lines add up to the lines |
| `Signatures.PrintedListLoads` | src/detectors/signature_list.c:243-274 | a printed list loads as exactly that list |
| `SignatureList.Sort` | src/detectors/signature_list.c:60-67 | the same entries in order of size, which is all qsort promises |
| `SignatureList.List.Load` | src/detectors/signature_list.c:221-294 | the list holds its old entries and those of the file, sorted by size, and the malformed lines are counted |
| `SignatureList.List.LowerBound` | src/detectors/signature_list.c:300-314 | everything before it is smaller and nothing from it on is |
| `SignatureList.List.Lookup` | src/detectors/signature_list.c:316-336 | a name exactly when some entry has both size and hash, and then that of such an entry |
| `SignatureList.List.HasSize` | src/detectors/signature_list.c:338-347 | true exactly when some entry has the size |
| `HashMatch.Detector.EnsureLoaded` | src/detectors/hash_match.c:130-159 | the file is looked at once; without entries the fallback stays |
| `HashMatch.Detector.Lookup` | src/detectors/hash_match.c:166-179 | a label exactly when the loaded list, or the fallback, has the size and hash |
| `HashMatch.Detector.SetDisclaimer` | src/detectors/hash_match.c:215-229 | the check's message names the signatures in use |
| `HashMatch.Detector.SizePlausible` | src/detectors/hash_match.c:258-275 | the prefilter lets a size through exactly when some known entry has it |
| `HashMatch.Detector.OnFile` | src/detectors/hash_match.c:231-326 | a file is reported exactly when it is at most 64 MiB, can be read and is listed with its size and SHA-256; the prefilter changes nothing |
| `HashMatch.HexAt` | src/platform/hash_posix.c:130-150 | the text of a digest is two lower-case digits for each byte in order, the high half first |
| `HashMatch.FallbackIs` | src/detectors/hash_match.c:82-86 | the one entry there is without a list |
| `HashMatch.KnownIs` | src/detectors/hash_match.c:130-179 | the list is the file's exactly when the file is there and one of its lines is an entry; otherwise it is the one entry built in |
| `HashMatch.MatchWords` | src/detectors/hash_match.c:300-326 | what a match says, and that it is a demonstration when no list is loaded |
| `HashMatch.DisclaimerWords` | src/detectors/hash_match.c:215-229 | the disclaimer names the file and the number of its signatures, or owns up to the one built in, word for word |
| `Filename.NthExtensionFromEnd` | src/detectors/suspicious_filename.c:81-97 | the n-th dot from the end, a leading dot included |
| `Filename.LeadingDotIff` | src/detectors/suspicious_filename.c:76-97 | a leading dot, promised never to be a separator, is taken for one exactly when it is the n-th dot from the end |
| `Filename.DotfilesAreReported` | src/detectors/suspicious_filename.c:76-134 | so .exe has an executable extension and .pdf.exe is a disguise |
| `Filename.DisguiseShape` | src/detectors/suspicious_filename.c:99-134 | the rule finds exactly the names that end in a dot, a document extension, a dot and an executable extension |
| `Filename.FindDisguise` | src/detectors/suspicious_filename.c:99-134 | the buffer-sized search finds that disguise |
| `Filename.HasBidiOverride` | src/detectors/suspicious_filename.c:137-146 | finds exactly the encodings of U+202A to U+202E |
| `Filename.HasSpacePadding` | src/detectors/suspicious_filename.c:148-169 | the running count finds exactly a run of four spaces before an executable extension |
| `Filename.AppendReason` | src/detectors/suspicious_filename.c:259-266 | appending a reason that fits keeps the used length equal to the text |
| `Filename.WeighDisguise` | src/detectors/suspicious_filename.c:270-299 | what a disguise contributes under the location policy |
| `Filename.JudgeFile` | src/detectors/suspicious_filename.c:268-320 | reasons, severity, lowering and suppression of one name; the 256-character message is never cut |
| `FilenameRules.JudgeTable` | src/detectors/suspicious_filename.c:196-320 | the verdict on every name, hidden flag and location: High for the three other rules, none without a disguise, and the policy's severity for a disguise alone |
| `FilenameRules.ExecutableShape` | src/detectors/suspicious_filename.c:81-97 | an executable extension: a stem, a dot and one of the listed extensions in any case |
| `FilenameRules.PaddingShape` | src/detectors/suspicious_filename.c:148-169 | padding: four spaces anywhere before the dot of an executable extension |
| `FilenameRules.BidiShape` | src/detectors/suspicious_filename.c:137-146 | a bidi override: the UTF-8 encoding of one of U+202A to U+202E anywhere in the name |
| `FilenameRules.MessageIs` | src/detectors/suspicious_filename.c:259-320 | the message of every finding, word for word |
| `FilenameRules.FindingIs` | src/detectors/suspicious_filename.c:322-341 | a reported file adds one finding with the path below the volume, a counted one only counts, and nothing else changes |
| `Filename.Slot.OnFile` | src/detectors/suspicious_filename.c:226-341 | the new state of the check |
| `Filename.PolicyOutcome` | src/detectors/suspicious_filename.c:196-224 | under the policy a file is reported or counted exactly when the strict rules report it; the three other rules stay High and user-facing locations are unchanged |
| `Filename.NothingUncounted` | src/detectors/suspicious_filename.c:226-341 | over any files the strict findings are the tuned findings plus those suppressed, for the same files in the same order, and lowered counts the findings below High |
| `Location.Split` | src/core/location.c:65-87 | fills the array with the path's first components, whatever the separators |
| `Location.ComponentsOfJoin` | src/core/location.c:65-87 | joining two paths with either separator joins their components |
| `Location.ComponentListsAre` | src/core/location.c:65-87 | what paths are split into are exactly the lists of non-empty names without separators |
| `Location.ScratchNameShape` | src/core/location.c:106-133 | the rule matches exactly test_<name>_scratch_<8 hex digits> |
| `Location.MatchesFixture` | src/core/location.c:135-150 | the one-pass flag finds a scratch directory under tests at or below a build directory |
| `Location.MatchesDependencyTree` | src/core/location.c:178-197 | a package directory, or intermediates at most two below build |
| `Location.MatchesRecentItems` | src/core/location.c:206-222 | a Recent directory below Roaming, never the last component |
| `Location.Classify` | src/core/location.c:241-271 | the first matching kind in the order of precedence, from the first 96 components |
| `LocationGlobs.KindIsFirstMatch` | src/core/location.c:89-239 | the kind of a path is the first, in the order of precedence, one of whose glob patterns its components match |
| `LocationGlobs.PathKind` | src/core/location.c:241-271 | of which at most the first 96 decide |
| `LocationGlobs.TunedDevices` | src/core/location.c:233-239 | the policy holds on every bus but USB and the unknown one |
| `LocationGlobs.TunedKindIs` | src/core/location.c:233-301 | what the detectors are told of a file: nothing on a USB stick or an unknown bus, elsewhere the kind of its path below the volume |
| `Location.DeeperIsNeverLater` | src/core/location.c:241-271 | appending components never moves a path to a later kind, and past the 96th changes nothing |
| `Location.PruningIsFiltering` | src/scanner/scanner.c:178-205 | a file has a fixture directory above it exactly when its own directory is one, and then it is classified as one itself |
| `LocationBound.LoosensShortcutsIff` | src/core/location.c:10-16 | for every path, the bound loosens the shortcut policy exactly when there are more than 96 components, the path is the Start Menu's or the component store's, and the whole path is a fixture, a dependency tree or Recent Items while its first 96 components are none of these and not user-facing |
| `LocationBound.WeakensFilenamesIff` | src/core/location.c:10-16 | and weakens the filename verdict exactly when there are more than 96, the first 96 are neither a fixture nor user-facing, and either they are Recent Items alone, the file is a shortcut and the whole path is a fixture or a dependency tree, or they are a dependency tree, the file is no native executable and the whole path is a fixture |
| `LocationBound.BoundCanLoosen` | src/core/location.c:10-16 | a path of 243 characters, with either separator, that is classified as the Start Menu and by all of its components is a dependency tree |
| `LocationBound.WalkCanLoosen` | src/core/location.c:10-16 | a walk meets such a path at one name of at most 255 characters, with backslashes and without '/', as POSIX allows |

## Left out

- Win32, macOS and Linux enumeration, capability probing and all foreign calls: directories, files and renames are an environment that answers with entries, bytes or an error.
- `usbs_report_render_text`, `gui_window.c` and the styled rendering in `gui_report_view.c`: user interface; only the counts and the verdict are modelled.
- HTTP parsing, authorization, tokens, the browser launch and the instance lock; saving the reports from `on_scan_done` is the store's own model.
- NULL arguments: a parameter of the model is always there. A NULL string given to the JSON writer is written as an empty one, which the index model uses.
- Out of memory: allocations succeed, except in `gui_worker_run`, where a failed allocation is modelled. Capacity growth of the writer's and the CSV buffer is not.
- Floating point: `strtod` is a parameter. Round trips ask that it reads integers up to 2^53 exactly, and for the index that it rounds correctly. A number outside the 64-bit range converts as on x86-64.
- `qsort`: its result is any sorted permutation; its own algorithm is not modelled, only one that has that result.
- The 64 MiB cap on reading a signature file, logging, environment variables, scan ids, clocks and the command line.
- Autorun inspection and the hash detector inside `Registry`: any functions that keep their check's id.
- Progress callbacks of the walk: the counters they show are modelled, the calls are not.
- The opening of the store and `make_dirs` beyond its success or failure; the store's own members take the encoded identity of a device, which `SafeId` makes, as its key.
- Shutdown after its five-second wait has run out, timing and liveness: the worker is taken to stop within the bound.
- `gui_should_auto_scan`, device identity formatting and the tables of display strings: nothing that spans more than one body.
- WebApp.App.HandleCancel: the scan it is raised for is a ghost parameter, because the code keeps no such number.
- Report.ReportRoundTrip: asks that sizes and counts are at most 2^53, because larger ones are not all doubles; the text itself is the same without that.
- Traversal.State.WalkDir: listings are a function of the path, so a directory that changes between two visits in one scan is not modelled.
- Summary.FormattersAgree: asks that the counts of checks and findings are at most 2^53 and that the device's sizes fit 64 bits.
- ReportHistory.LastScanAfterAnyRun: asks that ids, timestamps and paths fit their buffers and that other .json files in the directory are reports; what becomes of a name that is cut, `WrittenNameIsReadable` says.
- WalkLimits.PathOfVisit: asks that names are not empty and do not end in '/', as no directory entry does.
- ReportReading.ReportIsReadable: as `ReportRoundTrip`, for numbers up to 2^53.
- JsonWritten.FinishedIsJson: bytes from 0x80 on are taken for parts of characters; that a string is well-formed UTF-8 is its caller's part, which `Utf8` models.
- ReportStore.Store.Save: one process writes at a time; two processes that save at once are not modelled.
