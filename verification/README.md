# Verification of NextExplorer's state machines and text cores

NextExplorer is a self-hosted file explorer. This project models, in Dafny, the parts of it whose correctness depends
on an order of events, on a whole run, or on two pieces of text code agreeing, and proves what their comments and
their tests promise. `dafny verify dfyconfig.toml` checks everything.

**Document saves** (`ForceSave`, `ForceSaveService`). Saving an ONLYOFFICE document on demand keeps two maps, a timeout
per request, up to four retries and a possible follow-up. Every stretch of code between two awaits is one step, and
which step comes next, what the Document Server answers and which request id is drawn are free, so a statement about
all runs is a statement about every order of delivery. The object that holds the maps is proved to take these steps.

**Search** (`SearchMerge`, `SearchIndexRanking`, `SearchIndexWindow`, `SearchIndexStream`). Both generators are loops
over state that other generators change at their awaits. The race, the deadline and the reads that lose to it are
chosen freely at each await; the contracts say what comes out in every schedule, for the index reader by comparison
with a loop that takes one row at a time.

**Archives.** `ArchiveTree` and `ArchiveCollector` name everything that goes into a zip; `ArchiveRecords`,
`ArchiveReadBack`, `ArchivePaths`, `ArchiveListing` and `ArchiveLevels` read a 7-Zip listing and cut it into folders; `CacheNames`,
`ArchiveCache` and `CacheSweep` share the work of decompressing and keep the cache within its budget.

**Tokens** (`TokenFormat`, `ApiTokens`, `ApiTokenStore`, `TokenThrottles`). The life of an API token over every run,
with minting in two steps because the service waits between the check of the cap and the insertion, and the two
throttles over maps whose insertion order matters.

**Access** (`RelativePaths`, `ShareAccess`, `VolumeAccess`). How a path is read, first-match rules with an administrator
exemption, what a share hands out, that the caches do not change an answer, and how a share compares with an account that
goes to the same place itself, by a path that is read like any other.

**Text and retention** (`CssEscape`, `VersionText`, `ActivityLog`, `Retention`). Escaping against the identifier
consumer of CSS Syntax Level 3, the version rewriter against its own checker, paging through a log others write to,
and which published image tags are removed.

Where the code changes something in place, a class or a method with the same loop does it here, and its `ensures`
equates the new state with a specification function; the lemmas are about those functions. A word that recurs: a step
is *enabled* when the runtime could deliver it.

What the code does is modelled also where its comments say otherwise:

- Ending a session says it flushes the document; it joins whatever request is pending, and when that is an automatic
  save the close is not sent afterwards (`backend/src/routes/onlyoffice.js:1200-1210`). `ForceSave.SessionEndOwes` says
  exactly when the close is owed, `ForceSave.JoinedCloseIsLost` that it never is again until somebody asks for the session
  anew, and `ForceSave.SessionEndCanLoseTheClose` is such a run.
- The cap of fifty tokens holds for an account whose mints do not overlap. `ApiTokens.CapHolds` gives the bound for any
  overlap and `ApiTokens.OverlapPassesTheCap` a run that reaches fifty-one.
- The refusal tracker says it forgets the oldest entry (`backend/src/services/apiTokens.js:372`); it forgets the id
  held longest. `TokenThrottles.OldestGoesExactly` says exactly when that is the oldest report,
  `TokenThrottles.FirstSeenIsNotOldest` is a run in which it is not.
- Paging by the moment of the last row is said to skip nothing (`backend/src/services/activityLog.js:134-139`). It skips
  the rows that share that moment with the last row of a page: `ActivityLog.DrainComplete` is the exact condition.
- The version script accepts versions with a suffix. For those, rewriting need not leave its own checker content:
  `VersionText.SettlesExactlyForTriples`.
- The pruning script takes a negative count as `slice` does, from the end. With one, deciding again goes on removing:
  `Retention.DecidingAgainRemovesNothing` gives the exact cases, `Retention.NegativeCountGoesOn` a family outside them.
- A solid archive's tree is said to be renamed into place once it is whole (`backend/src/services/archiveCacheService.js:281-283`).
  A rename does not replace a tree that holds something, so a caller who starts late is answered with nothing although
  the tree is there: `ArchiveCache.RenameFindsTheCopy` and `ArchiveCache.LateStartIsAnsweredNothing`. And a tree is taken
  away entry by entry, which may stop half way and leave the rest under its name (`backend/src/services/archiveCacheService.js:371-373`):
  `ArchiveCache.TreeIsWholeExactly` says exactly when a tree in place is whole, `ArchiveCache.AnsweredWithPartOfATree` is a
  run in which a caller is answered with what is left.
- A share is refused when its volume is not its owner's (`backend/src/services/accessManager.js:303-307`), so that it
  gives no more than its owner has. The owner goes by a path that starts with the label of the volume, and a label may be
  one no path can spell: hold a slash or a backslash, or be ".". Then the owner is refused where a share of the volume is
  not. `VolumeAccess.NoMoreExactlyWhenNamed` is the exact condition, `VolumeAccess.OddLabelOutdoesItsOwner` fails it for every
  other label, `VolumeAccess.BackslashAndDotOutdo` for `a\b`, `.` and `a/b`.
- A value that ends a line in a carriage return, or goes on with a blank line or one holding " = ", is not read back
  from a listing, nor is one that holds the separator's line: `ArchiveReadBack.PrintedExactly`.

## Model

| member | source | states |
|---|---|---|
| ForceSave.RunKeepsInv | backend/src/routes/onlyoffice.js:294-354 | in every state of every run the two maps are inverse to each other, every pending request still has its timeout, only automatic saves carry a follow-up, and no request was dispatched more than five times |
| ForceSave.StepKeepsInv | backend/src/routes/onlyoffice.js:356-415 | each event, whatever the answer and whichever id is drawn, keeps all of that |
| ForceSave.LateEventChangesNothing | backend/src/routes/onlyoffice.js:323-326 | a timeout, answer, retry or callback for a finished request changes neither map nor any timeout, also when its session has a newer request |
| ForceSave.FinishedOnce | backend/src/routes/onlyoffice.js:323-330 | a finished request is not pending again in any later state of the run |
| ForceSave.AcceptedCloseIsOwed | backend/src/routes/onlyoffice.js:1276-1299 | after the force-save route accepted a close, the session's pending request is a close or has one to follow |
| ForceSave.FollowUpTakesOver | backend/src/routes/onlyoffice.js:343-353 | when a save with a follow-up finishes, exactly one close request of the same session, key and path takes its place, never dispatched yet |
| ForceSave.OwedUntilFinished | backend/src/routes/onlyoffice.js:323-354 | a step that does not finish a close of the session leaves the close owed |
| ForceSave.CloseNeverLost | backend/src/routes/onlyoffice.js:1276-1299 | over any run, from acceptance to the state in which a close of that session finishes, the close is pending or follows the pending save |
| ForceSave.SessionEndOwes | backend/src/routes/onlyoffice.js:1200-1210 | after session-end the close is owed if and only if nothing was pending and there was something to flush, or what was pending was a close or carried one |
| ForceSave.UnowedUntilAsked | backend/src/routes/onlyoffice.js:323-415 | a close that is not owed is neither owed nor done after any step that is not a request of its session |
| ForceSave.JoinedCloseIsLost | backend/src/routes/onlyoffice.js:1200-1210 | where session-end joins an automatic save without a follow-up, the close is neither owed nor done in any later state until the session is asked for again |
| ForceSave.SessionEndCanLoseTheClose | backend/src/routes/onlyoffice.js:1200-1210 | such a run from the start, to the state in which nothing is pending |
| ForceSave.RankFalls | backend/src/routes/onlyoffice.js:356-415 | a measure of what can still happen to a session's request falls with every step about it and rises with none |
| ForceSave.ChainEnds | backend/src/routes/onlyoffice.js:343-415 | between two requests of its own a session sees at most thirty-three steps about its pending request |
| ForceSave.TimeoutsSettleClose | backend/src/routes/onlyoffice.js:295-300 | at most two timeouts, each armed at the time, finish an owed close |
| ForceSave.AnswerLeads | backend/src/routes/onlyoffice.js:374-407 | what an answer of the Document Server does to a pending request: at the first 404 it is posted under the old name; status 2xx with code 0 ends its chain and leaves it pending; code 4 arms the next of four retries; any other answer, and none, finishes it |
| ForceSave.LateAnswerLeads | backend/src/routes/onlyoffice.js:390-395 | for a finished request an answer ends the chain, or has it posted under the old name |
| ForceSave.DispatchLeads | backend/src/routes/onlyoffice.js:317-319 | a request is handed over at its turn and when a retry falls due, and counted |
| ForceSave.PendingUntilFinished | backend/src/routes/onlyoffice.js:323-354 | a request is pending until its timeout, an answer that finishes it, or a callback of its own that failed, or is of status 6 or 7, or of status 2 with a document; and what is left then, maps, timers and chains, with its close in its place if one was to follow |
| ForceSave.RequestsEnter | backend/src/routes/onlyoffice.js:1276-1305 | what the two routes do to maps, timers and chains: a new request as it was asked for, a close to follow the save it joined, or nothing |
| ForceSaveService.Service.Enqueue | backend/src/routes/onlyoffice.js:294-321 | the maps and timers after enqueueing are those of the protocol's step |
| ForceSaveService.Service.Finish | backend/src/routes/onlyoffice.js:323-354 | finishing changes the maps as the protocol says, follow-up included |
| ForceSaveService.Service.Answer | backend/src/routes/onlyoffice.js:367-414 | each answer reposts, ends, retries or finishes as the protocol says |
| ForceSaveService.Service.AnswerArrives | backend/src/routes/onlyoffice.js:367-414 | an answer takes the protocol's step and keeps its invariant |
| ForceSaveService.Service.ImmediateRuns | backend/src/routes/onlyoffice.js:317-319 | the first dispatch takes the protocol's step and keeps its invariant |
| ForceSaveService.Service.RetryTimerFires | backend/src/routes/onlyoffice.js:396-398 | so does a retry |
| ForceSaveService.Service.TimeoutRuns | backend/src/routes/onlyoffice.js:296-299 | so does a timeout |
| ForceSaveService.Service.CallbackRuns | backend/src/routes/onlyoffice.js:1422-1517 | so does a callback, for each of its ways to finish a request |
| ForceSaveService.Service.ForceSaveRouteRuns | backend/src/routes/onlyoffice.js:1276-1305 | the route's answer names a pending request of the session, says whether it was joined, and an accepted close is owed |
| ForceSaveService.Service.SessionEndRouteRuns | backend/src/routes/onlyoffice.js:1200-1213 | the route answers with the session's request exactly when there was something to flush |
| SearchMerge.MergeResults | backend/src/routes/search.js:577-633 | in whatever order the passes answer, draining ends; the results are items of the passes, each pass's in its order, no two share an identity and every identity any pass produced is there |
| SearchMerge.TakenFirst | backend/src/routes/search.js:601-623 | yielding an item of a new identity keeps all of that for what was taken so far |
| SearchMerge.TakenAgain | backend/src/routes/search.js:617-619 | dropping an item of a known identity keeps it too |
| SearchMerge.TakingOneLeavesLess | backend/src/routes/search.js:604-615 | each item taken leaves exactly one less to come, which is why draining ends |
| SearchMerge.IdentityIsThePath | backend/src/routes/search.js:235-249 | a result's identity is the path it was made from, so two results are alike exactly when they are one path |
| SearchMerge.NameAndFolder | backend/src/routes/search.js:235-240 | a result's name is what stands behind the last slash of its path, its folder what stands before it |
| SearchMerge.ExtractDirMatches | backend/src/routes/search.js:217-233 | the folders offered are exactly those that match and are reached without passing one the search does not enter |
| SearchMerge.BelowJoins | backend/src/routes/search.js:222-228 | the folders on the way are the base and the names, joined by slashes |
| SearchIndexStream.StreamIndexMatches | backend/src/routes/search.js:669-756 | for every timing: permitted, unclaimed, distinct paths in ranking order, at most `limit`, each with its row's score and with the line read from its file, or without one exactly if its read had not ended when the deadline fell; only permitted files are opened and never more than `readers` are being read, reads that nobody waits for any more included; alone, exactly what one row at a time gives when some rows are out of time, none of them concluded or read before the deadline fell, and a row is given if and only if it is placed, permitted, claimed neither at first nor by a row given before it, within the limit, and late or with a line found |
| SearchIndexWindow.Refill | backend/src/routes/search.js:711-727 | the window is filled up unless the rows ran out, leaves out only rows nothing would be given for, and once the deadline has fallen no file is opened: what is added is late from the start |
| SearchIndexWindow.Consider | backend/src/routes/search.js:713-725 | one row is passed over, added late without being opened, or opened and added, the last only while there is time |
| SearchIndexWindow.HeldThroughOpening | backend/src/routes/search.js:721-724 | opening a read while the window has room keeps the running reads within `readers` |
| SearchIndexWindow.HeldWithoutHead | backend/src/routes/search.js:732-733 | so does taking the head off, whether its read ended or lost to the deadline |
| SearchIndexStream.Turn | backend/src/routes/search.js:729-752 | one turn opens nothing and keeps the agreement with the one-row loop and the bound on reads, whatever falls due or is claimed while it waits or is suspended; the deadline is noted at the row where it falls |
| SearchIndexStream.AwaitHead | backend/src/routes/search.js:721-733 | the row at the head is out of time exactly if its read had not ended when the deadline fell, however late it is looked at |
| SearchIndexStream.Deliver | backend/src/routes/search.js:732-752 | the row at the head is concluded as late or not, and the window moves on |
| SearchIndexStream.Conclude | backend/src/routes/search.js:734-752 | the row at the head is given with its own path, score and line, or without a line if that is late; it is not given if its path is claimed or its line was looked for in vain; and that is what the one-row loop gives for it |
| SearchIndexRanking.TurnGivesExactly | backend/src/routes/search.js:729-752 | concluding a row behind skippable ones gives, of all rows up to it, exactly those |
| SearchIndexRanking.RowGiven | backend/src/routes/search.js:746-752 | one row more given leaves the rows before it as they were judged |
| SearchIndexRanking.RowPassedOver | backend/src/routes/search.js:734-746 | and so does one passed over |
| SearchIndexRanking.SkippedRows | backend/src/routes/search.js:717-720 | rows that are skipped, or come after the limit, change nothing in the one-row loop |
| SearchIndexRanking.TurnAgrees | backend/src/routes/search.js:729-752 | a row taken after a stretch of skippable ones is judged as the one-row loop judges it |
| SearchIndexWindow.WindowShifts | backend/src/routes/search.js:729-733 | taking the head off the window passes over nothing that would have been given |
| ArchiveTree.CollectDistinct | backend/src/services/archiveTree.js:60-208 | over the whole archive no two entries share a name, given sources of distinct slash-free names, and each entry is under its source's name |
| ArchiveTree.WalkDistinct | backend/src/services/archiveTree.js:83-172 | in a folder and everything below it names are distinct and lie in the folder, under a child not taken before |
| ArchiveTree.TriedFit | backend/src/services/archiveTree.js:116-124 | attempts that all gave taken names are no more than the taken names |
| ArchiveTree.SuffixedInjective | backend/src/services/archiveTree.js:116-118 | two attempts never give the same name |
| ArchiveTree.DecimalInjective | backend/src/services/archiveTree.js:118 | two numbers are never written alike |
| ArchiveTree.SplitAtLastDot | backend/src/services/archiveTree.js:35-39 | a name splits before its last dot, whatever dots come before |
| ArchiveTree.FirstFree | backend/src/services/archiveTree.js:117-124 | the attempt taken is free and every one before it was taken |
| ArchiveTree.ArchiveName | backend/src/services/archiveTree.js:109-125 | the readable name if it is free, and otherwise the first of its numbered forms that is |
| ArchiveTree.SuffixedExactly | backend/src/services/archiveTree.js:35-39 | the number goes before the last dot of a name, or at its end if it has none behind its first character |
| ArchiveTree.OwnNamesAreKept | backend/src/services/archiveTree.js:109-125 | in a folder where no two entries read the same, every one of them is listed under its own name |
| ArchiveTree.WalkCounts | backend/src/services/archiveTree.js:83-171 | counted as excluded are the entries the walk comes to that are not shown, as unreadable those that are shown and cannot be looked at or opened |
| ArchiveTree.CollectCounts | backend/src/services/archiveTree.js:174-207 | the same over all sources, one that does not open being unreadable |
| ArchiveTree.WalkListsTheShown | backend/src/services/archiveTree.js:126-171 | every shown entry is listed, in order, with its kind and size, and the byte total is that of the listed files |
| ArchiveTree.CollectListsTheShown | backend/src/services/archiveTree.js:174-207 | the same of the whole archive, source by source |
| ArchiveTree.ExcludedLeavesNoTrace | backend/src/services/archiveTree.js:133-144 | what lies under an excluded entry changes neither the entries, nor their names, nor any count |
| ArchiveTree.BlindForgets | backend/src/services/archiveTree.js:133-144 | of what the walk comes to in the tree it is compared with, nothing that is not shown holds anything |
| ArchiveTree.CollectExcludedLeavesNoTrace | backend/src/services/archiveTree.js:174-207 | nor anything in the whole archive |
| ArchiveCollector.ArchiveNameFor | backend/src/services/archiveTree.js:109-125 | the naming loop ends and gives the readable name or the first free suffixed one |
| ArchiveCollector.Collector.Visit | backend/src/services/archiveTree.js:126-171 | one child adds what the specification lists for it and nothing else |
| ArchiveCollector.Collector.Open | backend/src/services/archiveTree.js:83-97 | a folder that cannot be opened counts as one unreadable entry, any other adds what its walk lists |
| ArchiveCollector.Collector.Walk | backend/src/services/archiveTree.js:109-172 | so does a folder |
| ArchiveCollector.Collector.CollectAll | backend/src/services/archiveTree.js:174-207 | and the whole collection |
| ArchiveCollector.NoticeName | backend/src/services/archiveTree.js:239-246 | there is a note exactly when something was unreadable, under the first name of its own nothing answers to |
| ArchiveCollector.NoticeKeepsNamesDistinct | backend/src/services/archiveTree.js:271-275 | an archive with its note still holds no two entries of one name |
| ArchivePaths.EntryPathIsCanonical | backend/src/services/archiveBrowseService.js:107-121 | an answer has no empty, "." or ".." segment, no backslash and no drive first; exactly the paths of that form are answered with themselves |
| ArchivePaths.KeptInOrder | backend/src/services/archiveBrowseService.js:112-116 | what is kept of the segments are those that name something, all of them and in their order, so "./a/b" and "a//b" are both "a/b" |
| ArchivePaths.EntryPathExactly | backend/src/services/archiveBrowseService.js:107-121 | a place is these segments with a slash between them, if there are any, none climbs, and the first is not a drive |
| ArchivePaths.EntryPathIdempotent | backend/src/services/archiveBrowseService.js:107-121 | reading an answer again gives it again |
| ArchivePaths.RefusedExactly | backend/src/services/archiveBrowseService.js:112-120 | segments are refused exactly when one climbs, and none are left exactly when all are empty or "." |
| ArchivePaths.ReadEntryPath | backend/src/services/archiveBrowseService.js:107-121 | the loop computes the path so described |
| RelativePaths.NormalizedExactly | backend/src/utils/pathUtils.js:76-92 | what a path is read as is names with a slash between them, one more at the end perhaps, or "./"; and exactly such paths are read as they stand |
| RelativePaths.NormalizedTwice | backend/src/utils/pathUtils.js:76-92 | reading a path again changes nothing |
| RelativePaths.RefusedWhenClimbing | backend/src/utils/pathUtils.js:87-89 | a path is refused if and only if it is relative and, walked segment by segment, comes out above where it began |
| RelativePaths.ParentTakesBack | backend/src/utils/pathUtils.js:81 | going into a folder and up again may be left out of a path |
| RelativePaths.CombinedTidy | backend/src/utils/pathUtils.js:427-431 | combining two such paths puts the names of one behind those of the other |
| RelativePaths.SamePlace | backend/src/services/accessManager.js:92 | where such a path leads below a root depends on its names alone |
| ArchiveReadBack.PrintedRecordsAreRead | backend/src/services/archiveBrowseService.js:69-97 | records printed behind a header that holds no separator, and read from the whole output, are the same records, values with " = " on their first line or with line breaks included |
| ArchiveRecords.RecordsAreRead | backend/src/services/archiveBrowseService.js:76-96 | the same of the lines after the separator |
| ArchiveRecords.RecordIsRead | backend/src/services/archiveBrowseService.js:76-96 | a record's lines are read as one record, whatever follows |
| ArchiveRecords.FieldIsRead | backend/src/services/archiveBrowseService.js:84-92 | a field's lines put exactly its value under its key, whatever record they join and whatever follows |
| ArchiveReadBack.PrintedExactly | backend/src/services/archiveBrowseService.js:69-97 | any records of distinct keys, printed behind a header that holds no separator, are read back from the whole output as they were if and only if every field keeps its lines: none ends in a carriage return, is the separator or hides one, and each after the first is not blank and holds no " = " |
| ArchiveReadBack.LinesSeen | backend/src/services/archiveBrowseService.js:69-76 | which lines are read, whatever was printed: the printed ones, each cut at the separators in it |
| ArchiveReadBack.LinesGain | backend/src/services/archiveBrowseService.js:76-96 | whatever the lines, the records read hold no more characters than the lines can add |
| ArchiveReadBack.FieldGains | backend/src/services/archiveBrowseService.js:76-96 | the lines of a field can add no more than the field, and all of it only if the field keeps its lines |
| ArchiveReadBack.CutGains | backend/src/services/archiveBrowseService.js:40-76 | a line that hides a separator can add less than it is long |
| ArchiveReadBack.ReadBackExactly | backend/src/services/archiveBrowseService.js:76-96 | a field's lines are read as that field if and only if none of them ends in a carriage return and each after the first is not blank and holds no " = " |
| ArchiveReadBack.TrailingReturnIsLost | backend/src/services/archiveBrowseService.js:77 | a value that ends in a carriage return and is not read back |
| ArchiveRecords.FieldsMapHolds | backend/src/services/archiveBrowseService.js:90-92 | the record read holds each field under its key, when no key comes twice |
| ArchiveRecords.SeparatorIsLocal | backend/src/services/archiveBrowseService.js:40 | a separator is found in a text exactly where it is found in the lines it is made of |
| ArchiveRecords.PlainLineIsClean | backend/src/services/archiveBrowseService.js:40 | a line without terminators hides no separator unless it is one |
| ArchiveRecords.ReadLine | backend/src/services/archiveBrowseService.js:76-93 | one turn of the loop does what the specification says of the line |
| ArchiveRecords.ReadRecords | backend/src/services/archiveBrowseService.js:69-97 | the loop reads the records so specified |
| ArchiveListing.EveryRecordAccounted | backend/src/services/archiveBrowseService.js:139-160 | every record with a path is an entry at a canonical place or counted as outside |
| ArchiveListing.EntriesInOrder | backend/src/services/archiveBrowseService.js:124-160 | the entries are the records that name a place inside, all of them and in order, a folder by either of two marks, encrypted by one |
| ArchiveListing.DescribeEntries | backend/src/services/archiveBrowseService.js:139-160 | the loop gives those entries, in order, and that count |
| ArchiveListing.Browse | backend/src/services/archiveBrowseService.js:318-342 | a position is refused exactly when it names no place inside, answered exactly when an entry is it or lies in it, and the answer is that place's level |
| ArchiveLevels.EveryFileOnce | backend/src/services/archiveBrowseService.js:171-217 | browsing level by level reaches every file's own folder, which shows it as often as the listing does, and no other folder shows it |
| ArchiveLevels.FileAtItsParentOnly | backend/src/services/archiveBrowseService.js:183-194 | a level lists a file of the listing if and only if it is the file's folder |
| ArchiveLevels.EveryParentIsReachable | backend/src/services/archiveBrowseService.js:196-207 | every folder on the way to an entry is shown by the level above it |
| ArchiveLevels.FolderNamesExactly | backend/src/services/archiveBrowseService.js:188-207 | the folders shown are exactly the ones some entry implies |
| ArchiveLevels.ShownFoldersOpen | backend/src/services/archiveBrowseService.js:174-210 | a folder that is shown exists when opened, for an entry that is it or lies in it |
| ArchiveLevels.ReachableExists | backend/src/services/archiveBrowseService.js:174-210 | no path through the levels ends in an error |
| ArchiveLevels.RecordWins | backend/src/services/archiveBrowseService.js:188-207 | a folder's real record is what it shows as, wherever in the listing it stands |
| ArchiveLevels.FoldersGrow | backend/src/services/archiveBrowseService.js:188-207 | what one more entry changes in the folders of a level |
| ArchiveLevels.PrefixIsBelow | backend/src/services/archiveBrowseService.js:172-186 | a path starts with a folder's prefix exactly when its segments start with the folder's |
| ArchiveLevels.PlaceOf | backend/src/services/archiveBrowseService.js:178-197 | from the texts the loop finds out whether an entry is elsewhere, the folder itself, in it or deeper |
| ArchiveLevels.TakeEntry | backend/src/services/archiveBrowseService.js:177-207 | one turn of the loop keeps folders, files and existence those of the entries read so far |
| ArchiveLevels.LevelOf | backend/src/services/archiveBrowseService.js:171-217 | the loop cuts exactly that level out of the listing |
| CacheNames.CachedIsNotTemporary | backend/src/services/archiveCacheService.js:54-66 | no name is both a cached copy's and a temporary one |
| CacheNames.ComposedNames | backend/src/services/archiveCacheService.js:183-200 | the names the service composes are the ones its patterns know |
| CacheNames.NamesExactly | backend/src/services/archiveCacheService.js:54-66 | which names are cached copies', temporaries' and folders', letter by letter |
| ArchiveCache.CacheIsSafe | backend/src/services/archiveCacheService.js:118-218 | in every state of every run at most one job works on a copy, an inner archive in place is whole, nothing the sweep means to remove is being written, and every name it is kept off is some job's |
| ArchiveCache.RenameFindsTheCopy | backend/src/services/archiveCacheService.js:202-206 | the rename of a written copy always finds it, sweeps notwithstanding, and puts it in place whole, unless a tree that is not empty is there already: then the job fails and what there is of that tree stays |
| ArchiveCache.TreeIsWholeExactly | backend/src/services/archiveCacheService.js:269-276 | in every state of every run a tree in place is whole if and only if its removal has not begun since it was put there, or since the start if it was there whole |
| ArchiveCache.TreeAfterStep | backend/src/services/archiveCacheService.js:361-390 | only the unlinking of its entries and a rename onto it change a tree that stays in place |
| ArchiveCache.DiskAfter | backend/src/services/archiveCacheService.js:197-208 | what stands under any name after any event: only the event's own job, or the sweep, changes one |
| ArchiveCache.JobAfter | backend/src/services/archiveCacheService.js:197-212 | to which stage each event takes its job, and which names are kept off the sweep then; without room the job is over before it has a name |
| ArchiveCache.SettlingEnds | backend/src/services/archiveCacheService.js:212 | a settled job is nobody's to join any more and has the outcome it ended with |
| ArchiveCache.SweepGoesOn | backend/src/services/archiveCacheService.js:330-390 | what the sweep has listed and means to remove after each of its steps |
| ArchiveCache.SweepMayTake | backend/src/services/archiveCacheService.js:339-351 | what it may take of what it listed: cached copies, and temporaries no job holds |
| ArchiveCache.JobsGoOn | backend/src/services/archiveCacheService.js:194-217 | no job is ever stuck |
| ArchiveCache.AnsweredWithPartOfATree | backend/src/services/archiveCacheService.js:269-286 | a run in which a removal stops half way and a caller is answered with what is left of the tree |
| ArchiveCache.LateStartIsAnsweredNothing | backend/src/services/archiveCacheService.js:292-320 | a run in which a caller who looked before a tree was there is answered with nothing although the whole tree is in place |
| ArchiveCache.JoinedCallersAgree | backend/src/services/archiveCacheService.js:194-217 | all who joined one job are answered alike, about the copy they asked for, whenever each is answered |
| ArchiveCache.OutcomeIsRight | backend/src/services/archiveCacheService.js:194-217 | in every run, a job has the outcome of a success if and only if a rename of its own put its copy in place |
| ArchiveCache.JoinedAnswerIsRight | backend/src/services/archiveCacheService.js:194-217 | whoever joined a job is told of success if and only if that job had put the copy they asked for in place |
| ArchiveCache.PlacedExactly | backend/src/services/archiveCacheService.js:201-206 | what a job is known to have put in place is what a rename of its own put there earlier in the run |
| ArchiveCache.LookedTells | backend/src/services/archiveCacheService.js:186-192 | a caller who looked knows what was on disk at that look |
| ArchiveCache.GoingOn | backend/src/services/archiveCacheService.js:186-217 | a caller who found the copy is answered with it; any other waits for the job in flight on it, or for a new one |
| ArchiveCache.OutcomeStays | backend/src/services/archiveCacheService.js:194-217 | the outcome of a settled job never changes |
| ArchiveCache.StepKeepsInv | backend/src/services/archiveCacheService.js:288-349 | every step of a caller, a job or the sweep, each part of the removal of a tree among them, keeps the invariant behind these |
| ArchiveCache.RunKeepsInv | backend/src/services/archiveCacheService.js:288-349 | and so does every run |
| ArchiveCache.Service.Continue | backend/src/services/archiveCacheService.js:186-217 | after looking, a caller is answered, joins or starts a job as the step says |
| ArchiveCache.Service.StartWriting | backend/src/services/archiveCacheService.js:197-201 | reserving room either fails the job or gives it a live temporary name |
| ArchiveCache.Service.GiveUp | backend/src/services/archiveCacheService.js:207-212 | a failed job takes its temporary away, if that works, and lets go of the name |
| ArchiveCache.Service.ReleaseTemp | backend/src/services/archiveCacheService.js:210-212 | after the rename the temporary name is live no longer |
| ArchiveCache.Service.Settle | backend/src/services/archiveCacheService.js:213 | a settled job has its outcome and stops being shared |
| CacheSweep.SweepIsRight | backend/src/services/archiveCacheService.js:368-389 | survivors fit the budget and are not expired, the evicted were used no more recently than any survivor, keeping the last of them would not have fitted, and every entry is one of the three |
| CacheSweep.SurvivorsAreTheRest | backend/src/services/archiveCacheService.js:351-389 | a cached copy survives exactly when it is neither expired nor evicted |
| CacheSweep.ExcessIsLeast | backend/src/services/archiveCacheService.js:380-389 | no fewer evictions would have fitted |
| CacheSweep.Directory.RemoveAbandoned | backend/src/services/archiveCacheService.js:339-349 | exactly the temporaries go that are not live and were last written 3600000 milliseconds ago or earlier |
| CacheSweep.Directory.RemoveExpired | backend/src/services/archiveCacheService.js:367-378 | exactly the expired go and the others are handed on in order |
| CacheSweep.Directory.RemoveExcess | backend/src/services/archiveCacheService.js:380-389 | the least number from the front go for the rest to fit |
| CacheSweep.Directory.Sweep | backend/src/services/archiveCacheService.js:330-390 | what is left is the rest of the abandoned, expired and evicted; a cached copy stays exactly if it is a survivor; no other name is touched, and no live one |
| TokenFormat.ParsesExactly | backend/src/services/apiTokens.js:126-131 | a value parses to an id and a secret if and only if it is the value made of them and both are well formed |
| TokenFormat.WellFormedExactly | backend/src/services/apiTokens.js:126-131 | an id is sixteen hexadecimal digits, a secret forty-three characters of base64url |
| ApiTokens.WorksExactlyUntil | backend/src/services/apiTokens.js:288-318 | in every later state of every run a minted value authenticates as its account, id and scope if and only if it was not revoked since and is not past its expiry, and never as anything else |
| ApiTokens.NeverAgain | backend/src/services/apiTokens.js:235-259 | a token that stopped working never works again |
| ApiTokens.OnlyMintedValuesWork | backend/src/services/apiTokens.js:288-318 | whatever authenticates was minted in the run |
| ApiTokens.EverySecretWasMinted | backend/src/services/apiTokens.js:198-218 | every digest the table can match came from an insertion of that id |
| ApiTokens.LiveOrGone | backend/src/services/apiTokens.js:188-279 | after its insertion a token's row is as it was made until a revocation of it or its account, and a tombstone or nothing from then on |
| ApiTokens.CapHolds | backend/src/services/apiTokens.js:195-218 | an account whose mints overlap at most n deep never holds more than 49 + n live tokens |
| ApiTokens.EveryMintWasAsked | backend/src/services/apiTokens.js:188-195 | whatever waits to be inserted, at any moment of any run, has the account and scope somebody asked for, and no end or one that many times 86400000 milliseconds after the moment of asking, for one to 3650 whole days |
| ApiTokens.CheckExactly | backend/src/services/apiTokens.js:171-196 | a request for a token goes on if and only if its scope is one of the two, its life one that can be had, and the account holds fewer than fifty |
| ApiTokens.LivesAsAsked | backend/src/services/apiTokens.js:171-192 | in every run a token authenticates until its revocation, and no longer than the days it was asked for, from the moment of asking |
| ApiTokens.PurgeExactly | backend/src/services/apiTokens.js:274-279 | exactly the account's own tombstones older than ninety days go |
| ApiTokens.StepKeepsCapped | backend/src/services/apiTokens.js:195-218 | each step keeps live tokens and mints in progress within that bound |
| ApiTokens.OverlapPassesTheCap | backend/src/services/apiTokens.js:195-218 | a run with two mints in progress that ends with fifty-one live tokens |
| ApiTokenStore.Store.MintCheck | backend/src/services/apiTokens.js:188-196 | the check takes the step, with the expiry counted from before its await, and is passed exactly when a request is now in progress |
| ApiTokenStore.Store.MintInsert | backend/src/services/apiTokens.js:198-222 | the insertion takes the step and answers with a value that parses back |
| ApiTokenStore.Store.RenameToken | backend/src/services/apiTokens.js:224-233 | only the name of a live token of the account changes |
| ApiTokenStore.Store.RevokeToken | backend/src/services/apiTokens.js:244-259 | the account's live token of that id becomes a tombstone, or nothing happens |
| ApiTokenStore.Store.RevokeAllTokens | backend/src/services/apiTokens.js:262-271 | the account is left without live tokens, and the count says how many there were |
| ApiTokenStore.RevokeAllLeavesNone | backend/src/services/apiTokens.js:262-271 | revoking all leaves an account none, purge included |
| ApiTokenStore.Store.PurgeOldTombstones | backend/src/services/apiTokens.js:274-279 | exactly the account's tombstones past their season go |
| ApiTokenStore.Store.NoteUse | backend/src/services/apiTokens.js:335-342 | only the time of last use changes |
| ApiTokenStore.Store.AuthenticateToken | backend/src/services/apiTokens.js:288-318 | the checks in their order give the answer the runs speak of; a success is a row that is not revoked |
| TokenThrottles.ReportsAnHourApart | backend/src/services/apiTokens.js:362-381 | two reports of one id are an hour apart unless it was pushed out in between |
| TokenThrottles.ReportedExactly | backend/src/services/apiTokens.js:362-381 | over every run a refusal is reported if and only if each report of its id within the hour before it was undone by pushing the id out |
| TokenThrottles.StampsKeepQuiet | backend/src/services/apiTokens.js:364-366 | a stamp keeps its id quiet for an hour, one of the epoch itself not at all |
| TokenThrottles.PushedOutOnlyWhenFull | backend/src/services/apiTokens.js:368-377 | an id is pushed out only when five hundred ids, all stamped within the hour, are held, and it is the first of them |
| TokenThrottles.RunKeepsBound | backend/src/services/apiTokens.js:359-381 | the tracker never holds more than five hundred ids, each once |
| TokenThrottles.RefusalKeepsBound | backend/src/services/apiTokens.js:362-381 | one refusal keeps that bound |
| TokenThrottles.StampHolds | backend/src/services/apiTokens.js:362-381 | a report's stamp stands for its hour unless the id is pushed out |
| TokenThrottles.HeldInOrder | backend/src/services/apiTokens.js:362-381 | over every run the tracker holds its ids in the order in which they came to be held |
| TokenThrottles.HeldSince | backend/src/services/apiTokens.js:362-381 | an id that is held came in with a report and has been held ever since |
| TokenThrottles.PushedOutCameFirst | backend/src/services/apiTokens.js:373-377 | the id pushed out came to be held before every other id that is |
| TokenThrottles.OldestGoesExactly | backend/src/services/apiTokens.js:372-377 | no id held was reported longer ago than the one pushed out if and only if that one was not reported again, while held and with room left, later than the last report of some id still held |
| TokenThrottles.FirstSeenIsNotOldest | backend/src/services/apiTokens.js:372-377 | a run after which the id pushed out was reported more recently than one that stays |
| TokenThrottles.Throttles.ShouldReportRefusal | backend/src/services/apiTokens.js:362-381 | the method answers and changes the map as specified |
| TokenThrottles.Throttles.DeleteOld | backend/src/services/apiTokens.js:369-371 | exactly the stamps an hour old go, the others keep their order |
| TokenThrottles.WrittenExactly | backend/src/services/apiTokens.js:327-333 | over every run a use is written to the row if and only if no use of that token was written in the minute before it |
| TokenThrottles.WritesKeepQuiet | backend/src/services/apiTokens.js:327-331 | the same of the writes of uses, for a minute |
| TokenThrottles.LastWritten | backend/src/services/apiTokens.js:327-333 | the map holds for each token the moment of its last written use |
| ShareAccess.FirstRuleDecides | backend/src/services/accessControlService.js:37-59 | the first rule that covers the path and holds the caller decides, and with none the path may be written |
| ShareAccess.HeldExactly | backend/src/services/accessControlService.js:22-59 | an administrator is kept out where others are not if and only if the first rule on the path that holds administrators hides it and the first rule on the path is another one, which does not |
| ShareAccess.AdminsSkipRules | backend/src/services/accessControlService.js:22-26 | an administrator is answered as the rules that hold administrators, alone, would answer anybody |
| ShareAccess.ResolverLoop | backend/src/services/accessControlService.js:41-58 | the loop computes the rule that decides about the path as it is read, and nothing for one that climbs |
| ShareAccess.WritesExactly | backend/src/services/accessManager.js:324-354 | a share writes exactly when it was made to and its place may still be written, each further flag on its own switch besides; and who is told to be its owner is |
| ShareAccess.AllowedExactly | backend/src/services/accessManager.js:212-321 | the door of a share is passed if and only if it is named and not past its expiry and, shared with accounts, the caller's is on its list, or, shared with anyone, the caller has an account or came in as its guest, and where a password applies is its owner or its guest; access is had if and only if the place is open besides |
| ShareAccess.HiddenDenies | backend/src/services/accessManager.js:268-321 | a place that is hidden, or whose path is refused, denies everything to everybody |
| ShareAccess.RolesDoNotMatter | backend/src/services/accessManager.js:284-289 | the answer is the same whatever the caller's roles |
| ShareAccess.PasswordKeepsOut | backend/src/services/accessManager.js:227-256 | where a password applies, only the owner and a guest of this share get in |
| ShareAccess.Caches.LoadShare | backend/src/services/accessManager.js:383-390 | with or without the cache, the share the token names, and the cache stays right |
| ShareAccess.Caches.LoadVolume | backend/src/services/accessManager.js:296-301 | the same for an assigned volume |
| ShareAccess.Caches.ReadSourceLimits | backend/src/services/accessManager.js:268-321 | the limits of the place, whatever the caches hold |
| ShareAccess.Caches.GetShareAccess | backend/src/services/accessManager.js:392-408 | the answer is the decision, whatever the caches hold |
| ShareAccess.Caches.AskAll | backend/src/services/accessManager.js:370-408 | any questions sharing the caches are answered as each would be alone |
| VolumeAccess.ShareOfVolumeIsAnOrdinaryAccount | backend/src/services/accessManager.js:44-170 | a share of a place in the volume is answered exactly where an ordinary account is that goes there by its path, and writes exactly where that account does and the share was made to |
| VolumeAccess.ShareOfAssignedIsItsOwner | backend/src/services/accessManager.js:291-318 | with a label that names something, a share of a place in an assigned volume is answered exactly where its owner is, going there by its path, and writes exactly where the owner does and the share was made to; with one that climbs, both are refused; with any other, the owner's path does not lead into the volume |
| VolumeAccess.NoMoreExactlyWhenNamed | backend/src/services/userVolumesService.js:9-25 | every share of a volume of a label gives no more than its owner has if and only if the label names something (it is not "." or ".." and holds neither slash nor backslash) or is refused itself when read as a path |
| VolumeAccess.OddLabelOutdoesItsOwner | backend/src/services/userVolumesService.js:9-25 | for every other label, a share its owner opens and may write, at a place whose path refuses the owner |
| VolumeAccess.LabelsThatOutdo | backend/src/services/userVolumesService.js:9-25 | such labels are "." and every one with a slash or a backslash in it and no ".." between slashes |
| VolumeAccess.BackslashAndDotOutdo | backend/src/services/userVolumesService.js:9-25 | three of them, at one site each: `a\b`, `.` and `a/b` |
| VolumeAccess.WordsLead | backend/src/utils/pathUtils.js:493-526 | "volumes", "personal" where there are personal folders, and "share" with a token each lead into the space they name, with what follows |
| VolumeAccess.InsideSharesIsTidy | backend/src/utils/pathUtils.js:511-525 | however the path to a share is spelled, what follows its token is a path of names |
| VolumeAccess.OnlyAssigned | backend/src/services/accessManager.js:84-126 | with assigned volumes an ordinary account reaches nothing outside them and writes in none that is read-only |
| VolumeAccess.VolumeOpensExactly | backend/src/services/accessManager.js:63-170 | who may open a place in the volume and who may write there: nobody without an account, an ordinary one of a site with assigned volumes only in one of its own, everybody else wherever the rules let them |
| VolumeAccess.SpacesAnswer | backend/src/services/accessManager.js:44-58 | a path is answered by the space it leads to; one's own space to any account, a share to whom it lets in |
| VolumeAccess.OtherNamesLead | backend/src/utils/pathUtils.js:497-529 | a path whose first name is none of the three words is one in the volume, "personal" too where there are no personal folders |
| VolumeAccess.WordsAlone | backend/src/utils/pathUtils.js:507-517 | "volumes" and "share" with nothing behind them are folders of the volume |
| VolumeAccess.FoundByLabel | backend/src/services/userVolumesService.js:67-90 | the volume found by its label is the account's only one of that label |
| VolumeAccess.OddLabelIsNeverFound | backend/src/services/userVolumesService.js:67-90 | no path at all leads to a volume whose label names nothing, but for "." by a path that comes to "./" |
| VolumeAccess.PartsOfLogicalPath | backend/src/services/accessManager.js:313 | below a label that names something, a place in a volume is taken apart into the label and that place |
| VolumeAccess.AdministratorCanBeHeldWhereOthersPass | backend/src/services/accessManager.js:145-152 | two rules under which an administrator is refused what an ordinary account may open |
| VolumeAccess.AdministratorIsHeldExactly | backend/src/services/accessManager.js:128-152 | for all rules and paths: an administrator is refused as hidden what an ordinary account may open if and only if the first rule on the path that holds administrators hides it and an earlier first rule on the path does not |
| CssEscape.EscapedIsConsumedWhole | frontend/vitest.setup.js:88-132 | any text, escaped, is consumed whole as one identifier and gives itself back with each NUL turned into U+FFFD |
| CssEscape.EscapedStartsIdent | frontend/vitest.setup.js:88-132 | an escaped text starts an identifier if and only if it was not empty |
| CssEscape.EscapeInjective | frontend/vitest.setup.js:88-132 | two texts are escaped alike exactly when they differ in nothing but NUL against U+FFFD |
| CssEscape.NothingToPreprocess | frontend/vitest.setup.js:96-108 | nothing is left that the preprocessing of section 3.3 of CSS Syntax Level 3 would change |
| CssEscape.UnitIsConsumed | frontend/vitest.setup.js:96-129 | what one unit is escaped to is consumed as that unit, whatever follows it |
| CssEscape.EscapedByKind | frontend/vitest.setup.js:93-129 | what becomes of each unit, by its number and place: NUL becomes U+FFFD, control characters and a digit in front are written in hexadecimal, letters, digits, hyphen, underscore and everything beyond ASCII stay, and the rest gets a backslash |
| CssEscape.EscapeOne | frontend/vitest.setup.js:93-129 | one turn of the loop appends the serialisation of the unit at the index |
| CssEscape.EscapeLoop | frontend/vitest.setup.js:88-132 | the loop computes the escape |
| VersionText.RewrittenSegments | scripts/version.js:56-57 | for a plain three-number version the rewritten text has a mention of that version, with the suffix the one before had, where a mention was, and the same character where one was |
| VersionText.TripleExactly | scripts/version.js:38 | a version is three texts of digits with dots between them |
| VersionText.MentionsExactly | scripts/version.js:38 | a text begins with a mention if and only if it begins with a version between backticks, "-lean" behind it or not |
| VersionText.SegmentsExactly | scripts/version.js:38 | read from the left, a segment is the mention that begins there, and a character where none does |
| VersionText.RewriteSettles | scripts/version.js:47-57 | rewriting leaves nothing stale, a second time changes nothing, and it changes nothing exactly when nothing was stale |
| VersionText.SettlesExactlyForTriples | scripts/version.js:28-57 | rewriting leaves nothing stale in every text if and only if the version is three plain numbers |
| VersionText.RewriteIsReplaceAll | scripts/version.js:56-57 | rewriting is replacing every mention of the text's decomposition |
| VersionText.FlattenSegments | scripts/version.js:38 | a text is its mentions and the characters outside them |
| VersionText.StaysPlain | scripts/version.js:38 | rewriting what follows makes no mention of a character that began none |
| VersionText.StaleVersionMentions | scripts/version.js:47-53 | the loop collects exactly the mentioned versions that are not the one given |
| ActivityLog.Log.ReadToTheEnd | backend/src/services/activityLog.js:140-200 | following the cursor ends and returns what draining the rows of the first moment returns, whatever was recorded meanwhile |
| ActivityLog.DrainComplete | backend/src/services/activityLog.js:164-198 | every row comes back if and only if no page ends between two rows of one moment |
| ActivityLog.DistinctMomentsCutClean | backend/src/services/activityLog.js:164-198 | so every row comes back, whatever the page size, when no two share a moment |
| ActivityLog.DrainIsInOrder | backend/src/services/activityLog.js:164-198 | no row comes twice, nothing comes that was not there, newest first |
| ActivityLog.TiesCanBeLost | backend/src/services/activityLog.js:164-167 | two rows of one moment of which one is never returned |
| ActivityLog.RecordingDisturbsNothing | backend/src/services/activityLog.js:164-167 | rows recorded since do not change a page asked for through the cursor |
| ActivityLog.NextPage | backend/src/services/activityLog.js:164-198 | the next page is the next piece of what was there at first |
| ActivityLog.MatchingInOrder | backend/src/services/activityLog.js:145-176 | the query selects exactly the rows that match and are older than the cursor, in order |
| ActivityLog.SingleFilters | backend/src/services/activityLog.js:142-171 | what a filter of one field holds, for each of the six fields: the rows with just that, older than the cursor |
| ActivityLog.FiltersTogether | backend/src/services/activityLog.js:142-178 | several fields together hold what each of them holds |
| ActivityLog.PageHolds | backend/src/services/activityLog.js:174-198 | a page has as many rows as asked for, fifty if none, one at least and five hundred at most, and a cursor exactly if there are more |
| ActivityLog.EnoughForAPage | backend/src/services/activityLog.js:169-179 | one row more than the page is enough to know it and whether there is another |
| ActivityLog.Log.Record | backend/src/services/activityLog.js:97-132 | a recorded row is the newest and the table stays in order |
| ActivityLog.Log.Read | backend/src/services/activityLog.js:140-200 | one page and its cursor, reading one row more than the page at most |
| Retention.RemovedExactly | scripts/prune-dockerhub.js:131-149 | a tag is removed if and only if more releases are listed than kept, it is not protected, its release is not kept, and, if it is a commit's, it shares no digest with a kept tag; no other shape is |
| Retention.NewestStay | scripts/prune-dockerhub.js:110-152 | the newest releases and the current version stay in every spelling |
| Retention.RemovedIsNoNewer | scripts/prune-dockerhub.js:117-118 | every removed release is no newer than each of the newest kept |
| Retention.DecidingAgainRemovesNothing | scripts/prune-dockerhub.js:110-152 | deciding again on the survivors removes nothing if and only if the count is not negative, or it keeps nothing, or is minus one and the current version is the release left off or the last kept, or keeps one release which is the current version |
| Retention.SettledExactly | scripts/prune-dockerhub.js:117-122 | for a negative count those are exactly the cases in which no surviving release but the current one is left off again |
| Retention.NegativeCountGoesOn | scripts/prune-dockerhub.js:118 | with a negative count and no version every decision takes more while more is listed than it leaves off |
| Retention.TwoReleasesBothGo | scripts/prune-dockerhub.js:118 | two releases that two decisions both take |
| Retention.SurvivorsKeepTheSame | scripts/prune-dockerhub.js:110-152 | with a count that is not negative the survivors have the same newest releases and keep the same |
| Retention.SurvivorsInOrder | scripts/prune-dockerhub.js:117 | the survivors order as before, without what went |
| Retention.SortDropped | scripts/prune-dockerhub.js:57-64 | dropping releases before the sort and after it come to the same |
| Retention.ReleasesDistinct | scripts/prune-dockerhub.js:111-115 | each release is found once, whatever spellings it is listed under |
| Retention.SpellingsAgree | scripts/prune-dockerhub.js:43-55 | a version, with "v", with "-lean" and with both is one release |
| Retention.ReleaseExactly | scripts/prune-dockerhub.js:43-55 | a tag is of a release if and only if it is its three numbers, "v" before them or "-lean" behind them or both |
| Retention.CommitExactly | scripts/prune-dockerhub.js:44 | a commit's tag is "sha-" and forty hexadecimal digits, "-lean" behind them or not |
| Retention.NoOlderExactly | scripts/prune-dockerhub.js:57-64 | one release may stand before another unless the other is greater at the first number where they differ |
| Retention.ComparedAsNumbers | scripts/prune-dockerhub.js:54 | numbers are compared as numbers: of two versions that differ in one, the greater is newer however it is written |
| Retention.NewestAreGreatest | scripts/prune-dockerhub.js:117-118 | the newest kept are the greatest of all listed |
| Retention.CountKeeps | scripts/prune-dockerhub.js:118 | a count keeps that many from the front, a negative one all but that many at the end |
| Retention.KeptInWords | scripts/prune-dockerhub.js:118-122 | a number is kept if it is one of the newest or the current version, when one is given |
| Retention.LatestStays | scripts/prune-dockerhub.js:140-143 | "latest" and "latest-lean" are never removed, and of the releases not kept every tag is |
| Retention.CommitsGoWithTheirImage | scripts/prune-dockerhub.js:131-146 | a commit's tag stays if and only if a tag that stays for its own name shares its digest |
| Text.NumberOfDecimal | scripts/prune-dockerhub.js:54 | a number is read back as it is written |
| Text.LeadingZero | scripts/prune-dockerhub.js:54 | zeros before it change nothing |
| Retention.Decide | scripts/prune-dockerhub.js:110-152 | the decision taken from the listing alone is the one specified |

## Left out

- ForceSave.SessionEndOwes: states what session-end does, which is less than the route's comment promises; the promise itself does not hold.
- ApiTokens.CapHolds: the cap is stated with the overlap of mints in it, because the code only checks it before an await.
- ArchiveReadBack.PrintedExactly: asks that the header hides no separator and that a record's keys are its own, not empty, and without "=" or a line break, as 7-Zip's are.
- VolumeAccess.ShareOfAssignedIsItsOwner: takes labels as not empty, none of the three words kept for spaces, and distinct per account, which is checked whenever one is set, and the stored path of a share as the path helpers leave it.
- VolumeAccess.GetAccessInfo: which absolute paths lie in a personal folder is a given predicate; a path that is refused counts as an answer, where the code throws.
- ActivityLog.Log.Record: takes the clock as never going back and row numbers as growing; limits are whole numbers; filters naming an unknown action or outcome, which the query ignores, are taken as not given.
- CacheSweep.Directory.Sweep: every removal succeeds and nobody writes meanwhile; what a sweep may do beside running jobs, and removals that stop half way, are in ArchiveCache. Times are whole milliseconds.
- SearchMerge.MergeResults: drains the passes; a consumer that stops early and the closing of the generators are not modelled.
- SearchMerge.ExtractDirMatches: takes the folder part of the path already split, its empty segments gone.
- ArchiveLevels.LevelOf: folders are a map and files a sequence in listing order; the final sort by locale is not modelled.
- ArchiveTree.CollectDistinct: children come in the order the listing sorts them by locale, which is taken as given, as are the readable names and the answers about what is visible.
- Retention.Decide: version numbers are unbounded, where JavaScript numbers lose precision beyond 2^53.
- VersionText.SettlesExactlyForTriples: for versions without a backtick, which the script's own check of its argument assures.
- CssEscape.EscapedIsConsumedWhole: units at or above 0x80, surrogates among them, are opaque.
- Randomness: request ids, token ids, secrets and temporary names (process id and time) are taken as fresh; SHA-256 tells secrets apart.
- What a 7-Zip record says of sizes and dates, the header block, the count of reads per archive, and keys such as `__proto__` that JavaScript objects treat specially.
- Which errors of the file system are rethrown rather than counted as unreadable; reading a link's target.
- Where a personal space lies on disk, and the checks of spelling on disk: single-branch decisions.
- Cleaning of token names, the shape shown to owners, and the log lines around them.
- The passes of the search that read files and documents, and ripgrep; the sweep and clearing of the activity log.
- HTTP, sessions, signing, calls to the Document Server, child processes, SQLite and the file system appear only as events and outcomes. `placeWithoutOverwrite`, `ensureStorageAvailable` and the WOPI lock service are not part of this model.
- Sign-in, passkeys and OIDC, configuration, and the frontend beyond the escape loop.
