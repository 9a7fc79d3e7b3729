# A verified model of patchwork

Patchwork receives the patches of a mailing list as mails, puts them together into series, and
announces what has happened through events. This project models its database-backed core in Dafny
and proves what that core is for. A table is a map from its key; the text of SQL is not modelled,
but what a query may return is: a `SELECT ... ORDER BY ... LIMIT 1` is a predicate on rows, so that
rows that tie may each be returned, and every theorem holds for each choice.

## What is modelled

**Mail ingest** (`Tables`, `Ingest`, `SeriesInvariant`, `Lookups`, `LatestSeries`, `Links`, `Completion`,
`CompletedTwice`, `StepEffects`, `Records`, `Threads`, `Confluence`, `Parser`). One mail is one step on the
tables `series`, `series_reference`, `patch`, `cover` and the event queue. `Ingest` gives a step as a
function; class `Parser.Parser` is the code with its fields, loops and updates, each method proved equal to
its part of the step, and `Parser.IngestAll` ingests any list of mails. Main results: a thread ends in one
and the same series in every arrival order, with repeated mails and unrelated ones in between; a mail goes
to the series that ranks first, and its series is linked to the previous version whenever that can be told;
at every moment the `patch-completed` events of a series are those of its longest filled prefix, in order;
`series-completed` is emitted exactly once when all numbers are in range, and it is proved how often on all
other runs; every message is recorded once, as its first mail said; slots, references and identities never
change once stored; links to the previous version form no cycle.

**Splitting a mail into patch and comment** (`Lines`, `DiffScan`, `HunkHeaders`, `ParsePatch`, `DiffOrder`,
`DiffDisorder`, `DiffGrammar`, `DiffRoundTrip`, `PlainMails`). `DiffScan` is the eight-state machine over
line numbers, `ParsePatch.ParsePatch` the loop over strings with its three buffers. Main results: no line is
lost or duplicated; a line is a hunk header exactly if it has the shape that diff prints, and is read as its
counts; a well-formed diff between plain text and a trailer comes back unchanged, but for files without
hunks at its end that the machine never flushes; a mail without a diff has no patch; both outputs are in
input order unless two branches of the machine are taken in certain ways, and mails for which they are not.

**Similarity of names** (`Subsequence`, `Similarity`, `Names`). The two rolling rows compute the length of a
longest common subsequence; the ratio lies in 0..1, is symmetric, and is 1 only for equal strings. Names are
compared without prefixes in brackets, without case, and with their words one space apart.

**Relations between patches** (`Relations`, `RelationGroups`, `RelatedPatches`). `updateRelated` as a
change of two tables in one transaction, and the loading of the related patches of a page.

**Events and webhooks** (`Outbox`, `Requests`, `EventBus`, `BusFailures`). The handle that holds events back until
the commit, for any interleaving of any number of handles; the middleware and the mail handling that
end transactions; and the webhook pool as a concurrent protocol of senders, four workers and callers
of `Shutdown`, with exact conditions for its failures and runs that lead to each.

**Migrations** (`Migrations`, `MigrationRuns`), **export** (`CopyFormat`, `Export`, `Batches`),
**API versions** (`Versioning`), **tag counts** (`TagCounts`) and **paging** (`Paging`).

`Wrappers` holds an option type and the two ends of a sequence, `FiniteSets` facts about finite sets of
numbers, and `Decimals` numbers as text.

## What the proofs found

- `series-completed` may be emitted more than once: exactly once more for each diff mail that is stored
  at a series which already held at least its total of patches (`Completion.CompletionsOfRun`,
  `Completion.AtMostOnceUnlessRepeated`). Such a mail may have number 0, a number above the total
  (`Completion.SeriesCompletedTwice`), or, when the total was reached through a number above it, a
  number in range (`CompletedTwice.InRangeMailCompletesAgain`).
- Two branches of `ParsePatch` write a line past lines that are held back: that for a no-newline marker
  behind a finished hunk, and that for plain text behind a binary patch. Order is lost exactly when the
  held lines then go to the same output (`DiffOrder.OrderIsKeptUnlessPassed`; the mails of
  `DiffDisorder.MarkerOvertakes` and `DiffDisorder.TextOvertakes`).
- A patch without a group that is listed as related to itself alone gets a group of one:
  `RelationGroups.JoinKeepsWellFormed` and `RelationGroups.RelatedToItself`.
- Of the files without hunks at the end of a diff (renames, mode changes), those behind the last file that
  has hunks or two extended headers go to the comment: the whole diff is in the patch if and only if its
  last file has one of these (`DiffRoundTrip.WholeDiffIsPatch`).
- A diff that ends in a binary patch has no trailer: whatever stands behind it goes to the patch
  (`PlainMails.BinaryTakesTheRest`). Of a trailer whose first line starts with three dashes and a space,
  that line goes to the patch and the rest to the comment (`PlainMails.DashesAreTaken`).
- A webhook worker that fails on an item is gone for good, and the item is lost
  (`BusFailures.ItemIsLost`). `Shutdown` leaves items in the channel exactly when all four have failed and
  more was sent than was processed and failed on (`BusFailures.LeftWhenAllFailed`,
  `BusFailures.ItemIsLeft`).
- `Shutdown` closes the channel while senders are not kept from it: a send panics exactly from the close
  until the field is set to nil, and hangs afterwards (`EventBus.SendDuringShutdown`,
  `BusFailures.SendPanics`). In cmd/pw/http/main.go:40-79 `Serve` returns as soon as the server is told to
  shut down, and the deferred `bus.Shutdown` closes the channel while handlers may still be running.
- Stripping a response for an API version panics on a newer field of a struct that is held by an interface
  or a map. There is no version for which it does if and only if every tagged field can be set or has one
  as new or newer above it (`Versioning.NeverPanics`), and stripping for two versions is then stripping for
  the older one (`Versioning.TwiceIsOnce`); otherwise it is not where the first walk panics and the one for
  the older version does not (`Versioning.StripTwice`, `Versioning.StripTwiceFails`). No response of the API
  has such a field: the one `any` among the response types is the payload of an event
  (pkg/api/types.go:254), which holds maps of plain values without tags (pkg/api/events.go:118), and the
  other maps hold numbers and strings.

## Model

| member | source | states |
|---|---|---|
| `Tables.FoundMeaning` | pkg/db/series.go:74-130 | `FindSeries` returns a series exactly when one with free slot, same project, version, total and a date within 20 minutes is led to by a reference or the submitter, and what it returns is such a series |
| `Tables.FoundExists` | pkg/db/series.go:94-126 | whenever a tier has rows, one of them is the first in the tier's ordering |
| `Lookups.FoundIsRanked` | pkg/db/series.go:74-130 | what the query may return is, told from the rows: the latest fitting series that the mail's own id leads to, else the latest that another of the ids leads to, else the latest of the same submitter, else none; and it may return each that ties |
| `Lookups.MailGoesToRanked` | pkg/mail/series.go:28-61 | a stored mail goes to the series that ranks first so in the tables before it |
| `LatestSeries.JoinsTheLater` | pkg/db/series.go:119-129 | of two open series by one author, minutes apart, a patch that fits both joins the later one, and no other run of such three mails is possible |
| `LatestSeries.ThirdMailJoinsTheLater` | pkg/db/series.go:119-129 | such a run: "[PATCH 1/2]", another "[PATCH 1/2]" five minutes later, and "[PATCH 2/2]" |
| `Tables.MembersAreSlots` | pkg/db/patch.go:69-98 | counting the patches of a series, or those below a number, is counting taken slots, because no two patches share one |
| `FiniteSets.Pigeonhole` | pkg/mail/event.go:78-81 | exactly k-1 distinct positive numbers lie below k if and only if 1..k-1 are all there |
| `SeriesInvariant.StepKeepsInvariant` | pkg/mail/patch.go:17-73 | every mail keeps ids fresh, references and links resolved, slots unique, members in their series' project and within 20 minutes of its date; and nothing stored is dropped or redirected |
| `SeriesInvariant.RunKeepsInvariant` | pkg/mail/parser.go:171-245 | the same over any run of mails |
| `SeriesInvariant.ReferencesAreStable` | pkg/db/series.go:145-155 | a (project, message id) reference keeps pointing to the same series of its project for the rest of any run |
| `SeriesInvariant.NumberedDiffKeepsItsSlot` | pkg/mail/series.go:28-95 | a numbered diff takes the slot of its number, in a series of its own project, version and total, and keeps it for the rest of any run |
| `SeriesInvariant.MembersOfOneSeries` | pkg/db/series.go:81-94 | after any run, two members of a series share its project, have different numbers and are at most 40 minutes apart |
| `SeriesInvariant.ChosenLinkIsOk` | pkg/mail/series.go:187-269 | whatever previous series is chosen, it has the same project and submitter and the version just below |
| `SeriesInvariant.ChainDescends` | pkg/mail/series.go:192-220 | following previous-series links, the version falls by one with every link, so a chain from version v has at most v-1 links |
| `SeriesInvariant.ChainsAreAcyclic` | pkg/mail/series.go:212-215 | after any run, no chain of previous-series links comes back to a series it has passed |
| `Links.LinkIsMade` | pkg/mail/series.go:187-269 | a stored mail of version 2 or above links its series to the one of the same author and the version below that the first suitable reference leads to, else to the one with the most similar name of at least 0.8 and the latest of those, else it leaves the link as it was; a mail of version 1 leaves it |
| `Links.RepostIsLinked` | pkg/mail/series.go:222-268 | the next version of a series, sent under the same name and without references, is linked to a series whose name is as like it as can be, and not to an earlier one |
| `Records.RunRecordsFirstMails` | pkg/mail/patch.go:29-51 | after any run each mail is there as a patch or a cover, each of these has the columns of the first mail of its message id in its project, and no message is there twice |
| `Records.RunCreatesOnce` | pkg/mail/event.go:32-51 | after any run `patch-created`, `cover-created` and `series-created` have been emitted once for each row and for nothing else |
| `Completion.StepKeepsPrefix` | pkg/mail/event.go:69-105 | a mail that finds the `patch-completed` events of a series equal to its longest filled prefix 1..p, in order, leaves them so |
| `Completion.RunAnnouncesPrefixes` | pkg/mail/event.go:69-105 | after any run every series has emitted `patch-completed` exactly once per patch of its longest filled prefix, in ascending order of number |
| `Completion.CompletingIsHolding` | pkg/mail/event.go:107-124 | the count that the code reads after a diff mail can be told before it: the patches of the series, and this one if it is numbered, reach a positive total |
| `Completion.SeriesCompletedCount` | pkg/mail/event.go:107-124 | over any run `series-completed` is emitted exactly by the stored diff mails for which that can be told |
| `Completion.SeriesCompletedOnce` | pkg/mail/event.go:107-124 | when all diff mails matched to a series have numbers in 1..total, it is emitted once if all slots are filled and not at all otherwise |
| `Completion.LastMailAnnouncesLastPatch` | pkg/mail/patch.go:58-64 | the mail that fills the last free slot emits `series-completed`, and with it `patch-completed` for the patch with number total |
| `Completion.StepCompletions` | pkg/mail/event.go:107-124 | a mail emits the event when the series comes to hold its total, and when a diff is stored at it although it already did |
| `Completion.CompletionsOfRun` | pkg/mail/event.go:107-124 | after any run the event has come once if the series holds its total, and once more for each diff mail stored at it when it already did |
| `Completion.RunKeepsTold` | pkg/mail/event.go:107-124 | after any run it has been emitted exactly for the series that hold their total |
| `Completion.AtMostOnceUnlessRepeated` | pkg/mail/event.go:107-124 | it is emitted at most once over a run if and only if no diff mail is stored at the series when that already holds its total |
| `Completion.FullSeriesCompletesAgain` | pkg/mail/event.go:112-123 | a diff mail stored at a series that holds its total emits the event once more; if the slots are exactly 1..total its number is 0 or above the total |
| `Completion.SeriesCompletedTwice` | pkg/mail/event.go:107-124 | two mails, "[PATCH 1/1]" and a reply "[PATCH 0/1]" with a diff, for which it is emitted twice |
| `CompletedTwice.InRangeMailCompletesAgain` | pkg/mail/event.go:107-124 | three mails, "[PATCH 1/2]", "[PATCH 3/2]" and "[PATCH 2/2]", of which the second and the third emit it |
| `CompletedTwice.CompletesTwice` | pkg/mail/event.go:107-124 | so do any three such mails, whatever their ids, authors and subjects |
| `StepEffects.StepGoes` | pkg/mail/series.go:28-95 | a stored mail changes or adds one series, adds references to that series only and one row of its own, and leaves all else as it is |
| `StepEffects.RefsAfter` | pkg/mail/series.go:63-67 | a patch leaves its own id and those it refers to as references, a cover its own id if it opened the series; an id that led somewhere before keeps leading there |
| `StepEffects.NameAfterCover` | pkg/mail/cover.go:79-87 | a cover names a series that has no name or that of its patch 1, and leaves any other name |
| `Threads.NextFinds` | pkg/mail/series.go:28-61 | the first mail of a thread opens a series, and every later one finds that series, in whatever order they come and whatever unrelated mails came in between |
| `Threads.CoverGetsItsName` | pkg/mail/cover.go:79-87 | a cover names its series whether it comes before or after patch 1 |
| `Threads.OwnKeeps` | pkg/mail/cover.go:41-87 | a mail of the thread joins the thread's series, or changes nothing if it came before |
| `Threads.ForeignKeeps` | pkg/db/series.go:74-130 | an unrelated mail neither gets into the thread's series nor leaves a series that could take a mail of the thread |
| `Confluence.Confluence` | pkg/mail/cover.go:41-87 | from tables without a competing series, every run that delivers a cover and its patches, in any order, each once or more, with unrelated mails in between, ends with one new series that holds exactly these patches in their slots, that cover and the stripped cover subject as name; without other mails it is the only new series |
| `Confluence.EveryOrderAnnouncesTheSame` | pkg/mail/event.go:69-124 | and for a complete thread every such run emits `patch-completed` for patches 1..total in order and `series-completed` once |
| `Confluence.AnnouncedAfterAnyRun` | pkg/mail/event.go:69-124 | what that theorem asks of the events holds of all tables that mails have led to |
| `Confluence.EveryOrderAfterAnyRun` | pkg/mail/event.go:69-124 | so every such run of a complete thread announces the same, whatever mails came before |
| `Parser.Parser.FindSeries` | pkg/db/series.go:74-130 | the query with its two tiers returns a series that ranks first, told from the rows |
| `Parser.Parser.FindPreviousSeriesByName` | pkg/db/series.go:132-143 | the candidates of that project, submitter and version, latest first |
| `Parser.Parser.GetSuccessorPatches` | pkg/db/patch.go:76-84 | the patches of the series with a larger number, in strictly ascending order |
| `Parser.Parser.CreateSeriesReference` | pkg/db/series.go:145-155 | stores the reference unless the key is taken |
| `Parser.Parser.AssignPatchToSeries` | pkg/mail/series.go:72-95 | the patch takes its slot and patch 1 names a series without a name |
| `Parser.Parser.AssignSeries` | pkg/mail/series.go:28-70 | finds or creates the series, stores all references and assigns the patch, as the step says |
| `Parser.Parser.CreatePatchCompletedEvent` | pkg/mail/event.go:69-105 | emits the events of the run of filled slots from the patch on, or none when a predecessor is missing |
| `Parser.Parser.AnnounceSuccessors` | pkg/mail/event.go:89-104 | the loop stops exactly at the first gap |
| `Parser.Parser.CreateSeriesCompletedEvent` | pkg/mail/event.go:107-124 | emits the event when the count has reached a positive total |
| `Parser.Parser.LinkPreviousSeries` | pkg/mail/series.go:187-269 | links the series that the first suitable reference leads to, or else the one with the most similar name of at least 0.8, told from the tables afterwards |
| `Parser.Parser.BestOf` | pkg/mail/series.go:240-256 | the loop keeps the highest score, and the latest candidate among equal ones |
| `Parser.Parser.HandlePatch` | pkg/mail/patch.go:17-73 | a patch mail changes the tables as one allowed step, a duplicate changes nothing |
| `Parser.Parser.RenameFromCover` | pkg/mail/cover.go:79-87 | the cover renames a series that has no name or still has the name of patch 1 |
| `Parser.Parser.HandleCoverLetter` | pkg/mail/cover.go:17-98 | a cover mail changes the tables as one allowed step, a duplicate changes nothing |
| `Parser.IngestAll` | pkg/mail/parser.go:127-245 | any list of mails, taken in one after the other, is a run of allowed steps that keeps the invariant |
| `Subsequence.NoneLonger` | pkg/mail/similarity.go:33-58 | no common subsequence is longer than the recurrence says |
| `Subsequence.Longest` | pkg/mail/similarity.go:33-58 | a common subsequence of that length exists |
| `Subsequence.LcsLenIsLongest` | pkg/mail/similarity.go:33-58 | so the recurrence gives the length of a longest common subsequence |
| `Subsequence.LcsSymmetric` | pkg/mail/similarity.go:33-58 | the length does not depend on the order of the two strings |
| `Similarity.FillRow` | pkg/mail/similarity.go:40-49 | the inner loop turns the table's row i-1 into row i |
| `Similarity.LongestCommonSubsequenceLen` | pkg/mail/similarity.go:33-58 | the two rolling rows with swap and reset return the length of a longest common subsequence: one of that length exists and none is longer |
| `Similarity.SequenceMatcherRatio` | pkg/mail/similarity.go:21-31 | returns twice that length over the sum of the lengths, and 1 for equal strings |
| `Similarity.RatioBoundsMatches` | pkg/mail/similarity.go:29-30 | no common subsequence accounts for a larger share of the two strings than the ratio says |
| `Similarity.RatioIsAttained` | pkg/mail/similarity.go:29-30 | and one accounts for exactly that share |
| `Similarity.RatioIsSimilarity` | pkg/mail/similarity.go:21-31 | the ratio lies in 0..1, is symmetric, and is 1 if and only if the strings are equal |
| `Similarity.NameSimilarity` | pkg/mail/similarity.go:10-17 | compares the stripped names in lower case, and scores 0 when one of them is empty |
| `Names.LowerCase` | pkg/mail/similarity.go:11-12 | each capital letter becomes its small one and nothing else changes |
| `Names.PrefixIsDropped` | pkg/mail/headers.go:209-219 | a leading group in brackets goes, with the blanks behind it, and so do all that follow |
| `Names.NoPrefixIsDropped` | pkg/mail/headers.go:209-219 | a name that starts with no such group only has its blanks put in order |
| `Names.NormalizedWords` | pkg/mail/headers.go:28-30 | the words are kept in order, one space apart; what TrimSpace removes is removed at the two ends |
| `Names.NormalizedIsWords` | pkg/mail/headers.go:28-30 | a text without vertical tabs becomes exactly its words, one space apart |
| `Lines.SplitIsLossless` | pkg/mail/diff.go:143 | the lines of a text, joined, are the text |
| `Lines.SplitOfConcat` | pkg/mail/diff.go:143 | joined lines split into the same lines again |
| `Lines.LinesOfText` | pkg/mail/diff.go:143 | lines are those of some text if and only if each but the last ends with its only newline, and then joining and splitting restores them |
| `HunkHeaders.HeaderReads` | pkg/mail/diff.go:178-189 | a line "@@ -a,b +c,d @@" is read as the counts b and d, a count that is left out as 1, one above 64 bits as the largest number |
| `HunkHeaders.HeaderShape` | pkg/mail/diff.go:178-189 | a line that is read as a hunk header has that shape and those counts |
| `HunkHeaders.PrintedHeaderReads` | pkg/mail/diff.go:178-189 | every header as diff prints it is read as its counts, the old one first |
| `ParsePatch.Turn` | pkg/mail/diff.go:144-257 | one pass of the loop over state, counters and buffers makes the move that the machine makes |
| `ParsePatch.ParsePatch` | pkg/mail/diff.go:137-263 | patch and comment are the lines that the machine puts in each, in the order in which it does |
| `DiffScan.NoLineIsLost` | pkg/mail/diff.go:143-262 | every line of the input ends up exactly once in the patch or in the comment |
| `DiffScan.LinesAreConserved` | pkg/mail/diff.go:143-262 | the lines of both outputs together are the input lines as a multiset, for every input |
| `DiffOrder.OrderIsKeptUnlessPassed` | pkg/mail/diff.go:143-262 | both outputs are in input order if and only if no no-newline marker that passed held lines is followed by those lines going to the patch, and no text that passed held lines by those going to the comment |
| `DiffOrder.OrderIsKept` | pkg/mail/diff.go:198-251 | they are whenever neither the no-newline branch with held-back lines nor the way out of a binary patch is taken |
| `DiffDisorder.MarkerOvertakes` | pkg/mail/diff.go:198-199 | a mail of eight lines whose patch has two of them in the wrong order |
| `DiffDisorder.TextOvertakes` | pkg/mail/diff.go:249-251 | a mail of five lines whose comment has two of them in the wrong order |
| `DiffGrammar.HunkRun` | pkg/mail/diff.go:187-226 | a hunk whose header counts match its body goes to the patch whole, and the machine is ready for the next |
| `DiffGrammar.DiffRun` | pkg/mail/diff.go:143-257 | any number of files, with leads, extended headers, file lines, hunks and no-newline markers or without hunks: their lines are in the patch or held back, in order, and all in the patch behind a file with hunks or a second extended header |
| `DiffGrammar.QuietRuns` | pkg/mail/diff.go:228-246 | any number of files without hunks and with one extended header each are held back whole |
| `DiffRoundTrip.RoundTrip` | pkg/mail/diff.go:137-263 | printing and parsing plain text, a well-formed diff of any number of files and hunks, and a trailer: the patch is exactly the diff up to its last file with hunks or two extended headers, the comment exactly the rest |
| `DiffRoundTrip.RoundTripOfContent` | pkg/mail/diff.go:137-263 | the same for every content whose lines have that shape |
| `DiffRoundTrip.WholeDiffIsPatch` | pkg/mail/diff.go:228-263 | the whole diff is in the patch if and only if its last file has hunks or two extended headers |
| `PlainMails.NoDiffNoPatch` | pkg/mail/diff.go:145-186 | a mail without a diff start and without file lines that a hunk or another file line follows has no patch, and all of it is the comment |
| `PlainMails.BinaryTakesTheRest` | pkg/mail/diff.go:243-257 | after text and any number of files, a binary patch and everything behind it up to a line that starts "diff" is in the patch, with the files before it |
| `PlainMails.DashesAreTaken` | pkg/mail/diff.go:167-200 | a trailer's first line of the form "--- x" goes to the patch when no "+++" line follows, the rest to the comment |
| `Relations.Database.Leave` | pkg/api/util.go:209-243 | an empty list takes the patch out of its group, and dissolves a group that is left with fewer than two |
| `Relations.Database.CheckAll` | pkg/api/util.go:246-268 | the first loop finds the first missing, forbidden or conflicting patch, or the group that the patches have |
| `Relations.Database.UpdateRelated` | pkg/api/util.go:199-294 | the call changes the tables as the function says, and restores them when it fails |
| `RelationGroups.SucceedsOrChangesNothing` | pkg/api/util.go:246-293 | a non-empty call succeeds if and only if all patches exist, all are maintained by the user and no two are in different groups; otherwise nothing changes |
| `RelationGroups.AnswersFirstFailure` | pkg/api/util.go:246-259 | a failing call answers for the first listed patch that fails: not found, else forbidden, else in another group than those before it |
| `RelationGroups.JoinedGroups` | pkg/api/util.go:260-292 | after a successful call the group holds what it held, the patch and all listed ones, and every other group what it held |
| `RelationGroups.JoinKeepsWellFormed` | pkg/api/util.go:270-293 | a successful non-empty call keeps all groups at two members or more if and only if the list names another patch or the patch has a group already |
| `RelationGroups.LeaveKeepsWellFormed` | pkg/api/util.go:209-243 | leaving always does |
| `RelationGroups.GroupsNeverMerge` | pkg/api/util.go:256-258 | patches in two different groups are in no common group after any call |
| `RelationGroups.OneGroupChanges` | pkg/api/util.go:199-294 | one call changes the members of one group at most |
| `RelationGroups.RunKeepsWellFormed` | pkg/api/util.go:199-294 | the groups stay well formed over any run of calls, failing ones included, whose non-empty lists name another patch |
| `RelationGroups.RelatedToItself` | pkg/api/util.go:270-286 | the call that leaves a group of one |
| `RelationGroups.LeavingUndoesJoining` | pkg/api/util.go:199-294 | joining a group and leaving it again restores both tables |
| `RelationGroups.LeavingUndoesPairing` | pkg/api/util.go:199-294 | making a pair and leaving it again frees both patches and restores everything else |
| `RelatedPatches.LoadPatchRelated` | pkg/db/patch.go:100-138 | every patch of the page gets its list, and nothing else of it changes |
| `RelatedPatches.LoadsOtherMembers` | pkg/db/patch.go:125-131 | the list is exactly the other members of the group, each once and with its name, in whatever order the query lists rows |
| `RelatedPatches.RelatedIsMutual` | pkg/db/patch.go:100-138 | one patch is listed for another if and only if the other is listed for it |
| `RelatedPatches.GroupedHasRelated` | pkg/db/patch.go:100-138 | in well-formed tables the list is empty if and only if the patch has no group |
| `Outbox.Queries.EnqueueEvent` | pkg/db/db.go:207-217 | holds the event back in a transaction and hands it over at once otherwise |
| `Outbox.Queries.Commit` | pkg/db/db.go:239-255 | hands over the held events in order, or drops them when the commit fails |
| `Outbox.Queries.Rollback` | pkg/db/db.go:257-263 | drops the held events |
| `Outbox.SentIsDue` | pkg/db/db.go:207-263 | over any interleaving of any handles, the bus has been handed exactly what is due: at the first end of each transaction, if that is an accepted commit, its events so far |
| `Outbox.PerTransaction` | pkg/db/db.go:207-263 | of one transaction the bus gets the events it had at its accepted commit, each once and in order, and none after a rollback or a failed commit, whatever is called late |
| `Requests.LastHeaderCounts` | pkg/db/middleware.go:16-31 | the status of a response is the last one written as a header, whatever body follows |
| `Requests.NoHeaderIsSuccess` | pkg/db/middleware.go:21-31 | without a header it is 200 if a body is written, and none if not |
| `Requests.EmittedInOrder` | pkg/db/middleware.go:37-79 | the events of a handler are those it enqueues before a panic, in order |
| `Requests.Middleware` | pkg/db/middleware.go:37-79 | a handler that panics, answers 400 or above or cannot commit contributes no event, any other all of its events; GET and HEAD send theirs at once |
| `Requests.ParseMail` | pkg/mail/parser.go:171-245 | a mail contributes its events if it was handled and committed, also with the rollback that is deferred behind the commit |
| `EventBus.StepKeepsInvariant` | pkg/events/bus.go:45-116 | every step of every party keeps the channel first in first out, each taken item in exactly one place, the mutex with one caller, and lets no worker exit before the channel is closed and empty |
| `EventBus.RunKeepsInvariant` | pkg/events/bus.go:45-116 | the same in every interleaving |
| `EventBus.TakenInOrder` | pkg/events/bus.go:84-89 | items are taken in the order in which they were sent, each by one worker |
| `EventBus.DrainedUnlessAllFailed` | pkg/events/bus.go:60-68 | when `Shutdown` has returned, items are left in the channel only if all four workers failed |
| `BusFailures.LeftWhenAllFailed` | pkg/events/bus.go:60-116 | then items are left if and only if all four failed and more was sent than was processed and failed on |
| `BusFailures.ItemIsLost` | pkg/events/bus.go:92-104 | a run after which `Shutdown` has returned and the one item sent was not processed |
| `BusFailures.ItemIsLeft` | pkg/events/bus.go:60-104 | a run after which `Shutdown` has returned with an item in the channel |
| `EventBus.ShutdownDrains` | pkg/events/bus.go:60-116 | when `Shutdown` has returned, every item sent was processed exactly once if and only if no worker failed |
| `EventBus.ClosedOnce` | pkg/events/bus.go:63-64 | where `Shutdown` closes the channel, it is still open |
| `EventBus.SendDuringShutdown` | pkg/events/bus.go:60-82 | a send panics if and only if a `Shutdown` has closed the channel and still waits, and hangs when one is past that |
| `BusFailures.ChannelFills` | pkg/events/bus.go:45-56 | 512 items can be sent while none is taken, the next send waits, and goes on when one is taken |
| `BusFailures.SendPanics` | pkg/events/bus.go:60-82 | a run of two steps after which a send panics |
| `EventBus.HangsForGood` | pkg/events/bus.go:60-82 | after a `Shutdown` has returned, every send hangs |
| `EventBus.SecondShutdownDoesNothing` | pkg/events/bus.go:60-68 | after a `Shutdown` has returned, further ones change nothing |
| `EventBus.WorkersCanMove` | pkg/events/bus.go:60-116 | while `Shutdown` waits for a worker, some worker can take a step |
| `EventBus.ShutdownReturns` | pkg/events/bus.go:60-116 | the workers stop within a number of steps bounded by what is queued and held, and then `Shutdown` goes on |
| `Migrations.SortedIsAscending` | pkg/db/migrations/migrations.go:92-99 | a registry of distinct numbers is put in strictly ascending order |
| `Migrations.SortPermutes` | pkg/db/migrations/migrations.go:92-99 | sorting loses and adds nothing |
| `Migrations.Migrator.Register` | pkg/db/migrations/migrations.go:38-67 | registers a new number, and refuses one that is taken |
| `Migrations.Migrator.Bootstrap` | pkg/db/migrations/migrations.go:228-257 | records every migration in one transaction, or nothing |
| `Migrations.Migrator.RunMigrations` | pkg/db/migrations/migrations.go:117-166 | the loop does what the function says, and stops at the first migration that fails |
| `Migrations.Migrator.Rollback` | pkg/db/migrations/migrations.go:168-216 | takes back the last recorded migration, or nothing |
| `Migrations.Migrator.CheckSchemaVersion` | pkg/db/migrations/migrations.go:259-284 | passes if and only if no registered number is above the last recorded one |
| `MigrationRuns.ClosedIsFirst` | pkg/db/migrations/migrations.go:131-138 | a downward closed set of records is the first k migrations, for some k |
| `MigrationRuns.RunApplies` | pkg/db/migrations/migrations.go:131-163 | a run on a table that is not empty applies the next migrations in order up to the first that fails |
| `MigrationRuns.HistoryKeepsClosed` | pkg/db/migrations/migrations.go:117-216 | under any mix of failing and succeeding runs and rollbacks the records stay downward closed |
| `MigrationRuns.HistoryIsLegal` | pkg/db/migrations/migrations.go:117-216 | every Up commits on an unrecorded migration with all before it recorded, every Down on the last one, and together they give what is recorded |
| `MigrationRuns.UpOncePerCycle` | pkg/db/migrations/migrations.go:117-216 | between two commits of one Up lies its Down |
| `MigrationRuns.RunResumes` | pkg/db/migrations/migrations.go:117-166 | an interrupted run and a second one do together what one uninterrupted run does |
| `MigrationRuns.CheckPassesWhenNothingToDo` | pkg/db/migrations/migrations.go:259-284 | for a registry that is not empty, the check passes if and only if a run would do nothing |
| `MigrationRuns.SuccessPassesCheck` | pkg/db/migrations/migrations.go:117-284 | after a run that reports success the check passes |
| `MigrationRuns.RunsUnlessFirst` | pkg/db/migrations/migrations.go:117-257 | a run runs every migration that it records, but for the first, which records them because it has created the whole schema |
| `MigrationRuns.NeverEmptied` | pkg/db/migrations/0001_initial_schema.go:20-22 | as the first migration has no Down, no history of runs and rollbacks empties the table once it has a record |
| `MigrationRuns.HistoryRunsWhatItRecords` | pkg/db/migrations/migrations.go:117-216 | hence everything recorded from then on has been run, whatever fails and is rolled back |
| `MigrationRuns.RunUndoesRollback` | pkg/db/migrations/migrations.go:117-216 | with at least two migrations, a run after a rollback restores the records by running the one Up |
| `Decimals.IntReadsBack` | pkg/db/export.go:541-542 | every integer is written as decimal digits worth that number, with a minus sign if negative and no superfluous zeros |
| `Export.ValueReadsBack` | pkg/db/export.go:531-592 | a NULL, boolean, integer or string reads back, by the type of its column, as that value, and never contains a field or line end |
| `Export.EscapedIsNotNull` | pkg/db/export.go:531-592 | no string is written as NULL is |
| `Export.FormatCopyRow` | pkg/db/export.go:523-529 | the row is the escaped values, joined by tabs |
| `Export.JoinedFields` | pkg/db/export.go:523-529 | the fields of a row are the values that were joined |
| `Export.CopyTableRows` | pkg/db/export.go:488-521 | writes header, rows and end marker, and nothing for a table without columns |
| `Export.RowReadsBack` | pkg/db/export.go:513-529 | a row is one line, is not the end marker, and reads back as its values, numbers included |
| `Export.TableReadsBack` | pkg/db/export.go:513-592 | the rows of a table with at least one column read back as the same rows of values, and what follows the end marker is left alone |
| `Batches.BatchesPartition` | pkg/db/export.go:408-428 | every row is in one statement, in order, none is empty or longer than 100 rows, and all but the last have 100 |
| `Batches.WriteRows` | pkg/db/export.go:408-428 | the loop writes separators and rows as its counter says |
| `Batches.LoopWritesStatements` | pkg/db/export.go:408-428 | what it writes are exactly the INSERT statements of the batches |
| `Versioning.StripValue` | pkg/api/version.go:59-79 | the walk returns the value with every newer field zeroed, or panics where one cannot be set |
| `Versioning.StripStruct` | pkg/api/version.go:81-100 | so does the loop over the fields of a struct |
| `Versioning.StripVersionedFields` | pkg/api/version.go:44-57 | a struct is stripped behind a pointer |
| `Versioning.OldVersionsLackNewFields` | pkg/api/version.go:30-35 | a field since M.m is removed for M.(m-1) and every version with major number M-1, and kept for M.m, M.(m+1) and every version with major number M+1 |
| `Versioning.FieldByNumbers` | pkg/api/version.go:92-96 | anywhere the walk comes, a tagged field is zero if the numbers of the version are before those of the tag, and else kept, its own newer fields aside |
| `Versioning.ShownLater` | pkg/api/version.go:81-100 | what is kept for one version is kept for every numerically later one |
| `Versioning.StripTwice` | pkg/api/version.go:44-100 | stripping for one version and then another is stripping once for the older, panics included, if and only if the first walk does not panic or the one for the older version panics too |
| `Versioning.StripTwiceFails` | pkg/api/version.go:92-96 | a value for which it is not: a field that cannot be set, below an older one |
| `Versioning.NeverPanics` | pkg/api/version.go:81-100 | the walk panics for no version at all if and only if each tagged field can be set or has a tag as new or newer above it |
| `Versioning.TwiceIsOnce` | pkg/api/version.go:44-100 | for such values stripping for one version and then another always is stripping once for the older |
| `Versioning.StripAgain` | pkg/api/version.go:44-100 | stripping is idempotent |
| `Versioning.RestIsKept` | pkg/api/version.go:59-100 | everything that the walk reaches other than newer fields is as it was |
| `Versioning.NewerIsRemoved` | pkg/api/version.go:92-96 | every newer field that it reaches is at its zero value |
| `Versioning.PanicHasCause` | pkg/api/version.go:92-96 | a walk that panics has reached a newer field in a struct that cannot be set |
| `Versioning.CausePanics` | pkg/api/version.go:92-96 | a walk that reaches such a field panics |
| `TagCounts.TextsCount` | pkg/db/tag.go:72-97 | counting in the collected texts is counting in the patch and all its comments |
| `TagCounts.OrderDoesNotMatter` | pkg/db/tag.go:78-86 | the total does not depend on the order in which the query lists the comments |
| `TagCounts.Tables.RefreshTagCounts` | pkg/db/tag.go:64-123 | afterwards each tag that compiles has a row with the total, and a row only if that is positive; rows of other patches stay |
| `TagCounts.Tables.StorePatch` | pkg/mail/patch.go:46-53 | storing a patch keeps all stored counts equal to the recomputed ones |
| `TagCounts.Tables.StoreComment` | pkg/mail/comment.go:60-77 | so does storing a comment |
| `TagCounts.StoreAll` | pkg/db/tag.go:64-123 | after any list of patch and comment mails, with unknown patches and repeated mails among them, every count is that of a recomputation from the first content of each patch and the first comment of each message id on it |
| `Paging.PageIsFilled` | pkg/api/api.go:31-42 | no page up to the last is empty unless there is nothing at all, and none is longer than the maximum |
| `Paging.LinksVisitAll` | pkg/api/util.go:296-309 | following the links to the next page from page 1 finds every item once, in order |
| `Paging.PageHasWhatWasAskedFor` | pkg/api/api.go:31-42 | page p of n asked for holds the items from (p-1)n on, n of them as far as there are any |
| `Paging.SizesAskedFor` | pkg/api/api.go:31-42 | no size asked for is the default, and more than the maximum is the maximum |
| `Paging.LinksAreMutual` | pkg/api/util.go:296-309 | a page links forward to its neighbour exactly if that links back to it, the first page not back and the last not forward |

## Left out

- Concurrent ingest: mails are taken in one transaction at a time; errors of the database are modelled only where a property names them (commits, migrations).
- Dates are whole seconds and the zero date is replaced before ingest, as `ParseMail` does.
- Unicode: strings are sequences of characters that stand for bytes, and lower case is that of ASCII.
- `Parser.Parser.LinkPreviousSeries`: does not model the automatic superseding of the series that is linked, which changes only the states of its patches.
- `Parser.Parser.HandlePatch`: does not model states, delegates, tag counts (see `TagCounts`) and dependencies; none of the lookups modelled here reads them.
- `Parser.Parser.HandleCoverLetter`: does not model dependencies, for the same reason.
- `Parser.IngestAll`: takes mails that are parsed already and are patches or covers; comments change no table modelled here.
- `Export.ValueReadsBack`: does not model floating point numbers and times, which are written by formatters of Go's library and contain none of the escaped characters.
- The comment on `sequenceMatcherRatio` promises the ratio of Python's `SequenceMatcher`; the code computes a longest common subsequence, which the model follows.
- Similarity scores are exact real numbers; the code rounds to floating point, and its comparison with 0.8 may differ where an exact score is within rounding of it.
- Parsing of mails: headers, MIME, subjects and their prefixes, series markers and version numbers are fields of a mail that the parser has already read.
- Comments of mails, delegation, states, and dependencies between series ("Depends-on").
- Editing a series through the API, which may change its version; the theorems on links are about ingest.
- The order in which a database lists rows that tie is left open; where the code takes the first of them the model allows each.
- Binary patches are handled by the machine and covered by the conservation of lines, but are not part of the grammar in the round trip.
- `FindDelegateByFilename`, `FindFilenames` and hashing in `pkg/mail/diff.go`.
- Whether the user may edit the patch whose relations are changed; which projects the user maintains is a parameter.
- Status codes outside 100..999, at which the HTTP library itself panics.
- What a webhook request contains and whether its delivery succeeds; an item counts as processed when the worker has gone through its hooks.
- Which events become items: `Enqueue` stores the event and sends an item when the project has active webhooks.
- `Versioning.StripValue`: works on trees, so two pointers to the same struct are two copies; the walk sets fields in place, the model returns the changed value.
- Parsing of version strings: a since tag is a pair of numbers.
- When creating the schema succeeds: whether tables of it exist already is not modelled, and the outcome is a parameter.
- `ensureTable`, `lastApplied` and reading errors of the migration runner; an unclear outcome of a commit counts as failed.
- Regular expressions: how often a pattern matches a text is a parameter, as is whether it compiles.
- Everything around this core: routing, templates, the web pages, authentication, configuration, the SMTP server, the command line tools.
