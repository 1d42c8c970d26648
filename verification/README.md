# The catalog manager, proved

A model in Dafny of three parts of the catalog manager, and proofs of what they keep. `dafny verify dfyconfig.toml` checks
all of it.

**The chapter reads** (`internal/chapters`). An analyzer reports what it read of a file's header, with or without a claim;
the catalog reads the source record; titles are handed out at a pace; leases end; an admin accepts what is held and takes
replacements back. `Reads` says what each step makes of a title's read row and its chapters, as functions. `Catalog` is the
catalog that does it: a class whose methods change the rows, the chapters and the log of claims branch by branch as the
transactions do, each proved to leave exactly what the function says. `Arrivals` and `Admins` say when each outcome comes and
what it leaves, of the columns and of what a step brings alone; `ReadRuns`, `Settling` and `Ladder` prove what every run of
such steps keeps, in any order and number. `Chapters`, `Records` and `Text` are the lists and titles beneath,
`Pace` and `HandingOut` the hand-out's arithmetic, `Storage` the bounded reads of the storage as a process of interleaved
steps.

**The compliance check** (`internal/compliance`). `Rules` are the workers' reports and the hash a title is checked under,
`Audio` which tracks get a 5.1 companion, `Titles` the measures of a title, `Evaluation` the check: what it finds broken,
what it could not hold against the rules, which rules are off for every title. The source writes these three apart; they are
proved to agree with one another and with a separate statement of what each rule asks (`Within`). `Checks` is the table of
results and everything that may come between two statements of a running pass, `Passes` the pass itself, `Behind` a run
in which a pass ends with a title it never checked, `Gate` the answer originals are retired on, and `Quiet` what a check
nobody disturbs makes of that answer. `Order` and `Paging`
are the report's order, its cursors and its export.

**Publishing** (`internal/events`). `Publishing` is the worklist that writes a batch of events again until all are written.

Each transaction or single SQL statement is one atomic step; between two steps any others may come. Time is what each step is
given. Token and id generation, the storage's answers, the writer's answers and what others do during a pass are arguments of
the methods, so that the proofs hold whatever they are. Numbers the source keeps as floats are reals here.

## What was found

Where the code and its documentation, or two parts of the code, say different things, the model follows the code.

- Besides a read of it that is taken and an admin's decision, an original is settled in exactly two ways (`StepSettles`,
  `SettledNamesItsStep`). A read of another original lets a title go that was held of this one: a report that fails, holds
  or finds none (`HeldTitleLetGo`), or a record that holds the title itself (`HeldTitleLetGoByRecord`); the repository's
  own README says that a read that fails leaves a title held. And an acceptance is never cleared, so the fifth failure
  after one settles its original without an admin deciding it (`UnreadableAcceptedBefore`).
- A record that holds a title, or an admin's reversal, keeps the failures counted and forgets their wait: where it comes
  before that wait is over, two failures may count within an hour (`HoldForgetsWait`); a wait for the storage may shorten
  a backoff longer than an hour. Nothing else breaks a wait, and nothing that comes after it is over
  (`LadderBroken`, `OnlyForgettingBreaksAnHour`).
- Taking a replacement back leaves the title's chapters where they are the same as the replaced ones within a millisecond
  (`RevertRestores`). Right after the read that replaced them that happens only of a list reported out of its order
  (`RevertRestoresOrdered`, `RevertOfDisordered`).
- The hash of the rules is one for a packager that says nothing of image subtitles and one that keeps none
  (`UnsaidHashesAsNone`), though the check leaves every title unchecked under the first and none under the second. It is
  the only thing a check reads that the hash misses (`HashCoversResult`), and so a title may pass that the rules in force
  now would leave unchecked (`PassedIsWithin`).
- Whether the transcoder keeps H.264 as it is is read of its ladder's rungs in parts, whether it makes every video HEVC of
  its spec: a report whose parts and spec disagree may say both (`PartsDisagree`, `CopyingRequiresNoHevc`).
- A packager that keeps only forms of image subtitles the check does not know has that rule on for every title, though none
  can break it (`UnknownFormsNeverFound`); of limits that say something, the rules that are on are exactly those some title
  breaks (`OnIsFound`, `OffIsNeverFound`).
- A refresh does not mark a title that is marked already: of a title marked before its batch began, the batch's write ends
  both, and the refresh is lost (`RefreshOutlives`).
- A touch of a title while its batch runs marks it for another check, but the batch's write puts back the record key the
  touch blanked: the next check uses the kept records (`TouchOutlives`, `TouchedButKept`).
- A pass may end with titles to check that it never saw, when a full batch of those it did see was marked again meanwhile,
  and only then (`OneLeftBehind`, `LeftBehindAFullBatch`).

## Model

| member | source | states |
|---|---|---|
| Chapters.CleanTitleFixpoint | internal/chapters/chapters.go:94-117 | Cleaning a title changes exactly the titles that are not clean; what is stored cleans to itself. |
| Chapters.CleanTitleKeeps | internal/chapters/chapters.go:94-117 | What is kept of a title is its first 120 characters that print, without white space around them; none only where nothing prints. |
| Chapters.KeptIsStored | internal/chapters/chapters.go:120-166 | Chapters written and read back are in their order by ordinal and start, with clean titles, as many as were given. |
| Chapters.StoredStays | internal/chapters/chapters.go:120-166 | Writing what was read back changes nothing. |
| Chapters.KeptIsAll | internal/chapters/chapters.go:120-166 | What is kept is the given chapters, cleaned, none lost and none added. |
| Chapters.SameOfCleaned | internal/chapters/records.go:366-382 | Chapters compare the same with a list as with its cleaned form, either way round. |
| Chapters.SameWithin | internal/chapters/records.go:366-382 | Chapters are the same as those moved exactly within a millisecond, and where every cleaned title is. |
| Records.StopIsLeast | internal/chapters/records.go:319-331 | A mark without an end ends at the first later mark's start or the file's end, whichever is first. |
| Records.LengthIs | internal/chapters/records.go:310-341 | Which marks have a length: by an end of their own, by the file's end, or by a later mark. |
| Records.PlacesAreOfLength | internal/chapters/records.go:310-341 | The chapters of marks are exactly the marks that have a length, in their order. |
| Records.ChaptersOf | internal/chapters/records.go:310-341 | Each mark with a length becomes a chapter of its start, its end and its title, numbered in turn, with 0 <= start < end. |
| Records.ChaptersAsGiven | internal/chapters/records.go:310-341 | Marks given with their ends are chapters as they are, numbered in turn. |
| Records.MovedTile | internal/chapters/records.go:277-303 | Marks that fit the file an hour earlier become chapters side by side up to its end, one a mark. |
| Records.OnlyFittingTile | internal/chapters/records.go:277-303 | Only marks that fit the file an hour earlier become such chapters. |
| Records.Shifted | internal/chapters/records.go:277-303 | Moving marks an hour earlier succeeds exactly when they all fit the file in order, and then gives that tiling. |
| Records.FileEndIs | internal/chapters/records.go:226-241 | A file ends its duration after its start; without a duration, with its longest stream. |
| Records.Interpret | internal/chapters/records.go:196-266 | What a record says, holds or can't say: the chapters of its marks, or of its marks an hour earlier; one that says there are no chapters has no mark at or past the file's end. |
| Reads.BackoffOf | internal/chapters/chapters.go:450-458 | The wait doubles from an hour with each failure, up to its bound. |
| Reads.BackoffDoubles | internal/chapters/chapters.go:450-458 | The first wait is an hour, each next twice the one before, up to a day. |
| Reads.OutcomeIs | internal/chapters/chapters.go:410-441 | Which reports can be used, and which of them failed, found none, found chapters or give a claim back. |
| ReadRuns.FateFits | internal/chapters/chapters.go:255-283 | How a report's chapters are taken agrees with what the catalog has: none replaced by fewer but of another original. |
| ReadRuns.SoundStep | internal/chapters/chapters.go:508-766 | Every step keeps the row's invariants: known chapters exist, a confirmed none has none, undo is stored form, unreadable only after five failures. |
| ReadRuns.SoundRun | internal/chapters/backfill.go:654-746 | Every run keeps them. |
| ReadRuns.NothingLostStep | internal/chapters/chapters.go:258-312 | A step of no admin takes chapters away only by a read of another original than the known one, and leaves exactly what it replaced to undo. |
| ReadRuns.UndoIsLastReplaced | internal/chapters/chapters.go:285-312 | After any run, what may be undone is exactly what the last replacing read replaced. |
| ReadRuns.FewerNamesItsRead | internal/chapters/chapters.go:258-283 | A run that ends with fewer chapters names the read that took them, of another original than the known one. |
| ReadRuns.OneOriginalKeepsAll | internal/chapters/chapters.go:258-283 | Reads of one original never make its chapters, or those of no known one, fewer. |
| ReadRuns.RevertRestores | internal/chapters/backfill.go:1044-1091 | After any run of no admin a reversal restores exactly the chapters the last replacing read replaced, unless the title has the same within a millisecond. |
| ReadRuns.RevertUndoesStep | internal/chapters/backfill.go:1044-1091 | Right after the read that replaced them it restores them exactly when those written are not the same within a millisecond. |
| ReadRuns.RevertRestoresOrdered | internal/chapters/backfill.go:1044-1091 | Right after a read of chapters listed in their order it always restores them. |
| ReadRuns.RevertOfDisordered | internal/chapters/backfill.go:1044-1091 | A list out of its order for which it does not. |
| ReadRuns.RevertTwice | internal/chapters/backfill.go:1044-1091 | Taking back twice returns a title's chapters to what they were. |
| Arrivals.ArrivalIs | internal/chapters/chapters.go:508-547 | What a report's step reads of it, of its original's record and of the compliance check's. |
| Arrivals.FateIs | internal/chapters/chapters.go:689-758 | Each fate of a report has one condition on the title's columns and on what the report brings. |
| Arrivals.TakenLeaves | internal/chapters/chapters.go:618-687 | A report that counts and brings no fewer chapters, or another original's, leaves those, or a confirmed none, of its original, what they replace to undo, and no failures. |
| Arrivals.HeldLeaves | internal/chapters/chapters.go:641-666 | One that would lose chapters, or whose record holds, leaves the chapters and holds the title. |
| Arrivals.NoneLeaves | internal/chapters/chapters.go:618-663 | A none nothing confirms leaves the chapters and has the record read again. |
| Arrivals.FailureLeaves | internal/chapters/chapters.go:597-617 | A failure leaves the chapters and counts one more, unreadable from the fifth; within the backoff it counts none. |
| Arrivals.TransientLeaves | internal/chapters/chapters.go:706-711 | A failure of the storage counts as none and waits its own backoff. |
| Arrivals.ReleaseLeaves | internal/chapters/chapters.go:691-696 | A claim given back waits a quarter of an hour at least, never less than was left. |
| Arrivals.OthersLeave | internal/chapters/chapters.go:689-729 | Every other report ends its claim and changes nothing else. |
| Arrivals.RecordLeaves | internal/chapters/backfill.go:654-746 | A record settles, holds, or is noted, each under its one condition, and leaves a claimed, settled or held title as it is. |
| Arrivals.WaitLeaves | internal/chapters/backfill.go:751-840 | A slow record, an original not there and a lease over make the title wait, and count as no failure. |
| Admins.RefusedExactly | internal/chapters/backfill.go:939-1006 | Which acceptances are refused, changing nothing. |
| Admins.UnreadableAccepted | internal/chapters/backfill.go:979-985 | An unreadable title accepted changes in nothing but when. |
| Admins.CatalogAccepted | internal/chapters/backfill.go:987-1021 | A held title accepted as the catalog has it keeps its chapters and what may be taken back, settled as the current original's. |
| Admins.RecordAccepted | internal/chapters/backfill.go:987-1021 | One accepted as its record has it gets the record's chapters, or none where the record holds; a reversal then restores what it had, always where they are listed in order. |
| Admins.RevertLeaves | internal/chapters/backfill.go:1044-1091 | A reversal gives back what was replaced last, read of the current original, what the title had to be taken back in turn. |
| Settling.NothingFoundSettles | internal/chapters/chapters.go:213-240 | A report that brings nothing that is taken settles an original not settled in exactly two cases: it lets a title held of it go, or is a fifth failure after an acceptance. |
| Settling.NoneNeedsARecord | internal/chapters/chapters.go:721-757 | A header read that found none settles only by a record that says so, or as that fifth failure; where the compliance record says there are chapters, the title has failed. |
| Settling.StepSettles | internal/chapters/chapters.go:213-240 | Any step, whoever's, settles an original not settled in exactly four ways: a read of it taken, a read of another that lets it go, a fifth failure after an acceptance, an admin's decision. |
| Settling.SettledNamesItsStep | internal/chapters/chapters.go:508-766 | Over every run, an original that ends settled names the step that settled it, of those four. |
| Settling.HeldTitleLetGo | internal/chapters/chapters.go:600-617 | A failed read of another file settles a held title. |
| Settling.HeldTitleLetGoByRecord | internal/chapters/backfill.go:672-699 | So does a record of another original that holds the title. |
| Settling.UnreadableAcceptedBefore | internal/chapters/chapters.go:600-617 | A fifth failure settles a title accepted once before. |
| Settling.FailClosed | internal/chapters/chapters.go:508-766 | Over every run, of reads of any originals, the original of a title no admin decided is settled only by a read of it that is taken or one of another that lets it go. |
| Settling.ReadsSettle | internal/chapters/backfill.go:654-746 | A read taken, a confirmed none, a settling record, an acceptance and a reversal leave their original settled. |
| Settling.ReportEndsClaim | internal/chapters/chapters.go:561-596 | A claim's report ends it, live or lapsed. |
| Settling.DeliveredAgain | internal/chapters/chapters.go:567-596 | Over any run between, a claim's report delivered again changes nothing at all. |
| Settling.TokenlessKeepsClaims | internal/chapters/chapters.go:561-596 | A report without a token leaves every claim as it is. |
| Settling.LateChangesNothing | internal/chapters/chapters.go:582-596 | A report that is stale, or of a claim a read was taken or held since, changes nothing but its claim. |
| Settling.LaterReadStands | internal/chapters/chapters.go:582-596 | After a hand-out and another report's read that is taken or held, the claim's report changes nothing but its claim. |
| Settling.LapsedStillCounts | internal/chapters/chapters.go:689-720 | After a hand-out and a lapse, the claim's chapters are still taken where they lose none, and its failure counts as none. |
| Ladder.LadderRun | internal/chapters/chapters.go:440-458 | Along every run that breaks no wait before it is over, whoever's its steps, the row's failures are those counted in a row, each after its wait. |
| Ladder.CountedAnHourApart | internal/chapters/chapters.go:600-617 | Along a run in which nothing forgets a wait within its hour, failures counted in a row are at least an hour apart, and a title turns unreadable only at the fifth or a later one. |
| Ladder.FifthAfterFifteenHours | internal/chapters/chapters.go:440-458 | Along a run in which nothing forgets or shortens a backoff before it is over, the fifth comes at least fifteen hours after the first. |
| Ladder.LadderBroken | internal/chapters/chapters.go:600-617 | The converse: right after a step, a failure may count before the wait is over exactly when the step breaks it. |
| Ladder.OnlyForgettingBreaksAnHour | internal/chapters/chapters.go:706-711 | A wait of an hour is broken only by a step that forgets it within the hour. |
| Ladder.WaitBroken | internal/chapters/chapters.go:600-617 | Of any row whose failures wait, a step within the wait lets one more count before its end exactly when it forgets or shortens it. |
| Ladder.HoldForgetsWait | internal/chapters/backfill.go:664-705 | A record that holds the title lets two failures count two milliseconds apart. |
| Pace.HandingOutPaced | internal/chapters/backfill.go:392-410 | Handing out what an hour's count allows keeps every hour of the log within the rate. |
| Pace.PacedHalfOpen | internal/chapters/backfill.go:392-410 | Every stretch shorter than an hour of a paced log holds at most the rate. |
| HandingOut.ExpiredClaims | internal/chapters/backfill.go:771-806 | Taking claims back leaves no claim as old as the lease and adds none. |
| HandingOut.HandedClaims | internal/chapters/backfill.go:420-483 | Claims grow by the titles handed out at most, each claimed now. |
| HandingOut.HandedRow | internal/chapters/backfill.go:420-483 | Each title is handed out or waits, at most once, and every other row stays. |
| HandingOut.HandedJobs | internal/chapters/backfill.go:442-483 | Every title handed out had its original there and is under the next new token. |
| HandingOut.NoneAfterSlow | internal/chapters/backfill.go:442-483 | Past a look the storage did not answer, no candidate's row changes. |
| HandingOut.LostWereAway | internal/chapters/backfill.go:442-483 | Only titles whose original was not there, or not answered for, wait for it. |
| HandingOut.MostOf | internal/chapters/backfill.go:398-410 | How many may be handed out: some exactly when there is room in flight and in the hour, and then all that was asked for or all that one of them leaves. |
| HandingOut.CandidatesWait | internal/chapters/backfill.go:412-440 | The candidates are listed titles that wait, each once, and leave one that waits only behind as many as may be looked for. |
| HandingOut.CandidatesFirst | internal/chapters/backfill.go:412-440 | A title that waits is passed over for none listed after it. |
| Catalog.HandedWaited | internal/chapters/backfill.go:412-483 | Every title handed out was listed, unsettled, unclaimed, neither unreadable nor held, its backoff over, its record read. |
| Catalog.WaitedHanded | internal/chapters/backfill.go:412-483 | And every such title is, or waits for its original, but for those behind as many as may be handed out or looked for, or a storage that did not answer. |
| Catalog.SomeHandedOut | internal/chapters/backfill.go:371-509 | Where there is room and originals are there, a waiting title means that one is handed out. |
| Catalog.Catalog.Record | internal/chapters/chapters.go:508-766 | Records every usable report of a movie or an episode, and no other, and leaves the title as the step's function says, no other title changed. |
| Catalog.Catalog.FromRecord | internal/chapters/backfill.go:654-746 | The record's transaction leaves the title as the step's function says and answers whether it settled. |
| Catalog.Catalog.Accept | internal/chapters/backfill.go:939-1020 | An acceptance succeeds exactly when it may, and leaves the title as the step's function says. |
| Catalog.Catalog.Revert | internal/chapters/backfill.go:1044-1091 | A reversal likewise. |
| Catalog.Catalog.Put | internal/chapters/chapters.go:285-312 | Writes the chapters unless they are the same, keeping those replaced to undo. |
| Catalog.Catalog.Expire | internal/chapters/backfill.go:771-806 | Exactly the overdue claims are taken back, each with its backoff. |
| Catalog.Catalog.HandOut | internal/chapters/backfill.go:371-509 | Leaves exactly the rows and claims the hand-out's function says, and keeps at most the rate in every hour and at most inflight claims, none as old as the lease. |
| Storage.SafeStep | internal/chapters/files.go:28-115 | Every step keeps at most two reads outstanding, each holding its slot while it runs. |
| Storage.StartsInTime | internal/chapters/files.go:75-100 | A read starts exactly with its claim not stalled, its whole wait before the deadline and a free slot; a stalled claim starts none; finding no slot stalls, having no time does not. |
| Storage.AtMostTwoOutstanding | internal/chapters/files.go:28-115 | Over every interleaving: two reads at most, one left behind a claim at most, every returned read's slot may be freed. |
| Storage.Files.Read | internal/chapters/files.go:75-115 | Starts, refuses or stalls as the process's step says. |
| Publishing.UnwrittenIsRest | internal/events/events.go:336-372 | What is left of a batch is, in its order, exactly what the writer did not report written. |
| Publishing.LeftIs | internal/events/events.go:336-372 | Which messages an attempt leaves, by the writer's answer. |
| Publishing.SentUntilWritten | internal/events/events.go:336-372 | A message is sent in a batch exactly when none before reported it written. |
| Publishing.WrittenOnce | internal/events/events.go:336-372 | No message reported written is sent again. |
| Publishing.Producer.Publish | internal/events/events.go:321-379 | A message's error is nil exactly when the writer reported it written; it gives up only when all are, six attempts are spent or its context is over. |
| Order.PrecedesTotal | internal/compliance/order.go:47-83 | Of two rows of different ids exactly one precedes the other. |
| Order.PrecedesTransitive | internal/compliance/order.go:47-83 | The order is transitive. |
| Order.FirstKeyDecides | internal/compliance/order.go:47-83 | The first key two rows differ in decides, a missing one last in both directions; of the same keys, the id. |
| Order.AfterIsPrecedes | internal/compliance/order.go:86-105 | The query's flag-and-default cells tell exactly the rows after a position, a null key last in both directions. |
| Order.Parse | internal/compliance/order.go:158-201 | A cursor is read exactly when it is of this order, as the position it names. |
| Order.CursorRoundTrip | internal/compliance/order.go:145-201 | A written cursor reads back as its position. |
| Paging.SortedInOrder | internal/compliance/order.go:86-105 | The query lists every row of a snapshot once, each before those it precedes. |
| Paging.PastIsRest | internal/compliance/order.go:86-105 | Past the position of a row lie exactly the rows after it. |
| Paging.Page | internal/compliance/report.go:246-328 | A page is the next rows of the order, with a cursor exactly when more follow. |
| Paging.Write | internal/compliance/export.go:102-142 | Following the cursors to the end writes every row exactly once in order, at any page size. |
| Audio.ShownTracks | internal/compliance/audio.go:286-325 | The tracks shown: those the settings list, or all of a title of one hidden language. |
| Audio.ShownIs | internal/compliance/audio.go:282-325 | No unlisted language is shown beside a listed one; a title of hidden ones is shown whole exactly when it is of one language and the settings say so. |
| Audio.BestIsFirst | internal/compliance/audio.go:326-370 | The track found of a language comes before every other of it by rank, and is missing only when none is of it. |
| Audio.DefaultIsFirst | internal/compliance/audio.go:326-370 | There is one default track: the first by rank of the first preferred language a track is of, else of all. |
| Audio.DefaultPassesOver | internal/compliance/audio.go:326-370 | The default passes over no better track of its language: shown, then for the film, then flagged, then first. |
| Audio.DefaultIsForTheFilm | internal/compliance/audio.go:267-271 | A commentary or a description is never the default where its language has a track for the film. |
| Audio.DefaultTrack | internal/compliance/audio.go:326-370 | The loop picks that track. |
| Audio.CompanionTracks | internal/compliance/audio.go:374-415 | The loops plan the companions as specified. |
| Audio.ChosenIsFirst | internal/compliance/audio.go:374-415 | A track that may get a companion has one of its language at or before it. |
| Audio.CompanionsOnePerLanguage | internal/compliance/audio.go:374-415 | Companions are of tracks of more than two channels in order, one a language; of the tracks shown, there is one exactly when such a track is for the film. |
| Audio.DeservingHaveOne | internal/compliance/audio.go:374-415 | There is a companion exactly when a track deserves one; each language of a track that may get one has its companion no later, and only such tracks get one, but where none may the first that deserves it. |
| Rules.CopyingRequiresNoHevc | internal/compliance/plan.go:118-129 | When a ladder that keeps H.264 as it is requires HEVC all the same: never where its rungs in parts agree with its spec. |
| Rules.PartsDisagree | internal/compliance/plan.go:46-52 | A report whose parts keep H.264 and whose spec requires HEVC. |
| Rules.HevcRequiredIs | internal/compliance/evaluate.go:945-985 | Whether every video is HEVC, by the last codec word of the first token at the original's size. |
| Rules.CopiesH264Is | internal/compliance/plan.go:118-129 | Whether H.264 is kept, by the first rung at the original's size. |
| Rules.LimitIs | internal/compliance/evaluate.go:728-765 | A cap's limit: the bucket's maxrate, else the cap of the kind and the bucket; none of a cap off. |
| Rules.HashIs | internal/compliance/rules.go:126-147 | Rules of one hash are the same but for the order of forms and what else is reported, the languages only where they count. |
| Titles.CopiedIs | internal/compliance/evaluate.go:644-668 | A video is copied by its package's encoder, else by its transcode. |
| Titles.CodecsApart | internal/compliance/evaluate.go:905-928 | HEVC and H.264 are told by four letters, and no codec is both. |
| Titles.OriginalBytesIs | internal/compliance/evaluate.go:828-843 | The original's size is the first there is of four. |
| Titles.VideoRate | internal/compliance/evaluate.go:687-728 | The bit rate comes of the first of the three measures there is. |
| Titles.RateIsMeasured | internal/compliance/evaluate.go:687-728 | It is measured exactly when one of them is above 0, and never 0 or below; the package's own measure stands, and only the last is an estimate, never above the whole package's rate. |
| Titles.CopiedRate | internal/compliance/evaluate.go:687-728 | A copy's rate is its original's first video stream's that has one. |
| Titles.EstimateIs | internal/compliance/evaluate.go:687-728 | An estimate is the package's rate less its audio's. |
| Titles.Bucket | internal/compliance/evaluate.go:767-813 | The bucket's size is the tallest and widest of the original's streams, else the first other size there is. |
| Titles.BucketIsOfAnyStream | internal/compliance/evaluate.go:767-813 | A title is of the 2160 bucket exactly when one of its original's video streams reaches it, or it begins at 0. |
| Titles.BucketFallsBack | internal/compliance/evaluate.go:767-813 | Without a size of the original's, the bucket is of the first other size there is. |
| Titles.FormsAre | internal/compliance/evaluate.go:1018-1024 | Which codec and which format each form of image subtitles comes of. |
| Titles.MissingImageSubtitles | internal/compliance/evaluate.go:1039-1125 | The loops find exactly the forms and tags of the original's image subtitles the package carries none of. |
| Titles.WantedIs | internal/compliance/evaluate.go:1039-1125 | Which streams are looked for, and which subtitles of the package are of their language: by themselves, or by the stream they were made from. |
| Titles.MissesNothing | internal/compliance/evaluate.go:1039-1125 | None is missed exactly when each carried one has one in its language in the package. |
| Titles.SurroundKept | internal/library/retire.go:812-830 | A package keeps surround exactly when it has some where the original has, and its channels up to six. |
| Evaluation.Evaluate | internal/compliance/evaluate.go:269-358 | The check's findings in order, what it leaves unchecked and what blocks it. |
| Evaluation.UncheckedRules | internal/compliance/evaluate.go:360-424 | The rules left, in the report's order. |
| Evaluation.BlockedBy | internal/compliance/evaluate.go:549-618 | What blocks a title: a refused step, or its first video stream, or none. |
| Evaluation.BlockedIs | internal/compliance/evaluate.go:549-592 | Nothing blocks a title exactly when its steps refused nothing and its first video is of no refused profile. |
| Evaluation.RefusesIs | internal/compliance/evaluate.go:597-618 | Which Dolby Vision profiles are refused. |
| Evaluation.Trichotomy | internal/compliance/evaluate.go:309-424 | Of each rule, exactly one: found broken, left unchecked, or the title is within it. |
| Evaluation.CleanIsWithin | internal/compliance/evaluate.go:309-424 | No finding and nothing unchecked exactly when the title is within every rule in force. |
| Evaluation.UnpackagedIsFound | internal/compliance/evaluate.go:283-307 | Something is found of a title without a package, exactly one rule, unless its original is gone or a step is under way; that it failed exactly when processing ended. |
| Evaluation.LacksACompanion | internal/compliance/evaluate.go:930-943 | Of an original whose audio is listed, a package that lost surround is said to lack it exactly when a track of more than two channels is for the film, and one such then has a companion planned. |
| Evaluation.Coverage | internal/compliance/report.go:680-759 | Which rules are off for every title. |
| Evaluation.OffIs | internal/compliance/report.go:680-759 | When each rule is off, limit by limit. |
| Evaluation.OffIsNeverFound | internal/compliance/report.go:680-759 | A rule that is off is broken by no title, in the older layout too. |
| Evaluation.OnIsFound | internal/compliance/report.go:680-759 | Of limits that say something, a rule that is on is broken by some title. |
| Evaluation.UnknownFormsNeverFound | internal/compliance/report.go:680-759 | Of a packager of unknown forms alone no title breaks the rule of image subtitles. |
| Evaluation.HashCoversResult | internal/compliance/rules.go:132-147 | Under rules of one hash a packaged title's result is the same exactly when both or neither say which image subtitles they keep. |
| Checks.InvStep | internal/compliance/compliance.go:146-180 | Every step keeps the table true: each row is what its last check found, its kept records are the library's, no mark since that check is lost. |
| Checks.InvRun | internal/compliance/pass.go:204-253 | Every run does. |
| Checks.WriteStands | internal/compliance/pass.go:545-608 | A mark set since a batch began outlives the batch's write. |
| Gate.PassedOf | internal/compliance/retire.go:22-97 | Of each title asked for, the answer. |
| Gate.AnswerIsFirst | internal/compliance/retire.go:22-97 | The answer is the first of eleven reasons that holds, each said of the last check and the marks; none, and the title passes. |
| Gate.ChangedIsMarked | internal/compliance/retire.go:22-97 | A title said to have changed was marked since its last check began. |
| Gate.PassedStays | internal/compliance/retire.go:11-97 | A title passes exactly by an unmarked last check under the hash in force, not before the nightly moment, with nothing found or left, of its complete version's records. |
| Gate.PassedIsWithin | internal/compliance/retire.go:11-97 | Over every run a title passes exactly so; every rule as reported now then holds of what was read, exactly when both reports say or neither which image subtitles are kept; one checked without a package had no original, or a step under way. |
| Quiet.WithinPasses | internal/compliance/retire.go:11-97 | A title checked in a batch nobody disturbs, its records read, passes exactly when nothing blocks it and it is within every rule. |
| Quiet.UpToDateAnswers | internal/compliance/retire.go:22-97 | A title up to date is refused for no check missing, changed, of other rules or too old. |
| Gate.OlderLayoutNeverPasses | internal/compliance/retire.go:75-82 | In the older layout no title with a complete version passes. |
| Gate.UnsaidHashesAsNone | internal/compliance/rules.go:138-147 | A report that says nothing of image subtitles and one that keeps none have one hash. |
| Gate.TouchMarks | internal/compliance/compliance.go:146-164 | A touch marks the titles it names and has their records read again; no other row changes. |
| Gate.RefreshMarks | internal/compliance/compliance.go:166-180 | A refresh marks the rows of its kind not marked yet, and changes nothing else. |
| Gate.TouchOutlives | internal/compliance/compliance.go:146-164 | A title touched while its batch runs is marked after the write exactly when the batch began before. |
| Gate.TouchedButKept | internal/compliance/pass.go:598-605 | But its records are not read again while its key stays. |
| Gate.RefreshOutlives | internal/compliance/compliance.go:166-180 | When a refresh during a batch has its titles checked again. |
| Gate.JudgedAsRead | internal/compliance/pass.go:222-253 | Over every run a check, kept records or not, judged its title by what reading them afresh gives; what could not be read is not kept. |
| Passes.Service.CheckBatch | internal/compliance/pass.go:204-253 | A batch's check leaves the table as its steps and others' between them say. |
| Passes.Service.Pass | internal/compliance/pass.go:75-143 | A pass ends and checks no title twice, each under the rules it began with, each batch being the titles then due that it did not see; where nobody else does a thing it checks exactly the titles without an unmarked row of the hash in force since the nightly moment, and leaves none; no row of a title out of the catalog stays. |
| Passes.Service.NextBatch | internal/compliance/pass.go:117-135 | A batch is the titles due that were not seen, at most 200, each of them to be checked. |
| Passes.DueInOrder | internal/compliance/pass.go:145-166 | A batch takes the titles never checked first, and those alike in order. |
| Passes.PickedDirty | internal/compliance/pass.go:38-42 | Every title a pass checks was to be checked as its batch was picked, and in no batch before. |
| Passes.DueIsAll | internal/compliance/pass.go:145-166 | A batch that is not full holds every title to check. |
| Passes.LeftBehindAFullBatch | internal/compliance/pass.go:117-136 | A pass leaves a title it never checked only behind a full batch of those it did, to be checked again. |
| Behind.LeavesOneBehind | internal/compliance/pass.go:117-136 | Of every catalog of more titles than a batch, all marked, a pass leaves one it never checked where others mark its first batch again. |
| Behind.OneLeftBehind | internal/compliance/pass.go:117-136 | There is such a catalog, and a run to it from nothing checked. |

## Left out

- Storage.AtMostTwoOutstanding: says that a returned read's slot may be freed, not that it is: no fairness is modelled.
- SQL, transactions and their rollback on a database error, and passes stopped by one; the advisory lock is one pass
  at a time.
- JSON and hashing: a hash stands for what it covers, no two alike; kept records are their fields. The hash covers
  languages by their words; here they are their keys. A row whose kept records can't be decoded is read as one without
  any.
- Text collation, Unicode case folding and invalid UTF-8: texts are sequences of characters, their order a total one.
- Regular expressions of titles, details and reasons: what they find (a commentary, a maxrate, a refused profile, a
  bit rate's text) is a fact of the title. So are language keys and tags, and the whole number of a stream's index.
- Rounding: bit rates, caps and sizes are reals.
- The words of findings, answers and reports; the measures shown in the report's columns; its totals and filters.
- Estimates of a package's size (planVideo, planAudio beyond its companions, packageExtras): they decide no rule.
- The reads' descriptive columns (path, size, probe, seconds, reasons, notes, who), and the window and the switches of
  the hand-out.
- Ties of chapters of one ordinal and start, which the table breaks by a random id; a stable order stands for it.
- The hourly pace of records read by the catalog itself, and the checksums of a record's probe.
- Chapters written or deleted without a read.
- The compliance record that says an original has no chapters is a given answer to a report.
- Clocks that go back, and marks whose statement began before its stamp is seen.
