/**
 What a report of a header leaves of its title, told by the title's columns and by what the report brings. The code
 decides it branch by branch (Reads.FateOf); here each outcome has its one condition, and together they are all.
 */
module Arrivals {
  import opened Wrappers
  import opened Text
  import opened Chapters
  import opened Records
  import opened Reads
  import opened ReadRuns

  // ---- whether a report still counts

  /** The token names neither the claim the title is under nor the one whose lease ended last. */
  predicate Dead(t: Title, token: string) {
    t.read.claimToken != Some(token) && t.read.lapsedToken != Some(token)
  }

  /** A read that was taken, or held, was reported after the moment. */
  predicate ReadSince(r: Read, at: Option<Time>) {
    at.Some? && r.readAt.Some? && at.value < r.readAt.value &&
    r.state != StatePending && r.state != StateFailed && r.state != StateUnreadable
  }

  /** The report names no claim, or one the title knows (the live one, the one lapsed last) and no read was taken or
      held since it was handed out. */
  predicate InTime(r: Read, token: string) {
    token == "" ||
    if r.claimToken == Some(token) then !ReadSince(r, r.claimedAt)
    else r.lapsedToken == Some(token) && !ReadSince(r, r.lapsedClaimedAt)
  }

  // ---- what it brings

  /** The record says: it could be read, it holds a list of chapters, and none is held for an admin. */
  predicate Clear(rec: RecordRead) {
    !(rec.err || rec.why || rec.held)
  }

  /** The chapters a report brings: the header's; where it holds none the record's, or none where the record can't say
      and the compliance check's says there are none. */
  function Brought(a: Arrival): Option<seq<Chapter>> {
    match a.outcome
    case FoundChapters => Some(a.chapters)
    case FoundNone =>
      if a.record.Some? && Clear(a.record.value) then Some(a.record.value.chapters)
      else if a.says == Some(false) then Some([]) else None
    case _ => None
  }

  /** Who read the chapters brought: the record's are none of the header's. */
  function ReaderOf(a: Arrival): Reader {
    if a.outcome.FoundNone? && Brought(a) != Some([]) then FromRecord else FromHeader
  }

  /** The header holds none, and the compliance check's record says that its original has chapters. */
  predicate Denied(a: Arrival) {
    a.outcome.FoundNone? && a.says == Some(true) && a.record.Some? && !a.record.value.err
  }

  predicate RecordHolds(a: Arrival) {
    a.outcome.FoundNone? && a.record.Some? && a.record.value.held
  }

  /** A usable report's step reads what it says of the original given, and of a header that holds none that original's
      record, and what the compliance check's says where the record neither says nor holds. */
  lemma ArrivalIs(r: Report, source: Option<SourceId>, record: RecordRead, says: Option<bool>, at: Time)
    requires !OutcomeOf(r).Unusable?
    ensures var a := ArrivalOf(r, source, record, says, at);
            a.outcome == OutcomeOf(r) && a.token == TrimSpace(r.token) && a.at == at &&
            a.transient == r.read.transient && a.found == r.read.found.GetOr(0) &&
            if r.released then a.source.None?
            else a.source == source && a.chapters == r.chapters.GetOr([]) &&
                 (r.chapters == Some([]) && source.Some? ==>
                    a.record == Some(record) && a.says == if Clear(record) || record.held then None else says)
  {
  }

  // ---- what becomes of it

  /** Taking got of source leaves a title no fewer chapters, or replaces another original's. */
  predicate NoFewer(t: Title, source: Option<SourceId>, got: seq<Chapter>) {
    |got| >= |t.chapters| || Other(t, source)
  }

  /** The title is known to have no chapters in source. */
  predicate KnownNone(t: Title, source: Option<SourceId>) {
    t.chapters == [] && t.read.state == StateNone && t.read.confirmed && source.Some? && t.read.sourceId == source
  }

  /** It counts, and where it found none, the title neither has chapters of its original nor is known to have none. */
  predicate News(t: Title, a: Arrival) {
    InTime(t.read, a.token) && (a.outcome.FoundNone? ==> !RowsOf(t, a.source) && !KnownNone(t, a.source))
  }

  /** What it brings is taken. */
  predicate Brings(t: Title, a: Arrival) {
    News(t, a) && Brought(a).Some? && NoFewer(t, a.source, Brought(a).value)
  }

  /** The title is held for an admin: its record holds it, or taking what it brings would lose chapters. */
  predicate Holds(t: Title, a: Arrival) {
    News(t, a) && (RecordHolds(a) || (Brought(a).Some? && !NoFewer(t, a.source, Brought(a).value)))
  }

  /** It found none, and nothing says so of its original. */
  predicate FindsNone(t: Title, a: Arrival) {
    News(t, a) && a.outcome.FoundNone? && Brought(a).None? && !RecordHolds(a) && !Denied(a)
  }

  /** It failed, of a live claim or none, of an original neither settled nor held. */
  predicate Failure(t: Title, a: Arrival) {
    a.outcome.ReadFailed? && InTime(t.read, a.token) && (a.token == "" || t.read.lapsedToken != Some(a.token)) &&
    !t.Settled(a.source) && !t.read.HeldOf(a.source)
  }

  /** The file itself could not be read as it should. */
  predicate FailsOnFile(t: Title, a: Arrival) {
    (Failure(t, a) && !a.transient) || (News(t, a) && Denied(a))
  }

  predicate BacksOff(r: Read, at: Time) {
    (r.state == StateFailed || r.state == StateUnreadable) && r.failures > 0 && r.nextAttemptAt.Some? &&
    at < r.nextAttemptAt.value
  }

  /** A failure that counts: none does within the backoff of the one before it. */
  predicate Fails(t: Title, a: Arrival) {
    FailsOnFile(t, a) && !BacksOff(t.read, a.at)
  }

  /** The live claim is given back. */
  predicate GivesBack(t: Title, a: Arrival) {
    a.outcome.Released? && a.token != "" && t.read.claimToken == Some(a.token)
  }

  // ---- the fates

  /** What was found is taken: chapters, or a none that is confirmed. */
  predicate TakesSome(fate: Fate) {
    fate.Taking? && (fate.got != [] || fate.confirmed)
  }

  predicate TakesNone(fate: Fate) {
    fate.Taking? && fate.got == [] && !fate.confirmed
  }

  /** Each fate has its condition. */
  lemma FateIs(t: Title, a: Arrival)
    requires Sound(t) && a.WellFormed()
    ensures var fate := FateOf(t, a);
            (Brings(t, a) <==> TakesSome(fate)) &&
            (Brings(t, a) ==> fate.got == Brought(a).value && (fate.confirmed <==> fate.got == []) &&
                              fate.from == ReaderOf(a)) &&
            (Brings(t, a) || Holds(t, a) ==> (fate.recorded <==> a.outcome.FoundNone?)) &&
            (FindsNone(t, a) <==> TakesNone(fate)) &&
            (Holds(t, a) <==> fate.Holding?) &&
            (Fails(t, a) <==> fate.CountedFailure?) &&
            (FailsOnFile(t, a) && BacksOff(t.read, a.at) <==> fate.RepeatedFailure?) &&
            (Failure(t, a) && a.transient <==> fate.TransientFailure?) &&
            (GivesBack(t, a) <==> fate.GivenBack?) &&
            (fate.Ignored? <==> if a.outcome.Released? then !GivesBack(t, a) else a.token != "" && Dead(t, a.token))
  {
    if InTime(t.read, a.token) {
      if a.outcome.FoundNone? {
        NoneIs(t, a);
      } else if a.outcome.FoundChapters? {
        ChaptersAre(t, a);
      }
    }
  }

  lemma SettleIs(t: Title, source: Option<SourceId>, got: seq<Chapter>, from: Reader, recorded: bool)
    requires Sound(t) && (got == [] ==> !RowsOf(t, source) && source.Some?)
    ensures var fate := SettleFate(t, source, got, from, got == [], recorded);
            if NoFewer(t, source, got) then
              fate.Taking? && fate.got == got && fate.confirmed == (got == []) && fate.from == from &&
              fate.recorded == recorded
            else fate == Holding(recorded)
  {
  }

  lemma ChaptersAre(t: Title, a: Arrival)
    requires Sound(t) && a.WellFormed() && a.outcome.FoundChapters? && InTime(t.read, a.token)
    ensures var fate := FateOf(t, a);
            if Brings(t, a) then
              fate.Taking? && fate.got == a.chapters && !fate.confirmed && fate.from == FromHeader && !fate.recorded
            else fate == Holding(false)
  {
    SettleIs(t, a.source, a.chapters, FromHeader, false);
  }

  lemma NoneIs(t: Title, a: Arrival)
    requires Sound(t) && a.WellFormed() && a.outcome.FoundNone? && InTime(t.read, a.token)
    ensures var fate := FateOf(t, a);
            (Brings(t, a) <==> TakesSome(fate)) &&
            (Brings(t, a) ==> fate.got == Brought(a).value && (fate.confirmed <==> fate.got == []) &&
                              fate.from == ReaderOf(a)) &&
            (Brings(t, a) || Holds(t, a) ==> (fate.recorded <==> a.outcome.FoundNone?)) &&
            (FindsNone(t, a) <==> TakesNone(fate)) &&
            (Holds(t, a) <==> fate.Holding?) &&
            (Fails(t, a) <==> fate.CountedFailure?) &&
            (FailsOnFile(t, a) && BacksOff(t.read, a.at) <==> fate.RepeatedFailure?) &&
            (!News(t, a) ==> fate.ClaimOnly?)
  {
    if News(t, a) && Brought(a).Some? {
      SettleIs(t, a.source, Brought(a).value, if Brought(a).value == [] then FromHeader else FromRecord, true);
    }
  }

  // ---- what the title is then

  /** Of a report told by its fate, what the title's read says of its original and its chapters stays. */
  predicate SameFound(t: Title, u: Title) {
    u.chapters == t.chapters && u.read.rowsSourceId == t.read.rowsSourceId && u.read.replaced == t.read.replaced
  }

  predicate SameStanding(t: Title, u: Title) {
    SameFound(t, u) && u.read.state == t.read.state && u.read.sourceId == t.read.sourceId &&
    u.read.confirmed == t.read.confirmed && u.read.failures == t.read.failures && u.read.acceptedAt == t.read.acceptedAt
  }

  /** What is taken makes the title read, or known to have none, of the report's original: its chapters are those
      brought (the same within a millisecond stay as they are), those they replace are kept to undo, the failures are
      over. */
  lemma TakenLeaves(t: Title, a: Arrival)
    requires Sound(t) && a.WellFormed() && Brings(t, a)
    ensures var u, got := Recorded(t, a), Brought(a).value;
            (if got == [] then KnownNone(u, a.source) && u.read.rowsSourceId.None?
             else u.read.state == StateRead && u.read.sourceId == u.read.rowsSourceId == a.source) &&
            Given(t, u, got) && Counted(u, a, got) &&
            u.read.failures == 0 && u.read.transients == 0 && u.read.written == Some(|got|) &&
            u.read.readAt == Some(a.at) && u.read.nextAttemptAt == Some(a.at + 24 * HOUR) &&
            u.read.readFrom == Some(ReaderOf(a)) &&
            u.read.recordSourceId == if a.outcome.FoundNone? then a.source else t.read.recordSourceId
  {
    FateIs(t, a);
    FateFits(t, a);
    TakingLeaves(t, a, FateOf(t, a));
  }

  /** The title was given got: it has the same within a millisecond still, or got as it is kept, and then what that
      replaced to undo. */
  predicate Given(t: Title, u: Title, got: seq<Chapter>) {
    if got != [] && Same(t.chapters, got) then u.chapters == t.chapters && UndoOf(u) == UndoOf(t)
    else u.chapters == Kept(got) && UndoOf(u) == if t.chapters == [] then UndoOf(t) else Some(t.chapters)
  }

  /** As many were found as the report says, or as were brought where those are more. */
  predicate Counted(u: Title, a: Arrival, got: seq<Chapter>) {
    u.read.found in {Some(a.found), Some(|got|)} && a.found <= u.read.found.value && |got| <= u.read.found.value
  }

  lemma TakenGives(t: Title, how: Take, got: seq<Chapter>, source: Option<SourceId>, from: Reader, at: Time)
    requires Takes(t, source, how, got, got == []) && (t.read.rowsSourceId.Some? ==> t.chapters != [])
    ensures var u := Taken(t, how, got, source, from, at);
            Given(t, u, got) && u.read.rowsSourceId == if got == [] then None else source
  {
  }

  lemma TakingLeaves(t: Title, a: Arrival, fate: Fate)
    requires Sound(t) && fate.Taking? && (fate.confirmed <==> fate.got == []) && Fits(t, a, fate)
    requires fate.got == [] || fate.recorded ==> a.source.Some?
    ensures var u, got := Applied(t, a, fate), fate.got;
            (if got == [] then KnownNone(u, a.source) && u.read.rowsSourceId.None?
             else u.read.state == StateRead && u.read.sourceId == u.read.rowsSourceId == a.source) &&
            Given(t, u, got) && Counted(u, a, got) &&
            u.read.failures == 0 && u.read.transients == 0 && u.read.written == Some(|got|) &&
            u.read.readAt == Some(a.at) && u.read.nextAttemptAt == Some(a.at + 24 * HOUR) &&
            u.read.readFrom == Some(fate.from) &&
            u.read.recordSourceId == if fate.recorded then a.source else t.read.recordSourceId
  {
    TakenGives(t.(read := EndClaim(t.read, a.token)), fate.how, fate.got, a.source, fate.from, a.at);
    TakingIs(t, a, fate.how, fate.got, fate.from, fate.confirmed, fate.recorded);
  }

  /** A title held for an admin keeps its chapters, and waits for none but the admin. */
  lemma HeldLeaves(t: Title, a: Arrival)
    requires Sound(t) && a.WellFormed() && Holds(t, a)
    ensures var u := Recorded(t, a);
            SameFound(t, u) && u.read.state == StateHeld && u.read.sourceId == a.source && u.read.failures == 0 &&
            u.read.nextAttemptAt.None? && u.read.readAt == Some(a.at) && u.read.found == Some(a.found) &&
            u.read.recordSourceId == if a.outcome.FoundNone? then a.source else t.read.recordSourceId
  {
    FateIs(t, a);
  }

  /** A none that nothing confirms keeps the title's chapters, and has the record read again before it is handed out. */
  lemma NoneLeaves(t: Title, a: Arrival)
    requires Sound(t) && a.WellFormed() && FindsNone(t, a)
    ensures var u := Recorded(t, a);
            SameFound(t, u) && u.read.state == StateNone && !u.read.confirmed && u.read.sourceId == a.source &&
            u.read.recordSourceId.None? && u.read.failures == 0 && u.read.nextAttemptAt == Some(a.at + 24 * HOUR)
  {
    FateIs(t, a);
    FateFits(t, a);
    UnconfirmedLeaves(t, a, FateOf(t, a));
  }

  lemma UnconfirmedLeaves(t: Title, a: Arrival, fate: Fate)
    requires Sound(t) && TakesNone(fate) && Fits(t, a, fate) && !fate.recorded
    ensures var u := Applied(t, a, fate);
            SameFound(t, u) && u.read.state == StateNone && !u.read.confirmed && u.read.sourceId == a.source &&
            u.read.recordSourceId.None? && u.read.failures == 0 && u.read.nextAttemptAt == Some(a.at + 24 * HOUR)
  {
  }

  /** A failure that counts is one more, waits its backoff, and makes the title unreadable from the fifth on; one within
      the backoff of the one before changes nothing but when the title was read. Neither takes a chapter away. */
  lemma FailureLeaves(t: Title, a: Arrival)
    requires Sound(t) && a.WellFormed() && FailsOnFile(t, a)
    ensures var u := Recorded(t, a);
            SameFound(t, u) && u.read.readAt == Some(a.at) &&
            if BacksOff(t.read, a.at) then SameStanding(t, u) && u.read.nextAttemptAt == t.read.nextAttemptAt
            else u.read.failures == t.read.failures + 1 && u.read.sourceId == a.source && !u.read.confirmed &&
                 u.read.state == (if t.read.failures >= 4 then StateUnreadable else StateFailed) &&
                 u.read.nextAttemptAt == Some(a.at + Backoff(t.read.failures + 1))
  {
    FateIs(t, a);
  }

  /** A failure of the storage counts as none, and waits its own backoff. */
  lemma TransientLeaves(t: Title, a: Arrival)
    requires Sound(t) && a.WellFormed() && Failure(t, a) && a.transient
    ensures var u := Recorded(t, a);
            SameFound(t, u) && u.read.failures == t.read.failures && u.read.transients == t.read.transients + 1 &&
            u.read.state == (if t.read.state == StatePending then StateFailed else t.read.state) &&
            u.read.sourceId == t.read.sourceId && u.read.nextAttemptAt == Some(a.at + Backoff(t.read.transients + 1))
  {
    FateIs(t, a);
  }

  /** A claim given back has its title wait a quarter of an hour at least; nothing else of it changes. */
  lemma ReleaseLeaves(t: Title, a: Arrival)
    requires Sound(t) && a.WellFormed() && GivesBack(t, a)
    ensures var u := Recorded(t, a);
            SameStanding(t, u) && u.read.readAt == t.read.readAt && u.read.claimToken.None? &&
            u.read.nextAttemptAt.Some? && u.read.nextAttemptAt.value >= a.at + 900_000 &&
            u.read.nextAttemptAt in {t.read.nextAttemptAt, Some(a.at + 900_000)} &&
            (t.read.nextAttemptAt.Some? ==> t.read.nextAttemptAt.value <= u.read.nextAttemptAt.value)
  {
    FateIs(t, a);
  }

  /** Every other report ends its claim, where the title knows it, and changes nothing else at all. */
  lemma OthersLeave(t: Title, a: Arrival)
    requires Sound(t) && a.WellFormed()
    requires !Brings(t, a) && !Holds(t, a) && !FindsNone(t, a) && !FailsOnFile(t, a) && !Failure(t, a)
    requires !GivesBack(t, a)
    ensures var u := Recorded(t, a);
            u == t.(read := t.read.(claimedAt := u.read.claimedAt, claimToken := u.read.claimToken,
                                    lapsedToken := u.read.lapsedToken, lapsedClaimedAt := u.read.lapsedClaimedAt)) &&
            (a.outcome.Released? ==> u == t) &&
            (!a.outcome.Released? && a.token != "" ==> Dead(u, a.token))
  {
    FateIs(t, a);
  }

  // ---- the catalog's read of a record

  /** The record of source may change the title: it is under no claim, and its original neither settled nor held. */
  predicate Open(t: Title, source: SourceId) {
    t.read.claimedAt.None? && !t.read.HeldOf(Some(source)) && !t.Settled(Some(source))
  }

  predicate RecordBrings(t: Title, source: SourceId, rec: RecordRead) {
    Open(t, source) && Clear(rec) && NoFewer(t, Some(source), rec.chapters)
  }

  /** The record holds the title itself, or taking its chapters would lose some: held where the original is on disk. */
  predicate HeldByRecord(t: Title, source: SourceId, rec: RecordRead, present: bool) {
    Open(t, source) && present && (rec.held || (Clear(rec) && !NoFewer(t, Some(source), rec.chapters)))
  }

  lemma RecordFateIs(t: Title, source: SourceId, rec: RecordRead, present: bool)
    ensures var fate := RecordFateOf(t, source, rec, present);
            (RecordBrings(t, source, rec) <==> fate.Settling?) &&
            (HeldByRecord(t, source, rec, present) <==> fate == Noted(true)) && (Open(t, source) <==> !fate.Left?)
  {
  }

  /** What a record brings settles its original, as a report's does; one that holds the title leaves it to an admin; any
      other is only noted, so that the title may be handed out; a title not open to it stays as it is. */
  lemma RecordLeaves(t: Title, source: SourceId, rec: RecordRead, present: bool, at: Time)
    requires Sound(t)
    ensures var u, got := FromRecordTaken(t, source, rec, present, at), rec.chapters;
            if !Open(t, source) then u == t
            else if RecordBrings(t, source, rec) then
              (if got == [] then KnownNone(u, Some(source)) && u.read.rowsSourceId.None?
               else u.read.state == StateRead && u.read.sourceId == u.read.rowsSourceId == Some(source)) &&
              Given(t, u, got) && u.read.failures == 0 && u.read.transients == 0 && u.read.found == Some(rec.found) &&
              u.read.written == Some(|got|) && u.read.readFrom == Some(FromRecord) && u.read.readAt == Some(at) &&
              u.read.recordSourceId == Some(source) && u.read.nextAttemptAt == Some(at + 24 * HOUR)
            else if HeldByRecord(t, source, rec, present) then
              SameFound(t, u) && u.read.state == StateHeld && u.read.sourceId == Some(source) &&
              u.read.nextAttemptAt.None? && u.read.recordSourceId == Some(source)
            else u == t.(read := t.read.(recordSourceId := Some(source), recordAt := Some(at)))
  {
    RecordFateIs(t, source, rec, present);
    RecordFateFits(t, source, rec, present);
    if RecordBrings(t, source, rec) {
      TakenGives(t, RecordFateOf(t, source, rec, present).how, rec.chapters, Some(source), FromRecord, at);
    }
  }

  // ---- the hand-out

  /** A title handed out is under the new claim, once more than before; what was found of it stays, and the claim that
      lapsed last. */
  lemma HandingOutLeaves(t: Title, token: string, at: Time)
    ensures var u := Next(t, HandingOut(token, at));
            SameStanding(t, u) && u.read.claimToken == Some(token) &&
            u.read.claimedAt == u.read.lastClaimedAt == Some(at) &&
            u.read.attempts == t.read.attempts + 1 && u.read.lapsedToken == t.read.lapsedToken &&
            u.read.lapsedClaimedAt == t.read.lapsedClaimedAt && u.read.nextAttemptAt == t.read.nextAttemptAt
  {
  }

  /** A title whose original was not there, whose record was slow, or whose lease ended waits the storage's backoff: one
      more wait on the storage, no failure; a title never read has failed then, but for a slow record. */
  lemma WaitLeaves(t: Title, e: Event)
    requires e.Missing? || e.RecordSlow? || (e.Expiring? && t.read.claimedAt.Some? &&
                                             t.read.claimedAt.value + e.lease <= e.at)
    ensures var u := Next(t, e);
            SameFound(t, u) && u.read.failures == t.read.failures && u.read.sourceId == t.read.sourceId &&
            u.read.transients == t.read.transients + 1 && u.read.readAt == t.read.readAt &&
            u.read.nextAttemptAt == Some(e.at + Backoff(t.read.transients + 1)) &&
            u.read.state == (if t.read.state == StatePending && !e.RecordSlow? then StateFailed else t.read.state) &&
            (e.Expiring? ==> u.read.claimedAt.None? && u.read.lapsedToken == t.read.claimToken)
  {
  }

  /** A claim within its lease stays. */
  lemma LeaseStands(t: Title, lease: Time, at: Time)
    requires t.read.claimedAt.Some? ==> at < t.read.claimedAt.value + lease
    ensures Next(t, Expiring(lease, at)) == t
  {
  }
}
