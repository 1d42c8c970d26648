/**
 A title's read as the catalog keeps it, and what each step makes of it (internal/chapters/chapters.go and backfill.go):
 a report's fate is decided first, then applied. These functions specify the catalog's methods (Catalog).
 */
module Reads {
  import opened Wrappers
  import opened Text
  import opened Chapters
  import opened Records

  type Time = int

  // durations, ms
  const MINUTE := 60_000
  const MAX_FAILURES := 5
  const FIRST_BACKOFF := HOUR
  const MAX_BACKOFF := 24 * HOUR
  const RELEASE_WAIT := 15 * MINUTE
  const SETTLED_WAIT := 24 * HOUR

  datatype State = StatePending | StateRead | StateNone | StateFailed | StateUnreadable | StateHeld

  datatype Reader = FromHeader | FromRecord | FromCatalog

  datatype Who = ByReader(reader: Reader) | ByAdmin

  /** The chapters a read replaced last: when, by whom, of which original they were. */
  datatype Undo = Undo(at: Time, who: Who, sourceId: Option<SourceId>, chapters: seq<Chapter>)

  /** A title's last read. A title without a row has Fresh. */
  datatype Read = Read(
    state: State, readFrom: Option<Reader>, confirmed: bool,
    sourceId: Option<SourceId>, rowsSourceId: Option<SourceId>, replaced: Option<Undo>,
    found: Option<int>, written: Option<int>, readAt: Option<Time>,
    recordSourceId: Option<SourceId>, recordAt: Option<Time>,
    claimedAt: Option<Time>, claimToken: Option<string>, lastClaimedAt: Option<Time>,
    lapsedToken: Option<string>, lapsedClaimedAt: Option<Time>,
    attempts: int, failures: int, transients: int,
    nextAttemptAt: Option<Time>, acceptedAt: Option<Time>)
  {
    predicate Of(source: Option<SourceId>) {
      sourceId.Some? && sourceId == source
    }

    predicate HeldOf(source: Option<SourceId>) {
      state == StateHeld && Of(source)
    }

    /** The read settles the title's original source, whose title has chapters in the catalog or not. */
    predicate Settles(source: Option<SourceId>, chapters: bool) {
      source.Some? && !HeldOf(source) &&
      ((chapters && rowsSourceId == source) ||
       (Of(source) && ((state == StateNone && confirmed && !chapters) ||
                       (state == StateUnreadable && acceptedAt.Some?))))
    }

    predicate Owns(token: string) {
      token != "" && claimedAt.Some? && claimToken == Some(token)
    }

    predicate Lapsed(token: string) {
      token != "" && lapsedToken == Some(token)
    }

    /** A read was reported since the claim the token names was handed out. */
    predicate Newer(token: string) {
      var claimed := if Owns(token) then claimedAt else if Lapsed(token) then lapsedClaimedAt else None;
      claimed.Some? && readAt.Some? && readAt.value > claimed.value && state in {StateRead, StateNone, StateHeld}
    }
  }

  const Fresh := Read(StatePending, None, false, None, None, None, None, None, None, None, None, None, None, None, None,
                      None, 0, 0, 0, None, None)

  /** A title: its read and its chapters. */
  datatype Title = Title(read: Read, chapters: seq<Chapter>) {
    predicate Settled(source: Option<SourceId>) {
      read.Settles(source, chapters != [])
    }
  }

  // ---- the waits

  /** The wait after the n-th failure in a row: an hour, doubled after each, a day at most. */
  function Backoff(n: int): (d: Time)
    ensures FIRST_BACKOFF <= d <= MAX_BACKOFF
  {
    if n <= 1 then HOUR else if n == 2 then 2 * HOUR else if n == 3 then 4 * HOUR
    else if n == 4 then 8 * HOUR else if n == 5 then 16 * HOUR else MAX_BACKOFF
  }

  /** The first failure waits an hour, every other twice as long as the one before it, a day at most. */
  lemma BackoffDoubles(n: int)
    ensures n <= 1 ==> Backoff(n) == 3600_000
    ensures n >= 1 ==> Backoff(n + 1) == if 2 * Backoff(n) < 86400_000 then 2 * Backoff(n) else 86400_000
  {
  }

  /** Doubling as backoff does meets the ladder above. */
  method BackoffOf(n: int) returns (d: Time)
    ensures d == Backoff(n)
  {
    d := FIRST_BACKOFF;
    var i := 1;
    while i < n && d < MAX_BACKOFF
      invariant 1 <= i <= 6 && (i == 1 || i <= n)
      invariant d == if i == 1 then HOUR else if i == 2 then 2 * HOUR else if i == 3 then 4 * HOUR
                     else if i == 4 then 8 * HOUR else if i == 5 then 16 * HOUR else 32 * HOUR
    {
      d := d * 2;
      i := i + 1;
    }
    d := if d < MAX_BACKOFF then d else MAX_BACKOFF;
  }

  // ---- a report

  datatype ReadReport = ReadReport(path: string, error: string, transient: bool, found: Option<int>)

  datatype Report = Report(read: ReadReport, chapters: Option<seq<Chapter>>, token: string, released: bool)

  datatype Outcome = Released | ReadFailed | FoundNone | FoundChapters | Unusable

  /** What the report would leave its title in, or that it can't be taken. */
  function OutcomeOf(r: Report): Outcome {
    if r.released then Released
    else if TrimSpace(r.read.path) == "" || (r.read.found.Some? && r.read.found.value < 0) then Unusable
    else if TrimSpace(r.read.error) != "" then (if r.chapters.Some? then Unusable else ReadFailed)
    else if r.chapters.None? || exists i :: 0 <= i < |r.chapters.value| &&
                                  (r.chapters.value[i].startMs < 0 ||
                                   r.chapters.value[i].endMs <= r.chapters.value[i].startMs)
      then Unusable
    else if r.chapters.value == [] then FoundNone else FoundChapters
  }

  /** A chapter that can't be kept: it starts before 0, or ends where it starts or before. */
  predicate Bad(c: Chapter) {
    c.startMs < 0 || c.endMs <= c.startMs
  }

  predicate Blank(s: string) {
    TrimSpace(s) == ""
  }

  /** A report that is not given back can be used exactly when it names its file, finds no number below 0, and either
      fails and brings no list, or lists chapters none of which is bad. */
  lemma OutcomeIs(r: Report)
    ensures OutcomeOf(r).Released? <==> r.released
    ensures !r.released ==>
              (OutcomeOf(r).Unusable? <==>
               Blank(r.read.path) || r.read.found.GetOr(0) < 0 || Blank(r.read.error) == r.chapters.None? ||
               (r.chapters.Some? && exists c :: c in r.chapters.value && Bad(c)))
    ensures !r.released && !OutcomeOf(r).Unusable? ==>
              (OutcomeOf(r).ReadFailed? <==> !Blank(r.read.error)) &&
              (OutcomeOf(r).FoundNone? <==> r.chapters == Some([])) &&
              (OutcomeOf(r).FoundChapters? <==> r.chapters.Some? && r.chapters.value != [])
  {
    if r.chapters.Some? {
      var chs := r.chapters.value;
      if c :| c in chs && Bad(c) {
        var i :| 0 <= i < |chs| && chs[i] == c;
      }
      forall i | 0 <= i < |chs| && Bad(chs[i]) ensures exists c :: c in chs && Bad(c) {
        assert chs[i] in chs;
      }
    }
  }

  /** A report as its title's step reads it: what it is of (source), what that original's record says where it found
      none, and what the compliance check's record says where that one can't. */
  datatype Arrival = Arrival(outcome: Outcome, token: string, chapters: seq<Chapter>, found: int, transient: bool,
                             source: Option<SourceId>, record: Option<RecordRead>, says: Option<bool>, at: Time)
  {
    ghost predicate WellFormed() {
      !outcome.Unusable? && (outcome.FoundChapters? <==> chapters != []) &&
      (record.Some? <==> outcome.FoundNone? && source.Some?) &&
      (says.Some? ==> record.Some? && !record.value.Says() && !record.value.held)
    }
  }

  function ArrivalOf(r: Report, source: Option<SourceId>, record: RecordRead, says: Option<bool>,
                     at: Time): (a: Arrival)
    requires !OutcomeOf(r).Unusable?
    ensures a.WellFormed()
  {
    var outcome := OutcomeOf(r);
    var of := if r.released then None else source;
    var rec := if outcome.FoundNone? && of.Some? then Some(record) else None;
    Arrival(outcome, TrimSpace(r.token), if outcome.FoundChapters? then r.chapters.value else [],
            r.read.found.GetOr(0), r.read.transient, of, rec,
            if rec.Some? && !record.Says() && !record.held then says else None, at)
  }

  /** What becomes of a report: nothing (Ignored); its claim is given back, or ends and nothing else; a failure of the
      storage or the worker, one counted, one within the last one's backoff; the title is held; what it found is taken
      (unconfirmed with chapters of another or no original: TakeStay, the chapters stay, the none is kept). */
  datatype Fate =
    | Ignored
    | GivenBack
    | ClaimOnly
    | TransientFailure
    | CountedFailure
    | RepeatedFailure
    | Holding(recorded: bool)
    | Taking(how: Take, got: seq<Chapter>, from: Reader, confirmed: bool, recorded: bool)

  function FailureFate(kept: Read, at: Time): Fate {
    if kept.failures > 0 && kept.state in {StateFailed, StateUnreadable} && kept.nextAttemptAt.Some? &&
       at < kept.nextAttemptAt.value
    then RepeatedFailure else CountedFailure
  }

  function SettleFate(t: Title, source: Option<SourceId>, got: seq<Chapter>, from: Reader, confirmed: bool,
                      recorded: bool): Fate
  {
    var how := TakeOf(t.chapters, got, t.read.rowsSourceId, source);
    if got == [] && !confirmed && t.chapters != [] then Taking(TakeStay, got, from, confirmed, recorded)
    else if how.TakeHold? then Holding(recorded)
    else if how.TakeStay? then ClaimOnly
    else Taking(how, got, from, confirmed, recorded)
  }

  /** The fate of a read of the header that found none. */
  function NoneFate(t: Title, a: Arrival): Fate {
    var kept := t.read;
    if t.chapters != [] && kept.rowsSourceId.Some? && kept.rowsSourceId == a.source then ClaimOnly
    else if kept.state == StateNone && kept.confirmed && kept.Of(a.source) && t.chapters == [] then ClaimOnly
    else if a.record.Some? && a.record.value.held then Holding(true)
    else if a.record.Some? && a.record.value.Says() && a.record.value.chapters != [] then
      SettleFate(t, a.source, a.record.value.chapters, FromRecord, false, true)
    else if (a.record.Some? && a.record.value.Says()) || a.says == Some(false) then
      SettleFate(t, a.source, [], FromHeader, true, true)
    else if a.record.Some? && a.says == Some(true) && !a.record.value.err then FailureFate(kept, a.at)
    else SettleFate(t, a.source, [], FromHeader, false, false)
  }

  /** The fate of a read that failed. */
  function FailedFate(t: Title, a: Arrival): Fate {
    var kept := t.read;
    if kept.Lapsed(a.token) || kept.Newer(a.token) || t.Settled(a.source) || kept.HeldOf(a.source) then ClaimOnly
    else if a.transient then TransientFailure
    else FailureFate(kept, a.at)
  }

  function FateOf(t: Title, a: Arrival): Fate {
    var kept := t.read;
    var owns, lapsed := kept.Owns(a.token), kept.Lapsed(a.token);
    if a.token != "" && !owns && !lapsed then Ignored
    else if a.outcome.Released? then (if owns then GivenBack else Ignored)
    else if a.outcome.ReadFailed? then FailedFate(t, a)
    else if kept.Newer(a.token) then ClaimOnly
    else if a.outcome.FoundChapters? then SettleFate(t, a.source, a.chapters, FromHeader, false, false)
    else NoneFate(t, a)
  }

  // ---- what a fate makes of its title

  /** The claim the token names ends: the live one, or the last lapsed one. */
  function EndClaim(r: Read, token: string): Read {
    var owns, lapsed := r.Owns(token), r.Lapsed(token);
    r.(claimedAt := if owns then None else r.claimedAt,
       claimToken := if owns then None else r.claimToken,
       lapsedToken := if lapsed then None else r.lapsedToken,
       lapsedClaimedAt := if lapsed then None else r.lapsedClaimedAt)
  }

  /** got is the title's, of source: the chapters it replaces are kept to undo, those that are got stay as they are. */
  function Put(t: Title, got: seq<Chapter>, source: Option<SourceId>, who: Who, at: Time): Title {
    var kept := got != [] && Same(t.chapters, got);
    Title(t.read.(
            replaced := if kept || t.chapters == [] then t.read.replaced
                        else Some(Undo(at, who, t.read.rowsSourceId, t.chapters)),
            rowsSourceId := if got == [] then None else source),
          if kept then t.chapters else Kept(got))
  }

  function Later(a: Option<Time>, b: Time): Time {
    if a.Some? && a.value > b then a.value else b
  }

  function Max(a: int, b: int): int {
    if a > b then a else b
  }

  /** The chapters of a read that takes them as how says. */
  function Taken(t: Title, how: Take, got: seq<Chapter>, source: Option<SourceId>, from: Reader, at: Time): Title {
    match how
    case TakeKeep => t.(read := t.read.(rowsSourceId := source))
    case TakeWrite => Put(t, got, source, ByReader(from), at)
    case TakeNone => Put(t, got, source, ByReader(from), at)
    case _ => t
  }

  /** What a read found is kept on the row of u, its chapters taken. */
  function ReadKept(u: Title, a: Arrival, got: seq<Chapter>, from: Reader, confirmed: bool, recorded: bool): Title {
    var read := recorded && a.source.Some?;
    u.(read := u.read.(state := if got == [] then StateNone else StateRead, readFrom := Some(from),
                       confirmed := confirmed, sourceId := a.source, found := Some(Max(a.found, |got|)),
                       written := Some(|got|), readAt := Some(a.at), failures := 0, transients := 0,
                       nextAttemptAt := Some(a.at + SETTLED_WAIT),
                       recordSourceId := if read then a.source else if got == [] && !confirmed then None
                                         else u.read.recordSourceId,
                       recordAt := if read then Some(a.at) else u.read.recordAt))
  }

  function Applied(t: Title, a: Arrival, fate: Fate): Title {
    var r := EndClaim(t.read, a.token);
    match fate
    case Ignored => t
    case GivenBack => t.(read := r.(nextAttemptAt := Some(Later(r.nextAttemptAt, a.at + RELEASE_WAIT))))
    case ClaimOnly => t.(read := r)
    case TransientFailure =>
      t.(read := r.(state := if r.state == StatePending then StateFailed else r.state, transients := r.transients + 1,
                    nextAttemptAt := Some(a.at + Backoff(r.transients + 1)), readAt := Some(a.at)))
    case CountedFailure =>
      var f := r.failures + 1;
      t.(read := r.(state := if f >= MAX_FAILURES then StateUnreadable else StateFailed, readFrom := Some(FromHeader),
                    confirmed := false, sourceId := a.source, found := None, written := None, readAt := Some(a.at),
                    failures := f, transients := 0, nextAttemptAt := Some(a.at + Backoff(f))))
    case RepeatedFailure => t.(read := r.(readAt := Some(a.at)))
    case Holding(recorded) =>
      t.(read := r.(state := StateHeld, sourceId := a.source, found := Some(a.found), written := None,
                    readAt := Some(a.at), failures := 0, transients := 0, nextAttemptAt := None,
                    recordSourceId := if recorded && a.source.Some? then a.source else r.recordSourceId,
                    recordAt := if recorded && a.source.Some? then Some(a.at) else r.recordAt))
    case Taking(how, got, from, confirmed, recorded) =>
      ReadKept(Taken(t.(read := r), how, got, a.source, from, a.at), a, got, from, confirmed, recorded)
  }

  /** A title after a report of its header's read (Record). */
  function Recorded(t: Title, a: Arrival): Title {
    Applied(t, a, FateOf(t, a))
  }

  // ---- the catalog's read of a source record

  /** The record's reading leaves the title as it is, notes why it settled nothing, or settles it. */
  datatype RecordFate = Left | Noted(held: bool) | Settling(how: Take)

  function RecordFateOf(t: Title, source: SourceId, rec: RecordRead, present: bool): RecordFate {
    var how := TakeOf(t.chapters, rec.chapters, t.read.rowsSourceId, Some(source));
    if t.read.claimedAt.Some? || t.read.HeldOf(Some(source)) || t.Settled(Some(source)) then Left
    else if rec.held then Noted(present)
    else if !rec.Says() then Noted(false)
    else if how.TakeHold? then Noted(present)
    else if how.TakeStay? then Noted(false)
    else Settling(how)
  }

  function FromRecordApplied(t: Title, source: SourceId, rec: RecordRead, fate: RecordFate, at: Time): Title {
    match fate
    case Left => t
    case Noted(held) =>
      t.(read := t.read.(recordSourceId := Some(source), recordAt := Some(at),
                         state := if held then StateHeld else t.read.state,
                         sourceId := if held then Some(source) else t.read.sourceId,
                         nextAttemptAt := if held then None else t.read.nextAttemptAt))
    case Settling(how) =>
      var u := Taken(t, how, rec.chapters, Some(source), FromRecord, at);
      u.(read := u.read.(state := if rec.chapters == [] then StateNone else StateRead, readFrom := Some(FromRecord),
                         confirmed := rec.chapters == [], sourceId := Some(source), found := Some(rec.found),
                         written := Some(|rec.chapters|), readAt := Some(at), recordSourceId := Some(source),
                         recordAt := Some(at), failures := 0, transients := 0,
                         nextAttemptAt := Some(at + SETTLED_WAIT)))
  }

  function FromRecordTaken(t: Title, source: SourceId, rec: RecordRead, present: bool, at: Time): Title {
    FromRecordApplied(t, source, rec, RecordFateOf(t, source, rec, present), at)
  }

  /** A record asked for and not answered in time: its title waits a backoff. */
  function RecordLater(t: Title, at: Time): Title {
    t.(read := t.read.(transients := t.read.transients + 1,
                       nextAttemptAt := Some(at + Backoff(t.read.transients + 1))))
  }

  // ---- the hand-out's steps

  function HandedOutRow(r: Read, token: string, at: Time): Read {
    r.(claimedAt := Some(at), claimToken := Some(token), lastClaimedAt := Some(at), attempts := r.attempts + 1)
  }

  /** A title whose original is not there to read: it waits a backoff (transient). */
  function NotThereRow(r: Read, at: Time): Read {
    r.(transients := r.transients + 1, nextAttemptAt := Some(at + Backoff(r.transients + 1)),
       state := if r.state == StatePending then StateFailed else r.state)
  }

  predicate Overdue(r: Read, at: Time, lease: Time) {
    r.claimedAt.Some? && r.claimedAt.value <= at - lease
  }

  /** A claim whose lease ended is taken back, its token kept as the lapsed one's (expire). */
  function ExpiredRow(r: Read, at: Time, lease: Time): Read {
    if !Overdue(r, at, lease) then r
    else
      r.(claimedAt := None, claimToken := None, lapsedToken := r.claimToken, lapsedClaimedAt := r.claimedAt,
         transients := r.transients + 1, nextAttemptAt := Some(at + Backoff(r.transients + 1)),
         state := if r.state == StatePending then StateFailed else r.state)
  }

  // ---- an admin's decisions

  datatype Side = TakeCatalog | TakeRecord

  /** The chapters an acceptance takes; none when it is refused. */
  function AcceptedChapters(t: Title, side: Side, rec: RecordRead): Option<seq<Chapter>> {
    if side.TakeCatalog? then Some(t.chapters)
    else if rec.Says() then Some(rec.chapters)
    else if rec.held then Some([]) else None
  }

  predicate CanAccept(t: Title, side: Side, current: Option<SourceId>, rec: RecordRead) {
    current.Some? && t.read.Of(current) &&
    ((t.read.state == StateUnreadable && side.TakeCatalog?) ||
     (t.read.state == StateHeld && AcceptedChapters(t, side, rec).Some?))
  }

  function Accepted(t: Title, side: Side, current: Option<SourceId>, rec: RecordRead, at: Time): Title {
    if !CanAccept(t, side, current, rec) then t
    else if t.read.state == StateUnreadable then t.(read := t.read.(acceptedAt := Some(at)))
    else
      var got := AcceptedChapters(t, side, rec).value;
      var u := Put(t, got, current, ByAdmin, at);
      u.(read := u.read.(state := if got == [] then StateNone else StateRead,
                         readFrom := Some(if side.TakeRecord? then FromRecord else FromCatalog), confirmed := got == [],
                         written := Some(|got|), acceptedAt := Some(at), nextAttemptAt := None))
  }

  predicate CanRevert(t: Title) {
    t.read.replaced.Some? && t.read.replaced.value.chapters != []
  }

  function Reverted(t: Title, current: Option<SourceId>, at: Time): Title {
    if !CanRevert(t) then t
    else
      var got := t.read.replaced.value.chapters;
      var r := if t.chapters == [] then t.read.(replaced := None) else t.read;
      var u := Put(t.(read := r), got, current, ByAdmin, at);
      u.(read := u.read.(state := StateRead, readFrom := Some(FromCatalog), confirmed := false, sourceId := current,
                         written := Some(|got|), acceptedAt := Some(at), nextAttemptAt := None))
  }

  // ---- the protocol

  datatype Event =
    | Reporting(arrival: Arrival)
    | RecordReading(source: SourceId, rec: RecordRead, present: bool, at: Time)
    | RecordSlow(at: Time)
    | HandingOut(token: string, at: Time)
    | Missing(at: Time)
    | Expiring(lease: Time, at: Time)
    | Accepting(side: Side, current: Option<SourceId>, rec: RecordRead, at: Time)
    | Reverting(current: Option<SourceId>, at: Time)
  {
    function When(): Time {
      if Reporting? then arrival.at else at
    }

    predicate ByAnAdmin() {
      Accepting? || Reverting?
    }

    /** The original the event's read is of, when it is a read. */
    function SourceRead(): Option<SourceId> {
      if Reporting? then arrival.source else if RecordReading? then Some(source) else None
    }
  }

  function Next(t: Title, e: Event): Title {
    match e
    case Reporting(a) => Recorded(t, a)
    case RecordReading(source, rec, present, at) => FromRecordTaken(t, source, rec, present, at)
    case RecordSlow(at) => RecordLater(t, at)
    case HandingOut(token, at) => t.(read := HandedOutRow(t.read, token, at))
    case Missing(at) => t.(read := NotThereRow(t.read, at))
    case Expiring(lease, at) => t.(read := ExpiredRow(t.read, at, lease))
    case Accepting(side, current, rec, at) => Accepted(t, side, current, rec, at)
    case Reverting(current, at) => Reverted(t, current, at)
  }

  function Run(t: Title, es: seq<Event>): Title
    decreases |es|
  {
    if es == [] then t else Run(Next(t, es[0]), es[1..])
  }

  ghost predicate WellFormed(es: seq<Event>) {
    forall i :: 0 <= i < |es| && es[i].Reporting? ==> es[i].arrival.WellFormed()
  }
}
