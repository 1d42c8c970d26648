/**
 The catalog's chapter reads: its tables, and every transaction that changes them (internal/chapters/chapters.go and
 backfill.go), each proved to make of its title what Reads specifies and to leave every other title as it was.
 */
module Catalog {
  import opened Wrappers
  import opened Sets
  import opened Text
  import Arrivals
  import opened Chapters
  import opened Records
  import opened Reads
  import opened Pace
  import opened HandingOut

  /** The backfill's settings: titles in flight, titles an hour, records an hour, how long a claim is a worker's. */
  datatype Settings = Settings(inflight: nat, rate: nat, records: nat, lease: Time)

  datatype Answer = BadReport | NoTitle | Recorded(read: Read)

  const CANDIDATES := 8
  const KEPT_CLAIMS := 48 * HOUR

  /** Taking chapters and ending a claim touch other columns. */
  lemma ClaimsApart(t: Title, how: Take, got: seq<Chapter>, source: Option<SourceId>, from: Reader, token: string,
                    at: Time)
    ensures var u := Taken(t, how, got, source, from, at);
            Taken(t.(read := EndClaim(t.read, token)), how, got, source, from, at) ==
            u.(read := EndClaim(u.read, token))
  {
  }

  /** The hand the hand-out comes to, of the rows with no claim lapsed, recent titles handed out in the last hour. */
  function HandedOut(settings: Settings, rows: Rows, chapters: map<ItemId, seq<Chapter>>, recent: nat,
                     listing: seq<Listed>, looks: map<ItemId, Look>, uuid: nat -> string, limit: int, now: Time): Hand
  {
    var n := MostOf(settings.inflight, settings.rate, limit, |ClaimedIn(rows)|, recent);
    Handed(Hand(rows, [], {}), CandidatesIn(rows, chapters, listing, settings.records == 0, now, n * CANDIDATES),
           looks, uuid, n, now)
  }

  lemma NoRoom(settings: Settings, rows: Rows, chapters: map<ItemId, seq<Chapter>>, recent: nat, listing: seq<Listed>,
               looks: map<ItemId, Look>, uuid: nat -> string, limit: int, now: Time)
    requires MostOf(settings.inflight, settings.rate, limit, |ClaimedIn(rows)|, recent) == 0
    ensures HandedOut(settings, rows, chapters, recent, listing, looks, uuid, limit, now) == Hand(rows, [], {})
  {
  }

  /** Of every title handed out: its original is listed and there, and not settled; it is under no claim and not given
      up, its original is not held, its backoff is over, and its record was read, where records are. */
  lemma HandedWaited(settings: Settings, rows: Rows, chapters: map<ItemId, seq<Chapter>>, recent: nat,
                     listing: seq<Listed>, looks: map<ItemId, Look>, uuid: nat -> string, limit: int, now: Time, k: nat)
    requires Distinct(listing)
    requires k < |HandedOut(settings, rows, chapters, recent, listing, looks, uuid, limit, now).items|
    ensures var j := HandedOut(settings, rows, chapters, recent, listing, looks, uuid, limit, now).items[k];
            var t := TitleIn(rows, chapters, j.id);
            j.token == uuid(k) && Listed(j.id, j.source) in listing && LookOf(looks, j.id) == There &&
            !t.Settled(Some(j.source)) && t.read.claimedAt.None? && t.read.state != StateUnreadable &&
            (t.read.sourceId == Some(j.source) ==> t.read.state != StateHeld) &&
            (t.read.nextAttemptAt.Some? ==> t.read.nextAttemptAt.value <= now) &&
            (settings.records > 0 ==> t.read.recordSourceId == Some(j.source))
  {
    var n := MostOf(settings.inflight, settings.rate, limit, |ClaimedIn(rows)|, recent);
    var cs := CandidatesIn(rows, chapters, listing, settings.records == 0, now, n * CANDIDATES);
    CandidatesWait(rows, chapters, listing, settings.records == 0, now, n * CANDIDATES);
    HandedJobs(Hand(rows, [], {}), cs, looks, uuid, n, now, k);
  }

  /** A listed title of which all that holds is handed out, or waits a backoff for its original, but where n titles are
      handed out, n times CANDIDATES wait before it, or the storage did not answer a look. */
  lemma WaitedHanded(settings: Settings, rows: Rows, chapters: map<ItemId, seq<Chapter>>, recent: nat,
                     listing: seq<Listed>, looks: map<ItemId, Look>, uuid: nat -> string, limit: int, now: Time,
                     c: Listed)
    requires Distinct(listing) && c in listing
    requires var t := TitleIn(rows, chapters, c.id);
             !t.Settled(Some(c.source)) && t.read.claimedAt.None? && t.read.state != StateUnreadable &&
             (t.read.sourceId == Some(c.source) ==> t.read.state != StateHeld) &&
             (t.read.nextAttemptAt.Some? ==> t.read.nextAttemptAt.value <= now) &&
             (settings.records > 0 ==> t.read.recordSourceId == Some(c.source))
    ensures var n := MostOf(settings.inflight, settings.rate, limit, |ClaimedIn(rows)|, recent);
            var cs := CandidatesIn(rows, chapters, listing, settings.records == 0, now, n * CANDIDATES);
            var g := HandedOut(settings, rows, chapters, recent, listing, looks, uuid, limit, now);
            !Untouched(g, c.id) || |g.items| >= n || (c !in cs && |cs| == n * CANDIDATES) ||
            exists x :: x in cs && LookOf(looks, x.id) in {Slow, Unasked}
  {
    var n := MostOf(settings.inflight, settings.rate, limit, |ClaimedIn(rows)|, recent);
    var cs := CandidatesIn(rows, chapters, listing, settings.records == 0, now, n * CANDIDATES);
    CandidatesWait(rows, chapters, listing, settings.records == 0, now, n * CANDIDATES);
    if c in cs {
      var k :| 0 <= k < |cs| && cs[k] == c;
      HandedAll(Hand(rows, [], {}), cs, looks, uuid, n, now, k);
      if i :| 0 <= i <= k && LookOf(looks, cs[i].id) in {Slow, Unasked} {
        assert cs[i] in cs;
      }
    }
  }

  /** Where there is room, and a title that waits whose original is there, a title is handed out. */
  lemma SomeHandedOut(settings: Settings, rows: Rows, chapters: map<ItemId, seq<Chapter>>, recent: nat,
                      listing: seq<Listed>, looks: map<ItemId, Look>, uuid: nat -> string, limit: int, now: Time,
                      c: Listed)
    requires Distinct(listing) && |ClaimedIn(rows)| < settings.inflight && recent < settings.rate
    requires c in listing && Waiting(TitleIn(rows, chapters, c.id), c.source, settings.records == 0, now)
    requires forall x :: x in listing ==> LookOf(looks, x.id) == There
    ensures HandedOut(settings, rows, chapters, recent, listing, looks, uuid, limit, now).items != []
  {
    var n := MostOf(settings.inflight, settings.rate, limit, |ClaimedIn(rows)|, recent);
    CandidatesWait(rows, chapters, listing, settings.records == 0, now, n * CANDIDATES);
    var cs := CandidatesIn(rows, chapters, listing, settings.records == 0, now, n * CANDIDATES);
    assert cs != [] && cs[0] in cs;
    HandedKeeps(GiveTo(Hand(rows, [], {}), cs[0], uuid(0), now), cs[1..], looks, uuid, n, now);
  }

  class Catalog {
    const settings: Settings
    /** The rows of the reads, of the chapters, and of the claims handed out. */
    var rows: map<ItemId, Read>
    var chapters: map<ItemId, seq<Chapter>>
    var claims: seq<Entry>
    /** Every title ever handed out, and when the last claim was. */
    ghost var issued: seq<Entry>
    ghost var clock: Time

    function TitleOf(id: ItemId): Title
      reads this
    {
      TitleIn(rows, chapters, id)
    }

    function Claimed(): set<ItemId>
      reads this
    {
      ClaimedIn(rows)
    }

    /** The pace was kept so far: no more titles claimed at once, nor handed out in any hour, than the settings allow.
        */
    ghost predicate Valid()
      reads this
    {
      && settings.lease > 0
      && |Claimed()| <= settings.inflight
      && Paced(issued, settings.rate) && Until(issued, clock)
      && Tells(claims, issued, clock - KEPT_CLAIMS)
    }

    constructor (settings: Settings, rows: map<ItemId, Read>, chapters: map<ItemId, seq<Chapter>>)
      requires settings.lease > 0 && forall id :: id in rows ==> rows[id].claimedAt.None?
      ensures this.settings == settings && Valid() && fresh(this)
      ensures this.rows == rows && this.chapters == chapters && issued == []
    {
      this.settings, this.rows, this.chapters := settings, rows, chapters;
      claims, issued, clock := [], [], 0;
      new;
      assert Claimed() == {};
    }

    /** The title id is t now, and nothing else changed. */
    twostate predicate Becomes(id: ItemId, t: Title)
      reads this
    {
      TitleOf(id) == t && (forall other :: other != id ==> TitleOf(other) == old(TitleOf(other))) &&
      claims == old(claims) && issued == old(issued) && clock == old(clock)
    }

    // ---- writing a title

    /** A row is written; one that makes no claim keeps the pace. */
    method Write(id: ItemId, row: Read)
      modifies this`rows
      ensures Becomes(id, old(TitleOf(id)).(read := row))
      ensures old(Valid()) && (row.claimedAt.Some? ==> old(TitleOf(id)).read.claimedAt.Some?) ==> Valid()
    {
      rows := rows[id := row];
      if row.claimedAt.Some? ==> old(TitleOf(id)).read.claimedAt.Some? {
        SmallerSet(Claimed(), old(Claimed()));
      }
    }

    /** The title's rows of chapters are those of chs now (Replace). */
    method Replace(id: ItemId, chs: seq<Chapter>)
      modifies this`chapters
      ensures Becomes(id, old(TitleOf(id)).(chapters := Kept(chs)))
      ensures old(Valid()) ==> Valid()
    {
      var written := [];
      var i := |chs|;
      while i > 0
        invariant 0 <= i <= |chs| && written == Kept(chs[i..])
      {
        i := i - 1;
        written := Inserted(Cleaned(chs[i]), written);
        assert chs[i..][1..] == chs[i + 1..];
      }
      assert chs[0..] == chs;
      chapters := chapters[id := written];
    }

    method Put(id: ItemId, got: seq<Chapter>, source: Option<SourceId>, who: Who, at: Time)
      modifies this
      ensures Becomes(id, Reads.Put(old(TitleOf(id)), got, source, who, at))
      ensures old(Valid()) ==> Valid()
    {
      var t := TitleOf(id);
      if !(got != [] && Same(t.chapters, got)) {
        if t.chapters != [] {
          Write(id, t.read.(replaced := Some(Undo(at, who, t.read.rowsSourceId, t.chapters))));
        }
        Replace(id, got);
      }
      Write(id, TitleOf(id).read.(rowsSourceId := if got != [] then source else None));
    }

    // ---- a report

    /** The claim ends, and nothing else. */
    method Only(id: ItemId, a: Arrival)
      modifies this
      ensures Becomes(id, Applied(old(TitleOf(id)), a, ClaimOnly))
      ensures old(Valid()) ==> Valid()
    {
      Write(id, EndClaim(TitleOf(id).read, a.token));
    }

    /** A read that failed on the file itself: one more failure, or none within the last one's wait. */
    method Fail(id: ItemId, a: Arrival)
      modifies this
      ensures Becomes(id, Applied(old(TitleOf(id)), a, FailureFate(old(TitleOf(id)).read, a.at)))
      ensures old(Valid()) ==> Valid()
    {
      var kept := TitleOf(id).read;
      var row := EndClaim(kept, a.token);
      if kept.failures > 0 && (kept.state == StateFailed || kept.state == StateUnreadable) &&
         kept.nextAttemptAt.Some? && a.at < kept.nextAttemptAt.value {
        Write(id, row.(readAt := Some(a.at)));
        return;
      }
      var f := kept.failures + 1;
      var wait := BackoffOf(f);
      var state := StateFailed;
      if f >= MAX_FAILURES {
        state := StateUnreadable;
      }
      Write(id, row.(state := state, readFrom := Some(FromHeader), confirmed := false, sourceId := a.source,
                     found := None, written := None, readAt := Some(a.at), failures := f, transients := 0,
                     nextAttemptAt := Some(a.at + wait)));
    }

    method Hold(id: ItemId, a: Arrival, recorded: bool)
      modifies this
      ensures Becomes(id, Applied(old(TitleOf(id)), a, Holding(recorded)))
      ensures old(Valid()) ==> Valid()
    {
      var row := EndClaim(TitleOf(id).read, a.token);
      row := row.(state := StateHeld, sourceId := a.source, found := Some(a.found), written := None,
                  readAt := Some(a.at), failures := 0, transients := 0, nextAttemptAt := None);
      if recorded && a.source.Some? {
        row := row.(recordSourceId := a.source, recordAt := Some(a.at));
      }
      Write(id, row);
    }

    /** What a read found is kept on the read's row, the claim it names ends. */
    method Keep(id: ItemId, a: Arrival, got: seq<Chapter>, from: Reader, confirmed: bool, recorded: bool)
      modifies this
      ensures Becomes(id, var t := old(TitleOf(id));
                          ReadKept(t.(read := EndClaim(t.read, a.token)), a, got, from, confirmed, recorded))
      ensures old(Valid()) ==> Valid()
    {
      var row := EndClaim(TitleOf(id).read, a.token);
      row := row.(state := if got == [] then StateNone else StateRead, readFrom := Some(from), confirmed := confirmed,
                  sourceId := a.source, found := Some(Max(a.found, |got|)), written := Some(|got|),
                  readAt := Some(a.at), failures := 0, transients := 0, nextAttemptAt := Some(a.at + SETTLED_WAIT));
      if recorded && a.source.Some? {
        row := row.(recordSourceId := a.source, recordAt := Some(a.at));
      } else if got == [] && !confirmed {
        row := row.(recordSourceId := None);
      }
      Write(id, row);
    }

    /** The catalog's chapters become what the read takes them for. */
    method TakeChapters(id: ItemId, how: Take, got: seq<Chapter>, source: Option<SourceId>, from: Reader, at: Time)
      requires !how.TakeHold?
      modifies this
      ensures Becomes(id, Taken(old(TitleOf(id)), how, got, source, from, at))
      ensures old(Valid()) ==> Valid()
    {
      if how == TakeKeep {
        Write(id, TitleOf(id).read.(rowsSourceId := source));
      } else if how != TakeStay {
        Put(id, got, source, ByReader(from), at);
      }
    }

    method TakeRead(id: ItemId, a: Arrival, how: Take, got: seq<Chapter>, from: Reader, confirmed: bool, recorded: bool)
      requires !how.TakeHold?
      modifies this
      ensures Becomes(id, Applied(old(TitleOf(id)), a, Taking(how, got, from, confirmed, recorded)))
      ensures old(Valid()) ==> Valid()
    {
      ClaimsApart(TitleOf(id), how, got, a.source, from, a.token, a.at);
      TakeChapters(id, how, got, a.source, from, a.at);
      Keep(id, a, got, from, confirmed, recorded);
    }

    /** What a read found is taken as TakeOf says. */
    method Settle(id: ItemId, a: Arrival, got: seq<Chapter>, from: Reader, confirmed: bool, recorded: bool)
      modifies this
      ensures Becomes(id, Applied(old(TitleOf(id)), a,
                                  SettleFate(old(TitleOf(id)), a.source, got, from, confirmed, recorded)))
      ensures old(Valid()) ==> Valid()
    {
      var t := TitleOf(id);
      var how := TakeOf(t.chapters, got, t.read.rowsSourceId, a.source);
      if got == [] && !confirmed && t.chapters != [] {
        // its own chapters, or another original's, are left to the title
        how := TakeStay;
      } else if how == TakeHold {
        Hold(id, a, recorded);
        return;
      } else if how == TakeStay {
        Only(id, a);
        return;
      }
      TakeRead(id, a, how, got, from, confirmed, recorded);
    }

    /** A worker's report of a header: of the original source, whose record says rec, and where that can't say, the
        compliance check's record says. */
    method Record(id: ItemId, kind: Option<string>, r: Report, source: Option<SourceId>, rec: RecordRead,
                  says: Option<bool>, now: Time)
      returns (answer: Answer)
      modifies this
      ensures answer.NoTitle? <==> kind.None? && !OutcomeOf(r).Unusable?
      ensures answer.Recorded? <==> kind.Some? && kind.value in {"movie", "episode"} && !OutcomeOf(r).Unusable?
      ensures !answer.Recorded? ==> forall other :: TitleOf(other) == old(TitleOf(other))
      ensures answer.Recorded? ==>
                answer.read == TitleOf(id).read &&
                Becomes(id, Reads.Recorded(old(TitleOf(id)), ArrivalOf(r, source, rec, says, now)))
      ensures old(Valid()) ==> Valid()
    {
      var outcome := OutcomeOf(r);
      if outcome == Unusable {
        return BadReport;
      }
      if kind.None? {
        return NoTitle;
      }
      if kind.value != "movie" && kind.value != "episode" {
        return BadReport;
      }
      var a := ArrivalOf(r, source, rec, says, now);
      RecordArrival(id, a);
      answer := Recorded(TitleOf(id).read);
    }

    method RecordArrival(id: ItemId, a: Arrival)
      modifies this
      ensures Becomes(id, Reads.Recorded(old(TitleOf(id)), a))
      ensures old(Valid()) ==> Valid()
    {
      var kept := TitleOf(id).read;
      var owns := a.token != "" && kept.claimedAt.Some? && kept.claimToken == Some(a.token);
      var lapsed := a.token != "" && kept.lapsedToken == Some(a.token);
      var claimed := None;
      if owns {
        claimed := kept.claimedAt;
      } else if lapsed {
        claimed := kept.lapsedClaimedAt;
      }
      var stale := a.token != "" && !owns && !lapsed;
      var newer := claimed.Some? && kept.readAt.Some? && kept.readAt.value > claimed.value &&
                   (kept.state == StateRead || kept.state == StateNone || kept.state == StateHeld);
      assert newer == kept.Newer(a.token);
      if stale {
      } else if a.outcome == Released {
        if owns {
          Write(id, EndClaim(kept, a.token).(nextAttemptAt := Some(Later(kept.nextAttemptAt, a.at + RELEASE_WAIT))));
        }
      } else if a.outcome == ReadFailed {
        FailedRead(id, a, lapsed, newer);
      } else if newer {
        Only(id, a);
      } else if a.outcome == FoundChapters {
        Settle(id, a, a.chapters, FromHeader, false, false);
      } else {
        FoundNoChapter(id, a);
      }
    }

    method FailedRead(id: ItemId, a: Arrival, lapsed: bool, newer: bool)
      requires lapsed == TitleOf(id).read.Lapsed(a.token) && newer == TitleOf(id).read.Newer(a.token)
      modifies this
      ensures Becomes(id, Applied(old(TitleOf(id)), a, FailedFate(old(TitleOf(id)), a)))
      ensures old(Valid()) ==> Valid()
    {
      var kept := TitleOf(id).read;
      if lapsed || newer || kept.Settles(a.source, TitleOf(id).chapters != []) || kept.HeldOf(a.source) {
        Only(id, a);
      } else if a.transient {
        var n := kept.transients + 1;
        var wait := BackoffOf(n);
        Write(id, EndClaim(kept, a.token).(state := if kept.state == StatePending then StateFailed else kept.state,
                                           transients := n, nextAttemptAt := Some(a.at + wait), readAt := Some(a.at)));
      } else {
        Fail(id, a);
      }
    }

    /** A read of the header that found none is held against its original's record. */
    method FoundNoChapter(id: ItemId, a: Arrival)
      modifies this
      ensures Becomes(id, Applied(old(TitleOf(id)), a, NoneFate(old(TitleOf(id)), a)))
      ensures old(Valid()) ==> Valid()
    {
      var kept := TitleOf(id).read;
      var some := TitleOf(id).chapters != [];
      var rec := a.record;
      if some && kept.rowsSourceId.Some? && kept.rowsSourceId == a.source {
        Only(id, a);
      } else if kept.state == StateNone && kept.confirmed && kept.Of(a.source) && !some {
        Only(id, a);
      } else if rec.Some? && rec.value.held {
        Hold(id, a, true);
      } else if rec.Some? && rec.value.Says() && rec.value.chapters != [] {
        Settle(id, a, rec.value.chapters, Reader.FromRecord, false, true);
      } else if rec.Some? && rec.value.Says() {
        Settle(id, a, [], FromHeader, true, true);
      } else if a.says == Some(false) {
        Settle(id, a, [], FromHeader, true, true);
      } else if a.says == Some(true) && rec.Some? && !rec.value.err {
        Fail(id, a);
      } else {
        Settle(id, a, [], FromHeader, false, false);
      }
    }

    // ---- the catalog's read of a record

    /** The title's original source is settled from its record rec where the record says; present: it is on disk. */
    method FromRecord(id: ItemId, source: SourceId, rec: RecordRead, present: bool, now: Time) returns (settled: bool)
      modifies this
      ensures Becomes(id, FromRecordTaken(old(TitleOf(id)), source, rec, present, now))
      ensures settled <==> Arrivals.RecordBrings(old(TitleOf(id)), source, rec)
      ensures old(Valid()) ==> Valid()
    {
      var t := TitleOf(id);
      var kept := t.read;
      Arrivals.RecordFateIs(t, source, rec, present);
      if kept.claimedAt.Some? || kept.HeldOf(Some(source)) || kept.Settles(Some(source), t.chapters != []) {
        return false;
      }
      if rec.held || !rec.Says() {
        Note(id, source, rec.held && present, now);
        return false;
      }
      var how := TakeOf(t.chapters, rec.chapters, kept.rowsSourceId, Some(source));
      match how {
        case TakeHold =>
          Note(id, source, present, now);
          return false;
        case TakeStay =>
          // chapters of source in the catalog settle it: it was left above
          assert false;
        case TakeKeep =>
          Write(id, kept.(rowsSourceId := Some(source)));
        case _ =>
          Put(id, rec.chapters, Some(source), ByReader(Reader.FromRecord), now);
      }
      var state, confirmed := StateRead, false;
      if rec.chapters == [] {
        state, confirmed := StateNone, true;
      }
      Write(id, TitleOf(id).read.(state := state, readFrom := Some(Reader.FromRecord), confirmed := confirmed,
                                  sourceId := Some(source), found := Some(rec.found), written := Some(|rec.chapters|),
                                  readAt := Some(now), recordSourceId := Some(source), recordAt := Some(now),
                                  failures := 0, transients := 0, nextAttemptAt := Some(now + SETTLED_WAIT)));
      settled := true;
    }

    /** The record was read and settled nothing; held, the title is held for an admin besides. */
    method Note(id: ItemId, source: SourceId, held: bool, now: Time)
      modifies this
      ensures Becomes(id, old(TitleOf(id)).(read := FromRecordApplied(old(TitleOf(id)), source,
                                                     RecordRead(0, [], false, false, false), Noted(held), now).read))
      ensures old(Valid()) ==> Valid()
    {
      var row := TitleOf(id).read.(recordSourceId := Some(source), recordAt := Some(now));
      if held {
        row := row.(state := StateHeld, sourceId := Some(source), nextAttemptAt := None);
      }
      Write(id, row);
    }

    method LaterRecord(id: ItemId, now: Time)
      modifies this
      ensures Becomes(id, RecordLater(old(TitleOf(id)), now))
      ensures old(Valid()) ==> Valid()
    {
      var n := TitleOf(id).read.transients + 1;
      var wait := BackoffOf(n);
      Write(id, TitleOf(id).read.(transients := n, nextAttemptAt := Some(now + wait)));
    }

    // ---- an admin's decisions

    method Accept(id: ItemId, side: Side, current: Option<SourceId>, rec: RecordRead, now: Time) returns (ok: bool)
      modifies this
      ensures ok <==> CanAccept(old(TitleOf(id)), side, current, rec)
      ensures Becomes(id, Accepted(old(TitleOf(id)), side, current, rec, now))
      ensures old(Valid()) ==> Valid()
    {
      var t := TitleOf(id);
      if current.None? || (t.read.state != StateUnreadable && t.read.state != StateHeld) {
        return false;
      }
      if t.read.sourceId != current || (t.read.state == StateUnreadable && side == TakeRecord) {
        return false;
      }
      if t.read.state == StateUnreadable {
        Write(id, t.read.(acceptedAt := Some(now)));
        return true;
      }
      var got, from := t.chapters, FromCatalog;
      if side == TakeRecord {
        if rec.Says() {
          got := rec.chapters;
        } else if rec.held {
          got := [];
        } else {
          return false;
        }
        from := Reader.FromRecord;
      }
      Put(id, got, current, ByAdmin, now);
      Write(id, TitleOf(id).read.(state := if got == [] then StateNone else StateRead, readFrom := Some(from),
                                  confirmed := got == [], written := Some(|got|), acceptedAt := Some(now),
                                  nextAttemptAt := None));
      ok := true;
    }

    method Revert(id: ItemId, current: Option<SourceId>, now: Time) returns (ok: bool)
      modifies this
      ensures ok <==> CanRevert(old(TitleOf(id)))
      ensures Becomes(id, Reverted(old(TitleOf(id)), current, now))
      ensures old(Valid()) ==> Valid()
    {
      var t := TitleOf(id);
      if t.read.replaced.None? || t.read.replaced.value.chapters == [] {
        return false;
      }
      var undo := t.read.replaced.value.chapters;
      if t.chapters == [] {
        Write(id, t.read.(replaced := None));
      }
      Put(id, undo, current, ByAdmin, now);
      Write(id, TitleOf(id).read.(state := StateRead, readFrom := Some(FromCatalog), confirmed := false,
                                  sourceId := current, written := Some(|undo|), acceptedAt := Some(now),
                                  nextAttemptAt := None));
      ok := true;
    }

    // ---- the hand-out

    /** The claims whose lease ended are taken back. */
    method Expire(now: Time)
      modifies this`rows
      ensures rows == ExpiredRows(old(rows), now, settings.lease)
    {
      var lost := set id | id in rows && Overdue(rows[id], now, settings.lease);
      while lost != {}
        invariant rows.Keys == old(rows.Keys)
        invariant forall id :: id in lost ==>
                                id in rows && rows[id] == old(rows)[id] && Overdue(rows[id], now, settings.lease)
        invariant forall id :: id in rows && id !in lost ==> rows[id] == ExpiredRow(old(rows)[id], now, settings.lease)
        decreases |lost|
      {
        var id :| id in lost;
        Lapse(id, now);
        lost := lost - {id};
      }
    }

    method Lapse(id: ItemId, now: Time)
      requires id in rows && Overdue(rows[id], now, settings.lease)
      modifies this`rows
      ensures rows == old(rows)[id := ExpiredRow(old(rows)[id], now, settings.lease)]
    {
      var row := rows[id];
      var n := row.transients + 1;
      var wait := BackoffOf(n);
      rows := rows[id := row.(claimedAt := None, claimToken := None, lapsedToken := row.claimToken,
                              lapsedClaimedAt := row.claimedAt, transients := n, nextAttemptAt := Some(now + wait),
                              state := if row.state == StatePending then StateFailed else row.state)];
    }

    /** Claims whose lease ended are taken back, and the log of claims keeps two days. */
    method TakeBack(now: Time)
      requires Valid() && clock <= now
      modifies this`rows, this`claims, this`clock
      ensures Valid() && clock == now && rows == ExpiredRows(old(rows), now, settings.lease)
      ensures forall id :: id in Claimed() ==> rows[id].claimedAt.value > now - settings.lease
    {
      Expire(now);
      ExpiredClaims(old(rows), now, settings.lease);
      SinceTells(claims, issued, clock - KEPT_CLAIMS, now - KEPT_CLAIMS);
      clock := now;
      claims := Since(claims, now - KEPT_CLAIMS);
    }

    /** The first titles of the listing that may be handed out, at most most. */
    method CandidatesOf(listing: seq<Listed>, now: Time, most: nat) returns (cs: seq<Listed>)
      ensures cs == CandidatesIn(rows, chapters, listing, settings.records == 0, now, most)
    {
      cs := [];
      for i := 0 to |listing|
        invariant cs == CandidatesIn(rows, chapters, listing[..i], settings.records == 0, now, most)
      {
        var c := listing[i];
        assert listing[..i + 1][..i] == listing[..i];
        if |cs| < most && Waiting(TitleOf(c.id), c.source, settings.records == 0, now) {
          cs := cs + [c];
        }
      }
      assert listing[..|listing|] == listing;
    }

    method Give(id: ItemId, token: string, now: Time)
      modifies this`rows, this`claims, this`issued
      ensures rows == old(rows)[id := HandedOutRow(RowOf(old(rows), id), token, now)]
      ensures claims == old(claims) + [Entry(id, now)] && issued == old(issued) + [Entry(id, now)]
    {
      var row := RowOf(rows, id);
      rows := rows[id := row.(claimedAt := Some(now), claimToken := Some(token), lastClaimedAt := Some(now),
                              attempts := row.attempts + 1)];
      claims, issued := claims + [Entry(id, now)], issued + [Entry(id, now)];
    }

    /** The title has no original to read now: it waits a backoff, which counts as no failure (transient). */
    method Wait(id: ItemId, now: Time)
      modifies this`rows
      ensures rows == old(rows)[id := NotThereRow(RowOf(old(rows), id), now)]
    {
      var row := RowOf(rows, id);
      var t := row.transients + 1;
      var wait := BackoffOf(t);
      rows := rows[id := row.(transients := t, nextAttemptAt := Some(now + wait),
                              state := if row.state == StatePending then StateFailed else row.state)];
    }

    /** The originals of the candidates are looked for in turn, until n titles are handed out or the storage fails. */
    method LookFor(cs: seq<Listed>, looks: map<ItemId, Look>, uuid: nat -> string, n: nat, now: Time)
      returns (items: seq<Job>, absent: set<ItemId>)
      modifies this`rows, this`claims, this`issued
      ensures Hand(rows, items, absent) == Handed(Hand(old(rows), [], {}), cs, looks, uuid, n, now)
      ensures claims == old(claims) + Entries(items, now) && issued == old(issued) + Entries(items, now)
    {
      items, absent := [], {};
      var k := 0;
      while k < |cs| && |items| < n
        invariant 0 <= k <= |cs|
        invariant Handed(Hand(rows, items, absent), cs[k..], looks, uuid, n, now) ==
                  Handed(Hand(old(rows), [], {}), cs, looks, uuid, n, now)
        invariant claims == old(claims) + Entries(items, now) && issued == old(issued) + Entries(items, now)
        decreases |cs| - k
      {
        var c := cs[k];
        assert cs[k..][0] == c && cs[k..][1..] == cs[k + 1..];
        var look := if c.id in looks then looks[c.id] else NotFound;
        if look == Unasked {
          return;
        }
        if look == There {
          var token := uuid(|items|);
          Give(c.id, token, now);
          items := items + [Job(c.id, c.source, token)];
        } else {
          Wait(c.id, now);
          absent := absent + {c.id};
          if look == Slow {
            return;
          }
        }
        k := k + 1;
      }
    }

    /** Up to limit titles whose records can't say are handed out, as the pace allows, each under the next new token; a
        title whose original is not there waits its backoff; past one the storage did not answer, none is looked for. */
    method HandOut(listing: seq<Listed>, looks: map<ItemId, Look>, uuid: nat -> string, limit: int, now: Time)
      returns (items: seq<Job>, ghost absent: set<ItemId>)
      requires Valid() && clock <= now
      modifies this
      ensures Valid() && clock == now && chapters == old(chapters)
      ensures issued == old(issued) + Entries(items, now)
      ensures settings.rate == 0 ==> rows == old(rows) && items == []
      ensures settings.rate > 0 ==>
                Hand(rows, items, absent) ==
                  HandedOut(settings, ExpiredRows(old(rows), now, settings.lease), old(chapters),
                            CountIn(old(issued), now - HOUR, now), listing, looks, uuid, limit, now) &&
                (forall id :: id in Claimed() ==> rows[id].claimedAt.value > now - settings.lease)
    {
      items, absent := [], {};
      if settings.rate == 0 {
        StartsLater(claims, issued, clock - KEPT_CLAIMS, now - KEPT_CLAIMS);
        clock := now;
        return;
      }
      TakeBack(now);
      items, absent := GiveOut(listing, looks, uuid, limit, now);
    }

    /** The hand-out once the lapsed claims are taken back. */
    method GiveOut(listing: seq<Listed>, looks: map<ItemId, Look>, uuid: nat -> string, limit: int, now: Time)
      returns (items: seq<Job>, ghost absent: set<ItemId>)
      requires Valid() && clock == now
      requires forall id :: id in Claimed() ==> rows[id].claimedAt.value > now - settings.lease
      modifies this`rows, this`claims, this`issued
      ensures Valid() && issued == old(issued) + Entries(items, now)
      ensures Hand(rows, items, absent) ==
                HandedOut(settings, old(rows), chapters, CountIn(old(issued), now - HOUR, now), listing, looks, uuid,
                          limit, now)
      ensures forall id :: id in Claimed() ==> rows[id].claimedAt.value > now - settings.lease
    {
      var n := Room(limit, now);
      if n == 0 {
        NoRoom(settings, rows, chapters, CountIn(issued, now - HOUR, now), listing, looks, uuid, limit, now);
        return [], {};
      }
      var cs := CandidatesOf(listing, now, n * CANDIDATES);
      items, absent := GiveThem(cs, looks, uuid, n, now);
    }

    /** How many titles may be handed out now, counted in the rows and the log kept. */
    method Room(limit: int, now: Time) returns (n: nat)
      requires Valid() && clock == now
      ensures n == MostOf(settings.inflight, settings.rate, limit, |Claimed()|, CountIn(issued, now - HOUR, now))
    {
      assert CountIn(claims, now - HOUR, now) == CountIn(issued, now - HOUR, now);
      var inflight, recent := |Claimed()|, CountIn(claims, now - HOUR, now);
      if inflight >= settings.inflight || recent >= settings.rate {
        return 0;
      }
      n := Min(Max(limit, 1), Min(settings.inflight - inflight, settings.rate - recent));
    }

    /** The candidates are looked for, n of them at most handed out, where the pace leaves room for n. */
    method GiveThem(cs: seq<Listed>, looks: map<ItemId, Look>, uuid: nat -> string, n: nat, now: Time)
      returns (items: seq<Job>, ghost absent: set<ItemId>)
      requires Valid() && clock == now
      requires |Claimed()| + n <= settings.inflight && CountIn(issued, now - HOUR, now) + n <= settings.rate
      requires forall id :: id in Claimed() ==> rows[id].claimedAt.value > now - settings.lease
      modifies this`rows, this`claims, this`issued
      ensures Valid() && issued == old(issued) + Entries(items, now)
      ensures Hand(rows, items, absent) == Handed(Hand(old(rows), [], {}), cs, looks, uuid, n, now)
      ensures forall id :: id in Claimed() ==> rows[id].claimedAt.value > now - settings.lease
    {
      ghost var h, kept := Hand(rows, [], {}), claims;
      var lost;
      items, lost := LookFor(cs, looks, uuid, n, now);
      absent := lost;
      HandedClaims(h, cs, looks, uuid, n, now, now - settings.lease);
      HandingOutPaced(old(issued), Entries(items, now), now, settings.rate);
      MoreTells(kept, old(issued), Entries(items, now), now - KEPT_CLAIMS);
    }
  }
}
