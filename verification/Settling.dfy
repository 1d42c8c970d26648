/**
 Who may settle a title: exactly which reports turn an original settled, and that claims take effect at most once. A
 deletion wave retires an original once its title is settled, so settling has to fail closed.
 */
module Settling {
  import opened Wrappers
  import opened Chapters
  import opened Records
  import opened Reads
  import opened ReadRuns
  import opened Arrivals

  // ---- what settles

  /** The step is a read of source itself that is taken: a report that counts of chapters, or of a none that a record
      says, or a record that says, none of which would lose chapters. */
  predicate ReadsIt(t: Title, e: Event, source: SourceId) {
    match e
    case Reporting(a) => a.source == Some(source) && Brings(t, a)
    case RecordReading(s, rec, _, _) => s == source && RecordBrings(t, s, rec)
    case _ => false
  }

  /** The title is held of source, whose chapters the catalog has, and a read of another original takes the row over: a
      report that failed, held or found none, or a record that holds. */
  predicate LetsGo(t: Title, e: Event, source: SourceId) {
    t.read.HeldOf(Some(source)) && RowsOf(t, Some(source)) &&
    match e
    case Reporting(a) => a.source != Some(source) && (Fails(t, a) || Holds(t, a) || FindsNone(t, a))
    case RecordReading(s, rec, present, _) => s != source && HeldByRecord(t, s, rec, present)
    case _ => false
  }

  /** The failure makes the title unreadable again, and an admin decided it before. */
  predicate AcceptedBefore(t: Title, e: Event, source: SourceId) {
    e.Reporting? && e.arrival.source == Some(source) && Fails(t, e.arrival) &&
    t.read.failures + 1 >= MAX_FAILURES && t.read.acceptedAt.Some?
  }

  /** An admin decides the title as source's: accepts what is held of it or its unreadable state, or takes a replacement
      back. */
  predicate Decides(t: Title, e: Event, source: SourceId) {
    match e
    case Accepting(side, current, rec, _) => current == Some(source) && CanAccept(t, side, current, rec)
    case Reverting(current, _) => current == Some(source) && CanRevert(t)
    case _ => false
  }

  predicate SettlesIt(t: Title, e: Event, source: SourceId) {
    ReadsIt(t, e, source) || LetsGo(t, e, source) || AcceptedBefore(t, e, source) || Decides(t, e, source)
  }

  /** Whatever the step, it turns an original settled in exactly four ways: a read of it is taken, a read of another
      lets it go, a fifth failure after an acceptance, an admin's decision. */
  lemma StepSettles(t: Title, e: Event, source: SourceId)
    requires Sound(t) && WellFormed([e]) && !t.Settled(Some(source))
    ensures Next(t, e).Settled(Some(source)) <==> SettlesIt(t, e, source)
  {
    match e
    case Reporting(a) =>
      assert [e][0].arrival.WellFormed();
      FateIs(t, a);
      FateFits(t, a);
      ReportSettles(t, a, FateOf(t, a), source);
    case RecordReading(s, rec, present, at) =>
      RecordFateIs(t, s, rec, present);
      RecordFateFits(t, s, rec, present);
      RecordSettles(t, s, rec, RecordFateOf(t, s, rec, present), at, source);
    case Accepting(side, current, rec, at) => AcceptSettles(t, side, current, rec, at, source);
    case Reverting(current, at) => RevertSettles(t, current, at, source);
    case _ =>
  }

  lemma ReportSettles(t: Title, a: Arrival, fate: Fate, source: SourceId)
    requires Fits(t, a, fate) && !t.Settled(Some(source))
    ensures Applied(t, a, fate).Settled(Some(source)) <==>
            (a.source == Some(source) && TakesSome(fate)) ||
            (t.read.HeldOf(Some(source)) && RowsOf(t, Some(source)) && a.source != Some(source) &&
             (fate.CountedFailure? || fate.Holding? || TakesNone(fate))) ||
            (fate.CountedFailure? && a.source == Some(source) && t.read.failures + 1 >= MAX_FAILURES &&
             t.read.acceptedAt.Some?)
  {
    if fate.Taking? {
      TakenSettles(t, a, fate, source);
    }
  }

  lemma TakenSettles(t: Title, a: Arrival, fate: Fate, source: SourceId)
    requires Fits(t, a, fate) && fate.Taking? && !t.Settled(Some(source))
    ensures Applied(t, a, fate).Settled(Some(source)) <==>
            (a.source == Some(source) && TakesSome(fate)) ||
            (t.read.HeldOf(Some(source)) && RowsOf(t, Some(source)) && a.source != Some(source) && TakesNone(fate))
  {
  }

  lemma RecordSettles(t: Title, s: SourceId, rec: RecordRead, fate: RecordFate, at: Time, source: SourceId)
    requires !t.Settled(Some(source))
    requires fate.Settling? ==> Takes(t, Some(s), fate.how, rec.chapters, rec.chapters == []) && !fate.how.TakeStay?
    requires fate == Noted(true) ==> !t.read.HeldOf(Some(s))
    ensures FromRecordApplied(t, s, rec, fate, at).Settled(Some(source)) <==>
            (s == source && fate.Settling?) ||
            (t.read.HeldOf(Some(source)) && RowsOf(t, Some(source)) && s != source && fate == Noted(true))
  {
  }

  lemma AcceptSettles(t: Title, side: Side, current: Option<SourceId>, rec: RecordRead, at: Time, source: SourceId)
    requires Sound(t) && !t.Settled(Some(source))
    ensures Accepted(t, side, current, rec, at).Settled(Some(source)) <==>
            current == Some(source) && CanAccept(t, side, current, rec)
  {
    if CanAccept(t, side, current, rec) && t.read.state == StateHeld {
      PutSound(t, AcceptedChapters(t, side, rec).value, current, ByAdmin, at);
    }
  }

  lemma RevertSettles(t: Title, current: Option<SourceId>, at: Time, source: SourceId)
    requires Sound(t) && !t.Settled(Some(source))
    ensures Reverted(t, current, at).Settled(Some(source)) <==> current == Some(source) && CanRevert(t)
  {
    if CanRevert(t) {
      PutSound(if t.chapters == [] then t.(read := t.read.(replaced := None)) else t,
               t.read.replaced.value.chapters, current, ByAdmin, at);
    }
  }

  /** A report that brings nothing that is taken (it failed, was given back, is stale, late or held, found an
      unconfirmed none) settles only by letting a held title go, or as a fifth failure after an acceptance. */
  lemma NothingFoundSettles(t: Title, a: Arrival, source: SourceId)
    requires Sound(t) && a.WellFormed() && !Brings(t, a) && !t.Settled(Some(source))
    ensures Recorded(t, a).Settled(Some(source)) <==>
            LetsGo(t, Reporting(a), source) || AcceptedBefore(t, Reporting(a), source)
  {
    assert [Reporting(a)][0].arrival.WellFormed();
    StepSettles(t, Reporting(a), source);
  }

  /** A header read that found none settles its original, but as a fifth failure after an acceptance, only by a record:
      the original's own that says, or the compliance check's that says there are no chapters. Where that one says there
      are, the title has failed, and is not known to have none. */
  lemma NoneNeedsARecord(t: Title, a: Arrival, source: SourceId)
    requires Sound(t) && a.WellFormed() && a.outcome.FoundNone? && a.source == Some(source)
    requires !t.Settled(Some(source))
    ensures var u := Recorded(t, a);
            (u.Settled(Some(source)) ==>
               Clear(a.record.value) || a.says == Some(false) || AcceptedBefore(t, Reporting(a), source)) &&
            (a.says == Some(true) && !a.record.value.err && News(t, a) ==>
               u.read.state in {StateFailed, StateUnreadable} && u.chapters == t.chapters &&
               (u.Settled(Some(source)) ==> AcceptedBefore(t, Reporting(a), source)))
  {
    assert [Reporting(a)][0].arrival.WellFormed();
    StepSettles(t, Reporting(a), source);
    if a.says == Some(true) && !a.record.value.err && News(t, a) {
      FailureLeaves(t, a);
    }
  }

  /** A failed read of another file lets a held title go. */
  lemma HeldTitleLetGo() returns (t: Title, a: Arrival)
    ensures Sound(t) && a.WellFormed() && a.outcome.ReadFailed? && t.read.HeldOf(Some("s"))
    ensures !t.Settled(Some("s")) && Recorded(t, a).Settled(Some("s"))
  {
    t := Title(Fresh.(state := StateHeld, sourceId := Some("s"), rowsSourceId := Some("s")), [Chapter(0, 1, None, 1)]);
    a := Arrival(ReadFailed, "", [], 0, false, Some("x"), None, None, 0);
    assert FateOf(t, a).CountedFailure?;
  }

  /** So does the record of another original that holds the title itself: one original is held, the other let go. */
  lemma HeldTitleLetGoByRecord() returns (t: Title, rec: RecordRead)
    ensures Sound(t) && t.read.HeldOf(Some("s")) && !t.Settled(Some("s")) && rec.held
    ensures var u := FromRecordTaken(t, "x", rec, true, 0);
            u.read.HeldOf(Some("x")) && u.chapters == t.chapters && u.Settled(Some("s"))
  {
    t := Title(Fresh.(state := StateHeld, sourceId := Some("s"), rowsSourceId := Some("s")), [Chapter(0, 1, None, 1)]);
    rec := RecordRead(1, [], true, false, false);
    assert RecordFateOf(t, "x", rec, true) == Noted(true);
  }

  /** A title accepted once is settled by its fifth failure, with no admin's decision of it. */
  lemma UnreadableAcceptedBefore() returns (t: Title, a: Arrival)
    ensures Sound(t) && a.WellFormed() && a.outcome.ReadFailed? && t.read.state == StateFailed
    ensures !t.Settled(Some("s")) && Recorded(t, a).Settled(Some("s"))
  {
    t := Title(Fresh.(state := StateFailed, sourceId := Some("s"), failures := 4, acceptedAt := Some(0),
                      nextAttemptAt := Some(1)), []);
    a := Arrival(ReadFailed, "", [], 0, false, Some("s"), None, None, 1);
    assert FateOf(t, a).CountedFailure?;
  }

  /** A run that ends with an original settled that was not names the step that settled it, one of the four ways. */
  lemma {:induction false} SettledNamesItsStep(t: Title, es: seq<Event>, source: SourceId) returns (i: nat)
    requires Sound(t) && WellFormed(es) && !t.Settled(Some(source)) && Run(t, es).Settled(Some(source))
    ensures i < |es| && !Run(t, es[..i]).Settled(Some(source)) && SettlesIt(Run(t, es[..i]), es[i], source)
    decreases |es|
  {
    First(es);
    StepSettles(t, es[0], source);
    var u := Next(t, es[0]);
    if u.Settled(Some(source)) {
      i := 0;
    } else {
      SoundStep(t, es[0]);
      var j := SettledNamesItsStep(u, es[1..], source);
      i := j + 1;
      assert es[..i] == [es[0]] + es[1..][..j];
    }
  }

  /** No read of source is taken along the run, and none of another lets it go. */
  ghost predicate QuietRun(t: Title, es: seq<Event>, source: SourceId)
    decreases |es|
  {
    es != [] ==> !ReadsIt(t, es[0], source) && !LetsGo(t, es[0], source) && QuietRun(Next(t, es[0]), es[1..], source)
  }

  lemma AcceptanceStays(t: Title, a: Arrival, fate: Fate)
    ensures Applied(t, a, fate).read.acceptedAt == t.read.acceptedAt
  {
  }

  lemma FailClosedStep(t: Title, e: Event, source: SourceId)
    requires Sound(t) && WellFormed([e]) && !e.ByAnAdmin() && !ReadsIt(t, e, source) && !LetsGo(t, e, source)
    requires t.read.acceptedAt.None? && !t.Settled(Some(source))
    ensures Sound(Next(t, e)) && Next(t, e).read.acceptedAt.None? && !Next(t, e).Settled(Some(source))
  {
    StepSettles(t, e, source);
    SoundStep(t, e);
    if e.Reporting? {
      AcceptanceStays(t, e.arrival, FateOf(t, e.arrival));
    }
  }

  /** Fail closed: the original of a title no admin decided is settled by no run, of reads of any originals, in which
      no read of it is taken and no read of another lets it go. */
  lemma {:induction false} FailClosed(t: Title, es: seq<Event>, source: SourceId)
    requires Sound(t) && WellFormed(es) && NoAdmin(es) && QuietRun(t, es, source)
    requires t.read.acceptedAt.None? && !t.Settled(Some(source))
    ensures !Run(t, es).Settled(Some(source))
    decreases |es|
  {
    if es != [] {
      First(es);
      FailClosedStep(t, es[0], source);
      FailClosed(Next(t, es[0]), es[1..], source);
    }
  }

  /** A read of a known original whose chapters are taken, a none its record confirmed, a record that settles, an
      admin's acceptance and a reversal leave their original settled, settled before or not. */
  lemma ReadsSettle(t: Title, e: Event, source: SourceId)
    requires Sound(t) && WellFormed([e]) && (ReadsIt(t, e, source) || Decides(t, e, source))
    ensures Next(t, e).Settled(Some(source))
  {
    match e
    case Reporting(a) =>
      assert [e][0].arrival.WellFormed();
      FateIs(t, a);
      FateFits(t, a);
      TakingSettles(t, a, FateOf(t, a), source);
    case RecordReading(s, rec, present, at) =>
      RecordFateIs(t, s, rec, present);
      RecordFateFits(t, s, rec, present);
      RecordSettles(t, s, rec, RecordFateOf(t, s, rec, present), at, source);
    case Accepting(side, current, rec, at) =>
      if t.read.state == StateHeld {
        PutSound(t, AcceptedChapters(t, side, rec).value, current, ByAdmin, at);
      }
    case Reverting(current, at) =>
      PutSound(if t.chapters == [] then t.(read := t.read.(replaced := None)) else t,
               t.read.replaced.value.chapters, current, ByAdmin, at);
    case _ =>
  }

  lemma TakingSettles(t: Title, a: Arrival, fate: Fate, source: SourceId)
    requires Fits(t, a, fate) && TakesSome(fate) && a.source == Some(source)
    ensures Applied(t, a, fate).Settled(Some(source))
  {
  }

  // ---- claims

  predicate SameClaims(a: Read, b: Read) {
    a.claimToken == b.claimToken && a.claimedAt == b.claimedAt && a.lapsedToken == b.lapsedToken &&
    a.lapsedClaimedAt == b.lapsedClaimedAt
  }

  /** A claim's report ends it, live or lapsed, whatever it says. */
  lemma ReportEndsClaim(t: Title, a: Arrival)
    requires Sound(t) && a.WellFormed() && a.token != "" && !a.outcome.Released?
    ensures Dead(Recorded(t, a), a.token)
  {
    FateFits(t, a);
    AppliedEndsClaim(t, a, FateOf(t, a));
  }

  lemma AppliedEndsClaim(t: Title, a: Arrival, fate: Fate)
    requires Sound(t) && !fate.GivenBack? && a.token != ""
    requires fate.Ignored? ==> !t.read.Owns(a.token) && !t.read.Lapsed(a.token)
    ensures Dead(Applied(t, a, fate), a.token)
  {
    if !fate.Ignored? {
      EndedIsDead(t.read, a.token);
      ClaimsEnded(t, a, fate);
    }
  }

  /** A report not ignored leaves the claims its token does not name. */
  lemma ClaimsEnded(t: Title, a: Arrival, fate: Fate)
    requires !fate.Ignored?
    ensures SameClaims(Applied(t, a, fate).read, EndClaim(t.read, a.token))
  {
    match fate
    case Taking(how, got, from, confirmed, recorded) =>
      var u := t.(read := EndClaim(t.read, a.token));
      assert SameClaims(Taken(u, how, got, a.source, from, a.at).read, u.read);
    case _ =>
  }

  lemma EndedIsDead(r: Read, token: string)
    requires token != "" && (r.claimedAt.Some? <==> r.claimToken.Some?)
    ensures EndClaim(r, token).claimToken != Some(token) && EndClaim(r, token).lapsedToken != Some(token)
  {
  }

  /** A report changes the claims as its token ends them, or not at all. */
  lemma ClaimsOfReport(t: Title, a: Arrival, fate: Fate)
    ensures SameClaims(Applied(t, a, fate).read, t.read) ||
            SameClaims(Applied(t, a, fate).read, EndClaim(t.read, a.token))
    ensures a.token == "" ==> SameClaims(EndClaim(t.read, ""), t.read)
  {
    if !fate.Ignored? {
      ClaimsEnded(t, a, fate);
    }
  }

  /** A report without a token leaves every claim as it is. */
  lemma TokenlessKeepsClaims(t: Title, a: Arrival)
    requires a.token == ""
    ensures var u := Recorded(t, a).read;
            u.claimToken == t.read.claimToken && u.claimedAt == t.read.claimedAt &&
            u.lapsedToken == t.read.lapsedToken && u.lapsedClaimedAt == t.read.lapsedClaimedAt
  {
    ClaimsOfReport(t, a, FateOf(t, a));
  }

  lemma DeadStays(t: Title, e: Event, token: string)
    requires Dead(t, token) && !(e.HandingOut? && e.token == token)
    ensures Dead(Next(t, e), token)
  {
    if e.Reporting? {
      ClaimsOfReport(t, e.arrival, FateOf(t, e.arrival));
    }
  }

  /** Claims take effect at most once: after a claim's report, over any run that hands no claim of that token out, the
      report delivered again, or any other of that claim, changes nothing at all. */
  lemma {:induction false} DeliveredAgain(t: Title, a: Arrival, es: seq<Event>, again: Arrival)
    requires Sound(t) && a.WellFormed() && a.token != "" && !a.outcome.Released? && again.token == a.token
    requires forall i :: 0 <= i < |es| && es[i].HandingOut? ==> es[i].token != a.token
    ensures Run(t, [Reporting(a)] + es + [Reporting(again)]) == Run(t, [Reporting(a)] + es)
  {
    var u := Recorded(t, a);
    ReportEndsClaim(t, a);
    DeadRun(u, es, a.token);
    RunSplits(t, [Reporting(a)], es);
    RunSplits(t, [Reporting(a)] + es, [Reporting(again)]);
    assert Run(t, [Reporting(a)]) == Run(u, []) == u;
    var v := Run(u, es);
    assert Run(v, [Reporting(again)]) == Run(Recorded(v, again), []) == Recorded(v, again);
    assert FateOf(v, again) == Ignored;
  }

  lemma {:induction false} DeadRun(t: Title, es: seq<Event>, token: string)
    requires Dead(t, token) && forall i :: 0 <= i < |es| && es[i].HandingOut? ==> es[i].token != token
    ensures Dead(Run(t, es), token)
    decreases |es|
  {
    if es != [] {
      DeadStays(t, es[0], token);
      DeadRun(Next(t, es[0]), es[1..], token);
    }
  }

  /** The titles are the same but for their claims. */
  predicate SameButClaims(t: Title, u: Title) {
    u == t.(read := t.read.(claimedAt := u.read.claimedAt, claimToken := u.read.claimToken,
                            lapsedToken := u.read.lapsedToken, lapsedClaimedAt := u.read.lapsedClaimedAt))
  }

  /** A report that no longer counts, of a claim the title does not know or one a read was taken or held since, ends its
      claim at most. */
  lemma LateChangesNothing(t: Title, a: Arrival)
    requires Sound(t) && a.WellFormed() && !a.outcome.Released? && !InTime(t.read, a.token)
    ensures SameButClaims(t, Recorded(t, a)) && Dead(Recorded(t, a), a.token)
  {
    OthersLeave(t, a);
  }

  /** A title handed out, then read by another report: that read stands whatever the claim's report says later. */
  lemma LaterReadStands(t: Title, token: string, c: Time, other: Arrival, a: Arrival)
    requires Sound(t) && token != "" && other.WellFormed() && other.token == "" && c < other.at
    requires a.WellFormed() && a.token == token && !a.outcome.Released?
    requires var t1 := Next(t, HandingOut(token, c)); Brings(t1, other) || Holds(t1, other)
    ensures var t2 := Run(t, [HandingOut(token, c), Reporting(other)]);
            SameButClaims(t2, Recorded(t2, a)) && Dead(Recorded(t2, a), token)
  {
    var t1 := Next(t, HandingOut(token, c));
    var t2 := Recorded(t1, other);
    RunTwo(t, HandingOut(token, c), Reporting(other));
    SoundStep(t, HandingOut(token, c));
    assert [Reporting(other)][0].arrival.WellFormed();
    SoundStep(t1, Reporting(other));
    if Brings(t1, other) {
      TakenLeaves(t1, other);
    } else {
      HeldLeaves(t1, other);
    }
    ClaimsOfReport(t1, other, FateOf(t1, other));
    LateChangesNothing(t2, a);
  }

  lemma RunTwo(t: Title, e: Event, f: Event)
    ensures Run(t, [e, f]) == Next(Next(t, e), f)
  {
    assert [e, f][1..] == [f] && [f][1..] == [];
    assert Run(Next(t, e), [f]) == Run(Next(Next(t, e), f), []);
  }

  /** A title handed out whose lease ended waits a backoff, its claim the one lapsed last. */
  lemma LeaseEnds(t: Title, token: string, c: Time, lease: Time, x: Time)
    requires Sound(t) && token != "" && c + lease <= x
    ensures var u := Run(t, [HandingOut(token, c), Expiring(lease, x)]);
            Sound(u) && u.chapters == t.chapters && u.read.rowsSourceId == t.read.rowsSourceId &&
            u.read.claimedAt.None? && u.read.claimToken.None? && u.read.lapsedToken == Some(token) &&
            u.read.lapsedClaimedAt == Some(c) && u.read.readAt == t.read.readAt && u.read.failures == t.read.failures &&
            u.read.transients == t.read.transients + 1 &&
            u.read.nextAttemptAt == Some(x + Backoff(t.read.transients + 1))
  {
    var t1 := Next(t, HandingOut(token, c));
    RunTwo(t, HandingOut(token, c), Expiring(lease, x));
    SoundStep(t, HandingOut(token, c));
    SoundStep(t1, Expiring(lease, x));
  }

  /** A title handed out whose claim lapsed, not read since: the claim's report still has its chapters taken, and its
      failure counts as none. */
  lemma LapsedStillCounts(t: Title, token: string, c: Time, lease: Time, x: Time, a: Arrival)
    requires Sound(t) && token != "" && c + lease <= x && (t.read.readAt.Some? ==> t.read.readAt.value <= c)
    requires a.WellFormed() && a.token == token
    ensures var u := Run(t, [HandingOut(token, c), Expiring(lease, x)]);
            (a.outcome.FoundChapters? ==> (Brings(u, a) <==> NoFewer(t, a.source, a.chapters))) &&
            (a.outcome.ReadFailed? ==> SameButClaims(u, Recorded(u, a)))
  {
    LeaseEnds(t, token, c, lease, x);
    var u := Run(t, [HandingOut(token, c), Expiring(lease, x)]);
    if a.outcome.ReadFailed? {
      OthersLeave(u, a);
    }
  }
}
