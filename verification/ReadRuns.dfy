/**
 What every run of the chapter reads' steps keeps: the read row's invariants, no chapters lost, undo, who may settle a
 title, what a claim's reports may do.
 */
module ReadRuns {
  import opened Wrappers
  import opened Chapters
  import opened Records
  import opened Reads

  // ---- what a fate says of its title

  /** The chapters in the catalog were read of another original than source. */
  predicate Other(t: Title, source: Option<SourceId>) {
    t.read.rowsSourceId.Some? && t.read.rowsSourceId != source
  }

  predicate Takes(t: Title, source: Option<SourceId>, how: Take, got: seq<Chapter>, confirmed: bool) {
    && !how.TakeHold?
    && (confirmed ==> got == [])
    && (how.TakeKeep? ==> got != [] && Same(t.chapters, got))
    && (how.TakeWrite? ==>
          got != [] && (t.chapters == [] ||
                        (!Same(t.chapters, got) && (Other(t, source) || |got| >= |t.chapters|))))
    && (how.TakeNone? ==> got == [] && (t.chapters == [] || (confirmed && Other(t, source))))
    && (how.TakeStay? ==> got == [] && !confirmed && t.chapters != [])
  }

  /** The chapters in the catalog are of source. */
  predicate RowsOf(t: Title, source: Option<SourceId>) {
    t.chapters != [] && source.Some? && t.read.rowsSourceId == source
  }

  predicate Fits(t: Title, a: Arrival, fate: Fate) {
    && (fate.Taking? ==>
          Takes(t, a.source, fate.how, fate.got, fate.confirmed) && (fate.got == [] ==> !RowsOf(t, a.source)))
    && (fate.CountedFailure? ==> !RowsOf(t, a.source))
  }

  lemma FateFits(t: Title, a: Arrival)
    requires a.WellFormed()
    ensures Fits(t, a, FateOf(t, a))
  {
  }

  lemma RecordFateFits(t: Title, source: SourceId, rec: RecordRead, present: bool)
    ensures var fate := RecordFateOf(t, source, rec, present);
            fate.Settling? ==>
              Takes(t, Some(source), fate.how, rec.chapters, rec.chapters == []) && !t.Settled(Some(source)) &&
              !fate.how.TakeStay?
  {
  }

  // ---- invariants

  ghost predicate Sound(t: Title) {
    && (t.read.rowsSourceId.Some? ==> t.chapters != [])
    && (t.read.state == StateNone && t.read.confirmed ==> t.chapters == [])
    && Stored(t.chapters)
    && (t.read.replaced.Some? ==> t.read.replaced.value.chapters != [] && Stored(t.read.replaced.value.chapters))
    && (t.read.claimedAt.Some? <==> t.read.claimToken.Some?)
    && (t.read.state == StateUnreadable ==> t.read.failures >= MAX_FAILURES)
    && t.read.failures >= 0
  }

  lemma PutSound(t: Title, got: seq<Chapter>, source: Option<SourceId>, who: Who, at: Time)
    requires Sound(t)
    ensures var u := Put(t, got, source, who, at);
            Stored(u.chapters) && (got == [] <==> u.chapters == []) && |u.chapters| == |got| &&
            (u.read.rowsSourceId.Some? ==> u.chapters != []) &&
            (u.read.replaced.Some? ==> u.read.replaced.value.chapters != [] && Stored(u.read.replaced.value.chapters))
  {
    KeptIsStored(got);
  }

  lemma TakenSound(t: Title, how: Take, got: seq<Chapter>, source: Option<SourceId>, from: Reader, confirmed: bool,
                   at: Time)
    requires Sound(t) && Takes(t, source, how, got, confirmed)
    ensures var u := Taken(t, how, got, source, from, at);
            Stored(u.chapters) && (confirmed ==> u.chapters == []) &&
            (u.read.rowsSourceId.Some? ==> u.chapters != []) &&
            (u.read.replaced.Some? ==> u.read.replaced.value.chapters != [] && Stored(u.read.replaced.value.chapters))
  {
    PutSound(t, got, source, ByReader(from), at);
  }

  lemma SoundApplied(t: Title, a: Arrival, fate: Fate)
    requires Sound(t) && Fits(t, a, fate)
    ensures Sound(Applied(t, a, fate))
  {
    match fate
    case Taking(how, got, from, confirmed, recorded) => SoundTaking(t, a, how, got, from, confirmed, recorded);
    case Holding(_) =>
    case CountedFailure =>
    case TransientFailure =>
    case _ => SoundClaims(t, a.token);
  }

  lemma SoundClaims(t: Title, token: string)
    requires Sound(t)
    ensures Sound(t.(read := EndClaim(t.read, token)))
  {
  }

  lemma SoundTaking(t: Title, a: Arrival, how: Take, got: seq<Chapter>, from: Reader, confirmed: bool, recorded: bool)
    requires Sound(t) && Takes(t, a.source, how, got, confirmed) && (got == [] ==> !RowsOf(t, a.source))
    ensures Sound(Applied(t, a, Taking(how, got, from, confirmed, recorded)))
  {
    var u := t.(read := EndClaim(t.read, a.token));
    SoundClaims(t, a.token);
    TakenReady(u, how, got, a.source, from, confirmed, a.at);
    KeptSound(Taken(u, how, got, a.source, from, a.at), a, got, from, confirmed, recorded);
    TakingIs(t, a, how, got, from, confirmed, recorded);
  }

  lemma TakingIs(t: Title, a: Arrival, how: Take, got: seq<Chapter>, from: Reader, confirmed: bool, recorded: bool)
    ensures Applied(t, a, Taking(how, got, from, confirmed, recorded)) ==
            ReadKept(Taken(t.(read := EndClaim(t.read, a.token)), how, got, a.source, from, a.at), a, got, from,
                     confirmed, recorded)
  {
  }

  /** A title whose chapters were taken, before what was read is kept. */
  ghost predicate Ready(u: Title, confirmed: bool) {
    Stored(u.chapters) && (confirmed ==> u.chapters == []) && (u.read.rowsSourceId.Some? ==> u.chapters != []) &&
    (u.read.replaced.Some? ==> u.read.replaced.value.chapters != [] && Stored(u.read.replaced.value.chapters)) &&
    (u.read.claimedAt.Some? <==> u.read.claimToken.Some?)
  }

  lemma TakenReady(t: Title, how: Take, got: seq<Chapter>, source: Option<SourceId>, from: Reader, confirmed: bool,
                   at: Time)
    requires Sound(t) && Takes(t, source, how, got, confirmed)
    ensures Ready(Taken(t, how, got, source, from, at), confirmed)
  {
    TakenSound(t, how, got, source, from, confirmed, at);
    TakenClaims(t, how, got, source, from, at);
  }

  lemma KeptSound(u: Title, a: Arrival, got: seq<Chapter>, from: Reader, confirmed: bool, recorded: bool)
    requires Ready(u, confirmed)
    ensures Sound(ReadKept(u, a, got, from, confirmed, recorded))
  {
  }

  lemma TakenClaims(t: Title, how: Take, got: seq<Chapter>, source: Option<SourceId>, from: Reader, at: Time)
    ensures var u := Taken(t, how, got, source, from, at).read;
            u.claimedAt == t.read.claimedAt && u.claimToken == t.read.claimToken && u.failures == t.read.failures
  {
  }

  lemma SoundFromRecord(t: Title, source: SourceId, rec: RecordRead, present: bool, at: Time)
    requires Sound(t)
    ensures Sound(FromRecordTaken(t, source, rec, present, at))
  {
    var fate := RecordFateOf(t, source, rec, present);
    RecordFateFits(t, source, rec, present);
    if fate.Settling? {
      TakenSound(t, fate.how, rec.chapters, Some(source), FromRecord, rec.chapters == [], at);
    }
  }

  lemma SoundAdmin(t: Title, e: Event)
    requires Sound(t) && e.ByAnAdmin()
    ensures Sound(Next(t, e))
  {
    if e.Accepting? {
      if AcceptedChapters(t, e.side, e.rec).Some? {
        PutSound(t, AcceptedChapters(t, e.side, e.rec).value, e.current, ByAdmin, e.at);
      }
    } else if CanRevert(t) {
      PutSound(if t.chapters == [] then t.(read := t.read.(replaced := None)) else t,
               t.read.replaced.value.chapters, e.current, ByAdmin, e.at);
    }
  }

  /** Chapters known to be of an original exist, a confirmed none has none, what is stored or kept to undo is in its
      stored form, and a title is unreadable only after MAX_FAILURES failures: every step keeps this. */
  lemma SoundStep(t: Title, e: Event)
    requires Sound(t) && WellFormed([e])
    ensures Sound(Next(t, e))
  {
    match e
    case Reporting(a) =>
      assert [e][0].arrival.WellFormed();
      FateFits(t, a);
      SoundApplied(t, a, FateOf(t, a));
    case RecordReading(source, rec, present, at) => SoundFromRecord(t, source, rec, present, at);
    case Accepting(_, _, _, _) => SoundAdmin(t, e);
    case Reverting(_, _) => SoundAdmin(t, e);
    case _ =>
  }

  /** A run splits at its first event. */
  lemma First(es: seq<Event>)
    requires es != [] && WellFormed(es)
    ensures WellFormed([es[0]]) && WellFormed(es[1..])
  {
    assert forall i :: 0 <= i < |es| - 1 ==> es[1..][i] == es[i + 1];
  }

  lemma {:induction false} SoundRun(t: Title, es: seq<Event>)
    requires Sound(t) && WellFormed(es)
    ensures Sound(Run(t, es))
    decreases |es|
  {
    if es != [] {
      First(es);
      SoundStep(t, es[0]);
      SoundRun(Next(t, es[0]), es[1..]);
    }
  }

  // ---- runs

  lemma {:induction false} RunSplits(t: Title, a: seq<Event>, b: seq<Event>)
    ensures Run(t, a + b) == Run(Run(t, a), b)
    decreases |a|
  {
    if a == [] {
      assert a + b == b;
    } else {
      assert (a + b)[1..] == a[1..] + b;
      RunSplits(Next(t, a[0]), a[1..], b);
    }
  }

  // ---- no chapters lost

  /** The step writes chapters, or none, in place of some: of a title that has some, a read taken so. */
  predicate Replaces(t: Title, e: Event) {
    t.chapters != [] &&
    match e
    case Reporting(a) => FateOf(t, a).Taking? && FateOf(t, a).how in {TakeWrite, TakeNone}
    case RecordReading(source, rec, present, _) =>
      RecordFateOf(t, source, rec, present).Settling? &&
      RecordFateOf(t, source, rec, present).how in {TakeWrite, TakeNone}
    case _ => false
  }

  /** The chapters kept to undo. */
  function UndoOf(t: Title): Option<seq<Chapter>> {
    if t.read.replaced.Some? then Some(t.read.replaced.value.chapters) else None
  }

  lemma TakenLosesNothing(t: Title, how: Take, got: seq<Chapter>, source: Option<SourceId>, from: Reader,
                          confirmed: bool, at: Time)
    requires Takes(t, source, how, got, confirmed)
    ensures var u := Taken(t, how, got, source, from, at);
            (t.chapters != [] && how in {TakeWrite, TakeNone} ==> UndoOf(u) == Some(t.chapters)) &&
            (t.chapters == [] || how !in {TakeWrite, TakeNone} ==> UndoOf(u) == UndoOf(t)) &&
            (how !in {TakeWrite, TakeNone} ==> u.chapters == t.chapters) &&
            (|u.chapters| < |t.chapters| ==> Other(t, source)) &&
            (u.read.rowsSourceId in {None, source, t.read.rowsSourceId})
  {
  }

  /** A step of no admin changes the chapters a title has only where it replaces them, and then leaves exactly them to
      undo; and it takes fewer only of another original than the one known they were read of. */
  lemma NothingLostStep(t: Title, e: Event)
    requires WellFormed([e]) && !e.ByAnAdmin()
    ensures var u := Next(t, e);
            (t.chapters != [] && u.chapters != t.chapters ==> Replaces(t, e)) &&
            UndoOf(u) == (if Replaces(t, e) then Some(t.chapters) else UndoOf(t)) &&
            (|u.chapters| < |t.chapters| ==> Other(t, e.SourceRead())) &&
            (u.read.rowsSourceId in {None, e.SourceRead(), t.read.rowsSourceId})
  {
    match e
    case Reporting(a) =>
      assert [e][0].arrival.WellFormed();
      FateFits(t, a);
      NothingLostByReport(t, a, FateOf(t, a));
    case RecordReading(source, rec, present, at) =>
      RecordFateFits(t, source, rec, present);
      NothingLostByRecord(t, source, rec, RecordFateOf(t, source, rec, present), at);
    case _ =>
  }

  lemma NothingLostByReport(t: Title, a: Arrival, fate: Fate)
    requires Fits(t, a, fate)
    ensures var u := Applied(t, a, fate);
            var taken := t.chapters != [] && fate.Taking? && fate.how in {TakeWrite, TakeNone};
            (t.chapters != [] && u.chapters != t.chapters ==> taken) &&
            UndoOf(u) == (if taken then Some(t.chapters) else UndoOf(t)) &&
            (|u.chapters| < |t.chapters| ==> Other(t, a.source)) &&
            (u.read.rowsSourceId in {None, a.source, t.read.rowsSourceId})
  {
    if fate.Taking? {
      TakenLosesNothing(t.(read := EndClaim(t.read, a.token)), fate.how, fate.got, a.source, fate.from, fate.confirmed,
                        a.at);
    }
  }

  lemma NothingLostByRecord(t: Title, source: SourceId, rec: RecordRead, fate: RecordFate, at: Time)
    requires fate.Settling? ==> Takes(t, Some(source), fate.how, rec.chapters, rec.chapters == [])
    ensures var u := FromRecordApplied(t, source, rec, fate, at);
            var taken := t.chapters != [] && fate.Settling? && fate.how in {TakeWrite, TakeNone};
            (t.chapters != [] && u.chapters != t.chapters ==> taken) &&
            UndoOf(u) == (if taken then Some(t.chapters) else UndoOf(t)) &&
            (|u.chapters| < |t.chapters| ==> Other(t, Some(source))) &&
            (u.read.rowsSourceId in {None, Some(source), t.read.rowsSourceId})
  {
    if fate.Settling? {
      TakenLosesNothing(t, fate.how, rec.chapters, Some(source), FromRecord, rec.chapters == [], at);
    }
  }

  ghost predicate NoAdmin(es: seq<Event>) {
    forall i :: 0 <= i < |es| ==> !es[i].ByAnAdmin()
  }

  /** The chapters the last replacing step of a run replaced; before, where none did. */
  function LastReplaced(t: Title, es: seq<Event>, before: Option<seq<Chapter>>): Option<seq<Chapter>>
    decreases |es|
  {
    if es == [] then before
    else LastReplaced(Next(t, es[0]), es[1..], if Replaces(t, es[0]) then Some(t.chapters) else before)
  }

  /** After any run of no admin's step, what may be undone is exactly what the last replacing read replaced. */
  lemma {:induction false} UndoIsLastReplaced(t: Title, es: seq<Event>)
    requires WellFormed(es) && NoAdmin(es)
    ensures UndoOf(Run(t, es)) == LastReplaced(t, es, UndoOf(t))
    decreases |es|
  {
    if es != [] {
      First(es);
      NothingLostStep(t, es[0]);
      UndoIsLastReplaced(Next(t, es[0]), es[1..]);
    }
  }

  /** A run of no admin's step that ends with fewer chapters names the read that took them: one of another original
      than the known one they were read of. Chapters of no original known never become fewer. */
  lemma {:induction false} FewerNamesItsRead(t: Title, es: seq<Event>) returns (i: nat)
    requires WellFormed(es) && NoAdmin(es) && |Run(t, es).chapters| < |t.chapters|
    ensures i < |es| && Other(Run(t, es[..i]), es[i].SourceRead()) && Replaces(Run(t, es[..i]), es[i])
    decreases |es|
  {
    First(es);
    NothingLostStep(t, es[0]);
    var u := Next(t, es[0]);
    if |u.chapters| < |t.chapters| {
      i := 0;
    } else {
      var j := FewerNamesItsRead(u, es[1..]);
      i := j + 1;
      assert es[..i] == [es[0]] + es[1..][..j];
    }
  }

  /** Reads of one original never take a chapter of it, nor of no original known, away. */
  lemma {:induction false} OneOriginalKeepsAll(t: Title, es: seq<Event>, source: SourceId)
    requires WellFormed(es) && NoAdmin(es) && t.read.rowsSourceId in {None, Some(source)}
    requires forall i :: 0 <= i < |es| && (es[i].Reporting? || es[i].RecordReading?) ==>
             es[i].SourceRead() == Some(source)
    ensures |Run(t, es).chapters| >= |t.chapters|
    ensures Run(t, es).read.rowsSourceId in {None, Some(source)}
    decreases |es|
  {
    if es != [] {
      First(es);
      NothingLostStep(t, es[0]);
      assert es[0].SourceRead() in {None, Some(source)};
      OneOriginalKeepsAll(Next(t, es[0]), es[1..], source);
    }
  }

  // ---- undo

  /** The chapters a step takes the title's by: a report's or its record's. */
  function Got(t: Title, e: Event): seq<Chapter> {
    match e
    case Reporting(a) => if FateOf(t, a).Taking? then FateOf(t, a).got else []
    case RecordReading(_, rec, _, _) => rec.chapters
    case _ => []
  }

  lemma ReplacedDiffers(t: Title, e: Event)
    requires WellFormed([e]) && Replaces(t, e)
    ensures Next(t, e).chapters == Kept(Got(t, e)) && !Same(t.chapters, Got(t, e))
  {
    match e
    case Reporting(a) =>
      assert [e][0].arrival.WellFormed();
      FateFits(t, a);
    case RecordReading(source, rec, present, at) => RecordFateFits(t, source, rec, present);
    case _ =>
  }

  /** After any run of no admin's step a reversal restores exactly the chapters the last replacing read replaced,
      unless the title's are the same within a millisecond, which then stay. */
  lemma RevertRestores(t: Title, es: seq<Event>, current: Option<SourceId>, at: Time)
    requires Sound(t) && WellFormed(es) && NoAdmin(es) && LastReplaced(t, es, UndoOf(t)).Some?
    ensures var u, was := Run(t, es), LastReplaced(t, es, UndoOf(t)).value;
            CanRevert(u) && Reverted(u, current, at).read.rowsSourceId == current &&
            (Reverted(u, current, at).chapters == was <==> u.chapters == was || !Same(u.chapters, was))
  {
    SoundRun(t, es);
    UndoIsLastReplaced(t, es);
    StoredStays(Run(t, es).read.replaced.value.chapters);
  }

  /** A read that changed a title's chapters, taken back at once: the chapters are what they were, unless those written
      are the same within a millisecond. */
  lemma RevertUndoesStep(t: Title, e: Event, current: Option<SourceId>, at: Time)
    requires Sound(t) && WellFormed([e]) && !e.ByAnAdmin() && t.chapters != [] && Next(t, e).chapters != t.chapters
    ensures CanRevert(Next(t, e))
    ensures Reverted(Next(t, e), current, at).chapters == t.chapters <==> !Same(Next(t, e).chapters, t.chapters)
    ensures Reverted(Next(t, e), current, at).read.rowsSourceId == current
  {
    NothingLostStep(t, e);
    StoredStays(t.chapters);
  }

  /** Chapters listed in their order, as a record's are, are written in that order: taken back, none of them stays. */
  lemma RevertRestoresOrdered(t: Title, e: Event, current: Option<SourceId>, at: Time)
    requires Sound(t) && WellFormed([e]) && !e.ByAnAdmin() && t.chapters != [] && Next(t, e).chapters != t.chapters
    requires Ordered(Got(t, e))
    ensures Reverted(Next(t, e), current, at).chapters == t.chapters
  {
    NothingLostStep(t, e);
    ReplacedDiffers(t, e);
    KeptInOrder(Got(t, e));
    SameOfCleaned(t.chapters, Got(t, e));
    RevertUndoesStep(t, e, current, at);
  }

  /** A list out of its order is compared as it is listed and kept as it is ordered: taken back, what it wrote stays. */
  lemma RevertOfDisordered()
    ensures exists t, e, current, at ::
              Sound(t) && WellFormed([e]) && !e.ByAnAdmin() && t.chapters != [] &&
              Next(t, e).chapters != t.chapters && Reverted(Next(t, e), current, at).chapters != t.chapters
  {
    var one, two := Chapter(0, 5, None, 1), Chapter(5, 9, None, 2);
    var t := Title(Fresh, [one, two]);
    var got := [two.(startMs := 6), one];
    assert Kept(got) == [one, two.(startMs := 6)] by {
      var moved := two.(startMs := 6);
      assert got[1..] == [one] && Cleaned(moved) == moved && Cleaned(one) == one;
      assert Kept([one]) == Inserted(one, []) == [one];
      assert Inserted(moved, [one]) == [one] + Inserted(moved, [one][1..]);
    }
    var a := Arrival(FoundChapters, "", got, 2, false, Some("s"), None, None, 0);
    var e := Reporting(a);
    assert FateOf(t, a) == Taking(TakeWrite, got, FromHeader, false, false) by {
      assert t.chapters[0].startMs - got[0].startMs == -6;
    }
    RevertUndoesStep(t, e, None, 1);
    assert Same(Next(t, e).chapters, t.chapters);
  }

  /** Taken back twice, a title's chapters are what they were. */
  lemma RevertTwice(t: Title, current: Option<SourceId>, at: Time, again: Option<SourceId>, later: Time)
    requires Sound(t) && CanRevert(t) && CanRevert(Reverted(t, current, at))
    ensures Reverted(Reverted(t, current, at), again, later).chapters == t.chapters
  {
    StoredStays(t.chapters);
    StoredStays(t.read.replaced.value.chapters);
  }
}
