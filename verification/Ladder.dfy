/**
 The failures' ladder: header reads that fail in a row count once a backoff each, and only the fifth, at least fifteen
 hours after the first, makes a title unreadable.
 */
module Ladder {
  import opened Wrappers
  import opened Chapters
  import opened Records
  import opened Reads
  import opened ReadRuns

  predicate Counts(t: Title, e: Event) {
    e.Reporting? && FateOf(t, e.arrival).CountedFailure?
  }

  /** A read that took what it found, or held the title, ends the failures in a row. */
  predicate EndsStreak(t: Title, e: Event) {
    match e
    case Reporting(a) => FateOf(t, a).Taking? || FateOf(t, a).Holding?
    case RecordReading(source, rec, present, _) => RecordFateOf(t, source, rec, present).Settling?
    case _ => false
  }

  /** The step waits on the storage or the worker: a transient failure, a lapse, an original or a record not there. */
  predicate WaitsOnStorage(t: Title, e: Event) {
    match e
    case Reporting(a) => FateOf(t, a).TransientFailure?
    case RecordSlow(_) => true
    case Missing(_) => true
    case Expiring(lease, at) => Overdue(t.read, at, lease)
    case _ => false
  }

  /** The step takes away the wait of the failures counted: a record that holds the title, or an admin's reversal. */
  predicate Forgets(t: Title, e: Event) {
    t.read.failures > 0 &&
    match e
    case RecordReading(source, rec, present, _) => RecordFateOf(t, source, rec, present) == Noted(true)
    case Reverting(_, _) => CanRevert(t)
    case _ => false
  }

  /** The step waits on the storage, for less than is left of the failures' wait. */
  predicate Shortens(t: Title, e: Event) {
    t.read.failures > 0 && WaitsOnStorage(t, e) && t.read.nextAttemptAt.Some? &&
    e.When() + Backoff(t.read.transients + 1) < t.read.nextAttemptAt.value
  }

  /** The clock never goes back. */
  ghost predicate Monotone(es: seq<Event>) {
    forall i, j :: 0 <= i < j < |es| ==> es[i].When() <= es[j].When()
  }

  function StreakAfter(t: Title, e: Event, times: seq<Time>): seq<Time> {
    if Counts(t, e) then times + [e.When()] else if EndsStreak(t, e) then [] else times
  }

  /** When the failures in a row that a run ends with were counted, after those before it. */
  function Streak(t: Title, es: seq<Event>, times: seq<Time>): seq<Time>
    decreases |es|
  {
    if es == [] then times else Streak(Next(t, es[0]), es[1..], StreakAfter(t, es[0], times))
  }

  /** When the wait of failures in a row is over: an hour after the last, or its whole backoff (steady). */
  function Due(times: seq<Time>, steady: bool): Time
    requires times != []
  {
    times[|times| - 1] + if steady then Backoff(|times|) else HOUR
  }

  /** The step breaks the wait of the failures in a row: before it is over it forgets it, or waits on the storage for
      less than is left of it. */
  predicate Breaks(t: Title, e: Event, times: seq<Time>, steady: bool) {
    times != [] &&
    ((Forgets(t, e) && e.When() < Due(times, steady)) ||
     (WaitsOnStorage(t, e) && e.When() + Backoff(t.read.transients + 1) < Due(times, steady)))
  }

  /** No step of the run breaks a wait. */
  ghost predicate WaitsKept(t: Title, es: seq<Event>, times: seq<Time>, steady: bool)
    decreases |es|
  {
    es != [] ==>
      !Breaks(t, es[0], times, steady) && WaitsKept(Next(t, es[0]), es[1..], StreakAfter(t, es[0], times), steady)
  }

  /** At a moment (now) the failures in a row are as many as the row counts, each at least its wait after the one before
      it, and the last one's wait is over or stands in the row. */
  ghost predicate OnLadder(t: Title, times: seq<Time>, now: Time, steady: bool) {
    && t.read.failures == |times|
    && (times != [] ==> times[|times| - 1] <= now && (now >= Due(times, steady) || Stands(t, Due(times, steady))))
    && (t.read.state == StateUnreadable ==> |times| >= MAX_FAILURES)
    && Spaced(times, steady)
  }

  /** The row keeps another failure from counting until due. */
  predicate Stands(t: Title, due: Time) {
    t.read.state in {StateFailed, StateUnreadable} && t.read.nextAttemptAt.Some? && t.read.nextAttemptAt.value >= due
  }

  ghost predicate Spaced(times: seq<Time>, steady: bool) {
    forall i :: 0 < i < |times| ==> Apart(times, i, steady)
  }

  predicate Apart(times: seq<Time>, i: nat, steady: bool)
    requires 0 < i < |times|
  {
    times[i] >= times[i - 1] + (if steady then Backoff(i) else HOUR)
  }

  lemma CountedAfterWait(t: Title, a: Arrival)
    requires FateOf(t, a).CountedFailure? && t.read.failures > 0 && t.read.state in {StateFailed, StateUnreadable} &&
             t.read.nextAttemptAt.Some?
    ensures a.at >= t.read.nextAttemptAt.value
  {
    assert FateOf(t, a) == FailureFate(t.read, a.at);
  }

  lemma ReportOnLadder(t: Title, a: Arrival, times: seq<Time>, now: Time, steady: bool)
    requires OnLadder(t, times, now, steady) && now <= a.at && !Breaks(t, Reporting(a), times, steady)
    ensures OnLadder(Recorded(t, a), StreakAfter(t, Reporting(a), times), a.at, steady)
  {
    var fate := FateOf(t, a);
    if fate.CountedFailure? {
      var all := times + [a.at];
      forall i | 0 < i < |all| ensures Apart(all, i, steady) {
        if i < |times| {
          assert Apart(times, i, steady);
        } else if now < Due(times, steady) {
          CountedAfterWait(t, a);
        }
      }
    }
    AppliedOnLadder(t, a, fate, times, now, steady);
  }

  lemma AppliedOnLadder(t: Title, a: Arrival, fate: Fate, times: seq<Time>, now: Time, steady: bool)
    requires OnLadder(t, times, now, steady) && now <= a.at
    requires fate.CountedFailure? ==> Spaced(times + [a.at], steady)
    requires fate.TransientFailure? && times != [] ==> Due(times, steady) <= a.at + Backoff(t.read.transients + 1)
    ensures OnLadder(Applied(t, a, fate),
                     if fate.CountedFailure? then times + [a.at]
                     else if fate.Taking? || fate.Holding? then [] else times,
                     a.at, steady)
  {
  }

  /** Every step keeps the ladder but one that breaks the wait. */
  lemma LadderStep(t: Title, e: Event, times: seq<Time>, now: Time, steady: bool)
    requires OnLadder(t, times, now, steady) && now <= e.When() && !Breaks(t, e, times, steady)
    ensures OnLadder(Next(t, e), StreakAfter(t, e, times), e.When(), steady)
  {
    if e.Reporting? {
      ReportOnLadder(t, e.arrival, times, now, steady);
    }
  }

  lemma {:induction false} LadderRun(t: Title, es: seq<Event>, times: seq<Time>, now: Time, steady: bool)
    requires OnLadder(t, times, now, steady) && WaitsKept(t, es, times, steady) && Monotone(es)
    requires es != [] ==> now <= es[0].When()
    ensures OnLadder(Run(t, es), Streak(t, es, times), if es == [] then now else es[|es| - 1].When(), steady)
    decreases |es|
  {
    if es != [] {
      LadderStep(t, es[0], times, now, steady);
      assert forall i :: 0 <= i < |es| - 1 ==> es[1..][i] == es[i + 1];
      LadderRun(Next(t, es[0]), es[1..], StreakAfter(t, es[0], times), es[0].When(), steady);
    }
  }

  /** Over every run that breaks no wait of an hour, whoever's its steps are, failures counted in a row are at least an
      hour apart, and a title ends unreadable only with five of them or more. */
  lemma CountedAnHourApart(t: Title, es: seq<Event>)
    requires t.read.failures == 0 && t.read.state != StateUnreadable && WaitsKept(t, es, [], false) && Monotone(es)
    ensures var times := Streak(t, es, []);
            Run(t, es).read.failures == |times| && Spaced(times, false) &&
            (Run(t, es).read.state == StateUnreadable ==> |times| >= MAX_FAILURES)
  {
    LadderRun(t, es, [], if es == [] then 0 else es[0].When(), false);
  }

  /** ... and over one that breaks no whole backoff, the fifth comes at least fifteen hours after the first. */
  lemma FifthAfterFifteenHours(t: Title, es: seq<Event>)
    requires t.read.failures == 0 && t.read.state != StateUnreadable && WaitsKept(t, es, [], true) && Monotone(es)
    ensures var times := Streak(t, es, []);
            (Run(t, es).read.state == StateUnreadable ==> |times| >= MAX_FAILURES) &&
            (|times| >= MAX_FAILURES ==> times[4] - times[0] >= 15 * HOUR)
  {
    LadderRun(t, es, [], if es == [] then 0 else es[0].When(), true);
    var times := Streak(t, es, []);
    if |times| >= MAX_FAILURES {
      assert Apart(times, 1, true) && Apart(times, 2, true) && Apart(times, 3, true) && Apart(times, 4, true);
    }
  }

  /** A wait of an hour is broken by no wait on the storage: a run without a step that forgets one keeps them all. */
  lemma OnlyForgettingBreaksAnHour(t: Title, e: Event, times: seq<Time>)
    requires times != [] && times[|times| - 1] <= e.When()
    ensures Breaks(t, e, times, false) <==> Forgets(t, e) && e.When() < times[|times| - 1] + HOUR
  {
  }

  // ---- exactly which steps break a wait

  /** A read that failed of no original known, without a claim. */
  function PlainFailure(at: Time): Arrival {
    Arrival(ReadFailed, "", [], 0, false, None, None, None, at)
  }

  predicate CountsAt(t: Title, a: Arrival) {
    Counts(t, Reporting(a))
  }

  /** On the ladder, of a step that does not end the failures in a row: right after it one more may count before their
      wait is over exactly when the step breaks it. */
  lemma LadderBroken(t: Title, e: Event, times: seq<Time>, now: Time, steady: bool)
    requires OnLadder(t, times, now, steady) && now <= e.When() && times != []
    requires WellFormed([e]) && !EndsStreak(t, e)
    ensures Breaks(t, e, times, steady) <==>
            exists a: Arrival :: a.WellFormed() && e.When() <= a.at < Due(times, steady) && CountsAt(Next(t, e), a)
  {
    var u, due := Next(t, e), Due(times, steady);
    if Breaks(t, e, times, steady) {
      if Forgets(t, e) {
        assert PlainFailure(e.When()).WellFormed() && CountsAt(u, PlainFailure(e.When()));
      } else {
        var soon := PlainFailure(e.When() + Backoff(t.read.transients + 1));
        WaitAfter(t, e);
        assert soon.WellFormed() && CountsAt(u, soon);
      }
    } else if e.When() < due {
      WaitAfter(t, e);
      assert Stands(u, due);
      forall a: Arrival | CountsAt(u, a) ensures a.at >= due {
        CountedAfterWait(u, a);
      }
    }
  }

  /** A step within the wait of failures counted, that ends them not: a failure may count before that wait is over,
      right after it, exactly when the step forgets the wait or shortens it. */
  lemma WaitBroken(t: Title, e: Event)
    requires t.read.failures > 0 && t.read.state in {StateFailed, StateUnreadable} && t.read.nextAttemptAt.Some?
    requires WellFormed([e]) && e.When() < t.read.nextAttemptAt.value && !EndsStreak(t, e)
    ensures Forgets(t, e) || Shortens(t, e) <==>
            exists a: Arrival :: a.WellFormed() && e.When() <= a.at < t.read.nextAttemptAt.value &&
                   CountsAt(Next(t, e), a)
  {
    var u := Next(t, e);
    if Forgets(t, e) {
      assert PlainFailure(e.When()).WellFormed() && CountsAt(u, PlainFailure(e.When()));
    } else if Shortens(t, e) {
      var soon := PlainFailure(e.When() + Backoff(t.read.transients + 1));
      WaitAfter(t, e);
      assert soon.WellFormed() && CountsAt(u, soon);
    } else {
      WaitAfter(t, e);
      forall a: Arrival | CountsAt(u, a) ensures a.at >= t.read.nextAttemptAt.value {
        CountedAfterWait(u, a);
      }
    }
  }

  /** What a step within the wait leaves of it. */
  lemma WaitAfter(t: Title, e: Event)
    requires t.read.failures > 0 && t.read.state in {StateFailed, StateUnreadable} && t.read.nextAttemptAt.Some?
    requires WellFormed([e]) && e.When() < t.read.nextAttemptAt.value && !EndsStreak(t, e) && !Forgets(t, e)
    ensures var u := Next(t, e);
            u.read.failures > 0 && u.read.state in {StateFailed, StateUnreadable} && u.read.nextAttemptAt.Some? &&
            if Shortens(t, e) then u.read.nextAttemptAt.value == e.When() + Backoff(t.read.transients + 1)
            else u.read.nextAttemptAt.value >= t.read.nextAttemptAt.value
  {
    if e.Reporting? {
      if FateOf(t, e.arrival).CountedFailure? {
        CountedAfterWait(t, e.arrival);
      } else {
        ReportWait(t, e.arrival, FateOf(t, e.arrival));
      }
    }
  }

  lemma ReportWait(t: Title, a: Arrival, fate: Fate)
    requires t.read.nextAttemptAt.Some? && !fate.Taking? && !fate.Holding? && !fate.CountedFailure?
    ensures var u := Applied(t, a, fate);
            u.read.failures == t.read.failures && (t.read.state != StatePending ==> u.read.state == t.read.state) &&
            u.read.nextAttemptAt.Some? &&
            if fate.TransientFailure? then u.read.nextAttemptAt.value == a.at + Backoff(t.read.transients + 1)
            else u.read.nextAttemptAt.value >= t.read.nextAttemptAt.value
  {
  }

  /** A record that holds the title keeps its failures and forgets their wait: two failures a moment apart then count.
      */
  lemma HoldForgetsWait() returns (t: Title, es: seq<Event>)
    ensures Sound(t) && t.read.failures == 0 && WellFormed(es) && Monotone(es) && NoAdmin(es)
    ensures |Streak(t, es, [])| == 2 && Streak(t, es, [])[1] - Streak(t, es, [])[0] == 2
  {
    t := Title(Fresh, []);
    var first := Arrival(ReadFailed, "", [], 0, false, Some("x"), None, None, 0);
    var second := first.(source := Some("y"), at := 2);
    var hold := RecordReading("x", RecordRead(1, [], true, false, false), true, 1);
    es := [Reporting(first), hold, Reporting(second)];
    var t1 := Next(t, es[0]);
    assert FateOf(t, first).CountedFailure? && Counts(t, es[0]);
    assert t1.read.failures == 1 && t1.read.state == StateFailed;
    var t2 := Next(t1, hold);
    assert t2.read.state == StateHeld && t2.read.failures == 1;
    assert FateOf(t2, second).CountedFailure?;
    var t3 := Next(t2, es[2]);
    assert es[1..] == [hold, es[2]] && es[1..][1..] == [es[2]] && es[1..][1..][1..] == [];
    assert StreakAfter(t, es[0], []) == [0] && StreakAfter(t1, hold, [0]) == [0] &&
           StreakAfter(t2, es[2], [0]) == [0, 2];
    assert Streak(t2, [es[2]], [0]) == Streak(t3, [es[2]][1..], [0, 2]) == [0, 2];
    assert Streak(t1, es[1..], [0]) == Streak(t2, es[1..][1..], [0]);
  }
}
