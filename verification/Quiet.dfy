/** What checking titles comes to at the gate where nobody else does a thing meanwhile. */
module Quiet {
  import opened Wrappers
  import opened Titles
  import opened Rules
  import opened Evaluation
  import opened Checks
  import opened Passes
  import opened Gate

  /** What is up to date is refused for no check missing, changed, of other rules or before the nightly one, but one of
      another version; and only what is may pass. */
  lemma UpToDateAnswers(s: State, id: string)
    requires s.rules.transcoder.Some? && s.rules.packager.Some?
    ensures UpToDate(s, id) ==> AnswerOf(s, id) !in {Unreported, NeverChecked, OtherRules, Changed, BeforeNightly}
    ensures !UpToDate(s, id) ==>
              AnswerOf(s, id) in {NeverChecked, OtherRules, Changed, BeforeNightly, BeforeVersion, OtherVersion}
  {
  }

  /** A batch nobody disturbs judges each of its titles as the catalog has it, under the pass's rules, and leaves its
      row unmarked. */
  lemma QuietCheck(s: State, ids: set<string>, gap: Gap, id: string)
    requires Inv(s) && Enabled(s, Begin(ids)) && gap.before == [] && gap.after == [] && id in ids && id in s.titles
    ensures var t := Checked(s, ids, gap);
            Inv(t) && t.rules == s.rules && t.cutoff == s.cutoff && t.titles == s.titles && t.library == s.library &&
            Unmarked(t, id) && id in t.last && t.rows[id].evaluatedAt == s.now &&
            t.last[id].rs == s.pass.value && t.last[id].end == s.now && t.last[id].facts == s.titles[id]
  {
    CheckedKeeps(s, ids, gap);
    var s1 := Begun(s, ids, gap);
    assert s1 == Next(s, Begin(ids));
    QuietEnd(s1, gap, id);
    QuietEnds(s1, gap, id);
    if id in s.rows {
      assert RowOk(s, id);
    }
  }

  lemma ReadIs(s: State, gap: Gap, id: string)
    requires Enabled(s, ReadTitles) && gap.after == [] && id in s.batch.value.ids && id in s.titles
    ensures var t := Taken(s, gap);
            t.titles == s.titles && t.library == s.library && t.now == s.now && id in t.batch.value.snaps.value &&
            t.batch.value.snaps.value[id] == SnapOf(s, id)
  {
    assert Taken(s, gap) == Next(s, ReadTitles);
  }

  /** What a title's records are judged as, read as a batch ends. */
  function JudgedNow(s: State, rs: RulesState, snap: Snap, gap: Gap, id: string): Records {
    JudgedOf(rs, snap, Found(s, snap, ReadOf(gap.read, id))).records
  }

  lemma ClosedIs(s: State, gap: Gap, id: string)
    requires s.batch.Some? && s.batch.value.snaps.Some? && id in s.batch.value.snaps.value
    ensures var t, snap := Closed(s, gap), s.batch.value.snaps.value[id];
            t.titles == s.titles && t.library == s.library && id in t.last && t.last[id].facts == snap.facts &&
            t.last[id].rs == s.batch.value.rs && t.last[id].end == s.now &&
            t.last[id].records == JudgedNow(s, s.batch.value.rs, snap, gap, id)
  {
    WriteIs(s, FoundAll(s, s.batch.value.snaps.value, gap.read), id);
  }

  lemma QuietEnd(s: State, gap: Gap, id: string)
    requires Enabled(s, ReadTitles) && gap.after == [] && id in s.batch.value.ids && id in s.titles
    ensures var t := Closed(Taken(s, gap), gap);
            t.titles == s.titles && t.library == s.library && id in t.last && t.last[id].facts == s.titles[id] &&
            t.last[id].rs == s.batch.value.rs && t.last[id].end == s.now &&
            t.last[id].records == JudgedNow(s, s.batch.value.rs, SnapOf(s, id), gap, id)
  {
    ReadIs(s, gap, id);
    ClosedIs(Taken(s, gap), gap, id);
  }

  /** ... by the records read as it is checked, or kept of it. */
  lemma QuietRecords(s: State, ids: set<string>, gap: Gap, id: string)
    requires Enabled(s, Begin(ids)) && gap.before == [] && gap.after == [] && id in ids && id in s.titles
    ensures id in Checked(s, ids, gap).last &&
            Checked(s, ids, gap).last[id].records == JudgedNow(s, s.pass.value, SnapOf(s, id), gap, id)
  {
    var s1 := Begun(s, ids, gap);
    assert s1 == Next(s, Begin(ids));
    QuietEnd(s1, gap, id);
    SameReading(s, s1, s.pass.value, gap, id);
  }

  lemma SameReading(s: State, t: State, rs: RulesState, gap: Gap, id: string)
    requires t.rows == s.rows && t.titles == s.titles && t.library == s.library && id in s.titles
    ensures JudgedNow(t, rs, SnapOf(t, id), gap, id) == JudgedNow(s, rs, SnapOf(s, id), gap, id)
  {
  }

  /** What the library holds of a title's records, none where the layout keeps none. */
  function Held(s: State, id: string): Records
    requires id in s.titles && (s.rules.v2 && s.titles[id].key.Some? ==> s.titles[id].key.value in s.library)
  {
    if s.rules.v2 && s.titles[id].key.Some? then s.library[s.titles[id].key.value] else NO_RECORDS
  }

  /** Its records could be read, of a title with a complete version those of its version. */
  predicate Readable(s: State, gap: Gap, id: string)
    requires id in s.titles
  {
    (s.rules.v2 && s.titles[id].key.Some? ==>
       s.titles[id].key.value in s.library && id in gap.read &&
       gap.read[id] == s.library[s.titles[id].key.value]) &&
    (HasVersion(s, id) ==> s.rules.v2 && s.titles[id].key.Some?)
  }

  lemma JudgedAsHeld(s: State, gap: Gap, id: string)
    requires Inv(s) && id in s.titles && Readable(s, gap, id)
    ensures JudgedNow(s, s.rules, SnapOf(s, id), gap, id) == Held(s, id) && !Held(s, id).unread
  {
    if id in s.rows {
      assert RowOk(s, id);
      KeptComeBack(Held(s, id));
    }
  }

  /** A title checked in a batch nobody disturbs, under the rules in force, its records read, passes exactly when
      nothing blocks it and it is within every rule; one without a package, when it has no original or is on its way to
      one. */
  lemma WithinPasses(s: State, ids: set<string>, gap: Gap, id: string)
    requires Inv(s) && Enabled(s, Begin(ids)) && gap.before == [] && gap.after == [] && id in ids && id in s.titles
    requires s.pass == Some(s.rules) && s.rules.transcoder.Some? && s.rules.packager.Some?
    requires (s.cutoff.Some? ==> s.cutoff.value <= s.now) && Readable(s, gap, id)
    ensures var f, r := s.titles[id].title, Held(s, id);
            AnswerOf(Checked(s, ids, gap), id) == Passed <==>
            BlockedOf(f, r, s.rules.transcoder).None? &&
            if f.Packaged() then forall rule :: rule in OF_PACKAGES ==> Within(rule, f, r, s.rules)
            else !Stopped(f) && (!f.hasOriginal || UnderWay(f))
  {
    var t := Checked(s, ids, gap);
    QuietCheck(s, ids, gap, id);
    QuietRecords(s, ids, gap, id);
    JudgedAsHeld(s, gap, id);
    PassesWhenClean(t, id);
    if s.titles[id].title.Packaged() {
      CleanIsWithin(s.titles[id].title, Held(s, id), s.rules);
    } else {
      UnpackagedIsFound(s.titles[id].title, Held(s, id), s.rules);
    }
  }

  /** Of a title just checked as the catalog has it, under the rules in force, of its version's records, the answer is
      what the check found. */
  lemma PassesWhenClean(t: State, id: string)
    requires Inv(t) && Unmarked(t, id) && id in t.titles && t.last[id].facts == t.titles[id] && t.last[id].rs == t.rules
    requires t.rules.transcoder.Some? && t.rules.packager.Some? && !t.last[id].records.unread
    requires t.last[id].end <= t.now && (t.cutoff.Some? ==> t.cutoff.value <= t.last[id].end)
    requires t.titles[id].title.version.Some? ==>
               t.rules.v2 && t.titles[id].key.Some? && t.titles[id].completedAt <= t.last[id].end
    ensures AnswerOf(t, id) == Passed <==> Outcome(t.last[id]) == NOTHING
  {
    AnswerIsFirst(t, id);
    assert RowOk(t, id) && CheckOk(t.last[id], t.library, t.now);
  }
}
