/**
 Whether the check found a title within every rule, as an original is retired on (internal/compliance/retire.go), and
 what the answer means of every run; what a mark set while a check runs comes to; what the kept records are worth.
 */
module Gate {
  import opened Wrappers
  import opened Titles
  import opened Rules
  import opened Evaluation
  import opened Checks

  /** Passed, or the first reason why not. */
  datatype Answer = Passed | Unreported | NeverChecked | OtherRules | Changed | BeforeVersion | OtherVersion
                  | BeforeNightly | Unreadable | LeftUnchecked | CantHelp | Breaks

  predicate HasVersion(s: State, id: string) {
    id in s.titles && s.titles[id].title.version.Some?
  }

  predicate OfItsVersion(row: Row, version: string) {
    row.key.Some? && row.key.value.OfVersion? && row.key.value.version == version
  }

  function AnswerOf(s: State, id: string): Answer {
    if s.rules.transcoder.None? || s.rules.packager.None? then Unreported
    else if id !in s.rows then NeverChecked
    else
      var row := s.rows[id];
      if row.hash != Some(HashOf(s.rules)) then OtherRules
      else if row.staleAt.Some? then Changed
      else if HasVersion(s, id) && row.evaluatedAt < s.titles[id].completedAt then BeforeVersion
      else if HasVersion(s, id) && !OfItsVersion(row, s.titles[id].title.version.value) then OtherVersion
      else if s.cutoff.Some? && row.evaluatedAt < s.cutoff.value then BeforeNightly
      else if row.result.unread then Unreadable
      else if row.result.unchecked != [] then LeftUnchecked
      else if row.result.blocked.Some? then CantHelp
      else if row.result.findings != [] then Breaks
      else Passed
  }

  method PassedOf(s: State, ids: seq<string>) returns (out: map<string, Answer>)
    ensures out.Keys == set id | id in ids
    ensures forall id :: id in ids ==> out[id] == AnswerOf(s, id)
  {
    out := map[];
    var unreported := s.rules.transcoder.None? || s.rules.packager.None?;
    var hash := Some(HashOf(s.rules));
    for i := 0 to |ids|
      invariant out.Keys == set id | id in ids[..i]
      invariant forall id :: id in out ==> out[id] == AnswerOf(s, id)
    {
      var id := ids[i];
      var answer := Passed;
      if unreported {
        answer := Unreported;
      } else if id !in s.rows {
        answer := NeverChecked;
      } else {
        var row := s.rows[id];
        if row.hash != hash {
          answer := OtherRules;
        } else if row.staleAt.Some? {
          answer := Changed;
        } else if HasVersion(s, id) && row.evaluatedAt < s.titles[id].completedAt {
          answer := BeforeVersion;
        } else if HasVersion(s, id) && !OfItsVersion(row, s.titles[id].title.version.value) {
          answer := OtherVersion;
        } else if s.cutoff.Some? && row.evaluatedAt < s.cutoff.value {
          answer := BeforeNightly;
        } else if row.result.unread {
          answer := Unreadable;
        } else if |row.result.unchecked| > 0 {
          answer := LeftUnchecked;
        } else if row.result.blocked.Some? {
          answer := CantHelp;
        } else if |row.result.findings| > 0 {
          answer := Breaks;
        }
      }
      assert ids[..i + 1] == ids[..i] + [id];
      out := out[id := answer];
    }
    assert ids[..|ids|] == ids;
  }

  // ---- what the answers mean

  /** The last check's key names the title's complete version. */
  ghost predicate JudgedAsVersion(c: Check, version: string) {
    match c.key
    case Some(OfVersion(v, _, _, _)) => v == version
    case _ => false
  }

  /** A reason to keep an original that its title's last check gives, by when it ended, what it judged the title by and
      what it found. */
  ghost predicate CheckGives(s: State, id: string, c: Check, found: Result, why: Answer) {
    match why
    case BeforeVersion => HasVersion(s, id) && c.end < s.titles[id].completedAt
    case OtherVersion => HasVersion(s, id) && !JudgedAsVersion(c, s.titles[id].title.version.value)
    case BeforeNightly => s.cutoff.Some? && c.end < s.cutoff.value
    case Unreadable => c.records.unread
    case LeftUnchecked => found.unchecked != []
    case CantHelp => found.blocked.Some?
    case Breaks => found.findings != []
    case _ => false
  }

  /** A reason to keep an original, said of its title's last check and of the marks. */
  ghost predicate Reason(s: State, id: string, why: Answer) {
    match why
    case Unreported => s.rules.transcoder.None? || s.rules.packager.None?
    case NeverChecked => id !in s.rows
    case OtherRules =>
      id in s.rows && (s.rows[id].hash.None? || id !in s.last || HashOf(s.last[id].rs) != HashOf(s.rules))
    case Changed => id in s.rows && s.rows[id].staleAt.Some?
    case Passed => true
    case _ => id in s.last && CheckGives(s, id, s.last[id], Outcome(s.last[id]), why)
  }

  /** What a check found. */
  function Outcome(c: Check): Result {
    ResultOf(c.facts.title, c.records, c.rs)
  }

  /** The order the reasons are given in. */
  function Rank(why: Answer): nat {
    match why
    case Unreported => 0
    case NeverChecked => 1
    case OtherRules => 2
    case Changed => 3
    case BeforeVersion => 4
    case OtherVersion => 5
    case BeforeNightly => 6
    case Unreadable => 7
    case LeftUnchecked => 8
    case CantHelp => 9
    case Breaks => 10
    case Passed => 11
  }

  /** The answer is the first reason there is; a title with none passes. */
  lemma AnswerIsFirst(s: State, id: string)
    requires Inv(s)
    ensures Reason(s, id, AnswerOf(s, id))
    ensures forall why: Answer :: Rank(why) < Rank(AnswerOf(s, id)) ==> !Reason(s, id, why)
  {
    assert id in s.rows ==> RowOk(s, id);
    ReasonOfRow(s, id);
    forall why: Answer | Rank(why) < Rank(AnswerOf(s, id)) ensures !Reason(s, id, why) {
      NoneEarlier(s, id, why);
    }
  }

  lemma ReasonOfRow(s: State, id: string)
    requires id in s.rows && s.rows[id].hash.Some? ==> id in s.last && RowIs(s.rows[id], s.last[id])
    ensures Reason(s, id, AnswerOf(s, id))
  {
  }

  lemma NoneEarlier(s: State, id: string, why: Answer)
    requires id in s.rows && s.rows[id].hash.Some? ==> id in s.last && RowIs(s.rows[id], s.last[id])
    requires Rank(why) < Rank(AnswerOf(s, id))
    ensures !Reason(s, id, why)
  {
    if Rank(why) > 3 {
      NoneOfTheCheck(s, id, s.rows[id], s.last[id], Outcome(s.last[id]), why);
    }
  }

  /** Of a title whose row is unmarked and of the rules in force, the reasons its check gives. */
  lemma NoneOfTheCheck(s: State, id: string, row: Row, c: Check, found: Result, why: Answer)
    requires id in s.rows && s.rows[id] == row && row.evaluatedAt == c.end && row.key == c.key && row.result == found
    requires c.records.unread <==> found.unread
    requires 3 < Rank(why) < Rank(AnswerOf(s, id))
    ensures !CheckGives(s, id, c, found, why)
  {
  }

  /** A title said to have changed since its last check was marked since that check began. */
  lemma ChangedIsMarked(s: State, id: string)
    requires Inv(s) && AnswerOf(s, id) == Changed
    ensures exists m :: m in s.marks && m.id == id && s.last[id].start <= m.at <= s.now
  {
    assert RowOk(s, id);
    assert Mark(id, s.rows[id].staleAt.value) in s.marks;
  }

  /** The table has what the title's last check found, and no mark. */
  ghost predicate Unmarked(s: State, id: string) {
    id in s.rows && s.rows[id].hash.Some? && s.rows[id].staleAt.None?
  }

  /** The title's last check was under rules of the hash in force, ended since the nightly check fell due, found
      nothing, left nothing, and no mark was set since it began; of a title with a complete version it ended once that
      was complete, and judged it by that version's records as the library holds them. */
  ghost predicate Stays(s: State, id: string) {
    id in s.last &&
    var c := s.last[id];
    HashOf(c.rs) == HashOf(s.rules) && s.rules.transcoder.Some? && s.rules.packager.Some? &&
    (s.cutoff.Some? ==> s.cutoff.value <= c.end) &&
    Outcome(c) == NOTHING &&
    (forall m :: m in s.marks && m.id == id ==> m.at <= c.start) &&
    (HasVersion(s, id) ==>
       c.facts.title.version == s.titles[id].title.version && s.titles[id].completedAt <= c.end && c.rs.v2 &&
       c.facts.key.Some? && c.facts.key.value in s.library && c.records == s.library[c.facts.key.value])
  }

  lemma PassedIsUnmarked(s: State, id: string)
    requires Inv(s) && AnswerOf(s, id) == Passed
    ensures Unmarked(s, id) && Stays(s, id)
  {
    assert RowOk(s, id) && CheckOk(s.last[id], s.library, s.now);
    forall m | m in s.marks && m.id == id ensures m.at <= s.last[id].start {
      assert Stands(m, s.rows, s.last);
    }
    assert s.rows[id].result == NOTHING;
  }

  /** A check of a title with a version, by the library's records of its key, judged it as that version. */
  lemma JudgedByItsKey(c: Check, library: map<Key, Records>, now: Time)
    requires CheckOk(c, library, now) && c.rs.v2 && c.facts.key.Some? && c.facts.title.version.Some?
    requires c.facts.key.value in library && c.records == library[c.facts.key.value] && !c.records.unread
    ensures JudgedAsVersion(c, c.facts.title.version.value)
  {
  }

  lemma GivesNothing(s: State, id: string, c: Check, found: Result, why: Answer)
    requires found == NOTHING && !c.records.unread && (s.cutoff.Some? ==> s.cutoff.value <= c.end)
    requires HasVersion(s, id) ==>
               s.titles[id].completedAt <= c.end && JudgedAsVersion(c, s.titles[id].title.version.value)
    ensures !CheckGives(s, id, c, found, why)
  {
  }

  lemma UnmarkedPasses(s: State, id: string)
    requires Unmarked(s, id) && Stays(s, id) && RowIs(s.rows[id], s.last[id])
    requires CheckOk(s.last[id], s.library, s.now) && forall key :: key in s.library ==> !s.library[key].unread
    ensures AnswerOf(s, id) == Passed
  {
    var c := s.last[id];
    ReasonOfRow(s, id);
    if HasVersion(s, id) {
      JudgedByItsKey(c, s.library, s.now);
    }
    assert c.records.unread == Outcome(c).unread == NOTHING.unread;
    GivesNothing(s, id, c, Outcome(c), AnswerOf(s, id));
  }

  /** A title passes exactly when its last check stands so, and is in the table unmarked. */
  lemma PassedStays(s: State, id: string)
    requires Inv(s)
    ensures AnswerOf(s, id) == Passed <==> Unmarked(s, id) && Stays(s, id)
  {
    if AnswerOf(s, id) == Passed {
      PassedIsUnmarked(s, id);
    }
    if Unmarked(s, id) && Stays(s, id) {
      assert RowOk(s, id);
      UnmarkedPasses(s, id);
    }
  }

  lemma SameBlocked(t: Title, r: Records, a: RulesState, b: RulesState)
    requires HashOf(a) == HashOf(b)
    ensures BlockedOf(t, r, a.transcoder) == BlockedOf(t, r, b.transcoder)
  {
    SameHash(a, b, []);
    SameTranscoder(t, r, a, b);
  }

  lemma CleanMeans(c: Check, rs: RulesState)
    requires Outcome(c) == NOTHING && HashOf(c.rs) == HashOf(rs)
    ensures if c.facts.title.Packaged() then
              SameReport(c.rs, rs) <==>
              forall rule :: rule in OF_PACKAGES ==> Within(rule, c.facts.title, c.records, rs)
            else !Stopped(c.facts.title) && (!c.facts.title.hasOriginal || UnderWay(c.facts.title))
  {
    HashCoversResult(c.facts.title, c.records, c.rs, rs);
    SameBlocked(c.facts.title, c.records, c.rs, rs);
    if c.facts.title.Packaged() {
      CleanIsWithin(c.facts.title, c.records, rs);
    } else {
      UnpackagedIsFound(c.facts.title, c.records, c.rs);
    }
  }

  /** A report that says nothing of image subtitles and one that keeps none have one hash. */
  lemma UnsaidHashesAsNone(rs: RulesState, p: PackagerRules)
    ensures HashOf(rs.(packager := Some(p.(imageSubtitles := None)))) ==
            HashOf(rs.(packager := Some(p.(imageSubtitles := Some([])))))
  {
  }

  /** In the older layout, which keeps no records, no title with a complete version ever passes. */
  lemma OlderLayoutNeverPasses(s: State, es: seq<Event>, id: string)
    requires Init(s) && Runs(s, es) && !Run(s, es).rules.v2 && HasVersion(Run(s, es), id)
    ensures AnswerOf(Run(s, es), id) != Passed
  {
    InvRun(s, es);
    var t := Run(s, es);
    if id in t.rows && t.rows[id].hash.Some? {
      assert RowOk(t, id) && CheckOk(t.last[id], t.library, t.now);
    }
  }

  // ---- marks

  /** A touch marks each title of the catalog it names, checked before or not, and has its records read again by a batch
      that reads it then; it changes no other row. */
  lemma TouchMarks(s: State, ids: set<string>, id: string)
    ensures var t := Next(s, Touch(ids));
            if id in ids && id in s.titles then
              id in t.rows && t.rows[id].staleAt == Some(s.now) && !Cached(SnapOf(t, id)) &&
              if id in s.rows then t.rows[id].hash == s.rows[id].hash && t.rows[id].result == s.rows[id].result
              else t.rows[id].hash.None?
            else (id in t.rows <==> id in s.rows) && (id in s.rows ==> t.rows[id] == s.rows[id])
  {
  }

  /** A refresh marks the rows of its kind (all, for none named) not marked yet, and changes nothing else of them. */
  lemma RefreshMarks(s: State, kind: string, id: string)
    requires id in s.rows
    ensures var t := Next(s, Refresh(kind));
            id in t.rows && t.rows[id] == s.rows[id].(staleAt := t.rows[id].staleAt) &&
            t.rows[id].staleAt ==
            if s.rows[id].staleAt.None? && kind in {"", s.rows[id].kind} then Some(s.now) else s.rows[id].staleAt
  {
  }

  // ---- a mark set while a check runs

  /** A title touched while its batch runs is still marked when the batch is written, exactly when the touch came after
      the batch began. */
  lemma TouchOutlives(s: State, ids: set<string>, read: map<string, Records>, id: string)
    requires s.batch.Some? && s.batch.value.snaps.Some? && id in s.batch.value.snaps.value
    requires id in ids && id in s.titles
    requires Enabled(Next(s, Touch(ids)), Write(read))
    ensures Next(Next(s, Touch(ids)), Write(read)).rows[id].staleAt ==
            if s.batch.value.start < s.now then Some(s.now) else None
  {
    WriteIs(Next(s, Touch(ids)), read, id);
  }

  /** But its records are not read again: the batch's write puts back the key the touch blanked, and the next check of
      the title, while its key stays, judges it by what was kept. */
  lemma TouchedButKept(s: State, ids: set<string>, read: map<string, Records>, id: string)
    requires s.batch.Some? && s.batch.value.snaps.Some? && id in s.batch.value.snaps.value
    requires id in ids && id in s.titles && s.titles[id] == s.batch.value.snaps.value[id].facts
    requires Enabled(Next(s, Touch(ids)), Write(read))
    ensures var t := Next(Next(s, Touch(ids)), Write(read));
            s.titles[id].key.Some? ==>
              (Cached(SnapOf(t, id)) <==>
               s.batch.value.rs.v2 && (Cached(s.batch.value.snaps.value[id]) || !ReadOf(read, id).unread))
  {
    TouchSame(s, ids);
    if s.titles[id].key.Some? {
      KeyWritten(Next(s, Touch(ids)), read, id);
    }
  }

  lemma TouchSame(s: State, ids: set<string>)
    ensures var t := Next(s, Touch(ids)); t.batch == s.batch && t.titles == s.titles && t.now == s.now
  {
  }

  /** The next check of a title just written uses what was kept of its records, while its key stays. */
  lemma KeyWritten(s: State, read: map<string, Records>, id: string)
    requires Enabled(s, Write(read)) && id in s.batch.value.snaps.value && id in s.titles
    requires s.titles[id] == s.batch.value.snaps.value[id].facts && s.titles[id].key.Some?
    ensures Cached(SnapOf(Next(s, Write(read)), id)) <==>
            s.batch.value.rs.v2 && (Cached(s.batch.value.snaps.value[id]) || !ReadOf(read, id).unread)
  {
    WriteIs(s, read, id);
  }

  /** A refresh while a title's batch runs has it checked again exactly when it was not marked yet, and the refresh
      came after the batch began, or was marked since the batch began: a mark older than the batch is not set anew, and
      ends with it. */
  lemma RefreshOutlives(s: State, kind: string, read: map<string, Records>, id: string)
    requires s.batch.Some? && s.batch.value.snaps.Some? && id in s.batch.value.snaps.value
    requires id in s.rows && (kind == "" || s.rows[id].kind == kind)
    requires Enabled(Next(s, Refresh(kind)), Write(read))
    ensures Next(Next(s, Refresh(kind)), Write(read)).rows[id].staleAt.Some? <==>
            s.batch.value.start < s.rows[id].staleAt.GetOr(s.now)
  {
    WriteIs(Next(s, Refresh(kind)), read, id);
  }

  // ---- the records kept

  /** Over every run a check judged its title by what reading its records afresh gives, the library's of its key or
      none, or by some it could not read; and of those nothing is kept, so that the next check reads them again. */
  lemma JudgedAsRead(s: State, es: seq<Event>, id: string)
    requires Init(s) && Runs(s, es) && id in Run(s, es).last
    ensures var t := Run(s, es);
            var c := t.last[id];
            if c.records.unread then id in t.rows && t.rows[id].hash.Some? ==> t.rows[id].kept.None?
            else if c.rs.v2 && c.facts.key.Some? then
              c.facts.key.value in t.library && c.records == t.library[c.facts.key.value]
            else c.records == NO_RECORDS
  {
    InvRun(s, es);
    var t := Run(s, es);
    assert CheckOk(t.last[id], t.library, t.now);
    if id in t.rows {
      assert RowOk(t, id);
    }
  }
}
