/**
 The table of what the check found of each title, and everything that changes it while a pass runs
 (internal/compliance): the reports of the workers, the marks to check again, the pass's steps. Each step is one
 statement of the database; between two of them any others may come.
 */
module Checks {
  import opened Wrappers
  import opened Titles
  import opened Rules
  import opened Evaluation

  type Time = int

  /** What a title's records are read of: its version and the source of it, or its file's source, each with when its
      row last changed (stamp), in its series. */
  datatype Key = OfVersion(version: string, stamp: Time, source: string, series: string)
               | OfSource(of: string, stamp: Time, series: string)

  /** What the catalog holds of a title for the check, with when its complete version was complete. */
  datatype Facts = Facts(title: Title, key: Option<Key>, completedAt: Time)

  /** The facts the check keeps of a title's records. */
  datatype Kept = Kept(pkg: Option<PackageRecord>, src: Option<SourceRecord>, pkgEssence: Option<Essence>,
                       srcEssence: Option<Essence>)

  function Encode(r: Records): Kept {
    Kept(r.pkg, r.src, r.pkgEssence, r.srcEssence)
  }

  function Decode(k: Kept): Records {
    Records(k.pkg, k.src, k.pkgEssence, k.srcEssence, false)
  }

  /** A title's row: the hash it was checked under (none: a mark made it), when it was marked to be checked again, when
      it was checked, what its records were read of and the facts kept of them, and what was found. */
  datatype Row = Row(kind: string, hash: Option<Hash>, staleAt: Option<Time>, evaluatedAt: Time, key: Option<Key>,
                     kept: Option<Kept>, result: Result)

  /** What a check read of a title: the catalog's, and what its row kept. */
  datatype Snap = Snap(facts: Facts, key: Option<Key>, kept: Option<Kept>)

  /** A batch being checked: its titles, the rules, from when on, and what it read of each, once it has. */
  datatype Batch = Batch(ids: set<string>, rs: RulesState, start: Time, snaps: Option<map<string, Snap>>)

  /** A mark that a title be checked again, as it took effect. */
  datatype Mark = Mark(id: string, at: Time)

  /** A check of a title as it ended: what it read of it, of which key (none: no records kept), under which rules. */
  datatype Check = Check(rs: RulesState, start: Time, end: Time, facts: Facts, key: Option<Key>, records: Records)

  /** library: the records that can be read, by what they are read of; marks and last (each title's last check) only
      tell the run's story. */
  datatype State = State(now: Time, rules: RulesState, cutoff: Option<Time>, titles: map<string, Facts>,
                         library: map<Key, Records>, rows: map<string, Row>, pass: Option<RulesState>,
                         batch: Option<Batch>, marks: set<Mark>, last: map<string, Check>)

  datatype Event = Tick(passed: nat)
                 | Report(rules: RulesState)
                 | Nightly(cutoff: Option<Time>)
                 | Change(id: string, facts: Facts)
                 | Record(key: Key, records: Records)
                 | Touch(ids: set<string>)
                 | Refresh(kind: string)
                 | Start
                 | Begin(of: set<string>)
                 | ReadTitles
                 | Write(read: map<string, Records>)
                 | Prune(eligible: set<string>)
                 | Stop

  // ---- the steps

  const NOTHING := Result([], [], None, false)

  function Touched(s: State, id: string): Row
    requires id in s.titles
  {
    if id in s.rows then s.rows[id].(staleAt := Some(s.now), key := None)
    else Row(s.titles[id].title.kind, None, Some(s.now), s.now, None, None, NOTHING)
  }

  function Marked(s: State, ids: set<string>): set<Mark> {
    set id | id in ids :: Mark(id, s.now)
  }

  /** The titles a refresh marks: of the kind ("": of every one), and not marked already. */
  function Refreshed(s: State, kind: string): set<string> {
    set id | id in s.rows && s.rows[id].staleAt.None? && (kind == "" || s.rows[id].kind == kind)
  }

  /** What a check judges a title by: the records kept of it while its key is theirs, else those read now; and what it
      keeps of them, nothing where they could not be read. */
  datatype Judged = Judged(records: Records, key: Option<Key>, kept: Option<Kept>)

  const UNREADABLE := NO_RECORDS.(unread := true)

  predicate Cached(snap: Snap) {
    snap.facts.key.Some? && snap.key == snap.facts.key && snap.kept.Some?
  }

  function JudgedOf(rs: RulesState, snap: Snap, read: Records): Judged {
    if !rs.v2 || snap.facts.key.None? then Judged(NO_RECORDS, None, None)
    else if Cached(snap) then Judged(Decode(snap.kept.value), snap.key, snap.kept)
    else if read.unread then Judged(read, None, None)
    else Judged(read, snap.facts.key, Some(Encode(read)))
  }

  function ReadOf(read: map<string, Records>, id: string): Records {
    if id in read then read[id] else UNREADABLE
  }

  /** A title's row as a check begun at start writes it: one marked since start stays marked. */
  function Upserted(s: State, start: Time, rs: RulesState, id: string, kind: string, j: Judged, res: Result): Row {
    Row(kind, Some(HashOf(rs)),
        if id in s.rows && s.rows[id].staleAt.Some? && s.rows[id].staleAt.value > start then s.rows[id].staleAt
            else None,
        s.now, j.key, j.kept, res)
  }

  function Written(s: State, b: Batch, read: map<string, Records>, id: string): Row
    requires b.snaps.Some? && id in b.snaps.value
  {
    var snap := b.snaps.value[id];
    var j := JudgedOf(b.rs, snap, ReadOf(read, id));
    Upserted(s, b.start, b.rs, id, snap.facts.title.kind, j, ResultOf(snap.facts.title, j.records, b.rs))
  }

  function CheckOf(s: State, b: Batch, read: map<string, Records>, id: string): Check
    requires b.snaps.Some? && id in b.snaps.value
  {
    var snap := b.snaps.value[id];
    var j := JudgedOf(b.rs, snap, ReadOf(read, id));
    Check(b.rs, b.start, s.now, snap.facts, j.key, j.records)
  }

  function SnapOf(s: State, id: string): Snap
    requires id in s.titles
  {
    if id in s.rows then Snap(s.titles[id], s.rows[id].key, s.rows[id].kept) else Snap(s.titles[id], None, None)
  }

  /** The catalog's facts of a title: its complete version was complete by now, and is what its records are read of. */
  predicate Sound(f: Facts, now: Time) {
    (f.title.version.Some? ==>
       f.completedAt <= now &&
       (f.key.Some? ==> f.key.value.OfVersion? && f.key.value.version == f.title.version.value)) &&
    (f.title.version.None? && f.key.Some? ==> f.key.value.OfSource?)
  }

  /** Records read of a key are the library's, or could not be read. */
  predicate Reads(s: State, b: Batch, read: map<string, Records>) {
    b.snaps.Some? &&
    forall id :: id in b.snaps.value && id in read && !read[id].unread && b.snaps.value[id].facts.key.Some? ==>
      b.snaps.value[id].facts.key.value in s.library && s.library[b.snaps.value[id].facts.key.value] == read[id]
  }

  /** A step that can come: a record, once written, is not written over; one pass runs at a time, one batch in it. */
  predicate Enabled(s: State, e: Event) {
    match e
    case Change(id, f) => Sound(f, s.now)
    case Record(key, r) => key !in s.library && !r.unread
    case Start => s.pass.None?
    case Begin(_) => s.pass.Some? && s.batch.None?
    case ReadTitles => s.batch.Some? && s.batch.value.snaps.None?
    case Write(read) => s.batch.Some? && Reads(s, s.batch.value, read)
    case Prune(_) => s.batch.None?
    case _ => true
  }

  function Next(s: State, e: Event): State
    requires Enabled(s, e)
  {
    match e
    case Tick(d) => s.(now := s.now + d)
    case Report(rs) => s.(rules := rs)
    case Nightly(c) => s.(cutoff := c)
    case Change(id, f) => s.(titles := s.titles[id := f])
    case Record(key, r) => s.(library := s.library[key := r])
    case Touch(ids) =>
      var known := ids * s.titles.Keys;
      s.(rows := s.rows + map id | id in known :: Touched(s, id), marks := s.marks + Marked(s, known))
    case Refresh(kind) =>
      var ids := Refreshed(s, kind);
      s.(rows := s.rows + map id | id in ids :: s.rows[id].(staleAt := Some(s.now)), marks := s.marks + Marked(s, ids))
    case Start => s.(pass := Some(s.rules))
    case Begin(ids) => s.(batch := Some(Batch(ids, s.pass.value, s.now, None)))
    case ReadTitles =>
      var b := s.batch.value;
      s.(batch := Some(b.(snaps := Some(map id | id in b.ids && id in s.titles :: SnapOf(s, id)))))
    case Write(read) =>
      var b := s.batch.value;
      s.(rows := s.rows + map id | id in b.snaps.value :: Written(s, b, read, id),
         last := s.last + map id | id in b.snaps.value :: CheckOf(s, b, read, id),
         batch := None)
    case Prune(eligible) => s.(rows := map id | id in s.rows && id in eligible :: s.rows[id])
    case Stop => s.(pass := None, batch := None)
  }

  ghost predicate Runs(s: State, es: seq<Event>)
    decreases |es|
  {
    es == [] || (Enabled(s, es[0]) && Runs(Next(s, es[0]), es[1..]))
  }

  function Run(s: State, es: seq<Event>): State
    requires Runs(s, es)
    decreases |es|
  {
    if es == [] then s else Run(Next(s, es[0]), es[1..])
  }

  // ---- what every run keeps

  ghost predicate KeptOk(key: Option<Key>, kept: Option<Kept>, library: map<Key, Records>) {
    key.Some? && kept.Some? ==> key.value in library && Decode(kept.value) == library[key.value]
  }

  /** A check judged a title by the library's records of its key, or by none kept. */
  ghost predicate CheckOk(c: Check, library: map<Key, Records>, now: Time) {
    c.start <= c.end <= now && Sound(c.facts, c.end) &&
    (c.key.Some? ==> c.rs.v2 && c.key == c.facts.key && c.key.value in library && c.records == library[c.key.value]) &&
    (c.key.None? && !c.records.unread ==> c.records == NO_RECORDS && (!c.rs.v2 || c.facts.key.None?))
  }

  /** A row holds what its title's last check found; one not marked since, what its records were read of. */
  ghost predicate RowIs(row: Row, c: Check) {
    row.hash == Some(HashOf(c.rs)) && row.evaluatedAt == c.end && (row.key.Some? ==> row.key == c.key) &&
    (if row.staleAt.None? then row.key == c.key else c.start <= row.staleAt.value) &&
    (c.records.unread ==> row.kept.None?) &&
    row.result == ResultOf(c.facts.title, c.records, c.rs)
  }

  /** A mark still stands, or came before the title's last check began. */
  ghost predicate Stands(m: Mark, rows: map<string, Row>, last: map<string, Check>) {
    (m.id in rows && rows[m.id].staleAt.Some? && m.at <= rows[m.id].staleAt.value) ||
    (m.id in last && m.at <= last[m.id].start)
  }

  ghost predicate BatchOk(s: State, b: Batch) {
    s.pass.Some? && b.start <= s.now && (forall id :: id in s.last ==> s.last[id].start <= b.start) &&
    (forall m :: m in s.marks && m.id !in s.rows ==> m.at <= b.start) &&
    (b.snaps.Some? ==>
       forall id :: id in b.snaps.value ==>
         Sound(b.snaps.value[id].facts, s.now) && KeptOk(b.snaps.value[id].key, b.snaps.value[id].kept, s.library))
  }

  ghost predicate RowOk(s: State, id: string)
    requires id in s.rows
  {
    KeptOk(s.rows[id].key, s.rows[id].kept, s.library) &&
    (s.rows[id].key.Some? ==> s.rows[id].kept.Some?) &&
    (s.rows[id].staleAt.Some? ==>
       s.rows[id].staleAt.value <= s.now && Mark(id, s.rows[id].staleAt.value) in s.marks) &&
    (s.rows[id].hash.Some? ==> id in s.last && RowIs(s.rows[id], s.last[id]))
  }

  ghost predicate Inv(s: State) {
    (forall key :: key in s.library ==> !s.library[key].unread) &&
    (forall id :: id in s.titles ==> Sound(s.titles[id], s.now)) &&
    (forall id :: id in s.rows ==> RowOk(s, id)) &&
    (forall id :: id in s.last ==> CheckOk(s.last[id], s.library, s.now)) &&
    (forall m :: m in s.marks ==> m.at <= s.now && (m.id in s.rows ==> Stands(m, s.rows, s.last))) &&
    (s.batch.Some? ==> BatchOk(s, s.batch.value))
  }

  /** Where a run may begin: a catalog and a library, nothing checked, nothing marked. */
  ghost predicate Init(s: State) {
    (forall id :: id in s.titles ==> Sound(s.titles[id], s.now)) &&
    (forall key :: key in s.library ==> !s.library[key].unread) &&
    s.rows == map[] && s.marks == {} && s.last == map[] && s.pass.None? && s.batch.None?
  }

  lemma TouchKeeps(s: State, ids: set<string>)
    requires Inv(s)
    ensures Inv(Next(s, Touch(ids)))
  {
    var t := Next(s, Touch(ids));
    forall id | id in t.rows ensures RowOk(t, id) {
      if id in s.rows {
        assert RowOk(s, id);
      }
    }
    forall m | m in t.marks ensures m.at <= t.now && (m.id in t.rows ==> Stands(m, t.rows, t.last)) {
      TouchStands(s, ids, m);
    }
  }

  lemma TouchStands(s: State, ids: set<string>, m: Mark)
    requires Inv(s) && m in Next(s, Touch(ids)).marks
    ensures var t := Next(s, Touch(ids)); m.at <= t.now && (m.id in t.rows ==> Stands(m, t.rows, t.last))
  {
    if m in s.marks && m.id in s.rows {
      assert RowOk(s, m.id) && Stands(m, s.rows, s.last);
    }
  }

  lemma RefreshKeeps(s: State, kind: string)
    requires Inv(s)
    ensures Inv(Next(s, Refresh(kind)))
  {
    var t := Next(s, Refresh(kind));
    assert t.rows.Keys == s.rows.Keys;
    forall id | id in t.rows ensures RowOk(t, id) {
      assert id in s.last ==> CheckOk(s.last[id], s.library, s.now);
      RefreshRowOk(s, kind, id);
    }
    forall m | m in t.marks ensures m.at <= t.now && (m.id in t.rows ==> Stands(m, t.rows, t.last)) {
      RefreshStands(s, kind, m);
    }
  }

  lemma RefreshRowOk(s: State, kind: string, id: string)
    requires id in s.rows && RowOk(s, id) && (id in s.last ==> s.last[id].start <= s.now)
    ensures id in Next(s, Refresh(kind)).rows && RowOk(Next(s, Refresh(kind)), id)
  {
  }

  lemma RefreshStands(s: State, kind: string, m: Mark)
    requires Inv(s) && m in Next(s, Refresh(kind)).marks
    ensures var t := Next(s, Refresh(kind)); m.at <= t.now && (m.id in t.rows ==> Stands(m, t.rows, t.last))
  {
    if m in s.marks && m.id in s.rows {
      assert RowOk(s, m.id) && Stands(m, s.rows, s.last);
    }
  }

  lemma ReadTitlesKeeps(s: State)
    requires Inv(s) && Enabled(s, ReadTitles)
    ensures Inv(Next(s, ReadTitles))
  {
    var t := Next(s, ReadTitles);
    var snaps := t.batch.value.snaps.value;
    forall id | id in snaps ensures Sound(snaps[id].facts, t.now) && KeptOk(snaps[id].key, snaps[id].kept, t.library) {
      if id in s.rows {
        assert RowOk(s, id);
      }
    }
    forall id | id in t.rows ensures RowOk(t, id) {
      assert RowOk(s, id);
    }
  }

  lemma JudgedIsOk(s: State, b: Batch, read: map<string, Records>, id: string)
    requires Inv(s) && BatchOk(s, b) && Reads(s, b, read) && id in b.snaps.value
    ensures CheckOk(CheckOf(s, b, read, id), s.library, s.now)
    ensures RowIs(Written(s, b, read, id), CheckOf(s, b, read, id))
    ensures KeptOk(Written(s, b, read, id).key, Written(s, b, read, id).kept, s.library)
    ensures Written(s, b, read, id).key.Some? ==> Written(s, b, read, id).kept.Some?
  {
    JudgedByRecords(s.library, b.rs, b.snaps.value[id], ReadOf(read, id));
  }

  /** Records come back as they were kept, exactly those that could be read. */
  lemma KeptComeBack(r: Records)
    ensures Decode(Encode(r)) == r <==> !r.unread
  {
  }

  /** A title is judged by the library's records of its key, or by none, or by some that could not be read, which
      are not kept. */
  lemma JudgedByRecords(library: map<Key, Records>, rs: RulesState, snap: Snap, read: Records)
    requires forall key :: key in library ==> !library[key].unread
    requires KeptOk(snap.key, snap.kept, library)
    requires !read.unread && snap.facts.key.Some? ==>
               snap.facts.key.value in library && library[snap.facts.key.value] == read
    ensures var j := JudgedOf(rs, snap, read);
            KeptOk(j.key, j.kept, library) && (j.key.Some? <==> j.kept.Some?) &&
            (j.key.Some? ==> rs.v2 && j.key == snap.facts.key && j.key.value in library &&
                             j.records == library[j.key.value]) &&
            (j.key.None? && !j.records.unread ==> j.records == NO_RECORDS && (!rs.v2 || snap.facts.key.None?)) &&
            (j.records.unread ==> j.kept.None?)
  {
    KeptComeBack(read);
  }

  lemma WriteIs(s: State, read: map<string, Records>, id: string)
    requires Enabled(s, Write(read))
    ensures var b, t := s.batch.value, Next(s, Write(read));
            if id in b.snaps.value then
              id in t.rows && t.rows[id] == Written(s, b, read, id) && id in t.last &&
              t.last[id] == CheckOf(s, b, read, id)
            else
              (id in t.rows <==> id in s.rows) && (id in t.rows ==> t.rows[id] == s.rows[id]) &&
              (id in t.last <==> id in s.last) && (id in t.last ==> t.last[id] == s.last[id])
  {
  }

  lemma WriteRowOk(s: State, read: map<string, Records>, id: string)
    requires Inv(s) && Enabled(s, Write(read)) && id in Next(s, Write(read)).rows
    ensures RowOk(Next(s, Write(read)), id)
  {
    WriteIs(s, read, id);
    assert id in s.rows ==> RowOk(s, id);
    if id in s.batch.value.snaps.value {
      JudgedIsOk(s, s.batch.value, read, id);
    }
  }

  /** A mark set since the batch began outlives the batch's write. */
  lemma WriteStands(s: State, read: map<string, Records>, m: Mark)
    requires Enabled(s, Write(read))
    requires if m.id in s.rows then Stands(m, s.rows, s.last) else m.at <= s.batch.value.start
    requires m.id in s.last ==> s.last[m.id].start <= s.batch.value.start
    ensures var t := Next(s, Write(read)); m.id in t.rows ==> Stands(m, t.rows, t.last)
  {
    WriteIs(s, read, m.id);
  }

  lemma WriteKeeps(s: State, read: map<string, Records>)
    requires Inv(s) && Enabled(s, Write(read))
    ensures Inv(Next(s, Write(read)))
  {
    var t := Next(s, Write(read));
    WriteSame(s, read);
    forall id | id in t.rows ensures RowOk(t, id) {
      WriteRowOk(s, read, id);
    }
    forall id | id in t.last ensures CheckOk(t.last[id], s.library, s.now) {
      WriteCheckOk(s, read, id);
    }
    forall m | m in s.marks && m.id in t.rows ensures Stands(m, t.rows, t.last) {
      WriteMark(s, read, m);
    }
    Assembled(s, t);
  }

  lemma WriteSame(s: State, read: map<string, Records>)
    requires Enabled(s, Write(read))
    ensures var t := Next(s, Write(read));
            t.now == s.now && t.library == s.library && t.titles == s.titles && t.marks == s.marks && t.batch.None?
  {
  }

  lemma WriteMark(s: State, read: map<string, Records>, m: Mark)
    requires Inv(s) && Enabled(s, Write(read)) && m in s.marks
    ensures var t := Next(s, Write(read)); m.id in t.rows ==> Stands(m, t.rows, t.last)
  {
    WriteStands(s, read, m);
  }

  /** What a step must keep that ends a batch and changes rows and checks alone. */
  lemma Assembled(s: State, t: State)
    requires Inv(s) && t.now == s.now && t.library == s.library && t.titles == s.titles && t.marks == s.marks
    requires t.batch.None?
    requires forall id :: id in t.rows ==> RowOk(t, id)
    requires forall id :: id in t.last ==> CheckOk(t.last[id], s.library, s.now)
    requires forall m :: m in s.marks && m.id in t.rows ==> Stands(m, t.rows, t.last)
    ensures Inv(t)
  {
  }

  lemma WriteCheckOk(s: State, read: map<string, Records>, id: string)
    requires Inv(s) && Enabled(s, Write(read)) && id in Next(s, Write(read)).last
    ensures CheckOk(Next(s, Write(read)).last[id], s.library, s.now)
  {
    WriteIs(s, read, id);
    if id in s.batch.value.snaps.value {
      JudgedIsOk(s, s.batch.value, read, id);
    }
  }

  lemma PruneKeeps(s: State, eligible: set<string>)
    requires Inv(s) && Enabled(s, Prune(eligible))
    ensures Inv(Next(s, Prune(eligible)))
  {
    var t := Next(s, Prune(eligible));
    forall id | id in t.rows ensures RowOk(t, id) {
      assert RowOk(s, id);
    }
    forall m | m in t.marks && m.id in t.rows ensures Stands(m, t.rows, t.last) {
      assert Stands(m, s.rows, s.last);
    }
  }

  /** What a step that changes no row, mark or check keeps. */
  lemma SameRowsKeep(s: State, t: State)
    requires Inv(s) && t.rows == s.rows && t.last == s.last && t.marks == s.marks && s.now <= t.now
    requires forall key :: key in s.library ==> key in t.library && t.library[key] == s.library[key]
    requires forall key :: key in t.library ==> !t.library[key].unread
    requires forall id :: id in t.titles ==> Sound(t.titles[id], t.now)
    requires t.batch.Some? ==> BatchOk(t, t.batch.value)
    ensures Inv(t)
  {
    forall id | id in t.rows ensures RowOk(t, id) {
      assert RowOk(s, id);
    }
    forall m | m in t.marks && m.id in t.rows ensures Stands(m, t.rows, t.last) {
      assert Stands(m, s.rows, s.last);
    }
  }

  lemma SameBatchKeeps(s: State, t: State, b: Batch)
    requires BatchOk(s, b) && t.rows == s.rows && t.last == s.last && t.marks == s.marks && s.now <= t.now &&
             t.pass == s.pass
    requires forall key :: key in s.library ==> key in t.library && t.library[key] == s.library[key]
    ensures BatchOk(t, b)
  {
  }

  lemma OthersKeep(s: State, e: Event)
    requires Inv(s) && Enabled(s, e)
    requires e.Tick? || e.Report? || e.Nightly? || e.Change? || e.Record?
    ensures Inv(Next(s, e))
  {
    if s.batch.Some? {
      SameBatchKeeps(s, Next(s, e), s.batch.value);
    }
    SameRowsKeep(s, Next(s, e));
  }

  lemma PassKeeps(s: State, e: Event)
    requires Inv(s) && Enabled(s, e) && (e.Start? || e.Begin? || e.Stop?)
    ensures Inv(Next(s, e))
  {
    SameRowsKeep(s, Next(s, e));
  }

  lemma InvStep(s: State, e: Event)
    requires Inv(s) && Enabled(s, e)
    ensures Inv(Next(s, e))
  {
    match e
    case Touch(ids) => TouchKeeps(s, ids);
    case Refresh(kind) => RefreshKeeps(s, kind);
    case ReadTitles => ReadTitlesKeeps(s);
    case Write(read) => WriteKeeps(s, read);
    case Prune(eligible) => PruneKeeps(s, eligible);
    case Start => PassKeeps(s, e);
    case Begin(_) => PassKeeps(s, e);
    case Stop => PassKeeps(s, e);
    case _ => OthersKeep(s, e);
  }

  lemma {:induction false} InvRun(s: State, es: seq<Event>)
    requires Inv(s) && Runs(s, es)
    ensures Inv(Run(s, es))
    decreases |es|
  {
    if es != [] {
      InvStep(s, es[0]);
      InvRun(Next(s, es[0]), es[1..]);
    }
  }
}
