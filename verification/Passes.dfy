/**
 The background pass (internal/compliance/pass.go): batch after batch it takes the titles to check, checks those it has
 not checked yet, and writes what it found, while others go on changing the catalog.
 */
module Passes {
  import opened Wrappers
  import opened Titles
  import opened Rules
  import opened Evaluation
  import opened Checks

  /** How many titles are checked at once. */
  const BATCH := 200

  // ---- what others do meanwhile

  predicate Outside(e: Event) {
    e.Tick? || e.Report? || e.Nightly? || e.Change? || e.Record? || e.Touch? || e.Refresh?
  }

  /** The state after others' steps; one that cannot come is passed over. */
  function Others(s: State, es: seq<Event>): (t: State)
    ensures t.batch == s.batch && t.pass == s.pass && t.last == s.last && s.now <= t.now &&
            s.titles.Keys <= t.titles.Keys
    ensures s.rows.Keys <= t.rows.Keys
    ensures es == [] ==> t == s
    decreases |es|
  {
    if es == [] then s
    else if Outside(es[0]) && Enabled(s, es[0]) then Others(Next(s, es[0]), es[1..])
    else Others(s, es[1..])
  }

  lemma {:induction false} OthersKeepInv(s: State, es: seq<Event>)
    requires Inv(s)
    ensures Inv(Others(s, es))
    decreases |es|
  {
    if es != [] {
      if Outside(es[0]) && Enabled(s, es[0]) {
        InvStep(s, es[0]);
        OthersKeepInv(Next(s, es[0]), es[1..]);
      } else {
        OthersKeepInv(s, es[1..]);
      }
    }
  }

  /** What others do while a batch is checked, before its titles are read and after, and what reading its records
      gives. */
  datatype Gap = Gap(before: seq<Event>, after: seq<Event>, read: map<string, Records>)

  const QUIET := Gap([], [], map[])

  /** What was read of the library: a title's records as they are there, or some that could not be read. */
  function Found(s: State, snap: Snap, read: Records): Records {
    if snap.facts.key.Some? && snap.facts.key.value in s.library && s.library[snap.facts.key.value] == read then read
    else read.(unread := true)
  }

  function FoundAll(s: State, snaps: map<string, Snap>, read: map<string, Records>): map<string, Records> {
    map id | id in snaps :: Found(s, snaps[id], ReadOf(read, id))
  }

  // ---- a batch

  /** A batch begun, before its titles are read. */
  function Begun(s: State, ids: set<string>, gap: Gap): (t: State)
    requires Enabled(s, Begin(ids))
    ensures t.batch == Some(Batch(ids, s.pass.value, s.now, None)) && t.pass == s.pass && t.last == s.last
    ensures s.now <= t.now && s.titles.Keys <= t.titles.Keys
  {
    Others(Next(s, Begin(ids)), gap.before)
  }

  /** Its titles read, before it is written. */
  function Taken(s: State, gap: Gap): (t: State)
    requires Enabled(s, ReadTitles)
    ensures t.batch.Some? && t.batch.value.snaps.Some? && t.pass == s.pass && t.last == s.last
    ensures t.batch == Some(s.batch.value.(snaps := t.batch.value.snaps))
    ensures t.batch.value.snaps.value.Keys == s.batch.value.ids * s.titles.Keys
    ensures s.now <= t.now && s.titles.Keys <= t.titles.Keys
  {
    Others(Next(s, ReadTitles), gap.after)
  }

  function Closed(s: State, gap: Gap): State
    requires s.batch.Some? && s.batch.value.snaps.Some?
  {
    Next(s, Write(FoundAll(s, s.batch.value.snaps.value, gap.read)))
  }

  /** The state once a batch is checked. */
  function Checked(s: State, ids: set<string>, gap: Gap): State
    requires Enabled(s, Begin(ids))
  {
    Closed(Taken(Begun(s, ids, gap), gap), gap)
  }

  lemma BegunKeeps(s: State, ids: set<string>, gap: Gap)
    requires Inv(s) && Enabled(s, Begin(ids))
    ensures Inv(Begun(s, ids, gap))
  {
    InvStep(s, Begin(ids));
    OthersKeepInv(Next(s, Begin(ids)), gap.before);
  }

  lemma TakenKeeps(s: State, gap: Gap)
    requires Inv(s) && Enabled(s, ReadTitles)
    ensures Inv(Taken(s, gap))
  {
    InvStep(s, ReadTitles);
    OthersKeepInv(Next(s, ReadTitles), gap.after);
  }

  lemma ClosedKeeps(s: State, gap: Gap)
    requires Inv(s) && s.batch.Some? && s.batch.value.snaps.Some?
    ensures Inv(Closed(s, gap))
    ensures Closed(s, gap).batch.None? && Closed(s, gap).pass == s.pass && Closed(s, gap).now == s.now &&
            Closed(s, gap).titles == s.titles
  {
    InvStep(s, Write(FoundAll(s, s.batch.value.snaps.value, gap.read)));
  }

  lemma CheckedKeeps(s: State, ids: set<string>, gap: Gap)
    requires Inv(s) && Enabled(s, Begin(ids))
    ensures Inv(Checked(s, ids, gap))
    ensures var t := Checked(s, ids, gap);
            t.batch.None? && t.pass == s.pass && s.now <= t.now && s.titles.Keys <= t.titles.Keys
  {
    BegunKeeps(s, ids, gap);
    TakenKeeps(Begun(s, ids, gap), gap);
    ClosedKeeps(Taken(Begun(s, ids, gap), gap), gap);
  }

  /** A batch's check is the last check of each of its titles in the catalog, and of no other. */
  lemma CheckedLast(s: State, ids: set<string>, gap: Gap, id: string)
    requires Enabled(s, Begin(ids)) && id in s.titles
    ensures var t := Checked(s, ids, gap);
            (id in ids ==> id in t.last && t.last[id].rs == s.pass.value && t.last[id].start == s.now) &&
            (id !in ids && id in s.last ==> id in t.last && t.last[id] == s.last[id])
  {
    var s2 := Taken(Begun(s, ids, gap), gap);
    WriteIs(s2, FoundAll(s2, s2.batch.value.snaps.value, gap.read), id);
  }

  /** Where nobody else does a thing, a title just checked need not be checked again. */
  lemma QuietIsClean(s: State, ids: set<string>, gap: Gap, id: string)
    requires Inv(s) && Enabled(s, Begin(ids)) && gap.before == [] && gap.after == [] && id in s.titles
    requires s.cutoff.Some? ==> s.cutoff.value <= s.now
    ensures var t := Checked(s, ids, gap);
            t.rules == s.rules && t.cutoff == s.cutoff &&
            (id in ids ==> !Dirty(t.rows, id, HashOf(s.pass.value), s.cutoff)) &&
            (id !in ids ==>
               Dirty(t.rows, id, HashOf(s.pass.value), s.cutoff) == Dirty(s.rows, id, HashOf(s.pass.value), s.cutoff))
  {
    var s1 := Begun(s, ids, gap);
    assert s1 == Next(s, Begin(ids));
    QuietEnds(s1, gap, id);
    if id in s.rows {
      assert RowOk(s, id);
    }
  }

  lemma QuietEnds(s: State, gap: Gap, id: string)
    requires Enabled(s, ReadTitles) && gap.after == [] && id in s.titles
    ensures var t := Closed(Taken(s, gap), gap);
            t.rules == s.rules && t.cutoff == s.cutoff &&
            (if id in s.batch.value.ids then
               id in t.rows && t.rows[id].hash == Some(HashOf(s.batch.value.rs)) && t.rows[id].evaluatedAt == s.now &&
               (t.rows[id].staleAt.Some? ==> id in s.rows && s.rows[id].staleAt.Some? &&
                                             s.rows[id].staleAt.value > s.batch.value.start)
             else (id in t.rows <==> id in s.rows) && (id in s.rows ==> t.rows[id] == s.rows[id]))
  {
    var s2 := Taken(s, gap);
    assert s2 == Next(s, ReadTitles);
    WriteIs(s2, FoundAll(s2, s2.batch.value.snaps.value, gap.read), id);
  }

  // ---- the titles to check

  /** Never checked, marked, checked under other rules, or before the nightly check's last moment. */
  predicate Dirty(rows: map<string, Row>, id: string, hash: Hash, since: Option<Time>) {
    id !in rows || rows[id].staleAt.Some? || rows[id].hash != Some(hash) ||
    (since.Some? && rows[id].evaluatedAt < since.value)
  }

  function Which(ids: seq<string>, of: set<string>): (out: seq<string>)
    ensures forall id :: id in out <==> id in ids && id in of
    ensures |out| <= |ids|
  {
    if ids == [] then []
    else Which(ids[..|ids| - 1], of) + if ids[|ids| - 1] in of then [ids[|ids| - 1]] else []
  }

  function Take(ids: seq<string>, n: nat): (out: seq<string>)
    ensures |out| <= n && forall id :: id in out ==> id in ids
  {
    if |ids| <= n then ids else ids[..n]
  }

  /** The titles of a catalog to check. */
  function DirtyOf(catalog: seq<string>, rows: map<string, Row>, hash: Hash, since: Option<Time>): set<string> {
    set id | id in catalog && Dirty(rows, id, hash, since)
  }

  /** The next batch of a catalog's titles, in its order: those never checked first. */
  function Due(catalog: seq<string>, rows: map<string, Row>, hash: Hash, since: Option<Time>): (out: seq<string>)
    ensures |out| <= BATCH
    ensures forall id :: id in out ==> id in catalog && Dirty(rows, id, hash, since)
  {
    var dirty := DirtyOf(catalog, rows, hash, since);
    var unseen := Which(catalog, dirty - rows.Keys);
    var again := Which(catalog, dirty * rows.Keys);
    assert forall id :: id in unseen + again ==> id in dirty;
    Take(unseen + again, BATCH)
  }

  lemma {:induction false} WhichInOrder(ids: seq<string>, of: set<string>, i: nat, j: nat) returns (a: nat, b: nat)
    requires i < j < |Which(ids, of)|
    ensures a < b < |ids| && ids[a] == Which(ids, of)[i] && ids[b] == Which(ids, of)[j]
  {
    var front := ids[..|ids| - 1];
    if j < |Which(front, of)| {
      a, b := WhichInOrder(front, of, i, j);
    } else {
      assert Which(ids, of) == Which(front, of) + [ids[|ids| - 1]];
      assert Which(front, of)[i] in front;
      a :| 0 <= a < |front| && front[a] == Which(front, of)[i];
      b := |ids| - 1;
    }
  }

  /** A batch takes the titles without a row first, and those alike in the catalog's order. */
  lemma DueInOrder(catalog: seq<string>, rows: map<string, Row>, hash: Hash, since: Option<Time>, i: nat, j: nat)
    requires i < j < |Due(catalog, rows, hash, since)|
    ensures var due := Due(catalog, rows, hash, since);
            (due[j] !in rows ==> due[i] !in rows) &&
            ((due[i] in rows <==> due[j] in rows) ==>
               exists a, b :: 0 <= a < b < |catalog| && catalog[a] == due[i] && catalog[b] == due[j])
  {
    var dirty := DirtyOf(catalog, rows, hash, since);
    var unseen, again := Which(catalog, dirty - rows.Keys), Which(catalog, dirty * rows.Keys);
    assert i < |unseen| ==> unseen[i] in unseen;
    assert j < |unseen| ==> unseen[j] in unseen;
    assert i >= |unseen| ==> again[i - |unseen|] in again;
    assert j >= |unseen| ==> again[j - |unseen|] in again;
    if j < |unseen| {
      var a, b := WhichInOrder(catalog, dirty - rows.Keys, i, j);
    } else if i >= |unseen| {
      var a, b := WhichInOrder(catalog, dirty * rows.Keys, i - |unseen|, j - |unseen|);
    }
  }

  /** A batch that is not full holds every title to check. */
  lemma DueIsAll(catalog: seq<string>, rows: map<string, Row>, hash: Hash, since: Option<Time>, id: string)
    requires |Due(catalog, rows, hash, since)| < BATCH && id in catalog
    ensures id in Due(catalog, rows, hash, since) <==> Dirty(rows, id, hash, since)
  {
    if Dirty(rows, id, hash, since) {
      var dirty := DirtyOf(catalog, rows, hash, since);
      assert id in dirty;
      assert id in Which(catalog, dirty - rows.Keys) || id in Which(catalog, dirty * rows.Keys);
    }
  }

  // ---- the pass

  function SetOf(ids: seq<string>): set<string> {
    set id | id in ids
  }

  ghost predicate Distinct(ids: seq<string>) {
    forall i, j :: 0 <= i < j < |ids| ==> ids[i] != ids[j]
  }

  lemma {:induction false} WhichDistinct(ids: seq<string>, of: set<string>)
    requires Distinct(ids)
    ensures Distinct(Which(ids, of))
  {
    if ids != [] {
      WhichDistinct(ids[..|ids| - 1], of);
      assert forall i :: 0 <= i < |ids| - 1 ==> ids[i] != ids[|ids| - 1];
    }
  }

  lemma DueDistinct(catalog: seq<string>, rows: map<string, Row>, hash: Hash, since: Option<Time>)
    requires Distinct(catalog)
    ensures Distinct(Due(catalog, rows, hash, since))
  {
    var dirty := DirtyOf(catalog, rows, hash, since);
    WhichDistinct(catalog, dirty - rows.Keys);
    WhichDistinct(catalog, dirty * rows.Keys);
    var unseen, again := Which(catalog, dirty - rows.Keys), Which(catalog, dirty * rows.Keys);
    Joined(unseen, again);
    assert Distinct(unseen + again);
  }

  /** Nobody else does a thing while any batch is checked. */
  predicate AllQuiet(others: seq<Gap>) {
    forall k :: 0 <= k < |others| ==> others[k].before == [] && others[k].after == []
  }

  lemma BatchTook(was: State, s: State, all: set<string>, seen: set<string>, batch: set<string>, gap: Gap)
    requires Inv(s) && Enabled(s, Begin(batch)) && gap.before == [] && gap.after == [] && all <= s.titles.Keys
    requires s.cutoff.Some? ==> s.cutoff.value <= s.now
    requires Took(was, s, all, seen, HashOf(s.pass.value), s.cutoff) && batch <= all
    requires forall id :: id in batch ==> Dirty(s.rows, id, HashOf(s.pass.value), s.cutoff)
    ensures var t := Checked(s, batch, gap);
            t.rules == s.rules && t.cutoff == s.cutoff &&
            Took(was, t, all, seen + batch, HashOf(s.pass.value), s.cutoff)
  {
    var hash, since, t := HashOf(s.pass.value), s.cutoff, Checked(s, batch, gap);
    QuietRules(s, batch, gap);
    forall id | id in all
      ensures Dirty(t.rows, id, hash, since) <==> Dirty(was.rows, id, hash, since) && id !in seen + batch
    {
      QuietIsClean(s, batch, gap, id);
    }
  }

  lemma QuietRules(s: State, ids: set<string>, gap: Gap)
    requires Enabled(s, Begin(ids)) && gap.before == [] && gap.after == []
    ensures Checked(s, ids, gap).rules == s.rules && Checked(s, ids, gap).cutoff == s.cutoff
  {
  }

  /** A pass leaves a title it never checked to be checked only behind a full batch of titles it did, all to be checked
      again. */
  lemma LeftBehindAFullBatch(catalog: seq<string>, rows: map<string, Row>, hash: Hash, since: Option<Time>,
                             seen: set<string>, id: string)
    requires SetOf(Due(catalog, rows, hash, since)) <= seen && id in catalog && id !in seen &&
             Dirty(rows, id, hash, since)
    ensures |Due(catalog, rows, hash, since)| == BATCH
    ensures forall x :: x in Due(catalog, rows, hash, since) ==> x in seen && Dirty(rows, x, hash, since)
  {
    var due := Due(catalog, rows, hash, since);
    assert id !in due by {
      assert id !in SetOf(due);
    }
    if |due| < BATCH {
      DueIsAll(catalog, rows, hash, since, id);
      assert false;
    }
    forall x | x in Due(catalog, rows, hash, since) ensures x in seen {
      assert x in SetOf(Due(catalog, rows, hash, since));
    }
  }

  lemma SomeDue(catalog: seq<string>, rows: map<string, Row>, hash: Hash, since: Option<Time>, id: string)
    requires id in catalog && Dirty(rows, id, hash, since)
    ensures Due(catalog, rows, hash, since) != [] &&
            Due(catalog, rows, hash, since)[0] in Due(catalog, rows, hash, since)
  {
    if |Due(catalog, rows, hash, since)| < BATCH {
      DueIsAll(catalog, rows, hash, since, id);
    }
  }

  /** Where none of the titles seen is to be checked again, and all that are due were seen, none is to be checked. */
  lemma CleanOnceNoneDue(catalog: seq<string>, rows: map<string, Row>, hash: Hash, since: Option<Time>,
                         seen: set<string>)
    requires SetOf(Due(catalog, rows, hash, since)) <= seen
    ensures (forall id :: id in seen ==> !Dirty(rows, id, hash, since)) ==>
              forall id :: id in catalog ==> !Dirty(rows, id, hash, since)
  {
    forall id | id in catalog && Dirty(rows, id, hash, since)
      ensures exists x :: x in seen && Dirty(rows, x, hash, since)
    {
      SomeDue(catalog, rows, hash, since, id);
    }
  }

  /** How far a pass is: what it saw it checked, under its rules, since it began; and, while nobody else does a thing,
      it took from the titles to check exactly those it saw. */
  ghost predicate Progress(was: State, s: State, all: set<string>, seen: set<string>, quiet: bool) {
    Inv(s) && was.pass.Some? && s.pass == was.pass && s.batch.None? && was.now <= s.now && all <= s.titles.Keys &&
    seen <= all &&
    (forall id :: id in seen ==> id in s.last && Since(was, s.last[id])) &&
    (quiet ==> s.rules == was.rules && s.cutoff == was.cutoff && (was.cutoff.Some? ==> was.cutoff.value <= was.now) &&
               Took(was, s, all, seen, HashOf(was.pass.value), was.cutoff))
  }

  /** Of the titles to check were, those seen among them, all but the seen are still to be checked, and no other. */
  ghost predicate Took(was: State, s: State, all: set<string>, seen: set<string>, hash: Hash, since: Option<Time>) {
    (forall id :: id in all ==>
                    (Dirty(s.rows, id, hash, since) <==> Dirty(was.rows, id, hash, since) && id !in seen)) &&
    forall id :: id in seen ==> Dirty(was.rows, id, hash, since)
  }

  ghost predicate Since(was: State, c: Checks.Check)
    requires was.pass.Some?
  {
    c.rs == was.pass.value && c.start >= was.now
  }

  lemma ProgressStep(was: State, s: State, all: set<string>, seen: set<string>, quiet: bool, batch: set<string>,
                     gap: Gap)
    requires Progress(was, s, all, seen, quiet) && batch <= all - seen
    requires quiet ==> gap.before == [] && gap.after == []
    requires forall id :: id in batch ==> Dirty(s.rows, id, HashOf(was.pass.value), was.cutoff)
    ensures Progress(was, Checked(s, batch, gap), all, seen + batch, quiet)
  {
    var t := Checked(s, batch, gap);
    CheckedKeeps(s, batch, gap);
    forall id | id in seen + batch ensures id in t.last && Since(was, t.last[id]) {
      CheckedLast(s, batch, gap, id);
    }
    if quiet {
      BatchTook(was, s, all, seen, batch, gap);
    }
  }

  lemma Joined(a: seq<string>, b: seq<string>)
    requires Distinct(a) && Distinct(b) && SetOf(a) !! SetOf(b)
    ensures Distinct(a + b) && SetOf(a + b) == SetOf(a) + SetOf(b)
  {
    forall i, j | 0 <= i < j < |a + b| ensures (a + b)[i] != (a + b)[j] {
      if i < |a| <= j {
        assert a[i] in SetOf(a) && b[j - |a|] in SetOf(b);
      }
    }
  }

  lemma Shrinks(catalog: seq<string>, seen: set<string>, unseen: seq<string>)
    requires unseen != [] && SetOf(unseen) <= SetOf(catalog) - seen
    ensures |SetOf(catalog) - (seen + SetOf(unseen))| < |SetOf(catalog) - seen|
  {
    var a, b := SetOf(catalog) - (seen + SetOf(unseen)), SetOf(catalog) - seen;
    assert unseen[0] in SetOf(unseen);
    assert b == (b - a) + a && unseen[0] in b - a;
  }

  /** Pruning the rows of titles out of the catalog changes none of what is due. */
  lemma PruneDue(s: State, catalog: seq<string>, eligible: set<string>, hash: Hash, since: Option<Time>)
    requires s.batch.None? && forall id :: id in catalog ==> id in eligible
    ensures var t := Next(s, Prune(eligible));
            Due(catalog, t.rows, hash, since) == Due(catalog, s.rows, hash, since) &&
            forall id :: id in catalog ==> Dirty(t.rows, id, hash, since) == Dirty(s.rows, id, hash, since)
  {
    var t := Next(s, Prune(eligible));
    var dirty := DirtyOf(catalog, s.rows, hash, since);
    assert dirty == DirtyOf(catalog, t.rows, hash, since);
    assert dirty - t.rows.Keys == dirty - s.rows.Keys;
    assert dirty * t.rows.Keys == dirty * s.rows.Keys;
  }

  /** The titles of a list not seen yet, in its order. */
  function UnseenOf(ids: seq<string>, seen: set<string>): (out: seq<string>)
    ensures forall id :: id in out <==> id in ids && id !in seen
    ensures |out| <= |ids|
  {
    Which(ids, SetOf(ids) - seen)
  }

  /** A batch a pass checked, and the table as it picked it. */
  datatype Picked = Picked(rows: map<string, Row>, ids: seq<string>)

  function Flat(batches: seq<Picked>): seq<string> {
    if batches == [] then [] else Flat(batches[..|batches| - 1]) + batches[|batches| - 1].ids
  }

  /** Each batch was picked as the titles then due that no batch before it held. */
  ghost predicate Batches(batches: seq<Picked>, catalog: seq<string>, hash: Hash, since: Option<Time>) {
    batches == [] ||
    var before, last := batches[..|batches| - 1], batches[|batches| - 1];
    Batches(before, catalog, hash, since) && last.ids != [] &&
    last.ids == UnseenOf(Due(catalog, last.rows, hash, since), SetOf(Flat(before)))
  }

  lemma BatchIs(catalog: seq<string>, rows: map<string, Row>, hash: Hash, since: Option<Time>, seen: set<string>)
    requires Distinct(catalog)
    ensures var batch := UnseenOf(Due(catalog, rows, hash, since), seen);
            Distinct(batch) && SetOf(batch) <= SetOf(catalog) - seen && |batch| <= BATCH &&
            forall id :: id in SetOf(batch) ==> Dirty(rows, id, hash, since)
  {
    var due := Due(catalog, rows, hash, since);
    DueDistinct(catalog, rows, hash, since);
    WhichDistinct(due, SetOf(due) - seen);
  }

  lemma NoneUnseen(ids: seq<string>, seen: set<string>)
    requires UnseenOf(ids, seen) == []
    ensures SetOf(ids) <= seen
  {
    forall id | id in ids ensures id in seen {
      assert id !in UnseenOf(ids, seen);
    }
  }

  /** The batches a pass checked, the first of them picked of the table first. */
  ghost predicate Log(batches: seq<Picked>, checked: seq<string>, catalog: seq<string>, hash: Hash,
                      since: Option<Time>, first: map<string, Row>)
  {
    checked == Flat(batches) && Batches(batches, catalog, hash, since) && (batches != [] ==> batches[0].rows == first)
  }

  lemma LogOne(batches: seq<Picked>, checked: seq<string>, catalog: seq<string>, hash: Hash, since: Option<Time>,
               first: map<string, Row>, rows: map<string, Row>, ids: seq<string>)
    requires Log(batches, checked, catalog, hash, since, first) && (batches == [] ==> rows == first)
    requires ids == UnseenOf(Due(catalog, rows, hash, since), SetOf(checked)) != []
    ensures Log(batches + [Picked(rows, ids)], checked + ids, catalog, hash, since, first)
  {
    assert (batches + [Picked(rows, ids)])[..|batches|] == batches;
  }

  /** So a pass checks no title but one that was to be checked as its batch was picked, a full batch at most at a
      time. */
  lemma {:induction false} PickedDirty(batches: seq<Picked>, catalog: seq<string>, hash: Hash, since: Option<Time>,
                                       id: string)
    returns (k: nat)
    requires Batches(batches, catalog, hash, since) && id in Flat(batches)
    ensures k < |batches| && id in batches[k].ids && |batches[k].ids| <= BATCH
    ensures Dirty(batches[k].rows, id, hash, since) && id !in Flat(batches[..k])
  {
    var before := batches[..|batches| - 1];
    if id in Flat(before) {
      k := PickedDirty(before, catalog, hash, since, id);
      assert batches[..k] == before[..k];
    } else {
      k := |batches| - 1;
    }
  }

  /** The title's row is of a check under the rules as they are reported, ended since the nightly check fell due, and
      is not marked. */
  predicate UpToDate(s: State, id: string) {
    id in s.rows && s.rows[id].hash == Some(HashOf(s.rules)) && s.rows[id].staleAt.None? &&
    match s.cutoff
    case None => true
    case Some(due) => due <= s.rows[id].evaluatedAt
  }

  ghost predicate AllUpToDate(s: State, catalog: seq<string>) {
    forall id :: id in catalog ==> UpToDate(s, id)
  }

  /** The state a pass leaves once its batches are checked. */
  function Finished(s: State, catalog: seq<string>, checked: seq<string>): State
    requires s.batch.None?
  {
    Next(if |checked| > 0 then Next(s, Prune(SetOf(catalog))) else s, Stop)
  }

  lemma TookAll(was: State, s: State, catalog: seq<string>, seen: set<string>, hash: Hash, since: Option<Time>)
    requires Took(was, s, SetOf(catalog), seen, hash, since) && seen <= SetOf(catalog)
    requires SetOf(Due(catalog, s.rows, hash, since)) <= seen
    ensures seen == DirtyOf(catalog, was.rows, hash, since)
    ensures forall id :: id in catalog ==> !Dirty(s.rows, id, hash, since)
  {
    CleanOnceNoneDue(catalog, s.rows, hash, since, seen);
    forall id | id in catalog
      ensures !Dirty(s.rows, id, hash, since) && (Dirty(was.rows, id, hash, since) ==> id in seen)
    {
      assert id in SetOf(catalog);
    }
  }

  /** Ending a pass changes no row of a title of the catalog. */
  lemma FinishedRows(s: State, catalog: seq<string>, checked: seq<string>)
    requires s.batch.None?
    ensures var t := Finished(s, catalog, checked);
            t.pass.None? && t.batch.None? && t.rules == s.rules && t.cutoff == s.cutoff && t.last == s.last &&
            (checked != [] ==> t.rows.Keys <= SetOf(catalog)) &&
            forall id :: id in catalog ==>
              (id in t.rows <==> id in s.rows) && (id in t.rows ==> t.rows[id] == s.rows[id])
  {
  }

  lemma FinishedKeeps(s: State, catalog: seq<string>, checked: seq<string>, hash: Hash, since: Option<Time>)
    requires Inv(s) && s.batch.None?
    ensures Inv(Finished(s, catalog, checked))
    ensures Due(catalog, Finished(s, catalog, checked).rows, hash, since) == Due(catalog, s.rows, hash, since)
  {
    var t := if |checked| > 0 then Next(s, Prune(SetOf(catalog))) else s;
    if |checked| > 0 {
      InvStep(s, Prune(SetOf(catalog)));
      PruneDue(s, catalog, SetOf(catalog), hash, since);
    }
    InvStep(t, Stop);
  }

  /** A title up to date is one not to be checked. */
  lemma UpToDateIsClean(s: State, id: string)
    ensures UpToDate(s, id) <==> !Dirty(s.rows, id, HashOf(s.rules), s.cutoff)
  {
  }

  lemma PassDone(was: State, s: State, catalog: seq<string>, checked: seq<string>, quiet: bool)
    requires Progress(was, s, SetOf(catalog), SetOf(checked), quiet) && was.pass == Some(was.rules)
    requires SetOf(Due(catalog, s.rows, HashOf(was.rules), was.cutoff)) <= SetOf(checked)
    ensures var t := Finished(s, catalog, checked);
            Inv(t) && t.pass.None? && t.batch.None? && t.rules == s.rules && t.cutoff == s.cutoff && t.last == s.last &&
            SetOf(Due(catalog, t.rows, HashOf(was.rules), was.cutoff)) <= SetOf(checked) &&
            (quiet ==> AllUpToDate(t, catalog) && TookOutdated(was, catalog, SetOf(checked))) &&
            (checked != [] ==> t.rows.Keys <= SetOf(catalog))
  {
    FinishedRows(s, catalog, checked);
    FinishedKeeps(s, catalog, checked, HashOf(was.rules), was.cutoff);
    if quiet {
      QuietDone(was, s, catalog, SetOf(checked), Finished(s, catalog, checked));
    }
  }

  /** Those checked are, of the catalog's titles, the ones that were not up to date. */
  ghost predicate TookOutdated(was: State, catalog: seq<string>, checked: set<string>) {
    forall id :: id in catalog ==> (id in checked <==> !UpToDate(was, id))
  }

  lemma QuietDone(was: State, s: State, catalog: seq<string>, seen: set<string>, t: State)
    requires Took(was, s, SetOf(catalog), seen, HashOf(was.rules), was.cutoff) && seen <= SetOf(catalog)
    requires SetOf(Due(catalog, s.rows, HashOf(was.rules), was.cutoff)) <= seen
    requires t.rules == was.rules && t.cutoff == was.cutoff
    requires forall id :: id in catalog ==>
               (id in t.rows <==> id in s.rows) && (id in t.rows ==> t.rows[id] == s.rows[id])
    ensures AllUpToDate(t, catalog) && TookOutdated(was, catalog, seen)
  {
    TookAll(was, s, catalog, seen, HashOf(was.rules), was.cutoff);
    forall id | id in catalog ensures UpToDate(t, id) && (id in seen <==> !UpToDate(was, id)) {
      UpToDateIsClean(t, id);
      UpToDateIsClean(was, id);
      assert id in DirtyOf(catalog, was.rows, HashOf(was.rules), was.cutoff) <==>
             Dirty(was.rows, id, HashOf(was.rules), was.cutoff);
    }
  }

  /** A title judged by the right records, and by them held against the rules. */
  ghost predicate JudgedWell(rs: RulesState, snap: Snap, read: Records, j: Judged, res: Result) {
    j == JudgedOf(rs, snap, read) && res == ResultOf(snap.facts.title, j.records, rs)
  }

  lemma SameRow(s: State, b: Batch, read: map<string, Records>, id: string, j: Judged, res: Result)
    requires b.snaps.Some? && id in b.snaps.value && JudgedWell(b.rs, b.snaps.value[id], ReadOf(read, id), j, res)
    ensures Upserted(s, b.start, b.rs, id, b.snaps.value[id].facts.title.kind, j, res) == Written(s, b, read, id)
    ensures Check(b.rs, b.start, s.now, b.snaps.value[id].facts, j.key, j.records) == CheckOf(s, b, read, id)
  {
  }

  lemma SameRows(s: State, b: Batch, read: map<string, Records>, judged: map<string, Judged>,
                 results: map<string, Result>, rows: map<string, Row>)
    requires b.snaps.Some? && judged.Keys == results.Keys == rows.Keys == b.snaps.value.Keys
    requires forall id :: id in rows ==> JudgedWell(b.rs, b.snaps.value[id], ReadOf(read, id), judged[id], results[id])
    requires forall id :: id in rows ==>
               rows[id] == Upserted(s, b.start, b.rs, id, b.snaps.value[id].facts.title.kind, judged[id], results[id])
    ensures rows == map id | id in b.snaps.value :: Written(s, b, read, id)
  {
    forall id | id in rows ensures rows[id] == Written(s, b, read, id) {
      SameRow(s, b, read, id, judged[id], results[id]);
    }
  }

  lemma SameChecks(s: State, b: Batch, read: map<string, Records>, judged: map<string, Judged>,
                   results: map<string, Result>, last: map<string, Check>)
    requires b.snaps.Some? && judged.Keys == results.Keys == last.Keys == b.snaps.value.Keys
    requires forall id :: id in last ==> JudgedWell(b.rs, b.snaps.value[id], ReadOf(read, id), judged[id], results[id])
    requires forall id :: id in last ==>
               last[id] == Check(b.rs, b.start, s.now, b.snaps.value[id].facts, judged[id].key, judged[id].records)
    ensures last == map id | id in b.snaps.value :: CheckOf(s, b, read, id)
  {
    forall id | id in last ensures last[id] == CheckOf(s, b, read, id) {
      SameRow(s, b, read, id, judged[id], results[id]);
    }
  }

  class Service {
    var db: State

    constructor (db: State)
      requires Inv(db)
      ensures this.db == db
    {
      this.db := db;
    }

    /** What the rest of the catalog does, as it comes. */
    method Meanwhile(es: seq<Event>)
      modifies this
      ensures db == Others(old(db), es)
    {
      for i := 0 to |es|
        invariant Others(db, es[i..]) == Others(old(db), es)
      {
        assert es[i..][1..] == es[i + 1..];
        if Outside(es[i]) && Enabled(db, es[i]) {
          db := Next(db, es[i]);
        }
      }
      assert es[|es|..] == [];
    }

    /** Judges each title read: by what its row kept of its records, else by its records read now. */
    method Judge(rs: RulesState, snaps: map<string, Snap>, read: map<string, Records>)
      returns (judged: map<string, Judged>, results: map<string, Result>)
      ensures judged.Keys == results.Keys == snaps.Keys
      ensures forall id :: id in snaps ==> JudgedWell(rs, snaps[id], ReadOf(read, id), judged[id], results[id])
    {
      judged, results := map[], map[];
      var left := snaps.Keys;
      while left != {}
        invariant left <= snaps.Keys && judged.Keys == results.Keys == snaps.Keys - left
        invariant forall id :: id in judged ==> JudgedWell(rs, snaps[id], ReadOf(read, id), judged[id], results[id])
        decreases |left|
      {
        var id :| id in left;
        left := left - {id};
        var j, res := JudgeOne(rs, snaps[id], ReadOf(read, id));
        judged, results := judged[id := j], results[id := res];
      }
    }

    method JudgeOne(rs: RulesState, snap: Snap, read: Records) returns (j: Judged, res: Result)
      ensures JudgedWell(rs, snap, read, j, res)
    {
      var r := NO_RECORDS;
      var kept: Option<Kept> := None;
      if rs.v2 && snap.facts.key.Some? {
        if snap.key == snap.facts.key && snap.kept.Some? {
          r, kept := Decode(snap.kept.value), snap.kept;
        }
        if kept.None? {
          r := read;
          if !r.unread {
            kept := Some(Encode(r));
          }
        }
      }
      res := Evaluate(snap.facts.title, r, rs);
      j := Judged(r, if kept.Some? then snap.facts.key else None, kept);
    }

    method CheckBatch(ids: set<string>, gap: Gap)
      requires Enabled(db, Begin(ids))
      modifies this
      ensures db == Checked(old(db), ids, gap)
    {
      db := Next(db, Begin(ids));
      Meanwhile(gap.before);
      assert db == Begun(old(db), ids, gap);
      db := Next(db, ReadTitles);
      Meanwhile(gap.after);
      EndBatch(gap);
    }

    method EndBatch(gap: Gap)
      requires db.batch.Some? && db.batch.value.snaps.Some?
      modifies this
      ensures db == Closed(old(db), gap)
    {
      var b := db.batch.value;
      var read := FoundAll(db, b.snaps.value, gap.read);
      var judged, results := Judge(b.rs, b.snaps.value, read);
      WriteAll(b.start, b.rs, b.snaps.value, judged, results, read);
    }

    /** Keeps what was found of each title; one marked since start stays marked. */
    method WriteAll(start: Time, rs: RulesState, snaps: map<string, Snap>, judged: map<string, Judged>,
                    results: map<string, Result>, ghost read: map<string, Records>)
      requires Enabled(db, Write(read)) && db.batch.value == Batch(db.batch.value.ids, rs, start, Some(snaps))
      requires judged.Keys == results.Keys == snaps.Keys
      requires forall id :: id in snaps ==> JudgedWell(rs, snaps[id], ReadOf(read, id), judged[id], results[id])
      modifies this
      ensures db == Next(old(db), Write(read))
    {
      var rows := map id | id in snaps ::
        Upserted(db, start, rs, id, snaps[id].facts.title.kind, judged[id], results[id]);
      var last := map id | id in snaps :: Check(rs, start, db.now, snaps[id].facts, judged[id].key, judged[id].records);
      SameRows(db, db.batch.value, read, judged, results, rows);
      SameChecks(db, db.batch.value, read, judged, results, last);
      db := db.(rows := db.rows + rows, last := db.last + last, batch := None);
    }

    method Unseen(ids: seq<string>, seen: set<string>) returns (unseen: seq<string>)
      ensures unseen == UnseenOf(ids, seen)
    {
      unseen := [];
      for i := 0 to |ids|
        invariant unseen == Which(ids[..i], SetOf(ids) - seen)
      {
        assert ids[..i + 1][..i] == ids[..i];
        if ids[i] !in seen {
          unseen := unseen + [ids[i]];
        }
      }
      assert ids[..|ids|] == ids;
    }

    /** Checks every title that needs it, a batch at a time, none twice; the k-th of others comes while the k-th batch
        is checked. */
    method Pass(catalog: seq<string>, others: seq<Gap>) returns (checked: seq<string>, ghost batches: seq<Picked>)
      requires Inv(db) && db.pass.None? && db.batch.None?
      requires Distinct(catalog) && SetOf(catalog) <= db.titles.Keys
      modifies this
      ensures Inv(db) && db.pass.None? && db.batch.None?
      ensures Distinct(checked) && SetOf(checked) <= SetOf(catalog)
      ensures forall id :: id in SetOf(checked) ==>
                id in db.last && db.last[id].rs == old(db).rules && db.last[id].start >= old(db).now
      // each batch is the titles then due that it did not see, the first of the table as it was, until none is left
      ensures var hash, since := HashOf(old(db).rules), old(db).cutoff;
              Log(batches, checked, catalog, hash, since, old(db).rows) &&
              SetOf(Due(catalog, db.rows, hash, since)) <= SetOf(checked)
      // where nobody else does a thing, it checks exactly the titles not up to date, and leaves none
      ensures AllQuiet(others) && (old(db).cutoff.Some? ==> old(db).cutoff.value <= old(db).now) ==>
                db.rules == old(db).rules && db.cutoff == old(db).cutoff && AllUpToDate(db, catalog) &&
                TookOutdated(old(db), catalog, SetOf(checked))
      // where it checks a title, it leaves no row of a title out of the catalog
      ensures checked != [] ==> db.rows.Keys <= SetOf(catalog)
    {
      InvStep(db, Start);
      db := Next(db, Start);
      ghost var was := db;
      ghost var quiet := AllQuiet(others) && (db.cutoff.Some? ==> db.cutoff.value <= db.now);
      checked, batches := CheckAll(catalog, others, quiet);
      PassDone(was, db, catalog, checked, quiet);
      Finish(catalog, checked);
    }

    /** The pass ends; where it checked a title, the rows of titles out of the catalog are deleted. */
    method Finish(catalog: seq<string>, checked: seq<string>)
      requires db.batch.None?
      modifies this
      ensures db == Finished(old(db), catalog, checked)
    {
      if |checked| > 0 {
        db := Next(db, Prune(SetOf(catalog)));
      }
      db := Next(db, Stop);
    }

    /** Checks the titles of the next batch that were not seen yet: at most a batch, each of them to be checked. */
    method NextBatch(catalog: seq<string>, hash: Hash, since: Option<Time>, seen: set<string>, gap: Gap)
      returns (unseen: seq<string>)
      requires db.pass.Some? && db.batch.None?
      modifies this
      ensures unseen == UnseenOf(Due(catalog, old(db).rows, hash, since), seen)
      ensures |unseen| <= BATCH && forall id :: id in unseen ==> Dirty(old(db).rows, id, hash, since)
      ensures db == if unseen == [] then old(db) else Checked(old(db), SetOf(unseen), gap)
    {
      var due := Due(catalog, db.rows, hash, since);
      unseen := Unseen(due, seen);
      if unseen != [] {
        CheckBatch(SetOf(unseen), gap);
      }
    }

    /** The next batch as a pass goes on with it, which saw some titles since it began (was). */
    method Advance(catalog: seq<string>, hash: Hash, since: Option<Time>, seen: set<string>, gap: Gap,
                   ghost was: State, ghost quiet: bool)
      returns (unseen: seq<string>)
      requires Distinct(catalog) && Progress(was, db, SetOf(catalog), seen, quiet)
      requires hash == HashOf(was.pass.value) && since == was.cutoff && (quiet ==> gap.before == [] && gap.after == [])
      modifies this
      ensures unseen == UnseenOf(Due(catalog, old(db).rows, hash, since), seen)
      ensures Distinct(unseen) && SetOf(unseen) <= SetOf(catalog) - seen
      ensures Progress(was, db, SetOf(catalog), seen + SetOf(unseen), quiet)
      ensures unseen == [] ==> db == old(db) && SetOf(Due(catalog, db.rows, hash, since)) <= seen
      ensures unseen != [] ==> |SetOf(catalog) - (seen + SetOf(unseen))| < |SetOf(catalog) - seen|
    {
      BatchIs(catalog, db.rows, hash, since, seen);
      ghost var before := db;
      unseen := NextBatch(catalog, hash, since, seen, gap);
      if unseen == [] {
        NoneUnseen(Due(catalog, db.rows, hash, since), seen);
        assert seen + SetOf([]) == seen;
      } else {
        ProgressStep(was, before, SetOf(catalog), seen, quiet, SetOf(unseen), gap);
        Shrinks(catalog, seen, unseen);
      }
    }

    method CheckAll(catalog: seq<string>, others: seq<Gap>, ghost quiet: bool)
      returns (checked: seq<string>, ghost batches: seq<Picked>)
      requires Distinct(catalog) && Progress(db, db, SetOf(catalog), {}, quiet) && (quiet ==> AllQuiet(others))
      modifies this
      ensures Distinct(checked) && Progress(old(db), db, SetOf(catalog), SetOf(checked), quiet)
      ensures var hash, since := HashOf(old(db).pass.value), old(db).cutoff;
              Log(batches, checked, catalog, hash, since, old(db).rows) &&
              SetOf(Due(catalog, db.rows, hash, since)) <= SetOf(checked)
    {
      ghost var was := db;
      var hash, since := HashOf(db.pass.value), db.cutoff;
      var seen: set<string> := {};
      checked, batches := [], [];
      var k := 0;
      while true
        invariant Progress(was, db, SetOf(catalog), seen, quiet)
        invariant Distinct(checked) && seen == SetOf(checked) && (batches == [] ==> db.rows == was.rows)
        invariant Log(batches, checked, catalog, hash, since, was.rows)
        decreases |SetOf(catalog) - seen|
      {
        ghost var rows := db.rows;
        var unseen := Advance(catalog, hash, since, seen, if k < |others| then others[k] else QUIET, was, quiet);
        if unseen == [] {
          break;
        }
        k := k + 1;
        Joined(checked, unseen);
        LogOne(batches, checked, catalog, hash, since, was.rows, rows, unseen);
        batches := batches + [Picked(rows, unseen)];
        seen, checked := seen + SetOf(unseen), checked + unseen;
      }
    }
  }
}
