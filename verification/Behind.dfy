/** That a pass may leave a title behind: a catalog, and what others do, by which it does. */
module Behind {
  import opened Wrappers
  import opened Sets
  import opened Titles
  import opened Rules
  import opened Evaluation
  import opened Checks
  import opened Passes
  import Audio

  /** Others mark a batch's titles again once it began, before its titles are read. */
  function MarkAgain(ids: set<string>): Gap {
    Gap([Tick(1), Touch(ids)], [], map[])
  }

  lemma BegunMarked(s: State, ids: set<string>)
    requires Enabled(s, Begin(ids)) && ids <= s.titles.Keys && ids <= s.rows.Keys
    ensures var u := Begun(s, ids, MarkAgain(ids));
            u.titles == s.titles && u.rows.Keys == s.rows.Keys &&
            forall id :: id in s.rows ==>
              if id in ids then u.rows[id].staleAt == Some(s.now + 1) else u.rows[id] == s.rows[id]
  {
    var before, s0 := MarkAgain(ids).before, Next(s, Begin(ids));
    var ticked := Next(s0, Tick(1));
    assert before[1..] == [Touch(ids)] && before[1..][1..] == [];
    assert Others(s0, before) == Others(ticked, [Touch(ids)]);
    assert Others(ticked, [Touch(ids)]) == Next(ticked, Touch(ids)) by {
      assert [Touch(ids)][1..] == [];
    }
    assert ids * ticked.titles.Keys == ids;
  }

  lemma ClosedMarked(s: State, gap: Gap, id: string)
    requires Enabled(s, ReadTitles) && gap.after == []
    requires id in s.rows
    requires id in s.batch.value.ids ==> s.rows[id].staleAt.Some? && s.rows[id].staleAt.value > s.batch.value.start
    ensures var t := Closed(Taken(s, gap), gap);
            id in t.rows && if id in s.batch.value.ids && id in s.titles then t.rows[id].staleAt == s.rows[id].staleAt
                            else t.rows[id] == s.rows[id]
  {
    var s2 := Taken(s, gap);
    assert s2 == Next(s, ReadTitles);
    WriteIs(s2, FoundAll(s2, s2.batch.value.snaps.value, gap.read), id);
  }

  lemma ClosedNone(s: State, gap: Gap, id: string)
    requires Enabled(s, ReadTitles) && gap.after == [] && id !in s.rows && id !in s.batch.value.ids
    ensures id !in Closed(Taken(s, gap), gap).rows
  {
    var s2 := Taken(s, gap);
    assert s2 == Next(s, ReadTitles);
    WriteIs(s2, FoundAll(s2, s2.batch.value.snaps.value, gap.read), id);
  }

  lemma MarkedAgain(s: State, ids: set<string>, id: string)
    requires Enabled(s, Begin(ids)) && ids <= s.titles.Keys && ids <= s.rows.Keys
    ensures var t := Checked(s, ids, MarkAgain(ids));
            (id in ids ==> id in t.rows && t.rows[id].staleAt == Some(s.now + 1)) &&
            (id !in ids ==> (id in t.rows <==> id in s.rows) && (id in s.rows ==> t.rows[id] == s.rows[id]))
  {
    BegunMarked(s, ids);
    var u := Begun(s, ids, MarkAgain(ids));
    if id in s.rows {
      ClosedMarked(u, MarkAgain(ids), id);
    } else {
      ClosedNone(u, MarkAgain(ids), id);
    }
  }

  /** Where every title of the catalog has a row and is to be checked, and others mark a batch's titles again, that
      same batch is due after it, and every title is still to be checked: the pass ends, having checked a batch. */
  lemma SameBatchDue(s: State, catalog: seq<string>)
    requires s.pass.Some? && s.batch.None? && SetOf(catalog) <= s.titles.Keys && SetOf(catalog) <= s.rows.Keys
    requires forall id :: id in catalog ==> Dirty(s.rows, id, HashOf(s.pass.value), s.cutoff)
    ensures var hash, since := HashOf(s.pass.value), s.cutoff;
            var due := Due(catalog, s.rows, hash, since);
            var t := Checked(s, SetOf(due), MarkAgain(SetOf(due)));
            Due(catalog, t.rows, hash, since) == due && forall id :: id in catalog ==> Dirty(t.rows, id, hash, since)
  {
    var hash, since := HashOf(s.pass.value), s.cutoff;
    var due := Due(catalog, s.rows, hash, since);
    var ids := SetOf(due);
    assert ids <= SetOf(catalog) by {
      assert forall id :: id in due ==> id in catalog;
    }
    var t := Checked(s, ids, MarkAgain(ids));
    forall id ensures (id in t.rows <==> id in s.rows) && (id in catalog ==> Dirty(t.rows, id, hash, since)) {
      MarkedAgain(s, ids, id);
    }
    SameDue(catalog, s.rows, t.rows, hash, since);
  }

  lemma SameDue(catalog: seq<string>, a: map<string, Row>, b: map<string, Row>, hash: Hash, since: Option<Time>)
    requires forall id :: id in a <==> id in b
    requires forall id :: id in catalog ==> Dirty(a, id, hash, since) == Dirty(b, id, hash, since)
    ensures Due(catalog, a, hash, since) == Due(catalog, b, hash, since)
  {
    assert a.Keys == b.Keys;
    assert (set id | id in catalog && Dirty(a, id, hash, since)) ==
           (set id | id in catalog && Dirty(b, id, hash, since));
  }

  // ---- the catalog

  function Name(i: nat): (s: string)
    ensures |s| == i
  {
    if i == 0 then "" else Name(i - 1) + "a"
  }

  function Names(n: nat): (ids: seq<string>)
    ensures |ids| == n && forall i :: 0 <= i < n ==> |ids[i]| == i
  {
    if n == 0 then [] else Names(n - 1) + [Name(n - 1)]
  }

  const NO_RULES := RulesState(None, None, false, false, Audio.Languages([], false))

  function Bare(id: string): Facts {
    var step := Step(None, None, None);
    Facts(Title(id, "movie", false, false, None, None, None, None, None, false, None, None, None, step, step), None, 0)
  }

  /** A catalog of titles, nothing checked. */
  function CatalogOf(ids: set<string>): State {
    State(0, NO_RULES, None, map id | id in ids :: Bare(id), map[], map[], None, None, {}, map[])
  }

  lemma NamesDistinct(n: nat)
    ensures Distinct(Names(n))
  {
    forall i, j | 0 <= i < j < n ensures Names(n)[i] != Names(n)[j] {
      assert |Names(n)[i]| == i && |Names(n)[j]| == j;
    }
  }

  /** Of a catalog of more titles than a batch, every one marked, a pass begins: it checks a batch, others mark that
      batch again meanwhile, the same batch is due again, and the pass ends; a title it never checked is still to be
      checked. */
  lemma LeavesOneBehind(catalog: seq<string>) returns (s: State, gap: Gap, id: string)
    requires Distinct(catalog) && |catalog| > BATCH
    ensures s == Run(CatalogOf(SetOf(catalog)), [Touch(SetOf(catalog)), Start]) && s.batch.None? && s.pass.Some?
    ensures var hash, since := HashOf(s.pass.value), s.cutoff;
            var due := Due(catalog, s.rows, hash, since);
            var t := Checked(s, SetOf(due), gap);
            |due| == BATCH && Due(catalog, t.rows, hash, since) == due &&
            id in catalog && id !in due && id !in t.last && Dirty(t.rows, id, hash, since)
  {
    var ids := SetOf(catalog);
    s := MarkedCatalog(ids);
    var hash, since := HashOf(s.pass.value), s.cutoff;
    var due := Due(catalog, s.rows, hash, since);
    if |due| < BATCH {
      forall x | x in catalog ensures x in due {
        DueIsAll(catalog, s.rows, hash, since, x);
      }
      MoreThan(catalog, due);
    }
    id := LeftOut(catalog, due);
    gap := MarkAgain(SetOf(due));
    SameBatchDue(s, catalog);
    CheckedOnly(s, SetOf(due), gap, id);
  }

  lemma MarkedCatalog(ids: set<string>) returns (s: State)
    ensures Runs(CatalogOf(ids), [Touch(ids), Start]) && s == Run(CatalogOf(ids), [Touch(ids), Start])
    ensures s.pass.Some? && s.batch.None? && s.titles.Keys == ids && s.rows.Keys == ids && s.last == map[]
    ensures forall id :: id in ids ==> s.rows[id].staleAt.Some?
  {
    var s0 := CatalogOf(ids);
    assert ids * s0.titles.Keys == ids;
    var s1 := Next(s0, Touch(ids));
    s := Next(s1, Start);
    assert [Touch(ids), Start][1..] == [Start] && [Start][1..] == [];
    assert Run(s1, [Start]) == Run(s, []) == s;
    assert Runs(s, []) && Runs(s1, [Start]);
  }

  /** There is such a catalog. */
  lemma OneLeftBehind() returns (catalog: seq<string>, s: State, gap: Gap, id: string)
    ensures Distinct(catalog) && Init(CatalogOf(SetOf(catalog))) && Inv(s) && s.pass.Some? && s.batch.None?
    ensures var hash, since := HashOf(s.pass.value), s.cutoff;
            var due := Due(catalog, s.rows, hash, since);
            var t := Checked(s, SetOf(due), gap);
            |due| == BATCH && Due(catalog, t.rows, hash, since) == due &&
            id in catalog && id !in due && id !in t.last && Dirty(t.rows, id, hash, since)
  {
    catalog := Names(BATCH + 1);
    NamesDistinct(BATCH + 1);
    var ids := SetOf(catalog);
    s, gap, id := LeavesOneBehind(catalog);
    var r := MarkedCatalog(ids);
    InvRun(CatalogOf(ids), [Touch(ids), Start]);
  }

  /** A longer list of distinct titles has one that a shorter has not. */
  lemma LeftOut(all: seq<string>, some: seq<string>) returns (id: string)
    requires Distinct(all) && |some| < |all|
    ensures id in all && id !in some
  {
    if forall x :: x in all ==> x in some {
      MoreThan(all, some);
      assert false;
    }
    id :| id in all && id !in some;
  }

  lemma {:induction false} MoreThan(all: seq<string>, some: seq<string>)
    requires Distinct(all) && forall x :: x in all ==> x in some
    ensures |all| <= |some|
  {
    SizeOfDistinct(all);
    SizeOfSet(some);
    SmallerSet(SetOf(all), SetOf(some));
  }

  lemma {:induction false} SizeOfDistinct(ids: seq<string>)
    requires Distinct(ids)
    ensures |SetOf(ids)| == |ids|
  {
    if ids != [] {
      var front, id := ids[..|ids| - 1], ids[|ids| - 1];
      SizeOfDistinct(front);
      assert ids == front + [id] && id !in front;
      assert SetOf(ids) == SetOf(front) + {id};
    }
  }

  lemma {:induction false} SizeOfSet(ids: seq<string>)
    ensures |SetOf(ids)| <= |ids|
  {
    if ids != [] {
      var front, id := ids[..|ids| - 1], ids[|ids| - 1];
      SizeOfSet(front);
      assert ids == front + [id];
      assert SetOf(ids) == SetOf(front) + {id};
    }
  }

  lemma CheckedOnly(s: State, ids: set<string>, gap: Gap, id: string)
    requires Enabled(s, Begin(ids)) && id !in ids && id !in s.last
    ensures id !in Checked(s, ids, gap).last
  {
    var s2 := Taken(Begun(s, ids, gap), gap);
    WriteIs(s2, FoundAll(s2, s2.batch.value.snaps.value, gap.read), id);
  }
}
