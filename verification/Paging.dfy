/**
 The report's pages (internal/compliance/report.go, rows) and its export that walks them all (export.go, Write), over
 one snapshot of the rows that match.
 */
module Paging {
  import opened Wrappers
  import opened Order

  /** A snapshot's rows: each of the sort's keys, of their types, under an id of its own. */
  ghost predicate Snapshot(rows: seq<Row>, o: Sorting) {
    (forall i :: 0 <= i < |rows| ==> RowOf(rows[i], TypesOf(o.sort))) &&
    forall i, j :: 0 <= i < j < |rows| ==> rows[i].id != rows[j].id
  }

  ghost predicate RowOf(r: Row, types: seq<KeyType>) {
    |r.keys| == |types| && r.id != "" &&
    forall i :: 0 <= i < |types| ==> r.keys[i].Some? ==> OfType(r.keys[i].value, types[i])
  }

  predicate InOrder(rows: seq<Row>, descending: bool) {
    forall i, j :: 0 <= i < j < |rows| ==> Precedes(rows[i], rows[j], descending)
  }

  // ---- the query

  function Inserted(r: Row, rows: seq<Row>, descending: bool): seq<Row> {
    if rows == [] || Precedes(r, rows[0], descending) then [r] + rows
    else [rows[0]] + Inserted(r, rows[1..], descending)
  }

  /** The snapshot's rows in their order. */
  function Sorted(rows: seq<Row>, descending: bool): seq<Row> {
    if rows == [] then [] else Inserted(rows[0], Sorted(rows[1..], descending), descending)
  }

  lemma {:induction false} InsertedAll(r: Row, rows: seq<Row>, d: bool)
    ensures multiset(Inserted(r, rows, d)) == multiset(rows) + multiset{r}
    ensures forall x :: x in Inserted(r, rows, d) <==> x == r || x in rows
  {
    if rows == [] || Precedes(r, rows[0], d) {
    } else {
      InsertedAll(r, rows[1..], d);
      assert rows == [rows[0]] + rows[1..];
    }
  }

  lemma {:induction false} InsertedInOrder(r: Row, rows: seq<Row>, d: bool)
    requires InOrder(rows, d) && forall x :: x in rows ==> |x.keys| == |r.keys| && x.id != r.id
    ensures InOrder(Inserted(r, rows, d), d)
  {
    var all := Inserted(r, rows, d);
    if rows == [] {
    } else if Precedes(r, rows[0], d) {
      forall j | 1 < j < |all| ensures Precedes(r, all[j], d) {
        PrecedesTransitive(r, rows[0], rows[j - 1], d);
      }
    } else {
      assert rows[0] in rows;
      PrecedesTotal(r, rows[0], d);
      var rest := Inserted(r, rows[1..], d);
      InsertedInOrder(r, rows[1..], d);
      InsertedAll(r, rows[1..], d);
      forall j | 0 <= j < |rest| ensures Precedes(rows[0], rest[j], d) {
        assert rest[j] in rest;
        if rest[j] != r {
          var k :| 0 <= k < |rows[1..]| && rows[1..][k] == rest[j];
          assert rows[k + 1] == rest[j];
        }
      }
    }
  }

  lemma {:induction false} SortedAll(rows: seq<Row>, d: bool)
    ensures multiset(Sorted(rows, d)) == multiset(rows)
    ensures forall x :: x in Sorted(rows, d) <==> x in rows
  {
    if rows != [] {
      assert rows == [rows[0]] + rows[1..];
      SortedAll(rows[1..], d);
      InsertedAll(rows[0], Sorted(rows[1..], d), d);
    }
  }

  /** The order lists the rows of a snapshot each before those it precedes. */
  lemma {:induction false} SortedInOrder(rows: seq<Row>, o: Sorting)
    requires Snapshot(rows, o)
    ensures InOrder(Sorted(rows, o.descending), o.descending)
  {
    if rows != [] {
      SortedInOrder(rows[1..], o);
      SortedAll(rows[1..], o.descending);
      var rest := Sorted(rows[1..], o.descending);
      forall x | x in rest ensures |x.keys| == |rows[0].keys| && x.id != rows[0].id {
        var k :| 0 <= k < |rows[1..]| && rows[1..][k] == x;
        assert rows[k + 1] == x && RowOf(rows[k + 1], TypesOf(o.sort)) && RowOf(rows[0], TypesOf(o.sort));
      }
      InsertedInOrder(rows[0], rest, o.descending);
    }
  }

  lemma SortedTyped(rows: seq<Row>, o: Sorting, r: Row)
    requires Snapshot(rows, o) && r in Sorted(rows, o.descending)
    ensures RowOf(r, TypesOf(o.sort))
  {
    SortedAll(rows, o.descending);
    var k :| 0 <= k < |rows| && rows[k] == r;
  }

  ghost predicate AllOf(rows: seq<Row>, types: seq<KeyType>) {
    forall r :: r in rows ==> |r.keys| == |types|
  }

  /** The rows past a position, as the query's condition tells them. */
  function Past(rows: seq<Row>, cur: Position, o: Sorting): seq<Row>
    requires AllOf(rows, TypesOf(o.sort))
  {
    if rows == [] then []
    else
      assert forall r :: r in rows[1..] ==> r in rows;
      (if After(rows[0], cur, TypesOf(o.sort), o.descending) then [rows[0]] else []) + Past(rows[1..], cur, o)
  }

  predicate IsPast(r: Row, cur: Position, o: Sorting) {
    |r.keys| == |TypesOf(o.sort)| && After(r, cur, TypesOf(o.sort), o.descending)
  }

  /** Where the rows past a position are those from the k-th on, they are what the condition tells. */
  lemma {:induction false} PastFrom(rows: seq<Row>, cur: Position, o: Sorting, k: nat)
    requires AllOf(rows, TypesOf(o.sort)) && k <= |rows|
    requires forall i :: 0 <= i < |rows| ==> (IsPast(rows[i], cur, o) <==> i >= k)
    ensures Past(rows, cur, o) == rows[k..]
  {
    if rows != [] {
      assert rows[0] in rows && forall r :: r in rows[1..] ==> r in rows;
      assert IsPast(rows[0], cur, o) <==> k == 0;
      PastFrom(rows[1..], cur, o, if k == 0 then 0 else k - 1);
      if k > 0 {
        assert rows[1..][k - 1..] == rows[k..];
      }
    }
  }

  /** Of two rows of an ordered list, the one lies past the position of the other exactly when it comes after it. */
  lemma OnePast(rows: seq<Row>, k: nat, i: nat, o: Sorting)
    requires AllOf(rows, TypesOf(o.sort)) && k < |rows| && i < |rows| && InOrder(rows, o.descending)
    ensures rows[k] in rows && |rows[k].keys| == |TypesOf(o.sort)|
    ensures IsPast(rows[i], PositionOf(rows[k], TypesOf(o.sort), o.descending), o) <==> i > k
  {
    assert rows[k] in rows && rows[i] in rows;
    AfterIsPrecedes(rows[k], rows[i], TypesOf(o.sort), o.descending);
    PrecedesTotal(rows[i], rows[k], o.descending);
  }

  /** Past the position of a row of an ordered list lie exactly the rows after it. */
  lemma PastIsRest(rows: seq<Row>, k: nat, o: Sorting)
    requires AllOf(rows, TypesOf(o.sort)) && k < |rows| && InOrder(rows, o.descending)
    ensures |rows[k].keys| == |TypesOf(o.sort)|
    ensures Past(rows, PositionOf(rows[k], TypesOf(o.sort), o.descending), o) == rows[k + 1..]
  {
    assert rows[k] in rows;
    var cur := PositionOf(rows[k], TypesOf(o.sort), o.descending);
    forall i | 0 <= i < |rows| ensures IsPast(rows[i], cur, o) <==> i >= k + 1 {
      OnePast(rows, k, i, o);
    }
    PastFrom(rows, cur, o, k + 1);
  }

  /** What the query answers: the rows past the position (all, without one), in their order, limit at most. */
  function Query(rows: seq<Row>, cur: Option<Position>, o: Sorting, limit: nat): seq<Row>
    requires AllOf(Sorted(rows, o.descending), TypesOf(o.sort))
  {
    var sorted := Sorted(rows, o.descending);
    var past := if cur.None? then sorted else Past(sorted, cur.value, o);
    if |past| <= limit then past else past[..limit]
  }

  // ---- a page

  /** Where the page before a row begins: no position for the first, else that of the row before. */
  function Start(sorted: seq<Row>, i: nat, o: Sorting): Option<Position>
    requires i <= |sorted| && AllOf(sorted, TypesOf(o.sort))
  {
    if i == 0 then None
    else
      assert sorted[i - 1] in sorted;
      Some(PositionOf(sorted[i - 1], TypesOf(o.sort), o.descending))
  }

  /** At most n rows from the i-th on. */
  function Slice(sorted: seq<Row>, i: nat, n: nat): (r: seq<Row>)
    requires i <= |sorted|
    ensures |r| == if |sorted| - i <= n then |sorted| - i else n
  {
    if |sorted| - i <= n then sorted[i..] else sorted[i..i + n]
  }

  lemma SliceExtends(sorted: seq<Row>, i: nat, n: nat)
    requires i <= |sorted|
    ensures sorted[..i] + Slice(sorted, i, n) == sorted[..i + |Slice(sorted, i, n)|]
    ensures |Slice(sorted, i, n + 1)| > n ==> Slice(sorted, i, n + 1)[..n] == Slice(sorted, i, n)
    ensures |Slice(sorted, i, n + 1)| <= n ==> Slice(sorted, i, n + 1) == Slice(sorted, i, n) == sorted[i..]
  {
  }

  lemma SortedAllOf(rows: seq<Row>, o: Sorting)
    requires Snapshot(rows, o)
    ensures AllOf(Sorted(rows, o.descending), TypesOf(o.sort))
  {
    forall r | r in Sorted(rows, o.descending) ensures |r.keys| == |TypesOf(o.sort)| {
      SortedTyped(rows, o, r);
    }
  }

  lemma QueryIsNext(rows: seq<Row>, i: nat, o: Sorting, limit: nat)
    requires Snapshot(rows, o) && i <= |Sorted(rows, o.descending)| &&
             AllOf(Sorted(rows, o.descending), TypesOf(o.sort))
    ensures var sorted := Sorted(rows, o.descending);
            Query(rows, Start(sorted, i, o), o, limit) == Slice(sorted, i, limit)
  {
    SortedInOrder(rows, o);
    if i > 0 {
      PastIsRest(Sorted(rows, o.descending), i - 1, o);
    }
  }

  /** The rows the query found, and the last that the page keeps. */
  method Collect(found: seq<Row>, first: nat) returns (out: seq<Row>, last: Option<Row>)
    requires first > 0
    ensures out == found
    ensures last == if found == [] then None else Some(found[if |found| <= first then |found| - 1 else first - 1])
  {
    out, last := [], None;
    for k := 0 to |found|
      invariant out == found[..k]
      invariant last == if k == 0 then None else Some(found[if k <= first then k - 1 else first - 1])
    {
      if |out| < first {
        last := Some(found[k]);
      }
      out := out + [found[k]];
    }
  }

  lemma LastKept(sorted: seq<Row>, i: nat, first: nat)
    requires i <= |sorted| && 0 < first < |Slice(sorted, i, first + 1)|
    ensures i + first < |sorted| && Slice(sorted, i, first + 1)[first - 1] == sorted[i + first - 1]
    ensures sorted[i + first - 1] in sorted
  {
  }

  /** A page of at most first rows from the i-th row of the order on, and the cursor of the next page, none on the
      last. */
  method Page(rows: seq<Row>, cur: Option<Position>, o: Sorting, first: nat, ghost i: nat)
    returns (out: seq<Row>, next: Option<Cursor>)
    requires Snapshot(rows, o) && i <= |Sorted(rows, o.descending)| &&
             AllOf(Sorted(rows, o.descending), TypesOf(o.sort))
    requires cur == Start(Sorted(rows, o.descending), i, o)
    ensures first == 0 ==> out == [] && next.None?
    ensures first > 0 ==>
              var sorted := Sorted(rows, o.descending);
              out == Slice(sorted, i, first) && (next.None? <==> |sorted| - i <= first) &&
              (next.Some? ==> next.value == CursorOf(o, Start(sorted, i + first, o).value))
  {
    out, next := [], None;
    if first == 0 {
      return;
    }
    QueryIsNext(rows, i, o, first + 1);
    SliceExtends(Sorted(rows, o.descending), i, first);
    var last;
    out, last := Collect(Query(rows, cur, o, first + 1), first);
    if |out| > first {
      LastKept(Sorted(rows, o.descending), i, first);
      assert last.value in Sorted(rows, o.descending);
      out := out[..first];
      next := Some(CursorOf(o, PositionOf(last.value, TypesOf(o.sort), o.descending)));
    }
  }

  // ---- the export

  lemma {:induction false} CellsTyped(keys: seq<Option<Value>>, types: seq<KeyType>, d: bool)
    requires |keys| == |types| && forall i :: 0 <= i < |types| ==> keys[i].Some? ==> OfType(keys[i].value, types[i])
    ensures Typed(CellsOf(keys, types, d), types)
  {
    if keys != [] {
      CellsTyped(keys[1..], types[1..], d);
      var cells := CellsOf(keys, types, d);
      forall i | 0 <= i < |types| ensures OfType(cells[i].value, types[i]) {
        if i > 0 {
          assert cells[i] == CellsOf(keys[1..], types[1..], d)[i - 1] && types[i] == types[1..][i - 1];
        }
      }
    }
  }

  /** The cursor a page ends with is read back as where the next one starts. */
  lemma NextStarts(rows: seq<Row>, i: nat, o: Sorting)
    requires Snapshot(rows, o) && 0 < i <= |Sorted(rows, o.descending)| &&
             AllOf(Sorted(rows, o.descending), TypesOf(o.sort))
    ensures var start := Start(Sorted(rows, o.descending), i, o).value;
            IsCursor(o, CursorOf(o, start)) && PositionIn(o, CursorOf(o, start)) == start
  {
    var sorted := Sorted(rows, o.descending);
    SortedTyped(rows, o, sorted[i - 1]);
    CellsTyped(sorted[i - 1].keys, TypesOf(o.sort), o.descending);
    CursorRoundTrip(o, Start(sorted, i, o).value);
  }

  /** A page, and where the next one starts: its cursor written, then read. */
  method NextPage(rows: seq<Row>, cur: Option<Position>, o: Sorting, size: nat, ghost i: nat)
    returns (page: seq<Row>, next: Option<Position>)
    requires Snapshot(rows, o) && i <= |Sorted(rows, o.descending)| &&
             AllOf(Sorted(rows, o.descending), TypesOf(o.sort))
    requires cur == Start(Sorted(rows, o.descending), i, o) && size >= 1
    ensures var sorted := Sorted(rows, o.descending);
            page == Slice(sorted, i, size) &&
            next == if |sorted| - i <= size then None else Start(sorted, i + size, o)
  {
    var cursor;
    page, cursor := Page(rows, cur, o, size, i);
    if cursor.None? {
      return page, None;
    }
    NextStarts(rows, i + size, o);
    next := Parse(o, cursor.value);
  }

  /** Following the cursors to the end writes every row of the snapshot exactly once, in the specified order, whatever
      the page's size. */
  method Write(rows: seq<Row>, o: Sorting, size: nat) returns (written: seq<Row>)
    requires Snapshot(rows, o) && size >= 1
    ensures multiset(written) == multiset(rows) && InOrder(written, o.descending)
  {
    ghost var sorted := Sorted(rows, o.descending);
    SortedAllOf(rows, o);
    written := [];
    var cur: Option<Position> := None;
    while true
      invariant |written| <= |sorted| && written == sorted[..|written|]
      invariant cur == Start(sorted, |written|, o)
      invariant written == [] || |written| < |sorted|
      decreases |sorted| - |written|
    {
      ghost var i := |written|;
      var page;
      page, cur := NextPage(rows, cur, o, size, i);
      SliceExtends(sorted, i, size);
      written := written + page;
      if cur.None? {
        assert written == sorted;
        SortedAll(rows, o.descending);
        SortedInOrder(rows, o);
        return;
      }
    }
  }
}
