/**
 The order of the report's rows (internal/compliance/order.go): the specified order, what its SQL's flags and values
 make of it, and the cursor a page ends with.
 */
module Order {
  import opened Wrappers

  // ---- values and their order

  datatype KeyType = BigInt | Float8 | Integer | Text

  /** A key's value: a whole number, a measure, a text. */
  datatype Value = Whole(n: int) | Measure(x: real) | Words(s: string)

  predicate WordsLess(a: string, b: string) {
    b != [] && (a == [] || a[0] < b[0] || (a[0] == b[0] && WordsLess(a[1..], b[1..])))
  }

  predicate Less(a: Value, b: Value) {
    match (a, b)
    case (Whole(m), Whole(n)) => m < n
    case (Measure(x), Measure(y)) => x < y
    case (Words(s), Words(t)) => WordsLess(s, t)
    case (Whole(_), _) => true
    case (Measure(_), Words(_)) => true
    case _ => false
  }

  lemma {:induction false} WordsTotal(a: string, b: string)
    ensures WordsLess(a, b) ==> !WordsLess(b, a) && a != b
    ensures a == b || WordsLess(a, b) || WordsLess(b, a)
  {
    if a != [] && b != [] && a[0] == b[0] {
      WordsTotal(a[1..], b[1..]);
      assert a == [a[0]] + a[1..] && b == [b[0]] + b[1..];
    }
  }

  lemma {:induction false} WordsTransitive(a: string, b: string, c: string)
    requires WordsLess(a, b) && WordsLess(b, c)
    ensures WordsLess(a, c)
  {
    if a != [] && a[0] == b[0] == c[0] {
      WordsTransitive(a[1..], b[1..], c[1..]);
    }
  }

  lemma LessTotal(a: Value, b: Value)
    ensures Less(a, b) ==> !Less(b, a) && a != b
    ensures a == b || Less(a, b) || Less(b, a)
  {
    if a.Words? && b.Words? {
      WordsTotal(a.s, b.s);
    }
  }

  lemma LessTransitive(a: Value, b: Value, c: Value)
    requires Less(a, b) && Less(b, c)
    ensures Less(a, c)
  {
    if a.Words? && b.Words? && c.Words? {
      WordsTransitive(a.s, b.s, c.s);
    }
  }

  // ---- the specified order of rows

  /** A row of the report as an order sorts it: its keys, none for a null one, and its id. */
  datatype Row = Row(keys: seq<Option<Value>>, id: string)

  /** A key that is there comes before one that is not, whichever the direction. */
  predicate KeyBefore(a: Option<Value>, b: Option<Value>, descending: bool) {
    a.Some? && (b.None? || if descending then Less(b.value, a.value) else Less(a.value, b.value))
  }

  predicate KeysBefore(a: seq<Option<Value>>, b: seq<Option<Value>>, descending: bool) {
    a != [] && b != [] &&
    (KeyBefore(a[0], b[0], descending) || (a[0] == b[0] && KeysBefore(a[1..], b[1..], descending)))
  }

  /** The report's order: by the keys in turn, a null one last, then by the id. */
  predicate Precedes(a: Row, b: Row, descending: bool) {
    KeysBefore(a.keys, b.keys, descending) || (a.keys == b.keys && WordsLess(a.id, b.id))
  }

  lemma KeyTotal(a: Option<Value>, b: Option<Value>, d: bool)
    ensures KeyBefore(a, b, d) ==> !KeyBefore(b, a, d) && a != b
    ensures a == b || KeyBefore(a, b, d) || KeyBefore(b, a, d)
  {
    if a.Some? && b.Some? {
      LessTotal(a.value, b.value);
    }
  }

  lemma KeyTransitive(a: Option<Value>, b: Option<Value>, c: Option<Value>, d: bool)
    requires KeyBefore(a, b, d) && KeyBefore(b, c, d)
    ensures KeyBefore(a, c, d)
  {
    if c.Some? && d {
      LessTransitive(c.value, b.value, a.value);
    } else if c.Some? {
      LessTransitive(a.value, b.value, c.value);
    }
  }

  lemma {:induction false} KeysTotal(a: seq<Option<Value>>, b: seq<Option<Value>>, d: bool)
    requires |a| == |b|
    ensures KeysBefore(a, b, d) ==> !KeysBefore(b, a, d) && a != b
    ensures a == b || KeysBefore(a, b, d) || KeysBefore(b, a, d)
  {
    if a != [] {
      KeyTotal(a[0], b[0], d);
      KeysTotal(a[1..], b[1..], d);
      assert a == [a[0]] + a[1..] && b == [b[0]] + b[1..];
    }
  }

  lemma {:induction false} KeysTransitive(a: seq<Option<Value>>, b: seq<Option<Value>>, c: seq<Option<Value>>, d: bool)
    requires KeysBefore(a, b, d) && KeysBefore(b, c, d)
    ensures KeysBefore(a, c, d)
  {
    if KeyBefore(a[0], b[0], d) && KeyBefore(b[0], c[0], d) {
      KeyTransitive(a[0], b[0], c[0], d);
    } else if a[0] == b[0] == c[0] && KeysBefore(a[1..], b[1..], d) && KeysBefore(b[1..], c[1..], d) {
      KeysTransitive(a[1..], b[1..], c[1..], d);
    }
  }

  /** Rows of as many keys and other ids are ordered one way or the other, never both. */
  lemma PrecedesTotal(a: Row, b: Row, d: bool)
    requires |a.keys| == |b.keys|
    ensures Precedes(a, b, d) ==> !Precedes(b, a, d)
    ensures a.id != b.id ==> Precedes(a, b, d) || Precedes(b, a, d)
  {
    KeysTotal(a.keys, b.keys, d);
    WordsTotal(a.id, b.id);
  }

  lemma PrecedesTransitive(a: Row, b: Row, c: Row, d: bool)
    requires Precedes(a, b, d) && Precedes(b, c, d)
    ensures Precedes(a, c, d)
  {
    if KeysBefore(a.keys, b.keys, d) && KeysBefore(b.keys, c.keys, d) {
      KeysTransitive(a.keys, b.keys, c.keys, d);
    } else if a.keys == b.keys == c.keys && WordsLess(a.id, b.id) && WordsLess(b.id, c.id) {
      WordsTransitive(a.id, b.id, c.id);
    }
  }

  /** Rows are told apart by the first key they differ in: one that is there comes before one that is not, in both
      directions; of two, the lesser first, or descending the greater; rows of the same keys by their ids, in both. */
  lemma {:induction false} FirstKeyDecides(a: Row, b: Row, d: bool, n: nat)
    requires |a.keys| == |b.keys| && n <= |a.keys| && a.keys[..n] == b.keys[..n]
    ensures n == |a.keys| ==> (Precedes(a, b, d) <==> WordsLess(a.id, b.id))
    ensures n < |a.keys| && a.keys[n] != b.keys[n] ==>
              (Precedes(a, b, d) <==>
               match (a.keys[n], b.keys[n])
               case (Some(x), Some(y)) => if d then Less(y, x) else Less(x, y)
               case (Some(_), None) => true
               case (None, _) => false)
    decreases n
  {
    KeysTotal(a.keys, b.keys, d);
    if n == |a.keys| {
      assert a.keys == b.keys;
    } else if n > 0 {
      assert a.keys[0] == a.keys[..n][0] == b.keys[0];
      assert a.keys[1..][..n - 1] == a.keys[..n][1..] == b.keys[1..][..n - 1];
      KeyTotal(a.keys[0], b.keys[0], d);
      FirstKeyDecides(Row(a.keys[1..], a.id), Row(b.keys[1..], b.id), d, n - 1);
    } else if a.keys != [] && a.keys[0] != b.keys[0] {
      assert a.keys != b.keys;
    }
  }

  lemma NumbersLess(m: int, n: int, x: real, y: real)
    ensures Less(Whole(m), Whole(n)) <==> m < n
    ensures Less(Measure(x), Measure(y)) <==> x < y
  {
  }

  /** A text comes before every one that goes on from it. */
  lemma {:induction false} GoesOn(s: string, u: string)
    ensures Less(Words(s), Words(s + u)) <==> u != ""
  {
    if s != [] {
      GoesOn(s[1..], u);
      assert (s + u)[1..] == s[1..] + u;
    } else {
      assert s + u == u;
    }
  }

  /** Other texts are told apart by the first character they differ in. */
  lemma {:induction false} FirstDiffers(s: string, t: string, k: nat)
    requires k < |s| && k < |t| && s[..k] == t[..k] && s[k] != t[k]
    ensures Less(Words(s), Words(t)) <==> s[k] < t[k]
  {
    if k > 0 {
      assert s[0] == s[..k][0] == t[0];
      assert s[1..][..k - 1] == s[..k][1..] == t[1..][..k - 1];
      FirstDiffers(s[1..], t[1..], k - 1);
    }
  }

  // ---- the order as SQL

  /** A key as SQL sorts it: its flag, and its value, zero for a null one. */
  datatype Cell = Cell(flag: bool, value: Value)

  function Zero(typ: KeyType): Value {
    match typ
    case Text => Words("")
    case Float8 => Measure(0.0)
    case _ => Whole(0)
  }

  /** Ascending, a null key's flag is set; descending, every other's. */
  function CellOf(key: Option<Value>, typ: KeyType, descending: bool): Cell {
    Cell(if descending then key.Some? else key.None?, key.GetOr(Zero(typ)))
  }

  function CellsOf(keys: seq<Option<Value>>, types: seq<KeyType>, descending: bool): (cells: seq<Cell>)
    requires |keys| == |types|
    ensures |cells| == |keys|
  {
    if keys == [] then [] else [CellOf(keys[0], types[0], descending)] + CellsOf(keys[1..], types[1..], descending)
  }

  predicate CellLess(a: Cell, b: Cell) {
    (!a.flag && b.flag) || (a.flag == b.flag && Less(a.value, b.value))
  }

  /** SQL's comparison of two rows of values. */
  predicate CellsLess(a: seq<Cell>, b: seq<Cell>) {
    a != [] && b != [] && (CellLess(a[0], b[0]) || (a[0] == b[0] && CellsLess(a[1..], b[1..])))
  }

  /** Where a page ended: its last row's columns. */
  datatype Position = Position(cells: seq<Cell>, id: string)

  function PositionOf(r: Row, types: seq<KeyType>, descending: bool): Position
    requires |r.keys| == |types|
  {
    Position(CellsOf(r.keys, types, descending), r.id)
  }

  /** The condition that a row comes after a position: its keys past it in the direction, or the same and its id past.
      */
  predicate After(r: Row, cur: Position, types: seq<KeyType>, descending: bool)
    requires |r.keys| == |types|
  {
    var cells := CellsOf(r.keys, types, descending);
    (if descending then CellsLess(cells, cur.cells) else CellsLess(cur.cells, cells)) ||
    (cells == cur.cells && WordsLess(cur.id, r.id))
  }

  lemma CellRealizesKey(a: Option<Value>, b: Option<Value>, typ: KeyType, d: bool)
    ensures CellOf(a, typ, d) == CellOf(b, typ, d) <==> a == b
    ensures (if d then CellLess(CellOf(b, typ, d), CellOf(a, typ, d))
             else CellLess(CellOf(a, typ, d), CellOf(b, typ, d)))
            <==> KeyBefore(a, b, d)
  {
    LessTotal(Zero(typ), Zero(typ));
  }

  lemma {:induction false} CellsRealizeKeys(a: seq<Option<Value>>, b: seq<Option<Value>>, types: seq<KeyType>, d: bool)
    requires |a| == |b| == |types|
    ensures CellsOf(a, types, d) == CellsOf(b, types, d) <==> a == b
    ensures (if d then CellsLess(CellsOf(b, types, d), CellsOf(a, types, d))
             else CellsLess(CellsOf(a, types, d), CellsOf(b, types, d))) <==> KeysBefore(a, b, d)
  {
    if a != [] {
      CellRealizesKey(a[0], b[0], types[0], d);
      CellsRealizeKeys(a[1..], b[1..], types[1..], d);
      assert a == [a[0]] + a[1..] && b == [b[0]] + b[1..];
      var ca, cb := CellsOf(a, types, d), CellsOf(b, types, d);
      assert ca[1..] == CellsOf(a[1..], types[1..], d) && cb[1..] == CellsOf(b[1..], types[1..], d);
    }
  }

  /** The flags and values sort rows as specified: a row comes after another's position exactly when that one precedes
      it, a null key last in both directions. */
  lemma AfterIsPrecedes(a: Row, b: Row, types: seq<KeyType>, d: bool)
    requires |a.keys| == |b.keys| == |types|
    ensures After(b, PositionOf(a, types, d), types, d) <==> Precedes(a, b, d)
  {
    CellsRealizeKeys(a.keys, b.keys, types, d);
  }

  // ---- the sorts and their cursors

  datatype Sort = PackageSize | OriginalSize | Saving | VideoBitrate | Title

  datatype Sorting = Sorting(sort: Sort, descending: bool)

  function TypesOf(sort: Sort): seq<KeyType> {
    match sort
    case VideoBitrate => [Float8, BigInt]
    case Title => [Text, Integer, Integer, Text]
    case _ => [BigInt, BigInt]
  }

  predicate OfType(v: Value, typ: KeyType) {
    match typ
    case Text => v.Words?
    case Float8 => v.Measure?
    case _ => v.Whole?
  }

  /** A value in a cursor, as JSON writes it. */
  datatype Json = Bool(b: bool) | Number(x: real) | String(s: string)

  datatype Cursor = Cursor(v: int, sort: Sort, descending: bool, cols: seq<Json>)

  function JsonOf(v: Value): Json {
    match v
    case Whole(n) => Number(n as real)
    case Measure(x) => Number(x)
    case Words(s) => String(s)
  }

  /** A key's value in a cursor as its type reads it; none when it is no value of it. */
  function ValueOf(j: Json, typ: KeyType): Option<Value> {
    match typ
    case Text => if j.String? then Some(Words(j.s)) else None
    case Float8 => if j.Number? then Some(Measure(j.x)) else None
    case _ => if j.Number? && j.x.Floor as real == j.x then Some(Whole(j.x.Floor)) else None
  }

  function Columns(cells: seq<Cell>): (cols: seq<Json>)
    ensures |cols| == 2 * |cells|
  {
    if cells == [] then [] else [Bool(cells[0].flag), JsonOf(cells[0].value)] + Columns(cells[1..])
  }

  function CursorOf(o: Sorting, p: Position): Cursor {
    Cursor(2, o.sort, o.descending, Columns(p.cells) + [String(p.id)])
  }

  /** The cursor is one of this order: of its version, its sort and direction, a flag and a value of its type of each
      key, and an id. */
  predicate IsCursor(o: Sorting, c: Cursor) {
    var types := TypesOf(o.sort);
    c.v == 2 && c.sort == o.sort && c.descending == o.descending && |c.cols| == 2 * |types| + 1 &&
    (forall i :: 0 <= i < |types| ==> IsCell(c.cols, i, types[i])) &&
    c.cols[|c.cols| - 1].String? && c.cols[|c.cols| - 1].s != ""
  }

  predicate IsCell(cols: seq<Json>, i: nat, typ: KeyType) {
    2 * i + 1 < |cols| && cols[2 * i].Bool? && ValueOf(cols[2 * i + 1], typ).Some?
  }

  function CellIn(cols: seq<Json>, i: nat, typ: KeyType): Cell
    requires IsCell(cols, i, typ)
  {
    Cell(cols[2 * i].b, ValueOf(cols[2 * i + 1], typ).value)
  }

  /** The position a cursor names. */
  function PositionIn(o: Sorting, c: Cursor): Position
    requires IsCursor(o, c)
  {
    var types := TypesOf(o.sort);
    Position(seq(|types|, i requires 0 <= i < |types| && IsCell(c.cols, i, types[i]) => CellIn(c.cols, i, types[i])),
             c.cols[|c.cols| - 1].s)
  }

  /** A cursor of this order is read as the position it names; any other is refused. */
  method Parse(o: Sorting, c: Cursor) returns (p: Option<Position>)
    ensures p == if IsCursor(o, c) then Some(PositionIn(o, c)) else None
  {
    var types := TypesOf(o.sort);
    if c.v != 2 || c.sort != o.sort || c.descending != o.descending || |c.cols| != 2 * |types| + 1 {
      return None;
    }
    var cells: seq<Cell> := [];
    for i := 0 to |types|
      invariant |cells| == i
      invariant forall k :: 0 <= k < i ==>
                              IsCell(c.cols, k, types[k]) && cells[k] == CellIn(c.cols, k, types[k])
    {
      if !c.cols[2 * i].Bool? {
        assert !IsCell(c.cols, i, types[i]);
        return None;
      }
      var v := ValueOf(c.cols[2 * i + 1], types[i]);
      if v.None? {
        assert !IsCell(c.cols, i, types[i]);
        return None;
      }
      cells := cells + [Cell(c.cols[2 * i].b, v.value)];
    }
    var last := c.cols[|c.cols| - 1];
    if !last.String? || last.s == "" {
      return None;
    }
    assert IsCursor(o, c) && cells == PositionIn(o, c).cells;
    p := Some(Position(cells, last.s));
  }

  ghost predicate Typed(cells: seq<Cell>, types: seq<KeyType>) {
    |cells| == |types| && forall i :: 0 <= i < |types| ==> OfType(cells[i].value, types[i])
  }

  lemma {:induction false} ColumnsAt(cells: seq<Cell>, i: nat)
    requires i < |cells|
    ensures Columns(cells)[2 * i] == Bool(cells[i].flag) && Columns(cells)[2 * i + 1] == JsonOf(cells[i].value)
  {
    if i > 0 {
      ColumnsAt(cells[1..], i - 1);
      var rest := Columns(cells[1..]);
      assert Columns(cells) == [Bool(cells[0].flag), JsonOf(cells[0].value)] + rest;
      assert Columns(cells)[2 * i] == rest[2 * (i - 1)] && Columns(cells)[2 * i + 1] == rest[2 * (i - 1) + 1];
    }
  }

  /** A page's cursor is read back as the position it ended at. */
  lemma CursorRoundTrip(o: Sorting, p: Position)
    requires Typed(p.cells, TypesOf(o.sort)) && p.id != ""
    ensures IsCursor(o, CursorOf(o, p)) && PositionIn(o, CursorOf(o, p)) == p
  {
    var c, types := CursorOf(o, p), TypesOf(o.sort);
    forall i | 0 <= i < |types|
      ensures IsCell(c.cols, i, types[i]) && c.cols[2 * i].b == p.cells[i].flag &&
              ValueOf(c.cols[2 * i + 1], types[i]) == Some(p.cells[i].value)
    {
      ColumnsAt(p.cells, i);
      assert c.cols[2 * i] == Columns(p.cells)[2 * i] && c.cols[2 * i + 1] == Columns(p.cells)[2 * i + 1];
    }
    assert PositionIn(o, c).cells == p.cells;
  }
}
