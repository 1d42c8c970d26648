/**
 A title's chapters as the catalog keeps them (internal/chapters/chapters.go): the title of a chapter, the order
 chapters are read back in, when two lists are the same chapters, and how a read takes those in the catalog.
 */
module Chapters {
  import opened Wrappers
  import opened Text

  type SourceId = string

  datatype Chapter = Chapter(startMs: int, endMs: int, title: Option<string>, ordinal: int)

  const TITLE_MAX := 120

  // ---- a chapter's title

  predicate IsControl(c: char) {
    var n := c as int;
    n < 0x20 || n == 0x7F
  }

  /** A tab and a line's end are a space, every other control character is dropped. */
  function Printable(s: string): (r: string)
    ensures |r| <= |s| && forall i :: 0 <= i < |r| ==> !IsControl(r[i])
  {
    if s == [] then []
    else if !IsControl(s[0]) then [s[0]] + Printable(s[1..])
    else if s[0] in "\t\n\r" then [' '] + Printable(s[1..])
    else Printable(s[1..])
  }

  function CleanTitle(t: Option<string>): Option<string> {
    match t
    case None => None
    case Some(text) =>
      var s := TrimSpace(Printable(text));
      var cut := if |s| > TITLE_MAX then TrimSpace(s[..TITLE_MAX]) else s;
      if cut == "" then None else Some(cut)
  }

  /** The titles the catalog's column can hold: none, or a short text of no control character, trimmed. */
  predicate IsClean(t: Option<string>) {
    t.Some? ==>
      1 <= |t.value| <= TITLE_MAX && Trimmed(t.value) && forall i :: 0 <= i < |t.value| ==> !IsControl(t.value[i])
  }

  lemma {:induction false} PrintableFixpoint(s: string)
    requires forall i :: 0 <= i < |s| ==> !IsControl(s[i])
    ensures Printable(s) == s
  {
    if s != [] {
      PrintableFixpoint(s[1..]);
    }
  }

  /** Cleaning yields a clean title, and changes exactly those that are not clean: it is idempotent. */
  lemma CleanTitleFixpoint(t: Option<string>)
    ensures IsClean(CleanTitle(t))
    ensures CleanTitle(t) == t <==> IsClean(t)
    ensures CleanTitle(CleanTitle(t)) == CleanTitle(t)
  {
    CleaningCleans(t);
    CleanStays(CleanTitle(t));
    if IsClean(t) {
      CleanStays(t);
    }
  }

  lemma CleaningCleans(t: Option<string>)
    ensures IsClean(CleanTitle(t))
  {
    if t.Some? {
      var p := Printable(t.value);
      var i, j := TrimSpaceIsStretch(p);
      var s := TrimSpace(p);
      assert forall x :: 0 <= x < |s| ==> s[x] == p[i + x];
      if |s| > TITLE_MAX {
        var head := s[..TITLE_MAX];
        var k, l := TrimSpaceIsStretch(head);
        assert forall x :: 0 <= x < l - k ==> TrimSpace(head)[x] == s[k + x];
      }
    }
  }

  lemma CleanStays(t: Option<string>)
    requires IsClean(t)
    ensures CleanTitle(t) == t
  {
    if t.Some? {
      PrintableFixpoint(t.value);
      TrimSpaceFixpoint(t.value);
    }
  }

  /** Printing a text drops its control characters but tabs and ends of lines, which are spaces then, and keeps every
      other in its place among them. */
  lemma {:induction false} PrintableJoins(s: string, t: string)
    ensures Printable(s + t) == Printable(s) + Printable(t)
    ensures |s| == 1 ==>
              Printable(s) == if !IsControl(s[0]) then s else if s[0] in {'\t', '\n', '\r'} then " " else ""
  {
    if s == [] {
      assert s + t == t;
    } else {
      PrintableJoins(s[1..], t);
      assert (s + t)[1..] == s[1..] + t;
    }
  }

  /** A title is none exactly where nothing of it prints but white space; else its first 120 characters that print are
      kept, from the first that is no white space on, but for white space they end with. */
  lemma CleanTitleKeeps(text: string)
    ensures var p, c := TrimSpace(Printable(text)), CleanTitle(Some(text));
            (c.None? <==> p == "") && (c.Some? ==> c.value <= p) && (c.Some? && |p| <= TITLE_MAX ==> c.value == p) &&
            (c.Some? ==> forall k :: |c.value| <= k < |p| && k < TITLE_MAX ==> IsSpace(p[k]))
  {
    var p := TrimSpace(Printable(text));
    var a, b := TrimSpaceIsStretch(Printable(text));
    if |p| > TITLE_MAX {
      var head := p[..TITLE_MAX];
      assert head[0] == p[0];
      var i, j := TrimSpaceIsStretch(head);
      assert forall k :: j <= k < TITLE_MAX ==> p[k] == head[k];
    }
  }

  // ---- the chapters of a title

  function Cleaned(c: Chapter): Chapter {
    c.(title := CleanTitle(c.title))
  }

  /** The order Of reads chapters in: by ordinal, then by start. */
  predicate NotAfter(a: Chapter, b: Chapter) {
    a.ordinal < b.ordinal || (a.ordinal == b.ordinal && a.startMs <= b.startMs)
  }

  predicate Ordered(chs: seq<Chapter>) {
    forall i, j :: 0 <= i < j < |chs| ==> NotAfter(chs[i], chs[j])
  }

  function Inserted(c: Chapter, chs: seq<Chapter>): (r: seq<Chapter>)
    ensures |r| == |chs| + 1
  {
    if chs == [] || NotAfter(c, chs[0]) then [c] + chs else [chs[0]] + Inserted(c, chs[1..])
  }

  /** What Of reads back of the chapters Replace wrote: each title cleaned, in their order. */
  function Kept(chs: seq<Chapter>): (r: seq<Chapter>)
    ensures |r| == |chs|
  {
    if chs == [] then [] else Inserted(Cleaned(chs[0]), Kept(chs[1..]))
  }

  /** Chapters as the catalog holds them: in their order, every title clean. */
  predicate Stored(chs: seq<Chapter>) {
    Ordered(chs) && forall i :: 0 <= i < |chs| ==> IsClean(chs[i].title)
  }

  lemma {:induction false} InsertedAll(c: Chapter, chs: seq<Chapter>)
    ensures multiset(Inserted(c, chs)) == multiset(chs) + multiset{c}
    ensures forall x :: x in Inserted(c, chs) ==> x == c || x in chs
  {
    if chs == [] || NotAfter(c, chs[0]) {
    } else {
      InsertedAll(c, chs[1..]);
      assert chs == [chs[0]] + chs[1..];
    }
  }

  lemma {:induction false} InsertedStored(c: Chapter, chs: seq<Chapter>)
    requires Stored(chs) && IsClean(c.title)
    ensures Stored(Inserted(c, chs))
  {
    var r := Inserted(c, chs);
    if chs == [] || NotAfter(c, chs[0]) {
      forall i, j | 0 <= i < j < |r| ensures NotAfter(r[i], r[j]) {
        assert i == 0 ==> NotAfter(chs[0], r[j]) || j == 1;
      }
    } else {
      var rest := Inserted(c, chs[1..]);
      InsertedStored(c, chs[1..]);
      InsertedAll(c, chs[1..]);
      forall j | 0 <= j < |rest| ensures NotAfter(chs[0], rest[j]) {
        assert rest[j] in rest;
      }
    }
  }

  /** The chapters with their titles cleaned, as they are handed over. */
  function AllCleaned(chs: seq<Chapter>): (r: seq<Chapter>)
    ensures |r| == |chs|
  {
    if chs == [] then [] else [Cleaned(chs[0])] + AllCleaned(chs[1..])
  }

  /** Writing chapters keeps each, its title cleaned, and no other. */
  lemma {:induction false} KeptIsAll(chs: seq<Chapter>)
    ensures multiset(Kept(chs)) == multiset(AllCleaned(chs))
  {
    if chs != [] {
      KeptIsAll(chs[1..]);
      InsertedAll(Cleaned(chs[0]), Kept(chs[1..]));
    }
  }

  lemma {:induction false} KeptIsStored(chs: seq<Chapter>)
    ensures Stored(Kept(chs))
  {
    if chs != [] {
      KeptIsStored(chs[1..]);
      CleanTitleFixpoint(chs[0].title);
      InsertedStored(Cleaned(chs[0]), Kept(chs[1..]));
    }
  }

  /** Chapters as the catalog holds them are written back as they are. */
  lemma {:induction false} StoredStays(chs: seq<Chapter>)
    requires Stored(chs)
    ensures Kept(chs) == chs
  {
    if chs != [] {
      StoredStays(chs[1..]);
      CleanTitleFixpoint(chs[0].title);
      assert Cleaned(chs[0]) == chs[0];
    }
  }

  /** As many chapters, each starting within a millisecond of the other's and of its title. */
  predicate Same(have: seq<Chapter>, got: seq<Chapter>) {
    |have| == |got| &&
    forall i :: 0 <= i < |have| ==>
      -1 <= have[i].startMs - got[i].startMs <= 1 && CleanTitle(have[i].title) == CleanTitle(got[i].title)
  }

  function Delayed(chs: seq<Chapter>, d: int): (r: seq<Chapter>)
    ensures |r| == |chs| && forall i :: 0 <= i < |chs| ==> r[i] == chs[i].(startMs := chs[i].startMs + d)
  {
    seq(|chs|, i requires 0 <= i < |chs| => chs[i].(startMs := chs[i].startMs + d))
  }

  /** Chapters are the same as those a while later exactly within a millisecond, whatever their ends and ordinals; as
      others of the same starts exactly where every title is the same as the catalog keeps it. */
  lemma SameWithin(chs: seq<Chapter>, d: int, others: seq<Chapter>)
    ensures Same(chs, Delayed(chs, d)) <==> chs == [] || -1 <= d <= 1
    ensures |others| == |chs| && (forall i :: 0 <= i < |chs| ==> others[i].startMs == chs[i].startMs) ==>
              (Same(chs, others) <==>
               forall i :: 0 <= i < |chs| ==> CleanTitle(others[i].title) == CleanTitle(chs[i].title))
    ensures |others| != |chs| ==> !Same(chs, others)
  {
    if chs != [] && Same(chs, Delayed(chs, d)) {
      assert -1 <= chs[0].startMs - Delayed(chs, d)[0].startMs <= 1;
    }
  }

  /** Chapters listed in their order are kept in it. */
  lemma {:induction false} KeptInOrder(chs: seq<Chapter>)
    requires Ordered(chs)
    ensures Kept(chs) == AllCleaned(chs) && Ordered(AllCleaned(chs))
    ensures forall i :: 0 <= i < |chs| ==> AllCleaned(chs)[i] == Cleaned(chs[i])
  {
    if chs != [] {
      KeptInOrder(chs[1..]);
      if |chs| > 1 {
        assert NotAfter(chs[0], chs[1]) && AllCleaned(chs[1..])[0] == Cleaned(chs[1]);
      }
    }
  }

  /** Being the same chapters is symmetric, and told of the titles as the catalog keeps them. */
  lemma SameOfCleaned(have: seq<Chapter>, got: seq<Chapter>)
    requires Ordered(got)
    ensures Same(Kept(got), have) <==> Same(have, got)
  {
    KeptInOrder(got);
    forall i | 0 <= i < |got|
      ensures CleanTitle(Kept(got)[i].title) == CleanTitle(got[i].title) && Kept(got)[i].startMs == got[i].startMs
    {
      CleanTitleFixpoint(got[i].title);
    }
  }

  // ---- how a read takes the chapters in the catalog

  datatype Take = TakeWrite | TakeKeep | TakeNone | TakeStay | TakeHold

  function TakeOf(have: seq<Chapter>, got: seq<Chapter>, rowsSource: Option<SourceId>, source: Option<SourceId>): Take {
    var other := rowsSource.Some? && rowsSource != source;
    if got != [] && have != [] && Same(have, got) then TakeKeep
    else if got != [] && (have == [] || other || |got| >= |have|) then TakeWrite
    else if got != [] then TakeHold
    else if have == [] || other then TakeNone
    else if rowsSource.Some? then TakeStay
    else TakeHold
  }
}
