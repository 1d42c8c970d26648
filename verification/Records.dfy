/**
 A source record's chapters (internal/chapters/records.go): which chapters the marks of a probe are, marks an hour past
 their places, and what the record then says of its original.
 */
module Records {
  import opened Wrappers
  import opened Chapters

  const HOUR := 3600_000

  /** A chapter mark as a probe gives it: its start and its end in ms, none where it gives none. */
  datatype Mark = Mark(start: Option<int>, end: Option<int>, title: Option<string>)

  /** A probe: its marks (none: it holds no chapters list), the file's duration and start, its streams' durations. */
  datatype Probe = Probe(chapters: Option<seq<Mark>>, duration: Option<int>, startTime: Option<int>,
                         streams: seq<Option<int>>)

  /** What a record says of its original's chapters, or that it can't say (why, err), or that an admin decides (held).
      */
  datatype RecordRead = RecordRead(found: int, chapters: seq<Chapter>, held: bool, why: bool, err: bool) {
    predicate Says() {
      !why && !err && !held
    }
  }

  // ---- the chapters of marks

  /** A place a mark that starts at start and has no end may end at: a later mark's start, or the file's end. */
  predicate Boundary(marks: seq<Mark>, start: int, end: Option<int>, b: int) {
    end == Some(b) || exists j :: 0 <= j < |marks| && marks[j].start == Some(b) && start < b
  }

  predicate LeastBoundary(marks: seq<Mark>, start: int, end: Option<int>, stop: Option<int>) {
    match stop
    case None => end.None? && forall j :: 0 <= j < |marks| && marks[j].start.Some? ==> marks[j].start.value <= start
    case Some(v) =>
      Boundary(marks, start, end, v) &&
      (end.Some? ==> v <= end.value) &&
      forall j :: 0 <= j < |marks| && marks[j].start.Some? && start < marks[j].start.value ==> v <= marks[j].start.value
  }

  function Earlier(a: Option<int>, b: Option<int>): Option<int> {
    if a.None? then b else if b.None? || a.value <= b.value then a else b
  }

  /** The first start after start among the first n marks. */
  function NextStart(marks: seq<Mark>, n: nat, start: int): Option<int>
    requires n <= |marks|
  {
    if n == 0 then None
    else
      var m := marks[n - 1].start;
      Earlier(NextStart(marks, n - 1, start), if m.Some? && start < m.value then m else None)
  }

  function StopOf(marks: seq<Mark>, i: nat, end: Option<int>): Option<int>
    requires i < |marks| && marks[i].start.Some?
  {
    if marks[i].end.Some? then marks[i].end else Earlier(NextStart(marks, |marks|, marks[i].start.value), end)
  }

  lemma {:induction false} NextStartIsLeast(marks: seq<Mark>, n: nat, start: int)
    requires n <= |marks|
    ensures LeastBoundary(marks[..n], start, None, NextStart(marks, n, start))
  {
    if n > 0 {
      NextStartIsLeast(marks, n - 1, start);
      var was := NextStart(marks, n - 1, start);
      assert marks[..n][..n - 1] == marks[..n - 1];
      if was.Some? {
        var j :| 0 <= j < n - 1 && marks[..n - 1][j].start == Some(was.value) && start < was.value;
        assert marks[..n][j].start == Some(was.value);
      }
      assert marks[..n][n - 1] == marks[n - 1];
      forall j | 0 <= j < n - 1 ensures marks[..n][j] == marks[..n - 1][j] {}
    }
  }

  /** A mark without an end of its own ends at the first boundary after it. */
  lemma StopIsLeast(marks: seq<Mark>, i: nat, end: Option<int>)
    requires i < |marks| && marks[i].start.Some? && marks[i].end.None?
    ensures LeastBoundary(marks, marks[i].start.value, end, StopOf(marks, i, end))
  {
    NextStartIsLeast(marks, |marks|, marks[i].start.value);
    assert marks[..|marks|] == marks;
  }

  predicate HasLength(marks: seq<Mark>, i: nat, end: Option<int>)
    requires i < |marks|
  {
    marks[i].start.Some? && StopOf(marks, i, end).Some? &&
    (if marks[i].start.value > 0 then marks[i].start.value else 0) < StopOf(marks, i, end).value
  }

  /** The places of the first n marks that have a length. */
  function Places(marks: seq<Mark>, n: nat, end: Option<int>): seq<nat>
    requires n <= |marks|
  {
    if n == 0 then []
    else Places(marks, n - 1, end) + if HasLength(marks, n - 1, end) then [n - 1] else []
  }

  function ChapterAt(marks: seq<Mark>, i: nat, end: Option<int>, ordinal: int): Chapter
    requires i < |marks| && HasLength(marks, i, end)
  {
    Chapter(if marks[i].start.value > 0 then marks[i].start.value else 0, StopOf(marks, i, end).value,
            CleanTitle(marks[i].title), ordinal)
  }

  /** The places are exactly those of the marks with a length, in their order. */
  lemma {:induction false} PlacesAreOfLength(marks: seq<Mark>, n: nat, end: Option<int>)
    requires n <= |marks|
    ensures forall k :: 0 <= k < |Places(marks, n, end)| ==>
                          Places(marks, n, end)[k] < n && HasLength(marks, Places(marks, n, end)[k], end)
    ensures forall k, l :: 0 <= k < l < |Places(marks, n, end)| ==> Places(marks, n, end)[k] < Places(marks, n, end)[l]
    ensures forall i :: 0 <= i < n && HasLength(marks, i, end) ==> i in Places(marks, n, end)
  {
    if n > 0 {
      PlacesAreOfLength(marks, n - 1, end);
    }
  }

  /** Which marks have a length: one with an end of its own, where that lies past its start and past 0; one without,
      from 0 on, where it starts before the file's end, or, that not being known, before another mark. */
  lemma LengthIs(marks: seq<Mark>, i: nat, end: Option<int>)
    requires i < |marks|
    ensures marks[i].start.None? ==> !HasLength(marks, i, end)
    ensures marks[i].start.Some? && marks[i].end.Some? ==>
              (HasLength(marks, i, end) <==>
               marks[i].start.value < marks[i].end.value && 0 < marks[i].end.value)
    ensures marks[i].start.Some? && marks[i].end.None? && marks[i].start.value >= 0 ==>
              (HasLength(marks, i, end) <==>
               match end
               case Some(e) => marks[i].start.value < e
               case None => exists j :: 0 <= j < |marks| && StartsAfter(marks[j], marks[i].start.value))
  {
    if marks[i].start.Some? && marks[i].end.None? {
      StopIsLeast(marks, i, end);
      var start, stop := marks[i].start.value, StopOf(marks, i, end);
      if stop.Some? && end.None? {
        var j :| 0 <= j < |marks| && marks[j].start == stop && start < stop.value;
        assert StartsAfter(marks[j], start);
      }
    }
  }

  predicate StartsAfter(m: Mark, start: int) {
    m.start.Some? && start < m.start.value
  }

  /** The chapters are those of the marks with a length, numbered in turn. */
  predicate AreChapters(marks: seq<Mark>, end: Option<int>, chs: seq<Chapter>) {
    var places := Places(marks, |marks|, end);
    |chs| == |places| &&
    forall k :: 0 <= k < |chs| ==>
                  places[k] < |marks| && HasLength(marks, places[k], end) &&
                  chs[k] == ChapterAt(marks, places[k], end, k + 1)
  }

  method ChaptersOf(marks: seq<Mark>, end: Option<int>) returns (out: seq<Chapter>)
    ensures AreChapters(marks, end, out)
    ensures forall k :: 0 <= k < |out| ==> 0 <= out[k].startMs < out[k].endMs
  {
    out := [];
    for i := 0 to |marks|
      invariant |out| == |Places(marks, i, end)|
      invariant forall k :: 0 <= k < |out| ==>
                              var p := Places(marks, i, end)[k];
                              p < i && HasLength(marks, p, end) && out[k] == ChapterAt(marks, p, end, k + 1)
    {
      var m := marks[i];
      if m.start.Some? {
        var start := m.start.value;
        var stop := m.end;
        if stop.None? {
          for j := 0 to |marks|
            invariant stop == NextStart(marks, j, start)
          {
            var n := marks[j];
            if j != i && n.start.Some? && n.start.value > start && (stop.None? || n.start.value < stop.value) {
              stop := n.start;
            }
          }
          if end.Some? && (stop.None? || end.value < stop.value) {
            stop := end;
          }
        }
        assert stop == StopOf(marks, i, end);
        start := if start > 0 then start else 0;
        if stop.Some? && start < stop.value {
          out := out + [Chapter(start, stop.value, CleanTitle(m.title), |out| + 1)];
        }
      }
    }
  }

  lemma {:induction false} AllPlaced(marks: seq<Mark>, n: nat, end: Option<int>)
    requires n <= |marks| && forall i :: 0 <= i < n ==> HasLength(marks, i, end)
    ensures |Places(marks, n, end)| == n && forall i :: 0 <= i < n ==> Places(marks, n, end)[i] == i
  {
    if n > 0 {
      AllPlaced(marks, n - 1, end);
    }
  }

  /** Marks given with their ends, none of them empty or before 0, are chapters as they are. */
  lemma ChaptersAsGiven(marks: seq<Mark>, end: Option<int>, chs: seq<Chapter>)
    requires forall i :: 0 <= i < |marks| ==>
               marks[i].start.Some? && marks[i].end.Some? && 0 <= marks[i].start.value < marks[i].end.value
    requires AreChapters(marks, end, chs)
    ensures |chs| == |marks|
    ensures forall k :: 0 <= k < |marks| ==>
              chs[k] == Chapter(marks[k].start.value, marks[k].end.value, CleanTitle(marks[k].title), k + 1)
  {
    forall i | 0 <= i < |marks| ensures HasLength(marks, i, end) {
      LengthIs(marks, i, end);
    }
    AllPlaced(marks, |marks|, end);
  }

  // ---- marks an hour past their places

  predicate PastEnd(marks: seq<Mark>, end: int) {
    exists i :: 0 <= i < |marks| && marks[i].start.Some? && marks[i].start.value >= end
  }

  /** Every mark lies inside the file an hour earlier, and they stay in order. */
  predicate FitEarlier(marks: seq<Mark>, end: int) {
    (forall i :: 0 <= i < |marks| ==> marks[i].start.Some? && 0 <= marks[i].start.value - HOUR < end) &&
    forall i :: 0 < i < |marks| ==> marks[i - 1].start.value < marks[i].start.value
  }

  /** The chapters lie side by side from their first start to end. */
  predicate Tile(chs: seq<Chapter>, end: int) {
    (forall k :: 0 <= k < |chs| ==>
                   chs[k].ordinal == k + 1 && 0 <= chs[k].startMs < chs[k].endMs) &&
    (forall k :: 0 < k < |chs| ==> chs[k - 1].endMs == chs[k].startMs) &&
    (chs != [] ==> chs[|chs| - 1].endMs == end)
  }

  /** The marks an hour earlier, each without an end of its own. */
  function Moved(marks: seq<Mark>): seq<Mark>
    requires forall i :: 0 <= i < |marks| ==> marks[i].start.Some?
  {
    seq(|marks|, i requires 0 <= i < |marks| => Mark(Some(marks[i].start.value - HOUR), None, marks[i].title))
  }

  lemma {:induction false} Rising(marks: seq<Mark>, i: nat, j: nat)
    requires i < j < |marks|
    requires forall k :: 0 <= k < |marks| ==> marks[k].start.Some?
    requires forall k :: 0 < k < |marks| ==> marks[k - 1].start.value < marks[k].start.value
    ensures marks[i].start.value < marks[j].start.value
    decreases j
  {
    if i < j - 1 {
      Rising(marks, i, j - 1);
    }
  }

  /** Marks that fit the file each end where the next starts, the last at the file's end. */
  lemma MovedStops(marks: seq<Mark>, end: int, i: nat)
    requires FitEarlier(marks, end) && i < |marks|
    ensures StopOf(Moved(marks), i, Some(end)) ==
            Some(if i + 1 < |marks| then marks[i + 1].start.value - HOUR else end)
    ensures HasLength(Moved(marks), i, Some(end))
  {
    var out := Moved(marks);
    StopIsLeast(out, i, Some(end));
    var stop := StopOf(out, i, Some(end)).value;
    if i + 1 < |marks| {
      assert stop <= out[i + 1].start.value;
    }
    if stop != end {
      var j :| 0 <= j < |out| && out[j].start == Some(stop) && out[i].start.value < stop;
      if j < i {
        Rising(marks, j, i);
      } else if i + 1 < j {
        Rising(marks, i + 1, j);
      }
    }
  }

  /** Marks that fit the file an hour earlier are chapters that lie side by side, one a mark. */
  lemma MovedTile(marks: seq<Mark>, end: int, chs: seq<Chapter>)
    requires FitEarlier(marks, end) && AreChapters(Moved(marks), Some(end), chs)
    ensures |chs| == |marks| && Tile(chs, end)
    ensures forall k :: 0 <= k < |marks| ==>
                          chs[k].startMs == marks[k].start.value - HOUR && chs[k].title == CleanTitle(marks[k].title)
  {
    var out := Moved(marks);
    forall i | 0 <= i < |out| ensures HasLength(out, i, Some(end)) {
      MovedStops(marks, end, i);
    }
    AllPlaced(out, |out|, Some(end));
    forall k | 0 <= k < |marks|
      ensures chs[k] == Chapter(marks[k].start.value - HOUR,
                                if k + 1 < |marks| then marks[k + 1].start.value - HOUR else end,
                                CleanTitle(marks[k].title), k + 1)
    {
      MovedStops(marks, end, k);
    }
    if marks != [] {
      var last := |marks| - 1;
      MovedStops(marks, end, last);
      assert Places(out, |out|, Some(end))[last] == last;
    }
  }

  /** ... and only marks that fit do: where marks an hour earlier are chapters side by side up to the file's end, one a
      mark at its start, all lay inside the file, in order. */
  lemma OnlyFittingTile(marks: seq<Mark>, end: int, chs: seq<Chapter>)
    requires forall i :: 0 <= i < |marks| ==> marks[i].start.Some?
    requires |chs| == |marks| && Tile(chs, end)
    requires forall k :: 0 <= k < |marks| ==> chs[k].startMs == marks[k].start.value - HOUR
    ensures FitEarlier(marks, end)
  {
    forall i | 0 <= i < |marks| ensures 0 <= marks[i].start.value - HOUR < end {
      TileEnds(chs, end, i);
    }
    forall i | 0 < i < |marks| ensures marks[i - 1].start.value < marks[i].start.value {
      assert chs[i - 1].endMs == chs[i].startMs;
    }
  }

  lemma {:induction false} TileEnds(chs: seq<Chapter>, end: int, k: nat)
    requires Tile(chs, end) && k < |chs|
    ensures chs[k].startMs < chs[k].endMs <= end
    decreases |chs| - k
  {
    if k + 1 < |chs| {
      TileEnds(chs, end, k + 1);
      assert chs[k + 1 - 1].endMs == chs[k + 1].startMs;
    }
  }

  method MoveEarlier(marks: seq<Mark>, end: int) returns (out: seq<Mark>, ok: bool)
    ensures ok <==> FitEarlier(marks, end)
    ensures ok ==> out == Moved(marks)
  {
    out := [];
    var prev := -1;
    for i := 0 to |marks|
      invariant |out| == i
      invariant forall k :: 0 <= k < i ==>
                              marks[k].start.Some? && 0 <= marks[k].start.value - HOUR < end &&
                              out[k] == Mark(Some(marks[k].start.value - HOUR), None, marks[k].title)
      invariant forall k :: 0 < k < i ==> marks[k - 1].start.value < marks[k].start.value
      invariant prev == if i == 0 then -1 else marks[i - 1].start.value - HOUR
    {
      if marks[i].start.None? {
        return [], false;
      }
      var s := marks[i].start.value - HOUR;
      if s < 0 || s >= end || s <= prev {
        return [], false;
      }
      prev := s;
      out := out + [Mark(Some(s), None, marks[i].title)];
    }
    ok := true;
  }

  method Shifted(marks: seq<Mark>, end: int) returns (chs: seq<Chapter>, ok: bool)
    ensures ok <==> FitEarlier(marks, end)
    ensures ok ==> |chs| == |marks| && Tile(chs, end) && AreChapters(Moved(marks), Some(end), chs)
    ensures ok ==> forall k :: 0 <= k < |marks| ==>
                                 chs[k].startMs == marks[k].start.value - HOUR &&
                                 chs[k].title == CleanTitle(marks[k].title)
    ensures !ok ==> chs == []
  {
    var out;
    out, ok := MoveEarlier(marks, end);
    if !ok {
      return [], false;
    }
    chs := ChaptersOf(out, Some(end));
    MovedTile(marks, end, chs);
    ok := |chs| == |marks|;
  }

  // ---- what a record says

  predicate NoLength(marks: seq<Mark>, end: Option<int>) {
    forall i :: 0 <= i < |marks| ==> !HasLength(marks, i, end)
  }

  lemma NoneHasLength(marks: seq<Mark>, end: Option<int>)
    ensures Places(marks, |marks|, end) == [] <==> NoLength(marks, end)
  {
    var places := Places(marks, |marks|, end);
    PlacesAreOfLength(marks, |marks|, end);
    if places != [] {
      assert HasLength(marks, places[0], end);
    }
  }

  /** The longest of the streams' lengths above 0, among the first n. */
  function Longest(streams: seq<Option<int>>, n: nat): (r: Option<int>)
    requires n <= |streams|
    ensures r.Some? ==> r.value > 0 && r in streams[..n]
    ensures forall i :: 0 <= i < n && streams[i].Some? && streams[i].value > 0 ==>
                          r.Some? && streams[i].value <= r.value
  {
    if n == 0 then None
    else
      var r := Longest(streams, n - 1);
      var d := streams[n - 1];
      assert streams[..n] == streams[..n - 1] + [d];
      if d.Some? && d.value > 0 && (r.None? || d.value > r.value) then d else r
  }

  /** The file's end on its timeline: its duration from its start, else its longest stream's. */
  function FileEnd(p: Probe): Option<int> {
    if p.duration.Some? && p.duration.value > 0 then
      if p.startTime.Some? && p.startTime.value > 0 then Some(p.duration.value + p.startTime.value) else p.duration
    else Longest(p.streams, |p.streams|)
  }

  /** A file ends its duration after its start, where the probe gives both; without a duration no stream of it ends
      later, and it ends with one of them; no other file's end is known. */
  lemma FileEndIs(p: Probe)
    ensures match p.duration
            case Some(d) => d > 0 ==> FileEnd(p) == Some(d + Max0(p.startTime))
            case None => true
    ensures p.duration.None? || p.duration.value <= 0 ==>
              (FileEnd(p).Some? <==> exists i :: 0 <= i < |p.streams| && Lasts(p.streams[i])) &&
              (forall i :: 0 <= i < |p.streams| && Lasts(p.streams[i]) ==> p.streams[i].value <= FileEnd(p).value) &&
              (FileEnd(p).Some? ==> FileEnd(p) in p.streams)
  {
    var n := |p.streams|;
    assert p.streams[..n] == p.streams;
    if i :| 0 <= i < n && Longest(p.streams, n).Some? && p.streams[i] == Longest(p.streams, n) {
      assert Lasts(p.streams[i]);
    }
  }

  predicate Lasts(length: Option<int>) {
    length.Some? && length.value > 0
  }

  function Max0(v: Option<int>): int {
    if v.Some? && v.value > 0 then v.value else 0
  }

  method EndOf(p: Probe) returns (end: Option<int>)
    ensures end == FileEnd(p)
  {
    end := p.duration;
    if end.Some? && end.value > 0 {
      if p.startTime.Some? && p.startTime.value > 0 {
        end := Some(end.value + p.startTime.value);
      }
    } else {
      end := None;
      for i := 0 to |p.streams|
        invariant end == Longest(p.streams, i)
      {
        var d := p.streams[i];
        if d.Some? && d.value > 0 && (end.None? || d.value > end.value) {
          end := d;
        }
      }
    }
  }

  method Interpret(p: Probe) returns (r: RecordRead)
    ensures !r.err && (r.why <==> p.chapters.None?)
    // it names its marks, and a record of marks without any chapter is held or of marks inside the file
    ensures p.chapters.Some? ==> r.found == |p.chapters.value|
    ensures r.Says() && r.chapters == [] && p.chapters.value != [] ==>
              FileEnd(p).Some? && forall i :: 0 <= i < |p.chapters.value| && p.chapters.value[i].start.Some? ==>
                                    p.chapters.value[i].start.value < FileEnd(p).value
    ensures p.chapters.Some? ==>
              var marks, end := p.chapters.value, FileEnd(p);
              var lost := marks != [] && NoLength(marks, end);
              var past := end.Some? && exists i :: 0 <= i < |marks| && marks[i].start.Some? &&
                                                   end.value <= marks[i].start.value;
              (r.held <==> lost && (end.None? || (past && !FitEarlier(marks, end.value)))) &&
              (lost && past && !r.held ==>
                 FitEarlier(marks, end.value) && AreChapters(Moved(marks), end, r.chapters) &&
                 |r.chapters| == |marks| && Tile(r.chapters, end.value)) &&
              (!lost || r.held ==> AreChapters(marks, end, r.chapters)) &&
              (r.held ==> r.chapters == [])
    ensures forall k :: 0 <= k < |r.chapters| ==> 0 <= r.chapters[k].startMs < r.chapters[k].endMs
  {
    r := RecordRead(0, [], false, false, false);
    if p.chapters.None? {
      return r.(why := true);
    }
    var marks := p.chapters.value;
    var end := EndOf(p);
    var chs := ChaptersOf(marks, end);
    NoneHasLength(marks, end);
    r := r.(found := |marks|, chapters := chs);
    if chs == [] && marks != [] {
      if end.None? {
        return r.(held := true);
      }
      if PastEnd(marks, end.value) {
        var moved, ok := Shifted(marks, end.value);
        if ok {
          return r.(chapters := moved);
        }
        return r.(held := true);
      }
    }
  }
}
