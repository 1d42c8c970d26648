/** The backfill's log of titles handed out, and how many of them any hour holds. */
module Pace {
  import opened Records
  import opened Reads

  type ItemId = string

  datatype Entry = Entry(id: ItemId, at: Time)

  /** How many were handed out after lo and until hi. */
  function CountIn(log: seq<Entry>, lo: Time, hi: Time): (n: nat)
    ensures n <= |log|
  {
    if log == [] then 0
    else CountIn(log[..|log| - 1], lo, hi) + if lo < log[|log| - 1].at <= hi then 1 else 0
  }

  lemma {:induction false} CountSplits(a: seq<Entry>, b: seq<Entry>, lo: Time, hi: Time)
    ensures CountIn(a + b, lo, hi) == CountIn(a, lo, hi) + CountIn(b, lo, hi)
  {
    if b == [] {
      assert a + b == a;
    } else {
      assert (a + b)[..|a + b| - 1] == a + b[..|b| - 1];
      CountSplits(a, b[..|b| - 1], lo, hi);
    }
  }

  /** A log whose every entry inside one span lies inside the other counts no more. */
  lemma {:induction false} CountWithin(log: seq<Entry>, lo: Time, hi: Time, lo2: Time, hi2: Time)
    requires forall i :: 0 <= i < |log| && lo < log[i].at <= hi ==> lo2 < log[i].at <= hi2
    ensures CountIn(log, lo, hi) <= CountIn(log, lo2, hi2)
  {
    if log != [] {
      CountWithin(log[..|log| - 1], lo, hi, lo2, hi2);
    }
  }

  lemma {:induction false} CountNone(log: seq<Entry>, lo: Time, hi: Time)
    requires forall i :: 0 <= i < |log| ==> !(lo < log[i].at <= hi)
    ensures CountIn(log, lo, hi) == 0
  {
    if log != [] {
      CountNone(log[..|log| - 1], lo, hi);
    }
  }

  function InHourAfter(log: seq<Entry>, a: Time): nat {
    CountIn(log, a, a + HOUR)
  }

  /** In every span of an hour at most rate titles were handed out. */
  ghost predicate Paced(log: seq<Entry>, rate: nat) {
    forall a: Time :: InHourAfter(log, a) <= rate
  }

  ghost predicate Until(log: seq<Entry>, clock: Time) {
    forall i :: 0 <= i < |log| ==> log[i].at <= clock
  }

  /** Holding the last hour to the rate as titles are handed out holds every hour to it. */
  lemma HandingOutPaced(log: seq<Entry>, more: seq<Entry>, now: Time, rate: nat)
    requires Paced(log, rate) && Until(log, now) && forall i :: 0 <= i < |more| ==> more[i].at == now
    requires more != [] ==> CountIn(log, now - HOUR, now) + |more| <= rate
    ensures Paced(log + more, rate)
  {
    forall a: Time ensures InHourAfter(log + more, a) <= rate {
      assert InHourAfter(log, a) <= rate;
      CountSplits(log, more, a, a + HOUR);
      if more != [] && a < now <= a + HOUR {
        CountWithin(log, a, a + HOUR, now - HOUR, now);
      } else {
        CountNone(more, a, a + HOUR);
      }
    }
  }

  /** A span that includes its first moment and not its last holds no more either. */
  lemma PacedHalfOpen(log: seq<Entry>, rate: nat, a: Time, b: Time)
    requires Paced(log, rate) && b <= a + HOUR
    ensures CountIn(log, a - 1, b - 1) <= rate
  {
    assert InHourAfter(log, a - 1) <= rate;
    CountWithin(log, a - 1, b - 1, a - 1, a - 1 + HOUR);
  }

  /** The log without the entries before t. */
  function Since(log: seq<Entry>, t: Time): seq<Entry> {
    if log == [] then []
    else Since(log[..|log| - 1], t) + if log[|log| - 1].at < t then [] else [log[|log| - 1]]
  }

  lemma {:induction false} SinceCounts(log: seq<Entry>, t: Time, lo: Time, hi: Time)
    requires t <= lo
    ensures CountIn(Since(log, t), lo, hi) == CountIn(log, lo, hi)
  {
    if log != [] {
      var last := log[|log| - 1];
      var rest := Since(log[..|log| - 1], t);
      SinceCounts(log[..|log| - 1], t, lo, hi);
      if last.at < t {
        assert Since(log, t) == rest;
      } else {
        assert Since(log, t)[..|rest|] == rest;
      }
    }
  }

  /** The log kept tells of any span from its start on as many as were ever handed out. */
  ghost predicate Tells(kept: seq<Entry>, all: seq<Entry>, start: Time) {
    forall lo: Time, hi: Time :: start <= lo ==> CountIn(kept, lo, hi) == CountIn(all, lo, hi)
  }

  lemma StartsLater(kept: seq<Entry>, all: seq<Entry>, start: Time, t: Time)
    requires Tells(kept, all, start) && start <= t
    ensures Tells(kept, all, t)
  {
  }

  lemma SinceTells(kept: seq<Entry>, all: seq<Entry>, start: Time, t: Time)
    requires Tells(kept, all, start) && start <= t
    ensures Tells(Since(kept, t), all, t)
  {
    forall lo: Time, hi: Time | t <= lo ensures CountIn(Since(kept, t), lo, hi) == CountIn(all, lo, hi) {
      SinceCounts(kept, t, lo, hi);
      assert CountIn(kept, lo, hi) == CountIn(all, lo, hi);
    }
  }

  lemma MoreTells(kept: seq<Entry>, all: seq<Entry>, more: seq<Entry>, start: Time)
    requires Tells(kept, all, start)
    ensures Tells(kept + more, all + more, start)
  {
    forall lo: Time, hi: Time | start <= lo ensures CountIn(kept + more, lo, hi) == CountIn(all + more, lo, hi) {
      CountSplits(kept, more, lo, hi);
      CountSplits(all, more, lo, hi);
      assert CountIn(kept, lo, hi) == CountIn(all, lo, hi);
    }
  }
}
