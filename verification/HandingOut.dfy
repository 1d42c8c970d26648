/**
 The backfill's hand-out over the reads' table: which titles wait to be handed out, and what looking for their originals
 in turn makes of their rows.
 */
module HandingOut {
  import opened Wrappers
  import opened Sets
  import opened Chapters
  import opened Reads
  import opened Pace

  /** A title that may miss its chapters, as the hand-out lists it: of its current original. */
  datatype Listed = Listed(id: ItemId, source: SourceId)

  /** What looking for an original found: it is there; there is none; the storage did not answer the look, or was not
      asked. */
  datatype Look = There | NotFound | Slow | Unasked

  datatype Job = Job(id: ItemId, source: SourceId, token: string)

  /** The title may be handed out: it misses its chapters, its record was read and can't say, it is not claimed, given
      up, held, or waiting. */
  predicate Waiting(t: Title, source: SourceId, recordsOff: bool, now: Time) {
    !t.Settled(Some(source)) &&
    (recordsOff || t.read.recordSourceId == Some(source)) && t.read.state != StateUnreadable &&
    !t.read.HeldOf(Some(source)) && t.read.claimedAt.None? &&
    (t.read.nextAttemptAt.None? || t.read.nextAttemptAt.value <= now)
  }

  ghost predicate Distinct(listing: seq<Listed>) {
    forall i, j :: 0 <= i < j < |listing| ==> listing[i].id != listing[j].id
  }

  type Rows = map<ItemId, Read>

  function RowOf(rows: Rows, id: ItemId): Read {
    if id in rows then rows[id] else Fresh
  }

  function TitleIn(rows: Rows, chapters: map<ItemId, seq<Chapter>>, id: ItemId): Title {
    Title(RowOf(rows, id), if id in chapters then chapters[id] else [])
  }

  function ClaimedIn(rows: Rows): set<ItemId> {
    set id | id in rows && rows[id].claimedAt.Some?
  }

  function Min(a: int, b: int): int {
    if a < b then a else b
  }

  function Entries(items: seq<Job>, now: Time): (log: seq<Entry>)
    ensures |log| == |items| && forall i :: 0 <= i < |log| ==> log[i] == Entry(items[i].id, now)
  {
    seq(|items|, i requires 0 <= i < |items| => Entry(items[i].id, now))
  }

  // ---- claims whose lease ended

  function ExpiredRows(rows: Rows, now: Time, lease: Time): Rows {
    map id | id in rows :: ExpiredRow(rows[id], now, lease)
  }

  /** Taking claims back leaves no more of them, and none as old as the lease. */
  lemma ExpiredClaims(rows: Rows, now: Time, lease: Time)
    ensures var after := ExpiredRows(rows, now, lease);
            ClaimedIn(after) <= ClaimedIn(rows) && |ClaimedIn(after)| <= |ClaimedIn(rows)| &&
            forall id :: id in ClaimedIn(after) ==> after[id] == rows[id] && after[id].claimedAt.value > now - lease
  {
    SmallerSet(ClaimedIn(ExpiredRows(rows, now, lease)), ClaimedIn(rows));
  }

  // ---- which titles are looked for

  /** How many titles may be handed out, of limit asked for: none without room in flight and in the hour, else what both
      leave. */
  function MostOf(inflight: nat, rate: nat, limit: int, claimed: nat, recent: nat): (n: nat)
    ensures n > 0 <==> claimed < inflight && recent < rate
    ensures n <= Max(limit, 1) && (n > 0 ==> claimed + n <= inflight && recent + n <= rate)
    ensures n > 0 ==> n == Max(limit, 1) || claimed + n == inflight || recent + n == rate
  {
    if claimed >= inflight || recent >= rate then 0 else Min(Max(limit, 1), Min(inflight - claimed, rate - recent))
  }

  /** The first titles of the listing that may be handed out, at most most. */
  function CandidatesIn(rows: Rows, chapters: map<ItemId, seq<Chapter>>, listing: seq<Listed>, recordsOff: bool,
                        now: Time, most: nat): seq<Listed>
  {
    if listing == [] then []
    else
      var cs, c := CandidatesIn(rows, chapters, listing[..|listing| - 1], recordsOff, now, most),
          listing[|listing| - 1];
      if |cs| < most && Waiting(TitleIn(rows, chapters, c.id), c.source, recordsOff, now) then cs + [c] else cs
  }

  lemma {:induction false} CandidatesListed(rows: Rows, chapters: map<ItemId, seq<Chapter>>, listing: seq<Listed>,
                                            recordsOff: bool, now: Time, most: nat, c: Listed)
    requires c in CandidatesIn(rows, chapters, listing, recordsOff, now, most)
    ensures c in listing && Waiting(TitleIn(rows, chapters, c.id), c.source, recordsOff, now)
  {
    var front := listing[..|listing| - 1];
    if c in CandidatesIn(rows, chapters, front, recordsOff, now, most) {
      CandidatesListed(rows, chapters, front, recordsOff, now, most, c);
    }
  }

  lemma {:induction false} CandidatesAll(rows: Rows, chapters: map<ItemId, seq<Chapter>>, listing: seq<Listed>,
                                         recordsOff: bool, now: Time, most: nat, c: Listed)
    requires c in listing && Waiting(TitleIn(rows, chapters, c.id), c.source, recordsOff, now)
    ensures var cs := CandidatesIn(rows, chapters, listing, recordsOff, now, most);
            |cs| <= most && (c in cs || |cs| == most)
  {
    var front := listing[..|listing| - 1];
    CandidatesBounded(rows, chapters, front, recordsOff, now, most);
    if c in front {
      CandidatesAll(rows, chapters, front, recordsOff, now, most, c);
    }
  }

  lemma {:induction false} CandidatesBounded(rows: Rows, chapters: map<ItemId, seq<Chapter>>, listing: seq<Listed>,
                                             recordsOff: bool, now: Time, most: nat)
    ensures |CandidatesIn(rows, chapters, listing, recordsOff, now, most)| <= most
  {
    if listing != [] {
      CandidatesBounded(rows, chapters, listing[..|listing| - 1], recordsOff, now, most);
    }
  }

  lemma {:induction false} CandidatesDistinct(rows: Rows, chapters: map<ItemId, seq<Chapter>>, listing: seq<Listed>,
                                              recordsOff: bool, now: Time, most: nat)
    requires Distinct(listing)
    ensures Distinct(CandidatesIn(rows, chapters, listing, recordsOff, now, most))
  {
    if listing != [] {
      var front, last := listing[..|listing| - 1], listing[|listing| - 1];
      var cs := CandidatesIn(rows, chapters, front, recordsOff, now, most);
      CandidatesDistinct(rows, chapters, front, recordsOff, now, most);
      forall k | 0 <= k < |cs| ensures cs[k].id != last.id {
        CandidatesListed(rows, chapters, front, recordsOff, now, most, cs[k]);
        var j :| 0 <= j < |front| && front[j] == cs[k];
        assert listing[j] == cs[k];
      }
    }
  }

  /** The candidates are listed titles that wait, each once, and leave one that waits only behind most of them. */
  lemma CandidatesWait(rows: Rows, chapters: map<ItemId, seq<Chapter>>, listing: seq<Listed>, recordsOff: bool,
                       now: Time, most: nat)
    requires Distinct(listing)
    ensures var cs := CandidatesIn(rows, chapters, listing, recordsOff, now, most);
            Distinct(cs) && |cs| <= most &&
            (forall c :: c in cs ==>
                           c in listing && Waiting(TitleIn(rows, chapters, c.id), c.source, recordsOff, now)) &&
            (forall c :: c in listing && Waiting(TitleIn(rows, chapters, c.id), c.source, recordsOff, now) ==>
                           c in cs || |cs| == most)
  {
    CandidatesDistinct(rows, chapters, listing, recordsOff, now, most);
    CandidatesBounded(rows, chapters, listing, recordsOff, now, most);
    forall c | c in CandidatesIn(rows, chapters, listing, recordsOff, now, most)
      ensures c in listing && Waiting(TitleIn(rows, chapters, c.id), c.source, recordsOff, now)
    {
      CandidatesListed(rows, chapters, listing, recordsOff, now, most, c);
    }
    forall c | c in listing && Waiting(TitleIn(rows, chapters, c.id), c.source, recordsOff, now)
      ensures c in CandidatesIn(rows, chapters, listing, recordsOff, now, most) ||
              |CandidatesIn(rows, chapters, listing, recordsOff, now, most)| == most
    {
      CandidatesAll(rows, chapters, listing, recordsOff, now, most, c);
    }
  }

  /** A title that waits is passed over for none listed after it. */
  lemma {:induction false} CandidatesFirst(rows: Rows, chapters: map<ItemId, seq<Chapter>>, listing: seq<Listed>,
                                           recordsOff: bool, now: Time, most: nat, i: nat, j: nat)
    requires Distinct(listing) && i < j < |listing|
    requires Waiting(TitleIn(rows, chapters, listing[i].id), listing[i].source, recordsOff, now)
    requires listing[j] in CandidatesIn(rows, chapters, listing, recordsOff, now, most)
    ensures listing[i] in CandidatesIn(rows, chapters, listing, recordsOff, now, most)
  {
    var front := listing[..|listing| - 1];
    CandidatesWait(rows, chapters, front, recordsOff, now, most);
    assert front[i] == listing[i];
    if j < |listing| - 1 {
      assert front[j] == listing[j] && listing[j].id != listing[|listing| - 1].id;
      CandidatesFirst(rows, chapters, front, recordsOff, now, most, i, j);
    } else {
      assert forall k :: 0 <= k < |front| ==> front[k] == listing[k] && front[k] != listing[j];
    }
  }

  // ---- looking for originals

  /** The rows, the titles handed out so far, and those whose original was not there. */
  datatype Hand = Hand(rows: Rows, items: seq<Job>, absent: set<ItemId>)

  function LookOf(looks: map<ItemId, Look>, id: ItemId): Look {
    if id in looks then looks[id] else NotFound
  }

  function GiveTo(h: Hand, c: Listed, token: string, now: Time): Hand {
    Hand(h.rows[c.id := HandedOutRow(RowOf(h.rows, c.id), token, now)], h.items + [Job(c.id, c.source, token)],
         h.absent)
  }

  function Lose(h: Hand, c: Listed, now: Time): Hand {
    Hand(h.rows[c.id := NotThereRow(RowOf(h.rows, c.id), now)], h.items, h.absent + {c.id})
  }

  /** The hand after the originals of cs were looked for in turn, n titles handed out at most. */
  function Handed(h: Hand, cs: seq<Listed>, looks: map<ItemId, Look>, uuid: nat -> string, n: nat, now: Time): Hand
    decreases |cs|
  {
    if cs == [] || |h.items| >= n then h
    else
      match LookOf(looks, cs[0].id)
      case Unasked => h
      case Slow => Lose(h, cs[0], now)
      case NotFound => Handed(Lose(h, cs[0], now), cs[1..], looks, uuid, n, now)
      case There => Handed(GiveTo(h, cs[0], uuid(|h.items|), now), cs[1..], looks, uuid, n, now)
  }

  lemma GiveClaims(h: Hand, c: Listed, token: string, now: Time)
    ensures var g := GiveTo(h, c, token, now);
            |ClaimedIn(g.rows)| <= |ClaimedIn(h.rows)| + 1 && g.rows[c.id].claimedAt == Some(now) &&
            forall id :: id in ClaimedIn(g.rows) && id != c.id ==> id in ClaimedIn(h.rows) && g.rows[id] == h.rows[id]
  {
    assert ClaimedIn(GiveTo(h, c, token, now).rows) == ClaimedIn(h.rows) + {c.id};
  }

  lemma LoseClaims(h: Hand, c: Listed, now: Time)
    ensures var g := Lose(h, c, now);
            ClaimedIn(g.rows) == ClaimedIn(h.rows) &&
            forall id :: id in ClaimedIn(h.rows) ==> g.rows[id].claimedAt == h.rows[id].claimedAt
  {
  }

  /** The claims grow by the titles handed out, each claimed now. */
  lemma {:induction false} HandedClaims(h: Hand, cs: seq<Listed>, looks: map<ItemId, Look>, uuid: nat -> string, n: nat,
                                        now: Time, since: Time)
    requires since < now && |h.items| <= n
    requires forall id :: id in ClaimedIn(h.rows) ==> h.rows[id].claimedAt.value > since
    ensures var g := Handed(h, cs, looks, uuid, n, now);
            h.items <= g.items && |g.items| <= n &&
            |ClaimedIn(g.rows)| <= |ClaimedIn(h.rows)| + |g.items| - |h.items| &&
            forall id :: id in ClaimedIn(g.rows) ==> g.rows[id].claimedAt.value > since
    decreases |cs|
  {
    if cs != [] && |h.items| < n && LookOf(looks, cs[0].id) != Unasked {
      var there := LookOf(looks, cs[0].id) == There;
      var g := if there then GiveTo(h, cs[0], uuid(|h.items|), now) else Lose(h, cs[0], now);
      if there {
        GiveClaims(h, cs[0], uuid(|h.items|), now);
      } else {
        LoseClaims(h, cs[0], now);
      }
      if LookOf(looks, cs[0].id) != Slow {
        HandedClaims(g, cs[1..], looks, uuid, n, now, since);
      }
    }
  }

  /** The token a title was handed out under. */
  function TokenOf(items: seq<Job>, id: ItemId): Option<string> {
    if items == [] then None
    else if items[|items| - 1].id == id then Some(items[|items| - 1].token)
    else TokenOf(items[..|items| - 1], id)
  }

  predicate Untouched(h: Hand, id: ItemId) {
    TokenOf(h.items, id).None? && id !in h.absent
  }

  /** A row after the looks: handed out under its token, waiting its backoff, or as it was. */
  function LookedRow(r: Read, token: Option<string>, absent: bool, now: Time): Read {
    if token.Some? then HandedOutRow(r, token.value, now) else if absent then NotThereRow(r, now) else r
  }

  /** Each title is handed out or waits at most once, whichever the hand says, and every other row stays as it is. */
  lemma {:induction false} HandedRow(h: Hand, cs: seq<Listed>, looks: map<ItemId, Look>, uuid: nat -> string, n: nat,
                                     now: Time, id: ItemId)
    requires Distinct(cs) && forall k :: 0 <= k < |cs| ==> cs[k].id == id ==> Untouched(h, id)
    ensures var g := Handed(h, cs, looks, uuid, n, now);
            if Untouched(h, id) then
              RowOf(g.rows, id) == LookedRow(RowOf(h.rows, id), TokenOf(g.items, id), id in g.absent, now) &&
              (!Untouched(g, id) ==> exists k :: 0 <= k < |cs| && cs[k].id == id) &&
              !(TokenOf(g.items, id).Some? && id in g.absent)
            else RowOf(g.rows, id) == RowOf(h.rows, id) && TokenOf(g.items, id) == TokenOf(h.items, id) &&
                 (id in g.absent <==> id in h.absent)
    decreases |cs|
  {
    if cs != [] && |h.items| < n && LookOf(looks, cs[0].id) != Unasked {
      var there := LookOf(looks, cs[0].id) == There;
      var g := if there then GiveTo(h, cs[0], uuid(|h.items|), now) else Lose(h, cs[0], now);
      assert there ==> g.items[..|g.items| - 1] == h.items;
      if LookOf(looks, cs[0].id) != Slow {
        HandedRow(g, cs[1..], looks, uuid, n, now, id);
      }
    }
  }

  /** Every title handed out was a candidate whose original was there, under the next new token. */
  lemma {:induction false} HandedJobs(h: Hand, cs: seq<Listed>, looks: map<ItemId, Look>, uuid: nat -> string, n: nat,
                                      now: Time, k: nat)
    requires |h.items| <= k < |Handed(h, cs, looks, uuid, n, now).items|
    ensures var j := Handed(h, cs, looks, uuid, n, now).items[k];
            j.token == uuid(k) && Listed(j.id, j.source) in cs && LookOf(looks, j.id) == There
    decreases |cs|
  {
    if cs != [] && |h.items| < n && LookOf(looks, cs[0].id) in {There, NotFound} {
      var there := LookOf(looks, cs[0].id) == There;
      var g := if there then GiveTo(h, cs[0], uuid(|h.items|), now) else Lose(h, cs[0], now);
      if k >= |g.items| {
        HandedJobs(g, cs[1..], looks, uuid, n, now, k);
      } else {
        HandedKeeps(g, cs[1..], looks, uuid, n, now);
      }
    }
  }

  lemma {:induction false} HandedKeeps(h: Hand, cs: seq<Listed>, looks: map<ItemId, Look>, uuid: nat -> string, n: nat,
                                       now: Time)
    ensures h.items <= Handed(h, cs, looks, uuid, n, now).items
    decreases |cs|
  {
    if cs != [] && |h.items| < n && LookOf(looks, cs[0].id) in {There, NotFound} {
      HandedKeeps(if LookOf(looks, cs[0].id) == There then GiveTo(h, cs[0], uuid(|h.items|), now)
                  else Lose(h, cs[0], now),
                  cs[1..], looks, uuid, n, now);
    }
  }

  /** Every candidate is handed out or waits, but where n were handed out or the storage did not answer a look. */
  lemma {:induction false} HandedAll(h: Hand, cs: seq<Listed>, looks: map<ItemId, Look>, uuid: nat -> string, n: nat,
                                     now: Time, k: nat)
    requires Distinct(cs) && k < |cs|
    ensures var g := Handed(h, cs, looks, uuid, n, now);
            !Untouched(g, cs[k].id) || |g.items| >= n ||
            exists i :: 0 <= i <= k && LookOf(looks, cs[i].id) in {Slow, Unasked}
    decreases |cs|
  {
    if |h.items| < n && LookOf(looks, cs[0].id) in {There, NotFound} {
      var there := LookOf(looks, cs[0].id) == There;
      var g := if there then GiveTo(h, cs[0], uuid(|h.items|), now) else Lose(h, cs[0], now);
      assert there ==> g.items[..|g.items| - 1] == h.items;
      if k == 0 {
        StaysTouched(g, cs[1..], looks, uuid, n, now, cs[0].id);
      } else {
        HandedAll(g, cs[1..], looks, uuid, n, now, k - 1);
        if i :| 0 <= i <= k - 1 && LookOf(looks, cs[1..][i].id) in {Slow, Unasked} {
          assert cs[i + 1] == cs[1..][i];
        }
      }
    }
  }

  lemma {:induction false} StaysTouched(h: Hand, cs: seq<Listed>, looks: map<ItemId, Look>, uuid: nat -> string, n: nat,
                                        now: Time, id: ItemId)
    requires !Untouched(h, id)
    ensures !Untouched(Handed(h, cs, looks, uuid, n, now), id)
    decreases |cs|
  {
    if cs != [] && |h.items| < n && LookOf(looks, cs[0].id) != Unasked {
      var there := LookOf(looks, cs[0].id) == There;
      var g := if there then GiveTo(h, cs[0], uuid(|h.items|), now) else Lose(h, cs[0], now);
      assert there ==> g.items[..|g.items| - 1] == h.items;
      if LookOf(looks, cs[0].id) != Slow {
        StaysTouched(g, cs[1..], looks, uuid, n, now, id);
      }
    }
  }

  /** What a look that goes on makes of the hand. */
  function Looked(h: Hand, c: Listed, looks: map<ItemId, Look>, uuid: nat -> string, now: Time): Hand {
    if LookOf(looks, c.id) == There then GiveTo(h, c, uuid(|h.items|), now) else Lose(h, c, now)
  }

  lemma OthersUntouched(h: Hand, c: Listed, looks: map<ItemId, Look>, uuid: nat -> string, now: Time, id: ItemId)
    requires Untouched(h, id) && id != c.id
    ensures Untouched(Looked(h, c, looks, uuid, now), id)
  {
    if LookOf(looks, c.id) == There {
      var items := GiveTo(h, c, uuid(|h.items|), now).items;
      assert items[..|items| - 1] == h.items;
    }
  }

  /** Past an original the storage did not answer for, or was not asked for, no candidate is handed out or made to wait;
      one not asked for is as it was. */
  lemma {:induction false} NoneAfterSlow(h: Hand, cs: seq<Listed>, looks: map<ItemId, Look>, uuid: nat -> string,
                                         n: nat, now: Time, i: nat, k: nat)
    requires Distinct(cs) && i <= k < |cs| && LookOf(looks, cs[i].id) in {Slow, Unasked}
    requires (i == k ==> LookOf(looks, cs[i].id) == Unasked) && Untouched(h, cs[k].id)
    ensures Untouched(Handed(h, cs, looks, uuid, n, now), cs[k].id)
    decreases |cs|
  {
    if |h.items| >= n || LookOf(looks, cs[0].id) == Unasked {
      assert Handed(h, cs, looks, uuid, n, now) == h;
    } else {
      assert k > 0 && cs[0].id != cs[k].id;
      var g := Looked(h, cs[0], looks, uuid, now);
      OthersUntouched(h, cs[0], looks, uuid, now, cs[k].id);
      if LookOf(looks, cs[0].id) == Slow {
        assert Handed(h, cs, looks, uuid, n, now) == g;
      } else {
        assert Handed(h, cs, looks, uuid, n, now) == Handed(g, cs[1..], looks, uuid, n, now);
        assert cs[1..][i - 1] == cs[i] && cs[1..][k - 1] == cs[k];
        NoneAfterSlow(g, cs[1..], looks, uuid, n, now, i - 1, k - 1);
      }
    }
  }

  /** Only titles whose original was not there, or was not answered for, wait for it. */
  lemma {:induction false} LostWereAway(h: Hand, cs: seq<Listed>, looks: map<ItemId, Look>, uuid: nat -> string, n: nat,
                                        now: Time, id: ItemId)
    requires id in Handed(h, cs, looks, uuid, n, now).absent && id !in h.absent
    ensures LookOf(looks, id) in {NotFound, Slow}
    decreases |cs|
  {
    if LookOf(looks, cs[0].id) in {There, NotFound} && cs[0].id != id {
      LostWereAway(if LookOf(looks, cs[0].id) == There then GiveTo(h, cs[0], uuid(|h.items|), now)
                   else Lose(h, cs[0], now),
                   cs[1..], looks, uuid, n, now, id);
    } else if LookOf(looks, cs[0].id) == There {
      LostWereAway(GiveTo(h, cs[0], uuid(|h.items|), now), cs[1..], looks, uuid, n, now, id);
    }
  }
}
