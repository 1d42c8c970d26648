/** What an admin's decision leaves of a title: which chapters it has, whose they are, and what may be taken back. */
module Admins {
  import opened Wrappers
  import opened Chapters
  import opened Records
  import opened Reads
  import opened ReadRuns
  import opened Arrivals

  /** A decision is refused, and changes nothing, but of an unreadable or held title of the current original: an
      unreadable one's chapters may be kept, a held one's kept or given up for a record's that could be read, or that
      holds. */
  lemma RefusedExactly(t: Title, side: Side, current: Option<SourceId>, rec: RecordRead, at: Time)
    ensures CanAccept(t, side, current, rec) <==>
            current.Some? && t.read.sourceId == current &&
            match t.read.state
            case StateUnreadable => side == TakeCatalog
            case StateHeld => side == TakeCatalog || Clear(rec) || rec.held
            case _ => false
    ensures !CanAccept(t, side, current, rec) ==> Accepted(t, side, current, rec, at) == t
  {
  }

  /** An unreadable title accepted is left as it is, but for when. */
  lemma UnreadableAccepted(t: Title, current: Option<SourceId>, rec: RecordRead, at: Time)
    requires t.read.state == StateUnreadable && current.Some? && t.read.sourceId == current
    ensures Accepted(t, TakeCatalog, current, rec, at) == t.(read := t.read.(acceptedAt := Some(at)))
  {
  }

  /** The title is settled as current's by an admin: known to have none where it has no chapters, else read. */
  predicate SettledAs(u: Title, current: Option<SourceId>, from: Reader, at: Time) {
    (if u.chapters == [] then KnownNone(u, current) && u.read.rowsSourceId.None?
     else u.read.state == StateRead && !u.read.confirmed && u.read.sourceId == u.read.rowsSourceId == current) &&
    u.read.readFrom == Some(from) && u.read.written == Some(|u.chapters|) && u.read.acceptedAt == Some(at) &&
    u.read.nextAttemptAt.None?
  }

  /** A held title accepted as the catalog has it keeps its chapters and what may be taken back: they are the current
      original's now, and it is known to have none only where there are none. */
  lemma CatalogAccepted(t: Title, current: Option<SourceId>, rec: RecordRead, at: Time)
    requires Sound(t) && t.read.state == StateHeld && current.Some? && t.read.sourceId == current
    ensures var u := Accepted(t, TakeCatalog, current, rec, at);
            u.chapters == t.chapters && u.read.replaced == t.read.replaced && SettledAs(u, current, FromCatalog, at)
  {
  }

  /** A held title accepted as its record has it gets the record's chapters, or none where the record holds them, and
      those it had may be taken back: they then come back, but where the same within a millisecond stay, which chapters
      listed in their order never do. */
  lemma RecordAccepted(t: Title, current: Option<SourceId>, rec: RecordRead, at: Time, again: Option<SourceId>,
                       later: Time)
    requires Sound(t) && t.read.state == StateHeld && current.Some? && t.read.sourceId == current
    requires Clear(rec) || rec.held
    ensures var u, got := Accepted(t, TakeRecord, current, rec, at), if Clear(rec) then rec.chapters else [];
            Given(t, u, got) && SettledAs(u, current, FromRecord, at) &&
            (t.chapters != [] && u.chapters != t.chapters ==>
               CanRevert(u) &&
               (Reverted(u, again, later).chapters == t.chapters <==> !Same(u.chapters, t.chapters)) &&
               (Ordered(got) ==> Reverted(u, again, later).chapters == t.chapters))
  {
    var u, got := Accepted(t, TakeRecord, current, rec, at), if Clear(rec) then rec.chapters else [];
    StoredStays(t.chapters);
    if t.chapters != [] && u.chapters != t.chapters && Ordered(got) {
      KeptInOrder(got);
      SameOfCleaned(t.chapters, got);
    }
  }

  /** A reversal gives the title back the chapters replaced last, where there are some: what it had may then be taken
      back in turn, where it had some. */
  lemma RevertLeaves(t: Title, current: Option<SourceId>, at: Time)
    requires Sound(t)
    ensures var u := Reverted(t, current, at);
            if t.read.replaced.None? then u == t
            else
              Given(t.(read := t.read.(replaced := if t.chapters == [] then None else t.read.replaced)), u,
                    t.read.replaced.value.chapters) &&
              u.read.state == StateRead && !u.read.confirmed && u.read.sourceId == u.read.rowsSourceId == current &&
              u.read.readFrom == Some(FromCatalog) && u.read.written == Some(|u.chapters|) &&
              u.read.acceptedAt == Some(at) && u.read.nextAttemptAt.None?
  {
    if t.read.replaced.Some? {
      StoredStays(t.read.replaced.value.chapters);
    }
  }
}
