/**
 Publishing a batch of events with retries (Producer.publish, internal/events/events.go): a worklist of the messages not
 written yet, written again until all are, six times at most.
 */
module Publishing {
  import opened Wrappers

  const EMIT_ATTEMPTS := 6

  type Error = string

  const NO_BUS: Error := "no bus"

  /** What the writer says of a batch: all of it was written, each message's own error, or one error of the batch. */
  datatype Written = AllWritten | Each(errs: seq<Option<Error>>) | Refused(err: Error)

  /** The error of the batch's j-th message, none for one written; errors that are not one a message refuse them all. */
  function ErrorOf(w: Written, size: nat, j: nat): Option<Error>
    requires j < size
  {
    match w
    case AllWritten => None
    case Each(errs) => if |errs| == size then errs[j] else Some("write errors")
    case Refused(err) => Some(err)
  }

  /** The messages among the batch's first n that the writer did not report written. */
  function Failed(batch: seq<nat>, w: Written, n: nat): seq<nat>
    requires n <= |batch|
  {
    if n == 0 then []
    else Failed(batch, w, n - 1) + if ErrorOf(w, |batch|, n - 1).Some? then [batch[n - 1]] else []
  }

  function Unwritten(batch: seq<nat>, w: Written): seq<nat> {
    Failed(batch, w, |batch|)
  }

  predicate Rising(s: seq<nat>) {
    forall i, j :: 0 <= i < j < |s| ==> s[i] < s[j]
  }

  /** The writer reported message i of the batch written. */
  ghost predicate Reports(batch: seq<nat>, w: Written, i: nat) {
    exists j :: 0 <= j < |batch| && batch[j] == i && ErrorOf(w, |batch|, j).None?
  }

  lemma {:induction false} FailedIsRest(batch: seq<nat>, w: Written, n: nat)
    requires Rising(batch) && n <= |batch|
    ensures Rising(Failed(batch, w, n))
    ensures forall x :: x in Failed(batch, w, n) <==>
                        exists j :: 0 <= j < n && batch[j] == x && ErrorOf(w, |batch|, j).Some?
  {
    if n > 0 {
      FailedIsRest(batch, w, n - 1);
      var was := Failed(batch, w, n - 1);
      forall x | x in was ensures x < batch[n - 1] {
        var j :| 0 <= j < n - 1 && batch[j] == x && ErrorOf(w, |batch|, j).Some?;
      }
      RisingAppend(was, batch[n - 1]);
    }
  }

  lemma RisingAppend(s: seq<nat>, x: nat)
    requires Rising(s) && forall y :: y in s ==> y < x
    ensures Rising(s + [x])
  {
    forall j | 0 <= j < |s| ensures s[j] < x {
      assert s[j] in s;
    }
  }

  /** What is left of a batch is, in its order, exactly what the writer did not report written. */
  lemma UnwrittenIsRest(batch: seq<nat>, w: Written, i: nat)
    requires Rising(batch)
    ensures Rising(Unwritten(batch, w)) && |Unwritten(batch, w)| <= |batch|
    ensures i in Unwritten(batch, w) <==> i in batch && !Reports(batch, w, i)
  {
    FailedIsRest(batch, w, |batch|);
    FailedShrinks(batch, w, |batch|);
    if i in batch {
      var j :| 0 <= j < |batch| && batch[j] == i;
      assert forall k :: 0 <= k < |batch| && batch[k] == i ==> k == j;
    }
  }

  lemma {:induction false} FailedShrinks(batch: seq<nat>, w: Written, n: nat)
    requires n <= |batch|
    ensures |Failed(batch, w, n)| <= n
  {
    if n > 0 {
      FailedShrinks(batch, w, n - 1);
    }
  }

  /** Nothing is left of a batch all of which was written, all of it where it was refused or its errors are not one a
      message, and else the messages that have an error. */
  lemma LeftIs(batch: seq<nat>, w: Written, j: nat)
    requires Rising(batch) && j < |batch|
    ensures batch[j] in Unwritten(batch, w) <==>
            match w
            case AllWritten => false
            case Refused(_) => true
            case Each(errs) => |errs| != |batch| || errs[j].Some?
  {
    FailedIsRest(batch, w, |batch|);
    forall k | 0 <= k < |batch| && batch[k] == batch[j] ensures k == j {}
  }

  /** Each batch sent is what was left of the one before it. */
  ghost predicate Chain(batches: seq<seq<nat>>, writer: (nat, seq<nat>) -> Written) {
    forall k :: 0 < k < |batches| ==> batches[k] == LeftAfter(batches, writer, k - 1)
  }

  function LeftAfter(batches: seq<seq<nat>>, writer: (nat, seq<nat>) -> Written, k: nat): seq<nat>
    requires k < |batches|
  {
    Unwritten(batches[k], writer(k, batches[k]))
  }

  ghost predicate ReportedBy(batches: seq<seq<nat>>, writer: (nat, seq<nat>) -> Written, n: nat, i: nat)
    requires n <= |batches|
  {
    exists k :: 0 <= k < n && Reports(batches[k], writer(k, batches[k]), i)
  }

  /** A message is sent in a batch exactly when it was in the first and none before reported it written. */
  lemma {:induction false} SentUntilWritten(batches: seq<seq<nat>>, writer: (nat, seq<nat>) -> Written, k: nat, i: nat)
    requires Chain(batches, writer) && k < |batches| && Rising(batches[0])
    ensures Rising(batches[k])
    ensures i in batches[k] <==> i in batches[0] && !ReportedBy(batches, writer, k, i)
  {
    if k > 0 {
      SentUntilWritten(batches, writer, k - 1, i);
      UnwrittenIsRest(batches[k - 1], writer(k - 1, batches[k - 1]), i);
      assert batches[k] == LeftAfter(batches, writer, k - 1);
      if ReportedBy(batches, writer, k, i) && !ReportedBy(batches, writer, k - 1, i) {
        assert Reports(batches[k - 1], writer(k - 1, batches[k - 1]), i);
      }
    }
  }

  /** No message reported written is sent again. */
  lemma WrittenOnce(batches: seq<seq<nat>>, writer: (nat, seq<nat>) -> Written, k: nat, l: nat, i: nat)
    requires Chain(batches, writer) && k < l < |batches| && Rising(batches[0])
    requires Reports(batches[k], writer(k, batches[k]), i)
    ensures i !in batches[l]
  {
    SentUntilWritten(batches, writer, l, i);
  }

  /** The places of the events that marshal, among the first n. */
  function Encodable(encoded: seq<bool>, n: nat): seq<nat>
    requires n <= |encoded|
  {
    if n == 0 then [] else Encodable(encoded, n - 1) + if encoded[n - 1] then [n - 1] else []
  }

  lemma {:induction false} EncodableIs(encoded: seq<bool>, n: nat)
    requires n <= |encoded|
    ensures Rising(Encodable(encoded, n))
    ensures forall i: nat :: i in Encodable(encoded, n) <==> i < n && encoded[i]
  {
    if n > 0 {
      EncodableIs(encoded, n - 1);
      RisingAppend(Encodable(encoded, n - 1), n - 1);
    }
  }

  /** The state of the worklist: the batches sent so far, what is left of the last, and the errors kept. */
  ghost predicate Worklist(encoded: seq<bool>, errs: seq<Option<Error>>, batches: seq<seq<nat>>, pending: seq<nat>,
                           writer: (nat, seq<nat>) -> Written)
  {
    && |errs| == |encoded| && Rising(pending) && Chain(batches, writer)
    && (forall k :: 0 <= k < |pending| ==> pending[k] < |errs|)
    && pending == (if batches == [] then Encodable(encoded, |encoded|) else LeftAfter(batches, writer, |batches| - 1))
    && (batches != [] ==> batches[0] == Encodable(encoded, |encoded|))
    && (forall i :: 0 <= i < |errs| ==> (errs[i].None? <==> encoded[i] && (batches == [] || i !in pending)))
  }

  /** One attempt more: the batch is sent, its errors kept, and the messages not written are left. */
  lemma Attempted(encoded: seq<bool>, was: seq<Option<Error>>, batches: seq<seq<nat>>, pending: seq<nat>,
                  writer: (nat, seq<nat>) -> Written, errs: seq<Option<Error>>)
    requires Worklist(encoded, was, batches, pending, writer) && |errs| == |was|
    requires ErrorsKept(was, pending, writer(|batches|, pending), errs)
    ensures Worklist(encoded, errs, batches + [pending], Unwritten(pending, writer(|batches|, pending)), writer)
  {
    var w := writer(|batches|, pending);
    var left := Unwritten(pending, w);
    FailedIsRest(pending, w, |pending|);
    ChainGrows(batches, pending, writer);
    forall k | 0 <= k < |left| ensures left[k] < |errs| {
      assert left[k] in left;
    }
    forall i | 0 <= i < |errs| ensures errs[i].None? <==> encoded[i] && i !in left {
      if i in pending {
        PendingEncodable(encoded, batches, pending, writer, i);
        PendingError(was, pending, w, errs, i);
      } else {
        assert errs[i] == was[i];
        PendingShrinks(encoded, batches, pending, writer, i);
      }
    }
  }

  /** The errors of an attempt's batch are kept, those of the other messages stay. */
  ghost predicate ErrorsKept(was: seq<Option<Error>>, pending: seq<nat>, w: Written, errs: seq<Option<Error>>)
    requires |errs| == |was| && forall k :: 0 <= k < |pending| ==> pending[k] < |was|
  {
    (forall i :: 0 <= i < |errs| && i !in pending ==> errs[i] == was[i]) &&
    forall k :: 0 <= k < |pending| ==> errs[pending[k]] == ErrorOf(w, |pending|, k)
  }

  lemma PendingError(was: seq<Option<Error>>, pending: seq<nat>, w: Written, errs: seq<Option<Error>>, i: nat)
    requires |errs| == |was| && (forall k :: 0 <= k < |pending| ==> pending[k] < |was|) && Rising(pending)
    requires ErrorsKept(was, pending, w, errs) && i in pending
    ensures errs[i].None? <==> i !in Unwritten(pending, w)
  {
    FailedIsRest(pending, w, |pending|);
    var j :| 0 <= j < |pending| && pending[j] == i;
    assert forall l :: 0 <= l < |pending| && pending[l] == i ==> l == j;
  }

  lemma ChainGrows(batches: seq<seq<nat>>, pending: seq<nat>, writer: (nat, seq<nat>) -> Written)
    requires Chain(batches, writer)
    requires batches != [] ==> pending == LeftAfter(batches, writer, |batches| - 1)
    ensures Chain(batches + [pending], writer)
    ensures LeftAfter(batches + [pending], writer, |batches|) == Unwritten(pending, writer(|batches|, pending))
  {
    var all := batches + [pending];
    forall k | 0 < k < |all| ensures all[k] == LeftAfter(all, writer, k - 1) {
      if k < |batches| {
        assert LeftAfter(batches, writer, k - 1) == LeftAfter(all, writer, k - 1);
      }
    }
  }

  lemma PendingEncodable(encoded: seq<bool>, batches: seq<seq<nat>>, pending: seq<nat>,
                         writer: (nat, seq<nat>) -> Written, i: nat)
    requires Chain(batches, writer) && i in pending && Rising(pending)
    requires pending == (if batches == [] then Encodable(encoded, |encoded|)
                         else LeftAfter(batches, writer, |batches| - 1))
    requires batches != [] ==> batches[0] == Encodable(encoded, |encoded|)
    ensures i < |encoded| && encoded[i]
  {
    EncodableIs(encoded, |encoded|);
    if batches != [] {
      var last := |batches| - 1;
      SentUntilWritten(batches, writer, last, i);
      UnwrittenIsRest(batches[last], writer(last, batches[last]), i);
    }
  }

  lemma PendingShrinks(encoded: seq<bool>, batches: seq<seq<nat>>, pending: seq<nat>,
                       writer: (nat, seq<nat>) -> Written, i: nat)
    requires i !in pending && i < |encoded|
    requires batches == [] ==> pending == Encodable(encoded, |encoded|)
    ensures batches == [] ==> !encoded[i]
  {
    EncodableIs(encoded, |encoded|);
  }

  /** A message has no error exactly when the writer reported it written; where nothing is left, none encoded has one.
      */
  lemma Finished(encoded: seq<bool>, errs: seq<Option<Error>>, batches: seq<seq<nat>>, pending: seq<nat>,
                 writer: (nat, seq<nat>) -> Written)
    requires Worklist(encoded, errs, batches, pending, writer) && (batches == [] ==> pending == [])
    ensures forall i :: 0 <= i < |errs| ==> (errs[i].None? <==> encoded[i] && ReportedBy(batches, writer, |batches|, i))
    ensures pending == [] ==> forall i :: 0 <= i < |errs| && encoded[i] ==> errs[i].None?
  {
    EncodableIs(encoded, |encoded|);
    forall i | 0 <= i < |errs| ensures errs[i].None? <==> encoded[i] && ReportedBy(batches, writer, |batches|, i) {
      if batches != [] {
        var last := |batches| - 1;
        SentUntilWritten(batches, writer, last, i);
        UnwrittenIsRest(batches[last], writer(last, batches[last]), i);
        if ReportedBy(batches, writer, |batches|, i) && !ReportedBy(batches, writer, last, i) {
          assert Reports(batches[last], writer(last, batches[last]), i);
        }
      } else {
        assert i !in Encodable(encoded, |encoded|);
      }
    }
  }

  class Producer {
    const enabled: bool

    constructor (enabled: bool)
      ensures this.enabled == enabled
    {
      this.enabled := enabled;
    }

    /** The events that marshal are to be sent, the others have their error. */
    method Encode(encoded: seq<bool>) returns (errs: seq<Option<Error>>, pending: seq<nat>)
      ensures |errs| == |encoded| && pending == Encodable(encoded, |encoded|)
      ensures forall k :: 0 <= k < |errs| ==> (errs[k].None? <==> encoded[k])
      ensures Rising(pending) && forall k :: 0 <= k < |pending| ==> pending[k] < |errs|
    {
      errs, pending := seq(|encoded|, i => None), [];
      for i := 0 to |encoded|
        invariant |errs| == |encoded| && pending == Encodable(encoded, i)
        invariant forall k :: 0 <= k < |encoded| ==> (errs[k].None? <==> k >= i || encoded[k])
      {
        if encoded[i] {
          pending := pending + [i];
        } else {
          errs := errs[i := Some("marshal")];
        }
      }
      EncodableIs(encoded, |encoded|);
      forall k | 0 <= k < |pending| ensures pending[k] < |errs| {
        assert pending[k] in pending;
      }
    }

    /** The errors of one attempt's batch are kept, and the messages not written of it. */
    method TakeErrors(was: seq<Option<Error>>, pending: seq<nat>, w: Written)
      returns (errs: seq<Option<Error>>, failed: seq<nat>)
      requires Rising(pending) && forall k :: 0 <= k < |pending| ==> pending[k] < |was|
      ensures failed == Unwritten(pending, w) && |errs| == |was| && ErrorsKept(was, pending, w, errs)
    {
      errs, failed := was, [];
      for j := 0 to |pending|
        invariant |errs| == |was| && failed == Failed(pending, w, j)
        invariant forall k :: 0 <= k < j ==> errs[pending[k]] == ErrorOf(w, |pending|, k)
        invariant forall i :: 0 <= i < |errs| && i !in pending ==> errs[i] == was[i]
      {
        var i := pending[j];
        match w {
          case AllWritten =>
            errs := errs[i := None];
          case Each(each) =>
            if |each| == |pending| {
              errs := errs[i := each[j]];
              if each[j].Some? {
                failed := failed + [i];
              }
            } else {
              errs := errs[i := Some("write errors")];
              failed := failed + [i];
            }
          case Refused(err) =>
            errs := errs[i := Some(err)];
            failed := failed + [i];
        }
      }
    }

    /** One attempt: the messages left are sent, their errors kept. */
    method Attempt(encoded: seq<bool>, was: seq<Option<Error>>, ghost batches: seq<seq<nat>>, pending: seq<nat>,
                   writer: (nat, seq<nat>) -> Written, n: nat)
      returns (errs: seq<Option<Error>>, failed: seq<nat>)
      requires Worklist(encoded, was, batches, pending, writer) && n == |batches|
      ensures Worklist(encoded, errs, batches + [pending], failed, writer)
    {
      errs, failed := TakeErrors(was, pending, writer(n, pending));
      Attempted(encoded, was, batches, pending, writer, errs);
    }

    /** The attempts: over when nothing is left, they are spent, or the context is over. */
    method Attempts(encoded: seq<bool>, was: seq<Option<Error>>, all: seq<nat>, writer: (nat, seq<nat>) -> Written,
                    done: nat -> bool)
      returns (errs: seq<Option<Error>>, pending: seq<nat>, ghost batches: seq<seq<nat>>)
      requires Worklist(encoded, was, [], all, writer)
      ensures Worklist(encoded, errs, batches, pending, writer) && |batches| <= EMIT_ATTEMPTS
      ensures pending == [] || |batches| == EMIT_ATTEMPTS || (batches != [] && done(|batches| - 1))
    {
      errs, pending, batches := was, all, [];
      var attempt := 1;
      while attempt <= EMIT_ATTEMPTS && pending != []
        invariant 1 <= attempt <= EMIT_ATTEMPTS + 1 && |batches| == attempt - 1
        invariant Worklist(encoded, errs, batches, pending, writer)
        decreases EMIT_ATTEMPTS + 1 - attempt
      {
        var failed;
        errs, failed := Attempt(encoded, errs, batches, pending, writer, attempt - 1);
        batches := batches + [pending];
        pending := failed;
        if pending == [] || done(attempt - 1) {
          break;
        }
        attempt := attempt + 1;
      }
    }

    /** publish: encoded says which events marshal, writer what each attempt's batch comes to, done whether the context
        is over after it. */
    method Publish(encoded: seq<bool>, writer: (nat, seq<nat>) -> Written, done: nat -> bool)
      returns (errs: seq<Option<Error>>, ghost batches: seq<seq<nat>>)
      ensures |errs| == |encoded| && |batches| <= EMIT_ATTEMPTS && Chain(batches, writer)
      ensures !enabled ==> batches == [] && forall i :: 0 <= i < |errs| ==> errs[i] == Some(NO_BUS)
      ensures batches != [] ==> batches[0] == Encodable(encoded, |encoded|)
      // a message has no error exactly when the writer reported it written
      ensures enabled ==> forall i :: 0 <= i < |errs| ==>
                            (errs[i].None? <==> encoded[i] && ReportedBy(batches, writer, |batches|, i))
      // it gives up only when nothing is left, its attempts are spent, or its context is over
      ensures enabled && |batches| < EMIT_ATTEMPTS ==>
                (forall i :: 0 <= i < |errs| && encoded[i] ==> errs[i].None?) || (batches != [] && done(|batches| - 1))
    {
      batches := [];
      if !enabled {
        errs := seq(|encoded|, i => Some(NO_BUS));
        return;
      }
      var pending;
      errs, pending := Encode(encoded);
      errs, pending, batches := Attempts(encoded, errs, pending, writer, done);
      Finished(encoded, errs, batches, pending, writer);
    }
  }
}
