/**
 Reads of the library's files (internal/chapters/files.go): each runs on its own, keeping one of the process's slots
 until it returns, and is waited for so long at most. The steps of a process: a claim asks for a read, a read returns,
 its slot is freed, the claim takes the answer, gives it up, or is called off; the timers fire in time.
 */
module Storage {
  import opened Wrappers
  import Reads

  type Time = Reads.Time

  type ReadId = nat
  type ClaimId = nat

  const FILE_WAIT := 5000
  const FILE_SLOTS := 2

  /** A read a claim waits for, and when it stops waiting. */
  datatype Wait = Wait(read: ReadId, deadline: Time)

  /** A claim's reads: stalled once one was not answered, or not started for those before it; the read it waits for;
      those it left behind. */
  datatype Claim = Claim(stalled: bool, waiting: Option<Wait>, behind: set<ReadId>)

  const NewClaim := Claim(false, None, {})

  /** What a process keeps: the slots kept, the reads running and answered, every read started, the claims, the clock.
      */
  datatype Process = Process(slots: set<ReadId>, running: set<ReadId>, answered: set<ReadId>, started: set<ReadId>,
                             claims: map<ClaimId, Claim>, clock: Time)
  {
    function ClaimOf(c: ClaimId): Claim {
      if c in claims then claims[c] else NewClaim
    }
  }

  datatype Event =
    | Ask(claim: ClaimId, id: ReadId, until: Option<Time>)
    | Return(id: ReadId)
    | Free(id: ReadId)
    | TakeAnswer(claim: ClaimId)
    | GiveUp(claim: ClaimId)
    | CallOff(claim: ClaimId)
    | Tick(to: Time)

  /** The step can happen: a claim asks one read at a time, time passes no wait's end. */
  ghost predicate Enabled(p: Process, e: Event) {
    match e
    case Ask(c, id, until) => p.ClaimOf(c).waiting.None? && id !in p.started
    case Return(id) => id in p.running
    case Free(id) => id in p.slots && id !in p.running
    case TakeAnswer(c) => p.ClaimOf(c).waiting.Some? && p.ClaimOf(c).waiting.value.read in p.answered
    case GiveUp(c) => p.ClaimOf(c).waiting.Some? && p.ClaimOf(c).waiting.value.deadline <= p.clock
    case CallOff(c) => p.ClaimOf(c).waiting.Some?
    case Tick(to) =>
      p.clock <= to && forall c :: c in p.claims && p.claims[c].waiting.Some? ==>
      to <= p.claims[c].waiting.value.deadline
  }

  datatype Answer = Started | Busy | NoTime

  /** What a claim that asks for a read is answered. */
  function Asked(p: Process, c: ClaimId, until: Option<Time>): Answer {
    if p.ClaimOf(c).stalled then Busy
    else if until.Some? && until.value - p.clock < FILE_WAIT then NoTime
    else if |p.slots| >= FILE_SLOTS then Busy else Started
  }

  function LeftBehind(p: Process, c: ClaimId): Process {
    var k := p.ClaimOf(c);
    p.(claims := p.claims[c := Claim(true, None, k.behind + if k.waiting.Some? then {k.waiting.value.read} else {})])
  }

  function Next(p: Process, e: Event): Process {
    match e
    case Ask(c, id, until) =>
      var k := p.ClaimOf(c);
      (match Asked(p, c, until)
       case Started =>
         p.(slots := p.slots + {id}, running := p.running + {id}, started := p.started + {id},
            claims := p.claims[c := k.(waiting := Some(Wait(id, p.clock + FILE_WAIT)))])
       case Busy => p.(claims := p.claims[c := k.(stalled := true)])
       case NoTime => p)
    case Return(id) => p.(running := p.running - {id}, answered := p.answered + {id})
    case Free(id) => p.(slots := p.slots - {id})
    case TakeAnswer(c) => p.(claims := p.claims[c := p.ClaimOf(c).(waiting := None)])
    case GiveUp(c) => LeftBehind(p, c)
    case CallOff(c) => LeftBehind(p, c)
    case Tick(to) => p.(clock := to)
  }

  ghost predicate Safe(p: Process) {
    && |p.slots| <= FILE_SLOTS
    && p.running <= p.slots <= p.started && p.answered <= p.started && p.running !! p.answered
    && p.slots <= p.running + p.answered
    && forall c :: c in p.claims ==> SafeClaim(p, c)
  }

  ghost predicate SafeClaim(p: Process, c: ClaimId)
    requires c in p.claims
  {
    var k := p.claims[c];
    && |k.behind| <= 1 && k.behind <= p.started
    && (k.behind != {} ==> k.stalled)
    && (k.waiting.Some? ==> !k.stalled && k.waiting.value.read in p.started && p.clock <= k.waiting.value.deadline)
  }

  /** At most FILE_SLOTS reads are outstanding, each holding its slot while it runs; a claim leaves one read behind at
      most, and waits for none past its end. */
  lemma SafeStep(p: Process, e: Event)
    requires Safe(p) && Enabled(p, e)
    ensures Safe(Next(p, e))
  {
    SafeSlots(p, e);
    forall c | c in Next(p, e).claims ensures SafeClaim(Next(p, e), c) {
      SafeClaims(p, e, c);
    }
  }

  lemma SafeSlots(p: Process, e: Event)
    requires Safe(p) && Enabled(p, e)
    ensures var q := Next(p, e);
            |q.slots| <= FILE_SLOTS && q.running <= q.slots <= q.started && q.answered <= q.started &&
            q.running !! q.answered && q.slots <= q.running + q.answered
  {
    match e
    case Ask(c, id, until) => SlotsOfAsk(p, c, id, until);
    case Free(id) => FewerSlots(p.slots, id);
    case Return(id) =>
    case _ =>
  }

  lemma SlotsOfAsk(p: Process, c: ClaimId, id: ReadId, until: Option<Time>)
    requires Safe(p) && Enabled(p, Ask(c, id, until))
    ensures var q := Next(p, Ask(c, id, until));
            |q.slots| <= FILE_SLOTS && q.running <= q.slots <= q.started && q.answered <= q.started &&
            q.running !! q.answered && q.slots <= q.running + q.answered
  {
    if Asked(p, c, until) == Started {
      assert id !in p.slots && |p.slots + {id}| == |p.slots| + 1;
    }
  }

  lemma FewerSlots(slots: set<ReadId>, id: ReadId)
    requires id in slots
    ensures |slots - {id}| == |slots| - 1
  {
  }

  lemma SafeClaims(p: Process, e: Event, c: ClaimId)
    requires Safe(p) && Enabled(p, e) && c in Next(p, e).claims
    ensures SafeClaim(Next(p, e), c)
  {
    assert c in p.claims ==> SafeClaim(p, c);
    match e
    case Ask(k, id, until) => SafeAsk(p, k, id, until, c);
    case GiveUp(k) => SafeLeft(p, k, c);
    case CallOff(k) => SafeLeft(p, k, c);
    case TakeAnswer(k) =>
    case _ =>
  }

  lemma SafeAsk(p: Process, k: ClaimId, id: ReadId, until: Option<Time>, c: ClaimId)
    requires c in Next(p, Ask(k, id, until)).claims && (c in p.claims ==> SafeClaim(p, c))
    requires Enabled(p, Ask(k, id, until))
    ensures SafeClaim(Next(p, Ask(k, id, until)), c)
  {
  }

  lemma SafeLeft(p: Process, k: ClaimId, c: ClaimId)
    requires c in LeftBehind(p, k).claims && (c in p.claims ==> SafeClaim(p, c)) && p.ClaimOf(k).waiting.Some?
    ensures SafeClaim(LeftBehind(p, k), c)
  {
    if c == k {
      assert p.ClaimOf(c).behind == {};
    }
  }

  /** A read is started exactly where its claim is not stalled, its whole wait ends by until and a slot is free; a
      stalled claim starts none, and stays stalled; one that finds every slot kept is stalled, one that has no time is
      not. */
  lemma StartsInTime(p: Process, e: Event, c: ClaimId)
    requires Safe(p) && Enabled(p, e)
    ensures p.ClaimOf(c).stalled ==>
              Next(p, e).ClaimOf(c).stalled && (e.Ask? && e.claim == c ==> Next(p, e).started == p.started)
    ensures e.Ask? && Next(p, e).started != p.started ==>
              Asked(p, e.claim, e.until) == Started && Next(p, e).started == p.started + {e.id} &&
              |p.slots| < FILE_SLOTS &&
              Next(p, e).ClaimOf(e.claim).waiting.Some? &&
              (e.until.Some? ==> Next(p, e).ClaimOf(e.claim).waiting.value.deadline <= e.until.value)
    ensures e.Ask? ==>
              var k, inTime := p.ClaimOf(e.claim), e.until.None? || p.clock + FILE_WAIT <= e.until.value;
              (e.id in Next(p, e).running <==> !k.stalled && inTime && |p.slots| < FILE_SLOTS) &&
              (e.id in Next(p, e).slots <==> e.id in Next(p, e).running) &&
              (Next(p, e).ClaimOf(e.claim).stalled <==> k.stalled || (inTime && |p.slots| >= FILE_SLOTS))
    ensures (e.GiveUp? || e.CallOff?) && e.claim == c ==>
              var k := Next(p, e).ClaimOf(c);
              k.stalled && k.waiting.None? && k.behind == p.ClaimOf(c).behind + {p.ClaimOf(c).waiting.value.read}
  {
  }

  ghost predicate CanRun(p: Process, es: seq<Event>)
    decreases |es|
  {
    es != [] ==> Enabled(p, es[0]) && CanRun(Next(p, es[0]), es[1..])
  }

  function Run(p: Process, es: seq<Event>): Process
    decreases |es|
  {
    if es == [] then p else Run(Next(p, es[0]), es[1..])
  }

  const Idle := Process({}, {}, {}, {}, map[], 0)

  lemma {:induction false} SafeRun(p: Process, es: seq<Event>)
    requires Safe(p) && CanRun(p, es)
    ensures Safe(Run(p, es))
    decreases |es|
  {
    if es != [] {
      SafeStep(p, es[0]);
      SafeRun(Next(p, es[0]), es[1..]);
    }
  }

  /** Over every interleaving from an idle process: at most two reads are outstanding, each claim left one behind at
      most and only when it stalled, and a slot whose read returned may be freed at once. */
  lemma AtMostTwoOutstanding(es: seq<Event>, c: ClaimId, id: ReadId)
    requires CanRun(Idle, es)
    ensures var p := Run(Idle, es);
            |p.slots| <= FILE_SLOTS && p.running <= p.slots && |p.ClaimOf(c).behind| <= 1 &&
            (p.ClaimOf(c).behind != {} ==> p.ClaimOf(c).stalled && p.ClaimOf(c).waiting.None?) &&
            (id in p.slots && id in p.answered ==> Enabled(p, Free(id)))
  {
    SafeRun(Idle, es);
    var p := Run(Idle, es);
    if c in p.claims {
      assert SafeClaim(p, c);
    }
  }

  /** The process's slots and its claims' reads, changed a step at a time. */
  class Files {
    var slots: set<ReadId>
    var running: set<ReadId>
    var claims: map<ClaimId, Claim>
    ghost var answered: set<ReadId>
    ghost var started: set<ReadId>
    ghost var clock: Time

    ghost function State(): Process
      reads this
    {
      Process(slots, running, answered, started, claims, clock)
    }

    constructor ()
      ensures State() == Idle
    {
      slots, running, claims, answered, started, clock := {}, {}, map[], {}, {}, 0;
    }

    /** read, until it waits: it is refused, or started in a slot of its own. */
    method Read(c: ClaimId, id: ReadId, until: Option<Time>, now: Time) returns (a: Answer)
      requires now == clock && Enabled(State(), Ask(c, id, until))
      modifies this
      ensures a == Asked(old(State()), c, until) && State() == Next(old(State()), Ask(c, id, until))
    {
      var k := if c in claims then claims[c] else NewClaim;
      if k.stalled {
        claims := claims[c := k];
        return Busy;
      }
      if until.Some? && until.value - now < FILE_WAIT {
        return NoTime;
      }
      if |slots| >= FILE_SLOTS {
        claims := claims[c := k.(stalled := true)];
        return Busy;
      }
      slots, running, started := slots + {id}, running + {id}, started + {id};
      claims := claims[c := k.(waiting := Some(Wait(id, now + FILE_WAIT)))];
      a := Started;
    }

    /** The read id returns: its answer waits for its claim. */
    method Returned(id: ReadId)
      requires Enabled(State(), Return(id))
      modifies this
      ensures State() == Next(old(State()), Return(id))
    {
      running, answered := running - {id}, answered + {id};
    }

    method Release(id: ReadId)
      requires Enabled(State(), Free(id))
      modifies this
      ensures State() == Next(old(State()), Free(id))
    {
      slots := slots - {id};
    }

    /** The wait of a claim ends: with its answer, or without one, its claim's reads stalled. */
    method EndWait(c: ClaimId, answer: bool)
      requires Enabled(State(), if answer then TakeAnswer(c) else CallOff(c))
      modifies this
      ensures State() == Next(old(State()), if answer then TakeAnswer(c) else CallOff(c))
    {
      var k := claims[c];
      if answer {
        claims := claims[c := k.(waiting := None)];
      } else {
        claims := claims[c := Claim(true, None, k.behind + {k.waiting.value.read})];
      }
    }
  }
}
