/** The reader and all producers at once: the scan, the refill and the flush of the reader go
    ring by ring, and between any two of its steps any producer may store, copy or publish. */
module RingReader {
  import opened Bytes
  import opened Events
  import opened EventQueue
  import opened RingProtocol
  import opened ScapMerge
  import opened RingMerge

  /** Where the reader is: between calls, in the scan with the best event so far, in the refill,
      or in the flush of a snaplen change. */
  datatype Reader =
    | Resting
    | Scanning(next: nat, cpu: nat, ts: nat)
    | Refilling(next: nat)
    | Flushing(next: nat)

  /** An event leaves its ring returned to the caller, or discarded with all that wait there. */
  datatype Use = Out(taken: Taken) | Dropped(cpu: nat, events: seq<seq<byte>>)

  /** The rings and the reader; how events left so far, and those published on each ring.
      `since` are the events returned since the last refill or flush, `goal` the merge of the
      batches it left. */
  datatype System = System(
    rings: seq<Ring>, reader: Reader, log: seq<Use>, published: seq<seq<seq<byte>>>,
    since: seq<Taken>, goal: seq<Taken>)

  /** A producer steps, the reader goes on with what it does, or a flush begins. */
  datatype Turn = Produce(cpu: nat, step: Label) | Read | Flush

  /** The events returned, over all CPUs. */
  function Outs(log: seq<Use>): seq<Taken> {
    if log == [] then [] else
      Outs(log[..|log| - 1]) + match log[|log| - 1] case Out(t) => [t] case _ => []
  }

  /** The events of one CPU that left its ring, in order. */
  function Consumed(log: seq<Use>, cpu: nat): seq<seq<byte>> {
    if log == [] then [] else Consumed(log[..|log| - 1], cpu) + UsedOf(log[|log| - 1], cpu)
  }

  function UsedOf(u: Use, cpu: nat): seq<seq<byte>> {
    match u
    case Out(t) => if t.cpu == cpu then [t.event] else []
    case Dropped(c, events) => if c == cpu then events else []
  }

  lemma LogGrows(log: seq<Use>, u: Use, cpu: nat)
    ensures Consumed(log + [u], cpu) == Consumed(log, cpu) + UsedOf(u, cpu)
    ensures Outs(log + [u]) == Outs(log) + match u case Out(t) => [t] case _ => []
  {
    assert (log + [u])[..|log|] == log;
  }

  /** Without a flush, what left a ring is what was returned with its CPU. */
  lemma {:induction false} ConsumedIsReturned(log: seq<Use>, cpu: nat)
    requires forall i :: 0 <= i < |log| ==> log[i].Out?
    ensures Consumed(log, cpu) == Project(Outs(log), cpu)
  {
    if log != [] {
      var n := |log| - 1;
      ConsumedIsReturned(log[..n], cpu);
      ProjectAppend(Outs(log[..n]), log[n].taken, cpu);
    }
  }

  // ----- Invariant -----

  ghost predicate BestOf(g: Geometry, rings: seq<Ring>, n: nat, cpu: nat, ts: nat)
    requires AllInv(g, rings) && n <= |rings|
  {
    LoansReady(g, rings);
    Best(Loans(g, rings), n, cpu, ts)
  }

  ghost function BatchesOf(g: Geometry, rings: seq<Ring>): seq<seq<seq<byte>>>
    requires AllInv(g, rings)
  {
    LoansReady(g, rings);
    Batches(Loans(g, rings))
  }

  /** Used-up rings behind the scan have been given back; at a refill all have. */
  ghost predicate ReaderOk(g: Geometry, rings: seq<Ring>, reader: Reader)
    requires AllInv(g, rings)
  {
    match reader
    case Resting => true
    case Scanning(next, cpu, ts) =>
      && next <= |rings| && BestOf(g, rings, next, cpu, ts)
      && GivenBack(rings, next)
    case Refilling(next) => next <= |rings| && Exhausted(g, rings, next)
    case Flushing(next) => next <= |rings|
  }

  predicate GivenBack(rings: seq<Ring>, n: nat)
    requires n <= |rings|
  {
    forall i :: 0 <= i < n && rings[i].snLen == 0 ==> rings[i].lastRead == 0
  }

  /** The rings from `n` on have been given back, or are held up by an event stamped 2^64-1. */
  predicate Exhausted(g: Geometry, rings: seq<Ring>, n: nat)
    requires AllInv(g, rings) && n <= |rings|
  {
    forall i :: n <= i < |rings| ==> ExhaustedRing(g, rings[i])
  }

  predicate ExhaustedRing(g: Geometry, s: Ring)
    requires Inv(g, s)
  {
    (s.snLen == 0 ==> s.lastRead == 0) && Held(g, s).Valid() && HeadTs(Held(g, s)) >= MAX_TS
  }

  predicate Accounts(g: Geometry, rings: seq<Ring>, log: seq<Use>, published: seq<seq<seq<byte>>>)
    requires AllInv(g, rings)
  {
    && |published| == |rings|
    && forall j :: 0 <= j < |rings| ==> AccountOf(g, rings[j], log, j, published[j])
  }

  /** What is not yet given back is the end of what was published; and, if no event is stamped
      2^64-1, what was published is what left the ring, followed by what is waiting. */
  predicate AccountOf(g: Geometry, s: Ring, log: seq<Use>, cpu: nat, events: seq<seq<byte>>)
    requires Inv(g, s)
  {
    Ends(events, Pending(g, s)) && (Whole(events) ==> events == Consumed(log, cpu) + Waiting(g, s))
  }

  /** What was returned since the refill and what is still to come is the merge of what the
      refill read. */
  ghost predicate Follows(g: Geometry, y: System)
    requires AllInv(g, y.rings)
  {
    && Ends(Outs(y.log), y.since)
    && (Rereading(y.reader) || y.since + Drain(BatchesOf(g, y.rings)) == y.goal)
  }

  predicate Rereading(r: Reader) {
    r.Refilling? || r.Flushing?
  }

  ghost predicate SystemInv(g: Geometry, y: System) {
    && AllInv(g, y.rings)
    && ReaderOk(g, y.rings, y.reader)
    && Accounts(g, y.rings, y.log, y.published)
    && Follows(g, y)
  }

  // ----- Turns -----

  /** Producers step as the ring allows; a flush begins between two calls. */
  ghost predicate Allowed(g: Geometry, y: System, t: Turn)
    requires AllInv(g, y.rings)
  {
    match t
    case Produce(cpu, l) =>
      cpu < |y.rings| && ByProducer(l) && Shape(g, y.rings[cpu]) && Enabled(g, y.rings[cpu], l)
    case Read => true
    case Flush => y.reader.Resting?
  }

  ghost function Produced(g: Geometry, y: System, cpu: nat, l: Label): System
    requires SystemInv(g, y) && Allowed(g, y, Produce(cpu, l))
  {
    var s := y.rings[cpu];
    y.(rings := y.rings[cpu := Step(g, s, l)],
       published := if l.Publish? then y.published[cpu := y.published[cpu] + [Emit(g, s, l).event]] else y.published)
  }

  /** The scan of one ring: given back if it is used up, or else its first timestamp compared. */
  ghost function Scanned1(g: Geometry, y: System): System
    requires SystemInv(g, y) && y.reader.Scanning? && y.reader.next < |y.rings|
  {
    var Scanning(j, cpu, ts) := y.reader;
    var s := y.rings[j];
    if s.snLen == 0 then
      y.(rings := if s.lastRead > 0 then y.rings[j := Step(g, s, Release)] else y.rings,
         reader := Scanning(j + 1, cpu, ts))
    else
      StampInMemory(g, s);
      var stamp := Timestamp(HeldBytes(g, s));
      y.(reader := if stamp < ts then Scanning(j + 1, j, stamp) else Scanning(j + 1, cpu, ts))
  }

  lemma BestHolds(g: Geometry, rings: seq<Ring>, n: nat, cpu: nat, ts: nat)
    requires AllInv(g, rings) && n <= |rings| && BestOf(g, rings, n, cpu, ts) && cpu != NO_CPU
    ensures cpu < |rings| && rings[cpu].snLen > 0
  {
    LoansReady(g, rings);
    hide Inv;
    HeldIsValid(g, rings[cpu]);
  }

  /** The end of a successful call: the picked event is stepped over and returned. */
  ghost function Returned(g: Geometry, y: System): System
    requires SystemInv(g, y) && y.reader.Scanning? && y.reader.next == |y.rings| && y.reader.cpu != NO_CPU
  {
    BestHolds(g, y.rings, |y.rings|, y.reader.cpu, y.reader.ts);
    var cpu := y.reader.cpu;
    var s := y.rings[cpu];
    WaitingTaken(g, s);
    var t := Taken(cpu, Emit(g, s, Take).event);
    y.(rings := y.rings[cpu := Step(g, s, Take)], reader := Resting, log := y.log + [Out(t)], since := y.since + [t])
  }

  /** A new read of one ring. */
  ghost function Refilled(g: Geometry, y: System): System
    requires SystemInv(g, y) && y.reader.Refilling? && y.reader.next < |y.rings|
  {
    var j := y.reader.next;
    y.(rings := y.rings[j := Step(g, y.rings[j], ReadBuf)], reader := Refilling(j + 1))
  }

  /** The flush of one ring: what waits there is discarded. */
  ghost function Flushed(g: Geometry, y: System): System
    requires SystemInv(g, y) && y.reader.Flushing? && y.reader.next < |y.rings|
  {
    var j := y.reader.next;
    y.(rings := y.rings[j := Step(g, y.rings[j], RingProtocol.Flush)], reader := Flushing(j + 1),
       log := y.log + [Dropped(j, Waiting(g, y.rings[j]))])
  }

  ghost function Next(g: Geometry, y: System, t: Turn): System
    requires SystemInv(g, y) && Allowed(g, y, t)
  {
    match t
    case Produce(cpu, l) => Produced(g, y, cpu, l)
    case Flush => y.(reader := Flushing(0))
    case Read =>
      match y.reader
      case Resting => y.(reader := Scanning(0, NO_CPU, MAX_TS))
      case Scanning(next, cpu, _) =>
        if next < |y.rings| then Scanned1(g, y)
        else if cpu == NO_CPU then y.(reader := Refilling(0))
        else Returned(g, y)
      case Refilling(next) => if next < |y.rings| then Refilled(g, y) else Settled(g, y)
      case Flushing(next) => if next < |y.rings| then Flushed(g, y) else Settled(g, y)
  }

  /** The end of a refill or a flush. */
  ghost function Settled(g: Geometry, y: System): System
    requires AllInv(g, y.rings)
  {
    y.(reader := Resting, since := [], goal := Drain(BatchesOf(g, y.rings)))
  }

  // ----- One ring changes -----

  lemma OneRing(g: Geometry, rings: seq<Ring>, j: nat, s: Ring)
    requires AllInv(g, rings) && j < |rings| && Inv(g, s)
    ensures AllInv(g, rings[j := s]) && Held(g, s).Valid()
    ensures BatchesOf(g, rings[j := s]) == BatchesOf(g, rings)[j := Batch(Held(g, s))]
  {
    hide Inv, Held, Batch;
    HeldIsValid(g, s);
    LoansReady(g, rings);
    LoansReady(g, rings[j := s]);
  }

  lemma BestKept(g: Geometry, rings: seq<Ring>, j: nat, s: Ring, n: nat, cpu: nat, ts: nat)
    requires AllInv(g, rings) && j < |rings| && Inv(g, s) && n <= |rings| && BestOf(g, rings, n, cpu, ts)
    requires Held(g, s).Valid() && Held(g, rings[j]).Valid()
    requires j >= n || HeadTs(Held(g, s)) == HeadTs(Held(g, rings[j]))
    ensures AllInv(g, rings[j := s]) && BestOf(g, rings[j := s], n, cpu, ts)
  {
    hide Inv, Held, HeadTs;
    LoansReady(g, rings);
    LoansReady(g, rings[j := s]);
  }

  lemma AccountKept(g: Geometry, y: System, j: nat, s: Ring, log: seq<Use>, events: seq<seq<byte>>)
    requires AllInv(g, y.rings) && Accounts(g, y.rings, y.log, y.published)
    requires j < |y.rings| && Inv(g, s) && AccountOf(g, s, log, j, events)
    requires forall k :: 0 <= k < |y.rings| && k != j ==> Consumed(log, k) == Consumed(y.log, k)
    ensures AllInv(g, y.rings[j := s]) && Accounts(g, y.rings[j := s], log, y.published[j := events])
  {
    hide Inv, Consumed, Waiting, Pending, Whole, Ends;
  }

  /** One more use on CPU `j` leaves the accounts of the others. */
  lemma OthersStay(y: System, u: Use, j: nat)
    requires u.Out? ==> u.taken.cpu == j
    requires u.Dropped? ==> u.cpu == j
    ensures forall k :: 0 <= k < |y.rings| && k != j ==> Consumed(y.log + [u], k) == Consumed(y.log, k)
  {
    hide Consumed;
    forall k | 0 <= k < |y.rings| && k != j
      ensures Consumed(y.log + [u], k) == Consumed(y.log, k)
    {
      LogGrows(y.log, u, k);
    }
  }

  // ----- Every turn keeps the invariant -----

  lemma ArrivedHead(d: Loan, d': Loan)
    requires d.Valid() && d'.Valid() && d.bytes <= d'.bytes && d' == d.(bytes := d'.bytes)
    ensures HeadTs(d') == HeadTs(d) && Batch(d') == Batch(d)
  {
    hide Events.Framed, Events.Timestamp;
    assert d'.Rest() == d.Rest();
  }

  lemma ProducerHeld(g: Geometry, s: Ring, l: Label)
    requires Inv(g, s) && Enabled(g, s, l) && ByProducer(l)
    ensures Inv(g, Step(g, s, l)) && Held(g, Step(g, s, l)).Valid() && Held(g, s).Valid()
    ensures HeadTs(Held(g, Step(g, s, l))) == HeadTs(Held(g, s))
    ensures Batch(Held(g, Step(g, s, l))) == Batch(Held(g, s))
  {
    StepRefines(g, s, l);
    hide Mirror, Events.Framed, Events.Split, Events.IsEvent, ProducerInv, HeadTs, Batch;
    WindowGrows(g, s, l);
    ArrivedHead(Held(g, s), Held(g, Step(g, s, l)));
  }

  lemma PublishedAccount(g: Geometry, s: Ring, l: Label, log: seq<Use>, cpu: nat, events: seq<seq<byte>>)
    requires Inv(g, s) && Enabled(g, s, l) && ByProducer(l) && AccountOf(g, s, log, cpu, events)
    ensures Inv(g, Step(g, s, l)) && (l.Publish? ==> Emit(g, s, l).Enqueue?)
    ensures AccountOf(g, Step(g, s, l), log, cpu, if l.Publish? then events + [Emit(g, s, l).event] else events)
  {
    WaitingGrows(g, s, l);
    PendingSteps(g, s, l);
    hide Inv, Step, Waiting, Pending, Consumed, Staged, Ends;
    if l.Publish? {
      var e := Emit(g, s, l).event;
      EndsGrow(events, Pending(g, s), [e]);
      WholePrefix(events, e);
      AppendAssociates(Consumed(log, cpu), Waiting(g, s), [e]);
    }
  }

  lemma WholePrefix(events: seq<seq<byte>>, e: seq<byte>)
    ensures Whole(events + [e]) ==> Whole(events)
  {
    if Whole(events + [e]) {
      assert forall i :: 0 <= i < |events| ==> (events + [e])[i] == events[i];
    }
  }

  /** The scan's and the refill's knowledge survives a change that leaves the reader's part of
      a ring alone. */
  lemma ReaderKept(g: Geometry, rings: seq<Ring>, reader: Reader, j: nat, s: Ring)
    requires AllInv(g, rings) && ReaderOk(g, rings, reader) && j < |rings| && Inv(g, s)
    requires s.snLen == rings[j].snLen && s.lastRead == rings[j].lastRead
    requires Held(g, s).Valid() && Held(g, rings[j]).Valid() && HeadTs(Held(g, s)) == HeadTs(Held(g, rings[j]))
    ensures AllInv(g, rings[j := s]) && ReaderOk(g, rings[j := s], reader)
  {
    hide Inv, Held, HeadTs, BestOf;
    if reader.Scanning? {
      BestKept(g, rings, j, s, reader.next, reader.cpu, reader.ts);
    } else if reader.Refilling? && j >= reader.next {
      assert ExhaustedRing(g, rings[j]);
    }
  }

  lemma ProduceKeeps(g: Geometry, y: System, cpu: nat, l: Label)
    requires SystemInv(g, y) && Allowed(g, y, Produce(cpu, l))
    ensures SystemInv(g, Produced(g, y, cpu, l))
  {
    hide Inv, Step, Enabled, Shape, Held, Waiting, HeadTs, Batch, AccountOf, BestOf, ReaderOk, Accounts, Drain,
      BatchesOf, Emit;
    AccountIs(g, y, cpu);
    var s, events := y.rings[cpu], y.published[cpu];
    ProducerHeld(g, s, l);
    WaitingGrows(g, s, l);
    var s' := Step(g, s, l);
    SameBatches(g, y.rings, cpu, s');
    ReaderKept(g, y.rings, y.reader, cpu, s');
    PublishedAccount(g, s, l, y.log, cpu, events);
    AccountKept(g, y, cpu, s', y.log, if l.Publish? then events + [Emit(g, s, l).event] else events);
    assert y.published[cpu := events] == y.published;
  }

  lemma AccountIs(g: Geometry, y: System, j: nat)
    requires AllInv(g, y.rings) && Accounts(g, y.rings, y.log, y.published) && j < |y.rings|
    ensures |y.published| == |y.rings| && AccountOf(g, y.rings[j], y.log, j, y.published[j])
  {
  }

  lemma SameBatches(g: Geometry, rings: seq<Ring>, j: nat, s: Ring)
    requires AllInv(g, rings) && j < |rings| && Inv(g, s) && Held(g, rings[j]).Valid() && Held(g, s).Valid()
    requires Batch(Held(g, s)) == Batch(Held(g, rings[j]))
    ensures AllInv(g, rings[j := s]) && BatchesOf(g, rings[j := s]) == BatchesOf(g, rings)
  {
    hide Inv, Held, Batch;
    OneRing(g, rings, j, s);
    LoansReady(g, rings);
    assert BatchesOf(g, rings)[j] == Batch(Held(g, rings[j]));
  }

  lemma ReleaseFields(g: Geometry, s: Ring)
    requires Shape(g, s) && Enabled(g, s, Release)
    ensures s.snLen == 0 && s.lastRead > 0
    ensures Step(g, s, Release).snLen == 0 && Step(g, s, Release).lastRead == 0
  {
  }

  lemma HeldFields(g: Geometry, s: Ring)
    requires Inv(g, s)
    ensures Held(g, s).Valid() && Held(g, s).left == s.snLen && Held(g, s).read == s.lastRead
  {
  }

  lemma ReleaseHeld(g: Geometry, s: Ring)
    requires Inv(g, s) && Enabled(g, s, Release)
    ensures Inv(g, Step(g, s, Release)) && Step(g, s, Release).snLen == 0 && Step(g, s, Release).lastRead == 0
    ensures Held(g, Step(g, s, Release)).Valid() && Held(g, s).Valid()
    ensures HeadTs(Held(g, Step(g, s, Release))) == MAX_TS
    ensures Batch(Held(g, Step(g, s, Release))) == Batch(Held(g, s))
    ensures Waiting(g, Step(g, s, Release)) == Waiting(g, s)
    ensures Ends(Pending(g, s), Pending(g, Step(g, s, Release)))
  {
    ReleaseFields(g, s);
    hide Inv, Step, Enabled, Shape, Held, Batch, Waiting, Pending, HeadTs, Released, Ends;
    ReleaseIsReleased(g, s);
    WaitingReleased(g, s);
    PendingSteps(g, s, Release);
    HeldFields(g, s);
    ScannedIsValid(Held(g, s));
    EmptyHead(g, Step(g, s, Release));
  }

  lemma BestMeans(g: Geometry, rings: seq<Ring>, n: nat, cpu: nat, ts: nat)
    requires AllInv(g, rings) && n <= |rings|
    ensures Ready(Loans(g, rings)) && (BestOf(g, rings, n, cpu, ts) <==> Best(Loans(g, rings), n, cpu, ts))
    ensures BestOf(g, rings, n, cpu, ts) ==> ts <= MAX_TS
  {
    LoansReady(g, rings);
  }

  lemma EmptyHead(g: Geometry, s: Ring)
    requires Inv(g, s) && s.snLen == 0
    ensures Held(g, s).Valid() && HeadTs(Held(g, s)) == MAX_TS
  {
  }

  /** A change of the reader's place only. */
  lemma MovesTo(g: Geometry, y: System, reader: Reader)
    requires SystemInv(g, y) && !Rereading(y.reader) && ReaderOk(g, y.rings, reader)
    ensures SystemInv(g, y.(reader := reader))
  {
    hide AllInv, Accounts, ReaderOk, BatchesOf, Drain, Outs, Ends;
  }

  /** A change of one ring that leaves its batch and what waits in it as they are. */
  lemma RingKept(g: Geometry, y: System, j: nat, s: Ring, reader: Reader)
    requires SystemInv(g, y) && !Rereading(y.reader) && j < |y.rings| && Inv(g, s)
    requires Held(g, s).Valid() && Held(g, y.rings[j]).Valid() && Batch(Held(g, s)) == Batch(Held(g, y.rings[j]))
    requires Waiting(g, s) == Waiting(g, y.rings[j]) && Ends(Pending(g, y.rings[j]), Pending(g, s))
    requires AllInv(g, y.rings[j := s]) && ReaderOk(g, y.rings[j := s], reader)
    ensures SystemInv(g, y.(rings := y.rings[j := s], reader := reader))
  {
    hide Inv, Held, Waiting, Pending, Ends, Batch, AccountOf, Accounts, ReaderOk, BatchesOf, Drain, Outs;
    SameBatches(g, y.rings, j, s);
    AccountIs(g, y, j);
    SameAccount(g, y.rings[j], s, y.log, j, y.published[j]);
    AccountKept(g, y, j, s, y.log, y.published[j]);
    assert y.published[j := y.published[j]] == y.published;
  }

  lemma CanRelease(g: Geometry, s: Ring)
    requires Inv(g, s) && s.snLen == 0 && s.lastRead > 0
    ensures Shape(g, s) && Enabled(g, s, Release)
  {
  }

  lemma GivesBack(g: Geometry, y: System)
    requires SystemInv(g, y) && y.reader.Scanning? && y.reader.next < |y.rings|
    requires y.rings[y.reader.next].snLen == 0 && y.rings[y.reader.next].lastRead > 0
    ensures SystemInv(g, Scanned1(g, y))
  {
    hide Inv, Step, Enabled, Shape, Held, Waiting, Pending, Ends, HeadTs, Batch, BestOf, Best, Accounts, Follows;
    var Scanning(j, cpu, ts) := y.reader;
    var s := y.rings[j];
    CanRelease(g, s);
    ReleaseHeld(g, s);
    var s' := Step(g, s, Release);
    BestKept(g, y.rings, j, s', j, cpu, ts);
    BestMeans(g, y.rings[j := s'], j, cpu, ts);
    BestMeans(g, y.rings[j := s'], j + 1, cpu, ts);
    BestSkip(Loans(g, y.rings[j := s']), j, cpu, ts);
    RingKept(g, y, j, s', Scanning(j + 1, cpu, ts));
  }

  lemma SameAccount(g: Geometry, s: Ring, s': Ring, log: seq<Use>, cpu: nat, events: seq<seq<byte>>)
    requires Inv(g, s) && Inv(g, s') && Ends(Pending(g, s), Pending(g, s'))
    requires Whole(events) ==> Waiting(g, s') == Waiting(g, s)
    requires AccountOf(g, s, log, cpu, events)
    ensures AccountOf(g, s', log, cpu, events)
  {
    hide Inv, Waiting, Pending, Consumed, Whole;
    EndsOfEnd(events, Pending(g, s), Pending(g, s'));
  }

  lemma HeadOf(g: Geometry, s: Ring)
    requires Inv(g, s)
    ensures Held(g, s).Valid()
    ensures s.snLen == 0 ==> HeadTs(Held(g, s)) == MAX_TS
    ensures s.snLen > 0 ==> s.snLen >= HEADER && Timestamp(HeldBytes(g, s)) == HeadTs(Held(g, s))
  {
    hide Inv, Held, HeadTs, Events.Timestamp, HeldBytes;
    HeldIsValid(g, s);
    if s.snLen == 0 {
      EmptyHead(g, s);
    } else {
      StampInMemory(g, s);
    }
  }

  lemma Compares(g: Geometry, y: System)
    requires SystemInv(g, y) && y.reader.Scanning? && y.reader.next < |y.rings|
    requires y.rings[y.reader.next].snLen > 0 || y.rings[y.reader.next].lastRead == 0
    ensures SystemInv(g, Scanned1(g, y))
  {
    hide Inv, Held, HeadTs, BestOf, Best, Accounts, Follows, Events.Timestamp, HeldBytes;
    var Scanning(j, cpu, ts) := y.reader;
    HeadOf(g, y.rings[j]);
    var head := HeadTs(Held(g, y.rings[j]));
    BestMeans(g, y.rings, j, cpu, ts);
    if head < ts {
      BestMeans(g, y.rings, j + 1, j, head);
      BestTake(Loans(g, y.rings), j, cpu, ts);
      MovesTo(g, y, Scanning(j + 1, j, head));
    } else {
      BestMeans(g, y.rings, j + 1, cpu, ts);
      BestSkip(Loans(g, y.rings), j, cpu, ts);
      MovesTo(g, y, Scanning(j + 1, cpu, ts));
    }
  }

  lemma {:induction false} ProjectAppend(ts: seq<Taken>, t: Taken, cpu: nat)
    ensures Project(ts + [t], cpu) == Project(ts, cpu) + (if t.cpu == cpu then [t.event] else [])
  {
    if ts == [] {
      assert ts + [t] == [t] && [t][1..] == [];
    } else {
      ProjectAppend(ts[1..], t, cpu);
      assert (ts + [t])[1..] == ts[1..] + [t];
    }
  }

  /** The front event of one ring, taken. */
  lemma TakenHeld(g: Geometry, s: Ring)
    requires Inv(g, s) && s.snLen > 0
    ensures Shape(g, s) && Enabled(g, s, Take) && Inv(g, Step(g, s, Take)) && Emit(g, s, Take).Deliver?
    ensures Held(g, s).Valid() && Held(g, Step(g, s, Take)).Valid()
    ensures Batch(Held(g, s)) == [Emit(g, s, Take).event] + Batch(Held(g, Step(g, s, Take)))
    ensures Waiting(g, s) == [Emit(g, s, Take).event] + Waiting(g, Step(g, s, Take))
    ensures Pending(g, Step(g, s, Take)) == Pending(g, s)
  {
    TakeIsTaken(g, s);
    WaitingTaken(g, s);
    PendingSteps(g, s, Take);
    hide Inv, Step, Enabled, Held, Batch, Waiting, Pending, Emit, Front;
    HeldFields(g, s);
    HeldFields(g, Step(g, s, Take));
    TakenIsValid(Held(g, s), Emit(g, s, Take).event);
  }

  /** The account of a ring from whose front a part of what was waiting has been used. */
  lemma UsedAccount(g: Geometry, s: Ring, s': Ring, log: seq<Use>, u: Use, cpu: nat, events: seq<seq<byte>>)
    requires Inv(g, s) && Inv(g, s') && Pending(g, s') == Pending(g, s)
    requires Waiting(g, s) == UsedOf(u, cpu) + Waiting(g, s')
    requires AccountOf(g, s, log, cpu, events)
    ensures AccountOf(g, s', log + [u], cpu, events)
  {
    hide Inv, Waiting, Pending, Consumed, Whole, Ends;
    LogGrows(log, u, cpu);
    AppendAssociates(Consumed(log, cpu), UsedOf(u, cpu), Waiting(g, s'));
  }

  /** What the scan settled on is the merge's pick. */
  lemma ScanPicks(g: Geometry, rings: seq<Ring>, cpu: nat, ts: nat)
    requires AllInv(g, rings) && BestOf(g, rings, |rings|, cpu, ts)
    ensures if cpu == NO_CPU then ScapMerge.Idle(BatchesOf(g, rings)) else IsPick(BatchesOf(g, rings), cpu)
    ensures forall j :: 0 <= j < |rings| ==>
              Held(g, rings[j]).Valid() && BatchesOf(g, rings)[j] == Batch(Held(g, rings[j]))
    ensures |BatchesOf(g, rings)| == |rings|
  {
    hide Inv, Held, Batch, Best, IsPick;
    LoansReady(g, rings);
    BestMeans(g, rings, |rings|, cpu, ts);
    BestIsPick(Loans(g, rings), cpu, ts);
  }

  /** Taking the pick takes the head of the merge. */
  lemma PickLeads(batches: seq<seq<seq<byte>>>, cpu: nat, event: seq<byte>, rest: seq<seq<byte>>)
    requires IsPick(batches, cpu) && batches[cpu] == [event] + rest
    ensures Drain(batches) == [Taken(cpu, event)] + Drain(batches[cpu := rest])
  {
    PickUnique(batches, cpu);
    assert batches[cpu][1..] == rest;
  }

  lemma ReturnKeeps(g: Geometry, y: System)
    requires SystemInv(g, y) && y.reader.Scanning? && y.reader.next == |y.rings| && y.reader.cpu != NO_CPU
    ensures SystemInv(g, Returned(g, y))
  {
    hide Inv, Step, Enabled, Shape, Emit, Held, Waiting, Batch, BestOf, AccountOf, Accounts, BatchesOf, Drain,
      IsPick, Consumed, Outs, Pending, Ends;
    var cpu := y.reader.cpu;
    BestHolds(g, y.rings, |y.rings|, cpu, y.reader.ts);
    var s := y.rings[cpu];
    TakenHeld(g, s);
    ScanPicks(g, y.rings, cpu, y.reader.ts);
    var s', t := Step(g, s, Take), Taken(cpu, Emit(g, s, Take).event);
    OneRing(g, y.rings, cpu, s');
    PickLeads(BatchesOf(g, y.rings), cpu, t.event, Batch(Held(g, s')));
    AppendAssociates(y.since, [t], Drain(BatchesOf(g, y.rings[cpu := s'])));
    AccountIs(g, y, cpu);
    UsedAccount(g, s, s', y.log, Out(t), cpu, y.published[cpu]);
    OthersStay(y, Out(t), cpu);
    AccountKept(g, y, cpu, s', y.log + [Out(t)], y.published[cpu]);
    assert y.published[cpu := y.published[cpu]] == y.published;
    LogGrows(y.log, Out(t), cpu);
    EndsGrow(Outs(y.log), y.since, [t]);
  }

  /** A scan that finds nothing has returned all of the merge, and leaves rings that are given
      back or held up. */
  lemma NothingFound(g: Geometry, y: System)
    requires SystemInv(g, y) && y.reader.Scanning? && y.reader.next == |y.rings| && y.reader.cpu == NO_CPU
    ensures SystemInv(g, y.(reader := Refilling(0))) && y.since == y.goal
  {
    hide Inv, Held, HeadTs, Batch, BestOf, Accounts, BatchesOf, Outs, Ends;
    ScanPicks(g, y.rings, NO_CPU, y.reader.ts);
    assert y.since + [] == y.since;
    forall j | 0 <= j < |y.rings|
      ensures ExhaustedRing(g, y.rings[j])
    {
      HeldIsValid(g, y.rings[j]);
      HeadOffers(Held(g, y.rings[j]));
    }
  }

  /** If no event of a ring is stamped 2^64-1, the ring is not held up. */
  lemma NotHeldUp(g: Geometry, s: Ring, log: seq<Use>, cpu: nat, events: seq<seq<byte>>)
    requires Inv(g, s) && AccountOf(g, s, log, cpu, events) && ExhaustedRing(g, s) && Whole(events)
    ensures s.snLen == 0 && s.lastRead == 0
  {
    hide Inv, Held, Batch, HeadTs, Waiting, Pending, Consumed, Ts;
    HeldFields(g, s);
    SomeLeft(Held(g, s));
    HeadOffers(Held(g, s));
    BatchWaits(g, s);
    FirstWaiting(g, s, log, cpu, events);
  }

  lemma FirstWaiting(g: Geometry, s: Ring, log: seq<Use>, cpu: nat, events: seq<seq<byte>>)
    requires Inv(g, s) && AccountOf(g, s, log, cpu, events) && Whole(events)
    ensures Waiting(g, s) != [] ==> Ts(Waiting(g, s)[0]) < MAX_TS
  {
    hide Inv, Waiting, Pending, Consumed, Ts;
    if Waiting(g, s) != [] {
      assert events[|Consumed(log, cpu)|] == Waiting(g, s)[0];
    }
  }

  lemma CanRead(g: Geometry, s: Ring)
    requires Inv(g, s)
    ensures Shape(g, s) && Enabled(g, s, ReadBuf) && Enabled(g, s, RingProtocol.Flush)
  {
  }

  lemma RefillKeeps(g: Geometry, y: System)
    requires SystemInv(g, y) && y.reader.Refilling? && y.reader.next < |y.rings|
    ensures SystemInv(g, Refilled(g, y))
  {
    hide Inv, Step, Enabled, Shape, Waiting, Pending, Ends, AccountOf, Accounts, BatchesOf, Held, HeadTs, Outs, Whole;
    var j := y.reader.next;
    AccountIs(g, y, j);
    var s, events := y.rings[j], y.published[j];
    CanRead(g, s);
    WaitingReread(g, s);
    PendingSteps(g, s, ReadBuf);
    var s' := Step(g, s, ReadBuf);
    if Whole(events) {
      NotHeldUp(g, s, y.log, j, events);
    }
    EndsSelf(Pending(g, s));
    SameAccount(g, s, s', y.log, j, events);
    AccountKept(g, y, j, s', y.log, events);
    assert y.published[j := events] == y.published;
  }

  lemma EndsSelf<T>(all: seq<T>)
    ensures Ends(all, all)
  {
  }

  lemma FlushKeeps(g: Geometry, y: System)
    requires SystemInv(g, y) && y.reader.Flushing? && y.reader.next < |y.rings|
    ensures SystemInv(g, Flushed(g, y))
  {
    hide Inv, Step, Enabled, Shape, Waiting, Pending, Ends, AccountOf, Accounts, BatchesOf, Outs, Consumed;
    var j := y.reader.next;
    AccountIs(g, y, j);
    var s, events := y.rings[j], y.published[j];
    CanRead(g, s);
    WaitingFlushed(g, s);
    PendingSteps(g, s, RingProtocol.Flush);
    var s', u := Step(g, s, RingProtocol.Flush), Dropped(j, Waiting(g, s));
    assert UsedOf(u, j) + [] == UsedOf(u, j);
    UsedAccount(g, s, s', y.log, u, j, events);
    OthersStay(y, u, j);
    AccountKept(g, y, j, s', y.log + [u], events);
    assert y.published[j := events] == y.published;
    LogGrows(y.log, u, j);
    assert Outs(y.log) + [] == Outs(y.log);
  }

  lemma SettledKeeps(g: Geometry, y: System)
    requires SystemInv(g, y) && Rereading(y.reader)
    ensures SystemInv(g, Settled(g, y))
  {
    hide AllInv, Accounts, BatchesOf, Drain, Outs;
    assert [] + Drain(BatchesOf(g, y.rings)) == Drain(BatchesOf(g, y.rings));
  }

  lemma StartScan(g: Geometry, y: System)
    requires SystemInv(g, y) && y.reader.Resting?
    ensures SystemInv(g, y.(reader := Scanning(0, NO_CPU, MAX_TS)))
  {
    hide Inv, Held, Accounts, Follows, HeadTs;
    LoansReady(g, y.rings);
    MovesTo(g, y, Scanning(0, NO_CPU, MAX_TS));
  }

  lemma StartFlush(g: Geometry, y: System)
    requires SystemInv(g, y) && y.reader.Resting?
    ensures SystemInv(g, y.(reader := Flushing(0)))
  {
    hide AllInv, Accounts, Follows;
    MovesTo(g, y, Flushing(0));
  }

  lemma TurnKeeps(g: Geometry, y: System, t: Turn)
    requires SystemInv(g, y) && Allowed(g, y, t)
    ensures SystemInv(g, Next(g, y, t))
  {
    hide SystemInv, Produced, Scanned1, Returned, Refilled, Flushed, Settled;
    match t {
      case Produce(cpu, l) => ProduceKeeps(g, y, cpu, l);
      case Flush => StartFlush(g, y);
      case Read =>
        match y.reader {
          case Resting => StartScan(g, y);
          case Scanning(next, cpu, ts) =>
            NextInRange(g, y);
            if next < |y.rings| {
              if y.rings[next].snLen == 0 && y.rings[next].lastRead > 0 {
                GivesBack(g, y);
              } else {
                Compares(g, y);
              }
            } else if cpu == NO_CPU {
              NothingFound(g, y);
            } else {
              ReturnKeeps(g, y);
            }
          case Refilling(next) =>
            NextInRange(g, y);
            if next < |y.rings| {
              RefillKeeps(g, y);
            } else {
              SettledKeeps(g, y);
            }
          case Flushing(next) =>
            NextInRange(g, y);
            if next < |y.rings| {
              FlushKeeps(g, y);
            } else {
              SettledKeeps(g, y);
            }
        }
    }
  }

  lemma NextInRange(g: Geometry, y: System)
    requires SystemInv(g, y) && !y.reader.Resting?
    ensures AllInv(g, y.rings) && y.reader.next <= |y.rings|
  {
  }

  // ----- Runs -----

  ghost predicate Runs(g: Geometry, y: System, turns: seq<Turn>)
    requires SystemInv(g, y)
    decreases |turns|
  {
    turns == [] || (Allowed(g, y, turns[0]) && (TurnKeeps(g, y, turns[0]); Runs(g, Next(g, y, turns[0]), turns[1..])))
  }

  ghost function Final(g: Geometry, y: System, turns: seq<Turn>): (y': System)
    requires SystemInv(g, y) && Runs(g, y, turns)
    ensures SystemInv(g, y')
    decreases |turns|
  {
    if turns == [] then y else
      TurnKeeps(g, y, turns[0]);
      Final(g, Next(g, y, turns[0]), turns[1..])
  }

  predicate AllInit(g: Geometry, rings: seq<Ring>) {
    |rings| <= NO_CPU && forall j :: 0 <= j < |rings| ==> Init(g, rings[j])
  }

  /** Fresh rings and a reader that has read nothing. */
  ghost function Start(g: Geometry, rings: seq<Ring>): (y: System)
    requires AllInit(g, rings)
    ensures SystemInv(g, y)
  {
    StartInv(g, rings);
    System(rings, Resting, [], seq(|rings|, j => []), [], [])
  }

  lemma FreshRing(g: Geometry, s: Ring, cpu: nat)
    requires Init(g, s)
    ensures Inv(g, s) && Held(g, s).Valid() && Batch(Held(g, s)) == [] && AccountOf(g, s, [], cpu, [])
  {
    InitEmpty(g, s);
    var l := Held(g, s);
    Sections(l);
  }

  lemma InitEmpty(g: Geometry, s: Ring)
    requires Init(g, s)
    ensures Inv(g, s) && Held(g, s) == Loan([], 0, 0)
  {
  }

  lemma FreshRings(g: Geometry, rings: seq<Ring>)
    requires AllInit(g, rings)
    ensures AllInv(g, rings) && Drain(BatchesOf(g, rings)) == []
    ensures Accounts(g, rings, [], seq(|rings|, j => []))
  {
    hide Init, Inv, Held, Batch, AccountOf;
    forall j | 0 <= j < |rings|
      ensures Inv(g, rings[j]) && Held(g, rings[j]).Valid() && Batch(Held(g, rings[j])) == []
      ensures AccountOf(g, rings[j], [], j, [])
    {
      FreshRing(g, rings[j], j);
    }
    LoansReady(g, rings);
    assert ScapMerge.Idle(BatchesOf(g, rings));
  }

  lemma StartInv(g: Geometry, rings: seq<Ring>)
    requires AllInit(g, rings)
    ensures SystemInv(g, System(rings, Resting, [], seq(|rings|, j => []), [], []))
  {
    hide AllInit, AllInv, Accounts, BatchesOf, Drain;
    FreshRings(g, rings);
    assert Ends(Outs([]), []);
  }

  /** Exactly once and in order, on every CPU and in every interleaving of the reader with all
      producers and with flushes: what is not yet given back is the end of what was published;
      and if no event published on the ring is stamped 2^64-1, those published are those that
      left it, returned with its CPU or discarded by a flush, followed by those waiting. */
  lemma EveryCpuInOrder(g: Geometry, rings: seq<Ring>, turns: seq<Turn>, cpu: nat)
    requires AllInit(g, rings) && Runs(g, Start(g, rings), turns)
    requires cpu < |Final(g, Start(g, rings), turns).rings|
    ensures var y := Final(g, Start(g, rings), turns);
            && Inv(g, y.rings[cpu]) && |y.published| == |y.rings|
            && Ends(y.published[cpu], Pending(g, y.rings[cpu]))
            && (Whole(y.published[cpu]) ==> y.published[cpu] == Consumed(y.log, cpu) + Waiting(g, y.rings[cpu]))
  {
    hide Inv, Start, Runs, Waiting, Pending, Consumed, Held, Ends;
    AccountIs(g, Final(g, Start(g, rings), turns), cpu);
  }

  /** And in the order of the merge: the events returned since the last refill, with those that
      the merge of the unread batches still has, are the merge of what the refill read. */
  lemma ReturnsFollowMerge(g: Geometry, rings: seq<Ring>, turns: seq<Turn>)
    requires AllInit(g, rings) && Runs(g, Start(g, rings), turns)
    requires !Rereading(Final(g, Start(g, rings), turns).reader)
    ensures var y := Final(g, Start(g, rings), turns);
            && AllInv(g, y.rings) && Ends(Outs(y.log), y.since)
            && y.since + Drain(BatchesOf(g, y.rings)) == y.goal
  {
    hide AllInv, Start, Runs, ReaderOk, Accounts, BatchesOf, Drain, Outs, Ends;
  }

  /** A ring without events stamped 2^64-1 is never read anew while part of its batch has been
      given out. */
  lemma RefillIsDisciplined(g: Geometry, rings: seq<Ring>, turns: seq<Turn>)
    requires AllInit(g, rings) && Runs(g, Start(g, rings), turns)
    ensures var y := Final(g, Start(g, rings), turns);
            && |y.published| == |y.rings|
            && (y.reader.Refilling? && y.reader.next < |y.rings| && Whole(y.published[y.reader.next]) ==>
                  y.rings[y.reader.next].snLen == y.rings[y.reader.next].lastRead)
  {
    hide Start, Runs, Follows, Inv, AccountOf, ExhaustedRing, Whole;
    var y := Final(g, Start(g, rings), turns);
    if y.reader.Refilling? && y.reader.next < |y.rings| && Whole(y.published[y.reader.next]) {
      var j := y.reader.next;
      AccountIs(g, y, j);
      NotHeldUp(g, y.rings[j], y.log, j, y.published[j]);
    }
  }

  // ----- Order in time -----

  predicate AllSorted(published: seq<seq<seq<byte>>>) {
    forall j :: 0 <= j < |published| ==> Sorted(published[j])
  }

  lemma SortedPart(events: seq<seq<byte>>, i: nat, part: seq<seq<byte>>)
    requires Sorted(events) && i + |part| <= |events| && part == events[i..i + |part|]
    ensures Sorted(part)
  {
    hide Ts;
    forall a, b | 0 <= a < b < |part|
      ensures Ts(part[a]) <= Ts(part[b])
    {
      assert part[a] == events[i + a] && part[b] == events[i + b];
    }
  }

  lemma BatchSorted(g: Geometry, s: Ring, log: seq<Use>, cpu: nat, events: seq<seq<byte>>)
    requires Inv(g, s) && Held(g, s).Valid() && AccountOf(g, s, log, cpu, events) && Sorted(events)
    ensures Sorted(Below(Batch(Held(g, s))))
  {
    hide Inv, Held, Waiting, Pending, Batch, Consumed, Ts, Sorted, Whole;
    WaitingEnds(g, s);
    EndsOfEnd(events, Pending(g, s), Waiting(g, s));
    BatchWaits(g, s);
    BelowIsAll(Batch(Held(g, s)));
    var b, i := Below(Batch(Held(g, s))), |events| - |Waiting(g, s)|;
    assert b == Waiting(g, s)[..|b|] == events[i..i + |b|];
    SortedPart(events, i, b);
  }

  lemma GoalSorted(g: Geometry, y: System)
    requires SystemInv(g, y) && AllSorted(y.published)
    ensures Merged(Drain(BatchesOf(g, y.rings)))
  {
    hide Inv, Held, Batch, AccountOf, Accounts, ReaderOk, Follows, Below, Sorted, Drain, Merged;
    LoansReady(g, y.rings);
    forall j | 0 <= j < |y.rings|
      ensures Sorted(Below(BatchesOf(g, y.rings)[j]))
    {
      HeldIsValid(g, y.rings[j]);
      AccountIs(g, y, j);
      BatchSorted(g, y.rings[j], y.log, j, y.published[j]);
    }
    DrainIsSorted(BatchesOf(g, y.rings));
  }

  lemma {:induction false} GoalStaysSorted(g: Geometry, y: System, turns: seq<Turn>)
    requires SystemInv(g, y) && Runs(g, y, turns) && (AllSorted(y.published) ==> Merged(y.goal))
    ensures AllSorted(Final(g, y, turns).published) ==> Merged(Final(g, y, turns).goal)
    decreases |turns|
  {
    if turns != [] {
      hide SystemInv, Merged, Sorted, Allowed;
      TurnKeeps(g, y, turns[0]);
      TurnOrder(g, y, turns[0]);
      GoalStaysSorted(g, Next(g, y, turns[0]), turns[1..]);
    }
  }

  /** A turn only adds to what was published, and sets the goal only to the merge. */
  lemma TurnGoal(g: Geometry, y: System, t: Turn)
    requires SystemInv(g, y) && Allowed(g, y, t)
    ensures |Next(g, y, t).published| == |y.published|
    ensures forall j :: 0 <= j < |y.published| ==> y.published[j] <= Next(g, y, t).published[j]
    ensures Next(g, y, t).goal == y.goal || Next(g, y, t).goal == Drain(BatchesOf(g, y.rings))
  {
    hide AllInv, ReaderOk, Follows, AccountOf, Drain, BatchesOf, Emit, Step;
  }

  lemma TurnOrder(g: Geometry, y: System, t: Turn)
    requires SystemInv(g, y) && Allowed(g, y, t) && (AllSorted(y.published) ==> Merged(y.goal))
    ensures AllSorted(Next(g, y, t).published) ==> Merged(Next(g, y, t).goal)
  {
    hide SystemInv, Allowed, Next, Merged, Sorted, Drain, BatchesOf;
    TurnGoal(g, y, t);
    if AllSorted(Next(g, y, t).published) {
      forall j | 0 <= j < |y.published|
        ensures Sorted(y.published[j])
      {
        SortedPart(Next(g, y, t).published[j], 0, y.published[j]);
      }
      GoalSorted(g, y);
    }
  }

  /** If the events of every CPU are published in order of time, those returned since a refill
      come in order of time, and of CPU at the same time. */
  lemma ReturnsAreSorted(g: Geometry, rings: seq<Ring>, turns: seq<Turn>, i: nat, j: nat)
    requires AllInit(g, rings) && Runs(g, Start(g, rings), turns)
    requires AllSorted(Final(g, Start(g, rings), turns).published)
    requires !Rereading(Final(g, Start(g, rings), turns).reader)
    requires i < j < |Final(g, Start(g, rings), turns).since|
    ensures Ordered(Final(g, Start(g, rings), turns).since[i], Final(g, Start(g, rings), turns).since[j])
  {
    hide AllInv, ReaderOk, Accounts, BatchesOf, Drain, Ordered, Runs, Outs, Ends;
    GoalStaysSorted(g, Start(g, rings), turns);
    ReturnsFollowMerge(g, rings, turns);
    var y := Final(g, Start(g, rings), turns);
    assert y.goal[i] == y.since[i] && y.goal[j] == y.since[j];
  }

  // ----- What the reader's own turns do -----

  /** In the scan: on to the next ring; the one looked at is given back if it is used up. */
  lemma ScanTurn(g: Geometry, y: System)
    requires SystemInv(g, y) && y.reader.Scanning? && y.reader.next < |y.rings|
    ensures var z, j := Next(g, y, Read), y.reader.next;
            && z.reader.Scanning? && z.reader.next == j + 1 && |z.rings| == |y.rings|
            && z.log == y.log && z.since == y.since && z.goal == y.goal
            && (forall k :: 0 <= k < |y.rings| && k != j ==> z.rings[k] == y.rings[k])
            && z.rings[j].snLen == y.rings[j].snLen
            && z.rings[j].lastRead == if y.rings[j].snLen == 0 then 0 else y.rings[j].lastRead
  {
    hide Accounts, Follows, BestOf;
    var s := y.rings[y.reader.next];
    if s.snLen == 0 && s.lastRead > 0 {
      ReleaseFields(g, s);
    }
  }

  /** At its end: the first event of the merge is returned, or there is none and the refill
      begins. */
  lemma CallEnds(g: Geometry, y: System)
    requires SystemInv(g, y) && y.reader.Scanning? && y.reader.next == |y.rings|
    ensures var z := Next(g, y, Read);
            if ScapMerge.Idle(BatchesOf(g, y.rings)) then z == y.(reader := Refilling(0))
            else
              && z.reader == Resting && AllInv(g, z.rings) && |z.rings| == |y.rings|
              && |z.log| == |y.log| + 1 && z.log[..|y.log|] == y.log && z.log[|y.log|].Out?
              && Drain(BatchesOf(g, y.rings)) == [z.log[|y.log|].taken] + Drain(BatchesOf(g, z.rings))
  {
    hide Inv, Step, Enabled, Shape, Emit, Held, Waiting, Batch, BestOf, Accounts, BatchesOf, Drain, IsPick,
      ScapMerge.Idle;
    var cpu := y.reader.cpu;
    ScanPicks(g, y.rings, cpu, y.reader.ts);
    if cpu != NO_CPU {
      BestHolds(g, y.rings, |y.rings|, cpu, y.reader.ts);
      var s := y.rings[cpu];
      TakenHeld(g, s);
      var s', t := Step(g, s, Take), Taken(cpu, Emit(g, s, Take).event);
      OneRing(g, y.rings, cpu, s');
      PickLeads(BatchesOf(g, y.rings), cpu, t.event, Batch(Held(g, s')));
      PickUnique(BatchesOf(g, y.rings), cpu);
    }
  }

  /** In the refill: the ring is lent whole, every event that was not given back. */
  lemma RefillTurn(g: Geometry, y: System)
    requires SystemInv(g, y) && y.reader.Refilling? && y.reader.next < |y.rings|
    ensures var z, j := Next(g, y, Read), y.reader.next;
            && z.reader == Refilling(j + 1) && z.log == y.log && AllInv(g, z.rings) && |z.rings| == |y.rings|
            && BatchesOf(g, z.rings) == BatchesOf(g, y.rings)[j := Pending(g, y.rings[j])]
            && Pending(g, z.rings[j]) == Pending(g, y.rings[j])
            && forall k :: 0 <= k < |y.rings| && k != j ==> z.rings[k] == y.rings[k]
  {
    hide Inv, Step, Held, Batch, BatchesOf, Accounts, Follows, Exhausted;
    var j := y.reader.next;
    var s := y.rings[j];
    HeldIsValid(g, s);
    ReadIsRenewed(g, s);
    RenewedLendsAll(Held(g, s));
    CanRead(g, s);
    OneRing(g, y.rings, j, Step(g, s, ReadBuf));
    PendingSteps(g, s, ReadBuf);
    RenewedPending(g, s);
  }

  lemma RenewedPending(g: Geometry, s: Ring)
    requires Inv(g, s)
    ensures Held(g, s).Valid() && Pending(g, s) == Held(g, s).Queue().pending
  {
  }

  /** Turns of the reader alone. */
  ghost function Reads(g: Geometry, y: System, k: nat): (z: System)
    requires SystemInv(g, y)
    ensures SystemInv(g, z)
    decreases k
  {
    if k == 0 then y else
      TurnKeeps(g, y, Read);
      Reads(g, Next(g, y, Read), k - 1)
  }

  lemma {:induction false} ReadsMore(g: Geometry, y: System, a: nat, b: nat)
    requires SystemInv(g, y)
    ensures Reads(g, y, a + b) == Reads(g, Reads(g, y, a), b)
    decreases a
  {
    hide SystemInv, Next;
    if a > 0 {
      TurnKeeps(g, y, Read);
      ReadsMore(g, Next(g, y, Read), a - 1, b);
    }
  }

  lemma {:induction false} ScanAlone(g: Geometry, y: System)
    requires SystemInv(g, y) && y.reader.Scanning? && y.reader.next <= |y.rings|
    ensures var z := Reads(g, y, |y.rings| - y.reader.next);
            && z.reader.Scanning? && z.reader.next == |z.rings| == |y.rings|
            && z.log == y.log && z.since == y.since && z.goal == y.goal
    decreases |y.rings| - y.reader.next
  {
    hide SystemInv, Next;
    if y.reader.next < |y.rings| {
      TurnKeeps(g, y, Read);
      ScanTurn(g, y);
      ScanAlone(g, Next(g, y, Read));
    }
  }

  /** What is left of the merge does not change while the reader looks. */
  lemma SameMerge(g: Geometry, y: System, z: System)
    requires SystemInv(g, y) && SystemInv(g, z) && !Rereading(y.reader) && !Rereading(z.reader)
    requires z.since == y.since && z.goal == y.goal
    ensures AllInv(g, y.rings) && AllInv(g, z.rings) && Drain(BatchesOf(g, z.rings)) == Drain(BatchesOf(g, y.rings))
  {
    hide AllInv, ReaderOk, Accounts, BatchesOf, Drain, Outs, Ends;
    var a, b := Drain(BatchesOf(g, y.rings)), Drain(BatchesOf(g, z.rings));
    assert (y.since + a)[|y.since|..] == a && (z.since + b)[|z.since|..] == b;
  }

  lemma DrainNothing(batches: seq<seq<seq<byte>>>)
    ensures Drain(batches) == [] <==> ScapMerge.Idle(batches)
  {
  }

  /** A call, left alone, ends within a turn for every ring and two more: with the first event of
      the merge returned, or, if there is none, at the refill. */
  lemma CallAlone(g: Geometry, y: System)
    requires SystemInv(g, y) && y.reader.Resting?
    ensures AllInv(g, y.rings)
    ensures var z, d := Reads(g, y, |y.rings| + 2), Drain(BatchesOf(g, y.rings));
            if d == [] then z.reader == Refilling(0) && z.log == y.log
            else
              && z.reader == Resting && z.log == y.log + [Out(d[0])]
              && AllInv(g, z.rings) && Drain(BatchesOf(g, z.rings)) == d[1..]
  {
    hide AllInv, ReaderOk, Accounts, Follows, BatchesOf, Drain, ScapMerge.Idle;
    var n := |y.rings|;
    TurnKeeps(g, y, Read);
    var x := Next(g, y, Read);
    ScanAlone(g, x);
    var w := Reads(g, x, n);
    assert Reads(g, y, n + 1) == w;
    ReadsMore(g, y, n + 1, 1);
    OneRead(g, w);
    SameMerge(g, y, w);
    CallEnds(g, w);
    DrainNothing(BatchesOf(g, w.rings));
  }

  lemma OneRead(g: Geometry, y: System)
    requires SystemInv(g, y)
    ensures Reads(g, y, 1) == Next(g, y, Read)
  {
    hide SystemInv, Next;
    TurnKeeps(g, y, Read);
    assert Reads(g, y, 1) == Reads(g, Next(g, y, Read), 0);
  }

  /** And so does the refill, with every ring lent whole. */
  lemma {:induction false} RefillAlone(g: Geometry, y: System, n: nat)
    requires SystemInv(g, y) && y.reader.Refilling? && y.reader.next + n == |y.rings|
    ensures var z := Reads(g, y, n);
            && z.reader == Refilling(|y.rings|) && |z.rings| == |y.rings| && z.log == y.log
            && (forall k :: 0 <= k < y.reader.next ==> z.rings[k] == y.rings[k])
            && forall k :: y.reader.next <= k < |y.rings| ==>
                 Held(g, z.rings[k]).Valid() && Batch(Held(g, z.rings[k])) == Pending(g, y.rings[k])
    decreases n
  {
    hide SystemInv, Next, Inv, Held, Batch, Pending;
    if n > 0 {
      TurnKeeps(g, y, Read);
      RefillTurn(g, y);
      var w := Next(g, y, Read);
      BatchOfRing(g, w.rings, y.reader.next);
      RingsInv(g, y);
      RefillAlone(g, w, n - 1);
    }
    RingsInv(g, Reads(g, y, n));
    RingsInv(g, y);
  }

  lemma BatchOfRing(g: Geometry, rings: seq<Ring>, j: nat)
    requires AllInv(g, rings) && j < |rings|
    ensures Held(g, rings[j]).Valid() && |BatchesOf(g, rings)| == |rings|
    ensures BatchesOf(g, rings)[j] == Batch(Held(g, rings[j]))
  {
    LoansReady(g, rings);
  }

  lemma RingsInv(g: Geometry, y: System)
    requires SystemInv(g, y)
    ensures AllInv(g, y.rings)
  {
  }
}
