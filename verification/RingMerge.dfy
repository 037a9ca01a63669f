/** The merge over rings in memory: what the reader's calls do to each device is what the ring
    protocol does to each ring, and what the producers do meanwhile is an arrival. */
module RingMerge {
  import opened Bytes
  import opened Events
  import opened EventQueue
  import opened RingProtocol
  import opened ScapMerge

  predicate AllInv(g: Geometry, rings: seq<Ring>) {
    |rings| <= NO_CPU && forall j :: 0 <= j < |rings| ==> Inv(g, rings[j])
  }

  /** A ring as the reader knows it. */
  function Held(g: Geometry, s: Ring): (l: Loan)
    requires Inv(g, s)
    ensures l.Valid() && l.left == s.snLen
  {
    LoanOf(g, s)
  }

  /** Each ring as the reader knows it. */
  function Loans(g: Geometry, rings: seq<Ring>): (devs: seq<Loan>)
    requires AllInv(g, rings)
    ensures |devs| == |rings| && forall j :: 0 <= j < |rings| ==> devs[j] == Held(g, rings[j])
  {
    seq(|rings|, j requires 0 <= j < |rings| => Held(g, rings[j]))
  }

  lemma HeldIsValid(g: Geometry, s: Ring)
    requires Inv(g, s)
    ensures Held(g, s).Valid() && Held(g, s).left == s.snLen
  {
  }

  lemma LoansReady(g: Geometry, rings: seq<Ring>)
    requires AllInv(g, rings)
    ensures Ready(Loans(g, rings))
  {
    hide Inv, Held;
    forall j | 0 <= j < |rings|
      ensures Loans(g, rings)[j].Valid()
    {
      HeldIsValid(g, rings[j]);
    }
  }

  lemma WindowSize(g: Geometry, s: Ring)
    requires Shape(g, s)
    ensures |Window(g, s)| == ReadSize(g, s.head, s.tail)
  {
  }

  /** Moving tail gives the loan back. */
  lemma ReleaseIsReleased(g: Geometry, s: Ring)
    requires Inv(g, s) && Enabled(g, s, Release)
    ensures Inv(g, Step(g, s, Release)) && Held(g, Step(g, s, Release)) == Released(Held(g, s))
  {
    hide Window, Events.Framed, Events.Split, ProducerInv, Abs, Emit;
    WindowSize(g, s);
    ReleaseStep(g, s);
    ReleasedBytes(g, s);
  }

  /** A new read renews it. */
  lemma ReadIsRenewed(g: Geometry, s: Ring)
    requires Inv(g, s)
    ensures Inv(g, Step(g, s, ReadBuf)) && Held(g, Step(g, s, ReadBuf)) == Renewed(Held(g, s))
  {
    hide Mirror, Events.Framed, Events.Split, ProducerInv;
    ReadStep(g, s, ReadBuf);
  }

  /** Stepping over an event takes the front of it. */
  lemma TakeIsTaken(g: Geometry, s: Ring)
    requires Inv(g, s) && s.snLen > 0
    ensures Enabled(g, s, Take) && Inv(g, Step(g, s, Take))
    ensures Emit(g, s, Take).Deliver? && Front(Held(g, s), Emit(g, s, Take).event)
    ensures var n := |Emit(g, s, Take).event|;
            Held(g, Step(g, s, Take)) == Held(g, s).(left := s.snLen - n)
  {
    hide Mirror, Events.Framed, Events.Split, Events.LengthField, ProducerInv;
    NeverCorrupt(g, s);
    TakenLoan(g, s);
    TakeStep(g, s);
    HeldIsTail(g, s);
  }

  /** Whatever the producer of a ring does, the reader sees nothing but arrivals. */
  lemma ProducerArrives(g: Geometry, rings: seq<Ring>, j: nat, l: Label)
    requires AllInv(g, rings) && j < |rings| && Enabled(g, rings[j], l) && ByProducer(l)
    ensures AllInv(g, rings[j := Step(g, rings[j], l)]) && Ready(Loans(g, rings))
    ensures Arrived(Loans(g, rings), Loans(g, rings[j := Step(g, rings[j], l)]))
  {
    hide Mirror, Loan.Valid, Events.IsEvent, ProducerInv;
    StepRefines(g, rings[j], l);
    WindowGrows(g, rings[j], l);
    LoansReady(g, rings);
    LoansReady(g, rings[j := Step(g, rings[j], l)]);
  }

  /** What the reader finds in memory where it expects the next event of a ring: the timestamp
      the merge goes by, and a length within what it holds. */
  lemma StampInMemory(g: Geometry, s: Ring)
    requires Inv(g, s) && s.snLen > 0
    ensures s.snLen >= HEADER && Timestamp(HeldBytes(g, s)) == HeadTs(Held(g, s))
    ensures LengthField(HeldBytes(g, s)) <= s.snLen
  {
    hide Mirror, Events.Framed, Events.Split, Events.LengthField, Events.Timestamp, ProducerInv, Batch;
    HeldIsTail(g, s);
    HeadEvent(Held(g, s));
  }

  /** The events of a ring that the reader has not been given yet. */
  function Waiting(g: Geometry, s: Ring): seq<seq<byte>>
    requires Inv(g, s)
  {
    Held(g, s).Queue().Unread()
  }

  /** A producer step adds the event it publishes, if any. */
  lemma WaitingGrows(g: Geometry, s: Ring, l: Label)
    requires Inv(g, s) && Enabled(g, s, l) && ByProducer(l)
    ensures Inv(g, Step(g, s, l))
    ensures Waiting(g, Step(g, s, l)) == Waiting(g, s) + (if l.Publish? then [Staged(g, s, s.producer.size)] else [])
    ensures Step(g, s, l).snLen == s.snLen && Step(g, s, l).lastRead == s.lastRead
  {
    StepRefines(g, s, l);
    hide Events.Framed, Events.Split, Window, ProducerInv, FifoNext;
    OneActionAccount(Abs(g, s), Emit(g, s, l), Abs(g, Step(g, s, l)));
  }

  lemma WaitingReleased(g: Geometry, s: Ring)
    requires Inv(g, s) && Enabled(g, s, Release)
    ensures Inv(g, Step(g, s, Release)) && Waiting(g, Step(g, s, Release)) == Waiting(g, s)
  {
    StepRefines(g, s, Release);
    hide Events.Framed, Events.Split, Window, ProducerInv, FifoNext;
    OneActionAccount(Abs(g, s), Free, Abs(g, Step(g, s, Release)));
  }

  lemma WaitingTaken(g: Geometry, s: Ring)
    requires Inv(g, s) && s.snLen > 0
    ensures Enabled(g, s, Take) && Inv(g, Step(g, s, Take)) && Emit(g, s, Take).Deliver?
    ensures Waiting(g, s) == [Emit(g, s, Take).event] + Waiting(g, Step(g, s, Take))
  {
    TakeIsTaken(g, s);
    StepRefines(g, s, Take);
    hide Events.Framed, Events.Split, Window, ProducerInv, FifoNext, HeldBytes;
    OneActionAccount(Abs(g, s), Emit(g, s, Take), Abs(g, Step(g, s, Take)));
  }

  /** A new read leaves what is waiting as it is exactly when nothing lent was given out. */
  lemma WaitingReread(g: Geometry, s: Ring)
    requires Inv(g, s)
    ensures Inv(g, Step(g, s, ReadBuf))
    ensures Waiting(g, Step(g, s, ReadBuf)) == Waiting(g, s) <==> s.snLen == s.lastRead
  {
    StepRefines(g, s, ReadBuf);
    NothingGiven(Held(g, s));
    hide Events.Framed, Events.Split, Window, ProducerInv, FifoNext;
    OneActionAccount(Abs(g, s), Borrow, Abs(g, Step(g, s, ReadBuf)));
  }

  /** The batch comes first among what is waiting. */
  lemma BatchWaits(g: Geometry, s: Ring)
    requires Inv(g, s)
    ensures Batch(Held(g, s)) <= Waiting(g, s)
  {
    hide Events.Framed, Window, ProducerInv;
    var l := Held(g, s);
    Sections(l);
    hide Events.Split;
    assert l.Queue().Unread() == Split(l.Rest()) + Split(l.bytes[l.read..]);
  }

  /** Everything published on a ring and not yet given back. */
  function Pending(g: Geometry, s: Ring): seq<seq<byte>>
    requires Inv(g, s)
  {
    Held(g, s).Queue().pending
  }

  predicate Ends<T(==)>(all: seq<T>, part: seq<T>) {
    |part| <= |all| && part == all[|all| - |part|..]
  }

  lemma EndsOfEnd<T>(all: seq<T>, part: seq<T>, less: seq<T>)
    requires Ends(all, part) && Ends(part, less)
    ensures Ends(all, less)
  {
  }

  lemma EndsGrow<T>(all: seq<T>, part: seq<T>, x: seq<T>)
    requires Ends(all, part)
    ensures Ends(all + x, part + x)
  {
  }

  lemma WaitingEnds(g: Geometry, s: Ring)
    requires Inv(g, s)
    ensures Ends(Pending(g, s), Waiting(g, s))
  {
    hide Inv, Held;
    HeldIsValid(g, s);
  }

  /** A flush discards what is waiting. */
  lemma WaitingFlushed(g: Geometry, s: Ring)
    requires Inv(g, s)
    ensures Inv(g, Step(g, s, Flush)) && Waiting(g, Step(g, s, Flush)) == []
  {
    StepRefines(g, s, Flush);
    hide Events.Framed, Events.Split, Window, ProducerInv, FifoNext;
    OneActionAccount(Abs(g, s), Emit(g, s, Flush), Abs(g, Step(g, s, Flush)));
  }

  /** What every step does to the events not yet given back. */
  lemma PendingSteps(g: Geometry, s: Ring, l: Label)
    requires Inv(g, s) && Enabled(g, s, l)
    ensures Inv(g, Step(g, s, l))
    ensures l.Publish? ==> Pending(g, Step(g, s, l)) == Pending(g, s) + [Emit(g, s, l).event]
    ensures l.Release? ==> Ends(Pending(g, s), Pending(g, Step(g, s, l)))
    ensures !l.Publish? && !l.Release? ==> Pending(g, Step(g, s, l)) == Pending(g, s)
  {
    StepRefines(g, s, l);
    hide Events.Framed, Events.Split, Window, ProducerInv;
  }
}
