/** Whole runs of the ring protocol: any number of producer and consumer steps, in any
    interleaving. */
module RingRuns {
  import opened Bytes
  import opened Events
  import opened EventQueue
  import opened RingProtocol

  /** The steps are taken one after the other, each enabled where it is taken. */
  predicate Executes(g: Geometry, s: Ring, ls: seq<Label>)
    decreases |ls|
  {
    ls == [] || (Shape(g, s) && Enabled(g, s, ls[0]) && Executes(g, Step(g, s, ls[0]), ls[1..]))
  }

  /** As above, and the invariant holds in every state passed through. */
  predicate Runs(g: Geometry, s: Ring, ls: seq<Label>)
    decreases |ls|
  {
    Inv(g, s) && (ls == [] || (Enabled(g, s, ls[0]) && Runs(g, Step(g, s, ls[0]), ls[1..])))
  }

  lemma InitInv(g: Geometry, s: Ring)
    requires Init(g, s)
    ensures Inv(g, s) && Abs(g, s) == Fifo([], 0, 0)
  {
    assert Window(g, s) == [];
  }

  /** Safety: every state of every interleaving satisfies the invariant. */
  lemma {:induction false} AlwaysInv(g: Geometry, s: Ring, ls: seq<Label>)
    requires Inv(g, s) && Executes(g, s, ls)
    ensures Runs(g, s, ls)
    decreases |ls|
  {
    if ls != [] {
      hide RingProtocol.Inv, RingProtocol.Abs, RingProtocol.Emit;
      StepRefines(g, s, ls[0]);
      AlwaysInv(g, Step(g, s, ls[0]), ls[1..]);
    }
  }

  function Final(g: Geometry, s: Ring, ls: seq<Label>): (s': Ring)
    requires Runs(g, s, ls)
    ensures Inv(g, s')
    decreases |ls|
  {
    if ls == [] then s else Final(g, Step(g, s, ls[0]), ls[1..])
  }

  function Acts(g: Geometry, s: Ring, ls: seq<Label>): seq<Act>
    requires Runs(g, s, ls)
    decreases |ls|
  {
    if ls == [] then [] else [Emit(g, s, ls[0])] + Acts(g, Step(g, s, ls[0]), ls[1..])
  }

  /** The events published, in order. */
  function Published(acts: seq<Act>): seq<seq<byte>> {
    if acts == [] then [] else
      (match acts[0] case Enqueue(e) => [e] case _ => []) + Published(acts[1..])
  }

  /** The events that left the queue, handed to the reader or thrown away by a flush. */
  function Consumed(acts: seq<Act>): seq<seq<byte>> {
    if acts == [] then [] else
      (match acts[0] case Deliver(e) => [e] case Discard(es) => es case _ => []) + Consumed(acts[1..])
  }

  /** A new snapshot is taken only when nothing of what is held has been handed out. */
  predicate Disciplined(g: Geometry, s: Ring, ls: seq<Label>)
    requires Runs(g, s, ls)
    decreases |ls|
  {
    ls == [] ||
    ((ls[0].ReadBuf? ==> s.snLen == s.lastRead) && Disciplined(g, Step(g, s, ls[0]), ls[1..]))
  }

  /** A snapshot keeps the account of unread events exactly when nothing of what is held
      has been handed out; otherwise it hands those events out a second time. */
  lemma RereadExact(g: Geometry, s: Ring)
    requires Inv(g, s)
    ensures Inv(g, Step(g, s, ReadBuf))
    ensures Abs(g, Step(g, s, ReadBuf)).Unread() == Abs(g, s).Unread() <==> s.snLen == s.lastRead
  {
    ReadStep(g, s, ReadBuf);
    OneActionAccount(Abs(g, s), Borrow, Abs(g, Step(g, s, ReadBuf)));
    NothingGiven(LoanOf(g, s));
  }

  const SMALLEST: Geometry := Geometry(8192, 4096)

  /** The smallest ring, with two events lent and the first of them given out. */
  function HalfRead(): Ring {
    Ring(EmptyEvent(1) + EmptyEvent(2) + seq(16384 - 2 * HEADER, i => 0), 2 * HEADER, 0, Idle,
         2 * HEADER, HEADER, HEADER)
  }

  lemma HalfReadLoan()
    ensures Shape(SMALLEST, HalfRead()) && ProducerInv(SMALLEST, HalfRead())
    ensures LoanOf(SMALLEST, HalfRead()) == Loan(EmptyEvent(1) + EmptyEvent(2), 2 * HEADER, HEADER)
  {
    hide EmptyEvent;
    var s, both := HalfRead(), EmptyEvent(1) + EmptyEvent(2);
    assert Mirror(SMALLEST, s.buffer)[0..2 * HEADER] == s.buffer[..SMALLEST.ringSize][0..2 * HEADER] == both;
  }

  /** Reading anew leaves the unread events as they are. */
  predicate RereadKeeps(g: Geometry, s: Ring)
    requires Inv(g, s)
  {
    RereadExact(g, s);
    Abs(g, Step(g, s, ReadBuf)).Unread() == Abs(g, s).Unread()
  }

  /** Not there: the first event is lent again. */
  lemma RereadRepeats()
    ensures Inv(SMALLEST, HalfRead()) && !RereadKeeps(SMALLEST, HalfRead())
  {
    hide EmptyEvent, Window, Events.LengthField, Events.Timestamp, ProducerInv, Abs, Step, RereadKeeps;
    var a, b := EmptyEvent(1), EmptyEvent(2);
    EmptyEventIs(1);
    EmptyEventIs(2);
    HalfReadLoan();
    TwoEvents(a, b);
    var l := LoanOf(SMALLEST, HalfRead());
    assert l.bytes[..l.read] == a + b && l.bytes[..HEADER] == a;
    NotKept(SMALLEST, HalfRead());
  }

  lemma NotKept(g: Geometry, s: Ring)
    requires Inv(g, s)
    ensures RereadKeeps(g, s) <==> s.snLen == s.lastRead
  {
    hide Inv, Abs, Step;
    RereadExact(g, s);
  }

  lemma ActAccount(f: Fifo, a: Act, f': Fifo)
    requires FifoNext(f, a, f') && (a.Borrow? ==> f.left == f.held)
    ensures f.Unread() + Published([a]) == Consumed([a]) + f'.Unread()
  {
    OneActionAccount(f, a, f');
    assert Published([a][1..]) == [] && Consumed([a][1..]) == [];
  }

  /** One step moves at most one event in, and takes events out only at the front. */
  lemma StepAccount(g: Geometry, s: Ring, l: Label)
    requires Inv(g, s) && Enabled(g, s, l)
    requires l.ReadBuf? ==> s.snLen == s.lastRead
    ensures Inv(g, Step(g, s, l))
    ensures Abs(g, s).Unread() + Published([Emit(g, s, l)])
         == Consumed([Emit(g, s, l)]) + Abs(g, Step(g, s, l)).Unread()
  {
    hide Events.Framed, Events.Split, Events.IsEvent, RingProtocol.Step, RingProtocol.ProducerInv;
    StepRefines(g, s, l);
    NothingGiven(LoanOf(g, s));
    ActAccount(Abs(g, s), Emit(g, s, l), Abs(g, Step(g, s, l)));
  }

  /** FIFO over whole runs: whatever the interleaving, what was unread and what was then
      published is what was consumed, followed by what is unread now; each event once and
      in order. */
  lemma {:induction false} RunIsFifo(g: Geometry, s: Ring, ls: seq<Label>)
    requires Runs(g, s, ls) && Disciplined(g, s, ls)
    ensures Abs(g, s).Unread() + Published(Acts(g, s, ls))
         == Consumed(Acts(g, s, ls)) + Abs(g, Final(g, s, ls)).Unread()
    decreases |ls|
  {
    if ls != [] {
      var s', a := Step(g, s, ls[0]), Emit(g, s, ls[0]);
      StepAccount(g, s, ls[0]);
      RunIsFifo(g, s', ls[1..]);
      hide RingProtocol.Inv, RingProtocol.Abs, RingProtocol.Enabled, RingProtocol.Step, RingProtocol.Emit;
      ActsCons(a, Acts(g, s', ls[1..]));
      Rebracket(Abs(g, s).Unread(), Published([a]), Consumed([a]), Abs(g, s').Unread(),
                Published(Acts(g, s', ls[1..])), Consumed(Acts(g, s', ls[1..])), Abs(g, Final(g, s, ls)).Unread());
    }
  }

  lemma ActsCons(a: Act, rest: seq<Act>)
    ensures Published([a] + rest) == Published([a]) + Published(rest)
    ensures Consumed([a] + rest) == Consumed([a]) + Consumed(rest)
  {
    assert ([a] + rest)[1..] == rest;
    assert [a][1..] == [];
    assert Published([]) == [] && Consumed([]) == [];
  }

  lemma Rebracket<T>(u: seq<T>, p: seq<T>, c: seq<T>, u': seq<T>, ps: seq<T>, cs: seq<T>, u'': seq<T>)
    requires u + p == c + u' && u' + ps == cs + u''
    ensures u + (p + ps) == (c + cs) + u''
  {
    AppendAssociates(u, p, ps);
    AppendAssociates(c, u', ps);
    AppendAssociates(c, cs, u'');
  }

  /** From a fresh ring: what was published so far is what the reader was given or flushed,
      followed by the events still in the ring. */
  lemma FreshRunIsFifo(g: Geometry, s: Ring, ls: seq<Label>)
    requires Init(g, s) && Runs(g, s, ls) && Disciplined(g, s, ls)
    ensures Published(Acts(g, s, ls)) == Consumed(Acts(g, s, ls)) + Abs(g, Final(g, s, ls)).Unread()
  {
    InitInv(g, s);
    RunIsFifo(g, s, ls);
    assert [] + Published(Acts(g, s, ls)) == Published(Acts(g, s, ls));
  }
}
