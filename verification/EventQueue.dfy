/** The queue of whole events that the ring implements, and the loan of its oldest part
    to the reader, stated on the byte window the reader sees. */
module EventQueue {
  import opened Bytes
  import opened Events

  /** Published events not yet released; the first `held` are lent to the reader, who has
      still to look at the last `left` of those. */
  datatype Fifo = Fifo(pending: seq<seq<byte>>, held: nat, left: nat) {
    predicate Valid() {
      left <= held <= |pending|
    }

    /** What the reader has not yet been given. */
    function Unread(): seq<seq<byte>>
      requires Valid()
    {
      pending[held - left..]
    }
  }

  datatype Act =
    | Silent
    | Enqueue(event: seq<byte>)
    | Borrow
    | Deliver(event: seq<byte>)
    | Discard(events: seq<seq<byte>>)
    | Free

  /** The queue's own rule for each action. */
  predicate FifoNext(f: Fifo, a: Act, f': Fifo) {
    f.Valid() && f'.Valid() &&
    match a
    case Silent => f' == f
    case Enqueue(e) => f' == f.(pending := f.pending + [e])
    case Borrow => f' == f.(held := |f.pending|, left := |f.pending|)
    case Deliver(e) => f.left > 0 && e == f.Unread()[0] && f' == f.(left := f.left - 1)
    case Discard(es) => es == f.Unread() && f' == f.(held := |f.pending|, left := 0)
    case Free => f.left == 0 && f' == Fifo(f.pending[f.held..], 0, 0)
  }

  /** How one action moves events out of the unread part. */
  lemma OneActionAccount(f: Fifo, a: Act, f': Fifo)
    requires FifoNext(f, a, f')
    ensures a.Enqueue? ==> f'.Unread() == f.Unread() + [a.event]
    ensures a.Deliver? ==> f.Unread() == [a.event] + f'.Unread()
    ensures a.Discard? ==> f.Unread() == a.events && f'.Unread() == []
    ensures a.Silent? || a.Free? ==> f'.Unread() == f.Unread()
    ensures a.Borrow? ==> (f'.Unread() == f.Unread() <==> f.left == f.held)
  {
    match a
    case Deliver(e) => assert f.Unread() == [f.Unread()[0]] + f.Unread()[1..];
    case _ =>
  }

  // ----- The reader's view of the bytes -----

  /** What the reader finds where it expects the next event. */
  datatype Found = Corrupt | Event(bytes: seq<byte>)

  function NextEvent(held: seq<byte>): Found {
    if |held| < HEADER || LengthField(held) < HEADER || LengthField(held) > |held| then Corrupt
    else Event(held[..LengthField(held)])
  }

  /** All published bytes, how many of them were read out, and how many of those are left. */
  datatype Loan = Loan(bytes: seq<byte>, read: nat, left: nat) {
    predicate Valid() {
      && left <= read <= |bytes|
      && Framed(bytes)
      && Framed(bytes[..read])
      && Framed(bytes[..read - left])
    }

    function Rest(): seq<byte>
      requires Valid()
    {
      bytes[read - left..read]
    }

    function Queue(): (f: Fifo)
      requires Valid()
      ensures f.Valid()
    {
      Sections(this);
      Fifo(Split(bytes), |Split(bytes[..read])|, |Split(Rest())|)
    }
  }

  /** The window is: events given out, events left to give, events not yet lent. */
  lemma Sections(l: Loan)
    requires l.Valid()
    ensures Framed(l.Rest()) && Framed(l.bytes[l.read..])
    ensures Split(l.bytes[..l.read]) == Split(l.bytes[..l.read - l.left]) + Split(l.Rest())
    ensures Split(l.bytes) == Split(l.bytes[..l.read]) + Split(l.bytes[l.read..])
  {
    assert l.bytes[..l.read] == l.bytes[..l.read - l.left] + l.Rest();
    FramedRest(l.bytes[..l.read - l.left], l.Rest());
    assert l.bytes == l.bytes[..l.read] + l.bytes[l.read..];
    FramedRest(l.bytes[..l.read], l.bytes[l.read..]);
  }

  lemma LoanGrows(l: Loan, e: seq<byte>)
    requires l.Valid() && IsEvent(e)
    ensures l.(bytes := l.bytes + e).Valid()
    ensures FifoNext(l.Queue(), Enqueue(e), l.(bytes := l.bytes + e).Queue())
  {
    var w := l.bytes + e;
    SplitSingle(e);
    SplitConcat(l.bytes, e);
    assert w[..l.read] == l.bytes[..l.read];
    assert w[..l.read - l.left] == l.bytes[..l.read - l.left];
    assert w[l.read - l.left..l.read] == l.Rest();
  }

  lemma LoanRenewed(l: Loan)
    requires l.Valid()
    ensures Loan(l.bytes, |l.bytes|, |l.bytes|).Valid()
    ensures FifoNext(l.Queue(), Borrow, Loan(l.bytes, |l.bytes|, |l.bytes|).Queue())
  {
    assert l.bytes[..|l.bytes|] == l.bytes[0..|l.bytes|] == l.bytes;
  }

  lemma LoanFlushed(l: Loan)
    requires l.Valid()
    ensures Loan(l.bytes, |l.bytes|, 0).Valid()
    ensures FifoNext(l.Queue(), Discard(l.Queue().Unread()), Loan(l.bytes, |l.bytes|, 0).Queue())
  {
    assert l.bytes[..|l.bytes|] == l.bytes;
  }

  /** The unread events: those left of the loan, then those not yet lent. */
  lemma UnreadParts(l: Loan)
    requires l.Valid()
    ensures Framed(l.Rest()) && Framed(l.bytes[l.read..])
    ensures l.Queue().Unread() == Split(l.Rest()) + Split(l.bytes[l.read..])
  {
    hide Events.Framed, Events.Split;
    Sections(l);
    DropFirst(Split(l.bytes[..l.read - l.left]), Split(l.Rest()), Split(l.bytes[l.read..]));
  }

  lemma DropFirst<T>(a: seq<T>, b: seq<T>, c: seq<T>)
    ensures ((a + b) + c)[|a + b| - |b|..] == b + c
  {
  }

  /** Where the reader stands there is a whole event, the oldest unread one. */
  lemma LoanNext(l: Loan)
    requires l.Valid() && l.left > 0
    ensures l.Queue().left > 0 && NextEvent(l.Rest()) == Event(l.Queue().Unread()[0])
  {
    hide Events.LengthField, Events.Framed, Events.Split, NextEvent;
    Sections(l);
    UnreadParts(l);
    FrontOf(l.Rest());
  }

  lemma FrontOf(rest: seq<byte>)
    requires Framed(rest) && |rest| > 0
    ensures |Split(rest)| > 0 && NextEvent(rest) == Event(Split(rest)[0])
  {
    FirstOf(rest, LengthField(rest));
    hide Events.LengthField;
  }

  lemma FrontFits(rest: seq<byte>)
    requires Framed(rest) && |rest| > 0
    ensures |rest| >= HEADER && LengthField(rest) <= |rest|
  {
  }

  lemma LoanShrinks(l: Loan, n: nat)
    requires l.Valid() && l.left > 0 && Framed(l.Rest()) && n == LengthField(l.Rest())
    ensures n <= l.left && l.(left := l.left - n).Valid()
    ensures l.(left := l.left - n).Rest() == l.Rest()[n..]
  {
    hide Events.LengthField, Events.IsEvent, Events.Framed, Events.Split;
    FrontFits(l.Rest());
    FirstOf(l.Rest(), n);
    var given, e := l.bytes[..l.read - l.left], l.Rest()[..n];
    SplitSingle(e);
    SplitConcat(given, e);
    SubSlice(l.bytes, l.read - l.left, l.left, 0, n);
    SubSlice(l.bytes, l.read - l.left, l.left, n, l.left);
    SliceSplit(l.bytes, 0, l.read - l.left, l.read - l.left + n);
  }

  /** Stepping over that event is a delivery. */
  lemma LoanTaken(l: Loan, n: nat)
    requires l.Valid() && l.left > 0 && Framed(l.Rest()) && n == LengthField(l.Rest())
    ensures n <= l.left && l.(left := l.left - n).Valid()
    ensures FifoNext(l.Queue(), Deliver(l.Rest()[..n]), l.(left := l.left - n).Queue())
  {
    LoanNext(l);
    LoanShrinks(l, n);
    FirstOf(l.Rest(), n);
  }

  lemma LoanReleased(l: Loan)
    requires l.Valid() && l.left == 0
    ensures Loan(l.bytes[l.read..], 0, 0).Valid()
    ensures FifoNext(l.Queue(), Free, Loan(l.bytes[l.read..], 0, 0).Queue())
  {
    Sections(l);
  }

  /** The loan is untouched exactly when nothing lent has been given out. */
  lemma NothingGiven(l: Loan)
    requires l.Valid()
    ensures l.Queue().left == l.Queue().held <==> l.left == l.read
  {
    Sections(l);
  }
}
