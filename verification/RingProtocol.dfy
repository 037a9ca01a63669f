/** The per-CPU event ring shared by one kernel producer and one userspace consumer,
    as a machine of interleaved atomic steps over the shared memory.

    The producer snapshots head and tail, lets a filler write bytes past head, copies
    what landed in the overflow cushion back to offset 0, and publishes head.  The
    consumer snapshots the unread region, reads events through a mapping that shows the
    ring twice in a row, and moves tail only on a later call.  Every barrier of the
    source is a boundary between two steps. */
module RingProtocol {
  import opened Bytes
  import opened Events
  import opened EventQueue

  /** RING_BUF_SIZE and PAGE_SIZE.  That the ring holds two pages is checked when it is mapped;
      pages of 4096 bytes or more and sizes within a signed 32-bit word are what the kernel and
      the default of 8 MB give. */
  datatype Geometry = Geometry(ringSize: nat, pageSize: nat) {
    predicate Valid() {
      && pageSize >= 4096
      && ringSize >= 2 * pageSize
      && 2 * ringSize + 2 * pageSize < TWO31
    }

    function Allocated(): nat {
      ringSize + 2 * pageSize
    }
  }

  /** Bytes the producer may still use: one byte less than the gap up to tail. */
  function FreeSpace(g: Geometry, head: nat, tail: nat): int {
    if tail > head then tail - head - 1 else g.ringSize + tail - head - 1
  }

  /** Bytes from head to the end of the cushion, again less one. */
  function DeltaFromEnd(g: Geometry, head: nat): int {
    g.ringSize + 2 * g.pageSize - head - 1
  }

  function Budget(g: Geometry, head: nat, tail: nat): int {
    Min(FreeSpace(g, head, tail), DeltaFromEnd(g, head))
  }

  /** The reader's view of how much is unread. */
  function ReadSize(g: Geometry, head: nat, tail: nat): int {
    if tail > head then g.ringSize - tail + head else head - tail
  }

  function AdvancedTail(g: Geometry, tail: nat, n: nat): int {
    if tail + n < g.ringSize then tail + n else tail + n - g.ringSize
  }

  lemma SpaceAccounting(g: Geometry, head: nat, tail: nat)
    requires g.Valid() && head < g.ringSize && tail < g.ringSize
    ensures FreeSpace(g, head, tail) + ReadSize(g, head, tail) + 1 == g.ringSize
    ensures 0 <= FreeSpace(g, head, tail) < g.ringSize
    ensures 0 <= ReadSize(g, head, tail) < g.ringSize
    ensures 2 * g.pageSize <= DeltaFromEnd(g, head) < g.Allocated()
    ensures AdvancedTail(g, tail, ReadSize(g, head, tail)) == head
  {
  }

  /** The ring as the consumer maps it: `ringSize` bytes, then the same bytes again. */
  function Mirror(g: Geometry, buffer: seq<byte>): (m: seq<byte>)
    requires |buffer| >= g.ringSize
    ensures |m| == 2 * g.ringSize
  {
    buffer[..g.ringSize] + buffer[..g.ringSize]
  }

  // ----- The machine -----

  datatype Producer =
    | Idle
    | Filling(seenTail: nat)
    | Copying(size: nat, copied: nat)

  datatype Ring = Ring(
    buffer: seq<byte>, head: nat, tail: nat,
    producer: Producer,
    lastRead: nat, snPos: nat, snLen: nat)

  datatype Label =
    | Snapshot                          // producer reads head and tail
    | Write(offset: nat, value: byte)   // the filler stores one byte past head
    | Commit(size: nat)                 // the filler succeeded with an event of this size
    | Abort                             // the filler failed, or there was no room
    | CopyByte                          // one byte of the cushion is copied to the start
    | Publish                           // head moves over the event
    | ReadBuf                           // consumer snapshots head and tail
    | Take                              // consumer steps over the next event it holds
    | Flush                             // consumer snapshots and discards what it holds
    | Release                           // consumer moves tail over what it held

  predicate Shape(g: Geometry, s: Ring) {
    && g.Valid()
    && |s.buffer| == g.Allocated()
    && s.head < g.ringSize
    && s.tail < g.ringSize
    && s.snPos + s.snLen <= 2 * g.ringSize
  }

  /** The published bytes, as the reader sees them from tail on. */
  function Window(g: Geometry, s: Ring): (w: seq<byte>)
    requires Shape(g, s)
    ensures |w| == ReadSize(g, s.head, s.tail)
  {
    Mirror(g, s.buffer)[s.tail..s.tail + ReadSize(g, s.head, s.tail)]
  }

  /** The bytes the reader has still to look at. */
  function HeldBytes(g: Geometry, s: Ring): (w: seq<byte>)
    requires Shape(g, s)
    ensures |w| == s.snLen
  {
    Mirror(g, s.buffer)[s.snPos..s.snPos + s.snLen]
  }

  /** The bytes of the event that starts at head, cushion included. */
  function Staged(g: Geometry, s: Ring, size: nat): seq<byte>
    requires Shape(g, s) && s.head + size <= g.Allocated()
  {
    s.buffer[s.head..s.head + size]
  }

  function Overhang(g: Geometry, head: nat, size: nat): (n: nat) {
    if head + size > g.ringSize then head + size - g.ringSize else 0
  }

  predicate Enabled(g: Geometry, s: Ring, l: Label)
    requires Shape(g, s)
  {
    match l
    case Snapshot => s.producer.Idle?
    case Write(offset, _) => s.producer.Filling? && offset <= Budget(g, s.head, s.producer.seenTail)
                             && s.head + offset < g.Allocated()
    case Commit(size) => s.producer.Filling? && size <= Budget(g, s.head, s.producer.seenTail)
                         && s.head + size <= g.Allocated() && IsEvent(Staged(g, s, size))
    case Abort => s.producer.Filling?
    case CopyByte => s.producer.Copying? && s.producer.copied < Overhang(g, s.head, s.producer.size)
                     && g.ringSize + s.producer.copied < g.Allocated()
    case Publish => s.producer.Copying? && s.producer.copied == Overhang(g, s.head, s.producer.size)
    case ReadBuf => true
    case Take => s.snLen > 0 && NextEvent(HeldBytes(g, s)).Event?
    case Flush => true
    case Release => s.snLen == 0 && s.lastRead > 0
  }

  function Step(g: Geometry, s: Ring, l: Label): (s': Ring)
    requires Shape(g, s) && Enabled(g, s, l)
  {
    match l
    case Snapshot => s.(producer := Filling(s.tail))
    case Write(offset, value) => s.(buffer := s.buffer[s.head + offset := value])
    case Commit(size) => s.(producer := Copying(size, 0))
    case Abort => s.(producer := Idle)
    case CopyByte =>
      var c := s.producer.copied;
      s.(buffer := s.buffer[c := s.buffer[g.ringSize + c]], producer := Copying(s.producer.size, c + 1))
    case Publish =>
      var next := s.head + s.producer.size;
      s.(head := if next >= g.ringSize then next - g.ringSize else next, producer := Idle)
    case ReadBuf =>
      var n := ReadSize(g, s.head, s.tail);
      s.(lastRead := n, snPos := s.tail, snLen := n)
    case Take =>
      var n := |NextEvent(HeldBytes(g, s)).bytes|;
      s.(snPos := s.snPos + n, snLen := s.snLen - n)
    case Flush =>
      s.(lastRead := ReadSize(g, s.head, s.tail), snPos := s.tail, snLen := 0)
    case Release =>
      s.(tail := AdvancedTail(g, s.tail, s.lastRead), lastRead := 0)
  }

  predicate Init(g: Geometry, s: Ring) {
    && Shape(g, s)
    && s.head == 0 && s.tail == 0
    && s.producer.Idle?
    && s.lastRead == 0 && s.snPos == 0 && s.snLen == 0
  }

  // ----- The invariant -----

  function LoanOf(g: Geometry, s: Ring): Loan
    requires Shape(g, s)
  {
    Loan(Window(g, s), s.lastRead, s.snLen)
  }

  predicate ProducerInv(g: Geometry, s: Ring)
    requires Shape(g, s)
  {
    match s.producer
    case Idle => true
    case Filling(seenTail) =>
      FreeSpace(g, s.head, seenTail) <= FreeSpace(g, s.head, s.tail)
    case Copying(size, copied) =>
      && size <= Budget(g, s.head, s.tail)
      && IsEvent(Staged(g, s, size))
      && copied <= Overhang(g, s.head, size)
      && s.buffer[..copied] == s.buffer[g.ringSize..g.ringSize + copied]
  }

  predicate Inv(g: Geometry, s: Ring) {
    && Shape(g, s)
    && LoanOf(g, s).Valid()
    && (s.snLen > 0 ==> s.snPos == s.tail + s.lastRead - s.snLen)
    && ProducerInv(g, s)
  }

  /** The queue this memory stands for. */
  function Abs(g: Geometry, s: Ring): (f: Fifo)
    requires Inv(g, s)
    ensures f.Valid()
  {
    LoanOf(g, s).Queue()
  }

  function Emit(g: Geometry, s: Ring, l: Label): Act
    requires Shape(g, s) && Enabled(g, s, l)
    requires l.Publish? || l.Flush? ==> Inv(g, s)
  {
    match l
    case Publish => Enqueue(Staged(g, s, s.producer.size))
    case ReadBuf => Borrow
    case Take => Deliver(NextEvent(HeldBytes(g, s)).bytes)
    case Flush => Discard(Abs(g, s).Unread())
    case Release => Free
    case _ => Silent
  }

  // ----- Geometry of the shared memory -----

  /** No store made under the producer's snapshot, however stale its tail, lands in a byte
      the consumer can read, nor outside the allocation. */
  lemma WriteMissesReader(g: Geometry, s: Ring, offset: nat, k: nat)
    requires Inv(g, s) && s.producer.Filling? && offset <= Budget(g, s.head, s.producer.seenTail)
    requires k < ReadSize(g, s.head, s.tail)
    ensures s.head + offset < g.Allocated()
    ensures s.tail + k != s.head + offset && s.tail + k != s.head + offset + g.ringSize
  {
    SpaceAccounting(g, s.head, s.tail);
  }

  /** The two `- 1`s are exactly what makes room for the one-byte terminator: one byte
      further and the store would hit tail, or leave the allocation. */
  lemma BudgetIsTight(g: Geometry, head: nat, tail: nat)
    requires g.Valid() && head < g.ringSize && tail < g.ringSize
    ensures var beyond := head + Budget(g, head, tail) + 1;
            beyond == g.Allocated() || beyond == tail || beyond == tail + g.ringSize
  {
  }

  /** Index `idx` of the buffer is not one the reader can see among its `n` bytes from `at`. */
  predicate Outside(g: Geometry, at: nat, n: nat, idx: nat) {
    (idx < at || at + n <= idx) && (idx + g.ringSize < at || at + n <= idx + g.ringSize)
  }

  lemma UntouchedWindow(g: Geometry, b: seq<byte>, idx: nat, v: byte, at: nat, n: nat)
    requires |b| >= g.ringSize && idx < |b| && at + n <= 2 * g.ringSize
    requires Outside(g, at, n, idx) || idx >= g.ringSize
    ensures Mirror(g, b[idx := v])[at..at + n] == Mirror(g, b)[at..at + n]
  {
  }

  /** `used` published bytes end at head; with the overhang copied, the `size` bytes past
      head continue them in the mapping. */
  lemma Stitched(g: Geometry, b: seq<byte>, head: nat, tail: nat, used: nat, size: nat)
    requires |b| == g.Allocated() && head < g.ringSize && tail < g.ringSize
    requires tail + used == head || tail + used == head + g.ringSize
    requires used + size < g.ringSize && head + size <= g.Allocated()
    requires var over := Overhang(g, head, size); b[..over] == b[g.ringSize..g.ringSize + over]
    ensures Mirror(g, b)[tail..tail + used + size] == Mirror(g, b)[tail..tail + used] + b[head..head + size]
  {
    var m := Mirror(g, b);
    var over := Overhang(g, head, size);
    assert m[tail..tail + used + size] == m[tail..tail + used] + m[tail + used..tail + used + size];
    if tail + used != head || over == 0 {
      assert m[tail + used..tail + used + size] == b[head..head + size];
    } else {
      var cut := g.ringSize - head;
      assert size == cut + over;
      assert m[head..head + size] == b[head..g.ringSize] + b[..over];
      assert b[head..head + size] == b[head..g.ringSize] + b[g.ringSize..g.ringSize + over];
    }
  }

  /** The staged event continues the published bytes once its overhang has been copied. */
  lemma PublishedBytes(g: Geometry, s: Ring)
    requires Shape(g, s) && ProducerInv(g, s) && Enabled(g, s, Publish)
    ensures Shape(g, Step(g, s, Publish))
    ensures Window(g, Step(g, s, Publish)) == Window(g, s) + Staged(g, s, s.producer.size)
  {
    hide Events.IsEvent, Mirror;
    var s' := Step(g, s, Publish);
    SpaceAccounting(g, s.head, s.tail);
    assert ReadSize(g, s'.head, s'.tail) == ReadSize(g, s.head, s.tail) + s.producer.size;
    Stitched(g, s.buffer, s.head, s.tail, ReadSize(g, s.head, s.tail), s.producer.size);
  }

  lemma MirrorRepeats(g: Geometry, b: seq<byte>, at: nat, n: nat)
    requires |b| >= g.ringSize && g.ringSize <= at && at + n <= 2 * g.ringSize
    ensures Mirror(g, b)[at..at + n] == Mirror(g, b)[at - g.ringSize..at - g.ringSize + n]
  {
  }

  lemma ReleasedBytes(g: Geometry, s: Ring)
    requires Shape(g, s) && Enabled(g, s, Release) && s.lastRead <= ReadSize(g, s.head, s.tail)
    ensures Shape(g, Step(g, s, Release))
    ensures Window(g, Step(g, s, Release)) == Window(g, s)[s.lastRead..]
  {
    hide Mirror;
    var s', m := Step(g, s, Release), Mirror(g, s.buffer);
    var left := ReadSize(g, s.head, s.tail) - s.lastRead;
    SpaceAccounting(g, s.head, s.tail);
    assert ReadSize(g, s'.head, s'.tail) == left;
    SubSlice(m, s.tail, s.lastRead + left, s.lastRead, s.lastRead + left);
    if s.tail + s.lastRead >= g.ringSize {
      MirrorRepeats(g, s.buffer, s.tail + s.lastRead, left);
    }
  }

  // ----- Each step keeps the invariant and is a step of the queue -----

  /** A store outside the reader's window. */
  lemma StoreStep(g: Geometry, s: Ring, idx: nat, v: byte)
    requires Shape(g, s) && idx < g.Allocated()
    requires Outside(g, s.tail, ReadSize(g, s.head, s.tail), idx) || idx >= g.ringSize
    ensures Shape(g, s.(buffer := s.buffer[idx := v]))
    ensures LoanOf(g, s.(buffer := s.buffer[idx := v])) == LoanOf(g, s)
  {
    hide Events.IsEvent, Events.Framed, Events.Split;
    SpaceAccounting(g, s.head, s.tail);
    UntouchedWindow(g, s.buffer, idx, v, s.tail, ReadSize(g, s.head, s.tail));
  }

  lemma WriteStep(g: Geometry, s: Ring, offset: nat, v: byte)
    requires Inv(g, s) && Enabled(g, s, Write(offset, v))
    ensures Inv(g, Step(g, s, Write(offset, v)))
    ensures Abs(g, Step(g, s, Write(offset, v))) == Abs(g, s)
  {
    hide Events.IsEvent, Events.Framed, Events.Split;
    SpaceAccounting(g, s.head, s.tail);
    StoreStep(g, s, s.head + offset, v);
  }

  lemma OneMoreCopied(g: Geometry, b: seq<byte>, head: nat, size: nat, c: nat)
    requires |b| == g.Allocated() && c < head < g.ringSize && head + size <= g.Allocated()
    requires g.ringSize + c < g.Allocated()
    requires b[..c] == b[g.ringSize..g.ringSize + c]
    ensures var b' := b[c := b[g.ringSize + c]];
            b'[head..head + size] == b[head..head + size]
            && b'[..c + 1] == b'[g.ringSize..g.ringSize + c + 1]
  {
    var b' := b[c := b[g.ringSize + c]];
    assert b'[..c + 1] == b[..c] + [b[g.ringSize + c]];
    assert b'[g.ringSize..g.ringSize + c + 1] == b[g.ringSize..g.ringSize + c] + [b[g.ringSize + c]];
  }

  lemma CopyKeepsStaged(g: Geometry, s: Ring)
    requires Shape(g, s) && ProducerInv(g, s) && Enabled(g, s, CopyByte)
    ensures s.producer.copied < s.tail <= s.head
    ensures Shape(g, Step(g, s, CopyByte)) && ProducerInv(g, Step(g, s, CopyByte))
  {
    hide Events.IsEvent, Events.Framed, Events.Split;
    SpaceAccounting(g, s.head, s.tail);
    OneMoreCopied(g, s.buffer, s.head, s.producer.size, s.producer.copied);
  }

  lemma CopyStep(g: Geometry, s: Ring)
    requires Inv(g, s) && Enabled(g, s, CopyByte)
    ensures Inv(g, Step(g, s, CopyByte))
    ensures Abs(g, Step(g, s, CopyByte)) == Abs(g, s)
  {
    hide Events.IsEvent, Events.Framed, Events.Split;
    CopyKeepsStaged(g, s);
    StoreStep(g, s, s.producer.copied, s.buffer[g.ringSize + s.producer.copied]);
    assert LoanOf(g, Step(g, s, CopyByte)) == LoanOf(g, s);
  }

  lemma PublishStep(g: Geometry, s: Ring)
    requires Inv(g, s) && Enabled(g, s, Publish)
    ensures Inv(g, Step(g, s, Publish))
    ensures FifoNext(Abs(g, s), Emit(g, s, Publish), Abs(g, Step(g, s, Publish)))
  {
    hide Events.IsEvent, Events.Framed, Events.Split;
    PublishedBytes(g, s);
    SpaceAccounting(g, s.head, s.tail);
    LoanGrows(LoanOf(g, s), Staged(g, s, s.producer.size));
  }

  lemma ReadStep(g: Geometry, s: Ring, l: Label)
    requires Inv(g, s) && (l.ReadBuf? || l.Flush?)
    ensures Inv(g, Step(g, s, l))
    ensures FifoNext(Abs(g, s), Emit(g, s, l), Abs(g, Step(g, s, l)))
  {
    hide Events.IsEvent, Events.Framed, Events.Split, FifoNext, Loan.Queue, Mirror;
    SpaceAccounting(g, s.head, s.tail);
    assert Window(g, Step(g, s, l)) == Window(g, s);
    if l.ReadBuf? {
      LoanRenewed(LoanOf(g, s));
    } else {
      LoanFlushed(LoanOf(g, s));
    }
  }

  lemma HeldIsTail(g: Geometry, s: Ring)
    requires Inv(g, s) && s.snLen > 0
    ensures HeldBytes(g, s) == LoanOf(g, s).Rest()
  {
    hide Events.IsEvent, Events.Framed, Events.Split;
    SpaceAccounting(g, s.head, s.tail);
    SubSlice(Mirror(g, s.buffer), s.tail, ReadSize(g, s.head, s.tail), s.lastRead - s.snLen, s.lastRead);
  }

  /** The reader's "buffer corruption" branch is unreachable: where it looks, it finds the
      oldest event it has not been given. */
  lemma NeverCorrupt(g: Geometry, s: Ring)
    requires Inv(g, s) && s.snLen > 0
    ensures Abs(g, s).left > 0 && NextEvent(HeldBytes(g, s)) == Event(Abs(g, s).Unread()[0])
  {
    HeldIsTail(g, s);
    LoanNext(LoanOf(g, s));
  }

  lemma TakenLoan(g: Geometry, s: Ring)
    requires Shape(g, s) && Enabled(g, s, Take)
    ensures var n := LengthField(HeldBytes(g, s));
            HEADER <= n <= s.snLen && Emit(g, s, Take) == Deliver(HeldBytes(g, s)[..n])
            && Step(g, s, Take) == s.(snPos := s.snPos + n, snLen := s.snLen - n)
  {
  }

  lemma TakeStep(g: Geometry, s: Ring)
    requires Inv(g, s) && Enabled(g, s, Take)
    ensures Inv(g, Step(g, s, Take))
    ensures FifoNext(Abs(g, s), Emit(g, s, Take), Abs(g, Step(g, s, Take)))
  {
    hide Mirror, Events.LengthField, Events.IsEvent, Events.Framed, Events.Split, Step, Emit, FifoNext,
      Loan.Queue;
    var n := LengthField(HeldBytes(g, s));
    var l := LoanOf(g, s);
    TakenLoan(g, s);
    HeldIsTail(g, s);
    assert Framed(l.Rest()) by { Sections(l); }
    LoanTaken(l, n);
    assert LoanOf(g, Step(g, s, Take)) == l.(left := s.snLen - n);
  }

  lemma ReleaseStep(g: Geometry, s: Ring)
    requires Inv(g, s) && Enabled(g, s, Release)
    ensures Inv(g, Step(g, s, Release))
    ensures FifoNext(Abs(g, s), Emit(g, s, Release), Abs(g, Step(g, s, Release)))
  {
    hide Events.IsEvent, Events.Framed, Events.Split;
    SpaceAccounting(g, s.head, s.tail);
    ReleasedBytes(g, s);
    LoanReleased(LoanOf(g, s));
  }

  lemma SilentStep(g: Geometry, s: Ring, l: Label)
    requires Inv(g, s) && Enabled(g, s, l) && (l.Snapshot? || l.Commit? || l.Abort?)
    ensures Inv(g, Step(g, s, l)) && Abs(g, Step(g, s, l)) == Abs(g, s)
  {
    hide Events.IsEvent, Events.Framed, Events.Split;
    SpaceAccounting(g, s.head, s.tail);
    assert LoanOf(g, Step(g, s, l)) == LoanOf(g, s);
  }

  /** Refinement: every step of the ring is a step of the queue. */
  lemma StepRefines(g: Geometry, s: Ring, l: Label)
    requires Inv(g, s) && Enabled(g, s, l)
    ensures Inv(g, Step(g, s, l))
    ensures FifoNext(Abs(g, s), Emit(g, s, l), Abs(g, Step(g, s, l)))
  {
    match l
    case Write(offset, v) => WriteStep(g, s, offset, v);
    case CopyByte => CopyStep(g, s);
    case Publish => PublishStep(g, s);
    case ReadBuf => ReadStep(g, s, l);
    case Flush => ReadStep(g, s, l);
    case Take => TakeStep(g, s);
    case Release => ReleaseStep(g, s);
    case _ => SilentStep(g, s, l);
  }

  predicate ByProducer(l: Label) {
    l.Snapshot? || l.Write? || l.Commit? || l.Abort? || l.CopyByte? || l.Publish?
  }

  /** The bytes on loan to the reader, from the oldest it was shown to the newest. */
  function Lent(g: Geometry, s: Ring): seq<byte>
    requires Inv(g, s)
  {
    Window(g, s)[..s.lastRead]
  }

  /** What the reader holds stays as it was, whatever the producer does meanwhile. */
  lemma LentIsStable(g: Geometry, s: Ring, l: Label)
    requires Inv(g, s) && Enabled(g, s, l) && ByProducer(l)
    ensures Inv(g, Step(g, s, l)) && Lent(g, Step(g, s, l)) == Lent(g, s)
    ensures Step(g, s, l).tail == s.tail && Step(g, s, l).lastRead == s.lastRead
  {
    hide Events.Framed, Events.Split, Events.IsEvent;
    StepRefines(g, s, l);
    WindowGrows(g, s, l);
  }

  lemma WindowGrows(g: Geometry, s: Ring, l: Label)
    requires Shape(g, s) && ProducerInv(g, s) && Enabled(g, s, l) && ByProducer(l)
    ensures Shape(g, Step(g, s, l)) && Window(g, s) <= Window(g, Step(g, s, l))
  {
    hide Mirror, Events.IsEvent, Window;
    if l.Write? {
      WriteKeepsWindow(g, s, l.offset, l.value);
    } else if l.CopyByte? {
      CopyKeepsWindow(g, s);
    } else if l.Publish? {
      PublishedBytes(g, s);
    } else {
      SameWindow(g, s, Step(g, s, l));
    }
  }

  lemma SameWindow(g: Geometry, s: Ring, s': Ring)
    requires Shape(g, s) && s'.buffer == s.buffer && s'.head == s.head && s'.tail == s.tail
    requires s'.snPos == s.snPos && s'.snLen == s.snLen
    ensures Shape(g, s') && Window(g, s') == Window(g, s)
  {
  }

  lemma WriteKeepsWindow(g: Geometry, s: Ring, offset: nat, v: byte)
    requires Shape(g, s) && ProducerInv(g, s) && Enabled(g, s, Write(offset, v))
    ensures Shape(g, Step(g, s, Write(offset, v))) && Window(g, Step(g, s, Write(offset, v))) == Window(g, s)
  {
    hide Mirror, Window;
    SpaceAccounting(g, s.head, s.tail);
    StoreStep(g, s, s.head + offset, v);
  }

  lemma CopyKeepsWindow(g: Geometry, s: Ring)
    requires Shape(g, s) && ProducerInv(g, s) && Enabled(g, s, CopyByte)
    ensures Shape(g, Step(g, s, CopyByte)) && Window(g, Step(g, s, CopyByte)) == Window(g, s)
  {
    hide Mirror, Window, Events.IsEvent;
    SpaceAccounting(g, s.head, s.tail);
    CopyKeepsStaged(g, s);
    var c := s.producer.copied;
    StoreStep(g, s, c, s.buffer[g.ringSize + c]);
    SameWindow(g, s.(buffer := s.buffer[c := s.buffer[g.ringSize + c]]), Step(g, s, CopyByte));
  }
}
