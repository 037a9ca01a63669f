/** The ring in memory, with the producer's and the consumer's operations on it. */
module RingDevice {
  import opened Bytes
  import opened Events
  import opened EventQueue
  import opened UserCopy
  import opened ArgEncoding
  import opened EventFiller
  import opened RingProtocol
  import opened RingRuns
  import opened RingPaths

  // ----- Staging an event behind head -----

  lemma HeaderInPlace(mem: seq<byte>, head: nat, h: Header, size: nat)
    requires head + HEADER <= |mem|
    requires mem[head..head + 16] == LittleEndian(h.ts, 8) + LittleEndian(h.tid, 8)
    requires mem[head + 16..head + 20] == LittleEndian(size, 4)
    requires mem[head + 20..head + 26] == LittleEndian(h.kind, 2) + LittleEndian(h.nparams, 4)
    ensures mem[head..head + HEADER] == HeaderBytes(h, size)
  {
    hide Bytes.LittleEndian;
    SliceSplit(mem, head, head + 16, head + 26);
    SliceSplit(mem, head + 16, head + 20, head + 26);
  }

  /** Header, slots and data, one behind the other, are the encoded event. */
  lemma EventInPlace(mem: seq<byte>, head: nat, h: Header, vals: seq<seq<byte>>, size: nat)
    requires size == EventSize(vals) && head + size <= |mem|
    requires mem[head..head + HEADER] == HeaderBytes(h, size)
    requires Layout(mem, head + HEADER, |vals|, vals)
    ensures mem[head..head + size] == EncodeEvent(h, vals)
  {
    hide Bytes.LittleEndian, LengthTable, Data, HeaderBytes;
    var base := head + HEADER;
    SliceSplit(mem, head, base, head + size);
    SliceSplit(mem, base, base + 2 * |vals|, head + size);
    ThreeParts(HeaderBytes(h, size), LengthTable(vals), Data(vals));
  }

  lemma LayoutKept(was: seq<byte>, mem: seq<byte>, lo: nat, hi: nat, base: nat, vals: seq<seq<byte>>)
    requires Layout(was, base, |vals|, vals) && Within(was, mem, lo, hi) && hi <= base
    ensures Layout(mem, base, |vals|, vals)
  {
    hide LengthTable, Data;
    WithinKeeps(was, mem, lo, hi, base, base + 2 * |vals|);
    WithinKeeps(was, mem, lo, hi, base + 2 * |vals|, base + 2 * |vals| + |Data(vals)|);
  }

  /** The header fields known before the filler runs. */
  method WriteHeader(buffer: array<byte>, head: nat, h: Header)
    requires head + HEADER <= buffer.Length
    modifies buffer
    ensures Within(old(buffer[..]), buffer[..], head, head + HEADER)
    ensures buffer[..][head..head + 16] == LittleEndian(h.ts, 8) + LittleEndian(h.tid, 8)
    ensures buffer[..][head + 20..head + 26] == LittleEndian(h.kind, 2) + LittleEndian(h.nparams, 4)
  {
    hide Within, Bytes.LittleEndian;
    ghost var was := buffer[..];
    Store(buffer, head, LittleEndian(h.ts, 8) + LittleEndian(h.tid, 8));
    ghost var mid := buffer[..];
    WithinWider(was, mid, head, head + 16, head, head + HEADER);
    Store(buffer, head + 20, LittleEndian(h.kind, 2) + LittleEndian(h.nparams, 4));
    WithinKeeps(mid, buffer[..], head + 20, head + 26, head, head + 16);
    WithinWider(mid, buffer[..], head + 20, head + 26, head, head + HEADER);
    WithinTwice(was, mid, buffer[..], head, head + HEADER);
  }

  /** What comes of an event offered with `budget` bytes: the bytes of its arguments, or why
      it is dropped.  A filler that adds too few arguments is counted like a full buffer. */
  function Offered(params: seq<ParamType>, args: seq<Arg>, budget: nat): Outcome<seq<seq<byte>>>
    requires AllKernelMemoryOk(params, args)
  {
    if budget < HEADER + 2 * |params| then BufferFull else
      var filled := Filled(params, args, budget - HEADER - 2 * |params|);
      if filled.Ok? && |args| < |params| then BufferFull else filled
  }

  /** The law of an offer: header and table have to fit, then every call decides in turn, and at
      the end there has to be an argument for every parameter. */
  ghost predicate IsOffer(r: Outcome<seq<seq<byte>>>, params: seq<ParamType>, args: seq<Arg>, budget: nat)
    requires AllKernelMemoryOk(params, args)
  {
    var space := budget - 26 - 2 * |params|;
    if space < 0 then r.BufferFull? else exists vals :: IsOfferOf(r, params, args, space, vals)
  }

  ghost predicate IsOfferOf(r: Outcome<seq<seq<byte>>>, params: seq<ParamType>, args: seq<Arg>, space: nat,
                            vals: seq<seq<byte>>)
    requires AllKernelMemoryOk(params, args)
  {
    && Succeed(params, args, space, vals)
    && if |vals| == |args| < |params| then r.BufferFull? else Ends(r, params, args, space, vals)
  }

  lemma OfferedLaw(params: seq<ParamType>, args: seq<Arg>, budget: nat)
    requires AllKernelMemoryOk(params, args)
    ensures IsOffer(Offered(params, args, budget), params, args, budget)
  {
    hide Filled, Succeed, IsArgument, AllKernelMemoryOk;
    var space := budget - HEADER - 2 * |params|;
    if space >= 0 {
      var vals := FilledLaw(params, args, space);
      SucceedShape(params, args, space, vals);
      FilledShape(params, args, space);
      OfferOf(Offered(params, args, budget), params, args, budget, vals);
    }
  }

  lemma OfferOf(r: Outcome<seq<seq<byte>>>, params: seq<ParamType>, args: seq<Arg>, budget: nat, vals: seq<seq<byte>>)
    requires AllKernelMemoryOk(params, args) && budget >= 26 + 2 * |params|
    requires IsOfferOf(r, params, args, budget - 26 - 2 * |params|, vals)
    ensures IsOffer(r, params, args, budget)
  {
  }

  lemma SucceedShape(params: seq<ParamType>, args: seq<Arg>, space: nat, vals: seq<seq<byte>>)
    requires AllKernelMemoryOk(params, args) && Succeed(params, args, space, vals)
    ensures |vals| <= |args| && |vals| <= |params|
  {
  }

  /** There is no other offer: committed, dropped as full, as a fault or as a bug is decided by
      the calls alone. */
  lemma OfferOnly(r: Outcome<seq<seq<byte>>>, params: seq<ParamType>, args: seq<Arg>, budget: nat)
    requires AllKernelMemoryOk(params, args) && IsOffer(r, params, args, budget)
    ensures r == Offered(params, args, budget)
  {
    hide Filled, Succeed, IsArgument, AllKernelMemoryOk;
    var space := budget - HEADER - 2 * |params|;
    if space >= 0 {
      var vals :| IsOfferOf(r, params, args, space, vals);
      SucceedShape(params, args, space, vals);
      FilledOnly(params, args, space, vals, if |vals| == |args| then Ok(vals) else r);
    }
  }

  /** Header, filler, length: everything written before head moves.  All stores stay within
      `budget` bytes of head, and the one terminator byte after them. */
  method Stage(buffer: array<byte>, head: nat, budget: nat, h: Header, params: seq<ParamType>, args: seq<Arg>)
    returns (r: Outcome<nat>)
    requires head + budget < buffer.Length && HEADER + 2 * |params| <= budget
    requires AllKernelMemoryOk(params, args)
    modifies buffer
    ensures SameStatus(r, Offered(params, args, budget)) && IsOffer(Offered(params, args, budget), params, args, budget)
    ensures r.Ok? ==> var vals := Offered(params, args, budget).value;
                      && r.value == EventSize(vals) <= budget
                      && buffer[..][head..head + r.value] == EncodeEvent(h, vals)
    ensures Within(old(buffer[..]), buffer[..], head, head + budget + 1)
  {
    hide Within, Layout, Filled, LengthTable, Data, EncodeEvent, Bytes.LittleEndian, AllKernelMemoryOk, IsOffer;
    OfferedLaw(params, args, budget);
    ghost var was, end := buffer[..], head + budget + 1;
    WriteHeader(buffer, head, h);
    ghost var m1 := buffer[..];
    WithinWider(was, m1, head, head + HEADER, head, end);
    var filler := new EventArgs(buffer, head + HEADER, params, budget - HEADER);
    FilledShape(params, args, budget - HEADER - 2 * |params|);
    r := filler.RunFiller(args);
    ghost var m2 := buffer[..];
    WithinKeeps(m1, m2, head + HEADER, end, head, head + 16);
    WithinKeeps(m1, m2, head + HEADER, end, head + 20, head + 26);
    WithinWider(m1, m2, head + HEADER, end, head, end);
    WithinTwice(was, m1, m2, head, end);
    if !r.Ok? {
      return;
    }
    if filler.curarg != |params| {
      return BufferFull;
    }
    var size := HEADER + filler.argDataOffset;
    Store(buffer, head + 16, LittleEndian(size, 4));
    FinishHeader(m2, buffer[..], head, h, filler.vals, size);
    WithinWider(m2, buffer[..], head + 16, head + 20, head, end);
    WithinTwice(was, m2, buffer[..], head, end);
    r := Ok(size);
  }

  lemma FinishHeader(was: seq<byte>, mem: seq<byte>, head: nat, h: Header, vals: seq<seq<byte>>, size: nat)
    requires size == EventSize(vals) && head + size <= |was| && Within(was, mem, head + 16, head + 20)
    requires was[head..head + 16] == LittleEndian(h.ts, 8) + LittleEndian(h.tid, 8)
    requires mem[head + 16..head + 20] == LittleEndian(size, 4)
    requires was[head + 20..head + 26] == LittleEndian(h.kind, 2) + LittleEndian(h.nparams, 4)
    requires Layout(was, head + HEADER, |vals|, vals)
    ensures mem[head..head + size] == EncodeEvent(h, vals)
  {
    hide Within, Layout, LengthTable, Data, EncodeEvent, HeaderBytes, Bytes.LittleEndian;
    WithinKeeps(was, mem, head + 16, head + 20, head, head + 16);
    WithinKeeps(was, mem, head + 16, head + 20, head + 20, head + 26);
    HeaderInPlace(mem, head, h, size);
    LayoutKept(was, mem, head + 16, head + 20, head + HEADER, vals);
    EventInPlace(mem, head, h, vals, size);
  }

  // ----- The window under those stores -----

  lemma MirrorLow(g: Geometry, b: seq<byte>, i: nat, j: nat)
    requires |b| >= g.ringSize && i <= j <= g.ringSize
    ensures Mirror(g, b)[i..j] == b[i..j]
  {
  }

  lemma MirrorAcross(g: Geometry, b: seq<byte>, i: nat, j: nat)
    requires |b| >= g.ringSize && i <= g.ringSize && g.ringSize <= j <= 2 * g.ringSize
    ensures Mirror(g, b)[i..j] == b[i..g.ringSize] + b[..j - g.ringSize]
  {
  }

  /** Stores between head and the budget do not show in the window. */
  lemma StagingKeepsWindow(g: Geometry, s: Ring, mem: seq<byte>)
    requires Shape(g, s) && Within(s.buffer, mem, s.head, s.head + Budget(g, s.head, s.tail) + 1)
    ensures Shape(g, s.(buffer := mem)) && Window(g, s.(buffer := mem)) == Window(g, s)
  {
    hide Within, Mirror;
    var lo, hi := s.head, s.head + Budget(g, s.head, s.tail) + 1;
    var used := ReadSize(g, s.head, s.tail);
    SpaceAccounting(g, s.head, s.tail);
    if s.tail <= s.head {
      WithinKeeps(s.buffer, mem, lo, hi, s.tail, s.head);
      MirrorLow(g, s.buffer, s.tail, s.tail + used);
      MirrorLow(g, mem, s.tail, s.tail + used);
    } else {
      WithinKeeps(s.buffer, mem, lo, hi, s.tail, g.ringSize);
      WithinKeeps(s.buffer, mem, lo, hi, 0, s.head);
      MirrorAcross(g, s.buffer, s.tail, s.tail + used);
      MirrorAcross(g, mem, s.tail, s.tail + used);
    }
  }

  /** Nor does the copy of the cushion to the start. */
  lemma WrapKeepsWindow(g: Geometry, s: Ring, mem: seq<byte>, size: nat)
    requires Shape(g, s) && size <= Budget(g, s.head, s.tail) && Overhang(g, s.head, size) > 0
    requires Within(s.buffer, mem, 0, Overhang(g, s.head, size))
    ensures Shape(g, s.(buffer := mem)) && Window(g, s.(buffer := mem)) == Window(g, s)
    ensures mem[s.head..s.head + size] == s.buffer[s.head..s.head + size]
    ensures mem[g.ringSize..s.head + size] == s.buffer[g.ringSize..s.head + size]
  {
    hide Within, Mirror;
    var over, used := Overhang(g, s.head, size), ReadSize(g, s.head, s.tail);
    SpaceAccounting(g, s.head, s.tail);
    assert over < s.tail <= s.head;
    WithinKeeps(s.buffer, mem, 0, over, s.tail, s.head);
    WithinKeeps(s.buffer, mem, 0, over, s.head, s.head + size);
    WithinKeeps(s.buffer, mem, 0, over, g.ringSize, s.head + size);
    MirrorLow(g, s.buffer, s.tail, s.tail + used);
    MirrorLow(g, mem, s.tail, s.tail + used);
  }

  /** A staged, wrapped event is ready to be published. */
  lemma ReadyToPublish(g: Geometry, s: Ring, mem: seq<byte>, size: nat)
    requires Inv(g, s) && s.producer.Idle? && |mem| == |s.buffer| && size <= Budget(g, s.head, s.tail)
    requires Window(g, s.(buffer := mem)) == Window(g, s)
    requires s.head + size <= |mem| && IsEvent(mem[s.head..s.head + size])
    requires var over := Overhang(g, s.head, size); mem[..over] == mem[g.ringSize..g.ringSize + over]
    ensures var ready := s.(buffer := mem, producer := Copying(size, Overhang(g, s.head, size)));
            Inv(g, ready) && Enabled(g, ready, Publish) && Abs(g, ready) == Abs(g, s)
  {
    hide Events.IsEvent, Events.Framed, Events.Split, Mirror;
    var ready := s.(buffer := mem, producer := Copying(size, Overhang(g, s.head, size)));
    assert LoanOf(g, ready) == LoanOf(g, s);
  }

  lemma InvShape(g: Geometry, s: Ring)
    requires Inv(g, s)
    ensures Shape(g, s)
  {
  }

  lemma StagedOnly(g: Geometry, s: Ring, mem: seq<byte>)
    requires Inv(g, s) && s.producer.Idle? && |mem| == |s.buffer|
    requires Shape(g, s.(buffer := mem)) && Window(g, s.(buffer := mem)) == Window(g, s)
    ensures Inv(g, s.(buffer := mem)) && Abs(g, s.(buffer := mem)) == Abs(g, s)
  {
    hide Events.Framed, Events.Split, Mirror;
    assert LoanOf(g, s.(buffer := mem)) == LoanOf(g, s);
  }

  /** Every committed event reads back as the arguments of its filler, none over the limit. */
  lemma OfferedRoundTrip(h: Header, params: seq<ParamType>, args: seq<Arg>, budget: nat)
    requires AllKernelMemoryOk(params, args) && Offered(params, args, budget).Ok?
    requires h.nparams == |params| <= MAX_EVENT_PARAMS && h.ts < TWO64 && budget < TWO31
    ensures var vals := Offered(params, args, budget).value;
            && IsEvent(EncodeEvent(h, vals)) && Timestamp(EncodeEvent(h, vals)) == h.ts
            && DecodeArgs(EncodeEvent(h, vals)) == Ok(vals)
            && |vals| == |params|
            && forall i :: 0 <= i < |vals| ==> |vals[i]| <= MAX_ARG_SIZE
  {
    hide Filled, EncodeEvent, Data, Events.IsEvent, DecodeArgs, Events.Timestamp;
    FilledShape(params, args, budget - HEADER - 2 * |params|);
    FilledIsSmall(params, args, budget - HEADER - 2 * |params|);
    EventRoundTrip(h, Offered(params, args, budget).value);
  }

  // ----- The device -----

  lemma WithinIsWrapped(g: Geometry, was: seq<byte>, mem: seq<byte>, over: nat)
    requires over <= g.ringSize && g.ringSize + over <= |was| && Within(was, mem, 0, over)
    requires mem[0..over] == was[g.ringSize..g.ringSize + over]
    ensures mem == Wrapped(g, was, over)
  {
    assert mem == mem[..over] + mem[over..];
  }

  lemma WrappedNothing(g: Geometry, mem: seq<byte>)
    requires g.ringSize <= |mem|
    ensures mem == Wrapped(g, mem, 0)
  {
  }

  /** Stores within the budget are the filler's steps. */
  lemma WithinPath(g: Geometry, s: Ring, mem: seq<byte>)
    requires Shape(g, s) && s.producer.Idle? && Within(s.buffer, mem, s.head, s.head + Budget(g, s.head, s.tail) + 1)
    ensures Path(g, s, s.(buffer := mem, producer := Filling(s.tail)))
  {
    SpaceAccounting(g, s.head, s.tail);
    StagedPath(g, s, mem);
  }

  lemma WrappedWithin(g: Geometry, mem: seq<byte>, over: nat)
    requires over <= g.ringSize && g.ringSize + over <= |mem|
    ensures |Wrapped(g, mem, over)| == |mem| && Within(mem, Wrapped(g, mem, over), 0, over)
    ensures Wrapped(g, mem, over)[..over] == mem[g.ringSize..g.ringSize + over]
    ensures Wrapped(g, mem, over)[g.ringSize..g.ringSize + over] == mem[g.ringSize..g.ringSize + over]
  {
  }

  /** A staged event, wrapped, is ready. */
  lemma WrappedIsReady(g: Geometry, s: Ring, mem: seq<byte>, size: nat)
    requires Shape(g, s) && |mem| == |s.buffer| && size <= Budget(g, s.head, s.tail)
    requires Window(g, s.(buffer := mem)) == Window(g, s) && s.head + size <= |mem|
    ensures var over := Overhang(g, s.head, size);
            && over <= g.ringSize && g.ringSize + over <= |mem|
            && var w := Wrapped(g, mem, over);
               && |w| == |mem| && w[s.head..s.head + size] == mem[s.head..s.head + size]
               && Window(g, s.(buffer := w)) == Window(g, s)
               && w[..over] == w[g.ringSize..g.ringSize + over]
  {
    SpaceAccounting(g, s.head, s.tail);
    var over := Overhang(g, s.head, size);
    hide Window, Mirror, Within, Wrapped;
    if over > 0 {
      WrappedWithin(g, mem, over);
      WrapKeepsWindow(g, s.(buffer := mem), Wrapped(g, mem, over), size);
    } else {
      WrappedNothing(g, mem);
    }
  }

  /** From staged to published: the queue grows by the event, along producer steps. */
  lemma PublishedState(g: Geometry, s: Ring, mem: seq<byte>, size: nat)
    requires Inv(g, s) && s.producer.Idle? && |mem| == |s.buffer| && size <= Budget(g, s.head, s.tail)
    requires Shape(g, s.(buffer := mem)) && Window(g, s.(buffer := mem)) == Window(g, s)
    requires s.head + size <= |mem| && IsEvent(mem[s.head..s.head + size])
    requires Path(g, s, s.(buffer := mem, producer := Filling(s.tail)))
    ensures var over := Overhang(g, s.head, size);
            && over <= g.ringSize && g.ringSize + over <= |mem|
            && var s' := s.(buffer := Wrapped(g, mem, over), head := HeadAfter(g, s.head, size));
               && Inv(g, s') && Path(g, s, s')
               && Abs(g, s') == Abs(g, s).(pending := Abs(g, s).pending + [mem[s.head..s.head + size]])
  {
    hide RingProtocol.Inv, RingProtocol.Abs, Window, Mirror, Events.IsEvent, Path, Wrapped;
    InvShape(g, s);
    var over := Overhang(g, s.head, size);
    PublishPath(g, s, mem, size);
    WrappedIsReady(g, s, mem, size);
    ReadyToPublish(g, s, Wrapped(g, mem, over), size);
    PublishStep(g, s.(buffer := Wrapped(g, mem, over), producer := Copying(size, over)));
  }

  class Device {
    const g: Geometry
    const buffer: array<byte>
    var head: nat
    var tail: nat
    var nEvts: nat
    var nDropsBuffer: nat
    var nDropsPf: nat
    var lastRead: nat
    var snPos: nat
    var snLen: nat

    /** The memory as a state of the protocol, between two producer calls. */
    ghost function View(): Ring
      reads this, buffer
    {
      Ring(buffer[..], head, tail, Idle, lastRead, snPos, snLen)
    }

    ghost predicate Valid()
      reads this, buffer
    {
      Inv(g, View())
    }

    /** The published events not yet released, and the reader's place among them. */
    ghost function Queue(): Fifo
      requires Valid()
      reads this, buffer
    {
      Abs(g, View())
    }

    /** `init_ring_buffer`: a zeroed ring with its cushion. */
    constructor (g: Geometry)
      requires g.Valid()
      ensures Valid() && Queue() == Fifo([], 0, 0) && this.g == g && fresh(buffer)
      ensures nEvts == 0 && nDropsBuffer == 0 && nDropsPf == 0
    {
      this.g := g;
      buffer := new byte[g.Allocated()](i => 0);
      head, tail, nEvts, nDropsBuffer, nDropsPf, lastRead, snPos, snLen := 0, 0, 0, 0, 0, 0, 0, 0;
      new;
      InitInv(g, View());
    }

    /** The event staged behind head is wrapped and published. */
    method PublishStaged(size: nat, ghost s: Ring)
      requires Inv(g, s) && View() == s.(buffer := buffer[..]) && buffer.Length == |s.buffer|
      requires Window(g, View()) == Window(g, s)
      requires size <= Budget(g, head, tail) && head + size <= buffer.Length && IsEvent(buffer[..][head..head + size])
      requires s.producer.Idle? && Path(g, s, s.(buffer := buffer[..], producer := Filling(s.tail)))
      modifies this`head, buffer
      ensures Valid() && Path(g, s, View())
      ensures Queue() == Abs(g, s).(pending := Abs(g, s).pending + [old(buffer[..][head..head + size])])
    {
      hide RingProtocol.Inv, RingProtocol.Abs, Window, Events.IsEvent, Path, Wrapped;
      InvShape(g, s);
      PublishedState(g, s, buffer[..], size);
      CopyCushion(size);
      head := HeadAfter(g, head, size);
    }

    /** What the event left in the cushion is copied to the start of the ring. */
    method CopyCushion(size: nat)
      requires Shape(g, View()) && size <= Budget(g, head, tail)
      modifies buffer
      ensures Shape(g, View()) && Window(g, View()) == old(Window(g, View()))
      ensures head + size <= buffer.Length && buffer[..][head..head + size] == old(buffer[..])[head..head + size]
      ensures var over := Overhang(g, head, size);
              && over <= g.ringSize && g.ringSize + over <= buffer.Length
              && buffer[..] == Wrapped(g, old(buffer[..]), over)
    {
      hide Within, RingProtocol.Mirror, Window, Wrapped;
      SpaceAccounting(g, head, tail);
      if head + size > g.ringSize {
        ghost var staged := View();
        Store(buffer, 0, buffer[g.ringSize..head + size]);
        WrapKeepsWindow(g, staged, buffer[..], size);
        WithinIsWrapped(g, staged.buffer, buffer[..], Overhang(g, head, size));
      } else {
        WrappedNothing(g, buffer[..]);
      }
    }

    /** `record_event_consumer` past the preemption gate, the filler being the calls `args`.
        The event is committed exactly when it fits the space, and then it is the next event
        of the queue; otherwise the queue is as before and one drop is counted. */
    method RecordEvent(h: Header, params: seq<ParamType>, args: seq<Arg>) returns (committed: bool)
      requires Valid() && AllKernelMemoryOk(params, args)
      requires h.nparams == |params| <= MAX_EVENT_PARAMS && h.ts < TWO64
      modifies this`head, this`nEvts, this`nDropsBuffer, this`nDropsPf, buffer
      ensures Valid() && nEvts == old(nEvts) + 1
      ensures var offer := Offered(params, args, Budget(g, old(head), tail));
              && IsOffer(offer, params, args, Budget(g, old(head), tail))
              && (committed <==> offer.Ok?)
              && (committed ==>
                    Queue() == old(Queue()).(pending := old(Queue()).pending + [EncodeEvent(h, offer.value)]))
              && nDropsBuffer == old(nDropsBuffer) + (if offer.BufferFull? then 1 else 0)
              && nDropsPf == old(nDropsPf) + (if offer.InvalidUserMemory? then 1 else 0)
      ensures !committed ==> Queue() == old(Queue()) && head == old(head)
      ensures Path(g, old(View()), View())
    {
      hide Path, Window, Within, Filled, EncodeEvent, RingProtocol.Inv, RingProtocol.Abs, AllKernelMemoryOk,
        RingProtocol.Mirror, Events.IsEvent, Events.Timestamp, DecodeArgs, Data, IsOffer;
      nEvts, committed := nEvts + 1, false;
      ghost var s := View();
      InvShape(g, s);
      SpaceAccounting(g, head, tail);
      var freespace := FreeSpace(g, head, tail);
      var budget := Min(freespace, DeltaFromEnd(g, head));
      OfferedLaw(params, args, budget);
      var r: Outcome<nat> := BufferFull;
      if freespace >= HEADER + 2 * |params| {
        r := Stage(buffer, head, budget, h, params, args);
        StagingKeepsWindow(g, s, buffer[..]);
        WithinPath(g, s, buffer[..]);
      } else {
        NoSteps(g, s);
      }
      if r.Ok? {
        OfferedRoundTrip(h, params, args, budget);
        PublishStaged(r.value, s);
        committed := true;
      } else {
        if freespace >= HEADER + 2 * |params| {
          AbortPath(g, s, buffer[..]);
        }
        StagedOnly(g, s, buffer[..]);
        if r.BufferFull? {
          nDropsBuffer := nDropsBuffer + 1;
        } else if r.InvalidUserMemory? {
          nDropsPf := nDropsPf + 1;
        }
      }
    }

    /** `scap_readbuf`: remember how much there is, hand out all of it. */
    method ReadBuf() returns (pos: nat, len: nat)
      requires Valid()
      modifies this`lastRead, this`snPos, this`snLen
      ensures Valid() && View() == Step(g, old(View()), RingProtocol.ReadBuf)
      ensures Queue() == Fifo(old(Queue()).pending, |old(Queue()).pending|, |old(Queue()).pending|)
      ensures pos == tail && len == snLen == lastRead == ReadSize(g, head, tail)
    {
      hide RingProtocol.Inv, RingProtocol.Abs, RingProtocol.Mirror;
      InvShape(g, View());
      ReadStep(g, View(), RingProtocol.ReadBuf);
      SpaceAccounting(g, head, tail);
      len := if tail > head then g.ringSize - tail + head else head - tail;
      pos := tail;
      lastRead, snPos, snLen := len, pos, len;
    }

    /** The flush made when the snaplen or the event mask changes: everything published so
        far and not yet seen is given up. */
    method Flush()
      requires Valid()
      modifies this`lastRead, this`snPos, this`snLen
      ensures Valid() && View() == Step(g, old(View()), RingProtocol.Flush)
      ensures Queue() == Fifo(old(Queue()).pending, |old(Queue()).pending|, 0)
    {
      hide RingProtocol.Inv, RingProtocol.Abs, RingProtocol.Mirror;
      InvShape(g, View());
      ReadStep(g, View(), RingProtocol.Flush);
      SpaceAccounting(g, head, tail);
      lastRead := if tail > head then g.ringSize - tail + head else head - tail;
      snPos := tail;
      snLen := 0;
    }

    /** The part of `scap_next_live` that looks at the next event of this ring and steps
        over it: the event is there, whole, and it is the oldest one not yet given. */
    method TakeNext() returns (e: seq<byte>)
      requires Valid() && snLen > 0
      modifies this`snPos, this`snLen
      ensures Valid() && Shape(g, old(View())) && Enabled(g, old(View()), Take)
      ensures View() == Step(g, old(View()), Take)
      ensures old(Queue()).left > 0 && e == old(Queue()).Unread()[0]
      ensures Queue() == old(Queue()).(left := old(Queue()).left - 1)
      ensures tail == old(tail) && lastRead == old(lastRead)
    {
      hide RingProtocol.Inv, RingProtocol.Abs, RingProtocol.Mirror, Events.LengthField;
      ghost var s := View();
      InvShape(g, s);
      NeverCorrupt(g, s);
      TakeStep(g, s);
      var held := Mirror(g, buffer[..])[snPos..snPos + snLen];
      var n := LengthField(held);
      e := held[..n];
      snPos, snLen := snPos + n, snLen - n;
    }

    /** `scap_advance_tail`: what was handed out before goes back to the producer. */
    method AdvanceTail()
      requires Valid() && snLen == 0 && lastRead > 0
      modifies this`tail, this`lastRead
      ensures Valid() && View() == Step(g, old(View()), Release)
      ensures Queue() == Fifo(old(Queue()).pending[old(Queue()).held..], 0, 0)
    {
      hide RingProtocol.Inv, RingProtocol.Abs, RingProtocol.Mirror;
      InvShape(g, View());
      ReleaseStep(g, View());
      SpaceAccounting(g, head, tail);
      var ttail := tail + lastRead;
      tail := if ttail < g.ringSize then ttail else ttail - g.ringSize;
      lastRead := 0;
    }
  }
}
