/** Sequences of producer steps, and the stores of a whole recording as such a sequence. */
module RingPaths {
  import opened Bytes
  import opened Events
  import opened RingProtocol

  /** The labels, all of them the producer's, lead from one state to the other. */
  predicate Leads(g: Geometry, s: Ring, ls: seq<Label>, s': Ring)
    decreases |ls|
  {
    if ls == [] then s' == s
    else Shape(g, s) && ByProducer(ls[0]) && Enabled(g, s, ls[0]) && Leads(g, Step(g, s, ls[0]), ls[1..], s')
  }

  ghost predicate Path(g: Geometry, s: Ring, s': Ring) {
    exists ls: seq<Label> :: Leads(g, s, ls, s')
  }

  lemma NoSteps(g: Geometry, s: Ring)
    ensures Path(g, s, s)
  {
    assert Leads(g, s, [], s);
  }

  lemma OneStep(g: Geometry, s: Ring, l: Label)
    requires Shape(g, s) && ByProducer(l) && Enabled(g, s, l)
    ensures Path(g, s, Step(g, s, l))
  {
    assert [l][1..] == [];
    assert Leads(g, Step(g, s, l), [], Step(g, s, l));
    assert Leads(g, s, [l], Step(g, s, l));
  }

  lemma {:induction false} LeadsOn(g: Geometry, s: Ring, ls: seq<Label>, mid: Ring, ks: seq<Label>, s': Ring)
    requires Leads(g, s, ls, mid) && Leads(g, mid, ks, s')
    ensures Leads(g, s, ls + ks, s')
    decreases |ls|
  {
    hide Shape, Enabled, Step, ByProducer;
    if ls == [] {
      assert ls + ks == ks;
    } else {
      LeadsOn(g, Step(g, s, ls[0]), ls[1..], mid, ks, s');
      assert (ls + ks)[1..] == ls[1..] + ks;
    }
  }

  lemma Onward(g: Geometry, s: Ring, mid: Ring, s': Ring)
    requires Path(g, s, mid) && Path(g, mid, s')
    ensures Path(g, s, s')
  {
    hide Leads;
    var ls :| Leads(g, s, ls, mid);
    var ks :| Leads(g, mid, ks, s');
    LeadsOn(g, s, ls, mid, ks, s');
  }

  // ----- Stores -----

  /** The memory when the stores have reached offset `i`. */
  function UpTo(was: seq<byte>, mem: seq<byte>, i: nat): seq<byte>
    requires |was| == |mem| && i <= |mem|
  {
    mem[..i] + was[i..]
  }

  lemma UpToStep(was: seq<byte>, mem: seq<byte>, i: nat)
    requires |was| == |mem| && i < |mem|
    ensures UpTo(was, mem, i)[i := mem[i]] == UpTo(was, mem, i + 1)
  {
  }

  /** The filler's stores, one by one. */
  lemma {:induction false} StoresPath(g: Geometry, s: Ring, mem: seq<byte>, i: nat)
    requires Shape(g, s) && s.producer.Filling? && |mem| == |s.buffer| && s.head <= i <= |mem|
    requires i <= s.head + Budget(g, s.head, s.producer.seenTail) + 1 && mem[..s.head] == s.buffer[..s.head]
    ensures Path(g, s, s.(buffer := UpTo(s.buffer, mem, i)))
    decreases i
  {
    if i == s.head {
      assert UpTo(s.buffer, mem, i) == s.buffer;
      NoSteps(g, s);
    } else {
      hide Path, Mirror;
      StoresPath(g, s, mem, i - 1);
      var mid := s.(buffer := UpTo(s.buffer, mem, i - 1));
      var l := Write(i - 1 - s.head, mem[i - 1]);
      UpToStep(s.buffer, mem, i - 1);
      OneStep(g, mid, l);
      Onward(g, s, mid, s.(buffer := UpTo(s.buffer, mem, i)));
    }
  }

  /** The first `c` bytes replaced by those behind the ring. */
  function Wrapped(g: Geometry, b: seq<byte>, c: nat): seq<byte>
    requires c <= g.ringSize && g.ringSize + c <= |b|
  {
    b[g.ringSize..g.ringSize + c] + b[c..]
  }

  lemma WrappedStep(g: Geometry, b: seq<byte>, c: nat)
    requires c < g.ringSize && g.ringSize + c < |b|
    ensures |Wrapped(g, b, c)| == |b| && Wrapped(g, b, c)[g.ringSize + c] == b[g.ringSize + c]
    ensures Wrapped(g, b, c)[c := b[g.ringSize + c]] == Wrapped(g, b, c + 1)
  {
  }

  /** The copy of the cushion, byte by byte. */
  lemma {:induction false} CopyPath(g: Geometry, s: Ring, size: nat, c: nat)
    requires Shape(g, s) && s.producer == Copying(size, 0) && c <= Overhang(g, s.head, size)
    requires c <= g.ringSize && g.ringSize + c <= |s.buffer|
    ensures Path(g, s, s.(buffer := Wrapped(g, s.buffer, c), producer := Copying(size, c)))
    decreases c
  {
    if c == 0 {
      assert Wrapped(g, s.buffer, 0) == s.buffer;
      NoSteps(g, s);
    } else {
      hide Path, Mirror;
      CopyPath(g, s, size, c - 1);
      WrappedStep(g, s.buffer, c - 1);
      var mid := s.(buffer := Wrapped(g, s.buffer, c - 1), producer := Copying(size, c - 1));
      OneStep(g, mid, CopyByte);
      Onward(g, s, mid, s.(buffer := Wrapped(g, s.buffer, c), producer := Copying(size, c)));
    }
  }

  function HeadAfter(g: Geometry, head: nat, size: nat): nat {
    if head + size >= g.ringSize then head + size - g.ringSize else head + size
  }

  /** A snapshot and the filler's stores. */
  lemma StagedPath(g: Geometry, s: Ring, mem: seq<byte>)
    requires Shape(g, s) && s.producer.Idle? && |mem| == |s.buffer| && mem[..s.head] == s.buffer[..s.head]
    requires var end := s.head + Budget(g, s.head, s.tail) + 1; 0 <= end <= |mem| && mem[end..] == s.buffer[end..]
    requires Budget(g, s.head, s.tail) >= 0
    ensures Path(g, s, s.(buffer := mem, producer := Filling(s.tail)))
  {
    hide Path;
    var filling := Step(g, s, Snapshot);
    var end := s.head + Budget(g, s.head, s.tail) + 1;
    OneStep(g, s, Snapshot);
    StoresPath(g, filling, mem, end);
    assert UpTo(s.buffer, mem, end) == mem;
    Onward(g, s, filling, s.(buffer := mem, producer := Filling(s.tail)));
  }

  /** An event that fails is given up. */
  lemma AbortPath(g: Geometry, s: Ring, mem: seq<byte>)
    requires Shape(g, s) && s.producer.Idle? && Shape(g, s.(buffer := mem))
    requires Path(g, s, s.(buffer := mem, producer := Filling(s.tail)))
    ensures Path(g, s, s.(buffer := mem))
  {
    hide Path;
    var filled := s.(buffer := mem, producer := Filling(s.tail));
    OneStep(g, filled, Abort);
    Onward(g, s, filled, s.(buffer := mem));
  }

  /** One that succeeds is wrapped and published. */
  lemma PublishPath(g: Geometry, s: Ring, mem: seq<byte>, size: nat)
    requires Shape(g, s) && s.producer.Idle? && Shape(g, s.(buffer := mem))
    requires Path(g, s, s.(buffer := mem, producer := Filling(s.tail)))
    requires size <= Budget(g, s.head, s.tail) && s.head + size <= g.Allocated() && IsEvent(mem[s.head..s.head + size])
    ensures var over := Overhang(g, s.head, size);
            && over <= g.ringSize && g.ringSize + over <= |mem|
            && Path(g, s, s.(buffer := Wrapped(g, mem, over), head := HeadAfter(g, s.head, size)))
  {
    hide Path, Mirror, Events.IsEvent;
    SpaceAccounting(g, s.head, s.tail);
    var over := Overhang(g, s.head, size);
    var filled := s.(buffer := mem, producer := Filling(s.tail));
    OneStep(g, filled, Commit(size));
    var chosen := filled.(producer := Copying(size, 0));
    Onward(g, s, filled, chosen);
    CopyPath(g, chosen, size, over);
    var copied := s.(buffer := Wrapped(g, mem, over), producer := Copying(size, over));
    Onward(g, s, chosen, copied);
    OneStep(g, copied, Publish);
    Onward(g, s, copied, Step(g, copied, Publish));
  }
}
