/** Consumers of the driver: opening and closing ring devices, switching capture on and off,
    CPUs coming and going. */
module ConsumerLifecycle {

  /** One per-CPU ring of a consumer: which of its parts are allocated, and its flags. */
  datatype Ring = Ring(cpuOnline: bool, buffer: bool, info: bool, strStorage: bool, open: bool, capture: bool)

  const BLANK: Ring := Ring(false, false, false, false, false, false)
  const READY: Ring := Ring(true, true, true, true, false, false)

  datatype Consumer = Consumer(id: nat, rings: seq<Ring>)

  /** An open file: the thread that opened it and the ring it stands for. */
  datatype File = File(id: nat, ring: nat)

  datatype Driver = Driver(
    cpus: nat, maxConsumers: nat, consumers: seq<Consumer>, registered: bool, online: set<nat>, files: set<File>)

  datatype Ret = Success | EBusy | ENoMem | ENoDev

  /** What the allocators answer during an open: for the consumer itself, and for each ring. */
  datatype Memory = Memory(consumer: bool, rings: seq<bool>)

  // ----- Lookup -----

  /** Index of the consumer with this id, or the length of the list. */
  function Find(cs: seq<Consumer>, id: nat): (k: nat)
    ensures k <= |cs| && (k < |cs| ==> cs[k].id == id)
    ensures forall i :: 0 <= i < k ==> cs[i].id != id
  {
    if cs == [] || cs[0].id == id then 0 else
      var k := Find(cs[1..], id);
      assert forall i :: 1 <= i < k + 1 ==> cs[i] == cs[1..][i - 1];
      k + 1
  }

  predicate Distinct(cs: seq<Consumer>) {
    forall i, j :: 0 <= i < j < |cs| ==> cs[i].id != cs[j].id
  }

  predicate AnyOpen(c: Consumer) {
    exists r :: 0 <= r < |c.rings| && c.rings[r].open
  }

  function Without(cs: seq<Consumer>, k: nat): seq<Consumer>
    requires k < |cs|
  {
    cs[..k] + cs[k + 1..]
  }

  function SetRing(c: Consumer, r: nat, ring: Ring): Consumer
    requires r < |c.rings|
  {
    c.(rings := c.rings[r := ring])
  }

  // ----- Operations -----

  predicate AllAllocated(d: Driver, mem: Memory)
    requires |mem.rings| == d.cpus
  {
    forall i :: 0 <= i < d.cpus && i in d.online ==> mem.rings[i]
  }

  function NewConsumer(d: Driver, id: nat): Consumer {
    Consumer(id, seq(d.cpus, i => if i in d.online then READY else BLANK))
  }

  /** The list after the first part of `ppm_open`: the caller's consumer is found or made. */
  function Joined(d: Driver, id: nat, mem: Memory): (Ret, Driver)
    requires |mem.rings| == d.cpus
  {
    if Find(d.consumers, id) < |d.consumers| then (Success, d)
    else if |d.consumers| >= d.maxConsumers then (EBusy, d)
    else if !mem.consumer || !AllAllocated(d, mem) then (ENoMem, d)
    else (Success, d.(consumers := [NewConsumer(d, id)] + d.consumers))
  }

  /** The second part: the ring itself. */
  function Opened(d: Driver, k: nat, ring: nat): (Ret, Driver)
    requires k < |d.consumers| && ring < |d.consumers[k].rings|
  {
    var c := d.consumers[k];
    var r := c.rings[ring];
    if !r.cpuOnline || !r.buffer then (ENoDev, d)
    else if r.open then (EBusy, d)
    else
      (Success, d.(consumers := d.consumers[k := SetRing(c, ring, r.(open := true, capture := false))],
                   registered := true, files := d.files + {File(c.id, ring)}))
  }

  function Open(d: Driver, id: nat, ring: nat, mem: Memory): (Ret, Driver)
    requires Shaped(d) && ring < d.cpus && |mem.rings| == d.cpus
  {
    var (ret, d') := Joined(d, id, mem);
    if ret != Success then (ret, d') else
      Opened(d', Find(d'.consumers, id), ring)
  }

  function Release(d: Driver, id: nat, ring: nat): (Ret, Driver)
    requires Shaped(d) && ring < d.cpus
  {
    var k := Find(d.consumers, id);
    if k == |d.consumers| then (EBusy, d)
    else if !d.consumers[k].rings[ring].open then (EBusy, d)
    else
      var r := d.consumers[k].rings[ring].(open := false, capture := false);
      var c := SetRing(d.consumers[k], ring, r);
      var cs := if AnyOpen(c) then d.consumers[k := c] else Without(d.consumers, k);
      (Success, d.(consumers := cs, registered := d.registered && cs != [], files := d.files - {File(id, ring)}))
  }

  function Capture(d: Driver, id: nat, ring: nat, on: bool): (Ret, Driver)
    requires Shaped(d) && ring < d.cpus
  {
    var k := Find(d.consumers, id);
    if k == |d.consumers| then (EBusy, d)
    else
      var c := d.consumers[k];
      (Success, d.(consumers := d.consumers[k := SetRing(c, ring, c.rings[ring].(capture := on))]))
  }

  function Hotplug(d: Driver, cpu: nat, up: bool): Driver
    requires Shaped(d) && cpu < d.cpus
  {
    d.(online := if up then d.online + {cpu} else d.online - {cpu},
       consumers := seq(|d.consumers|, k requires 0 <= k < |d.consumers| =>
         SetRing(d.consumers[k], cpu, d.consumers[k].rings[cpu].(cpuOnline := up))))
  }

  // ----- Invariant -----

  predicate Shaped(d: Driver) {
    forall k :: 0 <= k < |d.consumers| ==> |d.consumers[k].rings| == d.cpus
  }

  /** Parts are allocated together; only an allocated ring is open, only an open one captures,
      and only with the tracepoints registered; the open rings are the open files. */
  predicate RingOk(d: Driver, id: nat, r: nat, ring: Ring) {
    && (ring.buffer <==> ring.info) && (ring.buffer <==> ring.strStorage)
    && (ring.open ==> ring.buffer && d.registered)
    && (ring.capture ==> ring.open)
    && (ring.open <==> File(id, r) in d.files)
  }

  predicate ConsumerOk(d: Driver, c: Consumer) {
    |c.rings| == d.cpus && forall r :: 0 <= r < |c.rings| ==> RingOk(d, c.id, r, c.rings[r])
  }

  predicate FileOk(d: Driver, f: File) {
    f.ring < d.cpus && Find(d.consumers, f.id) < |d.consumers|
  }

  predicate Inv(d: Driver) {
    && |d.consumers| <= d.maxConsumers && Distinct(d.consumers)
    && (forall k :: 0 <= k < |d.consumers| ==> ConsumerOk(d, d.consumers[k]))
    && (d.registered ==> d.consumers != [])
    && (forall f :: f in d.files ==> FileOk(d, f))
  }

  lemma FindSome(cs: seq<Consumer>, k: nat, id: nat)
    requires k < |cs| && cs[k].id == id
    ensures Find(cs, id) < |cs|
  {
  }

  // ----- Every operation keeps it -----

  lemma NewIsOk(d: Driver, id: nat)
    requires Inv(d) && Find(d.consumers, id) == |d.consumers|
    ensures ConsumerOk(d, NewConsumer(d, id)) && !AnyOpen(NewConsumer(d, id))
  {
    var c := NewConsumer(d, id);
    forall r | 0 <= r < |c.rings|
      ensures RingOk(d, id, r, c.rings[r])
    {
      assert File(id, r) in d.files ==> FileOk(d, File(id, r));
    }
  }

  lemma JoinedKeeps(d: Driver, id: nat, mem: Memory)
    requires Inv(d) && |mem.rings| == d.cpus
    ensures Inv(Joined(d, id, mem).1)
    ensures Joined(d, id, mem).0 == Success ==>
              Find(Joined(d, id, mem).1.consumers, id) < |Joined(d, id, mem).1.consumers|
  {
    var (ret, d') := Joined(d, id, mem);
    if d' != d {
      NewIsOk(d, id);
      var c := NewConsumer(d, id);
      assert d'.consumers == [c] + d.consumers;
      assert forall k :: 1 <= k < |d'.consumers| ==> d'.consumers[k] == d.consumers[k - 1];
      forall k | 0 <= k < |d'.consumers|
        ensures ConsumerOk(d', d'.consumers[k])
      {
        SameOk(d, d', if k == 0 then c else d.consumers[k - 1]);
      }
      forall f | f in d'.files
        ensures FileOk(d', f)
      {
        FindSome(d'.consumers, Find(d.consumers, f.id) + 1, f.id);
      }
    }
  }

  /** A consumer's state depends only on its own files and on registration. */
  lemma SameOk(d: Driver, d': Driver, c: Consumer)
    requires ConsumerOk(d, c) && d'.cpus == d.cpus && (d.registered ==> d'.registered)
    requires forall r :: 0 <= r < d.cpus ==> (File(c.id, r) in d'.files <==> File(c.id, r) in d.files)
    ensures ConsumerOk(d', c)
  {
    forall r | 0 <= r < |c.rings|
      ensures RingOk(d', c.id, r, c.rings[r])
    {
      assert RingOk(d, c.id, r, c.rings[r]);
    }
  }

  /** Replacing one consumer by one of the same id. */
  lemma ReplacedKeeps(d: Driver, d': Driver, k: nat, c: Consumer)
    requires Inv(d) && k < |d.consumers| && c.id == d.consumers[k].id
    requires d' == d.(consumers := d.consumers[k := c], registered := d'.registered, files := d'.files)
    requires d.registered ==> d'.registered
    requires ConsumerOk(d', c)
    requires forall f :: f in d'.files ==> f in d.files || (f.id == c.id && f.ring < d.cpus)
    requires forall f :: f in d.files ==> f in d'.files || f.id == c.id
    ensures Inv(d')
  {
    forall j | 0 <= j < |d'.consumers|
      ensures ConsumerOk(d', d'.consumers[j])
    {
      if j != k {
        assert ConsumerOk(d, d.consumers[j]);
        SameOk(d, d', d.consumers[j]);
      }
    }
    forall f | f in d'.files
      ensures FileOk(d', f)
    {
      if f in d.files {
        assert FileOk(d, f);
        FindSome(d'.consumers, Find(d.consumers, f.id), f.id);
      } else {
        FindSome(d'.consumers, k, f.id);
      }
    }
  }

  lemma OpenedKeeps(d: Driver, k: nat, ring: nat)
    requires Inv(d) && k < |d.consumers| && ring < d.cpus
    ensures |d.consumers[k].rings| == d.cpus && Inv(Opened(d, k, ring).1)
  {
    assert ConsumerOk(d, d.consumers[k]);
    var (ret, d') := Opened(d, k, ring);
    if ret == Success {
      var c := d'.consumers[k];
      forall r | 0 <= r < |c.rings|
        ensures RingOk(d', c.id, r, c.rings[r])
      {
        assert RingOk(d, c.id, r, d.consumers[k].rings[r]);
      }
      ReplacedKeeps(d, d', k, c);
    }
  }

  lemma OpenKeeps(d: Driver, id: nat, ring: nat, mem: Memory)
    requires Inv(d) && ring < d.cpus && |mem.rings| == d.cpus
    ensures Shaped(d) && Inv(Open(d, id, ring, mem).1)
  {
    InvShape(d);
    JoinedKeeps(d, id, mem);
    var (ret, d') := Joined(d, id, mem);
    if ret == Success {
      OpenedKeeps(d', Find(d'.consumers, id), ring);
    }
  }

  lemma InvShape(d: Driver)
    requires Inv(d)
    ensures Shaped(d)
  {
    forall k | 0 <= k < |d.consumers|
      ensures |d.consumers[k].rings| == d.cpus
    {
      assert ConsumerOk(d, d.consumers[k]);
    }
  }

  lemma CaptureKeeps(d: Driver, f: File, on: bool)
    requires Inv(d) && f in d.files
    ensures Shaped(d) && f.ring < d.cpus
    ensures Capture(d, f.id, f.ring, on).0 == Success && Inv(Capture(d, f.id, f.ring, on).1)
  {
    InvShape(d);
    assert FileOk(d, f);
    var k := Find(d.consumers, f.id);
    var d' := Capture(d, f.id, f.ring, on).1;
    var was, c := d.consumers[k], d'.consumers[k];
    assert ConsumerOk(d, was);
    assert RingOk(d, f.id, f.ring, was.rings[f.ring]);
    forall r | 0 <= r < |c.rings|
      ensures RingOk(d', c.id, r, c.rings[r])
    {
      assert RingOk(d, was.id, r, was.rings[r]);
    }
    ReplacedKeeps(d, d', k, c);
  }

  lemma OnlyFile(d: Driver, f: File, g: File)
    requires Inv(d) && f in d.files && g in d.files && g.id == f.id && g != f
    ensures Shaped(d) && FileOk(d, f)
    ensures var c := d.consumers[Find(d.consumers, f.id)];
            AnyOpen(SetRing(c, f.ring, c.rings[f.ring].(open := false, capture := false)))
  {
    InvShape(d);
    assert FileOk(d, f) && FileOk(d, g);
    var c := d.consumers[Find(d.consumers, f.id)];
    assert ConsumerOk(d, c);
    assert RingOk(d, c.id, g.ring, c.rings[g.ring]);
    assert SetRing(c, f.ring, c.rings[f.ring].(open := false, capture := false)).rings[g.ring].open;
  }

  /** Closing an open file always succeeds. */
  lemma ReleaseKeeps(d: Driver, f: File)
    requires Inv(d) && f in d.files
    ensures Shaped(d) && f.ring < d.cpus
    ensures Release(d, f.id, f.ring).0 == Success && Inv(Release(d, f.id, f.ring).1)
  {
    InvShape(d);
    assert FileOk(d, f);
    var k := Find(d.consumers, f.id);
    var was := d.consumers[k];
    assert ConsumerOk(d, was);
    assert RingOk(d, f.id, f.ring, was.rings[f.ring]);
    var c := SetRing(was, f.ring, was.rings[f.ring].(open := false, capture := false));
    var d' := Release(d, f.id, f.ring).1;
    if AnyOpen(c) {
      forall r | 0 <= r < |c.rings|
        ensures RingOk(d', c.id, r, c.rings[r])
      {
        assert RingOk(d, was.id, r, was.rings[r]);
      }
      ReplacedKeeps(d, d', k, c);
    } else {
      forall g | g in d.files && g.id == f.id
        ensures g == f
      {
        if g != f {
          OnlyFile(d, f, g);
        }
      }
      RemovedKeeps(d, f, k);
    }
  }

  lemma RemovedKeeps(d: Driver, f: File, k: nat)
    requires Inv(d) && f in d.files && k < |d.consumers| && d.consumers[k].id == f.id
    requires forall g :: g in d.files && g.id == f.id ==> g == f
    ensures var cs := Without(d.consumers, k);
            Inv(d.(consumers := cs, registered := d.registered && cs != [], files := d.files - {f}))
  {
    var cs := Without(d.consumers, k);
    var d' := d.(consumers := cs, registered := d.registered && cs != [], files := d.files - {f});
    assert forall j :: 0 <= j < |cs| ==> cs[j] == d.consumers[if j < k then j else j + 1];
    forall j | 0 <= j < |cs|
      ensures ConsumerOk(d', cs[j])
    {
      assert ConsumerOk(d, cs[j]) && cs[j].id != f.id;
      SameOk(d, d', cs[j]);
    }
    forall g | g in d'.files
      ensures FileOk(d', g)
    {
      assert FileOk(d, g) && g.id != f.id;
      var j := Find(d.consumers, g.id);
      assert cs[if j < k then j else j - 1] == d.consumers[j];
      FindSome(cs, if j < k then j else j - 1, g.id);
    }
  }

  lemma HotplugKeeps(d: Driver, cpu: nat, up: bool)
    requires Inv(d) && cpu < d.cpus
    ensures Shaped(d) && Inv(Hotplug(d, cpu, up))
  {
    InvShape(d);
    var d' := Hotplug(d, cpu, up);
    forall k | 0 <= k < |d'.consumers|
      ensures ConsumerOk(d', d'.consumers[k])
    {
      var was, c := d.consumers[k], d'.consumers[k];
      assert ConsumerOk(d, was);
      forall r | 0 <= r < |c.rings|
        ensures RingOk(d', c.id, r, c.rings[r])
      {
        assert RingOk(d, was.id, r, was.rings[r]);
      }
    }
    forall f | f in d'.files
      ensures FileOk(d', f)
    {
      assert FileOk(d, f);
      FindSome(d'.consumers, Find(d.consumers, f.id), f.id);
    }
  }

  // ----- Runs -----

  /** Closing and the capture switches act on an open file. */
  datatype Op =
    | OpenRing(id: nat, ring: nat, mem: Memory)
    | CloseFile(file: File)
    | SetCapture(file: File, on: bool)
    | CpuChange(cpu: nat, up: bool)

  predicate Enabled(d: Driver, op: Op) {
    match op
    case OpenRing(_, ring, mem) => ring < d.cpus && |mem.rings| == d.cpus
    case CloseFile(f) => f in d.files
    case SetCapture(f, _) => f in d.files
    case CpuChange(cpu, _) => cpu < d.cpus
  }

  lemma OpKeeps(d: Driver, op: Op)
    requires Inv(d) && Enabled(d, op)
    ensures Shaped(d) && Inv(Next(d, op))
  {
    InvShape(d);
    match op
    case OpenRing(id, ring, mem) => OpenKeeps(d, id, ring, mem);
    case CloseFile(f) => ReleaseKeeps(d, f);
    case SetCapture(f, on) => CaptureKeeps(d, f, on);
    case CpuChange(cpu, up) => HotplugKeeps(d, cpu, up);
  }

  function Next(d: Driver, op: Op): Driver
    requires Inv(d) && Enabled(d, op)
  {
    InvShape(d);
    match op
    case OpenRing(id, ring, mem) => Open(d, id, ring, mem).1
    case CloseFile(f) =>
      assert FileOk(d, f);
      Release(d, f.id, f.ring).1
    case SetCapture(f, on) =>
      assert FileOk(d, f);
      Capture(d, f.id, f.ring, on).1
    case CpuChange(cpu, up) => Hotplug(d, cpu, up)
  }

  predicate Runs(d: Driver, ops: seq<Op>)
    requires Inv(d)
    decreases |ops|
  {
    ops == [] || (Enabled(d, ops[0]) && (OpKeeps(d, ops[0]); Runs(Next(d, ops[0]), ops[1..])))
  }

  function Final(d: Driver, ops: seq<Op>): (d': Driver)
    requires Inv(d) && Runs(d, ops)
    ensures Inv(d')
    decreases |ops|
  {
    if ops == [] then d else
      OpKeeps(d, ops[0]);
      Final(Next(d, ops[0]), ops[1..])
  }

  function Loaded(cpus: nat, maxConsumers: nat, online: set<nat>): (d: Driver)
    ensures Inv(d)
  {
    Driver(cpus, maxConsumers, [], false, online, {})
  }

  /** Tracepoints are registered only while there is a consumer, over every run. */
  lemma RegisteredForSomeone(cpus: nat, maxConsumers: nat, online: set<nat>, ops: seq<Op>)
    requires Runs(Loaded(cpus, maxConsumers, online), ops)
    ensures var d := Final(Loaded(cpus, maxConsumers, online), ops);
            d.registered ==> d.consumers != []
  {
  }

  /** From module load on, whatever is opened, closed, switched or plugged: the list is short
      enough and without duplicates, and capture implies an open ring with its buffer and info
      and the tracepoints registered. */
  lemma AlwaysSafe(cpus: nat, maxConsumers: nat, online: set<nat>, ops: seq<Op>, k: nat, r: nat)
    requires Runs(Loaded(cpus, maxConsumers, online), ops)
    requires k < |Final(Loaded(cpus, maxConsumers, online), ops).consumers| && r < cpus
    ensures var d := Final(Loaded(cpus, maxConsumers, online), ops);
            && |d.consumers| <= d.maxConsumers && Distinct(d.consumers)
            && |d.consumers[k].rings| == d.cpus == cpus
            && (d.consumers[k].rings[r].capture ==> d.consumers[k].rings[r].open)
            && (d.consumers[k].rings[r].open ==>
                  d.consumers[k].rings[r].buffer && d.consumers[k].rings[r].info && d.registered)
  {
    var d := Final(Loaded(cpus, maxConsumers, online), ops);
    SameCpus(Loaded(cpus, maxConsumers, online), ops);
    assert ConsumerOk(d, d.consumers[k]);
    assert RingOk(d, d.consumers[k].id, r, d.consumers[k].rings[r]);
  }

  lemma {:induction false} SameCpus(d: Driver, ops: seq<Op>)
    requires Inv(d) && Runs(d, ops)
    ensures Final(d, ops).cpus == d.cpus
    decreases |ops|
  {
    if ops != [] {
      OpKeeps(d, ops[0]);
      SameCpus(Next(d, ops[0]), ops[1..]);
    }
  }

  /** A consumer is freed only by closing the last of its open rings. */
  lemma FreedOnlyWhenClosed(d: Driver, op: Op, k: nat)
    requires Inv(d) && Enabled(d, op) && k < |d.consumers|
    requires Find(Next(d, op).consumers, d.consumers[k].id) == |Next(d, op).consumers|
    ensures op.CloseFile? && op.file.id == d.consumers[k].id
    ensures forall r :: 0 <= r < |d.consumers[k].rings| && d.consumers[k].rings[r].open ==> r == op.file.ring
  {
    InvShape(d);
    var cs, cs', id := d.consumers, Next(d, op).consumers, d.consumers[k].id;
    if op.CloseFile? && op.file.id == id {
      var f := op.file;
      assert FileOk(d, f) && Find(cs, id) == k;
      forall r | 0 <= r < |cs[k].rings| && cs[k].rings[r].open
        ensures r == f.ring
      {
        assert ConsumerOk(d, cs[k]) && RingOk(d, id, r, cs[k].rings[r]);
        if r != f.ring {
          OnlyFile(d, f, File(id, r));
          FindSome(cs', k, id);
        }
      }
    } else {
      StaysListed(d, op, k);
    }
  }

  lemma StaysListed(d: Driver, op: Op, k: nat)
    requires Inv(d) && Enabled(d, op) && k < |d.consumers|
    requires !(op.CloseFile? && op.file.id == d.consumers[k].id)
    ensures Find(Next(d, op).consumers, d.consumers[k].id) < |Next(d, op).consumers|
  {
    InvShape(d);
    var cs, cs', id := d.consumers, Next(d, op).consumers, d.consumers[k].id;
    match op {
      case OpenRing(opener, ring, mem) =>
        OpenLists(d, opener, ring, mem, k);
      case CloseFile(f) =>
        assert FileOk(d, f);
        CloseLists(d, f, k);
      case SetCapture(f, on) =>
        assert FileOk(d, f) && cs'[k].id == id;
        FindSome(cs', k, id);
      case CpuChange(cpu, up) =>
        assert cs'[k].id == id;
        FindSome(cs', k, id);
    }
  }

  lemma OpenLists(d: Driver, opener: nat, ring: nat, mem: Memory, k: nat)
    requires Inv(d) && Shaped(d) && ring < d.cpus && |mem.rings| == d.cpus && k < |d.consumers|
    ensures Find(Open(d, opener, ring, mem).1.consumers, d.consumers[k].id) < |Open(d, opener, ring, mem).1.consumers|
  {
    var (ret, d1) := Joined(d, opener, mem);
    var at := if d1 == d then k else k + 1;
    assert d1.consumers[at] == d.consumers[k];
    if ret == Success {
      JoinedKeeps(d, opener, mem);
      var j := Find(d1.consumers, opener);
      assert ConsumerOk(d1, d1.consumers[j]);
      assert Opened(d1, j, ring).1.consumers[at].id == d.consumers[k].id;
      FindSome(Opened(d1, j, ring).1.consumers, at, d.consumers[k].id);
    } else {
      FindSome(d1.consumers, at, d.consumers[k].id);
    }
  }

  lemma CloseLists(d: Driver, f: File, k: nat)
    requires Shaped(d) && FileOk(d, f) && k < |d.consumers| && d.consumers[k].id != f.id
    ensures Find(Release(d, f.id, f.ring).1.consumers, d.consumers[k].id) < |Release(d, f.id, f.ring).1.consumers|
  {
    var gone, cs' := Find(d.consumers, f.id), Release(d, f.id, f.ring).1.consumers;
    var at := if |cs'| == |d.consumers| || k < gone then k else k - 1;
    assert cs'[at].id == d.consumers[k].id;
    FindSome(cs', at, d.consumers[k].id);
  }

  // ----- What each operation does, ring by ring -----

  datatype Found = Nothing | Here(ring: Ring)

  predicate Listed(d: Driver, id: nat) {
    exists k :: 0 <= k < |d.consumers| && d.consumers[k].id == id
  }

  /** The ring of a consumer, if the consumer is listed. */
  function RingOf(d: Driver, id: nat, r: nat): Found
    requires Shaped(d) && r < d.cpus
  {
    var k := Find(d.consumers, id);
    if k < |d.consumers| then Here(d.consumers[k].rings[r]) else Nothing
  }

  lemma ListedIffFound(d: Driver, id: nat)
    ensures Listed(d, id) <==> Find(d.consumers, id) < |d.consumers|
  {
  }

  /** Nothing but the consumers, the registration and the files may change. */
  predicate SameMachine(d: Driver, d': Driver) {
    d'.cpus == d.cpus && d'.maxConsumers == d.maxConsumers && d'.online == d.online && Shaped(d')
  }

  ghost predicate OthersSame(d: Driver, d': Driver, id: nat)
    requires Shaped(d) && SameMachine(d, d')
  {
    forall other, r :: 0 <= r < d.cpus && other != id ==> RingOf(d', other, r) == RingOf(d, other, r)
  }

  /** The ring an open finds: the consumer's own, or a new consumer's, which has one for every
      CPU that is online. */
  function Candidate(d: Driver, id: nat, r: nat): Ring
    requires Shaped(d) && r < d.cpus
  {
    match RingOf(d, id, r)
    case Here(ring) => ring
    case Nothing => Ring(r in d.online, r in d.online, r in d.online, r in d.online, false, false)
  }

  predicate MemoryFor(d: Driver, mem: Memory)
    requires |mem.rings| == d.cpus
  {
    mem.consumer && forall i :: 0 <= i < d.cpus && i in d.online ==> mem.rings[i]
  }

  predicate Usable(ring: Ring) {
    ring.cpuOnline && ring.buffer
  }

  /** The law of an open.  It succeeds for a caller that is listed or can be, on a usable ring
      that is not open; each error has its own reason.  The ring is then open and not capturing,
      and every other ring is as it was, or as a new consumer has it. */
  ghost predicate IsOpen(ret: Ret, d': Driver, d: Driver, id: nat, ring: nat, mem: Memory)
    requires Shaped(d) && ring < d.cpus && |mem.rings| == d.cpus
  {
    var c, listed := Candidate(d, id, ring), Listed(d, id);
    var admitted := listed || (|d.consumers| < d.maxConsumers && MemoryFor(d, mem));
    && (ret == Success <==> admitted && Usable(c) && !c.open)
    && (ret == ENoDev <==> admitted && !Usable(c))
    && (ret == ENoMem <==> !listed && |d.consumers| < d.maxConsumers && !MemoryFor(d, mem))
    && (ret == EBusy <==> if listed then Usable(c) && c.open else |d.consumers| >= d.maxConsumers)
    && SameMachine(d, d') && OthersSame(d, d', id)
    && d'.files == (if ret == Success then d.files + {File(id, ring)} else d.files)
    && d'.registered == (d.registered || ret == Success)
    && |d'.consumers| == |d.consumers| + (if admitted && !listed then 1 else 0)
    && if !admitted then d' == d
       else
         && RingOf(d', id, ring) == Here(if ret == Success then c.(open := true, capture := false) else c)
         && forall r :: 0 <= r < d.cpus && r != ring ==> RingOf(d', id, r) == Here(Candidate(d, id, r))
  }

  /** The law of a release.  It succeeds exactly on an open ring, which is then closed; with the
      last of its open rings the consumer is gone, and with the last consumer the tracepoints. */
  ghost predicate IsRelease(ret: Ret, d': Driver, d: Driver, id: nat, ring: nat)
    requires Shaped(d) && ring < d.cpus
  {
    var was := RingOf(d, id, ring);
    var more := exists r :: 0 <= r < d.cpus && r != ring && RingOf(d, id, r).Here? && RingOf(d, id, r).ring.open;
    && ret == (if was.Here? && was.ring.open then Success else EBusy)
    && SameMachine(d, d') && OthersSame(d, d', id)
    && (ret != Success ==> d' == d)
    && (ret == Success ==>
          && d'.files == d.files - {File(id, ring)} && d'.registered == (d.registered && |d'.consumers| > 0)
          && |d'.consumers| == |d.consumers| - (if more then 0 else 1)
          && forall r :: 0 <= r < d.cpus ==>
               RingOf(d', id, r) == if !more then Nothing
                                    else if r == ring then Here(was.ring.(open := false, capture := false))
                                    else RingOf(d, id, r))
  }

  /** The law of the capture switch: the flag of that ring, and nothing else. */
  ghost predicate IsCapture(ret: Ret, d': Driver, d: Driver, id: nat, ring: nat, on: bool)
    requires Shaped(d) && ring < d.cpus
  {
    && ret == (if Listed(d, id) then Success else EBusy)
    && SameMachine(d, d') && OthersSame(d, d', id)
    && d'.files == d.files && d'.registered == d.registered && |d'.consumers| == |d.consumers|
    && (ret == Success ==>
          forall r :: 0 <= r < d.cpus ==>
            RingOf(d, id, r).Here? &&
            RingOf(d', id, r) == if r == ring then Here(RingOf(d, id, r).ring.(capture := on)) else RingOf(d, id, r))
  }

  /** The law of a CPU that comes or goes: it is online or not, for the driver and for the ring of
      every consumer. */
  ghost predicate IsHotplug(d': Driver, d: Driver, cpu: nat, up: bool)
    requires Shaped(d) && cpu < d.cpus
  {
    && d'.cpus == d.cpus && d'.maxConsumers == d.maxConsumers && Shaped(d')
    && d'.files == d.files && d'.registered == d.registered && |d'.consumers| == |d.consumers|
    && (forall i :: i in d'.online <==> if i == cpu then up else i in d.online)
    && forall id, r :: 0 <= r < d.cpus ==>
         RingOf(d', id, r) == match RingOf(d, id, r)
                              case Nothing => Nothing
                              case Here(ring) => Here(if r == cpu then ring.(cpuOnline := up) else ring)
  }

  lemma FindIs(cs: seq<Consumer>, k: nat, id: nat)
    requires k < |cs| && cs[k].id == id && forall i :: 0 <= i < k ==> cs[i].id != id
    ensures Find(cs, id) == k
  {
  }

  lemma FindNone(cs: seq<Consumer>, id: nat)
    requires forall i :: 0 <= i < |cs| ==> cs[i].id != id
    ensures Find(cs, id) == |cs|
  {
  }

  /** Lists with the same ids are searched alike. */
  lemma FindAlike(cs: seq<Consumer>, cs': seq<Consumer>, id: nat)
    requires |cs'| == |cs| && forall i :: 0 <= i < |cs| ==> cs'[i].id == cs[i].id
    ensures Find(cs', id) == Find(cs, id)
  {
    var k := Find(cs, id);
    if k < |cs| {
      FindIs(cs', k, id);
    } else {
      FindNone(cs', id);
    }
  }

  lemma FindBehind(c: Consumer, cs: seq<Consumer>, id: nat)
    ensures Find([c] + cs, id) == if c.id == id then 0 else Find(cs, id) + 1
  {
    var all := [c] + cs;
    assert all[1..] == cs;
  }

  lemma FindWithout(cs: seq<Consumer>, k: nat, id: nat)
    requires Distinct(cs) && k < |cs|
    ensures var cs', at := Without(cs, k), Find(cs, id);
            if id == cs[k].id || at == |cs| then Find(cs', id) == |cs'|
            else at != k && Find(cs', id) == if at < k then at else at - 1
  {
    var cs', at := Without(cs, k), Find(cs, id);
    assert forall j :: 0 <= j < |cs'| ==> cs'[j] == cs[if j < k then j else j + 1];
    if id == cs[k].id || at == |cs| {
      FindNone(cs', id);
    } else {
      FindIs(cs', if at < k then at else at - 1, id);
    }
  }

  /** A new consumer goes to the head of the list. */
  lemma NewRings(d: Driver, d': Driver, id: nat, other: nat, r: nat)
    requires Shaped(d) && Shaped(d') && r < d.cpus && Find(d.consumers, id) == |d.consumers|
    requires d' == d.(consumers := [NewConsumer(d, id)] + d.consumers)
    ensures RingOf(d', other, r) == if other == id then Here(Candidate(d, id, r)) else RingOf(d, other, r)
  {
    FindBehind(NewConsumer(d, id), d.consumers, other);
  }

  lemma JoinedRings(d: Driver, id: nat, mem: Memory)
    requires Inv(d) && Shaped(d) && |mem.rings| == d.cpus
    ensures var (ret, d') := Joined(d, id, mem);
            var listed := Listed(d, id);
            && (ret == Success <==> listed || (|d.consumers| < d.maxConsumers && MemoryFor(d, mem)))
            && (ret == ENoMem <==> !listed && |d.consumers| < d.maxConsumers && !MemoryFor(d, mem))
            && ret != ENoDev && (ret != Success || listed ==> d' == d)
            && SameMachine(d, d') && OthersSame(d, d', id)
            && (ret == Success && !listed ==>
                  d' == d.(consumers := d'.consumers) && |d'.consumers| == |d.consumers| + 1)
            && (ret == Success ==> forall r :: 0 <= r < d.cpus ==> RingOf(d', id, r) == Here(Candidate(d, id, r)))
  {
    JoinedKeeps(d, id, mem);
    InvShape(Joined(d, id, mem).1);
    hide Inv, NewConsumer, Find;
    ListedIffFound(d, id);
    var (ret, d') := Joined(d, id, mem);
    if ret == Success && !Listed(d, id) {
      hide RingOf, Candidate;
      forall other, r | 0 <= r < d.cpus
        ensures RingOf(d', other, r) == if other == id then Here(Candidate(d, id, r)) else RingOf(d, other, r)
      {
        NewRings(d, d', id, other, r);
      }
    }
  }

  lemma ReplacedRings(d: Driver, d': Driver, k: nat, ring: nat, next: Ring, id: nat, r: nat)
    requires Shaped(d) && Shaped(d') && d'.cpus == d.cpus && k < |d.consumers| && ring < d.cpus && r < d.cpus
    requires Find(d.consumers, d.consumers[k].id) == k
    requires d'.consumers == d.consumers[k := SetRing(d.consumers[k], ring, next)]
    ensures RingOf(d', id, r) == if id == d.consumers[k].id && r == ring then Here(next) else RingOf(d, id, r)
  {
    FindAlike(d.consumers, d'.consumers, id);
  }

  /** Every open keeps the law. */
  lemma OpenLaw(d: Driver, id: nat, ring: nat, mem: Memory)
    requires Inv(d) && ring < d.cpus && |mem.rings| == d.cpus
    ensures Shaped(d) && var (ret, d') := Open(d, id, ring, mem); IsOpen(ret, d', d, id, ring, mem)
  {
    InvShape(d);
    OpenKeeps(d, id, ring, mem);
    InvShape(Open(d, id, ring, mem).1);
    JoinedRings(d, id, mem);
    ListedIffFound(d, id);
    var (joined, d1) := Joined(d, id, mem);
    if joined == Success {
      var k := Find(d1.consumers, id);
      assert RingOf(d1, id, ring).Here?;
      assert RingOf(d1, id, ring) == Here(Candidate(d, id, ring));
      var (ret, d2) := Opened(d1, k, ring);
      if ret == Success {
        forall other, r | 0 <= r < d.cpus
          ensures RingOf(d2, other, r) ==
                  if other == id && r == ring then Here(Candidate(d, id, ring).(open := true, capture := false))
                  else RingOf(d1, other, r)
        {
          ReplacedRings(d1, d2, k, ring, d2.consumers[k].rings[ring], other, r);
        }
      }
    }
  }

  lemma CaptureLaw(d: Driver, id: nat, ring: nat, on: bool)
    requires Shaped(d) && ring < d.cpus
    ensures var (ret, d') := Capture(d, id, ring, on); IsCapture(ret, d', d, id, ring, on)
  {
    ListedIffFound(d, id);
    var (ret, d') := Capture(d, id, ring, on);
    var k := Find(d.consumers, id);
    if ret == Success {
      forall other, r | 0 <= r < d.cpus
        ensures RingOf(d', other, r) ==
                if other == id && r == ring then Here(d'.consumers[k].rings[ring]) else RingOf(d, other, r)
      {
        ReplacedRings(d, d', k, ring, d'.consumers[k].rings[ring], other, r);
      }
    }
  }

  lemma HotplugLaw(d: Driver, cpu: nat, up: bool)
    requires Shaped(d) && cpu < d.cpus
    ensures IsHotplug(Hotplug(d, cpu, up), d, cpu, up)
  {
    var d' := Hotplug(d, cpu, up);
    forall id, r | 0 <= r < d.cpus
      ensures RingOf(d', id, r) == match RingOf(d, id, r)
                                   case Nothing => Nothing
                                   case Here(ring) => Here(if r == cpu then ring.(cpuOnline := up) else ring)
    {
      FindAlike(d.consumers, d'.consumers, id);
    }
  }

  lemma RemovedRings(d: Driver, d': Driver, k: nat, id: nat, r: nat)
    requires Shaped(d) && Shaped(d') && Distinct(d.consumers) && d'.cpus == d.cpus && k < |d.consumers| && r < d.cpus
    requires d'.consumers == Without(d.consumers, k)
    ensures RingOf(d', id, r) == if id == d.consumers[k].id then Nothing else RingOf(d, id, r)
  {
    FindWithout(d.consumers, k, id);
  }

  lemma ReleaseLaw(d: Driver, id: nat, ring: nat)
    requires Inv(d) && ring < d.cpus
    ensures Shaped(d) && var (ret, d') := Release(d, id, ring); IsRelease(ret, d', d, id, ring)
  {
    InvShape(d);
    var (ret, d') := Release(d, id, ring);
    var k := Find(d.consumers, id);
    if ret == Success {
      var was := d.consumers[k].rings[ring];
      var c := SetRing(d.consumers[k], ring, was.(open := false, capture := false));
      MoreOpen(d, id, ring, c);
      hide AnyOpen, Find, ConsumerOk, FileOk;
      if AnyOpen(c) {
        forall other, r | 0 <= r < d.cpus
          ensures RingOf(d', other, r) == if other == id && r == ring then Here(c.rings[ring]) else RingOf(d, other, r)
        {
          ReplacedRings(d, d', k, ring, c.rings[ring], other, r);
        }
      } else {
        forall other, r | 0 <= r < d.cpus
          ensures RingOf(d', other, r) == if other == id then Nothing else RingOf(d, other, r)
        {
          RemovedRings(d, d', k, other, r);
        }
      }
    }
  }

  lemma MoreOpen(d: Driver, id: nat, ring: nat, c: Consumer)
    requires Shaped(d) && ring < d.cpus && Find(d.consumers, id) < |d.consumers|
    requires var was := d.consumers[Find(d.consumers, id)];
             c == SetRing(was, ring, was.rings[ring].(open := false, capture := false))
    ensures AnyOpen(c) <==>
            exists r :: 0 <= r < d.cpus && r != ring && RingOf(d, id, r).Here? && RingOf(d, id, r).ring.open
  {
    if AnyOpen(c) {
      var r :| 0 <= r < |c.rings| && c.rings[r].open;
      assert RingOf(d, id, r).Here? && RingOf(d, id, r).ring.open;
    }
    if r :| 0 <= r < d.cpus && r != ring && RingOf(d, id, r).Here? && RingOf(d, id, r).ring.open {
      assert c.rings[r].open;
    }
  }

  // ----- The driver itself -----

  class Devices {
    const cpus: nat
    const maxConsumers: nat
    var consumers: seq<Consumer>
    var registered: bool
    var online: set<nat>
    ghost var files: set<File>

    ghost function View(): Driver
      reads this
    {
      Driver(cpus, maxConsumers, consumers, registered, online, files)
    }

    constructor (cpus: nat, maxConsumers: nat, online: set<nat>)
      ensures View() == Loaded(cpus, maxConsumers, online)
    {
      this.cpus, this.maxConsumers, this.online := cpus, maxConsumers, online;
      consumers, registered, files := [], false, {};
    }

    /** `ppm_find_consumer`. */
    method FindConsumer(id: nat) returns (k: nat)
      ensures k == Find(consumers, id)
    {
      k := 0;
      while k < |consumers| && consumers[k].id != id
        invariant k <= |consumers|
        invariant forall i :: 0 <= i < k ==> consumers[i].id != id
      {
        k := k + 1;
      }
    }

    /** The ring loops of `ppm_open`: all rings blank, then those of online CPUs set up. */
    method InitRings(mem: Memory) returns (ok: bool, rings: seq<Ring>)
      requires |mem.rings| == cpus
      ensures ok <==> AllAllocated(View(), mem)
      ensures ok ==> forall id :: Consumer(id, rings) == NewConsumer(View(), id)
    {
      rings := seq(cpus, i => BLANK);
      for cpu := 0 to cpus
        invariant |rings| == cpus
        invariant forall i :: 0 <= i < cpu && i in online ==> mem.rings[i]
        invariant forall i :: 0 <= i < cpus ==> rings[i] == if i < cpu && i in online then READY else BLANK
      {
        if cpu in online {
          if !mem.rings[cpu] {
            return false, [];
          }
          rings := rings[cpu := READY];
        }
      }
      ok := true;
      assert rings == NewConsumer(View(), 0).rings;
    }

    /** The count of open rings in `check_remove_consumer`. */
    static method OpenRings(c: Consumer) returns (n: nat)
      ensures n > 0 <==> AnyOpen(c)
    {
      n := 0;
      for r := 0 to |c.rings|
        invariant n > 0 <==> exists i :: 0 <= i < r && c.rings[i].open
      {
        if c.rings[r].open {
          n := n + 1;
        }
      }
    }

    /** `ppm_open`. */
    method OpenDevice(id: nat, ring: nat, mem: Memory) returns (ret: Ret)
      requires Inv(View()) && ring < cpus && |mem.rings| == cpus
      modifies this
      ensures old(Shaped(View())) && (ret, View()) == Open(old(View()), id, ring, mem)
      ensures Inv(View()) && IsOpen(ret, View(), old(View()), id, ring, mem)
    {
      OpenLaw(View(), id, ring, mem);
      hide IsOpen;
      OpenKeeps(View(), id, ring, mem);
      JoinedKeeps(View(), id, mem);
      var k := FindConsumer(id);
      if k == |consumers| {
        if |consumers| >= maxConsumers {
          return EBusy;
        }
        if !mem.consumer {
          return ENoMem;
        }
        var ok, rings := InitRings(mem);
        if !ok {
          return ENoMem;
        }
        consumers := [Consumer(id, rings)] + consumers;
        k := FindConsumer(id);
      }
      InvShape(View());
      var c := consumers[k];
      var r := c.rings[ring];
      if !r.cpuOnline || !r.buffer {
        return ENoDev;
      }
      if r.open {
        return EBusy;
      }
      consumers := consumers[k := SetRing(c, ring, r.(open := true, capture := false))];
      files := files + {File(id, ring)};
      if !registered {
        registered := true;
      }
      ret := Success;
    }

    /** `ppm_release`. */
    method ReleaseDevice(id: nat, ring: nat) returns (ret: Ret)
      requires Inv(View()) && ring < cpus
      modifies this
      ensures old(Shaped(View())) && (ret, View()) == Release(old(View()), id, ring)
      ensures IsRelease(ret, View(), old(View()), id, ring)
      ensures old(File(id, ring) in files) ==> ret == Success && Inv(View())
    {
      ReleaseLaw(View(), id, ring);
      hide IsRelease;
      InvShape(View());
      if File(id, ring) in files {
        ReleaseKeeps(View(), File(id, ring));
      }
      var k := FindConsumer(id);
      if k == |consumers| {
        return EBusy;
      }
      if !consumers[k].rings[ring].open {
        return EBusy;
      }
      var c := SetRing(consumers[k], ring, consumers[k].rings[ring].(open := false, capture := false));
      files := files - {File(id, ring)};
      var n := OpenRings(c);
      if n == 0 {
        consumers := Without(consumers, k);
      } else {
        consumers := consumers[k := c];
      }
      if |consumers| == 0 {
        registered := false;
      }
      ret := Success;
    }

    /** The two capture ioctls. */
    method SwitchCapture(id: nat, ring: nat, on: bool) returns (ret: Ret)
      requires Inv(View()) && ring < cpus
      modifies this
      ensures old(Shaped(View())) && (ret, View()) == Capture(old(View()), id, ring, on)
      ensures IsCapture(ret, View(), old(View()), id, ring, on)
      ensures old(File(id, ring) in files) ==> ret == Success && Inv(View())
    {
      InvShape(View());
      CaptureLaw(View(), id, ring, on);
      hide IsCapture;
      if File(id, ring) in files {
        CaptureKeeps(View(), File(id, ring), on);
      }
      var k := FindConsumer(id);
      if k == |consumers| {
        return EBusy;
      }
      var c := consumers[k];
      consumers := consumers[k := SetRing(c, ring, c.rings[ring].(capture := on))];
      ret := Success;
    }
  }

  // ----- Consumers left behind -----

  predicate Tidy(d: Driver) {
    forall k :: 0 <= k < |d.consumers| ==> AnyOpen(d.consumers[k])
  }

  /** A first open of a ring whose CPU is offline makes a consumer and then fails. */
  predicate LeavesBehind(d: Driver, id: nat, ring: nat, mem: Memory)
    requires |mem.rings| == d.cpus
  {
    && Find(d.consumers, id) == |d.consumers| && |d.consumers| < d.maxConsumers
    && mem.consumer && AllAllocated(d, mem)
    && ring !in d.online
  }

  /** Not every listed consumer has an open ring: an open breaks that exactly in this case ... */
  lemma TidyOpenIff(d: Driver, id: nat, ring: nat, mem: Memory)
    requires Inv(d) && Tidy(d) && ring < d.cpus && |mem.rings| == d.cpus
    ensures Shaped(d)
    ensures Tidy(Open(d, id, ring, mem).1) <==> !LeavesBehind(d, id, ring, mem)
  {
    InvShape(d);
    var (ret, d1) := Joined(d, id, mem);
    JoinedKeeps(d, id, mem);
    if ret == Success {
      var k := Find(d1.consumers, id);
      var d2 := Opened(d1, k, ring).1;
      assert ConsumerOk(d1, d1.consumers[k]);
      if d1 == d {
        TidyOpened(d, k, ring);
      } else {
        NewIsOk(d, id);
        assert d1.consumers[0] == NewConsumer(d, id) && k == 0;
        if ring in d.online {
          assert d2.consumers[0].rings[ring].open;
          assert forall j :: 1 <= j < |d2.consumers| ==> d2.consumers[j] == d.consumers[j - 1];
        } else {
          assert d2 == d1;
        }
      }
    }
  }

  /** For one: CPU 1 of two is offline, and thread 7 opens its ring first. */
  lemma LeftBehind()
    ensures var d, mem := Loaded(2, 1, {0}), Memory(true, [true, true]);
            && LeavesBehind(d, 7, 1, mem) && Shaped(d)
            && Open(d, 7, 1, mem).0 == ENoDev && !Tidy(Open(d, 7, 1, mem).1)
  {
    var d, mem := Loaded(2, 1, {0}), Memory(true, [true, true]);
    TidyOpenIff(d, 7, 1, mem);
  }

  lemma TidyOpened(d: Driver, k: nat, ring: nat)
    requires Tidy(d) && k < |d.consumers| && ring < |d.consumers[k].rings|
    ensures Tidy(Opened(d, k, ring).1)
  {
    var d' := Opened(d, k, ring).1;
    if d' != d {
      assert d'.consumers[k].rings[ring].open;
    }
  }

  lemma TidyClose(d: Driver, f: File)
    requires Shaped(d) && Tidy(d) && FileOk(d, f)
    ensures Tidy(Release(d, f.id, f.ring).1)
  {
    var d', gone := Release(d, f.id, f.ring).1, Find(d.consumers, f.id);
    if |d'.consumers| < |d.consumers| {
      forall k | 0 <= k < |d'.consumers|
        ensures AnyOpen(d'.consumers[k])
      {
        assert d'.consumers[k] == d.consumers[if k < gone then k else k + 1];
      }
    }
  }

  lemma StillOpen(c: Consumer, r: nat, ring: Ring)
    requires AnyOpen(c) && r < |c.rings| && ring.open == c.rings[r].open
    ensures AnyOpen(SetRing(c, r, ring))
  {
    var i :| 0 <= i < |c.rings| && c.rings[i].open;
    assert SetRing(c, r, ring).rings[i].open;
  }

  /** ... and nothing else does. */
  lemma TidyOtherwise(d: Driver, op: Op)
    requires Inv(d) && Enabled(d, op) && Tidy(d) && !op.OpenRing?
    ensures Tidy(Next(d, op))
  {
    InvShape(d);
    if op.CloseFile? {
      assert FileOk(d, op.file);
      TidyClose(d, op.file);
    } else if op.SetCapture? {
      assert FileOk(d, op.file);
      var c := d.consumers[Find(d.consumers, op.file.id)];
      StillOpen(c, op.file.ring, c.rings[op.file.ring].(capture := op.on));
    } else {
      forall k | 0 <= k < |d.consumers|
        ensures AnyOpen(Hotplug(d, op.cpu, op.up).consumers[k])
      {
        var c := d.consumers[k];
        StillOpen(c, op.cpu, c.rings[op.cpu].(cpuOnline := op.up));
      }
    }
  }
}
