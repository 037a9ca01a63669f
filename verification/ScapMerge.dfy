/** The reader's merge: the events of all per-CPU batches, oldest timestamp first. */
module ScapMerge {
  import opened Bytes
  import opened Events
  import opened EventQueue

  /** The merge looks for a timestamp strictly below this one. */
  const MAX_TS: nat := TWO64 - 1

  /** "No CPU picked". */
  const NO_CPU: nat := 65535

  // ----- Merging lists of events -----

  datatype Taken = Taken(cpu: nat, event: seq<byte>)

  function Ts(e: seq<byte>): nat {
    if |e| < HEADER then 0 else Timestamp(e)
  }

  predicate Offers(batch: seq<seq<byte>>) {
    batch != [] && Ts(batch[0]) < MAX_TS
  }

  /** Earlier, or at the same time on a CPU that is not higher. */
  predicate Ordered(a: Taken, b: Taken) {
    Ts(a.event) < Ts(b.event) || (Ts(a.event) == Ts(b.event) && a.cpu <= b.cpu)
  }

  predicate IsPick(batches: seq<seq<seq<byte>>>, k: nat) {
    && k < |batches| && Offers(batches[k])
    && forall j :: 0 <= j < |batches| && Offers(batches[j]) ==>
         Ordered(Taken(k, batches[k][0]), Taken(j, batches[j][0]))
  }

  predicate Idle(batches: seq<seq<seq<byte>>>) {
    forall j :: 0 <= j < |batches| ==> !Offers(batches[j])
  }

  /** The CPU whose first event comes first. */
  function Pick(batches: seq<seq<seq<byte>>>): (k: nat)
    requires !Idle(batches)
    ensures IsPick(batches, k)
  {
    var n := |batches| - 1;
    if Idle(batches[..n]) then
      assert forall j :: 0 <= j < n ==> batches[..n][j] == batches[j];
      n
    else
      var k := Pick(batches[..n]);
      assert forall j :: 0 <= j < n ==> batches[..n][j] == batches[j];
      if Offers(batches[n]) && Ts(batches[n][0]) < Ts(batches[k][0]) then n else k
  }

  lemma PickUnique(batches: seq<seq<seq<byte>>>, k: nat)
    requires IsPick(batches, k)
    ensures !Idle(batches) && Pick(batches) == k
  {
    assert Offers(batches[k]);
    assert Ordered(Taken(k, batches[k][0]), Taken(Pick(batches), batches[Pick(batches)][0]));
  }

  function Pop(batches: seq<seq<seq<byte>>>, k: nat): seq<seq<seq<byte>>>
    requires k < |batches| && batches[k] != []
  {
    batches[k := batches[k][1..]]
  }

  function Count(batches: seq<seq<seq<byte>>>): nat {
    if batches == [] then 0 else |batches[0]| + Count(batches[1..])
  }

  lemma {:induction false} CountPop(batches: seq<seq<seq<byte>>>, k: nat)
    requires k < |batches| && batches[k] != []
    ensures Count(Pop(batches, k)) == Count(batches) - 1
  {
    if k > 0 {
      CountPop(batches[1..], k - 1);
      assert Pop(batches, k)[1..] == Pop(batches[1..], k - 1);
    } else {
      assert Pop(batches, k)[1..] == batches[1..];
    }
  }

  /** All events given out before the batches run dry. */
  function Drain(batches: seq<seq<seq<byte>>>): seq<Taken>
    decreases Count(batches)
  {
    if Idle(batches) then [] else
      var k := Pick(batches);
      CountPop(batches, k);
      [Taken(k, batches[k][0])] + Drain(Pop(batches, k))
  }

  /** What of one batch comes before the first event stamped 2^64-1. */
  function Below(batch: seq<seq<byte>>): seq<seq<byte>> {
    if Offers(batch) then [batch[0]] + Below(batch[1..]) else []
  }

  function Project(ts: seq<Taken>, cpu: nat): seq<seq<byte>> {
    if ts == [] then []
    else (if ts[0].cpu == cpu then [ts[0].event] else []) + Project(ts[1..], cpu)
  }

  /** Exactly once and in order: what is given out of each batch is its part below the
      sentinel timestamp. */
  lemma {:induction false} DrainDelivers(batches: seq<seq<seq<byte>>>, cpu: nat)
    requires cpu < |batches|
    ensures Project(Drain(batches), cpu) == Below(batches[cpu])
    decreases Count(batches)
  {
    if !Idle(batches) {
      var k := Pick(batches);
      CountPop(batches, k);
      DrainDelivers(Pop(batches, k), cpu);
      assert Drain(batches)[1..] == Drain(Pop(batches, k));
    }
  }

  predicate Whole(batch: seq<seq<byte>>) {
    forall i :: 0 <= i < |batch| ==> Ts(batch[i]) < MAX_TS
  }

  lemma {:induction false} BelowIsAll(batch: seq<seq<byte>>)
    ensures Below(batch) == batch <==> Whole(batch)
    ensures |Below(batch)| <= |batch|
    ensures Below(batch) == batch[..|Below(batch)|]
    ensures Whole(Below(batch))
    decreases |batch|
  {
    if Offers(batch) {
      BelowIsAll(batch[1..]);
      assert batch == [batch[0]] + batch[1..];
      assert Below(batch)[1..] == Below(batch[1..]);
    }
  }

  /** Nothing is left behind exactly when no event carries the sentinel timestamp. */
  lemma DrainDeliversAll(batches: seq<seq<seq<byte>>>)
    ensures (forall cpu :: 0 <= cpu < |batches| ==> Project(Drain(batches), cpu) == batches[cpu])
            <==> (forall cpu :: 0 <= cpu < |batches| ==> Whole(batches[cpu]))
  {
    forall cpu | 0 <= cpu < |batches|
      ensures Project(Drain(batches), cpu) == batches[cpu] <==> Whole(batches[cpu])
    {
      DrainDelivers(batches, cpu);
      BelowIsAll(batches[cpu]);
    }
  }

  // ----- Order -----

  predicate Sorted(batch: seq<seq<byte>>) {
    forall i, j :: 0 <= i < j < |batch| ==> Ts(batch[i]) <= Ts(batch[j])
  }

  predicate Merged(ts: seq<Taken>) {
    forall i, j :: 0 <= i < j < |ts| ==> Ordered(ts[i], ts[j])
  }

  lemma BelowStep(batch: seq<seq<byte>>)
    requires Offers(batch)
    ensures Below(batch)[0] == batch[0] && Below(batch)[1..] == Below(batch[1..])
    ensures Sorted(Below(batch)) ==> Sorted(Below(batch[1..]))
    ensures Sorted(Below(batch)) ==>
              forall i :: 0 <= i < |Below(batch[1..])| ==> Ts(batch[0]) <= Ts(Below(batch[1..])[i])
  {
    var b, r := Below(batch), Below(batch[1..]);
    assert b == [batch[0]] + r;
    assert forall i :: 0 <= i < |r| ==> r[i] == b[i + 1];
  }

  /** Every event given out comes from its own batch. */
  lemma {:induction false} DrainFrom(batches: seq<seq<seq<byte>>>, i: nat)
    requires i < |Drain(batches)|
    ensures Drain(batches)[i].cpu < |batches| && Drain(batches)[i].event in Below(batches[Drain(batches)[i].cpu])
    decreases Count(batches)
  {
    var k := Pick(batches);
    CountPop(batches, k);
    BelowStep(batches[k]);
    if i > 0 {
      DrainFrom(Pop(batches, k), i - 1);
      assert Drain(batches)[i] == Drain(Pop(batches, k))[i - 1];
    }
  }

  /** The picked event precedes everything that follows it. */
  lemma PickPrecedes(batches: seq<seq<seq<byte>>>, k: nat, t: Taken)
    requires IsPick(batches, k)
    requires forall j :: 0 <= j < |batches| ==> Sorted(Below(batches[j]))
    requires t.cpu < |batches| && t.event in Below(Pop(batches, k)[t.cpu])
    ensures Ordered(Taken(k, batches[k][0]), t)
  {
    var b := batches[t.cpu];
    BelowStep(batches[k]);
    if t.cpu != k {
      assert Offers(b);
      BelowStep(b);
      assert Ordered(Taken(k, batches[k][0]), Taken(t.cpu, b[0]));
      assert t.event == b[0] || t.event in Below(b[1..]);
    }
  }

  lemma MergedCons(t: Taken, ts: seq<Taken>)
    requires Merged(ts) && forall i :: 0 <= i < |ts| ==> Ordered(t, ts[i])
    ensures Merged([t] + ts)
  {
    hide Ordered;
    var all := [t] + ts;
    forall i, j | 0 <= i < j < |all|
      ensures Ordered(all[i], all[j])
    {
      assert all[j] == ts[j - 1] && (i > 0 ==> all[i] == ts[i - 1]);
    }
  }

  lemma {:induction false} SortedDrain(batches: seq<seq<seq<byte>>>)
    requires forall j :: 0 <= j < |batches| ==> Sorted(Below(batches[j]))
    ensures Merged(Drain(batches))
    decreases Count(batches)
  {
    if !Idle(batches) {
      var k := Pick(batches);
      var rest := Pop(batches, k);
      CountPop(batches, k);
      BelowStep(batches[k]);
      SortedDrain(rest);
      var d := Drain(rest);
      assert Drain(batches) == [Taken(k, batches[k][0])] + d;
      hide Drain, Below, IsPick, Ordered, Merged, Sorted;
      forall i | 0 <= i < |d|
        ensures Ordered(Taken(k, batches[k][0]), d[i])
      {
        DrainFrom(rest, i);
        PickPrecedes(batches, k, d[i]);
      }
      MergedCons(Taken(k, batches[k][0]), d);
    }
  }

  lemma {:induction false} ProjectFrom(ts: seq<Taken>, cpu: nat, e: seq<byte>)
    requires e in Project(ts, cpu)
    ensures exists i :: 0 <= i < |ts| && ts[i] == Taken(cpu, e)
  {
    if ts[0] == Taken(cpu, e) {
    } else {
      ProjectFrom(ts[1..], cpu, e);
      var i :| 0 <= i < |ts[1..]| && ts[1..][i] == Taken(cpu, e);
      assert ts[i + 1] == Taken(cpu, e);
    }
  }

  lemma {:induction false} ProjectSorted(ts: seq<Taken>, cpu: nat)
    requires Merged(ts)
    ensures Sorted(Project(ts, cpu))
  {
    if ts != [] {
      var rest := Project(ts[1..], cpu);
      assert forall i :: 0 <= i < |ts[1..]| ==> ts[1..][i] == ts[i + 1];
      ProjectSorted(ts[1..], cpu);
      if ts[0].cpu == cpu {
        var p := Project(ts, cpu);
        assert p == [ts[0].event] + rest;
        forall i, j | 0 <= i < j < |p|
          ensures Ts(p[i]) <= Ts(p[j])
        {
          if i == 0 {
            ProjectFrom(ts[1..], cpu, p[j]);
          } else {
            assert p[i] == rest[i - 1] && p[j] == rest[j - 1];
          }
        }
      }
    }
  }

  /** The stream is in order of time, then of CPU, exactly when each batch was in order. */
  lemma DrainIsSorted(batches: seq<seq<seq<byte>>>)
    ensures Merged(Drain(batches)) <==> forall j :: 0 <= j < |batches| ==> Sorted(Below(batches[j]))
  {
    if Merged(Drain(batches)) {
      forall j | 0 <= j < |batches|
        ensures Sorted(Below(batches[j]))
      {
        DrainDelivers(batches, j);
        ProjectSorted(Drain(batches), j);
      }
    }
    if forall j :: 0 <= j < |batches| ==> Sorted(Below(batches[j])) {
      SortedDrain(batches);
    }
  }

  // ----- The devices -----

  /** In figures: what is picked is stamped below 2^64-1 and no later than any other first event,
      and earlier than those of lower CPUs ... */
  lemma PickIsEarliest(batches: seq<seq<seq<byte>>>, k: nat, j: nat)
    requires IsPick(batches, k) && j < |batches| && batches[j] != []
    ensures batches[k] != [] && Ts(batches[k][0]) < 18446744073709551615
    ensures Ts(batches[k][0]) <= Ts(batches[j][0]) && (j < k ==> Ts(batches[k][0]) < Ts(batches[j][0]))
  {
    if Offers(batches[j]) {
      assert Ordered(Taken(k, batches[k][0]), Taken(j, batches[j][0]));
    }
  }

  /** ... and of the stream the earlier stamp comes first, and at the same time the lower CPU. */
  lemma StreamInOrder(batches: seq<seq<seq<byte>>>, i: nat, j: nat)
    requires (forall c :: 0 <= c < |batches| ==> Sorted(batches[c])) && i < j < |Drain(batches)|
    ensures var a, b := Drain(batches)[i], Drain(batches)[j];
            Ts(a.event) <= Ts(b.event) && (Ts(a.event) == Ts(b.event) ==> a.cpu <= b.cpu)
  {
    forall c | 0 <= c < |batches|
      ensures Sorted(Below(batches[c]))
    {
      BelowSorted(batches[c]);
    }
    DrainIsSorted(batches);
    assert Ordered(Drain(batches)[i], Drain(batches)[j]);
  }

  lemma {:induction false} BelowSorted(batch: seq<seq<byte>>)
    requires Sorted(batch)
    ensures Sorted(Below(batch)) && Below(batch) <= batch
    decreases |batch|
  {
    hide Ts;
    if batch != [] {
      BelowSorted(batch[1..]);
      BelowIsStart(batch);
    }
  }

  lemma {:induction false} BelowIsStart(batch: seq<seq<byte>>)
    ensures Below(batch) <= batch
    decreases |batch|
  {
    if batch != [] {
      BelowIsStart(batch[1..]);
    }
  }

  /** A device as the reader knows it: the published bytes, `m_lastreadsize` and `m_sn_len`. */
  ghost predicate Ready(devs: seq<Loan>) {
    |devs| <= NO_CPU && forall j :: 0 <= j < |devs| ==> devs[j].Valid()
  }

  function Batch(d: Loan): seq<seq<byte>>
    requires d.Valid()
  {
    Sections(d);
    Split(d.Rest())
  }

  function Batches(devs: seq<Loan>): (bs: seq<seq<seq<byte>>>)
    requires forall j :: 0 <= j < |devs| ==> devs[j].Valid()
  {
    seq(|devs|, j requires 0 <= j < |devs| => Batch(devs[j]))
  }

  /** `scap_advance_tail`: what was lent goes back to the producer. */
  function Released(d: Loan): Loan
    requires d.Valid()
  {
    Loan(d.bytes[d.read..], 0, 0)
  }

  /** A device after the scan: given back if it is used up. */
  function Scanned(d: Loan): Loan
    requires d.Valid()
  {
    if d.left == 0 && d.read > 0 then Released(d) else d
  }

  /** `scap_readbuf`: everything published is lent. */
  function Renewed(d: Loan): Loan {
    Loan(d.bytes, |d.bytes|, |d.bytes|)
  }

  /** The timestamp the scan compares. */
  function HeadTs(d: Loan): nat
    requires d.Valid()
  {
    if d.left == 0 then MAX_TS else
      Sections(d);
      Timestamp(d.Rest())
  }

  /** A read lends every event published, from the first one that was not given back. */
  lemma RenewedLendsAll(d: Loan)
    requires d.Valid()
    ensures Renewed(d).Valid() && Batch(Renewed(d)) == Split(d.bytes) == d.Queue().pending
  {
    LoanRenewed(d);
    assert Renewed(d).Rest() == d.bytes;
  }

  lemma HeadEvent(d: Loan)
    requires d.Valid() && d.left > 0
    ensures Framed(d.Rest()) && d.left >= HEADER && HEADER <= LengthField(d.Rest()) <= d.left
    ensures |Batch(d)| > 0 && Batch(d)[0] == d.Rest()[..LengthField(d.Rest())]
    ensures HeadTs(d) == Ts(Batch(d)[0]) == Timestamp(d.Rest())
  {
    Sections(d);
    FirstOf(d.Rest(), LengthField(d.Rest()));
    SliceKeepsHeader(d.Rest(), LengthField(d.Rest()));
  }

  lemma HeadOffers(d: Loan)
    requires d.Valid()
    ensures Offers(Batch(d)) <==> HeadTs(d) < MAX_TS
    ensures Offers(Batch(d)) ==> HeadTs(d) == Ts(Batch(d)[0])
  {
    Sections(d);
    hide Timestamp;
    if d.left > 0 {
      HeadEvent(d);
    }
  }

  lemma ScannedIsValid(d: Loan)
    requires d.Valid()
    ensures Scanned(d).Valid() && Batch(Scanned(d)) == Batch(d) && Scanned(d).left == d.left
    ensures FifoNext(d.Queue(), if d.left == 0 && d.read > 0 then Free else Silent, Scanned(d).Queue())
  {
    hide Events.Framed, Events.Split;
    if d.left == 0 && d.read > 0 {
      LoanReleased(d);
      assert d.Rest() == [] && Released(d).Rest() == [];
    }
  }

  datatype Status = Success(taken: Taken) | Timeout | Failure

  /** What one call may do: the earliest first event is taken, or everything is reread. */
  ghost predicate NextSpec(was: seq<Loan>, status: Status, now: seq<Loan>)
    requires Ready(was)
  {
    && |now| == |was| && Ready(now)
    && match status
       case Success(t) =>
         && t.cpu < |was| && Batch(was[t.cpu]) != [] && IsPick(Batches(was), t.cpu)
         && t.event == Batch(was[t.cpu])[0]
         && |t.event| <= was[t.cpu].left
         && now[t.cpu] == was[t.cpu].(left := was[t.cpu].left - |t.event|)
         && forall j :: 0 <= j < |was| && j != t.cpu ==> now[j] == Scanned(was[j])
       case Timeout =>
         && Idle(Batches(was))
         && forall j :: 0 <= j < |was| ==> now[j] == Renewed(Scanned(was[j]))
       case Failure => false
  }

  ghost predicate Best(devs: seq<Loan>, n: nat, cpu: nat, ts: nat)
    requires n <= |devs| && Ready(devs)
    ensures Best(devs, n, cpu, ts) ==> ts <= MAX_TS
  {
    if cpu == NO_CPU then
      ts == MAX_TS && forall j :: 0 <= j < n ==> HeadTs(devs[j]) >= MAX_TS
    else
      && cpu < n && ts == HeadTs(devs[cpu]) < MAX_TS
      && forall j :: 0 <= j < n ==> ts < HeadTs(devs[j]) || (ts == HeadTs(devs[j]) && cpu <= j)
  }

  lemma BestSkip(devs: seq<Loan>, n: nat, cpu: nat, ts: nat)
    requires Ready(devs) && n < |devs| && Best(devs, n, cpu, ts) && HeadTs(devs[n]) >= ts
    ensures Best(devs, n + 1, cpu, ts)
  {
    hide HeadTs;
  }

  lemma BestTake(devs: seq<Loan>, n: nat, cpu: nat, ts: nat)
    requires Ready(devs) && n < |devs| && Best(devs, n, cpu, ts) && HeadTs(devs[n]) < ts
    ensures Best(devs, n + 1, n, HeadTs(devs[n]))
  {
    hide HeadTs;
  }

  /** The scan's choice is the merge's. */
  lemma BestIsPick(devs: seq<Loan>, cpu: nat, ts: nat)
    requires Ready(devs) && Best(devs, |devs|, cpu, ts)
    ensures if cpu == NO_CPU then Idle(Batches(devs)) else IsPick(Batches(devs), cpu)
  {
    hide Timestamp, HeadTs, Batch;
    forall j | 0 <= j < |devs|
      ensures Offers(Batches(devs)[j]) <==> HeadTs(devs[j]) < MAX_TS
      ensures Offers(Batches(devs)[j]) ==> HeadTs(devs[j]) == Ts(Batches(devs)[j][0])
    {
      HeadOffers(devs[j]);
    }
  }

  /** The event at the reader's place in a device. */
  predicate Front(d: Loan, event: seq<byte>)
    requires d.Valid()
  {
    && d.left >= HEADER && |event| == LengthField(d.Rest()) && HEADER <= |event| <= d.left
    && event == d.Rest()[..|event|]
  }

  ghost predicate ScannedUpTo(was: seq<Loan>, now: seq<Loan>, n: nat)
    requires n <= |was| && Ready(was)
  {
    && |now| == |was|
    && (forall i :: 0 <= i < n ==> now[i] == Scanned(was[i]))
    && (forall i :: n <= i < |was| ==> now[i] == was[i])
  }

  lemma ScanStart(devs: seq<Loan>)
    requires Ready(devs)
    ensures ScannedUpTo(devs, devs, 0) && Best(devs, 0, NO_CPU, MAX_TS)
    ensures forall j :: 0 <= j < |devs| && devs[j].left == 0 ==> HeadTs(devs[j]) == MAX_TS
  {
  }

  lemma ScanSame(was: seq<Loan>, now: seq<Loan>, n: nat)
    requires Ready(was) && n < |was| && ScannedUpTo(was, now, n) && Scanned(was[n]) == was[n]
    ensures ScannedUpTo(was, now, n + 1)
  {
  }

  lemma ScanStep(was: seq<Loan>, now: seq<Loan>, n: nat)
    requires Ready(was) && n < |was| && ScannedUpTo(was, now, n) && Ready(now)
    ensures was[n] == now[n] && was[n].Valid() && Scanned(was[n]).Valid()
    ensures ScannedUpTo(was, now[n := Scanned(was[n])], n + 1) && Ready(now[n := Scanned(was[n])])
  {
    ScannedIsValid(was[n]);
  }

  class Handle {
    var devs: seq<Loan>

    ghost predicate Valid()
      reads this
    {
      Ready(devs)
    }

    /** `refill_read_buffers`, without its sleep. */
    method Refill()
      requires Valid()
      modifies this
      ensures Valid() && |devs| == |old(devs)|
      ensures forall j :: 0 <= j < |devs| ==> devs[j] == Renewed(old(devs)[j])
    {
      hide Events.Framed, Events.Split, Fifo.Unread, FifoNext, Loan.Queue;
      for j := 0 to |devs|
        invariant |devs| == |old(devs)| && Valid()
        invariant forall i :: 0 <= i < j ==> devs[i] == Renewed(old(devs)[i])
        invariant forall i :: j <= i < |devs| ==> devs[i] == old(devs)[i]
      {
        LoanRenewed(devs[j]);
        devs := devs[j := Renewed(devs[j])];
      }
    }

    /** The flush of `scap_set_snaplen`: all that is published is dropped unread. */
    method FlushAll()
      requires Valid()
      modifies this
      ensures Valid() && |devs| == |old(devs)|
      ensures forall j :: 0 <= j < |devs| ==>
                devs[j] == Loan(old(devs)[j].bytes, |old(devs)[j].bytes|, 0) && Batch(devs[j]) == []
    {
      hide Events.Framed, Events.Split, Fifo.Unread, FifoNext, Loan.Queue;
      for j := 0 to |devs|
        invariant |devs| == |old(devs)| && Valid()
        invariant forall i :: 0 <= i < j ==>
                    devs[i] == Loan(old(devs)[i].bytes, |old(devs)[i].bytes|, 0)
        invariant forall i :: j <= i < |devs| ==> devs[i] == old(devs)[i]
      {
        LoanFlushed(devs[j]);
        devs := devs[j := Renewed(devs[j])];
        devs := devs[j := devs[j].(left := 0)];
      }
    }

    /** One device of the scan: is its first event earlier than the best so far? */
    static method Inspect(d: Loan, maxTs: nat)
      returns (corrupt: bool, earlier: bool, ts: nat, event: seq<byte>)
      requires d.Valid() && d.left > 0
      ensures !corrupt && (earlier <==> HeadTs(d) < maxTs)
      ensures earlier ==> ts == HeadTs(d) && Front(d, event)
    {
      HeadEvent(d);
      hide Timestamp, LengthField, Events.Framed, Batch;
      var pe := d.Rest();
      corrupt, earlier, ts, event := false, Timestamp(pe) < maxTs, Timestamp(pe), [];
      if earlier {
        if LengthField(pe) > d.left {
          corrupt := true;
        } else {
          event := pe[..LengthField(pe)];
        }
      }
    }

    /** The scan of `scap_next_live`: used-up devices are given back, and the first of the
        earliest events is picked.  The corruption branch is never taken. */
    method Scan() returns (corrupt: bool, cpu: nat, event: seq<byte>)
      requires Valid()
      modifies this
      ensures Valid() && !corrupt && |devs| == |old(devs)| && ScannedUpTo(old(devs), devs, |devs|)
      ensures if cpu == NO_CPU then Idle(Batches(old(devs))) else IsPick(Batches(old(devs)), cpu)
      ensures cpu != NO_CPU ==> cpu < |devs| && Front(old(devs)[cpu], event)
    {
      var maxTs := MAX_TS;
      cpu, event, corrupt := NO_CPU, [], false;
      ghost var was := devs;
      ScanStart(devs);
      hide Timestamp, LengthField, HeadTs, Best, ScannedUpTo, Events.Framed, Batch, Front;
      for j := 0 to |devs|
        invariant |devs| == |was|
        invariant cpu == NO_CPU || cpu < j
        invariant Valid() && ScannedUpTo(was, devs, j)
        invariant Best(was, j, cpu, maxTs)
        invariant cpu != NO_CPU ==> Front(was[cpu], event)
      {
        ScanStep(was, devs, j);
        if devs[j].left == 0 {
          BestSkip(was, j, cpu, maxTs);
          if devs[j].read > 0 {
            devs := devs[j := Released(devs[j])];
          } else {
            ScanSame(was, devs, j);
          }
        } else {
          ScanSame(was, devs, j);
          var bad, earlier, ts, pe := Inspect(devs[j], maxTs);
          if bad {
            corrupt := true;
            return;
          }
          if earlier {
            BestTake(was, j, cpu, maxTs);
            cpu, maxTs, event := j, ts, pe;
          } else {
            BestSkip(was, j, cpu, maxTs);
          }
        }
      }
      BestIsPick(was, cpu, maxTs);
    }

    /** `scap_next_live`. */
    method NextLive() returns (status: Status)
      requires Valid()
      modifies this
      ensures Valid() && NextSpec(old(devs), status, devs)
    {
      var corrupt, cpu, event := Scan();
      if corrupt {
        return Failure;
      }
      if cpu != NO_CPU {
        NextTaken(old(devs), devs, cpu, event);
        devs := devs[cpu := devs[cpu].(left := devs[cpu].left - |event|)];
        status := Success(Taken(cpu, event));
      } else {
        Refill();
        status := Timeout;
      }
    }
  }

  lemma NextTaken(was: seq<Loan>, mid: seq<Loan>, cpu: nat, event: seq<byte>)
    requires Ready(was) && ScannedUpTo(was, mid, |was|) && Ready(mid)
    requires cpu < |was| && IsPick(Batches(was), cpu) && Front(was[cpu], event)
    ensures mid[cpu] == was[cpu] && mid[cpu].left >= |event|
    ensures NextSpec(was, Success(Taken(cpu, event)), mid[cpu := was[cpu].(left := was[cpu].left - |event|)])
  {
    TakenIsValid(was[cpu], event);
    hide Events.LengthField, Batch, IsPick, Events.Framed, Events.Split;
  }

  lemma TakenIsValid(d: Loan, event: seq<byte>)
    requires d.Valid() && Front(d, event)
    ensures Batch(d) != [] && event == Batch(d)[0]
    ensures d.(left := d.left - |event|).Valid() && Batch(d.(left := d.left - |event|)) == Batch(d)[1..]
    ensures FifoNext(d.Queue(), Deliver(event), d.(left := d.left - |event|).Queue())
  {
    HeadEvent(d);
    LoanShrinks(d, |event|);
    LoanTaken(d, |event|);
    FirstOf(d.Rest(), |event|);
  }

  // ----- Runs of calls -----

  /** The producers may publish more events between calls. */
  ghost predicate Arrived(was: seq<Loan>, now: seq<Loan>)
    requires Ready(was)
  {
    && |now| == |was| && Ready(now)
    && forall j :: 0 <= j < |was| ==>
         was[j].bytes <= now[j].bytes && now[j] == was[j].(bytes := now[j].bytes)
  }

  lemma ArrivedBatch(d: Loan, d': Loan)
    requires d.Valid() && d'.Valid() && d.bytes <= d'.bytes && d' == d.(bytes := d'.bytes)
    ensures Batch(d') == Batch(d)
  {
    assert d'.Rest() == d.Rest();
  }

  lemma ArrivedKeepsBatches(was: seq<Loan>, now: seq<Loan>)
    requires Ready(was) && Arrived(was, now)
    ensures Batches(now) == Batches(was)
  {
    hide Batch;
    forall j | 0 <= j < |was|
      ensures Batch(now[j]) == Batch(was[j])
    {
      ArrivedBatch(was[j], now[j]);
    }
  }

  /** One call takes the merge's next event, and leaves its bytes lent to the caller. */
  lemma NextPops(was: seq<Loan>, t: Taken, now: seq<Loan>)
    requires Ready(was) && NextSpec(was, Success(t), now)
    ensures Batches(was)[t.cpu] != [] && Batches(now) == Pop(Batches(was), t.cpu)
    ensures Drain(Batches(was)) == [t] + Drain(Batches(now))
    ensures t.cpu < |now| && now[t.cpu].bytes == was[t.cpu].bytes && now[t.cpu].read == was[t.cpu].read
    ensures var upTo := now[t.cpu].read - now[t.cpu].left;
            |t.event| <= upTo && now[t.cpu].bytes[upTo - |t.event|..upTo] == t.event
  {
    hide NextSpec, Batch, Events.LengthField;
    NextBatches(was, t, now);
    PickUnique(Batches(was), t.cpu);
  }

  lemma SomeLeft(d: Loan)
    requires d.Valid()
    ensures Batch(d) != [] <==> d.left > 0
  {
    Sections(d);
  }

  /** Giving out the first event of one device. */
  lemma GivenOut(d: Loan, event: seq<byte>)
    requires d.Valid() && Batch(d) != [] && event == Batch(d)[0]
    ensures |event| <= d.left && d.(left := d.left - |event|).Valid()
    ensures Batch(d.(left := d.left - |event|)) == Batch(d)[1..]
    ensures d.bytes[d.read - d.left..d.read - d.left + |event|] == event
  {
    hide Batch, Events.LengthField, Events.Framed, Events.Split, HeadTs, Ts, Events.Timestamp;
    SomeLeft(d);
    HeadEvent(d);
    TakenIsValid(d, event);
    SubSlice(d.bytes, d.read - d.left, d.left, 0, |event|);
  }

  lemma NextBatches(was: seq<Loan>, t: Taken, now: seq<Loan>)
    requires Ready(was) && NextSpec(was, Success(t), now)
    ensures t.cpu < |was| && IsPick(Batches(was), t.cpu) && t.event == Batches(was)[t.cpu][0]
    ensures Batches(now) == Pop(Batches(was), t.cpu)
    ensures now[t.cpu].bytes == was[t.cpu].bytes && now[t.cpu].read == was[t.cpu].read
    ensures var upTo := now[t.cpu].read - now[t.cpu].left;
            |t.event| <= upTo && now[t.cpu].bytes[upTo - |t.event|..upTo] == t.event
  {
    hide Batch, Events.LengthField, Events.Framed, Events.Split;
    GivenOut(was[t.cpu], t.event);
    forall j | 0 <= j < |was| && j != t.cpu
      ensures Batch(now[j]) == Batch(was[j])
    {
      ScannedIsValid(was[j]);
    }
  }

  /** Bytes read out and not yet given: the sum of `m_sn_len`. */
  function TotalLeft(devs: seq<Loan>): nat {
    if devs == [] then 0 else devs[0].left + TotalLeft(devs[1..])
  }

  lemma {:induction false} OneLess(was: seq<Loan>, now: seq<Loan>, k: nat)
    requires |was| == |now| && k < |was|
    requires forall j :: 0 <= j < |was| && j != k ==> now[j].left == was[j].left
    ensures TotalLeft(now) == TotalLeft(was) - was[k].left + now[k].left
    decreases k
  {
    if k > 0 {
      OneLess(was[1..], now[1..], k - 1);
    } else {
      SameLeft(was[1..], now[1..]);
    }
  }

  lemma {:induction false} SameLeft(was: seq<Loan>, now: seq<Loan>)
    requires |was| == |now|
    requires forall j :: 0 <= j < |was| ==> now[j].left == was[j].left
    ensures TotalLeft(now) == TotalLeft(was)
  {
    if was != [] {
      SameLeft(was[1..], now[1..]);
    }
  }

  /** Every successful call leaves strictly less to give out, by exactly its event. */
  lemma UnreadFalls(was: seq<Loan>, t: Taken, now: seq<Loan>)
    requires Ready(was) && NextSpec(was, Success(t), now)
    ensures |t.event| >= HEADER && TotalLeft(now) == TotalLeft(was) - |t.event|
  {
    HeadEvent(was[t.cpu]);
    hide Batch, Events.LengthField, Events.Framed, Events.Split, IsPick;
    OneLess(was, now, t.cpu);
  }

  datatype Call = Call(before: seq<Loan>, taken: Taken, after: seq<Loan>)

  /** A run of successful calls with arrivals in between. */
  ghost predicate Calls(was: seq<Loan>, calls: seq<Call>)
    requires Ready(was)
    decreases |calls|
  {
    calls == [] ||
    (&& Arrived(was, calls[0].before)
     && NextSpec(calls[0].before, Success(calls[0].taken), calls[0].after)
     && Calls(calls[0].after, calls[1..]))
  }

  ghost function Last(was: seq<Loan>, calls: seq<Call>): (now: seq<Loan>)
    requires Ready(was) && Calls(was, calls)
    ensures Ready(now)
    decreases |calls|
  {
    if calls == [] then was else Last(calls[0].after, calls[1..])
  }

  function Outs(calls: seq<Call>): seq<Taken> {
    if calls == [] then [] else [calls[0].taken] + Outs(calls[1..])
  }

  /** Successive calls give out the merge, in order and without gap or repeat. */
  lemma {:induction false} CallsFollowMerge(was: seq<Loan>, calls: seq<Call>)
    requires Ready(was) && Calls(was, calls)
    ensures Drain(Batches(was)) == Outs(calls) + Drain(Batches(Last(was, calls)))
    decreases |calls|
  {
    if calls != [] {
      var c := calls[0];
      CallsFollowMerge(c.after, calls[1..]);
      hide NextSpec, Drain, Batches, Arrived;
      ArrivedKeepsBatches(was, c.before);
      NextPops(c.before, c.taken, c.after);
      AppendAssociates([c.taken], Outs(calls[1..]), Drain(Batches(Last(was, calls))));
    }
  }

  /** From one refill to the next: the calls return the whole merge of the batches. */
  lemma BetweenRefills(was: seq<Loan>, calls: seq<Call>, before: seq<Loan>, after: seq<Loan>)
    requires Ready(was) && Calls(was, calls) && Arrived(Last(was, calls), before)
    requires NextSpec(before, Timeout, after)
    ensures Outs(calls) == Drain(Batches(was))
  {
    CallsFollowMerge(was, calls);
    ArrivedKeepsBatches(Last(was, calls), before);
  }

  /** Exactly when everything lent was given out, or nothing was, does a refill leave the unread
      events of a device as they were. */
  lemma RereadIff(d: Loan)
    requires d.Valid()
    ensures Scanned(d).Valid() && Renewed(Scanned(d)).Valid()
    ensures Renewed(Scanned(d)).Queue().Unread() == d.Queue().Unread() <==> d.left == 0 || d.left == d.read
  {
    hide Events.Framed, Events.Split;
    ScannedIsValid(d);
    var mid := Scanned(d);
    LoanRenewed(mid);
    NothingGiven(mid);
    OneActionAccount(d.Queue(), if d.left == 0 && d.read > 0 then Free else Silent, mid.Queue());
    OneActionAccount(mid.Queue(), Borrow, Renewed(mid).Queue());
  }

  /** A refill lends no event twice exactly when each device is used up or untouched. */
  lemma RefillIsFreshIff(was: seq<Loan>, now: seq<Loan>)
    requires Ready(was) && NextSpec(was, Timeout, now)
    ensures (forall j :: 0 <= j < |was| ==> now[j].Queue().Unread() == was[j].Queue().Unread())
            <==> forall j :: 0 <= j < |was| ==> was[j].left == 0 || was[j].left == was[j].read
  {
    hide Loan.Queue, Fifo.Unread, Scanned, Renewed, Batches, Idle;
    forall j | 0 <= j < |was|
      ensures now[j].Queue().Unread() == was[j].Queue().Unread() <==> was[j].left == 0 || was[j].left == was[j].read
    {
      RereadIff(was[j]);
    }
  }

  /** Without events stamped 2^64-1 that is always so: every device is used up by then. */
  lemma RefillIsFresh(was: seq<Loan>, now: seq<Loan>)
    requires Ready(was) && NextSpec(was, Timeout, now)
    requires forall j :: 0 <= j < |was| ==> Whole(Batch(was[j]))
    ensures forall j :: 0 <= j < |was| ==> was[j].left == 0
    ensures forall j :: 0 <= j < |was| ==> now[j].Queue().Unread() == was[j].Queue().Unread()
  {
    forall j | 0 <= j < |was|
      ensures was[j].left == 0 && now[j].Queue().Unread() == was[j].Queue().Unread()
    {
      assert !Offers(Batches(was)[j]);
      assert Batch(was[j]) == [];
      SomeLeft(was[j]);
      RereadIff(was[j]);
    }
  }

  /** A batch of an event at time 5 and one stamped 2^64-1. */
  function Blocked(): Loan {
    var batch := EmptyEvent(5) + EmptyEvent(MAX_TS);
    Loan(batch, |batch|, |batch|)
  }

  lemma OneDeviceTaken(d: Loan, a: seq<byte>, rest: seq<seq<byte>>)
    requires d.Valid() && |a| <= d.left && Batch(d) == [a] + rest && Ts(a) < MAX_TS
    requires d.(left := d.left - |a|).Valid()
    ensures NextSpec([d], Success(Taken(0, a)), [d.(left := d.left - |a|)])
  {
    hide Batch, Ts, Loan.Valid;
  }

  lemma OneDeviceBlocked(d: Loan)
    requires d.Valid() && Renewed(d).Valid() && Scanned(d) == d && !Offers(Batch(d))
    ensures NextSpec([d], Timeout, [Renewed(d)])
  {
    hide Batch, Offers, Loan.Valid, Renewed, Scanned;
  }

  /** The first event is taken; the next call finds nothing and reads anew; then the first event
      is there to be taken again. */
  lemma SentinelRepeats()
    ensures Blocked().Valid() && Blocked().(left := HEADER).Valid()
    ensures NextSpec([Blocked()], Success(Taken(0, EmptyEvent(5))), [Blocked().(left := HEADER)])
    ensures NextSpec([Blocked().(left := HEADER)], Timeout, [Blocked()])
  {
    hide Batch, EmptyEvent, Blocked, Ts, Loan.Valid, NextSpec;
    BlockedBatches();
    OneDeviceTaken(Blocked(), EmptyEvent(5), [EmptyEvent(MAX_TS)]);
    OneDeviceBlocked(Blocked().(left := HEADER));
  }

  lemma BlockedBatches()
    ensures var a, b, d := EmptyEvent(5), EmptyEvent(MAX_TS), Blocked();
            && d.Valid() && Batch(d) == [a] + [b] && d.(left := HEADER).Valid() && Batch(d.(left := HEADER)) == [b]
            && Ts(a) == 5 && Ts(b) == MAX_TS && |a| == |b| == HEADER && d.left == 2 * HEADER
            && Scanned(d.(left := HEADER)) == d.(left := HEADER) && Renewed(d.(left := HEADER)) == d
  {
    var a, b, d := EmptyEvent(5), EmptyEvent(MAX_TS), Blocked();
    EmptyEventIs(5);
    EmptyEventIs(MAX_TS);
    hide EmptyEvent, Events.IsEvent, Events.Timestamp, Events.LengthField;
    TwoEvents(a, b);
    assert d.bytes[..|d.bytes|] == d.bytes[0..|d.bytes|] == a + b;
    assert d.bytes[..HEADER] == a && d.bytes[HEADER..|d.bytes|] == b && d.bytes[..0] == [];
  }
}
