/** The merge over perf rings: a ring of records is, for the reader, a loan of the events its
    samples carry, so the merge does with perf rings what it does with the driver's. */
module PerfMerge {
  import opened Bytes
  import opened Events
  import opened EventQueue
  import opened ScapMerge
  import P = PerfWalk

  /** Where a struct perf_event_sample keeps its data: after its header and its size. */
  const DATA: nat := 12

  /** The event whose bytes start in the data of a sample. */
  predicate Carries(b: seq<byte>)
    requires |b| >= P.HEADER
  {
    && DATA + HEADER <= P.Size(b) <= |b|
    && HEADER <= LengthField(b[DATA..]) <= P.Size(b) - DATA
  }

  function EventAt(b: seq<byte>): (e: seq<byte>)
    requires |b| >= P.HEADER && Carries(b)
    ensures IsEvent(e) && Timestamp(e) == Timestamp(b[DATA..])
  {
    SliceKeepsHeader(b[DATA..], LengthField(b[DATA..]));
    b[DATA..][..LengthField(b[DATA..])]
  }

  /** Records whose samples all carry an event. */
  predicate Carrying(b: seq<byte>)
    requires P.Parsed(b)
  {
    |b| == 0 || ((P.IsSample(b) ==> Carries(b)) && Carrying(b[P.Size(b)..]))
  }

  /** The events carried, back to back. */
  function Payload(b: seq<byte>): (r: seq<byte>)
    requires P.Parsed(b) && Carrying(b)
    ensures Framed(r)
  {
    if |b| == 0 then [] else
      var rest := Payload(b[P.Size(b)..]);
      if P.IsSample(b) then
        Prepend(EventAt(b), rest);
        EventAt(b) + rest
      else rest
  }

  /** Appending records changes nothing about the first one. */
  lemma FirstCarried(a: seq<byte>, b: seq<byte>)
    requires P.Parsed(a) && |a| > 0 && P.Parsed(a + b)
    ensures P.Size(a + b) == P.Size(a) <= |a|
    ensures Carries(a + b) == Carries(a) && (Carries(a) ==> EventAt(a + b) == EventAt(a))
  {
    P.FirstRecord(a, b);
    if P.Size(a) >= DATA + HEADER {
      assert (a + b)[DATA..] == a[DATA..] + b;
      ConcatKeepsHeader(a[DATA..], b);
      hide Events.LengthField;
    }
  }

  lemma {:induction false} PayloadConcat(a: seq<byte>, b: seq<byte>)
    requires P.Parsed(a) && P.Parsed(b)
    ensures P.Parsed(a + b) && Carrying(a + b) == (Carrying(a) && Carrying(b))
    ensures Carrying(a + b) ==> Payload(a + b) == Payload(a) + Payload(b)
    decreases |a|
  {
    hide P.Size, P.IsSample, Carries, EventAt, Events.Framed;
    P.ParsedConcat(a, b);
    if |a| == 0 {
      assert a + b == b;
    } else {
      P.FirstRecord(a, b);
      FirstCarried(a, b);
      PayloadConcat(a[P.Size(a)..], b);
    }
  }

  predicate AllCarry(records: seq<seq<byte>>) {
    forall r :: r in records ==> |r| >= P.HEADER && Carries(r)
  }

  function EventsOf(records: seq<seq<byte>>): seq<seq<byte>>
    requires AllCarry(records)
  {
    if records == [] then [] else [EventAt(records[0])] + EventsOf(records[1..])
  }

  lemma RecordAlone(b: seq<byte>)
    requires P.Parsed(b) && |b| > 0 && Carries(b)
    ensures var r := b[..P.Size(b)]; |r| >= P.HEADER && Carries(r) && EventAt(r) == EventAt(b)
  {
    var n := P.Size(b);
    assert b[..n] + b[n..] == b;
    P.ConcatKeepsRecord(b[..n], b[n..]);
    assert P.Parsed(b[..n]);
    FirstCarried(b[..n], b[n..]);
  }

  lemma EventsCons(r: seq<byte>, records: seq<seq<byte>>)
    requires |r| >= P.HEADER && Carries(r) && AllCarry(records)
    ensures AllCarry([r] + records) && EventsOf([r] + records) == [EventAt(r)] + EventsOf(records)
  {
    hide Carries, EventAt;
    assert ([r] + records)[1..] == records;
  }

  /** The reader's batch is the samples' events, one each and in order. */
  lemma {:induction false} PayloadIsSamples(b: seq<byte>)
    requires P.Parsed(b) && Carrying(b)
    ensures AllCarry(P.Samples(b)) && Split(Payload(b)) == EventsOf(P.Samples(b))
    decreases |b|
  {
    hide Carries, EventAt, Events.Framed, Events.Split, P.Size, P.IsSample, AllCarry, EventsOf;
    if |b| == 0 {
      NoEvents();
    } else {
      var rest := b[P.Size(b)..];
      PayloadIsSamples(rest);
      if P.IsSample(b) {
        RecordAlone(b);
        Prepend(EventAt(b), Payload(rest));
        EventsCons(b[..P.Size(b)], P.Samples(rest));
      } else {
        assert [] + P.Samples(rest) == P.Samples(rest);
      }
    }
  }

  lemma NoEvents()
    ensures Framed([]) && Split([]) == [] && AllCarry([]) && EventsOf([]) == []
  {
  }

  /** The walk skips nothing that carries an event. */
  lemma {:induction false} SeekKeepsPayload(b: seq<byte>)
    requires P.Parsed(b) && Carrying(b)
    ensures var rest := P.Seek(b, false).0; Carrying(rest) && Payload(rest) == Payload(b)
    decreases |b|
  {
    hide Carries, EventAt, Events.Framed;
    if |b| > 0 && !P.IsSample(b) {
      SeekKeepsPayload(b[P.Size(b)..]);
    }
  }

  lemma SeekPopsPayload(b: seq<byte>)
    requires P.Parsed(b) && |b| > 0 && P.IsSample(b) && Carrying(b)
    ensures |b| >= P.HEADER && Carries(b)
    ensures var rest := P.Seek(b, true).0; Carrying(rest) && Payload(b) == EventAt(b) + Payload(rest)
  {
    hide Carries, EventAt, Events.Framed;
    P.SeekPastCurrent(b);
    SeekKeepsPayload(b[P.Size(b)..]);
  }

  /** The walk stops between two records. */
  lemma {:induction false} SeekCuts(b: seq<byte>, skip: bool)
    requires P.Parsed(b)
    ensures P.Parsed(b[..|b| - |P.Seek(b, skip).0|])
    decreases |b|
  {
    if |b| > 0 && !(P.IsSample(b) && !skip) {
      var n, k := P.Size(b), |b| - |P.Seek(b, skip).0|;
      SeekCuts(b[n..], skip && !P.IsSample(b));
      RecordBefore(b, k);
    }
  }

  lemma RecordBefore(b: seq<byte>, k: nat)
    requires P.Parsed(b) && |b| > 0 && P.Size(b) <= k <= |b| && P.Parsed(b[P.Size(b)..][..k - P.Size(b)])
    ensures P.Parsed(b[..k])
  {
    assert b[..k] + b[k..] == b;
    P.ConcatKeepsRecord(b[..k], b[k..]);
    assert b[..k][P.Size(b)..] == b[P.Size(b)..][..k - P.Size(b)];
  }

  /** The samples that the probe's output makes: an event, and padding behind it. */
  predicate HoldEvents(rs: seq<P.Record>, events: seq<seq<byte>>, pads: seq<seq<byte>>) {
    && |events| == |rs| == |pads|
    && forall i :: 0 <= i < |rs| ==>
         rs[i].Valid() && (rs[i].Sample? ==> IsEvent(events[i]) && rs[i].data == events[i] + pads[i])
  }

  function SampledEvents(rs: seq<P.Record>, events: seq<seq<byte>>): seq<seq<byte>>
    requires |events| == |rs|
  {
    if rs == [] then [] else (if rs[0].Sample? then [events[0]] else []) + SampledEvents(rs[1..], events[1..])
  }

  lemma EventRead(r: P.Record, e: seq<byte>, pad: seq<byte>, rest: seq<byte>)
    requires r.Valid() && r.Sample? && IsEvent(e) && r.data == e + pad
    ensures var b := P.RecordBytes(r) + rest; |b| >= P.HEADER && Carries(b) && EventAt(b) == e
  {
    hide Bytes.LittleEndian, Events.LengthField, P.Head, P.Size, P.Type;
    var b := P.RecordBytes(r) + rest;
    P.RecordRead(r, rest);
    assert b[12..] == e + (pad + rest);
    ConcatKeepsHeader(e, pad + rest);
  }

  /** End to end: the events the probe puts into samples are the reader's batch, one each and in
      order, whatever other records come in between. */
  lemma {:induction false} EventsComeThrough(rs: seq<P.Record>, events: seq<seq<byte>>, pads: seq<seq<byte>>)
    requires HoldEvents(rs, events, pads)
    ensures P.Parsed(P.Stream(rs)) && Carrying(P.Stream(rs))
    ensures Split(Payload(P.Stream(rs))) == SampledEvents(rs, events)
    decreases |rs|
  {
    P.StreamRead(rs);
    if rs == [] {
      NoEvents();
    } else {
      hide P.Size, P.IsSample, P.RecordBytes, Carries, EventAt, Events.Framed, Events.Split, Events.IsEvent, P.Samples,
        P.LostSum;
      var rest := P.Stream(rs[1..]);
      assert HoldEvents(rs[1..], events[1..], pads[1..]);
      EventsComeThrough(rs[1..], events[1..], pads[1..]);
      P.RecordRead(rs[0], rest);
      P.RecordShape(rs[0]);
      if rs[0].Sample? {
        EventRead(rs[0], events[0], pads[0], rest);
        Prepend(events[0], Payload(rest));
      }
    }
  }

  // ----- A perf ring as a loan -----

  function Given(s: P.State): seq<byte>
    requires s.Valid()
  {
    s.Outstanding()[..s.lastRead - s.snLen]
  }

  function NotLent(s: P.State): seq<byte>
    requires s.Valid()
  {
    s.Outstanding()[s.lastRead..]
  }

  /** A ring whose samples carry events, with the reader between two records. */
  ghost predicate Good(s: P.State) {
    && s.Valid() && Carrying(s.Outstanding())
    && P.Parsed(Given(s)) && (s.snLen > 0 ==> P.IsSample(s.Unread()))
  }

  ghost predicate Parts(all: seq<byte>, lent: seq<byte>, given: seq<byte>, unread: seq<byte>, rest: seq<byte>) {
    && P.Parsed(all) && P.Parsed(lent) && P.Parsed(given) && P.Parsed(unread) && P.Parsed(rest)
    && Carrying(all) && Carrying(lent) && Carrying(given) && Carrying(unread) && Carrying(rest)
    && Payload(lent) == Payload(given) + Payload(unread)
    && Payload(all) == Payload(lent) + Payload(rest)
  }

  lemma PartsOf(all: seq<byte>, lent: seq<byte>, given: seq<byte>, unread: seq<byte>, rest: seq<byte>)
    requires P.Parsed(all) && P.Parsed(lent) && P.Parsed(given) && P.Parsed(unread) && Carrying(all)
    requires all == lent + rest && lent == given + unread
    ensures Parts(all, lent, given, unread, rest)
  {
    hide P.Parsed, Carrying, Payload;
    P.ParsedRest(lent, rest);
    PayloadConcat(lent, rest);
    PayloadConcat(given, unread);
  }

  lemma Pieces(s: P.State)
    requires Good(s)
    ensures Parts(s.Outstanding(), s.Outstanding()[..s.lastRead], Given(s), s.Unread(), NotLent(s))
  {
    hide P.Parsed, Carrying, Payload, P.State.Unread, P.State.Outstanding, P.Offset;
    var all, n, k := s.Outstanding(), s.lastRead, s.snLen;
    P.UnreadIsLent(s);
    assert all == all[..n] + all[n..] && all[..n] == all[..n - k] + all[n - k..n];
    PartsOf(all, all[..n], Given(s), s.Unread(), NotLent(s));
  }

  /** The events of a ring: given to the reader, left to give, and not yet lent. */
  ghost function Past(s: P.State): (b: seq<byte>)
    requires Good(s)
    ensures Framed(b)
  {
    Pieces(s);
    Payload(Given(s))
  }

  ghost function Current(s: P.State): (b: seq<byte>)
    requires Good(s)
    ensures Framed(b)
  {
    Pieces(s);
    Payload(s.Unread())
  }

  ghost function Behind(s: P.State): (b: seq<byte>)
    requires Good(s)
    ensures Framed(b)
  {
    Pieces(s);
    Payload(NotLent(s))
  }

  lemma PayloadParts(s: P.State)
    requires Good(s)
    ensures P.Parsed(s.Outstanding()) && Carrying(s.Outstanding())
    ensures Payload(s.Outstanding()) == (Past(s) + Current(s)) + Behind(s)
  {
    hide P.Parsed, Carrying, Payload, P.State.Unread, P.State.Outstanding, Events.Framed;
    Pieces(s);
  }

  lemma LoanOfParts(a: seq<byte>, b: seq<byte>, c: seq<byte>)
    requires Framed(a) && Framed(b) && Framed(c)
    ensures var l := Loan((a + b) + c, |a + b|, |b|);
            l.Valid() && l.Rest() == b && l.bytes[l.read..] == c
  {
    SplitConcat(a, b);
    SplitConcat(a + b, c);
    hide Events.Framed;
    assert ((a + b) + c)[..|a + b|] == a + b && ((a + b) + c)[..|a|] == a;
  }

  /** A perf ring as the merge knows a device. */
  ghost function Held(s: P.State): (l: Loan)
    requires Good(s)
    ensures l.Valid() && l.Rest() == Current(s) && l.bytes[l.read..] == Behind(s)
  {
    LoanOfParts(Past(s), Current(s), Behind(s));
    Loan((Past(s) + Current(s)) + Behind(s), |Past(s) + Current(s)|, |Current(s)|)
  }

  /** What the scan finds in memory: the timestamp the merge goes by, and a length that is no
      corruption. */
  lemma StampInMemory(s: P.State)
    requires Good(s)
    ensures Held(s).Valid() && (Held(s).left == 0 <==> s.snLen == 0)
    ensures s.snLen > 0 ==>
              && |s.Unread()| >= P.HEADER && Carries(s.Unread())
              && LengthField(s.Unread()[DATA..]) <= s.snLen
              && Timestamp(s.Unread()[DATA..]) == HeadTs(Held(s)) && Front(Held(s), EventAt(s.Unread()))
  {
    hide P.State.Outstanding, Events.Framed, P.Offset, P.Size, P.Type, P.Window, Carries;
    var u := s.Unread();
    if s.snLen > 0 {
      Pieces(s);
      SeekPopsPayload(u);
      LengthInside(u);
      FrontOfPayload(EventAt(u), Payload(P.Seek(u, true).0));
    }
  }

  lemma LengthInside(b: seq<byte>)
    requires |b| >= P.HEADER && Carries(b)
    ensures |b| >= DATA + HEADER && LengthField(b[DATA..]) <= |b|
  {
  }

  lemma FrontOfPayload(e: seq<byte>, rest: seq<byte>)
    requires IsEvent(e)
    ensures LengthField(e + rest) == |e| && Timestamp(e + rest) == Timestamp(e) && (e + rest)[..|e|] == e
  {
    ConcatKeepsHeader(e, rest);
    assert (e + rest)[0..8] == e[0..8];
  }

  // ----- What the reader and the kernel do to it -----

  lemma LentParts(s: P.State)
    requires Good(s)
    ensures P.Parsed(s.Outstanding()[..s.lastRead]) && Carrying(s.Outstanding()[..s.lastRead])
    ensures Payload(s.Outstanding()[..s.lastRead]) == Past(s) + Current(s)
  {
    hide P.Parsed, Carrying, Payload, P.State.Unread, P.State.Outstanding, Events.Framed;
    Pieces(s);
  }

  lemma NothingCarried()
    ensures P.Parsed([]) && Carrying([]) && Payload([]) == []
  {
  }

  /** Moving tail gives the loan back. */
  lemma GiveBackIsReleased(s: P.State)
    requires Good(s) && s.snLen == 0
    ensures Good(P.GiveBack(s)) && Held(P.GiveBack(s)) == Released(Held(s))
  {
    hide P.Parsed, Carrying, Payload, P.State.Unread, P.State.Outstanding, Events.Framed, Parts;
    var s' := P.GiveBack(s);
    P.TailMoves(s);
    NothingCarried();
    PartsCarry(s);
    assert Given(s') == [] && NotLent(s') == NotLent(s);
  }

  lemma PartsCarry(s: P.State)
    requires Good(s)
    ensures Carrying(s.Unread()) && P.Parsed(NotLent(s)) && Carrying(NotLent(s))
  {
    hide P.Parsed, Carrying, Payload, P.State.Unread, P.State.Outstanding, Events.Framed;
    Pieces(s);
  }

  /** Room for one byte more: the read size tells a full ring from an empty one only then. */
  predicate Room(s: P.State) {
    s.head - s.tail < |s.data|
  }

  lemma ReadIsGood(s: P.State)
    requires Good(s)
    ensures Good(P.ReadOut(s)) && P.ReadOut(s).Outstanding() == s.Outstanding()
    ensures P.ReadOut(s).lastRead == (if Room(s) then s.head - s.tail else 0)
    ensures |Past(P.ReadOut(s))| == 0
  {
    hide P.Parsed, Carrying, Payload, P.State.Unread, P.State.Outstanding, Events.Framed, P.Seek, P.ReadOut, P.ReadSize,
      P.IsSample;
    var s', all, n := P.ReadOut(s), s.Outstanding(), P.ReadOut(s).lastRead;
    P.LendsAll(s);
    P.ReadOutIs(s);
    P.SeekStopsAtSample(all[..n]);
    SeekCuts(all[..n], false);
    assert Given(s') == all[..n][..n - s'.snLen];
    LentParts(s');
    SeekKeepsPayload(all[..n]);
  }

  /** A read lends every event, exactly when the ring has room for one byte more or holds none. */
  lemma ReadIsRenewedIff(s: P.State)
    requires Good(s)
    ensures Good(P.ReadOut(s))
    ensures Held(P.ReadOut(s)) == if Room(s) then Renewed(Held(s)) else Loan(Held(s).bytes, 0, 0)
    ensures Held(P.ReadOut(s)) == Renewed(Held(s)) <==> Room(s) || Held(s).bytes == []
  {
    hide P.Parsed, Carrying, Payload, P.State.Unread, P.State.Outstanding, Events.Framed, P.ReadOut, Parts;
    ReadIsGood(s);
    ReadLends(s);
    PayloadParts(s);
  }

  lemma ReadLends(s: P.State)
    requires Good(s) && Good(P.ReadOut(s)) && |Past(P.ReadOut(s))| == 0
    requires P.ReadOut(s).Outstanding() == s.Outstanding()
    requires P.ReadOut(s).lastRead == (if Room(s) then s.head - s.tail else 0)
    ensures P.Parsed(s.Outstanding()) && Carrying(s.Outstanding())
    ensures var s', all := P.ReadOut(s), Payload(s.Outstanding());
            Current(s') == (if Room(s) then all else []) && (Past(s') + Current(s')) + Behind(s') == all
  {
    hide P.Parsed, Carrying, Payload, P.State.Unread, P.State.Outstanding, Events.Framed, P.ReadOut, Parts, Past,
      Current, Behind;
    var s', all := P.ReadOut(s), s.Outstanding();
    PayloadParts(s');
    LentParts(s');
    NothingCarried();
    WholeAndNone(all);
  }

  lemma WholeAndNone(all: seq<byte>)
    ensures all[..|all|] == all && all[..0] == []
  {
  }

  lemma PassIsGood(s: P.State)
    requires Good(s) && s.snLen > 0
    ensures Good(P.PassOn(s)) && P.PassOn(s).lastRead == s.lastRead && P.PassOn(s).Outstanding() == s.Outstanding()
    ensures P.Parsed(s.Unread()) && P.PassOn(s).Unread() == P.Seek(s.Unread(), true).0
  {
    hide P.Parsed, Carrying, Payload, P.State.Unread, P.State.Outstanding, Events.Framed, P.Seek, P.PassOn, P.IsSample;
    var s', all, u := P.PassOn(s), s.Outstanding(), s.Unread();
    P.PassOnIs(s);
    P.UnreadIsLent(s);
    P.SeekSkips(u);
    SeekCuts(u, true);
    P.ParsedConcat(Given(s), u[..s.snLen - s'.snLen]);
    assert Given(s') == Given(s) + u[..s.snLen - s'.snLen];
  }

  /** Moving on takes the event in hand. */
  lemma PassIsTaken(s: P.State)
    requires Good(s) && s.snLen > 0
    ensures Good(P.PassOn(s)) && |s.Unread()| >= P.HEADER && Carries(s.Unread())
    ensures var n := |EventAt(s.Unread())|;
            n <= Held(s).left && Held(P.PassOn(s)) == Held(s).(left := Held(s).left - n)
  {
    hide P.Parsed, Carrying, Payload, P.State.Unread, P.State.Outstanding, Events.Framed, P.PassOn, Parts, P.IsSample,
      EventAt, Carries, P.Seek;
    PassIsGood(s);
    PartsCarry(s);
    SeekPopsPayload(s.Unread());
    PayloadParts(s);
    PayloadParts(P.PassOn(s));
    LentParts(s);
    LentParts(P.PassOn(s));
  }

  lemma RestGrows(all: seq<byte>, b: seq<byte>, n: nat)
    requires n <= |all|
    ensures (all + b)[n..] == all[n..] + b
  {
  }

  lemma ArrivalCuts(s: P.State, b: seq<byte>)
    requires s.Valid() && P.Parsed(b) && s.head - s.tail + |b| <= |s.data|
    ensures P.AfterArrival(s, b).Valid()
    ensures Given(P.AfterArrival(s, b)) == Given(s) && NotLent(P.AfterArrival(s, b)) == NotLent(s) + b
  {
    hide P.Parsed, P.State.Unread, P.State.Outstanding, P.Offset, P.AfterArrival;
    P.ArrivalKeeps(s, b);
    P.ArrivalExtends(s, b);
    P.PartOfFirst(s.Outstanding(), b, 0, s.lastRead - s.snLen);
    RestGrows(s.Outstanding(), b, s.lastRead);
  }

  lemma ArrivalIsGood(s: P.State, b: seq<byte>)
    requires Good(s) && P.Parsed(b) && Carrying(b) && s.head - s.tail + |b| <= |s.data|
    ensures Good(P.AfterArrival(s, b)) && P.AfterArrival(s, b).Unread() == s.Unread()
    ensures Given(P.AfterArrival(s, b)) == Given(s) && NotLent(P.AfterArrival(s, b)) == NotLent(s) + b
  {
    hide P.Parsed, Carrying, Payload, P.State.Unread, P.State.Outstanding, P.State.Shaped, Events.Framed,
      P.AfterArrival, P.IsSample, Given, NotLent;
    P.ArrivalKeeps(s, b);
    P.ArrivalExtends(s, b);
    ArrivalCuts(s, b);
    PayloadConcat(s.Outstanding(), b);
  }

  /** Records that arrive are an arrival of the events they carry. */
  lemma ArrivalArrives(s: P.State, b: seq<byte>)
    requires Good(s) && P.Parsed(b) && Carrying(b) && s.head - s.tail + |b| <= |s.data|
    ensures Good(P.AfterArrival(s, b))
    ensures Held(P.AfterArrival(s, b)) == Held(s).(bytes := Held(s).bytes + Payload(b))
  {
    hide P.Parsed, Carrying, Payload, P.State.Unread, P.State.Outstanding, Events.Framed, P.AfterArrival, Parts,
      P.IsSample, Given, NotLent;
    ArrivalIsGood(s, b);
    PartsCarry(s);
    PayloadConcat(NotLent(s), b);
    AppendAssociates(Past(s) + Current(s), Behind(s), Payload(b));
  }

  // ----- scap_next_live over perf rings -----

  ghost predicate AllGood(devs: seq<P.State>) {
    |devs| <= NO_CPU && forall j :: 0 <= j < |devs| ==> Good(devs[j])
  }

  /** Each ring as the merge knows it. */
  ghost function Loans(devs: seq<P.State>): (ls: seq<Loan>)
    requires AllGood(devs)
    ensures |ls| == |devs| && Ready(ls) && forall j :: 0 <= j < |devs| ==> ls[j] == Held(devs[j])
  {
    seq(|devs|, j requires 0 <= j < |devs| => Held(devs[j]))
  }

  /** A ring after the scan: given back if all that was lent has been passed. */
  function Swept(s: P.State): P.State {
    if s.snLen == 0 && s.lastRead > 0 then P.GiveBack(s) else s
  }

  lemma NothingLent(s: P.State)
    requires Good(s) && s.lastRead == 0
    ensures Held(s).read == 0
  {
    hide P.Parsed, Carrying, Payload, P.State.Unread, P.State.Outstanding, Events.Framed, Parts;
    LentParts(s);
    NothingCarried();
    assert s.Outstanding()[..0] == [];
  }

  lemma SweptIsScanned(s: P.State)
    requires Good(s)
    ensures Good(Swept(s)) && Held(Swept(s)) == Scanned(Held(s)) && Swept(s).snLen == s.snLen
  {
    hide Good, Held, P.State.Valid;
    StampInMemory(s);
    if s.snLen == 0 {
      if s.lastRead > 0 {
        GiveBackIsReleased(s);
      } else {
        NothingLent(s);
      }
    }
  }

  /** What one call does to the rings. */
  ghost predicate NextPerf(was: seq<P.State>, status: Status, now: seq<P.State>)
    requires AllGood(was)
  {
    && |now| == |was| && AllGood(now)
    && match status
       case Success(t) =>
         && NextSpec(Loans(was), status, Loans(now)) && was[t.cpu].snLen > 0
         && now[t.cpu] == P.PassOn(was[t.cpu])
         && forall j :: 0 <= j < |was| && j != t.cpu ==> now[j] == Swept(was[j])
       case Timeout =>
         && Idle(Batches(Loans(was)))
         && forall j :: 0 <= j < |was| ==> Swept(was[j]).Valid() && now[j] == P.ReadOut(Swept(was[j]))
       case Failure => false
  }

  ghost predicate SweptUpTo(was: seq<P.State>, now: seq<P.State>, n: nat)
    requires n <= |was| && AllGood(was)
  {
    && |now| == |was| && AllGood(now)
    && (forall i :: 0 <= i < n ==> now[i] == Swept(was[i]))
    && (forall i :: n <= i < |was| ==> now[i] == was[i])
  }

  lemma SweepStep(was: seq<P.State>, now: seq<P.State>, n: nat)
    requires AllGood(was) && n < |was| && SweptUpTo(was, now, n)
    ensures now[n] == was[n] && Good(was[n])
    ensures SweptUpTo(was, now[n := Swept(was[n])], n + 1)
    ensures Swept(was[n]) == was[n] ==> SweptUpTo(was, now, n + 1)
  {
    hide Good, Swept, Held;
    SweptIsScanned(was[n]);
  }

  /** The rings are swept as the loans are scanned. */
  lemma SweptLoans(was: seq<P.State>, now: seq<P.State>)
    requires AllGood(was) && SweptUpTo(was, now, |was|)
    ensures ScannedUpTo(Loans(was), Loans(now), |was|)
  {
    hide Good, Swept, Held, Scanned;
    forall j | 0 <= j < |was|
      ensures Loans(now)[j] == Scanned(Loans(was)[j])
    {
      SweptIsScanned(was[j]);
    }
  }

  lemma GoodIsValid(s: P.State)
    requires Good(s)
    ensures s.Valid()
  {
  }

  lemma LoansTaken(devs: seq<P.State>, cpu: nat)
    requires AllGood(devs) && cpu < |devs| && devs[cpu].snLen > 0
    ensures devs[cpu].Valid() && |devs[cpu].Unread()| >= P.HEADER && Carries(devs[cpu].Unread())
    ensures AllGood(devs[cpu := P.PassOn(devs[cpu])]) && Front(Held(devs[cpu]), EventAt(devs[cpu].Unread()))
    ensures |EventAt(devs[cpu].Unread())| <= Held(devs[cpu]).left
    ensures Loans(devs[cpu := P.PassOn(devs[cpu])]) ==
            Loans(devs)[cpu := Held(devs[cpu]).(left := Held(devs[cpu]).left - |EventAt(devs[cpu].Unread())|)]
  {
    hide Good, Held, Carries, EventAt, Loan.Valid, P.PassOn, P.State.Valid, P.State.Unread, Front;
    GoodIsValid(devs[cpu]);
    StampInMemory(devs[cpu]);
    PassIsTaken(devs[cpu]);
  }

  lemma PerfTaken(was: seq<P.State>, mid: seq<P.State>, cpu: nat)
    requires AllGood(was) && SweptUpTo(was, mid, |was|)
    requires cpu < |was| && IsPick(Batches(Loans(was)), cpu) && was[cpu].snLen > 0
    ensures mid[cpu] == was[cpu] && was[cpu].Valid()
    ensures |was[cpu].Unread()| >= P.HEADER && Carries(was[cpu].Unread())
    ensures AllGood(mid[cpu := P.PassOn(was[cpu])])
    ensures NextPerf(was, Success(Taken(cpu, EventAt(was[cpu].Unread()))), mid[cpu := P.PassOn(was[cpu])])
  {
    hide Good, Held, Carries, EventAt, Loan.Valid, P.PassOn, P.State.Shaped, P.State.Outstanding, P.State.Unread,
      IsPick, NextSpec, Front, Batches, ScannedUpTo;
    LoansTaken(mid, cpu);
    SweptLoans(was, mid);
    NextTaken(Loans(was), Loans(mid), cpu, EventAt(was[cpu].Unread()));
  }

  lemma PerfRefilled(was: seq<P.State>, mid: seq<P.State>, now: seq<P.State>)
    requires AllGood(was) && SweptUpTo(was, mid, |was|) && Idle(Batches(Loans(was)))
    requires |now| == |mid| && AllGood(now)
    requires forall j :: 0 <= j < |now| ==> mid[j].Valid() && now[j] == P.ReadOut(mid[j])
    ensures NextPerf(was, Timeout, now)
  {
    hide Good, Held, Swept, P.ReadOut, P.State.Valid, Idle, Batches;
  }

  class Handle {
    var devs: seq<P.State>

    ghost predicate Valid()
      reads this
    {
      AllGood(devs)
    }

    method Refill()
      requires Valid()
      modifies this
      ensures Valid() && |devs| == |old(devs)|
      ensures forall j :: 0 <= j < |devs| ==> old(devs)[j].Valid() && devs[j] == P.ReadOut(old(devs)[j])
    {
      hide Held, P.ReadOut, P.State.Valid, Carrying, P.Parsed;
      ghost var was := devs;
      for j := 0 to |devs|
        invariant |devs| == |was| && Valid()
        invariant forall i :: 0 <= i < j ==> was[i].Valid() && devs[i] == P.ReadOut(was[i])
        invariant forall i :: j <= i < |devs| ==> devs[i] == was[i]
      {
        ReadIsGood(devs[j]);
        devs := devs[j := P.ReadOut(devs[j])];
      }
    }

    /** One ring of the scan: is the event in its next sample earlier than the best so far? */
    static method Inspect(s: P.State, maxTs: nat) returns (corrupt: bool, earlier: bool, ts: nat)
      requires Good(s) && s.snLen > 0
      ensures !corrupt && (earlier <==> HeadTs(Held(s)) < maxTs) && (earlier ==> ts == HeadTs(Held(s)))
    {
      StampInMemory(s);
      hide Good, Held, Timestamp, LengthField, HeadTs, Front, EventAt;
      var pe := s.Unread()[DATA..];
      corrupt, earlier, ts := false, Timestamp(pe) < maxTs, Timestamp(pe);
      if earlier && LengthField(pe) > s.snLen {
        corrupt := true;
      }
    }

    /** The scan: rings used up are given back, and the first of the earliest events is picked.
        The corruption branch is never taken. */
    method Scan() returns (corrupt: bool, cpu: nat)
      requires Valid()
      modifies this
      ensures Valid() && !corrupt && |devs| == |old(devs)| && SweptUpTo(old(devs), devs, |devs|)
      ensures if cpu == NO_CPU then Idle(Batches(Loans(old(devs)))) else IsPick(Batches(Loans(old(devs))), cpu)
      ensures cpu != NO_CPU ==> cpu < |devs| && old(devs)[cpu].snLen > 0
    {
      var maxTs := MAX_TS;
      cpu, corrupt := NO_CPU, false;
      ghost var was := devs;
      ScanStart(Loans(was));
      hide Good, Held, HeadTs, Best, ScannedUpTo, P.GiveBack;
      for j := 0 to |devs|
        invariant |devs| == |was| && (cpu == NO_CPU || (cpu < j && was[cpu].snLen > 0))
        invariant SweptUpTo(was, devs, j)
        invariant Best(Loans(was), j, cpu, maxTs)
      {
        SweepStep(was, devs, j);
        StampInMemory(was[j]);
        if devs[j].snLen == 0 {
          BestSkip(Loans(was), j, cpu, maxTs);
          if devs[j].lastRead > 0 {
            devs := devs[j := P.GiveBack(devs[j])];
          }
        } else {
          var bad, earlier, ts := Inspect(devs[j], maxTs);
          if bad {
            corrupt := true;
            return;
          }
          if earlier {
            BestTake(Loans(was), j, cpu, maxTs);
            cpu, maxTs := j, ts;
          } else {
            BestSkip(Loans(was), j, cpu, maxTs);
          }
        }
      }
      BestIsPick(Loans(was), cpu, maxTs);
    }

    /** `scap_next_live` with the BPF probe. */
    method NextLive() returns (status: Status)
      requires Valid()
      modifies this
      ensures Valid() && NextPerf(old(devs), status, devs)
    {
      hide Good, Held, P.PassOn, P.ReadOut, P.State.Shaped, P.State.Outstanding, P.State.Unread, EventAt, Carries,
        IsPick, Idle, Batches, NextPerf, SweptUpTo;
      var corrupt, cpu := Scan();
      if corrupt {
        return Failure;
      }
      if cpu != NO_CPU {
        PerfTaken(old(devs), devs, cpu);
        status := Success(Taken(cpu, EventAt(devs[cpu].Unread())));
        devs := devs[cpu := P.PassOn(devs[cpu])];
      } else {
        ghost var mid := devs;
        Refill();
        PerfRefilled(old(devs), mid, devs);
        status := Timeout;
      }
    }
  }

  /** A call that finds nothing is the merge's own, exactly when every ring with events in it has
      room for one byte more. */
  lemma TimeoutIffRoom(was: seq<P.State>, now: seq<P.State>)
    requires AllGood(was) && NextPerf(was, Timeout, now)
    ensures forall j :: 0 <= j < |was| ==> Good(Swept(was[j]))
    ensures NextSpec(Loans(was), Timeout, Loans(now)) <==>
            forall j :: 0 <= j < |was| ==> Room(Swept(was[j])) || Held(Swept(was[j])).bytes == []
  {
    hide Good, Held, Swept, P.ReadOut, Room, Scanned, Renewed, P.State.Valid;
    forall j | 0 <= j < |was|
      ensures Good(Swept(was[j])) && Loans(was)[j] == Held(was[j]) && Loans(now)[j] == Held(now[j])
      ensures Loans(now)[j] == Renewed(Scanned(Loans(was)[j])) <==>
              Room(Swept(was[j])) || Held(Swept(was[j])).bytes == []
    {
      SweptIsScanned(was[j]);
      ReadIsRenewedIff(Swept(was[j]));
    }
  }

  // ----- Runs of calls -----

  /** Records the kernel can store behind the heads between two calls. */
  ghost predicate Storable(devs: seq<P.State>, records: seq<seq<byte>>) {
    && |records| == |devs|
    && forall j :: 0 <= j < |devs| ==>
         && P.Parsed(records[j]) && Carrying(records[j])
         && devs[j].head - devs[j].tail + |records[j]| <= |devs[j].data|
  }

  ghost function Stored(devs: seq<P.State>, records: seq<seq<byte>>): (r: seq<P.State>)
    requires AllGood(devs) && Storable(devs, records)
    ensures AllGood(r) && Arrived(Loans(devs), Loans(r))
  {
    StoredArrives(devs, records);
    seq(|devs|, j requires 0 <= j < |devs| => P.AfterArrival(devs[j], records[j]))
  }

  lemma StoredArrives(devs: seq<P.State>, records: seq<seq<byte>>)
    requires AllGood(devs) && Storable(devs, records)
    ensures var r := seq(|devs|, j requires 0 <= j < |devs| => P.AfterArrival(devs[j], records[j]));
            AllGood(r) && Arrived(Loans(devs), Loans(r))
  {
    hide Held, P.AfterArrival, Carrying, P.Parsed, Loan.Valid, P.State.Outstanding, P.State.Unread, P.Offset;
    forall j | 0 <= j < |devs|
      ensures Good(P.AfterArrival(devs[j], records[j]))
      ensures Held(P.AfterArrival(devs[j], records[j])) ==
              Held(devs[j]).(bytes := Held(devs[j]).bytes + Payload(records[j]))
    {
      ArrivalArrives(devs[j], records[j]);
    }
  }

  datatype PerfCall = PerfCall(records: seq<seq<byte>>, taken: Taken, after: seq<P.State>)

  /** A run of successful calls with arrivals in between. */
  ghost predicate PerfCalls(was: seq<P.State>, calls: seq<PerfCall>)
    requires AllGood(was)
    decreases |calls|
  {
    calls == [] ||
    (&& Storable(was, calls[0].records)
     && NextPerf(Stored(was, calls[0].records), Success(calls[0].taken), calls[0].after)
     && PerfCalls(calls[0].after, calls[1..]))
  }

  ghost function PerfLast(was: seq<P.State>, calls: seq<PerfCall>): (now: seq<P.State>)
    requires AllGood(was) && PerfCalls(was, calls)
    ensures AllGood(now)
    decreases |calls|
  {
    if calls == [] then was else PerfLast(calls[0].after, calls[1..])
  }

  function PerfOuts(calls: seq<PerfCall>): seq<Taken> {
    if calls == [] then [] else [calls[0].taken] + PerfOuts(calls[1..])
  }

  lemma {:induction false} PerfFollowsMerge(was: seq<P.State>, calls: seq<PerfCall>)
    requires AllGood(was) && PerfCalls(was, calls)
    ensures Drain(Batches(Loans(was))) == PerfOuts(calls) + Drain(Batches(Loans(PerfLast(was, calls))))
    decreases |calls|
  {
    hide NextSpec, Drain, Batches, Loans, Storable, AllGood, Stored;
    if calls != [] {
      var c := calls[0];
      var before := Stored(was, c.records);
      PerfFollowsMerge(c.after, calls[1..]);
      ArrivedKeepsBatches(Loans(was), Loans(before));
      NextPops(Loans(before), c.taken, Loans(c.after));
      AppendAssociates([c.taken], PerfOuts(calls[1..]), Drain(Batches(Loans(PerfLast(was, calls)))));
    }
  }

  /** From one read of the perf rings to the next, the calls return the whole merge of the events
      their samples carry. */
  lemma PerfBetweenReads(was: seq<P.State>, calls: seq<PerfCall>, records: seq<seq<byte>>, after: seq<P.State>)
    requires AllGood(was) && PerfCalls(was, calls) && Storable(PerfLast(was, calls), records)
    requires NextPerf(Stored(PerfLast(was, calls), records), Timeout, after)
    ensures PerfOuts(calls) == Drain(Batches(Loans(was)))
  {
    hide Batches, Loans, Storable, AllGood, Stored;
    PerfFollowsMerge(was, calls);
    ArrivedKeepsBatches(Loans(PerfLast(was, calls)), Loans(Stored(PerfLast(was, calls), records)));
  }
}
