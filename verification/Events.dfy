/** The layout of one event in a ring, and the framing of a byte stream into events
    by the length field of each event header. */
module Events {
  import opened Bytes

  /** sizeof(struct ppm_evt_hdr): ts (8), tid (8), len (4), type (2), nparams (4), packed. */
  const HEADER: nat := 26

  function Timestamp(b: seq<byte>): nat
    requires |b| >= HEADER
  {
    Value(b[0..8])
  }

  function LengthField(b: seq<byte>): nat
    requires |b| >= HEADER
  {
    Value(b[16..20])
  }

  /** One whole event: its header length field is its own size. */
  predicate IsEvent(b: seq<byte>) {
    |b| >= HEADER && LengthField(b) == |b|
  }

  /** A byte stream made of whole events, one after the other. */
  predicate Framed(b: seq<byte>) {
    |b| == 0 ||
    (HEADER <= |b| && HEADER <= LengthField(b) <= |b| && Framed(b[LengthField(b)..]))
  }

  /** Walking the stream by the length fields, as the reader does. */
  function Split(b: seq<byte>): (es: seq<seq<byte>>)
    requires Framed(b)
    ensures |es| == 0 <==> |b| == 0
  {
    if |b| == 0 then [] else
      [b[..LengthField(b)]] + Split(b[LengthField(b)..])
  }

  function Join(es: seq<seq<byte>>): (b: seq<byte>) {
    if es == [] then [] else es[0] + Join(es[1..])
  }

  lemma SliceKeepsHeader(b: seq<byte>, n: nat)
    requires HEADER <= n <= |b|
    ensures LengthField(b[..n]) == LengthField(b) && Timestamp(b[..n]) == Timestamp(b)
  {
    assert b[..n][16..20] == b[16..20];
    assert b[..n][0..8] == b[0..8];
  }

  lemma ConcatKeepsHeader(a: seq<byte>, b: seq<byte>)
    requires |a| >= HEADER
    ensures LengthField(a + b) == LengthField(a)
  {
    assert (a + b)[16..20] == a[16..20];
  }

  /** The first event of a framed stream, and what follows it. */
  lemma FirstOf(b: seq<byte>, n: nat)
    requires Framed(b) && |b| > 0 && n == LengthField(b)
    ensures IsEvent(b[..n]) && Framed(b[n..])
    ensures Split(b) == [b[..n]] + Split(b[n..])
  {
    hide LengthField;
    SliceKeepsHeader(b, n);
  }

  lemma Prepend(e: seq<byte>, b: seq<byte>)
    requires IsEvent(e) && Framed(b)
    ensures Framed(e + b) && Split(e + b) == [e] + Split(b)
  {
    ConcatKeepsHeader(e, b);
    hide LengthField;
    assert (e + b)[|e|..] == b && (e + b)[..|e|] == e;
  }

  lemma AppendAssociates<T>(a: seq<T>, b: seq<T>, c: seq<T>)
    ensures (a + b) + c == a + (b + c)
  {
  }

  lemma PrependConcat(e: seq<byte>, r: seq<byte>, b: seq<byte>)
    requires IsEvent(e) && Framed(r) && Framed(b) && Framed(r + b) && Split(r + b) == Split(r) + Split(b)
    ensures Framed((e + r) + b) && Framed(e + r)
    ensures Split((e + r) + b) == Split(e + r) + Split(b)
  {
    hide LengthField, IsEvent, Framed, Split;
    Prepend(e, r);
    Prepend(e, r + b);
    AppendAssociates(e, r, b);
    AppendAssociates([e], Split(r), Split(b));
  }

  /** Two framed streams in a row are one. */
  lemma {:induction false} SplitConcat(a: seq<byte>, b: seq<byte>)
    requires Framed(a) && Framed(b)
    ensures Framed(a + b) && Split(a + b) == Split(a) + Split(b)
    decreases |a|
  {
    if |a| == 0 {
      assert a + b == b;
    } else {
      var n := LengthField(a);
      FirstOf(a, n);
      SplitConcat(a[n..], b);
      PrependConcat(a[..n], a[n..], b);
      assert a == a[..n] + a[n..];
    }
  }

  lemma RestStep(a: seq<byte>, b: seq<byte>, n: nat)
    requires Framed(a) && Framed(a + b) && |a| > 0 && n == LengthField(a)
    ensures IsEvent(a[..n]) && Framed(a[n..]) && Framed(a[n..] + b)
  {
    FirstOf(a, n);
    ConcatKeepsHeader(a, b);
    FirstOf(a + b, n);
    hide LengthField, IsEvent, Framed, Split;
    assert (a + b)[n..] == a[n..] + b;
  }

  /** A framed stream cut at an event boundary leaves a framed stream. */
  lemma {:induction false} FramedRest(a: seq<byte>, b: seq<byte>)
    requires Framed(a) && Framed(a + b)
    ensures Framed(b) && Split(a + b) == Split(a) + Split(b)
    decreases |a|
  {
    if |a| == 0 {
      assert a + b == b;
    } else {
      var n := LengthField(a);
      RestStep(a, b, n);
      FramedRest(a[n..], b);
      PrependConcat(a[..n], a[n..], b);
      assert a == a[..n] + a[n..];
    }
  }

  lemma SplitSingle(e: seq<byte>)
    requires IsEvent(e)
    ensures Framed(e) && Split(e) == [e]
  {
    Prepend(e, []);
    assert e + [] == e;
  }

  /** Framing is lossless: the events of a framed stream, put back together, are the stream. */
  lemma {:induction false} JoinSplit(b: seq<byte>)
    requires Framed(b)
    ensures Join(Split(b)) == b
    decreases |b|
  {
    if |b| != 0 {
      var n := LengthField(b);
      FirstOf(b, n);
      JoinSplit(b[n..]);
      assert Split(b)[1..] == Split(b[n..]);
      assert b == b[..n] + b[n..];
    }
  }

  /** ... and any list of events written back to back is read as exactly that list. */
  lemma {:induction false} SplitJoin(es: seq<seq<byte>>)
    requires forall e :: e in es ==> IsEvent(e)
    ensures Framed(Join(es)) && Split(Join(es)) == es
  {
    if es != [] {
      SplitJoin(es[1..]);
      Prepend(es[0], Join(es[1..]));
      assert es == [es[0]] + es[1..];
    }
  }

  /** An event with nothing but a header. */
  function EmptyEvent(ts: nat): (e: seq<byte>)
    ensures |e| == HEADER
  {
    LittleEndian(ts, 8) + LittleEndian(0, 8) + LittleEndian(HEADER, 4) + LittleEndian(0, 6)
  }

  lemma EmptyEventIs(ts: nat)
    requires ts < TWO64
    ensures IsEvent(EmptyEvent(ts)) && Timestamp(EmptyEvent(ts)) == ts
  {
    hide Bytes.LittleEndian, Bytes.Value;
    WordRoundTrip(ts);
    WordRoundTrip(HEADER);
    var e := EmptyEvent(ts);
    assert e[0..8] == LittleEndian(ts, 8) && e[16..20] == LittleEndian(HEADER, 4);
  }

  lemma TwoEvents(a: seq<byte>, b: seq<byte>)
    requires IsEvent(a) && IsEvent(b)
    ensures Framed(a) && Framed(b) && Framed(a + b) && Split(a + b) == [a, b] && Split(b) == [b]
  {
    hide IsEvent, Framed, Split;
    SplitSingle(a);
    SplitSingle(b);
    SplitConcat(a, b);
  }
}
