/** The BPF reader's walk over a perf ring: records of variable size, some of them samples and
    some of them notes of lost samples, in memory mapped twice in a row. */
module PerfWalk {
  import opened Bytes

  /** sizeof(struct perf_event_header): type (4), misc (2), size (2). */
  const HEADER: nat := 8
  const RECORD_LOST: nat := 2
  const RECORD_SAMPLE: nat := 9

  function Type(b: seq<byte>): nat
    requires |b| >= HEADER
  {
    Value(b[0..4])
  }

  function Size(b: seq<byte>): nat
    requires |b| >= HEADER
  {
    Value(b[6..8])
  }

  /** The count in a struct perf_lost_sample. */
  function LostIn(b: seq<byte>): nat
    requires |b| >= 24
  {
    Value(b[16..24])
  }

  /** A stretch of whole records. */
  predicate Parsed(b: seq<byte>) {
    |b| == 0 ||
    (&& HEADER <= |b| && HEADER <= Size(b) <= |b|
     && (Type(b) == RECORD_LOST ==> Size(b) >= 24)
     && Parsed(b[Size(b)..]))
  }

  predicate IsSample(b: seq<byte>) {
    |b| >= HEADER && Type(b) == RECORD_SAMPLE
  }

  function LostAt(b: seq<byte>): nat
    requires Parsed(b) && |b| > 0
  {
    if Type(b) == RECORD_LOST then LostIn(b) else 0
  }

  /** What the stretch holds: its samples, in order, and how many more were lost. */
  function Samples(b: seq<byte>): seq<seq<byte>>
    requires Parsed(b)
  {
    if |b| == 0 then []
    else (if IsSample(b) then [b[..Size(b)]] else []) + Samples(b[Size(b)..])
  }

  function LostSum(b: seq<byte>): nat
    requires Parsed(b)
  {
    if |b| == 0 then 0 else LostAt(b) + LostSum(b[Size(b)..])
  }

  /** Where the walk stops, and what it has added to the lost count. */
  function Seek(b: seq<byte>, skip: bool): (r: (seq<byte>, nat))
    requires Parsed(b)
    ensures Parsed(r.0) && |r.0| <= |b| && (|r.0| > 0 ==> IsSample(r.0))
    ensures IsSample(b) && skip ==> |r.0| < |b|
    decreases |b|
  {
    if |b| == 0 || (IsSample(b) && !skip) then (b, 0)
    else
      var (rest, lost) := Seek(b[Size(b)..], skip && !IsSample(b));
      (rest, LostAt(b) + lost)
  }

  /** The walk stops on a record boundary: what is left is the end of the stretch. */
  lemma {:induction false} SeekIsSuffix(b: seq<byte>, skip: bool)
    requires Parsed(b)
    ensures Seek(b, skip).0 == b[|b| - |Seek(b, skip).0|..]
    decreases |b|
  {
    if |b| > 0 && !(IsSample(b) && !skip) {
      SeekIsSuffix(b[Size(b)..], skip && !IsSample(b));
    }
  }

  lemma ConcatKeepsRecord(a: seq<byte>, b: seq<byte>)
    requires |a| >= HEADER
    ensures Size(a + b) == Size(a) && Type(a + b) == Type(a)
  {
    assert (a + b)[6..8] == a[6..8] && (a + b)[0..4] == a[0..4];
  }

  /** Records cut at a record boundary leave records. */
  lemma {:induction false} ParsedRest(a: seq<byte>, b: seq<byte>)
    requires Parsed(a) && Parsed(a + b)
    ensures Parsed(b)
    decreases |a|
  {
    if |a| == 0 {
      assert a + b == b;
    } else {
      ConcatKeepsRecord(a, b);
      assert (a + b)[Size(a)..] == a[Size(a)..] + b;
      ParsedRest(a[Size(a)..], b);
    }
  }

  /** All records the reader is given, walking on from each to the next. */
  function Visits(b: seq<byte>): seq<seq<byte>>
    requires Parsed(b) && (|b| > 0 ==> IsSample(b))
    decreases |b|
  {
    if |b| == 0 then [] else [b[..Size(b)]] + Visits(Seek(b, true).0)
  }

  function VisitsLost(b: seq<byte>): nat
    requires Parsed(b) && (|b| > 0 ==> IsSample(b))
    decreases |b|
  {
    if |b| == 0 then 0 else Seek(b, true).1 + VisitsLost(Seek(b, true).0)
  }

  /** A walk passes over no sample, and adds up exactly the notes it passes. */
  lemma {:induction false} SeekFindsFirst(b: seq<byte>)
    requires Parsed(b)
    ensures var (rest, lost) := Seek(b, false);
            Samples(rest) == Samples(b) && LostSum(b) == lost + LostSum(rest)
    decreases |b|
  {
    if |b| > 0 && !IsSample(b) {
      SeekFindsFirst(b[Size(b)..]);
    }
  }

  lemma SeekPastCurrent(b: seq<byte>)
    requires Parsed(b) && |b| > 0 && IsSample(b)
    ensures Seek(b, true) == Seek(b[Size(b)..], false)
    ensures Samples(b) == [b[..Size(b)]] + Samples(Seek(b, true).0)
    ensures LostSum(b) == Seek(b, true).1 + LostSum(Seek(b, true).0)
  {
    SeekFindsFirst(b[Size(b)..]);
  }

  lemma {:induction false} VisitsFollow(b: seq<byte>)
    requires Parsed(b) && (|b| > 0 ==> IsSample(b))
    ensures Visits(b) == Samples(b) && VisitsLost(b) == LostSum(b)
    decreases |b|
  {
    if |b| > 0 {
      SeekPastCurrent(b);
      VisitsFollow(Seek(b, true).0);
    }
  }

  /** From one read to the next: every sample is given exactly once, in order, and every lost
      note is counted exactly once. */
  lemma {:induction false} WalkIsExact(b: seq<byte>)
    requires Parsed(b)
    ensures var (first, lost) := Seek(b, false);
            Visits(first) == Samples(b) && lost + VisitsLost(first) == LostSum(b)
  {
    SeekFindsFirst(b);
    VisitsFollow(Seek(b, false).0);
  }

  // ----- The ring -----

  /** `n` bytes from offset `p`, through the double mapping. */
  function Window(data: seq<byte>, p: nat, n: nat): (w: seq<byte>)
    requires p + n <= 2 * |data|
    ensures |w| == n
  {
    (data + data)[p..p + n]
  }

  lemma WindowWraps(data: seq<byte>, p: nat, n: nat)
    requires |data| <= p && p + n <= 2 * |data|
    ensures Window(data, p, n) == Window(data, p - |data|, n)
  {
    var m, d := data + data, |data|;
    var here, wrapped := m[p..p + n], m[p - d..p - d + n];
    forall i | 0 <= i < n
      ensures here[i] == wrapped[i]
    {
      assert here[i] == m[p + i] == data[p + i - d] == m[p - d + i];
    }
  }

  /** Dropping a record from the front of the window moves the cursor round the ring. */
  lemma WindowRest(data: seq<byte>, p: nat, n: nat, k: nat)
    requires p < |data| && k <= n <= |data|
    ensures Window(data, p, n)[k..] == Window(data, Advanced(p, k, |data|), n - k)
  {
    var m := data + data;
    SubSlice(m, p, n, k, n);
    assert Window(data, p, n)[k..] == Window(data, p + k, n - k);
    if p + k >= |data| {
      WindowWraps(data, p + k, n - k);
    }
  }

  /** An offset moved on by `k` bytes. */
  function Advanced(p: nat, k: nat, size: nat): nat
    requires p < size && k <= size
  {
    if p + k >= size then p + k - size else p + k
  }

  /** A walk that started on `all` and now stands at `b`, having counted `lost`. */
  ghost predicate Walking(all: seq<byte>, skipAll: bool, b: seq<byte>, skip: bool, lost: nat) {
    && Parsed(all) && Parsed(b) && |b| <= |all|
    && Seek(all, skipAll) == (Seek(b, skip).0, lost + Seek(b, skip).1)
  }

  lemma NoBytes(data: seq<byte>, p: nat, q: nat)
    requires p < |data| && q < |data|
    ensures Window(data, p, 0) == Window(data, q, 0) == []
  {
  }

  lemma WalkRecord(data: seq<byte>, p: nat, n: nat)
    requires p < |data| && 0 < n <= |data| && Parsed(Window(data, p, n))
    ensures var e := Window(data, p, n);
            && HEADER <= |e| == n && HEADER <= Size(e) <= n && (Type(e) == RECORD_LOST ==> n >= 24)
            && Window(data, Advanced(p, Size(e), |data|), n - Size(e)) == e[Size(e)..] && Parsed(e[Size(e)..])
  {
    WindowRest(data, p, n, Size(Window(data, p, n)));
  }

  lemma SeekStep(b: seq<byte>, skip: bool)
    requires Parsed(b) && |b| > 0 && !(IsSample(b) && !skip)
    ensures Parsed(b[Size(b)..])
    ensures var rest := Seek(b[Size(b)..], skip && !IsSample(b));
            Seek(b, skip) == (rest.0, LostAt(b) + rest.1)
  {
  }

  /** One record further. */
  lemma WalkOn(all: seq<byte>, skipAll: bool, data: seq<byte>, p: nat, n: nat, skip: bool, lost: nat)
    requires p < |data| && 0 < n <= |data| && Walking(all, skipAll, Window(data, p, n), skip, lost)
    ensures HEADER <= n && HEADER <= Size(Window(data, p, n)) <= n
    ensures Type(Window(data, p, n)) == RECORD_LOST ==> n >= 24
    ensures var e := Window(data, p, n);
            Type(e) != RECORD_SAMPLE || skip ==>
              Walking(all, skipAll, Window(data, Advanced(p, Size(e), |data|), n - Size(e)),
                      skip && Type(e) != RECORD_SAMPLE,
                      lost + if Type(e) == RECORD_LOST then LostIn(e) else 0)
  {
    hide Window, Size, Type, LostIn, Seek, Parsed, Advanced;
    var e := Window(data, p, n);
    WalkRecord(data, p, n);
    if Type(e) != RECORD_SAMPLE || skip {
      SeekStep(e, skip);
    }
  }

  /** Done at a sample, or at the end; where the cursor points at the end does not matter. */
  lemma WalkStart(all: seq<byte>, skip: bool)
    requires Parsed(all)
    ensures Walking(all, skip, all, skip, 0)
  {
  }

  lemma WalkDone(all: seq<byte>, skipAll: bool, b: seq<byte>, skip: bool, lost: nat, at: seq<byte>)
    requires Walking(all, skipAll, b, skip, lost)
    requires (IsSample(b) && !skip && at == b) || (|b| == 0 && |at| == 0)
    ensures Seek(all, skipAll) == (at, lost)
  {
    if |b| == 0 {
      assert b == at == [];
    }
  }

  /** Where a free-running counter points in the ring. */
  function Offset(counter: nat, size: nat): (p: nat)
    requires size > 0
    ensures p < size
  {
    counter % size
  }

  /** `scap_bpf_get_buf_pointers`. */
  function ReadSize(head: nat, tail: nat, size: nat): nat
    requires size > 0
  {
    var begin, end := Offset(tail, size), Offset(head, size);
    if begin > end then size - begin + end else end - begin
  }

  /** With at most a full ring outstanding, the size is right except when the ring is full. */
  lemma ReadSizeExact(head: nat, tail: nat, size: nat)
    requires size > 0 && tail <= head <= tail + size
    ensures ReadSize(head, tail, size) == head - tail <==> head - tail < size
    ensures ReadSize(head, tail, size) < size
  {
    OffsetMoves(tail, head - tail, size);
    hide Offset;
  }

  /** A full ring reads as an empty one. */
  lemma FullReadsEmpty()
    ensures ReadSize(4096, 0, 4096) == 0
  {
  }

  lemma OffsetMoves(counter: nat, n: nat, size: nat)
    requires size > 0 && n <= size
    ensures Offset(counter, size) < size
    ensures Offset(counter + n, size) == Advanced(Offset(counter, size), n, size)
  {
    hide Offset;
    var q := OffsetSplit(counter, size);
    var p := Offset(counter, size);
    if p + n < size {
      OffsetIs(counter + n, size, q, p + n);
    } else {
      assert size * (q + 1) == size * q + size;
      OffsetIs(counter + n, size, q + 1, p + n - size);
    }
  }

  lemma OffsetIs(counter: nat, size: nat, q: nat, r: nat)
    requires r < size && counter == size * q + r
    ensures Offset(counter, size) == r
  {
    EuclidUnique(counter, size, q, r);
  }

  lemma OffsetSplit(counter: nat, size: nat) returns (q: nat)
    requires size > 0
    ensures Offset(counter, size) < size && counter == size * q + Offset(counter, size)
  {
    q := counter / size;
  }

  lemma NoRecords()
    ensures Parsed([])
  {
  }

  lemma AdvancedTwice(p: nat, i: nat, j: nat, size: nat)
    requires p < size && i + j <= size
    ensures Advanced(p, i, size) < size && Advanced(Advanced(p, i, size), j, size) == Advanced(p, i + j, size)
  {
  }

  // ----- Records arriving -----

  /** How far past offset `p` offset `x` is. */
  function Distance(p: nat, x: nat, size: nat): int {
    if x >= p then x - p else x + size - p
  }

  /** The ring after the kernel has stored `b` from offset `p` on, round the end. */
  function Stored(data: seq<byte>, p: nat, b: seq<byte>): (d: seq<byte>)
    requires p < |data| && |b| <= |data|
    ensures |d| == |data|
  {
    seq(|data|, x requires 0 <= x < |data| =>
      if Distance(p, x, |data|) < |b| then b[Distance(p, x, |data|)] else data[x])
  }

  lemma WindowAt(data: seq<byte>, p: nat, n: nat, i: nat)
    requires p < |data| && i < n <= |data|
    ensures Advanced(p, i, |data|) < |data| && Window(data, p, n)[i] == data[Advanced(p, i, |data|)]
  {
  }

  /** Stored right behind `n` bytes, it continues them and changes none. */
  lemma StoredAppends(data: seq<byte>, p: nat, n: nat, b: seq<byte>)
    requires p < |data| && n + |b| <= |data|
    ensures Advanced(p, n, |data|) < |data|
    ensures Window(Stored(data, Advanced(p, n, |data|), b), p, n + |b|) == Window(data, p, n) + b
  {
    var q := Advanced(p, n, |data|);
    var d := Stored(data, q, b);
    var now, was := Window(d, p, n + |b|), Window(data, p, n) + b;
    forall i | 0 <= i < n + |b|
      ensures now[i] == was[i]
    {
      hide Window;
      WindowAt(d, p, n + |b|, i);
      var x := Advanced(p, i, |data|);
      assert Distance(q, x, |data|) == if i < n then |data| + i - n else i - n;
      if i < n {
        WindowAt(data, p, n, i);
      }
    }
  }

  // ----- The reader's state -----

  /** The ring with its positions, and the reader's: `lastRead` bytes lent, `snLen` of them not
      yet passed, from offset `snNext` on. */
  datatype State = State(data: seq<byte>, head: nat, tail: nat, lastRead: nat, snNext: nat, snLen: nat) {
    predicate Shaped() {
      && 0 < |data| < TWO32
      && tail <= head <= tail + |data|
      && snLen <= lastRead <= head - tail
      && snNext < |data|
      && (snLen > 0 ==> snNext == Offset(tail + lastRead - snLen, |data|))
    }

    function Outstanding(): (b: seq<byte>)
      requires Shaped()
      ensures |b| == head - tail
    {
      Window(data, Offset(tail, |data|), head - tail)
    }

    function Unread(): (b: seq<byte>)
      requires Shaped()
      ensures |b| == snLen
    {
      Window(data, snNext, snLen)
    }

    /** Whole records from tail to head, cut where the reader's loan ends and where it stands. */
    predicate Valid() {
      && Shaped()
      && Parsed(Outstanding())
      && Parsed(Outstanding()[..lastRead])
      && Parsed(Unread())
    }
  }

  /** What is unread is the end of what is lent. */
  lemma UnreadIsLent(s: State)
    requires s.Shaped()
    ensures s.Unread() == s.Outstanding()[s.lastRead - s.snLen..s.lastRead]
  {
    hide Offset, Window, Advanced;
    var p, n, k := Offset(s.tail, |s.data|), s.head - s.tail, s.lastRead - s.snLen;
    if s.snLen > 0 {
      OffsetMoves(s.tail, k, |s.data|);
      WindowRest(s.data, p, n, k);
      WindowStart(s.data, s.snNext, n - k, s.snLen);
      assert s.Outstanding()[k..][..s.snLen] == s.Outstanding()[k..s.lastRead];
    } else {
      WindowLength(s.data, s.snNext, 0);
    }
  }

  lemma WindowStart(data: seq<byte>, p: nat, n: nat, k: nat)
    requires k <= n && p + n <= 2 * |data|
    ensures Window(data, p, k) == Window(data, p, n)[..k]
  {
    SubSlice(data + data, p, n, 0, k);
  }

  /** The state after a walk over `b`, the end of what is lent. */
  function Sought(s: State, b: seq<byte>, skip: bool): State
    requires 0 < |s.data| && Parsed(b) && |b| <= s.lastRead
  {
    var left := |Seek(b, skip).0|;
    s.(snLen := left, snNext := if left > 0 then Offset(s.tail + s.lastRead - left, |s.data|) else s.snNext)
  }

  /** A walk from `cur` over the last `len` bytes lent ends there. */
  lemma WalkedTo(s: State, cur: nat, len: nat, next: nat, left: nat, skip: bool)
    requires s.(snLen := 0).Shaped() && Parsed(s.(snLen := 0).Outstanding())
    requires Parsed(s.(snLen := 0).Outstanding()[..s.lastRead])
    requires left <= len <= s.lastRead && cur == Offset(s.tail + s.lastRead - len, |s.data|)
    requires next < |s.data| && Parsed(Window(s.data, cur, len))
    requires next == if left > 0 then Advanced(cur, len - left, |s.data|) else s.snNext
    requires Seek(Window(s.data, cur, len), skip).0 == Window(s.data, next, left)
    ensures s.(snNext := next, snLen := left) == Sought(s, Window(s.data, cur, len), skip)
    ensures Sought(s, Window(s.data, cur, len), skip).Valid()
    ensures Sought(s, Window(s.data, cur, len), skip).Unread() == Seek(Window(s.data, cur, len), skip).0
  {
    hide Offset, Window, Parsed, Advanced, Seek;
    WindowLength(s.data, cur, len);
    WindowLength(s.data, next, left);
    OffsetMoves(s.tail + s.lastRead - len, len - left, |s.data|);
    SeekParsed(Window(s.data, cur, len), skip);
  }

  /** ... and there always is such a place. */
  lemma SoughtIs(s: State, cur: nat, len: nat, skip: bool)
    requires s.(snLen := 0).Shaped() && Parsed(s.(snLen := 0).Outstanding())
    requires Parsed(s.(snLen := 0).Outstanding()[..s.lastRead])
    requires len <= s.lastRead && cur == Offset(s.tail + s.lastRead - len, |s.data|) && Parsed(Window(s.data, cur, len))
    ensures Sought(s, Window(s.data, cur, len), skip).Valid()
    ensures Sought(s, Window(s.data, cur, len), skip).Unread() == Seek(Window(s.data, cur, len), skip).0
  {
    hide Offset, Window, Parsed, Seek, Sought;
    var b := Window(s.data, cur, len);
    WindowLength(s.data, cur, len);
    SeekParsed(b, skip);
    SeekIsSuffix(b, skip);
    var left := |Seek(b, skip).0|;
    var next := if left > 0 then Advanced(cur, len - left, |s.data|) else s.snNext;
    OffsetMoves(s.tail + s.lastRead - len, 0, |s.data|);
    WindowRest(s.data, cur, len, len - left);
    WindowLength(s.data, next, left);
    WalkedTo(s, cur, len, next, left, skip);
  }

  lemma WindowLength(data: seq<byte>, p: nat, n: nat)
    requires p + n <= 2 * |data|
    ensures |Window(data, p, n)| == n
  {
  }

  /** The state after the kernel has stored `b` behind head. */
  function AfterArrival(s: State, b: seq<byte>): (s': State)
    requires s.Shaped() && s.head - s.tail + |b| <= |s.data|
    ensures s'.Shaped()
  {
    s.(data := Stored(s.data, Offset(s.head, |s.data|), b), head := s.head + |b|)
  }

  lemma ArrivalExtends(s: State, b: seq<byte>)
    requires s.Shaped() && s.head - s.tail + |b| <= |s.data|
    ensures var s' := AfterArrival(s, b);
            && s'.Shaped() && s'.lastRead == s.lastRead && s'.snLen == s.snLen
            && s'.Outstanding() == s.Outstanding() + b
  {
    hide Window, Offset;
    OffsetMoves(s.tail, s.head - s.tail, |s.data|);
    StoredAppends(s.data, Offset(s.tail, |s.data|), s.head - s.tail, b);
  }

  lemma PartOfFirst(a: seq<byte>, b: seq<byte>, i: nat, j: nat)
    requires i <= j <= |a|
    ensures (a + b)[i..j] == a[i..j]
  {
  }

  /** Records that arrive while the reader holds a batch leave it alone. */
  lemma ArrivalKeeps(s: State, b: seq<byte>)
    requires s.Valid() && Parsed(b) && s.head - s.tail + |b| <= |s.data|
    ensures AfterArrival(s, b).Valid()
    ensures AfterArrival(s, b).Outstanding() == s.Outstanding() + b
    ensures AfterArrival(s, b).Unread() == s.Unread()
  {
    hide Parsed, Window, Offset, AfterArrival;
    ArrivalExtends(s, b);
    UnreadIsLent(s);
    UnreadIsLent(AfterArrival(s, b));
    ParsedConcat(s.Outstanding(), b);
    PartOfFirst(s.Outstanding(), b, 0, s.lastRead);
    PartOfFirst(s.Outstanding(), b, s.lastRead - s.snLen, s.lastRead);
  }

  lemma {:induction false} ParsedConcat(a: seq<byte>, b: seq<byte>)
    requires Parsed(a) && Parsed(b)
    ensures Parsed(a + b)
    decreases |a|
  {
    if |a| == 0 {
      assert a + b == b;
    } else {
      ConcatKeepsRecord(a, b);
      assert (a + b)[Size(a)..] == a[Size(a)..] + b;
      ParsedConcat(a[Size(a)..], b);
    }
  }

  function GiveBack(s: State): State {
    s.(tail := s.tail + s.lastRead, lastRead := 0)
  }

  /** Moving tail over what was lent leaves the rest. */
  lemma TailMoves(s: State)
    requires s.Valid() && s.snLen == 0
    ensures GiveBack(s).Valid() && GiveBack(s).Outstanding() == s.Outstanding()[s.lastRead..]
    ensures GiveBack(s).Unread() == s.Unread() == []
  {
    hide Parsed, Window, Offset;
    var all, n := s.Outstanding(), s.lastRead;
    assert all == all[..n] + all[n..] && all[n..][..0] == [];
    ParsedRest(all[..n], all[n..]);
    OffsetMoves(s.tail, n, |s.data|);
    WindowRest(s.data, Offset(s.tail, |s.data|), s.head - s.tail, n);
    NoRecords();
  }

  class PerfDevice {
    var data: seq<byte>
    var dataHead: nat
    var dataTail: nat
    var evtLost: nat
    var lastRead: nat
    var snNext: nat
    var snLen: nat

    ghost function View(): State
      reads this
    {
      State(data, dataHead, dataTail, lastRead, snNext, snLen)
    }

    ghost predicate Valid()
      reads this
    {
      View().Valid()
    }

    /** The end of the walk's loop body: past a record, round the end of the ring. */
    static method StepOver(begin: nat, size: nat, dataSize: nat) returns (next: nat)
      requires begin < dataSize && size <= dataSize
      ensures next == Advanced(begin, size, dataSize) < dataSize
    {
      if begin + size > dataSize {
        next := begin + size - dataSize;
      } else if begin + size == dataSize {
        next := 0;
      } else {
        next := begin + size;
      }
    }

    /** One turn of the loop: the record under the cursor is a sample to stop at, or is passed
        over and its note counted. */
    static method Pass(data: seq<byte>, begin: nat, left: nat, skip: bool, lost: nat, ghost all: seq<byte>,
        ghost skipAll: bool)
      returns (stop: bool, size: nat, skip': bool, lost': nat)
      requires begin < |data| && 0 < left <= |data| && Walking(all, skipAll, Window(data, begin, left), skip, lost)
      ensures stop ==> Seek(all, skipAll) == (Window(data, begin, left), lost)
      ensures !stop ==>
                && 0 < size <= left
                && Advanced(begin, size, |data|) < |data|
                && Walking(all, skipAll, Window(data, Advanced(begin, size, |data|), left - size), skip', lost')
    {
      hide Walking, LostIn, Type, Size, Window, Seek, Parsed;
      WalkOn(all, skipAll, data, begin, left, skip, lost);
      var e := Window(data, begin, left);
      stop, size, skip', lost' := false, Size(e), skip, lost;
      if Type(e) == RECORD_SAMPLE {
        if skip {
          skip' := false;
        } else {
          WalkDone(all, skipAll, e, skip, lost, e);
          stop := true;
        }
      } else if Type(e) == RECORD_LOST {
        lost' := lost + LostIn(e);
      }
    }

    /** The loop of `scap_bpf_advance_to_evt`. */
    static method Walk(data: seq<byte>, cur: nat, len: nat, skipCurrent: bool, nextEvt: nat)
      returns (next: nat, left: nat, lost: nat)
      requires cur < |data| && nextEvt < |data| && len <= |data| && Parsed(Window(data, cur, len))
      ensures next < |data| && left <= len
      ensures next == if left > 0 then Advanced(cur, len - left, |data|) else nextEvt
      ensures Seek(Window(data, cur, len), skipCurrent) == (Window(data, next, left), lost)
    {
      var begin: nat, skip: bool := cur, skipCurrent;
      next, left, lost := nextEvt, len, 0;
      ghost var all := Window(data, cur, len);
      hide Walking, Advanced, Window, Seek, Parsed;
      WalkStart(all, skipCurrent);
      AdvancedTwice(cur, 0, 0, |data|);
      NotAdvanced(cur, |data|);
      while left != 0
        invariant left <= len && begin == Advanced(cur, len - left, |data|) < |data|
        invariant Walking(all, skipCurrent, Window(data, begin, left), skip, lost)
        decreases left
      {
        var stop, size, skip', lost' := Pass(data, begin, left, skip, lost, all, skipCurrent);
        if stop {
          return begin, left, lost;
        }
        AdvancedTwice(cur, len - left, size, |data|);
        begin := StepOver(begin, size, |data|);
        left, skip, lost := left - size, skip', lost';
      }
      NoBytes(data, begin, next);
      WalkDone(all, skipCurrent, [], skip, lost, []);
    }

    /** `scap_bpf_advance_to_evt`: one walk from `cur` over `len` bytes. */
    method AdvanceToEvt(skipCurrent: bool, cur: nat, len: nat)
      requires View().(snLen := 0).Shaped() && Parsed(View().(snLen := 0).Outstanding())
      requires Parsed(View().(snLen := 0).Outstanding()[..lastRead])
      requires len <= lastRead && cur == Offset(dataTail + lastRead - len, |data|) && Parsed(Window(data, cur, len))
      modifies `snNext, `snLen, `evtLost
      ensures View() == Sought(old(View()), Window(data, cur, len), skipCurrent) && Valid()
      ensures View().Unread() == Seek(Window(data, cur, len), skipCurrent).0
      ensures evtLost == old(evtLost) + Seek(Window(data, cur, len), skipCurrent).1
    {
      ghost var s := View();
      hide Parsed, Window, Offset, Seek, Sought;
      var next, left, lost := Walk(data, cur, len, skipCurrent, snNext);
      WalkedTo(s, cur, len, next, left, skipCurrent);
      snNext, snLen := next, left;
      evtLost := evtLost + lost;
    }

    /** `scap_bpf_readbuf`: the outstanding records are lent, none if the ring is exactly full,
        and the first sample is found. */
    method Readbuf()
      requires Valid()
      modifies this
      ensures Valid() && View() == ReadOut(old(View()))
      ensures lastRead == if dataHead - dataTail < |data| then dataHead - dataTail else 0
      ensures View().Unread() == Seek(old(View()).Outstanding()[..lastRead], false).0
      ensures evtLost == old(evtLost) + Seek(old(View()).Outstanding()[..lastRead], false).1
    {
      hide Parsed, Window, Offset, Seek, ReadSize, Sought;
      LendsAll(View());
      var readSize := ReadSize(dataHead, dataTail, |data|);
      lastRead := readSize;
      AdvanceToEvt(false, Offset(dataTail, |data|), readSize);
    }

    /** The reader moves on from the sample in hand. */
    method NextEvt()
      requires Valid() && snLen > 0 && IsSample(View().Unread())
      modifies this
      ensures Valid() && View() == PassOn(old(View())) && snLen < old(snLen)
      ensures View().Unread() == Seek(old(View().Unread()), true).0
      ensures evtLost == old(evtLost) + Seek(old(View().Unread()), true).1
    {
      hide Parsed, Window, Offset, Seek, Sought;
      SeekParsed(View().Unread(), true);
      AdvanceToEvt(true, snNext, snLen);
    }

    /** `scap_bpf_advance_tail`, once all that was lent has been passed: that, and no more, goes
        back to the kernel. */
    method AdvanceTail()
      requires Valid() && snLen == 0 && lastRead > 0
      modifies this
      ensures Valid() && View() == GiveBack(old(View())) && evtLost == old(evtLost)
      ensures View().Outstanding() == old(View().Outstanding())[old(lastRead)..]
    {
      TailMoves(View());
      dataTail := dataTail + lastRead;
      lastRead := 0;
    }

    /** The kernel stores more records behind head; it never overwrites what is outstanding. */
    method Arrive(records: seq<byte>)
      requires Valid() && Parsed(records) && dataHead - dataTail + |records| <= |data|
      modifies this
      ensures Valid() && View() == AfterArrival(old(View()), records) && evtLost == old(evtLost)
      ensures View().Outstanding() == old(View().Outstanding()) + records
      ensures View().Unread() == old(View().Unread())
    {
      hide Parsed, Window, Offset, Stored;
      ArrivalKeeps(View(), records);
      data := Stored(data, Offset(dataHead, |data|), records);
      dataHead := dataHead + |records|;
    }
  }

  lemma NotAdvanced(p: nat, size: nat)
    requires p < size
    ensures Advanced(p, 0, size) == p
  {
  }

  lemma SeekParsed(b: seq<byte>, skip: bool)
    requires Parsed(b)
    ensures Parsed(Seek(b, skip).0) && |Seek(b, skip).0| <= |b|
    ensures IsSample(b) && skip ==> |Seek(b, skip).0| < |b|
  {
  }

  /** What a read makes of a state. */
  function ReadOut(s: State): State
    requires s.Valid()
  {
    LendsAll(s);
    var n := ReadSize(s.head, s.tail, |s.data|);
    Sought(s.(lastRead := n), s.Outstanding()[..n], false)
  }

  /** What moving on makes of it. */
  function PassOn(s: State): State
    requires s.Valid()
  {
    Sought(s, s.Unread(), true)
  }

  /** The state in which the walk after a read starts. */
  lemma LendsAll(s: State)
    requires s.Valid()
    ensures var n := ReadSize(s.head, s.tail, |s.data|);
            && n == (if s.head - s.tail < |s.data| then s.head - s.tail else 0)
            && s.(lastRead := n, snLen := 0).Shaped()
            && s.(lastRead := n, snLen := 0).Outstanding() == s.Outstanding()
            && Offset(s.tail, |s.data|) < |s.data|
            && Window(s.data, Offset(s.tail, |s.data|), n) == s.Outstanding()[..n] && Parsed(s.Outstanding()[..n])
  {
    hide Parsed, Window, Offset, ReadSize;
    ReadSizeExact(s.head, s.tail, |s.data|);
    OffsetMoves(s.tail, 0, |s.data|);
    var n, all := ReadSize(s.head, s.tail, |s.data|), s.Outstanding();
    FullReads(s);
    LentWindow(s, n);
    NoRecords();
    assert all[..0] == [] && all[..|all|] == all;
  }

  lemma FullReads(s: State)
    requires s.Shaped()
    ensures s.head == s.tail + |s.data| ==> ReadSize(s.head, s.tail, |s.data|) == 0
  {
    hide Offset;
    OffsetMoves(s.tail, |s.data|, |s.data|);
  }

  lemma LentWindow(s: State, n: nat)
    requires s.Shaped() && n <= s.head - s.tail
    ensures Window(s.data, Offset(s.tail, |s.data|), n) == s.Outstanding()[..n]
  {
    hide Offset;
    SubSlice(s.data + s.data, Offset(s.tail, |s.data|), s.head - s.tail, 0, n);
  }

  lemma ReadOutIs(s: State)
    requires s.Valid()
    ensures var n := ReadSize(s.head, s.tail, |s.data|);
            && ReadOut(s).Valid() && ReadOut(s).lastRead == n <= s.head - s.tail
            && ReadOut(s).Outstanding() == s.Outstanding() && Parsed(s.Outstanding()[..n])
            && ReadOut(s).Unread() == Seek(s.Outstanding()[..n], false).0
  {
    hide Offset, Window, Parsed, Seek, ReadSize;
    LendsAll(s);
    var n := ReadSize(s.head, s.tail, |s.data|);
    SoughtIs(s.(lastRead := n), Offset(s.tail, |s.data|), n, false);
  }

  lemma PassOnIs(s: State)
    requires s.Valid() && s.snLen > 0
    ensures PassOn(s).Valid() && PassOn(s).lastRead == s.lastRead && PassOn(s).Outstanding() == s.Outstanding()
    ensures PassOn(s).Unread() == Seek(s.Unread(), true).0
  {
    hide Offset, Window, Parsed, Seek;
    SoughtIs(s, s.snNext, s.snLen, true);
  }

  // ----- Runs -----

  /** Appending records changes nothing about the first one. */
  lemma FirstRecord(a: seq<byte>, b: seq<byte>)
    requires Parsed(a) && |a| > 0 && Parsed(a + b)
    ensures |a| >= HEADER && Size(a + b) == Size(a) <= |a|
    ensures (a + b)[Size(a)..] == a[Size(a)..] + b && (a + b)[..Size(a)] == a[..Size(a)]
    ensures IsSample(a + b) == IsSample(a) && LostAt(a + b) == LostAt(a)
  {
    ConcatKeepsRecord(a, b);
    assert |a| >= 24 ==> (a + b)[16..24] == a[16..24];
  }

  lemma {:induction false} SamplesConcat(a: seq<byte>, b: seq<byte>)
    requires Parsed(a) && Parsed(b)
    ensures Parsed(a + b) && Samples(a + b) == Samples(a) + Samples(b) && LostSum(a + b) == LostSum(a) + LostSum(b)
    decreases |a|
  {
    hide Size, LostAt, IsSample, Type;
    ParsedConcat(a, b);
    if |a| == 0 {
      assert a + b == b;
    } else {
      var n := Size(a);
      FirstRecord(a, b);
      SamplesConcat(a[n..], b);
      assert Samples(a + b) == (if IsSample(a) then [a[..n]] else []) + (Samples(a[n..]) + Samples(b));
    }
  }

  /** A device with its history: all bytes that arrived, the samples given to the caller and
      passed, and the losses counted. */
  datatype World = World(state: State, arrived: seq<byte>, visited: seq<seq<byte>>, lost: nat)

  datatype Turn = Arrival(records: seq<byte>) | DoRead | DoPass | DoGiveBack

  /** The library reads when nothing is lent, and gives back when all lent was passed. */
  predicate Allowed(s: State, t: Turn)
    requires s.Valid()
  {
    match t
    case Arrival(b) => Parsed(b) && s.head - s.tail + |b| <= |s.data|
    case DoRead => s.lastRead == 0
    case DoPass => s.snLen > 0 && IsSample(s.Unread())
    case DoGiveBack => s.snLen == 0 && s.lastRead > 0
  }

  function Next(w: World, t: Turn): World
    requires w.state.Valid() && Allowed(w.state, t)
  {
    var s := w.state;
    match t
    case Arrival(b) => w.(state := AfterArrival(s, b), arrived := w.arrived + b)
    case DoRead =>
      LendsAll(s);
      w.(state := ReadOut(s), lost := w.lost + Seek(s.Outstanding()[..ReadSize(s.head, s.tail, |s.data|)], false).1)
    case DoPass =>
      w.(state := PassOn(s), visited := w.visited + [s.Unread()[..Size(s.Unread())]],
         lost := w.lost + Seek(s.Unread(), true).1)
    case DoGiveBack => w.(state := GiveBack(s))
  }

  /** What has arrived: samples visited, in the loan and behind it; losses counted and to come. */
  ghost predicate Accounted(w: World) {
    && w.state.Valid() && Parsed(w.arrived)
    && (w.state.snLen > 0 ==> IsSample(w.state.Unread()))
    && var rest := w.state.Outstanding()[w.state.lastRead..];
       && Parsed(rest)
       && Samples(w.arrived) == w.visited + (Samples(w.state.Unread()) + Samples(rest))
       && LostSum(w.arrived) == w.lost + LostSum(w.state.Unread()) + LostSum(rest)
  }

  lemma ArrivalAccount(w: World, b: seq<byte>)
    requires Accounted(w) && Allowed(w.state, Arrival(b))
    ensures Accounted(Next(w, Arrival(b)))
  {
    hide Parsed, Samples, LostSum, Window, Offset, IsSample, AfterArrival;
    var s := w.state;
    var s', rest := AfterArrival(s, b), s.Outstanding()[s.lastRead..];
    ArrivalKeeps(s, b);
    ArrivalExtends(s, b);
    assert s'.Outstanding()[s'.lastRead..] == rest + b;
    SamplesConcat(rest, b);
    SamplesConcat(w.arrived, b);
    AppendParts(w.visited, Samples(s.Unread()), Samples(rest), Samples(b));
  }

  lemma AppendParts<T>(a: seq<T>, b: seq<T>, c: seq<T>, d: seq<T>)
    ensures (a + (b + c)) + d == a + (b + (c + d))
  {
  }

  lemma ReadAccount(w: World)
    requires Accounted(w) && Allowed(w.state, DoRead)
    ensures Accounted(Next(w, DoRead))
  {
    hide Parsed, Samples, LostSum, Window, Offset, Seek, ReadSize, IsSample, ReadOut;
    var s := w.state;
    var n, all := ReadSize(s.head, s.tail, |s.data|), s.Outstanding();
    ReadOutIs(s);
    SeekStopsAtSample(all[..n]);
    SeekFindsFirst(all[..n]);
    NoUnread(s);
    assert all[..n] + all[n..] == all == all[0..];
    ParsedRest(all[..n], all[n..]);
    SamplesConcat(all[..n], all[n..]);
  }

  lemma NoUnread(s: State)
    requires s.Valid() && s.snLen == 0
    ensures Samples(s.Unread()) == [] && LostSum(s.Unread()) == 0
  {
  }

  lemma SeekStopsAtSample(b: seq<byte>)
    requires Parsed(b)
    ensures Parsed(Seek(b, false).0) && (|Seek(b, false).0| > 0 ==> IsSample(Seek(b, false).0))
  {
  }

  lemma PassAccount(w: World)
    requires Accounted(w) && Allowed(w.state, DoPass)
    ensures Accounted(Next(w, DoPass))
  {
    hide Parsed, Samples, LostSum, Window, Offset, Seek, IsSample, PassOn, Size;
    var s := w.state;
    var b, rest := s.Unread(), s.Outstanding()[s.lastRead..];
    PassOnIs(s);
    SeekPastCurrent(b);
    SeekSkips(b);
    AppendParts(w.visited, [b[..Size(b)]], Samples(Seek(b, true).0), Samples(rest));
  }

  lemma SeekSkips(b: seq<byte>)
    requires Parsed(b) && |b| > 0 && IsSample(b)
    ensures |b| >= HEADER && Size(b) <= |b|
    ensures Parsed(Seek(b, true).0) && (|Seek(b, true).0| > 0 ==> IsSample(Seek(b, true).0))
  {
  }

  lemma GiveBackAccount(w: World)
    requires Accounted(w) && Allowed(w.state, DoGiveBack)
    ensures Accounted(Next(w, DoGiveBack))
  {
    hide Parsed, Samples, LostSum, Window, Offset, IsSample;
    TailMoves(w.state);
    var rest := w.state.Outstanding()[w.state.lastRead..];
    assert GiveBack(w.state).Outstanding()[0..] == rest;
  }

  predicate Runs(w: World, turns: seq<Turn>)
    requires Accounted(w)
    decreases |turns|
  {
    turns == [] ||
    (Allowed(w.state, turns[0]) && (TurnAccount(w, turns[0]); Runs(Next(w, turns[0]), turns[1..])))
  }

  function Final(w: World, turns: seq<Turn>): (w': World)
    requires Accounted(w) && Runs(w, turns)
    ensures Accounted(w')
    decreases |turns|
  {
    if turns == [] then w else
      TurnAccount(w, turns[0]);
      Final(Next(w, turns[0]), turns[1..])
  }

  lemma TurnAccount(w: World, t: Turn)
    requires Accounted(w) && Allowed(w.state, t)
    ensures Accounted(Next(w, t))
  {
    hide Accounted;
    match t
    case Arrival(b) => ArrivalAccount(w, b);
    case DoRead => ReadAccount(w);
    case DoPass => PassAccount(w);
    case DoGiveBack => GiveBackAccount(w);
  }

  /** An empty ring that nobody has read from. */
  predicate Fresh(w: World)
    ensures Fresh(w) ==> Accounted(w)
  {
    && w.state.Shaped() && w.state.head == w.state.tail && w.arrived == [] && w.visited == [] && w.lost == 0
    && assert w.state.Outstanding() == [] && w.state.Unread() == []; true
  }

  /** Over every interleaving of arrivals and the library's steps: the samples that arrived are
      those visited, then those lent, then those not yet lent, and likewise for the losses; with
      nothing outstanding all samples were visited and all losses counted. */
  lemma EverySampleOnce(w: World, turns: seq<Turn>)
    requires Fresh(w) && Runs(w, turns)
    ensures var w' := Final(w, turns);
            && Accounted(w')
            && (w'.state.head == w'.state.tail ==> w'.visited == Samples(w'.arrived) && w'.lost == LostSum(w'.arrived))
  {
    var w' := Final(w, turns);
    if w'.state.head == w'.state.tail {
      assert w'.state.Outstanding() == [] && w'.state.Unread() == [];
      assert w'.visited + ([] + []) == w'.visited;
    }
  }

  // ----- Records as the kernel writes them -----

  /** A sample with its data, a note of lost samples, or a record of another type. */
  datatype Record =
    | Sample(misc: nat, data: seq<byte>)
    | Lost(misc: nat, id: nat, lost: nat)
    | Other(kind: nat, misc: nat, body: seq<byte>)
  {
    predicate Valid() {
      match this
      case Sample(_, data) => |data| + 12 < TWO16
      case Lost(_, _, lost) => lost < TWO64
      case Other(kind, _, body) => |body| + 8 < TWO16 && kind < TWO32 && kind != 2 && kind != 9
    }
  }

  function Head(kind: nat, misc: nat, size: nat): (b: seq<byte>)
    ensures |b| == 8
  {
    LittleEndian(kind, 4) + LittleEndian(misc, 2) + LittleEndian(size, 2)
  }

  function RecordBytes(r: Record): seq<byte> {
    match r
    case Sample(misc, data) => Head(9, misc, 12 + |data|) + (LittleEndian(|data|, 4) + data)
    case Lost(misc, id, lost) => Head(2, misc, 24) + (LittleEndian(id, 8) + LittleEndian(lost, 8))
    case Other(kind, misc, body) => Head(kind, misc, 8 + |body|) + body
  }

  function Stream(rs: seq<Record>): seq<byte> {
    if rs == [] then [] else RecordBytes(rs[0]) + Stream(rs[1..])
  }

  function SamplesIn(rs: seq<Record>): seq<seq<byte>> {
    if rs == [] then [] else (if rs[0].Sample? then [RecordBytes(rs[0])] else []) + SamplesIn(rs[1..])
  }

  function LossesIn(rs: seq<Record>): nat {
    if rs == [] then 0 else (if rs[0].Lost? then rs[0].lost else 0) + LossesIn(rs[1..])
  }

  lemma HeadFields(kind: nat, misc: nat, size: nat, rest: seq<byte>)
    requires kind < TWO32 && size < TWO16
    ensures var b := Head(kind, misc, size) + rest; Type(b) == kind && Size(b) == size
  {
    hide Bytes.LittleEndian, Bytes.Value;
    var b := Head(kind, misc, size) + rest;
    WordRoundTrip(kind);
    WordRoundTrip(size);
    assert b[0..4] == LittleEndian(kind, 4) && b[6..8] == LittleEndian(size, 2);
  }

  /** One record at the front is read as what it is. */
  lemma RecordRead(r: Record, rest: seq<byte>)
    requires r.Valid()
    ensures var b := RecordBytes(r) + rest;
            && |b| >= HEADER && Size(b) == |RecordBytes(r)| && IsSample(b) == r.Sample?
            && (Type(b) == RECORD_LOST <==> r.Lost?) && (r.Lost? ==> |RecordBytes(r)| == 24 && LostIn(b) == r.lost)
            && b[..Size(b)] == RecordBytes(r) && b[Size(b)..] == rest
  {
    hide Bytes.LittleEndian, Bytes.Value, Head;
    var b := RecordBytes(r) + rest;
    match r {
      case Sample(misc, data) =>
        var body := LittleEndian(|data|, 4) + data;
        HeadFields(9, misc, 12 + |data|, body + rest);
        assert b == Head(9, misc, 12 + |data|) + (body + rest);
      case Lost(misc, id, lost) =>
        var body := LittleEndian(id, 8) + LittleEndian(lost, 8);
        HeadFields(2, misc, 24, body + rest);
        assert b == Head(2, misc, 24) + (body + rest);
        WordRoundTrip(lost);
        assert b[16..24] == LittleEndian(lost, 8);
      case Other(kind, misc, body) =>
        HeadFields(kind, misc, 8 + |body|, body + rest);
        assert b == Head(kind, misc, 8 + |body|) + (body + rest);
    }
    hide RecordBytes;
    assert b[..|RecordBytes(r)|] == RecordBytes(r) && b[|RecordBytes(r)|..] == rest;
  }

  /** Whatever records the kernel writes, the walk finds its samples, in order and whole, and adds
      up its losses. */
  lemma {:induction false} StreamRead(rs: seq<Record>)
    requires forall i :: 0 <= i < |rs| ==> rs[i].Valid()
    ensures Parsed(Stream(rs)) && Samples(Stream(rs)) == SamplesIn(rs) && LostSum(Stream(rs)) == LossesIn(rs)
    decreases |rs|
  {
    if rs != [] {
      hide Size, Type, LostIn, IsSample, RecordBytes;
      StreamRead(rs[1..]);
      RecordRead(rs[0], Stream(rs[1..]));
      RecordShape(rs[0]);
    }
  }

  lemma RecordShape(r: Record)
    ensures |RecordBytes(r)| >= HEADER
  {
    hide Bytes.LittleEndian;
  }
}
