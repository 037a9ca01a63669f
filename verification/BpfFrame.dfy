/** The BPF serialiser: an event frame built in a scratch buffer by a chain of filler programs,
    every offset and size masked for the sake of the BPF verifier. */
module BpfFrame {
  import opened Bytes
  import opened Events
  import opened UserCopy
  import opened ArgEncoding
  import opened EventFiller

  const SCRATCH_SIZE: nat := 0x4_0000
  const SCRATCH_SIZE_MAX: nat := SCRATCH_SIZE - 1
  const SCRATCH_SIZE_HALF: nat := SCRATCH_SIZE_MAX / 2

  /** The whole perf record, with its 12-byte header, must fit in 16 bits. */
  const PERF_EVENT_MAX_SIZE: nat := 0xffff - 12

  // ----- Masks -----

  /** `x & mask`, for a mask of low bits. */
  function Mask(x: nat, mask: nat): nat {
    x % (mask + 1)
  }

  /** A mask changes nothing exactly when the value is within it. */
  lemma MaskIdentity(x: nat, mask: nat)
    ensures Mask(x, mask) == x <==> x <= mask
    ensures x > 0 ==> (Mask(x - 1, mask) + 1 == x <==> x <= mask + 1)
  {
    if x <= mask {
      EuclidUnique(x, mask + 1, 0, x);
    }
    if 0 < x <= mask + 1 {
      EuclidUnique(x - 1, mask + 1, 0, x - 1);
    }
  }

  // ----- One argument -----

  /** A call of the serialiser.  `mem` is the readable memory at the value's address, or,
      if `onFrame`, what the filler has already put in the frame.  `dyn` is the index byte
      of a dynamic parameter, if any. */
  datatype FrameArg = FrameArg(
    ty: ParamType, val: nat, mem: seq<byte>, valLen: nat, dyn: seq<byte>,
    enforceSnaplen: bool, snaplen: nat, onFrame: bool) {

    /** `len` is 32 bits wide. */
    function Len(): nat {
      valLen % TWO32
    }

    /** What fillers keep to. */
    predicate Valid() {
      && |dyn| <= 1
      && (ty.Fixed? ==> ty.width <= 8)
      && (onFrame ==> Len() <= |mem| <= SCRATCH_SIZE_HALF)
    }
  }

  /** `bpf_probe_read_str`: up to the NUL, cut to fit with a NUL of its own. */
  function ProbeReadStr(mem: seq<byte>, size: nat): Outcome<seq<byte>>
    requires size > 0
  {
    if NulIndex(mem) < |mem| && NulIndex(mem) < size then Ok(mem[..NulIndex(mem) + 1])
    else if |mem| >= size then Ok(mem[..size - 1] + [0])
    else InvalidUserMemory
  }

  /** How many bytes of a buffer are captured. */
  function BufLen(a: FrameArg): nat {
    var len := if a.enforceSnaplen && a.Len() > a.snaplen then a.snaplen else a.Len();
    Min(len, MAX_ARG_SIZE)
  }

  /** The bytes of one argument, without the index byte. */
  function FramePayload(a: FrameArg): Outcome<seq<byte>>
    requires a.Valid()
  {
    match a.ty
    case CharBuf => if a.onFrame then Ok(a.mem[..a.Len()]) else ProbeReadStr(a.mem, MAX_ARG_SIZE)
    case ByteBuf =>
      if a.valLen == 0 then Ok([])
      else if a.onFrame then Ok(a.mem[..BufLen(a)])
      else if a.enforceSnaplen && |a.mem| < Min(DPI_LOOKAHEAD, a.Len()) then InvalidUserMemory
      else if |a.mem| < BufLen(a) then InvalidUserMemory
      else Ok(a.mem[..BufLen(a)])
    case Blob => if a.onFrame then Ok(a.mem[..a.Len()]) else Bug
    case Fixed(w) => Ok(LittleEndian(a.val, w))
    case Dyn(_) => Bug
    case Unhandled => Bug
  }

  /** What a call at offset `off` adds to the frame. */
  function Pushed(off: nat, a: FrameArg): (r: Outcome<seq<byte>>)
    requires a.Valid()
    ensures r.Ok? ==> |r.value| <= MAX_ARG_SIZE && off <= SCRATCH_SIZE_HALF
  {
    if off + |a.dyn| > SCRATCH_SIZE_HALF then BufferFull
    else
      match FramePayload(a)
      case Ok(b) => if |a.dyn| + |b| > MAX_ARG_SIZE then BufferFull else Ok(a.dyn + b)
      case BufferFull => BufferFull
      case InvalidUserMemory => InvalidUserMemory
      case Bug => Bug
  }

  // ----- What an argument says, read back -----

  /** The string that can be read, or its first 64999 bytes, with a NUL behind it. */
  predicate IsProbeString(r: Outcome<seq<byte>>, mem: seq<byte>) {
    if NulIndex(mem) < |mem| || |mem| >= 65000 then
      && r.Ok? && |r.value| == |CString(r.value)| + 1
      && CString(r.value) == mem[..Min(NulIndex(mem), 64999)]
    else r.InvalidUserMemory?
  }

  /** The law of a value in a frame, type by type.  A buffer is captured up to the limit in force
      and up to 65000 bytes; if there is a limit the first 16 bytes are looked at in any case. */
  ghost predicate IsFrameValue(r: Outcome<seq<byte>>, a: FrameArg)
    requires a.Valid()
  {
    var len := a.valLen % TWO32;
    match a.ty
    case CharBuf => if a.onFrame then IsStart(r, a.mem, len, len) else IsProbeString(r, a.mem)
    case ByteBuf =>
      if a.valLen == 0 then r == Ok([])
      else
        exists n: nat :: IsCapped(n, len, a.enforceSnaplen, a.snaplen) &&
          var taken := Min(n, 65000);
          if a.onFrame || !a.enforceSnaplen || taken >= Min(16, len) then IsStart(r, a.mem, taken, taken)
          else IsStart(r, a.mem, taken, Min(16, len))
    case Blob => if a.onFrame then IsStart(r, a.mem, len, len) else r.Bug?
    case Fixed(w) => IsWord(r, a.val, w, w)
    case Dyn(_) => r.Bug?
    case Unhandled => r.Bug?
  }

  /** The law of a whole argument at an offset of the frame: it starts in the first half of the
      scratch area, and with the index byte before it is at most 65000 bytes long. */
  ghost predicate IsFrameArg(r: Outcome<seq<byte>>, off: nat, a: FrameArg)
    requires a.Valid()
  {
    if off + |a.dyn| > 131071 then r.BufferFull?
    else if r.Ok? then
      |a.dyn| <= |r.value| <= 65000 && r.value[..|a.dyn|] == a.dyn && IsFrameValue(Ok(r.value[|a.dyn|..]), a)
    else
      || IsFrameValue(r, a)
      || (r.BufferFull? && exists b: seq<byte> :: |a.dyn| + |b| > 65000 && IsFrameValue(Ok(b), a))
  }

  lemma ProbeStringLaw(mem: seq<byte>)
    ensures IsProbeString(ProbeReadStr(mem, MAX_ARG_SIZE), mem)
  {
    var k, r := NulIndex(mem), ProbeReadStr(mem, MAX_ARG_SIZE);
    if r.Ok? {
      var n := Min(k, 64999);
      NulIndexUnique(r.value, n);
      assert r.value[..n] == mem[..n];
    }
  }

  /** The frame's serialiser keeps the law ... */
  lemma FramePayloadLaw(a: FrameArg)
    requires a.Valid()
    ensures IsFrameValue(FramePayload(a), a)
  {
    hide UserCopy.NulIndex, Bytes.LittleEndian, IsProbeString, ProbeReadStr;
    match a.ty
    case CharBuf => ProbeStringLaw(a.mem);
    case ByteBuf =>
      var len := a.valLen % TWO32;
      var n := if a.enforceSnaplen && len > a.snaplen then a.snaplen else len;
      assert IsCapped(n, len, a.enforceSnaplen, a.snaplen);
    case Fixed(w) => ValueOfLittleEndian(a.val, w);
    case _ =>
  }

  lemma PushedLaw(off: nat, a: FrameArg)
    requires a.Valid()
    ensures IsFrameArg(Pushed(off, a), off, a)
  {
    hide FramePayload, IsFrameValue;
    FramePayloadLaw(a);
    var r := FramePayload(a);
    if r.Ok? {
      assert (a.dyn + r.value)[|a.dyn|..] == r.value && (a.dyn + r.value)[..|a.dyn|] == a.dyn;
    }
  }

  /** ... which leaves no choice. */
  lemma FrameValueOnly(r: Outcome<seq<byte>>, r': Outcome<seq<byte>>, a: FrameArg)
    requires a.Valid() && IsFrameValue(r, a) && IsFrameValue(r', a)
    ensures r == r'
  {
    hide UserCopy.NulIndex;
    if r.Ok? && r'.Ok? {
      if a.ty.Fixed? {
        ValueTells(r.value, r'.value);
      } else if a.ty.CharBuf? && !a.onFrame {
        CStringTells(r.value, r'.value);
      } else if a.valLen != 0 {
        assert r.value == a.mem[..|r.value|] && r'.value == a.mem[..|r'.value|];
      }
    }
  }

  lemma FrameArgOnly(r: Outcome<seq<byte>>, off: nat, a: FrameArg)
    requires a.Valid() && IsFrameArg(r, off, a)
    ensures r == Pushed(off, a)
  {
    hide FramePayload, IsFrameValue;
    FramePayloadLaw(a);
    if off + |a.dyn| <= 131071 {
      if r.Ok? {
        FrameValueOnly(Ok(r.value[|a.dyn|..]), FramePayload(a), a);
        assert r.value == r.value[..|a.dyn|] + r.value[|a.dyn|..];
      } else if IsFrameValue(r, a) {
        FrameValueOnly(r, FramePayload(a), a);
      } else {
        var b: seq<byte> :| |a.dyn| + |b| > 65000 && IsFrameValue(Ok(b), a);
        FrameValueOnly(Ok(b), FramePayload(a), a);
      }
    }
  }

  predicate Placed(mem: seq<byte>, at: nat, b: seq<byte>) {
    at + |b| <= |mem| && mem[at..at + |b|] == b
  }

  /** `bpf_probe_read` of `n` bytes: all of them, or a fault. */
  method ProbeRead(buf: array<byte>, at: nat, n: nat, mem: seq<byte>) returns (fault: bool)
    requires at + n <= buf.Length
    modifies buf
    ensures fault <==> |mem| < n
    ensures Within(old(buf[..]), buf[..], at, at + n)
    ensures !fault ==> Placed(buf[..], at, mem[..n])
  {
    fault := |mem| < n;
    if fault {
      Store(buf, at, seq(n, i => 0));
    } else {
      Store(buf, at, mem[..n]);
    }
  }

  /** A read at a masked offset of a masked size. */
  method ReadMasked(buf: array<byte>, at: nat, n: nat, mem: seq<byte>) returns (fault: bool)
    requires buf.Length == SCRATCH_SIZE && at <= SCRATCH_SIZE_HALF && n <= MAX_ARG_SIZE
    modifies buf
    ensures fault <==> |mem| < n
    ensures Within(old(buf[..]), buf[..], at, at + MAX_ARG_SIZE)
    ensures !fault ==> Placed(buf[..], at, mem[..n])
  {
    hide Within, Mask, Placed;
    ghost var was := buf[..];
    MaskIdentity(at, SCRATCH_SIZE_HALF);
    MaskIdentity(n, SCRATCH_SIZE_HALF);
    fault := ProbeRead(buf, Mask(at, SCRATCH_SIZE_HALF), Mask(n, SCRATCH_SIZE_HALF), mem);
    WithinWider(was, buf[..], at, at + n, at, at + MAX_ARG_SIZE);
  }

  lemma NothingPlaced(mem: seq<byte>, at: nat)
    requires at <= |mem|
    ensures Placed(mem, at, [])
  {
  }

  method WriteBuf(buf: array<byte>, at: nat, a: FrameArg) returns (r: Outcome<nat>)
    requires a.Valid() && a.ty.ByteBuf? && buf.Length == SCRATCH_SIZE && at <= SCRATCH_SIZE_HALF
    requires a.onFrame ==> Placed(buf[..], at, a.mem)
    modifies buf
    ensures SameOutcome(r, FramePayload(a))
    ensures Within(old(buf[..]), buf[..], at, at + MAX_ARG_SIZE)
    ensures r.Ok? ==> Placed(buf[..], at, FramePayload(a).value)
  {
    hide Within, Placed;
    ghost var was := buf[..];
    WithinSelf(was, at, at + MAX_ARG_SIZE);
    NothingPlaced(was, at);
    var len := a.Len();
    if a.valLen == 0 {
      return Ok(0);
    }
    if a.enforceSnaplen {
      if !a.onFrame {
        var fault := ReadMasked(buf, at, Min(DPI_LOOKAHEAD, len), a.mem);
        if fault {
          return InvalidUserMemory;
        }
      }
      if len > a.snaplen {
        len := a.snaplen;
      }
    }
    if len > MAX_ARG_SIZE {
      len := MAX_ARG_SIZE;
    }
    assert len == BufLen(a);
    if !a.onFrame {
      ghost var mid := buf[..];
      var fault := ReadMasked(buf, at, len, a.mem);
      WithinTwice(was, mid, buf[..], at, at + MAX_ARG_SIZE);
      if fault {
        return InvalidUserMemory;
      }
    } else {
      PlacedPrefix(buf[..], at, a.mem, len);
    }
    r := Ok(len);
  }

  lemma PlacedPrefix(mem: seq<byte>, at: nat, b: seq<byte>, n: nat)
    requires Placed(mem, at, b) && n <= |b|
    ensures Placed(mem, at, b[..n])
  {
    SubSlice(mem, at, |b|, 0, n);
  }

  lemma PlacedStays(was: seq<byte>, mem: seq<byte>, lo: nat, hi: nat, at: nat, b: seq<byte>)
    requires Within(was, mem, lo, hi) && Placed(was, at, b) && (at + |b| <= lo || hi <= at)
    ensures Placed(mem, at, b)
  {
    WithinKeeps(was, mem, lo, hi, at, at + |b|);
  }

  /** The switch on the type, storing at the masked offset. */
  method WriteArg(buf: array<byte>, at: nat, a: FrameArg) returns (r: Outcome<nat>)
    requires a.Valid() && buf.Length == SCRATCH_SIZE && at <= SCRATCH_SIZE_HALF
    requires a.onFrame ==> Placed(buf[..], at, a.mem)
    modifies buf
    ensures SameOutcome(r, FramePayload(a))
    ensures Within(old(buf[..]), buf[..], at, at + MAX_ARG_SIZE)
    ensures r.Ok? ==> Placed(buf[..], at, FramePayload(a).value)
  {
    hide Within, Mask, Bytes.LittleEndian, UserCopy.NulIndex;
    ghost var was := buf[..];
    WithinSelf(was, at, at + MAX_ARG_SIZE);
    MaskIdentity(at, SCRATCH_SIZE_HALF);
    match a.ty
    case CharBuf =>
      if a.onFrame {
        PlacedPrefix(was, at, a.mem, a.Len());
        r := Ok(a.Len());
      } else {
        match ProbeReadStr(a.mem, MAX_ARG_SIZE) {
          case Ok(s) =>
            Store(buf, Mask(at, SCRATCH_SIZE_HALF), s);
            WithinWider(was, buf[..], at, at + |s|, at, at + MAX_ARG_SIZE);
            r := Ok(|s|);
          case _ =>
            r := InvalidUserMemory;
        }
      }
    case ByteBuf =>
      r := WriteBuf(buf, at, a);
    case Blob =>
      if a.onFrame {
        PlacedPrefix(was, at, a.mem, a.Len());
        r := Ok(a.Len());
      } else {
        r := Bug;
      }
    case Fixed(w) =>
      Store(buf, Mask(at, SCRATCH_SIZE_HALF), LittleEndian(a.val, w));
      WithinWider(was, buf[..], at, at + w, at, at + MAX_ARG_SIZE);
      r := Ok(w);
    case Dyn(_) =>
      r := Bug;
    case Unhandled =>
      r := Bug;
  }

  /** The value behind the index byte, and the length of both in the argument's slot. */
  method PlaceArg(buf: array<byte>, slot: nat, at: nat, a: FrameArg) returns (r: Outcome<nat>)
    requires a.Valid() && buf.Length == SCRATCH_SIZE && at + |a.dyn| <= SCRATCH_SIZE_HALF && slot + 2 <= SCRATCH_SIZE
    requires Placed(buf[..], at, a.dyn) && (a.onFrame ==> Placed(buf[..], at + |a.dyn|, a.mem))
    modifies buf
    ensures SameOutcome(r, Pushed(at, a))
    ensures r.Ok? && slot + 2 <= at ==>
              && Elsewhere(old(buf[..]), buf[..], slot, at, at + 1 + MAX_ARG_SIZE)
              && Placed(buf[..], at, Pushed(at, a).value)
              && Placed(buf[..], slot, LittleEndian(|Pushed(at, a).value|, 2))
  {
    hide Bytes.LittleEndian, Within, Elsewhere, FramePayload, Placed;
    ghost var was := buf[..];
    var d := |a.dyn|;
    r := WriteArg(buf, at + d, a);
    if !r.Ok? {
      return;
    }
    if d + r.value > MAX_ARG_SIZE {
      return BufferFull;
    }
    ghost var mid, b := buf[..], FramePayload(a).value;
    Store(buf, slot, LittleEndian(d + r.value, 2));
    if slot + 2 <= at {
      StoresMeet(was, mid, buf[..], slot, at, a.dyn, b);
    }
    r := Ok(d + r.value);
  }

  lemma StoresMeet(was: seq<byte>, mid: seq<byte>, mem: seq<byte>, slot: nat, at: nat, lead: seq<byte>, b: seq<byte>)
    requires |lead| <= 1 && slot + 2 <= at && at + 1 + MAX_ARG_SIZE <= |was|
    requires Within(was, mid, at + |lead|, at + |lead| + MAX_ARG_SIZE) && Within(mid, mem, slot, slot + 2)
    requires Placed(was, at, lead) && Placed(mid, at + |lead|, b)
    requires mem[slot..slot + 2] == LittleEndian(|lead| + |b|, 2)
    ensures Elsewhere(was, mem, slot, at, at + 1 + MAX_ARG_SIZE)
    ensures Placed(mem, at, lead + b) && Placed(mem, slot, LittleEndian(|lead + b|, 2))
  {
    hide Bytes.LittleEndian, Within, Elsewhere, Placed;
    var end, d := at + 1 + MAX_ARG_SIZE, |lead|;
    WithinWider(was, mid, at + d, at + d + MAX_ARG_SIZE, at + d, end);
    StoreElsewhere(was, mid, at + d, end, slot, at, end);
    StoreElsewhere(mid, mem, slot, slot + 2, slot, at, end);
    ElsewhereTwice(was, mid, mem, slot, at, end);
    PlacedStays(was, mid, at + d, end, at, lead);
    PlacedJoin(mid, at, lead, b);
    PlacedStays(mid, mem, slot, slot + 2, at, lead + b);
    PlacedAt(mem, slot, LittleEndian(d + |b|, 2));
  }

  /** The index byte of a dynamic parameter. */
  method StoreDyn(buf: array<byte>, at: nat, a: FrameArg)
    requires a.Valid() && buf.Length == SCRATCH_SIZE && at <= SCRATCH_SIZE_HALF
    requires a.onFrame ==> Placed(buf[..], at + |a.dyn|, a.mem)
    modifies buf
    ensures Within(old(buf[..]), buf[..], at, at + |a.dyn|)
    ensures Placed(buf[..], at, a.dyn) && (a.onFrame ==> Placed(buf[..], at + |a.dyn|, a.mem))
  {
    ghost var was := buf[..];
    if |a.dyn| > 0 {
      MaskIdentity(at, SCRATCH_SIZE_HALF);
      Store(buf, Mask(at, SCRATCH_SIZE_HALF), a.dyn);
      if a.onFrame {
        PlacedStays(was, buf[..], at, at + |a.dyn|, at + |a.dyn|, a.mem);
      }
    }
  }

  lemma MaskBound(x: nat, mask: nat)
    ensures Mask(x, mask) <= mask && (x <= mask ==> Mask(x, mask) == x)
  {
    MaskIdentity(x, mask);
  }

  lemma PlacedAt(mem: seq<byte>, at: nat, b: seq<byte>)
    requires at + |b| <= |mem| && mem[at..at + |b|] == b
    ensures Placed(mem, at, b)
  {
  }

  lemma PlacedJoin(mem: seq<byte>, at: nat, a: seq<byte>, b: seq<byte>)
    requires Placed(mem, at, a) && Placed(mem, at + |a|, b)
    ensures Placed(mem, at, a + b)
  {
    SliceSplit(mem, at, at + |a|, at + |a| + |b|);
  }

  lemma PushedFull(off: nat, a: FrameArg)
    requires a.Valid()
    ensures off + |a.dyn| > SCRATCH_SIZE_HALF ==> Pushed(off, a) == BufferFull
  {
  }

  // ----- The frame -----

  /** The header fields written up front; the length comes last. */
  predicate HeadPlaced(mem: seq<byte>, h: Header) {
    && Placed(mem, 0, LittleEndian(h.ts, 8) + LittleEndian(h.tid, 8))
    && Placed(mem, 20, LittleEndian(h.kind, 2) + LittleEndian(h.nparams, 4))
  }

  lemma HeadStays(was: seq<byte>, mem: seq<byte>, lo: nat, hi: nat, h: Header)
    requires Within(was, mem, lo, hi) && HEADER <= lo && HeadPlaced(was, h)
    ensures HeadPlaced(mem, h)
  {
    hide Bytes.LittleEndian, Within;
    PlacedStays(was, mem, lo, hi, 0, LittleEndian(h.ts, 8) + LittleEndian(h.tid, 8));
    PlacedStays(was, mem, lo, hi, 20, LittleEndian(h.kind, 2) + LittleEndian(h.nparams, 4));
  }

  predicate AllFit(vals: seq<seq<byte>>) {
    forall i :: 0 <= i < |vals| ==> |vals[i]| <= MAX_ARG_SIZE
  }

  /** An index byte, a value behind it and a length in its slot make one more argument. */
  lemma ArgPlaced(was: seq<byte>, mem: seq<byte>, n: nat, vals: seq<seq<byte>>, b: seq<byte>, end: nat)
    requires Layout(was, HEADER, n, vals) && |vals| < n && |b| <= MAX_ARG_SIZE
    requires Elsewhere(was, mem, HEADER + 2 * |vals|, HEADER + 2 * n + |Data(vals)|, end)
    requires Placed(mem, HEADER + 2 * n + |Data(vals)|, b)
    requires Placed(mem, HEADER + 2 * |vals|, LittleEndian(|b|, 2))
    ensures Layout(mem, HEADER, n, vals + [b]) && Within(was, mem, HEADER, end)
  {
    hide Bytes.LittleEndian, LengthTable, Data, Layout, Elsewhere, Within;
    ElsewhereLayout(was, mem, end, HEADER, n, vals, b);
  }

  /** All stores of one call.  A slot past the table would spoil the frame, so nothing is said
      of it then. */
  method PushArg(buf: array<byte>, curarg: nat, at: nat, a: FrameArg, ghost h: Header, ghost vals: seq<seq<byte>>)
    returns (r: Outcome<nat>)
    requires a.Valid() && buf.Length == SCRATCH_SIZE && at <= SCRATCH_SIZE_HALF
    requires curarg == |vals| && h.nparams <= MAX_EVENT_PARAMS && at == HEADER + 2 * h.nparams + |Data(vals)|
    requires a.onFrame ==> Placed(buf[..], at + |a.dyn|, a.mem)
    requires |vals| <= h.nparams ==> Layout(buf[..], HEADER, h.nparams, vals) && HeadPlaced(buf[..], h)
    modifies buf
    ensures SameOutcome(r, Pushed(at, a))
    ensures r.Ok? && |vals| < h.nparams ==>
              Layout(buf[..], HEADER, h.nparams, vals + [Pushed(at, a).value]) && HeadPlaced(buf[..], h)
  {
    hide Bytes.LittleEndian, Within, Elsewhere, Layout, HeadPlaced, LengthTable, Data, FramePayload, Pushed, Mask,
      Placed;
    ghost var was := buf[..];
    PushedFull(at, a);
    StoreDyn(buf, at, a);
    if at + |a.dyn| > SCRATCH_SIZE_HALF {
      return BufferFull;
    }
    ghost var mid := buf[..];
    var slot := HEADER + 2 * Mask(curarg, MAX_EVENT_PARAMS - 1);
    MaskBound(curarg, MAX_EVENT_PARAMS - 1);
    r := PlaceArg(buf, slot, at, a);
    if r.Ok? && |vals| < h.nparams {
      PushedFits(at, a);
      PushedLayout(was, mid, buf[..], at, h.nparams, vals, Pushed(at, a).value, |a.dyn|);
      HeadStays(was, buf[..], HEADER, at + 1 + MAX_ARG_SIZE, h);
    }
  }

  /** The length goes in last. */
  method FinishFrame(buf: array<byte>, len: nat, ghost h: Header, ghost vals: seq<seq<byte>>) returns (frame: seq<byte>)
    requires buf.Length == SCRATCH_SIZE && len == EventSize(vals) <= PERF_EVENT_MAX_SIZE && h.nparams == |vals|
    requires Layout(buf[..], HEADER, |vals|, vals) && HeadPlaced(buf[..], h)
    modifies buf
    ensures frame == EncodeEvent(h, vals) && |frame| == len
  {
    hide Bytes.LittleEndian, Within, Mask, HeadPlaced, Layout, LengthTable, Data;
    ghost var was := buf[..];
    Store(buf, 16, LittleEndian(len, 4));
    MaskIdentity(len, SCRATCH_SIZE_MAX);
    FrameIsEvent(was, buf[..], h, vals);
    frame := buf[..Mask(len, SCRATCH_SIZE_MAX)];
  }

  /** What `bpf_perf_event_output` returns: success, -ENOENT or -EOPNOTSUPP, or another error. */
  datatype Answer = Accepted | CpuGone | OtherError

  /** The frames that reach the perf ring, if the push counts as a success. */
  function Answered(frame: seq<byte>, answer: Answer): Outcome<seq<seq<byte>>> {
    match answer
    case Accepted => Ok([frame])
    case CpuGone => Ok([])
    case OtherError => Bug
  }

  class Frame {
    const buf: array<byte>
    var nparams: nat
    var curarg: nat
    var curoff: nat
    var len: nat
    ghost var vals: seq<seq<byte>>
    ghost var head: Header
    ghost var headers: nat

    /** Between calls the two offsets agree with the arguments pushed so far, and, unless a
        filler has pushed too many, so do the bytes. */
    ghost predicate Valid()
      reads this, buf
    {
      && buf.Length == SCRATCH_SIZE && nparams <= MAX_EVENT_PARAMS
      && curarg == |vals| && len == curoff && AllFit(vals)
      && (len == 0 ==> vals == [] && headers == 0)
      && (len > 0 ==> Started())
    }

    ghost predicate Started()
      reads this, buf
    {
      && headers == 1 && head.nparams == nparams
      && curoff == HEADER + 2 * nparams + |Data(vals)| <= SCRATCH_SIZE_HALF + MAX_ARG_SIZE
      && (|vals| <= nparams ==> Layout(buf[..], HEADER, nparams, vals) && HeadPlaced(buf[..], head))
    }

    constructor ()
      ensures Valid() && len == 0 && fresh(buf)
    {
      buf := new byte[SCRATCH_SIZE];
      nparams, curarg, curoff, len := 0, 0, 0, 0;
      vals, headers := [], 0;
    }

    /** `reset_tail_ctx`, for an event type of `n` parameters. */
    method ResetTailCtx(n: nat)
      requires buf.Length == SCRATCH_SIZE && n <= MAX_EVENT_PARAMS
      modifies this
      ensures Valid() && len == 0 && nparams == n && vals == [] && headers == 0
    {
      nparams, curarg, curoff, len := n, 0, 0, 0;
      vals, headers := [], 0;
    }

    /** `write_evt_hdr`. */
    method WriteEvtHdr(h: Header)
      requires Valid() && len == 0 && h.nparams == nparams
      modifies this, buf
      ensures Valid() && len > 0 && vals == [] && head == h && headers == old(headers) + 1
      ensures nparams == old(nparams)
    {
      hide Bytes.LittleEndian, Within;
      Store(buf, 0, LittleEndian(h.ts, 8) + LittleEndian(h.tid, 8));
      ghost var mid := buf[..];
      Store(buf, 20, LittleEndian(h.kind, 2) + LittleEndian(h.nparams, 4));
      PlacedStays(mid, buf[..], 20, 26, 0, LittleEndian(h.ts, 8) + LittleEndian(h.tid, 8));
      curoff := HEADER + 2 * nparams;
      len := curoff;
      head, headers := h, headers + 1;
      assert LengthTable([]) == [] && Data([]) == [];
    }

    /** `__bpf_val_to_ring`. */
    method ValToRing(a: FrameArg) returns (r: Outcome<nat>)
      requires Valid() && len > 0 && a.Valid()
      requires a.onFrame ==> Placed(buf[..], curoff + |a.dyn|, a.mem)
      modifies this, buf
      ensures SameOutcome(r, Pushed(old(curoff), a)) && nparams == old(nparams)
      ensures IsFrameArg(Pushed(old(curoff), a), old(curoff), a)
      ensures r.Ok? ==> Valid() && len > 0 && vals == old(vals) + [Pushed(old(curoff), a).value]
      ensures r.Ok? ==> head == old(head) && headers == old(headers)
    {
      hide Layout, HeadPlaced, Data, Pushed, Placed, IsFrameArg;
      PushedLaw(curoff, a);
      if curoff > SCRATCH_SIZE_HALF {
        PushedFull(curoff, a);
        return BufferFull;
      }
      var start := curoff;
      curoff, len := curoff + |a.dyn|, len + |a.dyn|;
      r := PushArg(buf, curarg, start, a, head, vals);
      if !r.Ok? {
        return;
      }
      PushedFits(start, a);
      DataGrows(vals, Pushed(start, a).value);
      curoff, len := curoff + r.value - |a.dyn|, len + r.value - |a.dyn|;
      curarg := curarg + 1;
      vals := vals + [Pushed(start, a).value];
    }

    /** `push_evt_frame`: a frame is offered to the perf ring only when complete and small
        enough for a perf record; it is then the event's encoding.  When the ring's CPU is gone
        nothing is sent and yet the push succeeds. */
    method PushEvtFrame(answer: Answer) returns (r: Outcome<seq<seq<byte>>>)
      requires Valid() && len > 0
      modifies buf
      ensures r == if curarg != nparams then Bug
                   else if len > PERF_EVENT_MAX_SIZE then BufferFull
                   else Answered(EncodeEvent(head, vals), answer)
      ensures curarg == nparams ==> |EncodeEvent(head, vals)| == len && |vals| == head.nparams
    {
      if curarg != nparams {
        return Bug;
      }
      if len > PERF_EVENT_MAX_SIZE {
        return BufferFull;
      }
      hide HeadPlaced, Layout, Data;
      var frame := FinishFrame(buf, len, head, vals);
      r := Answered(frame, answer);
    }
  }

  lemma PushedFits(off: nat, a: FrameArg)
    requires a.Valid() && Pushed(off, a).Ok?
    ensures |a.dyn| <= |Pushed(off, a).value| <= MAX_ARG_SIZE && off <= SCRATCH_SIZE_HALF
  {
  }

  lemma DataGrows(vals: seq<seq<byte>>, b: seq<byte>)
    ensures |Data(vals + [b])| == |Data(vals)| + |b|
  {
    hide Data, LengthTable;
    TableAppend(vals, b);
  }

  /** The stores of one call, put together. */
  lemma PushedLayout(was: seq<byte>, mid: seq<byte>, mem: seq<byte>, at: nat, n: nat, vals: seq<seq<byte>>,
      b: seq<byte>, d: nat)
    requires Layout(was, HEADER, n, vals) && |vals| < n && |b| <= MAX_ARG_SIZE
    requires at == HEADER + 2 * n + |Data(vals)| && d <= 1 && at + 1 + MAX_ARG_SIZE <= |was|
    requires Within(was, mid, at, at + d)
    requires Elsewhere(mid, mem, HEADER + 2 * |vals|, at, at + 1 + MAX_ARG_SIZE)
    requires Placed(mem, at, b) && Placed(mem, HEADER + 2 * |vals|, LittleEndian(|b|, 2))
    ensures Layout(mem, HEADER, n, vals + [b]) && Within(was, mem, HEADER, at + 1 + MAX_ARG_SIZE)
  {
    hide Bytes.LittleEndian, LengthTable, Data, Layout, Elsewhere, Within;
    var slot, end := HEADER + 2 * |vals|, at + 1 + MAX_ARG_SIZE;
    WithinWider(was, mid, at, at + d, at, end);
    StoreElsewhere(was, mid, at, end, slot, at, end);
    ElsewhereTwice(was, mid, mem, slot, at, end);
    ArgPlaced(was, mem, n, vals, b, end);
  }

  /** Header, length table and data side by side. */
  lemma FrameIsEvent(was: seq<byte>, mem: seq<byte>, h: Header, vals: seq<seq<byte>>)
    requires |mem| == |was| && EventSize(vals) <= |mem| && h.nparams == |vals|
    requires HeadPlaced(was, h) && Layout(was, HEADER, |vals|, vals)
    requires Within(was, mem, 16, 20) && mem[16..20] == LittleEndian(EventSize(vals), 4)
    ensures mem[..EventSize(vals)] == EncodeEvent(h, vals)
  {
    hide Bytes.LittleEndian, LengthTable, Data, Within;
    var n := |vals|;
    var tableEnd := HEADER + 2 * n;
    WithinKeeps(was, mem, 16, 20, 0, 16);
    WithinKeeps(was, mem, 16, 20, 20, 26);
    WithinKeeps(was, mem, 16, 20, HEADER, tableEnd);
    WithinKeeps(was, mem, 16, 20, tableEnd, EventSize(vals));
    SliceSplit(mem, 0, 16, 20);
    SliceSplit(mem, 0, 20, 26);
    SliceSplit(mem, 0, 26, tableEnd);
    SliceSplit(mem, 0, tableEnd, EventSize(vals));
  }
}
