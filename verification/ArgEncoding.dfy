/** What the serialiser makes of one argument, and the layout of a whole event: header, a
    table of 16-bit lengths, then the argument bytes back to back. */
module ArgEncoding {
  import opened Bytes
  import opened Events
  import opened UserCopy

  const MAX_ARG_SIZE: nat := 65000
  const DPI_LOOKAHEAD: nat := 16
  const MAX_EVENT_PARAMS: nat := 32

  /** Parameter types, grouped as the serialiser's switch groups them. */
  datatype ParamType =
    | CharBuf                     // PT_CHARBUF, PT_FSPATH
    | ByteBuf                     // PT_BYTEBUF
    | Blob                        // PT_SOCKADDR, PT_SOCKTUPLE, PT_FDLIST
    | Fixed(width: nat)           // the integer types, of 1, 2, 4 or 8 bytes
    | Dyn(info: seq<ParamType>)   // PT_DYN with its table of types
    | Unhandled

  /** One call: the 64-bit value, the memory behind it when it is a pointer, and the rest.
      `snaplen` is the limit the consumer's settings give for this value, where enforced. */
  datatype Arg = Arg(val: nat, mem: seq<byte>, valLen: nat, fromUser: bool,
                     dynIdx: byte, enforceSnaplen: bool, snaplen: nat)

  /** Kernel pointers are valid: strings are terminated, buffers as long as announced.  Of a
      dynamic parameter, the type that counts is the one the index selects. */
  predicate KernelMemoryOk(p: ParamType, a: Arg) {
    match p
    case CharBuf => a.val != 0 && !a.fromUser ==> NulIndex(a.mem) < |a.mem|
    case ByteBuf => a.val != 0 && !a.fromUser ==> a.valLen <= |a.mem|
    case Blob => a.val != 0 && !a.fromUser ==> a.valLen <= |a.mem|
    case Dyn(info) =>
      a.dynIdx as int < |info| && !info[a.dynIdx as int].Dyn? ==> KernelMemoryOk(info[a.dynIdx as int], a)
    case _ => true
  }

  /** "(NULL)" */
  const NULL_STRING: seq<byte> := [40, 78, 85, 76, 76, 41]

  /** The bytes counted after `strlcpy` of `str` into `max` bytes. */
  function StringBytes(str: seq<byte>, max: nat): (b: seq<byte>)
    ensures |b| == Min(|str| + 1, max)
  {
    if |str| + 1 <= max then str + [0] else if max == 0 then [] else str[..max - 1] + [0]
  }

  function Capped(valLen: nat, a: Arg): (n: nat)
    ensures n <= valLen
  {
    if a.enforceSnaplen && valLen > a.snaplen then a.snaplen else valLen
  }

  /** Length of a user byte buffer after the snaplen and space limits. */
  function UserBufLen(a: Arg, max: nat): (n: nat) {
    if Min(DPI_LOOKAHEAD, a.valLen) == a.valLen then a.valLen
    else if Capped(a.valLen, a) >= max then max else Capped(a.valLen, a)
  }

  /** The value itself, given `max` bytes. */
  function Payload(p: ParamType, a: Arg, max: nat): (r: Outcome<seq<byte>>)
    requires p.Dyn? || KernelMemoryOk(p, a)
    ensures r.Ok? ==> |r.value| <= max
  {
    match p
    case CharBuf =>
      if a.val == 0 then Ok(StringBytes(NULL_STRING, max))
      else if a.fromUser then
        var n := Chunked(a.mem, max);
        if n < 0 then InvalidUserMemory else Ok(a.mem[..n])
      else Ok(StringBytes(CString(a.mem), max))
    case ByteBuf =>
      if a.val == 0 then Ok([])
      else if a.fromUser then
        var ahead := Min(DPI_LOOKAHEAD, a.valLen);
        var n := UserBufLen(a, max);
        if ahead >= max then BufferFull
        else if |a.mem| < ahead || |a.mem| < n then InvalidUserMemory
        else Ok(a.mem[..n])
      else if Capped(a.valLen, a) >= max then BufferFull
      else Ok(a.mem[..Capped(a.valLen, a)])
    case Blob =>
      if a.val == 0 then Ok([])
      else if a.valLen >= max then BufferFull
      else if a.fromUser && |a.mem| < a.valLen then InvalidUserMemory
      else Ok(a.mem[..a.valLen])
    case Fixed(w) => if max >= w then Ok(LittleEndian(a.val, w)) else BufferFull
    case Dyn(_) => Bug
    case Unhandled => Bug
  }

  /** The bytes of one argument when `space` bytes are left for data. */
  function Encoded(p: ParamType, a: Arg, space: nat): (r: Outcome<seq<byte>>)
    requires KernelMemoryOk(p, a)
    ensures r.Ok? ==> |r.value| <= space && |r.value| <= MAX_ARG_SIZE
  {
    if space == 0 then BufferFull else
      var max := Min(space, MAX_ARG_SIZE);
      if p.Dyn? then
        if a.dynIdx as int >= |p.info| then Bug
        else Prefixed([a.dynIdx], Payload(p.info[a.dynIdx as int], a, max - 1))
      else Payload(p, a, max)
  }

  // ----- What an argument says, read back -----

  /** An integer: its low bytes, if there is room for them. */
  ghost predicate IsWord(r: Outcome<seq<byte>>, val: nat, w: nat, max: nat) {
    if w <= max then r.Ok? && |r.value| == w && Value(r.value) == val % Pow256(w) else r.BufferFull?
  }

  /** A string without NULs: the longest start of it that fits with a NUL behind it. */
  predicate IsString(r: Outcome<seq<byte>>, str: seq<byte>, max: nat) {
    && r.Ok?
    && if max == 0 then r.value == [] else
         && |r.value| == |CString(r.value)| + 1
         && CString(r.value) == str[..Min(|str|, max - 1)]
  }

  /** The string in user memory, if its NUL is within `max` bytes and the four bytes in line with
      it, cut at `max`, can be read. */
  predicate IsUserString(r: Outcome<seq<byte>>, mem: seq<byte>, max: nat) {
    var k := NulIndex(mem);
    if k < |mem| && k < max && Min(max, k / 4 * 4 + 4) <= |mem| then
      r.Ok? && |r.value| == k + 1 && CString(r.value) == CString(mem)
    else r.InvalidUserMemory?
  }

  /** The first `n` bytes, of `need` that have to be readable. */
  predicate IsStart(r: Outcome<seq<byte>>, mem: seq<byte>, n: nat, need: nat) {
    if n <= need <= |mem| then r.Ok? && |r.value| == n && r.value <= mem else r.InvalidUserMemory?
  }

  /** How much of a buffer is captured: all, or as much as the limit in force allows. */
  predicate IsCapped(n: nat, len: nat, enforced: bool, limit: nat) {
    n <= len && (n == len || (enforced && n == limit)) && (enforced ==> n <= limit)
  }

  /** A buffer from user memory.  Up to 16 bytes are taken as they are; of a longer one the first
      16 are looked at in any case, and then as much is taken as the limit and the room allow. */
  ghost predicate IsUserBuffer(r: Outcome<seq<byte>>, a: Arg, max: nat) {
    if a.valLen >= max && 16 >= max then r.BufferFull?
    else if a.valLen <= 16 then IsStart(r, a.mem, a.valLen, a.valLen)
    else
      exists n: nat :: IsCapped(n, a.valLen, a.enforceSnaplen, a.snaplen) &&
        if n <= 16 && n <= max then IsStart(r, a.mem, n, 16)
        else IsStart(r, a.mem, Min(n, max), Min(n, max))
  }

  /** The law of a value that is given `max` bytes, type by type. */
  ghost predicate Represents(r: Outcome<seq<byte>>, p: ParamType, a: Arg, max: nat)
    requires p.Dyn? || KernelMemoryOk(p, a)
  {
    match p
    case CharBuf =>
      if a.val == 0 then IsString(r, [40, 78, 85, 76, 76, 41], max)
      else if a.fromUser then IsUserString(r, a.mem, max)
      else IsString(r, CString(a.mem), max)
    case ByteBuf =>
      if a.val == 0 then r == Ok([])
      else if a.fromUser then IsUserBuffer(r, a, max)
      else
        exists n: nat :: IsCapped(n, a.valLen, a.enforceSnaplen, a.snaplen) &&
          if n >= max then r.BufferFull? else IsStart(r, a.mem, n, n)
    case Blob =>
      if a.val == 0 then r == Ok([])
      else if a.valLen >= max then r.BufferFull?
      else IsStart(r, a.mem, a.valLen, a.valLen)
    case Fixed(w) => IsWord(r, a.val, w, max)
    case Dyn(_) => r.Bug?
    case Unhandled => r.Bug?
  }

  /** The law of a whole argument: at most 65000 bytes, of which a dynamic one spends the first
      on the index of its type. */
  ghost predicate IsArgument(r: Outcome<seq<byte>>, p: ParamType, a: Arg, space: nat)
    requires KernelMemoryOk(p, a)
  {
    var max := Min(space, 65000);
    if space == 0 then r.BufferFull?
    else if !p.Dyn? then Represents(r, p, a, max)
    else if a.dynIdx as int >= |p.info| then r.Bug?
    else if r.Ok? then
      && |r.value| > 0 && r.value[0] == a.dynIdx
      && Represents(Ok(r.value[1..]), p.info[a.dynIdx as int], a, max - 1)
    else Represents(r, p.info[a.dynIdx as int], a, max - 1)
  }

  lemma StringLaw(str: seq<byte>, max: nat)
    requires forall i :: 0 <= i < |str| ==> str[i] != 0
    ensures IsString(Ok(StringBytes(str, max)), str, max)
  {
    if max > 0 {
      var b, k := StringBytes(str, max), Min(|str|, max - 1);
      assert b == str[..k] + [0];
      NulIndexUnique(b, k);
      assert b[..k] == str[..k];
    }
  }

  lemma UserStringLaw(mem: seq<byte>, max: nat)
    ensures var n := Chunked(mem, max);
            IsUserString(if n < 0 then InvalidUserMemory else Ok(mem[..n]), mem, max)
  {
    var k := NulIndex(mem);
    assert k / 4 * 4 == k - k % 4;
    if Chunked(mem, max) >= 0 {
      NulIndexUnique(mem[..k + 1], k);
      assert mem[..k + 1][..k] == mem[..k];
    }
  }

  lemma UserBufferLaw(a: Arg, max: nat)
    requires a.val != 0 && a.fromUser
    ensures IsUserBuffer(Payload(ByteBuf, a, max), a, max)
  {
    var n := Capped(a.valLen, a);
    assert IsCapped(n, a.valLen, a.enforceSnaplen, a.snaplen);
  }

  lemma KernelBufferLaw(a: Arg, max: nat)
    requires a.val != 0 && !a.fromUser && KernelMemoryOk(ByteBuf, a)
    ensures Represents(Payload(ByteBuf, a, max), ByteBuf, a, max)
  {
    assert IsCapped(Capped(a.valLen, a), a.valLen, a.enforceSnaplen, a.snaplen);
  }

  /** The serialiser keeps the law. */
  lemma PayloadLaw(p: ParamType, a: Arg, max: nat)
    requires p.Dyn? || KernelMemoryOk(p, a)
    ensures Represents(Payload(p, a, max), p, a, max)
  {
    hide UserCopy.NulIndex, UserCopy.Chunked, IsString, IsUserString, IsUserBuffer, StringBytes, Bytes.LittleEndian;
    match p
    case CharBuf =>
      if a.val == 0 {
        StringLaw(NULL_STRING, max);
      } else if a.fromUser {
        UserStringLaw(a.mem, max);
      } else {
        StringLaw(CString(a.mem), max);
      }
    case ByteBuf =>
      if a.val != 0 && a.fromUser {
        UserBufferLaw(a, max);
      } else if a.val != 0 {
        KernelBufferLaw(a, max);
      }
    case Fixed(w) => ValueOfLittleEndian(a.val, w);
    case _ =>
  }

  lemma EncodedLaw(p: ParamType, a: Arg, space: nat)
    requires KernelMemoryOk(p, a)
    ensures IsArgument(Encoded(p, a, space), p, a, space)
  {
    hide Payload, Represents;
    var max := Min(space, MAX_ARG_SIZE);
    if space > 0 && !p.Dyn? {
      PayloadLaw(p, a, max);
    } else if space > 0 && a.dynIdx as int < |p.info| {
      var q := p.info[a.dynIdx as int];
      PayloadLaw(q, a, max - 1);
      if Payload(q, a, max - 1).Ok? {
        assert Encoded(p, a, space).value[1..] == Payload(q, a, max - 1).value;
      }
    }
  }

  lemma CStringTells(a: seq<byte>, b: seq<byte>)
    requires |a| == |CString(a)| + 1 && |b| == |CString(b)| + 1 && CString(a) == CString(b)
    ensures a == b
  {
    assert a == CString(a) + [0] && b == CString(b) + [0];
  }

  /** ... and the law leaves no choice. */
  lemma RepresentsOnly(r: Outcome<seq<byte>>, r': Outcome<seq<byte>>, p: ParamType, a: Arg, max: nat)
    requires p.Dyn? || KernelMemoryOk(p, a)
    requires Represents(r, p, a, max) && Represents(r', p, a, max)
    ensures r == r'
  {
    hide UserCopy.NulIndex;
    if r.Ok? && r'.Ok? {
      if p.Fixed? {
        ValueTells(r.value, r'.value);
      } else if p.CharBuf? && max > 0 {
        CStringTells(r.value, r'.value);
      } else if p.ByteBuf? || p.Blob? {
        assert a.val != 0 ==> r.value == a.mem[..|r.value|] && r'.value == a.mem[..|r'.value|];
      }
    }
  }

  lemma ArgumentOnly(r: Outcome<seq<byte>>, r': Outcome<seq<byte>>, p: ParamType, a: Arg, space: nat)
    requires KernelMemoryOk(p, a) && IsArgument(r, p, a, space) && IsArgument(r', p, a, space)
    ensures r == r'
  {
    hide Represents;
    var max := Min(space, 65000);
    if space > 0 && !p.Dyn? {
      RepresentsOnly(r, r', p, a, max);
    } else if space > 0 && a.dynIdx as int < |p.info| {
      var q := p.info[a.dynIdx as int];
      RepresentsOnly(Rest(r), Rest(r'), q, a, max - 1);
      if r.Ok? {
        assert r.value == [r.value[0]] + r.value[1..] && r'.value == [r'.value[0]] + r'.value[1..];
      }
    }
  }

  function Rest(r: Outcome<seq<byte>>): Outcome<seq<byte>> {
    if r.Ok? && r.value != [] then Ok(r.value[1..]) else r
  }

  // ----- Layout of an event -----

  function LengthTable(vals: seq<seq<byte>>): (t: seq<byte>)
    ensures |t| == 2 * |vals|
  {
    if vals == [] then [] else LittleEndian(|vals[0]|, 2) + LengthTable(vals[1..])
  }

  function Data(vals: seq<seq<byte>>): seq<byte> {
    if vals == [] then [] else vals[0] + Data(vals[1..])
  }

  datatype Header = Header(ts: nat, tid: nat, kind: nat, nparams: nat)

  function EventSize(vals: seq<seq<byte>>): nat {
    HEADER + 2 * |vals| + |Data(vals)|
  }

  function HeaderBytes(h: Header, len: nat): (b: seq<byte>)
    ensures |b| == HEADER
  {
    LittleEndian(h.ts, 8) + LittleEndian(h.tid, 8) + LittleEndian(len, 4)
    + LittleEndian(h.kind, 2) + LittleEndian(h.nparams, 4)
  }

  function EncodeEvent(h: Header, vals: seq<seq<byte>>): (b: seq<byte>)
    ensures |b| == EventSize(vals)
  {
    HeaderBytes(h, EventSize(vals)) + LengthTable(vals) + Data(vals)
  }

  // ----- Reading it back -----

  /** Cut `b` into pieces as long as the `n` 16-bit entries of `table` say. */
  function Slice(table: seq<byte>, b: seq<byte>, n: nat): Outcome<seq<seq<byte>>>
    requires |table| == 2 * n
    decreases n
  {
    if n == 0 then Ok([]) else
      var len := Value(table[..2]);
      if len > |b| then Bug else
        match Slice(table[2..], b[len..], n - 1)
        case Ok(rest) => Ok([b[..len]] + rest)
        case _ => Bug
  }

  function DecodeArgs(e: seq<byte>): Outcome<seq<seq<byte>>> {
    if |e| < HEADER then Bug else
      var n := Value(e[22..26]);
      if |e| < HEADER + 2 * n then Bug
      else Slice(e[HEADER..HEADER + 2 * n], e[HEADER + 2 * n..], n)
  }

  predicate Small(vals: seq<seq<byte>>) {
    forall i :: 0 <= i < |vals| ==> |vals[i]| < TWO16
  }

  lemma LayoutStep(vals: seq<seq<byte>>)
    requires vals != []
    ensures LengthTable(vals)[..2] == LittleEndian(|vals[0]|, 2) && LengthTable(vals)[2..] == LengthTable(vals[1..])
    ensures |vals[0]| <= |Data(vals)|
    ensures Data(vals)[..|vals[0]|] == vals[0] && Data(vals)[|vals[0]|..] == Data(vals[1..])
  {
    hide Bytes.LittleEndian;
  }

  lemma SmallStep(vals: seq<seq<byte>>)
    requires Small(vals) && vals != []
    ensures |vals[0]| < TWO16 && Small(vals[1..])
  {
  }

  lemma SliceStep(t: seq<byte>, b: seq<byte>, n: nat, rest: seq<seq<byte>>)
    requires |t| == 2 * n && n > 0 && Value(t[..2]) <= |b|
    requires Slice(t[2..], b[Value(t[..2])..], n - 1) == Ok(rest)
    ensures Slice(t, b, n) == Ok([b[..Value(t[..2])]] + rest)
  {
    hide Bytes.Value;
  }

  lemma {:induction false} SliceLayout(vals: seq<seq<byte>>)
    requires Small(vals)
    ensures Slice(LengthTable(vals), Data(vals), |vals|) == Ok(vals)
    decreases |vals|
  {
    if vals != [] {
      hide Bytes.LittleEndian, Bytes.Value, LengthTable, Data, Slice, Small;
      SmallStep(vals);
      LayoutStep(vals);
      WordRoundTrip(|vals[0]|);
      SliceLayout(vals[1..]);
      SliceStep(LengthTable(vals), Data(vals), |vals|, vals[1..]);
      assert vals == [vals[0]] + vals[1..];
    }
  }

  lemma HeaderFields(h: Header, len: nat, rest: seq<byte>)
    requires h.ts < TWO64 && len < TWO32 && h.nparams < TWO32
    ensures var e := HeaderBytes(h, len) + rest;
            Timestamp(e) == h.ts && LengthField(e) == len && Value(e[22..26]) == h.nparams
  {
    hide Bytes.LittleEndian, Bytes.Value;
    var e := HeaderBytes(h, len) + rest;
    WordRoundTrip(h.ts);
    WordRoundTrip(len);
    WordRoundTrip(h.nparams);
    assert e[0..8] == LittleEndian(h.ts, 8);
    assert e[16..20] == LittleEndian(len, 4);
    assert e[22..26] == LittleEndian(h.nparams, 4);
  }

  lemma ThreeParts<T>(a: seq<T>, b: seq<T>, c: seq<T>)
    ensures a + b + c == a + (b + c)
    ensures (a + b + c)[|a|..|a| + |b|] == b && (a + b + c)[|a| + |b|..] == c
  {
  }

  /** Round trip: an encoded event is a whole event, and slicing its payload by its length
      table gives back exactly the arguments. */
  lemma EventRoundTrip(h: Header, vals: seq<seq<byte>>)
    requires h.ts < TWO64 && h.nparams == |vals| < TWO32 && Small(vals) && EventSize(vals) < TWO32
    ensures IsEvent(EncodeEvent(h, vals))
    ensures Timestamp(EncodeEvent(h, vals)) == h.ts
    ensures DecodeArgs(EncodeEvent(h, vals)) == Ok(vals)
  {
    hide Bytes.Value, HeaderBytes, LengthTable, Data, Slice, Events.Timestamp, Events.LengthField;
    var t, d := LengthTable(vals), Data(vals);
    HeaderFields(h, EventSize(vals), t + d);
    SliceLayout(vals);
    ThreeParts(HeaderBytes(h, EventSize(vals)), t, d);
  }

  lemma HeaderWords(h: Header, len: nat, rest: seq<byte>)
    ensures var e := HeaderBytes(h, len) + rest;
            && Value(e[0..8]) == h.ts % TWO64 && Value(e[8..16]) == h.tid % TWO64 && Value(e[16..20]) == len % TWO32
            && Value(e[20..22]) == h.kind % TWO16 && Value(e[22..26]) == h.nparams % TWO32
  {
    Pow256Values();
    hide Bytes.LittleEndian, Bytes.Value, Bytes.Pow256;
    var e := HeaderBytes(h, len) + rest;
    assert e[0..8] == LittleEndian(h.ts, 8) && e[8..16] == LittleEndian(h.tid, 8);
    assert e[16..20] == LittleEndian(len, 4);
    assert e[20..22] == LittleEndian(h.kind, 2) && e[22..26] == LittleEndian(h.nparams, 4);
    ValueOfLittleEndian(h.ts, 8);
    ValueOfLittleEndian(h.tid, 8);
    ValueOfLittleEndian(len, 4);
    ValueOfLittleEndian(h.kind, 2);
    ValueOfLittleEndian(h.nparams, 4);
  }

  lemma {:induction false} LengthPlace(vals: seq<seq<byte>>, i: nat)
    requires i < |vals|
    ensures LengthTable(vals)[2 * i..2 * i + 2] == LittleEndian(|vals[i]|, 2)
    decreases i
  {
    hide Bytes.LittleEndian, LengthTable, Data;
    LayoutStep(vals);
    var t := LengthTable(vals);
    if i == 0 {
      assert t[0..2] == t[..2];
    } else {
      LengthPlace(vals[1..], i - 1);
      SubSlice(t, 2, |t| - 2, 2 * i - 2, 2 * i);
      assert t[2..|t|] == t[2..];
    }
  }

  lemma DataOfFirst(vals: seq<seq<byte>>, i: nat)
    requires i <= |vals|
    ensures |Data(vals[..i])| == if i == 0 then 0 else |vals[0]| + |Data(vals[1..][..i - 1])|
  {
    if i > 0 {
      assert vals[..i][1..] == vals[1..][..i - 1];
    }
  }

  lemma {:induction false} ArgumentPlace(vals: seq<seq<byte>>, i: nat)
    requires i < |vals|
    ensures var at := |Data(vals[..i])|;
            at + |vals[i]| <= |Data(vals)| && Data(vals)[at..at + |vals[i]|] == vals[i]
    decreases i
  {
    hide Data, LengthTable;
    LayoutStep(vals);
    DataOfFirst(vals, i);
    var d, n := Data(vals), |vals[0]|;
    if i == 0 {
      assert d[0..n] == d[..n];
    } else {
      ArgumentPlace(vals[1..], i - 1);
      var at := |Data(vals[1..][..i - 1])|;
      SubSlice(d, n, |d| - n, at, at + |vals[i]|);
      assert d[n..|d|] == d[n..];
    }
  }

  lemma ShortWord(n: nat)
    ensures Value(LittleEndian(n, 2)) == n % TWO16
  {
    Pow256Values();
    ValueOfLittleEndian(n, 2);
  }

  /** The format, byte by byte: where each field, each length and each argument stands. */
  lemma EventLayout(h: Header, vals: seq<seq<byte>>, i: nat)
    requires i < |vals|
    ensures var e := EncodeEvent(h, vals);
            var at := 26 + 2 * |vals| + |Data(vals[..i])|;
            && Value(e[0..8]) == h.ts % TWO64 && Value(e[8..16]) == h.tid % TWO64 && Value(e[16..20]) == |e| % TWO32
            && Value(e[20..22]) == h.kind % TWO16 && Value(e[22..26]) == h.nparams % TWO32
            && Value(e[26 + 2 * i..28 + 2 * i]) == |vals[i]| % TWO16
            && at + |vals[i]| <= |e| && e[at..at + |vals[i]|] == vals[i]
  {
    hide Bytes.LittleEndian, Bytes.Value, LengthTable, Data, HeaderBytes;
    var head, t, d := HeaderBytes(h, EventSize(vals)), LengthTable(vals), Data(vals);
    HeaderWords(h, EventSize(vals), t + d);
    LengthPlace(vals, i);
    ShortWord(|vals[i]|);
    ArgumentPlace(vals, i);
    ThreeParts(head, t, d);
    var e, at := EncodeEvent(h, vals), |Data(vals[..i])|;
    SubSlice(e, HEADER, |t|, 2 * i, 2 * i + 2);
    SubSlice(e, HEADER + |t|, |d|, at, at + |vals[i]|);
    assert e[HEADER + |t|..] == e[HEADER + |t|..HEADER + |t| + |d|];
  }

  // ----- A whole filler -----

  predicate AllKernelMemoryOk(params: seq<ParamType>, args: seq<Arg>) {
    forall i :: 0 <= i < |params| && i < |args| ==> KernelMemoryOk(params[i], args[i])
  }

  /** A filler is any list of calls; it stops at the first that fails. */
  function Filled(params: seq<ParamType>, args: seq<Arg>, space: nat): (r: Outcome<seq<seq<byte>>>)
    requires AllKernelMemoryOk(params, args)
    ensures r.Ok? ==> |r.value| == |args| <= |params| && |Data(r.value)| <= space
    decreases |args|
  {
    if args == [] then Ok([])
    else if params == [] then Bug
    else
      match Encoded(params[0], args[0], space)
      case Ok(b) =>
        assert AllKernelMemoryOk(params[1..], args[1..]);
        (match Filled(params[1..], args[1..], space - |b|)
         case Ok(rest) => Ok([b] + rest)
         case BufferFull => BufferFull
         case InvalidUserMemory => InvalidUserMemory
         case Bug => Bug)
      case BufferFull => BufferFull
      case InvalidUserMemory => InvalidUserMemory
      case Bug => Bug
  }

  lemma FilledShape(params: seq<ParamType>, args: seq<Arg>, space: nat)
    requires AllKernelMemoryOk(params, args)
    ensures Filled(params, args, space).Ok? ==> |Filled(params, args, space).value| == |args| <= |params|
  {
  }

  lemma {:induction false} FilledIsSmall(params: seq<ParamType>, args: seq<Arg>, space: nat)
    requires AllKernelMemoryOk(params, args) && Filled(params, args, space).Ok?
    ensures forall i :: 0 <= i < |args| ==> |Filled(params, args, space).value[i]| <= MAX_ARG_SIZE
    decreases |args|
  {
    if args != [] {
      hide Encoded, Data, KernelMemoryOk;
      var b := Encoded(params[0], args[0], space).value;
      assert AllKernelMemoryOk(params[1..], args[1..]);
      FilledIsSmall(params[1..], args[1..], space - |b|);
    }
  }

  // ----- The law of a filler, call by call -----

  /** The first calls succeed, each with the space that those before it leave. */
  ghost predicate Succeed(params: seq<ParamType>, args: seq<Arg>, space: nat, vals: seq<seq<byte>>)
    requires AllKernelMemoryOk(params, args)
  {
    && |vals| <= |args| && |vals| <= |params| && |Data(vals)| <= space
    && forall k :: 0 <= k < |vals| ==>
         |Data(vals[..k])| <= space && IsArgument(Ok(vals[k]), params[k], args[k], space - |Data(vals[..k])|)
  }

  /** What follows them: nothing, one call too many, or one that fails, and how. */
  ghost predicate Ends(r: Outcome<seq<seq<byte>>>, params: seq<ParamType>, args: seq<Arg>, space: nat,
                       vals: seq<seq<byte>>)
    requires AllKernelMemoryOk(params, args) && Succeed(params, args, space, vals)
  {
    var k := |vals|;
    if k == |args| then r == Ok(vals)
    else if k == |params| then r.Bug?
    else !r.Ok? && IsArgument(Failure(r), params[k], args[k], space - |Data(vals)|)
  }

  lemma SucceedCons(params: seq<ParamType>, args: seq<Arg>, space: nat, b: seq<byte>, rest: seq<seq<byte>>)
    requires AllKernelMemoryOk(params, args) && params != [] && args != []
    requires IsArgument(Ok(b), params[0], args[0], space) && |b| <= space
    requires AllKernelMemoryOk(params[1..], args[1..]) && Succeed(params[1..], args[1..], space - |b|, rest)
    ensures Succeed(params, args, space, [b] + rest)
  {
    hide IsArgument, KernelMemoryOk;
    var vals := [b] + rest;
    assert vals[1..] == rest;
    forall k | 0 <= k < |vals|
      ensures |Data(vals[..k])| <= space && IsArgument(Ok(vals[k]), params[k], args[k], space - |Data(vals[..k])|)
    {
      if k > 0 {
        assert vals[..k][1..] == rest[..k - 1] && vals[..k][0] == b;
        assert |Data(vals[..k])| == |b| + |Data(rest[..k - 1])|;
        assert params[1..][k - 1] == params[k] && args[1..][k - 1] == args[k];
      }
    }
  }

  /** A filler keeps it: up to the first failing call all succeed, and that call decides. */
  lemma {:induction false} FilledLaw(params: seq<ParamType>, args: seq<Arg>, space: nat) returns (vals: seq<seq<byte>>)
    requires AllKernelMemoryOk(params, args)
    ensures Succeed(params, args, space, vals) && Ends(Filled(params, args, space), params, args, space, vals)
    decreases |args|
  {
    hide Encoded, IsArgument, KernelMemoryOk, Data;
    NoData();
    vals := [];
    if args != [] && params != [] {
      EncodedLaw(params[0], args[0], space);
      var e := Encoded(params[0], args[0], space);
      if e.Ok? {
        assert AllKernelMemoryOk(params[1..], args[1..]);
        var rest := FilledLaw(params[1..], args[1..], space - |e.value|);
        vals := [e.value] + rest;
        SucceedCons(params, args, space, e.value, rest);
        DataCons(e.value, rest);
      }
    }
  }

  lemma NoData()
    ensures Data([]) == []
  {
  }

  lemma DataCons(b: seq<byte>, rest: seq<seq<byte>>)
    ensures |Data([b] + rest)| == |b| + |Data(rest)|
  {
    assert ([b] + rest)[1..] == rest;
  }

  lemma {:induction false} SucceedOnly(params: seq<ParamType>, args: seq<Arg>, space: nat, vals: seq<seq<byte>>,
                                       vals': seq<seq<byte>>, k: nat)
    requires AllKernelMemoryOk(params, args) && Succeed(params, args, space, vals)
    requires Succeed(params, args, space, vals') && k <= |vals| && k <= |vals'|
    ensures vals[..k] == vals'[..k]
    decreases k
  {
    hide IsArgument, KernelMemoryOk;
    if k > 0 {
      SucceedOnly(params, args, space, vals, vals', k - 1);
      var left := space - |Data(vals[..k - 1])|;
      ArgumentOnly(Ok(vals[k - 1]), Ok(vals'[k - 1]), params[k - 1], args[k - 1], left);
      assert vals[..k] == vals[..k - 1] + [vals[k - 1]] && vals'[..k] == vals'[..k - 1] + [vals'[k - 1]];
    }
  }

  /** ... and nothing else does. */
  lemma FilledOnly(params: seq<ParamType>, args: seq<Arg>, space: nat, vals: seq<seq<byte>>,
                   r: Outcome<seq<seq<byte>>>)
    requires AllKernelMemoryOk(params, args) && Succeed(params, args, space, vals)
    requires Ends(r, params, args, space, vals)
    ensures r == Filled(params, args, space)
  {
    hide IsArgument, KernelMemoryOk, Filled;
    var own := FilledLaw(params, args, space);
    var k := Min(|vals|, |own|);
    SucceedOnly(params, args, space, vals, own, k);
    assert vals[..|vals|] == vals && own[..|own|] == own;
    if |vals| < |own| {
      ArgumentOnly(Failure(r), Ok(own[k]), params[k], args[k], space - |Data(vals)|);
    } else if |own| < |vals| {
      ArgumentOnly(Failure(Filled(params, args, space)), Ok(vals[k]), params[k], args[k], space - |Data(own)|);
    } else if !r.Ok? && k < |params| {
      ArgumentOnly(Failure(r), Failure(Filled(params, args, space)), params[k], args[k], space - |Data(own)|);
    }
  }
}
