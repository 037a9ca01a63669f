/** The serialiser at work: arguments written one by one into the ring buffer behind the
    event header, under a space budget. */
module EventFiller {
  import opened Bytes
  import opened Events
  import opened UserCopy
  import opened ArgEncoding

  // ----- Stores and what they leave alone -----

  /** Only bytes `lo` to `hi` (exclusive) differ. */
  predicate Within(was: seq<byte>, mem: seq<byte>, lo: nat, hi: nat) {
    |mem| == |was| && lo <= hi <= |was| && mem[..lo] == was[..lo] && mem[hi..] == was[hi..]
  }

  lemma WithinWider(was: seq<byte>, mem: seq<byte>, lo: nat, hi: nat, lo': nat, hi': nat)
    requires Within(was, mem, lo, hi) && lo' <= lo && hi <= hi' <= |was|
    ensures Within(was, mem, lo', hi')
  {
    assert mem[..lo'] == mem[..lo][..lo'] == was[..lo][..lo'] == was[..lo'];
    assert mem[hi'..] == mem[hi..][hi' - hi..] == was[hi..][hi' - hi..] == was[hi'..];
  }

  lemma WithinTwice(was: seq<byte>, mid: seq<byte>, mem: seq<byte>, lo: nat, hi: nat)
    requires Within(was, mid, lo, hi) && Within(mid, mem, lo, hi)
    ensures Within(was, mem, lo, hi)
  {
  }

  /** A range outside the stores reads as before. */
  lemma WithinKeeps(was: seq<byte>, mem: seq<byte>, lo: nat, hi: nat, i: nat, j: nat)
    requires Within(was, mem, lo, hi) && i <= j <= |was| && (j <= lo || hi <= i)
    ensures |mem| == |was| && mem[i..j] == was[i..j]
  {
    if j <= lo {
      SubSlice(mem, 0, lo, i, j);
      SubSlice(was, 0, lo, i, j);
    } else {
      SubSlice(mem, hi, |mem| - hi, i - hi, j - hi);
      SubSlice(was, hi, |was| - hi, i - hi, j - hi);
    }
  }

  /** `memcpy` of `b` to offset `at`. */
  method Store(buffer: array<byte>, at: nat, b: seq<byte>)
    requires at + |b| <= buffer.Length
    modifies buffer
    ensures Within(old(buffer[..]), buffer[..], at, at + |b|)
    ensures buffer[..][at..at + |b|] == b
  {
    for j := 0 to |b|
      invariant buffer[..at] == old(buffer[..at]) && buffer[at + |b|..] == old(buffer[at + |b|..])
      invariant buffer[at..at + j] == b[..j]
    {
      buffer[at + j] := b[j];
      assert buffer[at..at + j + 1] == buffer[at..at + j] + [b[j]];
    }
  }

  // ----- One value -----

  /** Outcomes that agree but for the bytes. */
  predicate SameOutcome(r: Outcome<nat>, b: Outcome<seq<byte>>) {
    match b
    case Ok(v) => r == Ok(|v|)
    case BufferFull => r.BufferFull?
    case InvalidUserMemory => r.InvalidUserMemory?
    case Bug => r.Bug?
  }

  /** Strings.  The terminator is stored one byte past the counted length, which is the one
      store that can land just past the space left. */
  method WriteString(buffer: array<byte>, at: nat, a: Arg, max: nat) returns (r: Outcome<nat>)
    requires KernelMemoryOk(CharBuf, a) && at + max < buffer.Length
    modifies buffer
    ensures SameOutcome(r, Payload(CharBuf, a, max))
    ensures Within(old(buffer[..]), buffer[..], at, at + max + 1)
    ensures r.Ok? ==> buffer[..][at..at + r.value] == Payload(CharBuf, a, max).value
  {
    hide UserCopy.NulIndex, UserCopy.Chunked, Within, UserCopy.Copied;
    ghost var was := buffer[..];
    if a.val == 0 {
      var n := StrlCpy(buffer, at, NULL_STRING, max);
      return Ok(n);
    }
    var len;
    if a.fromUser {
      len := StrNCpyFromUser(buffer, at, a.mem, max);
      WithinOf(was, buffer[..], at, max);
      if len < 0 {
        return InvalidUserMemory;
      }
      CopiedReads(was, buffer[..], at, max, a.mem, len);
    } else {
      len := StrlCpy(buffer, at, CString(a.mem), max);
    }
    ghost var mid := buffer[..];
    Store(buffer, at + len, [0]);
    WithinKeeps(mid, buffer[..], at + len, at + len + 1, at, at + len);
    WithinWider(mid, buffer[..], at + len, at + len + 1, at, at + max + 1);
    WithinTwice(was, mid, buffer[..], at, at + max + 1);
    r := Ok(len);
  }

  lemma WithinOf(was: seq<byte>, mem: seq<byte>, at: nat, max: nat)
    requires |mem| == |was| && at + max < |was| && mem[..at] == was[..at] && mem[at + max..] == was[at + max..]
    ensures Within(was, mem, at, at + max + 1)
  {
    assert mem[at + max + 1..] == mem[at + max..][1..] == was[at + max..][1..];
  }

  lemma CopiedReads(was: seq<byte>, mem: seq<byte>, at: nat, n: nat, from: seq<byte>, done: nat)
    requires Copied(was, mem, at, n, from, done)
    ensures done <= n && done <= |from| && mem[at..at + done] == from[..done]
  {
  }

  /** `strlcpy`, and the count the serialiser makes of it. */
  method StrlCpy(buffer: array<byte>, at: nat, str: seq<byte>, max: nat) returns (n: nat)
    requires at + max < buffer.Length
    modifies buffer
    ensures n == |StringBytes(str, max)| && buffer[..][at..at + n] == StringBytes(str, max)
    ensures Within(old(buffer[..]), buffer[..], at, at + max + 1)
  {
    hide Within;
    ghost var was := buffer[..];
    if max > 0 {
      var kept := if |str| >= max then max - 1 else |str|;
      assert |str| + 1 <= max ==> str[..kept] == str;
      Store(buffer, at, str[..kept] + [0]);
      WithinWider(was, buffer[..], at, at + kept + 1, at, at + max + 1);
    } else {
      WithinSelf(was, at, at + max + 1);
    }
    n := |str| + 1;
    if n > max {
      n := max;
    }
  }

  lemma WithinSelf(was: seq<byte>, lo: nat, hi: nat)
    requires lo <= hi <= |was|
    ensures Within(was, was, lo, hi)
  {
  }

  /** User or kernel bytes of a known length. */
  method WriteBytes(buffer: array<byte>, at: nat, a: Arg, n: nat, max: nat) returns (r: Outcome<nat>)
    requires n <= max && at + max < buffer.Length && (!a.fromUser ==> n <= |a.mem|)
    modifies buffer
    ensures r == if a.fromUser && |a.mem| < n then InvalidUserMemory else Ok(n)
    ensures Within(old(buffer[..]), buffer[..], at, at + max + 1)
    ensures r.Ok? ==> buffer[..][at..at + n] == a.mem[..n]
  {
    hide Within;
    ghost var was := buffer[..];
    if a.fromUser {
      var left := CopyFromUser(buffer, at, a.mem, n);
      WithinFrom(was, buffer[..], at, at + n);
      WithinWider(was, buffer[..], at, at + n, at, at + max + 1);
      r := if left != 0 then InvalidUserMemory else Ok(n);
    } else {
      Store(buffer, at, a.mem[..n]);
      WithinWider(was, buffer[..], at, at + n, at, at + max + 1);
      r := Ok(n);
    }
  }

  lemma WithinFrom(was: seq<byte>, mem: seq<byte>, lo: nat, hi: nat)
    requires |mem| == |was| && lo <= hi <= |was| && mem[..lo] == was[..lo] && mem[hi..] == was[hi..]
    ensures Within(was, mem, lo, hi)
  {
  }

  /** The second copy of a user buffer: `have` bytes are in place, `n` are wanted. */
  method ExtendBytes(buffer: array<byte>, at: nat, a: Arg, have: nat, n: nat, max: nat) returns (r: Outcome<nat>)
    requires a.fromUser && have <= n <= max && have <= |a.mem| && at + max < buffer.Length
    requires buffer[..][at..at + have] == a.mem[..have]
    modifies buffer
    ensures r == if |a.mem| < n then InvalidUserMemory else Ok(n)
    ensures Within(old(buffer[..]), buffer[..], at, at + max + 1)
    ensures r.Ok? ==> buffer[..][at..at + n] == a.mem[..n]
  {
    hide Within;
    ghost var was := buffer[..];
    var left := CopyFromUser(buffer, at + have, a.mem[have..], n - have);
    WithinFrom(was, buffer[..], at + have, at + n);
    WithinWider(was, buffer[..], at + have, at + n, at, at + max + 1);
    if left != 0 {
      return InvalidUserMemory;
    }
    WithinKeeps(was, buffer[..], at + have, at + n, at, at + have);
    Glued(buffer[..], at, a.mem, have, n - have);
    r := Ok(n);
  }

  /** A byte buffer from user space: first the part used to decide the snaplen, then, if
      more is wanted, the rest. */
  method WriteUserBuf(buffer: array<byte>, at: nat, a: Arg, max: nat) returns (r: Outcome<nat>)
    requires a.val != 0 && a.fromUser && at + max < buffer.Length
    modifies buffer
    ensures SameOutcome(r, Payload(ByteBuf, a, max))
    ensures Within(old(buffer[..]), buffer[..], at, at + max + 1)
    ensures r.Ok? ==> buffer[..][at..at + r.value] == Payload(ByteBuf, a, max).value
  {
    hide Within;
    ghost var was := buffer[..];
    WithinSelf(was, at, at + max + 1);
    var ahead := Min(DPI_LOOKAHEAD, a.valLen);
    if ahead >= max {
      return BufferFull;
    }
    r := WriteBytes(buffer, at, a, ahead, max);
    if !r.Ok? || ahead == a.valLen {
      return;
    }
    var valLen := a.valLen;
    if a.enforceSnaplen && valLen > a.snaplen {
      valLen := a.snaplen;
    }
    if valLen >= max {
      valLen := max;
    }
    assert valLen == UserBufLen(a, max);
    if valLen > ahead {
      ghost var mid := buffer[..];
      r := ExtendBytes(buffer, at, a, ahead, valLen, max);
      WithinTwice(was, mid, buffer[..], at, at + max + 1);
    } else {
      SubSlice(buffer[..], at, ahead, 0, valLen);
      assert a.mem[..ahead][..valLen] == a.mem[..valLen];
      r := Ok(valLen);
    }
  }

  /** The switch on the parameter type. */
  method WriteValue(buffer: array<byte>, at: nat, p: ParamType, a: Arg, max: nat) returns (r: Outcome<nat>)
    requires (p.Dyn? || KernelMemoryOk(p, a)) && at + max < buffer.Length
    modifies buffer
    ensures SameOutcome(r, Payload(p, a, max))
    ensures Within(old(buffer[..]), buffer[..], at, at + max + 1)
    ensures r.Ok? ==> buffer[..][at..at + r.value] == Payload(p, a, max).value
  {
    hide Within, Bytes.LittleEndian, UserCopy.NulIndex, UserCopy.Chunked;
    ghost var was := buffer[..];
    WithinSelf(was, at, at + max + 1);
    match p
    case CharBuf =>
      r := WriteString(buffer, at, a, max);
    case ByteBuf =>
      if a.val == 0 {
        r := Ok(0);
      } else if a.fromUser {
        r := WriteUserBuf(buffer, at, a, max);
      } else {
        var n := Capped(a.valLen, a);
        if n >= max {
          return BufferFull;
        }
        r := WriteBytes(buffer, at, a, n, max);
      }
    case Blob =>
      if a.val == 0 {
        r := Ok(0);
      } else {
        if a.valLen >= max {
          return BufferFull;
        }
        r := WriteBytes(buffer, at, a, a.valLen, max);
      }
    case Fixed(w) =>
      if max < w {
        return BufferFull;
      }
      Store(buffer, at, LittleEndian(a.val, w));
      WithinWider(was, buffer[..], at, at + w, at, at + max + 1);
      r := Ok(w);
    case Dyn(_) =>
      r := Bug;
    case Unhandled =>
      r := Bug;
  }

  // ----- Layout of the arguments written so far -----

  /** The length slots and the data of `vals` are in place, for an event of `n` parameters
      whose slots start at `base`. */
  predicate Layout(mem: seq<byte>, base: nat, n: nat, vals: seq<seq<byte>>) {
    && |vals| <= n
    && base + 2 * n + |Data(vals)| <= |mem|
    && mem[base..base + 2 * |vals|] == LengthTable(vals)
    && mem[base + 2 * n..base + 2 * n + |Data(vals)|] == Data(vals)
  }

  lemma TableCons(b: seq<byte>, rest: seq<seq<byte>>)
    ensures LengthTable([b] + rest) == LittleEndian(|b|, 2) + LengthTable(rest) && Data([b] + rest) == b + Data(rest)
    ensures LengthTable([]) == [] && Data([]) == []
  {
    hide Bytes.LittleEndian;
    assert ([b] + rest)[1..] == rest;
  }

  lemma {:induction false} TableAppend(vals: seq<seq<byte>>, b: seq<byte>)
    ensures LengthTable(vals + [b]) == LengthTable(vals) + LittleEndian(|b|, 2)
    ensures Data(vals + [b]) == Data(vals) + b
    decreases |vals|
  {
    hide Bytes.LittleEndian, LengthTable, Data;
    if vals == [] {
      TableCons(b, []);
      assert [b] + [] == [b] && vals + [b] == [b];
      assert [] + b == b == b + [];
      assert [] + LittleEndian(|b|, 2) == LittleEndian(|b|, 2) == LittleEndian(|b|, 2) + [];
    } else {
      var v, rest := vals[0], vals[1..];
      TableAppend(rest, b);
      TableCons(v, rest);
      TableCons(v, rest + [b]);
      assert vals == [v] + rest && vals + [b] == [v] + (rest + [b]);
      AppendAssociates(LittleEndian(|v|, 2), LengthTable(rest), LittleEndian(|b|, 2));
      AppendAssociates(v, Data(rest), b);
    }
  }

  /** One more argument: its slot and its data follow those already there. */
  lemma LayoutGrows(mem: seq<byte>, base: nat, n: nat, vals: seq<seq<byte>>, b: seq<byte>, slot: nat, at: nat)
    requires |vals| < n && slot == base + 2 * |vals| && at == base + 2 * n + |Data(vals)| && at + |b| <= |mem|
    requires mem[base..slot] == LengthTable(vals) && mem[slot..slot + 2] == LittleEndian(|b|, 2)
    requires mem[base + 2 * n..at] == Data(vals) && mem[at..at + |b|] == b
    ensures Layout(mem, base, n, vals + [b])
  {
    hide Bytes.LittleEndian, LengthTable, Data;
    TableAppend(vals, b);
    SliceSplit(mem, base, slot, slot + 2);
    SliceSplit(mem, base + 2 * n, at, at + |b|);
    assert |Data(vals + [b])| == |Data(vals)| + |b|;
  }

  /** Nothing changed before the slot, between the slot and the data, or past `end`. */
  predicate Elsewhere(was: seq<byte>, mem: seq<byte>, slot: nat, at: nat, end: nat) {
    && |mem| == |was| && slot + 2 <= at <= end <= |was|
    && mem[..slot] == was[..slot] && mem[slot + 2..at] == was[slot + 2..at] && mem[end..] == was[end..]
  }

  lemma StoreElsewhere(was: seq<byte>, mem: seq<byte>, lo: nat, hi: nat, slot: nat, at: nat, end: nat)
    requires Within(was, mem, lo, hi) && slot + 2 <= at <= end <= |was|
    requires (lo == slot && hi == slot + 2) || (at <= lo && hi <= end)
    ensures Elsewhere(was, mem, slot, at, end)
  {
    WithinKeeps(was, mem, lo, hi, 0, slot);
    WithinKeeps(was, mem, lo, hi, slot + 2, at);
    WithinKeeps(was, mem, lo, hi, end, |was|);
  }

  lemma ElsewhereTwice(was: seq<byte>, mid: seq<byte>, mem: seq<byte>, slot: nat, at: nat, end: nat)
    requires Elsewhere(was, mid, slot, at, end) && Elsewhere(mid, mem, slot, at, end)
    ensures Elsewhere(was, mem, slot, at, end)
  {
  }

  lemma ElsewhereLayout(was: seq<byte>, mem: seq<byte>, end: nat, base: nat, n: nat, vals: seq<seq<byte>>, b: seq<byte>)
    requires Layout(was, base, n, vals) && |vals| < n
    requires Elsewhere(was, mem, base + 2 * |vals|, base + 2 * n + |Data(vals)|, end)
    requires base + 2 * n + |Data(vals)| + |b| <= |mem|
    requires mem[base + 2 * |vals|..base + 2 * |vals| + 2] == LittleEndian(|b|, 2)
    requires mem[base + 2 * n + |Data(vals)|..base + 2 * n + |Data(vals)| + |b|] == b
    ensures Layout(mem, base, n, vals + [b])
    ensures Within(was, mem, base, end)
  {
    hide Bytes.LittleEndian, LengthTable, Data;
    var slot, at := base + 2 * |vals|, base + 2 * n + |Data(vals)|;
    SubSlice(mem, 0, slot, base, slot);
    SubSlice(was, 0, slot, base, slot);
    SubSlice(mem, slot + 2, at - slot - 2, base + 2 * n - slot - 2, at - slot - 2);
    SubSlice(was, slot + 2, at - slot - 2, base + 2 * n - slot - 2, at - slot - 2);
    LayoutGrows(mem, base, n, vals, b, slot, at);
    ElsewhereWithin(was, mem, slot, at, end, base);
  }

  lemma ElsewhereWithin(was: seq<byte>, mem: seq<byte>, slot: nat, at: nat, end: nat, base: nat)
    requires Elsewhere(was, mem, slot, at, end) && base <= slot
    ensures Within(was, mem, base, end)
  {
    assert mem[..base] == mem[..slot][..base] && was[..base] == was[..slot][..base];
  }

  // ----- One argument -----

  /** The start of an argument: the index byte of a dynamic parameter, and a length slot
      that counts it. */
  method BeginArg(buffer: array<byte>, slot: nat, at: nat, lead: seq<byte>, ghost end: nat)
    requires slot + 2 <= at && at + |lead| <= end <= buffer.Length
    modifies buffer
    ensures Elsewhere(old(buffer[..]), buffer[..], slot, at, end)
    ensures buffer[..][at..at + |lead|] == lead && buffer[..][slot..slot + 2] == LittleEndian(|lead|, 2)
  {
    hide Within, Elsewhere, Bytes.LittleEndian;
    ghost var was := buffer[..];
    Store(buffer, at, lead);
    ghost var mid := buffer[..];
    StoreElsewhere(was, mid, at, at + |lead|, slot, at, end);
    Store(buffer, slot, LittleEndian(|lead|, 2));
    StoreElsewhere(mid, buffer[..], slot, slot + 2, slot, at, end);
    ElsewhereTwice(was, mid, buffer[..], slot, at, end);
    WithinKeeps(mid, buffer[..], slot, slot + 2, at, at + |lead|);
  }

  /** The rest of an argument: the value behind the `d` bytes already there, then its length
      added to the 16-bit slot. */
  method FinishArg(buffer: array<byte>, slot: nat, at: nat, d: nat, p: ParamType, a: Arg,
      max: nat) returns (r: Outcome<nat>)
    requires (p.Dyn? || KernelMemoryOk(p, a)) && slot + 2 <= at && at + d + max < buffer.Length && d + max < TWO16
    requires buffer[..][slot..slot + 2] == LittleEndian(d, 2)
    modifies buffer
    ensures SameOutcome(r, Payload(p, a, max))
    ensures Elsewhere(old(buffer[..]), buffer[..], slot, at, at + d + max + 1)
    ensures r.Ok? ==> buffer[..][at..at + d + r.value] == old(buffer[..])[at..at + d] + Payload(p, a, max).value
    ensures r.Ok? ==> buffer[..][slot..slot + 2] == LittleEndian(d + r.value, 2)
  {
    hide Within, Elsewhere, Bytes.LittleEndian, Bytes.Value, Payload, KernelMemoryOk;
    ghost var was, end := buffer[..], at + d + max + 1;
    r := WriteValue(buffer, at + d, p, a, max);
    ghost var mid := buffer[..];
    StoreElsewhere(was, mid, at + d, end, slot, at, end);
    if !r.Ok? {
      return;
    }
    WithinKeeps(was, mid, at + d, end, slot, slot + 2);
    AddLength(buffer, slot, d, r.value);
    ArgFinished(was, mid, buffer[..], slot, at, d, r.value, end);
  }

  lemma ArgFinished(was: seq<byte>, mid: seq<byte>, mem: seq<byte>, slot: nat, at: nat, d: nat, n: nat, end: nat)
    requires slot + 2 <= at && at + d + n <= end && Within(was, mid, at + d, end) && Within(mid, mem, slot, slot + 2)
    ensures Elsewhere(was, mem, slot, at, end)
    ensures |was| == |mid| == |mem| && end <= |was|
    ensures mem[at..at + d + n] == was[at..at + d] + mid[at + d..at + d + n]
  {
    WithinShape(was, mid, at + d, end);
    hide Within, Elsewhere;
    StoreElsewhere(was, mid, at + d, end, slot, at, end);
    StoreElsewhere(mid, mem, slot, slot + 2, slot, at, end);
    ElsewhereTwice(was, mid, mem, slot, at, end);
    WithinKeeps(was, mid, at + d, end, at, at + d);
    WithinKeeps(mid, mem, slot, slot + 2, at, at + d + n);
    SliceSplit(mid, at, at + d, at + d + n);
  }

  lemma WithinShape(was: seq<byte>, mem: seq<byte>, lo: nat, hi: nat)
    requires Within(was, mem, lo, hi)
    ensures |mem| == |was| && lo <= hi <= |was|
  {
  }

  /** `*psize += len` on the 16-bit slot. */
  method AddLength(buffer: array<byte>, slot: nat, d: nat, len: nat)
    requires slot + 2 <= buffer.Length && d + len < TWO16 && buffer[..][slot..slot + 2] == LittleEndian(d, 2)
    modifies buffer
    ensures Within(old(buffer[..]), buffer[..], slot, slot + 2)
    ensures buffer[..][slot..slot + 2] == LittleEndian(d + len, 2)
  {
    hide Within, Bytes.LittleEndian, Bytes.Value;
    WordRoundTrip(d);
    var psize := Value(buffer[slot..slot + 2]);
    Store(buffer, slot, LittleEndian((psize + len) % TWO16, 2));
  }

  /** A whole argument: its leading bytes, its value and its length. */
  method PutArg(buffer: array<byte>, slot: nat, at: nat, lead: seq<byte>, p: ParamType, a: Arg, max: nat,
                ghost end: nat)
    returns (r: Outcome<nat>)
    requires (p.Dyn? || KernelMemoryOk(p, a)) && slot + 2 <= at && at + |lead| + max < end <= buffer.Length
    requires |lead| + max < TWO16
    modifies buffer
    ensures SameOutcome(r, Payload(p, a, max))
    ensures Elsewhere(old(buffer[..]), buffer[..], slot, at, end)
    ensures r.Ok? ==> buffer[..][at..at + |lead| + r.value] == lead + Payload(p, a, max).value
    ensures r.Ok? ==> buffer[..][slot..slot + 2] == LittleEndian(|lead| + r.value, 2)
  {
    hide Within, Elsewhere, Bytes.LittleEndian, Payload, KernelMemoryOk;
    ghost var was := buffer[..];
    BeginArg(buffer, slot, at, lead, end);
    ghost var mid := buffer[..];
    r := FinishArg(buffer, slot, at, |lead|, p, a, max);
    ElsewhereWider(mid, buffer[..], slot, at, at + |lead| + max + 1, end);
    ElsewhereTwice(was, mid, buffer[..], slot, at, end);
  }

  /** An argument put behind those already there. */
  method PutEncoded(buffer: array<byte>, base: nat, params: seq<ParamType>, curarg: nat, at: nat, lead: seq<byte>,
                    q: ParamType, a: Arg, max: nat, ghost vals: seq<seq<byte>>, ghost end: nat)
    returns (r: Outcome<nat>)
    requires Layout(buffer[..], base, |params|, vals) && curarg == |vals| < |params|
    requires at == base + 2 * |params| + |Data(vals)| && at + |lead| + max < end <= buffer.Length
    requires KernelMemoryOk(params[curarg], a) && Selects(params[curarg], a, lead, q)
    requires |lead| + max <= MAX_ARG_SIZE && 0 < |lead| + max
    modifies buffer
    ensures var encoded := Encoded(params[curarg], a, |lead| + max);
            && SameOutcome(r, encoded)
            && (r.Ok? ==> |lead| <= r.value && Layout(buffer[..], base, |params|, vals + [encoded.value]))
    ensures Within(old(buffer[..]), buffer[..], base, end)
  {
    hide Within, Elsewhere, Layout, LengthTable, Data, Bytes.LittleEndian, Encoded, Payload, KernelMemoryOk,
      UserCopy.Prefixed, Selects;
    ghost var was, encoded := buffer[..], Encoded(params[curarg], a, |lead| + max);
    EncodedParts(params[curarg], a, |lead| + max, lead, q, max);
    LayoutRoom(was, base, |params|, vals);
    var slot := base + 2 * curarg;
    r := PutArg(buffer, slot, at, lead, q, a, max, end);
    EncodedOutcome(lead, Payload(q, a, max), encoded, r);
    ElsewhereWithin(was, buffer[..], slot, at, end, base);
    if r.Ok? {
      ElsewhereLayout(was, buffer[..], end, base, |params|, vals, encoded.value);
      r := Ok(|lead| + r.value);
    }
  }

  lemma LayoutRoom(mem: seq<byte>, base: nat, n: nat, vals: seq<seq<byte>>)
    requires Layout(mem, base, n, vals)
    ensures base + 2 * n + |Data(vals)| <= |mem|
  {
  }

  /** More space than the longest argument makes no difference. */
  lemma EncodedCapped(p: ParamType, a: Arg, space: nat)
    requires KernelMemoryOk(p, a)
    ensures Encoded(p, a, space) == Encoded(p, a, Min(space, MAX_ARG_SIZE))
  {
    hide Payload;
  }

  lemma EncodedFits(p: ParamType, a: Arg, space: nat)
    requires KernelMemoryOk(p, a) && Encoded(p, a, space).Ok?
    ensures |Encoded(p, a, space).value| <= space
  {
  }

  /** The per-event state of the serialiser: `struct event_filler_arguments`. */
  class EventArgs {
    const buffer: array<byte>
    const base: nat
    const params: seq<ParamType>
    var curarg: nat
    var argDataOffset: nat
    var argDataSize: nat
    ghost var vals: seq<seq<byte>>
    ghost const limit: nat

    /** Offset and remaining size always add up to the space granted at the start; one byte
        past that space still belongs to the buffer. */
    ghost predicate Valid()
      reads this, buffer
    {
      && base + limit < buffer.Length
      && argDataOffset + argDataSize == limit
      && argDataOffset == 2 * |params| + |Data(vals)|
      && curarg == |vals| <= |params|
      && Layout(buffer[..], base, |params|, vals)
    }

    constructor (buffer: array<byte>, base: nat, params: seq<ParamType>, bufferSize: nat)
      requires 2 * |params| <= bufferSize && base + bufferSize < buffer.Length
      ensures Valid() && this.buffer == buffer && this.base == base && this.params == params
      ensures limit == bufferSize && vals == [] && curarg == 0
      ensures argDataOffset == 2 * |params| && argDataSize == bufferSize - 2 * |params|
    {
      this.buffer, this.base, this.params, this.limit := buffer, base, params, bufferSize;
      curarg, argDataOffset, argDataSize := 0, 2 * |params|, bufferSize - 2 * |params|;
      vals := [];
    }

    /** `val_to_ring`. */
    method ValToRing(a: Arg) returns (r: Outcome<nat>)
      requires Valid() && (curarg < |params| ==> KernelMemoryOk(params[curarg], a))
      modifies this`curarg, this`argDataOffset, this`argDataSize, this`vals, buffer
      ensures old(curarg) == |params| ==> r == Bug
      ensures old(curarg) < |params| ==>
                if r.Ok? then
                  |vals| == |old(vals)| + 1 && r.value == |vals[|old(vals)|]|
                  && IsArgument(Ok(vals[|old(vals)|]), params[old(curarg)], a, old(argDataSize))
                else IsArgument(Failure(r), params[old(curarg)], a, old(argDataSize))
      ensures old(curarg) < |params| ==> SameOutcome(r, Encoded(params[old(curarg)], a, old(argDataSize)))
      ensures r.Ok? ==> Valid() && vals == old(vals) + [Encoded(params[old(curarg)], a, old(argDataSize)).value]
      ensures r.Ok? ==> argDataSize == old(argDataSize) - r.value
      ensures Within(old(buffer[..]), buffer[..], base, base + limit + 1)
    {
      hide Within, Elsewhere, Layout, LengthTable, Data, Bytes.LittleEndian, Encoded, Payload, KernelMemoryOk,
        UserCopy.Prefixed, IsArgument;
      ghost var was := buffer[..];
      WithinSelf(was, base, base + limit + 1);
      if curarg >= |params| {
        return Bug;
      }
      EncodedLaw(params[curarg], a, argDataSize);
      if argDataSize == 0 {
        EncodedNoSpace(params[curarg], a);
        return BufferFull;
      }
      var p, max := params[curarg], Min(argDataSize, MAX_ARG_SIZE);
      if p.Dyn? {
        if a.dynIdx as int >= |p.info| {
          EncodedBadIndex(p, a, argDataSize);
          return Bug;
        }
        r := AppendArg(a, [a.dynIdx], p.info[a.dynIdx as int], max - 1);
      } else {
        r := AppendArg(a, [], p, max);
      }
    }

    /** A filler: its calls in order, up to the first that fails. */
    method RunFiller(args: seq<Arg>) returns (r: Outcome<nat>)
      requires Valid() && vals == [] && AllKernelMemoryOk(params, args)
      modifies this`curarg, this`argDataOffset, this`argDataSize, this`vals, buffer
      ensures SameStatus(r, Filled(params, args, old(argDataSize)))
      ensures r.Ok? ==> Valid() && vals == Filled(params, args, old(argDataSize)).value
      ensures Within(old(buffer[..]), buffer[..], base, base + limit + 1)
    {
      hide Within, Layout, Data, Encoded, KernelMemoryOk, AllKernelMemoryOk, Filled, FilledFrom, Appended;
      ghost var was, space := buffer[..], argDataSize;
      WithinSelf(was, base, base + limit + 1);
      FilledStart(params, args, space);
      for k := 0 to |args|
        invariant Valid() && curarg == k
        invariant Filled(params, args, space) == Appended(vals, FilledFrom(params, args, k, argDataSize))
        invariant Within(was, buffer[..], base, base + limit + 1)
      {
        FilledStep(params, args, k, argDataSize, vals);
        ghost var mid := buffer[..];
        r := ValToRing(args[k]);
        WithinTwice(was, mid, buffer[..], base, base + limit + 1);
        if !r.Ok? {
          return;
        }
      }
      FilledEnd(params, args, argDataSize, vals);
      r := Ok(0);
    }

    /** The argument is written and accounted for; `lead` is the index byte of a dynamic
        parameter, if any, and `q` the type it selects. */
    method AppendArg(a: Arg, lead: seq<byte>, q: ParamType, max: nat) returns (r: Outcome<nat>)
      requires Valid() && curarg < |params| && argDataSize > 0 && KernelMemoryOk(params[curarg], a)
      requires Selects(params[curarg], a, lead, q) && max == Min(argDataSize, MAX_ARG_SIZE) - |lead|
      modifies this`curarg, this`argDataOffset, this`argDataSize, this`vals, buffer
      ensures SameOutcome(r, Encoded(params[old(curarg)], a, old(argDataSize)))
      ensures r.Ok? ==> Valid() && vals == old(vals) + [Encoded(params[old(curarg)], a, old(argDataSize)).value]
      ensures r.Ok? ==> argDataSize == old(argDataSize) - r.value
      ensures Within(old(buffer[..]), buffer[..], base, base + limit + 1)
    {
      hide Within, Layout, Data, Encoded, KernelMemoryOk, Selects;
      ghost var encoded := Encoded(params[curarg], a, argDataSize);
      EncodedCapped(params[curarg], a, argDataSize);
      var at := base + argDataOffset;
      argDataOffset, argDataSize := argDataOffset + |lead|, argDataSize - |lead|;
      r := PutEncoded(buffer, base, params, curarg, at, lead, q, a, max, vals, base + limit + 1);
      if !r.Ok? {
        return;
      }
      EncodedFits(params[curarg], a, argDataSize + |lead|);
      TableAppend(vals, encoded.value);
      curarg, argDataOffset := curarg + 1, argDataOffset + r.value - |lead|;
      argDataSize := argDataSize - (r.value - |lead|);
      vals := vals + [encoded.value];
    }
  }

  // ----- A filler as a value -----

  predicate SameStatus(r: Outcome<nat>, b: Outcome<seq<seq<byte>>>) {
    match b
    case Ok(_) => r.Ok?
    case BufferFull => r.BufferFull?
    case InvalidUserMemory => r.InvalidUserMemory?
    case Bug => r.Bug?
  }

  /** The outcome of the calls from the `k`-th on. */
  function FilledFrom(params: seq<ParamType>, args: seq<Arg>, k: nat, space: nat): Outcome<seq<seq<byte>>>
    requires AllKernelMemoryOk(params, args) && k <= |args| && k <= |params|
  {
    assert AllKernelMemoryOk(params[k..], args[k..]);
    Filled(params[k..], args[k..], space)
  }

  function Appended(vals: seq<seq<byte>>, r: Outcome<seq<seq<byte>>>): Outcome<seq<seq<byte>>> {
    if r.Ok? then Ok(vals + r.value) else r
  }

  lemma FilledStart(params: seq<ParamType>, args: seq<Arg>, space: nat)
    requires AllKernelMemoryOk(params, args)
    ensures Filled(params, args, space) == Appended([], FilledFrom(params, args, 0, space))
  {
    hide Filled;
    assert params[0..] == params && args[0..] == args;
    if Filled(params, args, space).Ok? {
      assert [] + Filled(params, args, space).value == Filled(params, args, space).value;
    }
  }

  lemma FilledEnd(params: seq<ParamType>, args: seq<Arg>, space: nat, vals: seq<seq<byte>>)
    requires AllKernelMemoryOk(params, args) && |args| <= |params|
    ensures Appended(vals, FilledFrom(params, args, |args|, space)) == Ok(vals)
  {
    assert args[|args|..] == [];
    assert vals + [] == vals;
  }

  lemma FilledStep(params: seq<ParamType>, args: seq<Arg>, k: nat, space: nat, vals: seq<seq<byte>>)
    requires AllKernelMemoryOk(params, args) && k < |args| && k <= |params|
    ensures k == |params| ==> FilledFrom(params, args, k, space) == Bug && Appended(vals, Bug) == Bug
    ensures k < |params| ==>
              && KernelMemoryOk(params[k], args[k])
              && var e := Encoded(params[k], args[k], space);
                 var now := Appended(vals, FilledFrom(params, args, k, space));
                 if e.Ok? then now == Appended(vals + [e.value], FilledFrom(params, args, k + 1, space - |e.value|))
                 else SameStatus(if e.BufferFull? then BufferFull else if e.Bug? then Bug else InvalidUserMemory, now)
  {
    hide Encoded, Data, KernelMemoryOk;
    assert AllKernelMemoryOk(params[k..], args[k..]);
    if k < |params| {
      assert params[k..][1..] == params[k + 1..] && args[k..][1..] == args[k + 1..];
      var e := Encoded(params[k], args[k], space);
      if e.Ok? {
        var rest := FilledFrom(params, args, k + 1, space - |e.value|);
        if rest.Ok? {
          assert vals + ([e.value] + rest.value) == (vals + [e.value]) + rest.value;
        }
      }
    }
  }

  predicate Selects(p: ParamType, a: Arg, lead: seq<byte>, q: ParamType) {
    if p.Dyn? then a.dynIdx as int < |p.info| && q == p.info[a.dynIdx as int] && lead == [a.dynIdx]
    else q == p && lead == []
  }

  lemma EncodedParts(p: ParamType, a: Arg, space: nat, lead: seq<byte>, q: ParamType, max: nat)
    requires KernelMemoryOk(p, a) && space > 0
    requires Selects(p, a, lead, q)
    requires max == Min(space, MAX_ARG_SIZE) - |lead|
    ensures q.Dyn? || KernelMemoryOk(q, a)
    ensures Encoded(p, a, space) == Prefixed(lead, Payload(q, a, max))
  {
    if !p.Dyn? {
      PrefixedNothing(Payload(q, a, max));
    }
  }

  lemma EncodedNoSpace(p: ParamType, a: Arg)
    requires KernelMemoryOk(p, a)
    ensures Encoded(p, a, 0) == BufferFull
  {
  }

  lemma EncodedBadIndex(p: ParamType, a: Arg, space: nat)
    requires KernelMemoryOk(p, a) && p.Dyn? && a.dynIdx as int >= |p.info| && space > 0
    ensures Encoded(p, a, space) == Bug
  {
  }

  lemma EncodedOutcome(lead: seq<byte>, payload: Outcome<seq<byte>>, encoded: Outcome<seq<byte>>, r: Outcome<nat>)
    requires encoded == Prefixed(lead, payload) && SameOutcome(r, payload)
    ensures r.Ok? ==> encoded == Ok(lead + payload.value) && r.value == |payload.value|
    ensures !r.Ok? ==> SameOutcome(r, encoded)
  {
  }

  lemma ElsewhereWider(was: seq<byte>, mem: seq<byte>, slot: nat, at: nat, end: nat, end': nat)
    requires Elsewhere(was, mem, slot, at, end) && end <= end' <= |was|
    ensures Elsewhere(was, mem, slot, at, end')
  {
    assert mem[end'..] == mem[end..][end' - end..] && was[end'..] == was[end..][end' - end..];
  }
}
