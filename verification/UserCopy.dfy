/** Copies from user memory into kernel buffers: the chunked string copy, and
    the argv/env accumulator and exe/args split built on it.

    User memory at an address is a sequence of readable bytes; the byte after the last one
    faults. */
module UserCopy {
  import opened Bytes

  // ----- Plain copy -----

  /** `ppm_copy_from_user`: copies up to the first fault, returns how much was not copied. */
  method CopyFromUser(to: array<byte>, at: nat, from: seq<byte>, n: nat) returns (left: nat)
    requires at + n <= to.Length
    modifies to
    ensures left == if |from| < n then n - |from| else 0
    ensures to[..at] == old(to[..at]) && to[at + n..] == old(to[at + n..])
    ensures left == 0 ==> to[at..at + n] == from[..n]
  {
    var m := if |from| < n then |from| else n;
    for j := 0 to m
      invariant to[..at] == old(to[..at]) && to[at + n..] == old(to[at + n..])
      invariant to[at..at + j] == from[..j]
    {
      to[at + j] := from[j];
      assert to[at..at + j + 1] == to[at..at + j] + [from[j]];
    }
    left := n - m;
  }

  // ----- The string copy -----

  /** Index of the first NUL, or the length if there is none. */
  function NulIndex(s: seq<byte>): (k: nat)
    ensures k <= |s|
    ensures k < |s| ==> s[k] == 0
    ensures forall i :: 0 <= i < k ==> s[i] != 0
  {
    if s == [] || s[0] == 0 then 0 else 1 + NulIndex(s[1..])
  }

  lemma NulIndexUnique(s: seq<byte>, k: nat)
    requires k < |s| && s[k] == 0 && forall i :: 0 <= i < k ==> s[i] != 0
    ensures NulIndex(s) == k
  {
    hide NulIndex;
  }

  /** The reference: one byte at a time, the terminator counted, -1 on a fault or when `n`
      bytes hold no terminator. */
  function ByteByByte(from: seq<byte>, n: nat): int {
    if n == 0 || from == [] then -1
    else if from[0] == 0 then 1
    else var r := ByteByByte(from[1..], n - 1); if r < 0 then -1 else r + 1
  }

  /** End of the four-byte chunk that holds byte `k`, cut at `n`. */
  function ChunkEnd(k: nat, n: nat): int {
    Min(n, k - k % 4 + 4)
  }

  /** What the chunked copy returns: as the reference does, provided the whole chunk with
      the terminator can be read. */
  function Chunked(from: seq<byte>, n: nat): (r: int)
    ensures r <= n && r <= |from| && (r < 0 || r > 0)
  {
    var k := NulIndex(from);
    if k < |from| && k < n && ChunkEnd(k, n) <= |from| then k + 1 else -1
  }

  lemma {:induction false} ByteByByteMeaning(from: seq<byte>, n: nat)
    ensures ByteByByte(from, n) == if NulIndex(from) < |from| && NulIndex(from) < n then NulIndex(from) + 1 else -1
    decreases n
  {
    if n != 0 && from != [] && from[0] != 0 {
      ByteByByteMeaning(from[1..], n - 1);
    }
  }

  /** The chunked copy refines the byte-by-byte copy: it never gives another length, and it
      differs exactly when the terminator is readable but its chunk is not. */
  lemma ChunkedRefines(from: seq<byte>, n: nat)
    ensures Chunked(from, n) >= 0 ==> Chunked(from, n) == ByteByByte(from, n)
    ensures Chunked(from, n) != ByteByByte(from, n)
       <==> NulIndex(from) < |from| && NulIndex(from) < n && |from| < ChunkEnd(NulIndex(from), n)
  {
    ByteByByteMeaning(from, n);
  }

  /** A terminator on the last readable byte of a page: the reference finds the string, the
      chunked copy faults. */
  lemma ChunkedFaultsWitness()
    ensures ByteByByte([65, 0], 16) == 2 && Chunked([65, 0], 16) == -1
  {
    var s: seq<byte> := [65, 0];
    NulIndexUnique(s, 1);
    ByteByByteMeaning(s, 16);
  }

  /** The scan of one chunk for the terminator: its offset, or the chunk's length. */
  method ScanChunk(to: array<byte>, at: nat, chunk: nat) returns (j: nat)
    requires at + chunk <= to.Length
    ensures j == NulIndex(to[at..at + chunk])
  {
    j := 0;
    ghost var c := to[at..at + chunk];
    while j < chunk
      invariant 0 <= j <= chunk
      invariant forall i :: 0 <= i < j ==> c[i] != 0
    {
      if to[at + j] == 0 {
        NulIndexUnique(c, j);
        return;
      }
      j := j + 1;
    }
  }

  /** One turn of the copy loop: fetch a chunk, then look for the terminator in it. */
  method CopyChunk(to: array<byte>, at: nat, from: seq<byte>, chunk: nat) returns (faulted: bool, j: nat)
    requires at + chunk <= to.Length
    modifies to
    ensures to[..][..at] == old(to[..])[..at] && to[..][at + chunk..] == old(to[..])[at + chunk..]
    ensures faulted <==> |from| < chunk
    ensures !faulted ==> to[..][at..at + chunk] == from[..chunk] && j == NulIndex(from[..chunk])
  {
    hide NulIndex;
    var left := CopyFromUser(to, at, from, chunk);
    faulted, j := left != 0, 0;
    if !faulted {
      j := ScanChunk(to, at, chunk);
    }
  }

  lemma ChunkScanned(from: seq<byte>, done: nat, chunk: nat)
    requires done + chunk <= |from| && NulIndex(from) >= done
    ensures var j := NulIndex(from[done..][..chunk]);
            if j < chunk then NulIndex(from) == done + j else NulIndex(from) >= done + chunk
  {
    hide NulIndex;
    var c := from[done..][..chunk];
    var k := NulIndex(from);
    var j := NulIndex(c);
    assert forall i :: 0 <= i < chunk ==> c[i] == from[done + i];
    if k < done + chunk {
      NulIndexUnique(c, k - done);
    }
  }

  /** `done` bytes have been copied to `at`; nothing outside the `n` bytes from `at` changed. */
  predicate Copied(was: seq<byte>, mem: seq<byte>, at: nat, n: nat, from: seq<byte>, done: nat) {
    && |mem| == |was| && at + n <= |mem| && done <= n && done <= |from|
    && mem[..at] == was[..at] && mem[at + n..] == was[at + n..]
    && mem[at..at + done] == from[..done]
  }

  lemma CopiedMore(was: seq<byte>, mem: seq<byte>, mem': seq<byte>, at: nat, n: nat, from: seq<byte>, done: nat,
                   chunk: nat)
    requires Copied(was, mem, at, n, from, done) && done + chunk <= n && |mem'| == |mem|
    requires mem'[..at + done] == mem[..at + done] && mem'[at + done + chunk..] == mem[at + done + chunk..]
    ensures mem'[..at] == was[..at] && mem'[at + n..] == was[at + n..]
    ensures done + chunk <= |from| && mem'[at + done..at + done + chunk] == from[done..][..chunk]
        ==> Copied(was, mem', at, n, from, done + chunk)
  {
    assert mem'[..at] == mem'[..at + done][..at] == mem[..at];
    assert mem'[at + n..] == mem'[at + done + chunk..][n - done - chunk..];
    assert mem[at + n..] == mem[at + done + chunk..][n - done - chunk..];
    if done + chunk <= |from| && mem'[at + done..at + done + chunk] == from[done..][..chunk] {
      assert mem'[at..at + done] == mem'[..at + done][at..] == mem[..at + done][at..] == mem[at..at + done];
      Glued(mem', at, from, done, chunk);
    }
  }

  lemma Glued(mem: seq<byte>, at: nat, from: seq<byte>, d: nat, c: nat)
    requires at + d + c <= |mem| && d + c <= |from|
    requires mem[at..at + d] == from[..d] && mem[at + d..at + d + c] == from[d..][..c]
    ensures mem[at..at + d + c] == from[..d + c]
  {
    assert mem[at..at + d + c] == mem[at..at + d] + mem[at + d..at + d + c];
    assert from[..d + c] == from[..d] + from[d..][..c];
  }

  lemma CopiedNothing(was: seq<byte>, at: nat, n: nat, from: seq<byte>)
    requires at + n <= |was|
    ensures Copied(was, was, at, n, from, 0)
  {
  }

  lemma CopiedPart(was: seq<byte>, mem: seq<byte>, at: nat, n: nat, from: seq<byte>, done: nat, k: nat)
    requires Copied(was, mem, at, n, from, done) && k <= done
    ensures Copied(was, mem, at, n, from, k)
  {
    assert mem[at..at + k] == mem[at..at + done][..k];
  }

  /** `ppm_strncpy_from_user`. */
  method StrNCpyFromUser(to: array<byte>, at: nat, from: seq<byte>, n: nat) returns (res: int)
    requires at + n <= to.Length
    modifies to
    ensures res == Chunked(from, n)
    ensures to[..][..at] == old(to[..])[..at] && to[..][at + n..] == old(to[..])[at + n..]
    ensures res >= 0 ==> Copied(old(to[..]), to[..], at, n, from, res)
  {
    hide NulIndex, Chunked, Copied;
    var left: nat, done: nat := n, 0;
    CopiedNothing(to[..], at, n, from);
    while left > 0
      invariant left + done == n && done <= |from| && (left > 0 ==> done % 4 == 0)
      invariant NulIndex(from) >= done
      invariant to[..][..at] == old(to[..])[..at] && to[..][at + n..] == old(to[..])[at + n..]
      invariant Copied(old(to[..]), to[..], at, n, from, done)
    {
      var chunk := if left < 4 then left else 4;
      ghost var before := to[..];
      var faulted, j := CopyChunk(to, at + done, from[done..], chunk);
      CopiedMore(old(to[..]), before, to[..], at, n, from, done, chunk);
      if faulted {
        NoTerminatorYet(from, done, n);
        return -1;
      }
      ChunkScanned(from, done, chunk);
      if j < chunk {
        res := done + j + 1;
        Terminated(from, done, chunk, j, n);
        CopiedPart(old(to[..]), to[..], at, n, from, done + chunk, res);
        return;
      }
      left, done := left - chunk, done + chunk;
    }
    res := -1;
    Unterminated(from, n);
  }

  lemma Unterminated(from: seq<byte>, n: nat)
    requires NulIndex(from) >= n
    ensures Chunked(from, n) == -1
  {
  }

  lemma Terminated(from: seq<byte>, done: nat, chunk: nat, j: nat, n: nat)
    requires done % 4 == 0 && done < n && chunk == Min(n - done, 4) && done + chunk <= |from|
    requires j < chunk && NulIndex(from) == done + j
    ensures Chunked(from, n) == done + j + 1
  {
    hide NulIndex;
    assert done + j - (done + j) % 4 == done;
  }

  lemma NoTerminatorYet(from: seq<byte>, done: nat, n: nat)
    requires done % 4 == 0 && done < n && done <= |from| < Min(n, done + 4)
    requires NulIndex(from) >= done
    ensures Chunked(from, n) == -1
  {
    hide NulIndex;
    var k := NulIndex(from);
    if k < |from| {
      assert k >= done;
      assert k - k % 4 == done;
    }
  }

  // ----- argv and environment -----

  datatype Outcome<T> = Ok(value: T) | BufferFull | InvalidUserMemory | Bug

  /** A failure of the same kind. */
  function Failure<S, T>(r: Outcome<S>): Outcome<T>
    requires !r.Ok?
  {
    if r.BufferFull? then BufferFull else if r.InvalidUserMemory? then InvalidUserMemory else Bug
  }

  /** An array of string pointers: the memory behind each pointer, and whether the array
      ends with a null pointer or faults. */
  datatype Argv = Argv(strings: seq<seq<byte>>, terminated: bool)

  /** The string behind a pointer, without its terminator. */
  function CString(mem: seq<byte>): seq<byte> {
    mem[..NulIndex(mem)]
  }

  function Accumulated(argv: Argv, available: nat): (r: Outcome<seq<byte>>)
    ensures r.Ok? ==> |r.value| <= available
    decreases |argv.strings|
  {
    if argv.strings == [] then if argv.terminated then Ok([]) else InvalidUserMemory
    else if available < 1 then BufferFull
    else
      var n := Chunked(argv.strings[0], available);
      if n < 0 then InvalidUserMemory else
        var rest := Accumulated(Argv(argv.strings[1..], argv.terminated), available - n);
        Prefixed(argv.strings[0][..n], rest)
  }

  /** What is still to come when `k` strings are done and `left` bytes are free. */
  function Remaining(argv: Argv, k: nat, left: nat): Outcome<seq<byte>>
    requires k <= |argv.strings|
  {
    Accumulated(Argv(argv.strings[k..], argv.terminated), left)
  }

  lemma RemainingStep(argv: Argv, k: nat, left: nat)
    requires k <= |argv.strings|
    ensures Remaining(argv, 0, left) == Accumulated(argv, left)
    ensures k == |argv.strings| ==> Remaining(argv, k, left) == if argv.terminated then Ok([]) else InvalidUserMemory
    ensures k < |argv.strings| && left < 1 ==> Remaining(argv, k, left) == BufferFull
    ensures k < |argv.strings| && left >= 1 ==>
              var n := Chunked(argv.strings[k], left);
              Remaining(argv, k, left) == if n < 0 then InvalidUserMemory
                                          else Prefixed(argv.strings[k][..n], Remaining(argv, k + 1, left - n))
  {
    hide NulIndex, Chunked;
    assert argv.strings[0..] == argv.strings;
    if k < |argv.strings| {
      assert argv.strings[k..][1..] == argv.strings[k + 1..];
    }
  }

  lemma CopiedAfter(was: seq<byte>, mem: seq<byte>, len: nat, left: nat, s: seq<byte>, n: nat)
    requires Copied(was, mem, len, left, s, n)
    ensures mem[..len + n] == was[..len] + s[..n]
  {
    assert mem[..len + n] == mem[..len] + mem[len..len + n];
  }

  /** `accumulate_argv_or_env` into `storage` from offset 0; `len + available` never changes. */
  method AccumulateArgv(argv: Argv, storage: array<byte>, available: nat) returns (r: Outcome<seq<byte>>)
    requires available <= storage.Length
    modifies storage
    ensures r == Accumulated(argv, available)
    ensures r.Ok? ==> storage[..][..|r.value|] == r.value
    ensures storage[..][available..] == old(storage[..])[available..]
  {
    hide NulIndex, Chunked, Accumulated, Remaining, Copied, Prefixed;
    var len: nat, left: nat, k: nat := 0, available, 0;
    RemainingStep(argv, 0, available);
    PrefixedNothing(Accumulated(argv, available));
    assert storage[..][..0] == [];
    while true
      invariant k <= |argv.strings| && len + left == available
      invariant Accumulated(argv, available) == Prefixed(storage[..][..len], Remaining(argv, k, left))
      invariant storage[..][available..] == old(storage[..])[available..]
      decreases |argv.strings| - k
    {
      RemainingStep(argv, k, left);
      if k == |argv.strings| {
        PrefixedEnd(storage[..][..len], Remaining(argv, k, left));
        r := if argv.terminated then Ok(storage[..len]) else InvalidUserMemory;
        return;
      }
      if left < 1 {
        PrefixedEnd(storage[..][..len], BufferFull);
        return BufferFull;
      }
      ghost var was := storage[..];
      var s := argv.strings[k];
      var n := StrNCpyFromUser(storage, len, s, left);
      if n < 0 {
        PrefixedEnd(was[..len], InvalidUserMemory);
        return InvalidUserMemory;
      }
      CopiedAfter(was, storage[..], len, left, s, n);
      PrefixedTwice(was[..len], s[..n], Remaining(argv, k + 1, left - n));
      left, len, k := left - n, len + n, k + 1;
    }
  }

  function Prefixed(b: seq<byte>, r: Outcome<seq<byte>>): Outcome<seq<byte>> {
    if r.Ok? then Ok(b + r.value) else r
  }

  lemma PrefixedNothing(r: Outcome<seq<byte>>)
    ensures Prefixed([], r) == r
  {
    if r.Ok? {
      assert [] + r.value == r.value;
    }
  }

  lemma PrefixedEnd(b: seq<byte>, r: Outcome<seq<byte>>)
    ensures Prefixed(b, r) == if r == Ok([]) then Ok(b) else if r.Ok? then Ok(b + r.value) else r
  {
    assert b + [] == b;
  }

  lemma PrefixedTwice(a: seq<byte>, b: seq<byte>, r: Outcome<seq<byte>>)
    ensures Prefixed(a, Prefixed(b, r)) == Prefixed(a + b, r)
  {
    if r.Ok? {
      assert a + (b + r.value) == (a + b) + r.value;
    }
  }

  /** The strings of a NUL-separated buffer. */
  function SplitAtNul(b: seq<byte>): seq<seq<byte>>
    decreases |b|
  {
    var k := NulIndex(b);
    if k == |b| then (if b == [] then [] else [b]) else [b[..k]] + SplitAtNul(b[k + 1..])
  }

  function CStrings(mems: seq<seq<byte>>): seq<seq<byte>> {
    if mems == [] then [] else [CString(mems[0])] + CStrings(mems[1..])
  }

  lemma SplitFirst(s: seq<byte>, rest: seq<byte>)
    requires forall i :: 0 <= i < |s| ==> s[i] != 0
    ensures NulIndex(s + [0] + rest) == |s|
    ensures SplitAtNul(s + [0] + rest) == [s] + SplitAtNul(rest)
  {
    hide NulIndex;
    var b := s + [0] + rest;
    NulIndexUnique(b, |s|);
    assert b[..|s|] == s && b[|s| + 1..] == rest;
  }

  lemma ChunkedTake(mem: seq<byte>, n: nat)
    requires Chunked(mem, n) >= 0
    ensures Chunked(mem, n) == |CString(mem)| + 1 && mem[..Chunked(mem, n)] == CString(mem) + [0]
    ensures forall i :: 0 <= i < |CString(mem)| ==> CString(mem)[i] != 0
  {
    hide NulIndex;
  }

  /** Round trip: splitting the accumulated buffer at its NULs gives back the argv list. */
  lemma {:induction false} ArgvRoundTrip(argv: Argv, available: nat)
    requires Accumulated(argv, available).Ok?
    ensures argv.terminated
    ensures SplitAtNul(Accumulated(argv, available).value) == CStrings(argv.strings)
    decreases |argv.strings|
  {
    if argv.strings != [] {
      hide NulIndex, Chunked, SplitAtNul;
      var n := Chunked(argv.strings[0], available);
      var tail := Argv(argv.strings[1..], argv.terminated);
      ArgvRoundTrip(tail, available - n);
      ChunkedTake(argv.strings[0], available);
      SplitFirst(CString(argv.strings[0]), Accumulated(tail, available - n).value);
    }
  }

  /** The first `k` strings are copied one after the other and use up exactly `available`
      bytes. */
  predicate ExactFill(mems: seq<seq<byte>>, available: nat, k: nat)
    requires k <= |mems|
    decreases k
  {
    if k == 0 then available == 0
    else Chunked(mems[0], available) >= 0 && ExactFill(mems[1..], available - Chunked(mems[0], available), k - 1)
  }

  predicate SomePrefixFills(mems: seq<seq<byte>>, available: nat) {
    exists k :: 0 <= k < |mems| && ExactFill(mems, available, k)
  }

  lemma {:induction false} FillsStep(mems: seq<seq<byte>>, available: nat)
    requires mems != [] && available > 0
    ensures SomePrefixFills(mems, available)
       <==> Chunked(mems[0], available) > 0 && SomePrefixFills(mems[1..], available - Chunked(mems[0], available))
  {
    hide NulIndex, Chunked;
    if SomePrefixFills(mems, available) {
      var k :| 0 <= k < |mems| && ExactFill(mems, available, k);
      assert ExactFill(mems[1..], available - Chunked(mems[0], available), k - 1);
    }
    if Chunked(mems[0], available) > 0 && SomePrefixFills(mems[1..], available - Chunked(mems[0], available)) {
      var k :| 0 <= k < |mems[1..]| && ExactFill(mems[1..], available - Chunked(mems[0], available), k);
      assert ExactFill(mems, available, k + 1);
    }
  }

  /** "Buffer full" is reported in one case only: some strings fill the storage to the last
      byte and more follow.  A string that does not fit is reported as bad memory. */
  lemma {:induction false} FullOnlyWhenExactlyFilled(argv: Argv, available: nat)
    ensures Accumulated(argv, available).BufferFull? <==> SomePrefixFills(argv.strings, available)
    decreases |argv.strings|
  {
    hide NulIndex, Chunked;
    var mems := argv.strings;
    if mems != [] && available < 1 {
      assert ExactFill(mems, available, 0);
    } else if mems != [] {
      FillsStep(mems, available);
      if Chunked(mems[0], available) > 0 {
        FullOnlyWhenExactlyFilled(Argv(mems[1..], argv.terminated), available - Chunked(mems[0], available));
      }
    }
  }

  /** A string that does not fit is reported as a fault; only one that would start right at the
      end is reported as a full buffer. */
  lemma FullWitness()
    ensures Accumulated(Argv([[65, 66, 0]], true), 2) == InvalidUserMemory
    ensures Accumulated(Argv([[65, 0], [66, 0]], true), 2) == BufferFull
  {
    NulIndexUnique([65, 66, 0], 2);
    NulIndexUnique([65, 0], 1);
    assert [[65, 0], [66, 0]][1..] == [[66, 0]];
  }

  /** The bytes that the first `k` strings take, each with its NUL. */
  function Spent(mems: seq<seq<byte>>, k: nat): nat
    requires k <= |mems|
  {
    if k == 0 then 0 else Spent(mems, k - 1) + NulIndex(mems[k - 1]) + 1
  }

  /** The string ends within `left` bytes, and the four bytes in line with its NUL, cut at `left`,
      can be read. */
  predicate Fetchable(mem: seq<byte>, left: nat) {
    var k := NulIndex(mem);
    k < |mem| && k < left && Min(left, k / 4 * 4 + 4) <= |mem|
  }

  /** The strings one after the other, each with its NUL. */
  function Flat(mems: seq<seq<byte>>): seq<byte> {
    if mems == [] then [] else CString(mems[0]) + [0] + Flat(mems[1..])
  }

  lemma ChunkedIsFetchable(mem: seq<byte>, left: nat)
    ensures Chunked(mem, left) >= 0 <==> Fetchable(mem, left)
    ensures Fetchable(mem, left) ==>
              Chunked(mem, left) == NulIndex(mem) + 1 && mem[..NulIndex(mem) + 1] == CString(mem) + [0]
  {
    hide NulIndex;
    var k := NulIndex(mem);
    assert k / 4 * 4 == k - k % 4;
  }

  lemma {:induction false} SpentCons(mems: seq<seq<byte>>, k: nat)
    requires 0 < k <= |mems|
    ensures Spent(mems, k) == NulIndex(mems[0]) + 1 + Spent(mems[1..], k - 1)
    decreases k
  {
    hide NulIndex;
    if k > 1 {
      SpentCons(mems, k - 1);
    }
  }

  /** When the list is taken in, and why not: the first `n` strings are fetched in the space that
      those before them leave; then the list ends, with its null pointer or in a fault, or the
      next string finds no space at all, or cannot be fetched. */
  lemma {:induction false} AccumulatedLaw(argv: Argv, available: nat) returns (n: nat)
    ensures n <= |argv.strings| && Spent(argv.strings, n) <= available
    ensures forall k :: 0 <= k < n ==>
              Spent(argv.strings, k) <= available && Fetchable(argv.strings[k], available - Spent(argv.strings, k))
    ensures var left := available - Spent(argv.strings, n);
            Accumulated(argv, available) ==
            if n == |argv.strings| then (if argv.terminated then Ok(Flat(argv.strings)) else InvalidUserMemory)
            else if left == 0 then BufferFull
            else InvalidUserMemory
    ensures n < |argv.strings| && Spent(argv.strings, n) < available ==>
              !Fetchable(argv.strings[n], available - Spent(argv.strings, n))
    decreases |argv.strings|
  {
    hide NulIndex, Fetchable, CString, Accumulated, Flat, Spent;
    n := 0;
    var mems := argv.strings;
    AccumulatedFirst(argv, available);
    if mems != [] && available > 0 && Fetchable(mems[0], available) {
      var used := NulIndex(mems[0]) + 1;
      var m := AccumulatedLaw(Argv(mems[1..], argv.terminated), available - used);
      n := m + 1;
      SpentCons(mems, n);
      forall k | 0 <= k < n
        ensures Spent(mems, k) <= available && Fetchable(mems[k], available - Spent(mems, k))
      {
        if k > 0 {
          SpentCons(mems, k);
          assert mems[1..][k - 1] == mems[k];
        }
      }
    }
  }

  /** The first string. */
  lemma AccumulatedFirst(argv: Argv, available: nat)
    ensures var mems := argv.strings;
            Spent(mems, 0) == 0 && Flat([]) == [] &&
            if mems == [] then Accumulated(argv, available) == if argv.terminated then Ok([]) else InvalidUserMemory
            else if available == 0 then Accumulated(argv, available) == BufferFull
            else if !Fetchable(mems[0], available) then Accumulated(argv, available) == InvalidUserMemory
            else
              && NulIndex(mems[0]) + 1 <= available && Flat(mems) == CString(mems[0]) + [0] + Flat(mems[1..])
              && Accumulated(argv, available)
                 == Prefixed(CString(mems[0]) + [0],
                             Accumulated(Argv(mems[1..], argv.terminated), available - (NulIndex(mems[0]) + 1)))
  {
    hide NulIndex, Chunked, CString;
    if argv.strings != [] {
      ChunkedIsFetchable(argv.strings[0], available);
    }
  }

  // ----- exe and args -----

  /** Length of the exe part of the accumulated buffer: up to and including the first NUL. */
  function ExeLength(b: seq<byte>): (n: nat)
    ensures n <= |b|
  {
    if NulIndex(b) < |b| then NulIndex(b) + 1 else NulIndex(b)
  }

  /** The exe parameter is argv[0] and the args parameter splits into the other arguments. */
  lemma ExeArgsRoundTrip(argv: Argv, available: nat)
    requires Accumulated(argv, available).Ok? && argv.strings != []
    ensures var b := Accumulated(argv, available).value;
            CString(b) == CString(argv.strings[0])
            && SplitAtNul(b[ExeLength(b)..]) == CStrings(argv.strings[1..])
  {
    hide NulIndex, Chunked, SplitAtNul;
    var n := Chunked(argv.strings[0], available);
    var tail := Argv(argv.strings[1..], argv.terminated);
    var b, rest := Accumulated(argv, available).value, Accumulated(tail, available - n).value;
    var exe := CString(argv.strings[0]);
    ChunkedTake(argv.strings[0], available);
    SplitFirst(exe, rest);
    assert b == exe + [0] + rest;
    assert b[..|exe|] == exe && b[|exe| + 1..] == rest;
    ArgvRoundTrip(tail, available - n);
  }
}
