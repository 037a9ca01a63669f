/** The buffers of a readv or writev call: their total size, and their contents merged into
    the one-page string storage behind the iovec table itself. */
module IovecMerge {
  import opened Bytes
  import opened UserCopy

  /** One user buffer: what it holds, and how far it can be read before a fault. */
  datatype Iovec = Iovec(data: seq<byte>, readable: nat)

  const IOVEC_SIZE: nat := 16

  function Total(iovs: seq<Iovec>): nat {
    if iovs == [] then 0 else |iovs[0].data| + Total(iovs[1..])
  }

  function Concat(iovs: seq<Iovec>): (b: seq<byte>)
    ensures |b| == Total(iovs)
  {
    if iovs == [] then [] else iovs[0].data + Concat(iovs[1..])
  }

  // ----- Size -----

  /** A signed 64-bit value read as an unsigned one. */
  function Unsigned(x: int): int {
    if x < 0 then TWO64 + x else x
  }

  function PushedSize(iovs: seq<Iovec>, retval: int, isWrite: bool): int {
    var size := Total(iovs) % TWO64;
    if !isWrite && size > Unsigned(retval) then Unsigned(retval) else size
  }

  lemma {:induction false} TotalSplit(iovs: seq<Iovec>, j: nat)
    requires j < |iovs|
    ensures Total(iovs[..j + 1]) == Total(iovs[..j]) + |iovs[j].data|
    decreases j
  {
    if j == 0 {
      assert iovs[..1][1..] == [];
      assert iovs[..0] == [];
    } else {
      TotalSplit(iovs[1..], j - 1);
      assert iovs[..j + 1][1..] == iovs[1..][..j];
      assert iovs[..j][1..] == iovs[1..][..j - 1];
    }
  }

  /** The loop that adds up the lengths in an unsigned 64-bit word, then the cap. */
  method SumLengths(iovs: seq<Iovec>, retval: int, isWrite: bool) returns (size: int)
    ensures size == PushedSize(iovs, retval, isWrite)
  {
    size := 0;
    assert iovs[..0] == [];
    for j := 0 to |iovs|
      invariant size == Total(iovs[..j]) % TWO64
    {
      TotalSplit(iovs, j);
      size := (size + |iovs[j].data|) % TWO64;
    }
    assert iovs[..|iovs|] == iovs;
    if !isWrite && size > Unsigned(retval) {
      size := Unsigned(retval);
    }
  }

  /** The sum of the lengths, capped by what a successful read returned. */
  function WantedSize(iovs: seq<Iovec>, retval: int, isWrite: bool): int {
    if !isWrite && 0 <= retval then Min(Total(iovs), retval) else Total(iovs)
  }

  /** That is what is pushed unless the lengths a caller passes add up to more than a word, or
      to more than a failed read's value read as unsigned; a cap can hide the wrap. */
  lemma PushedSizeMeaning(iovs: seq<Iovec>, retval: int, isWrite: bool)
    requires 0 - TWO63 <= retval < TWO63
    ensures PushedSize(iovs, retval, isWrite) == WantedSize(iovs, retval, isWrite) <==>
              if isWrite then Total(iovs) < TWO64
              else if 0 <= retval then Total(iovs) < TWO64 || Total(iovs) % TWO64 >= retval
              else Total(iovs) <= TWO64 + retval
    ensures Total(iovs) <= TWO63 ==> PushedSize(iovs, retval, isWrite) == WantedSize(iovs, retval, isWrite)
  {
  }

  /** Two buffers said to be 2^63 bytes long are pushed as a size of 0. */
  lemma SizeWraps()
    ensures var half := Iovec(seq(TWO63, i => 0), 0);
            PushedSize([half, half], 0, true) == 0 && WantedSize([half, half], 0, true) == TWO64
  {
    var half := Iovec(seq(TWO63, i => 0), 0);
    assert [half, half][1..] == [half] && [half][1..] == [];
    assert Total([half]) == TWO63 && Total([half, half]) == TWO64;
  }

  // ----- Data -----

  /** How many bytes may be gathered: one less than the space behind the table, and for a
      read no more than it returned. */
  function Room(space: nat, retval: nat, isWrite: bool): int {
    if isWrite then space - 1 else Min(retval, space - 1)
  }

  function Merged(iovs: seq<Iovec>, room: nat): Outcome<seq<byte>> {
    if iovs == [] then Ok([]) else
      var n := Min(|iovs[0].data|, room);
      if iovs[0].readable < n then InvalidUserMemory
      else if n != |iovs[0].data| then Ok(iovs[0].data[..n])
      else Prefixed(iovs[0].data, Merged(iovs[1..], room - n))
  }

  /** How much of buffer `j` is wanted. */
  function Needed(iovs: seq<Iovec>, room: nat, j: nat): int
    requires j < |iovs|
  {
    var before := Total(iovs[..j]);
    if before >= room then 0 else Min(|iovs[j].data|, room - before)
  }

  predicate AllReadable(iovs: seq<Iovec>, room: nat) {
    forall j :: 0 <= j < |iovs| ==> Needed(iovs, room, j) <= iovs[j].readable
  }

  lemma NeededShift(iovs: seq<Iovec>, room: nat, j: nat)
    requires iovs != [] && |iovs[0].data| <= room && j < |iovs| - 1
    ensures Needed(iovs, room, j + 1) == Needed(iovs[1..], room - |iovs[0].data|, j)
  {
    assert iovs[..j + 1][1..] == iovs[1..][..j];
  }

  lemma NeededBeyond(iovs: seq<Iovec>, room: nat, j: nat)
    requires iovs != [] && |iovs[0].data| >= room && 0 < j < |iovs|
    ensures Needed(iovs, room, j) == 0
  {
    assert iovs[..j][0] == iovs[0];
  }

  lemma AllReadableStep(iovs: seq<Iovec>, room: nat)
    requires iovs != []
    ensures var len := |iovs[0].data|;
            AllReadable(iovs, room) <==>
            Min(len, room) <= iovs[0].readable && (len <= room ==> AllReadable(iovs[1..], room - len))
  {
    var len := |iovs[0].data|;
    assert iovs[..0] == [];
    assert Needed(iovs, room, 0) == Min(len, room);
    if len <= room {
      forall j | 0 <= j < |iovs| - 1
        ensures Needed(iovs, room, j + 1) == Needed(iovs[1..], room - len, j) && iovs[j + 1] == iovs[1..][j]
      {
        NeededShift(iovs, room, j);
      }
      if AllReadable(iovs[1..], room - len) && Min(len, room) <= iovs[0].readable {
        forall j | 0 <= j < |iovs|
          ensures Needed(iovs, room, j) <= iovs[j].readable
        {
          if j > 0 {
            assert Needed(iovs[1..], room - len, j - 1) <= iovs[1..][j - 1].readable;
          }
        }
      }
    } else {
      forall j | 0 < j < |iovs|
        ensures Needed(iovs, room, j) == 0
      {
        NeededBeyond(iovs, room, j);
      }
    }
  }

  lemma TakeBoth(a: seq<byte>, b: seq<byte>, room: nat)
    requires |a| <= room
    ensures (a + b)[..Min(|a + b|, room)] == a + b[..Min(|b|, room - |a|)]
  {
  }

  lemma TakeFirst(a: seq<byte>, b: seq<byte>, room: nat)
    requires room < |a|
    ensures (a + b)[..room] == a[..room]
  {
  }

  /** The merge succeeds exactly when every wanted byte can be read, and then it is the
      prefix of the concatenated buffers that fits. */
  lemma {:induction false} MergedIsPrefix(iovs: seq<Iovec>, room: nat)
    ensures Merged(iovs, room).Ok? <==> AllReadable(iovs, room)
    ensures Merged(iovs, room).Ok? ==> Merged(iovs, room).value == Concat(iovs)[..Min(Total(iovs), room)]
    decreases |iovs|
  {
    if iovs != [] {
      hide AllReadable;
      AllReadableStep(iovs, room);
      var len := |iovs[0].data|;
      if len <= room {
        MergedIsPrefix(iovs[1..], room - len);
        TakeBoth(iovs[0].data, Concat(iovs[1..]), room);
      } else {
        TakeFirst(iovs[0].data, Concat(iovs[1..]), room);
      }
    }
  }

  /** What is still to be merged from buffer `j` on, with `have` bytes gathered. */
  function StillMerged(iovs: seq<Iovec>, j: nat, room: nat, have: nat): Outcome<seq<byte>>
    requires j <= |iovs| && have <= room
  {
    Merged(iovs[j..], room - have)
  }

  lemma StillStep(iovs: seq<Iovec>, j: nat, room: nat, have: nat)
    requires j <= |iovs| && have <= room
    ensures StillMerged(iovs, 0, room, 0) == Merged(iovs, room)
    ensures j == |iovs| ==> StillMerged(iovs, j, room, have) == Ok([])
    ensures j < |iovs| ==>
              var n := Min(|iovs[j].data|, room - have);
              StillMerged(iovs, j, room, have) ==
              if iovs[j].readable < n then InvalidUserMemory
              else if n != |iovs[j].data| then Ok(iovs[j].data[..n])
              else Prefixed(iovs[j].data, StillMerged(iovs, j + 1, room, have + n))
  {
    assert iovs[0..] == iovs;
    if j < |iovs| {
      assert iovs[j..][1..] == iovs[j + 1..];
    }
  }

  /** A read that has gathered all it returned stops; only empty buffers could follow. */
  lemma {:induction false} NoRoomLeft(iovs: seq<Iovec>)
    ensures Merged(iovs, 0) == Ok([])
    decreases |iovs|
  {
    if iovs != [] && |iovs[0].data| == 0 {
      NoRoomLeft(iovs[1..]);
      assert iovs[0].data + [] == [];
    }
  }

  /** One turn of the merge, with the bytes `g` gathered so far. */
  lemma MergeStep(iovs: seq<Iovec>, j: nat, room: nat, g: seq<byte>, n: nat)
    requires j < |iovs| && |g| <= room && n == Min(|iovs[j].data|, room - |g|)
    ensures var now := Prefixed(g, StillMerged(iovs, j, room, |g|));
            if iovs[j].readable < n then now == InvalidUserMemory
            else if n != |iovs[j].data| then now == Ok(g + iovs[j].data[..n])
            else now == Prefixed(g + iovs[j].data[..n], StillMerged(iovs, j + 1, room, |g| + n))
  {
    hide StillMerged;
    StillStep(iovs, j, room, |g|);
    if n == |iovs[j].data| {
      assert iovs[j].data[..n] == iovs[j].data;
      PrefixedTwice(g, iovs[j].data, StillMerged(iovs, j + 1, room, |g| + n));
    }
  }

  lemma MergeEnd(iovs: seq<Iovec>, j: nat, room: nat, g: seq<byte>)
    requires j <= |iovs| && |g| <= room && (j == |iovs| || |g| == room)
    ensures Prefixed(g, StillMerged(iovs, j, room, |g|)) == Ok(g)
  {
    StillStep(iovs, j, room, |g|);
    NoRoomLeft(iovs[j..]);
    assert g + [] == g;
  }

  /** Fetches `n` bytes of one buffer to offset `at`. */
  method FetchPart(iov: Iovec, storage: array<byte>, at: nat, n: nat) returns (ok: bool)
    requires at + n <= storage.Length && n <= |iov.data|
    modifies storage
    ensures ok <==> n <= iov.readable
    ensures storage[..][..at] == old(storage[..])[..at]
    ensures ok ==> storage[..][at..at + n] == iov.data[..n]
  {
    var source := if iov.readable < n then iov.data[..iov.readable] else iov.data;
    var notCopied := CopyFromUser(storage, at, source, n);
    ok := notCopied == 0;
  }

  /** The merge loop.  The table occupies the first `table` bytes of the page. */
  method MergeBuffers(iovs: seq<Iovec>, storage: array<byte>, table: nat, retval: nat, isWrite: bool)
    returns (r: Outcome<seq<byte>>)
    requires table < storage.Length && retval > 0
    modifies storage
    ensures r == Merged(iovs, Room(storage.Length - table, retval, isWrite))
    ensures r.Ok? ==> table + |r.value| < storage.Length && storage[..][table..table + |r.value|] == r.value
    ensures storage[..][..table] == old(storage[..])[..table]
  {
    ghost var was := storage[..];
    var ok, bufsize, g := GatherAll(iovs, storage, table, retval, isWrite);
    GatheredReads(was, storage[..], table, g);
    hide Merged, Gathered;
    r := if ok then Ok(storage[table..table + bufsize]) else InvalidUserMemory;
  }

  method GatherAll(iovs: seq<Iovec>, storage: array<byte>, table: nat, retval: nat, isWrite: bool)
    returns (ok: bool, bufsize: nat, ghost g: seq<byte>)
    requires table < storage.Length && retval > 0
    modifies storage
    ensures Merged(iovs, Room(storage.Length - table, retval, isWrite)) == if ok then Ok(g) else InvalidUserMemory
    ensures Gathered(old(storage[..]), storage[..], table, g) && |g| == bufsize < storage.Length - table
  {
    hide Merged, StillMerged, Prefixed, Gathered;
    var space := storage.Length - table;
    ghost var room := Room(space, retval, isWrite);
    StillStep(iovs, 0, room, 0);
    PrefixedNothing(Merged(iovs, room));
    ghost var was := storage[..];
    g, bufsize := [], 0;
    GatheredNothing(was, table);
    for j := 0 to |iovs|
      invariant |g| == bufsize <= room
      invariant Gathered(was, storage[..], table, g)
      invariant Merged(iovs, room) == Prefixed(g, StillMerged(iovs, j, room, bufsize))
    {
      if !isWrite && bufsize >= retval {
        MergeEnd(iovs, j, room, g);
        return true, bufsize, g;
      }
      var n := if isWrite then |iovs[j].data| else Min(|iovs[j].data|, retval - bufsize);
      n := Min(n, space - bufsize - 1);
      MergeStep(iovs, j, room, g, n);
      ok := FetchMore(iovs[j], storage, table, bufsize, n, was, g);
      if !ok {
        return;
      }
      bufsize, g := bufsize + n, g + iovs[j].data[..n];
      if n != |iovs[j].data| {
        return;
      }
    }
    MergeEnd(iovs, |iovs|, room, g);
    ok := true;
  }

  /** The table is as it was, and `g` has been gathered behind it. */
  predicate Gathered(was: seq<byte>, mem: seq<byte>, table: nat, g: seq<byte>) {
    |mem| == |was| && table + |g| <= |mem| && mem[..table] == was[..table] && mem[table..table + |g|] == g
  }

  lemma GatheredNothing(was: seq<byte>, table: nat)
    requires table <= |was|
    ensures Gathered(was, was, table, [])
  {
  }

  lemma GatheredReads(was: seq<byte>, mem: seq<byte>, table: nat, g: seq<byte>)
    requires Gathered(was, mem, table, g)
    ensures |mem| == |was| && table + |g| <= |mem| && mem[..table] == was[..table] && mem[table..table + |g|] == g
  {
  }

  /** `n` more bytes behind what has been gathered. */
  method FetchMore(iov: Iovec, storage: array<byte>, table: nat, have: nat, n: nat, ghost was: seq<byte>,
      ghost g: seq<byte>)
    returns (ok: bool)
    requires have == |g| && Gathered(was, storage[..], table, g)
    requires table + have + n <= storage.Length && n <= |iov.data|
    modifies storage
    ensures ok <==> n <= iov.readable
    ensures Gathered(was, storage[..], table, if ok then g + iov.data[..n] else g)
  {
    ghost var mid := storage[..];
    ok := FetchPart(iov, storage, table + have, n);
    Appended(mid, storage[..], table, have, n);
    SliceSplit(storage[..], table, table + have, table + have + n);
  }

  lemma Appended(was: seq<byte>, mem: seq<byte>, table: nat, have: nat, n: nat)
    requires |mem| == |was| && table + have + n <= |mem|
    requires mem[..table + have] == was[..table + have]
    ensures mem[..table] == was[..table]
    ensures mem[table..table + have + n] == was[table..table + have] + mem[table + have..table + have + n]
  {
    assert mem[..table] == mem[..table + have][..table] == was[..table + have][..table];
    assert mem[table..table + have] == mem[..table + have][table..] == was[..table + have][table..];
    assert mem[table..table + have + n] == mem[table..table + have] + mem[table + have..table + have + n];
  }

  /** What is pushed to the ring: the size, the data, or both. */
  datatype Pushed = Pushed(size: seq<int>, data: seq<seq<byte>>)

  function Parsed(iovs: seq<Iovec>, tableReadable: bool, page: nat, retval: int,
                  isWrite: bool, pushSize: bool, pushData: bool): Outcome<Pushed>
  {
    var table := IOVEC_SIZE * |iovs|;
    if |iovs| >= 0xffff_ffff || table >= page then BufferFull
    else if !tableReadable then InvalidUserMemory
    else
      var size := if pushSize then [PushedSize(iovs, retval, isWrite)] else [];
      if !pushData then Ok(Pushed(size, []))
      else if retval > 0 && |iovs| > 0 then
        (match Merged(iovs, Room(page - table, retval, isWrite))
         case Ok(b) => Ok(Pushed(size, [b]))
         case BufferFull => BufferFull
         case InvalidUserMemory => InvalidUserMemory
         case Bug => Bug)
      else Ok(Pushed(size, [[]]))
  }

  /** The data of a call is the start of its buffers, laid end to end: what fits in the storage
      and, for a read, no more than was read. */
  lemma ParsedIsPrefix(iovs: seq<Iovec>, tableReadable: bool, page: nat, retval: int, isWrite: bool, pushSize: bool,
                       pushData: bool)
    requires Parsed(iovs, tableReadable, page, retval, isWrite, pushSize, pushData).Ok?
    ensures var data := Parsed(iovs, tableReadable, page, retval, isWrite, pushSize, pushData).value.data;
            if !pushData then data == []
            else if retval <= 0 then data == [[]]
            else
              var room := Room(page - IOVEC_SIZE * |iovs|, retval, isWrite);
              0 <= room && data == [Concat(iovs)[..Min(Total(iovs), room)]]
  {
    hide Merged, PushedSize;
    if pushData && retval > 0 {
      MergedIsPrefix(iovs, Room(page - IOVEC_SIZE * |iovs|, retval, isWrite));
    }
  }

  /** Some buffer cannot be read as far as it is wanted. */
  predicate SomeFaults(iovs: seq<Iovec>, room: int) {
    exists j :: 0 <= j < |iovs| && Total(iovs[..j]) < room
      && iovs[j].readable < Min(|iovs[j].data|, room - Total(iovs[..j]))
  }

  lemma SomeFaultsIff(iovs: seq<Iovec>, room: nat)
    ensures SomeFaults(iovs, room) <==> !AllReadable(iovs, room)
  {
    if !AllReadable(iovs, room) {
      var j :| 0 <= j < |iovs| && Needed(iovs, room, j) > iovs[j].readable;
      assert Total(iovs[..j]) < room;
    }
    if SomeFaults(iovs, room) {
      var j :| 0 <= j < |iovs| && Total(iovs[..j]) < room
        && iovs[j].readable < Min(|iovs[j].data|, room - Total(iovs[..j]));
      assert Needed(iovs, room, j) > iovs[j].readable;
    }
  }

  lemma MergedFaults(iovs: seq<Iovec>, room: nat)
    ensures var r := Merged(iovs, room);
            r.Ok? == !SomeFaults(iovs, room) && r.InvalidUserMemory? == SomeFaults(iovs, room)
  {
    hide Merged, SomeFaults, AllReadable;
    MergedIsPrefix(iovs, room);
    MergedKinds(iovs, room);
    SomeFaultsIff(iovs, room);
  }

  /** When the call fails, and how: a table of 16 bytes a buffer has to fit the page with a byte to
      spare and be readable, and so does each part of a buffer that is wanted. */
  lemma ParsedFails(iovs: seq<Iovec>, tableReadable: bool, page: nat, retval: int, isWrite: bool, pushSize: bool,
                    pushData: bool)
    ensures var r := Parsed(iovs, tableReadable, page, retval, isWrite, pushSize, pushData);
            var full := |iovs| >= 4294967295 || 16 * |iovs| >= page;
            var room := if isWrite then page - 16 * |iovs| - 1 else Min(retval, page - 16 * |iovs| - 1);
            && (r.BufferFull? <==> full) && !r.Bug?
            && (r.InvalidUserMemory? <==>
                  !full && (!tableReadable || (pushData && retval > 0 && SomeFaults(iovs, room))))
  {
    hide Merged, SomeFaults, PushedSize;
    var room := if isWrite then page - 16 * |iovs| - 1 else Min(retval, page - 16 * |iovs| - 1);
    if 16 * |iovs| < page && retval > 0 {
      MergedFaults(iovs, room);
      NothingFaults(room);
    }
  }

  lemma NothingFaults(room: int)
    ensures !SomeFaults([], room)
  {
  }

  /** And the size it pushes if not: the sum of the lengths in 64 bits, for a read no more than it
      returned, read as unsigned. */
  lemma ParsedSize(iovs: seq<Iovec>, tableReadable: bool, page: nat, retval: int, isWrite: bool, pushSize: bool,
                   pushData: bool)
    requires Parsed(iovs, tableReadable, page, retval, isWrite, pushSize, pushData).Ok?
    ensures var sizes := Parsed(iovs, tableReadable, page, retval, isWrite, pushSize, pushData).value.size;
            var size, limit := Total(iovs) % TWO64, if retval < 0 then TWO64 + retval else retval;
            if !pushSize then sizes == [] else sizes == [if isWrite || size <= limit then size else limit]
  {
    hide Merged;
  }

  lemma {:induction false} MergedKinds(iovs: seq<Iovec>, room: nat)
    ensures Merged(iovs, room).Ok? || Merged(iovs, room).InvalidUserMemory?
    decreases |iovs|
  {
    if iovs != [] && |iovs[0].data| <= room {
      MergedKinds(iovs[1..], room - |iovs[0].data|);
    }
  }

  /** `parse_readv_writev_bufs`, up to the values it hands to the serialiser. */
  method ParseReadvWritev(iovs: seq<Iovec>, tableReadable: bool, storage: array<byte>, retval: int,
                          isWrite: bool, pushSize: bool, pushData: bool)
    returns (r: Outcome<Pushed>)
    modifies storage
    ensures r == Parsed(iovs, tableReadable, storage.Length, retval, isWrite, pushSize, pushData)
  {
    hide Merged, PushedSize;
    var table := IOVEC_SIZE * |iovs|;
    if |iovs| >= 0xffff_ffff || table >= storage.Length {
      return BufferFull;
    }
    if !tableReadable {
      return InvalidUserMemory;
    }
    var size := [];
    if pushSize {
      var total := SumLengths(iovs, retval, isWrite);
      size := [total];
    }
    if !pushData {
      return Ok(Pushed(size, []));
    }
    if retval > 0 && |iovs| > 0 {
      var m := MergeBuffers(iovs, storage, table, retval, isWrite);
      match m
      case Ok(b) => r := Ok(Pushed(size, [b]));
      case BufferFull => r := BufferFull;
      case InvalidUserMemory => r := InvalidUserMemory;
      case Bug => r := Bug;
    } else {
      r := Ok(Pushed(size, [[]]));
    }
  }
}
