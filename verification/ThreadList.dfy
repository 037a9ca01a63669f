/** Fetching the thread list: the driver answers with the list or with how much room it needs,
    and the library retries with a bigger buffer. */
module ThreadList {
  import opened Bytes

  const INITIAL_SIZE: nat := 7
  const MAX_SIZE: nat := 128000
  const SLACK: nat := 256

  datatype Proc = Proc(pid: nat, utime: nat, stime: nat)

  /** The driver's side of the call: only the first `maxEntries` entries are stored, but all
      are counted, and the list is delivered only if there is room to spare. */
  method GetProclist(procs: seq<Proc>, maxEntries: nat) returns (ok: bool, nEntries: nat, entries: seq<Proc>)
    ensures nEntries == |procs| && (ok <==> |procs| < maxEntries)
    ensures ok ==> entries == procs
    ensures |entries| <= maxEntries
  {
    nEntries, entries := 0, [];
    for t := 0 to |procs|
      invariant nEntries == t && entries == procs[..Min(t, maxEntries)]
    {
      if nEntries < maxEntries {
        entries := entries + [procs[t]];
      }
      nEntries := nEntries + 1;
    }
    ok := nEntries < maxEntries;
  }

  /** The size asked for after a refusal, as a 32-bit number. */
  function Retry(nEntries: nat): nat {
    (nEntries + SLACK) % TWO32
  }

  /** A refusal makes the next buffer bigger, by 256 at least, exactly when the sum does not
      wrap. */
  lemma RetryGrows(nEntries: nat, maxEntries: nat)
    requires maxEntries <= nEntries < TWO32
    ensures Retry(nEntries) >= maxEntries + 256 <==> nEntries + 256 < TWO32
  {
  }

  /** The size asked for next holds the threads counted exactly when the sum does not wrap;
      otherwise the same number of threads is refused again. */
  lemma RetryHoldsIff(nEntries: nat)
    requires nEntries < TWO32
    ensures nEntries < Retry(nEntries) <==> nEntries + 256 < TWO32
  {
  }

  lemma RetryCanShrink()
    ensures Retry(TWO32 - 200) == 56
  {
  }

  /** What the machine does while the library is trying: the threads and the outcome of the
      reallocation at each try. */
  datatype Try = Try(procs: seq<Proc>, realloc: bool)

  /** Fewer threads than 2^32 - 256 at any time. */
  ghost predicate Plausible(world: nat -> Try) {
    forall t :: |world(t).procs| + SLACK < TWO32
  }

  class Handle {
    var maxEntries: nat
    var entries: seq<Proc>
    var nEntries: nat
    var tries: nat

    /** `scap_alloc_proclist_info`. */
    method AllocProclistInfo(n: nat, realloc: bool) returns (ok: bool)
      modifies this
      ensures ok <==> n < 128000 && realloc
      ensures maxEntries == if ok then n else old(maxEntries)
      ensures entries == old(entries) && nEntries == old(nEntries) && tries == old(tries)
    {
      if n >= MAX_SIZE || !realloc {
        return false;
      }
      maxEntries := n;
      ok := true;
    }

    /** `scap_get_threadlist`.  Whatever the number of threads does meanwhile, it ends: within
        501 tries, with all threads of the last try, or with the limit or memory exhausted. */
    method GetThreadlist(world: nat -> Try) returns (ok: bool)
      requires Plausible(world) && maxEntries < MAX_SIZE
      modifies this
      ensures maxEntries < MAX_SIZE && tries >= old(tries)
      ensures ok ==> tries > old(tries) && entries == world(tries - 1).procs
      ensures ok ==> nEntries == |entries| < maxEntries
      ensures !ok ==> Exhausted(world, tries) || (old(maxEntries) == 0 && !world(tries).realloc)
      ensures (tries - old(tries)) * SLACK <= MAX_SIZE - old(maxEntries) + SLACK
      decreases MAX_SIZE - maxEntries, maxEntries == 0
    {
      if maxEntries == 0 {
        var grown := AllocProclistInfo(INITIAL_SIZE, world(tries).realloc);
        if !grown {
          return false;
        }
      }
      var now := world(tries);
      var fits, n, list := GetProclist(now.procs, maxEntries);
      tries := tries + 1;
      nEntries, entries := n, list;
      if fits {
        return true;
      }
      RetryGrows(nEntries, maxEntries);
      var grown := AllocProclistInfo(Retry(nEntries), now.realloc);
      if !grown {
        return false;
      }
      ok := GetThreadlist(world);
    }
  }

  /** The latest try needed more than the limit allows, or more than memory did. */
  ghost predicate Exhausted(world: nat -> Try, tries: nat) {
    tries > 0 && (|world(tries - 1).procs| + 256 >= 128000 || !world(tries - 1).realloc)
  }
}
