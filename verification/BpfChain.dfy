/** A whole event in the BPF probe: a chain of filler programs sharing one frame, the output of
    the frame, and the counters kept at the end of the chain. */
module BpfChain {
  import opened Bytes
  import opened Events
  import opened UserCopy
  import opened ArgEncoding
  import opened EventFiller
  import opened BpfFrame

  predicate Usable(args: seq<FrameArg>) {
    forall i :: 0 <= i < |args| ==> args[i].Valid()
  }

  /** The arguments that a list of calls puts in the frame from offset `off` on. */
  function FrameVals(off: nat, args: seq<FrameArg>): (r: Outcome<seq<seq<byte>>>)
    requires Usable(args)
    ensures r.Ok? ==> |r.value| == |args|
    decreases |args|
  {
    if args == [] then Ok([]) else
      match Pushed(off, args[0])
      case Ok(b) => Appended([b], FrameVals(off + |b|, args[1..]))
      case BufferFull => BufferFull
      case InvalidUserMemory => InvalidUserMemory
      case Bug => Bug
  }

  lemma AppendedTwice(a: seq<seq<byte>>, b: seq<seq<byte>>, r: Outcome<seq<seq<byte>>>)
    ensures Appended(a, Appended(b, r)) == Appended(a + b, r)
  {
    if r.Ok? {
      AppendAssociates(a, b, r.value);
    }
  }

  /** The calls may be divided among programs in any way. */
  lemma {:induction false} FrameValsSplit(off: nat, a: seq<FrameArg>, b: seq<FrameArg>)
    requires Usable(a) && Usable(b)
    ensures Usable(a + b)
    ensures FrameVals(off, a + b) ==
            match FrameVals(off, a)
            case Ok(vals) => Appended(vals, FrameVals(off + |Data(vals)|, b))
            case failed => failed
    decreases |a|
  {
    hide Pushed;
    if a == [] {
      assert a + b == b && Data([]) == [];
      var r := FrameVals(off, b);
      if r.Ok? {
        assert [] + r.value == r.value;
      }
    } else {
      assert (a + b)[1..] == a[1..] + b && (a + b)[0] == a[0];
      match Pushed(off, a[0]) {
        case Ok(v) =>
          FrameValsSplit(off + |v|, a[1..], b);
          match FrameVals(off + |v|, a[1..]) {
            case Ok(rest) =>
              assert ([v] + rest)[1..] == rest;
              assert |Data([v] + rest)| == |v| + |Data(rest)|;
              AppendedTwice([v], rest, FrameVals(off + |v| + |Data(rest)|, b));
            case _ =>
          }
        case _ =>
      }
    }
  }

  /** A filler puts an argument on the frame itself, where the next call expects it. */
  method Stage(f: Frame, a: FrameArg)
    requires f.Valid() && f.len > 0 && a.Valid() && a.onFrame && f.curoff + |a.dyn| <= SCRATCH_SIZE_HALF
    modifies f.buf
    ensures f.Valid() && Placed(f.buf[..], f.curoff + |a.dyn|, a.mem)
  {
    hide Bytes.LittleEndian, LengthTable, Data, Within, Layout, HeadPlaced;
    ghost var was := f.buf[..];
    var at := f.curoff + |a.dyn|;
    MaskIdentity(at, SCRATCH_SIZE_HALF);
    Store(f.buf, Mask(at, SCRATCH_SIZE_HALF), a.mem);
    if |f.vals| <= f.nparams {
      LayoutStays(was, f.buf[..], at, at + |a.mem|, f.nparams, f.vals);
      HeadStays(was, f.buf[..], at, at + |a.mem|, f.head);
    }
  }

  lemma LayoutStays(was: seq<byte>, mem: seq<byte>, lo: nat, hi: nat, n: nat, vals: seq<seq<byte>>)
    requires Within(was, mem, lo, hi) && Layout(was, HEADER, n, vals) && HEADER + 2 * n + |Data(vals)| <= lo
    ensures Layout(mem, HEADER, n, vals)
  {
    hide LengthTable, Data, Within;
    WithinKeeps(was, mem, lo, hi, HEADER, HEADER + 2 * |vals|);
    WithinKeeps(was, mem, lo, hi, HEADER + 2 * n, HEADER + 2 * n + |Data(vals)|);
    WithinKeeps(was, mem, lo, hi, 0, 0);
  }

  /** One call of a filler. */
  method Call(f: Frame, a: FrameArg) returns (r: Outcome<nat>)
    requires f.Valid() && f.len > 0 && a.Valid()
    modifies f, f.buf
    ensures SameOutcome(r, Pushed(old(f.curoff), a)) && f.nparams == old(f.nparams)
    ensures r.Ok? ==> f.Valid() && f.len > 0 && f.vals == old(f.vals) + [Pushed(old(f.curoff), a).value]
    ensures r.Ok? ==> f.curoff == old(f.curoff) + r.value && f.head == old(f.head) && f.headers == old(f.headers)
  {
    if a.onFrame {
      if f.curoff + |a.dyn| > SCRATCH_SIZE_HALF {
        PushedFull(f.curoff, a);
        return BufferFull;
      }
      Stage(f, a);
    }
    DataGrows(f.vals, if Pushed(f.curoff, a).Ok? then Pushed(f.curoff, a).value else []);
    r := f.ValToRing(a);
  }

  lemma FrameValsStep(off: nat, args: seq<FrameArg>, k: nat, done: seq<seq<byte>>)
    requires Usable(args) && k < |args|
    ensures Usable(args[k..]) && Usable(args[k + 1..]) && args[k].Valid()
    ensures var p := Pushed(off, args[k]);
            var now := Appended(done, FrameVals(off, args[k..]));
            if p.Ok? then now == Appended(done + [p.value], FrameVals(off + |p.value|, args[k + 1..]))
            else SameStatus(if p.BufferFull? then BufferFull else if p.Bug? then Bug else InvalidUserMemory, now)
  {
    hide Pushed;
    assert args[k..][1..] == args[k + 1..] && args[k..][0] == args[k];
    var p := Pushed(off, args[k]);
    if p.Ok? {
      AppendedTwice(done, [p.value], FrameVals(off + |p.value|, args[k + 1..]));
    }
  }

  lemma FrameValsEnds(off: nat, args: seq<FrameArg>, vals: seq<seq<byte>>)
    requires Usable(args)
    ensures Appended([], FrameVals(off, args[0..])) == FrameVals(off, args)
    ensures Appended(vals, FrameVals(off, args[|args|..])) == Ok(vals)
  {
    assert args[0..] == args;
    var r := FrameVals(off, args);
    assert r.Ok? ==> [] + r.value == r.value;
    assert vals + [] == vals;
  }

  function Start(len: nat, curoff: nat, nparams: nat): nat {
    if len == 0 then HEADER + 2 * nparams else curoff
  }

  /** The body of one filler program: the header is written by the first of the chain only. */
  method Program(f: Frame, h: Header, args: seq<FrameArg>) returns (r: Outcome<nat>)
    requires f.Valid() && h.nparams == f.nparams && Usable(args)
    modifies f, f.buf
    ensures f.nparams == old(f.nparams)
    ensures SameStatus(r, FrameVals(Start(old(f.len), old(f.curoff), f.nparams), args))
    ensures r.Ok? ==>
              && f.Valid() && f.len > 0 && f.headers == 1 && f.head == (if old(f.len) == 0 then h else old(f.head))
              && f.vals == old(f.vals) + FrameVals(Start(old(f.len), old(f.curoff), f.nparams), args).value
  {
    hide Layout, Data, HeadPlaced, Pushed, LengthTable, FrameVals, Appended;
    if f.len == 0 {
      f.WriteEvtHdr(h);
      NoData();
    }
    ghost var start, base, done := f.curoff, f.vals, [];
    FrameValsEnds(start, args, []);
    for k := 0 to |args|
      invariant f.Valid() && f.len > 0 && f.nparams == old(f.nparams)
      invariant f.head == (if old(f.len) == 0 then h else old(f.head))
      invariant f.vals == base + done
      invariant FrameVals(start, args) == Appended(done, FrameVals(f.curoff, args[k..]))
    {
      FrameValsStep(f.curoff, args, k, done);
      ghost var off := f.curoff;
      r := Call(f, args[k]);
      if !r.Ok? {
        return;
      }
      AppendAssociates(base, done, [Pushed(off, args[k]).value]);
      done := done + [Pushed(off, args[k]).value];
    }
    FrameValsEnds(f.curoff, args, done);
    r := Ok(0);
  }

  function Flatten(programs: seq<seq<FrameArg>>): seq<FrameArg> {
    if programs == [] then [] else Flatten(programs[..|programs| - 1]) + programs[|programs| - 1]
  }

  /** What a chain that makes these calls sends: an event with as many arguments as its type
      has parameters, if it fits a perf record. */
  function FrameOf(h: Header, args: seq<FrameArg>): Outcome<seq<byte>>
    requires Usable(args)
  {
    match FrameVals(HEADER + 2 * h.nparams, args)
    case Ok(vals) =>
      if |vals| != h.nparams then Bug
      else if EventSize(vals) > PERF_EVENT_MAX_SIZE then BufferFull
      else Ok(EncodeEvent(h, vals))
    case BufferFull => BufferFull
    case InvalidUserMemory => InvalidUserMemory
    case Bug => Bug
  }

  /** How an event ends: its last program pushes the frame, or asks for the event to be skipped;
      or no program is reached, for want of a filler or because the tail call fails. */
  datatype Ending = Push(answer: Answer) | Skip | Unreached

  /** The frames that reach the perf ring, at most one, or the failure that is counted. */
  function SentBy(h: Header, args: seq<FrameArg>, ending: Ending): Outcome<seq<seq<byte>>>
    requires Usable(args)
  {
    var vals := FrameVals(HEADER + 2 * h.nparams, args);
    if ending.Unreached? then Ok([])
    else if !vals.Ok? then vals
    else match ending
      case Skip => Ok([])
      case Push(answer) =>
        (match FrameOf(h, args)
         case Ok(frame) => Answered(frame, answer)
         case BufferFull => BufferFull
         case InvalidUserMemory => InvalidUserMemory
         case Bug => Bug)
  }

  // ----- The law of an event, call by call -----

  /** The first calls succeed, each where those before it end. */
  ghost predicate FirstSucceed(off: nat, args: seq<FrameArg>, vals: seq<seq<byte>>)
    requires Usable(args)
  {
    && |vals| <= |args|
    && forall k :: 0 <= k < |vals| ==> IsFrameArg(Ok(vals[k]), off + |Data(vals[..k])|, args[k])
  }

  /** What becomes of an event whose first calls give `vals`: the next call fails, and how; or
      all succeed, and the ending decides, a push only for a complete event of at most 65523
      bytes. */
  ghost predicate IsSentOf(r: Outcome<seq<seq<byte>>>, h: Header, args: seq<FrameArg>, ending: Ending,
                           vals: seq<seq<byte>>)
    requires Usable(args)
  {
    var off, k := 26 + 2 * h.nparams, |vals|;
    && FirstSucceed(off, args, vals)
    && if k < |args| then !r.Ok? && IsFrameArg(Failure(r), off + |Data(vals)|, args[k])
       else if ending.Skip? then r == Ok([])
       else if k != h.nparams then r.Bug?
       else if 26 + 2 * k + |Data(vals)| > 65523 then r.BufferFull?
       else if ending == Push(Accepted) then r == Ok([EncodeEvent(h, vals)])
       else if ending == Push(CpuGone) then r == Ok([])
       else r.Bug?
  }

  ghost predicate IsSent(r: Outcome<seq<seq<byte>>>, h: Header, args: seq<FrameArg>, ending: Ending)
    requires Usable(args)
  {
    if ending.Unreached? then r == Ok([]) else exists vals :: IsSentOf(r, h, args, ending, vals)
  }

  lemma FirstCons(off: nat, args: seq<FrameArg>, b: seq<byte>, rest: seq<seq<byte>>)
    requires Usable(args) && args != [] && IsFrameArg(Ok(b), off, args[0])
    requires Usable(args[1..]) && FirstSucceed(off + |b|, args[1..], rest)
    ensures FirstSucceed(off, args, [b] + rest)
  {
    hide IsFrameArg;
    var vals := [b] + rest;
    NoData();
    forall k | 0 <= k < |vals|
      ensures IsFrameArg(Ok(vals[k]), off + |Data(vals[..k])|, args[k])
    {
      if k > 0 {
        assert vals[..k] == [b] + rest[..k - 1];
        DataCons(b, rest[..k - 1]);
        assert args[1..][k - 1] == args[k];
      }
    }
  }

  lemma {:induction false} FrameValsLaw(off: nat, args: seq<FrameArg>) returns (vals: seq<seq<byte>>)
    requires Usable(args)
    ensures FirstSucceed(off, args, vals)
    ensures var r := FrameVals(off, args);
            if |vals| == |args| then r == Ok(vals)
            else !r.Ok? && IsFrameArg(Failure(r), off + |Data(vals)|, args[|vals|])
    decreases |args|
  {
    hide IsFrameArg, Pushed, Data;
    NoData();
    vals := [];
    if args != [] {
      PushedLaw(off, args[0]);
      var e := Pushed(off, args[0]);
      if e.Ok? {
        var rest := FrameValsLaw(off + |e.value|, args[1..]);
        vals := [e.value] + rest;
        FirstCons(off, args, e.value, rest);
        DataCons(e.value, rest);
      }
    }
  }

  /** The chain keeps the law. */
  lemma SentLaw(h: Header, args: seq<FrameArg>, ending: Ending)
    requires Usable(args)
    ensures IsSent(SentBy(h, args, ending), h, args, ending)
  {
    hide FrameVals, FirstSucceed, IsFrameArg, EncodeEvent, Usable;
    if !ending.Unreached? {
      var vals := FrameValsLaw(HEADER + 2 * h.nparams, args);
      FirstShape(HEADER + 2 * h.nparams, args, vals);
      SentOf(SentBy(h, args, ending), h, args, ending, vals);
    }
  }

  lemma FirstCall(off: nat, args: seq<FrameArg>, vals: seq<seq<byte>>, k: nat)
    requires Usable(args) && FirstSucceed(off, args, vals)
    ensures k < |vals| ==> k < |args| && IsFrameArg(Ok(vals[k]), off + |Data(vals[..k])|, args[k])
  {
  }

  lemma FirstShape(off: nat, args: seq<FrameArg>, vals: seq<seq<byte>>)
    requires Usable(args) && FirstSucceed(off, args, vals)
    ensures |vals| <= |args|
  {
  }

  lemma SentOf(r: Outcome<seq<seq<byte>>>, h: Header, args: seq<FrameArg>, ending: Ending, vals: seq<seq<byte>>)
    requires Usable(args) && !ending.Unreached? && IsSentOf(r, h, args, ending, vals)
    ensures IsSent(r, h, args, ending)
  {
  }

  lemma {:induction false} FirstOnly(off: nat, args: seq<FrameArg>, vals: seq<seq<byte>>, vals': seq<seq<byte>>, k: nat)
    requires Usable(args) && FirstSucceed(off, args, vals) && FirstSucceed(off, args, vals')
    requires k <= |vals| && k <= |vals'|
    ensures vals[..k] == vals'[..k]
    decreases k
  {
    hide IsFrameArg, Pushed;
    if k > 0 {
      FirstOnly(off, args, vals, vals', k - 1);
      var at := off + |Data(vals[..k - 1])|;
      FrameArgOnly(Ok(vals[k - 1]), at, args[k - 1]);
      FrameArgOnly(Ok(vals'[k - 1]), at, args[k - 1]);
      assert vals[..k] == vals[..k - 1] + [vals[k - 1]] && vals'[..k] == vals'[..k - 1] + [vals'[k - 1]];
    }
  }

  lemma FrameValsOnly(off: nat, args: seq<FrameArg>, vals: seq<seq<byte>>, failed: Outcome<seq<byte>>)
    requires Usable(args) && FirstSucceed(off, args, vals)
    requires |vals| < |args| ==> !failed.Ok? && IsFrameArg(failed, off + |Data(vals)|, args[|vals|])
    ensures var r := FrameVals(off, args);
            if |vals| == |args| then r == Ok(vals) else !r.Ok? && Failure(r) == failed
  {
    hide IsFrameArg, Pushed, FrameVals, Data, FirstSucceed;
    var own := FrameValsLaw(off, args);
    FirstShape(off, args, vals);
    FirstShape(off, args, own);
    var k := Min(|vals|, |own|);
    FirstOnly(off, args, vals, own, k);
    assert vals[..|vals|] == vals && own[..|own|] == own;
    if k < |args| {
      var at := off + |Data(vals[..k])|;
      FirstCall(off, args, vals, k);
      FirstCall(off, args, own, k);
      FrameArgOnly(if k < |vals| then Ok(vals[k]) else failed, at, args[k]);
      FrameArgOnly(if k < |own| then Ok(own[k]) else Failure(FrameVals(off, args)), at, args[k]);
    }
  }

  /** ... and nothing else does. */
  lemma SentOnly(r: Outcome<seq<seq<byte>>>, h: Header, args: seq<FrameArg>, ending: Ending)
    requires Usable(args) && IsSent(r, h, args, ending)
    ensures r == SentBy(h, args, ending)
  {
    hide IsFrameArg, FrameVals, EncodeEvent, Data, FirstSucceed;
    if !ending.Unreached? {
      var vals :| IsSentOf(r, h, args, ending, vals);
      FirstShape(HEADER + 2 * h.nparams, args, vals);
      FrameValsOnly(HEADER + 2 * h.nparams, args, vals, if r.Ok? then Bug else Failure(r));
    }
  }

  predicate AllUsable(programs: seq<seq<FrameArg>>) {
    forall i :: 0 <= i < |programs| ==> Usable(programs[i])
  }

  lemma FlattenStep(programs: seq<seq<FrameArg>>, k: nat)
    requires k < |programs|
    ensures Flatten(programs[..k + 1]) == Flatten(programs[..k]) + programs[k]
  {
    assert programs[..k + 1][..k] == programs[..k];
  }

  lemma {:induction false} FlattenUsable(programs: seq<seq<FrameArg>>, k: nat)
    requires AllUsable(programs) && k <= |programs|
    ensures Usable(Flatten(programs[..k]))
    decreases k
  {
    if k > 0 {
      FlattenUsable(programs, k - 1);
      FlattenStep(programs, k - 1);
    }
  }

  lemma {:induction false} FlattenPrefix(programs: seq<seq<FrameArg>>, k: nat)
    requires k <= |programs|
    ensures Flatten(programs[..k]) <= Flatten(programs)
    decreases |programs| - k
  {
    if k < |programs| {
      FlattenPrefix(programs, k + 1);
      FlattenStep(programs, k);
    } else {
      assert programs[..k] == programs;
    }
  }

  /** The state after `k` programs gives the state after one more. */
  lemma ChainStep(off: nat, programs: seq<seq<FrameArg>>, k: nat, vals: seq<seq<byte>>)
    requires AllUsable(programs) && k < |programs|
    requires Usable(Flatten(programs[..k])) && FrameVals(off, Flatten(programs[..k])) == Ok(vals)
    ensures Usable(Flatten(programs[..k + 1])) && Usable(programs[k])
    ensures FrameVals(off, Flatten(programs[..k + 1])) == Appended(vals, FrameVals(off + |Data(vals)|, programs[k]))
  {
    hide FrameVals, Data, Appended;
    FlattenUsable(programs, k + 1);
    FlattenStep(programs, k);
    FrameValsSplit(off, Flatten(programs[..k]), programs[k]);
  }

  /** Once a program has failed, the event has failed. */
  lemma FailureStays(off: nat, programs: seq<seq<FrameArg>>, k: nat)
    requires AllUsable(programs) && k <= |programs|
    requires Usable(Flatten(programs[..k])) && !FrameVals(off, Flatten(programs[..k])).Ok?
    ensures Usable(Flatten(programs)) && FrameVals(off, Flatten(programs)) == FrameVals(off, Flatten(programs[..k]))
  {
    hide FrameVals, Flatten;
    FlattenPrefix(programs, k);
    FlattenUsable(programs, |programs|);
    assert programs[..|programs|] == programs;
    var a, all := Flatten(programs[..k]), Flatten(programs);
    assert all == a + all[|a|..];
    FrameValsSplit(off, a, all[|a|..]);
  }

  /** A whole chain: programs run one after the other on the same frame, and the last sends it. */
  method Chain(f: Frame, h: Header, programs: seq<seq<FrameArg>>, ending: Ending)
    returns (r: Outcome<seq<seq<byte>>>)
    requires f.Valid() && f.len == 0 && h.nparams == f.nparams && programs != [] && AllUsable(programs)
    requires !ending.Unreached?
    modifies f, f.buf
    ensures Usable(Flatten(programs)) && r == SentBy(h, Flatten(programs), ending)
    ensures r.Ok? ==> f.headers == 1
  {
    hide FrameVals, Flatten, Layout, Data, HeadPlaced, LengthTable, SentBy, EncodeEvent;
    ghost var off := HEADER + 2 * f.nparams;
    FlattenUsable(programs, 0);
    ChainStart(off, programs);
    for k := 0 to |programs|
      invariant f.Valid() && f.nparams == h.nparams
      invariant if k == 0 then f.len == 0 else f.len > 0 && f.head == h
      invariant Usable(Flatten(programs[..k])) && FrameVals(off, Flatten(programs[..k])) == Ok(f.vals)
    {
      ChainStep(off, programs, k, f.vals);
      if k == 0 {
        NoData();
      }
      var s := Program(f, h, programs[k]);
      if !s.Ok? {
        FailureStays(off, programs, k + 1);
        SentFails(h, Flatten(programs), ending);
        return if s.BufferFull? then BufferFull else if s.Bug? then Bug else InvalidUserMemory;
      }
    }
    assert programs[..|programs|] == programs;
    SentEnds(h, Flatten(programs), ending, f.vals);
    match ending {
      case Skip => r := Ok([]);
      case Push(answer) => r := f.PushEvtFrame(answer);
    }
  }

  lemma SentFails(h: Header, args: seq<FrameArg>, ending: Ending)
    requires Usable(args) && !ending.Unreached? && !FrameVals(HEADER + 2 * h.nparams, args).Ok?
    ensures SentBy(h, args, ending) == FrameVals(HEADER + 2 * h.nparams, args)
  {
    hide FrameVals, EncodeEvent, Data, Usable;
  }

  lemma SentEnds(h: Header, args: seq<FrameArg>, ending: Ending, vals: seq<seq<byte>>)
    requires Usable(args) && !ending.Unreached? && FrameVals(HEADER + 2 * h.nparams, args) == Ok(vals)
    ensures SentBy(h, args, ending) == if ending.Skip? then Ok([])
                                       else if |vals| != h.nparams then Bug
                                       else if EventSize(vals) > PERF_EVENT_MAX_SIZE then BufferFull
                                       else Answered(EncodeEvent(h, vals), ending.answer)
  {
    hide FrameVals, EncodeEvent, Data, Usable;
  }

  lemma ChainStart(off: nat, programs: seq<seq<FrameArg>>)
    ensures Usable(Flatten(programs[..0])) && FrameVals(off, Flatten(programs[..0])) == Ok([])
  {
  }

  /** What is sent reads back: a whole event within a perf record, with exactly the arguments
      pushed, one for each parameter. */
  lemma FrameRoundTrip(h: Header, args: seq<FrameArg>)
    requires Usable(args) && h.ts < TWO64 && h.nparams <= MAX_EVENT_PARAMS && FrameOf(h, args).Ok?
    ensures var frame := FrameOf(h, args).value;
            && IsEvent(frame) && Timestamp(frame) == h.ts && |frame| <= PERF_EVENT_MAX_SIZE
            && |args| == h.nparams
            && DecodeArgs(frame) == FrameVals(HEADER + 2 * h.nparams, args)
  {
    hide FrameVals, EncodeEvent, DecodeArgs, Data, Small, AllFit, Events.IsEvent, Events.Timestamp;
    var vals := FrameVals(HEADER + 2 * h.nparams, args).value;
    FrameValsFit(HEADER + 2 * h.nparams, args);
    FitIsSmall(vals);
    EventRoundTrip(h, vals);
  }

  lemma FitIsSmall(vals: seq<seq<byte>>)
    requires AllFit(vals)
    ensures Small(vals)
  {
  }

  lemma {:induction false} FrameValsFit(off: nat, args: seq<FrameArg>)
    requires Usable(args) && FrameVals(off, args).Ok?
    ensures AllFit(FrameVals(off, args).value)
    decreases |args|
  {
    if args != [] {
      hide Pushed;
      PushedFits(off, args[0]);
      FrameValsFit(off + |Pushed(off, args[0]).value|, args[1..]);
    }
  }

  // ----- Counters -----

  class Probe {
    const frame: Frame
    var nEvts: nat
    var nDropsBuffer: nat
    var nDropsPf: nat
    var nDropsBug: nat
    var inUse: bool
    var sent: seq<seq<byte>>

    var hotplugCpu: nat
    ghost var silent: nat

    /** Every event counted is sent, counted as dropped, or lost without a trace: once. */
    ghost predicate Valid()
      reads this, frame
    {
      && frame.buf.Length == SCRATCH_SIZE
      && nEvts == |sent| + nDropsBuffer + nDropsPf + nDropsBug + silent
    }

    constructor ()
      ensures Valid() && !inUse && sent == [] && nEvts == 0 && silent == 0
    {
      frame := new Frame();
      nEvts, nDropsBuffer, nDropsPf, nDropsBug := 0, 0, 0, 0;
      inUse, sent, hotplugCpu, silent := false, [], 0, 0;
    }

    /** An event from `call_filler` to `terminate_filler`, on `cpu`.  A nested event finds the
        state in use and is not counted.  The counters account for all events exactly as long
        as none was skipped, left without a program, or met a CPU that was gone. */
    method RecordEvent(h: Header, programs: seq<seq<FrameArg>>, ending: Ending, cpu: nat)
      requires Valid() && h.nparams <= MAX_EVENT_PARAMS && programs != [] && AllUsable(programs)
      modifies this, frame, frame.buf
      ensures Valid() && inUse == old(inUse) && Usable(Flatten(programs))
      ensures nEvts == |sent| + nDropsBuffer + nDropsPf + nDropsBug <==> silent == 0
      ensures old(inUse) ==> nEvts == old(nEvts) && sent == old(sent) && silent == old(silent)
      ensures !old(inUse) ==>
                var r := SentBy(h, Flatten(programs), ending);
                && IsSent(r, h, Flatten(programs), ending)
                && nEvts == old(nEvts) + 1
                && sent == old(sent) + (if r.Ok? then r.value else [])
                && nDropsBuffer == old(nDropsBuffer) + (if r.BufferFull? then 1 else 0)
                && nDropsPf == old(nDropsPf) + (if r.InvalidUserMemory? then 1 else 0)
                && nDropsBug == old(nDropsBug) + (if r.Bug? then 1 else 0)
                && silent == old(silent) + (if r == Ok([]) then 1 else 0)
                && hotplugCpu == (if r == Ok([]) && ending == Push(CpuGone) then cpu else old(hotplugCpu))
    {
      hide FrameVals, Flatten, SentBy, IsSent, Frame.Started, Usable;
      if inUse {
        FlattenUsable(programs, |programs|);
        assert programs[..|programs|] == programs;
        return;
      }
      inUse := true;
      frame.ResetTailCtx(h.nparams);
      nEvts := nEvts + 1;
      SentAtMostOne(h, programs, ending);
      SentLaw(h, Flatten(programs), ending);
      if ending.Unreached? {
        SilentIff(h, Flatten(programs), ending);
        silent, inUse := silent + 1, false;
        return;
      }
      var r := Chain(frame, h, programs, ending);
      match r {
        case Ok(frames) =>
          if frames == [] {
            silent := silent + 1;
            if ending == Push(CpuGone) {
              hotplugCpu := cpu;
            }
          }
          sent := sent + frames;
        case BufferFull => nDropsBuffer := nDropsBuffer + 1;
        case InvalidUserMemory => nDropsPf := nDropsPf + 1;
        case Bug => nDropsBug := nDropsBug + 1;
      }
      inUse := false;
    }
  }

  lemma SentAtMostOne(h: Header, programs: seq<seq<FrameArg>>, ending: Ending)
    requires AllUsable(programs)
    ensures Usable(Flatten(programs))
    ensures var r := SentBy(h, Flatten(programs), ending);
            r.Ok? ==> |r.value| <= 1
  {
    hide FrameVals, Flatten;
    FlattenUsable(programs, |programs|);
    assert programs[..|programs|] == programs;
  }

  /** A counted event is lost silently exactly when no program was reached, or its arguments were
      gathered and then either the filler skipped it, or a complete frame that fits met a CPU
      that is gone. */
  lemma SilentIff(h: Header, args: seq<FrameArg>, ending: Ending)
    requires Usable(args)
    ensures SentBy(h, args, ending) == Ok([]) <==>
              || ending.Unreached?
              || (&& FrameVals(HEADER + 2 * h.nparams, args).Ok?
                  && (ending.Skip? || (ending == Push(CpuGone) && FrameOf(h, args).Ok?)))
  {
    hide FrameVals;
  }

  /** For one, an event without parameters whose CPU has gone. */
  lemma SilentWitness()
    ensures SentBy(Header(0, 0, 0, 0), [], Push(CpuGone)) == Ok([])
  {
    assert FrameVals(HEADER, []) == Ok([]);
    assert Data([]) == [];
  }
}
