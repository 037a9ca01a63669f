/** The gate that keeps a ring to one writer when an event is recorded in the middle of another
    one on the same CPU, and the counters kept around it. */
module PreemptGate {

  /** Where a call of the recorder is, from the test of `capture_enabled` to its return. */
  datatype Pc =
    | Entered
    | Counted     // n_evts incremented
    | Refused     // preempt_count incremented, not to 1
    | Noted       // the refusal is counted, or excused
    | Past        // preempt_count incremented to 1: filling the ring
    | Settled     // head moved, or a drop counted

  datatype Frame = Frame(pageFault: bool, pc: Pc)

  datatype Outcome = Commit | BufferFull | UserFault | BugClass

  datatype Gate = Gate(
    frames: seq<Frame>, preemptCount: nat, nEvts: nat, nPreemptions: nat,
    committed: nat, nDropsBuffer: nat, nDropsPf: nat, bugs: nat, excused: nat)

  datatype Label = Enter(pageFault: bool) | Step(i: nat, outcome: Outcome)

  predicate Enabled(g: Gate, l: Label) {
    l.Step? ==> l.i < |g.frames|
  }

  function At(g: Gate, i: nat, pc: Pc): Gate
    requires i < |g.frames|
  {
    g.(frames := g.frames[i := g.frames[i].(pc := pc)])
  }

  function Gone(g: Gate, i: nat): Gate
    requires i < |g.frames| && g.preemptCount > 0
  {
    g.(frames := g.frames[..i] + g.frames[i + 1..], preemptCount := g.preemptCount - 1)
  }

  /** One step of any call in progress; `outcome` is what its filler comes to. */
  function Next(g: Gate, l: Label): Gate
    requires Enabled(g, l) && Inv(g)
  {
    match l
    case Enter(pageFault) => g.(frames := g.frames + [Frame(pageFault, Entered)])
    case Step(i, outcome) =>
      TallyOne(g.frames, i, Live);
      match g.frames[i].pc
      case Entered => At(g, i, Counted).(nEvts := g.nEvts + 1)
      case Counted =>
        At(g, i, if g.preemptCount + 1 != 1 then Refused else Past).(preemptCount := g.preemptCount + 1)
      case Refused =>
        if g.frames[i].pageFault then At(g, i, Noted).(excused := g.excused + 1)
        else At(g, i, Noted).(nPreemptions := g.nPreemptions + 1)
      case Noted => Gone(g, i)
      case Past =>
        (match outcome
         case Commit => At(g, i, Settled).(committed := g.committed + 1)
         case BufferFull => At(g, i, Settled).(nDropsBuffer := g.nDropsBuffer + 1)
         case UserFault => At(g, i, Settled).(nDropsPf := g.nDropsPf + 1)
         case BugClass => At(g, i, Settled).(bugs := g.bugs + 1))
      case Settled => Gone(g, i)
  }

  datatype Kind = Live | Inside | Owing

  function Weight(f: Frame, k: Kind): nat {
    match k
    case Live => if f.pc.Entered? || f.pc.Counted? then 0 else 1
    case Inside => if f.pc.Past? || f.pc.Settled? then 1 else 0
    case Owing => if f.pc.Counted? || f.pc.Refused? || f.pc.Past? then 1 else 0
  }

  function Tally(fs: seq<Frame>, k: Kind): nat {
    if fs == [] then 0 else Weight(fs[0], k) + Tally(fs[1..], k)
  }

  /** preempt_count is the number of calls that have raised it and not yet lowered it, at most
      one call is past the gate, and each event counted is accounted for or still in hand. */
  predicate Inv(g: Gate) {
    && g.preemptCount == Tally(g.frames, Live)
    && Tally(g.frames, Inside) <= 1
    && g.nEvts == g.committed + g.nDropsBuffer + g.nDropsPf + g.nPreemptions + g.bugs + g.excused
                  + Tally(g.frames, Owing)
  }

  lemma {:induction false} TallyOne(fs: seq<Frame>, i: nat, k: Kind)
    requires i < |fs|
    ensures Weight(fs[i], k) <= Tally(fs, k)
    decreases i
  {
    if i > 0 {
      TallyOne(fs[1..], i - 1, k);
    }
  }

  lemma {:induction false} TallyUpdate(fs: seq<Frame>, i: nat, f: Frame, k: Kind)
    requires i < |fs|
    ensures Tally(fs[i := f], k) == Tally(fs, k) - Weight(fs[i], k) + Weight(f, k)
    decreases i
  {
    if i > 0 {
      TallyUpdate(fs[1..], i - 1, f, k);
      assert fs[i := f][1..] == fs[1..][i - 1 := f];
    } else {
      assert fs[i := f][1..] == fs[1..];
    }
  }

  lemma {:induction false} TallyRemove(fs: seq<Frame>, i: nat, k: Kind)
    requires i < |fs|
    ensures Tally(fs[..i] + fs[i + 1..], k) == Tally(fs, k) - Weight(fs[i], k)
    decreases i
  {
    if i > 0 {
      TallyRemove(fs[1..], i - 1, k);
      assert (fs[..i] + fs[i + 1..])[1..] == fs[1..][..i - 1] + fs[1..][i..];
    } else {
      assert fs[..0] + fs[1..] == fs[1..];
    }
  }

  lemma {:induction false} TallyAppend(fs: seq<Frame>, f: Frame, k: Kind)
    ensures Tally(fs + [f], k) == Tally(fs, k) + Weight(f, k)
  {
    if fs != [] {
      TallyAppend(fs[1..], f, k);
      assert (fs + [f])[1..] == fs[1..] + [f];
    } else {
      assert fs + [f] == [f];
    }
  }

  lemma {:induction false} InsideIsLive(fs: seq<Frame>)
    ensures Tally(fs, Inside) <= Tally(fs, Live)
  {
    if fs != [] {
      InsideIsLive(fs[1..]);
    }
  }

  lemma Moved(g: Gate, i: nat, pc: Pc, k: Kind)
    requires i < |g.frames|
    ensures Tally(At(g, i, pc).frames, k) ==
            Tally(g.frames, k) - Weight(g.frames[i], k) + Weight(g.frames[i].(pc := pc), k)
  {
    TallyUpdate(g.frames, i, g.frames[i].(pc := pc), k);
  }

  lemma StepKeepsInv(g: Gate, l: Label)
    requires Inv(g) && Enabled(g, l)
    ensures Inv(Next(g, l))
  {
    hide Tally;
    match l {
      case Enter(pageFault) =>
        TallyAppend(g.frames, Frame(pageFault, Entered), Live);
        TallyAppend(g.frames, Frame(pageFault, Entered), Inside);
        TallyAppend(g.frames, Frame(pageFault, Entered), Owing);
      case Step(i, outcome) =>
        var pc := g.frames[i].pc;
        if pc.Noted? || pc.Settled? {
          TallyRemove(g.frames, i, Live);
          TallyRemove(g.frames, i, Inside);
          TallyRemove(g.frames, i, Owing);
        } else {
          InsideIsLive(g.frames);
          var next := if pc.Entered? then Counted
                      else if pc.Counted? then (if g.preemptCount == 0 then Past else Refused)
                      else if pc.Refused? then Noted else Settled;
          Moved(g, i, next, Live);
          Moved(g, i, next, Inside);
          Moved(g, i, next, Owing);
        }
    }
  }

  predicate Runs(g: Gate, labels: seq<Label>)
    requires Inv(g)
    decreases |labels|
  {
    labels == [] ||
    (Enabled(g, labels[0]) && (StepKeepsInv(g, labels[0]); Runs(Next(g, labels[0]), labels[1..])))
  }

  function Final(g: Gate, labels: seq<Label>): (g': Gate)
    requires Inv(g) && Runs(g, labels)
    ensures Inv(g')
    decreases |labels|
  {
    if labels == [] then g else
      StepKeepsInv(g, labels[0]);
      Final(Next(g, labels[0]), labels[1..])
  }

  lemma {:induction false} TwoInside(fs: seq<Frame>, i: nat, j: nat)
    requires i < j < |fs| && Weight(fs[i], Inside) == Weight(fs[j], Inside) == 1
    ensures Tally(fs, Inside) >= 2
    decreases i
  {
    if i == 0 {
      TallyOne(fs[1..], j - 1, Inside);
    } else {
      TwoInside(fs[1..], i - 1, j - 1);
    }
  }

  /** Over every run of calls entering, nesting and leaving in any order: never two past the
      gate. */
  lemma OneWriter(g: Gate, labels: seq<Label>, i: nat, j: nat)
    requires Inv(g) && Runs(g, labels)
    requires i < |Final(g, labels).frames| && j < |Final(g, labels).frames|
    requires Weight(Final(g, labels).frames[i], Inside) == Weight(Final(g, labels).frames[j], Inside) == 1
    ensures i == j
  {
    var fs := Final(g, labels).frames;
    if i < j {
      TwoInside(fs, i, j);
    } else if j < i {
      TwoInside(fs, j, i);
    }
  }

  /** When no call is in progress the gate is open, and every event counted was committed,
      dropped for one of the counted reasons, refused at the gate, excused or a bug. */
  lemma Conservation(g: Gate, labels: seq<Label>)
    requires Inv(g) && Runs(g, labels) && Final(g, labels).frames == []
    ensures var g' := Final(g, labels);
            && g'.preemptCount == 0
            && g'.nEvts == g'.committed + g'.nDropsBuffer + g'.nDropsPf + g'.nPreemptions + g'.bugs + g'.excused
  {
    var fs := Final(g, labels).frames;
    assert fs == [];
    assert Tally(fs, Live) == 0 && Tally(fs, Owing) == 0;
  }

  function SettledAs(g: Gate, l: Label, o: Outcome): nat
    requires Enabled(g, l)
  {
    if l.Step? && g.frames[l.i].pc.Past? && l.outcome == o then 1 else 0
  }

  function RefusedAs(g: Gate, l: Label, pageFault: bool): nat
    requires Enabled(g, l)
  {
    if l.Step? && g.frames[l.i] == Frame(pageFault, Refused) then 1 else 0
  }

  /** How many calls of a run came to this outcome past the gate. */
  function Outcomes(g: Gate, labels: seq<Label>, o: Outcome): nat
    requires Inv(g) && Runs(g, labels)
    decreases |labels|
  {
    if labels == [] then 0 else
      StepKeepsInv(g, labels[0]);
      SettledAs(g, labels[0], o) + Outcomes(Next(g, labels[0]), labels[1..], o)
  }

  /** How many were refused at the gate, by kind. */
  function Refusals(g: Gate, labels: seq<Label>, pageFault: bool): nat
    requires Inv(g) && Runs(g, labels)
    decreases |labels|
  {
    if labels == [] then 0 else
      StepKeepsInv(g, labels[0]);
      RefusedAs(g, labels[0], pageFault) + Refusals(Next(g, labels[0]), labels[1..], pageFault)
  }

  lemma StepCounts(g: Gate, l: Label)
    requires Inv(g) && Enabled(g, l)
    ensures var g' := Next(g, l);
            && g'.committed == g.committed + SettledAs(g, l, Commit)
            && g'.nDropsBuffer == g.nDropsBuffer + SettledAs(g, l, BufferFull)
            && g'.nDropsPf == g.nDropsPf + SettledAs(g, l, UserFault)
            && g'.bugs == g.bugs + SettledAs(g, l, BugClass)
            && g'.nPreemptions == g.nPreemptions + RefusedAs(g, l, false)
            && g'.excused == g.excused + RefusedAs(g, l, true)
  {
    hide Tally;
  }

  /** Each counter is the number of calls that came to its outcome. */
  lemma {:induction false} CountersAreOutcomes(g: Gate, labels: seq<Label>)
    requires Inv(g) && Runs(g, labels)
    ensures var g' := Final(g, labels);
            && g'.committed == g.committed + Outcomes(g, labels, Commit)
            && g'.nDropsBuffer == g.nDropsBuffer + Outcomes(g, labels, BufferFull)
            && g'.nDropsPf == g.nDropsPf + Outcomes(g, labels, UserFault)
            && g'.bugs == g.bugs + Outcomes(g, labels, BugClass)
            && g'.nPreemptions == g.nPreemptions + Refusals(g, labels, false)
            && g'.excused == g.excused + Refusals(g, labels, true)
    decreases |labels|
  {
    if labels != [] {
      hide Inv, Tally, Next, SettledAs, RefusedAs;
      StepKeepsInv(g, labels[0]);
      StepCounts(g, labels[0]);
      CountersAreOutcomes(Next(g, labels[0]), labels[1..]);
    }
  }

  lemma {:induction false} NoneLive(fs: seq<Frame>)
    ensures Tally(fs, Live) == 0 <==> forall i :: 0 <= i < |fs| ==> fs[i].pc.Entered? || fs[i].pc.Counted?
  {
    if fs != [] {
      NoneLive(fs[1..]);
      assert fs == [fs[0]] + fs[1..];
    }
  }

  /** A call passes the gate exactly when no other is between raising the count and lowering it;
      else it is refused. */
  lemma GateOpensIff(g: Gate, j: nat, outcome: Outcome)
    requires Inv(g) && j < |g.frames| && g.frames[j].pc.Counted?
    ensures var pc := Next(g, Step(j, outcome)).frames[j].pc;
            && (pc.Past? || pc.Refused?)
            && (pc.Past? <==> forall i :: 0 <= i < |g.frames| ==> g.frames[i].pc.Entered? || g.frames[i].pc.Counted?)
  {
    NoneLive(g.frames);
  }

  /** While one call is past the gate every other that arrives is refused. */
  lemma GateShut(g: Gate, i: nat, j: nat, outcome: Outcome)
    requires Inv(g) && i < |g.frames| && j < |g.frames|
    requires Weight(g.frames[i], Inside) == 1 && g.frames[j].pc.Counted?
    ensures Next(g, Step(j, outcome)).frames[j].pc.Refused?
  {
    TallyOne(g.frames, i, Live);
  }
}
