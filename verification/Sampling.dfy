/** Dropping mode: the sampling state machine of the kernel module, with its owed markers,
    and the one of the BPF probe. */
module Sampling {
  import Bytes

  const SECOND: nat := 1_000_000_000

  datatype Flag = Plain | NeverDrop | AlwaysDrop

  /** An event as the drop logic sees it.  `nostate` is the verdict on close, bind and fcntl
      calls that do not matter to the reader. */
  datatype Event = Event(tag: nat, ts: nat, flag: Flag, nostate: bool)

  /** The settings in force when an event arrives. */
  datatype Settings = Settings(dropping: bool, ratio: nat) {
    predicate Valid() {
      ratio > 0
    }
  }

  /** Past the sampled part of its second. */
  predicate Outside(s: Settings, ts: nat)
    requires s.Valid()
  {
    ts % SECOND >= SECOND / s.ratio
  }

  datatype Item = Captured(tag: nat) | DropE | DropX

  datatype Input = Input(event: Event, settings: Settings)

  predicate Usable(inputs: seq<Input>) {
    forall i :: 0 <= i < |inputs| ==> inputs[i].settings.Valid()
  }

  // ----- The kernel module -----

  datatype Attempt = Attempt(item: Item, ok: bool)

  /** A consumer's flags, what the ring will answer to its next inserts (success beyond the
      list), all attempts so far, and how often dropping was entered and left.  `mergedE` and
      `mergedX` count markers that fell due while one of their kind was still owed. */
  datatype Kernel = Kernel(
    isDropping: bool, owesE: bool, owesX: bool, fates: seq<bool>, log: seq<Attempt>,
    entries: nat, exits: nat, mergedE: nat, mergedX: nat)

  function NextFate(k: Kernel): bool {
    k.fates == [] || k.fates[0]
  }

  function Insert(k: Kernel, item: Item): Kernel {
    k.(fates := if k.fates == [] then [] else k.fates[1..], log := k.log + [Attempt(item, NextFate(k))])
  }

  /** Try to insert a marker, and owe it if that fails. */
  function Mark(k: Kernel, m: Item): Kernel
    requires !m.Captured?
  {
    var tried := Insert(k, m);
    if m == DropE then tried.(owesE := !NextFate(k)) else tried.(owesX := !NextFate(k))
  }

  /** An owed marker is tried again before each event. */
  function Retried(k: Kernel): Kernel {
    if k.owesE then Mark(k, DropE) else if k.owesX then Mark(k, DropX) else k
  }

  function Enter(k: Kernel): Kernel {
    Mark(k.(isDropping := true, entries := k.entries + 1, mergedE := k.mergedE + if k.owesE then 1 else 0), DropE)
  }

  function Leave(k: Kernel): Kernel {
    Mark(k.(isDropping := false, exits := k.exits + 1, mergedX := k.mergedX + if k.owesX then 1 else 0), DropX)
  }

  /** The state after `drop_event`, and whether the event is dropped. */
  function Dropped(k: Kernel, i: Input): (Kernel, bool)
    requires i.settings.Valid()
  {
    if i.settings.dropping && i.event.nostate then (k, true)
    else if i.event.flag == NeverDrop || !i.settings.dropping then (k, false)
    else if i.event.flag == AlwaysDrop then (k, true)
    else if Outside(i.settings, i.event.ts) then (if k.isDropping then k else Enter(k), true)
    else (if k.isDropping then Leave(k) else k, false)
  }

  function Step(k: Kernel, i: Input): Kernel
    requires i.settings.Valid()
  {
    var (k', drop) := Dropped(Retried(k), i);
    if drop then k' else Insert(k', Captured(i.event.tag))
  }

  function Run(k: Kernel, inputs: seq<Input>): Kernel
    requires Usable(inputs)
    decreases |inputs|
  {
    if inputs == [] then k else Run(Step(k, inputs[0]), inputs[1..])
  }

  class Consumer {
    var isDropping: bool
    var owesE: bool
    var owesX: bool
    var fates: seq<bool>
    var log: seq<Attempt>
    ghost var entries: nat
    ghost var exits: nat
    ghost var mergedE: nat
    ghost var mergedX: nat

    ghost function View(): Kernel
      reads this
    {
      Kernel(isDropping, owesE, owesX, fates, log, entries, exits, mergedE, mergedX)
    }

    /** A consumer as `ppm_open` leaves it. */
    constructor (fates: seq<bool>)
      ensures View() == Opened(fates)
    {
      isDropping, owesE, owesX := false, false, false;
      this.fates, log := fates, [];
      entries, exits, mergedE, mergedX := 0, 0, 0, 0;
    }

    /** The ring part of `record_event_consumer`, which succeeds or not. */
    method InsertItem(item: Item) returns (ok: bool)
      modifies this
      ensures View() == Insert(old(View()), item) && ok == NextFate(old(View()))
    {
      ok := fates == [] || fates[0];
      log := log + [Attempt(item, ok)];
      if fates != [] {
        fates := fates[1..];
      }
    }

    /** `record_event_consumer`.  Markers skip the drop logic, so the calls nest at most two
        deep below an event: a marker is recorded from `RecordDropE` or `RecordDropX`. */
    method RecordEvent(item: Item, i: Input) returns (ok: bool)
      requires i.settings.Valid() && (item.Captured? ==> item.tag == i.event.tag)
      modifies this
      ensures item.Captured? ==> View() == Step(old(View()), i)
      ensures item.Captured? ==>
                ok == var (k, drop) := Dropped(Retried(old(View())), i); (!drop && NextFate(k))
      ensures !item.Captured? ==> View() == Insert(old(View()), item) && ok == NextFate(old(View()))
      decreases if item.Captured? then 3 else 0
    {
      if item.Captured? {
        if owesE {
          RecordDropE(i);
        } else if owesX {
          RecordDropX(i);
        }
        var drop := DropEvent(i);
        if drop {
          return false;
        }
      }
      ok := InsertItem(item);
    }

    method RecordDropE(i: Input)
      requires i.settings.Valid()
      modifies this
      ensures View() == Mark(old(View()), DropE)
      decreases 1
    {
      var ok := RecordEvent(DropE, i);
      owesE := !ok;
    }

    method RecordDropX(i: Input)
      requires i.settings.Valid()
      modifies this
      ensures View() == Mark(old(View()), DropX)
      decreases 1
    {
      var ok := RecordEvent(DropX, i);
      owesX := !ok;
    }

    /** `drop_event`. */
    method DropEvent(i: Input) returns (drop: bool)
      requires i.settings.Valid()
      modifies this
      ensures (View(), drop) == Dropped(old(View()), i)
      ensures (drop <==> !Kept(i)) && Inserted(old(View()), View(), Due(old(isDropping), i))
      ensures isDropping == if Sampled(i) then !InFirstPart(i) else old(isDropping)
      decreases 2
    {
      DroppedInserts(View(), i);
      hide Inserted, Kept, Due, InFirstPart;
      if i.settings.dropping && i.event.nostate {
        return true;
      }
      if i.event.flag == NeverDrop {
        return false;
      }
      if i.settings.dropping {
        if i.event.flag == AlwaysDrop {
          return true;
        }
        if Outside(i.settings, i.event.ts) {
          if !isDropping {
            entries, mergedE := entries + 1, mergedE + if owesE then 1 else 0;
            isDropping := true;
            RecordDropE(i);
          }
          return true;
        }
        if isDropping {
          exits, mergedX := exits + 1, mergedX + if owesX then 1 else 0;
          isDropping := false;
          RecordDropX(i);
        }
      }
      return false;
    }
  }

  // ----- Markers under failing inserts -----

  function Committed(log: seq<Attempt>): (s: seq<Item>) {
    if log == [] then []
    else Committed(log[..|log| - 1]) + if log[|log| - 1].ok then [log[|log| - 1].item] else []
  }

  function Count(s: seq<Item>, m: Item): nat {
    if s == [] then 0 else Count(s[..|s| - 1], m) + if s[|s| - 1] == m then 1 else 0
  }

  /** The latest attempt to insert this marker failed. */
  predicate LastFailed(log: seq<Attempt>, m: Item) {
    log != [] &&
    if log[|log| - 1].item == m then !log[|log| - 1].ok else LastFailed(log[..|log| - 1], m)
  }

  lemma LogStep(log: seq<Attempt>, item: Item, ok: bool, m: Item)
    ensures Committed(log + [Attempt(item, ok)]) == Committed(log) + if ok then [item] else []
    ensures Count(Committed(log + [Attempt(item, ok)]), m)
         == Count(Committed(log), m) + if ok && item == m then 1 else 0
    ensures LastFailed(log + [Attempt(item, ok)], m) <==> if item == m then !ok else LastFailed(log, m)
  {
    var longer := log + [Attempt(item, ok)];
    assert longer[..|longer| - 1] == log;
    var s := Committed(log) + [item];
    assert s[..|s| - 1] == Committed(log);
    assert Committed(longer) == if ok then s else Committed(log);
  }

  function Owed(owes: bool): nat {
    if owes then 1 else 0
  }

  /** Every entry into dropping is a committed marker, an owed one, or one that fell due while
      another was owed; likewise every exit. */
  predicate Accounted(k: Kernel) {
    && k.entries == k.exits + Owed(k.isDropping)
    && k.entries == Count(Committed(k.log), DropE) + Owed(k.owesE) + k.mergedE
    && k.exits == Count(Committed(k.log), DropX) + Owed(k.owesX) + k.mergedX
    && (k.owesE <==> LastFailed(k.log, DropE))
    && (k.owesX <==> LastFailed(k.log, DropX))
  }

  lemma RetriedKeeps(k: Kernel)
    requires Accounted(k)
    ensures Accounted(Retried(k)) && Retried(k).isDropping == k.isDropping
  {
    hide Committed, Count, LastFailed;
    LogStep(k.log, DropE, NextFate(k), DropE);
    LogStep(k.log, DropE, NextFate(k), DropX);
    LogStep(k.log, DropX, NextFate(k), DropE);
    LogStep(k.log, DropX, NextFate(k), DropX);
  }

  lemma EnterKeeps(k: Kernel)
    requires Accounted(k) && !k.isDropping
    ensures Accounted(Enter(k))
  {
    hide Committed, Count, LastFailed;
    LogStep(k.log, DropE, NextFate(k), DropE);
    LogStep(k.log, DropE, NextFate(k), DropX);
  }

  lemma LeaveKeeps(k: Kernel)
    requires Accounted(k) && k.isDropping
    ensures Accounted(Leave(k))
  {
    hide Committed, Count, LastFailed;
    LogStep(k.log, DropX, NextFate(k), DropE);
    LogStep(k.log, DropX, NextFate(k), DropX);
  }

  lemma DroppedKeeps(k: Kernel, i: Input)
    requires Accounted(k) && i.settings.Valid()
    ensures Accounted(Dropped(k, i).0)
  {
    hide Committed, Count, LastFailed, Enter, Leave, Outside;
    if k.isDropping {
      LeaveKeeps(k);
    } else {
      EnterKeeps(k);
    }
  }

  lemma StepKeeps(k: Kernel, i: Input)
    requires Accounted(k) && i.settings.Valid()
    ensures Accounted(Step(k, i))
  {
    hide Committed, Count, LastFailed, Retried, Enter, Leave;
    RetriedKeeps(k);
    var d := Dropped(Retried(k), i).0;
    DroppedKeeps(Retried(k), i);
    hide Dropped;
    LogStep(d.log, Captured(i.event.tag), NextFate(d), DropE);
    LogStep(d.log, Captured(i.event.tag), NextFate(d), DropX);
  }

  /** Over every run, whatever the ring answers: dropping is on exactly when it was entered
      once more than left; no marker is committed or owed that was not due; and a marker is
      owed exactly when the latest attempt to insert one of its kind failed. */
  lemma {:induction false} MarkersAccounted(k: Kernel, inputs: seq<Input>)
    requires Accounted(k) && Usable(inputs)
    ensures var k' := Run(k, inputs);
            && Accounted(k')
            && Count(Committed(k'.log), DropE) + Owed(k'.owesE) <= k'.entries
            && Count(Committed(k'.log), DropX) + Owed(k'.owesX) <= k'.exits
    decreases |inputs|
  {
    if inputs != [] {
      StepKeeps(k, inputs[0]);
      MarkersAccounted(Step(k, inputs[0]), inputs[1..]);
    }
  }

  /** A consumer as `ppm_open` leaves it. */
  function Opened(fates: seq<bool>): Kernel {
    Kernel(false, false, false, fates, [], 0, 0, 0, 0)
  }

  /** From open on, then: no marker is committed that was not due, and with dropping off as many
      exits as entries have been due. */
  lemma MarkersFromOpen(fates: seq<bool>, inputs: seq<Input>)
    requires Usable(inputs)
    ensures var k := Run(Opened(fates), inputs);
            && k.entries == k.exits + Owed(k.isDropping)
            && Count(Committed(k.log), DropE) + Owed(k.owesE) + k.mergedE == k.entries
            && Count(Committed(k.log), DropX) + Owed(k.owesX) + k.mergedX == k.exits
            && (k.owesE <==> LastFailed(k.log, DropE)) && (k.owesX <==> LastFailed(k.log, DropX))
  {
    MarkersAccounted(Opened(fates), inputs);
  }

  /** With failing inserts a DROP_X can be committed before any DROP_E. */
  lemma ExitCanComeFirst()
    ensures var inputs := [Input(Event(1, SECOND - 1, Plain, false), Settings(true, 2)),
                           Input(Event(2, SECOND, Plain, false), Settings(true, 2))];
            var k := Run(Kernel(false, false, false, [false, false], [], 0, 0, 0, 0), inputs);
            Committed(k.log) == [DropX, Captured(2)] && k.owesE
  {
    hide Committed, LastFailed, Count;
    var a := Input(Event(1, SECOND - 1, Plain, false), Settings(true, 2));
    var b := Input(Event(2, SECOND, Plain, false), Settings(true, 2));
    var k0 := Kernel(false, false, false, [false, false], [], 0, 0, 0, 0);
    var k1 := Kernel(true, true, false, [false], [Attempt(DropE, false)], 1, 0, 0, 0);
    var log := [Attempt(DropE, false), Attempt(DropE, false), Attempt(DropX, true)];
    assert Step(k0, a) == k1;
    assert Step(k1, b).log == log + [Attempt(Captured(2), true)] && Step(k1, b).owesE;
    assert [a, b][1..] == [b] && [b][1..] == [];
    assert Run(k0, [a, b]) == Run(k1, [b]) == Run(Step(k1, b), []);
    CommittedNothing();
    var failed := Attempt(DropE, false);
    assert [] + [failed] == [failed] && [failed] + [failed] == [failed, failed];
    assert log == [failed, failed] + [Attempt(DropX, true)];
    LogStep([], DropE, false, DropE);
    LogStep([failed], DropE, false, DropE);
    LogStep([failed, failed], DropX, true, DropE);
    LogStep(log, Captured(2), true, DropE);
  }

  lemma CommittedNothing()
    ensures Committed([]) == []
  {
  }

  // ----- When the committed markers alternate -----

  /** The markers alternate from a DROP_E on; the last says whether dropping is on. */
  predicate EndsIn(s: seq<Item>, isDropping: bool) {
    if s == [] then !isDropping
    else
      match s[|s| - 1]
      case DropE => isDropping && EndsIn(s[..|s| - 1], false)
      case DropX => !isDropping && EndsIn(s[..|s| - 1], true)
      case Captured(_) => EndsIn(s[..|s| - 1], isDropping)
  }

  predicate Alternates(s: seq<Item>) {
    EndsIn(s, false) || EndsIn(s, true)
  }

  lemma {:induction false} EndsInCounts(s: seq<Item>, isDropping: bool)
    requires EndsIn(s, isDropping)
    ensures Count(s, DropE) == Count(s, DropX) + Owed(isDropping)
  {
    if s != [] {
      var last := s[|s| - 1];
      EndsInCounts(s[..|s| - 1], if last.Captured? then isDropping else last == DropX);
    }
  }

  lemma AlternatesMore(s: seq<Item>, item: Item)
    ensures Alternates(s + [item]) <==>
            Alternates(s) && 0 <= Count(s + [item], DropE) - Count(s + [item], DropX) <= 1
  {
    var longer := s + [item];
    assert longer[..|longer| - 1] == s;
    if EndsIn(s, false) {
      EndsInCounts(s, false);
    }
    if EndsIn(s, true) {
      EndsInCounts(s, true);
    }
  }

  /** What the flags say the reader has seen: one DROP_E more than DROP_X, or none. */
  function Balance(k: Kernel): int {
    Owed(k.isDropping) - Owed(k.owesE) + Owed(k.owesX) + k.mergedX - k.mergedE
  }

  predicate Even(k: Kernel) {
    0 <= Balance(k) <= 1
  }

  predicate InStep(k: Kernel) {
    Alternates(Committed(k.log))
  }

  lemma CommittedBalance(k: Kernel)
    requires Accounted(k)
    ensures Balance(k) == Count(Committed(k.log), DropE) - Count(Committed(k.log), DropX)
    ensures InStep(k) ==> Even(k)
  {
    hide Committed, Count, LastFailed, EndsIn;
    if EndsIn(Committed(k.log), false) {
      EndsInCounts(Committed(k.log), false);
    }
    if EndsIn(Committed(k.log), true) {
      EndsInCounts(Committed(k.log), true);
    }
  }

  /** One attempt more keeps the markers alternating exactly when it leaves the flags even. */
  lemma AttemptInStep(k: Kernel, a: Attempt, k': Kernel)
    requires Accounted(k) && Accounted(k') && k'.log == k.log + [a]
    ensures InStep(k') <==> InStep(k) && Even(k')
  {
    hide Committed, Count, LastFailed, Alternates, Accounted, Even;
    CommittedBalance(k');
    LogStep(k.log, a.item, a.ok, DropE);
    if a.ok {
      AlternatesMore(Committed(k.log), a.item);
      assert Even(k') <==> 0 <= Balance(k') <= 1 by {
        EvenIs(k');
      }
    } else {
      assert Committed(k'.log) == Committed(k.log);
    }
  }

  lemma EvenIs(k: Kernel)
    ensures Even(k) <==> 0 <= Balance(k) <= 1
  {
  }

  lemma RetriedInStep(k: Kernel)
    requires Accounted(k)
    ensures Accounted(Retried(k)) && (InStep(Retried(k)) <==> InStep(k) && Even(Retried(k)))
  {
    hide Committed, Alternates, Accounted, Even;
    RetriedKeeps(k);
    if k.owesE {
      AttemptInStep(k, Attempt(DropE, NextFate(k)), Retried(k));
    } else if k.owesX {
      AttemptInStep(k, Attempt(DropX, NextFate(k)), Retried(k));
    } else {
      CommittedBalance(k);
    }
  }

  lemma DroppedInStep(k: Kernel, i: Input)
    requires Accounted(k) && i.settings.Valid()
    ensures var d := Dropped(k, i).0; Accounted(d) && (InStep(d) <==> InStep(k) && Even(d))
  {
    hide Committed, Alternates, Accounted, Even, Outside;
    DroppedKeeps(k, i);
    CommittedBalance(k);
    var d := Dropped(k, i).0;
    if d == Enter(k) {
      AttemptInStep(k, Attempt(DropE, NextFate(k)), d);
    } else if d == Leave(k) {
      AttemptInStep(k, Attempt(DropX, NextFate(k)), d);
    }
  }

  lemma CapturedInStep(k: Kernel, i: Input)
    requires Accounted(k) && i.settings.Valid()
    ensures Accounted(Step(k, i)) && (InStep(Step(k, i)) <==> InStep(Dropped(Retried(k), i).0))
  {
    hide Committed, Alternates, Accounted, Even, Retried, Dropped, LastFailed, Count;
    StepKeeps(k, i);
    RetriedKeeps(k);
    DroppedKeeps(Retried(k), i);
    var d := Dropped(Retried(k), i).0;
    CommittedBalance(d);
    EvenIs(d);
    EvenIs(Step(k, i));
    if !Dropped(Retried(k), i).1 {
      AttemptInStep(d, Attempt(Captured(i.event.tag), NextFate(d)), Step(k, i));
    }
  }

  /** After each attempt of the run the flags are even. */
  predicate EvenRun(k: Kernel, inputs: seq<Input>)
    requires Usable(inputs)
    decreases |inputs|
  {
    inputs == [] ||
    (&& Even(Retried(k)) && Even(Dropped(Retried(k), inputs[0]).0)
     && EvenRun(Step(k, inputs[0]), inputs[1..]))
  }

  lemma {:induction false} RunInStepIff(k: Kernel, inputs: seq<Input>)
    requires Accounted(k) && Usable(inputs)
    ensures InStep(Run(k, inputs)) <==> InStep(k) && EvenRun(k, inputs)
    decreases |inputs|
  {
    hide InStep, Even, Accounted, Retried, Dropped, Step;
    if inputs != [] {
      RetriedInStep(k);
      DroppedInStep(Retried(k), inputs[0]);
      CapturedInStep(k, inputs[0]);
      RunInStepIff(Step(k, inputs[0]), inputs[1..]);
    }
  }

  /** Whatever the ring answers: the markers that reach the reader alternate exactly when no
      attempt leaves the flags uneven. */
  lemma MarkersAlternateIff(fates: seq<bool>, inputs: seq<Input>)
    requires Usable(inputs)
    ensures Alternates(Committed(Run(Opened(fates), inputs).log)) <==> EvenRun(Opened(fates), inputs)
  {
    RunInStepIff(Opened(fates), inputs);
    CommittedNothing();
  }

  /** As long as no marker has fallen due while one of its kind was owed, the attempts that
      break the alternation are those that succeed in this state of the flags, and no others. */
  lemma OutOfStepIff(k: Kernel)
    requires Even(k) && k.mergedE == k.mergedX
    ensures Even(Retried(k)) <==> !(NextFate(k) && k.owesE && k.owesX && k.isDropping)
    ensures !k.isDropping ==> (Even(Enter(k)) <==> !(NextFate(k) && k.owesX && !k.owesE))
    ensures k.isDropping ==> (Even(Leave(k)) <==> !(NextFate(k) && k.owesE && !k.owesX))
  {
  }

  // ----- The BPF probe -----

  datatype Bpf = Bpf(isDropping: bool, stream: seq<Item>)

  /** `drop_event` and `call_filler`: a marker takes the place of the event it comes with. */
  function BpfStep(b: Bpf, i: Input): Bpf
    requires i.settings.Valid()
  {
    var captured := b.(stream := b.stream + [Captured(i.event.tag)]);
    if !i.settings.dropping then captured
    else if i.event.nostate then b
    else if i.event.flag == NeverDrop then captured
    else if i.event.flag == AlwaysDrop then b
    else if Outside(i.settings, i.event.ts) then
      if b.isDropping then b else Bpf(true, b.stream + [DropE])
    else if b.isDropping then Bpf(false, b.stream + [DropX])
    else captured
  }

  class Probe {
    var isDropping: bool
    var stream: seq<Item>
    var evtType: Item

    ghost function View(): Bpf
      reads this
    {
      Bpf(isDropping, stream)
    }

    /** `drop_event` of the probe: it may change the type of the event in hand. */
    method DropEvent(i: Input) returns (drop: bool)
      requires i.settings.Valid() && evtType == Captured(i.event.tag)
      modifies this
      ensures stream == old(stream)
      ensures drop <==> Due(old(isDropping), i) == [] && !Kept(i)
      ensures !drop ==>
                [evtType] == if Due(old(isDropping), i) != [] then Due(old(isDropping), i) else [Captured(i.event.tag)]
      ensures isDropping == if Sampled(i) then !InFirstPart(i) else old(isDropping)
      ensures BpfStep(old(View()), i) == Bpf(isDropping, if drop then stream else stream + [evtType])
    {
      if !i.settings.dropping {
        return false;
      }
      if i.event.nostate {
        return true;
      }
      if i.event.flag == NeverDrop {
        return false;
      }
      if i.event.flag == AlwaysDrop {
        return true;
      }
      if Outside(i.settings, i.event.ts) {
        if !isDropping {
          isDropping, evtType := true, DropE;
          return false;
        }
        return true;
      }
      if isDropping {
        isDropping, evtType := false, DropX;
        return false;
      }
      return false;
    }

    method CallFiller(i: Input)
      requires i.settings.Valid()
      modifies this
      ensures View() == BpfStep(old(View()), i)
    {
      evtType := Captured(i.event.tag);
      var drop := DropEvent(i);
      if !drop {
        stream := stream + [evtType];
      }
    }
  }

  function BpfRun(b: Bpf, inputs: seq<Input>): Bpf
    requires Usable(inputs)
    decreases |inputs|
  {
    if inputs == [] then b else BpfRun(BpfStep(b, inputs[0]), inputs[1..])
  }

  // ----- The two streams -----

  /** No failing insert ahead, and nothing owed. */
  predicate Smooth(k: Kernel) {
    !k.owesE && !k.owesX && forall i :: 0 <= i < |k.fates| ==> k.fates[i]
  }

  /** The stream with whatever follows a DROP_X taken out. */
  function Thin(s: seq<Item>): (r: seq<Item>)
    decreases |s|
  {
    if s == [] then []
    else if s[0] == DropX then [DropX] + Thin(if |s| > 1 then s[2..] else [])
    else [s[0]] + Thin(s[1..])
  }

  /** What one event adds to the kernel's stream when inserts succeed. */
  function Added(isDropping: bool, i: Input): (bool, seq<Item>)
    requires i.settings.Valid()
  {
    if i.settings.dropping && i.event.nostate then (isDropping, [])
    else if i.event.flag == NeverDrop || !i.settings.dropping then (isDropping, [Captured(i.event.tag)])
    else if i.event.flag == AlwaysDrop then (isDropping, [])
    else if Outside(i.settings, i.event.ts) then (true, if isDropping then [] else [DropE])
    else (false, (if isDropping then [DropX] else []) + [Captured(i.event.tag)])
  }

  lemma SmoothInsert(k: Kernel, item: Item)
    requires Smooth(k)
    ensures NextFate(k) && Smooth(Insert(k, item))
    ensures Committed(Insert(k, item).log) == Committed(k.log) + [item]
    ensures !item.Captured? ==> Mark(k, item) == Insert(k, item)
  {
    hide Committed, LastFailed, Count;
    LogStep(k.log, item, true, item);
  }

  lemma SmoothMarks(k: Kernel)
    requires Smooth(k)
    ensures Smooth(Enter(k)) && Enter(k).isDropping && Committed(Enter(k).log) == Committed(k.log) + [DropE]
    ensures Smooth(Leave(k)) && !Leave(k).isDropping && Committed(Leave(k).log) == Committed(k.log) + [DropX]
  {
    hide Committed, NextFate;
    SmoothInsert(k.(isDropping := true, entries := k.entries + 1), DropE);
    SmoothInsert(k.(isDropping := false, exits := k.exits + 1), DropX);
  }

  lemma SmoothDropped(k: Kernel, i: Input)
    requires Smooth(k) && i.settings.Valid()
    ensures var (d, drop) := Dropped(k, i);
            && Smooth(d) && d.isDropping == Added(k.isDropping, i).0
            && Committed(k.log) + Added(k.isDropping, i).1
               == Committed(d.log) + if drop then [] else [Captured(i.event.tag)]
  {
    hide Committed, NextFate, Enter, Leave, Smooth, Outside;
    SmoothMarks(k);
    var c, was := Captured(i.event.tag), Committed(k.log);
    assert was + [] == was && [] + [c] == [c] && (was + [DropX]) + [c] == was + ([DropX] + [c]);
  }

  lemma SmoothStep(k: Kernel, i: Input)
    requires Smooth(k) && i.settings.Valid()
    ensures Smooth(Step(k, i)) && Step(k, i).isDropping == Added(k.isDropping, i).0
    ensures Committed(Step(k, i).log) == Committed(k.log) + Added(k.isDropping, i).1
  {
    assert Retried(k) == k;
    hide Retried, Committed, NextFate, Smooth, Dropped, Added;
    SmoothDropped(k, i);
    SmoothInsert(Dropped(k, i).0, Captured(i.event.tag));
  }

  lemma BpfAdded(b: Bpf, i: Input, rest: seq<Item>)
    requires i.settings.Valid()
    ensures var (dropping, items) := Added(b.isDropping, i);
            var next := BpfStep(b, i);
            next.isDropping == dropping && next.stream + Thin(rest) == b.stream + Thin(items + rest)
  {
    hide Outside;
    var items := Added(b.isDropping, i).1;
    if items != [] {
      assert (items + rest)[1..] == items[1..] + rest;
    } else {
      assert items + rest == rest;
    }
    if |items| == 2 {
      assert (items + rest)[2..] == rest;
    }
  }

  /** All that a run adds to the kernel's stream. */
  function AddedByAll(isDropping: bool, inputs: seq<Input>): seq<Item>
    requires Usable(inputs)
    decreases |inputs|
  {
    if inputs == [] then []
    else Added(isDropping, inputs[0]).1 + AddedByAll(Added(isDropping, inputs[0]).0, inputs[1..])
  }

  lemma {:induction false} SmoothRun(k: Kernel, inputs: seq<Input>)
    requires Smooth(k) && Usable(inputs)
    ensures Committed(Run(k, inputs).log) == Committed(k.log) + AddedByAll(k.isDropping, inputs)
    ensures Smooth(Run(k, inputs))
    decreases |inputs|
  {
    if inputs != [] {
      SmoothStep(k, inputs[0]);
      SmoothRun(Step(k, inputs[0]), inputs[1..]);
    }
  }

  lemma {:induction false} BpfThins(b: Bpf, inputs: seq<Input>)
    requires Usable(inputs)
    ensures BpfRun(b, inputs).stream == b.stream + Thin(AddedByAll(b.isDropping, inputs))
    decreases |inputs|
  {
    if inputs != [] {
      BpfThins(BpfStep(b, inputs[0]), inputs[1..]);
      BpfAdded(b, inputs[0], AddedByAll(Added(b.isDropping, inputs[0]).0, inputs[1..]));
    }
  }

  /** The two drivers agree up to one event: on the same inputs and with inserts succeeding,
      the probe's stream is the kernel's without the event that follows each DROP_X. */
  lemma StreamsAgree(inputs: seq<Input>, fates: seq<bool>)
    requires Usable(inputs) && forall i :: 0 <= i < |fates| ==> fates[i]
    ensures BpfRun(Bpf(false, []), inputs).stream
         == Thin(Committed(Run(Opened(fates), inputs).log))
  {
    SmoothRun(Opened(fates), inputs);
    BpfThins(Bpf(false, []), inputs);
    hide Run, BpfRun, Thin, AddedByAll;
    CommittedNothing();
    assert [] + AddedByAll(false, inputs) == AddedByAll(false, inputs);
  }

  /** DROP_X is always directly followed by a captured event; markers alternate. */
  predicate WellMarked(s: seq<Item>, isDropping: bool)
    decreases |s|
  {
    s == [] ||
    match s[0]
    case DropE => !isDropping && WellMarked(s[1..], true)
    case DropX => isDropping && |s| > 1 && s[1].Captured? && WellMarked(s[2..], false)
    case Captured(_) => WellMarked(s[1..], isDropping)
  }

  lemma WellMarkedStep(isDropping: bool, i: Input, rest: seq<Item>)
    requires i.settings.Valid() && WellMarked(rest, Added(isDropping, i).0)
    ensures WellMarked(Added(isDropping, i).1 + rest, isDropping)
  {
    hide Outside;
    var items := Added(isDropping, i).1;
    var captured := Captured(i.event.tag);
    assert [] + rest == rest && ([DropE] + rest)[1..] == rest && ([captured] + rest)[1..] == rest;
    assert ([DropX, captured] + rest)[2..] == rest;
    assert items == [] || items == [DropE] || items == [captured] || items == [DropX, captured];
  }

  lemma {:induction false} MarkersAlternate(isDropping: bool, inputs: seq<Input>)
    requires Usable(inputs)
    ensures WellMarked(AddedByAll(isDropping, inputs), isDropping)
    decreases |inputs|
  {
    if inputs != [] {
      MarkersAlternate(Added(isDropping, inputs[0]).0, inputs[1..]);
      WellMarkedStep(isDropping, inputs[0], AddedByAll(Added(isDropping, inputs[0]).0, inputs[1..]));
    }
  }

  // ----- Which events are kept -----

  /** In dropping mode, an event that is neither always dropped nor never dropped. */
  predicate Sampled(i: Input) {
    i.settings.dropping && !i.event.nostate && i.event.flag == Plain
  }

  /** In the first part of its second, one in `ratio`. */
  predicate InFirstPart(i: Input)
    requires i.settings.Valid()
  {
    i.event.ts % 1_000_000_000 < 1_000_000_000 / i.settings.ratio
  }

  /** With dropping mode off every event is kept; else those that must be, and of the sampled ones
      those in the first part of their second. */
  predicate Kept(i: Input)
    requires i.settings.Valid()
  {
    || !i.settings.dropping
    || (!i.event.nostate && (i.event.flag == NeverDrop || (i.event.flag == Plain && InFirstPart(i))))
  }

  /** The marker due with an event: a sampled event on the other side of the boundary. */
  function Due(isDropping: bool, i: Input): seq<Item>
    requires i.settings.Valid()
  {
    if !Sampled(i) || InFirstPart(i) != isDropping then [] else if isDropping then [DropX] else [DropE]
  }

  function Items(log: seq<Attempt>): (s: seq<Item>)
    ensures |s| == |log| && forall j :: 0 <= j < |log| ==> s[j] == log[j].item
  {
    seq(|log|, j requires 0 <= j < |log| => log[j].item)
  }

  /** What the ring answers to the `n`-th insert from now on. */
  predicate Answer(k: Kernel, n: nat) {
    n < |k.fates| ==> k.fates[n]
  }

  /** `n` inserts were made, answered in turn, and nothing was forgotten. */
  predicate Inserted(k: Kernel, k': Kernel, items: seq<Item>) {
    && Items(k'.log) == Items(k.log) + items && k.log <= k'.log
    && (forall j :: 0 <= j < |items| ==> k'.log[|k.log| + j].ok == Answer(k, j))
    && k'.fates == if |items| <= |k.fates| then k.fates[|items|..] else []
  }

  lemma InsertedNone(k: Kernel, k': Kernel)
    requires k'.log == k.log && k'.fates == k.fates
    ensures Inserted(k, k', [])
  {
  }

  lemma InsertedMore(k: Kernel, mid: Kernel, k': Kernel, a: seq<Item>, b: seq<Item>)
    requires Inserted(k, mid, a) && Inserted(mid, k', b)
    ensures Inserted(k, k', a + b)
  {
    forall j | 0 <= j < |a + b|
      ensures k'.log[|k.log| + j].ok == Answer(k, j)
    {
      if j >= |a| {
        assert k'.log[|mid.log| + (j - |a|)].ok == Answer(mid, j - |a|);
      } else {
        assert k'.log[|k.log| + j] == mid.log[|k.log| + j];
      }
    }
  }

  lemma InsertInserts(k: Kernel, item: Item)
    ensures Inserted(k, Insert(k, item), [item])
    ensures !item.Captured? ==> Inserted(k, Mark(k, item), [item])
  {
  }

  lemma RetriedInserts(k: Kernel)
    ensures Inserted(k, Retried(k), if k.owesE then [DropE] else if k.owesX then [DropX] else [])
  {
    InsertInserts(k, DropE);
    InsertInserts(k, DropX);
    InsertedNone(k, k);
  }

  lemma EnterInserts(k: Kernel)
    ensures Inserted(k, Enter(k), [DropE]) && Enter(k).isDropping
  {
    var e := k.(isDropping := true, entries := k.entries + 1, mergedE := k.mergedE + if k.owesE then 1 else 0);
    InsertInserts(e, DropE);
    InsertedAlike(k, e, Enter(k), [DropE]);
  }

  lemma LeaveInserts(k: Kernel)
    ensures Inserted(k, Leave(k), [DropX]) && !Leave(k).isDropping
  {
    var l := k.(isDropping := false, exits := k.exits + 1, mergedX := k.mergedX + if k.owesX then 1 else 0);
    InsertInserts(l, DropX);
    InsertedAlike(k, l, Leave(k), [DropX]);
  }

  lemma InsertedAlike(k: Kernel, same: Kernel, k': Kernel, items: seq<Item>)
    requires same.log == k.log && same.fates == k.fates && Inserted(same, k', items)
    ensures Inserted(k, k', items)
  {
    forall j | 0 <= j < |items|
      ensures k'.log[|k.log| + j].ok == Answer(k, j)
    {
      assert k'.log[|same.log| + j].ok == Answer(same, j);
    }
  }

  lemma DroppedInserts(k: Kernel, i: Input)
    requires i.settings.Valid()
    ensures var (d, drop) := Dropped(k, i);
            && Inserted(k, d, Due(k.isDropping, i)) && (drop <==> !Kept(i))
            && d.isDropping == (if Sampled(i) then !InFirstPart(i) else k.isDropping)
  {
    hide Inserted, Enter, Leave;
    EnterInserts(k);
    LeaveInserts(k);
    InsertedNone(k, k);
  }

  /** What one event makes the module insert, in order: a marker still owed, the marker now due,
      and the event itself if it is kept. */
  lemma StepInserts(k: Kernel, i: Input)
    requires i.settings.Valid()
    ensures var owed := if k.owesE then [DropE] else if k.owesX then [DropX] else [];
            var event := if Kept(i) then [Captured(i.event.tag)] else [];
            Inserted(k, Step(k, i), owed + Due(k.isDropping, i) + event)
    ensures Step(k, i).isDropping == if Sampled(i) then !InFirstPart(i) else k.isDropping
  {
    hide Inserted, Kept, Due, Dropped, InFirstPart;
    var owed := if k.owesE then [DropE] else if k.owesX then [DropX] else [];
    RetriedInserts(k);
    DroppedInserts(Retried(k), i);
    var d := Dropped(Retried(k), i).0;
    InsertedMore(k, Retried(k), d, owed, Due(k.isDropping, i));
    if Dropped(Retried(k), i).1 {
      assert owed + Due(k.isDropping, i) + [] == owed + Due(k.isDropping, i);
    } else {
      InsertInserts(d, Captured(i.event.tag));
      InsertedMore(k, d, Step(k, i), owed + Due(k.isDropping, i), [Captured(i.event.tag)]);
    }
  }

  /** What one event adds to the probe's stream: a marker that is due takes its place. */
  lemma BpfStepAdds(b: Bpf, i: Input)
    requires i.settings.Valid()
    ensures BpfStep(b, i).stream
         == b.stream + if Due(b.isDropping, i) != [] then Due(b.isDropping, i)
                       else if Kept(i) then [Captured(i.event.tag)] else []
    ensures BpfStep(b, i).isDropping == if Sampled(i) then !InFirstPart(i) else b.isDropping
  {
    assert b.stream + [] == b.stream;
  }

  /** The tags of the events in a stream. */
  function Tags(s: seq<Item>): seq<nat> {
    if s == [] then [] else Tags(s[..|s| - 1]) + if s[|s| - 1].Captured? then [s[|s| - 1].tag] else []
  }

  lemma {:induction false} TagsAppend(a: seq<Item>, b: seq<Item>)
    ensures Tags(a + b) == Tags(a) + Tags(b)
    decreases |b|
  {
    if b == [] {
      assert a + b == a;
    } else {
      var n := |b| - 1;
      assert (a + b)[..|a + b| - 1] == a + b[..n];
      TagsAppend(a, b[..n]);
    }
  }

  function KeptTags(inputs: seq<Input>): seq<nat>
    requires Usable(inputs)
  {
    if inputs == [] then [] else (if Kept(inputs[0]) then [inputs[0].event.tag] else []) + KeptTags(inputs[1..])
  }

  lemma MarkersHaveNoTags(isDropping: bool, i: Input, owed: seq<Item>)
    requires i.settings.Valid() && (owed == [] || owed == [DropE] || owed == [DropX])
    ensures var event := if Kept(i) then [Captured(i.event.tag)] else [];
            Tags(owed + Due(isDropping, i) + event) == if Kept(i) then [i.event.tag] else []
  {
    var event := if Kept(i) then [Captured(i.event.tag)] else [];
    TagsAppend(owed + Due(isDropping, i), event);
    TagsAppend(owed, Due(isDropping, i));
  }

  lemma Associates<T>(a: seq<T>, b: seq<T>, c: seq<T>)
    ensures (a + b) + c == a + (b + c)
  {
  }

  lemma StepTags(k: Kernel, i: Input)
    requires i.settings.Valid()
    ensures Tags(Items(Step(k, i).log)) == Tags(Items(k.log)) + if Kept(i) then [i.event.tag] else []
  {
    hide Kept, Due, Tags, Step, Items;
    var owed := if k.owesE then [DropE] else if k.owesX then [DropX] else [];
    var event := if Kept(i) then [Captured(i.event.tag)] else [];
    StepInserts(k, i);
    TagsAppend(Items(k.log), owed + Due(k.isDropping, i) + event);
    MarkersHaveNoTags(k.isDropping, i, owed);
  }

  /** Over every run: the events that the module tries to insert are exactly those kept, in
      order, whatever becomes of the markers. */
  lemma {:induction false} RunKeeps(k: Kernel, inputs: seq<Input>)
    requires Usable(inputs)
    ensures Tags(Items(Run(k, inputs).log)) == Tags(Items(k.log)) + KeptTags(inputs)
    decreases |inputs|
  {
    if inputs == [] {
      assert Tags(Items(k.log)) + [] == Tags(Items(k.log));
    } else {
      hide Kept, Tags, Step, Items;
      StepTags(k, inputs[0]);
      RunKeeps(Step(k, inputs[0]), inputs[1..]);
      Associates(Tags(Items(k.log)), if Kept(inputs[0]) then [inputs[0].event.tag] else [], KeptTags(inputs[1..]));
    }
  }

  /** The latest of the sampled events. */
  predicate IsLatest(inputs: seq<Input>, j: nat) {
    j < |inputs| && Sampled(inputs[j]) && forall l :: j < l < |inputs| ==> !Sampled(inputs[l])
  }

  predicate NoneSampled(inputs: seq<Input>) {
    forall l :: 0 <= l < |inputs| ==> !Sampled(inputs[l])
  }

  /** Over every run and in both drivers: dropping is on exactly when the latest sampled event was
      past the first part of its second. */
  lemma {:induction false} DroppingIsLatest(k: Kernel, b: Bpf, inputs: seq<Input>)
    requires Usable(inputs) && b.isDropping == k.isDropping
    ensures BpfRun(b, inputs).isDropping == Run(k, inputs).isDropping
    ensures NoneSampled(inputs) ==> Run(k, inputs).isDropping == k.isDropping
    ensures forall j: nat :: IsLatest(inputs, j) ==> Run(k, inputs).isDropping == !InFirstPart(inputs[j])
    decreases |inputs|
  {
    hide Step, BpfStep, InFirstPart, Sampled;
    if inputs != [] {
      var i, rest := inputs[0], inputs[1..];
      StepInserts(k, i);
      BpfStepAdds(b, i);
      DroppingIsLatest(Step(k, i), BpfStep(b, i), rest);
      forall j: nat | IsLatest(inputs, j)
        ensures Run(k, inputs).isDropping == !InFirstPart(inputs[j])
      {
        if j > 0 {
          assert rest[j - 1] == inputs[j] && IsLatest(rest, j - 1);
        } else {
          assert NoneSampled(rest);
        }
      }
    }
  }

  lemma {:induction false} BpfRunLast(b: Bpf, inputs: seq<Input>)
    requires Usable(inputs) && inputs != []
    ensures Usable(inputs[..|inputs| - 1])
    ensures BpfRun(b, inputs) == BpfStep(BpfRun(b, inputs[..|inputs| - 1]), inputs[|inputs| - 1])
    decreases |inputs|
  {
    hide BpfStep;
    var n := |inputs| - 1;
    if n > 0 {
      BpfRunLast(BpfStep(b, inputs[0]), inputs[1..]);
      assert inputs[1..][..n - 1] == inputs[..n][1..];
    } else {
      assert inputs[..0] == [] && inputs[1..] == [];
    }
  }

  /** Over every run of the probe: its last event is in the stream if it is kept, unless it ends or
      begins the dropping, when the marker is there in its stead; `j` is the sampled event before. */
  lemma ProbeKeeps(inputs: seq<Input>, j: nat)
    requires Usable(inputs) && inputs != []
    requires var before := inputs[..|inputs| - 1]; IsLatest(before, j) || (NoneSampled(before) && j == 0)
    ensures var i, before := inputs[|inputs| - 1], inputs[..|inputs| - 1];
            var was := IsLatest(before, j) && !InFirstPart(before[j]);
            Usable(before) && BpfRun(Bpf(false, []), inputs).stream
              == BpfRun(Bpf(false, []), before).stream +
                 if Sampled(i) && InFirstPart(i) && was then [DropX]
                 else if Sampled(i) && !InFirstPart(i) && !was then [DropE]
                 else if Kept(i) then [Captured(i.event.tag)] else []
  {
    hide InFirstPart, Sampled, Kept, BpfRun, Run, BpfStep;
    var before := inputs[..|inputs| - 1];
    BpfRunLast(Bpf(false, []), inputs);
    DroppingIsLatest(Opened([]), Bpf(false, []), before);
    BpfStepAdds(BpfRun(Bpf(false, []), before), inputs[|inputs| - 1]);
  }

  // ----- The share that is kept -----

  /** Of every second exactly the first part is kept. */
  lemma KeptOffsets(second: nat, offset: nat, tag: nat, ratio: nat)
    requires offset < 1_000_000_000 && ratio > 0
    ensures Kept(Input(Event(tag, second * 1_000_000_000 + offset, Plain, false), Settings(true, ratio)))
       <==> offset < 1_000_000_000 / ratio
  {
    assert (second * 1_000_000_000 + offset) % 1_000_000_000 == offset;
  }

  /** With a ratio of one, that is all of it; a higher ratio only drops more. */
  lemma KeptByRatio(e: Event, ratio: nat, higher: nat)
    requires 0 < ratio <= higher
    ensures Kept(Input(e, Settings(true, higher))) ==> Kept(Input(e, Settings(true, ratio)))
    ensures e.flag == Plain && !e.nostate ==> Kept(Input(e, Settings(true, 1)))
  {
    var offset := e.ts % SECOND;
    BelowQuotient(offset, SECOND, higher);
    BelowQuotient(offset, SECOND, ratio);
    Bytes.MulMono(offset + 1, ratio, higher);
  }

  lemma BelowQuotient(x: nat, all: nat, d: nat)
    requires d > 0
    ensures x < all / d <==> (x + 1) * d <= all
  {
    var q := all / d;
    Bytes.QuotientBetween(all, d);
    if x < q {
      Bytes.MulMono(d, x + 1, q);
    } else {
      Bytes.MulMono(d, q + 1, x + 1);
    }
  }
}
