/** The reports of user and system time: `cputime_adjust` run by any number of threads over
    the same pair of counters, and the older single-threaded form. */
module CpuReports {
  import opened Bytes
  import opened CpuTime

  /** Tick-based times and the precise run time of a task, as sampled by one caller. */
  datatype Sample = Sample(rtime: nat, stime: nat, utime: nat)

  datatype Times = Times(utime: nat, stime: nat)

  /** Where the scaling divides by something: run times below 2^63. */
  predicate Defined(c: Sample) {
    c.rtime < TWO63 && c.stime + c.utime < TWO64
  }

  /** Where it loses no bit of the total.  Elsewhere the scaled system time can exceed the run
      time, and the difference taken from it wraps. */
  predicate InDomain(c: Sample) {
    && Defined(c)
    && (c.stime == 0 || c.utime == 0 || Fits(c.stime, c.rtime, c.stime + c.utime))
  }

  function Add64(a: nat, b: nat): nat {
    (a + b) % TWO64
  }

  /** Unsigned 64-bit difference. */
  function Sub64(a: nat, b: nat): nat {
    (a - b) % TWO64
  }

  lemma AddBound(a: nat, b: nat)
    ensures Add64(a, b) <= a + b
  {
  }

  lemma SubCovers(a: nat, b: nat)
    requires a < TWO64
    ensures b + Sub64(a, b) >= a && (b <= a ==> Sub64(a, b) == a - b)
  {
  }

  /** The values a caller tries to publish. */
  function Targets(c: Sample): (t: Times)
    requires Defined(c)
    ensures t.utime + t.stime >= c.rtime
  {
    if c.utime == 0 then Times(0, c.rtime)
    else if c.stime == 0 then Times(c.rtime, 0)
    else
      NeverZero(c.stime, c.rtime, c.stime + c.utime);
      var s := Scaled(c.stime, c.rtime, c.stime + c.utime);
      SubCovers(c.rtime, s);
      Times(Sub64(c.rtime, s), s)
  }

  /** In the accurate domain the run time is split exactly. */
  lemma TargetsSplit(c: Sample)
    requires InDomain(c)
    ensures Targets(c).utime + Targets(c).stime == c.rtime
  {
    if c.stime != 0 && c.utime != 0 {
      ScaledAccuracy(c.stime, c.rtime, c.stime + c.utime);
      SubCovers(c.rtime, Targets(c).stime);
    }
  }

  // ----- Who gets which part -----

  /** How the run time is to be shared.  Without user time it is all system time; without system
      time all user time.  Else the system time is scaled and the user time is what is missing to
      the run time; where no bit is lost, the system time is its share by ticks, rounded down, or
      a little less. */
  ghost predicate IsShare(t: Times, c: Sample) {
    var total := c.stime + c.utime;
    && (c.utime == 0 ==> t.utime == 0 && t.stime == c.rtime)
    && (c.utime > 0 && c.stime == 0 ==> t.stime == 0 && t.utime == c.rtime)
    && (c.utime > 0 && c.stime > 0 ==>
          && Balance(c.stime, c.rtime, total).total > 0 && t.stime == Scaled(c.stime, c.rtime, total)
          && t.utime < TWO64 && (t.utime + t.stime) % TWO64 == c.rtime
          && (Fits(c.stime, c.rtime, total) ==>
                && t.utime + t.stime == c.rtime
                && t.stime <= c.stime * c.rtime / total <= t.stime + TWO32 / total + 1))
  }

  lemma SubAdds(a: nat, b: nat)
    requires a < TWO64
    ensures Sub64(a, b) < TWO64 && (Sub64(a, b) + b) % TWO64 == a
  {
  }

  lemma TargetsShare(c: Sample)
    requires Defined(c)
    ensures IsShare(Targets(c), c)
  {
    var total := c.stime + c.utime;
    if c.stime != 0 && c.utime != 0 {
      NeverZero(c.stime, c.rtime, total);
      ScaledAccuracy(c.stime, c.rtime, total);
      hide Scaled, CpuTime.Balance, Fits, Sub64;
      var s := Scaled(c.stime, c.rtime, total);
      SubAdds(c.rtime, s);
      SubCovers(c.rtime, s);
    }
  }

  predicate IsMax(r: nat, a: nat, b: nat) {
    a <= r && b <= r && (r == a || r == b)
  }

  /** A report: the counters as they were if their 64-bit sum covers the run time, else with each
      advanced to its share. */
  ghost predicate IsReport(now: Times, prev: Times, c: Sample) {
    if (prev.stime + prev.utime) % TWO64 >= c.rtime then now == prev
    else exists t :: IsShare(t, c) && IsMax(now.utime, prev.utime, t.utime) && IsMax(now.stime, prev.stime, t.stime)
  }

  lemma AdjustedLaw(prev: Times, c: Sample)
    requires Defined(c)
    ensures IsReport(Adjusted(prev, c), prev, c)
  {
    hide Targets, IsShare;
    TargetsShare(c);
  }

  /** The first report of a task is its share; without user time the user time of a task never
      grows, and without system time its system time never does. */
  lemma ReportShares(now: Times, prev: Times, c: Sample)
    requires IsReport(now, prev, c)
    ensures prev == Times(0, 0) && c.rtime > 0 ==> IsShare(now, c)
    ensures c.utime == 0 ==> now.utime == prev.utime
    ensures c.utime > 0 && c.stime == 0 ==> now.stime == prev.stime
  {
    hide Scaled, CpuTime.Balance, Fits;
  }

  /** Both counters are small enough that their 64-bit sum does not wrap. */
  predicate NoWrap(t: Times) {
    t.utime < TWO63 && t.stime < TWO63
  }

  // ----- One caller alone -----

  function Later(counter: nat, value: nat): nat {
    if value > counter then value else counter
  }

  /** What an adjustment leaves in the counters: the targets, where they are later, unless the
      64-bit sum already covers the run time. */
  function Adjusted(prev: Times, c: Sample): Times
    requires Defined(c)
  {
    if Add64(prev.stime, prev.utime) >= c.rtime then prev
    else Times(Later(prev.utime, Targets(c).utime), Later(prev.stime, Targets(c).stime))
  }

  class PrevCputime {
    var utime: nat
    var stime: nat

    /** `cputime_advance` on one counter, without interference. */
    static method Advance(counter: nat, value: nat) returns (r: nat)
      ensures r == Later(counter, value)
    {
      r := counter;
      while value > r
        invariant r == counter || (r == value && value > counter)
        decreases value > r
      {
        r := value;
      }
    }

    /** The three ways to divide the run time. */
    static method Divide(c: Sample) returns (s: nat, u: nat)
      requires Defined(c)
      ensures Times(u, s) == Targets(c) && u + s >= c.rtime && IsShare(Times(u, s), c)
    {
      TargetsShare(c);
      hide IsShare;
      s, u := c.stime, c.utime;
      if u == 0 {
        s := c.rtime;
      } else if s == 0 {
        u := c.rtime;
      } else {
        hide Scaled, CpuTime.Balance, Sub64;
        NeverZero(c.stime, c.rtime, c.stime + c.utime);
        var d := ScaleStime(c.stime, c.rtime, c.stime + c.utime);
        s := d.scaled;
        u := Sub64(c.rtime, s);
        SubCovers(c.rtime, s);
      }
    }

    /** `cputime_adjust`: reports never go back, add up to at least the run time, and are
        left alone when their 64-bit sum already does. */
    method Adjust(c: Sample) returns (report: Times)
      requires Defined(c)
      modifies this
      ensures report == Times(utime, stime) == Adjusted(Times(old(utime), old(stime)), c)
      ensures IsReport(report, Times(old(utime), old(stime)), c)
      ensures utime >= old(utime) && stime >= old(stime) && utime + stime >= c.rtime
    {
      AddBound(stime, utime);
      AdjustedLaw(Times(utime, stime), c);
      hide Add64, Targets, IsReport;
      if Add64(stime, utime) < c.rtime {
        var s, u := Divide(c);
        stime := Advance(stime, s);
        utime := Advance(utime, u);
      }
      report := Times(utime, stime);
    }
  }

  // ----- Many callers -----

  /** Where a caller is.  Each load, and each compare-and-swap, is one step. */
  datatype Pc =
    | CheckStime
    | CheckUtime(seen: nat)
    | LoadStime
    | SwapStime(seen: nat)
    | LoadUtime
    | SwapUtime(seen: nat)
    | ReportUtime
    | ReportStime(utime: nat)
    | Done(report: Times)

  datatype Caller = Caller(sample: Sample, pc: Pc)

  datatype System = System(prev: Times, callers: seq<Caller>)

  predicate Callable(y: System) {
    forall i :: 0 <= i < |y.callers| ==> Defined(y.callers[i].sample)
  }

  /** One step of one caller: the counters and its own place afterwards. */
  function Move(prev: Times, c: Caller): (r: (Times, Pc))
    requires Defined(c.sample)
  {
    var t := Targets(c.sample);
    match c.pc
    case CheckStime => (prev, CheckUtime(prev.stime))
    case CheckUtime(seen) => (prev, if Add64(seen, prev.utime) >= c.sample.rtime then ReportUtime else LoadStime)
    case LoadStime => (prev, if t.stime > prev.stime then SwapStime(prev.stime) else LoadUtime)
    case SwapStime(seen) => (if prev.stime == seen then prev.(stime := t.stime) else prev, LoadStime)
    case LoadUtime => (prev, if t.utime > prev.utime then SwapUtime(prev.utime) else ReportUtime)
    case SwapUtime(seen) => (if prev.utime == seen then prev.(utime := t.utime) else prev, LoadUtime)
    case ReportUtime => (prev, ReportStime(prev.utime))
    case ReportStime(u) => (prev, Done(Times(u, prev.stime)))
    case Done(report) => (prev, c.pc)
  }

  function Step(y: System, i: nat): System
    requires Callable(y) && i < |y.callers|
  {
    var (prev, pc) := Move(y.prev, y.callers[i]);
    System(prev, y.callers[i := y.callers[i].(pc := pc)])
  }

  predicate AtLeast(a: Times, b: Times) {
    a.utime >= b.utime && a.stime >= b.stime
  }

  /** What is known of the counters from a caller's place. */
  predicate CallerInv(prev: Times, c: Caller)
    requires Defined(c.sample)
  {
    var t := Targets(c.sample);
    match c.pc
    case CheckStime => true
    case CheckUtime(seen) => seen <= prev.stime
    case LoadStime => true
    case SwapStime(seen) => seen < t.stime && seen <= prev.stime
    case LoadUtime => prev.stime >= t.stime
    case SwapUtime(seen) => prev.stime >= t.stime && seen < t.utime && seen <= prev.utime
    case ReportUtime => prev.utime + prev.stime >= c.sample.rtime
    case ReportStime(u) => u + prev.stime >= c.sample.rtime && u <= prev.utime
    case Done(report) => report.utime + report.stime >= c.sample.rtime && AtLeast(prev, report)
  }

  predicate Inv(y: System) {
    Callable(y) && forall i :: 0 <= i < |y.callers| ==> CallerInv(y.prev, y.callers[i])
  }

  lemma MoveGrows(prev: Times, c: Caller)
    requires Defined(c.sample) && CallerInv(prev, c)
    ensures AtLeast(Move(prev, c).0, prev)
    ensures CallerInv(Move(prev, c).0, c.(pc := Move(prev, c).1))
  {
    hide Targets;
  }

  lemma InvGrows(prev: Times, prev': Times, c: Caller)
    requires Defined(c.sample) && CallerInv(prev, c) && AtLeast(prev', prev)
    ensures CallerInv(prev', c)
  {
    hide Targets;
  }

  /** The counters never decrease, whoever steps, and every caller's knowledge stays true. */
  lemma StepKeepsInv(y: System, i: nat)
    requires Inv(y) && i < |y.callers|
    ensures Inv(Step(y, i)) && AtLeast(Step(y, i).prev, y.prev)
  {
    var y' := Step(y, i);
    MoveGrows(y.prev, y.callers[i]);
    forall j | 0 <= j < |y'.callers|
      ensures Defined(y'.callers[j].sample) && CallerInv(y'.prev, y'.callers[j])
    {
      if j != i {
        InvGrows(y.prev, y'.prev, y.callers[j]);
      }
    }
  }

  function Run(y: System, schedule: seq<nat>): (y': System)
    requires Callable(y) && forall k :: 0 <= k < |schedule| ==> schedule[k] < |y.callers|
    ensures |y'.callers| == |y.callers| && Callable(y')
    ensures forall i :: 0 <= i < |y.callers| ==> y'.callers[i].sample == y.callers[i].sample
    decreases |schedule|
  {
    if schedule == [] then y else Run(Step(y, schedule[0]), schedule[1..])
  }

  /** Over every schedule: counters never decrease, and each finished report adds up to at
      least the run time its caller sampled. */
  lemma {:induction false} ReportsCoverRuntime(y: System, schedule: seq<nat>)
    requires Inv(y) && forall k :: 0 <= k < |schedule| ==> schedule[k] < |y.callers|
    ensures Inv(Run(y, schedule)) && AtLeast(Run(y, schedule).prev, y.prev)
    ensures forall i :: 0 <= i < |y.callers| && Run(y, schedule).callers[i].pc.Done? ==>
              var report := Run(y, schedule).callers[i].pc.report;
              report.utime + report.stime >= y.callers[i].sample.rtime
    decreases |schedule|
  {
    if schedule != [] {
      StepKeepsInv(y, schedule[0]);
      ReportsCoverRuntime(Step(y, schedule[0]), schedule[1..]);
    } else {
      forall i | 0 <= i < |y.callers| && y.callers[i].pc.Done?
        ensures y.callers[i].pc.report.utime + y.callers[i].pc.report.stime >= y.callers[i].sample.rtime
      {
        assert CallerInv(y.prev, y.callers[i]);
      }
    }
  }

  /** Nothing a caller has reported, or will report, is below `floor`. */
  predicate NotBelow(c: Caller, floor: Times) {
    match c.pc
    case ReportStime(u) => u >= floor.utime
    case Done(report) => AtLeast(report, floor)
    case _ => true
  }

  lemma {:induction false} FloorHolds(y: System, schedule: seq<nat>, j: nat, floor: Times)
    requires Inv(y) && (forall k :: 0 <= k < |schedule| ==> schedule[k] < |y.callers|) && j < |y.callers|
    requires AtLeast(y.prev, floor) && NotBelow(y.callers[j], floor)
    ensures NotBelow(Run(y, schedule).callers[j], floor)
    decreases |schedule|
  {
    if schedule != [] {
      StepKeepsInv(y, schedule[0]);
      FloorHolds(Step(y, schedule[0]), schedule[1..], j, floor);
    }
  }

  /** Reports are monotone: a caller that starts after another has finished reports no less,
      in either component, whatever else runs in between. */
  lemma ReportsAreMonotone(y: System, schedule: seq<nat>, i: nat, j: nat)
    requires Inv(y) && forall k :: 0 <= k < |schedule| ==> schedule[k] < |y.callers|
    requires i < |y.callers| && j < |y.callers|
    requires y.callers[i].pc.Done? && y.callers[j].pc.CheckStime?
    ensures Run(y, schedule).callers[j].pc.Done? ==>
              AtLeast(Run(y, schedule).callers[j].pc.report, y.callers[i].pc.report)
  {
    assert CallerInv(y.prev, y.callers[i]);
    FloorHolds(y, schedule, j, y.callers[i].pc.report);
  }

  /** A caller that steps `n` times with no one else around. */
  function Alone(prev: Times, c: Caller, n: nat): (r: (Times, Pc))
    requires Defined(c.sample)
    decreases n
  {
    if n == 0 then (prev, c.pc) else
      var (prev', pc) := Move(prev, c);
      Alone(prev', c.(pc := pc), n - 1)
  }

  lemma {:induction false} DoneStays(prev: Times, c: Caller, n: nat)
    requires Defined(c.sample) && c.pc.Done?
    ensures Alone(prev, c, n) == (prev, c.pc)
    decreases n
  {
    if n > 0 {
      DoneStays(prev, c, n - 1);
    }
  }

  lemma AloneReports(prev: Times, c: Caller, n: nat)
    requires Defined(c.sample) && c.pc.ReportUtime? && n >= 2
    ensures Alone(prev, c, n) == (prev, Done(prev))
  {
    hide Targets;
    var c1 := c.(pc := ReportStime(prev.utime));
    assert Alone(prev, c, n) == Alone(prev, c1, n - 1) == Alone(prev, c.(pc := Done(prev)), n - 2);
    DoneStays(prev, c.(pc := Done(prev)), n - 2);
  }

  lemma AloneUtime(prev: Times, c: Caller, n: nat)
    requires Defined(c.sample) && c.pc.LoadUtime? && n >= 5
    ensures var after := prev.(utime := Later(prev.utime, Targets(c.sample).utime));
            Alone(prev, c, n) == (after, Done(after))
  {
    hide Targets;
    var t, done := Targets(c.sample), c.(pc := ReportUtime);
    if t.utime > prev.utime {
      var after := prev.(utime := t.utime);
      assert Alone(prev, c, n) == Alone(prev, c.(pc := SwapUtime(prev.utime)), n - 1) == Alone(after, c, n - 2);
      assert Alone(after, c, n - 2) == Alone(after, done, n - 3);
      AloneReports(after, done, n - 3);
    } else {
      assert Alone(prev, c, n) == Alone(prev, done, n - 1);
      AloneReports(prev, done, n - 1);
    }
  }

  lemma AloneStime(prev: Times, c: Caller, n: nat)
    requires Defined(c.sample) && c.pc.LoadStime? && n >= 8
    ensures var t := Targets(c.sample);
            var after := Times(Later(prev.utime, t.utime), Later(prev.stime, t.stime));
            Alone(prev, c, n) == (after, Done(after))
  {
    hide Targets;
    var t, next := Targets(c.sample), c.(pc := LoadUtime);
    if t.stime > prev.stime {
      var after := prev.(stime := t.stime);
      assert Alone(prev, c, n) == Alone(prev, c.(pc := SwapStime(prev.stime)), n - 1) == Alone(after, c, n - 2);
      assert Alone(after, c, n - 2) == Alone(after, next, n - 3);
      AloneUtime(after, next, n - 3);
    } else {
      assert Alone(prev, c, n) == Alone(prev, next, n - 1);
      AloneUtime(prev, next, n - 1);
    }
  }

  /** Undisturbed, the steps of one caller amount to the method. */
  lemma AloneIsAdjust(prev: Times, sample: Sample)
    requires Defined(sample)
    ensures Alone(prev, Caller(sample, CheckStime), 10)
         == (Adjusted(prev, sample), Done(Adjusted(prev, sample)))
  {
    hide Targets;
    var c := Caller(sample, CheckStime);
    var c1 := c.(pc := CheckUtime(prev.stime));
    assert Alone(prev, c, 10) == Alone(prev, c1, 9);
    if Add64(prev.stime, prev.utime) >= sample.rtime {
      assert Alone(prev, c1, 9) == Alone(prev, c.(pc := ReportUtime), 8);
      AloneReports(prev, c.(pc := ReportUtime), 8);
    } else {
      assert Alone(prev, c1, 9) == Alone(prev, c.(pc := LoadStime), 8);
      AloneStime(prev, c.(pc := LoadStime), 8);
    }
  }

  // ----- Where the reported times come from -----

  /** A user time that the counter had, or that is the share of some caller; likewise below. */
  ghost predicate UserFrom(y: System, v: nat) {
    || v == y.prev.utime
    || exists i, t :: 0 <= i < |y.callers| && IsShare(t, y.callers[i].sample) && v == t.utime
  }

  ghost predicate SystemFrom(y: System, v: nat) {
    || v == y.prev.stime
    || exists i, t :: 0 <= i < |y.callers| && IsShare(t, y.callers[i].sample) && v == t.stime
  }

  ghost predicate Traced(y: System, c: Caller) {
    match c.pc
    case ReportStime(u) => UserFrom(y, u)
    case Done(report) => UserFrom(y, report.utime) && SystemFrom(y, report.stime)
    case _ => true
  }

  lemma MoveTraced(y: System, prev: Times, c: Caller, i: nat)
    requires Defined(c.sample) && i < |y.callers| && y.callers[i].sample == c.sample
    requires UserFrom(y, prev.utime) && SystemFrom(y, prev.stime) && Traced(y, c)
    ensures var (prev', pc) := Move(prev, c);
            UserFrom(y, prev'.utime) && SystemFrom(y, prev'.stime) && Traced(y, c.(pc := pc))
  {
    hide Targets, IsShare;
    TargetsShare(c.sample);
    var t := Targets(c.sample);
    assert IsShare(t, y.callers[i].sample);
  }

  lemma {:induction false} RunTraced(y: System, y': System, schedule: seq<nat>, j: nat)
    requires Callable(y') && |y'.callers| == |y.callers| && j < |y.callers|
    requires forall k :: 0 <= k < |schedule| ==> schedule[k] < |y.callers|
    requires forall i :: 0 <= i < |y.callers| ==> y'.callers[i].sample == y.callers[i].sample
    requires UserFrom(y, y'.prev.utime) && SystemFrom(y, y'.prev.stime) && Traced(y, y'.callers[j])
    ensures var z := Run(y', schedule);
            UserFrom(y, z.prev.utime) && SystemFrom(y, z.prev.stime) && Traced(y, z.callers[j])
    decreases |schedule|
  {
    hide UserFrom, SystemFrom, Move;
    if schedule != [] {
      var i := schedule[0];
      MoveCounters(y, y'.prev, y'.callers[i], i);
      if i == j {
        MoveTraced(y, y'.prev, y'.callers[i], i);
      }
      RunTraced(y, Step(y', i), schedule[1..], j);
    }
  }

  lemma MoveCounters(y: System, prev: Times, c: Caller, i: nat)
    requires Defined(c.sample) && i < |y.callers| && y.callers[i].sample == c.sample
    requires UserFrom(y, prev.utime) && SystemFrom(y, prev.stime)
    ensures UserFrom(y, Move(prev, c).0.utime) && SystemFrom(y, Move(prev, c).0.stime)
  {
    hide Targets, IsShare;
    TargetsShare(c.sample);
    assert IsShare(Targets(c.sample), y.callers[i].sample);
  }

  /** Over every schedule, each part of a new report is what the counter had at the start or some
      caller's share of it: user time comes from user shares, system time from system shares. */
  lemma ReportsAreShares(y: System, schedule: seq<nat>, j: nat)
    requires Inv(y) && forall k :: 0 <= k < |schedule| ==> schedule[k] < |y.callers|
    requires j < |y.callers| && !y.callers[j].pc.ReportStime? && !y.callers[j].pc.Done?
    ensures var z := Run(y, schedule);
            && UserFrom(y, z.prev.utime) && SystemFrom(y, z.prev.stime)
            && (z.callers[j].pc.Done? ==>
                  UserFrom(y, z.callers[j].pc.report.utime) && SystemFrom(y, z.callers[j].pc.report.stime))
  {
    RunTraced(y, y, schedule, j);
  }

  /** If no caller has seen user time, no report shows more of it than there was; and if all have
      seen user time only, none shows more system time. */
  lemma OneSidedReports(y: System, schedule: seq<nat>, j: nat)
    requires Inv(y) && forall k :: 0 <= k < |schedule| ==> schedule[k] < |y.callers|
    requires j < |y.callers| && !y.callers[j].pc.ReportStime? && !y.callers[j].pc.Done?
    requires Run(y, schedule).callers[j].pc.Done?
    ensures (forall i :: 0 <= i < |y.callers| ==> y.callers[i].sample.utime == 0) ==>
              Run(y, schedule).callers[j].pc.report.utime <= y.prev.utime
    ensures (forall i :: 0 <= i < |y.callers| ==> y.callers[i].sample.stime == 0 < y.callers[i].sample.utime) ==>
              Run(y, schedule).callers[j].pc.report.stime <= y.prev.stime
  {
    ReportsAreShares(y, schedule, j);
    hide Run, Scaled, CpuTime.Balance, Fits, Inv;
  }

  predicate AllInDomain(y: System) {
    forall i :: 0 <= i < |y.callers| ==> InDomain(y.callers[i].sample)
  }

  /** While every sample is in the accurate domain, the counters stay below 2^63: no sum and
      no difference of theirs wraps. */
  lemma {:induction false} NeverWraps(y: System, schedule: seq<nat>)
    requires Inv(y) && forall k :: 0 <= k < |schedule| ==> schedule[k] < |y.callers|
    requires AllInDomain(y) && NoWrap(y.prev)
    ensures NoWrap(Run(y, schedule).prev)
    decreases |schedule|
  {
    if schedule != [] {
      StepKeepsInv(y, schedule[0]);
      TargetsSplit(y.callers[schedule[0]].sample);
      NeverWraps(Step(y, schedule[0]), schedule[1..]);
    }
  }

  // ----- The older form -----

  function ScaleUtime(utime: nat, rtime: nat, total: nat): nat
    requires total > 0
  {
    (rtime * utime) % TWO64 / total
  }

  /** The pre-3.8 report: the user time is scaled, the system time is the rest. */
  function OldAdjust(prev: Times, c: Sample): Times
    requires c.rtime < TWO64 && prev.utime < TWO64
  {
    var total := c.utime + c.stime;
    var u := Later(prev.utime, if total > 0 then ScaleUtime(c.utime, c.rtime, total) else c.rtime);
    Times(u, Later(prev.stime, Sub64(c.rtime, u)))
  }

  /** The user time by ticks of the older form, from the 64-bit product. */
  predicate IsOldShare(u: nat, c: Sample) {
    var total := c.utime + c.stime;
    if total == 0 then u == c.rtime else u * total <= (c.rtime * c.utime) % TWO64 < (u + 1) * total
  }

  /** Its report: the user time advanced to that share, then the system time to what is missing
      to the run time. */
  ghost predicate IsOldReport(now: Times, prev: Times, c: Sample) {
    && (exists u: nat :: IsOldShare(u, c) && IsMax(now.utime, prev.utime, u))
    && (exists d: nat :: d < TWO64 && (d + now.utime) % TWO64 == c.rtime && IsMax(now.stime, prev.stime, d))
  }

  lemma OldAdjustLaw(prev: Times, c: Sample)
    requires c.rtime < TWO64 && prev.utime < TWO64
    ensures IsOldReport(OldAdjust(prev, c), prev, c)
  {
    var total := c.utime + c.stime;
    var u := if total > 0 then ScaleUtime(c.utime, c.rtime, total) else c.rtime;
    if total > 0 {
      QuotientBetween((c.rtime * c.utime) % TWO64, total);
    }
    assert IsOldShare(u, c);
    hide ScaleUtime, IsOldShare;
    var now := OldAdjust(prev, c);
    assert IsMax(now.utime, prev.utime, u);
    SubAdds(c.rtime, now.utime);
    assert IsMax(now.stime, prev.stime, Sub64(c.rtime, now.utime));
  }

  /** That share is the exact one, rounded down, exactly when the product fits a word. */
  lemma OldShareExactIff(u: nat, c: Sample)
    requires OldSample(c) && c.utime + c.stime > 0 && IsOldShare(u, c)
    ensures u == c.rtime * c.utime / (c.utime + c.stime) <==> c.rtime * c.utime < TWO64
    ensures c.utime == 0 ==> u == 0
  {
    var a, t := c.rtime * c.utime, c.utime + c.stime;
    WordQuotient(u, a, t);
    if c.utime == 0 && u > 0 {
      MulMono(t, 1, u);
    }
  }

  lemma WordQuotient(u: nat, a: nat, t: nat)
    requires 0 < t < TWO64 && u * t <= a % TWO64 < (u + 1) * t
    ensures u == a / t <==> a < TWO64
  {
    QuotientBetween(a, t);
    if a < TWO64 {
      assert a % TWO64 == a;
      SameQuotient(u, a / t, t, a);
    } else {
      WrappedLess(a);
      assert (u + 1) * t == u * t + t;
    }
  }

  lemma WrappedLess(a: nat)
    requires a >= TWO64
    ensures a % TWO64 <= a - TWO64
  {
  }

  lemma SameQuotient(u: nat, q: nat, t: nat, a: nat)
    requires t > 0 && u * t <= a < (u + 1) * t && q * t <= a < (q + 1) * t
    ensures u == q
  {
    if u < q {
      MulMono(t, u + 1, q);
    } else if q < u {
      MulMono(t, q + 1, u);
    }
  }

  class OldPrevCputime {
    var utime: nat
    var stime: nat

    /** `ppm_task_cputime_adjusted` before 3.8, with its 64-bit product and difference. */
    method Adjust(c: Sample) returns (report: Times)
      requires c.rtime < TWO64 && utime < TWO64
      modifies this
      ensures report == Times(utime, stime) == OldAdjust(Times(old(utime), old(stime)), c)
      ensures IsOldReport(report, Times(old(utime), old(stime)), c)
      ensures utime >= old(utime) && stime >= old(stime)
      ensures OldSample(c) && old(utime) <= c.rtime ==> utime <= c.rtime <= utime + stime
    {
      OldAdjustLaw(Times(utime, stime), c);
      hide IsOldReport;
      if OldSample(c) && utime <= c.rtime {
        OldStep(Times(utime, stime), c);
      }
      var u, total := c.utime, c.utime + c.stime;
      if total != 0 {
        u := ScaleUtime(u, c.rtime, total);
      } else {
        u := c.rtime;
      }
      utime := Later(utime, u);
      stime := Later(stime, Sub64(c.rtime, utime));
      report := Times(utime, stime);
    }
  }

  predicate OldSample(c: Sample) {
    c.rtime < TWO64 && c.utime + c.stime < TWO64
  }

  lemma ModBelow(x: nat)
    ensures x % TWO64 <= x
  {
  }

  /** Even if the product wraps, the scaled user time is within the run time. */
  lemma ScaleUtimeBound(c: Sample)
    requires OldSample(c) && c.utime + c.stime > 0
    ensures ScaleUtime(c.utime, c.rtime, c.utime + c.stime) <= c.rtime
  {
    var total := c.utime + c.stime;
    MulMono(c.rtime, c.utime, total);
    ModBelow(c.rtime * c.utime);
    DivMono((c.rtime * c.utime) % TWO64, total * c.rtime, total);
    EuclidUnique(total * c.rtime, total, c.rtime, 0);
  }

  /** One report: the subtraction does not wrap. */
  lemma OldStep(prev: Times, c: Sample)
    requires OldSample(c) && prev.utime <= c.rtime
    ensures var next := OldAdjust(prev, c);
            next.utime <= c.rtime && AtLeast(next, prev) && next.utime + next.stime >= c.rtime
  {
    if c.utime + c.stime > 0 {
      ScaleUtimeBound(c);
    }
  }

  /** All reports of a run. */
  function OldReports(prev: Times, samples: seq<Sample>): seq<Times>
    requires prev.utime < TWO64 && forall k :: 0 <= k < |samples| ==> OldSample(samples[k])
    requires (forall k :: 0 <= k < |samples| ==> prev.utime <= samples[k].rtime)
    requires (forall k, l :: 0 <= k < l < |samples| ==> samples[k].rtime <= samples[l].rtime)
    decreases |samples|
  {
    if samples == [] then [] else
      OldStep(prev, samples[0]);
      var next := OldAdjust(prev, samples[0]);
      [next] + OldReports(next, samples[1..])
  }

  /** Over every run with nondecreasing run times, the user time never passes the run time,
      so the difference never wraps; reports never decrease and always cover the run time. */
  lemma {:induction false} OldRunsAreMonotone(prev: Times, samples: seq<Sample>)
    requires prev.utime < TWO64 && forall k :: 0 <= k < |samples| ==> OldSample(samples[k])
    requires (forall k :: 0 <= k < |samples| ==> prev.utime <= samples[k].rtime)
    requires (forall k, l :: 0 <= k < l < |samples| ==> samples[k].rtime <= samples[l].rtime)
    ensures var rs := OldReports(prev, samples);
            && |rs| == |samples|
            && (forall k :: 0 <= k < |rs| ==> rs[k].utime <= samples[k].rtime <= rs[k].utime + rs[k].stime)
            && (forall k :: 0 <= k < |rs| ==> AtLeast(rs[k], if k == 0 then prev else rs[k - 1]))
    decreases |samples|
  {
    if samples != [] {
      OldStep(prev, samples[0]);
      var next := OldAdjust(prev, samples[0]);
      OldRunsAreMonotone(next, samples[1..]);
      var rs, rest := OldReports(prev, samples), OldReports(next, samples[1..]);
      assert rs == [next] + rest;
      forall k | 0 <= k < |rs|
        ensures rs[k].utime <= samples[k].rtime <= rs[k].utime + rs[k].stime
        ensures AtLeast(rs[k], if k == 0 then prev else rs[k - 1])
      {
        if k > 0 {
          assert rs[k] == rest[k - 1] && samples[k] == samples[1..][k - 1];
          assert AtLeast(rest[k - 1], if k == 1 then next else rest[k - 2]);
        }
      }
    }
  }
}
