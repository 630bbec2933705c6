/**
 The per-zone circular buffer of the surge worker against an unbounded log of arrivals.

 A tick advances the shared index, and for each zone reads the sum of the buffer, awaits two services,
 and clears the slot the next tick will use. Messages are handled whenever the tick is waiting, so
 arrivals may fall between any two of those steps; ticks themselves do not overlap.
 */
module SurgeWindow {

  function Sum(s: seq<nat>): nat {
    if s == [] then 0 else s[0] + Sum(s[1..])
  }

  lemma {:induction false} SumConcat(a: seq<nat>, b: seq<nat>)
    ensures Sum(a + b) == Sum(a) + Sum(b)
  {
    if a == [] {
      assert a + b == b;
    } else {
      assert (a + b)[1..] == a[1..] + b;
      SumConcat(a[1..], b);
    }
  }

  lemma SumSnoc(a: seq<nat>, x: nat)
    ensures Sum(a + [x]) == Sum(a) + x
  {
    SumConcat(a, [x]);
    assert [x][1..] == [];
  }

  // ---------- the buffer ----------

  /** `(i + 1) % w`. */
  function Next(i: nat, w: nat): (j: nat)
    requires i < w
    ensures j < w
  {
    if i + 1 == w then 0 else i + 1
  }

  lemma NextIsTheModulus(i: nat, w: nat)
    requires i < w
    ensures Next(i, w) == (i + 1) % w
  {}

  function Zeros(w: nat): (s: seq<nat>)
    ensures |s| == w && forall i :: 0 <= i < w ==> s[i] == 0
  {
    seq(w, _ => 0)
  }

  /** One zone's slots, the shared index, and whether a started tick has yet to clear this zone. */
  datatype Buffer = Buffer(slots: seq<nat>, at: nat, ticking: bool)

  ghost predicate Ok(b: Buffer) {
    b.at < |b.slots|
  }

  function Fresh(w: nat): Buffer {
    Buffer(Zeros(w), 0, false)
  }

  function Record(b: Buffer): Buffer
    requires Ok(b)
  {
    b.(slots := b.slots[b.at := b.slots[b.at] + 1])
  }

  function StartTick(b: Buffer): Buffer
    requires Ok(b)
  {
    b.(at := Next(b.at, |b.slots|), ticking := true)
  }

  function Clear(b: Buffer): Buffer
    requires Ok(b)
  {
    b.(slots := b.slots[Next(b.at, |b.slots|) := 0], ticking := false)
  }

  // ---------- the log ----------

  /** Arrivals per tick interval, the current interval last. */
  type Log = seq<nat>

  datatype World = World(buffer: Buffer, log: Log)

  datatype Step = Arrival | TickStarts | ZoneCleared

  function Apply(x: World, step: Step): World
    requires Ok(x.buffer) && x.log != []
  {
    match step
    case Arrival =>
      World(Record(x.buffer), x.log[|x.log| - 1 := x.log[|x.log| - 1] + 1])
    case TickStarts =>
      if x.buffer.ticking then x else World(StartTick(x.buffer), x.log + [0])
    case ZoneCleared =>
      if x.buffer.ticking then World(Clear(x.buffer), x.log) else x
  }

  function Run(w: nat, steps: seq<Step>): (x: World)
    requires w >= 1
    ensures Ok(x.buffer) && |x.buffer.slots| == w && x.log != []
  {
    if steps == [] then World(Fresh(w), [0])
    else Apply(Run(w, steps[..|steps| - 1]), steps[|steps| - 1])
  }

  /** The arrivals of the last `m` intervals, or of all of them when there are fewer. */
  function LastIntervals(log: Log, m: nat): nat {
    if m >= |log| then Sum(log) else Sum(log[|log| - m..])
  }

  // ---------- refinement ----------

  /** The slot written `k` ticks ago. */
  function Back(at: nat, k: nat, w: nat): (i: nat)
    requires at < w && k < w
    ensures i < w
  {
    if k <= at then at - k else at + w - k
  }

  /** Reading the slots backwards from the index gives the log backwards, for as many intervals as fit:
      one fewer when the next slot has already been cleared. */
  ghost predicate Mirrors(x: World) {
    var w := |x.buffer.slots|;
    && Ok(x.buffer) && x.log != []
    && forall k {:trigger Back(x.buffer.at, k, w)} :: 0 <= k < w ==>
         x.buffer.slots[Back(x.buffer.at, k, w)] ==
         if k < |x.log| && (k + 1 < w || x.buffer.ticking) then x.log[|x.log| - 1 - k] else 0
  }

  lemma ArrivalKeepsMirror(x: World)
    requires Mirrors(x) && |x.buffer.slots| >= 2
    ensures Mirrors(Apply(x, Arrival))
  {}

  lemma TickStartKeepsMirror(x: World)
    requires Mirrors(x) && |x.buffer.slots| >= 2 && !x.buffer.ticking
    ensures Mirrors(Apply(x, TickStarts))
  {
    var w, y := |x.buffer.slots|, Apply(x, TickStarts);
    forall k | 0 <= k < w
      ensures y.buffer.slots[Back(y.buffer.at, k, w)] == if k < |y.log| then y.log[|y.log| - 1 - k] else 0
    {
      if k == 0 {
        assert Back(y.buffer.at, 0, w) == Back(x.buffer.at, w - 1, w);
      } else {
        assert Back(y.buffer.at, k, w) == Back(x.buffer.at, k - 1, w);
      }
    }
  }

  lemma ClearKeepsMirror(x: World)
    requires Mirrors(x) && |x.buffer.slots| >= 2 && x.buffer.ticking
    ensures Mirrors(Apply(x, ZoneCleared))
  {}

  lemma {:induction false} EveryRunMirrors(w: nat, steps: seq<Step>)
    requires w >= 2
    ensures Mirrors(Run(w, steps))
  {
    if steps != [] {
      var x := Run(w, steps[..|steps| - 1]);
      EveryRunMirrors(w, steps[..|steps| - 1]);
      match steps[|steps| - 1] {
        case Arrival => ArrivalKeepsMirror(x);
        case TickStarts => if !x.buffer.ticking { TickStartKeepsMirror(x); }
        case ZoneCleared => if x.buffer.ticking { ClearKeepsMirror(x); }
      }
    }
  }

  // ---------- the sum ----------

  /** The sum of the `n` slots read backwards from the index. */
  function SumBack(s: seq<nat>, at: nat, n: nat): nat
    requires at < |s| && n <= |s|
  {
    if n == 0 then 0 else SumBack(s, at, n - 1) + s[Back(at, n - 1, |s|)]
  }

  lemma SumOfStretch(s: seq<nat>, i: nat, j: nat)
    requires i < j <= |s|
    ensures Sum(s[i..j]) == s[i] + Sum(s[i + 1..j])
  {
    assert s[i..j][1..] == s[i + 1..j];
  }

  lemma {:induction false} SumBackIsStretch(s: seq<nat>, at: nat, n: nat)
    requires at < |s| && n <= |s|
    ensures SumBack(s, at, n) ==
            if n <= at + 1 then Sum(s[at + 1 - n..at + 1]) else Sum(s[0..at + 1]) + Sum(s[at + 1 + |s| - n..|s|])
  {
    if n > 0 {
      SumBackIsStretch(s, at, n - 1);
      if n <= at + 1 {
        SumOfStretch(s, at + 1 - n, at + 1);
      } else {
        SumOfStretch(s, at + 1 + |s| - n, |s|);
      }
    }
  }

  lemma SumBackIsSum(s: seq<nat>, at: nat)
    requires at < |s|
    ensures SumBack(s, at, |s|) == Sum(s)
  {
    SumBackIsStretch(s, at, |s|);
    assert s == s[0..at + 1] + s[at + 1..|s|];
    SumConcat(s[0..at + 1], s[at + 1..|s|]);
  }

  lemma LastIntervalsGrow(log: Log, m: nat)
    ensures LastIntervals(log, m + 1) == LastIntervals(log, m) + if m < |log| then log[|log| - 1 - m] else 0
  {}

  lemma {:induction false} MirrorSums(x: World, n: nat)
    requires Mirrors(x) && n <= |x.buffer.slots| && (n < |x.buffer.slots| || x.buffer.ticking)
    ensures SumBack(x.buffer.slots, x.buffer.at, n) == LastIntervals(x.log, n)
  {
    if n == 0 {
      assert x.log[|x.log|..] == [];
    } else {
      MirrorSums(x, n - 1);
      LastIntervalsGrow(x.log, n - 1);
    }
  }

  /** Whenever a started tick reads a zone, the sum is exactly the arrivals of the last `w` intervals, the
      one that the tick has just opened included, wherever arrivals fell. */
  lemma TickReadsTheWindow(w: nat, steps: seq<Step>)
    requires w >= 2 && Run(w, steps).buffer.ticking
    ensures var x := Run(w, steps); Sum(x.buffer.slots) == LastIntervals(x.log, w)
  {
    var x := Run(w, steps);
    EveryRunMirrors(w, steps);
    MirrorSums(x, w);
    SumBackIsSum(x.buffer.slots, x.buffer.at);
  }

  lemma {:induction false} SumOfUpdate(s: seq<nat>, i: nat, x: nat)
    requires i < |s|
    ensures Sum(s[i := x]) == Sum(s) - s[i] + x
  {
    if i > 0 {
      SumOfUpdate(s[1..], i - 1, x);
      assert s[i := x][1..] == s[1..][i - 1 := x];
    }
  }

  lemma OneStepOfTheLog(x: World, step: Step)
    requires Ok(x.buffer) && x.log != []
    ensures Sum(Apply(x, step).log) == Sum(x.log) + if step.Arrival? then 1 else 0
  {
    SumOfUpdate(x.log, |x.log| - 1, x.log[|x.log| - 1] + 1);
    SumSnoc(x.log, 0);
  }

  /** The numbers of the steps that are arrivals. */
  ghost function Arrivals(steps: seq<Step>): set<nat> {
    set i: nat | i < |steps| && steps[i].Arrival?
  }

  lemma ArrivalsSnoc(before: seq<Step>, step: Step)
    ensures |Arrivals(before + [step])| == |Arrivals(before)| + if step.Arrival? then 1 else 0
  {
    var all := Arrivals(before + [step]);
    assert all == if step.Arrival? then Arrivals(before) + {|before|} else Arrivals(before);
  }

  /** The log loses nothing: over any run it adds up to the number of arrivals. */
  lemma {:induction false} LogCountsArrivals(w: nat, steps: seq<Step>)
    requires w >= 1
    ensures Sum(Run(w, steps).log) == |Arrivals(steps)|
  {
    if steps == [] {
      assert Arrivals(steps) == {};
      assert [0][1..] == [];
    } else {
      var before, last := steps[..|steps| - 1], steps[|steps| - 1];
      LogCountsArrivals(w, before);
      OneStepOfTheLog(Run(w, before), last);
      ArrivalsSnoc(before, last);
      assert steps == before + [last];
    }
  }

  // ---------- ticks that nothing interrupts ----------

  datatype Event = Request | Tick

  /** A tick as one step. */
  function Atomic(events: seq<Event>): seq<Step> {
    if events == [] then []
    else Atomic(events[..|events| - 1]) + if events[|events| - 1].Tick? then [TickStarts, ZoneCleared] else [Arrival]
  }

  lemma RunSnoc(w: nat, steps: seq<Step>, step: Step)
    requires w >= 1
    ensures Run(w, steps + [step]) == Apply(Run(w, steps), step)
  {}

  lemma RunTick(w: nat, steps: seq<Step>)
    requires w >= 1
    ensures Run(w, steps + [TickStarts, ZoneCleared]) == Apply(Apply(Run(w, steps), TickStarts), ZoneCleared)
  {
    RunSnoc(w, steps, TickStarts);
    RunSnoc(w, steps + [TickStarts], ZoneCleared);
    assert steps + [TickStarts, ZoneCleared] == (steps + [TickStarts]) + [ZoneCleared];
  }

  /** Between events no tick is under way; a ring of one slot holds the current interval. */
  lemma {:induction false} AtomicRunsRest(w: nat, events: seq<Event>)
    requires w >= 1
    ensures var x := Run(w, Atomic(events));
            !x.buffer.ticking && (w == 1 ==> x.buffer.slots == [x.log[|x.log| - 1]])
  {
    if events != [] {
      var before := Atomic(events[..|events| - 1]);
      AtomicRunsRest(w, events[..|events| - 1]);
      if events[|events| - 1].Tick? {
        RunTick(w, before);
      } else {
        RunSnoc(w, before, Arrival);
      }
    } else {
      assert Zeros(1) == [0];
    }
  }

  lemma NewIntervalIsEmpty(log: Log, m: nat)
    ensures LastIntervals(log + [0], m + 1) == LastIntervals(log, m)
  {
    if m < |log| {
      assert (log + [0])[|log| - m..] == log[|log| - m..] + [0];
      SumSnoc(log[|log| - m..], 0);
    } else {
      SumSnoc(log, 0);
      assert m == |log| ==> log[0..] == log && (log + [0])[0..] == log + [0];
    }
  }

  /** The window promise: after any requests and ticks, the sum the next tick reads is the arrivals of
      the last max(1, w - 1) completed intervals. */
  lemma WindowPromise(w: nat, events: seq<Event>)
    requires w >= 1
    ensures var x := Run(w, Atomic(events));
            Sum(Apply(x, TickStarts).buffer.slots) == LastIntervals(x.log, if w >= 2 then w - 1 else 1)
  {
    var steps := Atomic(events);
    var x := Run(w, steps);
    AtomicRunsRest(w, events);
    if w >= 2 {
      RunSnoc(w, steps, TickStarts);
      TickReadsTheWindow(w, steps + [TickStarts]);
      NewIntervalIsEmpty(x.log, w - 1);
    } else {
      var last := x.log[|x.log| - 1];
      assert x.log[|x.log| - 1..] == [last];
      assert Apply(x, TickStarts).buffer.slots == [last];
      assert |x.log| == 1 ==> x.log == [last];
    }
  }

  lemma OneMoreStep(w: nat, steps: seq<Step>, n: nat)
    requires w >= 1 && n < |steps|
    ensures Run(w, steps[..n + 1]) == Apply(Run(w, steps[..n]), steps[n])
  {
    assert steps[..n + 1] == steps[..n] + [steps[n]];
    RunSnoc(w, steps[..n], steps[n]);
  }

  lemma RunOfFour(w: nat, steps: seq<Step>)
    requires w >= 1 && |steps| == 4
    ensures Run(w, steps) == Apply(Apply(Apply(Apply(World(Fresh(w), [0]), steps[0]), steps[1]), steps[2]), steps[3])
  {
    assert steps[..4] == steps;
    OneMoreStep(w, steps, 0);
    OneMoreStep(w, steps, 1);
    OneMoreStep(w, steps, 2);
    OneMoreStep(w, steps, 3);
  }

  /** With a ring of one slot, an arrival while the tick waits is cleared unread: no later tick counts it.
      So the promise under interleaving needs a ring of two or more. */
  lemma OneSlotLosesArrivals()
    ensures var x := Run(1, [TickStarts, Arrival, ZoneCleared, TickStarts]);
            x.buffer.ticking && Sum(x.buffer.slots) == 0 && LastIntervals(x.log, 2) == 1
  {
    RunOfFour(1, [TickStarts, Arrival, ZoneCleared, TickStarts]);
    assert Fresh(1).slots == [0];
    var x := World(Buffer([0], 0, true), [0, 1, 0]);
    assert Apply(Apply(World(Fresh(1), [0]), TickStarts), Arrival) == World(Buffer([1], 0, true), [0, 1]);
    assert x == Apply(Apply(World(Buffer([1], 0, true), [0, 1]), ZoneCleared), TickStarts);
    assert x.log[1..] == [1, 0];
    assert Sum([1, 0]) == 1 by { SumSnoc([1], 0); }
  }

  function Max(a: nat, b: nat): nat {
    if a >= b then a else b
  }

  /** Wherever arrivals fall, every tick reads the interval it opens and the max(1, w - 1) intervals before it if and
      only if the ring has two slots or more. */
  lemma WindowHoldsIffTwoSlots(w: nat)
    requires w >= 1
    ensures (forall steps :: Run(w, steps).buffer.ticking ==>
               Sum(Run(w, steps).buffer.slots) == LastIntervals(Run(w, steps).log, 1 + Max(1, w - 1)))
       <==> w >= 2
  {
    if w >= 2 {
      forall steps | Run(w, steps).buffer.ticking
        ensures Sum(Run(w, steps).buffer.slots) == LastIntervals(Run(w, steps).log, 1 + Max(1, w - 1))
      {
        TickReadsTheWindow(w, steps);
      }
    } else {
      OneSlotLosesArrivals();
      var x := Run(1, [TickStarts, Arrival, ZoneCleared, TickStarts]);
      assert Sum(x.buffer.slots) != LastIntervals(x.log, 1 + Max(1, 0));
    }
  }
}
