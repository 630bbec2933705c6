/**
 Surge multipliers and the fares they end up in: the worker's update rule, the value the API resolves,
 and the fare formula. Money, kilometres, minutes and multipliers are exact numbers; `Math.round` is
 rounding half up.
 */
module Surge {
  import opened Options
  import opened SurgeWindow

  function Round(x: real): int {
    (x + 0.5).Floor
  }

  /** A whole number of cents as a multiplier or an amount. */
  function Cents(c: int): real {
    c as real / 100.0
  }

  // ---------- the update rule ----------

  datatype Config = Config(maxMultiplier: real, thresholdHigh: real, thresholdLow: real)

  function NextMultiplier(c: Config, current: real, ratio: real): real {
    var multiplier :=
      if ratio > c.thresholdHigh then
        (if c.maxMultiplier < current * 1.1 then c.maxMultiplier else current * 1.1)
      else if ratio < c.thresholdLow then
        (if current * 0.97 > 1.0 then current * 0.97 else 1.0)
      else current;
    Cents(Round(multiplier * 100.0))
  }

  /** The rule on whole cents. */
  function NextCents(c: Config, maxCents: int, cents: int, ratio: real): int {
    if ratio > c.thresholdHigh then
      var raised := (11 * cents + 5) / 10;
      if maxCents < raised then maxCents else raised
    else if ratio < c.thresholdLow then
      var lowered := (97 * cents + 50) / 100;
      if lowered > 100 then lowered else 100
    else cents
  }

  /** On whole cents with a whole-cent cap, rounding after the cap is rounding before it. */
  lemma MultiplierStaysWholeCents(c: Config, maxCents: int, cents: int, ratio: real)
    requires c.maxMultiplier == Cents(maxCents)
    ensures NextMultiplier(c, Cents(cents), ratio) == Cents(NextCents(c, maxCents, cents, ratio))
  {
    ScaledCents(cents);
    if ratio > c.thresholdHigh {
      CapCommutesWithRounding(maxCents, 11 * cents);
    } else if ratio < c.thresholdLow {
      FloorCommutesWithRounding(97 * cents);
    }
  }

  lemma ScaledCents(cents: int)
    ensures Cents(cents) * 100.0 == cents as real && Round(cents as real) == cents
    ensures Cents(cents) * 1.1 == (11 * cents) as real / 1000.0
    ensures Cents(cents) * 0.97 == (97 * cents) as real / 10000.0
  {}

  lemma CapCommutesWithRounding(maxCents: int, tenths: int)
    ensures var x, cap := tenths as real / 1000.0, Cents(maxCents);
            var rounded := (tenths + 5) / 10;
            Round((if cap < x then cap else x) * 100.0) == if maxCents < rounded then maxCents else rounded
  {}

  lemma FloorCommutesWithRounding(hundredths: int)
    ensures var x := hundredths as real / 10000.0;
            var rounded := (hundredths + 50) / 100;
            Round((if x > 1.0 then x else 1.0) * 100.0) == if rounded > 100 then rounded else 100
  {}

  /** The multiplier after a series of ticks with the given demand ratios. */
  function AfterTicks(c: Config, maxCents: int, cents: int, ratios: seq<real>): int
    decreases |ratios|
  {
    if ratios == [] then cents else AfterTicks(c, maxCents, NextCents(c, maxCents, cents, ratios[0]), ratios[1..])
  }

  /** The worker's multiplier after the same ticks. */
  function MultiplierAfter(c: Config, multiplier: real, ratios: seq<real>): real
    decreases |ratios|
  {
    if ratios == [] then multiplier else MultiplierAfter(c, NextMultiplier(c, multiplier, ratios[0]), ratios[1..])
  }

  /** Over any run the multiplier stays whole cents, so the results about cents are about the worker. */
  lemma {:induction false} RunsStayWholeCents(c: Config, maxCents: int, cents: int, ratios: seq<real>)
    requires c.maxMultiplier == Cents(maxCents)
    ensures MultiplierAfter(c, Cents(cents), ratios) == Cents(AfterTicks(c, maxCents, cents, ratios))
    decreases |ratios|
  {
    if ratios != [] {
      MultiplierStaysWholeCents(c, maxCents, cents, ratios[0]);
      RunsStayWholeCents(c, maxCents, NextCents(c, maxCents, cents, ratios[0]), ratios[1..]);
    }
  }

  function Max(a: int, b: int): int {
    if a >= b then a else b
  }

  /** On whole cents it never leaves [1.00, max(initial, M)]. */
  lemma {:induction false} CentsStayBounded(c: Config, maxCents: int, cents: int, ratios: seq<real>)
    requires cents >= 100 && maxCents >= 100
    ensures 100 <= AfterTicks(c, maxCents, cents, ratios) <= Max(cents, maxCents)
    decreases |ratios|
  {
    if ratios != [] {
      CentsStayBounded(c, maxCents, NextCents(c, maxCents, cents, ratios[0]), ratios[1..]);
    }
  }

  function CeilDiv(a: nat, b: nat): nat
    requires b > 0
  {
    (a + b - 1) / b
  }

  /** From `cents`, this many ticks of high demand bring it to M: ten cents each, and one if it starts above. */
  function HighTicksNeeded(maxCents: int, cents: int): nat {
    if cents > maxCents then 1 else CeilDiv(maxCents - cents, 10)
  }

  lemma {:induction false} HighDemandReachesTheCap(c: Config, maxCents: int, cents: int, ratios: seq<real>)
    requires cents >= 100 && maxCents >= 100
    requires forall i :: 0 <= i < |ratios| ==> ratios[i] > c.thresholdHigh
    requires |ratios| >= HighTicksNeeded(maxCents, cents)
    ensures AfterTicks(c, maxCents, cents, ratios) == maxCents
    decreases |ratios|
  {
    if ratios != [] {
      HighDemandReachesTheCap(c, maxCents, NextCents(c, maxCents, cents, ratios[0]), ratios[1..]);
    }
  }

  /** Hence at most ceil((M - 1.00) / 0.10) ticks, and at least one, whatever it starts from. */
  lemma HighDemandBound(c: Config, maxCents: int, cents: int, ratios: seq<real>)
    requires cents >= 100 && maxCents >= 100
    requires forall i :: 0 <= i < |ratios| ==> ratios[i] > c.thresholdHigh
    requires |ratios| >= Max(1, CeilDiv(maxCents - 100, 10))
    ensures AfterTicks(c, maxCents, cents, ratios) == maxCents
  {
    HighDemandReachesTheCap(c, maxCents, cents, ratios);
  }

  lemma {:induction false} LowDemandReachesOne(c: Config, maxCents: int, cents: int, ratios: seq<real>)
    requires cents >= 100
    requires forall i :: 0 <= i < |ratios| ==> ratios[i] < c.thresholdLow && ratios[i] <= c.thresholdHigh
    requires |ratios| >= CeilDiv(cents - 100, 3)
    ensures AfterTicks(c, maxCents, cents, ratios) == 100
    decreases |ratios|
  {
    if ratios != [] {
      LowDemandReachesOne(c, maxCents, NextCents(c, maxCents, cents, ratios[0]), ratios[1..]);
    }
  }

  // ---------- any cap ----------

  /** Rounding to cents does not raise `x`. */
  predicate RoundsDown(x: real) {
    Cents(Round(x * 100.0)) <= x
  }

  function Higher(x: real, y: real): real {
    if x >= y then x else y
  }

  lemma StepStaysBelow(c: Config, multiplier: real, top: real, ratio: real)
    requires 1.0 <= multiplier <= top && 1.0 <= c.maxMultiplier <= top && RoundsDown(top)
    ensures 1.0 <= NextMultiplier(c, multiplier, ratio) <= top
  {}

  lemma {:induction false} RunStaysBelow(c: Config, multiplier: real, top: real, ratios: seq<real>)
    requires 1.0 <= multiplier <= top && 1.0 <= c.maxMultiplier <= top && RoundsDown(top)
    ensures 1.0 <= MultiplierAfter(c, multiplier, ratios) <= top
    decreases |ratios|
  {
    if ratios != [] {
      StepStaysBelow(c, multiplier, top, ratios[0]);
      RunStaysBelow(c, NextMultiplier(c, multiplier, ratios[0]), top, ratios[1..]);
    }
  }

  /** Over any run the multiplier never leaves [1.00, max(initial, M)], provided rounding does not raise that maximum. */
  lemma MultiplierStaysBounded(c: Config, multiplier: real, ratios: seq<real>)
    requires multiplier >= 1.0 && c.maxMultiplier >= 1.0 && RoundsDown(Higher(multiplier, c.maxMultiplier))
    ensures 1.0 <= MultiplierAfter(c, multiplier, ratios) <= Higher(multiplier, c.maxMultiplier)
  {
    RunStaysBelow(c, multiplier, Higher(multiplier, c.maxMultiplier), ratios);
  }

  /** The proviso is exact: runs from anywhere up to the cap stay up to the cap if and only if rounding does not
      raise the cap. Whole cents are one such case. */
  lemma CapHoldsIffItRoundsDown(c: Config)
    requires c.maxMultiplier >= 1.0
    ensures (forall m: real, ratios: seq<real> :: 1.0 <= m <= c.maxMultiplier ==>
               1.0 <= MultiplierAfter(c, m, ratios) <= c.maxMultiplier)
       <==> RoundsDown(c.maxMultiplier)
  {
    var cap := c.maxMultiplier;
    if RoundsDown(cap) {
      forall m: real, ratios: seq<real> | 1.0 <= m <= cap
        ensures 1.0 <= MultiplierAfter(c, m, ratios) <= cap
      {
        MultiplierStaysBounded(c, m, ratios);
      }
    } else {
      var high := c.thresholdHigh + 1.0;
      assert NextMultiplier(c, cap, high) > cap;
      assert MultiplierAfter(c, cap, [high]) == MultiplierAfter(c, NextMultiplier(c, cap, high), []);
    }
  }

  lemma WholeCentsRoundDown(cents: int)
    ensures RoundsDown(Cents(cents))
  {
    ScaledCents(cents);
  }

  /** A cap that rounding raises is exceeded from the first tick on; one that rounding lowers is not. */
  lemma FractionalCapIsExceeded()
    ensures var c := Config(1.055, 1.5, 0.5); !RoundsDown(c.maxMultiplier) && NextMultiplier(c, 1.0, 2.0) > c.maxMultiplier
    ensures RoundsDown(1.054)
  {}

  // ---------- what the API reads ----------

  /** A cache read: the call failed, there was no value, or text that may or may not be a finite number. */
  datatype Cached = ReadFailed | Missing | Text(number: Option<real>)

  function ResolveSurge(zoneId: Option<string>, cached: Cached, pgMultiplier: Option<Option<real>>): real {
    if zoneId.None? then 1.0
    else if cached.Text? && cached.number.Some? && cached.number.value >= 1.0 then cached.number.value
    else
      var fallback := if pgMultiplier.Some? then pgMultiplier.value else Some(1.0);
      if fallback.Some? && fallback.value >= 1.0 then fallback.value else 1.0
  }

  /** Every value the worker ever writes is taken as it is, from the cache or, when the cache has no number of at least
      1.00, from the table; and nothing below 1.00 is ever charged. */
  lemma WrittenMultipliersAreAccepted(c: Config, maxCents: int, cents: int, ratios: seq<real>,
                                      zone: string, cached: Cached, pg: Option<Option<real>>)
    requires cents >= 100 && maxCents >= 100
    ensures var written := Cents(AfterTicks(c, maxCents, cents, ratios));
            && ResolveSurge(Some(zone), Text(Some(written)), pg) == written
            && ((forall x :: x >= 1.0 ==> cached != Text(Some(x))) ==> ResolveSurge(Some(zone), cached, Some(Some(written))) == written)
    ensures (forall x :: x >= 1.0 ==> cached != Text(Some(x)) && pg != Some(Some(x))) ==> ResolveSurge(Some(zone), cached, pg) == 1.0
    ensures ResolveSurge(Some(zone), cached, pg) >= 1.0 && ResolveSurge(None, cached, pg) == 1.0
  {
    CentsStayBounded(c, maxCents, cents, ratios);
  }

  // ---------- the fare ----------

  function BaseFare(distanceKm: real, durationMin: real): real {
    2.5 + distanceKm * 0.8 + durationMin * 0.18
  }

  function FareCents(distanceKm: real, durationMin: real, surge: real): int {
    Round(BaseFare(distanceKm, durationMin) * surge * 100.0)
  }

  lemma FareIsMonotone(d1: real, t1: real, s1: real, d2: real, t2: real, s2: real)
    requires 0.0 <= d1 <= d2 && 0.0 <= t1 <= t2 && 0.0 <= s1 <= s2
    ensures FareCents(d1, t1, s1) <= FareCents(d2, t2, s2)
  {}

  /** Whatever the demand was, a fare at the resolved multiplier lies between the rounded base fare and
      the rounded base fare at the highest multiplier there can be. */
  lemma FaresLieBetweenBaseAndCap(c: Config, maxCents: int, cents: int, ratios: seq<real>, zone: string,
                                  distanceKm: real, durationMin: real, pg: Option<Option<real>>)
    requires cents >= 100 && maxCents >= 100 && distanceKm >= 0.0 && durationMin >= 0.0
    ensures var surge := ResolveSurge(Some(zone), Text(Some(Cents(AfterTicks(c, maxCents, cents, ratios)))), pg);
            && FareCents(distanceKm, durationMin, 1.0) <= FareCents(distanceKm, durationMin, surge)
            && FareCents(distanceKm, durationMin, surge) <= FareCents(distanceKm, durationMin, Cents(Max(cents, maxCents)))
  {
    CentsStayBounded(c, maxCents, cents, ratios);
    WrittenMultipliersAreAccepted(c, maxCents, cents, ratios, zone, Missing, pg);
    var surge := Cents(AfterTicks(c, maxCents, cents, ratios));
    FareIsMonotone(distanceKm, durationMin, 1.0, distanceKm, durationMin, surge);
    FareIsMonotone(distanceKm, durationMin, surge, distanceKm, durationMin, Cents(Max(cents, maxCents)));
  }

  // ---------- the worker ----------

  datatype Zone = Zone(requests: nat, lastSeenIdx: seq<nat>, multiplier: real)

  function Ratio(requests: nat, driversOnline: nat): real {
    requests as real / (if driversOnline == 0 then 1 else driversOnline) as real
  }

  /** One zone's share of a tick whose index is `at`. */
  function TickZone(c: Config, z: Zone, at: nat, driversOnline: nat): Zone
    requires at < |z.lastSeenIdx|
  {
    z.(multiplier := NextMultiplier(c, z.multiplier, Ratio(Sum(z.lastSeenIdx), driversOnline)),
       lastSeenIdx := z.lastSeenIdx[Next(at, |z.lastSeenIdx|) := 0])
  }

  datatype Entry = Entry(id: string, zone: Zone)

  /** `Map.get`. */
  function IndexOf(counts: seq<Entry>, id: string): (i: Option<nat>)
    ensures i.Some? ==> i.value < |counts| && counts[i.value].id == id
    ensures i.None? ==> forall j :: 0 <= j < |counts| ==> counts[j].id != id
  {
    if counts == [] then None
    else if counts[0].id == id then Some(0)
    else
      var i := IndexOf(counts[1..], id);
      if i.Some? then Some(i.value + 1) else None
  }

  class SurgeEngine {
    const config: Config
    const tickRing: nat
    var tickIdx: nat
    var counts: seq<Entry>

    ghost predicate Valid()
      reads this
    {
      && tickIdx < tickRing
      && forall i :: 0 <= i < |counts| ==> |counts[i].zone.lastSeenIdx| == tickRing
    }

    /** The buffer of one zone between ticks. */
    ghost function BufferOf(i: nat): Buffer
      requires i < |counts|
      reads this
    {
      Buffer(counts[i].zone.lastSeenIdx, tickIdx, false)
    }

    /** The same while a tick has yet to clear the zone. */
    ghost function TickingBufferOf(i: nat): Buffer
      requires i < |counts|
      reads this
    {
      BufferOf(i).(ticking := true)
    }

    /** `windowTicks` is the configured window in seconds, rounded. */
    constructor (config: Config, windowTicks: int)
      ensures Valid() && this.config == config && tickRing == (if windowTicks > 1 then windowTicks else 1)
      ensures counts == [] && tickIdx == 0
    {
      this.config := config;
      tickRing := if windowTicks > 1 then windowTicks else 1;
      tickIdx := 0;
      counts := [];
    }

    /** One zone per row of `surge_zones`, in row order. */
    method LoadZones(rows: seq<(string, real)>)
      requires Valid() && counts == [] && tickIdx == 0
      modifies this`counts
      ensures Valid() && |counts| == |rows|
      ensures forall i :: 0 <= i < |rows| ==>
                counts[i].id == rows[i].0 && counts[i].zone.multiplier == rows[i].1 && BufferOf(i) == Fresh(tickRing)
    {
      for n := 0 to |rows|
        invariant Valid() && |counts| == n
        invariant forall i :: 0 <= i < n ==> counts[i] == Entry(rows[i].0, Zone(0, Zeros(tickRing), rows[i].1))
      {
        counts := counts + [Entry(rows[n].0, Zone(0, Zeros(tickRing), rows[n].1))];
      }
    }

    /** A `trip.requested` message whose pickup lies in zone `zoneId`, if in any. */
    method OnTripEvent(zoneId: Option<string>)
      requires Valid()
      modifies this`counts
      ensures Valid() && |counts| == |old(counts)|
      ensures var hit := if zoneId.Some? then IndexOf(old(counts), zoneId.value) else None;
              forall i :: 0 <= i < |counts| ==>
                if hit == Some(i) then
                  && BufferOf(i) == Record(old(BufferOf(i)))
                  && counts[i].zone.requests == old(counts[i].zone.requests) + 1
                  && counts[i].zone.multiplier == old(counts[i].zone.multiplier) && counts[i].id == old(counts[i].id)
                else counts[i] == old(counts[i])
    {
      if zoneId.None? {
        return;
      }
      var hit := IndexOf(counts, zoneId.value);
      if hit.None? {
        return;
      }
      var zone := counts[hit.value].zone;
      zone := zone.(requests := zone.requests + 1);
      zone := zone.(lastSeenIdx := zone.lastSeenIdx[tickIdx := zone.lastSeenIdx[tickIdx] + 1]);
      counts := counts[hit.value := counts[hit.value].(zone := zone)];
    }

    /** A tick before its first wait: the index moves on for every zone. */
    method AdvanceIndex()
      requires Valid()
      modifies this`tickIdx
      ensures Valid() && tickIdx == Next(old(tickIdx), tickRing)
      ensures forall i :: 0 <= i < |counts| ==> TickingBufferOf(i) == StartTick(old(BufferOf(i)))
    {
      tickIdx := Next(tickIdx, tickRing);
    }

    /** The part of a tick that reads one zone's window. */
    method CountRequests(n: nat) returns (requests: nat)
      requires Valid() && n < |counts|
      ensures requests == Sum(TickingBufferOf(n).slots)
    {
      requests := Sum(counts[n].zone.lastSeenIdx);
    }

    /** The part after the driver count has arrived. */
    method UpdateMultiplier(n: nat, requests: nat, driversOnline: nat) returns (multiplier: real)
      requires Valid() && n < |counts|
      modifies this`counts
      ensures Valid() && multiplier == NextMultiplier(config, old(counts[n].zone.multiplier), Ratio(requests, driversOnline))
      ensures counts == old(counts)[n := old(counts[n]).(zone := old(counts[n].zone).(multiplier := multiplier))]
    {
      var drivers := if driversOnline == 0 then 1 else driversOnline;
      multiplier := NextMultiplier(config, counts[n].zone.multiplier, requests as real / drivers as real);
      counts := counts[n := counts[n].(zone := counts[n].zone.(multiplier := multiplier))];
    }

    /** The part after the cache has been written: the slot of the next tick is cleared. */
    method ClearNextSlot(n: nat)
      requires Valid() && n < |counts|
      modifies this`counts
      ensures Valid() && |counts| == |old(counts)| && BufferOf(n) == Clear(old(TickingBufferOf(n)))
      ensures counts == old(counts)[n := old(counts[n]).(zone := old(counts[n].zone).(lastSeenIdx := BufferOf(n).slots))]
    {
      var zone := counts[n].zone;
      zone := zone.(lastSeenIdx := zone.lastSeenIdx[Next(tickIdx, tickRing) := 0]);
      counts := counts[n := counts[n].(zone := zone)];
    }

    /** One tick in which no message is handled between its parts; `onlineDrivers` answers the per-zone count query. */
    method Tick(onlineDrivers: string -> nat) returns (written: seq<(string, real)>)
      requires Valid()
      modifies this`tickIdx, this`counts
      ensures Valid() && |counts| == |old(counts)| == |written|
      ensures forall i :: 0 <= i < |counts| ==>
                && BufferOf(i) == Clear(StartTick(old(BufferOf(i))))
                && counts[i] == old(counts[i]).(zone := TickZone(config, old(counts[i].zone), tickIdx, onlineDrivers(counts[i].id)))
                && written[i] == (counts[i].id, counts[i].zone.multiplier)
    {
      ghost var was := counts;
      AdvanceIndex();
      written := [];
      for n := 0 to |counts|
        invariant Valid() && |counts| == |was| && |written| == n && tickIdx == Next(old(tickIdx), tickRing)
        invariant forall i :: n <= i < |counts| ==> counts[i] == was[i]
        invariant forall i :: 0 <= i < n ==>
                    && counts[i] == was[i].(zone := TickZone(config, was[i].zone, tickIdx, onlineDrivers(was[i].id)))
                    && written[i] == (counts[i].id, counts[i].zone.multiplier)
      {
        var requests := CountRequests(n);
        var multiplier := UpdateMultiplier(n, requests, onlineDrivers(counts[n].id));
        written := written + [(counts[n].id, multiplier)];
        ClearNextSlot(n);
      }
    }

    /** The values written to `surge_zones.base_multiplier`. */
    method FlushToDb() returns (updates: seq<(string, real)>)
      ensures |updates| == |counts|
      ensures forall i :: 0 <= i < |counts| ==> updates[i] == (counts[i].id, counts[i].zone.multiplier)
    {
      updates := [];
      for n := 0 to |counts|
        invariant |updates| == n
        invariant forall i :: 0 <= i < n ==> updates[i] == (counts[i].id, counts[i].zone.multiplier)
      {
        updates := updates + [(counts[n].id, counts[n].zone.multiplier)];
      }
    }
  }
}
