/**
 The tariff in whole numbers: what a completed trip costs, in metres, hundredths of a minute and cents, and what one tick
 of the surge worker makes of a multiplier, in requests, drivers and cents.
 */
module Tariff {
  import opened Options
  import opened Surge
  import opened SurgeWindow
  import opened Trips

  // ---------- fares ----------

  /** 2.50 plus 0.80 a kilometre and 0.18 a minute, times the surge, halves of a cent rounded up. */
  lemma FareInWholeNumbers(metres: nat, centiminutes: nat, surgeCents: nat)
    ensures FareCents(metres as real / 1000.0, centiminutes as real / 100.0, surgeCents as real / 100.0) ==
            ((250000 + 80 * metres + 180 * centiminutes) * surgeCents + 50000) / 100000
  {
    var n := (250000 + 80 * metres + 180 * centiminutes) * surgeCents;
    assert FareCents(metres as real / 1000.0, centiminutes as real / 100.0, surgeCents as real / 100.0) == Round(n as real / 100000.0) by {
      BaseInWholeNumbers(metres, centiminutes);
      var b := 250000 + 80 * metres + 180 * centiminutes;
      assert b as real / 100000.0 * (surgeCents as real / 100.0) * 100.0 == (b as real * surgeCents as real) / 100000.0;
      assert n as real == b as real * surgeCents as real;
    }
    RoundHundredThousandths(n);
  }

  lemma BaseInWholeNumbers(metres: nat, centiminutes: nat)
    ensures BaseFare(metres as real / 1000.0, centiminutes as real / 100.0) ==
            (250000 + 80 * metres + 180 * centiminutes) as real / 100000.0
  {}

  lemma RoundHundredThousandths(n: nat)
    ensures Round(n as real / 100000.0) == (n + 50000) / 100000
  {}

  /** A completed trip and its event hold this fare. */
  lemma CompletionChargesTheFare(db: Db, t: TripId, driver: UserId, role: Role, metres: nat, centiminutes: nat, surgeCents: nat)
    requires var fare := FareCents(metres as real / 1000.0, centiminutes as real / 100.0, surgeCents as real / 100.0);
             Execute(db, CompleteTx(t, driver, role, fare)).reply == Done
    ensures var fare := FareCents(metres as real / 1000.0, centiminutes as real / 100.0, surgeCents as real / 100.0);
            var now := Execute(db, CompleteTx(t, driver, role, fare)).db;
            var charged := ((250000 + 80 * metres + 180 * centiminutes) * surgeCents + 50000) / 100000;
            && t in now.trips && now.trips[t].status == Completed && now.trips[t].fareCents == Some(charged)
            && now.events == db.events + [Event(t, TripCompleted(driver, charged))]
  {
    FareInWholeNumbers(metres, centiminutes, surgeCents);
  }

  // ---------- ticks ----------

  /** The demand ratio counts at least one driver. */
  lemma RatioInWholeNumbers(requests: nat, drivers: nat, threshold: real)
    ensures var n := if drivers > 1 then drivers else 1;
            && (Ratio(requests, drivers) > threshold <==> requests as real > threshold * n as real)
            && (Ratio(requests, drivers) < threshold <==> (requests as real) < threshold * n as real)
  {
    var n := (if drivers > 1 then drivers else 1) as real;
    assert Ratio(requests, drivers) == requests as real / n;
    QuotientAgainst(requests as real, n, threshold);
  }

  lemma QuotientAgainst(x: real, n: real, t: real)
    requires n > 0.0
    ensures (x / n > t <==> x > t * n) && (x / n < t <==> x < t * n)
  {
    assert x == x / n * n;
    if x / n > t {
      assert (x / n - t) * n > 0.0;
    } else if x / n < t {
      assert (t - x / n) * n > 0.0;
    }
  }

  /** One tick of a zone at a whole number of cents: above the high threshold a tenth is added up to the cap, below
      the low one three hundredths are taken off down to 1.00, both rounded to cents, halves up. */
  lemma OneTick(c: Config, z: Zone, at: nat, drivers: nat, cents: int, capCents: int) returns (after: int)
    requires at < |z.lastSeenIdx| && z.multiplier == cents as real / 100.0 && c.maxMultiplier == capCents as real / 100.0
    ensures var n := (if drivers > 1 then drivers else 1) as real; var requests := Sum(z.lastSeenIdx) as real;
            && TickZone(c, z, at, drivers).multiplier == after as real / 100.0
            && (requests > c.thresholdHigh * n ==>
                  if 10 * capCents <= 11 * cents + 5 then after == capCents else 10 * after <= 11 * cents + 5 < 10 * after + 10)
            && (requests <= c.thresholdHigh * n && requests < c.thresholdLow * n ==>
                  if 97 * cents + 50 < 10000 then after == 100 else 100 * after <= 97 * cents + 50 < 100 * after + 100)
            && (requests <= c.thresholdHigh * n && requests >= c.thresholdLow * n ==> after == cents)
  {
    var ratio := Ratio(Sum(z.lastSeenIdx), drivers);
    RatioInWholeNumbers(Sum(z.lastSeenIdx), drivers, c.thresholdHigh);
    RatioInWholeNumbers(Sum(z.lastSeenIdx), drivers, c.thresholdLow);
    MultiplierStaysWholeCents(c, capCents, cents, ratio);
    after := NextCents(c, capCents, cents, ratio);
  }
}
