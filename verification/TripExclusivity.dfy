/**
 Driver exclusivity: no driver has two active trips, and a driver with one is never online. It rests on one
 assumption about callers, and is shown to fail without it.
 */
module TripExclusivity {
  import opened Options
  import opened Rating
  import opened Trips
  import opened TripLifecycle

  ghost predicate OneTripEach(db: Db) {
    forall d, t, u :: Drives(db, d, t) && Drives(db, d, u) ==> t == u
  }

  ghost predicate BusyIsNotOnline(db: Db) {
    forall d, t :: Drives(db, d, t) && d in db.drivers ==> db.drivers[d].status != Online
  }

  ghost predicate Exclusive(db: Db) {
    OneTripEach(db) && BusyIsNotOnline(db)
  }

  /** The one transaction that can hurt: an explicit switch to online, accepted while the driver has an active trip. */
  predicate Harmless(db: Db, tx: Tx) {
    tx.SetStatusTx? && tx.status == Online && tx.driver in db.drivers && db.drivers[tx.driver].status != Suspended
    ==> !HasActiveTrip(db, tx.driver)
  }

  // ---------- one transaction ----------

  /** Only a match makes a driver drive a trip the driver did not drive before. */
  lemma OnlyAssignAddsWork(db: Db, tx: Tx, d: UserId, t: TripId)
    requires Coherent(db, t) && Drives(Execute(db, tx).db, d, t)
    ensures Drives(db, d, t) || (tx == AssignTx(t, d) && Eligible(db, d))
  {}

  lemma AssignKeepsExclusive(db: Db, t: TripId, d: UserId)
    requires AllCoherent(db) && Exclusive(db)
    ensures Exclusive(Assign(db, t, d).db)
  {
    var tx := AssignTx(t, d);
    var after := Execute(db, tx).db;
    forall e, u | Drives(after, e, u)
      ensures Drives(db, e, u) || (tx == AssignTx(u, e) && Eligible(db, e))
    {
      assert Coherent(db, u);
      OnlyAssignAddsWork(db, tx, e, u);
    }
  }

  /** Ending an active trip frees its driver, who had no other. */
  lemma EndingFreesTheDriver(db: Db, tx: Tx, d: UserId, t: TripId)
    requires AllCoherent(db) && OneTripEach(db)
    requires tx.CancelTx? || tx.CompleteTx?
    requires Drives(Execute(db, tx).db, d, t)
    ensures Drives(db, d, t)
    ensures d in db.drivers ==> Execute(db, tx).db.drivers[d].status == db.drivers[d].status
  {
    assert Coherent(db, t);
    OnlyAssignAddsWork(db, tx, d, t);
    if Execute(db, tx).reply == Done && db.trips[tx.trip].driver == Some(d) {
      assert Coherent(db, tx.trip);
      assert Drives(db, d, tx.trip);
    }
  }

  lemma EndingKeepsExclusive(db: Db, tx: Tx)
    requires AllCoherent(db) && Exclusive(db)
    requires tx.CancelTx? || tx.CompleteTx?
    ensures Exclusive(Execute(db, tx).db)
  {
    forall d, t | Drives(Execute(db, tx).db, d, t)
      ensures Drives(db, d, t)
      ensures d in db.drivers ==> Execute(db, tx).db.drivers[d].status == db.drivers[d].status
    {
      EndingFreesTheDriver(db, tx, d, t);
    }
  }

  /** The other transactions give nobody work; a ping or a status change puts online only drivers without any. */
  lemma OthersKeepExclusive(db: Db, tx: Tx)
    requires AllCoherent(db) && Exclusive(db) && Harmless(db, tx)
    requires !tx.AssignTx? && !tx.CancelTx? && !tx.CompleteTx?
    ensures Exclusive(Execute(db, tx).db)
  {
    var after := Execute(db, tx).db;
    forall d, t | Drives(after, d, t)
      ensures Drives(db, d, t)
    {
      assert Coherent(db, t);
      OnlyAssignAddsWork(db, tx, d, t);
    }
    forall d, t | Drives(after, d, t) && d in after.drivers
      ensures after.drivers[d].status != Online
    {
      assert HasActiveTrip(db, d);
      assert Coherent(db, t);
    }
  }

  lemma HarmlessKeepsExclusive(db: Db, tx: Tx)
    requires AllCoherent(db) && Exclusive(db) && Harmless(db, tx)
    ensures Exclusive(Execute(db, tx).db)
  {
    if tx.AssignTx? {
      AssignKeepsExclusive(db, tx.trip, tx.driver);
    } else if tx.CancelTx? || tx.CompleteTx? {
      EndingKeepsExclusive(db, tx);
    } else {
      OthersKeepExclusive(db, tx);
    }
  }

  /** A harmful transaction breaks exclusivity at once. */
  lemma HarmBreaksExclusive(db: Db, tx: Tx)
    requires !Harmless(db, tx)
    ensures !BusyIsNotOnline(Execute(db, tx).db)
  {
    var t :| t in db.trips && Drives(db, tx.driver, t);
    assert Drives(Execute(db, tx).db, tx.driver, t);
  }

  /** Cancelling or completing a trip frees its driver and touches no other driver. */
  lemma EndedTripFreesItsDriver(db: Db, tx: Tx, d: UserId)
    requires AllCoherent(db) && OneTripEach(db) && (tx.CancelTx? || tx.CompleteTx?)
    requires Execute(db, tx).reply == Done && db.trips[tx.trip].driver == Some(d)
    ensures var after := Execute(db, tx).db;
            && HasStatus(after, d, Online) && !HasActiveTrip(after, d)
            && forall e :: e != d && e in db.drivers ==> e in after.drivers && after.drivers[e] == db.drivers[e]
  {
    assert Coherent(db, tx.trip);
    var after := Execute(db, tx).db;
    if t :| t in after.trips && Drives(after, d, t) {
      EndingFreesTheDriver(db, tx, d, t);
      assert Drives(db, d, tx.trip);
    }
  }

  predicate HasStatus(db: Db, d: UserId, s: DriverStatus) {
    d in db.drivers && db.drivers[d].status == s
  }

  /** A match reserves the driver and touches no other. */
  lemma MatchReservesItsDriver(db: Db, t: TripId, d: UserId)
    requires Assign(db, t, d).reply == Done
    ensures var after := Assign(db, t, d).db;
            && HasStatus(after, d, OnTrip) && Drives(after, d, t) && !Eligible(after, d)
            && forall e :: e != d && e in db.drivers ==> e in after.drivers && after.drivers[e] == db.drivers[e]
  {}

  // ---------- whole runs ----------

  ghost predicate ExclusiveThroughout(db: Db, txs: seq<Tx>) {
    forall k :: 0 <= k <= |txs| ==> Exclusive(Run(db, txs[..k]))
  }

  ghost predicate HarmlessThroughout(db: Db, txs: seq<Tx>) {
    forall k :: 0 <= k < |txs| ==> Harmless(Run(db, txs[..k]), txs[k])
  }

  lemma RunPrefix(db: Db, txs: seq<Tx>, k: nat)
    requires k < |txs|
    ensures Run(db, txs[..k + 1]) == Execute(Run(db, txs[..k]), txs[k]).db
  {
    assert txs[..k + 1] == txs[..k] + [txs[k]];
    RunSnoc(db, txs[..k], txs[k]);
  }

  lemma {:induction false} HarmlessRunsStayExclusive(db: Db, txs: seq<Tx>, k: nat)
    requires Initial(db) && HarmlessThroughout(db, txs) && k <= |txs|
    ensures Exclusive(Run(db, txs[..k]))
  {
    if k > 0 {
      HarmlessRunsStayExclusive(db, txs, k - 1);
      EveryRunIsCoherent(db, txs[..k - 1]);
      RunPrefix(db, txs, k - 1);
      assert Harmless(Run(db, txs[..k - 1]), txs[k - 1]);
      HarmlessKeepsExclusive(Run(db, txs[..k - 1]), txs[k - 1]);
    }
  }

  /** Over every run, whatever the interleaving, candidate lists, redeliveries and index contents that led to
      it: drivers stay exclusive throughout if and only if no driver with an active trip is switched to online. */
  lemma ExclusiveIffHarmless(db: Db, txs: seq<Tx>)
    requires Initial(db)
    ensures ExclusiveThroughout(db, txs) <==> HarmlessThroughout(db, txs)
  {
    if HarmlessThroughout(db, txs) {
      forall k | 0 <= k <= |txs|
        ensures Exclusive(Run(db, txs[..k]))
      {
        HarmlessRunsStayExclusive(db, txs, k);
      }
    }
    if k :| 0 <= k < |txs| && !Harmless(Run(db, txs[..k]), txs[k]) {
      HarmBreaksExclusive(Run(db, txs[..k]), txs[k]);
      RunPrefix(db, txs, k);
      assert !Exclusive(Run(db, txs[..k + 1]));
    }
  }

  lemma DoubleBooking(db: Db, t: TripId, u: TripId, d: UserId)
    requires t != u && IsRequested(db, t) && IsRequested(db, u) && Eligible(db, d)
    ensures var after := Assign(SetStatus(Assign(db, t, d).db, d, Online).db, u, d).db;
            Drives(after, d, t) && Drives(after, d, u)
  {}

  lemma RunFive(db: Db, txs: seq<Tx>)
    requires |txs| == 5
    ensures Run(db, txs) ==
            Execute(Execute(Execute(Execute(Execute(db, txs[0]).db, txs[1]).db, txs[2]).db, txs[3]).db, txs[4]).db
  {
    assert txs[..5] == txs && Run(db, txs[..0]) == db;
    RunPrefix(db, txs, 0);
    RunPrefix(db, txs, 1);
    RunPrefix(db, txs, 2);
    RunPrefix(db, txs, 3);
    RunPrefix(db, txs, 4);
  }

  /** Without the assumption one driver can be given two trips at once. */
  lemma SwitchingOnlineMidTripDoubleBooks(v: VehicleId, rider: UserId, other: UserId, dto: nat)
    ensures var db := Db(map[], map[7 := Driver(Online, Some(v), true, UNRATED)], [], []);
            var txs := [CreateTx(1, rider, dto), CreateTx(2, other, dto), AssignTx(1, 7),
                        SetStatusTx(7, Online), AssignTx(2, 7)];
            Initial(db) && Drives(Run(db, txs), 7, 1) && Drives(Run(db, txs), 7, 2)
  {
    var db := Db(map[], map[7 := Driver(Online, Some(v), true, UNRATED)], [], []);
    var a, b, c, d, e := CreateTx(1, rider, dto), CreateTx(2, other, dto), AssignTx(1, 7), SetStatusTx(7, Online), AssignTx(2, 7);
    var s := Execute(Execute(db, a).db, b).db;
    assert IsRequested(s, 1) && IsRequested(s, 2) && Eligible(s, 7);
    DoubleBooking(s, 1, 2, 7);
    RunFive(db, [a, b, c, d, e]);
  }
}
