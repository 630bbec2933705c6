/**
 Who may change a trip, and in which state: what each transaction answers and does, said of the rows alone, and where
 every trip and rating of a run comes from.
 */
module TripAuthority {
  import opened DriverIndex
  import opened Options
  import opened Rating
  import opened Trips
  import opened TripLifecycle
  import Deployment

  // ---------- one transaction ----------

  /** Some trip of `d` is matched or in progress. */
  ghost predicate Busy(db: Db, d: UserId) {
    exists t :: t in db.trips && db.trips[t].driver == Some(d) && db.trips[t].status in {Matched, InProgress}
  }

  ghost predicate HasRating(db: Db, t: TripId) {
    exists r :: r in db.ratings && r.trip == t
  }

  /** Exactly the requests of the trip's own rider and driver, in the right state of the trip, are carried out. */
  lemma DoneIff(db: Db, tx: Tx)
    ensures Execute(db, tx).reply == Done <==>
            match tx
            case CreateTx(t, _, _) => t !in db.trips
            case AssignTx(t, d) =>
              && t in db.trips && db.trips[t].status == Requested
              && d in db.drivers && db.drivers[d].status == Online && db.drivers[d].vehicle != None
            case CancelTx(t, a, role) =>
              && t in db.trips && db.trips[t].status in {Requested, Matched}
              && ((role == Rider && db.trips[t].rider == a) || (role == Driving && db.trips[t].driver == Some(a)))
            case StartTx(t, a, role) =>
              role == Driving && t in db.trips && db.trips[t].driver == Some(a) && db.trips[t].status == Matched
            case CompleteTx(t, a, role, _) =>
              role == Driving && t in db.trips && db.trips[t].driver == Some(a) && db.trips[t].status == InProgress
            case RateTx(t, a, stars) =>
              && t in db.trips && db.trips[t].rider == a && db.trips[t].status == Completed && 1 <= stars <= 5
              && (exists d :: d in db.drivers && db.trips[t].driver == Some(d)) && !HasRating(db, t)
            case PingTx(d) => d in db.drivers && db.drivers[d].status != Suspended
            case SetStatusTx(d, status) => status != Suspended && d in db.drivers && db.drivers[d].status != Suspended
            case RegisterTx(d) => d !in db.drivers
            case SetVehicleTx(d, _) => d in db.drivers
  {
    if tx.RateTx? {
      RatedMeansARow(db, tx.trip);
    }
  }

  lemma RatedMeansARow(db: Db, t: TripId)
    ensures IsRated(db, t) <==> HasRating(db, t)
  {
    if r :| r in db.ratings && r.trip == t {
      var i :| 0 <= i < |db.ratings| && db.ratings[i] == r;
      assert db.ratings[i].trip == t;
    }
    if i :| 0 <= i < |db.ratings| && db.ratings[i].trip == t {
      assert db.ratings[i] in db.ratings;
    }
  }

  /** Why a request about a trip is refused, and that a refused one changes nothing. */
  lemma Refusals(db: Db, tx: Tx)
    requires Execute(db, tx).reply != Done
    ensures Execute(db, tx).db == db
    ensures Execute(db, tx).reply ==
            match tx
            case CreateTx(_, _, _) => Conflict
            case AssignTx(t, d) =>
              if d in db.drivers && db.drivers[d].status == Online && db.drivers[d].vehicle != None then NotFound else Unavailable
            case CancelTx(_, _, role) => if role == Admin then BadRequest else NotFound
            case StartTx(_, _, role) => if role != Driving then BadRequest else NotFound
            case CompleteTx(_, _, role, _) => if role != Driving then BadRequest else NotFound
            case RateTx(t, a, stars) =>
              if t !in db.trips || db.trips[t].rider != a || db.trips[t].status != Completed
                || !exists d :: d in db.drivers && db.trips[t].driver == Some(d) then NotFound
              else if 1 <= stars <= 5 then Conflict
              else BadRequest
            case PingTx(_) => NotFound
            case SetStatusTx(_, status) => if status == Suspended then BadRequest else NotFound
            case RegisterTx(_) => Conflict
            case SetVehicleTx(_, _) => NotFound
  {
    if tx.RateTx? {
      RatedMeansARow(db, tx.trip);
    }
  }

  /** What one transaction makes of one trip, the transaction being carried out. */
  ghost predicate Moves(db: Db, tx: Tx, t: TripId, after: Trip)
    requires t in db.trips
  {
    var trip := db.trips[t];
    match tx
    case AssignTx(u, d) =>
      && u == t && d in db.drivers && db.drivers[d].status == Online && db.drivers[d].vehicle != None
      && trip.status == Requested
      && after == Trip(trip.rider, Some(d), db.drivers[d].vehicle, Matched, trip.fareCents)
    case CancelTx(u, a, Rider) =>
      u == t && trip.rider == a && trip.status in {Requested, Matched} && after == trip.(status := CancelledByRider)
    case CancelTx(u, a, Driving) =>
      u == t && trip.driver == Some(a) && trip.status in {Requested, Matched} && after == trip.(status := CancelledByDriver)
    case StartTx(u, a, role) =>
      && u == t && role == Driving && trip.driver == Some(a) && trip.status == Matched
      && after == trip.(status := InProgress)
    case CompleteTx(u, a, role, fareCents) =>
      && u == t && role == Driving && trip.driver == Some(a) && trip.status == InProgress
      && after == trip.(status := Completed, fareCents := Some(fareCents))
    case _ => false
  }

  /** A trip changes only by a request of its own rider or driver, or by a match, each from its one state to its one
      state; and it appears only by being requested. */
  lemma EveryMoveHasItsActor(db: Db, tx: Tx, t: TripId)
    ensures var after := Execute(db, tx).db.trips;
            && (t in db.trips ==> t in after && (after[t] == db.trips[t] || Moves(db, tx, t, after[t])))
            && (t !in db.trips && t in after ==>
                  tx.CreateTx? && tx.id == t && after[t] == Trip(tx.rider, None, None, Requested, None))
  {}

  /** Only its rider or its driver cancels a trip, and the status says which. */
  lemma WhoCancels(db: Db, tx: Tx, t: TripId)
    requires t in db.trips && db.trips[t].status !in {CancelledByRider, CancelledByDriver}
    ensures var now := Execute(db, tx).db.trips; var trip := db.trips[t];
            && t in now
            && (now[t].status == CancelledByRider <==>
                  tx == CancelTx(t, trip.rider, Rider) && trip.status in {Requested, Matched})
            && (now[t].status == CancelledByDriver <==>
                  trip.driver.Some? && tx == CancelTx(t, trip.driver.value, Driving) && trip.status in {Requested, Matched})
  {
    EveryMoveHasItsActor(db, tx, t);
    DoneIff(db, tx);
  }

  /** What one transaction makes of one driver. */
  lemma DriversMoveOnlySo(db: Db, tx: Tx, d: UserId)
    requires d in db.drivers
    ensures var now := Execute(db, tx).db.drivers; var done := Execute(db, tx).reply == Done;
            && d in now
            && now[d].status == (
                 if done && tx.AssignTx? && tx.driver == d then OnTrip
                 else if done && tx.CancelTx? && db.trips[tx.trip].driver == Some(d) then Online
                 else if done && tx.CompleteTx? && tx.actor == d then Online
                 else if done && tx == PingTx(d) && db.drivers[d].status != OnTrip && !Busy(db, d) then Online
                 else if done && tx.SetStatusTx? && tx.driver == d then tx.status
                 else db.drivers[d].status)
            && now[d].vehicle == (if tx.SetVehicleTx? && tx.driver == d then tx.vehicle else db.drivers[d].vehicle)
            && now[d].located == (db.drivers[d].located || (done && tx == PingTx(d)))
            && (now[d].score != db.drivers[d].score ==> done && tx.RateTx? && db.trips[tx.trip].driver == Some(d))
  {
    BusyMeansActive(db, d);
  }

  /** A driver row appears only by registration: offline, without a vehicle or a position, at 5.00 from no ratings. */
  lemma DriversAppearOnlySo(db: Db, tx: Tx, d: UserId)
    requires d !in db.drivers
    ensures d in Execute(db, tx).db.drivers <==> tx == RegisterTx(d)
    ensures tx == RegisterTx(d) ==> Execute(db, tx).db.drivers[d] == Driver(Offline, None, false, Score(0, 500))
  {}

  /** The event that a transaction inserts says what was done, and is all that it inserts. */
  lemma EventsTell(db: Db, tx: Tx)
    requires Execute(db, tx).reply == Done
    ensures var now := Execute(db, tx).db.events;
            match tx
            case CreateTx(t, rider, dto) => now == db.events + [Event(t, TripRequested(rider, dto))]
            case AssignTx(t, d) => now == db.events + [Event(t, TripMatched(d, db.drivers[d].vehicle.value))]
            case CancelTx(t, _, Rider) => now == db.events + [Event(t, TripCancelled(Rider, CancelledByRider))]
            case CancelTx(t, _, Driving) => now == db.events + [Event(t, TripCancelled(Driving, CancelledByDriver))]
            case CancelTx(_, _, Admin) => false
            case StartTx(t, d, _) => now == db.events + [Event(t, TripStarted(d))]
            case CompleteTx(t, d, _, fareCents) => now == db.events + [Event(t, TripCompleted(d, fareCents))]
            case RateTx(t, _, stars) => now == db.events + [Event(t, TripRated(stars))]
            case _ => now == db.events
  {
    DoneIff(db, tx);
  }

  lemma BusyMeansActive(db: Db, d: UserId)
    ensures HasActiveTrip(db, d) <==> Busy(db, d)
  {
    if t :| t in db.trips && Drives(db, d, t) {
      assert t in db.trips && db.trips[t].driver == Some(d) && db.trips[t].status in {Matched, InProgress};
    }
    if t :| t in db.trips && db.trips[t].driver == Some(d) && db.trips[t].status in {Matched, InProgress} {
      assert Drives(db, d, t);
    }
  }

  // ---------- the index ----------

  /** Who is in the Redis index after an accepted request that nothing interrupts: completing, cancelling and going online
      put a located driver back, any other status and a match take the driver out, a ping decides, and nobody else's
      entry changes. */
  lemma RequestsKeepTheIndex(s: Shared, tx: Tx, d: UserId)
    requires Execute(s.db, tx).reply == Done && d in s.db.drivers
    ensures var freed := || (tx.CancelTx? && s.db.trips[tx.trip].driver == Some(d))
                         || (tx.CompleteTx? && tx.actor == d)
                         || tx == SetStatusTx(d, Online);
            d in Perform(s, Request(tx)).index <==>
            if freed then d in s.index || s.db.drivers[d].located
            else if tx.AssignTx? && tx.driver == d then false
            else if tx.SetStatusTx? && tx.driver == d then false
            else if tx == PingTx(d) then s.db.drivers[d].status != OnTrip && !Busy(s.db, d)
            else d in s.index
  {
    BusyMeansActive(s.db, d);
    FinishFollowUp(s.(db := Execute(s.db, tx).db), FollowUp(s.db, tx));
  }

  // ---------- runs ----------

  /** The k-th transaction requested the trip. */
  ghost predicate CreatedBy(txs: seq<Tx>, k: nat, t: TripId, rider: UserId) {
    k < |txs| && txs[k].CreateTx? && txs[k].id == t && txs[k].rider == rider
  }

  /** The k-th transaction gave the trip, requested before, to `d`. */
  ghost predicate MatchedBy(txs: seq<Tx>, k: nat, t: TripId, rider: UserId, d: UserId) {
    k < |txs| && txs[k] == AssignTx(t, d) && exists j :: 0 <= j < k && CreatedBy(txs, j, t, rider)
  }

  /** The k-th transaction is its driver starting the trip, matched before. */
  ghost predicate StartedBy(txs: seq<Tx>, k: nat, t: TripId, rider: UserId, d: UserId) {
    k < |txs| && txs[k] == StartTx(t, d, Driving) && exists j :: 0 <= j < k && MatchedBy(txs, j, t, rider, d)
  }

  /** The k-th transaction is its driver completing the trip, started before, at this fare. */
  ghost predicate CompletedBy(txs: seq<Tx>, k: nat, t: TripId, rider: UserId, d: UserId, fareCents: int) {
    k < |txs| && txs[k] == CompleteTx(t, d, Driving, fareCents) && exists j :: 0 <= j < k && StartedBy(txs, j, t, rider, d)
  }

  /** The k-th transaction is somebody cancelling the trip, requested or matched before. */
  ghost predicate CancelledAt(txs: seq<Tx>, k: nat, trip: Trip, t: TripId, actor: UserId, role: Role) {
    && k < |txs| && txs[k] == CancelTx(t, actor, role)
    && match trip.driver
       case None => exists j :: 0 <= j < k && CreatedBy(txs, j, t, trip.rider)
       case Some(d) => exists j :: 0 <= j < k && MatchedBy(txs, j, t, trip.rider, d)
  }

  /** The row of a trip is what its own rider and driver, and one match, have made of it, in this order. */
  ghost predicate Explained(txs: seq<Tx>, t: TripId, trip: Trip) {
    && (trip.status == Completed <==> trip.fareCents.Some?)
    && match trip.status
       case Requested => trip.driver.None? && exists k :: CreatedBy(txs, k, t, trip.rider)
       case Matched => trip.driver.Some? && exists k :: MatchedBy(txs, k, t, trip.rider, trip.driver.value)
       case InProgress => trip.driver.Some? && exists k :: StartedBy(txs, k, t, trip.rider, trip.driver.value)
       case Completed =>
         trip.driver.Some? && exists k :: CompletedBy(txs, k, t, trip.rider, trip.driver.value, trip.fareCents.value)
       case CancelledByRider => exists k :: CancelledAt(txs, k, trip, t, trip.rider, Rider)
       case CancelledByDriver => trip.driver.Some? && exists k :: CancelledAt(txs, k, trip, t, trip.driver.value, Driving)
       case Expired => false
  }

  lemma CreatedStays(txs: seq<Tx>, tx: Tx, k: nat, t: TripId, rider: UserId)
    requires CreatedBy(txs, k, t, rider)
    ensures CreatedBy(txs + [tx], k, t, rider)
  {}

  lemma MatchedStays(txs: seq<Tx>, tx: Tx, k: nat, t: TripId, rider: UserId, d: UserId)
    requires MatchedBy(txs, k, t, rider, d)
    ensures MatchedBy(txs + [tx], k, t, rider, d)
  {
    var j :| 0 <= j < k && CreatedBy(txs, j, t, rider);
    CreatedStays(txs, tx, j, t, rider);
  }

  lemma StartedStays(txs: seq<Tx>, tx: Tx, k: nat, t: TripId, rider: UserId, d: UserId)
    requires StartedBy(txs, k, t, rider, d)
    ensures StartedBy(txs + [tx], k, t, rider, d)
  {
    var j :| 0 <= j < k && MatchedBy(txs, j, t, rider, d);
    MatchedStays(txs, tx, j, t, rider, d);
  }

  lemma CompletedStays(txs: seq<Tx>, tx: Tx, k: nat, t: TripId, rider: UserId, d: UserId, fareCents: int)
    requires CompletedBy(txs, k, t, rider, d, fareCents)
    ensures CompletedBy(txs + [tx], k, t, rider, d, fareCents)
  {
    var j :| 0 <= j < k && StartedBy(txs, j, t, rider, d);
    StartedStays(txs, tx, j, t, rider, d);
  }

  lemma CancelledStays(txs: seq<Tx>, tx: Tx, k: nat, trip: Trip, t: TripId, actor: UserId, role: Role)
    requires CancelledAt(txs, k, trip, t, actor, role)
    ensures CancelledAt(txs + [tx], k, trip, t, actor, role)
  {
    match trip.driver {
      case None =>
        var j :| 0 <= j < k && CreatedBy(txs, j, t, trip.rider);
        CreatedStays(txs, tx, j, t, trip.rider);
      case Some(d) =>
        var j :| 0 <= j < k && MatchedBy(txs, j, t, trip.rider, d);
        MatchedStays(txs, tx, j, t, trip.rider, d);
    }
  }

  lemma ExplainedStays(txs: seq<Tx>, tx: Tx, t: TripId, trip: Trip)
    requires Explained(txs, t, trip)
    ensures Explained(txs + [tx], t, trip)
  {
    match trip.status {
      case Requested =>
        var k :| CreatedBy(txs, k, t, trip.rider);
        CreatedStays(txs, tx, k, t, trip.rider);
      case Matched =>
        var k :| MatchedBy(txs, k, t, trip.rider, trip.driver.value);
        MatchedStays(txs, tx, k, t, trip.rider, trip.driver.value);
      case InProgress =>
        var k :| StartedBy(txs, k, t, trip.rider, trip.driver.value);
        StartedStays(txs, tx, k, t, trip.rider, trip.driver.value);
      case Completed =>
        var k :| CompletedBy(txs, k, t, trip.rider, trip.driver.value, trip.fareCents.value);
        CompletedStays(txs, tx, k, t, trip.rider, trip.driver.value, trip.fareCents.value);
      case CancelledByRider =>
        var k :| CancelledAt(txs, k, trip, t, trip.rider, Rider);
        CancelledStays(txs, tx, k, trip, t, trip.rider, Rider);
      case CancelledByDriver =>
        var k :| CancelledAt(txs, k, trip, t, trip.driver.value, Driving);
        CancelledStays(txs, tx, k, trip, t, trip.driver.value, Driving);
    }
  }

  lemma MovesExplain(txs: seq<Tx>, db: Db, tx: Tx, t: TripId, after: Trip)
    requires t in db.trips && Explained(txs, t, db.trips[t]) && Moves(db, tx, t, after)
    ensures Explained(txs + [tx], t, after)
  {
    var trip := db.trips[t];
    var now, n := txs + [tx], |txs|;
    assert now[n] == tx;
    match trip.status {
      case Requested =>
        var k :| CreatedBy(txs, k, t, trip.rider);
        CreatedStays(txs, tx, k, t, trip.rider);
      case Matched =>
        var d := trip.driver.value;
        var k :| MatchedBy(txs, k, t, trip.rider, d);
        MatchedStays(txs, tx, k, t, trip.rider, d);
      case InProgress =>
        var d := trip.driver.value;
        var k :| StartedBy(txs, k, t, trip.rider, d);
        StartedStays(txs, tx, k, t, trip.rider, d);
    }
    match tx {
      case AssignTx(_, d) => assert MatchedBy(now, n, t, after.rider, d);
      case CancelTx(_, a, role) => assert CancelledAt(now, n, after, t, a, role);
      case StartTx(_, a, _) => assert StartedBy(now, n, t, after.rider, a);
      case CompleteTx(_, a, _, f) => assert CompletedBy(now, n, t, after.rider, a, f);
    }
  }

  /** In every run each trip's row is explained: a trip is in progress, completed or cancelled only by requests of its
      own rider and driver, made in that order, and holds the fare it was completed at. */
  lemma {:induction false} EveryTripIsExplained(db: Db, txs: seq<Tx>, t: TripId)
    requires Initial(db) && t in Run(db, txs).trips
    ensures Explained(txs, t, Run(db, txs).trips[t])
  {
    if txs != [] {
      var before, tx := txs[..|txs| - 1], txs[|txs| - 1];
      var past, now := Run(db, before), Run(db, txs);
      assert txs == before + [tx];
      EveryMoveHasItsActor(past, tx, t);
      if t in past.trips {
        EveryTripIsExplained(db, before, t);
        if now.trips[t] == past.trips[t] {
          ExplainedStays(before, tx, t, now.trips[t]);
        } else {
          MovesExplain(before, past, tx, t, now.trips[t]);
        }
      } else {
        assert CreatedBy(txs, |before|, t, tx.rider);
      }
    }
  }

  /** The same in every reachable state of the deployment, over the transactions in the order they commit. */
  lemma EveryDeployedTripIsExplained(w: Deployment.World, actions: seq<Deployment.Action>, t: TripId)
    requires Deployment.Started(w) && t in Deployment.After(w, actions).db.trips
    ensures Explained(Deployment.Txs(w, actions), t, Deployment.After(w, actions).db.trips[t])
  {
    Deployment.EveryInterleavingIsSerial(w, actions);
    EveryTripIsExplained(w.db, Deployment.Txs(w, actions), t);
  }

  /** A rating is of a completed trip, by its rider, of its driver, with one to five stars. */
  ghost predicate RatingExplained(txs: seq<Tx>, db: Db, r: RatingRow) {
    && RateTx(r.trip, r.rider, r.stars) in txs && 1 <= r.stars <= 5
    && r.trip in db.trips && db.trips[r.trip].status == Completed
    && db.trips[r.trip].rider == r.rider && db.trips[r.trip].driver == Some(r.driver)
  }

  ghost predicate RatingsExplained(txs: seq<Tx>, db: Db) {
    && (forall r :: r in db.ratings ==> RatingExplained(txs, db, r))
    && (forall i, j :: 0 <= i < j < |db.ratings| ==> db.ratings[i].trip != db.ratings[j].trip)
  }

  /** In every run each rating is explained, and no trip has two. */
  lemma {:induction false} EveryRatingIsExplained(db: Db, txs: seq<Tx>)
    requires Initial(db)
    ensures RatingsExplained(txs, Run(db, txs))
  {
    if txs != [] {
      var before, tx := txs[..|txs| - 1], txs[|txs| - 1];
      assert txs == before + [tx];
      EveryRatingIsExplained(db, before);
      OneMoreRating(before, tx, Run(db, before));
    }
  }

  lemma OneMoreRating(before: seq<Tx>, tx: Tx, db: Db)
    requires RatingsExplained(before, db)
    ensures RatingsExplained(before + [tx], Execute(db, tx).db)
  {
    var now := Execute(db, tx).db;
    forall r | r in now.ratings
      ensures RatingExplained(before + [tx], now, r)
    {
      if r in db.ratings {
        EveryMoveHasItsActor(db, tx, r.trip);
        assert RatingExplained(before, db, r);
      }
    }
  }
}
