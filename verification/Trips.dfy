/**
 Trips, drivers and the event log as rows, and every PostgreSQL transaction that writes them as one
 atomic step. A transaction whose guarded statement matches no row changes nothing.
 */
module Trips {
  import opened Options
  import opened Rating

  type UserId = nat
  type TripId = nat
  type VehicleId = nat

  datatype Role = Rider | Driving | Admin

  datatype DriverStatus = Offline | Online | OnTrip | Suspended

  datatype TripStatus =
    | Requested | Matched | InProgress | Completed | CancelledByRider | CancelledByDriver | Expired

  /** A `drivers` row; `vehicle` is the driver's active vehicle and `located` says whether a position is stored. */
  datatype Driver = Driver(status: DriverStatus, vehicle: Option<VehicleId>, located: bool, score: Score)

  datatype Trip = Trip(rider: UserId, driver: Option<UserId>, vehicle: Option<VehicleId>,
                       status: TripStatus, fareCents: Option<int>)

  /** A `trip_events` row: the event type with what its payload carries. `dto` stands for the request body. */
  datatype EventKind =
    | TripRequested(rider: UserId, dto: nat)
    | TripMatched(driver: UserId, vehicle: VehicleId)
    | TripStarted(driver: UserId)
    | TripCompleted(driver: UserId, fareCents: int)
    | TripCancelled(actor: Role, status: TripStatus)
    | TripRated(stars: int)

  datatype Event = Event(trip: TripId, kind: EventKind)

  datatype RatingRow = RatingRow(trip: TripId, rider: UserId, driver: UserId, stars: int)

  datatype Db = Db(trips: map<TripId, Trip>, drivers: map<UserId, Driver>, events: seq<Event>, ratings: seq<RatingRow>)

  // ---------- queries and single statements ----------

  predicate Active(s: TripStatus) {
    s == Matched || s == InProgress
  }

  predicate Drives(db: Db, d: UserId, t: TripId) {
    t in db.trips && db.trips[t].driver == Some(d) && Active(db.trips[t].status)
  }

  predicate HasActiveTrip(db: Db, d: UserId) {
    exists t :: t in db.trips && Drives(db, d, t)
  }

  /** Postgres-online with an active vehicle. */
  predicate Eligible(db: Db, d: UserId) {
    d in db.drivers && db.drivers[d].status == Online && db.drivers[d].vehicle.Some?
  }

  predicate IsRequested(db: Db, t: TripId) {
    t in db.trips && db.trips[t].status == Requested
  }

  predicate IsRated(db: Db, t: TripId) {
    exists i :: 0 <= i < |db.ratings| && db.ratings[i].trip == t
  }

  /** `UPDATE drivers SET status = s WHERE user_id = d`. */
  function SetDriver(db: Db, d: UserId, s: DriverStatus): Db {
    if d in db.drivers then db.(drivers := db.drivers[d := db.drivers[d].(status := s)]) else db
  }

  function SetTrip(db: Db, t: TripId, trip: Trip): Db {
    db.(trips := db.trips[t := trip])
  }

  function Emit(db: Db, t: TripId, kind: EventKind): Db {
    db.(events := db.events + [Event(t, kind)])
  }

  // ---------- transactions ----------

  datatype Reply = Done | BadRequest | NotFound | Conflict | Unavailable

  datatype Result = Result(db: Db, reply: Reply)

  /** `id` is the generated primary key. */
  function Create(db: Db, id: TripId, rider: UserId, dto: nat): Result {
    if id in db.trips then Result(db, Conflict)
    else Result(Emit(SetTrip(db, id, Trip(rider, None, None, Requested, None)), id, TripRequested(rider, dto)), Done)
  }

  /** The matcher's reservation of one candidate. */
  function Assign(db: Db, t: TripId, d: UserId): Result {
    if !Eligible(db, d) then Result(db, Unavailable)
    else if !IsRequested(db, t) then Result(db, NotFound)
    else
      var v := db.drivers[d].vehicle.value;
      var trip := db.trips[t].(driver := Some(d), vehicle := Some(v), status := Matched);
      Result(Emit(SetDriver(SetTrip(db, t, trip), d, OnTrip), t, TripMatched(d, v)), Done)
  }

  predicate Owns(trip: Trip, actor: UserId, role: Role) {
    if role == Driving then trip.driver == Some(actor) else trip.rider == actor
  }

  function Cancel(db: Db, t: TripId, actor: UserId, role: Role): Result {
    if role == Admin then Result(db, BadRequest)
    else if t !in db.trips || !Owns(db.trips[t], actor, role)
      || (db.trips[t].status != Requested && db.trips[t].status != Matched) then Result(db, NotFound)
    else
      var status := if role == Driving then CancelledByDriver else CancelledByRider;
      var trip := db.trips[t];
      var cancelled := SetTrip(db, t, trip.(status := status));
      var freed := if trip.driver.Some? then SetDriver(cancelled, trip.driver.value, Online) else cancelled;
      Result(Emit(freed, t, TripCancelled(role, status)), Done)
  }

  function Start(db: Db, t: TripId, actor: UserId, role: Role): Result {
    if role != Driving then Result(db, BadRequest)
    else if t !in db.trips || db.trips[t].driver != Some(actor) || db.trips[t].status != Matched then Result(db, NotFound)
    else Result(Emit(SetTrip(db, t, db.trips[t].(status := InProgress)), t, TripStarted(actor)), Done)
  }

  function Complete(db: Db, t: TripId, actor: UserId, role: Role, fareCents: int): Result {
    if role != Driving then Result(db, BadRequest)
    else if t !in db.trips || db.trips[t].driver != Some(actor) || db.trips[t].status != InProgress then Result(db, NotFound)
    else
      var trip := db.trips[t].(status := Completed, fareCents := Some(fareCents));
      Result(Emit(SetDriver(SetTrip(db, t, trip), actor, Online), t, TripCompleted(actor, fareCents)), Done)
  }

  /** Inserting the rating fires the trigger on the driver row. Foreign keys keep matched drivers registered. */
  function Rate(db: Db, t: TripId, rider: UserId, stars: int): Result {
    if t !in db.trips || db.trips[t].rider != rider || db.trips[t].status != Completed
      || db.trips[t].driver.None? || db.trips[t].driver.value !in db.drivers then Result(db, NotFound)
    else if !ValidStars(stars) then Result(db, BadRequest)
    else if IsRated(db, t) then Result(db, Conflict)
    else
      var d := db.trips[t].driver.value;
      var row := db.drivers[d];
      var rated := db.(ratings := db.ratings + [RatingRow(t, rider, d, stars)],
                       drivers := db.drivers[d := row.(score := ApplyRating(row.score, stars))]);
      Result(Emit(rated, t, TripRated(stars)), Done)
  }

  /** Whether a ping puts the driver online: decided under the driver's row lock. */
  predicate PingOnline(db: Db, d: UserId)
    requires d in db.drivers
  {
    db.drivers[d].status != OnTrip && !HasActiveTrip(db, d)
  }

  function Ping(db: Db, d: UserId): Result {
    if d !in db.drivers || db.drivers[d].status == Suspended then Result(db, NotFound)
    else
      var status := if PingOnline(db, d) then Online else db.drivers[d].status;
      Result(db.(drivers := db.drivers[d := db.drivers[d].(status := status, located := true)]), Done)
  }

  function SetStatus(db: Db, d: UserId, status: DriverStatus): Result {
    if status == Suspended then Result(db, BadRequest)
    else if d !in db.drivers || db.drivers[d].status == Suspended then Result(db, NotFound)
    else Result(SetDriver(db, d, status), Done)
  }

  /** A new driver account. */
  function Register(db: Db, d: UserId): Result {
    if d in db.drivers then Result(db, Conflict)
    else Result(db.(drivers := db.drivers[d := Driver(Offline, None, false, UNRATED)]), Done)
  }

  /** Any change of the driver's active vehicle. */
  function SetVehicle(db: Db, d: UserId, vehicle: Option<VehicleId>): Result {
    if d !in db.drivers then Result(db, NotFound)
    else Result(db.(drivers := db.drivers[d := db.drivers[d].(vehicle := vehicle)]), Done)
  }

  datatype Tx =
    | CreateTx(id: TripId, rider: UserId, dto: nat)
    | AssignTx(trip: TripId, driver: UserId)
    | CancelTx(trip: TripId, actor: UserId, role: Role)
    | StartTx(trip: TripId, actor: UserId, role: Role)
    | CompleteTx(trip: TripId, actor: UserId, role: Role, fareCents: int)
    | RateTx(trip: TripId, rider: UserId, stars: int)
    | PingTx(driver: UserId)
    | SetStatusTx(driver: UserId, status: DriverStatus)
    | RegisterTx(driver: UserId)
    | SetVehicleTx(driver: UserId, vehicle: Option<VehicleId>)

  function Execute(db: Db, tx: Tx): Result {
    match tx
    case CreateTx(id, rider, dto) => Create(db, id, rider, dto)
    case AssignTx(t, d) => Assign(db, t, d)
    case CancelTx(t, actor, role) => Cancel(db, t, actor, role)
    case StartTx(t, actor, role) => Start(db, t, actor, role)
    case CompleteTx(t, actor, role, fareCents) => Complete(db, t, actor, role, fareCents)
    case RateTx(t, rider, stars) => Rate(db, t, rider, stars)
    case PingTx(d) => Ping(db, d)
    case SetStatusTx(d, status) => SetStatus(db, d, status)
    case RegisterTx(d) => Register(db, d)
    case SetVehicleTx(d, v) => SetVehicle(db, d, v)
  }

  /** The database after any serial order of transactions. */
  function Run(db: Db, txs: seq<Tx>): Db {
    if txs == [] then db else Execute(Run(db, txs[..|txs| - 1]), txs[|txs| - 1]).db
  }

  /** No trips yet; drivers in any status, unrated. */
  ghost predicate Initial(db: Db) {
    && db.trips == map[] && db.events == [] && db.ratings == []
    && forall d :: d in db.drivers ==> db.drivers[d].score == UNRATED
  }

  /** The trip a transaction is about. */
  function TripOf(tx: Tx): Option<TripId> {
    match tx
    case CreateTx(id, _, _) => Some(id)
    case AssignTx(t, _) => Some(t)
    case CancelTx(t, _, _) => Some(t)
    case StartTx(t, _, _) => Some(t)
    case CompleteTx(t, _, _, _) => Some(t)
    case RateTx(t, _, _) => Some(t)
    case _ => None
  }
}
