/**
 The services as they are written: statement by statement on shared tables and on the Redis set. Each method,
 when nothing interrupts it, does exactly what its transaction and its follow-up do.
 */
module TripServices {
  import opened Options
  import opened Rating
  import opened Trips
  import opened DriverIndex
  import opened Surge

  /** PostgreSQL's tables and the Redis set `driver:online`. */
  class Store {
    var trips: map<TripId, Trip>
    var drivers: map<UserId, Driver>
    var events: seq<Event>
    var ratings: seq<RatingRow>
    var online: set<UserId>

    constructor (drivers: map<UserId, Driver>)
      ensures State() == Shared(Db(map[], drivers, [], []), {})
    {
      trips := map[];
      this.drivers := drivers;
      events := [];
      ratings := [];
      online := {};
    }

    ghost function State(): Shared
      reads this
    {
      Shared(Db(trips, drivers, events, ratings), online)
    }

    method RecordTripEvent(t: TripId, kind: EventKind)
      modifies this`events
      ensures events == old(events) + [Event(t, kind)]
    {
      events := events + [Event(t, kind)];
    }

    method UpdateDriverStatus(d: UserId, status: DriverStatus)
      modifies this`drivers
      ensures State().db == SetDriver(old(State().db), d, status)
    {
      if d in drivers {
        drivers := drivers[d := drivers[d].(status := status)];
      }
    }

    method HasActive(d: UserId) returns (active: bool)
      ensures active == HasActiveTrip(State().db, d)
    {
      active := exists t :: t in trips && trips[t].driver == Some(d) && Active(trips[t].status);
      assert forall t :: Drives(State().db, d, t) <==> t in trips && trips[t].driver == Some(d) && Active(trips[t].status);
    }

    method RestoreDriverGeoIndex(d: UserId)
      modifies this`online
      ensures State() == Finish(old(State()), Restoring(d))
    {
      FinishFollowUp(State(), Restoring(d));
      if d in drivers && drivers[d].located {
        online := online + {d};
      }
    }
  }

  /** `TripsService` of the API. */
  class TripsService {
    const store: Store

    constructor (store: Store)
      ensures this.store == store
    {
      this.store := store;
    }

    method Create(id: TripId, rider: UserId, dto: nat) returns (reply: Reply)
      modifies store
      ensures store.State() == Perform(old(store.State()), Request(CreateTx(id, rider, dto)))
      ensures reply == Execute(old(store.State().db), CreateTx(id, rider, dto)).reply
    {
      if id in store.trips {
        return Conflict;
      }
      store.trips := store.trips[id := Trip(rider, None, None, Requested, None)];
      store.RecordTripEvent(id, TripRequested(rider, dto));
      return Done;
    }

    method Cancel(id: TripId, actor: UserId, role: Role) returns (reply: Reply)
      modifies store
      ensures store.State() == Perform(old(store.State()), Request(CancelTx(id, actor, role)))
      ensures reply == Execute(old(store.State().db), CancelTx(id, actor, role)).reply
    {
      if role != Rider && role != Driving {
        return BadRequest;
      }
      var newStatus := if role == Driving then CancelledByDriver else CancelledByRider;
      if id !in store.trips || !Owns(store.trips[id], actor, role)
        || (store.trips[id].status != Requested && store.trips[id].status != Matched) {
        return NotFound;
      }
      store.trips := store.trips[id := store.trips[id].(status := newStatus)];
      var driver := store.trips[id].driver;
      if driver.Some? {
        store.UpdateDriverStatus(driver.value, Online);
      }
      store.RecordTripEvent(id, TripCancelled(role, newStatus));
      assert store.State().db == Execute(old(store.State().db), CancelTx(id, actor, role)).db;
      if driver.Some? {
        store.RestoreDriverGeoIndex(driver.value);
      }
      return Done;
    }

    method Start(id: TripId, actor: UserId, role: Role) returns (reply: Reply)
      modifies store
      ensures store.State() == Perform(old(store.State()), Request(StartTx(id, actor, role)))
      ensures reply == Execute(old(store.State().db), StartTx(id, actor, role)).reply
    {
      if role != Driving {
        return BadRequest;
      }
      if id !in store.trips || store.trips[id].driver != Some(actor) || store.trips[id].status != Matched {
        return NotFound;
      }
      store.trips := store.trips[id := store.trips[id].(status := InProgress)];
      store.RecordTripEvent(id, TripStarted(actor));
      return Done;
    }

    /** Distance, duration and the zone come from PostGIS and the clock, `cached` from Redis. */
    method Complete(id: TripId, actor: UserId, role: Role, distanceKm: real, durationMin: real,
                    zoneId: Option<string>, pgMultiplier: Option<Option<real>>, cached: Cached) returns (reply: Reply)
      modifies store
      ensures var tx := CompleteTx(id, actor, role, FareCents(distanceKm, durationMin, ResolveSurge(zoneId, cached, pgMultiplier)));
              && store.State() == Perform(old(store.State()), Request(tx))
              && reply == Execute(old(store.State().db), tx).reply
    {
      if role != Driving {
        return BadRequest;
      }
      if id !in store.trips || store.trips[id].driver != Some(actor) || store.trips[id].status != InProgress {
        return NotFound;
      }
      store.trips := store.trips[id := store.trips[id].(status := Completed)];
      var surge := ResolveSurge(zoneId, cached, pgMultiplier);
      var total := FareCents(distanceKm, durationMin, surge);
      store.trips := store.trips[id := store.trips[id].(fareCents := Some(total))];
      store.UpdateDriverStatus(actor, Online);
      store.RecordTripEvent(id, TripCompleted(actor, total));
      assert store.State().db == Execute(old(store.State().db), CompleteTx(id, actor, role, total)).db;
      store.RestoreDriverGeoIndex(actor);
      return Done;
    }

    method Rate(id: TripId, rider: UserId, stars: int) returns (reply: Reply)
      modifies store
      ensures store.State() == Perform(old(store.State()), Request(RateTx(id, rider, stars)))
      ensures reply == Execute(old(store.State().db), RateTx(id, rider, stars)).reply
    {
      if id !in store.trips || store.trips[id].rider != rider || store.trips[id].status != Completed
        || store.trips[id].driver.None? || store.trips[id].driver.value !in store.drivers {
        return NotFound;
      }
      var driver := store.trips[id].driver.value;
      reply := InsertRating(RatingRow(id, rider, driver, stars));
      if reply == Done {
        store.RecordTripEvent(id, TripRated(stars));
      }
    }

    /** The insert with its constraints and its trigger. */
    method InsertRating(row: RatingRow) returns (reply: Reply)
      requires row.driver in store.drivers
      modifies store`ratings, store`drivers
      ensures reply == if !ValidStars(row.stars) then BadRequest
                       else if IsRated(old(store.State().db), row.trip) then Conflict else Done
      ensures reply != Done ==> store.State() == old(store.State())
      ensures reply == Done ==>
                && store.ratings == old(store.ratings) + [row]
                && store.drivers == var was := old(store.drivers);
                   was[row.driver := was[row.driver].(score := ApplyRating(was[row.driver].score, row.stars))]
    {
      if !ValidStars(row.stars) {
        return BadRequest;
      }
      for i := 0 to |store.ratings|
        invariant forall j :: 0 <= j < i ==> store.ratings[j].trip != row.trip
      {
        if store.ratings[i].trip == row.trip {
          return Conflict;
        }
      }
      store.ratings := store.ratings + [row];
      var driver := store.drivers[row.driver];
      store.drivers := store.drivers[row.driver := driver.(score := ApplyRating(driver.score, row.stars))];
      return Done;
    }
  }

  /** `DriversService` of the API. */
  class DriversService {
    const store: Store

    constructor (store: Store)
      ensures this.store == store
    {
      this.store := store;
    }

    method SetStatus(d: UserId, status: DriverStatus) returns (reply: Reply)
      modifies store
      ensures store.State() == Perform(old(store.State()), Request(SetStatusTx(d, status)))
      ensures reply == Execute(old(store.State().db), SetStatusTx(d, status)).reply
    {
      if status != Online && status != Offline && status != OnTrip {
        return BadRequest;
      }
      if d !in store.drivers || store.drivers[d].status == Suspended {
        return NotFound;
      }
      store.drivers := store.drivers[d := store.drivers[d].(status := status)];
      ghost var committed := store.State();
      assert committed.db == Execute(old(store.State().db), SetStatusTx(d, status)).db;
      if status != Online {
        store.online := store.online - {d};
        FinishFollowUp(committed, Indexing(d, false));
        return Done;
      }
      store.RestoreDriverGeoIndex(d);
      return Done;
    }
  }

  /** The location route of the ingestor, after validation and authentication. */
  class LocationRoutes {
    const store: Store

    constructor (store: Store)
      ensures this.store == store
    {
      this.store := store;
    }

    method PostLocation(d: UserId) returns (reply: Reply)
      modifies store
      ensures store.State() == Perform(old(store.State()), Request(PingTx(d)))
      ensures reply == Execute(old(store.State().db), PingTx(d)).reply
    {
      var indexAsOnline;
      reply, indexAsOnline := PersistLocation(d);
      if reply == Done {
        ghost var committed := store.State();
        UpdateAvailabilityIndex(d, indexAsOnline);
        FinishFollowUp(committed, Indexing(d, indexAsOnline));
      }
    }

    method PersistLocation(d: UserId) returns (reply: Reply, indexAsOnline: bool)
      modifies store`drivers
      ensures Result(store.State().db, reply) == Execute(old(store.State().db), PingTx(d))
      ensures reply == Done ==> d in old(store.drivers) && indexAsOnline == PingOnline(old(store.State().db), d)
    {
      if d !in store.drivers || store.drivers[d].status == Suspended {
        return NotFound, false;
      }
      var active := store.HasActive(d);
      indexAsOnline := store.drivers[d].status != OnTrip && !active;
      if indexAsOnline {
        store.drivers := store.drivers[d := store.drivers[d].(status := Online)];
      }
      store.drivers := store.drivers[d := store.drivers[d].(located := true)];
      return Done, indexAsOnline;
    }

    method UpdateAvailabilityIndex(d: UserId, indexAsOnline: bool)
      modifies store`online
      ensures store.online == if indexAsOnline then old(store.online) + {d} else old(store.online) - {d}
    {
      if indexAsOnline {
        store.online := store.online + {d};
        return;
      }
      store.online := store.online - {d};
    }
  }

  /** The matcher's consumer of trip events. */
  class Matcher {
    const store: Store

    constructor (store: Store)
      ensures this.store == store
    {
      this.store := store;
    }

    /** A `trip.requested` message; `nearby` is what the search in the Redis set returned. */
    method HandleTripEvent(t: TripId, nearby: seq<UserId>) returns (matched: Option<UserId>)
      modifies store
      ensures store.State() == Perform(old(store.State()), Deliver(t, nearby))
      ensures var k := FirstEligible(old(store.State().db), nearby);
              matched == if IsRequested(old(store.State().db), t) && k < |nearby| then Some(nearby[k]) else None
    {
      ghost var was := store.State();
      ghost var k := FirstEligible(was.db, nearby);
      for i := 0 to |nearby|
        invariant store.State().db == was.db
        invariant Finish(store.State(), Handling(t, nearby[i..])) == Finish(was, Handling(t, nearby))
        invariant IsRequested(was.db, t) ==> k == i + FirstEligible(was.db, nearby[i..])
      {
        ghost var before := store.State();
        var success := AssignDriver(t, nearby[i]);
        AssignmentIsTwoSteps(before, t, nearby[i], nearby[i + 1..]);
        assert nearby[i..] == [nearby[i]] + nearby[i + 1..];
        if success {
          return Some(nearby[i]);
        }
      }
      return None;
    }

    method AssignDriver(t: TripId, d: UserId) returns (success: bool)
      modifies store
      ensures store.State() == AfterAssignment(old(store.State()), t, d)
      ensures success == (Assign(old(store.State().db), t, d).reply == Done)
    {
      if d !in store.drivers || store.drivers[d].status != Online || store.drivers[d].vehicle.None? {
        store.online := store.online - {d};
        return false;
      }
      var vehicle := store.drivers[d].vehicle.value;
      if t !in store.trips || store.trips[t].status != Requested {
        return false;
      }
      store.trips := store.trips[t := store.trips[t].(driver := Some(d), vehicle := Some(vehicle), status := Matched)];
      store.UpdateDriverStatus(d, OnTrip);
      store.RecordTripEvent(t, TripMatched(d, vehicle));
      store.online := store.online - {d};
      return true;
    }
  }

  /** One candidate's transaction and the Redis write after it. */
  function AfterAssignment(s: Shared, t: TripId, d: UserId): Shared {
    var out := Assign(s.db, t, d);
    Shared(out.db, if out.reply == NotFound then s.index else s.index - {d})
  }

  lemma AssignmentIsTwoSteps(s: Shared, t: TripId, d: UserId, rest: seq<UserId>)
    ensures Finish(s, Handling(t, [d] + rest)) ==
            if Assign(s.db, t, d).reply == Done then AfterAssignment(s, t, d)
            else Finish(AfterAssignment(s, t, d), Handling(t, rest))
  {
    assert ([d] + rest)[1..] == rest;
    var (after, p) := Step(s, Handling(t, [d] + rest));
    if p.DroppingMatched? {
      FinishFollowUp(after, p);
    } else if p.DroppingStale? {
      assert Step(after, p) == (AfterAssignment(s, t, d), Handling(t, rest));
    }
  }
}
