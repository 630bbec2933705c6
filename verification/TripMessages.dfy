/**
 The Kafka messages about trips. The API builds a message from a `trip_events` row, the matcher builds its
 own from a literal; a message is a JSON object, taken here as a map from field names to values.
 */
module TripMessages {
  import opened Trips

  datatype Value = Id(id: nat) | Text(text: string) | Number(n: int) | Amount(cents: int) | Body(dto: nat)

  type Message = map<string, Value>

  /** The stored `payload` column. */
  function Payload(e: EventKind): Message {
    match e
    case TripRequested(rider, dto) => map["rider_id" := Id(rider), "dto" := Body(dto)]
    case TripMatched(d, v) => map["driver_id" := Id(d), "vehicle_id" := Id(v)]
    case TripStarted(d) => map["driver_id" := Id(d)]
    case TripCompleted(d, fareCents) => map["driver_id" := Id(d), "fare_total" := Amount(fareCents)]
    case TripCancelled(role, status) => map["by" := Text(RoleName(role)), "status" := Text(StatusName(status))]
    case TripRated(stars) => map["rating" := Number(stars)]
  }

  function RoleName(r: Role): string {
    match r
    case Rider => "rider"
    case Driving => "driver"
    case Admin => "admin"
  }

  function StatusName(s: TripStatus): string {
    match s
    case Requested => "requested"
    case Matched => "matched"
    case InProgress => "in_progress"
    case Completed => "completed"
    case CancelledByRider => "cancelled_by_rider"
    case CancelledByDriver => "cancelled_by_driver"
    case Expired => "expired"
  }

  /** The `event_type` column. */
  function EventType(e: EventKind): string {
    match e
    case TripRequested(_, _) => "requested"
    case TripMatched(_, _) => "matched"
    case TripStarted(_) => "started"
    case TripCompleted(_, _) => "completed"
    case TripCancelled(_, _) => "cancelled"
    case TripRated(_) => "rated"
  }

  /** The API's message: type and trip first, then the stored payload spread over them. */
  function OutboxPayload(t: TripId, e: EventKind): Message {
    map["type" := Text("trip." + EventType(e)), "trip_id" := Id(t)] + Payload(e)
  }

  /** The matcher's message about a match it has just committed. */
  function MatcherMessage(t: TripId, d: UserId, v: VehicleId): Message {
    map["type" := Text("trip.matched"), "trip_id" := Id(t), "driver_id" := Id(d), "vehicle_id" := Id(v)]
  }

  /** Whichever publisher gets to a matched event first, the message is the same. */
  lemma PublishersAgree(t: TripId, d: UserId, v: VehicleId)
    ensures OutboxPayload(t, TripMatched(d, v)) == MatcherMessage(t, d, v)
  {
    assert "trip." + "matched" == "trip.matched";
  }

  /** The spread never overwrites the envelope, and hides nothing of the payload. */
  lemma EnvelopeSurvives(t: TripId, e: EventKind)
    ensures var m := OutboxPayload(t, e);
            && "type" in m && m["type"] == Text("trip." + EventType(e))
            && "trip_id" in m && m["trip_id"] == Id(t)
            && m - {"type", "trip_id"} == Payload(e)
  {}

  lemma TypesAreDistinct(e: EventKind, f: EventKind)
    requires "trip." + EventType(e) == "trip." + EventType(f)
    ensures EventType(e) == EventType(f)
  {
    assert ("trip." + EventType(e))[5..] == EventType(e);
    assert ("trip." + EventType(f))[5..] == EventType(f);
  }

  lemma NamesAreDistinct(r: Role, q: Role, s: TripStatus, u: TripStatus)
    ensures RoleName(r) == RoleName(q) ==> r == q
    ensures StatusName(s) == StatusName(u) ==> s == u
  {
    assert RoleName(r)[0] == RoleName(q)[0] ==> r == q;
    assert |StatusName(s)| == |StatusName(u)| && StatusName(s)[0] == StatusName(u)[0] ==> s == u;
  }

  lemma PayloadsAreDistinct(e: EventKind, f: EventKind)
    requires EventType(e) == EventType(f) && Payload(e) == Payload(f)
    ensures e == f
  {
    assert |EventType(e)| == |EventType(f)| && EventType(e)[0] == EventType(f)[0] && EventType(e)[2] == EventType(f)[2];
    match e {
      case TripRequested(rider, dto) => assert Payload(e)["rider_id"] == Id(rider) && Payload(e)["dto"] == Body(dto);
      case TripMatched(d, v) => assert Payload(e)["driver_id"] == Id(d) && Payload(e)["vehicle_id"] == Id(v);
      case TripStarted(d) => assert Payload(e)["driver_id"] == Id(d);
      case TripCompleted(d, fare) => assert Payload(e)["driver_id"] == Id(d) && Payload(e)["fare_total"] == Amount(fare);
      case TripCancelled(role, status) =>
        assert Payload(e)["by"] == Text(RoleName(role)) && Payload(e)["status"] == Text(StatusName(status));
        NamesAreDistinct(role, f.actor, status, f.status);
      case TripRated(stars) => assert Payload(e)["rating"] == Number(stars);
    }
  }

  /** A message determines its event: two events with the same message are the same event of the same trip. */
  lemma MessagesDetermineEvents(t: TripId, e: EventKind, u: TripId, f: EventKind)
    ensures OutboxPayload(t, e) == OutboxPayload(u, f) <==> t == u && e == f
  {
    if OutboxPayload(t, e) == OutboxPayload(u, f) {
      EnvelopeSurvives(t, e);
      EnvelopeSurvives(u, f);
      TypesAreDistinct(e, f);
      PayloadsAreDistinct(e, f);
    }
  }

  lemma RequestedIsTheOnlyRequest(e: EventKind)
    ensures EventType(e) == "requested" <==> e.TripRequested?
  {
    var requested := "requested";
    assert |requested| == 9 && requested[0] == 'r';
    match e {
      case TripRequested(_, _) =>
      case TripMatched(_, _) => assert |EventType(e)| == 7;
      case TripStarted(_) => assert |EventType(e)| == 7;
      case TripCompleted(_, _) => assert EventType(e)[0] == 'c';
      case TripCancelled(_, _) => assert EventType(e)[0] == 'c';
      case TripRated(_) => assert |EventType(e)| == 5;
    }
  }

  /** The matcher's filter on `type` lets through exactly the requested events, so it never reacts to its own matches. */
  lemma OnlyRequestsAreHandled(t: TripId, e: EventKind)
    ensures OutboxPayload(t, e)["type"] == Text("trip.requested") <==> e.TripRequested?
  {
    EnvelopeSurvives(t, e);
    RequestedIsTheOnlyRequest(e);
    assert "trip." + "requested" == "trip.requested";
    assert ("trip." + EventType(e))[5..] == EventType(e) && ("trip." + "requested")[5..] == "requested";
  }
}
