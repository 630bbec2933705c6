/**
 The message of a trip event as its consumers read it: by the literal type, field, role and status names. Reading undoes
 what the publishers write, message by message and over the whole log of the broker.
 */
module TripReader {
  import opened Deployment
  import opened Options
  import opened TripMessages
  import opened Trips

  // ---------- the reader ----------

  function RoleNamed(name: string): Option<Role> {
    if name == "rider" then Some(Rider)
    else if name == "driver" then Some(Driving)
    else if name == "admin" then Some(Admin)
    else None
  }

  function StatusNamed(name: string): Option<TripStatus> {
    if name == "requested" then Some(Requested)
    else if name == "matched" then Some(Matched)
    else if name == "in_progress" then Some(InProgress)
    else if name == "completed" then Some(Completed)
    else if name == "cancelled_by_rider" then Some(CancelledByRider)
    else if name == "cancelled_by_driver" then Some(CancelledByDriver)
    else if name == "expired" then Some(Expired)
    else None
  }

  function ReadRequested(p: Message): Option<EventKind> {
    if p.Keys == {"rider_id", "dto"} && p["rider_id"].Id? && p["dto"].Body?
    then Some(TripRequested(p["rider_id"].id, p["dto"].dto)) else None
  }

  function ReadMatched(p: Message): Option<EventKind> {
    if p.Keys == {"driver_id", "vehicle_id"} && p["driver_id"].Id? && p["vehicle_id"].Id?
    then Some(TripMatched(p["driver_id"].id, p["vehicle_id"].id)) else None
  }

  function ReadStarted(p: Message): Option<EventKind> {
    if p.Keys == {"driver_id"} && p["driver_id"].Id? then Some(TripStarted(p["driver_id"].id)) else None
  }

  function ReadCompleted(p: Message): Option<EventKind> {
    if p.Keys == {"driver_id", "fare_total"} && p["driver_id"].Id? && p["fare_total"].Amount?
    then Some(TripCompleted(p["driver_id"].id, p["fare_total"].cents)) else None
  }

  function ReadCancelled(p: Message): Option<EventKind> {
    if p.Keys == {"by", "status"} && p["by"].Text? && p["status"].Text?
       && RoleNamed(p["by"].text).Some? && StatusNamed(p["status"].text).Some?
    then Some(TripCancelled(RoleNamed(p["by"].text).value, StatusNamed(p["status"].text).value)) else None
  }

  function ReadRated(p: Message): Option<EventKind> {
    if p.Keys == {"rating"} && p["rating"].Number? then Some(TripRated(p["rating"].n)) else None
  }

  function ReadKind(name: string, p: Message): Option<EventKind> {
    if name == "trip.requested" then ReadRequested(p)
    else if name == "trip.matched" then ReadMatched(p)
    else if name == "trip.started" then ReadStarted(p)
    else if name == "trip.completed" then ReadCompleted(p)
    else if name == "trip.cancelled" then ReadCancelled(p)
    else if name == "trip.rated" then ReadRated(p)
    else None
  }

  function Read(m: Message): Option<Event> {
    if "type" in m && m["type"].Text? && "trip_id" in m && m["trip_id"].Id? then
      var kind := ReadKind(m["type"].text, m - {"type", "trip_id"});
      if kind.Some? then Some(Event(m["trip_id"].id, kind.value)) else None
    else None
  }

  // ---------- reading what was written ----------

  lemma RolesReadBack(name: string, r: Role)
    ensures RoleNamed(name) == Some(r) <==> name == RoleName(r)
  {
    assert name == "driver" ==> |name| == 6;
    assert name == "rider" ==> |name| == 5 && name[0] == 'r';
    assert name == "admin" ==> |name| == 5 && name[0] == 'a';
  }

  lemma StatusesReadBack(name: string, s: TripStatus)
    ensures StatusNamed(name) == Some(s) <==> name == StatusName(s)
  {
    assert name == "requested" ==> |name| == 9 && name[0] == 'r';
    assert name == "completed" ==> |name| == 9 && name[0] == 'c';
    assert name == "matched" ==> |name| == 7 && name[0] == 'm';
    assert name == "expired" ==> |name| == 7 && name[0] == 'e';
    assert name == "in_progress" ==> |name| == 11;
    assert name == "cancelled_by_rider" ==> |name| == 18;
    assert name == "cancelled_by_driver" ==> |name| == 19;
  }

  /** The payload of each kind is read back by the reader of that kind, and only it is. */
  lemma PayloadsReadBack(p: Message, e: EventKind)
    ensures match e
            case TripRequested(_, _) => ReadRequested(p) == Some(e) <==> p == Payload(e)
            case TripMatched(_, _) => ReadMatched(p) == Some(e) <==> p == Payload(e)
            case TripStarted(_) => ReadStarted(p) == Some(e) <==> p == Payload(e)
            case TripCompleted(_, _) => ReadCompleted(p) == Some(e) <==> p == Payload(e)
            case TripCancelled(_, _) => ReadCancelled(p) == Some(e) <==> p == Payload(e)
            case TripRated(_) => ReadRated(p) == Some(e) <==> p == Payload(e)
  {
    if e.TripCancelled? && "by" in p && p["by"].Text? && "status" in p && p["status"].Text? {
      RolesReadBack(p["by"].text, e.actor);
      StatusesReadBack(p["status"].text, e.status);
    }
  }

  lemma TypesAreWritten()
    ensures "trip." + "requested" == "trip.requested" && "trip." + "matched" == "trip.matched"
    ensures "trip." + "started" == "trip.started" && "trip." + "completed" == "trip.completed"
    ensures "trip." + "cancelled" == "trip.cancelled" && "trip." + "rated" == "trip.rated"
  {}

  lemma TypesReadBack(name: string)
    ensures name == "trip.requested" ==> |name| == 14 && name[5] == 'r'
    ensures name == "trip.matched" ==> |name| == 12 && name[5] == 'm'
    ensures name == "trip.started" ==> |name| == 12 && name[5] == 's'
    ensures name == "trip.completed" ==> |name| == 14 && name[5] == 'c' && name[6] == 'o'
    ensures name == "trip.cancelled" ==> |name| == 14 && name[5] == 'c' && name[6] == 'a'
    ensures name == "trip.rated" ==> |name| == 10
  {}

  lemma KindsReadBack(name: string, p: Message, e: EventKind)
    ensures ReadKind(name, p) == Some(e) <==> name == "trip." + EventType(e) && p == Payload(e)
  {
    TypesReadBack(name);
    TypesAreWritten();
    PayloadsReadBack(p, e);
  }

  /** A consumer reads a message as an event exactly when it is the one the publisher writes for it. */
  lemma ReadUndoesOutboxPayload(m: Message, t: TripId, e: EventKind)
    ensures Read(m) == Some(Event(t, e)) <==> m == OutboxPayload(t, e)
  {
    EnvelopeSurvives(t, e);
    if "type" in m && m["type"].Text? && "trip_id" in m && m["trip_id"].Id? {
      var p := m - {"type", "trip_id"};
      KindsReadBack(m["type"].text, p, e);
      assert m == map["type" := m["type"], "trip_id" := m["trip_id"]] + p;
    }
  }

  /** Every message the broker holds in a reachable state reads back as the event of the row it was sent for. */
  lemma BrokerLogReadsBack(w: World, actions: seq<Action>, k: nat)
    requires Started(w)
    requires k < |After(w, actions).outbox.tries|
    ensures var now := After(w, actions); var sent := now.outbox.tries[k];
            && sent.row < |now.db.events|
            && Read(sent.message) == Some(now.db.events[sent.row])
  {
    BrokerLogIsTrue(w, actions);
    var now := After(w, actions);
    var e := now.db.events[now.outbox.tries[k].row];
    ReadUndoesOutboxPayload(now.outbox.tries[k].message, e.trip, e.kind);
  }
}
