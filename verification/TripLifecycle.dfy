/**
 What every serial run of transactions keeps about trips: each row is the replay of the trip's events,
 and those events form one of the few legal histories.
 */
module TripLifecycle {
  import opened Options
  import opened Rating
  import opened Trips

  // ---------- replaying events ----------

  datatype Track = Unknown | Tracked(trip: Trip)

  function ReplayEvent(k: Track, e: EventKind): Track {
    if e.TripRequested? then Tracked(Trip(e.rider, None, None, Requested, None))
    else if k.Unknown? then k
    else match e
      case TripMatched(d, v) => Tracked(k.trip.(driver := Some(d), vehicle := Some(v), status := Matched))
      case TripStarted(d) => Tracked(k.trip.(driver := Some(d), status := InProgress))
      case TripCompleted(d, fareCents) =>
        Tracked(k.trip.(driver := Some(d), status := Completed, fareCents := Some(fareCents)))
      case TripCancelled(_, status) => Tracked(k.trip.(status := status))
      case _ => k
  }

  function Replay(es: seq<EventKind>): Track {
    if es == [] then Unknown else ReplayEvent(Replay(es[..|es| - 1]), es[|es| - 1])
  }

  /** The events of one trip, in log order. */
  function History(events: seq<Event>, t: TripId): seq<EventKind> {
    if events == [] then []
    else
      var e := events[|events| - 1];
      History(events[..|events| - 1], t) + if e.trip == t then [e.kind] else []
  }

  lemma HistorySnoc(events: seq<Event>, e: Event, t: TripId)
    ensures History(events + [e], t) == History(events, t) + if e.trip == t then [e.kind] else []
  {}

  // ---------- legal histories ----------

  datatype Tag = R | M | S | C | X | Stars

  function TagOf(e: EventKind): Tag {
    match e
    case TripRequested(_, _) => R
    case TripMatched(_, _) => M
    case TripStarted(_) => S
    case TripCompleted(_, _) => C
    case TripCancelled(_, _) => X
    case TripRated(_) => Stars
  }

  function Tags(es: seq<EventKind>): (ts: seq<Tag>)
    ensures |ts| == |es| && forall i :: 0 <= i < |es| ==> ts[i] == TagOf(es[i])
  {
    seq(|es|, i requires 0 <= i < |es| => TagOf(es[i]))
  }

  /** A prefix of requested, matched, started, completed, rated; or requested, perhaps matched, cancelled. */
  predicate Legal(ts: seq<Tag>) {
    ts <= [R, M, S, C, Stars] || ts == [R, X] || ts == [R, M, X]
  }

  /** The history that goes with a status. */
  predicate Fits(status: TripStatus, rated: bool, ts: seq<Tag>) {
    match status
    case Requested => ts == [R]
    case Matched => ts == [R, M]
    case InProgress => ts == [R, M, S]
    case Completed => ts == if rated then [R, M, S, C, Stars] else [R, M, S, C]
    case CancelledByRider => ts == [R, X] || ts == [R, M, X]
    case CancelledByDriver => ts == [R, M, X]
    case Expired => false
  }

  /** The stars in a trip's events. */
  function StarsIn(es: seq<EventKind>): seq<int> {
    if es == [] then []
    else
      var e := es[|es| - 1];
      StarsIn(es[..|es| - 1]) + if e.TripRated? then [e.stars] else []
  }

  /** The stars in a trip's rating rows. */
  function RatingsOf(ratings: seq<RatingRow>, t: TripId): seq<int> {
    if ratings == [] then []
    else
      var r := ratings[|ratings| - 1];
      RatingsOf(ratings[..|ratings| - 1], t) + if r.trip == t then [r.stars] else []
  }

  /** One trip's row and its ratings agree with its events. */
  ghost predicate Coherent(db: Db, t: TripId) {
    var es := History(db.events, t);
    if t !in db.trips then es == [] && !IsRated(db, t) && RatingsOf(db.ratings, t) == []
    else
      var trip := db.trips[t];
      && Replay(es) == Tracked(trip)
      && RatingsOf(db.ratings, t) == StarsIn(es)
      && Fits(trip.status, IsRated(db, t), Tags(es))
      && (IsRated(db, t) ==> trip.status == Completed)
      && (trip.driver.Some? <==> M in Tags(es))
      && (trip.driver.Some? ==> trip.driver.value in db.drivers)
  }

  ghost predicate AllCoherent(db: Db) {
    forall t: TripId :: Coherent(db, t)
  }

  lemma CoherentHistoriesAreLegal(db: Db, t: TripId)
    requires Coherent(db, t)
    ensures Legal(Tags(History(db.events, t)))
  {}

  // ---------- preservation ----------

  lemma OthersKeepTheirRow(db: Db, tx: Tx, t: TripId)
    requires TripOf(tx) != Some(t)
    ensures var after := Execute(db, tx).db;
            && (t in after.trips <==> t in db.trips)
            && (t in db.trips ==> after.trips[t] == db.trips[t])
            && (forall d :: d in db.drivers ==> d in after.drivers)
  {}

  lemma OthersKeepTheirHistory(db: Db, tx: Tx, t: TripId)
    requires TripOf(tx) != Some(t)
    ensures History(Execute(db, tx).db.events, t) == History(db.events, t)
  {
    var after := Execute(db, tx).db;
    if after.events != db.events {
      var e := after.events[|db.events|];
      assert after.events == db.events + [e] && e.trip != t;
      HistorySnoc(db.events, e, t);
    }
  }

  /** A transaction about one trip, or about none, leaves every other trip coherent. */
  lemma OthersStayCoherent(db: Db, tx: Tx, t: TripId)
    requires Coherent(db, t) && TripOf(tx) != Some(t)
    ensures Coherent(Execute(db, tx).db, t)
  {
    OthersKeepTheirRow(db, tx, t);
    OthersKeepTheirHistory(db, tx, t);
    OthersStayRated(db, tx, t);
    OthersKeepTheirRatings(db, tx, t);
    SameViewSameCoherence(db, Execute(db, tx).db, t);
  }

  lemma SameViewSameCoherence(db: Db, after: Db, t: TripId)
    requires Coherent(db, t)
    requires History(after.events, t) == History(db.events, t) && IsRated(after, t) == IsRated(db, t)
    requires RatingsOf(after.ratings, t) == RatingsOf(db.ratings, t)
    requires (t in after.trips <==> t in db.trips) && (t in db.trips ==> after.trips[t] == db.trips[t])
    requires forall d :: d in db.drivers ==> d in after.drivers
    ensures Coherent(after, t)
  {}

  lemma RatingsSnocOf(ratings: seq<RatingRow>, row: RatingRow, t: TripId)
    ensures RatingsOf(ratings + [row], t) == RatingsOf(ratings, t) + if row.trip == t then [row.stars] else []
  {}

  lemma OthersKeepTheirRatings(db: Db, tx: Tx, t: TripId)
    requires TripOf(tx) != Some(t)
    ensures RatingsOf(Execute(db, tx).db.ratings, t) == RatingsOf(db.ratings, t)
  {
    var after := Execute(db, tx).db;
    if after.ratings != db.ratings {
      var row := after.ratings[|db.ratings|];
      assert after.ratings == db.ratings + [row] && row.trip != t;
      RatingsSnocOf(db.ratings, row, t);
      assert RatingsOf(db.ratings, t) + [] == RatingsOf(db.ratings, t);
    }
  }

  lemma OthersStayRated(db: Db, tx: Tx, t: TripId)
    requires TripOf(tx) != Some(t)
    ensures IsRated(Execute(db, tx).db, t) == IsRated(db, t)
  {
    var after := Execute(db, tx).db;
    assert forall i :: 0 <= i < |db.ratings| ==> after.ratings[i] == db.ratings[i];
    if IsRated(after, t) {
      var i :| 0 <= i < |after.ratings| && after.ratings[i].trip == t;
      assert i < |db.ratings|;
    }
    if IsRated(db, t) {
      var i :| 0 <= i < |db.ratings| && db.ratings[i].trip == t;
      assert after.ratings[i].trip == t;
    }
  }

  /** The facts about one event appended to one trip. */
  lemma OneMoreEvent(db: Db, t: TripId, kind: EventKind)
    ensures var before, after := History(db.events, t), History(db.events + [Event(t, kind)], t);
            && Replay(after) == ReplayEvent(Replay(before), kind)
            && Tags(after) == Tags(before) + [TagOf(kind)]
            && StarsIn(after) == StarsIn(before) + if kind.TripRated? then [kind.stars] else []
  {}

  /** An event of an unrated trip, appended with the row it leads to, keeps the trip coherent. */
  lemma EventKeepsCoherent(db: Db, after: Db, t: TripId, kind: EventKind)
    requires Coherent(db, t) && t in db.trips && !IsRated(db, t)
    requires after.events == db.events + [Event(t, kind)] && after.ratings == db.ratings && !kind.TripRated?
    requires t in after.trips && ReplayEvent(Tracked(db.trips[t]), kind) == Tracked(after.trips[t])
    requires var trip, ts := after.trips[t], Tags(History(db.events, t)) + [TagOf(kind)];
             && Fits(trip.status, false, ts) && (trip.driver.Some? <==> M in ts)
             && (trip.driver.Some? ==> trip.driver.value in after.drivers)
    ensures Coherent(after, t)
  {
    OneMoreEvent(db, t, kind);
    assert IsRated(after, t) == IsRated(db, t);
  }

  lemma CreateKeepsCoherent(db: Db, id: TripId, rider: UserId, dto: nat)
    requires Coherent(db, id)
    ensures Coherent(Create(db, id, rider, dto).db, id)
  {
    OneMoreEvent(db, id, TripRequested(rider, dto));
    assert IsRated(Create(db, id, rider, dto).db, id) == IsRated(db, id);
  }

  lemma AssignKeepsCoherent(db: Db, t: TripId, d: UserId)
    requires Coherent(db, t)
    ensures Coherent(Assign(db, t, d).db, t)
  {}

  lemma CancelKeepsCoherent(db: Db, t: TripId, actor: UserId, role: Role)
    requires Coherent(db, t)
    ensures Coherent(Cancel(db, t, actor, role).db, t)
  {
    var out := Cancel(db, t, actor, role);
    if out.reply == Done {
      EventKeepsCoherent(db, out.db, t, TripCancelled(role, out.db.trips[t].status));
    }
  }

  lemma StartKeepsCoherent(db: Db, t: TripId, actor: UserId, role: Role)
    requires Coherent(db, t)
    ensures Coherent(Start(db, t, actor, role).db, t)
  {}

  lemma CompleteKeepsCoherent(db: Db, t: TripId, actor: UserId, role: Role, fareCents: int)
    requires Coherent(db, t)
    ensures Coherent(Complete(db, t, actor, role, fareCents).db, t)
  {}

  lemma RateKeepsCoherent(db: Db, t: TripId, rider: UserId, stars: int)
    requires Coherent(db, t)
    ensures Coherent(Rate(db, t, rider, stars).db, t)
  {
    var out := Rate(db, t, rider, stars);
    if out.reply == Done {
      RatedEventKeepsCoherent(db, out.db, t, stars);
    }
  }

  /** The first rating of a completed trip, appended with its event, keeps the trip coherent. */
  lemma RatedEventKeepsCoherent(db: Db, after: Db, t: TripId, stars: int)
    requires Coherent(db, t) && t in db.trips && !IsRated(db, t) && db.trips[t].status == Completed
    requires after.events == db.events + [Event(t, TripRated(stars))] && t in after.trips && after.trips[t] == db.trips[t]
    requires |after.ratings| == |db.ratings| + 1 && after.ratings[..|db.ratings|] == db.ratings
    requires after.ratings[|db.ratings|].trip == t && after.ratings[|db.ratings|].stars == stars
    requires db.trips[t].driver.Some? ==> db.trips[t].driver.value in after.drivers
    ensures Coherent(after, t)
  {
    var row := after.ratings[|db.ratings|];
    assert after.ratings == db.ratings + [row];
    OneMoreEvent(db, t, TripRated(stars));
    RatingsSnocOf(db.ratings, row, t);
  }

  lemma ExecuteKeepsCoherent(db: Db, tx: Tx)
    requires AllCoherent(db)
    ensures AllCoherent(Execute(db, tx).db)
  {
    forall t: TripId
      ensures Coherent(Execute(db, tx).db, t)
    {
      assert Coherent(db, t);
      if TripOf(tx) != Some(t) {
        OthersStayCoherent(db, tx, t);
      } else {
        match tx {
          case CreateTx(_, rider, dto) => CreateKeepsCoherent(db, t, rider, dto);
          case AssignTx(_, d) => AssignKeepsCoherent(db, t, d);
          case CancelTx(_, actor, role) => CancelKeepsCoherent(db, t, actor, role);
          case StartTx(_, actor, role) => StartKeepsCoherent(db, t, actor, role);
          case CompleteTx(_, actor, role, fare) => CompleteKeepsCoherent(db, t, actor, role, fare);
          case RateTx(_, rider, stars) => RateKeepsCoherent(db, t, rider, stars);
        }
      }
    }
  }

  /** In every reachable database each trip is the replay of its events, and they form a legal history. */
  lemma {:induction false} EveryRunIsCoherent(db: Db, txs: seq<Tx>)
    requires Initial(db)
    ensures AllCoherent(Run(db, txs))
  {
    if txs == [] {
      assert forall t :: History(db.events, t) == [];
    } else {
      EveryRunIsCoherent(db, txs[..|txs| - 1]);
      ExecuteKeepsCoherent(Run(db, txs[..|txs| - 1]), txs[|txs| - 1]);
    }
  }

  // ---------- consequences over whole runs ----------

  predicate Terminal(s: TripStatus) {
    s == Completed || s == CancelledByRider || s == CancelledByDriver
  }

  /** Once terminal, a trip's row never changes again; once matched, its driver and vehicle never do. */
  lemma StepKeepsDecisions(db: Db, tx: Tx, t: TripId)
    requires Coherent(db, t) && t in db.trips
    ensures var after := Execute(db, tx).db;
            && t in after.trips
            && (Terminal(db.trips[t].status) ==> after.trips[t] == db.trips[t])
            && (db.trips[t].driver.Some? ==>
                  after.trips[t].driver == db.trips[t].driver && after.trips[t].vehicle == db.trips[t].vehicle)
  {}

  lemma RunSnoc(db: Db, txs: seq<Tx>, tx: Tx)
    ensures Run(db, txs + [tx]) == Execute(Run(db, txs), tx).db
  {}

  /** Terminal rows and made matches are final, whatever follows: messages delivered twice or late,
      cancellations that come too late, anything. */
  lemma {:induction false} DecisionsAreFinal(db: Db, txs: seq<Tx>, later: seq<Tx>, t: TripId)
    requires Initial(db) && t in Run(db, txs).trips
    ensures var now, then_ := Run(db, txs), Run(db, txs + later);
            && t in then_.trips
            && (Terminal(now.trips[t].status) ==> then_.trips[t] == now.trips[t])
            && (now.trips[t].driver.Some? ==>
                  then_.trips[t].driver == now.trips[t].driver && then_.trips[t].vehicle == now.trips[t].vehicle)
  {
    if later == [] {
      assert txs + later == txs;
    } else {
      var before, tx := later[..|later| - 1], later[|later| - 1];
      assert txs + later == (txs + before) + [tx];
      DecisionsAreFinal(db, txs, before, t);
      EveryRunIsCoherent(db, txs + before);
      RunSnoc(db, txs + before, tx);
      assert Coherent(Run(db, txs + before), t);
      StepKeepsDecisions(Run(db, txs + before), tx, t);
    }
  }

  function Matches(es: seq<EventKind>): nat {
    if es == [] then 0 else Matches(es[..|es| - 1]) + if es[|es| - 1].TripMatched? then 1 else 0
  }

  lemma {:induction false} MatchesCountsTags(es: seq<EventKind>)
    requires forall i, j :: 0 <= i < j < |es| ==> !(TagOf(es[i]) == M && TagOf(es[j]) == M)
    ensures Matches(es) <= 1
    ensures (forall i :: 0 <= i < |es| ==> TagOf(es[i]) != M) ==> Matches(es) == 0
  {
    if es != [] {
      MatchesCountsTags(es[..|es| - 1]);
    }
  }

  lemma LegalHistoriesMatchOnce(es: seq<EventKind>)
    requires Legal(Tags(es))
    ensures Matches(es) <= 1
    ensures X in Tags(es) && M in Tags(es) ==> Tags(es) == [R, M, X]
  {
    var ts := Tags(es);
    assert forall i :: 0 <= i < |ts| && i != 1 ==> ts[i] != M;
    MatchesCountsTags(es);
  }

  /** However often and in whatever order `trip.requested` is delivered, to however many matchers, a trip
      is matched at most once, and never after it was cancelled. */
  lemma NoTripIsMatchedTwice(db: Db, txs: seq<Tx>, t: TripId)
    requires Initial(db)
    ensures var es := History(Run(db, txs).events, t);
            Matches(es) <= 1 && Legal(Tags(es)) && (X in Tags(es) && M in Tags(es) ==> Tags(es) == [R, M, X])
  {
    EveryRunIsCoherent(db, txs);
    assert Coherent(Run(db, txs), t);
    CoherentHistoriesAreLegal(Run(db, txs), t);
    LegalHistoriesMatchOnce(History(Run(db, txs).events, t));
  }

  // ---------- ratings ----------

  /** The ratings a driver received, in order. */
  function StarsOf(ratings: seq<RatingRow>, d: UserId): seq<int> {
    if ratings == [] then []
    else
      var r := ratings[|ratings| - 1];
      StarsOf(ratings[..|ratings| - 1], d) + if r.driver == d then [r.stars] else []
  }

  /** The driver's stored score is the trigger applied to the driver's ratings one by one. */
  ghost predicate ScoreIsExact(db: Db, d: UserId) {
    && AllValid(StarsOf(db.ratings, d))
    && (d in db.drivers ==> db.drivers[d].score == AfterRatings(UNRATED, StarsOf(db.ratings, d)))
    && (d !in db.drivers ==> StarsOf(db.ratings, d) == [])
  }

  ghost predicate ScoresAreExact(db: Db) {
    forall d: UserId :: ScoreIsExact(db, d)
  }

  lemma StarsSnoc(ratings: seq<RatingRow>, row: RatingRow, d: UserId)
    ensures StarsOf(ratings + [row], d) == StarsOf(ratings, d) + if row.driver == d then [row.stars] else []
  {}

  lemma RateKeepsScore(db: Db, t: TripId, rider: UserId, stars: int, d: UserId)
    requires ScoreIsExact(db, d)
    ensures ScoreIsExact(Rate(db, t, rider, stars).db, d)
  {
    if Rate(db, t, rider, stars).reply == Done {
      var row := RatingRow(t, rider, db.trips[t].driver.value, stars);
      StarsSnoc(db.ratings, row, d);
      if row.driver == d {
        RatingsSnoc(StarsOf(db.ratings, d), stars);
      } else {
        assert StarsOf(db.ratings, d) + [] == StarsOf(db.ratings, d);
      }
    }
  }

  /** Nothing but a rating touches a score. */
  lemma OthersKeepScore(db: Db, tx: Tx, d: UserId)
    requires ScoreIsExact(db, d) && !tx.RateTx?
    ensures ScoreIsExact(Execute(db, tx).db, d)
  {}

  lemma ExecuteKeepsScore(db: Db, tx: Tx, d: UserId)
    requires ScoreIsExact(db, d)
    ensures ScoreIsExact(Execute(db, tx).db, d)
  {
    if tx.RateTx? {
      RateKeepsScore(db, tx.trip, tx.rider, tx.stars, d);
    } else {
      OthersKeepScore(db, tx, d);
    }
  }

  lemma {:induction false} EveryRunKeepsScores(db: Db, txs: seq<Tx>)
    requires Initial(db)
    ensures ScoresAreExact(Run(db, txs))
  {
    if txs != [] {
      EveryRunKeepsScores(db, txs[..|txs| - 1]);
      forall d: UserId
        ensures ScoreIsExact(Run(db, txs), d)
      {
        assert ScoreIsExact(Run(db, txs[..|txs| - 1]), d);
        ExecuteKeepsScore(Run(db, txs[..|txs| - 1]), txs[|txs| - 1], d);
      }
    }
  }

  /** In every reachable database a driver's count is the number of ratings accepted for the driver, and
      the stored average is in range and within the drift bound of their exact mean. */
  lemma ReachableScoresAreSound(db: Db, txs: seq<Tx>, d: UserId)
    requires Initial(db) && d in Run(db, txs).drivers
    ensures var now := Run(db, txs);
            var stars, score := StarsOf(now.ratings, d), now.drivers[d].score;
            var n := |stars|;
            && score.count == n
            && (n >= 1 ==>
                  && 100 <= score.hundredths <= 500
                  && -(n * (n + 1)) <= 4 * (n * score.hundredths - 100 * Total(stars)) <= n * (n + 1))
  {
    EveryRunKeepsScores(db, txs);
    var stars := StarsOf(Run(db, txs).ratings, d);
    assert ScoreIsExact(Run(db, txs), d);
    CountIsExact(stars);
    if stars != [] {
      AverageStaysInRange(stars);
      DriftIsBounded(stars);
    }
  }
}
