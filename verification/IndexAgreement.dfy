/**
 When the Redis set lists a driver who is not online: over every interleaving of the deployment, exactly the steps
 that can bring that about.
 */
module IndexAgreement {
  import opened Options
  import opened Rating
  import opened Trips
  import opened DriverIndex
  import opened Deployment
  import O = Outbox

  // ---------- agreement ----------

  /** The process still has to take the driver out of the index. */
  predicate Removes(p: Proc, d: UserId) {
    p == DroppingMatched(d) || p == Indexing(d, false) || (p.DroppingStale? && p.driver == d)
  }

  predicate Pending(procs: map<nat, Proc>, d: UserId) {
    exists pid :: pid in procs && Removes(procs[pid], d)
  }

  predicate Covered(w: World, d: UserId) {
    IsOnline(w.db, d) || Pending(w.procs, d)
  }

  /** Whoever is in the index is online, or about to be taken out. */
  ghost predicate Agreement(w: World) {
    forall d: UserId :: d in w.index ==> Covered(w, d)
  }

  // ---------- the harmful steps ----------

  /** An entry is added after its driver has gone offline and every removal is done. */
  predicate LateAdd(w: World, pid: nat) {
    pid in w.procs && w.procs[pid].Indexing? && w.procs[pid].add && !Covered(w, w.procs[pid].driver)
  }

  /** The process that crashes was the last that would have taken some offline driver out of the index. */
  ghost predicate LastRemovalLost(w: World, pid: nat) {
    exists d: UserId :: d in w.index && !IsOnline(w.db, d) && !Pending(w.procs - {pid}, d)
  }

  /** The index is overwritten with an offline driver whom nobody is about to take out. */
  ghost predicate StrayEntry(w: World, index: set<UserId>) {
    exists d: UserId :: d in index && !Covered(w, d)
  }

  ghost predicate Harmful(w: World, a: Action) {
    match a
    case Advance(pid) => LateAdd(w, pid)
    case Crash(pid) => LastRemovalLost(w, pid)
    case Overwrite(index) => StrayEntry(w, index)
    case _ => false
  }

  // ---------- one step ----------

  lemma OtherRemovalsStay(procs: map<nat, Proc>, pid: nat, p: Proc, d: UserId)
    requires Pending(procs, d) && (pid in procs ==> !Removes(procs[pid], d))
    ensures Pending(procs[pid := p], d)
  {
    var q :| q in procs && Removes(procs[q], d);
    assert q in procs[pid := p] && procs[pid := p][q] == procs[q];
  }

  lemma NewRemoval(procs: map<nat, Proc>, pid: nat, p: Proc, d: UserId)
    requires Removes(p, d)
    ensures Pending(procs[pid := p], d)
  {
    assert pid in procs[pid := p] && procs[pid := p][pid] == p;
  }

  lemma NoNewRemoval(procs: map<nat, Proc>, pid: nat, p: Proc, d: UserId)
    requires !Removes(p, d)
    ensures Pending(procs[pid := p], d) ==> Pending(procs, d)
  {
    if Pending(procs[pid := p], d) {
      var q :| q in procs[pid := p] && Removes(procs[pid := p][q], d);
      assert q in procs && Removes(procs[q], d);
    }
  }

  /** A call takes a driver offline only if it goes on to take the driver out. */
  lemma CallCovers(w: World, pid: nat, tx: Tx, d: UserId)
    requires Covered(w, d) && pid !in w.procs
    ensures Covered(Next(w, Call(pid, tx)), d)
  {
    var p := FollowUp(w.db, tx);
    if IsOnline(w.db, d) {
      if !IsOnline(Execute(w.db, tx).db, d) {
        LeavingOnline(w.db, tx, d);
        NewRemoval(w.procs, pid, p, d);
      }
    } else {
      OtherRemovalsStay(w.procs, pid, p, d);
    }
  }

  /** A handler takes a driver offline only by matching the driver, whom it then takes out. */
  lemma HandlingCovers(w: World, pid: nat, d: UserId)
    requires pid in w.procs && w.procs[pid].Handling? && Covered(w, d)
    ensures Covered(Next(w, Advance(pid)), d)
  {
    var p := w.procs[pid];
    var (s, rest) := Step(Shared(w.db, w.index), p);
    if IsOnline(w.db, d) {
      if !IsOnline(s.db, d) {
        assert p.candidates != [];
        if p.candidates[0] != d {
          AssignTakesOneOffline(w.db, p.trip, p.candidates[0], d);
        }
        NewRemoval(w.procs, pid, rest, d);
      }
    } else {
      OtherRemovalsStay(w.procs, pid, rest, d);
    }
  }

  /** Any other step of a process changes nobody's status, and takes a driver out when it is done removing. */
  lemma OtherAdvanceCovers(w: World, pid: nat, d: UserId)
    requires pid in w.procs && !w.procs[pid].Handling? && !LateAdd(w, pid)
    requires d in Next(w, Advance(pid)).index && (d in w.index ==> Covered(w, d))
    ensures Covered(Next(w, Advance(pid)), d)
  {
    var p := w.procs[pid];
    var (s, rest) := Step(Shared(w.db, w.index), p);
    assert s.db == w.db && !Removes(p, d);
    if !IsOnline(w.db, d) {
      OtherRemovalsStay(w.procs, pid, rest, d);
    }
  }

  lemma AdvanceKeepsAgreement(w: World, pid: nat)
    requires Agreement(w) && !LateAdd(w, pid)
    ensures Agreement(Next(w, Advance(pid)))
  {
    var after := Next(w, Advance(pid));
    if pid in w.procs {
      forall d: UserId | d in after.index
        ensures Covered(after, d)
      {
        if w.procs[pid].Handling? {
          assert d in w.index;
          HandlingCovers(w, pid, d);
        } else {
          OtherAdvanceCovers(w, pid, d);
        }
      }
    }
  }

  lemma CallKeepsAgreement(w: World, pid: nat, tx: Tx)
    requires Agreement(w)
    ensures Agreement(Next(w, Call(pid, tx)))
  {
    if pid !in w.procs {
      forall d: UserId | d in w.index
        ensures Covered(Next(w, Call(pid, tx)), d)
      {
        CallCovers(w, pid, tx, d);
      }
    }
  }

  lemma DeliverKeepsAgreement(w: World, pid: nat, t: TripId, candidates: seq<UserId>)
    requires Agreement(w)
    ensures Agreement(Next(w, Action.Deliver(pid, t, candidates)))
  {
    var after := Next(w, Action.Deliver(pid, t, candidates));
    if pid !in w.procs {
      forall d: UserId | d in w.index
        ensures Covered(after, d)
      {
        if !IsOnline(w.db, d) {
          OtherRemovalsStay(w.procs, pid, Handling(t, candidates), d);
        }
      }
    }
  }

  /** A step breaks agreement if and only if it is harmful. */
  lemma StepKeepsAgreementIff(w: World, a: Action)
    requires Agreement(w)
    ensures Agreement(Next(w, a)) <==> !Harmful(w, a)
  {
    match a {
      case Call(pid, tx) => CallKeepsAgreement(w, pid, tx);
      case Deliver(pid, t, candidates) => DeliverKeepsAgreement(w, pid, t, candidates);
      case Advance(pid) =>
        if LateAdd(w, pid) {
          LateAddBreaks(w, pid);
        } else {
          AdvanceKeepsAgreement(w, pid);
        }
      case Crash(pid) => CrashKeepsAgreementIff(w, pid);
      case Overwrite(index) => OverwriteKeepsAgreementIff(w, index);
      case Publish(_) =>
        assert forall d: UserId :: Covered(Next(w, a), d) == Covered(w, d);
    }
  }

  lemma LateAddBreaks(w: World, pid: nat)
    requires LateAdd(w, pid)
    ensures var d, after := w.procs[pid].driver, Next(w, Advance(pid));
            d in after.index && after.db == w.db && !Covered(after, d) && !Agreement(after)
  {
    var d := w.procs[pid].driver;
    var after := Next(w, Advance(pid));
    assert after.procs == w.procs[pid := Finished] && after.db == w.db && d in after.index;
    NoNewRemoval(w.procs, pid, Finished, d);
    assert !Covered(after, d);
  }

  lemma CrashKeepsAgreementIff(w: World, pid: nat)
    requires Agreement(w)
    ensures Agreement(Next(w, Crash(pid))) <==> !LastRemovalLost(w, pid)
  {
    var after := Next(w, Crash(pid));
    assert forall d: UserId :: Covered(after, d) == (IsOnline(w.db, d) || Pending(w.procs - {pid}, d));
    if d: UserId :| d in w.index && !IsOnline(w.db, d) && !Pending(w.procs - {pid}, d) {
      assert !Covered(after, d);
    }
  }

  lemma OverwriteKeepsAgreementIff(w: World, index: set<UserId>)
    ensures Agreement(Next(w, Overwrite(index))) <==> !StrayEntry(w, index)
  {
    assert forall d: UserId :: Covered(Next(w, Overwrite(index)), d) == Covered(w, d);
  }

  // ---------- whole runs ----------

  ghost predicate AlwaysAgrees(w: World, actions: seq<Action>) {
    forall k :: 0 <= k <= |actions| ==> Agreement(After(w, actions[..k]))
  }

  ghost predicate NeverHarmed(w: World, actions: seq<Action>) {
    forall k :: 0 <= k < |actions| ==> !Harmful(After(w, actions[..k]), actions[k])
  }

  lemma StepInRun(w: World, actions: seq<Action>, k: nat)
    requires k < |actions| && Agreement(After(w, actions[..k]))
    ensures Agreement(After(w, actions[..k + 1])) <==> !Harmful(After(w, actions[..k]), actions[k])
  {
    AfterOneMore(w, actions, k);
    StepKeepsAgreementIff(After(w, actions[..k]), actions[k]);
  }

  lemma {:induction false} UnharmedRunsAgree(w: World, actions: seq<Action>, k: nat)
    requires Agreement(w) && NeverHarmed(w, actions) && k <= |actions|
    ensures Agreement(After(w, actions[..k]))
  {
    if k > 0 {
      UnharmedRunsAgree(w, actions, k - 1);
      StepInRun(w, actions, k - 1);
    }
  }

  /** Over every interleaving, with crashes and an index that may be overwritten at any time: whoever is in the index
      is online or about to be taken out, throughout, if and only if no step adds a driver late, loses the last
      removal of an offline driver, or overwrites the index with one. */
  lemma AgreesIffNeverHarmed(w: World, actions: seq<Action>)
    requires Agreement(w)
    ensures AlwaysAgrees(w, actions) <==> NeverHarmed(w, actions)
  {
    if NeverHarmed(w, actions) {
      forall k | 0 <= k <= |actions|
        ensures Agreement(After(w, actions[..k]))
      {
        UnharmedRunsAgree(w, actions, k);
      }
    }
    if k :| 0 <= k < |actions| && Harmful(After(w, actions[..k]), actions[k]) {
      if Agreement(After(w, actions[..k])) {
        StepInRun(w, actions, k);
        assert !Agreement(After(w, actions[..k + 1]));
      }
    }
  }

  /** In particular, without harm and with no removal outstanding, the index holds only online drivers. */
  lemma SettledIndexIsOnline(w: World, actions: seq<Action>)
    requires Agreement(w) && NeverHarmed(w, actions)
    requires forall d: UserId :: !Pending(After(w, actions).procs, d)
    ensures var now := After(w, actions); IndexedAreOnline(Shared(now.db, now.index))
  {
    UnharmedRunsAgree(w, actions, |actions|);
    assert actions[..|actions|] == actions;
    assert forall d: UserId :: d in After(w, actions).index ==> Covered(After(w, actions), d);
  }

  // ---------- a late add ----------

  /** From an empty deployment with one online driver: two trips are requested; the driver is matched to the first and
      taken out of the index; the rider cancels, which frees the driver and is about to restore the entry; the driver
      is matched to the second trip and taken out again; and then the restore adds the entry. */
  function LateAddRun(rider: UserId, other: UserId, dto: nat): seq<Action> {
    [Call(0, CreateTx(1, rider, dto)), Call(1, CreateTx(2, other, dto)),
     Action.Deliver(2, 1, [7]), Advance(2), Advance(2),
     Call(3, CancelTx(1, rider, Rider)), Advance(3),
     Action.Deliver(4, 2, [7]), Advance(4), Advance(4),
     Advance(3)]
  }

  function Start(v: VehicleId): World {
    World(Db(map[], map[7 := Driver(Online, Some(v), true, UNRATED)], [], []), {7}, map[], O.EMPTY)
  }

  predicate DriverIs(db: Db, v: VehicleId, status: DriverStatus) {
    7 in db.drivers && db.drivers[7].status == status && db.drivers[7].vehicle == Some(v) && db.drivers[7].located
  }

  lemma RunTwice(w: World, a: Action, b: Action)
    ensures After(w, [a, b]) == Next(Next(w, a), b)
  {
    AfterOneMore(w, [a, b], 0);
    AfterOneMore(w, [a, b], 1);
    assert [a, b][..2] == [a, b];
  }

  /** Two requested trips, an online driver, and nothing under way. */
  ghost predicate TwoRequested(w: World, v: VehicleId, rider: UserId) {
    && w.procs == map[0 := Finished, 1 := Finished]
    && IsRequested(w.db, 1) && w.db.trips[1].rider == rider && IsRequested(w.db, 2) && DriverIs(w.db, v, Online)
  }

  lemma TwoRequests(v: VehicleId, rider: UserId, other: UserId, dto: nat)
    ensures TwoRequested(After(Start(v), [Call(0, CreateTx(1, rider, dto)), Call(1, CreateTx(2, other, dto))]), v, rider)
  {
    RunTwice(Start(v), Call(0, CreateTx(1, rider, dto)), Call(1, CreateTx(2, other, dto)));
  }

  /** What a delivery to an idle matcher, run to its end, leads to: the driver is matched and taken out. */
  ghost predicate MatchedAndTakenOut(w: World, after: World, pid: nat, t: TripId, v: VehicleId) {
    && after.procs == w.procs[pid := Finished] && after.index == w.index - {7} && DriverIs(after.db, v, OnTrip)
    && t in w.db.trips && t in after.db.trips
    && after.db.trips[t] == w.db.trips[t].(driver := Some(7), vehicle := Some(v), status := Matched)
    && forall u :: u in w.db.trips && u != t ==> u in after.db.trips && after.db.trips[u] == w.db.trips[u]
  }

  /** The worlds of a run, one after the other. */
  type Trace = nat -> World

  ghost predicate Follows(h: Trace, run: seq<Action>, n: nat)
    requires n <= |run|
  {
    n > 0 ==> Follows(h, run, n - 1) && h(n) == Next(h(n - 1), run[n - 1])
  }

  lemma {:induction false} FollowsAt(h: Trace, run: seq<Action>, n: nat, k: nat)
    requires k < n <= |run| && Follows(h, run, n)
    ensures h(k + 1) == Next(h(k), run[k])
  {
    if k < n - 1 {
      FollowsAt(h, run, n - 1, k);
    }
  }

  lemma MatchPart(h: Trace, run: seq<Action>, k: nat, pid: nat, t: TripId, v: VehicleId)
    requires k + 3 <= |run| && Follows(h, run, |run|)
    requires run[k] == Action.Deliver(pid, t, [7]) && run[k + 1] == run[k + 2] == Advance(pid)
    requires pid !in h(k).procs && IsRequested(h(k).db, t) && DriverIs(h(k).db, v, Online)
    ensures MatchedAndTakenOut(h(k), h(k + 3), pid, t, v)
  {
    FollowsAt(h, run, |run|, k);
    FollowsAt(h, run, |run|, k + 1);
    FollowsAt(h, run, |run|, k + 2);
    MatchSteps(h(k), h(k + 1), h(k + 2), h(k + 3), pid, t, v);
  }

  lemma MatchSteps(w: World, handling: World, dropping: World, after: World, pid: nat, t: TripId, v: VehicleId)
    requires pid !in w.procs && IsRequested(w.db, t) && DriverIs(w.db, v, Online)
    requires handling == Next(w, Action.Deliver(pid, t, [7]))
    requires dropping == Next(handling, Advance(pid)) && after == Next(dropping, Advance(pid))
    ensures MatchedAndTakenOut(w, after, pid, t, v)
  {
    assert handling.procs[pid] == Handling(t, [7]);
    assert dropping.procs == w.procs[pid := DroppingMatched(7)] && dropping.db == Assign(w.db, t, 7).db;
    assert after.procs == w.procs[pid := Finished];
  }

  /** What a cancellation leads to, up to the point where it is about to restore the entry. */
  ghost predicate AboutToRestore(w: World, after: World, pid: nat, t: TripId, v: VehicleId) {
    && after.procs == w.procs[pid := Indexing(7, true)] && after.index == w.index && DriverIs(after.db, v, Online)
    && forall u :: u in w.db.trips && u != t ==> u in after.db.trips && after.db.trips[u] == w.db.trips[u]
  }

  lemma CancelPart(h: Trace, run: seq<Action>, k: nat, pid: nat, t: TripId, rider: UserId, v: VehicleId)
    requires k + 2 <= |run| && Follows(h, run, |run|)
    requires run[k] == Call(pid, CancelTx(t, rider, Rider)) && run[k + 1] == Advance(pid)
    requires pid !in h(k).procs && DriverIs(h(k).db, v, OnTrip) && t in h(k).db.trips
    requires var trip := h(k).db.trips[t]; trip.rider == rider && trip.driver == Some(7) && trip.status == Matched
    ensures AboutToRestore(h(k), h(k + 2), pid, t, v)
  {
    FollowsAt(h, run, |run|, k);
    FollowsAt(h, run, |run|, k + 1);
    CancelSteps(h(k), h(k + 1), h(k + 2), pid, t, rider, v);
  }

  lemma CancelSteps(w: World, cancelled: World, after: World, pid: nat, t: TripId, rider: UserId, v: VehicleId)
    requires pid !in w.procs && DriverIs(w.db, v, OnTrip) && t in w.db.trips
    requires w.db.trips[t].rider == rider && w.db.trips[t].driver == Some(7) && w.db.trips[t].status == Matched
    requires cancelled == Next(w, Call(pid, CancelTx(t, rider, Rider))) && after == Next(cancelled, Advance(pid))
    ensures AboutToRestore(w, after, pid, t, v)
  {
    assert cancelled.procs == w.procs[pid := Restoring(7)];
    assert after.procs == w.procs[pid := Indexing(7, true)];
  }

  /** Between these parts nothing else is under way, so the restore is late. */
  lemma RestoreIsLate(w: World, first: World, waiting: World, before: World, v: VehicleId)
    requires w.procs == map[0 := Finished, 1 := Finished]
    requires MatchedAndTakenOut(w, first, 2, 1, v) && AboutToRestore(first, waiting, 3, 1, v)
    requires MatchedAndTakenOut(waiting, before, 4, 2, v)
    ensures LateAdd(before, 3) && before.procs[3] == Indexing(7, true)
  {
    assert before.procs == map[0 := Finished, 1 := Finished, 2 := Finished, 3 := Indexing(7, true), 4 := Finished];
    assert !Pending(before.procs, 7);
  }

  /** The shape of the run after the two requests. */
  ghost predicate RestoresLate(run: seq<Action>, rider: UserId) {
    && |run| == 11
    && run[2] == Action.Deliver(2, 1, [7]) && run[3] == run[4] == Advance(2)
    && run[5] == Call(3, CancelTx(1, rider, Rider)) && run[6] == Advance(3)
    && run[7] == Action.Deliver(4, 2, [7]) && run[8] == run[9] == Advance(4)
    && run[10] == Advance(3)
  }

  lemma ReadyToCancel(w: World, first: World, v: VehicleId, rider: UserId)
    requires TwoRequested(w, v, rider) && MatchedAndTakenOut(w, first, 2, 1, v)
    ensures 3 !in first.procs && DriverIs(first.db, v, OnTrip) && 1 in first.db.trips
    ensures var trip := first.db.trips[1]; trip.rider == rider && trip.driver == Some(7) && trip.status == Matched
  {}

  lemma ReadyToMatchAgain(w: World, first: World, waiting: World, v: VehicleId, rider: UserId)
    requires TwoRequested(w, v, rider) && MatchedAndTakenOut(w, first, 2, 1, v) && AboutToRestore(first, waiting, 3, 1, v)
    ensures 4 !in waiting.procs && IsRequested(waiting.db, 2) && DriverIs(waiting.db, v, Online)
  {}

  lemma RunOfParts(h: Trace, run: seq<Action>, v: VehicleId, rider: UserId)
    requires RestoresLate(run, rider) && Follows(h, run, |run|)
    requires TwoRequested(h(2), v, rider)
    ensures LateAdd(h(10), 3) && DriverIs(h(10).db, v, OnTrip) && h(10).procs[3] == Indexing(7, true)
  {
    MatchPart(h, run, 2, 2, 1, v);
    ReadyToCancel(h(2), h(5), v, rider);
    CancelPart(h, run, 5, 3, 1, rider, v);
    ReadyToMatchAgain(h(2), h(5), h(7), v, rider);
    MatchPart(h, run, 7, 4, 2, v);
    RestoreIsLate(h(2), h(5), h(7), h(10), v);
  }

  lemma RestoreLeavesStale(w: World, v: VehicleId)
    requires LateAdd(w, 3) && DriverIs(w.db, v, OnTrip) && w.procs[3] == Indexing(7, true)
    ensures var stale := Next(w, Advance(3)); 7 in stale.index && DriverIs(stale.db, v, OnTrip) && !Covered(stale, 7)
  {
    LateAddBreaks(w, 3);
  }

  function TraceOf(start: World, run: seq<Action>): Trace {
    (k: nat) => if k <= |run| then After(start, run[..k]) else start
  }

  lemma {:induction false} TraceFollows(start: World, run: seq<Action>, n: nat)
    requires n <= |run|
    ensures Follows(TraceOf(start, run), run, n)
  {
    if n > 0 {
      TraceFollows(start, run, n - 1);
      AfterOneMore(start, run, n - 1);
    }
  }

  lemma LateRunEnds(start: World, run: seq<Action>, v: VehicleId, rider: UserId)
    requires RestoresLate(run, rider)
    requires TwoRequested(After(start, run[..2]), v, rider)
    ensures var before, stale := After(start, run[..10]), After(start, run);
            LateAdd(before, 3) && 7 in stale.index && DriverIs(stale.db, v, OnTrip) && !Covered(stale, 7)
  {
    var h := TraceOf(start, run);
    assert run[..11] == run;
    TraceFollows(start, run, |run|);
    RunOfParts(h, run, v, rider);
    FollowsAt(h, run, |run|, 10);
    RestoreLeavesStale(h(10), v);
  }

  lemma LateRunBegins(v: VehicleId, rider: UserId, other: UserId, dto: nat)
    ensures var run := LateAddRun(rider, other, dto);
            RestoresLate(run, rider) && TwoRequested(After(Start(v), run[..2]), v, rider)
  {
    var run := LateAddRun(rider, other, dto);
    TwoRequests(v, rider, other, dto);
    assert run[..2] == [Call(0, CreateTx(1, rider, dto)), Call(1, CreateTx(2, other, dto))];
  }

  lemma StartAgrees(v: VehicleId)
    ensures Started(Start(v)) && Agreement(Start(v))
  {}

  /** The late add, from a deployment that has just started: the last step of the run is one, and leaves a driver on a
      trip in the index whom nobody is about to take out. */
  lemma LateAddHappens(v: VehicleId, rider: UserId, other: UserId, dto: nat)
    ensures Started(Start(v)) && Agreement(Start(v))
    ensures var run := LateAddRun(rider, other, dto);
            var before, stale := After(Start(v), run[..10]), After(Start(v), run);
            && LateAdd(before, 3) && run[10] == Advance(3)
            && 7 in stale.index && DriverIs(stale.db, v, OnTrip) && !Covered(stale, 7)
  {
    StartAgrees(v);
    LateRunBegins(v, rider, other, dto);
    LateRunEnds(Start(v), LateAddRun(rider, other, dto), v, rider);
  }
}
