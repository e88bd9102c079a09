/** What the decision core guarantees for every observation. */
module GreptileTheorems {
  import opened Common
  import opened GreptileModel
  import opened GreptileHistory
  import opened GreptileDecision

  // ---- the history is a function of the records, whatever their order ----

  ghost predicate UniqueRecords(f: Facts) {
    && (forall a, b | a in f.comments && b in f.comments && a.id == b.id :: a == b)
    && (forall a, b | a in f.submissions && b in f.submissions && a.id == b.id :: a == b)
  }

  lemma RunDetermined(id: int, g: set<RunObs>, c: set<Submission>, a: Run, b: Run)
    requires !Contradicts(g, c) && ReducesTo(id, g, c, a) && ReducesTo(id, g, c, b)
    ensures a == b
  {
    StatusDetermined(g, a.status, b.status);
    assert a.reviewedSha == b.reviewedSha;
  }

  lemma StatusDetermined(g: set<RunObs>, s: RunStatus, t: RunStatus)
    requires HasStatus(g, s) && HasStatus(g, t)
    ensures s == t
  {
  }

  lemma Inhabited(b: seq<Run>)
    ensures b == [] || exists r :: r in b
  {
    if b != [] {
      assert b[0] in b;
    }
  }

  lemma TailMember(a: seq<Run>, r: Run)
    requires a != [] && forall j | 0 < j < |a| :: a[0].id != a[j].id
    ensures r in a[1..] <==> r in a && r != a[0]
  {
    if r in a && r != a[0] {
      var i :| 0 <= i < |a| && a[i] == r;
      assert a[1..][i - 1] == r;
    }
    if r in a[1..] {
      var i :| 0 <= i < |a[1..]| && a[1..][i] == r;
      assert a[i + 1] == r;
    }
  }

  lemma {:induction false} SortedRunsDetermined(a: seq<Run>, b: seq<Run>)
    requires forall r :: r in a <==> r in b
    requires forall i, j | 0 <= i < j < |a| :: RunBefore(a[i], a[j]) && a[i].id != a[j].id
    requires forall i, j | 0 <= i < j < |b| :: RunBefore(b[i], b[j]) && b[i].id != b[j].id
    ensures a == b
  {
    if a != [] {
      assert a[0] in b && b != [];
      assert b[0] in a;
      var i :| 0 <= i < |a| && a[i] == b[0];
      var j :| 0 <= j < |b| && b[j] == a[0];
      assert a[0] == b[0];
      forall r ensures r in a[1..] <==> r in b[1..] {
        TailMember(a, r);
        TailMember(b, r);
      }
      SortedRunsDetermined(a[1..], b[1..]);
    } else {
      Inhabited(b);
    }
  }

  lemma RunsDetermined(f: Facts, a: seq<Run>, b: seq<Run>)
    requires BadRuns(f) == {} && AreRuns(f, a) && AreRuns(f, b)
    ensures a == b
  {
    forall r ensures r in a <==> r in b {
      if r in a { SameRun(f, a, b, r); }
      if r in b { SameRun(f, b, a, r); }
    }
    SortedRunsDetermined(a, b);
  }

  lemma SameRun(f: Facts, a: seq<Run>, b: seq<Run>, r: Run)
    requires BadRuns(f) == {} && AreRuns(f, a) && AreRuns(f, b) && r in a
    ensures r in b
  {
    var s :| s in b && s.id == r.id;
    assert r.id !in BadRuns(f);
    RunDetermined(r.id, RunGroup(f, r.id), Correlated(f, r.id), r, s);
  }

  lemma SameOwn(f: Facts, x: JournalEntry, y: JournalEntry)
    requires IsLatest(f, x) && IsLatest(f, y)
    ensures OwnFrom(f, x) == OwnFrom(f, y)
  {
    assert x in Mine(f) && y in Mine(f);
    assert EntryBefore(x, y) && EntryBefore(y, x);
    if !SameReadback(x, y) {
      assert ConflictingReadback(f, x) && ConflictingReadback(f, y);
    } else {
      assert ConflictingReadback(f, x) == ConflictingReadback(f, y);
      forall m: Comment ensures ReservationSpent(f, x, m) == ReservationSpent(f, y, m) {
        assert x.session == y.session && x.observation == y.observation && x.reservation == y.reservation;
      }
      assert HasSpentMarker(f, x) == HasSpentMarker(f, y);
    }
  }

  lemma OwnDetermined(f: Facts, a: Option<Own>, b: Option<Own>)
    requires IsOwn(f, a) && IsOwn(f, b)
    ensures a == b
  {
    if Mine(f) != {} {
      var x :| IsLatest(f, x) && a == Some(OwnFrom(f, x));
      var y :| IsLatest(f, y) && b == Some(OwnFrom(f, y));
      SameOwn(f, x, y);
    }
  }

  lemma ConsumptionDetermined(q: set<Request>, a: Option<Consumption>, b: Option<Consumption>)
    requires IsConsumption(q, a) && IsConsumption(q, b)
    ensures a == b
  {
    if q != {} {
      var pool := if a.value.byComment then Confirmed(q) else q;
      var x :| x in q && x.ref == a.value.request && x.at == a.value.anchor && IsEarliest(pool, x);
      var y :| y in q && y.ref == b.value.request && y.at == b.value.anchor && IsEarliest(pool, y);
      assert RequestBefore(x, y) && RequestBefore(y, x);
      assert x.ref == y.ref;
    }
  }

  /** One set of records derives at most one history. */
  lemma HistoryDetermined(f: Facts, a: History, b: History)
    requires UniqueRecords(f) && IsHistory(f, a) && IsHistory(f, b)
    ensures a == b
  {
    if !Misattributed(f) && BadRuns(f) == {} {
      var ra, oa, qa :| Derives(f, ra, oa, qa, a);
      var rb, ob, qb :| Derives(f, rb, ob, qb, b);
      RunsDetermined(f, ra, rb);
      OwnDetermined(f, oa, ob);
      assert qa == qb;
      if a.Resolved? {
        ConsumptionDetermined(qa, a.consumption, b.consumption);
        if LiveMarkers(f) != {} {
          assert MarkerBefore(a.winner.value, b.winner.value) && MarkerBefore(b.winner.value, a.winner.value);
        }
      }
    }
  }

  // ---- exactly when the trigger may be sent ----

  /** No request, run or recorded consumption exists; every live marker is an unattempted, silent reservation. */
  ghost predicate NothingRequested(f: Facts) {
    && (forall r | r in f.runs :: r.actor !in f.actors && r.reporter != McpReport)
    && (forall s | s in f.submissions :: ProvenUnsent(s))
    && RecordedRefs(f) == {}
    && (forall m | m in LiveMarkers(f) :: m.kind == Reservation && !m.callsBot && !WasAttempted(f, m.id))
    && (forall e | e in f.journal :: !DeletedEntry(f, e))
  }

  /** `m` is this session's confirmed, unattempted reservation for this head, journaled by nobody else. */
  ghost predicate OwnsFresh(f: Facts, m: Comment) {
    && m in LiveMarkers(f) && Trusted(f.account, m) && m.markerSha == f.head
    && (exists e | e in f.journal :: IsLatest(f, e) && e.reservation == m.id && e.readback && !ConflictingReadback(f, e)
                                     && e.headSha == f.head && e.reservationCreatedAt == m.createdAt
                                             && e.phase == ConfirmedUnattempted)
    && (forall e | e in f.journal && e.reservation == m.id :: e.session == f.session && e.observation == f.observation)
  }

  /** Every row above R12 passes the observation on. */
  ghost predicate EarlierRowsPass(o: Observation, h: History)
  {
    var app := BaseApplicability(o, h);
    && Validated(o) && o.bound && o.isOpen && o.isDraft && o.restriction.None?
    && app.App? && app.skip.None? && app.pendingPolicy.None? && app.pendingSkip.None?
    && SecondRunGuard(o, h) == Guard(None, None, false) && RunWaiver(o.answers).None?
    && !FindingsExist(o) && PreTriggerFailure(o).None?
  }

  lemma NoRuns(f: Facts, runs: seq<Run>)
    requires AreRuns(f, runs)
    ensures runs == [] <==> RunIds(f) == {}
  {
    if runs != [] {
      assert runs[0] in runs;
      assert runs[0].id in RunIds(f);
    }
    if RunIds(f) != {} {
      var id := Member(RunIds(f));
      assert exists r | r in runs :: r.id == id;
    }
  }

  lemma NoVerifiedRuns(f: Facts)
    ensures (!Misattributed(f) && RunIds(f) == {}) <==> forall r | r in f.runs :: r.actor !in f.actors && r.reporter != McpReport
  {
    if RunIds(f) == {} {
      forall r | r in f.runs ensures r.actor !in f.actors {
        assert r.actor in f.actors ==> r.runId in RunIds(f);
      }
    } else {
      var id := Member(RunIds(f));
    }
  }

  /** Without a run, requests are absent exactly when nothing was requested and any winner is this session's own. */
  lemma NoRequests(f: Facts, own: Option<Own>, q: set<Request>)
    requires AreRequests(f, own, q)
    requires RecordedRefs(f) == {}
    ensures q == {} ==> forall s | s in f.submissions :: ProvenUnsent(s)
    ensures q == {} ==> forall m | m in LiveMarkers(f) :: m.kind == Reservation && !m.callsBot && !WasAttempted(f, m.id)
    ensures q == {} ==> forall m | IsWinner(f, m) :: FreshWinner(f, own, m)
    ensures q == {} ==> forall e | e in f.journal :: !DeletedEntry(f, e)
  {
    if q == {} {
      forall s | s in f.submissions ensures ProvenUnsent(s) {
        if !ProvenUnsent(s) {
          var at := RequestTime(f, s);
          assert IsRequest(f, own, Request(SubmissionRef(s.id), at, McpRequest));
          assert false;
        }
      }
      forall m | m in LiveMarkers(f)
        ensures m.kind == Reservation && !m.callsBot && !WasAttempted(f, m.id) && (IsWinner(f, m) ==> FreshWinner(f, own, m))
      {
        forall kind | MarkerRequest(f, own, m, kind) ensures false {
          assert IsRequest(f, own, Request(CommentRef(m.id), m.createdAt, kind));
        }
        assert !MarkerRequest(f, own, m, ConfirmedComment) && !MarkerRequest(f, own, m, AmbiguousRequest)
               && !MarkerRequest(f, own, m, ReservationRequest);
      }
      forall e | e in f.journal ensures !DeletedEntry(f, e) {
        if DeletedEntry(f, e) {
          assert e.reservationCreatedAt in DeletedTimes(f, e.reservation);
          var at := Min(DeletedTimes(f, e.reservation));
          assert IsRequest(f, own, Request(CommentRef(e.reservation), at, AmbiguousRequest));
          assert false;
        }
      }
    }
  }

  lemma RequestTime(f: Facts, s: Submission) returns (at: int)
    ensures SubmissionTime(f, s, at)
  {
    if s.reservation.None? {
      at := s.attemptedAt;
    } else if exists m | m in LiveMarkers(f) :: m.id == s.reservation.value {
      var m :| m in LiveMarkers(f) && m.id == s.reservation.value;
      at := m.createdAt;
    } else if IsDeleted(f, s.reservation.value) {
      var e :| e in f.journal && DeletedEntry(f, e) && e.reservation == s.reservation.value;
      assert e.reservationCreatedAt in DeletedTimes(f, s.reservation.value);
      at := Min(DeletedTimes(f, s.reservation.value));
    } else {
      at := s.attemptedAt;
    }
  }

  lemma UniqueFacts(o: Observation)
    requires Validated(o)
    ensures UniqueRecords(FactsOf(o))
  {
    var f := FactsOf(o);
    forall a, b | a in f.comments && b in f.comments && a.id == b.id ensures a == b {
      var i :| 0 <= i < |o.comments.value| && o.comments.value[i] == a;
      var j :| 0 <= j < |o.comments.value| && o.comments.value[j] == b;
      assert i == j;
    }
    forall a, b | a in f.submissions && b in f.submissions && a.id == b.id ensures a == b {
      var i :| 0 <= i < |o.submissions.value| && o.submissions.value[i] == a;
      var j :| 0 <= j < |o.submissions.value| && o.submissions.value[j] == b;
      assert i == j;
    }
  }

  /** A session's fresh own reservation is exactly one that it confirmed, never attempted, and alone journaled. */
  lemma FreshExactly(f: Facts, own: Option<Own>, m: Comment)
    requires UniqueRecords(f) && IsOwn(f, own) && NothingRequested(f) && m in LiveMarkers(f)
    ensures FreshWinner(f, own, m) <==> OwnsFresh(f, m)
  {
    if FreshWinner(f, own, m) {
      var e :| e in f.journal && IsLatest(f, e) && own == Some(OwnFrom(f, e));
      assert !ReservationSpent(f, e, m);
      forall x | x in f.journal && x.reservation == m.id ensures x.session == f.session && x.observation == f.observation {
        assert e in Mine(f);
      }
      assert OwnsFresh(f, m);
    }
    if OwnsFresh(f, m) {
      var e :| e in f.journal && IsLatest(f, e) && e.reservation == m.id && e.readback && !ConflictingReadback(f, e)
               && e.headSha == f.head && e.reservationCreatedAt == m.createdAt && e.phase == ConfirmedUnattempted;
      assert e in Mine(f);
      forall x | x in LiveMarkers(f) && x.id == e.reservation ensures !ReservationSpent(f, e, x) {
        assert x == m;
      }
      assert !HasSpentMarker(f, e);
      assert Mine(f) != {};
      var e2 :| e2 in f.journal && IsLatest(f, e2) && own == Some(OwnFrom(f, e2));
      SameOwn(f, e, e2);
    }
  }

  lemma Quiet(f: Facts, own: Option<Own>, r: Request)
    requires NothingRequested(f)
    requires forall m | IsWinner(f, m) :: FreshWinner(f, own, m)
    ensures !IsRequest(f, own, r)
  {
    forall m | m in LiveMarkers(f) ensures !MarkerRequest(f, own, m, r.kind) {
      assert m.kind == Reservation && !m.callsBot && !WasAttempted(f, m.id);
      assert !UncertainAttempt(f, m.id);
    }
  }

  /** With no history behind it, an observation resolves to an empty one. */
  lemma EmptyHistory(o: Observation, h: History)
    requires HistoryOf(o, h) && HistoriesKnown(o) && NothingRequested(FactsOf(o)) && UniqueRecords(FactsOf(o))
    requires forall m | IsWinner(FactsOf(o), m) :: OwnsFresh(FactsOf(o), m)
    ensures h.Resolved? && h.runs == [] && h.consumption == None
    ensures forall m | IsWinner(FactsOf(o), m) :: h.winner == Some(m) && FreshWinner(FactsOf(o), h.own, m)
    ensures IsOwn(FactsOf(o), h.own)
  {
    var f := FactsOf(o);
    NoVerifiedRuns(f);
    assert BadRuns(f) == {};
    var runs, own, q :| Derives(f, runs, own, q, h);
    NoRuns(f, runs);
    forall m | IsWinner(f, m) ensures FreshWinner(f, own, m) {
      FreshExactly(f, own, m);
    }
    forall r: Request ensures !IsRequest(f, own, r) {
      Quiet(f, own, r);
    }
    assert q == {} by {
      assert forall r :: r !in q;
    }
    assert forall ref :: ref !in RecordedRefs(f);
    assert h.own == own;
    forall m | IsWinner(f, m) ensures h.winner == Some(m) {
      assert MarkerBefore(m, h.winner.value) && MarkerBefore(h.winner.value, m);
    }
  }

  /** What an empty resolved history says about the records. */
  lemma EmptyHistoryMeans(o: Observation, h: History)
    requires HistoryOf(o, h) && h.Resolved? && h.runs == [] && h.consumption == None
    ensures HistoriesKnown(o) && NothingRequested(FactsOf(o)) && IsOwn(FactsOf(o), h.own)
    ensures forall m | IsWinner(FactsOf(o), m) :: FreshWinner(FactsOf(o), h.own, m)
    ensures h.winner == None <==> LiveMarkers(FactsOf(o)) == {}
    ensures h.winner.Some? ==> IsWinner(FactsOf(o), h.winner.value)
  {
    var f := FactsOf(o);
    var runs, own, q :| Derives(f, runs, own, q, h);
    assert q == {};
    NoRuns(f, runs);
    NoVerifiedRuns(f);
    forall ref ensures ref !in RecordedRefs(f) {
      assert ref in RecordedRefs(f) ==> Accounted(runs, q, ref);
    }
    assert RecordedRefs(f) == {};
    NoRequests(f, own, q);
  }

  ghost predicate EmptyResolved(o: Observation, h: History) {
    HistoriesKnown(o) && h.Resolved? && h.runs == [] && h.consumption == None
  }

  predicate Arbitrates(out: Outcome) {
    out.SendTrigger? || out == Hold(R13RecordReservation)
  }

  lemma OnlyArbitrationSends(o: Observation, runs: seq<Run>, seen: int, c: Consumption, basis: Basis, w: Waiver,
          guard: Guard)
    ensures !Arbitrates(Readiness(o, basis, guard)) && !Arbitrates(WaiverPath(o, w, guard))
    ensures !Arbitrates(TerminalRunsRow(o, runs, guard)) && !Arbitrates(RequestRow(o, seen, c, guard))
    ensures runs != [] ==> !Arbitrates(PendingRunRow(o, seen, runs[0]))
  {
  }

  lemma PathSends(o: Observation, h: History, guard: Guard)
    requires HistoriesKnown(o) && h.Resolved?
    ensures Arbitrates(GreptilePath(o, h, guard)) ==>
              && EmptyResolved(o, h) && !LosesRace(h.own, h.winner, ObservedAt(o))
              && !(h.own.Some? && h.own.value.state == Unconfirmed)
              && GreptilePath(o, h, guard) == ArbitrationRow(o, h.own, guard)
    ensures EmptyResolved(o, h) && !LosesRace(h.own, h.winner, ObservedAt(o))
            && !(h.own.Some? && h.own.value.state == Unconfirmed)
            ==> GreptilePath(o, h, guard) == ArbitrationRow(o, h.own, guard)
  {
    var pending := FirstRun(h.runs, Pending);
    if pending.Some? {
      assert h.runs != [];
      OnlyArbitrationSends(o, [pending.value], ObservedAt(o), Consumption(false, RunRef(0), 0, 0),
              CompletedRuns([]), Waiver(E1, 0, Nothing), guard);
    } else if h.runs != [] {
      OnlyArbitrationSends(o, h.runs, ObservedAt(o), Consumption(false, RunRef(0), 0, 0), CompletedRuns([]),
              Waiver(E1, 0, Nothing), guard);
    } else if h.consumption.Some? {
      OnlyArbitrationSends(o, h.runs, ObservedAt(o), h.consumption.value, CompletedRuns([]), Waiver(E1, 0, Nothing),
              guard);
    }
  }

  lemma GuardStops(o: Observation, h: History)
    ensures SecondRunGuard(o, h).stop.Some? ==> SecondRunGuard(o, h).stop.value.Ask?
    ensures EffectiveGuard(o, h, false) == SecondRunGuard(o, h)
  {
  }

  lemma RowsSend(o: Observation, h: History, app: Applicability, guard: Guard)
    requires h.Resolved? ==> HistoriesKnown(o)
    requires guard.stop.Some? ==> guard.stop.value.Ask?
    requires h.Unresolved? ==> h.rule in {R08HistoryUnresolved, R08RunContradiction}
    ensures Arbitrates(Rows(o, h, app, guard)) ==>
              && o.restriction.None? && app.App? && app.skip.None? && app.pendingPolicy.None? && app.pendingSkip.None?
              && guard.stop.None? && guard.e1Waiver.None? && RunWaiver(o.answers).None?
              && h.Resolved? && HistoriesKnown(o) && Rows(o, h, app, guard) == GreptilePath(o, h, guard)
  {
    var some := Consumption(false, RunRef(0), 0, 0);
    if app.App? && app.skip.Some? {
      OnlyArbitrationSends(o, [], 0, some, app.skip.value, Waiver(E1, 0, Nothing), guard);
    } else if guard.e1Waiver.Some? {
      OnlyArbitrationSends(o, [], 0, some, CompletedRuns([]), guard.e1Waiver.value, guard);
    } else if RunWaiver(o.answers).Some? {
      OnlyArbitrationSends(o, [], 0, some, CompletedRuns([]), RunWaiver(o.answers).value, guard);
    }
  }

  lemma EvaluateSends(o: Observation, h: History)
    requires HistoryOf(o, h)
    ensures Arbitrates(Evaluate(o, h, false)) ==>
              && o.restriction.None? && BaseApplicability(o, h).App? && BaseApplicability(o, h).skip.None?
              && BaseApplicability(o, h).pendingPolicy.None? && BaseApplicability(o, h).pendingSkip.None?
              && SecondRunGuard(o, h).stop.None? && SecondRunGuard(o, h).e1Waiver.None? && RunWaiver(o.answers).None?
              && h.Resolved? && HistoriesKnown(o)
              && Evaluate(o, h, false) == GreptilePath(o, h, SecondRunGuard(o, h))
  {
    GuardStops(o, h);
    if h.Unresolved? {
      UnresolvedRules(o, h);
    }
    RowsSend(o, h, BaseApplicability(o, h), EffectiveGuard(o, h, false));
  }

  lemma UnresolvedRules(o: Observation, h: History)
    requires HistoryOf(o, h) && h.Unresolved?
    ensures h.rule in {R08HistoryUnresolved, R08RunContradiction}
  {
  }

  lemma TriggerPath(o: Observation, h: History)
    requires HistoryOf(o, h)
    ensures Arbitrates(DecideWith(o, h)) ==>
              && EarlierRowsPass(o, h) && EmptyResolved(o, h)
              && !LosesRace(h.own, h.winner, ObservedAt(o)) && !(h.own.Some? && h.own.value.state == Unconfirmed)
              && DecideWith(o, h) == ArbitrationRow(o, h.own, Guard(None, None, false))
    ensures EarlierRowsPass(o, h) && EmptyResolved(o, h) && !LosesRace(h.own, h.winner, ObservedAt(o))
            && !(h.own.Some? && h.own.value.state == Unconfirmed)
            ==> DecideWith(o, h) == ArbitrationRow(o, h.own, Guard(None, None, false))
  {
    GuardStops(o, h);
    if Arbitrates(DecideWith(o, h)) {
      assert DecideWith(o, h) == Evaluate(o, h, false);
      EvaluateSends(o, h);
      PathSends(o, h, SecondRunGuard(o, h));
    }
    if EarlierRowsPass(o, h) && EmptyResolved(o, h) {
      PathSends(o, h, SecondRunGuard(o, h));
      EvaluatePasses(o, h);
    }
  }

  lemma EvaluatePasses(o: Observation, h: History)
    requires HistoryOf(o, h) && EarlierRowsPass(o, h) && h.Resolved? && HistoriesKnown(o)
    ensures DecideWith(o, h) == GreptilePath(o, h, SecondRunGuard(o, h))
  {
    GuardStops(o, h);
  }

  /**
   The trigger is sent exactly when every earlier row passes, nothing was ever requested, and the least live marker is
   this session's own fresh reservation; it then names that reservation and this head.
   */
  lemma TriggerExactly(o: Observation, h: History)
    requires HistoryOf(o, h)
    ensures DecideWith(o, h).SendTrigger? <==>
              && EarlierRowsPass(o, h) && HistoriesKnown(o) && NothingRequested(FactsOf(o))
              && exists m :: IsWinner(FactsOf(o), m) && OwnsFresh(FactsOf(o), m)
    ensures DecideWith(o, h).SendTrigger? ==>
              && DecideWith(o, h).requestedHead == o.head
              && exists m :: IsWinner(FactsOf(o), m) && OwnsFresh(FactsOf(o), m) && DecideWith(o, h).reservation == m.id
  {
    var f := FactsOf(o);
    TriggerPath(o, h);
    if DecideWith(o, h).SendTrigger? {
      EmptyHistoryMeans(o, h);
      UniqueFacts(o);
      OwnMarkerLive(f, h.own);
      FreshExactly(f, h.own, h.winner.value);
    }
    if EarlierRowsPass(o, h) && HistoriesKnown(o) && NothingRequested(f)
       && exists m :: IsWinner(f, m) && OwnsFresh(f, m) {
      UniqueFacts(o);
      var m :| IsWinner(f, m) && OwnsFresh(f, m);
      forall x | IsWinner(f, x) ensures OwnsFresh(f, x) {
        assert MarkerBefore(m, x) && MarkerBefore(x, m);
      }
      EmptyHistory(o, h);
    }
  }

  /** The marker a trigger result rests on. */
  lemma TriggerMarker(o: Observation, h: History) returns (m: Comment)
    requires HistoryOf(o, h) && DecideWith(o, h).SendTrigger?
    ensures HistoriesKnown(o) && IsWinner(FactsOf(o), m) && OwnsFresh(FactsOf(o), m)
            && DecideWith(o, h).reservation == m.id
  {
    TriggerExactly(o, h);
    m :| IsWinner(FactsOf(o), m) && OwnsFresh(FactsOf(o), m) && DecideWith(o, h).reservation == m.id;
  }

  /** With one live marker, fresh and own, the trigger names it. */
  lemma OnlyMarkerSends(o: Observation, h: History, m: Comment)
    requires HistoryOf(o, h) && EarlierRowsPass(o, h) && HistoriesKnown(o) && NothingRequested(FactsOf(o))
    requires IsWinner(FactsOf(o), m) && OwnsFresh(FactsOf(o), m) && LiveMarkers(FactsOf(o)) == {m}
    ensures DecideWith(o, h).SendTrigger? && DecideWith(o, h).reservation == m.id
  {
    TriggerExactly(o, h);
    var x := TriggerMarker(o, h);
    assert x in LiveMarkers(FactsOf(o));
  }

  lemma OwnMarkerLive(f: Facts, own: Option<Own>)
    requires IsOwn(f, own) && own.Some? && own.value.state != Unconfirmed
    ensures LiveMarkers(f) != {}
  {
  }

  /** A reservation is asked for exactly when no live marker exists at all and nothing was ever requested. */
  lemma RecordReservationExactly(o: Observation, h: History)
    requires HistoryOf(o, h)
    ensures DecideWith(o, h) == Hold(R13RecordReservation) <==>
              && EarlierRowsPass(o, h) && HistoriesKnown(o) && NothingRequested(FactsOf(o))
              && LiveMarkers(FactsOf(o)) == {} && Mine(FactsOf(o)) == {}
  {
    var f := FactsOf(o);
    TriggerPath(o, h);
    if EarlierRowsPass(o, h) && EmptyResolved(o, h) {
      EmptyHistoryMeans(o, h);
      UniqueFacts(o);
      if LiveMarkers(f) != {} {
        FreshExactly(f, h.own, h.winner.value);
      }
    }
    if NothingRequested(f) && LiveMarkers(f) == {} && HistoriesKnown(o) && Validated(o) {
      UniqueFacts(o);
      EmptyHistory(o, h);
    }
  }

  // ---- the ready transition never starts a second run ----

  /** Nothing in any usable family says that the allowance was consumed. */
  ghost predicate NothingConsumed(o: Observation, h: History) {
    !ConsumptionSeen(o) && (h.Resolved? ==> h.runs == [] && h.markers == {} && h.consumption == None)
  }

  lemma EdgeFacts(o: Observation, h: History)
    requires BaseApplicability(o, h).App?
    ensures o.config.Known?
    ensures E1EdgeOf(o, h).NoEdge? ==>
              DetectReadyTrigger(o.config.value).kind == Excluded || (NothingConsumed(o, h)
                      && BaseApplicability(o, h).skip.Some?)
    ensures E1EdgeOf(o, h).EdgeUnresolved? ==> h.Unresolved? && !ConsumptionSeen(o) && BaseApplicability(o, h).skip.None?
                                               && StandingE1Waiver(o.answers).None?
    ensures E1EdgeOf(o, h).OpenEdge? && E1EdgeOf(o, h).OffersB() ==>
              NothingConsumed(o, h) && DetectReadyTrigger(o.config.value).pushRebaseExcluded
  {
  }

  lemma PausedNeverReady(o: Observation, h: History, basis: Basis, w: Waiver, guard: Guard, runs: seq<Run>,
          c: Consumption, seen: int)
    requires guard.paused
    ensures !Readiness(o, basis, guard).Ready? && !WaiverPath(o, w, guard).Ready?
    ensures !TerminalRunsRow(o, runs, guard).Ready? && !RequestRow(o, seen, c, guard).Ready?
  {
  }

  lemma PausedPathNeverReady(o: Observation, h: History, guard: Guard)
    requires guard.paused && HistoriesKnown(o) && h.Resolved?
    ensures !GreptilePath(o, h, guard).Ready?
  {
    var c := if h.consumption.Some? then h.consumption.value else Consumption(false, RunRef(0), 0, 0);
    PausedNeverReady(o, h, CompletedRuns([]), Waiver(E1, 0, Nothing), guard, h.runs, c, ObservedAt(o));
  }

  lemma WaiverNamesRequest(o: Observation)
    requires RunWaiver(o.answers).Some?
    ensures ConsumptionSeen(o)
  {
    var a := FirstWhere(o.answers, (a: Answer) => RunWaiverCandidate(o.answers, a));
    assert AnswerNamesRequest(o);
  }

  /** A ready result passed the guard, and was reached by a skip, a waiver or the review path. */
  lemma RowsReady(o: Observation, h: History, app: Applicability, guard: Guard)
    requires (h.Resolved? ==> HistoriesKnown(o)) && (guard.stop.Some? ==> guard.stop.value.Ask?)
    requires Rows(o, h, app, guard).Ready?
    ensures app.App? && guard.stop.None? && !guard.paused
    ensures app.skip.None? && guard.e1Waiver.Some? ==> Rows(o, h, app, guard) == WaiverPath(o, guard.e1Waiver.value, guard)
    ensures app.skip.Some? || guard.e1Waiver.Some? || RunWaiver(o.answers).Some? || h.Resolved?
  {
    if guard.paused {
      var basis := if app.App? && app.skip.Some? then app.skip.value else CompletedRuns([]);
      var w := if guard.e1Waiver.Some? then guard.e1Waiver.value
               else if RunWaiver(o.answers).Some? then RunWaiver(o.answers).value
               else Waiver(E1, 0, Nothing);
      PausedNeverReady(o, h, basis, w, guard, [], Consumption(false, RunRef(0), 0, 0), 0);
      if h.Resolved? {
        PausedPathNeverReady(o, h, guard);
      }
      assert false;
    }
  }

  /**
   A draft that is ready-eligible either has settings that start no run, or nothing consumed its allowance and Greptile
   was inapplicable or waived by E1 (b) on an edge that offered it.
   */
  lemma NoSecondRun(o: Observation, h: History)
    requires HistoryOf(o, h) && DecideWith(o, h).Ready?
    ensures o.config.Known?
    ensures || DetectReadyTrigger(o.config.value).kind == Excluded
            || (&& NothingConsumed(o, h)
                && (|| BaseApplicability(o, h).skip.Some?
                    || (&& StandingE1Waiver(o.answers).Some? && OfferedB(StandingE1Waiver(o.answers).value.edge)
                        && DetectReadyTrigger(o.config.value).pushRebaseExcluded
                        && DecideWith(o, h) == Ready(Waived(E1, StandingE1Waiver(o.answers).value.id)))))
  {
    assert DecideWith(o, h) == Evaluate(o, h, false);
    GuardStops(o, h);
    EdgeFacts(o, h);
    RowsReady(o, h, BaseApplicability(o, h), SecondRunGuard(o, h));
    if E1EdgeOf(o, h).EdgeUnresolved? && RunWaiver(o.answers).Some? {
      WaiverNamesRequest(o);
    }
  }

  /** `full` shows what the unavailable histories of `o` would have shown; what is known stays as it is. */
  ghost predicate Completes(o: Observation, full: Observation) {
    && full == o.(comments := full.comments, submissions := full.submissions, journal := full.journal,
                  runs := full.runs)
    && Validated(full) && AllKnown(full)
    && (o.comments.Known? ==> full.comments == o.comments) && (o.submissions.Known? ==> full.submissions == o.submissions)
    && (o.journal.Known? ==> full.journal == o.journal) && (o.runs.Known? ==> full.runs == o.runs)
  }

  predicate AllKnown(o: Observation) {
    HistoriesKnown(o) && o.journal.Known?
  }

  function Filled<T>(e: Evidence<seq<T>>, x: T): Evidence<seq<T>> {
    if e.Known? then e else Known(0, [x])
  }

  /** A completion in which every unavailable history shows a request or a run. */
  ghost function Worst(o: Observation, actor: int): Observation {
    o.(comments := Filled(o.comments, Comment(0, Trigger, 0, o.account, None, 0, false)),
       submissions := Filled(o.submissions, Submission(0, None, 0, None, 0, Accepted, false, None)),
       journal := Filled(o.journal, JournalEntry(0, 0, 0, 0, 0, true, UnknownPhase, None, 0)),
       runs := Filled(o.runs, RunObs(0, McpReport, actor, Automatic, Queued, None, None, None, NoProof, None, 0)))
  }

  lemma WorstCompletes(o: Observation, actor: int)
    requires Validated(o)
    ensures Completes(o, Worst(o, actor))
  {
  }

  lemma WorstConsumes(o: Observation, actor: int)
    requires !AllKnown(o)
    ensures ConsumptionSeen(Worst(o, actor))
  {
    var full := Worst(o, actor);
    if o.comments.Unavailable? {
      assert full.comments.value[0] in Items(full.comments);
      assert MarkerPosted(full);
    } else if o.submissions.Unavailable? {
      assert full.submissions.value[0] in Items(full.submissions);
      assert RequestSubmitted(full);
    } else if o.runs.Unavailable? {
      assert full.runs.value[0] in Items(full.runs);
      assert RunReported(full);
    } else {
      var j := full.journal.value[0];
      assert j in Items(full.journal) && JournalConsumes(FactsOf(full), j);
      assert !Released(FactsOf(full), j.reservation);
      assert AttemptRecorded(full);
    }
  }

  lemma NothingHidden(o: Observation)
    requires Validated(o) && !ConsumptionSeen(o)
    ensures (forall full | Completes(o, full) :: !ConsumptionSeen(full)) <==> AllKnown(o)
  {
    if AllKnown(o) {
      assert forall full | Completes(o, full) :: full == o;
    } else {
      var actor := Member(o.actors);
      WorstCompletes(o, actor);
      WorstConsumes(o, actor);
    }
  }

  /**
   A draft that is ready although its settings may start a run has an unconsumed allowance, whatever the unavailable
   histories would show, exactly when comments, submissions, journal and runs were all available.
   */
  lemma ReadyIsSafeExactly(o: Observation, h: History)
    requires Validated(o) && HistoryOf(o, h) && DecideWith(o, h).Ready?
    requires o.config.Known? && DetectReadyTrigger(o.config.value).kind != Excluded
    ensures (forall full | Completes(o, full) :: !ConsumptionSeen(full)) <==> AllKnown(o)
  {
    NoSecondRun(o, h);
    NothingHidden(o);
  }

  lemma QuietGuard(o: Observation, h: History)
    requires BaseApplicability(o, h).App? && BaseApplicability(o, h).skip.None?
    requires SecondRunGuard(o, h) == Guard(None, None, false) && h.Resolved? && h.markers != {}
    ensures o.config.Known? && DetectReadyTrigger(o.config.value).kind == Excluded
  {
    EdgeFacts(o, h);
  }

  lemma WinnerMakesMarkers(o: Observation, h: History, m: Comment)
    requires HistoryOf(o, h) && h.Resolved? && IsWinner(FactsOf(o), m)
    ensures h.markers != {}
  {
    assert m in h.markers;
  }

  /** A trigger is only ever sent while the settings would start no automatic run beside it. */
  lemma TriggerNeedsQuietSettings(o: Observation, h: History)
    requires HistoryOf(o, h) && DecideWith(o, h).SendTrigger?
    ensures o.config.Known? && DetectReadyTrigger(o.config.value).kind == Excluded
  {
    TriggerPath(o, h);
    TriggerExactly(o, h);
    var m :| IsWinner(FactsOf(o), m) && OwnsFresh(FactsOf(o), m);
    WinnerMakesMarkers(o, h, m);
    QuietGuard(o, h);
  }

  /** An excluded ready transition, once tips decide it, means that neither tip declares any event at all. */
  lemma ExcludedMeansNoEvents(c: ConfigFacts)
    requires c.verified.None?
    ensures DetectReadyTrigger(c).kind == Excluded <==> TipTriggerOf(c.base) == EventList({}) && TipTriggerOf(c.head) == EventList({})
  {
    OpenIsImplied(c.base);
    OpenIsImplied(c.head);
  }

  lemma OpenIsImplied(t: Tip)
    ensures TipTriggerOf(t).EventList? && Open !in TipTriggerOf(t).events ==> TipTriggerOf(t).events == {}
  {
    if t.file.Parsed? && DeclaredLists(t.file.keys).Some? {
      var lists := DeclaredLists(t.file.keys).value;
      forall i | 0 <= i < |lists| && Open !in lists[i] ensures lists[i] == {} {
        assert lists[i] == {} || lists[i] == {Open} || lists[i] == {Open, Push, Rebase} || exists s :: lists[i] == NormalizeEvents(s);
        if exists s :: lists[i] == NormalizeEvents(s) {
          var s :| lists[i] == NormalizeEvents(s);
          NormalizedWithoutOpen(s);
        }
      }
    }
  }

  lemma NormalizedWithoutOpen(s: set<Event>)
    requires Open !in NormalizeEvents(s)
    ensures NormalizeEvents(s) == {}
  {
    forall e: Event ensures e !in NormalizeEvents(s) {
      match e
      case Open =>
      case Push => assert Push in NormalizeEvents(s) ==> Open in NormalizeEvents(s);
      case Rebase => assert Rebase in NormalizeEvents(s) ==> Open in NormalizeEvents(s);
    }
  }

  // ---- order independence ----

  /** The same observation with its comment, submission, journal and run lists in any other order. */
  ghost predicate Reordered(a: Observation, b: Observation) {
    && b == a.(comments := b.comments, submissions := b.submissions, journal := b.journal, runs := b.runs)
    && Permuted(a.comments, b.comments) && Permuted(a.submissions, b.submissions)
    && Permuted(a.journal, b.journal) && Permuted(a.runs, b.runs)
  }

  ghost predicate Permuted<T>(a: Evidence<seq<T>>, b: Evidence<seq<T>>) {
    && a.Known? == b.Known?
    && (a.Known? ==> a.collectedAt == b.collectedAt && multiset(a.value) == multiset(b.value))
  }

  lemma PermutedItems<T>(a: Evidence<seq<T>>, b: Evidence<seq<T>>)
    requires Permuted(a, b)
    ensures Items(a) == Items(b)
  {
    if a.Known? {
      PermutedElems(a.value, b.value);
    }
  }

  lemma ReorderedFacts(a: Observation, b: Observation)
    requires Reordered(a, b)
    ensures FactsOf(a) == FactsOf(b) && NamedRefs(a) == NamedRefs(b)
    ensures Items(a.comments) == Items(b.comments) && Items(a.submissions) == Items(b.submissions)
    ensures Items(a.journal) == Items(b.journal) && Items(a.runs) == Items(b.runs)
  {
    PermutedItems(a.comments, b.comments);
    PermutedItems(a.submissions, b.submissions);
    PermutedItems(a.journal, b.journal);
    PermutedItems(a.runs, b.runs);
  }

  lemma ReorderedValidated(a: Observation, b: Observation)
    requires Reordered(a, b) && Validated(a)
    ensures Validated(b)
  {
    if a.comments.Known? {
      UniqueAfterReorder(a.comments.value, b.comments.value, (c: Comment) => c.id);
    }
    if a.submissions.Known? {
      UniqueAfterReorder(a.submissions.value, b.submissions.value, (x: Submission) => x.id);
    }
  }

  lemma SameSeen(a: Observation, b: Observation)
    requires Reordered(a, b)
    ensures ConsumptionSeen(a) == ConsumptionSeen(b)
  {
    ReorderedFacts(a, b);
    assert RunReported(a) == RunReported(b);
    assert RequestSubmitted(a) == RequestSubmitted(b);
    assert MarkerPosted(a) == MarkerPosted(b);
    assert AttemptRecorded(a) == AttemptRecorded(b);
  }

  lemma SameBeforeSkip(a: Observation, b: Observation, h: History)
    requires Reordered(a, b)
    ensures ConsumedBeforeSkip(a, h) == ConsumedBeforeSkip(b, h)
  {
    SameSeen(a, b);
    ReorderedFacts(a, b);
  }

  lemma SameApplicability(a: Observation, b: Observation, h: History)
    requires Reordered(a, b)
    ensures BaseApplicability(a, h) == BaseApplicability(b, h)
  {
    SameBeforeSkip(a, b, h);
  }

  lemma SameConsumption(a: Observation, b: Observation, h: History)
    requires Reordered(a, b)
    ensures ConsumptionSeen(a) == ConsumptionSeen(b)
    ensures forall x :: ConsumptionOf(a, h, x) == ConsumptionOf(b, h, x)
    ensures BaseApplicability(a, h) == BaseApplicability(b, h)
  {
    SameSeen(a, b);
    SameApplicability(a, b, h);
    ReorderedFacts(a, b);
  }

  lemma SamePath(a: Observation, b: Observation, h: History, guard: Guard)
    requires Reordered(a, b) && HistoriesKnown(a) && h.Resolved?
    ensures HistoriesKnown(b) && GreptilePath(a, h, guard) == GreptilePath(b, h, guard)
  {
    assert ObservedAt(a) == ObservedAt(b);
  }

  lemma SameGuard(a: Observation, b: Observation, h: History, readOnly: bool)
    requires Reordered(a, b)
    ensures EffectiveGuard(a, h, readOnly) == EffectiveGuard(b, h, readOnly)
  {
    SameConsumption(a, b, h);
    assert E1EdgeOf(a, h) == E1EdgeOf(b, h);
    assert SecondRunGuard(a, h) == SecondRunGuard(b, h);
  }

  lemma SameGates(a: Observation, b: Observation, basis: Basis, w: Waiver, guard: Guard)
    requires Reordered(a, b)
    ensures Readiness(a, basis, guard) == Readiness(b, basis, guard)
    ensures WaiverPath(a, w, guard) == WaiverPath(b, w, guard)
  {
  }

  lemma SameRows(a: Observation, b: Observation, h: History, app: Applicability, guard: Guard)
    requires Reordered(a, b) && (h.Resolved? ==> HistoriesKnown(a) && HistoriesKnown(b))
    ensures Rows(a, h, app, guard) == Rows(b, h, app, guard)
  {
    if app.App? && app.skip.Some? {
      SameGates(a, b, app.skip.value, Waiver(E1, 0, Nothing), guard);
    } else if guard.e1Waiver.Some? {
      SameGates(a, b, CompletedRuns([]), guard.e1Waiver.value, guard);
    } else if RunWaiver(a.answers).Some? {
      SameGates(a, b, CompletedRuns([]), RunWaiver(a.answers).value, guard);
    } else if h.Resolved? {
      SamePath(a, b, h, guard);
    }
  }

  lemma SameEvaluation(a: Observation, b: Observation, h: History, readOnly: bool)
    requires Reordered(a, b) && HistoryOf(a, h) && HistoryOf(b, h)
    ensures Evaluate(a, h, readOnly) == Evaluate(b, h, readOnly)
  {
    SameApplicability(a, b, h);
    SameGuard(a, b, h, readOnly);
    SameRows(a, b, h, BaseApplicability(a, h), EffectiveGuard(a, h, readOnly));
  }

  /** No reordering of comments, submissions, journal or runs changes the derived history or the decision. */
  lemma OrderIndependent(a: Observation, b: Observation, ha: History, hb: History)
    requires Reordered(a, b) && HistoryOf(a, ha) && HistoryOf(b, hb)
    ensures Validated(a) ==> ha == hb
    ensures DecideWith(a, ha) == DecideWith(b, hb)
  {
    ReorderedFacts(a, b);
    if Validated(a) {
      ReorderedValidated(a, b);
      UniqueFacts(a);
      if HistoriesKnown(a) {
        HistoryDetermined(FactsOf(a), ha, hb);
      }
      SameEvaluation(a, b, ha, false);
      SameEvaluation(a, b, ha, true);
    } else if Validated(b) {
      ReorderedValidated(b, a);
    }
  }
}
