/** Concrete runs: the safety theorem is not vacuous, and its reading of "nothing consumed" stops at visible evidence. */
module GreptileWitnesses {
  import opened Common
  import opened GreptileModel
  import opened GreptileHistory
  import opened GreptileDecision
  import opened GreptileTheorems
  import opened GreptileProtocol

  const ACCOUNT := 7
  const MARKED := Tip(true, Absent(false))
  const QUIET := ConfigFacts(true, Some(VerifiedSettings(Some([]), None)), MARKED, MARKED)
  const STARTS_ON_OPEN := ConfigFacts(true, Some(VerifiedSettings(Some([Open]), None)), MARKED, MARKED)

  const POSTED := Posted(1, Reservation, ACCOUNT, 100, 1)
  const MARKER := Comment(1, Reservation, 5, ACCOUNT, Some([]), 100, false)
  const ENTRY := JournalEntry(1, 100, 1, 9, 5, true, ConfirmedUnattempted, None, 110)
  const ATTEMPT := ENTRY.(phase := Attempted, transport := Some(Mcp), recordedAt := 210)

  const OBSERVED := Observation(ACCOUNT, 1, 9, true, {3}, true, true, 5, true,
                                Known(200, [MARKER]), Known(200, []), Known(200, [ENTRY]), Known(200, []),
                                Known(200, DiffFacts([], Mixed)), Known(200, QUIET), Known(200, LocalGates([], {})),
                                true, map[], [], {}, None, None, None)
  const DERIVED := Resolved([], {MARKER}, Some(Own(Fresh, 1)), Some(MARKER), None)

  lemma ObservedRecords()
    ensures var f := FactsOf(OBSERVED);
            && f.comments == {MARKER} && f.submissions == {} && f.journal == {ENTRY} && f.runs == {} && f.named == {}
            && (forall id :: !Released(f, id)) && LiveMarkers(f) == {MARKER} && RecordedRefs(f) == {}
            && Mine(f) == {ENTRY} && (forall id :: !WasAttempted(f, id)) && (forall e :: !DeletedEntry(f, e))
  {
    var f := FactsOf(OBSERVED);
    assert f.comments == {MARKER};
    assert forall e :: e in [ENTRY] <==> e == ENTRY;
    assert f.journal == {ENTRY};
    assert f.named == {};
    assert Visible(f, 1);
  }

  lemma ObservedOwn()
    ensures IsLatest(FactsOf(OBSERVED), ENTRY) && OwnsFresh(FactsOf(OBSERVED), MARKER)
    ensures IsWinner(FactsOf(OBSERVED), MARKER) && NothingRequested(FactsOf(OBSERVED))
    ensures IsOwn(FactsOf(OBSERVED), Some(Own(Fresh, 1)))
  {
    var f := FactsOf(OBSERVED);
    ObservedRecords();
    assert ENTRY in f.journal && IsLatest(f, ENTRY) && !ConflictingReadback(f, ENTRY);
    assert Trusted(f.account, MARKER);
    assert OwnsFresh(f, MARKER);
    assert !ReservationSpent(f, ENTRY, MARKER);
    assert HasTrustedMarker(f, 1);
    assert OwnFrom(f, ENTRY) == Own(Fresh, 1);
  }

  lemma ObservedHistory()
    ensures HistoryOf(OBSERVED, DERIVED)
  {
    var f := FactsOf(OBSERVED);
    ObservedRecords();
    ObservedOwn();
    var own := Some(Own(Fresh, 1));
    forall m | IsWinner(f, m) ensures FreshWinner(f, own, m) {
      assert m in LiveMarkers(f);
    }
    forall r: Request ensures !IsRequest(f, own, r) {
      Quiet(f, own, r);
    }
    assert RunIds(f) == {} && BadRuns(f) == {};
    assert AreRuns(f, []);
    assert Derives(f, [], own, {}, DERIVED);
  }

  lemma ObservedRowsPass()
    ensures EarlierRowsPass(OBSERVED, DERIVED)
  {
    ObservedRecords();
    assert MARKER in Items(OBSERVED.comments);
    assert ConsumptionSeen(OBSERVED);
    assert NormalizeEvents(Elems([])) == {};
  }

  lemma ObservedTriggers()
    ensures HistoryOf(OBSERVED, DERIVED) && DecideWith(OBSERVED, DERIVED).SendTrigger?
            && DecideWith(OBSERVED, DERIVED).reservation == 1
  {
    ObservedHistory();
    ObservedRowsPass();
    ObservedOwn();
    ObservedRecords();
    OnlyMarkerSends(OBSERVED, DERIVED, MARKER);
  }

  lemma RunPrefix(account: int, steps: seq<Step>, step: Step)
    requires ValidRun(account, steps) && Enabled(Final(steps), account, step)
    ensures ValidRun(account, steps + [step]) && Final(steps + [step]) == Apply(Final(steps), step)
  {
    assert (steps + [step])[..|steps|] == steps;
  }

  lemma RunFrom(account: int, steps: seq<Step>, w: World, step: Step, next: World)
    requires ValidRun(account, steps) && Final(steps) == w && Enabled(w, account, step) && Apply(w, step) == next
    ensures ValidRun(account, steps + [step]) && Final(steps + [step]) == next
  {
    RunPrefix(account, steps, step);
  }

  lemma GrantedSends(steps: seq<Step>, p: Posted, e: JournalEntry, attempt: JournalEntry, right: Right)
    requires ValidRun(ACCOUNT, steps) && Final(steps) == World([p], [e], {}, {right}, {}, [])
    requires attempt.reservation == right.reservation && attempt.session == right.session
             && attempt.observation == right.observation && attempt.phase == Attempted
    ensures exists steps :: ValidRun(ACCOUNT, steps) && |Final(steps).sent| == 1
  {
    var w3 := World([p], [e], {}, {right}, {}, []);
    var w4 := World([p], [e, attempt], {}, {right}, {right}, []);
    assert w4 == Apply(w3, Attempt(right, attempt));
    RunFrom(ACCOUNT, steps, w3, Attempt(right, attempt), w4);
    var attempted := steps + [Attempt(right, attempt)];
    RunFrom(ACCOUNT, attempted, w4, Send(right, None), Apply(w4, Send(right, None)));
    assert |Final(attempted + [Send(right, None)]).sent| == 1;
  }

  lemma RunSends(p: Posted, e: JournalEntry, decide: Step, attempt: JournalEntry, right: Right)
    requires e.reservation == p.id && e.session == p.session && decide.Decide?
    requires Enabled(World([p], [e], {}, {}, {}, []), ACCOUNT, decide)
    requires Apply(World([p], [e], {}, {}, {}, []), decide) == World([p], [e], {}, {right}, {}, [])
    requires attempt.reservation == right.reservation && attempt.session == right.session
             && attempt.observation == right.observation && attempt.phase == Attempted
    ensures exists steps :: ValidRun(ACCOUNT, steps) && |Final(steps).sent| == 1
  {
    var posted := RunPosts(p, e);
    RunFrom(ACCOUNT, posted, World([p], [e], {}, {}, {}, []), decide, World([p], [e], {}, {right}, {}, []));
    GrantedSends(posted + [decide], p, e, attempt, right);
  }

  lemma RunPosts(p: Posted, e: JournalEntry) returns (steps: seq<Step>)
    requires e.reservation == p.id && e.session == p.session
    ensures ValidRun(ACCOUNT, steps) && Final(steps) == World([p], [e], {}, {}, {}, [])
  {
    var w1 := World([p], [], {}, {}, {}, []);
    assert p in w1.posts;
    assert w1 == Apply(INITIAL, Post(p));
    RunPrefix(ACCOUNT, [], Post(p));
    RunPrefix(ACCOUNT, [] + [Post(p)], Journal(e));
    steps := [] + [Post(p)] + [Journal(e)];
  }

  /** The protocol does send: some run ends with exactly one trigger. */
  lemma OneTriggerIsSent()
    ensures exists steps :: ValidRun(ACCOUNT, steps) && |Final(steps).sent| == 1
  {
    ObservedTriggers();
    var w := World([POSTED], [ENTRY], {}, {}, {}, []);
    assert w.posts[..1] == [POSTED] && w.journal[..1] == [ENTRY];
    assert Reads(POSTED, MARKER) && MARKER in [MARKER] && POSTED in [POSTED];
    assert Snapshot([POSTED], [MARKER]);
    assert Observes(w, ACCOUNT, OBSERVED, 1, 1);
    RunSends(POSTED, ENTRY, Decide(OBSERVED, DERIVED, 1, 1, 1), ATTEMPT, Right(1, 9, 1));
  }

  // ---- consumption outside the evidence ----

  const WAIVED := Answer(1, true, E1, B, E1Edge(WillStart, false, true, VerifiedFact(Some({Open}))), 50, None, None,
          None, None, true, None)

  /** A draft with a standing E1 (b) waiver whose request and run histories are not available. */
  const UNSEEN := Observation(ACCOUNT, 1, 9, true, {3}, true, true, 5, true,
                              Unavailable, Unavailable, Unavailable, Unavailable,
                              Known(200, DiffFacts([], Mixed)), Known(200, STARTS_ON_OPEN),
                                      Known(200, LocalGates([], {})),
                              true, map[], [WAIVED], {}, None, None, None)
  const VERIFIED_RUN := RunObs(4, McpReport, 3, Manual, Running, None, None, None, NoProof, Some(120), 130)
  const SEEN := UNSEEN.(runs := Known(200, [VERIFIED_RUN]))

  lemma WaiverStands()
    ensures StandingE1Waiver([WAIVED]) == Some(WAIVED) && LatestE1Choice([WAIVED]) == Some(WAIVED)
            && LatestE1Pause([WAIVED]).None?
    ensures DetectReadyTrigger(STARTS_ON_OPEN) == Detection(WillStart, true, VerifiedFact(Some({Open})))
  {
    assert [WAIVED][0] == WAIVED;
    assert Elems([Open]) == {Open};
    assert NormalizeEvents({Open}) == {Open};
  }

  /**
   "Nothing consumed" is what the known families show. With the histories missing, a standing waiver makes this draft
   ready although its settings will start a run; the same draft is not ready once the run history shows its run.
   */
  lemma ReadyReliesOnVisibleEvidence()
    ensures HistoryOf(UNSEEN, Unresolved(R08HistoryUnresolved))
            && DecideWith(UNSEEN, Unresolved(R08HistoryUnresolved)).Ready?
    ensures HistoryOf(SEEN, Unresolved(R08HistoryUnresolved))
            && !DecideWith(SEEN, Unresolved(R08HistoryUnresolved)).Ready?
    ensures DetectReadyTrigger(STARTS_ON_OPEN).kind == WillStart && Validated(UNSEEN) && !AllKnown(UNSEEN)
  {
    WaiverStands();
    var h := Unresolved(R08HistoryUnresolved);
    assert NamedRefs(UNSEEN) == {};
    assert RecordedRefs(FactsOf(UNSEEN)) == {};
    assert forall a | a in [WAIVED] :: a == WAIVED;
    assert !ConsumptionSeen(UNSEEN);
    assert BaseApplicability(UNSEEN, h) == App(None, None, None);
    assert E1EdgeOf(UNSEEN, h).OffersB();
    assert VERIFIED_RUN in Items(SEEN.runs) && RunReported(SEEN);
    if DecideWith(SEEN, h).Ready? {
      NoSecondRun(SEEN, h);
      assert false;
    }
  }
}
