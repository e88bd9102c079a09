/** The rows R01-R14 as branching expressions over an observation and its derived history. */
module GreptileDecision {
  import opened Common
  import opened GreptileModel
  import opened GreptileHistory

  // ---- inputs ----

  predicate UniqueIds(o: Observation) {
    && (o.comments.Known? ==> forall i, j | 0 <= i < j < |o.comments.value| :: o.comments.value[i].id != o.comments.value[j].id)
    && (o.submissions.Known? ==>
          forall i, j | 0 <= i < j < |o.submissions.value| :: o.submissions.value[i].id != o.submissions.value[j].id)
  }

  /** The identity checks of the input contract that the decision relies on. */
  predicate Validated(o: Observation) {
    UniqueIds(o) && o.account !in o.actors && o.actors != {}
  }

  /** Requests and runs that receipts or recorded answers name. */
  function NamedRefs(o: Observation): set<Ref> {
    o.receiptRefs
    + (set a | a in o.answers && a.runId.Some? :: RunRef(a.runId.value))
    + (set a | a in o.answers && a.request.Some? :: a.request.value)
    + (set a | a in o.answers && a.grant.Some? :: RunRef(a.grant.value.run))
    + (set a | a in o.answers && a.grant.Some?
            && a.grant.value.submission.Some? :: SubmissionRef(a.grant.value.submission.value))
  }

  function FactsOf(o: Observation): Facts {
    Facts(o.account, o.session, o.id, o.head, o.actors, Items(o.comments), Items(o.submissions), Items(o.journal),
          Items(o.runs), NamedRefs(o))
  }

  predicate HistoriesKnown(o: Observation) {
    o.comments.Known? && o.submissions.Known? && o.runs.Known?
  }

  /** Earliest collection time of the three histories: what the timers have observed. */
  function ObservedAt(o: Observation): int
    requires HistoriesKnown(o)
  {
    var a := if o.comments.collectedAt <= o.submissions.collectedAt then o.comments.collectedAt else o.submissions.collectedAt;
    if a <= o.runs.collectedAt then a else o.runs.collectedAt
  }

  /** `h` is the history that this observation derives. */
  ghost predicate HistoryOf(o: Observation, h: History) {
    if HistoriesKnown(o) then IsHistory(FactsOf(o), h) else h == Unresolved(R08HistoryUnresolved)
  }

  // ---- recorded answers ----

  function LastWhere(s: seq<Answer>, p: Answer -> bool): (r: Option<Answer>)
    ensures r.Some? ==> r.value in s && p(r.value)
    ensures r.None? ==> forall a | a in s :: !p(a)
  {
    if s == [] then None
    else if p(s[|s| - 1]) then Some(s[|s| - 1])
    else
      assert s == s[..|s| - 1] + [s[|s| - 1]];
      LastWhere(s[..|s| - 1], p)
  }

  function FirstWhere(s: seq<Answer>, p: Answer -> bool): (r: Option<Answer>)
    ensures r.Some? ==> r.value in s && p(r.value)
    ensures r.None? ==> forall a | a in s :: !p(a)
  {
    if s == [] then None
    else if p(s[0]) then Some(s[0])
    else
      assert s == [s[0]] + s[1..];
      FirstWhere(s[1..], p)
  }

  function LatestDecision(answers: seq<Answer>, q: Question, key: EdgeKey): Option<Answer> {
    LastWhere(answers, (a: Answer) => a.trusted && a.question == q && a.edge == key)
  }

  function LatestE1Choice(answers: seq<Answer>): Option<Answer> {
    LastWhere(answers, (a: Answer) => a.trusted && a.question == E1 && a.option != C)
  }

  function LatestE1Pause(answers: seq<Answer>): Option<Answer> {
    LastWhere(answers, (a: Answer) => a.trusted && a.question == E1 && a.option == A)
  }

  /** An E1 edge on which (b) was offered: nothing consumed, and push and rebase excluded. */
  predicate OfferedB(k: EdgeKey) {
    k.E1Edge? && k.kind != Excluded && !k.consumed && k.offersB
  }

  function StandingE1Waiver(answers: seq<Answer>): Option<Answer> {
    LastWhere(answers, (a: Answer) => a.trusted && a.question == E1 && a.option == B && OfferedB(a.edge))
  }

  predicate RunWaiverCandidate(answers: seq<Answer>, a: Answer) {
    && ((a.question == E2 && a.option == A) || (a.question == E6 && a.option == B) || (a.question == E7
            && a.option == A))
    && a.trusted && a.runId.Some? && a.grant.Some? && a.grant.value.valid
    && LatestDecision(answers, a.question, a.edge) == Some(a)
  }

  datatype Missing = FullReview | Triage | Nothing
  datatype Waiver = Waiver(question: Question, decision: int, missing: Missing)

  function MissingOf(a: Answer): Missing {
    if a.question == E7 && !(a.grant.Some? && a.grant.value.fullReview) then FullReview
    else if !a.triaged then Triage
    else Nothing
  }

  function RunWaiver(answers: seq<Answer>): Option<Waiver> {
    var met := FirstWhere(answers, (a: Answer) => RunWaiverCandidate(answers, a) && MissingOf(a) == Nothing);
    var any := FirstWhere(answers, (a: Answer) => RunWaiverCandidate(answers, a));
    if met.Some? then Some(Waiver(met.value.question, met.value.id, Nothing))
    else if any.Some? then Some(Waiver(any.value.question, any.value.id, MissingOf(any.value)))
    else None
  }

  // ---- ready-transition detection ----

  function NormalizeEvents(s: set<Event>): set<Event> {
    var withPush := if Rebase in s then s + {Push} else s;
    if Push in withPush then withPush + {Open} else withPush
  }

  function DeclaredLists(k: ConfigObject): Option<seq<set<Event>>> {
    if k.autoReview.Some? && k.autoReview.value.None? then None
    else if k.triggerOnUpdates.Some? && k.triggerOnUpdates.value.None? then None
    else if k.skipReview == Some(false) then None
    else
      Some((if k.autoReview.Some? then [NormalizeEvents(Elems(k.autoReview.value.value))] else [])
           + (if k.triggerOnUpdates.Some? then [if k.triggerOnUpdates.value.value then {Open, Push,
                   Rebase} else {Open}] else [])
           + (if k.skipReview.Some? then [{}] else []))
  }

  function TipTriggerOf(t: Tip): TipTrigger {
    match t.file
    case Absent(dottedOnly) => Unverified(if dottedOnly then DottedOnly else Missing)
    case Unreadable => Unverified(UnreadableFile)
    case Parsed(keys) =>
      var lists := DeclaredLists(keys);
      if lists.None? then Unverified(Invalid)
      else if lists.value == [] then EventList({Open})
      else if exists i | 0 <= i < |lists.value| :: lists.value[i] != lists.value[0] then Unverified(Conflicting)
      else EventList(lists.value[0])
  }

  function DetectReadyTrigger(c: ConfigFacts): Detection {
    if c.verified.Some? then
      var v := c.verified.value;
      if v.exclusion.Some? then Detection(Excluded, true, ExcludedFact)
      else if v.autoReview.None? then Detection(CannotRuleOut, false, VerifiedFact(None))
      else
        var events := NormalizeEvents(Elems(v.autoReview.value));
        Detection(if Open in events then WillStart else Excluded, Push !in events, VerifiedFact(Some(events)))
    else
      var base := TipTriggerOf(c.base);
      var head := TipTriggerOf(c.head);
      if base.EventList? && head.EventList? then
        var safe := Push !in base.events && Push !in head.events;
        Detection(if Open !in base.events && Open !in head.events then Excluded
                  else if Open in base.events && Open in head.events then WillStart
                  else CannotRuleOut, safe, TipFacts(base, head))
      else Detection(CannotRuleOut, false, TipFacts(base, head))
  }

  // ---- consumption of the allowance ----

  ghost predicate RunReported(o: Observation) {
    exists r | r in Items(o.runs) :: r.actor in o.actors || r.reporter == McpReport
  }

  ghost predicate RequestSubmitted(o: Observation) {
    exists s | s in Items(o.submissions) :: !ProvenUnsent(s)
  }

  ghost predicate MarkerPosted(o: Observation) {
    exists c | c in Items(o.comments) :: c.author == o.account && (c.kind == Trigger || !Released(FactsOf(o), c.id))
  }

  ghost predicate AttemptRecorded(o: Observation) {
    exists j | j in Items(o.journal) :: (j.readback || j.phase != ConfirmedUnattempted) && !Released(FactsOf(o), j.reservation)
  }

  ghost predicate AnswerNamesRequest(o: Observation) {
    exists a | a in o.answers :: a.runId.Some? || a.request.Some?
  }

  predicate FindingsExist(o: Observation) {
    o.localGates.Known? && o.localGates.value.findings != []
  }

  /** Positive evidence, in any family that is known, that the PR's one review was requested or ran. */
  ghost predicate ConsumptionSeen(o: Observation) {
    || RunReported(o) || RecordedRefs(FactsOf(o)) != {} || FindingsExist(o) || RequestSubmitted(o)
    || MarkerPosted(o) || AttemptRecorded(o) || AnswerNamesRequest(o)
  }

  ghost function ConsumptionOf(o: Observation, h: History, applicable: bool): Tri {
    if ConsumptionSeen(o) then Yes
    else if h.Resolved? then if h.runs != [] || h.markers != {} || h.consumption.Some? then Yes else No
    else if !applicable || StandingE1Waiver(o.answers).Some? then No
    else Unclear
  }

  ghost function ConsumedBeforeSkip(o: Observation, h: History): Tri {
    if h.Unresolved? then ConsumptionOf(o, h, true)
    else if h.runs != [] || h.consumption.Some? || RecordedRefs(FactsOf(o)) != {} || AnswerNamesRequest(o) || FindingsExist(o) then Yes
    else No
  }

  // ---- R05: applicability ----

  datatype Applicability =
    | AppUnresolved
    | App(skip: Option<Basis>, pendingPolicy: Option<EdgeKey>, pendingSkip: Option<EdgeKey>)

  function SkipKey(c: ConfigFacts): Option<(EdgeKey, SkipReason)> {
    if !c.installed then Some((SkipEdge(None), AppNotInstalled))
    else if c.verified.Some? && c.verified.value.exclusion.Some? then Some((SkipEdge(c.verified.value.exclusion),
            ExcludedBySettings))
    else None
  }

  /** The part of applicability that no history can change. */
  function MarkerApplicability(o: Observation, d: DiffFacts, c: ConfigFacts): Applicability {
    if d.policyPaths != [] then
      var answer := LatestDecision(o.answers, PolicyChange, PolicyEdge(d.policyPaths));
      if answer.None? then App(None, Some(PolicyEdge(d.policyPaths)), None)
      else App(if answer.value.option == B then Some(Skipped(UserPolicyDecision)) else None, None, None)
    else if !c.base.hasMarker && !c.head.hasMarker then App(Some(Skipped(NoRootConfiguration)), None, None)
    else if d.content in {EmptyDiff, Unclassified} then AppUnresolved
    else App(if d.content == DocsOnly then Some(Skipped(DocsOnlyPr)) else None, None, None)
  }

  ghost function BaseApplicability(o: Observation, h: History): Applicability {
    if !o.diff.Known? || !o.config.Known? then AppUnresolved
    else
      var base := MarkerApplicability(o, o.diff.value, o.config.value);
      var key := SkipKey(o.config.value);
      if base.AppUnresolved? || base.skip.Some? || ConsumedBeforeSkip(o, h) != No || key.None? then base
      else
        var answer := LatestDecision(o.answers, SkipAck, key.value.0);
        if answer.Some? && answer.value.option == A then base.(skip := Some(Skipped(key.value.1)))
        else base.(pendingSkip := Some(key.value.0))
  }

  // ---- R06: the ready transition must not start a second run ----

  datatype EdgeState = EdgeUnresolved | NoEdge | OpenEdge(detection: Detection, consumed: bool)
  {
    predicate OffersB() {
      OpenEdge? && !consumed && detection.pushRebaseExcluded
    }

    function Key(): EdgeKey
      requires OpenEdge?
    {
      E1Edge(detection.kind, consumed, OffersB(), detection.facts)
    }
  }

  ghost function E1EdgeOf(o: Observation, h: History): EdgeState {
    var base := BaseApplicability(o, h);
    if base.AppUnresolved? || !o.config.Known? then EdgeUnresolved
    else
      var consumed := ConsumptionOf(o, h, base.skip.None?);
      if consumed == Unclear then EdgeUnresolved
      else if base.skip.Some? && consumed == No then NoEdge
      else
        var detection := DetectReadyTrigger(o.config.value);
        if detection.kind == Excluded then NoEdge else OpenEdge(detection, consumed == Yes)
  }

  datatype Guard = Guard(stop: Option<Outcome>, e1Waiver: Option<Waiver>, paused: bool)

  ghost function SecondRunGuard(o: Observation, h: History): Guard {
    var standing := StandingE1Waiver(o.answers);
    var waiver := if standing.Some? then Some(Waiver(E1, standing.value.id, Nothing)) else None;
    var edge := E1EdgeOf(o, h);
    var choice := LatestE1Choice(o.answers);
    if !edge.OpenEdge? then Guard(None, waiver, false)
    else if choice.Some? && choice.value.option == B && waiver.Some? && edge.OffersB() then Guard(None, waiver, false)
    else if LatestE1Pause(o.answers).Some? then Guard(None, waiver, true)
    else Guard(Some(Ask(R06E1, E1, edge.Key())), waiver, false)
  }

  /** On a ready PR a standing waiver satisfies the guard, unless pushes could now start a run. */
  ghost function EffectiveGuard(o: Observation, h: History, readOnly: bool): Guard {
    var checked := SecondRunGuard(o, h);
    var edge := E1EdgeOf(o, h);
    if readOnly && checked.e1Waiver.Some? && (!edge.OpenEdge? || edge.detection.pushRebaseExcluded)
    then Guard(None, checked.e1Waiver, false) else checked
  }

  // ---- R12 and R14 ----

  function PreTriggerFailure(o: Observation): Option<Gate> {
    if !o.refsKnown || !o.localGates.Known? then Some(RefsUnresolved) else o.preTriggerGate
  }

  function ReadinessFailure(o: Observation): Option<Gate> {
    if !o.refsKnown || !o.localGates.Known? then Some(RefsUnresolved) else o.readinessGate
  }

  function Readiness(o: Observation, basis: Basis, guard: Guard): Outcome {
    var gate := ReadinessFailure(o);
    if gate.Some? then Hold(R14(gate.value))
    else if guard.paused then Hold(R06ConfigPause)
    else Ready(basis)
  }

  function WaiverPath(o: Observation, w: Waiver, guard: Guard): Outcome {
    match w.missing
    case FullReview => Hold(R07WaiverFullReview)
    case Triage => Hold(R07WaiverTriage)
    case Nothing => Readiness(o, Waived(w.question, w.decision), guard)
  }

  // ---- R09-R13 ----

  function LineageOf(head: int, lineage: map<int, Lineage>, sha: int): Lineage {
    if sha == head then Ancestor else if sha in lineage then lineage[sha] else UnresolvedLineage
  }

  function FirstRun(runs: seq<Run>, p: Run -> bool): (r: Option<Run>)
    ensures r.Some? ==> r.value in runs && p(r.value)
    ensures r.None? ==> forall x | x in runs :: !p(x)
  {
    if runs == [] then None
    else if p(runs[0]) then Some(runs[0])
    else
      assert runs == [runs[0]] + runs[1..];
      FirstRun(runs[1..], p)
  }

  predicate Pending(r: Run) {
    r.status in {Queued, Running}
  }

  predicate Reviewed(head: int, lineage: map<int, Lineage>, r: Run, l: Lineage) {
    r.reviewedSha.Some? && LineageOf(head, lineage, r.reviewedSha.value) == l
  }

  function PendingRunRow(o: Observation, seen: int, run: Run): Outcome {
    var key := E6Edge(run.id, run.anchor);
    var chosen := LatestDecision(o.answers, E6, key);
    var deadline := if chosen.Some? && chosen.value.option == A then chosen.value.deadline else None;
    if deadline.Some? && seen < deadline.value then Hold(R09ChosenWait)
    else if chosen.None? && seen - run.anchor < NO_RESPONSE_MS then Hold(R09MonitorRun)
    else Ask(R09E6, E6, key)
  }

  predicate Untriaged(g: LocalGates, runs: seq<Run>) {
    || (exists f | f in g.findings :: !f.clean)
    || (exists r | r in runs :: !exists f | f in g.findings :: f.runId == r.id)
  }

  function FirstStale(head: int, lineage: map<int, Lineage>, runs: seq<Run>): Option<Run> {
    FirstRun(runs, r => Reviewed(head, lineage, r, Stale))
  }

  function FirstFailed(runs: seq<Run>): Option<Run> {
    FirstRun(runs, (r: Run) => r.status in {Failed, Cancelled})
  }

  function TerminalRunsRow(o: Observation, runs: seq<Run>, guard: Guard): Outcome {
    var staleRun := FirstStale(o.head, o.lineage, runs);
    var failed := FirstFailed(runs);
    if exists r | r in runs :: r.status == Completed && !r.proofOk then Hold(R10CompletionUnverified)
    else if exists r | r in runs :: Reviewed(o.head, o.lineage, r, UnresolvedLineage) then Hold(R10AncestryUnresolved)
    else if staleRun.Some? then Ask(R10E7, E7, E7Edge(staleRun.value.id, staleRun.value.reviewedSha.value))
    else if failed.Some? then Ask(R10E2, E2, E2Edge(failed.value.id, failed.value.status))
    else if o.localGates.Known? && Untriaged(o.localGates.value, runs) then Hold(R10Triage)
    else if o.localGates.Known? && exists r | r in runs ::
              r.reviewedSha.Some? && r.reviewedSha.value != o.head
                      && r.reviewedSha.value !in o.localGates.value.deltaFrom
    then Hold(R10DeltaReview)
    else Readiness(o, CompletedRuns(seq(|runs|, i requires 0 <= i < |runs| => runs[i].id)), guard)
  }

  function RequestRow(o: Observation, seen: int, c: Consumption, guard: Guard): Outcome {
    if seen - c.latestAt < NO_RESPONSE_MS then Hold(R11MonitorRequest)
    else
      var key := E4Edge(c.request);
      var recorded := LatestDecision(o.answers, E4, key);
      var covers := recorded.Some? && recorded.value.answeredAt - c.latestAt >= NO_RESPONSE_MS
                    && recorded.value.historyAt.Some? && recorded.value.historyAt.value - c.latestAt >= NO_RESPONSE_MS;
      var accepted := covers && recorded.value.option == A && recorded.value.request == Some(c.request);
      if (c.byComment || accepted) && o.localGates.Known? && exists f | f in o.localGates.value.findings :: !f.clean
      then Hold(R11Triage)
      else if c.byComment then Readiness(o, UnverifiedNoResponse(c.request), guard)
      else if accepted then Readiness(o, UnverifiedUserDecision(c.request, recorded.value.id), guard)
      else Ask(R11E4, E4, key)
  }

  function ArbitrationRow(o: Observation, own: Option<Own>, guard: Guard): Outcome {
    var gate := PreTriggerFailure(o);
    if FindingsExist(o) then Hold(R08HistoryUnresolved)
    else if gate.Some? then Hold(R12(gate.value))
    else if guard.paused then Hold(R06ConfigPause)
    else if own.Some? && own.value.state == Fresh
    then SendTrigger(if o.mcpAvailable then Mcp else CommentCall, own.value.comment, o.head)
    else Hold(R13RecordReservation)
  }

  predicate LosesRace(own: Option<Own>, winner: Option<Comment>, seen: int) {
    && own.Some? && own.value.state == Fresh && winner.Some?
    && winner.value.id != own.value.comment && seen - winner.value.createdAt < NO_RESPONSE_MS
  }

  function GreptilePath(o: Observation, h: History, guard: Guard): Outcome
    requires HistoriesKnown(o) && h.Resolved?
  {
    var seen := ObservedAt(o);
    var pending := FirstRun(h.runs, Pending);
    if pending.Some? then PendingRunRow(o, seen, pending.value)
    else if h.runs != [] then TerminalRunsRow(o, h.runs, guard)
    else if h.own.Some? && h.own.value.state == Unconfirmed then Hold(R13ReservationUnconfirmed)
    else if LosesRace(h.own, h.winner, seen) then Hold(R13ReservationLost)
    else if h.consumption.Some? then RequestRow(o, seen, h.consumption.value, guard)
    else ArbitrationRow(o, h.own, guard)
  }

  // ---- the whole decision ----

  /** The rows from R04 on, with applicability and the guard already derived. */
  function Rows(o: Observation, h: History, app: Applicability, guard: Guard): Outcome
    requires h.Resolved? ==> HistoriesKnown(o)
  {
    if o.restriction.Some? then Hold(R04(o.restriction.value))
    else if app.AppUnresolved? then Hold(R05ApplicabilityUnresolved)
    else if app.pendingPolicy.Some? then Ask(R05PolicyChange, PolicyChange, app.pendingPolicy.value)
    else if app.pendingSkip.Some? && RunWaiver(o.answers).None? then Ask(R05SkipAcknowledgment, SkipAck,
            app.pendingSkip.value)
    else if guard.stop.Some? then guard.stop.value
    else if app.skip.Some? then Readiness(o, app.skip.value, guard)
    else if guard.e1Waiver.Some? then WaiverPath(o, guard.e1Waiver.value, guard)
    else if RunWaiver(o.answers).Some? then WaiverPath(o, RunWaiver(o.answers).value, guard)
    else if h.Unresolved? then Hold(h.rule)
    else GreptilePath(o, h, guard)
  }

  ghost function Evaluate(o: Observation, h: History, readOnly: bool): Outcome
    requires HistoryOf(o, h)
  {
    Rows(o, h, BaseApplicability(o, h), EffectiveGuard(o, h, readOnly))
  }

  ghost function DecideWith(o: Observation, h: History): Outcome
    requires HistoryOf(o, h)
  {
    if !Validated(o) then Hold(R01InvalidInput)
    else if !o.bound then Hold(R01SubjectMismatch)
    else if !o.isOpen then Hold(R02TerminalPr)
    else if !o.isDraft then
      if Evaluate(o, h, true).Ready? then Hold(R03AlreadyPrepared) else Hold(R03IncompletePreparation)
    else Evaluate(o, h, false)
  }
}
