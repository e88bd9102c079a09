/**
 What the request and run history means, stated on sets of records: no definition here can depend on the order in
 which a family lists its records. `GreptileDerivation` computes the same values with the source's loops.
 */
module GreptileHistory {
  import opened Common
  import opened GreptileModel

  datatype Facts = Facts(account: int, session: int, observation: int, head: int, actors: set<int>,
                         comments: set<Comment>, submissions: set<Submission>, journal: set<JournalEntry>,
                         runs: set<RunObs>, named: set<Ref>)

  // ---- reservations released by a never-submitted proof ----

  predicate ProvenUnsent(s: Submission) {
    s.outcome == NotSubmitted && s.proven
  }

  /** A journaled attempt that a never-submitted proof of the same session and observation accounts for. */
  ghost predicate Covered(f: Facts, j: JournalEntry) {
    exists s | s in f.submissions ::
      ProvenUnsent(s) && s.reservation == Some(j.reservation) && s.session == j.session
      && s.journalObservation == Some(j.observation) && j.recordedAt <= s.attemptedAt
  }

  ghost predicate ConsumedBySubmission(f: Facts, id: int) {
    exists s | s in f.submissions :: s.reservation == Some(id) && !ProvenUnsent(s)
  }

  ghost predicate JournalConsumes(f: Facts, j: JournalEntry) {
    j.phase != ConfirmedUnattempted && (j.phase != Attempted || j.transport != Some(Mcp) || !Covered(f, j))
  }

  ghost predicate ConsumedByJournal(f: Facts, id: int) {
    exists j | j in f.journal :: j.reservation == id && JournalConsumes(f, j)
  }

  ghost predicate ConsumedByReadback(f: Facts, id: int) {
    exists c | c in f.comments :: c.id == id && (c.callsBot || !Trusted(f.account, c))
  }

  ghost predicate Released(f: Facts, id: int) {
    && (exists s | s in f.submissions :: ProvenUnsent(s) && s.reservation == Some(id))
    && !ConsumedBySubmission(f, id) && !ConsumedByJournal(f, id) && !ConsumedByReadback(f, id)
  }

  // ---- recorded consumption ----

  ghost predicate Discharged(f: Facts, ref: Ref) {
    exists s | s in f.submissions ::
      ProvenUnsent(s) && (ref == SubmissionRef(s.id)
                          || (s.reservation.Some? && Released(f, s.reservation.value)
                                  && ref == CommentRef(s.reservation.value)))
  }

  ghost function RecordedRefs(f: Facts): set<Ref> {
    set ref | ref in f.named && !Discharged(f, ref)
  }

  // ---- runs ----

  ghost predicate Misattributed(f: Facts) {
    exists r | r in f.runs :: r.actor !in f.actors && r.reporter == McpReport
  }

  ghost function RunIds(f: Facts): set<int> {
    set r | r in f.runs && r.actor in f.actors :: r.runId
  }

  ghost function RunGroup(f: Facts, id: int): set<RunObs> {
    set r | r in f.runs && r.actor in f.actors && r.runId == id
  }

  ghost function Correlated(f: Facts, id: int): set<Submission> {
    set s | s in f.submissions && s.runId == Some(id) && s.outcome != NotSubmitted
  }

  /** The status all observations of a run agree on, or the one its single reporter orders last. */
  ghost predicate HasStatus(g: set<RunObs>, status: RunStatus) {
    if forall a, b | a in g && b in g :: a.status == b.status then
      exists a | a in g :: a.status == status
    else if forall a | a in g :: a.status in {Queued, Running} then
      status == Running
    else
      && (forall a, b | a in g && b in g :: a.reporter == b.reporter)
      && (forall a | a in g :: a.revision.Some?)
      && (exists a | a in g :: IsTop(g, a) && a.status == status)
      && (forall a | a in g && IsTop(g, a) :: a.status == status)
  }

  ghost predicate IsTop(g: set<RunObs>, a: RunObs) {
    a.revision.Some? && forall b | b in g :: b.revision.Some? && b.revision.value <= a.revision.value
  }

  ghost function FirstSeen(g: set<RunObs>): int {
    var seen := set r | r in g :: r.firstSeen;
    if seen == {} then 0 else Min(seen)
  }

  ghost function SubmittedTimes(g: set<RunObs>, c: set<Submission>): set<int> {
    (set r | r in g && r.submittedAt.Some? :: r.submittedAt.value) + (set s | s in c :: s.attemptedAt)
  }

  ghost predicate RecordedShasDiffer(g: set<RunObs>) {
    exists a, b | a in g && b in g :: a.recordedSha.Some? && b.recordedSha.Some? && a.recordedSha != b.recordedSha
  }

  ghost predicate ReviewedShasDiffer(g: set<RunObs>) {
    exists a, b | a in g && b in g :: a.reviewedSha.Some? && b.reviewedSha.Some? && a.reviewedSha != b.reviewedSha
  }

  ghost predicate Contradicts(g: set<RunObs>, c: set<Submission>) {
    || !(exists st :: HasStatus(g, st))
    || (SubmittedTimes(g, c) != {} && Min(SubmittedTimes(g, c)) > FirstSeen(g))
    || RecordedShasDiffer(g) || ReviewedShasDiffer(g)
  }

  function ProofFor(r: Reporter): Proof {
    match r
    case McpReport => McpMetadata
    case ReviewReport => ReviewCommit
    case CheckReport => CheckOutput
  }

  /** `run` is what a consistent group of observations of run `id` reduces to. */
  ghost predicate ReducesTo(id: int, g: set<RunObs>, c: set<Submission>, run: Run) {
    var times := SubmittedTimes(g, c);
    && run.id == id
    && HasStatus(g, run.status)
    && (if exists a | a in g :: a.reviewedSha.Some? then exists a | a in g :: a.reviewedSha.Some? && a.reviewedSha == run.reviewedSha
        else run.reviewedSha == None)
    && run.firstSeen == FirstSeen(g)
    && run.automatic == (forall a | a in g :: a.origin == Automatic)
    && run.anchorSubmitted == (times != {})
    && run.anchor == (if times == {} then FirstSeen(g) else Min(times))
    && run.proofOk == (&& (exists a | a in g :: a.status == Completed && a.proof == ProofFor(a.reporter) && a.reviewedSha.Some?)
                       && (exists a | a in g :: a.recordedSha.Some? && a.recordedSha == run.reviewedSha))
  }

  ghost predicate BadRun(f: Facts, id: int) {
    Contradicts(RunGroup(f, id), Correlated(f, id)) || HasStatus(RunGroup(f, id), UnknownStatus)
  }

  ghost function BadRuns(f: Facts): set<int> {
    set id | id in RunIds(f) && BadRun(f, id)
  }

  ghost function FirstBadRule(f: Facts): RuleId
    requires BadRuns(f) != {}
  {
    var id := Min(BadRuns(f));
    if Contradicts(RunGroup(f, id), Correlated(f, id)) then R08RunContradiction else R08HistoryUnresolved
  }

  /** The reduced runs: one per observed run id, in anchor order. */
  ghost predicate AreRuns(f: Facts, runs: seq<Run>) {
    && (forall r | r in runs :: r.id in RunIds(f) && ReducesTo(r.id, RunGroup(f, r.id), Correlated(f, r.id), r))
    && (forall id | id in RunIds(f) :: exists r | r in runs :: r.id == id)
    && (forall i, j | 0 <= i < j < |runs| :: RunBefore(runs[i], runs[j]) && runs[i].id != runs[j].id)
  }

  // ---- markers and requests ----

  /** Markers of the running account that no never-submitted proof released. */
  ghost function LiveMarkers(f: Facts): set<Comment> {
    set c | c in f.comments && c.author == f.account && !(c.kind == Reservation && Released(f, c.id))
  }

  ghost predicate IsWinner(f: Facts, c: Comment) {
    c in LiveMarkers(f) && forall m | m in LiveMarkers(f) :: MarkerBefore(c, m)
  }

  ghost predicate AttemptJournaled(f: Facts, e: JournalEntry) {
    e in f.journal && e.phase != ConfirmedUnattempted && !Released(f, e.reservation)
  }

  ghost predicate WasAttempted(f: Facts, id: int) {
    exists e | e in f.journal :: AttemptJournaled(f, e) && e.reservation == id
  }

  ghost predicate UncertainAttempt(f: Facts, id: int) {
    exists e | e in f.journal ::
      AttemptJournaled(f, e) && e.reservation == id && (e.phase == UnknownPhase || e.transport != Some(CommentCall))
  }

  /** A request at time `at` that some observed non-automatic run may have answered. */
  predicate Explained(runs: seq<Run>, at: int) {
    exists r | r in runs :: !r.automatic && at <= r.firstSeen
  }

  predicate SubmissionUnseen(runs: seq<Run>, s: Submission) {
    !ProvenUnsent(s) && (if s.runId.Some? then !(exists r | r in runs :: r.id == s.runId.value) else !Explained(runs, s.attemptedAt))
  }

  predicate MarkerUnseen(runs: seq<Run>, m: Comment) {
    (m.kind == Trigger || m.callsBot) && !Explained(runs, m.createdAt)
  }

  ghost predicate HasUnseenRequest(f: Facts, runs: seq<Run>) {
    && runs != []
    && (|| (exists s | s in f.submissions :: SubmissionUnseen(runs, s))
        || (exists m | m in LiveMarkers(f) :: MarkerUnseen(runs, m))
        || (exists e | e in f.journal :: AttemptJournaled(f, e) && !Explained(runs, e.recordedAt)))
  }

  ghost predicate Visible(f: Facts, id: int) {
    exists c | c in f.comments :: c.author == f.account && c.id == id
  }

  ghost predicate DeletedEntry(f: Facts, e: JournalEntry) {
    e in f.journal && (e.readback || e.phase != ConfirmedUnattempted) && !Visible(f, e.reservation)
            && !Released(f, e.reservation)
  }

  ghost function DeletedTimes(f: Facts, id: int): set<int> {
    set e | e in f.journal && DeletedEntry(f, e) && e.reservation == id :: e.reservationCreatedAt
  }

  ghost predicate IsDeleted(f: Facts, id: int) {
    exists e | e in f.journal :: DeletedEntry(f, e) && e.reservation == id
  }

  // ---- this session's own reservation ----

  ghost function Mine(f: Facts): set<JournalEntry> {
    set e | e in f.journal && e.session == f.session && e.observation == f.observation
  }

  predicate EntryBefore(a: JournalEntry, b: JournalEntry) {
    a.recordedAt < b.recordedAt || (a.recordedAt == b.recordedAt && a.reservation <= b.reservation)
  }

  predicate SameReadback(a: JournalEntry, b: JournalEntry) {
    a.readback == b.readback && a.headSha == b.headSha && a.reservationCreatedAt == b.reservationCreatedAt
            && a.phase == b.phase
  }

  ghost predicate IsLatest(f: Facts, e: JournalEntry) {
    e in Mine(f) && forall x | x in Mine(f) :: EntryBefore(x, e)
  }

  /** Entries that tie with the latest one but read back differently. */
  ghost predicate ConflictingReadback(f: Facts, e: JournalEntry) {
    exists x | x in Mine(f) :: x.recordedAt == e.recordedAt && x.reservation == e.reservation && !SameReadback(x, e)
  }

  ghost predicate ReservationSpent(f: Facts, e: JournalEntry, m: Comment) {
    || m.kind != Reservation || m.markerSha != e.headSha || m.createdAt != e.reservationCreatedAt
    || e.headSha != f.head || e.phase != ConfirmedUnattempted || WasAttempted(f, e.reservation)
    || m.callsBot || CommentRef(m.id) in RecordedRefs(f)
    || (exists x | x in f.journal :: x.reservation == e.reservation && (x.session != e.session || x.observation != e.observation))
    || ConsumedBySubmission(f, e.reservation)
  }

  ghost predicate HasTrustedMarker(f: Facts, id: int) {
    exists m | m in LiveMarkers(f) :: m.id == id && Trusted(f.account, m)
  }

  ghost predicate HasSpentMarker(f: Facts, e: JournalEntry) {
    exists m | m in LiveMarkers(f) :: m.id == e.reservation && ReservationSpent(f, e, m)
  }

  ghost function OwnFrom(f: Facts, e: JournalEntry): Own {
    if ConflictingReadback(f, e) || !e.readback || !HasTrustedMarker(f, e.reservation) then Own(Unconfirmed,
            e.reservation)
    else if HasSpentMarker(f, e) then Own(StaleOwn, e.reservation)
    else Own(Fresh, e.reservation)
  }

  ghost predicate IsOwn(f: Facts, own: Option<Own>) {
    if Mine(f) == {} then own == None
    else exists e | e in f.journal :: IsLatest(f, e) && own == Some(OwnFrom(f, e))
  }

  // ---- requests ----

  ghost predicate FreshWinner(f: Facts, own: Option<Own>, m: Comment) {
    own.Some? && own.value.state == Fresh && own.value.comment == m.id
  }

  /** Whether a live marker counts as a request, and of which kind. */
  ghost predicate MarkerRequest(f: Facts, own: Option<Own>, m: Comment, kind: RequestKind) {
    if m.kind == Trigger then kind == if Trusted(f.account, m) && m.callsBot then ConfirmedComment else AmbiguousRequest
    else if UncertainAttempt(f, m.id) || m.callsBot then kind == AmbiguousRequest
    else kind == ReservationRequest
         && ((IsWinner(f, m) && !FreshWinner(f, own, m)) || WasAttempted(f,
                 m.id) || CommentRef(m.id) in RecordedRefs(f))
  }

  ghost predicate SubmissionTime(f: Facts, s: Submission, at: int) {
    if s.reservation.None? then at == s.attemptedAt
    else if exists m | m in LiveMarkers(f) :: m.id == s.reservation.value then
      exists m | m in LiveMarkers(f) :: m.id == s.reservation.value && at == m.createdAt
    else if IsDeleted(f, s.reservation.value) then IsMin(at, DeletedTimes(f, s.reservation.value))
    else at == s.attemptedAt
  }

  ghost predicate IsRequest(f: Facts, own: Option<Own>, r: Request) {
    match r.ref
    case CommentRef(id) =>
      || (exists m | m in LiveMarkers(f) :: m.id == id && r.at == m.createdAt && MarkerRequest(f, own, m, r.kind))
      || (IsDeleted(f, id) && IsMin(r.at, DeletedTimes(f, id)) && r.kind == AmbiguousRequest)
    case SubmissionRef(id) =>
      r.kind == McpRequest && exists s | s in f.submissions :: s.id == id && !ProvenUnsent(s) && SubmissionTime(f, s, r.at)
    case RunRef(_) => false
  }

  /** `q` lists exactly the requests, without repetition. */
  ghost predicate AreRequests(f: Facts, own: Option<Own>, q: set<Request>) {
    && (forall r | r in q :: IsRequest(f, own, r))
    && (forall r: Request :: IsRequest(f, own, r) ==> r in q)
  }

  ghost predicate IsEarliest(q: set<Request>, r: Request) {
    r in q && forall x | x in q :: RequestBefore(r, x)
  }

  ghost function Times(q: set<Request>): set<int> {
    set r | r in q :: r.at
  }

  ghost function Confirmed(q: set<Request>): set<Request> {
    set r | r in q && r.kind == ConfirmedComment
  }

  ghost predicate IsConsumption(q: set<Request>, c: Option<Consumption>) {
    if q == {} then c == None
    else
      && c.Some?
      && IsMax(c.value.latestAt, Times(q))
      && c.value.byComment == (Confirmed(q) != {} && forall r | r in q :: r.kind !in {McpRequest, AmbiguousRequest})
      && exists r | r in q :: r.ref == c.value.request && r.at == c.value.anchor
                              && IsEarliest(if c.value.byComment then Confirmed(q) else q, r)
  }

  predicate Accounted(runs: seq<Run>, q: set<Request>, ref: Ref) {
    (exists r | r in runs :: RunRef(r.id) == ref) || (exists r | r in q :: r.ref == ref)
  }

  // ---- the derived history ----

  ghost predicate IsHistory(f: Facts, h: History) {
    if Misattributed(f) then h == Unresolved(R08HistoryUnresolved)
    else if BadRuns(f) != {} then h == Unresolved(FirstBadRule(f))
    else exists runs, own, q :: Derives(f, runs, own, q, h)
  }

  ghost predicate Derives(f: Facts, runs: seq<Run>, own: Option<Own>, q: set<Request>, h: History) {
    && AreRuns(f, runs) && IsOwn(f, own) && AreRequests(f, own, q)
    && if HasUnseenRequest(f, runs) || (exists ref | ref in RecordedRefs(f) :: !Accounted(runs, q, ref))
       then h == Unresolved(R08HistoryUnresolved)
       else && h.Resolved? && h.runs == runs && h.markers == LiveMarkers(f) && h.own == own
            && (if LiveMarkers(f) == {} then h.winner == None else h.winner.Some? && IsWinner(f, h.winner.value))
            && IsConsumption(q, h.consumption)
  }
}
