/**
 Evidence and results of the Greptile lifecycle decision core. Ids, heads and questions' edge keys are opaque
 values; integer order stands for the order of `cmpId` and `cmp`. Times are epoch milliseconds.
 */
module GreptileModel {
  import opened Common

  const NO_RESPONSE_MS := 600_000

  /** One evidence family: complete and current, or not usable as proof of anything. */
  datatype Evidence<+T> = Known(collectedAt: nat, value: T) | Unavailable

  function Items<T>(e: Evidence<seq<T>>): set<T> {
    if e.Known? then Elems(e.value) else {}
  }

  datatype CommentKind = Reservation | Trigger
  datatype Comment = Comment(id: int, kind: CommentKind, markerSha: int, author: int,
                             editors: Option<seq<int>>, createdAt: nat, callsBot: bool)

  datatype SubmissionOutcome = Accepted | Ambiguous | NotSubmitted
  datatype Submission = Submission(id: int, reservation: Option<int>, session: int,
                                   journalObservation: Option<int>, attemptedAt: nat,
                                   outcome: SubmissionOutcome, proven: bool, runId: Option<int>)

  datatype Phase = ConfirmedUnattempted | Attempted | UnknownPhase
  datatype Transport = Mcp | CommentCall
  datatype JournalEntry = JournalEntry(reservation: int, reservationCreatedAt: nat, session: int,
                                       observation: int, headSha: int, readback: bool, phase: Phase,
                                       transport: Option<Transport>, recordedAt: nat)

  datatype Reporter = McpReport | ReviewReport | CheckReport
  datatype Origin = Automatic | Manual | UnknownOrigin
  datatype RunStatus = Queued | Running | Completed | Failed | Cancelled | UnknownStatus
  datatype Proof = McpMetadata | ReviewCommit | CheckOutput | NoProof
  datatype RunObs = RunObs(runId: int, reporter: Reporter, actor: int, origin: Origin, status: RunStatus,
                           revision: Option<nat>, recordedSha: Option<int>, reviewedSha: Option<int>,
                           proof: Proof, submittedAt: Option<nat>, firstSeen: nat)

  /** A request or run that a receipt may name. */
  datatype Ref = CommentRef(comment: int) | SubmissionRef(submission: int) | RunRef(run: int)

  datatype Question = E1 | E2 | E4 | E6 | E7 | PolicyChange | SkipAck
  datatype Choice = A | B | C

  /** The structured content of an edge key; its textual form is injective. */
  datatype EdgeKey =
    | E1Edge(kind: StartKind, consumed: bool, offersB: bool, facts: TriggerFacts)
    | E2Edge(run: int, status: RunStatus)
    | E4Edge(request: Ref)
    | E6Edge(run: int, anchor: int)
    | E7Edge(run: int, reviewed: int)
    | PolicyEdge(paths: seq<int>)
    | SkipEdge(exclusion: Option<int>)

  /** A waiver's retained witness: the run it names and whether `validGrant` accepts it. */
  datatype Grant = Grant(run: int, submission: Option<int>, valid: bool, fullReview: bool)

  /** A recorded answer, in the answer order that `records` establishes. */
  datatype Answer = Answer(id: int, trusted: bool, question: Question, option: Choice, edge: EdgeKey,
                           answeredAt: int, deadline: Option<int>, runId: Option<int>, request: Option<Ref>,
                           historyAt: Option<int>, triaged: bool, grant: Option<Grant>)

  // Configuration, as far as the ready-transition detection reads it.

  datatype Event = Open | Push | Rebase

  /** Keys of a parsed configuration object; an inner None is a value of the wrong shape. */
  datatype ConfigObject = ConfigObject(autoReview: Option<Option<seq<Event>>>,
                                       triggerOnUpdates: Option<Option<bool>>,
                                       skipReview: Option<bool>)
  datatype EffectiveFile = Absent(dottedOnly: bool) | Unreadable | Parsed(keys: ConfigObject)
  datatype Tip = Tip(hasMarker: bool, file: EffectiveFile)
  datatype WhyUnverified = Missing | UnreadableFile | DottedOnly | Invalid | Conflicting
  datatype TipTrigger = EventList(events: set<Event>) | Unverified(why: WhyUnverified)
  datatype StartKind = Excluded | WillStart | CannotRuleOut
  datatype TriggerFacts = ExcludedFact | VerifiedFact(events: Option<set<Event>>) | TipFacts(base: TipTrigger,
          head: TipTrigger)
  datatype Detection = Detection(kind: StartKind, pushRebaseExcluded: bool, facts: TriggerFacts)
  datatype VerifiedSettings = VerifiedSettings(autoReview: Option<seq<Event>>, exclusion: Option<int>)
  datatype ConfigFacts = ConfigFacts(installed: bool, verified: Option<VerifiedSettings>, base: Tip, head: Tip)

  datatype DiffClass = DocsOnly | Mixed | Unclassified | EmptyDiff
  datatype DiffFacts = DiffFacts(policyPaths: seq<int>, content: DiffClass)

  datatype Finding = Finding(runId: int, clean: bool)
  datatype LocalGates = LocalGates(findings: seq<Finding>, deltaFrom: set<int>)
  datatype Gate = RefsUnresolved | OtherGate(code: int)
  datatype Lineage = Ancestor | Stale | UnresolvedLineage

  /**
   One validated or refused observation. `restriction` is what the R04 row returns, and the two gate fields what the
   remaining local gate checks return; every theorem holds for all their values.
   */
  datatype Observation = Observation(
    account: int, session: int, id: int, mcpAvailable: bool, actors: set<int>,
    isOpen: bool, isDraft: bool, head: int, bound: bool,
    comments: Evidence<seq<Comment>>, submissions: Evidence<seq<Submission>>,
    journal: Evidence<seq<JournalEntry>>, runs: Evidence<seq<RunObs>>,
    diff: Evidence<DiffFacts>, config: Evidence<ConfigFacts>, localGates: Evidence<LocalGates>,
    refsKnown: bool, lineage: map<int, Lineage>, answers: seq<Answer>, receiptRefs: set<Ref>,
    restriction: Option<int>, preTriggerGate: Option<Gate>, readinessGate: Option<Gate>)

  datatype RuleId =
    | R01InvalidInput | R01SubjectMismatch | R02TerminalPr | R03AlreadyPrepared | R03IncompletePreparation
    | R04(code: int)
    | R05ApplicabilityUnresolved | R05PolicyChange | R05SkipAcknowledgment | R06E1 | R06ConfigPause
    | R07WaiverFullReview | R07WaiverTriage | R08HistoryUnresolved | R08RunContradiction
    | R09MonitorRun | R09ChosenWait | R09E6 | R10CompletionUnverified | R10AncestryUnresolved | R10E7 | R10E2
    | R10Triage | R10DeltaReview | R11MonitorRequest | R11E4 | R11Triage | R12(gate: Gate)
    | R13ReservationUnconfirmed | R13ReservationLost | R13RecordReservation | R13Trigger
    | R14(gate: Gate) | R14ReadyEligible

  datatype SkipReason = NoRootConfiguration | DocsOnlyPr | UserPolicyDecision | AppNotInstalled | ExcludedBySettings
  datatype Basis =
    | CompletedRuns(runs: seq<int>)
    | UnverifiedNoResponse(request: Ref)
    | UnverifiedUserDecision(request: Ref, decision: int)
    | Skipped(reason: SkipReason)
    | Waived(question: Question, decision: int)

  /** Every wait and continue result is a Hold named by its rule. */
  datatype Outcome =
    | Hold(rule: RuleId)
    | Ask(rule: RuleId, question: Question, edge: EdgeKey)
    | SendTrigger(transport: Transport, reservation: int, requestedHead: int)
    | Ready(basis: Basis)

  datatype Run = Run(id: int, status: RunStatus, reviewedSha: Option<int>, proofOk: bool, firstSeen: int,
                     automatic: bool, anchor: int, anchorSubmitted: bool)

  datatype OwnState = Unconfirmed | Fresh | StaleOwn
  datatype Own = Own(state: OwnState, comment: int)

  datatype RequestKind = ConfirmedComment | ReservationRequest | AmbiguousRequest | McpRequest
  datatype Request = Request(ref: Ref, at: int, kind: RequestKind)
  datatype Consumption = Consumption(byComment: bool, request: Ref, anchor: int, latestAt: int)

  datatype History =
    | Unresolved(rule: RuleId)
    | Resolved(runs: seq<Run>, markers: set<Comment>, own: Option<Own>, winner: Option<Comment>,
               consumption: Option<Consumption>)

  datatype Tri = Yes | No | Unclear

  /** The author rule: written, and only ever edited, by the running account. */
  predicate Trusted(account: int, c: Comment) {
    c.author == account && c.editors.Some? && forall e | e in c.editors.value :: e == account
  }

  /** Marker arbitration order: creation time, then numeric id. */
  predicate MarkerBefore(a: Comment, b: Comment) {
    a.createdAt < b.createdAt || (a.createdAt == b.createdAt && a.id <= b.id)
  }

  predicate RunBefore(a: Run, b: Run) {
    a.anchor < b.anchor || (a.anchor == b.anchor && a.id <= b.id)
  }

  function RefRank(r: Ref): (int, int) {
    match r
    case CommentRef(c) => (0, c)
    case RunRef(n) => (1, n)
    case SubmissionRef(s) => (2, s)
  }

  predicate RequestBefore(a: Request, b: Request) {
    var (ta, ia) := RefRank(a.ref);
    var (tb, ib) := RefRank(b.ref);
    a.at < b.at || (a.at == b.at && (ta < tb || (ta == tb && ia <= ib)))
  }
}
