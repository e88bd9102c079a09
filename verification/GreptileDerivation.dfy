/** The source's loops over the raw record lists, each proved to compute its order-free meaning. */
module GreptileDerivation {
  import opened Common
  import opened GreptileModel
  import opened GreptileHistory
  import opened GreptileDecision
  import opened GreptileTheorems

  /** The lists a set of facts was read from. */
  ghost predicate ReadFrom(f: Facts, comments: seq<Comment>, submissions: seq<Submission>, journal: seq<JournalEntry>) {
    f.comments == Elems(comments) && f.submissions == Elems(submissions) && f.journal == Elems(journal)
  }

  // ---- releasedReservations ----

  type ProofKey = (int, int, int)

  ghost predicate LatestProofs(proofs: map<ProofKey, nat>, submissions: seq<Submission>) {
    && (forall s | s in submissions && ProvenUnsent(s) && s.reservation.Some? && s.journalObservation.Some? ::
          (s.reservation.value, s.session, s.journalObservation.value) in proofs
          && s.attemptedAt <= proofs[(s.reservation.value, s.session, s.journalObservation.value)])
    && (forall k | k in proofs ::
          exists s | s in submissions :: ProvenUnsent(s) && s.reservation == Some(k.0) && s.session == k.1
                                         && s.journalObservation == Some(k.2) && s.attemptedAt == proofs[k])
  }

  /** The reservations of the submissions that are proven unsent, or of those that are not. */
  ghost predicate NamesThose(ids: set<int>, submissions: seq<Submission>, unsent: bool) {
    forall id :: id in ids <==> exists s | s in submissions :: ProvenUnsent(s) == unsent && s.reservation == Some(id)
  }

  lemma NamesOneMore(ids: set<int>, before: seq<Submission>, s: Submission, unsent: bool)
    requires NamesThose(ids, before, unsent)
    ensures NamesThose(if s.reservation.Some? && ProvenUnsent(s) == unsent then ids + {s.reservation.value} else ids,
            before + [s], unsent)
  {
  }

  method ReadProofs(submissions: seq<Submission>)
    returns (proven: set<int>, proofs: map<ProofKey, nat>, consuming: set<int>)
    ensures NamesThose(proven, submissions, true) && NamesThose(consuming, submissions, false)
    ensures LatestProofs(proofs, submissions)
  {
    proven, proofs, consuming := {}, map[], {};
    for i := 0 to |submissions|
      invariant NamesThose(proven, submissions[..i], true) && NamesThose(consuming, submissions[..i], false)
      invariant LatestProofs(proofs, submissions[..i])
    {
      var s := submissions[i];
      assert submissions[..i + 1] == submissions[..i] + [s];
      ghost var was := proofs;
      NamesOneMore(proven, submissions[..i], s, true);
      NamesOneMore(consuming, submissions[..i], s, false);
      if s.reservation.Some? {
        if ProvenUnsent(s) {
          proven := proven + {s.reservation.value};
          if s.journalObservation.Some? {
            var key := (s.reservation.value, s.session, s.journalObservation.value);
            var at := if key in proofs && proofs[key] > s.attemptedAt then proofs[key] else s.attemptedAt;
            proofs := proofs[key := at];
          }
        } else {
          consuming := consuming + {s.reservation.value};
        }
      }
      ProofsGrow(was, proofs, submissions[..i], s);
    }
    assert submissions[..|submissions|] == submissions;
  }

  lemma ProofsGrow(was: map<ProofKey, nat>, now: map<ProofKey, nat>, before: seq<Submission>, s: Submission)
    requires LatestProofs(was, before)
    requires var key := if s.reservation.Some? && s.journalObservation.Some?
                        then Some((s.reservation.value, s.session, s.journalObservation.value)) else None;
             now == if ProvenUnsent(s) && key.Some?
                    then was[key.value := if key.value in was
                            && was[key.value] > s.attemptedAt then was[key.value] else s.attemptedAt]
                    else was
    ensures LatestProofs(now, before + [s])
  {
    var all := before + [s];
    forall k | k in now
      ensures exists x | x in all :: ProvenUnsent(x) && x.reservation == Some(k.0) && x.session == k.1
                                     && x.journalObservation == Some(k.2) && x.attemptedAt == now[k]
    {
      if k in was && was[k] == now[k] {
        var x :| x in before && ProvenUnsent(x) && x.reservation == Some(k.0) && x.session == k.1
                 && x.journalObservation == Some(k.2) && x.attemptedAt == now[k];
        assert x in all;
      } else {
        assert s in all;
      }
    }
  }

  /** A proof releases only its session's and observation's attempt; everything else stays consumed. */
  method ReleasedReservations(ghost f: Facts, comments: seq<Comment>, submissions: seq<Submission>,
          journal: seq<JournalEntry>, account: int)
    returns (released: set<int>)
    requires ReadFrom(f, comments, submissions, journal) && account == f.account
    ensures forall id :: id in released <==> Released(f, id)
  {
    var proven, proofs, consuming := ReadProofs(submissions);
    ghost var bySubmission := consuming;
    for i := 0 to |journal|
      invariant forall id :: id in consuming <==>
        id in bySubmission || exists j | j in journal[..i] :: j.reservation == id && JournalConsumes(f, j)
    {
      var j := journal[i];
      var key := (j.reservation, j.session, j.observation);
      CoveredByProofs(f, proofs, submissions, j);
      if j.phase != ConfirmedUnattempted
         && (j.phase != Attempted || j.transport != Some(Mcp) || key !in proofs || j.recordedAt > proofs[key]) {
        consuming := consuming + {j.reservation};
      }
      assert journal[..i + 1] == journal[..i] + [j];
    }
    assert journal[..|journal|] == journal;
    ghost var byJournal := consuming;
    for i := 0 to |comments|
      invariant forall id :: id in consuming <==>
        id in byJournal || exists c | c in comments[..i] :: c.id == id && (c.callsBot || !Trusted(f.account, c))
    {
      var c := comments[i];
      if c.callsBot || !Trusted(account, c) {
        consuming := consuming + {c.id};
      }
      assert comments[..i + 1] == comments[..i] + [c];
    }
    assert comments[..|comments|] == comments;
    released := proven - consuming;
  }

  lemma CoveredByProofs(f: Facts, proofs: map<ProofKey, nat>, submissions: seq<Submission>, j: JournalEntry)
    requires f.submissions == Elems(submissions) && LatestProofs(proofs, submissions)
    ensures var key := (j.reservation, j.session, j.observation);
            Covered(f, j) <==> key in proofs && j.recordedAt <= proofs[key]
  {
    var key := (j.reservation, j.session, j.observation);
    if key in proofs && j.recordedAt <= proofs[key] {
      var s :| s in submissions && ProvenUnsent(s) && s.reservation == Some(key.0) && s.session == key.1
               && s.journalObservation == Some(key.2) && s.attemptedAt == proofs[key];
      assert s in f.submissions;
    }
  }

  // ---- reduceRuns ----

  method AgreedStatus(obs: seq<RunObs>) returns (status: Option<RunStatus>)
    requires obs != []
    ensures status.Some? ==> HasStatus(Elems(obs), status.value)
    ensures status.None? ==> forall st :: !HasStatus(Elems(obs), st)
  {
    ghost var g := Elems(obs);
    assert obs[0] in g;
    if forall o | o in obs :: o.status == obs[0].status {
      return Some(obs[0].status);
    }
    assert exists o :: o in g && o.status != obs[0].status;
    if forall o | o in obs :: o.status in {Queued, Running} {
      return Some(Running);
    }
    if !(forall o | o in obs :: o.reporter == obs[0].reporter && o.revision.Some?) {
      return None;
    }
    var top := obs[0];
    for i := 1 to |obs|
      invariant top in g && top.revision.Some?
      invariant forall k | 0 <= k < i :: obs[k].revision.Some? && obs[k].revision.value <= top.revision.value
    {
      if obs[i].revision.value > top.revision.value {
        top := obs[i];
      }
    }
    assert IsTop(g, top);
    if forall o | o in obs && o.revision == top.revision :: o.status == top.status {
      return Some(top.status);
    }
    var other :| other in obs && other.revision == top.revision && other.status != top.status;
    assert IsTop(g, other) && other in g;
    return None;
  }

  method EarliestTimes(obs: seq<RunObs>, correlated: seq<Submission>) returns (firstSeen: int, submitted: Option<int>)
    requires obs != []
    ensures firstSeen == FirstSeen(Elems(obs))
    ensures submitted.None? <==> SubmittedTimes(Elems(obs), Elems(correlated)) == {}
    ensures submitted.Some? ==> submitted.value == Min(SubmittedTimes(Elems(obs), Elems(correlated)))
  {
    firstSeen, submitted := obs[0].firstSeen, None;
    ghost var seen := obs[0];
    ghost var g, c := Elems(obs), Elems(correlated);
    for i := 0 to |obs|
      invariant seen in g && seen.firstSeen == firstSeen
      invariant forall k | 0 <= k < i :: firstSeen <= obs[k].firstSeen
      invariant submitted.Some? ==> submitted.value in SubmittedTimes(g, c)
      invariant forall k | 0 <= k < i && obs[k].submittedAt.Some? :: submitted.Some? && submitted.value <= obs[k].submittedAt.value
    {
      if obs[i].firstSeen < firstSeen {
        firstSeen, seen := obs[i].firstSeen, obs[i];
      }
      assert obs[i] in g;
      if obs[i].submittedAt.Some? && (submitted.None? || obs[i].submittedAt.value < submitted.value) {
        assert obs[i].submittedAt.value in SubmittedTimes(g, c);
        submitted := Some(obs[i].submittedAt.value);
      }
    }
    for i := 0 to |correlated|
      invariant submitted.Some? ==> submitted.value in SubmittedTimes(g, c)
      invariant forall o | o in g && o.submittedAt.Some? :: submitted.Some? && submitted.value <= o.submittedAt.value
      invariant forall k | 0 <= k < i :: submitted.Some? && submitted.value <= correlated[k].attemptedAt
    {
      assert correlated[i] in c;
      if submitted.None? || correlated[i].attemptedAt < submitted.value {
        assert correlated[i].attemptedAt in SubmittedTimes(g, c);
        submitted := Some(correlated[i].attemptedAt);
      }
    }
    assert forall t | t in SubmittedTimes(g, c) :: submitted.Some? && submitted.value <= t;
    ghost var times := set r | r in g :: r.firstSeen;
    assert firstSeen in times;
    assert IsMin(firstSeen, times);
    if submitted.Some? {
      assert IsMin(submitted.value, SubmittedTimes(g, c));
    } else if SubmittedTimes(g, c) != {} {
      ghost var t := Member(SubmittedTimes(g, c));
      assert false;
    }
  }

  datatype Verdict = Conflict | UnknownRun | Reduced(run: Run)

  method DistinctShas(obs: seq<RunObs>) returns (recorded: Option<int>, reviewed: Option<int>, differ: bool)
    ensures differ <==> RecordedShasDiffer(Elems(obs)) || ReviewedShasDiffer(Elems(obs))
    ensures !differ ==> forall o | o in Elems(obs) :: (o.recordedSha.Some? ==> o.recordedSha == recorded)
                                                      && (o.reviewedSha.Some? ==> o.reviewedSha == reviewed)
    ensures recorded.Some? ==> exists o | o in Elems(obs) :: o.recordedSha == recorded
    ensures reviewed.Some? ==> exists o | o in Elems(obs) :: o.reviewedSha == reviewed
  {
    recorded, reviewed, differ := None, None, false;
    for i := 0 to |obs|
      invariant differ ==> RecordedShasDiffer(Elems(obs)) || ReviewedShasDiffer(Elems(obs))
      invariant !differ ==> forall k | 0 <= k < i :: (obs[k].recordedSha.Some? ==> obs[k].recordedSha == recorded)
                                                     && (obs[k].reviewedSha.Some? ==> obs[k].reviewedSha == reviewed)
      invariant recorded.Some? ==> exists o | o in Elems(obs) :: o.recordedSha == recorded
      invariant reviewed.Some? ==> exists o | o in Elems(obs) :: o.reviewedSha == reviewed
    {
      var o := obs[i];
      assert o in Elems(obs);
      if o.recordedSha.Some? {
        if recorded.None? {
          recorded := o.recordedSha;
        } else if recorded != o.recordedSha {
          differ := true;
        }
      }
      if o.reviewedSha.Some? {
        if reviewed.None? {
          reviewed := o.reviewedSha;
        } else if reviewed != o.reviewedSha {
          differ := true;
        }
      }
    }
  }

  /** One run's observations: contradictory, of unknown status, or one reduced run. */
  method ReduceGroup(id: int, obs: seq<RunObs>, correlated: seq<Submission>) returns (v: Verdict)
    requires obs != []
    ensures v == Conflict <==> Contradicts(Elems(obs), Elems(correlated))
    ensures v == UnknownRun ==> HasStatus(Elems(obs), UnknownStatus)
    ensures v.Reduced? ==> ReducesTo(id, Elems(obs), Elems(correlated), v.run) && v.run.status != UnknownStatus
  {
    var status := AgreedStatus(obs);
    var firstSeen, submitted := EarliestTimes(obs, correlated);
    var recorded, reviewed, differ := DistinctShas(obs);
    if status.None? || (submitted.Some? && submitted.value > firstSeen) || differ {
      return Conflict;
    }
    if status == Some(UnknownStatus) {
      return UnknownRun;
    }
    var proven := exists o | o in obs :: o.status == Completed && o.proof == ProofFor(o.reporter) && o.reviewedSha.Some?;
    var automatic := forall o | o in obs :: o.origin == Automatic;
    v := Reduced(Run(id, status.value, reviewed, proven && recorded.Some? && reviewed == recorded, firstSeen, automatic,
                     if submitted.Some? then submitted.value else firstSeen, submitted.Some?));
    assert ReducesTo(id, Elems(obs), Elems(correlated), v.run) by {
      assert forall o :: o in Elems(obs) <==> o in obs;
    }
  }

  ghost predicate Grouped(groups: map<int, seq<RunObs>>, actors: set<int>, list: seq<RunObs>) {
    && (forall r | r in list && r.actor in actors :: r.runId in groups && r in groups[r.runId])
    && (forall id | id in groups :: groups[id] != [] && forall r | r in groups[id] :: r in list && r.actor in actors && r.runId == id)
  }

  method GroupRuns(actors: set<int>, list: seq<RunObs>) returns (misattributed: bool, groups: map<int, seq<RunObs>>)
    ensures misattributed <==> exists r | r in list :: r.actor !in actors && r.reporter == McpReport
    ensures Grouped(groups, actors, list)
  {
    misattributed, groups := false, map[];
    for i := 0 to |list|
      invariant misattributed <==> exists r | r in list[..i] :: r.actor !in actors && r.reporter == McpReport
      invariant Grouped(groups, actors, list[..i])
    {
      var o := list[i];
      assert list[..i + 1] == list[..i] + [o];
      if o.actor !in actors {
        misattributed := misattributed || o.reporter == McpReport;
      } else {
        var group := (if o.runId in groups then groups[o.runId] else []) + [o];
        groups := groups[o.runId := group];
      }
    }
    assert list[..|list|] == list;
  }

  method CorrelatedOf(submissions: seq<Submission>, id: int) returns (c: seq<Submission>)
    ensures Elems(c) == set s | s in submissions && s.runId == Some(id) && s.outcome != NotSubmitted
  {
    c := [];
    for i := 0 to |submissions|
      invariant forall s :: s in c <==> s in submissions[..i] && s.runId == Some(id) && s.outcome != NotSubmitted
    {
      assert submissions[..i + 1] == submissions[..i] + [submissions[i]];
      if submissions[i].runId == Some(id) && submissions[i].outcome != NotSubmitted {
        c := c + [submissions[i]];
      }
    }
    assert submissions[..|submissions|] == submissions;
  }

  method LeastOf(s: set<int>) returns (m: int)
    requires s != {}
    ensures IsMin(m, s)
  {
    ghost var w := Member(s);
    m :| m in s;
    var rest := s - {m};
    while rest != {}
      invariant rest <= s && m in s
      invariant forall x | x in s && x !in rest :: m <= x
      decreases rest
    {
      ghost var y := Member(rest);
      var x :| x in rest;
      rest := rest - {x};
      if x < m {
        m := x;
      }
    }
  }

  ghost predicate SortedRuns(runs: seq<Run>) {
    forall i, j | 0 <= i < j < |runs| :: RunBefore(runs[i], runs[j]) && runs[i].id != runs[j].id
  }

  lemma InsertedSorted(runs: seq<Run>, run: Run, k: nat)
    requires SortedRuns(runs) && k <= |runs| && forall r | r in runs :: r.id != run.id
    requires forall i | 0 <= i < k :: RunBefore(runs[i], run)
    requires k < |runs| ==> !RunBefore(runs[k], run)
    ensures SortedRuns(runs[..k] + [run] + runs[k..])
    ensures forall r :: r in runs[..k] + [run] + runs[k..] <==> r in runs || r == run
  {
    var out := runs[..k] + [run] + runs[k..];
    forall i | k <= i < |runs| ensures RunBefore(run, runs[i]) {
      if i > k {
        assert RunBefore(runs[k], runs[i]);
      }
    }
    forall i, j | 0 <= i < j < |out| ensures RunBefore(out[i], out[j]) && out[i].id != out[j].id {
      var a := if i < k then i else i - 1;
      var b := if j < k then j else j - 1;
      if i != k {
        assert out[i] == runs[a] && runs[a] in runs;
      }
      if j != k {
        assert out[j] == runs[b] && runs[b] in runs;
      }
    }
    assert runs == runs[..k] + runs[k..];
  }

  method InsertRun(runs: seq<Run>, run: Run) returns (out: seq<Run>)
    requires SortedRuns(runs) && forall r | r in runs :: r.id != run.id
    ensures SortedRuns(out) && forall r :: r in out <==> r in runs || r == run
  {
    var k := 0;
    while k < |runs| && RunBefore(runs[k], run)
      invariant 0 <= k <= |runs|
      invariant forall i | 0 <= i < k :: RunBefore(runs[i], run)
    {
      k := k + 1;
    }
    out := runs[..k] + [run] + runs[k..];
    InsertedSorted(runs, run, k);
  }

  datatype ReducedRuns = Runs(runs: seq<Run>) | Blocked(rule: RuleId)

  method ReduceRuns(ghost f: Facts, actors: set<int>, list: seq<RunObs>,
          submissions: seq<Submission>) returns (r: ReducedRuns)
    requires f.actors == actors && f.runs == Elems(list) && f.submissions == Elems(submissions)
    ensures r.Runs? <==> !Misattributed(f) && BadRuns(f) == {}
    ensures r.Runs? ==> AreRuns(f, r.runs)
    ensures r.Blocked? ==> r.rule == if Misattributed(f) then R08HistoryUnresolved else FirstBadRule(f)
  {
    var misattributed, groups := GroupRuns(actors, list);
    assert misattributed == Misattributed(f);
    if misattributed {
      return Blocked(R08HistoryUnresolved);
    }
    GroupsAreRunGroups(f, groups, list);
    var todo := groups.Keys;
    var runs: seq<Run> := [];
    while todo != {}
      invariant todo <= RunIds(f) && ReducedSoFar(f, todo, runs)
      decreases todo
    {
      var id := LeastOf(todo);
      var correlated := CorrelatedOf(submissions, id);
      assert Elems(correlated) == Correlated(f, id);
      var v := ReduceGroup(id, groups[id], correlated);
      if !v.Reduced? {
        FirstBad(f, id, todo, runs);
        return Blocked(if v == Conflict then R08RunContradiction else R08HistoryUnresolved);
      }
      ghost var was := runs;
      runs := InsertRun(runs, v.run);
      OneMoreReduced(f, todo, was, id, v.run, runs);
      todo := todo - {id};
    }
    AllReduced(f, runs);
    r := Runs(runs);
  }

  /** Every id outside `todo` has passed and has its run; every one left comes later. */
  ghost predicate SoFar(ids: set<int>, todo: set<int>, runs: seq<Run>, passed: Run -> bool, bad: int -> bool) {
    && SortedRuns(runs)
    && (forall x | x in runs :: x.id in ids && x.id !in todo && passed(x))
    && (forall id | id in ids && id !in todo :: !bad(id) && exists x | x in runs :: x.id == id)
    && (forall id, x | id in ids && id !in todo && x in todo :: id < x)
  }

  ghost predicate ReducedSoFar(f: Facts, todo: set<int>, runs: seq<Run>) {
    SoFar(RunIds(f), todo, runs, (x: Run) => ReducesTo(x.id, RunGroup(f, x.id), Correlated(f, x.id), x),
            id => BadRun(f, id))
  }

  lemma OneMore(ids: set<int>, todo: set<int>, runs: seq<Run>, passed: Run -> bool, bad: int -> bool, run: Run,
          more: seq<Run>)
    requires todo <= ids && SoFar(ids, todo, runs, passed, bad) && IsMin(run.id, todo)
    requires passed(run) && !bad(run.id) && SortedRuns(more) && forall r :: r in more <==> r in runs || r == run
    ensures SoFar(ids, todo - {run.id}, more, passed, bad)
  {
    forall x | x in ids && x !in todo - {run.id} ensures exists r | r in more :: r.id == x {
      if x == run.id {
        assert run in more;
      } else {
        var r :| r in runs && r.id == x;
        assert r in more;
      }
    }
  }

  lemma OneMoreReduced(f: Facts, todo: set<int>, runs: seq<Run>, id: int, run: Run, more: seq<Run>)
    requires todo <= RunIds(f) && ReducedSoFar(f, todo, runs) && IsMin(id, todo) && run.id == id
    requires ReducesTo(id, RunGroup(f, id), Correlated(f, id), run)
    requires !Contradicts(RunGroup(f, id), Correlated(f, id)) && run.status != UnknownStatus
    requires SortedRuns(more) && forall r :: r in more <==> r in runs || r == run
    ensures ReducedSoFar(f, todo - {id}, more)
  {
    NotBad(f, id, run);
    OneMore(RunIds(f), todo, runs, (x: Run) => ReducesTo(x.id, RunGroup(f, x.id), Correlated(f, x.id), x),
            x => BadRun(f, x), run, more);
  }

  lemma NotBad(f: Facts, id: int, run: Run)
    requires ReducesTo(id, RunGroup(f, id), Correlated(f, id), run)
    requires !Contradicts(RunGroup(f, id), Correlated(f, id)) && run.status != UnknownStatus
    ensures !BadRun(f, id)
  {
    if HasStatus(RunGroup(f, id), UnknownStatus) {
      StatusDetermined(RunGroup(f, id), UnknownStatus, run.status);
    }
  }

  lemma AllReduced(f: Facts, runs: seq<Run>)
    requires ReducedSoFar(f, {}, runs)
    ensures BadRuns(f) == {} && AreRuns(f, runs)
  {
    assert forall id :: id !in BadRuns(f);
  }

  lemma GroupsAreRunGroups(f: Facts, groups: map<int, seq<RunObs>>, list: seq<RunObs>)
    requires f.runs == Elems(list) && Grouped(groups, f.actors, list)
    ensures groups.Keys == RunIds(f)
    ensures forall id | id in groups :: Elems(groups[id]) == RunGroup(f, id) && RunGroup(f, id) != {}
  {
    forall id | id in groups ensures id in RunIds(f) && Elems(groups[id]) == RunGroup(f, id) && RunGroup(f, id) != {} {
      assert groups[id][0] in groups[id];
      assert groups[id][0] in RunGroup(f, id) && groups[id][0] in f.runs;
      forall r ensures r in Elems(groups[id]) <==> r in RunGroup(f, id) {
      }
    }
    forall id ensures id in groups.Keys <==> id in RunIds(f) {
      if id in RunIds(f) {
        var r :| r in f.runs && r.actor in f.actors && r.runId == id;
        assert r in list;
      }
    }
  }

  lemma FirstBad(f: Facts, id: int, todo: set<int>, runs: seq<Run>)
    requires todo <= RunIds(f) && ReducedSoFar(f, todo, runs) && IsMin(id, todo) && BadRun(f, id)
    ensures BadRuns(f) != {} && Min(BadRuns(f)) == id
  {
    assert id in BadRuns(f);
    assert IsMin(id, BadRuns(f));
  }

  // ---- computeHistory ----

  ghost predicate KnowsReleased(f: Facts, released: set<int>) {
    forall id :: id in released <==> Released(f, id)
  }

  method LiveMarkersOf(ghost f: Facts, comments: seq<Comment>, account: int, released: set<int>)
    returns (markers: seq<Comment>, winner: Option<Comment>)
    requires f.comments == Elems(comments) && account == f.account && KnowsReleased(f, released)
    ensures Elems(markers) == LiveMarkers(f)
    ensures if LiveMarkers(f) == {} then winner == None else winner.Some? && IsWinner(f, winner.value)
  {
    markers, winner := [], None;
    for i := 0 to |comments|
      invariant forall c :: c in markers <==> c in comments[..i] && c in LiveMarkers(f)
      invariant if markers == [] then winner == None
                else winner.Some? && winner.value in markers && forall c | c in markers :: MarkerBefore(winner.value, c)
    {
      var c := comments[i];
      assert comments[..i + 1] == comments[..i] + [c];
      if c.author == account && !(c.kind == Reservation && c.id in released) {
        markers := markers + [c];
        if winner.None? || !MarkerBefore(winner.value, c) {
          winner := Some(c);
        }
      }
    }
    assert comments[..|comments|] == comments;
    if markers == [] {
      assert forall c :: c !in LiveMarkers(f);
    }
  }

  method AttemptsOf(ghost f: Facts, journal: seq<JournalEntry>, released: set<int>)
    returns (attempted: set<int>, uncertain: set<int>)
    requires f.journal == Elems(journal) && KnowsReleased(f, released)
    ensures forall id :: id in attempted <==> WasAttempted(f, id)
    ensures forall id :: id in uncertain <==> UncertainAttempt(f, id)
  {
    attempted := set e | e in journal && e.phase != ConfirmedUnattempted && e.reservation !in released :: e.reservation;
    uncertain := set e | e in journal && e.phase != ConfirmedUnattempted && e.reservation !in released
                         && (e.phase == UnknownPhase || e.transport != Some(CommentCall)) :: e.reservation;
  }

  /** Keep the earlier of two times for `id`. */
  method Earlier(times: map<int, nat>, id: int, at: nat) returns (next: map<int, nat>)
    ensures next.Keys == times.Keys + {id}
    ensures forall k | k in times && k != id :: next[k] == times[k]
    ensures next[id] <= at && (next[id] == at || (id in times && next[id] == times[id]))
    ensures id in times ==> next[id] <= times[id]
  {
    next := if id !in times || at < times[id] then times[id := at] else times;
  }

  /** Each deleted reservation seen so far, with the earliest time it was journaled at. */
  ghost predicate Tracks(f: Facts, done: set<JournalEntry>, deleted: map<int, nat>) {
    && (forall e | e in done && DeletedEntry(f, e) :: e.reservation in deleted && deleted[e.reservation] <= e.reservationCreatedAt)
    && (forall id | id in deleted :: exists e :: e in done && TimeOf(f, e, id, deleted[id]))
  }

  ghost predicate TimeOf(f: Facts, e: JournalEntry, id: int, at: nat) {
    DeletedEntry(f, e) && e.reservation == id && e.reservationCreatedAt == at
  }

  lemma TracksNext(f: Facts, done: set<JournalEntry>, deleted: map<int, nat>, e: JournalEntry, next: map<int, nat>)
    requires Tracks(f, done, deleted)
    requires if DeletedEntry(f, e) then
               var id := e.reservation;
               && next.Keys == deleted.Keys + {id} && (forall k | k in deleted && k != id :: next[k] == deleted[k])
               && next[id] <= e.reservationCreatedAt && (id in deleted ==> next[id] <= deleted[id])
               && (next[id] == e.reservationCreatedAt || (id in deleted && next[id] == deleted[id]))
             else next == deleted
    ensures Tracks(f, done + {e}, next)
  {
    forall id | id in next ensures exists x :: x in done + {e} && TimeOf(f, x, id, next[id]) {
      if id in deleted && next[id] == deleted[id] {
        var x :| x in done && TimeOf(f, x, id, deleted[id]);
        assert x in done + {e} && TimeOf(f, x, id, next[id]);
      } else {
        assert TimeOf(f, e, id, next[id]);
      }
    }
  }

  lemma TracksAll(f: Facts, deleted: map<int, nat>)
    requires Tracks(f, f.journal, deleted)
    ensures forall id :: id in deleted <==> IsDeleted(f, id)
    ensures forall id | id in deleted :: IsMin(deleted[id], DeletedTimes(f, id))
  {
    forall id | id in deleted ensures IsDeleted(f, id) && IsMin(deleted[id], DeletedTimes(f, id)) {
      var e :| e in f.journal && TimeOf(f, e, id, deleted[id]);
    }
  }

  method DeletedRequests(ghost f: Facts, journal: seq<JournalEntry>, comments: seq<Comment>, account: int,
          released: set<int>)
    returns (deleted: map<int, nat>)
    requires f.journal == Elems(journal) && f.comments == Elems(comments) && account == f.account
            && KnowsReleased(f, released)
    ensures forall id :: id in deleted <==> IsDeleted(f, id)
    ensures forall id | id in deleted :: IsMin(deleted[id], DeletedTimes(f, id))
  {
    var visible := set c | c in comments && c.author == account :: c.id;
    assert forall id :: id in visible <==> Visible(f, id);
    deleted := map[];
    ghost var done: set<JournalEntry> := {};
    for i := 0 to |journal|
      invariant done == Elems(journal[..i])
      invariant Tracks(f, done, deleted)
    {
      var e := journal[i];
      assert journal[..i + 1] == journal[..i] + [e];
      assert e in f.journal;
      var next := deleted;
      if (e.readback || e.phase != ConfirmedUnattempted) && e.reservation !in visible && e.reservation !in released {
        next := Earlier(deleted, e.reservation, e.reservationCreatedAt);
      }
      TracksNext(f, done, deleted, e, next);
      deleted := next;
      done := done + {e};
    }
    assert journal[..|journal|] == journal;
    TracksAll(f, deleted);
  }

  method RecordedOf(ghost f: Facts, named: set<Ref>, submissions: seq<Submission>,
          released: set<int>) returns (recorded: set<Ref>)
    requires f.named == named && f.submissions == Elems(submissions) && KnowsReleased(f, released)
    ensures recorded == RecordedRefs(f)
  {
    recorded := named;
    for i := 0 to |submissions|
      invariant forall ref :: ref in recorded <==>
        ref in named && !exists s | s in submissions[..i] ::
          ProvenUnsent(s) && (ref == SubmissionRef(s.id)
                              || (s.reservation.Some? && Released(f, s.reservation.value)
                                      && ref == CommentRef(s.reservation.value)))
    {
      var s := submissions[i];
      assert submissions[..i + 1] == submissions[..i] + [s];
      if ProvenUnsent(s) {
        recorded := recorded - {SubmissionRef(s.id)};
        if s.reservation.Some? && s.reservation.value in released {
          recorded := recorded - {CommentRef(s.reservation.value)};
        }
      }
    }
    assert submissions[..|submissions|] == submissions;
    assert forall ref :: ref in recorded <==> ref in RecordedRefs(f);
  }

  method LatestMine(ghost f: Facts, journal: seq<JournalEntry>, session: int,
          observation: int) returns (entry: Option<JournalEntry>)
    requires f.journal == Elems(journal) && f.session == session && f.observation == observation
    ensures if Mine(f) == {} then entry == None else entry.Some? && IsLatest(f, entry.value)
  {
    entry := None;
    for i := 0 to |journal|
      invariant if entry.None? then forall k | 0 <= k < i :: journal[k] !in Mine(f)
                else entry.value in Mine(f) && forall k | 0 <= k < i && journal[k] in Mine(f) :: EntryBefore(journal[k], entry.value)
    {
      var e := journal[i];
      assert e in f.journal;
      if e.session == session && e.observation == observation && (entry.None? || EntryBefore(entry.value, e)) {
        entry := Some(e);
      }
    }
    if entry.None? {
      assert forall e :: e !in Mine(f);
    }
  }

  method OwnReservation(ghost f: Facts, o: Observation, markers: seq<Comment>, attempted: set<int>, recorded: set<Ref>)
    returns (own: Option<Own>)
    requires f == FactsOf(o) && o.comments.Known? && o.submissions.Known? && Elems(markers) == LiveMarkers(f)
    requires (forall id :: id in attempted <==> WasAttempted(f, id)) && recorded == RecordedRefs(f)
    ensures IsOwn(f, own)
  {
    var journal := if o.journal.Known? then o.journal.value else [];
    var entry := LatestMine(f, journal, o.session, o.id);
    if entry.None? {
      return None;
    }
    var e := entry.value;
    var conflicting := exists x | x in journal :: x.session == o.session && x.observation == o.id
                         && x.recordedAt == e.recordedAt && x.reservation == e.reservation && !SameReadback(x, e);
    assert conflicting == ConflictingReadback(f, e);
    var known := exists m | m in markers :: m.id == e.reservation && Trusted(o.account, m);
    assert known == HasTrustedMarker(f, e.reservation);
    if conflicting || !e.readback || !known {
      own := Some(Own(Unconfirmed, e.reservation));
    } else {
      var foreign := exists x | x in journal ::
        x.reservation == e.reservation && (x.session != e.session || x.observation != e.observation);
      var consumed := exists x | x in o.submissions.value :: x.reservation == Some(e.reservation) && !ProvenUnsent(x);
      assert consumed == ConsumedBySubmission(f, e.reservation);
      var spent := exists m | m in markers :: m.id == e.reservation
                     && (m.kind != Reservation || m.markerSha != e.headSha || m.createdAt != e.reservationCreatedAt
                         || e.headSha != o.head || e.phase != ConfirmedUnattempted || e.reservation in attempted
                         || m.callsBot || CommentRef(m.id) in recorded || foreign || consumed);
      assert spent == HasSpentMarker(f, e);
      own := Some(Own(if spent then StaleOwn else Fresh, e.reservation));
    }
    assert own == Some(OwnFrom(f, e));
  }

  method MarkerRequests(ghost f: Facts, account: int, own: Option<Own>, markers: seq<Comment>, winner: Option<Comment>,
                        attempted: set<int>, uncertain: set<int>, recorded: set<Ref>)
    returns (q: set<Request>)
    requires account == f.account && Elems(markers) == LiveMarkers(f) && UniqueRecords(f) && recorded == RecordedRefs(f)
    requires if markers == [] then winner == None else winner.Some? && IsWinner(f, winner.value)
    requires forall id :: id in attempted <==> WasAttempted(f, id)
    requires forall id :: id in uncertain <==> UncertainAttempt(f, id)
    ensures forall r: Request :: r in q <==>
              exists m | m in markers :: r.ref == CommentRef(m.id) && r.at == m.createdAt && MarkerRequest(f, own, m, r.kind)
  {
    q := {};
    for i := 0 to |markers|
      invariant forall r: Request :: r in q <==>
        exists m | m in markers[..i] :: r.ref == CommentRef(m.id) && r.at == m.createdAt && MarkerRequest(f, own, m, r.kind)
    {
      var m := markers[i];
      assert markers[..i + 1] == markers[..i] + [m];
      assert m in LiveMarkers(f);
      OnlyWinner(f, winner.value, m);
      var freshWinner := own.Some? && own.value.state == Fresh && own.value.comment == m.id;
      if m.kind == Trigger {
        q := q + {Request(CommentRef(m.id), m.createdAt, if Trusted(account, m)
                && m.callsBot then ConfirmedComment else AmbiguousRequest)};
      } else if m.id in uncertain || m.callsBot {
        q := q + {Request(CommentRef(m.id), m.createdAt, AmbiguousRequest)};
      } else if (winner == Some(m) && !freshWinner) || m.id in attempted || CommentRef(m.id) in recorded {
        q := q + {Request(CommentRef(m.id), m.createdAt, ReservationRequest)};
      }
    }
    assert markers[..|markers|] == markers;
  }

  lemma OnlyWinner(f: Facts, w: Comment, m: Comment)
    requires UniqueRecords(f) && IsWinner(f, w)
    ensures IsWinner(f, m) <==> m == w
  {
    if IsWinner(f, m) {
      assert MarkerBefore(m, w) && MarkerBefore(w, m);
    }
  }

  method SubmissionRequests(ghost f: Facts, submissions: seq<Submission>, markers: seq<Comment>, deleted: map<int, nat>)
    returns (q: set<Request>)
    requires f.submissions == Elems(submissions) && Elems(markers) == LiveMarkers(f) && UniqueRecords(f)
    requires forall id :: id in deleted <==> IsDeleted(f, id)
    requires forall id | id in deleted :: IsMin(deleted[id], DeletedTimes(f, id))
    ensures forall r: Request :: r in q <==>
              exists s | s in submissions :: r.ref == SubmissionRef(s.id) && r.kind == McpRequest && !ProvenUnsent(s) && SubmissionTime(f, s, r.at)
  {
    q := {};
    for i := 0 to |submissions|
      invariant forall r: Request :: r in q <==>
        exists s | s in submissions[..i] :: r.ref == SubmissionRef(s.id) && r.kind == McpRequest && !ProvenUnsent(s) && SubmissionTime(f, s, r.at)
    {
      var s := submissions[i];
      assert submissions[..i + 1] == submissions[..i] + [s];
      if !ProvenUnsent(s) {
        var at := s.attemptedAt;
        if s.reservation.Some? {
          if exists m | m in markers :: m.id == s.reservation.value {
            var m :| m in markers && m.id == s.reservation.value;
            assert m in LiveMarkers(f);
            at := m.createdAt;
          } else if s.reservation.value in deleted {
            at := deleted[s.reservation.value];
          }
        }
        SubmissionTimeIs(f, s, markers, deleted, at);
        q := q + {Request(SubmissionRef(s.id), at, McpRequest)};
      }
    }
    assert submissions[..|submissions|] == submissions;
  }

  lemma SubmissionTimeIs(f: Facts, s: Submission, markers: seq<Comment>, deleted: map<int, nat>, at: int)
    requires Elems(markers) == LiveMarkers(f) && UniqueRecords(f)
    requires forall id :: id in deleted <==> IsDeleted(f, id)
    requires forall id | id in deleted :: IsMin(deleted[id], DeletedTimes(f, id))
    requires if s.reservation.None? then at == s.attemptedAt
             else if exists m | m in markers :: m.id == s.reservation.value then
               exists m | m in markers :: m.id == s.reservation.value && at == m.createdAt
             else at == if s.reservation.value in deleted then deleted[s.reservation.value] else s.attemptedAt
    ensures forall t :: SubmissionTime(f, s, t) <==> t == at
  {
    assert forall m :: m in markers <==> m in LiveMarkers(f);
  }

  method RequestsOf(ghost f: Facts, o: Observation, own: Option<Own>, markers: seq<Comment>,
          winner: Option<Comment>, released: set<int>,
                    attempted: set<int>, uncertain: set<int>, recorded: set<Ref>)
    returns (q: set<Request>)
    requires f == FactsOf(o) && o.comments.Known? && o.submissions.Known? && KnowsReleased(f, released)
    requires Elems(markers) == LiveMarkers(f) && UniqueRecords(f) && recorded == RecordedRefs(f)
    requires if markers == [] then winner == None else winner.Some? && IsWinner(f, winner.value)
    requires forall id :: id in attempted <==> WasAttempted(f, id)
    requires forall id :: id in uncertain <==> UncertainAttempt(f, id)
    ensures AreRequests(f, own, q)
  {
    var journal := if o.journal.Known? then o.journal.value else [];
    var byMarker := MarkerRequests(f, o.account, own, markers, winner, attempted, uncertain, recorded);
    var deleted := DeletedRequests(f, journal, o.comments.value, o.account, released);
    var bySubmission := SubmissionRequests(f, o.submissions.value, markers, deleted);
    var byDeletion := set id | id in deleted :: Request(CommentRef(id), deleted[id], AmbiguousRequest);
    q := byMarker + bySubmission + byDeletion;
    forall r: Request ensures r in q <==> IsRequest(f, own, r) {
      assert r in byDeletion <==> r.ref.CommentRef? && r.ref.comment in deleted && r.at == deleted[r.ref.comment] && r.kind == AmbiguousRequest;
      assert forall m :: m in markers <==> m in LiveMarkers(f);
    }
  }

  method EarliestOf(q: set<Request>) returns (r: Request)
    requires q != {}
    ensures IsEarliest(q, r)
  {
    ghost var w := Member(q);
    r :| r in q;
    var rest := q - {r};
    while rest != {}
      invariant rest <= q && r in q
      invariant forall x | x in q && x !in rest :: RequestBefore(r, x)
      decreases rest
    {
      ghost var y := Member(rest);
      var x :| x in rest;
      rest := rest - {x};
      if !RequestBefore(r, x) {
        r := x;
      }
    }
  }

  method LatestTime(q: set<Request>) returns (at: int)
    requires q != {}
    ensures IsMax(at, Times(q))
  {
    ghost var w := Member(q);
    var r :| r in q;
    at := r.at;
    var rest := q - {r};
    while rest != {}
      invariant rest <= q && at in Times(q)
      invariant forall x | x in q && x !in rest :: x.at <= at
      decreases rest
    {
      ghost var y := Member(rest);
      var x :| x in rest;
      rest := rest - {x};
      if at < x.at {
        assert x.at in Times(q);
        at := x.at;
      }
    }
  }

  method ConsumptionFrom(q: set<Request>) returns (c: Option<Consumption>)
    ensures IsConsumption(q, c)
  {
    if q == {} {
      return None;
    }
    var latest := LatestTime(q);
    var confirmed := set r | r in q && r.kind == ConfirmedComment;
    assert confirmed == Confirmed(q);
    var byComment := confirmed != {} && forall r | r in q :: r.kind !in {McpRequest, AmbiguousRequest};
    var first := EarliestOf(if byComment then confirmed else q);
    c := Some(Consumption(byComment, first.ref, first.at, latest));
    assert first in q;
  }

  /** The derived history of an observation, by the source's loops. */
  method ComputeHistory(o: Observation) returns (h: History)
    requires Validated(o)
    ensures HistoryOf(o, h)
  {
    if !HistoriesKnown(o) {
      return Unresolved(R08HistoryUnresolved);
    }
    ghost var f := FactsOf(o);
    UniqueFacts(o);
    var comments, submissions := o.comments.value, o.submissions.value;
    var journal := if o.journal.Known? then o.journal.value else [];
    var reduced := ReduceRuns(f, o.actors, o.runs.value, submissions);
    if reduced.Blocked? {
      return Unresolved(reduced.rule);
    }
    var runs := reduced.runs;
    var released := ReleasedReservations(f, comments, submissions, journal, o.account);
    var recorded := RecordedOf(f, NamedRefs(o), submissions, released);
    var markers, winner := LiveMarkersOf(f, comments, o.account, released);
    var attempted, uncertain := AttemptsOf(f, journal, released);
    NoMarkers(f, markers);
    var own := OwnReservation(f, o, markers, attempted, recorded);
    var q := RequestsOf(f, o, own, markers, winner, released, attempted, uncertain, recorded);
    var unseen := UnseenRequest(f, runs, submissions, markers, journal, released);
    if unseen || exists ref | ref in recorded :: !Accounted(runs, q, ref) {
      h := Unresolved(R08HistoryUnresolved);
    } else {
      var c := ConsumptionFrom(q);
      h := Resolved(runs, Elems(markers), own, winner, c);
    }
    assert Derives(f, runs, own, q, h);
  }

  lemma NoMarkers(f: Facts, markers: seq<Comment>)
    requires Elems(markers) == LiveMarkers(f)
    ensures markers == [] <==> LiveMarkers(f) == {}
  {
    if markers != [] {
      assert markers[0] in LiveMarkers(f);
    }
  }

  method UnseenRequest(ghost f: Facts, runs: seq<Run>, submissions: seq<Submission>, markers: seq<Comment>,
          journal: seq<JournalEntry>,
                       released: set<int>)
    returns (unseen: bool)
    requires f.submissions == Elems(submissions) && f.journal == Elems(journal) && Elems(markers) == LiveMarkers(f)
            && KnowsReleased(f, released)
    ensures unseen == HasUnseenRequest(f, runs)
  {
    if runs == [] {
      return false;
    }
    var bySubmission := exists s | s in submissions :: SubmissionUnseen(runs, s);
    var byMarker := exists m | m in markers :: MarkerUnseen(runs, m);
    var byAttempt := exists e | e in journal ::
      e.phase != ConfirmedUnattempted && e.reservation !in released && !Explained(runs, e.recordedAt);
    assert forall m :: m in markers <==> m in LiveMarkers(f);
    unseen := bySubmission || byMarker || byAttempt;
  }
}
