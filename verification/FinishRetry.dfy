/**
 Finishing one started session, with retries: two appended outputs, saved progress, an uncertain delivery state, a
 completion marker, and a process that may die after any effect.
 */
module FinishRetry {
  import opened Common

  datatype Output = Provenance | Usage

  /** Retry progress saved in the handoff; `owesUsage` is whether the start row landed. */
  datatype Progress = Progress(done: set<Output>, row: bool, uncertain: bool, owesUsage: bool)

  /**
   The files of one session: its handoff, a stale legacy twin, the completion marker, and the rows in the two sinks.
   A slip is a finish that wrote a row and then died, failed, or failed to save, before its progress was saved.
   */
  datatype Session = Session(handoff: Option<Progress>, twin: bool, marker: Option<set<Output>>,
                             provenanceRows: nat, usageRows: nat, provenanceSlips: nat, usageSlips: nat)

  datatype Logger = On | Off | RetryLater
  datatype Append = Wrote | NotWritten | WroteButFailed
  datatype Delegate = Delivered | NotDelivered | UnsureWritten | UnsureNotWritten

  /** Effects of one finish, in order; the process dies right after the effect `dies` names, or not at all. */
  datatype Effect = Appending | FirstSave | Delegating | SecondSave | MarkerWrite | TwinUnlink | FinalSave | Survives

  datatype Env = Env(explicit: bool, provenance: bool, logger: Logger, dies: Effect, append: Append, scanReadable: bool,
                     delegate: Delegate, firstSave: bool, secondSave: bool, finalSave: bool, markerWrite: bool,
                     twinUnlink: bool, unlink: bool)

  /** A finish in progress: the files and its variables. */
  datatype Running = Running(files: Session, done: set<Output>, saved: bool, uncertain: bool, alive: bool)

  function Save(m: Running, ok: bool): Running
    requires m.files.handoff.Some?
  {
    if ok then m.(files := m.files.(handoff := Some(Progress(m.done, m.saved, m.uncertain,
            m.files.handoff.value.owesUsage))))
    else m
  }

  // ---- the provenance output ----

  function WriteProvenance(m: Running, env: Env): Running
    requires m.files.handoff.Some?
  {
    if !env.provenance || Provenance in m.done then m
    else
      var wrote := env.append != NotWritten;
      var kept := env.append == Wrote && env.dies != Appending && env.firstSave;
      var files := m.files.(provenanceRows := m.files.provenanceRows + (if wrote then 1 else 0),
                            provenanceSlips := m.files.provenanceSlips + (if wrote && !kept then 1 else 0));
      if env.dies == Appending then m.(files := files, alive := false)
      else if env.append == Wrote then
        var next := Save(m.(files := files, done := m.done + {Provenance}, saved := false), env.firstSave);
        next.(alive := env.dies != FirstSave)
      else m.(files := files, saved := true)
  }

  // ---- the usage output ----

  datatype Delivery = Done | Failed | Unsure | Held

  /** After an uncertain delivery the sink is scanned first, and an unreadable sink holds. */
  function Deliver(m: Running, env: Env): (Delivery, bool, nat) {
    if m.uncertain && !env.scanReadable then (Held, true, 0)
    else if m.uncertain && m.files.usageRows > 0 then (Done, false, 0)
    else match env.delegate
      case Delivered => (Done, false, 1)
      case NotDelivered => (Failed, m.uncertain, 0)
      case UnsureWritten => (Unsure, true, 1)
      case UnsureNotWritten => (Unsure, true, 0)
  }

  function WriteUsage(m: Running, env: Env): Running
    requires m.files.handoff.Some?
  {
    if !m.alive || env.logger != On || !m.files.handoff.value.owesUsage || Usage in m.done then m
    else
      var (result, uncertain, rows) := Deliver(m, env);
      AfterDelivery(m, result, uncertain, rows, env)
  }

  /** Count the rows of one delivery, and save the progress unless nothing was delivered. */
  function AfterDelivery(m: Running, result: Delivery, uncertain: bool, rows: nat, env: Env): Running
    requires m.files.handoff.Some?
  {
    var kept := env.dies != Delegating && env.secondSave;
    var files := m.files.(usageRows := m.files.usageRows + rows,
                          usageSlips := m.files.usageSlips + (if rows > 0 && !kept then 1 else 0));
    if env.dies == Delegating then m.(files := files, alive := false)
    else
      var next := m.(files := files, done := if result == Done then m.done + {Usage} else m.done,
              uncertain := uncertain);
      if result in {Done, Unsure} then Save(next, env.secondSave).(alive := env.dies != SecondSave) else next
  }

  // ---- completion ----

  function Complete(m: Running, env: Env): bool
    requires m.files.handoff.Some?
  {
    var owes := m.files.handoff.value.owesUsage;
    && (!env.provenance || Provenance in m.done)
    && !(env.logger == RetryLater && owes) && (env.logger != On || !owes || Usage in m.done)
    && !m.saved
  }

  /** Unlink the legacy twin first, so that it never outlives the authoritative handoff. */
  function RemoveHandoff(s: Session, env: Env): Session {
    if s.twin && !env.twinUnlink then s
    else
      var untwinned := s.(twin := false);
      if env.dies == TwinUnlink || !env.unlink then untwinned else untwinned.(handoff := None)
  }

  function Close(m: Running, env: Env): Session
    requires m.files.handoff.Some?
  {
    if !m.alive then m.files
    else if Complete(m, env) then
      if !env.markerWrite then m.files
      else
        var marked := m.files.(marker := Some(m.done));
        if env.dies == MarkerWrite then marked else RemoveHandoff(marked, env)
    else if m.done != {} || m.saved then Save(m, env.finalSave).files
    else m.files
  }

  function Begin(s: Session): Running
    requires s.handoff.Some?
  {
    var p := s.handoff.value;
    Running(s, p.done, p.row, p.uncertain, true)
  }

  /** The files after one finish: explicit, or start-less and adopting this session's handoff. */
  function Finished(s: Session, env: Env): Session {
    if env.explicit && s.marker.Some? then (if s.handoff.Some? then RemoveHandoff(s, env) else s)
    else if s.handoff.None? then s
    else Close(WriteUsage(WriteProvenance(Begin(s), env), env), env)
  }

  /** No saved progress is left that would let a finish write this output again. */
  ghost predicate Recorded(s: Session, o: Output) {
    s.handoff.Some? ==> o in s.handoff.value.done
  }

  function Rows(s: Session, o: Output): nat {
    if o == Provenance then s.provenanceRows else s.usageRows
  }

  class SessionFiles {
    var handoff: Option<Progress>
    var twin: bool
    var marker: Option<set<Output>>
    var provenanceRows: nat
    var usageRows: nat
    ghost var provenanceSlips: nat
    ghost var usageSlips: nat

    ghost function State(): Session
      reads this
    {
      Session(handoff, twin, marker, provenanceRows, usageRows, provenanceSlips, usageSlips)
    }

    constructor (owesUsage: bool, staleTwin: bool)
      ensures State() == Session(Some(Progress({}, false, false, owesUsage)), staleTwin, None, 0, 0, 0, 0)
    {
      handoff, twin, marker := Some(Progress({}, false, false, owesUsage)), staleTwin, None;
      provenanceRows, usageRows, provenanceSlips, usageSlips := 0, 0, 0, 0;
    }

    method Unlink(env: Env)
      modifies this
      ensures State() == RemoveHandoff(old(State()), env)
    {
      if twin {
        if !env.twinUnlink {
          return;
        }
        twin := false;
      }
      if env.dies == TwinUnlink || !env.unlink {
        return;
      }
      handoff := None;
    }

    /** Replace the saved progress as a whole; a save that fails leaves the old progress. */
    method Persist(done: set<Output>, saved: bool, uncertain: bool, ok: bool)
      requires handoff.Some?
      modifies this
      ensures ok ==> forall o | o in done :: Recorded(State(), o)
      ensures !ok ==> forall o :: Recorded(State(), o) <==> Recorded(old(State()), o)
      ensures State() == if ok then old(State()).(handoff := Some(Progress(done, saved, uncertain,
              old(handoff).value.owesUsage)))
                         else old(State())
    {
      if ok {
        handoff := Some(Progress(done, saved, uncertain, handoff.value.owesUsage));
      }
    }

    method ProvenanceOutput(done0: set<Output>, saved0: bool, uncertain: bool, env: Env)
      returns (done: set<Output>, saved: bool, alive: bool)
      requires handoff.Some?
      modifies this
      ensures Running(State(), done, saved, uncertain,
              alive) == WriteProvenance(Running(old(State()), done0, saved0, uncertain, true), env)
      ensures handoff.Some?
    {
      done, saved, alive := done0, saved0, true;
      if !env.provenance || Provenance in done {
        return;
      }
      if env.append != NotWritten {
        provenanceRows := provenanceRows + 1;
        if !(env.append == Wrote && env.dies != Appending && env.firstSave) {
          provenanceSlips := provenanceSlips + 1;
        }
      }
      if env.dies == Appending {
        alive := false;
      } else if env.append == Wrote {
        done, saved := done + {Provenance}, false;
        Persist(done, saved, uncertain, env.firstSave);
        alive := env.dies != FirstSave;
      } else {
        saved := true;
      }
    }

    /** Count one delivery's rows, and save the progress. */
    method CountDelivery(done0: set<Output>, saved: bool, uncertain0: bool, result: Delivery, nowUncertain: bool, rows: nat,
                     env: Env)
      returns (done: set<Output>, uncertain: bool, alive: bool)
      requires handoff.Some?
      modifies this
      ensures Running(State(), done, saved, uncertain, alive) ==
              AfterDelivery(Running(old(State()), done0, saved, uncertain0, true), result, nowUncertain, rows, env)
      ensures handoff.Some?
    {
      done, uncertain, alive := done0, uncertain0, true;
      usageRows := usageRows + rows;
      if rows > 0 && !(env.dies != Delegating && env.secondSave) {
        usageSlips := usageSlips + 1;
      }
      if env.dies == Delegating {
        alive := false;
        return;
      }
      if result == Done {
        done := done + {Usage};
      }
      uncertain := nowUncertain;
      if result in {Done, Unsure} {
        Persist(done, saved, uncertain, env.secondSave);
        alive := env.dies != SecondSave;
      }
    }

    method UsageOutput(done0: set<Output>, saved: bool, uncertain0: bool, env: Env)
      returns (done: set<Output>, uncertain: bool, alive: bool)
      requires handoff.Some?
      modifies this
      ensures Running(State(), done, saved, uncertain,
              alive) == WriteUsage(Running(old(State()), done0, saved, uncertain0, true), env)
      ensures handoff.Some?
    {
      if env.logger != On || !handoff.value.owesUsage || Usage in done0 {
        return done0, uncertain0, true;
      }
      ghost var m := Running(State(), done0, saved, uncertain0, true);
      var (result, nowUncertain, rows) := Deliver(Running(Session(handoff, twin, marker, provenanceRows, usageRows,
              0, 0), done0, saved, uncertain0, true), env);
      assert Deliver(m, env) == (result, nowUncertain, rows);
      done, uncertain, alive := CountDelivery(done0, saved, uncertain0, result, nowUncertain, rows, env);
    }

    method Conclude(done: set<Output>, saved: bool, uncertain: bool, env: Env)
      requires handoff.Some?
      modifies this
      ensures State() == Close(Running(old(State()), done, saved, uncertain, true), env)
    {
      var owes := handoff.value.owesUsage;
      var usageDone := !(env.logger == RetryLater && owes) && (env.logger != On || !owes || Usage in done);
      if (!env.provenance || Provenance in done) && usageDone && !saved {
        if env.markerWrite {
          marker := Some(done);
          if env.dies != MarkerWrite {
            Unlink(env);
          }
        }
      } else if done != {} || saved {
        Persist(done, saved, uncertain, env.finalSave);
      }
    }

    /** One finish: the ordered appends, saves, marker write and unlinks. */
    method Finish(env: Env)
      modifies this
      ensures State() == Finished(old(State()), env)
    {
      if env.explicit && marker.Some? {
        if handoff.Some? {
          Unlink(env);
        }
        return;
      }
      if handoff.None? {
        return;
      }
      var uncertain := handoff.value.uncertain;
      var done, saved, alive := ProvenanceOutput(handoff.value.done, handoff.value.row, uncertain, env);
      if !alive {
        return;
      }
      done, uncertain, alive := UsageOutput(done, saved, uncertain, env);
      if alive {
        Conclude(done, saved, uncertain, env);
      }
    }
  }

  // ---- what every finish keeps ----

  ghost predicate ProgressSound(s: Session, done: set<Output>, uncertain: bool) {
    && (Provenance in done ==> 1 <= s.provenanceRows <= 1 + s.provenanceSlips)
    && (Provenance !in done ==> s.provenanceRows <= s.provenanceSlips)
    && (Usage in done ==> 1 <= s.usageRows <= 1 + s.usageSlips)
    && (Usage !in done ==> s.usageRows <= s.usageSlips + (if uncertain then 1 else 0))
  }

  ghost predicate MarkerSound(s: Session) {
    s.marker.Some? ==> (Provenance in s.marker.value ==> s.provenanceRows >= 1) && (Usage in s.marker.value ==> s.usageRows >= 1)
  }

  ghost predicate Bounded(s: Session) {
    s.provenanceRows <= 1 + s.provenanceSlips && s.usageRows <= 1 + s.usageSlips
  }

  ghost predicate Invariant(s: Session) {
    && Bounded(s) && MarkerSound(s)
    && (s.handoff.Some? ==> ProgressSound(s, s.handoff.value.done, s.handoff.value.uncertain))
    && (s.handoff.None? ==> s.marker.Some? && !s.twin)
  }

  /** The saved progress and the variables of a running finish agree with the sinks. */
  ghost predicate RunningSound(m: Running) {
    && Invariant(m.files) && m.files.handoff.Some?
    && (m.alive ==> RunningRows(m) && m.files.handoff.value.done <= m.done)
  }

  /** Until usage is delivered, the saved uncertainty is the current one. */
  ghost predicate Undelivered(m: Running) {
    RunningSound(m) && (m.alive ==> m.files.handoff.value.uncertain == m.uncertain)
  }

  /** In memory a done output may be known before it is saved; then its row is a slip or the saved one. */
  ghost predicate RunningRows(m: Running) {
    && (Provenance in m.done ==> 1 <= m.files.provenanceRows <= 1 + m.files.provenanceSlips)
    && (Provenance !in m.done ==> m.files.provenanceRows <= m.files.provenanceSlips)
    && (Usage in m.done ==> 1 <= m.files.usageRows <= 1 + m.files.usageSlips)
    && (Usage !in m.done ==> m.files.usageRows <= m.files.usageSlips + (if m.uncertain then 1 else 0))
  }

  lemma ProvenanceKeeps(m: Running, env: Env)
    requires Undelivered(m) && m.alive
    ensures Undelivered(WriteProvenance(m, env))
  {
  }

  /** What one delivery may report. */
  ghost predicate Reports(m: Running, result: Delivery, uncertain: bool, rows: nat) {
    && rows <= 1 && (result == Unsure ==> uncertain) && (result == Done ==> rows == 1 || m.files.usageRows > 0)
    && (rows == 1 ==> result in {Done, Unsure} && (m.uncertain ==> m.files.usageRows == 0))
    && (result in {Failed, Held} ==> uncertain == m.uncertain)
  }

  lemma DeliveryReports(m: Running, env: Env)
    ensures var (result, uncertain, rows) := Deliver(m, env); Reports(m, result, uncertain, rows)
  {
  }

  lemma DeliveryKeeps(m: Running, result: Delivery, uncertain: bool, rows: nat, env: Env)
    requires Undelivered(m) && m.alive && Usage !in m.done && Reports(m, result, uncertain, rows)
    ensures RunningSound(AfterDelivery(m, result, uncertain, rows, env))
  {
  }

  lemma UsageKeeps(m: Running, env: Env)
    requires Undelivered(m)
    ensures RunningSound(WriteUsage(m, env))
  {
    if m.alive && env.logger == On && m.files.handoff.value.owesUsage && Usage !in m.done {
      var (result, uncertain, rows) := Deliver(m, env);
      DeliveryReports(m, env);
      DeliveryKeeps(m, result, uncertain, rows, env);
    }
  }

  lemma RemovalKeeps(s: Session, env: Env)
    requires Invariant(s) && s.marker.Some?
    ensures Invariant(RemoveHandoff(s, env))
  {
  }

  lemma CloseKeeps(m: Running, env: Env)
    requires RunningSound(m)
    ensures Invariant(Close(m, env))
  {
    if m.alive && Complete(m, env) && env.markerWrite {
      RemovalKeeps(m.files.(marker := Some(m.done)), env);
    }
  }

  lemma BeginKeeps(s: Session)
    requires Invariant(s) && s.handoff.Some?
    ensures Undelivered(Begin(s)) && Begin(s).alive
  {
  }

  /** One finish, however it fails or dies, keeps the delivery bounds. */
  lemma FinishKeeps(s: Session, env: Env)
    requires Invariant(s)
    ensures Invariant(Finished(s, env))
  {
    if env.explicit && s.marker.Some? {
      if s.handoff.Some? {
        RemovalKeeps(s, env);
      }
    } else if s.handoff.Some? {
      BeginKeeps(s);
      ProvenanceKeeps(Begin(s), env);
      UsageKeeps(WriteProvenance(Begin(s), env), env);
      CloseKeeps(WriteUsage(WriteProvenance(Begin(s), env), env), env);
    }
  }

  function AfterFinishes(s: Session, envs: seq<Env>): Session {
    if envs == [] then s else Finished(AfterFinishes(s, envs[..|envs| - 1]), envs[|envs| - 1])
  }

  /**
   Over any sequence of finishes and retries: at most one row of each output beyond the slips, a marker lists only
   written outputs, and a legacy twin is gone once the handoff is.
   */
  lemma {:induction false} NeverOverDelivers(owesUsage: bool, twin: bool, envs: seq<Env>)
    ensures var s := AfterFinishes(Session(Some(Progress({}, false, false, owesUsage)), twin, None, 0, 0, 0, 0), envs);
            Bounded(s) && MarkerSound(s) && (s.handoff.None? ==> s.marker.Some? && !s.twin) && Invariant(s)
  {
    if envs != [] {
      NeverOverDelivers(owesUsage, twin, envs[..|envs| - 1]);
      var s := AfterFinishes(Session(Some(Progress({}, false, false, owesUsage)), twin, None, 0, 0, 0, 0),
              envs[..|envs| - 1]);
      FinishKeeps(s, envs[|envs| - 1]);
    }
  }

  /** The output is recorded in the files and known to the running finish. */
  ghost predicate Honours(m: Running, o: Output, rows: nat) {
    m.files.handoff.Some? && Recorded(m.files, o) && o in m.done && Rows(m.files, o) == rows
  }

  lemma ProvenanceHonours(m: Running, o: Output, rows: nat, env: Env)
    requires Honours(m, o, rows)
    ensures Honours(WriteProvenance(m, env), o, rows)
  {
  }

  lemma UsageHonours(m: Running, o: Output, rows: nat, env: Env)
    requires Honours(m, o, rows)
    ensures Honours(WriteUsage(m, env), o, rows)
  {
    var (result, uncertain, n) := Deliver(m, env);
    DeliveryHonours(m, o, rows, result, uncertain, n, env);
  }

  lemma DeliveryHonours(m: Running, o: Output, rows: nat, result: Delivery, uncertain: bool, n: nat, env: Env)
    requires Honours(m, o, rows)
    ensures o == Provenance ==> Honours(AfterDelivery(m, result, uncertain, n, env), o, rows)
  {
  }

  lemma CloseHonours(m: Running, o: Output, rows: nat, env: Env)
    requires Honours(m, o, rows)
    ensures Recorded(Close(m, env), o) && Rows(Close(m, env), o) == rows
  {
  }

  lemma FinishHonours(s: Session, o: Output, env: Env)
    requires Recorded(s, o)
    ensures Recorded(Finished(s, env), o) && Rows(Finished(s, env), o) == Rows(s, o)
  {
    if s.handoff.Some? && !(env.explicit && s.marker.Some?) {
      var m := WriteProvenance(Begin(s), env);
      ProvenanceHonours(Begin(s), o, Rows(s, o), env);
      UsageHonours(m, o, Rows(s, o), env);
      CloseHonours(WriteUsage(m, env), o, Rows(s, o), env);
    }
  }

  /** What a save is for: an output that the saved progress lists is never written again, whatever later finishes do. */
  lemma {:induction false} RecordedStaysRecorded(s: Session, o: Output, envs: seq<Env>)
    requires Recorded(s, o)
    ensures Recorded(AfterFinishes(s, envs), o) && Rows(AfterFinishes(s, envs), o) == Rows(s, o)
  {
    if envs != [] {
      RecordedStaysRecorded(s, o, envs[..|envs| - 1]);
      FinishHonours(AfterFinishes(s, envs[..|envs| - 1]), o, envs[|envs| - 1]);
    }
  }

  /** Once a marker exists, no later explicit finish writes a row or loses the marker. */
  lemma {:induction false} MarkedStaysDone(s: Session, envs: seq<Env>)
    requires s.marker.Some? && forall e | e in envs :: e.explicit
    ensures var t := AfterFinishes(s, envs);
            t.marker == s.marker && t.provenanceRows == s.provenanceRows && t.usageRows == s.usageRows
  {
    if envs != [] {
      MarkedStaysDone(s, envs[..|envs| - 1]);
      assert envs[|envs| - 1] in envs;
    }
  }

  /** A finish in which nothing fails completes: it leaves the marker, removes the files, and owes nothing. */
  lemma CleanFinishCompletes(s: Session, env: Env)
    requires Invariant(s) && s.handoff.Some? && s.marker.None?
    requires env.append == Wrote && env.delegate == Delivered && env.logger != RetryLater && env.dies == Survives
            && env.scanReadable
    requires env.provenance || !s.handoff.value.row
    requires env.firstSave && env.secondSave && env.markerWrite && env.twinUnlink && env.unlink
    requires env.provenance && s.handoff.value.row ==> Provenance !in s.handoff.value.done
    ensures var t := Finished(s, env);
            && t.handoff.None? && !t.twin && t.marker.Some?
            && (env.provenance ==> Provenance in t.marker.value && t.provenanceRows >= 1)
            && (env.logger == On && s.handoff.value.owesUsage ==> Usage in t.marker.value && t.usageRows >= 1)
  {
    FinishKeeps(s, env);
  }
}
