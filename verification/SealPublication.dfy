/** Publishing a sealed plan by staging and renaming, when any file operation may fail and the process may stop. */
module SealPublication {
  import opened Common
  import PlanParts
  import SealText
  import SealRoundTrip

  type Bytes = string
  type Hash = string

  /** The plan, the sidecar beside it, its archives named by a part of their hash, and files of other names. */
  datatype Path = Plan | Sidecar | Archive(short: string) | Temp(n: nat) | Elsewhere(name: string)

  type Files = map<Path, Bytes>

  /** The digest and the size of a text, and the name that the plan gives its sidecar. */
  datatype Documents = Documents(hash: Bytes -> Hash, size: Bytes -> nat, sidecar: string)

  /** 64 hexadecimal digits, and no two texts with the same digest. */
  ghost predicate Digests(d: Documents) {
    (forall x :: SealText.IsHash(d.hash(x))) && forall x, y | d.hash(x) == d.hash(y) :: x == y
  }

  /** The seal a plan carries. */
  function SealOf(plan: Bytes): SealText.Seal {
    SealText.ReadSeal(PlanParts.SplitPlan(SealText.PlanLook, plan).record)
  }

  /** The plan with the section that names the sidecar, and the hash and size of the record. */
  function SealedPlan(d: Documents, plan: Bytes, record: Bytes): Bytes {
    PlanParts.WithRecord(SealText.PlanLook, plan,
            SealText.RecordSection(d.sidecar, d.hash(record), d.size(record)))
  }

  datatype Outcome = Sealed | Refused | WriteFailed | RecoveryFailed(backup: Option<Path>) | Failed

  function Get(f: Files, p: Path): Option<Bytes> {
    if p in f then Some(f[p]) else None
  }

  class Disk {
    var files: Files
    ghost var trace: seq<Files>

    /** `trace` lists every state the files have been in; the last one is the present. */
    ghost predicate Valid() reads this {
      trace != [] && trace[|trace| - 1] == files
    }

    constructor (start: Files)
      ensures Valid() && files == start && trace == [start]
    {
      files, trace := start, [start];
    }

    /**
     * Finish a complete file under a fresh name beside its target. A failure may leave that file behind with any
     * part of the bytes, when removing it fails as well.
     */
    method Stage(content: Bytes) returns (tmp: Option<Path>)
      requires Valid()
      modifies this
      ensures Valid() && old(trace) <= trace
      ensures forall i | |old(trace)| <= i < |trace| :: Besides(old(files), trace[i])
      ensures tmp.Some? ==> tmp.value.Temp? && tmp.value !in old(files) && files == old(files)[tmp.value := content]
      ensures tmp.None? ==> Besides(old(files), files)
    {
      var n: nat, part: Bytes := *, *;
      if Temp(n) in files {
        return None;
      }
      ghost var before := files;
      files := files[Temp(n) := part];
      trace := trace + [files];
      if * {
        files := files[Temp(n) := content];
        trace := trace + [files];
        assert files == before[Temp(n) := content];
        return Some(Temp(n));
      }
      if * {
        files := files - {Temp(n)};
        trace := trace + [files];
        assert files == before;
      }
      tmp := None;
    }

    /** An exclusive copy: never over an existing file; a failure may leave part of one. */
    method CopyExclusive(source: Path, destination: Path) returns (ok: bool)
      requires Valid() && source in files && source != destination
      modifies this
      ensures Valid() && old(trace) <= trace
      ensures forall i | |old(trace)| <= i < |trace| :: Only(old(files), trace[i], destination)
      ensures destination in old(files) ==> !ok && files == old(files)
      ensures ok ==> files == old(files)[destination := old(files)[source]]
      ensures !ok ==> Only(old(files), files, destination)
    {
      ok := false;
      if destination in files {
        return;
      }
      ghost var before := files;
      var bytes, part: Bytes := files[source], *;
      if * {
        files := files[destination := part];
        trace := trace + [files];
        if * {
          files := files[destination := bytes];
          trace := trace + [files];
          assert files == before[destination := bytes];
          ok := true;
        }
      }
    }

    method Rename(source: Path, destination: Path) returns (ok: bool)
      requires Valid() && source in files && source != destination
      modifies this
      ensures Valid() && trace == old(trace) + [files]
      ensures ok ==> files == (old(files) - {source})[destination := old(files)[source]]
      ensures !ok ==> files == old(files)
    {
      ok := false;
      if * {
        files := (files - {source})[destination := files[source]];
        ok := true;
      }
      trace := trace + [files];
    }

    method Remove(p: Path) returns (ok: bool)
      requires Valid()
      modifies this
      ensures Valid() && trace == old(trace) + [files]
      ensures ok ==> files == old(files) - {p}
      ensures !ok ==> files == old(files)
    {
      ok := false;
      if * {
        files := files - {p};
        ok := true;
      }
      trace := trace + [files];
    }
  }

  /** Nothing has changed but, perhaps, one fresh staging file. */
  ghost predicate Besides(before: Files, after: Files) {
    forall p: Path | !p.Temp? || p in before :: Get(after, p) == Get(before, p)
  }

  ghost predicate Only(before: Files, after: Files, q: Path) {
    (forall p | p != q :: Get(after, p) == Get(before, p)) && (q in before ==> Get(after, q) == Get(before, q))
  }

  // ---- what every state on the way must satisfy ----

  /** The plan names the sidecar and its exact bytes. */
  predicate SealedRecord(d: Documents, f: Files) {
    && Plan in f && Sidecar in f
    && SealOf(f[Plan]).path == Some(d.sidecar) && SealOf(f[Plan]).hash == Some(d.hash(f[Sidecar]))
  }

  /** Archives are named by the first twelve digits. */
  function Short(h: Hash): string {
    if |h| <= 12 then h else h[..12]
  }

  function ArchiveOf(d: Documents, record: Bytes): Path {
    Archive(Short(d.hash(record)))
  }

  /** The archive that the record the plan has sealed belongs in, once it is replaced. */
  function SealedArchive(d: Documents, f: Files): Option<string> {
    if SealedRecord(d, f) then Some(Short(d.hash(f[Sidecar]))) else None
  }

  /**
   * The bytes of the sealed record, if there is one, stand at the sidecar or in its archive `kept`; plan and
   * sidecar are each the old or the new one, and the plan is new only beside the new sidecar; no other file that
   * was there has changed.
   */
  ghost predicate Safe(kept: Option<string>, start: Files, record: Bytes, next: Bytes, f: Files) {
    && (kept.Some? ==> Get(f, Sidecar) == Get(start, Sidecar) || Get(f, Archive(kept.value)) == Get(start, Sidecar))
    && (Get(f, Sidecar) == Get(start, Sidecar) || Get(f, Sidecar) == Some(record))
    && (Get(f, Plan) == Get(start, Plan) || (Get(f, Plan) == Some(next) && Get(f, Sidecar) == Some(record)))
    && (forall p | p in start && p != Plan && p != Sidecar :: Get(f, p) == Get(start, p))
  }

  ghost predicate AllSafe(kept: Option<string>, start: Files, record: Bytes, next: Bytes, trace: seq<Files>, from: nat) {
    forall k | from <= k < |trace| :: Safe(kept, start, record, next, trace[k])
  }

  /** Plan and sidecar are the old ones, and only fresh files and the missing archive are new. */
  ghost predicate Unpublished(start: Files, f: Files) {
    forall p: Path | p == Plan || p == Sidecar || p in start :: Get(f, p) == Get(start, p)
  }

  lemma UnpublishedIsSafe(kept: Option<string>, start: Files, record: Bytes, next: Bytes, f: Files)
    requires Unpublished(start, f)
    ensures Safe(kept, start, record, next, f)
  {
  }

  /** More states that keep plan and sidecar as they were. */
  lemma StillUnpublished(kept: Option<string>, start: Files, record: Bytes, next: Bytes, seen: seq<Files>,
          trace: seq<Files>, from: nat)
    requires AllSafe(kept, start, record, next, seen, from) && seen <= trace
    requires forall i | |seen| <= i < |trace| :: Unpublished(start, trace[i])
    ensures AllSafe(kept, start, record, next, trace, from)
  {
    forall k | from <= k < |trace| ensures Safe(kept, start, record, next, trace[k]) {
      if k < |seen| {
        assert trace[k] == seen[k];
      } else {
        UnpublishedIsSafe(kept, start, record, next, trace[k]);
      }
    }
  }

  /** Stage one file on the way. */
  method StageSafely(disk: Disk, content: Bytes, ghost kept: Option<string>, ghost start: Files, ghost record: Bytes,
          ghost next: Bytes, ghost from: nat)
    returns (tmp: Option<Path>)
    requires disk.Valid() && Unpublished(start, disk.files) && AllSafe(kept, start, record, next, disk.trace, from)
            && from <= |disk.trace|
    modifies disk
    ensures disk.Valid() && old(disk.trace) <= disk.trace
    ensures Unpublished(start, disk.files) && AllSafe(kept, start, record, next, disk.trace, from)
    ensures tmp.Some? ==> tmp.value.Temp? && tmp.value !in start && tmp.value !in old(disk.files)
                          && disk.files == old(disk.files)[tmp.value := content]
  {
    ghost var before, seen := disk.files, disk.trace;
    tmp := disk.Stage(content);
    forall i | |seen| <= i < |disk.trace| ensures Unpublished(start, disk.trace[i]) {
      BesidesUnpublished(start, before, disk.trace[i]);
    }
    StillUnpublished(kept, start, record, next, seen, disk.trace, from);
    if tmp.None? {
      BesidesUnpublished(start, before, disk.files);
    } else {
      FreshThen(start, before, tmp.value);
    }
  }

  lemma FreshThen(start: Files, before: Files, q: Path)
    requires Unpublished(start, before) && q !in before
    ensures q !in start
  {
    assert q in start ==> Get(before, q) == Get(start, q);
  }

  lemma BesidesUnpublished(start: Files, before: Files, after: Files)
    requires Unpublished(start, before) && Besides(before, after)
    ensures Unpublished(start, after)
  {
    forall p: Path | p == Plan || p == Sidecar || p in start ensures Get(after, p) == Get(start, p) {
      assert Get(before, p) == Get(start, p);
    }
  }

  /** Copy the sealed record to its archive on the way. */
  method ArchiveSafely(disk: Disk, backup: Path, archive: Path, ghost kept: Option<string>, ghost start: Files,
          ghost record: Bytes, ghost next: Bytes, ghost from: nat)
    returns (ok: bool)
    requires disk.Valid() && Unpublished(start, disk.files) && AllSafe(kept, start, record, next, disk.trace, from)
            && from <= |disk.trace|
    requires backup.Temp? && backup in disk.files && archive.Archive? && archive !in start
    modifies disk
    ensures disk.Valid() && old(disk.trace) <= disk.trace
    ensures Unpublished(start, disk.files) && AllSafe(kept, start, record, next, disk.trace, from)
    ensures forall p: Path | p.Temp? :: Get(disk.files, p) == Get(old(disk.files), p)
    ensures ok ==> Get(disk.files, archive) == Some(old(disk.files)[backup])
  {
    ghost var before, seen := disk.files, disk.trace;
    ok := disk.CopyExclusive(backup, archive);
    forall i | |seen| <= i < |disk.trace| ensures Unpublished(start, disk.trace[i]) {
      assert Only(before, disk.trace[i], archive);
    }
    StillUnpublished(kept, start, record, next, seen, disk.trace, from);
  }

  /** The sidecar is new, the plan still old, and what the plan sealed is archived. */
  ghost predicate HalfPublished(kept: Option<string>, start: Files, record: Bytes, f: Files) {
    && Get(f, Plan) == Get(start, Plan) && Get(f, Sidecar) == Some(record)
    && (kept.Some? ==> Get(f, Archive(kept.value)) == Get(start, Sidecar))
    && (forall p | p in start && p != Plan && p != Sidecar :: Get(f, p) == Get(start, p))
  }

  lemma OneMoreSafe(kept: Option<string>, start: Files, record: Bytes, next: Bytes, seen: seq<Files>, f: Files, from: nat)
    requires AllSafe(kept, start, record, next, seen, from) && Safe(kept, start, record, next, f)
    ensures AllSafe(kept, start, record, next, seen + [f], from)
  {
  }

  /**
   * Sidecar first, then plan; when the plan cannot be published the sidecar is put back from the backup, or removed
   * if there was none.
   */
  method Publish(disk: Disk, nextSidecar: Path, nextPlan: Path, backup: Option<Path>,
                 ghost kept: Option<string>, ghost start: Files, ghost record: Bytes, ghost next: Bytes, ghost from: nat)
    returns (out: Outcome)
    requires disk.Valid() && Unpublished(start, disk.files) && AllSafe(kept, start, record, next, disk.trace, from)
            && from <= |disk.trace|
    requires nextSidecar.Temp? && nextPlan.Temp? && nextSidecar != nextPlan && nextSidecar !in start
            && nextPlan !in start
    requires Get(disk.files, nextSidecar) == Some(record) && Get(disk.files, nextPlan) == Some(next)
    requires backup.None? <==> Sidecar !in start
    requires backup.Some? ==> backup.value.Temp? && backup.value !in start && backup.value != nextSidecar && backup.value != nextPlan
                              && Get(disk.files, backup.value) == Get(start, Sidecar)
    requires kept.Some? ==> Get(disk.files, Archive(kept.value)) == Get(start, Sidecar)
    modifies disk
    ensures disk.Valid() && old(disk.trace) <= disk.trace && AllSafe(kept, start, record, next, disk.trace, from)
    ensures !out.Refused?
    ensures out.Sealed? ==> Get(disk.files, Plan) == Some(next) && Get(disk.files, Sidecar) == Some(record)
                            && Safe(kept, start, record, next, disk.files)
    ensures out.WriteFailed? || out.Failed? ==> Unpublished(start, disk.files)
    ensures out.RecoveryFailed? ==> HalfPublished(kept, start, record, disk.files) && out.backup == backup
                                    && (backup.Some? ==> Get(disk.files, backup.value) == Get(start, Sidecar))
  {
    ghost var seen := disk.trace;
    var ok := disk.Rename(nextSidecar, Sidecar);
    if !ok {
      OneMoreSafe(kept, start, record, next, seen, disk.files, from);
      return Failed;
    }
    assert HalfPublished(kept, start, record, disk.files);
    OneMoreSafe(kept, start, record, next, seen, disk.files, from);
    seen := disk.trace;
    ok := disk.Rename(nextPlan, Plan);
    OneMoreSafe(kept, start, record, next, seen, disk.files, from);
    if ok {
      return Sealed;
    }
    out := Restore(disk, backup, kept, start, record, next, from);
  }

  method Restore(disk: Disk, backup: Option<Path>, ghost kept: Option<string>, ghost start: Files, ghost record: Bytes,
          ghost next: Bytes, ghost from: nat)
    returns (out: Outcome)
    requires disk.Valid() && HalfPublished(kept, start, record, disk.files)
            && AllSafe(kept, start, record, next, disk.trace, from)
    requires backup.None? <==> Sidecar !in start
    requires backup.Some? ==> backup.value.Temp? && backup.value !in start && Get(disk.files, backup.value) == Get(start, Sidecar)
    modifies disk
    ensures disk.Valid() && old(disk.trace) <= disk.trace && AllSafe(kept, start, record, next, disk.trace, from)
    ensures out.WriteFailed? ==> Unpublished(start, disk.files)
    ensures !out.WriteFailed? ==> out == RecoveryFailed(backup) && HalfPublished(kept, start, record, disk.files)
                                  && (backup.Some? ==> Get(disk.files, backup.value) == Get(start, Sidecar))
  {
    ghost var seen := disk.trace;
    var restored;
    if backup.Some? {
      restored := disk.Rename(backup.value, Sidecar);
    } else {
      restored := disk.Remove(Sidecar);
    }
    OneMoreSafe(kept, start, record, next, seen, disk.files, from);
    out := if restored then WriteFailed else RecoveryFailed(backup);
  }

  /** Remove the staging files that are left, but not the one kept for recovery; a failure here hides nothing. */
  method CleanUp(disk: Disk, staged: seq<Path>, recovery: Option<Path>,
                 ghost kept: Option<string>, ghost start: Files, ghost record: Bytes, ghost next: Bytes, ghost from: nat)
    requires disk.Valid() && AllSafe(kept, start, record, next, disk.trace, from) && from <= |disk.trace| - 1
    requires forall i | 0 <= i < |staged| :: staged[i].Temp? && staged[i] !in start
    modifies disk
    ensures disk.Valid() && old(disk.trace) <= disk.trace && AllSafe(kept, start, record, next, disk.trace, from)
    ensures forall p | p !in staged || Some(p) == recovery :: Get(disk.files, p) == Get(old(disk.files), p)
  {
    ghost var before := disk.files;
    for i := 0 to |staged|
      invariant disk.Valid() && old(disk.trace) <= disk.trace && AllSafe(kept, start, record, next, disk.trace, from)
      invariant forall p | p !in staged || Some(p) == recovery :: Get(disk.files, p) == Get(before, p)
    {
      if Some(staged[i]) != recovery {
        ghost var seen, was := disk.trace, disk.files;
        assert Safe(kept, start, record, next, was);
        var ok := disk.Remove(staged[i]);
        OneMoreSafe(kept, start, record, next, seen, disk.files, from);
      }
    }
  }

  // ---- the command ----

  /** What the checks before any write find: the backup to make, and the archive to fill if it is missing. */
  datatype Preflight = Stop | Go(existing: Option<Bytes>, archive: Option<Path>)

  function Check(d: Documents, f: Files, replace: bool): Preflight {
    if Plan !in f then Stop
    else if Sidecar !in f then Go(None, None)
    else
      var existing := f[Sidecar];
      if SealedRecord(d, f) then
        var archive := ArchiveOf(d, existing);
        if archive in f && d.hash(f[archive]) != d.hash(existing) then Stop
        else Go(Some(existing), if archive in f then None else Some(archive))
      else if replace then Go(Some(existing), None)
      else Stop
  }

  /** After the checks an archive that is there holds the sealed bytes. */
  lemma ArchivedAlready(d: Documents, f: Files, replace: bool)
    requires Digests(d) && SealedRecord(d, f)
    ensures Check(d, f, replace).Go? ==>
              Check(d, f, replace).existing == Some(f[Sidecar])
              && ((Check(d, f, replace).archive == Some(ArchiveOf(d, f[Sidecar])) && ArchiveOf(d, f[Sidecar]) !in f)
                  || Get(f, ArchiveOf(d, f[Sidecar])) == Some(f[Sidecar]))
  {
  }

  /** The seal that names the sidecar, its hash and its size. */
  function SealFor(d: Documents, record: Bytes): SealText.Seal {
    SealText.Seal(Some(d.sidecar), Some(d.hash(record)), Some(d.size(record)))
  }

  /** Once both files are published, the plan names the sidecar and its bytes exactly when it can carry a record. */
  lemma SealedExactly(d: Documents, plan: Bytes, record: Bytes, f: Files)
    requires Digests(d) && '\n' !in d.sidecar
    requires Get(f, Plan) == Some(SealedPlan(d, plan, record)) && Get(f, Sidecar) == Some(record)
    ensures SealedRecord(d, f) <==> SealRoundTrip.Names(plan, d.sidecar)
    ensures SealOf(f[Plan]) == SealFor(d, record) <==> SealRoundTrip.Sealable(plan, d.sidecar, d.size(record))
  {
    SealRoundTrip.SealReadsBack(plan, d.sidecar, d.hash(record), d.size(record));
  }

  /**
   A plan that cannot carry a record is sealed with success, but its seal cannot be read. The next seal takes the
   sidecar for a foreign one: it stops, and with `replace` it overwrites the record without archiving it.
   */
  lemma UnreadSealIsLost(d: Documents, plan: Bytes, record: Bytes, f: Files)
    requires Digests(d) && '\n' !in d.sidecar && !SealRoundTrip.Names(plan, d.sidecar)
    requires Get(f, Plan) == Some(SealedPlan(d, plan, record)) && Get(f, Sidecar) == Some(record)
    ensures !SealedRecord(d, f) && Check(d, f, false) == Stop && Check(d, f, true) == Go(Some(record), None)
  {
    SealedExactly(d, plan, record, f);
  }

  /** A single fence line is such a plan: sealing it leaves no seal at all. */
  lemma OpenFenceLosesSeal(d: Documents, record: Bytes, f: Files)
    requires Digests(d) && '\n' !in d.sidecar
    requires Get(f, Plan) == Some(SealedPlan(d, "```", record)) && Get(f, Sidecar) == Some(record)
    ensures !SealedRecord(d, f) && SealOf(f[Plan]) == SealText.Seal(None, None, None)
    ensures Check(d, f, false) == Stop && Check(d, f, true) == Go(Some(record), None)
  {
    SealRoundTrip.OpenFenceCarriesNothing();
    SealRoundTrip.SealReadsBack("```", d.sidecar, d.hash(record), d.size(record));
    UnreadSealIsLost(d, "```", record, f);
  }

  /**
   * Seal a plan. `record` is the assembled review record, or None when plan or run inputs are refused. Whatever
   * fails, and wherever the process stops, every state is safe; every outcome but a failed recovery leaves plan and
   * sidecar both old or both new; and a failed recovery keeps the old record in the backup it names.
   */
  method SealPlan(disk: Disk, d: Documents, record: Option<Bytes>, replace: bool) returns (out: Outcome)
    requires disk.Valid() && Digests(d)
    modifies disk
    ensures disk.Valid() && old(disk.trace) <= disk.trace
    ensures out.Refused? ==> disk.files == old(disk.files) && disk.trace == old(disk.trace)
    ensures !out.Refused? ==> record.Some? && Plan in old(disk.files)
    ensures !out.Refused? ==>
              var next := SealedPlan(d, old(disk.files)[Plan], record.value);
              AllSafe(SealedArchive(d, old(disk.files)), old(disk.files), record.value, next, disk.trace, |old(disk.trace)| - 1)
    ensures out.WriteFailed? || out.Failed? ==>
              Get(disk.files, Plan) == Get(old(disk.files), Plan)
                      && Get(disk.files, Sidecar) == Get(old(disk.files), Sidecar)
    ensures out.Sealed? ==> Get(disk.files, Sidecar) == record
                            && Get(disk.files, Plan) == Some(SealedPlan(d, old(disk.files)[Plan], record.value))
    ensures out.Sealed? && '\n' !in d.sidecar ==>
              && (SealedRecord(d, disk.files) <==> SealRoundTrip.Names(old(disk.files)[Plan], d.sidecar))
              && (SealOf(disk.files[Plan]) == SealFor(d, record.value) <==>
                    SealRoundTrip.Sealable(old(disk.files)[Plan], d.sidecar, d.size(record.value)))
    ensures out.RecoveryFailed? ==>
              && Get(disk.files, Plan) == Get(old(disk.files), Plan) && Get(disk.files, Sidecar) == record
              && (out.backup.Some? <==> Sidecar in old(disk.files))
              && (out.backup.Some? ==> Get(disk.files, out.backup.value) == Get(old(disk.files), Sidecar))
  {
    var start, from: nat := disk.files, 0;
    var check := Check(d, start, replace);
    if check.Stop? || record.None? {
      return Refused;
    }
    var next := SealedPlan(d, start[Plan], record.value);
    if SealedRecord(d, start) {
      ArchivedAlready(d, start, replace);
    }
    out := Write(disk, SealedArchive(d, start), start, check, record.value, next);
    if out.Sealed? && '\n' !in d.sidecar {
      SealedExactly(d, start[Plan], record.value, disk.files);
    }
  }

  /** The staging files of one run. */
  datatype Staging = Staging(sidecar: Path, plan: Path, backup: Option<Path>)

  function TempsOf(w: Staging): seq<Path> {
    [w.sidecar, w.plan] + if w.backup.Some? then [w.backup.value] else []
  }

  ghost predicate Staged(start: Files, record: Bytes, next: Bytes, existing: Option<Bytes>, w: Staging, f: Files) {
    && w.sidecar.Temp? && w.plan.Temp? && w.sidecar != w.plan && w.sidecar !in start && w.plan !in start
    && Get(f, w.sidecar) == Some(record) && Get(f, w.plan) == Some(next)
    && (w.backup.Some? <==> existing.Some?)
    && (w.backup.Some? ==> w.backup.value.Temp? && w.backup.value !in start && w.backup.value != w.sidecar
                           && w.backup.value != w.plan && Get(f, w.backup.value) == existing)
  }

  /** Stage the new sidecar, the new plan and a backup of the old sidecar; a failure removes what was staged. */
  method StageAll(disk: Disk, ghost kept: Option<string>, start: Files, check: Preflight, record: Bytes, next: Bytes, ghost from: nat)
    returns (r: Option<Staging>)
    requires disk.Valid() && disk.files == start && check.Go? && from < |disk.trace|
    requires AllSafe(kept, start, record, next, disk.trace, from)
    modifies disk
    ensures disk.Valid() && old(disk.trace) <= disk.trace
    ensures Unpublished(start, disk.files) && AllSafe(kept, start, record, next, disk.trace, from)
    ensures r.Some? ==> Staged(start, record, next, check.existing, r.value, disk.files)
  {
    var nextSidecar := StageSafely(disk, record, kept, start, record, next, from);
    if nextSidecar.None? {
      return None;
    }
    var nextPlan := StageSafely(disk, next, kept, start, record, next, from);
    if nextPlan.None? {
      CleanUp(disk, [nextSidecar.value], None, kept, start, record, next, from);
      return None;
    }
    var backup: Option<Path> := None;
    if check.existing.Some? {
      backup := StageSafely(disk, check.existing.value, kept, start, record, next, from);
      if backup.None? {
        CleanUp(disk, [nextSidecar.value, nextPlan.value], None, kept, start, record, next, from);
        return None;
      }
    }
    r := Some(Staging(nextSidecar.value, nextPlan.value, backup));
  }

  /** The writes, between the checks and the end of the command. */
  method Write(disk: Disk, ghost kept: Option<string>, start: Files, check: Preflight, record: Bytes,
          next: Bytes) returns (out: Outcome)
    requires disk.Valid() && disk.files == start && check.Go? && Plan in start
    requires check.existing == Get(start, Sidecar)
    requires check.archive.Some? ==> check.existing.Some? && check.archive.value.Archive? && check.archive.value !in start
    requires kept.Some? ==> Sidecar in start
    requires kept.Some? ==> check.archive == Some(Archive(kept.value)) || Get(start, Archive(kept.value)) == Get(start, Sidecar)
    modifies disk
    ensures disk.Valid() && old(disk.trace) <= disk.trace && !out.Refused?
    ensures AllSafe(kept, start, record, next, disk.trace, |old(disk.trace)| - 1)
    ensures out.WriteFailed? || out.Failed? ==>
              Get(disk.files, Plan) == Get(start, Plan) && Get(disk.files, Sidecar) == Get(start, Sidecar)
    ensures out.Sealed? ==> Get(disk.files, Plan) == Some(next) && Get(disk.files, Sidecar) == Some(record)
    ensures out.RecoveryFailed? ==>
              && Get(disk.files, Plan) == Get(start, Plan) && Get(disk.files, Sidecar) == Some(record)
              && (out.backup.Some? <==> Sidecar in start)
              && (out.backup.Some? ==> Get(disk.files, out.backup.value) == Get(start, Sidecar))
  {
    ghost var from := |disk.trace| - 1;
    UnpublishedIsSafe(kept, start, record, next, start);
    var staging := StageAll(disk, kept, start, check, record, next, from);
    if staging.None? {
      return Failed;
    }
    var w := staging.value;
    out := Failed;
    var archived := true;
    if check.archive.Some? {
      archived := ArchiveSafely(disk, w.backup.value, check.archive.value, kept, start, record, next, from);
    }
    if archived {
      out := Publish(disk, w.sidecar, w.plan, w.backup, kept, start, record, next, from);
    }
    var recovery := if out.RecoveryFailed? then out.backup else None;
    CleanUp(disk, TempsOf(w), recovery, kept, start, record, next, from);
  }

  /** An archive copy that failed half-way stops every later seal of the same record, until it is moved aside. */
  lemma PartialArchiveStops(d: Documents, f: Files, replace: bool)
    requires Digests(d) && SealedRecord(d, f)
    requires ArchiveOf(d, f[Sidecar]) in f && f[ArchiveOf(d, f[Sidecar])] != f[Sidecar]
    ensures Check(d, f, replace) == Stop
  {
    assert d.hash(f[ArchiveOf(d, f[Sidecar])]) != d.hash(f[Sidecar]);
  }
}
