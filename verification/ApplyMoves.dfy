/**
 * The layout apply step: directories and file moves run in order, any file operation may fail, and every
 * state the files pass through is kept in view.
 */
module ApplyMoves {
  import opened Common

  type Path = string
  type Bytes = string
  type Files = map<Path, Bytes>

  datatype Move = Move(source: Path, destination: Path, tracked: bool)
  datatype Operation = MakeDirectory(path: Path) | MoveFile(move: Move)

  /** What the summary says of an operation: as planned, or carried out by copying. */
  datatype Label = AsPlanned(op: Operation) | Copied(move: Move)

  datatype Result =
    | Thrown
    | Partial(completed: seq<Label>, failed: Label, pending: seq<Operation>, staged: nat, unstaged: nat)
    | Finished(completed: seq<Label>, staged: nat, unstaged: nat)

  datatype LinkResult = Linked | NeedsCopy | LinkFailed
  datatype CopyResult = CopyDone | CopyExists | CopyFailed
  datatype MakeResult = Made | Existed | MakeFailed

  function OpOf(l: Label): Operation {
    match l
    case AsPlanned(op) => op
    case Copied(m) => MoveFile(m)
  }

  function Ops(labels: seq<Label>): seq<Operation> {
    seq(|labels|, i requires 0 <= i < |labels| => OpOf(labels[i]))
  }

  // ---- what one move may do to the files ----

  function Get(f: Files, p: Path): Option<Bytes> {
    if p in f then Some(f[p]) else None
  }

  /** Nothing but the two paths of the move is touched, and its bytes are complete at one of them. */
  ghost predicate Between(before: Files, m: Move, after: Files) {
    && (forall p | p != m.source && p != m.destination :: Get(after, p) == Get(before, p))
    && (Get(after, m.source) == Get(before, m.source)
        || (m.source in before && m.source !in after && Get(after, m.destination) == Get(before, m.source)))
    && (m.destination in before ==>
          Get(after, m.source) == Get(before, m.source) && Get(after, m.destination) == Get(before, m.destination))
  }

  ghost predicate MovedBy(before: Files, m: Move, after: Files) {
    && m.source in before && m.destination !in before && m.source != m.destination
    && after == (before - {m.source})[m.destination := before[m.source]]
  }

  // ---- the file system ----

  class Tree {
    var files: Files
    var directories: set<Path>
    ghost var trace: seq<Files>

    /** `trace` lists every state the files have been in; the last one is the present. */
    ghost predicate Valid() reads this {
      trace != [] && trace[|trace| - 1] == files
    }

    constructor (start: Files, directories: set<Path>)
      ensures Valid() && files == start && trace == [start] && this.directories == directories
    {
      files, this.directories, trace := start, directories, [start];
    }

    method Mkdir(p: Path) returns (r: MakeResult)
      requires Valid()
      modifies this`directories
      ensures Valid()
      ensures r.Made? ==> directories == old(directories) + {p}
      ensures !r.Made? ==> directories == old(directories)
    {
      if * {
        directories := directories + {p};
        return Made;
      } else if * {
        return Existed;
      }
      r := MakeFailed;
    }

    /** Look at a path; the call itself may fail. */
    method Entry(p: Path) returns (r: Option<bool>)
      ensures r.Some? ==> (r.value <==> p in files || p in directories)
    {
      if * { return None; }
      r := Some(p in files || p in directories);
    }

    method Stat(p: Path) returns (ok: bool)
      ensures ok ==> p in files
    {
      ok := false;
      if p in files {
        if * { ok := true; }
      }
    }

    /** A hard link: never over an existing entry. */
    method Link(source: Path, destination: Path) returns (r: LinkResult)
      requires Valid()
      modifies this`files, this`trace
      ensures Valid() && trace == old(trace) + [files]
      ensures r.Linked? ==> source in old(files) && destination !in old(files)
                            && files == old(files)[destination := old(files)[source]]
      ensures !r.Linked? ==> files == old(files)
    {
      if * {
        r := LinkFailed;
      } else if * {
        r := NeedsCopy;
      } else if source in files && destination !in files && destination !in directories {
        files := files[destination := files[source]];
        r := Linked;
      } else {
        r := LinkFailed;
      }
      trace := trace + [files];
    }

    /** An exclusive copy: it may stop after any part of the bytes, or before creating the file. */
    method CopyExclusive(source: Path, destination: Path, part: Bytes) returns (r: CopyResult)
      requires Valid()
      modifies this`files, this`trace
      ensures Valid() && old(trace) <= trace
      ensures forall i | |old(trace)| <= i < |trace| ::
                trace[i] == old(files) || (destination !in old(files) && destination in trace[i]
                        && trace[i] == old(files)[destination := trace[i][destination]])
      ensures r.CopyDone? ==> source in old(files) && destination !in old(files)
                              && files == old(files)[destination := old(files)[source]]
      ensures r.CopyExists? ==> files == old(files)
      ensures r.CopyFailed? ==> files == old(files) || (destination !in old(files) && files == old(files)[destination := part])
    {
      r := CopyFailed;
      ghost var before := files;
      if destination in files || destination in directories {
        if * { r := CopyExists; }
      } else if source in files {
        var bytes := files[source];
        if * {
          files := files[destination := part];
          trace := trace + [files];
          if * {
            files := files[destination := bytes];
            r := CopyDone;
            assert files == before[destination := bytes];
          }
        }
      }
      trace := trace + [files];
    }

    method Unlink(p: Path) returns (ok: bool)
      requires Valid()
      modifies this`files, this`trace
      ensures Valid() && trace == old(trace) + [files]
      ensures ok ==> files == old(files) - {p}
      ensures !ok ==> files == old(files)
    {
      ok := false;
      if * {
        files := files - {p};
        ok := true;
      }
      trace := trace + [files];
    }

    /**
     * `git mv`, seen from outside: it leaves both files alone or renames the source to a free destination, exits
     * with 0 only after renaming, and the index may or may not follow.
     */
    method GitMove(source: Path, destination: Path) returns (status: int, indexed: bool)
      requires Valid()
      modifies this`files, this`trace
      ensures Valid() && trace == old(trace) + [files]
      ensures files == old(files) || MovedBy(old(files), Move(source, destination, true), files)
      ensures status == 0 ==> MovedBy(old(files), Move(source, destination, true), files)
    {
      status, indexed := 128, *;
      if source in files && destination !in files && source != destination {
        if * {
          files := (files - {source})[destination := files[source]];
          status := *;
        }
      }
      trace := trace + [files];
    }
  }

  // ---- one operation ----

  datatype Step = Step(ok: bool, name: Label, attempted: bool)

  ghost predicate TraceBetween(trace: seq<Files>, from: nat, before: Files, m: Move)
  {
    from <= |trace| && forall i | from <= i < |trace| :: Between(before, m, trace[i])
  }

  method MoveTracked(t: Tree, m: Move) returns (s: Step)
    requires t.Valid() && m.tracked
    modifies t
    ensures t.Valid() && old(t.trace) <= t.trace && TraceBetween(t.trace, |old(t.trace)|, old(t.files), m)
    ensures s.name == AsPlanned(MoveFile(m)) && s.attempted
    ensures s.ok ==> MovedBy(old(t.files), m, t.files)
    ensures t.directories == old(t.directories)
  {
    var status, indexed := t.GitMove(m.source, m.destination);
    var source := t.Entry(m.source);
    var destination := t.Entry(m.destination);
    var renamed := source == Some(false) && destination.Some? && m.destination in t.files;
    s := Step(status == 0 && renamed && indexed, AsPlanned(MoveFile(m)), true);
  }

  /** After an exclusive copy failed: a file this call created is removed if it can be. */
  method RemovePartial(t: Tree, m: Move, absentBefore: bool, ghost before: Files)
    requires t.Valid() && Between(before, m, t.files) && m.source in before
            && Get(t.files, m.source) == Get(before, m.source)
    requires m.destination in before ==> !absentBefore
    modifies t
    ensures t.Valid() && old(t.trace) <= t.trace && TraceBetween(t.trace, |old(t.trace)|, before, m)
    ensures Get(t.files, m.source) == Get(before, m.source) && t.directories == old(t.directories)
  {
    if absentBefore && m.source != m.destination {
      var there := t.Entry(m.destination);
      if there == Some(true) {
        var ok := t.Unlink(m.destination);
      }
    }
  }

  /** The copy that stands in for a link the file system refused. */
  method CopyInstead(t: Tree, m: Move, ghost before: Files) returns (ok: bool)
    requires t.Valid() && t.files == before && m.source in before
    modifies t
    ensures t.Valid() && old(t.trace) <= t.trace && TraceBetween(t.trace, |old(t.trace)|, before, m)
    ensures Get(t.files, m.source) == Get(before, m.source) && t.directories == old(t.directories)
    ensures ok ==> m.destination !in before && t.files == before[m.destination := before[m.source]]
  {
    var present := t.Entry(m.destination);
    if present.None? {
      return false;
    }
    var part: Bytes := *;
    var r := t.CopyExclusive(m.source, m.destination, part);
    if !r.CopyDone? {
      if !r.CopyExists? {
        RemovePartial(t, m, present == Some(false), before);
      }
      return false;
    }
    ok := true;
  }

  method MoveLoose(t: Tree, m: Move) returns (s: Step)
    requires t.Valid() && !m.tracked
    modifies t
    ensures t.Valid() && old(t.trace) <= t.trace && TraceBetween(t.trace, |old(t.trace)|, old(t.files), m)
    ensures OpOf(s.name) == MoveFile(m) && t.directories == old(t.directories)
    ensures s.ok ==> s.attempted && MovedBy(old(t.files), m, t.files)
    ensures !s.attempted ==> !s.ok && t.files == old(t.files) && t.trace == old(t.trace)
  {
    ghost var before := t.files;
    var planned := AsPlanned(MoveFile(m));
    var stat := t.Stat(m.source);
    if !stat {
      return Step(false, planned, false);
    }
    var linked := t.Link(m.source, m.destination);
    if linked.LinkFailed? {
      return Step(false, planned, true);
    }
    var name := planned;
    if linked.NeedsCopy? {
      var ok := CopyInstead(t, m, before);
      if !ok {
        return Step(false, planned, true);
      }
      name := Copied(m);
    }
    var gone := t.Unlink(m.source);
    s := Step(gone, name, true);
  }

  method Run(t: Tree, op: Operation) returns (s: Step)
    requires t.Valid()
    modifies t
    ensures t.Valid() && old(t.trace) <= t.trace && OpOf(s.name) == op
    ensures op.MakeDirectory? ==> t.files == old(t.files) && t.trace == old(t.trace) && s.attempted
    ensures op.MakeDirectory? && s.ok ==> op.path in t.directories
    ensures old(t.directories) <= t.directories
    ensures op.MoveFile? ==> TraceBetween(t.trace, |old(t.trace)|, old(t.files), op.move) && t.directories == old(t.directories)
    ensures op.MoveFile? && s.ok ==> s.attempted && MovedBy(old(t.files), op.move, t.files)
    ensures !s.attempted ==> !s.ok && t.files == old(t.files) && t.trace == old(t.trace) && t.directories == old(t.directories)
  {
    match op
    case MakeDirectory(p) =>
      var made := t.Mkdir(p);
      var ok := made.Made?;
      if made.Existed? {
        var seen := t.Entry(p);
        ok := seen.Some? && p in t.directories;
      }
      s := Step(ok, AsPlanned(op), true);
    case MoveFile(m) =>
      if m.tracked {
        s := MoveTracked(t, m);
      } else {
        s := MoveLoose(t, m);
      }
  }

  // ---- the whole plan ----

  /**
   The paths of a plan: every file is listed once, so sources differ; and the preflight refused destinations that
   exist already or that two moves share, so no move ends where another starts or ends.
   */
  ghost predicate Planned(ops: seq<Operation>) {
    forall i, j | 0 <= i < |ops| && 0 <= j < |ops| && ops[i].MoveFile? && ops[j].MoveFile? ::
      && ops[i].move.source != ops[j].move.destination
      && (i != j ==> ops[i].move.source != ops[j].move.source && ops[i].move.destination != ops[j].move.destination)
  }

  ghost predicate Touches(ops: seq<Operation>, p: Path) {
    exists i :: 0 <= i < |ops| && ops[i].MoveFile? && (p == ops[i].move.source || p == ops[i].move.destination)
  }

  /** Every planned file is whole at its source or its destination, and nothing else has changed. */
  ghost predicate Kept(start: Files, ops: seq<Operation>, f: Files) {
    && (forall i | 0 <= i < |ops| && ops[i].MoveFile? :: KeptMove(start, ops[i].move, f))
    && (forall p | !Touches(ops, p) :: Get(f, p) == Get(start, p))
  }

  ghost predicate KeptMove(start: Files, m: Move, f: Files) {
    && (m.source in start ==>
          Get(f, m.source) == Get(start, m.source) || (m.source !in f && Get(f, m.destination) == Get(start, m.source)))
    && (m.source !in start ==> m.source !in f)
    && (m.destination in start ==> Get(f, m.destination) == Get(start, m.destination) && Get(f, m.source) == Get(start, m.source))
  }

  /** The moves from `n` on have not been touched. */
  ghost predicate Untouched(start: Files, ops: seq<Operation>, n: nat, f: Files) {
    forall i | n <= i < |ops| && ops[i].MoveFile? ::
      Get(f, ops[i].move.source) == Get(start, ops[i].move.source)
              && Get(f, ops[i].move.destination) == Get(start, ops[i].move.destination)
  }

  lemma KeptStep(start: Files, ops: seq<Operation>, n: nat, before: Files, after: Files)
    requires Planned(ops) && n < |ops| && ops[n].MoveFile?
    requires Kept(start, ops, before) && Untouched(start, ops, n, before) && Between(before, ops[n].move, after)
    ensures Kept(start, ops, after) && Untouched(start, ops, n + 1, after)
  {
    var m := ops[n].move;
    assert Get(before, m.source) == Get(start, m.source) && Get(before, m.destination) == Get(start, m.destination);
    forall i | 0 <= i < |ops| && ops[i].MoveFile? ensures KeptMove(start, ops[i].move, after) {
      var x := ops[i].move;
      assert KeptMove(start, x, before);
      if i != n {
        assert x.source != m.source && x.source != m.destination && x.destination != m.source
                && x.destination != m.destination;
        assert Get(after, x.source) == Get(before, x.source) && Get(after, x.destination) == Get(before, x.destination);
      }
    }
    forall i | n + 1 <= i < |ops| && ops[i].MoveFile?
      ensures Get(after, ops[i].move.source) == Get(start, ops[i].move.source)
      ensures Get(after, ops[i].move.destination) == Get(start, ops[i].move.destination)
    {
      var x := ops[i].move;
      assert x.source != m.source && x.source != m.destination && x.destination != m.source
              && x.destination != m.destination;
      assert Get(after, x.source) == Get(before, x.source) && Get(after, x.destination) == Get(before, x.destination);
    }
    forall p | !Touches(ops, p) ensures Get(after, p) == Get(start, p) {
      assert p != m.source && p != m.destination;
    }
  }

  /** A finished move has its bytes at the destination only. */
  ghost predicate Arrived(start: Files, m: Move, f: Files) {
    m.source in start && m.destination !in start && m.source !in f && Get(f, m.destination) == Get(start, m.source)
  }

  function Moves(labels: seq<Label>, tracked: bool): nat {
    if labels == [] then 0
    else
      var op := OpOf(labels[|labels| - 1]);
      Moves(labels[..|labels| - 1], tracked) + if op.MoveFile? && op.move.tracked == tracked then 1 else 0
  }

  function Completed(r: Result): seq<Label> {
    if r.Thrown? then [] else r.completed
  }

  ghost predicate AllKept(start: Files, ops: seq<Operation>, trace: seq<Files>, from: nat) {
    forall k | from <= k < |trace| :: Kept(start, ops, trace[k])
  }

  ghost predicate AllArrived(start: Files, ops: seq<Operation>, n: nat, f: Files)
    requires n <= |ops|
  {
    forall i | 0 <= i < n && ops[i].MoveFile? :: Arrived(start, ops[i].move, f)
  }

  /** A move, finished or not, keeps the whole record of the run right. */
  lemma MoveKeeps(start: Files, ops: seq<Operation>, n: nat, before: Files, seen: seq<Files>, trace: seq<Files>,
          from: nat)
    requires Planned(ops) && n < |ops| && ops[n].MoveFile? && seen <= trace && |trace| > 0 && from <= |seen|
    requires Kept(start, ops, before) && Untouched(start, ops, n, before) && AllArrived(start, ops, n, before)
    requires TraceBetween(trace, |seen|, before, ops[n].move) && AllKept(start, ops, seen, from)
    requires trace[|trace| - 1] == before || |seen| < |trace|
    ensures AllKept(start, ops, trace, from)
    ensures var f := trace[|trace| - 1];
            Kept(start, ops, f) && Untouched(start, ops, n + 1, f) && AllArrived(start, ops, n, f)
  {
    var f := trace[|trace| - 1];
    forall k | from <= k < |trace| ensures Kept(start, ops, trace[k]) {
      if k >= |seen| {
        KeptStep(start, ops, n, before, trace[k]);
      } else {
        assert trace[k] == seen[k];
      }
    }
    assert Between(before, ops[n].move, f);
    KeptStep(start, ops, n, before, f);
    forall i | 0 <= i < n && ops[i].MoveFile? ensures Arrived(start, ops[i].move, f) {
      var x, m := ops[i].move, ops[n].move;
      assert Arrived(start, x, before);
      assert x.source != m.source && x.source != m.destination && x.destination != m.source
              && x.destination != m.destination;
      assert Get(f, x.source) == Get(before, x.source) && Get(f, x.destination) == Get(before, x.destination);
    }
  }

  lemma MovedArrives(start: Files, ops: seq<Operation>, n: nat, before: Files, f: Files)
    requires n < |ops| && ops[n].MoveFile? && Untouched(start, ops, n, before) && MovedBy(before, ops[n].move, f)
    ensures Arrived(start, ops[n].move, f)
  {
    var m := ops[n].move;
    assert Get(before, m.source) == Get(start, m.source) && Get(before, m.destination) == Get(start, m.destination);
  }

  lemma OneMore(completed: seq<Label>, name: Label, tracked: bool)
    ensures Moves(completed + [name], tracked)
         == Moves(completed, tracked) + if OpOf(name).MoveFile? && OpOf(name).move.tracked == tracked then 1 else 0
    ensures Ops(completed + [name]) == Ops(completed) + [OpOf(name)]
  {
    var all := completed + [name];
    assert all[..|all| - 1] == completed;
  }

  /** The labels are those of the first `n` operations, and the counts are right. */
  ghost predicate Counted(ops: seq<Operation>, n: nat, completed: seq<Label>, staged: nat, unstaged: nat) {
    && n <= |ops| && |completed| == n && Ops(completed) == ops[..n]
    && staged == Moves(completed, true) && unstaged == Moves(completed, false)
  }

  function One(op: Operation, tracked: bool): nat {
    if op.MoveFile? && op.move.tracked == tracked then 1 else 0
  }

  lemma CountOne(ops: seq<Operation>, n: nat, completed: seq<Label>, name: Label, staged: nat, unstaged: nat)
    requires Counted(ops, n, completed, staged, unstaged) && n < |ops| && OpOf(name) == ops[n]
    ensures Counted(ops, n + 1, completed + [name], staged + One(ops[n], true), unstaged + One(ops[n], false))
  {
    OneMore(completed, name, true);
    OneMore(completed, name, false);
  }

  ghost predicate Made(ops: seq<Operation>, n: nat, directories: set<Path>) {
    forall i | 0 <= i < n && i < |ops| && ops[i].MakeDirectory? :: ops[i].path in directories
  }

  /** What holds after the first `n` operations. */
  ghost predicate Ran(start: Files, ops: seq<Operation>, n: nat, f: Files) {
    n <= |ops| && Kept(start, ops, f) && Untouched(start, ops, n, f) && AllArrived(start, ops, n, f)
  }

  /** The run after one operation. */
  method RunOne(t: Tree, ops: seq<Operation>, n: nat, ghost start: Files, ghost from: nat) returns (s: Step)
    requires t.Valid() && Planned(ops) && n < |ops| && from <= |t.trace|
    requires Kept(start, ops, t.files) && Untouched(start, ops, n, t.files) && AllArrived(start, ops, n, t.files)
    requires AllKept(start, ops, t.trace, from)
    modifies t
    ensures t.Valid() && old(t.trace) <= t.trace && AllKept(start, ops, t.trace, from) && OpOf(s.name) == ops[n]
    ensures Kept(start, ops, t.files) && Untouched(start, ops, n + 1, t.files) && AllArrived(start, ops, n, t.files)
    ensures s.ok ==> s.attempted && AllArrived(start, ops, n + 1, t.files)
    ensures old(t.directories) <= t.directories && (s.ok && ops[n].MakeDirectory? ==> ops[n].path in t.directories)
    ensures !s.attempted ==> !s.ok && t.files == old(t.files) && t.trace == old(t.trace) && t.directories == old(t.directories)
  {
    ghost var before, seen := t.files, t.trace;
    s := Run(t, ops[n]);
    if ops[n].MoveFile? {
      MoveKeeps(start, ops, n, before, seen, t.trace, from);
      if s.ok {
        MovedArrives(start, ops, n, before, t.files);
      }
    }
  }

  /**
   * Whatever fails: in every state on the way each planned file is whole at its source or its destination and no
   * file that was there before is changed; completed, failed and pending operations are the plan in order; finished
   * moves have arrived, pending ones are untouched; and staged and unstaged count the finished moves.
   */
  method Apply(t: Tree, ops: seq<Operation>) returns (r: Result)
    requires t.Valid() && Planned(ops)
    modifies t
    ensures t.Valid() && old(t.trace) <= t.trace
    ensures AllKept(old(t.files), ops, t.trace, |old(t.trace)|) && Kept(old(t.files), ops, t.files)
    ensures r.Finished? ==> Ops(r.completed) == ops
    ensures r.Partial? ==> Ops(r.completed) + [OpOf(r.failed)] + r.pending == ops
    ensures |Completed(r)| <= |ops| && AllArrived(old(t.files), ops, |Completed(r)|, t.files)
    ensures Untouched(old(t.files), ops, |Completed(r)| + 1, t.files)
    ensures forall i | 0 <= i < |Completed(r)| && ops[i].MakeDirectory? :: ops[i].path in t.directories
    ensures !r.Thrown? ==> r.staged == Moves(r.completed, true) && r.unstaged == Moves(r.completed, false)
    ensures r.Thrown? ==> t.files == old(t.files) && t.trace == old(t.trace) && t.directories == old(t.directories)
  {
    ghost var start, from := t.files, |t.trace|;
    var completed: seq<Label> := [];
    var staged, unstaged := 0, 0;
    var attempted := false;
    for n := 0 to |ops|
      invariant t.Valid() && old(t.trace) <= t.trace
      invariant Counted(ops, n, completed, staged, unstaged)
      invariant attempted <==> n > 0
      invariant !attempted ==> t.files == start && t.trace == old(t.trace) && t.directories == old(t.directories)
      invariant Ran(start, ops, n, t.files) && Made(ops, n, t.directories)
      invariant AllKept(start, ops, t.trace, from)
    {
      var s := RunOne(t, ops, n, start, from);
      attempted := attempted || s.attempted;
      if !s.ok {
        if !attempted {
          return Thrown;
        }
        assert ops == ops[..n] + [ops[n]] + ops[n + 1..];
        return Partial(completed, s.name, ops[n + 1..], staged, unstaged);
      }
      CountOne(ops, n, completed, s.name, staged, unstaged);
      completed := completed + [s.name];
      if ops[n].MoveFile? {
        if ops[n].move.tracked {
          staged := staged + 1;
        } else {
          unstaged := unstaged + 1;
        }
      }
    }
    assert ops[..|ops|] == ops;
    r := Finished(completed, staged, unstaged);
  }
}
