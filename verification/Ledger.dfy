/** The append-only metrics ledger: parsing stored bytes, and one mutation under every failure of its steps. */
module Ledger {
  import opened Common

  const MAX_RECORDS := 4096
  const MAX_BYTES := 8 * 1024 * 1024

  datatype Op = Begin | End | Decision | Pass | Correction | Usage

  /** A validated request. Its digest is injective, so the request stands for it. */
  datatype Request = Request(op: Op, isRun: bool, eventId: int, stage: int, body: int)
  datatype Record = Record(request: Request, capturedAt: nat, producer: int)

  predicate Initial(r: Request) {
    r.op == Begin && r.isRun
  }

  /** The stored line of a record and its validating reader. */
  datatype Codec = Codec(encode: Record -> string, decode: string -> Option<Record>)

  ghost predicate Lawful(c: Codec) {
    forall r: Record :: c.encode(r) != [] && '\n' !in c.encode(r) && c.decode(c.encode(r)) == Some(r)
  }

  // ---- parsing ----

  /** Complete lines parse to records or count as malformed; bytes after the last newline are a torn tail. */
  datatype Parsed = Parsed(records: seq<Record>, malformed: nat, tail: string)

  function LineEnd(s: string): (k: nat)
    ensures k <= |s| && '\n' !in s[..k] && (k < |s| ==> s[k] == '\n')
  {
    if s == [] || s[0] == '\n' then 0
    else
      assert s[..1 + LineEnd(s[1..])] == [s[0]] + s[1..][..LineEnd(s[1..])];
      1 + LineEnd(s[1..])
  }

  function AddLine(c: Codec, line: string, p: Parsed): Parsed {
    if line == [] then p
    else match c.decode(line)
      case None => p.(malformed := p.malformed + 1)
      case Some(r) => p.(records := [r] + p.records)
  }

  function Parse(c: Codec, data: string): Parsed {
    var k := LineEnd(data);
    if k == |data| then Parsed([], 0, data) else AddLine(c, data[..k], Parse(c, data[k + 1..]))
  }

  lemma {:induction false} LineEndOf(line: string, rest: string)
    requires '\n' !in line && (rest != [] ==> rest[0] == '\n')
    ensures LineEnd(line + rest) == |line|
  {
    if line == [] {
      assert line + rest == rest;
    } else {
      assert (line + rest)[1..] == line[1..] + rest;
      LineEndOf(line[1..], rest);
    }
  }

  /** One parsed stretch after another. */
  function Then(p: Parsed, q: Parsed): Parsed {
    Parsed(p.records + q.records, p.malformed + q.malformed, q.tail)
  }

  lemma AddLineThen(c: Codec, line: string, p: Parsed, q: Parsed)
    ensures AddLine(c, line, Then(p, q)) == Then(AddLine(c, line, p), q)
  {
    if line != [] && c.decode(line).Some? {
      var r := c.decode(line).value;
      assert [r] + (p.records + q.records) == ([r] + p.records) + q.records;
    }
  }

  lemma LineCut(data: string, more: string)
    requires LineEnd(data) < |data|
    ensures var k := LineEnd(data);
            LineEnd(data + more) == k && (data + more)[..k] == data[..k]
                    && (data + more)[k + 1..] == data[k + 1..] + more
  {
    var k := LineEnd(data);
    assert data == data[..k] + data[k..];
    assert data + more == data[..k] + (data[k..] + more);
    LineEndOf(data[..k], data[k..] + more);
  }

  /** Appending to a ledger without a torn tail parses the appended bytes after the stored records. */
  lemma {:induction false} ParseAppend(c: Codec, data: string, more: string)
    requires Parse(c, data).tail == []
    ensures Parse(c, data + more) == Then(Parse(c, data), Parse(c, more))
  {
    var k := LineEnd(data);
    if k == |data| {
      assert data == [] && data + more == more;
      assert [] + Parse(c, more).records == Parse(c, more).records;
    } else {
      LineCut(data, more);
      ParseAppend(c, data[k + 1..], more);
      AddLineThen(c, data[..k], Parse(c, data[k + 1..]), Parse(c, more));
    }
  }

  lemma ParseLine(c: Codec, r: Record)
    requires Lawful(c)
    ensures Parse(c, c.encode(r) + "\n") == Parsed([r], 0, [])
  {
    var line := c.encode(r);
    LineEndOf(line, "\n");
    assert (line + "\n")[..|line|] == line && (line + "\n")[|line| + 1..] == [];
    assert Parse(c, []) == Parsed([], 0, []);
  }

  lemma ParseTorn(c: Codec, r: Record, n: nat)
    requires Lawful(c) && n <= |c.encode(r)|
    ensures Parse(c, (c.encode(r) + "\n")[..n]) == Parsed([], 0, c.encode(r)[..n])
  {
    var line := c.encode(r);
    assert (line + "\n")[..n] == line[..n];
    assert '\n' !in line[..n];
    LineEndOf(line[..n], []);
    assert line[..n] + [] == line[..n];
  }

  function After(records: seq<Record>, malformed: nat, p: Parsed): Parsed {
    Parsed(records + p.records, malformed + p.malformed, p.tail)
  }

  lemma AfterLine(c: Codec, records: seq<Record>, malformed: nat, line: string, p: Parsed)
    ensures After(records, malformed, AddLine(c, line, p)) ==
            if line == [] then After(records, malformed, p)
            else match c.decode(line)
              case None => After(records, malformed + 1, p)
              case Some(r) => After(records + [r], malformed, p)
  {
    if line != [] && c.decode(line).Some? {
      var r := c.decode(line).value;
      assert records + ([r] + p.records) == (records + [r]) + p.records;
    }
  }

  /** The reader's loop over the lines of a snapshot. */
  method ParseLedger(c: Codec, data: string) returns (records: seq<Record>, malformed: nat, torn: bool)
    ensures records == Parse(c, data).records && malformed == Parse(c, data).malformed
    ensures torn <==> Parse(c, data).tail != []
  {
    records, malformed := [], 0;
    var rest := data;
    var k := LineEnd(rest);
    assert [] + Parse(c, data).records == Parse(c, data).records;
    while k < |rest|
      invariant k == LineEnd(rest)
      invariant Parse(c, data) == After(records, malformed, Parse(c, rest))
      decreases |rest|
    {
      var line := rest[..k];
      AfterLine(c, records, malformed, line, Parse(c, rest[k + 1..]));
      if line != [] {
        match c.decode(line)
        case None => malformed := malformed + 1;
        case Some(r) => records := records + [r];
      }
      rest := rest[k + 1..];
      k := LineEnd(rest);
    }
    torn := rest != [];
  }

  // ---- one mutation ----

  /** How each step of a call turns out; `written` is the count that the append reports. */
  datatype Env = Env(binds: bool, locks: bool, opens: bool, safe: bool, written: nat, confirms: bool, now: nat,
          producer: int)

  datatype Reason =
    | BindFailed | CaptureMissing | LockBusy | EventConflict | PartialTail | MalformedRecord | IdentityMismatch
    | AlreadyBound | Capacity | IoError | ShortWrite | Unconfirmed
  datatype Result = Recorded(at: nat) | Replayed(at: nat) | Failed(reason: Reason)

  function FindEvent(records: seq<Record>, eventId: int): (r: Option<Record>)
    ensures r.Some? ==> r.value in records && r.value.request.eventId == eventId
    ensures r.None? ==> forall x | x in records :: x.request.eventId != eventId
  {
    if records == [] then None
    else if records[0].request.eventId == eventId then Some(records[0])
    else
      assert records == [records[0]] + records[1..];
      FindEvent(records[1..], eventId)
  }

  function FindRun(records: seq<Record>): (r: Option<Record>)
    ensures r.Some? ==> r.value in records && Initial(r.value.request)
    ensures r.None? ==> forall x | x in records :: !Initial(x.request)
  {
    if records == [] then None
    else if Initial(records[0].request) then Some(records[0])
    else
      assert records == [records[0]] + records[1..];
      FindRun(records[1..])
  }

  /** What one read returns: at most one byte more than a ledger may hold. */
  function Snapshot(data: string): string {
    if |data| > MAX_BYTES then data[..MAX_BYTES + 1] else data
  }

  /** Why a new event may not be appended to a snapshot that does not hold it, or None. */
  function Refusal(c: Codec, existed: bool, data: string, req: Request, env: Env): Option<Reason> {
    var p := Parse(c, Snapshot(data));
    var bound := FindRun(p.records);
    if p.tail != [] || |data| > MAX_BYTES then Some(PartialTail)
    else if p.malformed > 0 then Some(MalformedRecord)
    else if bound.Some? && bound.value.request.stage != req.stage then Some(IdentityMismatch)
    else if bound.Some? && Initial(req) then Some(AlreadyBound)
    else if existed && Initial(req) && !env.binds then Some(BindFailed)
    else if !Initial(req) && bound.None? then Some(CaptureMissing)
    else if |p.records| >= MAX_RECORDS || |data| + |LineOf(c, req, env)| > MAX_BYTES then Some(Capacity)
    else None
  }

  function RecordOf(req: Request, env: Env): Record {
    Record(req, env.now, env.producer)
  }

  function LineOf(c: Codec, req: Request, env: Env): string {
    c.encode(RecordOf(req, env)) + "\n"
  }

  /** Result of a call and the ledger file it leaves; None is an absent file. */
  function Mutated(c: Codec, file: Option<string>, req: Request, env: Env): (Result, Option<string>) {
    var data := if file.Some? then file.value else [];
    var line := LineOf(c, req, env);
    var stored := FindEvent(Parse(c, Snapshot(data)).records, req.eventId);
    if file.None? && !Initial(req) then (Failed(CaptureMissing), file)
    else if file.None? && !env.binds then (Failed(BindFailed), file)
    else if !env.locks then (Failed(LockBusy), file)
    else if stored.Some? then
      if stored.value.request != req then (Failed(EventConflict), file)
      else if !env.confirms then (Failed(Unconfirmed), file)
      else (Replayed(stored.value.capturedAt), file)
    else
      var refusal := Refusal(c, file.Some?, data, req, env);
      if refusal.Some? then (Failed(refusal.value), file)
      else if !env.opens then (Failed(IoError), file)
      else if !env.safe then (Failed(IoError), Some(data))
      else if env.written < |line| then (Failed(ShortWrite), Some(data + line[..env.written]))
      else if !env.confirms then (Failed(Unconfirmed), Some(data + line))
      else (Recorded(env.now), Some(data + line))
  }

  /** The first record of the event, or the length when it is not recorded. */
  method IndexOfEvent(records: seq<Record>, id: int) returns (i: nat)
    ensures i <= |records|
    ensures i < |records| ==> FindEvent(records, id) == Some(records[i])
    ensures i == |records| ==> FindEvent(records, id) == None
  {
    i := 0;
    while i < |records| && records[i].request.eventId != id
      invariant i <= |records| && FindEvent(records, id) == FindEvent(records[i..], id)
    {
      i := i + 1;
    }
  }

  class LedgerFile {
    var file: Option<string>

    constructor ()
      ensures file == None
    {
      file := None;
    }

    /** Append one validated event, or replay or refuse an existing one. */
    method Mutate(c: Codec, req: Request, env: Env) returns (r: Result)
      modifies this
      ensures (r, file) == Mutated(c, old(file), req, env)
    {
      var existed := file.Some?;
      if !existed {
        if !Initial(req) {
          return Failed(CaptureMissing);
        } else if !env.binds {
          return Failed(BindFailed);
        }
      }
      if !env.locks {
        return Failed(LockBusy);
      }
      var data := if existed then file.value else [];
      var records, malformed, torn := ParseLedger(c, Snapshot(data));
      torn := torn || |data| > MAX_BYTES;
      var i := IndexOfEvent(records, req.eventId);
      if i < |records| {
        if records[i].request != req {
          return Failed(EventConflict);
        } else if !env.confirms {
          return Failed(Unconfirmed);
        }
        return Replayed(records[i].capturedAt);
      }
      if torn {
        return Failed(PartialTail);
      }
      if malformed > 0 {
        return Failed(MalformedRecord);
      }
      var bound := FindRun(records);
      if bound.Some? && bound.value.request.stage != req.stage {
        return Failed(IdentityMismatch);
      }
      if bound.Some? && Initial(req) {
        return Failed(AlreadyBound);
      }
      if existed && Initial(req) && !env.binds {
        return Failed(BindFailed);
      }
      if !Initial(req) && bound.None? {
        return Failed(CaptureMissing);
      }
      var line := c.encode(Record(req, env.now, env.producer)) + "\n";
      if |records| >= MAX_RECORDS || |data| + |line| > MAX_BYTES {
        return Failed(Capacity);
      }
      if !env.opens {
        return Failed(IoError);
      }
      file := Some(data);
      if !env.safe {
        return Failed(IoError);
      }
      if env.written < |line| {
        file := Some(data + line[..env.written]);
        return Failed(ShortWrite);
      }
      file := Some(data + line);
      if !env.confirms {
        return Failed(Unconfirmed);
      }
      r := Recorded(env.now);
    }
  }

  // ---- what every call keeps ----

  ghost predicate DistinctEvents(records: seq<Record>) {
    forall i, j | 0 <= i < j < |records| :: records[i].request.eventId != records[j].request.eventId
  }

  /** One run-begin, first; every later record is of its stage. */
  ghost predicate OneRun(records: seq<Record>) {
    records != [] ==>
      && Initial(records[0].request)
      && forall i | 0 < i < |records| :: !Initial(records[i].request) && records[i].request.stage == records[0].request.stage
  }

  ghost predicate Sound(c: Codec, file: Option<string>) {
    file.Some? ==>
      var p := Parse(c, file.value);
      && |file.value| <= MAX_BYTES && |p.records| <= MAX_RECORDS && p.malformed == 0
      && DistinctEvents(p.records) && OneRun(p.records)
  }

  ghost predicate Torn(c: Codec, file: Option<string>) {
    file.Some? && Parse(c, file.value).tail != []
  }

  function Stored(c: Codec, file: Option<string>): seq<Record> {
    if file.Some? then Parse(c, file.value).records else []
  }

  lemma Extended(records: seq<Record>, r: Record)
    requires DistinctEvents(records) && OneRun(records)
    requires FindEvent(records, r.request.eventId).None?
    requires if FindRun(records).Some? then !Initial(r.request)
            && FindRun(records).value.request.stage == r.request.stage
             else Initial(r.request)
    ensures DistinctEvents(records + [r]) && OneRun(records + [r])
  {
    forall i | 0 <= i < |records| ensures records[i].request.eventId != r.request.eventId {
      assert records[i] in records;
    }
    if records != [] {
      assert records[0] in records;
      var b := FindRun(records).value;
      var i :| 0 <= i < |records| && records[i] == b;
      assert i == 0;
    }
  }

  /** Bytes appended by a call, parsed: nothing, the whole record, or a torn prefix of its line. */
  lemma Appended(c: Codec, data: string, req: Request, env: Env, n: nat)
    requires Lawful(c) && Parse(c, data).tail == [] && n <= |LineOf(c, req, env)|
    ensures n == |LineOf(c, req, env)| ==>
              Parse(c, data + LineOf(c, req, env)[..n]) == Parsed(Parse(c, data).records + [RecordOf(req, env)],
                      Parse(c, data).malformed, [])
    ensures n < |LineOf(c, req, env)| ==>
              Parse(c, data + LineOf(c, req, env)[..n]) == Parsed(Parse(c, data).records, Parse(c, data).malformed,
                      LineOf(c, req, env)[..n])
  {
    var r := RecordOf(req, env);
    var line := LineOf(c, req, env);
    ParseAppend(c, data, line[..n]);
    if n == |line| {
      assert line[..n] == line;
      ParseLine(c, r);
    } else {
      ParseTorn(c, r, n);
      assert c.encode(r)[..n] == line[..n];
      assert Parse(c, data).records + [] == Parse(c, data).records;
    }
  }

  /** A call keeps the ledger sound, only ever appends to it, and never touches a torn one. */
  lemma CallKeeps(c: Codec, file: Option<string>, req: Request, env: Env)
    requires Lawful(c) && Sound(c, file)
    ensures Sound(c, Mutated(c, file, req, env).1)
    ensures file.Some? ==> Mutated(c, file, req, env).1.Some? && file.value <= Mutated(c, file, req, env).1.value
    ensures Stored(c, file) <= Stored(c, Mutated(c, file, req, env).1)
    ensures Torn(c, file) ==> Mutated(c, file, req, env).1 == file
  {
    var data := if file.Some? then file.value else [];
    var (r, after) := Mutated(c, file, req, env);
    assert Parse(c, []) == Parsed([], 0, []);
    if after.Some? && after != file {
      var line := LineOf(c, req, env);
      var n := if env.written < |line| then env.written else |line|;
      assert line[..|line|] == line;
      if env.safe {
        Appended(c, data, req, env, n);
        if n == |line| {
          Extended(Parse(c, data).records, RecordOf(req, env));
        }
      } else {
        assert after == Some(data);
      }
    }
  }

  // ---- whole runs ----

  datatype Call = Call(req: Request, env: Env)

  /** The file after a sequence of calls. */
  function AfterCalls(c: Codec, file: Option<string>, calls: seq<Call>): Option<string>
    decreases |calls|
  {
    if calls == [] then file
    else AfterCalls(c, Mutated(c, file, calls[0].req, calls[0].env).1, calls[1..])
  }

  /** Every run from an absent ledger leaves a sound one: distinct events, one first run-begin, one stage, within its caps. */
  lemma {:induction false} RunsKeepSound(c: Codec, file: Option<string>, calls: seq<Call>)
    requires Lawful(c) && Sound(c, file)
    ensures Sound(c, AfterCalls(c, file, calls))
    ensures file.Some? ==> AfterCalls(c, file, calls).Some? && file.value <= AfterCalls(c, file, calls).value
    ensures Stored(c, file) <= Stored(c, AfterCalls(c, file, calls))
    decreases |calls|
  {
    if calls != [] {
      CallKeeps(c, file, calls[0].req, calls[0].env);
      RunsKeepSound(c, Mutated(c, file, calls[0].req, calls[0].env).1, calls[1..]);
    }
  }

  lemma EveryRunIsSound(c: Codec, calls: seq<Call>)
    requires Lawful(c)
    ensures Sound(c, AfterCalls(c, None, calls))
  {
    RunsKeepSound(c, None, calls);
  }

  lemma StoredFound(c: Codec, file: Option<string>, r: Record)
    requires Sound(c, file) && r in Stored(c, file)
    ensures FindEvent(Stored(c, file), r.request.eventId) == Some(r)
  {
    var records := Stored(c, file);
    var found := FindEvent(records, r.request.eventId).value;
    var i :| 0 <= i < |records| && records[i] == r;
    var j :| 0 <= j < |records| && records[j] == found;
    assert i == j;
  }

  /** Once torn, the file never changes again; only replays of stored events succeed, and all of those do. */
  lemma {:induction false} TornIsFrozen(c: Codec, file: Option<string>, calls: seq<Call>, req: Request, env: Env)
    requires Lawful(c) && Sound(c, file) && Torn(c, file)
    ensures AfterCalls(c, file, calls) == file
    ensures !Mutated(c, file, req, env).0.Recorded?
    ensures Mutated(c, file, req, env).0.Replayed? <==>
              env.locks && env.confirms && exists r | r in Stored(c, file) :: r.request == req
  {
    if calls != [] {
      CallKeeps(c, file, calls[0].req, calls[0].env);
      TornIsFrozen(c, file, calls[1..], req, env);
    }
    if r :| r in Stored(c, file) && r.request == req {
      StoredFound(c, file, r);
    }
  }

  /** After its record is stored, confirmed or not, a request is only ever replayed with the time first captured. */
  lemma RetriesReplay(c: Codec, file: Option<string>, req: Request, env: Env, later: seq<Call>, again: Env)
    requires Lawful(c) && Sound(c, file)
    requires Mutated(c, file, req, env).0.Recorded? || RecordOf(req, env) in Stored(c, Mutated(c, file, req, env).1)
    requires FindEvent(Stored(c, file), req.eventId).None?
    ensures var now := AfterCalls(c, Mutated(c, file, req, env).1, later);
            Mutated(c, now, req, again) ==
            (if !again.locks then Failed(LockBusy) else if again.confirms then Replayed(env.now) else Failed(Unconfirmed), now)
  {
    var after := Mutated(c, file, req, env).1;
    CallKeeps(c, file, req, env);
    var data := if file.Some? then file.value else [];
    assert Parse(c, []) == Parsed([], 0, []);
    if Mutated(c, file, req, env).0.Recorded? {
      var line := LineOf(c, req, env);
      assert line[..|line|] == line;
      Appended(c, data, req, env, |line|);
    }
    assert RecordOf(req, env) in Stored(c, after);
    RunsKeepSound(c, after, later);
    StoredFound(c, AfterCalls(c, after, later), RecordOf(req, env));
  }

  /** An appended event is stored exactly once, whatever follows: no later call records it again. */
  lemma RecordedOnce(c: Codec, file: Option<string>, req: Request, env: Env, later: seq<Call>, other: Request,
          again: Env)
    requires Lawful(c) && Sound(c, file) && Mutated(c, file, req, env).0.Recorded? && other.eventId == req.eventId
    ensures !Mutated(c, AfterCalls(c, Mutated(c, file, req, env).1, later), other, again).0.Recorded?
  {
    var data := if file.Some? then file.value else [];
    assert Parse(c, []) == Parsed([], 0, []);
    var line := LineOf(c, req, env);
    assert line[..|line|] == line;
    CallKeeps(c, file, req, env);
    Appended(c, data, req, env, |line|);
    var after := Mutated(c, file, req, env).1;
    assert RecordOf(req, env) in Stored(c, after);
    RunsKeepSound(c, after, later);
    StoredFound(c, AfterCalls(c, after, later), RecordOf(req, env));
  }
}
