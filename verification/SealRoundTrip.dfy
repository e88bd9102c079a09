/**
 * Sealing a plan round-trips: exactly when, for every plan, path, hash and size.
 *
 * The section is scanned line by line: lines that cannot match are passed over, the three seal lines are read,
 * and a path is the one place where a line may start inside a line.
 */
module SealRoundTrip {
  import opened Common
  import opened Text
  import opened Fences
  import opened LineEndings
  import opened PlanParts
  import opened PlanSeal
  import opened SealText

  // ---- scanning past text that cannot match ----

  ghost predicate OneRow(x: string) {
    forall i | 0 <= i < |x| :: !IsTerminator(x[i])
  }

  /** Within a line no line starts. */
  lemma {:induction false} SkipRest<T>(at: string -> Option<T>, x: string, rest: string)
    requires OneRow(x)
    ensures FirstMatch(at, x + rest, false) == FirstMatch(at, rest, false)
  {
    if x == [] {
      assert x + rest == rest;
    } else {
      assert (x + rest)[1..] == x[1..] + rest;
      SkipRest(at, x[1..], rest);
    }
  }

  lemma SkipLine<T>(at: string -> Option<T>, x: string, rest: string)
    requires OneRow(x) && at(x + "\n" + rest) == None
    ensures FirstMatch(at, x + "\n" + rest, true) == FirstMatch(at, rest, true)
  {
    var t := x + ("\n" + rest);
    assert t == x + "\n" + rest;
    assert ("\n" + rest)[1..] == rest;
    assert FirstMatch(at, "\n" + rest, false) == FirstMatch(at, rest, true);
    if x == [] {
      assert t == "\n" + rest;
    } else {
      assert t[1..] == x[1..] + ("\n" + rest);
      SkipRest(at, x[1..], "\n" + rest);
    }
  }

  /** A pattern that starts with `p` does not match text that differs from `p` within its length. */
  lemma Differs(p: string, t: string, i: nat)
    requires i < |p| && i < |t| && p[i] != t[i]
    ensures !(p <= t)
  {
  }

  lemma Dashes()
    ensures |SIDECAR| == 12 && SIDECAR[0] == '-' && SIDECAR[2] == 'S' && SIDECAR[3] == 'i' && SIDECAR[11] == '`'
    ensures |SHA| == 12 && SHA[0] == '-' && SHA[2] == 'S' && SHA[3] == 'H' && SHA[11] == '`'
    ensures |BYTES| == 9 && BYTES[0] == '-' && BYTES[2] == 'B'
    ensures OneRow(SIDECAR) && OneRow(SHA) && OneRow(BYTES)
    ensures '`' !in SIDECAR[..11] && '`' !in SHA[..11] && '`' !in BYTES
  {
  }

  /** No seal line starts with another character than a dash. */
  lemma NoDash(t: string)
    requires t == [] || t[0] != '-'
    ensures SidecarAt(t) == None && HashAt(t) == None && BytesAt(t) == None
  {
    Dashes();
  }

  // ---- scanning past the path ----

  lemma HashNotInPath(p: string, rest: string)
    requires '`' !in p
    ensures HashAt(p + ("`\n" + rest)) == None
  {
    Dashes();
    var t := p + ("`\n" + rest);
    if SHA <= t {
      TickAt(p, "\n" + rest, SHA, t);
      var u := t[|SHA|..];
      assert u[0] == '\n';
      assert |u| > 64 ==> u[..64][0] == '\n';
    }
  }

  /** Where a pattern ends at its only backtick, the text before it has just that length. */
  lemma TickAt(p: string, y: string, pattern: string, t: string)
    requires '`' !in p && t == p + ("`" + y) && pattern <= t
    requires |pattern| > 0 && pattern[|pattern| - 1] == '`' && '`' !in pattern[..|pattern| - 1]
    ensures |p| == |pattern| - 1 && t[|pattern|..] == y
  {
    var n := |pattern| - 1;
    assert t[n] == pattern[n] == '`' && t[|p|] == '`';
    assert forall i | 0 <= i < |p| :: t[i] == p[i] && p[i] in p;
    assert forall i | 0 <= i < n :: t[i] == pattern[i] == pattern[..n][i];
  }

  lemma {:induction false} HashSkipsPath(p: string, rest: string, b: bool)
    requires '`' !in p
    ensures FirstMatch(HashAt, p + ("`\n" + rest), b) == FirstMatch(HashAt, rest, true)
  {
    var t := p + ("`\n" + rest);
    HashNotInPath(p, rest);
    if p == [] {
      assert t[1..] == "\n" + rest && t[1..][1..] == rest;
    } else {
      assert t[1..] == p[1..] + ("`\n" + rest);
      HashSkipsPath(p[1..], rest, IsTerminator(t[0]));
    }
  }

  lemma {:induction false} BlankLocal(v: string, y: string)
    requires '`' !in v
    ensures BlankToEnd(v + ("`" + y)) == BlankToEnd(v + "`")
  {
    var t, u := v + ("`" + y), v + "`";
    assert t[0] == u[0];
    if v != [] {
      assert t[1..] == v[1..] + ("`" + y) && u[1..] == v[1..] + "`";
      BlankLocal(v[1..], y);
    }
  }

  lemma {:induction false} DigitsLocal(v: string, y: string)
    ensures DigitRun(v + ("`" + y)) == DigitRun(v) <= |v|
  {
    var t := v + ("`" + y);
    if v != [] {
      assert t[1..] == v[1..] + ("`" + y);
      DigitsLocal(v[1..], y);
    }
  }

  lemma NoTick(pattern: string, t: string, i: nat)
    requires '`' !in pattern && i < |t| && t[i] == '`'
    ensures pattern <= t ==> |pattern| <= i
  {
    assert forall k | 0 <= k < |pattern| :: pattern[k] != '`';
  }

  lemma PrefixLocal(pattern: string, p: string, y: string)
    requires '`' !in pattern && '`' !in p
    ensures pattern <= p + ("`" + y) <==> pattern <= p
  {
    var t := p + ("`" + y);
    NoTick(pattern, t, |p|);
    assert t[..|p|] == p;
    assert |pattern| <= |p| ==> t[..|pattern|] == p[..|pattern|];
  }

  /** What a size line inside the path says does not depend on what follows the closing backtick. */
  lemma BytesLocal(p: string, y: string)
    requires '`' !in p
    ensures BytesAt(p + ("`" + y)) == BytesAt(p + "`")
  {
    Dashes();
    PrefixLocal(BYTES, p, y);
    PrefixLocal(BYTES, p, []);
    assert "`" + [] == "`";
    if BYTES <= p {
      AfterBytes(p, p[|BYTES|..], y);
      AfterBytes(p, p[|BYTES|..], []);
    }
  }

  lemma AfterBytes(p: string, v: string, y: string)
    requires BYTES <= p && v == p[|BYTES|..] && '`' !in p
    ensures BytesAt(p + ("`" + y)) ==
              if DigitRun(v) > 0 && BlankToEnd(v[DigitRun(v)..] + "`") then Some(Number(v[..DigitRun(v)])) else None
  {
    var t := p + ("`" + y);
    assert BYTES <= t by { assert t[..|BYTES|] == p[..|BYTES|]; }
    var rest := t[|BYTES|..];
    assert rest == v + ("`" + y);
    DigitsLocal(v, y);
    var d := DigitRun(v);
    assert rest[..d] == v[..d] && rest[d..] == v[d..] + ("`" + y);
    assert forall c | c in v :: c in p;
    BlankLocal(v[d..], y);
  }

  /** The size that a line inside the path would give. */
  function InnerBytes(path: string): Option<nat> {
    FirstMatch(BytesAt, path + "`", false)
  }

  lemma {:induction false} BytesPastPath(p: string, rest: string, b: bool)
    requires '`' !in p
    ensures FirstMatch(BytesAt, p + ("`\n" + rest), b) ==
              var inner := FirstMatch(BytesAt, p + "`", b);
              if inner.Some? then inner else FirstMatch(BytesAt, rest, true)
  {
    var t, u := p + ("`\n" + rest), p + "`";
    BytesLocal(p, "\n" + rest);
    assert "`\n" + rest == "`" + ("\n" + rest);
    if p == [] {
      NoDash(t);
      NoDash(u);
      assert t[1..] == "\n" + rest && t[1..][1..] == rest && u[1..] == [];
    } else {
      assert t[1..] == p[1..] + ("`\n" + rest) && u[1..] == p[1..] + "`" && t[0] == u[0];
      BytesPastPath(p[1..], rest, IsTerminator(t[0]));
    }
  }

  /** Without a line terminator in the path no line starts inside it. */
  lemma OneRowHasNoInner(path: string)
    requires OneRow(path)
    ensures InnerBytes(path) == None
  {
    SkipRest(BytesAt, path, "`");
    assert "`"[1..] == [];
  }

  // ---- reading the section ----

  lemma HeadingAndProse()
    ensures OneRow(RECORD_HEADING) && RECORD_HEADING[0] != '-' && OneRow(Prose()) && Prose()[0] != '-'
  {
    ProseRows();
  }

  lemma ProseRows()
    ensures OneRow(PROSE_A) && OneRow(PROSE_B) && OneRow(PROSE_C) && OneRow(PROSE_D) && PROSE_A[0] == 'T'
  {
  }

  /** The lines in front of the seal are passed over. */
  lemma PastFront<T>(at: string -> Option<T>, seal: string)
    requires forall t | t == [] || t[0] != '-' :: at(t) == None
    ensures FirstMatch(at, RECORD_HEADING + "\n" + ([] + "\n" + (Prose() + "\n" + ([] + "\n" + seal))), true) ==
            FirstMatch(at, seal, true)
  {
    var bare := [] + "\n" + seal;
    HeadingAndProse();
    SkipLine(at, [], seal);
    SkipLine(at, Prose(), bare);
    SkipLine(at, [], Prose() + "\n" + bare);
    SkipLine(at, RECORD_HEADING, [] + "\n" + (Prose() + "\n" + bare));
  }

  lemma SkipPrefix<T>(at: string -> Option<T>, x: string, z: string)
    requires OneRow(x) && x != [] && at(x + z) == None
    ensures FirstMatch(at, x + z, true) == FirstMatch(at, z, false)
  {
    assert (x + z)[1..] == x[1..] + z;
    SkipRest(at, x[1..], z);
  }

  lemma {:induction false} UntilTickIs(p: string, y: string)
    requires '`' !in p
    ensures UntilTick(p + ("`" + y)) == |p|
  {
    if p != [] {
      assert (p + ("`" + y))[1..] == p[1..] + ("`" + y);
      UntilTickIs(p[1..], y);
    }
  }

  lemma SidecarReads(path: string, rest: string)
    requires path != [] && '`' !in path
    ensures SidecarAt(SIDECAR + (path + ("`\n" + rest))) == Some(path)
  {
    var u := path + ("`\n" + rest);
    var t := SIDECAR + u;
    assert t[..|SIDECAR|] == SIDECAR && t[|SIDECAR|..] == u;
    assert "`\n" + rest == "`" + ("\n" + rest);
    UntilTickIs(path, "\n" + rest);
    assert u[|path| + 1..] == "\n" + rest && u[..|path|] == path;
  }

  lemma HashReads(hash: string, rest: string)
    requires IsHash(hash)
    ensures HashAt(SHA + hash + "`" + "\n" + rest) == Some(hash)
  {
    var u := hash + ("`\n" + rest);
    var t := SHA + hash + "`" + "\n" + rest;
    assert t == SHA + u;
    assert t[..|SHA|] == SHA && t[|SHA|..] == u;
    assert u[..64] == hash && u[64] == '`' && u[65..] == "\n" + rest;
  }

  lemma BytesReads(n: nat, tail: string)
    requires tail == [] || IsTerminator(tail[0])
    ensures BytesAt(BYTES + Decimal(n) + tail) == Some(n)
  {
    var d := Decimal(n);
    var t := BYTES + d + tail;
    assert t == BYTES + (d + tail);
    assert t[..|BYTES|] == BYTES && t[|BYTES|..] == d + tail;
    DigitsAll(d, tail);
    assert (d + tail)[..|d|] == d && (d + tail)[|d|..] == tail;
    NumberOfDecimal(n);
  }

  lemma {:induction false} DigitsAll(d: string, tail: string)
    requires (forall i | 0 <= i < |d| :: IsDigit(d[i])) && (tail != [] ==> !IsDigit(tail[0]))
    ensures DigitRun(d + tail) == |d|
  {
    if d == [] {
      assert d + tail == tail;
    } else {
      assert (d + tail)[1..] == d[1..] + tail;
      DigitsAll(d[1..], tail);
    }
  }

  /** The three seal lines and what follows them. */
  function SealLines(path: string, hash: string, n: nat, tail: string): string {
    SIDECAR + (path + ("`\n" + HashLines(hash, n, tail)))
  }

  function HashLines(hash: string, n: nat, tail: string): string {
    SHA + hash + "`" + "\n" + (BYTES + Decimal(n) + tail)
  }

  lemma HashRow(hash: string)
    requires IsHash(hash)
    ensures OneRow(SHA + hash + "`")
  {
    Dashes();
    assert forall i | 0 <= i < 64 :: IsHex(hash[i]);
  }

  lemma SealRead(path: string, hash: string, n: nat, tail: string)
    requires path != [] && '`' !in path && IsHash(hash) && (tail == [] || tail == "\n")
    ensures FirstMatch(SidecarAt, SealLines(path, hash, n, tail), true) == Some(path)
    ensures FirstMatch(HashAt, SealLines(path, hash, n, tail), true) == Some(hash)
  {
    var rest := HashLines(hash, n, tail);
    var z := path + ("`\n" + rest);
    Dashes();
    SidecarReads(path, rest);
    Differs(SHA, SIDECAR + z, 3);
    SkipPrefix(HashAt, SIDECAR, z);
    HashSkipsPath(path, rest, false);
    HashReads(hash, BYTES + Decimal(n) + tail);
  }

  lemma BytesRead(path: string, hash: string, n: nat, tail: string)
    requires path != [] && '`' !in path && IsHash(hash) && (tail == [] || tail == "\n")
    ensures FirstMatch(BytesAt, SealLines(path, hash, n, tail),
            true) == if InnerBytes(path).Some? then InnerBytes(path) else Some(n)
  {
    var rest := HashLines(hash, n, tail);
    var z := path + ("`\n" + rest);
    Dashes();
    Differs(BYTES, SIDECAR + z, 2);
    SkipPrefix(BytesAt, SIDECAR, z);
    BytesPastPath(path, rest, false);
    HashRow(hash);
    Differs(BYTES, rest, 2);
    SkipLine(BytesAt, SHA + hash + "`", BYTES + Decimal(n) + tail);
    BytesReads(n, tail);
  }

  /** The section as its lines one after another. */
  lemma SectionIs(path: string, hash: string, n: nat, tail: string)
    ensures Join(SectionLines(path, hash, n), '\n') + tail ==
            RECORD_HEADING + "\n" + ([] + "\n" + (Prose() + "\n" + ([] + "\n" + SealLines(path, hash, n, tail))))
  {
    var front, seal := [RECORD_HEADING, [], Prose(), []], [SIDECAR + path + "`", SHA + hash + "`", BYTES + Decimal(n)];
    assert SectionLines(path, hash, n) == front + seal;
    JoinAppend(front, seal);
    JoinFour(RECORD_HEADING, [], Prose(), []);
    JoinThree(SIDECAR + path + "`", SHA + hash + "`", BYTES + Decimal(n));
    SealRegrouped(SIDECAR, path, SHA + hash + "`", BYTES + Decimal(n), tail);
    FrontRegrouped(RECORD_HEADING, [], Prose(), [], Join(seal, '\n'), tail);
  }

  lemma JoinThree(a: string, b: string, c: string)
    ensures Join([a, b, c], '\n') == a + "\n" + b + "\n" + c
  {
    assert [a, b, c][1..] == [b, c] && [b, c][1..] == [c];
    assert Join([b, c], '\n') == b + ['\n'] + c;
    assert a + ['\n'] + (b + ['\n'] + c) == a + "\n" + b + "\n" + c;
  }

  lemma JoinFour(a: string, b: string, c: string, d: string)
    ensures Join([a, b, c, d], '\n') == a + "\n" + b + "\n" + c + "\n" + d
  {
    JoinThree(b, c, d);
    assert [a, b, c, d][1..] == [b, c, d];
    assert a + ['\n'] + (b + "\n" + c + "\n" + d) == a + "\n" + b + "\n" + c + "\n" + d;
  }

  lemma SealRegrouped(head: string, path: string, hash: string, bytes: string, tail: string)
    ensures head + path + "`" + "\n" + hash + "\n" + bytes + tail == head + (path + ("`\n" + (hash + "\n" + (bytes + tail))))
  {
  }

  lemma FrontRegrouped(a: string, b: string, c: string, d: string, seal: string, tail: string)
    ensures a + "\n" + b + "\n" + c + "\n" + d + ['\n'] + seal + tail ==
            a + "\n" + (b + "\n" + (c + "\n" + (d + "\n" + (seal + tail))))
  {
  }

  /** The seal read out of the section. */
  lemma SectionReads(path: string, hash: string, n: nat, tail: string)
    requires path != [] && '`' !in path && IsHash(hash) && (tail == [] || tail == "\n")
    ensures ReadSeal(Some(Join(SectionLines(path, hash, n), '\n') + tail)) ==
            Seal(Some(path), Some(hash), if InnerBytes(path).Some? then InnerBytes(path) else Some(n))
  {
    var seal := SealLines(path, hash, n, tail);
    SectionIs(path, hash, n, tail);
    forall t | t == [] || t[0] != '-' ensures SidecarAt(t) == None && HashAt(t) == None && BytesAt(t) == None {
      NoDash(t);
    }
    PastFront(SidecarAt, seal);
    PastFront(HashAt, seal);
    PastFront(BytesAt, seal);
    SealRead(path, hash, n, tail);
    BytesRead(path, hash, n, tail);
  }

  // ---- the theorem ----

  lemma DashLine(prefix: string, x: string)
    requires prefix != [] && prefix[0] == '-' && '\n' !in prefix && '\n' !in x
    ensures PlanLook(prefix + x) == QUIET && '\n' !in prefix + x && prefix + x != []
  {
    assert (prefix + x)[0] == '-';
    OrdinaryLine(prefix + x);
  }

  lemma ProseLine(prose: string)
    requires prose != [] && prose[0] == 'T'
    ensures PlanLook(prose) == QUIET
  {
    OrdinaryLine(prose);
  }

  lemma SevenLines(look: Look, a: string, b: string, c: string, d: string, e: string, f: string)
    requires look(a) == HEADING && look(b) == QUIET && look(c) == QUIET && look(d) == QUIET && look(e) == QUIET
            && look(f) == QUIET
    requires '\n' !in a && '\n' !in b && '\n' !in c && '\n' !in d && '\n' !in e && '\n' !in f && f != []
            && look([]) == QUIET
    ensures IsSection(look, [a, b, c, [], d, e, f])
  {
  }

  lemma FrontLines()
    ensures '\n' !in RECORD_HEADING && '\n' !in Prose() && PlanLook(Prose()) == QUIET
    ensures '\n' !in SIDECAR && '\n' !in SHA && '\n' !in BYTES
  {
    Dashes();
    HeadingAndProse();
    ProseRows();
    assert Prose()[0] == PROSE_A[0];
    ProseLine(Prose());
  }

  lemma HashLinePart(hash: string)
    requires IsHash(hash)
    ensures '\n' !in hash
  {
    assert forall i | 0 <= i < 64 :: IsHex(hash[i]);
  }

  lemma SectionIsSection(path: string, hash: string, n: nat)
    requires '\n' !in path && IsHash(hash)
    ensures IsSection(PlanLook, SectionLines(path, hash, n))
    ensures RecordSection(path, hash, n) == SectionText(SectionLines(path, hash, n))
  {
    FrontLines();
    HeadingLine();
    EmptyLine();
    SealLook(path, hash, n);
    SevenLines(PlanLook, RECORD_HEADING, [], Prose(), SIDECAR + path + "`", SHA + hash + "`", BYTES + Decimal(n));
  }

  lemma SealLook(path: string, hash: string, n: nat)
    requires '\n' !in path && IsHash(hash)
    ensures PlanLook(SIDECAR + path + "`") == QUIET && '\n' !in SIDECAR + path + "`"
    ensures PlanLook(SHA + hash + "`") == QUIET && '\n' !in SHA + hash + "`"
    ensures PlanLook(BYTES + Decimal(n)) == QUIET && '\n' !in BYTES + Decimal(n) && BYTES + Decimal(n) != []
  {
    Dashes();
    FrontLines();
    HashLinePart(hash);
    TickLine(SIDECAR, path);
    TickLine(SHA, hash);
    DashLine(BYTES, Decimal(n));
  }

  lemma NotIn(x: string, y: string, c: char)
    requires c !in x && c !in y
    ensures c !in x + y
  {
  }

  lemma TickLine(prefix: string, x: string)
    requires prefix != [] && prefix[0] == '-' && '\n' !in prefix && '\n' !in x
    ensures PlanLook(prefix + x + "`") == QUIET && '\n' !in prefix + x + "`"
  {
    assert prefix + x + "`" == prefix + (x + "`");
    NotIn(x, "`", '\n');
    DashLine(prefix, x + "`");
  }

  /** The seal read out of a record that is the section, with or without an empty line after it. */
  lemma RecordReads(record: Option<string>, path: string, hash: string, n: nat)
    requires path != [] && '`' !in path && IsHash(hash)
    requires var t := Join(SectionLines(path, hash, n), '\n'); record == Some(t) || record == Some(t + "\n")
    ensures ReadSeal(record) == Seal(Some(path), Some(hash),
            if InnerBytes(path).Some? then InnerBytes(path) else Some(n))
  {
    var t := Join(SectionLines(path, hash, n), '\n');
    assert t + [] == t;
    SectionReads(path, hash, n, if record == Some(t) then [] else "\n");
  }

  /** A path that is read is one character or more and holds no backtick. */
  lemma {:induction false} ReadPaths(t: string, starts: bool)
    ensures var p := FirstMatch(SidecarAt, t, starts); p.Some? ==> p.value != [] && '`' !in p.value
  {
    if t != [] && !(starts && SidecarAt(t).Some?) {
      ReadPaths(t[1..], IsTerminator(t[0]));
    }
  }

  /** What a caller can check beforehand: the plan can carry a record, and the path can be named in one. */
  predicate Names(plan: string, path: string) {
    Carries(PlanLook, plan) && path != [] && '`' !in path
  }

  /** And no line inside the path reads as another size. */
  predicate Sealable(plan: string, path: string, n: nat) {
    Names(plan, path) && (InnerBytes(path) == None || InnerBytes(path) == Some(n))
  }

  /**
   Path and hash are read back from the sealed plan exactly when plan and path can be named, and the size as well exactly
   when plan and path can be sealed. A plan that cannot carry the record has no seal at all.
   */
  lemma SealReadsBack(plan: string, path: string, hash: string, n: nat)
    requires '\n' !in path && IsHash(hash)
    ensures var seal := ReadSeal(SplitPlan(PlanLook, WithRecord(PlanLook, plan, RecordSection(path, hash, n))).record);
            && (seal.path == Some(path) && seal.hash == Some(hash) <==> Names(plan, path))
            && (seal == Seal(Some(path), Some(hash), Some(n)) <==> Sealable(plan, path, n))
            && (!Carries(PlanLook, plan) ==> seal == Seal(None, None, None))
  {
    SectionIsSection(path, hash, n);
    PlanLookSound();
    SectionReadBack(PlanLook, plan, SectionLines(path, hash, n));
    var record := SplitPlan(PlanLook, WithRecord(PlanLook, plan, RecordSection(path, hash, n))).record;
    if Names(plan, path) {
      RecordReads(record, path, hash, n);
    } else if record.Some? {
      ReadPaths(record.value, true);
    }
  }

  /** A line of three backticks opens a fence. */
  lemma TicksOpen(line: string)
    requires |line| == 3 && forall i | 0 <= i < 3 :: line[i] == '`'
    ensures PlanMark(line).Some? && DropCr(line) == line
  {
    assert !IsSpace(line[0]) && TrimStart(line) == line;
    assert RunLength(line, '`') == 3;
  }

  /** A single fence line is a plan that cannot carry a record: what is appended stays behind the open fence. */
  lemma OpenFenceCarriesNothing()
    ensures !Carries(PlanLook, "```")
  {
    OneFenceLine("```");
  }

  lemma OneFenceLine(plan: string)
    requires |plan| == 3 && forall i | 0 <= i < 3 :: plan[i] == '`'
    ensures !Carries(PlanLook, plan)
  {
    SplitOnce(plan, '\n');
    TicksOpen(plan);
    OneMarkedLine(Scan(PlanLook, [plan]));
  }

  lemma OneMarkedLine(lines: seq<PlanLine>)
    requires |lines| == 1 && lines[0].mark.Some?
    ensures RecordAt(lines) == 1 && ReportAt(lines) == 1 && !LeavesClosed(lines)
  {
    assert FenceAt(lines, 0) == Closed;
    assert FenceAt(lines, 1) == Step(FenceAt(lines, 0), lines[0].mark);
    assert Fenced(lines, 0);
    FirstIs(Flags(lines, Record()), 1);
    FirstIs(Flags(lines, Report()), 1);
  }

  /** And the plan proper as reviewed is unchanged exactly when the plan can carry the record and is not empty. */
  lemma SealKeepsProper(plan: string, path: string, hash: string, n: nat)
    requires '\n' !in path && IsHash(hash)
    ensures var sealed := SplitPlan(PlanLook, WithRecord(PlanLook, plan, RecordSection(path, hash, n)));
            ForReview(sealed.proper) == ForReview(SplitPlan(PlanLook, plan).proper) <==> Carries(PlanLook, plan) && plan != []
  {
    SectionIsSection(path, hash, n);
    PlanLookSound();
    ProperUnchanged(PlanLook, plan, SectionLines(path, hash, n));
  }

  /** The case that was meant: a path on one line, in a plan that can carry the record. */
  lemma SealRoundTrips(plan: string, path: string, hash: string, n: nat)
    requires path != [] && '`' !in path && OneRow(path) && IsHash(hash) && Carries(PlanLook, plan) && plan != []
    ensures var sealed := SplitPlan(PlanLook, WithRecord(PlanLook, plan, RecordSection(path, hash, n)));
            && ReadSeal(sealed.record) == Seal(Some(path), Some(hash), Some(n))
            && ForReview(sealed.proper) == ForReview(SplitPlan(PlanLook, plan).proper)
  {
    assert '\n' !in path;
    OneRowHasNoInner(path);
    SealReadsBack(plan, path, hash, n);
    SealKeepsProper(plan, path, hash, n);
  }

  /** A carriage return in the path is enough to give any other size: no newline and no backtick is needed. */
  lemma CarriageReturnForgesSize(x: string, m: nat, y: string)
    requires OneRow(x)
    ensures InnerBytes(x + "\r" + BYTES + Decimal(m) + "\r" + y) == Some(m)
  {
    var tail := "\r" + y + "`";
    var u := BYTES + Decimal(m) + tail;
    BytesReads(m, tail);
    SkipRest(BytesAt, x, "\r" + u);
    assert ("\r" + u)[1..] == u;
    PathRegrouped(x, BYTES, Decimal(m), y);
  }

  lemma PathRegrouped(x: string, b: string, d: string, y: string)
    ensures x + "\r" + b + d + "\r" + y + "`" == x + ("\r" + (b + d + ("\r" + y + "`")))
  {
  }
}
