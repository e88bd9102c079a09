/** Where an inserted review record is found again, and what becomes of the plan proper. */
module PlanSeal {
  import opened Common
  import opened Text
  import opened Fences
  import opened PlanParts

  const QUIET: PlanLine := Scanned(None, Kind(false, false, false))
  const HEADING: PlanLine := Scanned(None, Kind(true, false, true))

  /** The lines of a section: its heading, then lines that are no heading and no fence. */
  ghost predicate IsSection(look: Look, sec: seq<string>) {
    && |sec| > 0 && look(sec[0]) == HEADING && (forall k | 0 < k < |sec| :: look(sec[k]) == QUIET)
    && (forall k | 0 <= k < |sec| :: '\n' !in sec[k])
    && sec[|sec| - 1] != []
    && look([]) == QUIET
  }

  /** Both headings are level-two headings, and no line is both. */
  ghost predicate SoundKind(look: Look, line: string) {
    (look(line).text.record || look(line).text.report ==> look(line).text.h2) && !(look(line).text.record && look(line).text.report)
  }

  ghost predicate Sound(look: Look) {
    forall line {:trigger SoundKind(look, line)} :: SoundKind(look, line)
  }

  ghost predicate Blanks(gap: seq<string>) {
    forall k | 0 <= k < |gap| :: gap[k] == []
  }

  // ---- a section between lines that leave no fence open ----

  lemma SectionFlags(look: Look, sec: seq<string>, pick: Kind -> bool)
    requires IsSection(look, sec) && !pick(Kind(false, false, false))
    ensures LeavesClosed(Scan(look, sec))
    ensures Flags(Scan(look, sec), pick) == [pick(HEADING.text)] + Falses(|sec| - 1)
  {
    var s := Scan(look, sec);
    var head, rest := [HEADING], s[1..];
    assert s == head + rest;
    assert FenceAt(head, 1).Closed?;
    QuietFlags(rest, pick);
    ClosedBoth(head, rest);
    FlagsAppend(head, rest, pick);
    assert Flags(head, pick) == [pick(HEADING.text)] by {
      assert Flags(head, pick)[0] == Flag(head, 0, pick);
    }
  }

  lemma BlankScan(look: Look, gap: seq<string>, pick: Kind -> bool)
    requires look([]) == QUIET && Blanks(gap) && !pick(Kind(false, false, false))
    ensures LeavesClosed(Scan(look, gap)) && Flags(Scan(look, gap), pick) == Falses(|gap|)
  {
    QuietFlags(Scan(look, gap), pick);
  }

  /** The flags of the lines before the section, the section, the gap and the lines after it. */
  lemma AllFlags(look: Look, x: seq<string>, sec: seq<string>, gap: seq<string>, y: seq<string>, pick: Kind -> bool)
    requires LeavesClosed(Scan(look, x)) && IsSection(look, sec) && Blanks(gap) && !pick(Kind(false, false, false))
    ensures Flags(Scan(look, x + sec + gap + y), pick)
         == Flags(Scan(look, x), pick) + ([pick(HEADING.text)] + Falses(|sec| - 1)) + Falses(|gap|) + Flags(Scan(look, y), pick)
    ensures LeavesClosed(Scan(look, x + sec + gap))
  {
    SectionFlags(look, sec, pick);
    BlankScan(look, gap, pick);
    ScanAppend(look, x, sec);
    ScanAppend(look, x + sec, gap);
    ScanAppend(look, x + sec + gap, y);
    ClosedBoth(Scan(look, x), Scan(look, sec));
    ClosedBoth(Scan(look, x + sec), Scan(look, gap));
    FlagsAppend(Scan(look, x), Scan(look, sec), pick);
    FlagsAppend(Scan(look, x + sec), Scan(look, gap), pick);
    FlagsAppend(Scan(look, x + sec + gap), Scan(look, y), pick);
  }

  /** A place for the section: no record heading or open fence before it, and a heading or nothing after it. */
  ghost predicate Place(look: Look, x: seq<string>, sec: seq<string>, gap: seq<string>, y: seq<string>) {
    && LeavesClosed(Scan(look, x)) && IsSection(look, sec) && Blanks(gap)
    && RecordAt(Scan(look, x)) == |x| && First(Flags(Scan(look, y), AnyH2())) == 0
  }

  lemma FoundAt(look: Look, x: seq<string>, sec: seq<string>, gap: seq<string>, y: seq<string>)
    requires Place(look, x, sec, gap, y)
    ensures RecordAt(Scan(look, x + sec + gap + y)) == |x|
  {
    AllFlags(look, x, sec, gap, y, Record());
    RecordFlags(Flags(Scan(look, x), Record()), |sec| - 1, |gap|, Flags(Scan(look, y), Record()));
  }

  lemma EndsAt(look: Look, x: seq<string>, sec: seq<string>, gap: seq<string>, y: seq<string>)
    requires Place(look, x, sec, gap, y)
    ensures EndOf(Scan(look, x + sec + gap + y), |x|) == |x| + |sec| + |gap|
  {
    AllFlags(look, x, sec, gap, y, AnyH2());
    HeadingFlags(Flags(Scan(look, x), AnyH2()), |sec| - 1, |gap|, Flags(Scan(look, y), AnyH2()));
  }

  lemma Middle(x: seq<string>, sec: seq<string>, gap: seq<string>, y: seq<string>)
    ensures (x + sec + gap + y)[|x|..|x| + |sec| + |gap|] == sec + gap
  {
  }

  /** The section is found where it was put, up to the first heading after it. */
  lemma SectionFound(look: Look, x: seq<string>, sec: seq<string>, gap: seq<string>, y: seq<string>)
    requires Place(look, x, sec, gap, y)
    ensures SplitRaw(look, x + sec + gap + y).record == Some(Join(sec + gap, '\n'))
  {
    FoundAt(look, x, sec, gap, y);
    EndsAt(look, x, sec, gap, y);
    Middle(x, sec, gap, y);
  }

  lemma RecordFlags(x: seq<bool>, n: nat, m: nat, y: seq<bool>)
    requires First(x) == |x|
    ensures First(x + ([true] + Falses(n)) + Falses(m) + y) == |x|
  {
    FirstIs(x + ([true] + Falses(n)) + Falses(m) + y, |x|);
  }

  lemma HeadingFlags(x: seq<bool>, n: nat, m: nat, y: seq<bool>)
    requires First(y) == 0
    ensures First((x + ([true] + Falses(n)) + Falses(m) + y)[|x| + 1..]) == n + m
  {
    var tail := (x + ([true] + Falses(n)) + Falses(m) + y)[|x| + 1..];
    assert tail == Falses(n) + Falses(m) + y;
    FirstIs(tail, n + m);
  }

  /** A report heading before the section is still the first; one after it does not shorten the plan proper. */
  lemma ReportStays(look: Look, x: seq<string>, sec: seq<string>, gap: seq<string>, y: seq<string>)
    requires LeavesClosed(Scan(look, x)) && IsSection(look, sec) && Blanks(gap)
    ensures Earlier(|x|, ReportAt(Scan(look, x + sec + gap + y))) == Earlier(|x|, ReportAt(Scan(look, x)))
  {
    AllFlags(look, x, sec, gap, y, Report());
    var f := Flags(Scan(look, x), Report());
    var rest := [false] + Falses(|sec| - 1) + Falses(|gap|) + Flags(Scan(look, y), Report());
    assert f + ([false] + Falses(|sec| - 1)) + Falses(|gap|) + Flags(Scan(look, y), Report()) == f + rest;
    FirstAppend(f, rest);
  }

  lemma FrontOf(x: seq<string>, sec: seq<string>, gap: seq<string>, y: seq<string>, m: nat)
    requires m <= |x|
    ensures (x + sec + gap + y)[..m] == x[..m]
  {
  }

  lemma ProperIs(look: Look, x: seq<string>, sec: seq<string>, gap: seq<string>, y: seq<string>)
    requires Place(look, x, sec, gap, y)
    ensures SplitRaw(look, x + sec + gap + y).proper == Ended(Join(x[..Earlier(|x|, ReportAt(Scan(look, x)))], '\n'))
  {
    FoundAt(look, x, sec, gap, y);
    ReportStays(look, x, sec, gap, y);
    FrontOf(x, sec, gap, y, Earlier(|x|, ReportAt(Scan(look, x))));
  }

  // ---- the three places a record can go ----

  /** The section as text ends its last line. */
  function SectionText(sec: seq<string>): string
    requires |sec| > 0
  {
    Join(sec + [[]], '\n')
  }

  lemma SectionTextIs(sec: seq<string>)
    requires |sec| > 0
    ensures SectionText(sec) == Join(sec, '\n') + "\n" && DropNewline(SectionText(sec)) == Join(sec, '\n')
  {
    JoinAppend(sec, [[]]);
    var t := Join(sec, '\n');
    assert SectionText(sec) == t + ['\n'] + [];
    assert (t + ['\n'])[..|t|] == t;
  }

  lemma SectionTextLines(sec: seq<string>)
    requires |sec| > 0 && forall k | 0 <= k < |sec| :: '\n' !in sec[k]
    ensures Split(SectionText(sec), '\n') == sec + [[]]
    ensures Split(DropNewline(SectionText(sec)), '\n') == sec
  {
    SectionTextIs(sec);
    SplitJoin(sec + [[]], '\n');
    SplitJoin(sec, '\n');
  }

  ghost predicate OneLine(parts: seq<string>) {
    forall k | 0 <= k < |parts| :: '\n' !in parts[k]
  }

  lemma CutOneLine(text: string, n: nat, m: nat)
    requires n <= |Split(text, '\n')| && m <= |Split(text, '\n')|
    ensures OneLine(Split(text, '\n')[..n]) && OneLine(Split(text, '\n')[m..])
  {
  }

  /** The plan with the section in its place, taken apart again. */
  lemma PlacedSplit(look: Look, x: seq<string>, sec: seq<string>, gap: seq<string>, y: seq<string>)
    requires Place(look, x, sec, gap, y) && OneLine(x) && OneLine(y)
    ensures var p := SplitPlan(look, Join(x + sec + gap + y, '\n'));
            && p.record == Some(Join(sec + gap, '\n'))
            && p.proper == Ended(Join(x[..Earlier(|x|, ReportAt(Scan(look, x)))], '\n'))
  {
    SectionFound(look, x, sec, gap, y);
    ProperIs(look, x, sec, gap, y);
    SplitPlanRaw(look, x + sec + gap + y);
  }

  /** Lines cut before a line outside fences keep their flags on both sides. */
  lemma CutFlags(look: Look, raw: seq<string>, n: nat, pick: Kind -> bool)
    requires n < |raw| && !Fenced(Scan(look, raw), n)
    ensures LeavesClosed(Scan(look, raw[..n]))
    ensures Flags(Scan(look, raw), pick) == Flags(Scan(look, raw[..n]), pick) + Flags(Scan(look, raw[n..]), pick)
  {
    CutAtHeading(Scan(look, raw), n, pick);
    ScanCut(look, raw, n);
  }

  lemma FirstOfCut(f: seq<bool>, x: seq<bool>, y: seq<bool>)
    requires f == x + y && First(f) >= |x|
    ensures First(x) == |x| && First(y) == First(f) - |x|
  {
    FirstAppend(x, y);
  }

  lemma FlagAtFirst(look: Look, raw: seq<string>, pick: Kind -> bool)
    ensures var n := First(Flags(Scan(look, raw), pick));
            n < |raw| ==> Flag(Scan(look, raw), n, pick) && !Fenced(Scan(look, raw), n) && pick(look(raw[n]).text)
  {
    var f, n := Flags(Scan(look, raw), pick), First(Flags(Scan(look, raw), pick));
    if n < |raw| {
      assert f[n] == Flag(Scan(look, raw), n, pick);
    }
  }

  /** After the record comes a heading or nothing. */
  lemma AfterRecord(look: Look, raw: seq<string>, r: nat)
    requires r < |raw|
    ensures First(Flags(Scan(look, raw[EndOf(Scan(look, raw), r)..]), AnyH2())) == 0
  {
    var lines := Scan(look, raw);
    var e, f := EndOf(lines, r), Flags(lines, AnyH2());
    if e < |raw| {
      assert f[r + 1..][e - r - 1] == f[e];
      assert f[e] == Flag(lines, e, AnyH2());
      StartsAtHeading(look, raw, e, AnyH2());
    }
  }

  lemma StartsAtHeading(look: Look, raw: seq<string>, e: nat, pick: Kind -> bool)
    requires e < |raw| && Flag(Scan(look, raw), e, pick)
    ensures First(Flags(Scan(look, raw[e..]), pick)) == 0
  {
    CutFlags(look, raw, e, pick);
    var x, y := Flags(Scan(look, raw[..e]), pick), Flags(Scan(look, raw[e..]), pick);
    assert Flags(Scan(look, raw), pick)[e] == (x + y)[|x|] == y[0];
  }

  /** The lines before the first record heading. */
  lemma BeforeFirst(look: Look, raw: seq<string>, n: nat, other: Kind -> bool)
    requires n == First(Flags(Scan(look, raw), other)) < |raw|
    ensures LeavesClosed(Scan(look, raw[..n])) && First(Flags(Scan(look, raw[..n]), other)) == n
  {
    FlagAtFirst(look, raw, other);
    CutFlags(look, raw, n, other);
    FirstOfCut(Flags(Scan(look, raw), other), Flags(Scan(look, raw[..n]), other), Flags(Scan(look, raw[n..]), other));
  }

  /** How far the plan proper goes is decided by the lines before the first heading that ends it. */
  lemma SameEnd(look: Look, raw: seq<string>, n: nat, pick: Kind -> bool)
    requires n < |raw| && !Fenced(Scan(look, raw), n)
    ensures Earlier(n, First(Flags(Scan(look, raw[..n]), pick))) == Earlier(n, First(Flags(Scan(look, raw), pick)))
  {
    CutFlags(look, raw, n, pick);
    FirstAppend(Flags(Scan(look, raw[..n]), pick), Flags(Scan(look, raw[n..]), pick));
  }

  lemma Slices(raw: seq<string>, n: nat, m: nat)
    requires m <= n <= |raw|
    ensures raw[..n][..m] == raw[..m]
  {
  }

  function GapBefore(after: seq<string>): seq<string> {
    if after != [] && after[0] != [] then [[]] else []
  }

  /** What the plan proper is, when it ends at the first record or report heading, line `n`. */
  lemma ProperBefore(look: Look, raw: seq<string>, n: nat)
    requires n < |raw| && !Fenced(Scan(look, raw), n)
    requires n == RecordAt(Scan(look, raw)) || (n == ReportAt(Scan(look, raw)) && n <= RecordAt(Scan(look, raw)))
    ensures SplitRaw(look, raw).proper == Ended(Join(raw[..n][..Earlier(n, ReportAt(Scan(look, raw[..n])))], '\n'))
  {
    SameEnd(look, raw, n, Report());
    Slices(raw, n, Earlier(n, ReportAt(Scan(look, raw[..n]))));
  }

  lemma WithRecordReplaced(look: Look, plan: string, sec: seq<string>)
    requires IsSection(look, sec) && RecordAt(Scan(look, Split(plan, '\n'))) < |Split(plan, '\n')|
    ensures var raw := Split(plan, '\n'); var r := RecordAt(Scan(look, raw)); var y := raw[EndOf(Scan(look, raw), r)..];
            WithRecord(look, plan, SectionText(sec)) == Join(raw[..r] + sec + GapBefore(y) + y, '\n')
  {
    SectionTextLines(sec);
  }

  /** Replacing a record. */
  lemma ReplaceRecord(look: Look, plan: string, sec: seq<string>) returns (gap: seq<string>)
    requires IsSection(look, sec)
    requires RecordAt(Scan(look, Split(plan, '\n'))) < |Split(plan, '\n')|
    ensures Blanks(gap) && |gap| <= 1
    ensures SplitPlan(look, WithRecord(look, plan, SectionText(sec))).record == Some(Join(sec + gap, '\n'))
    ensures SplitPlan(look, WithRecord(look, plan, SectionText(sec))).proper == SplitPlan(look, plan).proper
  {
    var raw := Split(plan, '\n');
    var r := RecordAt(Scan(look, raw));
    var e := EndOf(Scan(look, raw), r);
    gap := GapBefore(raw[e..]);
    BeforeFirst(look, raw, r, Record());
    AfterRecord(look, raw, r);
    CutOneLine(plan, r, e);
    PlacedSplit(look, raw[..r], sec, gap, raw[e..]);
    WithRecordReplaced(look, plan, sec);
    FlagAtFirst(look, raw, Record());
    ProperBefore(look, raw, r);
  }

  /** Inserting a record before the report. */
  lemma InsertRecord(look: Look, plan: string, sec: seq<string>)
    requires IsSection(look, sec) && Sound(look)
    requires var raw := Split(plan, '\n'); RecordAt(Scan(look, raw)) == |raw| && ReportAt(Scan(look, raw)) < |raw|
    ensures SplitPlan(look, WithRecord(look, plan, SectionText(sec))).record == Some(Join(sec + [[]], '\n'))
    ensures SplitPlan(look, WithRecord(look, plan, SectionText(sec))).proper == SplitPlan(look, plan).proper
  {
    var raw := Split(plan, '\n');
    var q := ReportAt(Scan(look, raw));
    BeforeFirst(look, raw, q, Report());
    FlagAtFirst(look, raw, Report());
    assert SoundKind(look, raw[q]);
    StartsAtHeading(look, raw, q, AnyH2());
    NoneBefore(look, raw, q, Record());
    CutOneLine(plan, q, q);
    PlacedSplit(look, raw[..q], sec, [[]], raw[q..]);
    SectionTextLines(sec);
    Regroup(raw[..q], sec, [[]], raw[q..]);
    ProperBefore(look, raw, q);
  }

  lemma Regroup(x: seq<string>, sec: seq<string>, gap: seq<string>, y: seq<string>)
    ensures x + (sec + gap) + y == x + sec + gap + y
  {
  }

  lemma NoneBefore(look: Look, raw: seq<string>, n: nat, pick: Kind -> bool)
    requires n < |raw| && !Fenced(Scan(look, raw), n) && First(Flags(Scan(look, raw), pick)) == |raw|
    ensures First(Flags(Scan(look, raw[..n]), pick)) == n
  {
    CutFlags(look, raw, n, pick);
    FirstOfCut(Flags(Scan(look, raw), pick), Flags(Scan(look, raw[..n]), pick), Flags(Scan(look, raw[n..]), pick));
  }

  // ---- appending a record ----

  predicate EndsNewline(s: string) {
    s != [] && s[|s| - 1] == '\n'
  }

  /** The lines of a plan that has neither heading, as they stand before an appended record. */
  function LinesBefore(plan: string): seq<string> {
    var raw := Split(plan, '\n');
    if EndsBlankLine(plan) then raw[..|raw| - 1] else if EndsNewline(plan) then raw else raw + [[]]
  }

  lemma LastPart(plan: string)
    requires EndsNewline(plan)
    ensures var raw := Split(plan, '\n');
            |raw| >= 2 && raw[|raw| - 1] == [] && raw == Split(plan[..|plan| - 1], '\n') + [[]]
  {
    SplitAt(plan[..|plan| - 1], [], '\n');
    SplitOnce([], '\n');
    assert plan == plan[..|plan| - 1] + ['\n'] + [];
  }

  lemma AppendedLines(look: Look, plan: string, sec: seq<string>)
    requires IsSection(look, sec)
    requires var raw := Split(plan, '\n'); RecordAt(Scan(look, raw)) == |raw| && ReportAt(Scan(look, raw)) == |raw|
    ensures var p := LinesBefore(plan);
            |p| > 0 && OneLine(p) && WithRecord(look, plan, SectionText(sec)) == Join(p + sec + [[]] + [], '\n')
  {
    var p := LinesBefore(plan);
    BeforeText(plan);
    AppendedText(p, sec);
    SectionTextIs(sec);
    WithRecordAppended(look, plan, SectionText(sec));
  }

  lemma WithRecordAppended(look: Look, plan: string, section: string)
    requires var raw := Split(plan, '\n'); RecordAt(Scan(look, raw)) == |raw| && ReportAt(Scan(look, raw)) == |raw|
    ensures WithRecord(look, plan, section) ==
              (if EndsBlankLine(plan) then plan else if EndsNewline(plan) then plan + "\n" else plan + "\n" + "\n") + section
  {
  }

  /** Those lines and a newline are the text in front of the record. */
  lemma BeforeText(plan: string)
    ensures var p := LinesBefore(plan);
            |p| > 0 && OneLine(p) && Join(p, '\n') + ['\n'] ==
              (if EndsBlankLine(plan) then plan else if EndsNewline(plan) then plan + "\n" else plan + "\n" + "\n")
  {
    var raw, p := Split(plan, '\n'), LinesBefore(plan);
    JoinSplit(plan, '\n');
    if EndsBlankLine(plan) {
      LastPart(plan);
      JoinSplit(plan[..|plan| - 1], '\n');
      assert p == Split(plan[..|plan| - 1], '\n');
      assert plan[..|plan| - 1] + ['\n'] == plan;
    } else if !EndsNewline(plan) {
      JoinAppend(raw, [[]]);
      assert plan + ['\n'] + [] == plan + "\n";
    }
  }

  ghost predicate NoFlag(lines: seq<PlanLine>, pick: Kind -> bool) {
    First(Flags(lines, pick)) == |lines|
  }

  /** A quiet line more or less at the end changes neither headings nor fences. */
  lemma QuietTail(x: seq<PlanLine>, pick: Kind -> bool)
    requires !pick(Kind(false, false, false))
    ensures LeavesClosed(x + [QUIET]) <==> LeavesClosed(x)
    ensures NoFlag(x + [QUIET], pick) <==> NoFlag(x, pick)
  {
    var y := x + [QUIET];
    assert y[..|x|] == x[..|x|];
    FenceOfPrefix(y, x, |x|);
    var f, g := Flags(y, pick), Flags(x, pick);
    forall k: nat | k < |x| ensures f[k] == g[k] {
      FlagFirst(x, [QUIET], k, pick);
    }
    assert f[|x|] == Flag(y, |x|, pick);
    if NoFlag(y, pick) {
      FirstIs(g, |x|);
    }
    if NoFlag(x, pick) {
      FirstIs(f, |y|);
    }
  }

  lemma BeforeLines(look: Look, plan: string, pick: Kind -> bool)
    requires look([]) == QUIET && !pick(Kind(false, false, false))
    ensures LeavesClosed(Scan(look, LinesBefore(plan))) <==> LeavesClosed(Scan(look, Split(plan, '\n')))
    ensures NoFlag(Scan(look, Split(plan, '\n')), pick) ==> NoFlag(Scan(look, LinesBefore(plan)), pick)
  {
    var raw := Split(plan, '\n');
    if EndsBlankLine(plan) {
      LastPart(plan);
      ScanAppend(look, raw[..|raw| - 1], [[]]);
      assert raw == raw[..|raw| - 1] + [[]];
      assert Scan(look, [[]]) == [QUIET];
      QuietTail(Scan(look, raw[..|raw| - 1]), pick);
    } else if !EndsNewline(plan) {
      ScanAppend(look, raw, [[]]);
      assert Scan(look, [[]]) == [QUIET];
      QuietTail(Scan(look, raw), pick);
    }
  }

  /** Appended to a plan that leaves no fence open, the record is found, after the whole plan. */
  lemma AppendClosed(look: Look, plan: string, sec: seq<string>)
    requires IsSection(look, sec) && LeavesClosed(Scan(look, Split(plan, '\n')))
    requires var raw := Split(plan, '\n'); RecordAt(Scan(look, raw)) == |raw| && ReportAt(Scan(look, raw)) == |raw|
    ensures var s := SplitPlan(look, WithRecord(look, plan, SectionText(sec)));
            s.record == Some(Join(sec + [[]], '\n')) && s.proper == Ended(Join(LinesBefore(plan), '\n'))
  {
    var p := LinesBefore(plan);
    AppendedLines(look, plan, sec);
    BeforeLines(look, plan, Record());
    BeforeLines(look, plan, Report());
    PlacedSplit(look, p, sec, [[]], []);
    assert p[..|p|] == p;
  }

  /** Behind an open fence nothing of the section is seen. */
  lemma OpenFlags(x: seq<PlanLine>, y: seq<PlanLine>, pick: Kind -> bool)
    requires !LeavesClosed(x) && NoFlag(x, pick) && forall k | 0 <= k < |y| :: y[k].mark == None
    ensures NoFlag(x + y, pick)
  {
    var f := Flags(x + y, pick);
    forall k: nat | k < |x + y| ensures !f[k] {
      if k < |x| {
        FlagFirst(x, y, k, pick);
        assert Flags(x, pick)[k] == Flag(x, k, pick);
      } else {
        StaysOpen(x, y, k - |x|);
      }
    }
    FirstIs(f, |x + y|);
  }

  lemma {:induction false} StaysOpen(x: seq<PlanLine>, y: seq<PlanLine>, k: nat)
    requires !LeavesClosed(x) && k <= |y| && forall i | 0 <= i < |y| :: y[i].mark == None
    ensures FenceAt(x + y, |x| + k).Open?
  {
    if k == 0 {
      assert (x + y)[..|x|] == x[..|x|];
      FenceOfPrefix(x + y, x, |x|);
    } else {
      StaysOpen(x, y, k - 1);
    }
  }

  lemma AppendOpen(look: Look, plan: string, sec: seq<string>)
    requires IsSection(look, sec) && !LeavesClosed(Scan(look, Split(plan, '\n')))
    requires var raw := Split(plan, '\n'); RecordAt(Scan(look, raw)) == |raw| && ReportAt(Scan(look, raw)) == |raw|
    ensures var text := WithRecord(look, plan, SectionText(sec)); var s := SplitPlan(look, text);
            s.record == None && s.proper == Ended(text)
  {
    var p := LinesBefore(plan);
    var rest := sec + [[]];
    AppendedLines(look, plan, sec);
    BeforeLines(look, plan, Record());
    BeforeLines(look, plan, Report());
    ScanAppend(look, p, rest);
    OpenFlags(Scan(look, p), Scan(look, rest), Record());
    OpenFlags(Scan(look, p), Scan(look, rest), Report());
    var all := p + rest;
    assert p + sec + [[]] + [] == all;
    AllOneLine(p, sec);
    SplitPlanRaw(look, all);
    assert all[..|all|] == all;
  }

  lemma AllOneLine(p: seq<string>, sec: seq<string>)
    requires OneLine(p) && OneLine(sec)
    ensures OneLine(p + (sec + [[]]))
  {
  }

  // ---- the plan proper as it goes to review ----

  /** Without the newlines at the end. */
  function Core(s: string): (r: string)
    ensures |r| <= |s|
  {
    if EndsNewline(s) then Core(s[..|s| - 1]) else s
  }

  /** One newline where there were several. */
  function ForReview(proper: string): string {
    if EndsNewline(proper) then Core(proper) + "\n" else proper
  }

  lemma CoreNewline(s: string)
    ensures Core(s + "\n") == Core(s)
  {
    assert (s + "\n")[..|s|] == s;
  }

  lemma ReviewEnded(t: string)
    ensures ForReview(Ended(t)) == if t == [] then [] else Core(t) + "\n"
  {
    CoreNewline(t);
  }

  /** An appended record leaves the reviewed plan proper as it was, unless there was no plan. */
  lemma AppendReviewed(plan: string)
    ensures ForReview(Ended(Join(LinesBefore(plan), '\n'))) == Core(plan) + "\n"
    ensures ForReview(Ended(plan)) == if plan == [] then [] else Core(plan) + "\n"
  {
    var t := Join(LinesBefore(plan), '\n');
    BeforeText(plan);
    ReviewEnded(t);
    ReviewEnded(plan);
    CoreNewline(t);
    CoreNewline(plan);
    CoreNewline(plan + "\n");
    assert t + ['\n'] == t + "\n";
    assert |t| + 1 == |t + ['\n']| >= 2;
  }

  lemma {:induction false} LastNotBlank(sec: seq<string>)
    requires |sec| > 0 && sec[|sec| - 1] != [] && '\n' !in sec[|sec| - 1]
    ensures Join(sec, '\n') != [] && !EndsNewline(Join(sec, '\n'))
  {
    if |sec| > 1 {
      LastNotBlank(sec[1..]);
      var t := Join(sec[1..], '\n');
      assert Join(sec, '\n')[|sec[0]| + 1 + |t| - 1] == t[|t| - 1];
    } else {
      assert sec[0][|sec[0]| - 1] in sec[0];
    }
  }

  /** Behind an open fence the whole sealed text is the plan proper: not the one that was reviewed. */
  lemma OpenReviewed(plan: string, sec: seq<string>)
    requires |sec| > 0 && sec[|sec| - 1] != [] && '\n' !in sec[|sec| - 1]
    ensures ForReview(Ended(Join(LinesBefore(plan) + sec + [[]] + [], '\n'))) != ForReview(Ended(plan))
  {
    var p, t := LinesBefore(plan), Join(sec, '\n');
    BeforeText(plan);
    AppendedText(p, sec);
    LastNotBlank(sec);
    var head := Join(p, '\n') + "\n";
    EndsNow(head, t);
    ReviewEnded(head + t + "\n");
    CoreNewline(head + t);
    ReviewEnded(plan);
    assert |head| >= |plan|;
  }

  lemma AppendedText(p: seq<string>, sec: seq<string>)
    requires |p| > 0 && |sec| > 0
    ensures Join(p + sec + [[]] + [], '\n') == Join(p, '\n') + "\n" + Join(sec, '\n') + "\n"
  {
    JoinAppend(p, sec + [[]]);
    SectionTextIs(sec);
    assert p + sec + [[]] + [] == p + (sec + [[]]);
  }

  lemma EndsNow(head: string, t: string)
    requires t != [] && !EndsNewline(t)
    ensures Core(head + t) == head + t
  {
    assert (head + t)[|head + t| - 1] == t[|t| - 1];
  }

  // ---- the theorem ----

  /** What a caller can check before sealing: a record or report heading, or no fence left open. */
  predicate Carries(look: Look, plan: string) {
    var lines := Scan(look, Split(plan, '\n'));
    RecordAt(lines) < |lines| || ReportAt(lines) < |lines| || LeavesClosed(lines)
  }

  lemma EmptyPlan(look: Look)
    requires look([]) == QUIET
    ensures var lines := Scan(look, Split([], '\n'));
            RecordAt(lines) == |lines| && ReportAt(lines) == |lines| && LeavesClosed(lines)
  {
    SplitOnce([], '\n');
    var lines := Scan(look, Split([], '\n'));
    assert lines == [QUIET];
    QuietFlags(lines, Record());
    QuietFlags(lines, Report());
  }

  /** The section is read back exactly from the plans that can carry it. */
  lemma SectionReadBack(look: Look, plan: string, sec: seq<string>)
    requires IsSection(look, sec) && Sound(look)
    ensures var s := SplitPlan(look, WithRecord(look, plan, SectionText(sec)));
            if Carries(look, plan) then s.record == Some(Join(sec, '\n')) || s.record == Some(Join(sec, '\n') + "\n")
            else s.record == None
  {
    var raw := Split(plan, '\n');
    SectionTextIs(sec);
    if RecordAt(Scan(look, raw)) < |raw| {
      var gap := ReplaceRecord(look, plan, sec);
      if gap == [] {
        assert sec + gap == sec;
      } else {
        assert gap == [[]];
      }
    } else if ReportAt(Scan(look, raw)) < |raw| {
      InsertRecord(look, plan, sec);
    } else if LeavesClosed(Scan(look, raw)) {
      AppendClosed(look, plan, sec);
    } else {
      AppendOpen(look, plan, sec);
    }
  }

  /** The plan proper as reviewed is unchanged exactly by sealing a plan that can carry the record and is not empty. */
  lemma ProperUnchanged(look: Look, plan: string, sec: seq<string>)
    requires IsSection(look, sec) && Sound(look)
    ensures var s := SplitPlan(look, WithRecord(look, plan, SectionText(sec)));
            ForReview(s.proper) == ForReview(SplitPlan(look, plan).proper) <==> Carries(look, plan) && plan != []
  {
    var raw := Split(plan, '\n');
    EmptyPlan(look);
    if RecordAt(Scan(look, raw)) < |raw| {
      var gap := ReplaceRecord(look, plan, sec);
    } else if ReportAt(Scan(look, raw)) < |raw| {
      InsertRecord(look, plan, sec);
    } else {
      WholePlan(look, plan);
      if LeavesClosed(Scan(look, raw)) {
        AppendClosed(look, plan, sec);
        AppendReviewed(plan);
      } else {
        AppendOpen(look, plan, sec);
        AppendedLines(look, plan, sec);
        OpenReviewed(plan, sec);
      }
    }
  }

  lemma WholePlan(look: Look, plan: string)
    requires var raw := Split(plan, '\n'); RecordAt(Scan(look, raw)) == |raw| && ReportAt(Scan(look, raw)) == |raw|
    ensures SplitPlan(look, plan).proper == Ended(plan)
  {
    var raw := Split(plan, '\n');
    JoinSplit(plan, '\n');
    assert raw[..|raw|] == raw;
  }
}
