/**
 * A lean plan in its parts: the plan proper, the review record and the report, found by their headings outside
 * fences; and the insertion or replacement of the review record.
 */
module PlanParts {
  import opened Common
  import opened Text
  import opened Fences

  /** Which headings a line's text is. */
  datatype Kind = Kind(record: bool, report: bool, h2: bool)

  type PlanLine = Scanned<Kind>
  type Look = string -> PlanLine

  datatype Parts = Parts(proper: string, record: Option<string>, report: Option<string>)

  // ---- headings outside fences ----

  predicate Flag(lines: seq<PlanLine>, k: nat, pick: Kind -> bool)
    requires k < |lines|
  {
    !Fenced(lines, k) && pick(lines[k].text)
  }

  function Flags(lines: seq<PlanLine>, pick: Kind -> bool): (r: seq<bool>)
    ensures |r| == |lines| && forall k | 0 <= k < |lines| :: r[k] == Flag(lines, k, pick)
  {
    seq(|lines|, k requires 0 <= k < |lines| => Flag(lines, k, pick))
  }

  /** The index of the first true flag, or the length when there is none. */
  function First(flags: seq<bool>): (n: nat)
    ensures n <= |flags| && (n < |flags| ==> flags[n]) && forall k | 0 <= k < n :: !flags[k]
  {
    if flags == [] || flags[0] then 0 else 1 + First(flags[1..])
  }

  function Record(): Kind -> bool { (k: Kind) => k.record }
  function Report(): Kind -> bool { (k: Kind) => k.report }
  function AnyH2(): Kind -> bool { (k: Kind) => k.h2 }

  function RecordAt(lines: seq<PlanLine>): nat { First(Flags(lines, Record())) }

  function ReportAt(lines: seq<PlanLine>): nat { First(Flags(lines, Report())) }

  /** The end of the section that starts at `from`: the next heading, or the end of the text. */
  function EndOf(lines: seq<PlanLine>, from: nat): (n: nat)
    requires from < |lines|
    ensures from < n <= |lines|
  {
    from + 1 + First(Flags(lines, AnyH2())[from + 1..])
  }

  function Earlier(a: nat, b: nat): nat {
    if a <= b then a else b
  }

  function Ended(text: string): string {
    if text == [] || text[|text| - 1] == '\n' then text else text + "\n"
  }

  function SplitRaw(look: Look, raw: seq<string>): Parts {
    var lines := Scan(look, raw);
    var r, q := RecordAt(lines), ReportAt(lines);
    Parts(Ended(Join(raw[..Earlier(r, q)], '\n')),
          if r < |raw| then Some(Join(raw[r..EndOf(lines, r)], '\n')) else None,
          if q < |raw| then Some(Join(raw[q..], '\n')) else None)
  }

  function SplitPlan(look: Look, text: string): Parts {
    SplitRaw(look, Split(text, '\n'))
  }

  /** Mark the lines of a text as fenced or not. */
  method ScanLines(look: Look, text: string) returns (lines: seq<PlanLine>, fenced: seq<bool>)
    ensures lines == Scan(look, Split(text, '\n')) && |fenced| == |lines|
    ensures forall k | 0 <= k < |lines| :: fenced[k] == Fenced(lines, k)
  {
    var raw := Split(text, '\n');
    lines := Scan(look, raw);
    fenced := [];
    var fence := Closed;
    for i := 0 to |raw|
      invariant fence == FenceAt(lines, i) && |fenced| == i
      invariant forall k | 0 <= k < i :: fenced[k] == Fenced(lines, k)
    {
      var m := lines[i].mark;
      if fence.Open? {
        if m.Some? && m.value.bare && m.value.ch == fence.ch && m.value.len >= fence.len {
          fence := Closed;
        }
        fenced := fenced + [true];
      } else if m.Some? {
        fence := Open(m.value.ch, m.value.len);
        fenced := fenced + [true];
      } else {
        fenced := fenced + [false];
      }
    }
  }

  // ---- inserting the record ----

  function DropNewline(s: string): string {
    if s != [] && s[|s| - 1] == '\n' then s[..|s| - 1] else s
  }

  predicate EndsBlankLine(s: string) {
    |s| >= 2 && s[|s| - 1] == '\n' && s[|s| - 2] == '\n'
  }

  /** Replace the record, or insert it before the report, or append it. */
  function WithRecord(look: Look, plan: string, section: string): string {
    var raw := Split(plan, '\n');
    var lines := Scan(look, raw);
    var r, q := RecordAt(lines), ReportAt(lines);
    if r < |raw| then
      var after := raw[EndOf(lines, r)..];
      var gap := if after != [] && after[0] != [] then [[]] else [];
      Join(raw[..r] + Split(DropNewline(section), '\n') + gap + after, '\n')
    else if q < |raw| then
      Join(raw[..q] + Split(section, '\n') + raw[q..], '\n')
    else
      var base := if plan != [] && plan[|plan| - 1] == '\n' then plan else plan + "\n";
      base + (if EndsBlankLine(base) then [] else "\n") + section
  }

  // ---- flags of lines put together ----

  lemma FirstIs(flags: seq<bool>, n: nat)
    requires n <= |flags| && (n < |flags| ==> flags[n]) && forall k | 0 <= k < n :: !flags[k]
    ensures First(flags) == n
  {
  }

  lemma FirstAppend(a: seq<bool>, b: seq<bool>)
    ensures First(a + b) == if First(a) < |a| then First(a) else |a| + First(b)
  {
    var all := a + b;
    assert forall k | 0 <= k < |a| :: all[k] == a[k];
    assert forall k | 0 <= k < |b| :: all[|a| + k] == b[k];
    FirstIs(all, if First(a) < |a| then First(a) else |a| + First(b));
  }

  lemma FlagFirst(x: seq<PlanLine>, y: seq<PlanLine>, k: nat, pick: Kind -> bool)
    requires k < |x|
    ensures Flag(x + y, k, pick) == Flag(x, k, pick)
  {
    assert (x + y)[..k] == x[..k];
    FenceOfPrefix(x + y, x, k);
  }

  lemma FlagThen(x: seq<PlanLine>, y: seq<PlanLine>, k: nat, pick: Kind -> bool)
    requires LeavesClosed(x) && k < |y|
    ensures Flag(x + y, |x| + k, pick) == Flag(y, k, pick)
  {
    FenceAfter(x, y, k);
  }

  lemma FlagsAppend(x: seq<PlanLine>, y: seq<PlanLine>, pick: Kind -> bool)
    requires LeavesClosed(x)
    ensures Flags(x + y, pick) == Flags(x, pick) + Flags(y, pick)
  {
    var all, f, g := Flags(x + y, pick), Flags(x, pick), Flags(y, pick);
    forall k: nat | k < |x| ensures all[k] == f[k] {
      FlagFirst(x, y, k, pick);
    }
    forall k: nat | k < |y| ensures all[|x| + k] == g[k] {
      FlagThen(x, y, k, pick);
    }
    Concat(all, f, g);
  }

  lemma Concat(all: seq<bool>, f: seq<bool>, g: seq<bool>)
    requires |all| == |f| + |g| && (forall k | 0 <= k < |f| :: all[k] == f[k]) && forall k | 0 <= k < |g| :: all[|f| + k] == g[k]
    ensures all == f + g
  {
    assert forall k | |f| <= k < |all| :: all[k] == all[|f| + (k - |f|)];
  }

  lemma ClosedBoth(x: seq<PlanLine>, y: seq<PlanLine>)
    requires LeavesClosed(x)
    ensures LeavesClosed(x + y) <==> LeavesClosed(y)
  {
    FenceAfter(x, y, |y|);
  }

  /** Before a line outside fences, no fence is open; the lines before and after it are read on their own. */
  lemma CutAtHeading(lines: seq<PlanLine>, n: nat, pick: Kind -> bool)
    requires n < |lines| ==> !Fenced(lines, n)
    requires n <= |lines|
    requires n == |lines| ==> LeavesClosed(lines)
    ensures LeavesClosed(lines[..n])
    ensures Flags(lines, pick) == Flags(lines[..n], pick) + Flags(lines[n..], pick)
    ensures LeavesClosed(lines) <==> LeavesClosed(lines[n..])
  {
    assert lines[..n][..n] == lines[..n];
    FenceOfPrefix(lines[..n], lines, n);
    assert lines == lines[..n] + lines[n..];
    FlagsAppend(lines[..n], lines[n..], pick);
    ClosedBoth(lines[..n], lines[n..]);
  }

  /** Lines that are no heading and no fence. */
  ghost predicate Quiet(x: seq<PlanLine>) {
    forall k | 0 <= k < |x| :: x[k] == Scanned(None, Kind(false, false, false))
  }

  function Falses(n: nat): (r: seq<bool>)
    ensures |r| == n && forall k | 0 <= k < n :: !r[k]
  {
    seq(n, k => false)
  }

  lemma {:induction false} QuietClosed(x: seq<PlanLine>, k: nat)
    requires Quiet(x) && k <= |x|
    ensures FenceAt(x, k).Closed?
  {
    if k > 0 {
      QuietClosed(x, k - 1);
    }
  }

  lemma QuietFlags(x: seq<PlanLine>, pick: Kind -> bool)
    requires Quiet(x) && !pick(Kind(false, false, false))
    ensures LeavesClosed(x) && Flags(x, pick) == Falses(|x|)
  {
    QuietClosed(x, |x|);
  }

  // ---- parts ----

  lemma {:induction false} JoinAppend(a: seq<string>, b: seq<string>)
    requires |a| > 0 && |b| > 0
    ensures Join(a + b, '\n') == Join(a, '\n') + ['\n'] + Join(b, '\n')
  {
    if |a| == 1 {
      assert (a + b)[1..] == b;
    } else {
      JoinAppend(a[1..], b);
      assert (a + b)[1..] == a[1..] + b;
      var x, y := Join(a[1..], '\n'), Join(b, '\n');
      assert a[0] + ['\n'] + (x + ['\n'] + y) == (a[0] + ['\n'] + x) + ['\n'] + y;
    }
  }

  lemma SplitPlanRaw(look: Look, raw: seq<string>)
    requires |raw| > 0 && forall k | 0 <= k < |raw| :: '\n' !in raw[k]
    ensures SplitPlan(look, Join(raw, '\n')) == SplitRaw(look, raw)
  {
    SplitJoin(raw, '\n');
  }

  lemma ScanAppend(look: Look, a: seq<string>, b: seq<string>)
    ensures Scan(look, a + b) == Scan(look, a) + Scan(look, b)
  {
  }

  lemma ScanCut(look: Look, a: seq<string>, n: nat)
    requires n <= |a|
    ensures Scan(look, a[..n]) == Scan(look, a)[..n] && Scan(look, a[n..]) == Scan(look, a)[n..]
  {
  }
}
