/**
 * Fenced code blocks as the Markdown readers of docs-ship and autoplan-lean see them: one automaton over
 * lines, used with two readings of what a fence line is.
 */
module Fences {
  import opened Common
  import opened Text

  /** A line that starts with a fence: its character, its length, and whether nothing else follows. */
  datatype Mark = Mark(ch: char, len: nat, bare: bool)

  datatype Fence = Closed | Open(ch: char, len: nat)

  function RunLength(s: string, c: char): (n: nat)
    ensures n <= |s| && (forall i | 0 <= i < n :: s[i] == c) && (n < |s| ==> s[n] != c)
  {
    if s != [] && s[0] == c then 1 + RunLength(s[1..], c) else 0
  }

  /** Three or more backticks or tildes after the indentation. */
  function MarkAfter(rest: string): Option<Mark> {
    if rest == [] || (rest[0] != '`' && rest[0] != '~') then None
    else
      var n := RunLength(rest, rest[0]);
      if n < 3 then None else Some(Mark(rest[0], n, Blank(rest[n..])))
  }

  /** Docs-ship reads a fence after at most three spaces. */
  function MarkdownMark(line: string): Option<Mark> {
    var n := RunLength(line, ' ');
    if n > 3 then None else MarkAfter(line[n..])
  }

  /** Autoplan-lean reads a fence after any white space. */
  function PlanMark(line: string): Option<Mark> {
    MarkAfter(TrimStart(line))
  }

  /** A closing fence has the opening character, is at least as long, and holds nothing else. */
  function Step(f: Fence, m: Option<Mark>): Fence {
    match f
    case Closed => if m.Some? then Open(m.value.ch, m.value.len) else Closed
    case Open(ch, len) => if m.Some? && m.value.bare && m.value.ch == ch && m.value.len >= len then Closed else f
  }

  /** A line as a scan sees it: the fence it may be, and what else it says. */
  datatype Scanned<T> = Scanned(mark: Option<Mark>, text: T)

  type Line = Scanned<string>

  /** The fence open before line `k`. */
  function FenceAt<T>(lines: seq<Scanned<T>>, k: nat): Fence
    requires k <= |lines|
  {
    if k == 0 then Closed else Step(FenceAt(lines, k - 1), lines[k - 1].mark)
  }

  predicate Fenced<T>(lines: seq<Scanned<T>>, k: nat)
    requires k < |lines|
  {
    FenceAt(lines, k).Open? || lines[k].mark.Some?
  }

  predicate LeavesClosed<T>(lines: seq<Scanned<T>>) {
    FenceAt(lines, |lines|).Closed?
  }

  predicate Indented(line: string) {
    (|line| >= 4 && line[..4] == "    ") || (line != [] && line[0] == '\t')
  }

  /** A line of a pull-request body: indented code has no text of its own. */
  function MarkdownLine(line: string): Line {
    Scanned(MarkdownMark(line), if Indented(line) then [] else Trim(line))
  }

  /** The lines of a text under a reading of one line. */
  function Scan<T>(look: string -> Scanned<T>, parts: seq<string>): (r: seq<Scanned<T>>)
    ensures |r| == |parts| && forall k | 0 <= k < |parts| :: r[k] == look(parts[k])
  {
    seq(|parts|, k requires 0 <= k < |parts| => look(parts[k]))
  }

  /** The zero-based numbers of the fenced lines, fence lines included. */
  method FencedLines<T>(look: string -> Scanned<T>, parts: seq<string>) returns (inside: set<nat>)
    ensures forall k: nat :: k in inside <==> k < |parts| && Fenced(Scan(look, parts), k)
  {
    ghost var lines := Scan(look, parts);
    inside := {};
    var fence := Closed;
    for i := 0 to |parts|
      invariant fence == FenceAt(lines, i)
      invariant forall k: nat :: k in inside <==> k < i && Fenced(lines, k)
    {
      var m := look(parts[i]).mark;
      if fence.Open? {
        inside := inside + {i};
        if m.Some? && m.value.bare && m.value.ch == fence.ch && m.value.len >= fence.len {
          fence := Closed;
        }
      } else if m.Some? {
        fence := Open(m.value.ch, m.value.len);
        inside := inside + {i};
      }
    }
  }

  lemma {:induction false} FenceOfPrefix<T>(x: seq<Scanned<T>>, y: seq<Scanned<T>>, k: nat)
    requires k <= |x| && k <= |y| && x[..k] == y[..k]
    ensures FenceAt(x, k) == FenceAt(y, k)
  {
    if k > 0 {
      assert x[k - 1] == x[..k][k - 1] && y[k - 1] == y[..k][k - 1];
      assert x[..k - 1] == x[..k][..k - 1] && y[..k - 1] == y[..k][..k - 1];
      FenceOfPrefix(x, y, k - 1);
    }
  }

  /** After lines that leave no fence open, the next lines are read as if they stood alone. */
  lemma {:induction false} FenceAfter<T>(x: seq<Scanned<T>>, y: seq<Scanned<T>>, k: nat)
    requires LeavesClosed(x) && k <= |y|
    ensures FenceAt(x + y, |x| + k) == FenceAt(y, k)
  {
    if k == 0 {
      assert (x + y)[..|x|] == x[..|x|];
      FenceOfPrefix(x, x + y, |x|);
    } else {
      FenceAfter(x, y, k - 1);
    }
  }

  lemma RunLengthIs(s: string, c: char, n: nat)
    requires n <= |s| && (forall i | 0 <= i < n :: s[i] == c) && (n < |s| ==> s[n] != c)
    ensures RunLength(s, c) == n
  {
  }

  lemma MarkAfterBlank(rest: string, w: string)
    requires Blank(w)
    ensures MarkAfter(rest + w) == MarkAfter(rest)
  {
    if rest == [] {
      assert rest + w == w;
      assert w != [] ==> IsSpace(w[0]);
    } else {
      var n := RunLength(rest, rest[0]);
      if rest[0] == '`' || rest[0] == '~' {
        assert w != [] ==> IsSpace(w[0]);
        RunLengthIs(rest + w, rest[0], n);
        assert (rest + w)[n..] == rest[n..] + w;
        assert Blank(rest[n..] + w) <==> Blank(rest[n..]) by {
          assert forall i | 0 <= i < |rest[n..]| :: (rest[n..] + w)[i] == rest[n..][i];
        }
      }
    }
  }

  /** White space at the end of a line changes nothing about its fence. */
  lemma MarkdownMarkTrailing(line: string, w: string)
    requires Blank(w) && (w != [] ==> w[0] != ' ')
    ensures MarkdownMark(line + w) == MarkdownMark(line)
  {
    var n := RunLength(line, ' ');
    RunLengthIs(line + w, ' ', n);
    assert (line + w)[n..] == line[n..] + w;
    MarkAfterBlank(line[n..], w);
  }

  lemma BlankMarksNothing(w: string)
    requires Blank(w)
    ensures MarkdownMark(w) == None && PlanMark(w) == None
  {
    var n := RunLength(w, ' ');
    assert n < |w| ==> IsSpace(w[n..][0]);
    assert w + [] == w;
    TrimStartIs(w, []);
  }
}
