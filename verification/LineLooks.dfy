/**
 * What a pull-request body line looks like to the marker scan, with space around it or a carriage return after it.
 *
 * The scan sees a line as a fence mark, if it is one, and as the text it holds when it is not indented code.
 * Space after a line and a carriage return at its end change neither; these are the facts a `Markers` asks for.
 */
module LineLooks {
  import opened Common
  import opened Text
  import opened Fences
  import opened LineEndings

  function Plainly(text: string): Line {
    Scanned(None, text)
  }

  ghost predicate IsMarkerText(m: string) {
    |m| >= 4 && m[0] == '<' && m[|m| - 1] == '>' && '\n' !in m && '\r' !in m
  }

  /** The white space in front of a line's text. */
  function Lead(line: string): nat {
    |line| - |TrimStart(line)|
  }

  lemma Columns(a: string, m: string, x: string, t: string, line: string)
    requires m <= t && x == t[|m|..] && line == a + t
    ensures line[..|a|] == a && line[|a|..|a| + |m|] == m && line[|a| + |m|..] == x && a + m <= line
  {
    assert line == a + m + x;
  }

  /** Where the trimmed text stands in the line. */
  lemma TrimColumns(line: string, m: string)
    requires Trim(line) == m
    ensures Lead(line) + |m| <= |line| && line[Lead(line)..Lead(line) + |m|] == m
    ensures line[..Lead(line)] + m <= line
  {
    TrimPrefix(line);
    SuffixColumns(line, TrimStart(line), m, Lead(line));
  }

  lemma TrimPrefix(line: string)
    ensures Trim(line) <= TrimStart(line)
    ensures Lead(line) + |TrimStart(line)| == |line| && line[Lead(line)..] == TrimStart(line)
  {
  }

  lemma SuffixColumns(line: string, t: string, m: string, lead: nat)
    requires lead + |t| == |line| && line[lead..] == t && m <= t
    ensures lead + |m| <= |line| && line[lead..lead + |m|] == m && line[..lead] + m <= line
  {
    Columns(line[..lead], m, t[|m|..], t, line);
  }

  lemma TrimSpace(line: string, m: string)
    requires Trim(line) == m
    ensures Lead(line) + |m| <= |line|
    ensures Blank(line[..Lead(line)]) && Blank(line[Lead(line) + |m|..])
  {
    var t := TrimStart(line);
    assert t == line[|line| - |t|..];
    assert t[|m|..] == line[|line| - |t| + |m|..];
  }

  /** After the spaces a line starts with the first character that is no space. */
  lemma FirstAfterSpaces(line: string, n: nat)
    requires n < |line| && (forall i | 0 <= i < n :: line[i] == ' ') && !IsSpace(line[n])
    ensures TrimStart(line) != [] && TrimStart(line)[0] == line[n]
  {
    SpacesTrimmed(line, n);
    assert line[n..][0] == line[n];
  }

  lemma FenceChars()
    ensures !IsSpace('`') && !IsSpace('~')
  {
  }

  lemma NoFenceChar(line: string, n: nat, c: char)
    requires TrimStart(line) != [] && TrimStart(line)[0] == '<' && (c == '`' || c == '~')
    requires n < |line| && forall i | 0 <= i < n :: line[i] == ' '
    ensures line[n] != c
  {
    FenceChars();
    if line[n] == c {
      FirstAfterSpaces(line, n);
    }
  }

  lemma NoMark(rest: string)
    requires rest != [] ==> rest[0] != '`' && rest[0] != '~'
    ensures MarkAfter(rest) == None
  {
  }

  lemma NotAFence(line: string)
    requires TrimStart(line) != [] && TrimStart(line)[0] == '<'
    ensures MarkdownMark(line) == None
  {
    var n := RunLength(line, ' ');
    if n < |line| {
      NoFenceChar(line, n, '`');
      NoFenceChar(line, n, '~');
      assert line[n..][0] == line[n];
    }
    NoMark(line[n..]);
  }

  lemma SpacesTrimmed(line: string, n: nat)
    requires n < |line| && (forall i | 0 <= i < n :: line[i] == ' ') && !IsSpace(line[n])
    ensures TrimStart(line)[..] == line[n..]
  {
    assert Blank(line[..n]);
    TrimStartIs(line[..n], line[n..]);
    assert line == line[..n] + line[n..];
  }

  lemma MarkerIsNoFence(line: string, m: string)
    requires IsMarkerText(m) && Trim(line) == m
    ensures MarkdownMark(line) == None
  {
    assert m <= TrimStart(line);
    NotAFence(line);
  }

  lemma LeadOf(w: string, m: string)
    requires Blank(w) && m != [] && !IsSpace(m[0])
    ensures Lead(w + m) == |w|
  {
    TrimStartIs(w, m);
  }

  /** The line a marker stands on, with space around it. */
  lemma MarkerLine(line: string, w: string, m: string, x: string)
    requires IsMarkerText(m) && Blank(w) && Blank(x) && line == w + m + x && !Indented(line)
    ensures MarkdownLine(line) == Plainly(m)
  {
    TrimIs(w, m, x);
    MarkerIsNoFence(line, m);
  }

  lemma OpeningLine(m: string)
    requires IsMarkerText(m)
    ensures forall w | Blank(w) && !Indented(w + m) :: MarkdownLine(w + m) == Plainly(m)
  {
    forall w | Blank(w) && !Indented(w + m) ensures MarkdownLine(w + m) == Plainly(m) {
      assert w + m == w + m + [];
      MarkerLine(w + m, w, m, []);
    }
  }

  lemma ClosingLine(m: string)
    requires IsMarkerText(m)
    ensures forall x | Blank(x) :: MarkdownLine(m + x) == Plainly(m)
  {
    forall x | Blank(x) ensures MarkdownLine(m + x) == Plainly(m) {
      assert m + x == [] + m + x;
      IndentedNot(m + x);
      MarkerLine(m + x, [], m, x);
    }
  }

  lemma BlankLine(w: string)
    requires Blank(w)
    ensures MarkdownLine(w) == Plainly([])
  {
    BlankMarksNothing(w);
    TrimStartIs(w, []);
    assert w + [] == w;
  }

  lemma IndentedNot(line: string)
    requires line != [] && line[0] == '<'
    ensures !Indented(line)
  {
    if |line| >= 4 {
      assert line[..4][0] == '<';
    }
  }

  lemma IndentedTrailing(l: string, w: string)
    requires w != [] ==> w[0] != ' ' && w[0] != '\t'
    ensures Indented(l + w) == Indented(l)
  {
    if |l| >= 4 {
      assert (l + w)[..4] == l[..4];
    } else if w != [] && |l + w| >= 4 {
      assert (l + w)[..4][|l|] == w[0];
    }
  }

  /** A line keeps its look when a carriage return at its end is dropped. */
  lemma DropCrSame(line: string)
    ensures MarkdownLine(DropCr(line)) == MarkdownLine(line)
  {
    if EndsCr(line) {
      var l := DropCr(line);
      assert line == l + "\r" && IsSpace('\r');
      MarkdownMarkTrailing(l, "\r");
      TrimTrailing(l, "\r");
      IndentedTrailing(l, "\r");
    }
  }

  lemma DropCrKeepsLook()
    ensures forall line :: MarkdownLine(DropCr(line)) == MarkdownLine(line)
  {
    forall line ensures MarkdownLine(DropCr(line)) == MarkdownLine(line) {
      DropCrSame(line);
    }
  }

  lemma BlankLines()
    ensures forall w | Blank(w) :: MarkdownLine(w) == Plainly([])
  {
    forall w | Blank(w) ensures MarkdownLine(w) == Plainly([]) {
      BlankLine(w);
    }
  }

  /** White space after a line's text changes nothing. */
  lemma TrailingSame(line: string, w: string)
    requires Blank(w) && line != [] && !IsSpace(line[|line| - 1])
    ensures MarkdownLine(line + w) == MarkdownLine(line)
  {
    TrimTrailing(line, w);
    TrailingMark(line, w);
    TrailingIndent(line, w);
  }

  lemma TrailingMark(line: string, w: string)
    requires Blank(w) && line != [] && !IsSpace(line[|line| - 1])
    ensures MarkdownMark(line + w) == MarkdownMark(line)
  {
    var n := RunLength(line, ' ');
    assert IsSpace(' ');
    RunLengthIs(line + w, ' ', n);
    assert (line + w)[n..] == line[n..] + w;
    MarkAfterBlank(line[n..], w);
  }

  lemma TrailingIndent(line: string, w: string)
    requires line != [] && !IsSpace(line[|line| - 1])
    ensures Indented(line + w) == Indented(line)
  {
    assert IsSpace(' ');
    if |line| >= 4 {
      assert (line + w)[..4] == line[..4];
    } else if |line + w| >= 4 {
      assert (line + w)[..4][|line| - 1] == line[|line| - 1];
    }
  }

  lemma TrailingKeepsLook()
    ensures forall line, w | Blank(w) && line != [] && !IsSpace(line[|line| - 1]) ::
              MarkdownLine(line + w) == MarkdownLine(line)
  {
    forall line, w | Blank(w) && line != [] && !IsSpace(line[|line| - 1])
      ensures MarkdownLine(line + w) == MarkdownLine(line)
    {
      TrailingSame(line, w);
    }
  }
}
