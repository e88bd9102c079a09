/**
 * CRLF to LF, and how it acts on lines, on trimmed text and on lengths.
 *
 * One pass replaces each CR LF by LF. A CR that stood before such a pair then stands before the LF, so a
 * second pass may find a pair again: the pass is the identity exactly on texts without a pair.
 */
module LineEndings {
  import opened Text

  predicate StartsCrlf(s: string) {
    |s| >= 2 && s[0] == '\r' && s[1] == '\n'
  }

  predicate HasCrlf(s: string) {
    exists i | 0 <= i < |s| - 1 :: s[i] == '\r' && s[i + 1] == '\n'
  }

  /** Every CRLF replaced by LF, in one pass: a CR before a CRLF stays and then precedes a LF. */
  function Lf(s: string): string {
    if s == [] then []
    else if StartsCrlf(s) then ['\n'] + Lf(s[2..])
    else [s[0]] + Lf(s[1..])
  }

  predicate EndsCr(s: string) {
    s != [] && s[|s| - 1] == '\r'
  }

  predicate StartsLf(s: string) {
    s != [] && s[0] == '\n'
  }

  /** Texts are normalized apart unless a CRLF lies across the cut. */
  lemma {:induction false} LfAppend(a: string, b: string)
    requires !(EndsCr(a) && StartsLf(b))
    ensures Lf(a + b) == Lf(a) + Lf(b)
  {
    if a == [] {
      assert a + b == b;
    } else if StartsCrlf(a) {
      LfAppend(a[2..], b);
      CrlfFirst(a, b);
    } else {
      LfAppend(a[1..], b);
      CharFirst(a, b);
    }
  }

  lemma CrlfFirst(a: string, b: string)
    requires StartsCrlf(a)
    ensures Lf(a + b) == ['\n'] + Lf(a[2..] + b) && Lf(a) + Lf(b) == ['\n'] + (Lf(a[2..]) + Lf(b))
  {
    assert (a + b)[2..] == a[2..] + b;
  }

  lemma CharFirst(a: string, b: string)
    requires a != [] && !StartsCrlf(a) && !(EndsCr(a) && StartsLf(b))
    ensures Lf(a + b) == [a[0]] + Lf(a[1..] + b) && Lf(a) + Lf(b) == [a[0]] + (Lf(a[1..]) + Lf(b))
  {
    assert (a + b)[0] == a[0] && (a + b)[1..] == a[1..] + b;
    assert !StartsCrlf(a + b) by {
      assert |a| == 1 && b != [] ==> (a + b)[1] == b[0];
    }
    assert [a[0]] + Lf(a[1..]) + Lf(b) == [a[0]] + (Lf(a[1..]) + Lf(b));
  }

  lemma {:induction false} LfShrinks(s: string)
    ensures |Lf(s)| <= |s|
    ensures |Lf(s)| == |s| <==> Lf(s) == s
    ensures Lf(s) == s <==> !HasCrlf(s)
    ensures Lf(s) == [] <==> s == []
  {
    if StartsCrlf(s) {
      LfShrinks(s[2..]);
      assert s[0] == '\r' && s[0 + 1] == '\n';
    } else if s != [] {
      LfShrinks(s[1..]);
      assert s == [s[0]] + s[1..];
      if HasCrlf(s) {
        var i :| 0 <= i < |s| - 1 && s[i] == '\r' && s[i + 1] == '\n';
        assert s[1..][i - 1] == '\r' && s[1..][i - 1 + 1] == '\n';
      }
      if HasCrlf(s[1..]) {
        var i :| 0 <= i < |s[1..]| - 1 && s[1..][i] == '\r' && s[1..][i + 1] == '\n';
        assert s[i + 1] == '\r' && s[i + 1 + 1] == '\n';
      }
    }
  }

  /** Carriage returns in a text. */
  function Crs(s: string): (n: nat)
    ensures n <= |s|
  {
    if s == [] then 0 else (if s[0] == '\r' then 1 else 0) + Crs(s[1..])
  }

  /** Each character normalization takes away is a carriage return. */
  lemma {:induction false} LfDropsCrs(s: string)
    ensures |s| - |Lf(s)| == Crs(s) - Crs(Lf(s))
  {
    if StartsCrlf(s) {
      LfDropsCrs(s[2..]);
      assert s[1..][1..] == s[2..];
      assert Lf(s)[1..] == Lf(s[2..]);
    } else if s != [] {
      LfDropsCrs(s[1..]);
      assert Lf(s)[1..] == Lf(s[1..]);
    }
  }

  lemma {:induction false} CrsAppend(a: string, b: string)
    ensures Crs(a + b) == Crs(a) + Crs(b)
  {
    if a == [] {
      assert a + b == b;
    } else {
      assert (a + b)[1..] == a[1..] + b;
      CrsAppend(a[1..], b);
    }
  }

  // ---- lines ----

  function DropCr(line: string): string {
    if EndsCr(line) then line[..|line| - 1] else line
  }

  /** The lines of a normalized text: every line but the last has lost one trailing CR. */
  ghost predicate CrsDropped(x: seq<string>, y: seq<string>) {
    && |x| == |y| > 0
    && (forall k | 0 <= k < |x| - 1 :: y[k] == DropCr(x[k]))
    && y[|y| - 1] == x[|x| - 1]
  }

  lemma PushDropped(c: char, x: seq<string>, y: seq<string>)
    requires CrsDropped(x, y)
    requires c == '\r' && |x| > 1 ==> x[0] != []
    ensures CrsDropped(Push(c, x, '\n'), Push(c, y, '\n'))
  {
    if |x| > 1 && c != '\n' {
      assert x[0] != [] ==> DropCr([c] + x[0]) == [c] + DropCr(x[0]);
    }
  }

  lemma CrlfLines(s: string)
    requires StartsCrlf(s)
    ensures Split(s, '\n') == [['\r']] + Split(s[2..], '\n')
    ensures Split(Lf(s), '\n') == [[]] + Split(Lf(s[2..]), '\n')
  {
    SplitAt(['\r'], s[2..], '\n');
    SplitOnce(['\r'], '\n');
    assert ['\r'] + ['\n'] + s[2..] == s;
    assert Lf(s)[1..] == Lf(s[2..]);
  }

  lemma {:induction false} LfLines(s: string)
    ensures CrsDropped(Split(s, '\n'), Split(Lf(s), '\n'))
  {
    if StartsCrlf(s) {
      LfLines(s[2..]);
      CrlfLines(s);
    } else if s != [] {
      LfLines(s[1..]);
      CharLines(s);
      PushDropped(s[0], Split(s[1..], '\n'), Split(Lf(s[1..]), '\n'));
    }
  }

  lemma CharLines(s: string)
    requires s != [] && !StartsCrlf(s)
    ensures Split(s, '\n') == Push(s[0], Split(s[1..], '\n'), '\n')
    ensures Split(Lf(s), '\n') == Push(s[0], Split(Lf(s[1..]), '\n'), '\n')
    ensures s[0] == '\r' && |Split(s[1..], '\n')| > 1 ==> Split(s[1..], '\n')[0] != []
  {
    assert Lf(s)[1..] == Lf(s[1..]);
    if |Split(s[1..], '\n')| > 1 && Split(s[1..], '\n')[0] == [] {
      FirstLineEmpty(s[1..]);
    }
  }

  lemma FirstLineEmpty(s: string)
    requires Split(s, '\n')[0] == [] && |Split(s, '\n')| > 1
    ensures s != [] && s[0] == '\n'
  {
  }

  // ---- trimming ----

  lemma {:induction false} LfBlank(w: string)
    requires Blank(w)
    ensures Blank(Lf(w))
  {
    if StartsCrlf(w) {
      assert IsSpace('\n');
      LfBlank(w[2..]);
    } else if w != [] {
      LfBlank(w[1..]);
    }
  }

  lemma {:induction false} LfEnds(r: string)
    requires r != [] && !IsSpace(r[|r| - 1])
    ensures Lf(r) != [] && Lf(r)[|Lf(r)| - 1] == r[|r| - 1]
    ensures !IsSpace(r[0]) ==> Lf(r)[0] == r[0]
  {
    assert IsSpace('\n') && IsSpace('\r');
    if StartsCrlf(r) {
      LfEnds(r[2..]);
    } else if |r| > 1 {
      LfEnds(r[1..]);
    }
  }

  lemma LfTrimEnd(s: string)
    ensures TrimEnd(Lf(s)) == Lf(TrimEnd(s))
  {
    var r := TrimEnd(s);
    var w := s[|r|..];
    assert s == r + w;
    assert IsSpace('\r');
    LfAppend(r, w);
    LfBlank(w);
    if r != [] {
      LfEnds(r);
    }
    TrimEndIs(Lf(r), Lf(w));
  }

  lemma LfTrimStart(s: string)
    ensures TrimStart(Lf(s)) == Lf(TrimStart(s))
  {
    var r := TrimStart(s);
    var w := s[..|s| - |r|];
    assert s == w + r;
    if r != [] {
      FirstKept(r);
    }
    LfAppend(w, r);
    LfBlank(w);
    TrimStartIs(Lf(w), Lf(r));
  }

  lemma FirstKept(r: string)
    requires r != [] && !IsSpace(r[0])
    ensures Lf(r) != [] && Lf(r)[0] == r[0] && !StartsLf(r)
  {
    assert IsSpace('\r') && IsSpace('\n');
  }

  lemma LfTrim(s: string)
    ensures Trim(Lf(s)) == Lf(Trim(s))
  {
    LfTrimStart(s);
    LfTrimEnd(TrimStart(s));
  }
}
