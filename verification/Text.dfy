/**
 * Strings as the sources handle them: splitting and joining at a separator, and trimming white space.
 *
 * The lines of a text are its pieces between newlines, so a text that ends in a newline has an empty last
 * line, and joining the pieces of a text gives the text back. White space is what ECMAScript trims.
 */
module Text {

  // ---- parts between separators ----

  function Split(s: string, sep: char): (r: seq<string>)
    ensures |r| > 0 && forall i | 0 <= i < |r| :: sep !in r[i]
  {
    if s == [] then [[]]
    else
      Push(s[0], Split(s[1..], sep), sep)
  }

  /** One more character in front. */
  function Push(c: char, parts: seq<string>, sep: char): (r: seq<string>)
    requires |parts| > 0
    ensures |r| > 0
  {
    if c == sep then [[]] + parts else parts[0 := [c] + parts[0]]
  }

  function Join(parts: seq<string>, sep: char): string {
    if parts == [] then [] else if |parts| == 1 then parts[0] else parts[0] + [sep] + Join(parts[1..], sep)
  }

  lemma {:induction false} JoinSplit(s: string, sep: char)
    ensures Join(Split(s, sep), sep) == s
  {
    if s != [] {
      JoinSplit(s[1..], sep);
      var rest := Split(s[1..], sep);
      if s[0] == sep {
        assert ([[]] + rest)[1..] == rest;
      } else {
        assert rest[0 := [s[0]] + rest[0]][1..] == rest[1..];
      }
      assert [s[0]] + s[1..] == s;
    }
  }

  lemma {:induction false} SplitOnce(s: string, sep: char)
    requires sep !in s
    ensures Split(s, sep) == [s]
  {
    if s != [] {
      SplitOnce(s[1..], sep);
      assert [s[0]] + s[1..] == s;
    }
  }

  /** The last part of one text and the first part of the other become one part. */
  function Glue(x: seq<string>, y: seq<string>): (r: seq<string>)
    requires |x| > 0 && |y| > 0
    ensures |r| == |x| + |y| - 1
  {
    x[..|x| - 1] + [x[|x| - 1] + y[0]] + y[1..]
  }

  lemma PushGlue(c: char, x: seq<string>, y: seq<string>, sep: char)
    requires |x| > 0 && |y| > 0
    ensures Push(c, Glue(x, y), sep) == Glue(Push(c, x, sep), y)
  {
    var z := Push(c, x, sep);
    if c == sep {
      assert z[..|z| - 1] == [[]] + x[..|x| - 1];
    } else if |x| == 1 {
      assert [c] + (x[0] + y[0]) == ([c] + x[0]) + y[0];
    } else {
      assert z[..|z| - 1] == x[..|x| - 1][0 := [c] + x[0]];
    }
  }

  lemma {:induction false} SplitAppend(a: string, b: string, sep: char)
    ensures Split(a + b, sep) == Glue(Split(a, sep), Split(b, sep))
  {
    var y := Split(b, sep);
    if a == [] {
      assert a + b == b;
      assert [] + y[0] == y[0];
      assert y == [y[0]] + y[1..];
    } else {
      SplitAppend(a[1..], b, sep);
      assert (a + b)[1..] == a[1..] + b;
      PushGlue(a[0], Split(a[1..], sep), y, sep);
    }
  }

  /** A separator between two texts keeps their parts apart. */
  lemma SplitAt(a: string, b: string, sep: char)
    ensures Split(a + [sep] + b, sep) == Split(a, sep) + Split(b, sep)
  {
    var x, y := Split(a, sep), Split(b, sep);
    assert ([sep] + b)[1..] == b;
    assert Split([sep] + b, sep) == [[]] + y;
    SplitAppend(a, [sep] + b, sep);
    assert a + [sep] + b == a + ([sep] + b);
    assert x[|x| - 1] + [] == x[|x| - 1];
    assert x == x[..|x| - 1] + [x[|x| - 1]];
  }

  /** Parts without the separator are split back from their join. */
  lemma {:induction false} SplitJoin(parts: seq<string>, sep: char)
    requires |parts| > 0 && forall k | 0 <= k < |parts| :: sep !in parts[k]
    ensures Split(Join(parts, sep), sep) == parts
  {
    if |parts| == 1 {
      SplitOnce(parts[0], sep);
    } else {
      SplitJoin(parts[1..], sep);
      SplitAt(parts[0], Join(parts[1..], sep), sep);
      SplitOnce(parts[0], sep);
      assert [parts[0]] + parts[1..] == parts;
    }
  }

  // ---- white space ----

  /** White space and line terminators of ECMAScript. */
  predicate IsSpace(c: char) {
    || '\t' <= c <= '\r' || c == ' ' || c == '\U{A0}' || c == '\U{1680}' || '\U{2000}' <= c <= '\U{200A}'
    || c == '\U{2028}' || c == '\U{2029}' || c == '\U{202F}' || c == '\U{205F}' || c == '\U{3000}' || c == '\U{FEFF}'
  }

  predicate Blank(s: string) {
    forall i | 0 <= i < |s| :: IsSpace(s[i])
  }

  function TrimStart(s: string): (r: string)
    ensures |r| <= |s| && r == s[|s| - |r|..] && Blank(s[..|s| - |r|])
    ensures r != [] ==> !IsSpace(r[0])
  {
    if s != [] && IsSpace(s[0]) then TrimStart(s[1..]) else s
  }

  function TrimEnd(s: string): (r: string)
    ensures r <= s && Blank(s[|r|..])
    ensures r != [] ==> !IsSpace(r[|r| - 1])
  {
    if s != [] && IsSpace(s[|s| - 1]) then TrimEnd(s[..|s| - 1]) else s
  }

  function Trim(s: string): string {
    TrimEnd(TrimStart(s))
  }

  /** Trimming is decided by what it removes and keeps. */
  lemma {:induction false} TrimEndIs(r: string, w: string)
    requires Blank(w) && (r != [] ==> !IsSpace(r[|r| - 1]))
    ensures TrimEnd(r + w) == r
  {
    if w == [] {
      assert r + w == r;
    } else {
      assert (r + w)[..|r + w| - 1] == r + w[..|w| - 1];
      TrimEndIs(r, w[..|w| - 1]);
    }
  }

  lemma {:induction false} TrimStartIs(w: string, r: string)
    requires Blank(w) && (r != [] ==> !IsSpace(r[0]))
    ensures TrimStart(w + r) == r
  {
    if w == [] {
      assert w + r == r;
    } else {
      assert (w + r)[1..] == w[1..] + r;
      TrimStartIs(w[1..], r);
    }
  }

  lemma TrimIs(w: string, r: string, x: string)
    requires Blank(w) && Blank(x) && r != [] && !IsSpace(r[0]) && !IsSpace(r[|r| - 1])
    ensures Trim(w + r + x) == r
  {
    assert w + r + x == w + (r + x);
    TrimStartIs(w, r + x);
    TrimEndIs(r, x);
  }

  lemma {:induction false} TrimStartTrailing(l: string, w: string)
    requires Blank(w)
    ensures TrimStart(l + w) == if TrimStart(l) == [] then [] else TrimStart(l) + w
  {
    if l == [] {
      TrimStartIs(w, []);
      assert l + w == w + [];
    } else {
      assert (l + w)[1..] == l[1..] + w;
      TrimStartTrailing(l[1..], w);
    }
  }

  lemma {:induction false} TrimEndTrailing(s: string, w: string)
    requires Blank(w)
    ensures TrimEnd(s + w) == TrimEnd(s)
  {
    if w == [] {
      assert s + w == s;
    } else {
      assert (s + w)[..|s + w| - 1] == s + w[..|w| - 1];
      TrimEndTrailing(s, w[..|w| - 1]);
    }
  }

  lemma TrimTrailing(l: string, w: string)
    requires Blank(w)
    ensures Trim(l + w) == Trim(l)
  {
    TrimStartTrailing(l, w);
    TrimEndTrailing(TrimStart(l), w);
  }

  /** Exactly the blank texts trim to nothing. */
  lemma EndTrimmed(s: string)
    ensures TrimEnd(s) == [] <==> Blank(s)
  {
    if Blank(s) {
      TrimEndIs([], s);
      assert [] + s == s;
    }
    assert s[0..] == s;
  }

  lemma StartTrimmed(s: string)
    ensures TrimStart(s) == [] <==> Blank(s)
  {
    if Blank(s) {
      TrimStartIs(s, []);
      assert s + [] == s;
    }
    assert s[..|s|] == s;
  }

  lemma BlankTrims(s: string)
    ensures TrimEnd(s) == [] <==> Blank(s)
    ensures TrimStart(s) == [] <==> Blank(s)
    ensures Trim(s) == [] <==> Blank(s)
  {
    var t := TrimStart(s);
    EndTrimmed(s);
    StartTrimmed(s);
    EndTrimmed(t);
    assert t != [] ==> !IsSpace(t[0]);
  }

  /** What stands in front of text that is not blank is not trimmed at the end. */
  lemma {:induction false} TrimEndKeeps(u: string, y: string)
    requires TrimEnd(y) != []
    ensures TrimEnd(u + y) == u + TrimEnd(y)
  {
    if IsSpace(y[|y| - 1]) {
      assert (u + y)[..|u + y| - 1] == u + y[..|y| - 1];
      TrimEndKeeps(u, y[..|y| - 1]);
    }
  }

  /** Nor is what stands after a character that is not space trimmed at the start. */
  lemma {:induction false} TrimStartKeeps(u: string, y: string)
    requires y != [] && !IsSpace(y[0])
    ensures TrimStart(u + y) == TrimStart(u) + y
  {
    if u == [] {
      assert u + y == y;
    } else {
      assert (u + y)[1..] == u[1..] + y;
      if IsSpace(u[0]) {
        TrimStartKeeps(u[1..], y);
      }
    }
  }
}
