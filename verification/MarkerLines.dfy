/**
 * Reasoning about marker lines: which texts have which markers, and how texts with markers fit together.
 *
 * A marker's place is found line by line, so every fact here is about the lines of a text, the lines of two
 * texts put together, or the place of a line inside the whole text.
 */
module MarkerLines {
  import opened Common
  import opened Text
  import opened Fences
  import opened LineEndings
  import opened LineLooks
  import opened ReceiptBody

  function Lines(text: string): (r: seq<string>)
    ensures |r| > 0
  {
    Split(text, '\n')
  }

  /** A text's lines as the marker scan sees them. */
  function Seen(mk: Markers, text: string): (r: seq<Line>)
    ensures |r| == |Lines(text)|
  {
    Scan(mk.look, Lines(text))
  }

  // ---- positions of markers ----

  ghost predicate NoMarker(lines: seq<Line>, m: string) {
    forall k | 0 <= k < |lines| :: !MarkerAt(lines, k, m)
  }

  ghost predicate OnlyMarker(lines: seq<Line>, i: nat, m: string) {
    i < |lines| && forall k | 0 <= k < |lines| :: MarkerAt(lines, k, m) <==> k == i
  }

  ghost predicate OnlyNoted(noted: seq<bool>, i: nat, n: nat)
    requires n <= |noted|
  {
    i < n && forall k | 0 <= k < n :: noted[k] <==> k == i
  }

  lemma {:induction false} WhereNone(noted: seq<bool>, position: seq<nat>, n: nat)
    requires n <= |noted| == |position|
    ensures Where(noted, position, n) == [] <==> forall k | 0 <= k < n :: !noted[k]
  {
    if n > 0 {
      WhereNone(noted, position, n - 1);
    }
  }

  lemma {:induction false} WhereOnly(noted: seq<bool>, position: seq<nat>, i: nat, n: nat)
    requires n <= |noted| == |position| && OnlyNoted(noted, i, n)
    ensures Where(noted, position, n) == [position[i]]
  {
    if n == i + 1 {
      WhereNone(noted, position, i);
    } else {
      WhereOnly(noted, position, i, n - 1);
    }
  }

  lemma {:induction false} WhereOne(noted: seq<bool>, position: seq<nat>, n: nat) returns (i: nat)
    requires n <= |noted| == |position| && |Where(noted, position, n)| == 1
    ensures OnlyNoted(noted, i, n) && Where(noted, position, n) == [position[i]]
  {
    if noted[n - 1] {
      WhereNone(noted, position, n - 1);
      i := n - 1;
    } else {
      i := WhereOne(noted, position, n - 1);
    }
  }

  lemma PlacesNone(mk: Markers, parts: seq<string>, m: string)
    ensures Places(mk.look, parts, m, |parts|) == [] <==> NoMarker(Scan(mk.look, parts), m)
  {
    var lines := Scan(mk.look, parts);
    WhereNone(Marked(lines, m), Positions(parts), |parts|);
    assert forall k | 0 <= k < |parts| :: Marked(lines, m)[k] == MarkerAt(lines, k, m);
  }

  lemma PlacesOnly(mk: Markers, parts: seq<string>, m: string, i: nat)
    requires OnlyMarker(Scan(mk.look, parts), i, m)
    ensures Places(mk.look, parts, m, |parts|) == [Place(parts, i)]
  {
    WhereOnly(Marked(Scan(mk.look, parts), m), Positions(parts), i, |parts|);
  }

  /** Read the other way: one place means one marker. */
  lemma PlacesOne(mk: Markers, parts: seq<string>, m: string) returns (i: nat)
    requires |Places(mk.look, parts, m, |parts|)| == 1
    ensures OnlyMarker(Scan(mk.look, parts), i, m) && Places(mk.look, parts, m, |parts|) == [Place(parts, i)]
  {
    var lines := Scan(mk.look, parts);
    i := WhereOne(Marked(lines, m), Positions(parts), |parts|);
    assert forall k | 0 <= k < |parts| :: Marked(lines, m)[k] == MarkerAt(lines, k, m);
  }

  lemma {:induction false} OffsetGrows(lines: seq<string>, i: nat, j: nat)
    requires i < j <= |lines|
    ensures Offset(lines, i) + |lines[i]| < Offset(lines, j)
  {
    if i + 1 < j {
      OffsetGrows(lines, i, j - 1);
    }
  }

  lemma {:induction false} OffsetOfPrefix(x: seq<string>, y: seq<string>, k: nat)
    requires k <= |x| && k <= |y| && x[..k] == y[..k]
    ensures Offset(x, k) == Offset(y, k)
  {
    if k > 0 {
      assert x[k - 1] == x[..k][k - 1] && y[k - 1] == y[..k][k - 1];
      assert x[..k - 1] == x[..k][..k - 1] && y[..k - 1] == y[..k][..k - 1];
      OffsetOfPrefix(x, y, k - 1);
    }
  }

  /** A place in the text lies in one line at one column. */
  lemma SamePlace(lines: seq<string>, x: seq<string>, k: nat, c: nat)
    requires k < |lines| && c <= |lines[k]|
    requires 0 < |x| <= |lines| && x[..|x| - 1] == lines[..|x| - 1] && |x[|x| - 1]| <= |lines[|x| - 1]|
    requires Offset(x, |x| - 1) + |x[|x| - 1]| == Offset(lines, k) + c
    ensures |x| - 1 == k && |x[k]| == c
  {
    var n := |x| - 1;
    OffsetOfPrefix(x, lines, n);
    if n < k {
      OffsetGrows(lines, n, k);
    } else if k < n {
      OffsetGrows(lines, k, n);
    }
  }

  lemma GlueParts(x: seq<string>, y: seq<string>)
    requires |x| > 0 && |y| > 0
    ensures var g, n := Glue(x, y), |x| - 1;
            g[..n] == x[..n] && g[n] == x[n] + y[0] && g[n + 1..] == y[1..]
  {
  }

  lemma CutSame(text: string, k: nat, c: nat, o: nat)
    requires k < |Lines(text)| && c <= |Lines(text)[k]| && o == Offset(Lines(text), k) + c && o <= |text|
    requires Lines(text) == Glue(Lines(text[..o]), Lines(text[o..]))
    ensures |Lines(text[..o])| == k + 1 && |Lines(text[..o])[k]| == c
  {
    var x, y := Lines(text[..o]), Lines(text[o..]);
    OffsetFits(text[..o], |x| - 1);
    GlueParts(x, y);
    SamePlace(Lines(text), x, k, c);
  }

  /** Cut a text anywhere inside line `k`. */
  lemma CutLines(text: string, k: nat, c: nat)
    requires k < |Lines(text)| && c <= |Lines(text)[k]|
    ensures Offset(Lines(text), k) + c <= |text|
    ensures Lines(text[..Offset(Lines(text), k) + c]) == Lines(text)[..k] + [Lines(text)[k][..c]]
    ensures Lines(text[Offset(Lines(text), k) + c..]) == [Lines(text)[k][c..]] + Lines(text)[k + 1..]
  {
    OffsetFits(text, k);
    var o: nat := Offset(Lines(text), k) + c;
    CutAtOffset(text, k, c, o);
  }

  lemma CutAtOffset(text: string, k: nat, c: nat, o: nat)
    requires k < |Lines(text)| && c <= |Lines(text)[k]| && o == Offset(Lines(text), k) + c && o <= |text|
    ensures Lines(text[..o]) == Lines(text)[..k] + [Lines(text)[k][..c]]
    ensures Lines(text[o..]) == [Lines(text)[k][c..]] + Lines(text)[k + 1..]
  {
    assert text == text[..o] + text[o..];
    SplitAppend(text[..o], text[o..], '\n');
    CutSame(text, k, c, o);
    GlueParts(Lines(text[..o]), Lines(text[o..]));
    CutParts(Lines(text), Lines(text[..o]), Lines(text[o..]), k, c);
  }

  lemma CutParts(lines: seq<string>, x: seq<string>, y: seq<string>, k: nat, c: nat)
    requires k < |lines| && |x| == k + 1 && |y| > 0 && |x[k]| == c
    requires lines[..k] == x[..k] && lines[k] == x[k] + y[0] && lines[k + 1..] == y[1..]
    ensures x == lines[..k] + [lines[k][..c]] && y == [lines[k][c..]] + lines[k + 1..]
  {
    assert lines[k][..c] == x[k] && lines[k][c..] == y[0];
    assert x == x[..k] + [x[k]] && y == [y[0]] + y[1..];
  }

  // ---- lines put together ----

  lemma MarkerPrefix(x: seq<Line>, y: seq<Line>, k: nat, m: string)
    requires k < |x| && k < |y| && x[..k + 1] == y[..k + 1]
    ensures MarkerAt(x, k, m) <==> MarkerAt(y, k, m)
  {
    assert x[k] == x[..k + 1][k] && y[k] == y[..k + 1][k];
    assert x[..k] == x[..k + 1][..k] && y[..k] == y[..k + 1][..k];
    FenceOfPrefix(x, y, k);
  }

  lemma NoMarkerPrefix(x: seq<Line>, y: seq<Line>, n: nat, m: string)
    requires n <= |x| && n <= |y| && x[..n] == y[..n]
    requires forall k | 0 <= k < n :: !MarkerAt(y, k, m)
    ensures forall k | 0 <= k < n :: !MarkerAt(x, k, m)
  {
    forall k | 0 <= k < n ensures !MarkerAt(x, k, m) {
      assert x[..k + 1] == x[..n][..k + 1] && y[..k + 1] == y[..n][..k + 1];
      MarkerPrefix(x, y, k, m);
    }
  }

  lemma MarkerAfter(x: seq<Line>, y: seq<Line>, k: nat, m: string)
    requires LeavesClosed(x) && k < |y|
    ensures MarkerAt(x + y, |x| + k, m) <==> MarkerAt(y, k, m)
  {
    FenceAfter(x, y, k);
  }

  lemma ClosedAppend(x: seq<Line>, y: seq<Line>)
    requires LeavesClosed(x)
    ensures LeavesClosed(x + y) <==> LeavesClosed(y)
  {
    FenceAfter(x, y, |y|);
  }

  /** Markers of two runs of lines, the first of which leaves no fence open. */
  lemma MarkersAppend(x: seq<Line>, y: seq<Line>, m: string)
    requires LeavesClosed(x)
    ensures forall k | 0 <= k < |x| :: MarkerAt(x + y, k, m) <==> MarkerAt(x, k, m)
    ensures forall k | |x| <= k < |x + y| :: MarkerAt(x + y, k, m) <==> MarkerAt(y, k - |x|, m)
  {
    forall k | 0 <= k < |x| ensures MarkerAt(x + y, k, m) <==> MarkerAt(x, k, m) {
      assert (x + y)[..k + 1] == x[..k + 1];
      MarkerPrefix(x + y, x, k, m);
    }
    forall k | |x| <= k < |x + y| ensures MarkerAt(x + y, k, m) <==> MarkerAt(y, k - |x|, m) {
      MarkerAfter(x, y, k - |x|, m);
    }
  }

  /** One marker line between runs that hold no such marker. */
  lemma OneMarker(x: seq<Line>, y: seq<Line>, m: string)
    requires LeavesClosed(x) && NoMarker(x, m) && NoMarker(y, m)
    ensures OnlyMarker(x + [Plainly(m)] + y, |x|, m)
  {
    assert MarkerAt([Plainly(m)], 0, m);
    assert LeavesClosed([Plainly(m)]);
    MarkersAppend(x, [Plainly(m)], m);
    ClosedAppend(x, [Plainly(m)]);
    MarkersAppend(x + [Plainly(m)], y, m);
  }

  lemma OtherMarker(x: seq<Line>, y: seq<Line>, m: string, other: string)
    requires LeavesClosed(x) && NoMarker(x, m) && NoMarker(y, m) && m != other
    ensures NoMarker(x + [Plainly(other)] + y, m)
    ensures LeavesClosed(x + [Plainly(other)])
  {
    assert !MarkerAt([Plainly(other)], 0, m);
    assert LeavesClosed([Plainly(other)]);
    MarkersAppend(x, [Plainly(other)], m);
    ClosedAppend(x, [Plainly(other)]);
    MarkersAppend(x + [Plainly(other)], y, m);
  }

  lemma SameLook(mk: Markers, x: string, y: string)
    requires mk.Usable() && (y == x || y == DropCr(x))
    ensures mk.look(y) == mk.look(x)
  {
    assert DropsCr(mk.look, x);
  }

  lemma SameScan(mk: Markers, x: seq<string>, y: seq<string>)
    requires |x| == |y| && forall k | 0 <= k < |x| :: mk.look(y[k]) == mk.look(x[k])
    ensures Scan(mk.look, y) == Scan(mk.look, x)
  {
  }

  lemma DroppedScan(mk: Markers, x: seq<string>, y: seq<string>)
    requires mk.Usable() && CrsDropped(x, y)
    ensures Scan(mk.look, y) == Scan(mk.look, x)
  {
    forall k | 0 <= k < |x| ensures mk.look(y[k]) == mk.look(x[k]) {
      SameLook(mk, x[k], y[k]);
    }
    SameScan(mk, x, y);
  }

  /** A normalized text looks the same, line by line. */
  lemma SeenLf(mk: Markers, text: string)
    requires mk.Usable()
    ensures Seen(mk, Lf(text)) == Seen(mk, text)
  {
    LfLines(text);
    DroppedScan(mk, Lines(text), Lines(Lf(text)));
  }
}
