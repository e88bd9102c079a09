/**
 * The docs-ship upsert: exactly when it succeeds, and what a success leaves behind.
 *
 * A refusal of the receipt comes first. Otherwise the new body either keeps the reviewed one, or one of
 * three things has gone wrong: a fence of the body or of the receipt is left open, or a CRLF survives.
 * Each of the three really changes the reviewed body, so the condition is exact.
 */
module UpsertTheorems {
  import opened Common
  import opened Text
  import opened Fences
  import opened LineEndings
  import opened LineLooks
  import opened ReceiptBody
  import opened MarkerLines
  import opened ReceiptTheorems
  import opened ReceiptRoundTrip

  // ---- a body without a block ----

  /** Lines of white space: seen as lines without a text. */
  function Blanks(n: nat): seq<Line> {
    seq(n, k => Plainly([]))
  }

  lemma {:induction false} BlanksKeepFence(x: seq<Line>, n: nat)
    ensures FenceAt(x + Blanks(n), |x| + n) == FenceAt(x, |x|)
  {
    if n == 0 {
      assert x + Blanks(0) == x;
    } else {
      BlanksKeepFence(x, n - 1);
      var y := x + Blanks(n);
      assert y[..|x| + n - 1] == (x + Blanks(n - 1))[..|x| + n - 1];
      FenceOfPrefix(y, x + Blanks(n - 1), |x| + n - 1);
    }
  }

  lemma {:induction false} BlankText(w: string)
    requires Blank(w)
    ensures forall k | 0 <= k < |Lines(w)| :: Blank(Lines(w)[k])
  {
    if w != [] {
      BlankText(w[1..]);
      assert Blank(w[1..]) by { assert forall i | 0 <= i < |w[1..]| :: w[1..][i] == w[i + 1]; }
      var x := Lines(w[1..]);
      assert Blank([w[0]] + x[0]);
      assert forall k | 0 <= k < |Lines(w)| :: Lines(w)[k] == [] || Lines(w)[k] == [w[0]] + x[0] || Lines(w)[k] in x;
    }
  }

  /** A text that ends in a character of its own ends in a line that does. */
  lemma LastLine(t: string)
    requires t != [] && t[|t| - 1] != '\n'
    ensures var x := Lines(t); x[|x| - 1] != [] && x[|x| - 1][|x[|x| - 1]| - 1] == t[|t| - 1]
  {
    var c := t[|t| - 1..];
    SplitOnce(c, '\n');
    SplitAppend(t[..|t| - 1], c, '\n');
    assert t == t[..|t| - 1] + c;
  }

  /** White space at the end of a text adds only lines without a text. */
  lemma SeenTrimEnd(mk: Markers, t: string, w: string) returns (n: nat)
    requires mk.Usable() && t != [] && !IsSpace(t[|t| - 1]) && Blank(w)
    ensures Seen(mk, t + w) == Seen(mk, t) + Blanks(n)
  {
    assert IsSpace('\n');
    LastLine(t);
    BlankText(w);
    SplitAppend(t, w, '\n');
    var x, y := Lines(t), Lines(w);
    n := |y| - 1;
    assert DropsSpace(mk.look, x[|x| - 1], y[0]);
    forall k | 0 <= k < |x| + n ensures mk.look(Glue(x, y)[k]) == (Seen(mk, t) + Blanks(n))[k] {
      if k >= |x| {
        assert Glue(x, y)[k] == y[k - |x| + 1];
        assert BlankIsPlain(mk.look, y[k - |x| + 1]);
      }
    }
    assert Seen(mk, t + w) == Seen(mk, t) + Blanks(n);
  }

  lemma GapLines(t: string)
    requires t != []
    ensures Lines(t + Gap(t)) == Lines(t) + [[]] + [[]]
  {
    SplitAt(t, [], '\n');
    SplitAt(t + ['\n'] + [], [], '\n');
    assert t + Gap(t) == t + ['\n'] + [] + ['\n'] + [];
    SplitOnce([], '\n');
  }

  lemma EmptyBefore(mk: Markers)
    requires mk.Usable()
    ensures GoodBefore(mk, [])
  {
    SplitOnce([], '\n');
    IndentedNot(mk.start);
    assert [] + mk.start == mk.start;
    GoodBeforeIs(mk, [], [], []);
  }

  lemma NewlineAfter(mk: Markers)
    requires mk.Usable()
    ensures GoodAfter(mk, "\n")
  {
    SplitAt([], [], '\n');
    SplitOnce([], '\n');
    assert [] + ['\n'] + [] == "\n";
    assert BlankIsPlain(mk.look, []);
    GoodAfterIs(mk, "\n", [], [[]]);
  }

  /** The gap after a body without markers is a good place for a block when the body leaves no fence open. */
  lemma GapIsGood(mk: Markers, t: string)
    requires mk.Usable() && t != [] && NeitherMarker(mk, Seen(mk, t))
    ensures var b := t + Gap(t); var n := |Lines(b)| - 1;
            && Blank(Lines(b)[n]) && !Indented(Lines(b)[n] + mk.start)
            && Seen(mk, b)[..n] == Seen(mk, t) + Blanks(1)
            && NeitherMarker(mk, Seen(mk, b)[..n])
            && (LeavesClosed(Seen(mk, b)[..n]) <==> LeavesClosed(Seen(mk, t)))
  {
    var b := t + Gap(t);
    GapLines(t);
    var n := |Lines(t)| + 1;
    IndentedNot(mk.start);
    assert [] + mk.start == mk.start;
    assert BlankIsPlain(mk.look, []);
    ScanSlices(mk.look, Lines(b), n);
    assert Lines(b)[..n] == Lines(t) + [[]];
    assert Seen(mk, b)[..n] == Seen(mk, t) + Blanks(1);
    BlanksKeepFence(Seen(mk, t), 1);
    NoMoreMarkers(Seen(mk, t), mk.start);
    NoMoreMarkers(Seen(mk, t), mk.end);
  }

  lemma NoMoreMarkers(x: seq<Line>, m: string)
    requires NoMarker(x, m) && m != []
    ensures NoMarker(x + Blanks(1), m)
  {
    NoMarkerPrefix(x + Blanks(1), x, |x|, m);
  }

  lemma BlankSeen(mk: Markers, text: string)
    requires mk.Usable() && Blank(text)
    ensures LeavesClosed(Seen(mk, text))
  {
    BlankText(text);
    var n := |Lines(text)|;
    forall k | 0 <= k < n ensures mk.look(Lines(text)[k]) == Plainly([]) {
      assert BlankIsPlain(mk.look, Lines(text)[k]);
    }
    assert Seen(mk, text) == [] + Blanks(n);
    BlanksKeepFence([], n);
  }

  lemma BlanksAdd(mk: Markers, x: seq<Line>, n: nat)
    ensures LeavesClosed(x + Blanks(n)) <==> LeavesClosed(x)
    ensures NeitherMarker(mk, x + Blanks(n)) ==> NeitherMarker(mk, x)
  {
    BlanksKeepFence(x, n);
    assert (x + Blanks(n))[..|x|] == x[..|x|];
    if NeitherMarker(mk, x + Blanks(n)) {
      NoMarkerPrefix(x, x + Blanks(n), |x|, mk.start);
      NoMarkerPrefix(x, x + Blanks(n), |x|, mk.end);
    }
  }

  lemma TrimmedSeen(mk: Markers, t: string, w: string)
    requires mk.Usable() && t != [] && !IsSpace(t[|t| - 1]) && Blank(w)
    ensures LeavesClosed(Seen(mk, t)) <==> LeavesClosed(Seen(mk, t + w))
    ensures NeitherMarker(mk, Seen(mk, t + w)) ==> NeitherMarker(mk, Seen(mk, t))
  {
    var n := SeenTrimEnd(mk, t, w);
    BlanksAdd(mk, Seen(mk, t), n);
  }

  /** Where a block would go into a body that has none. */
  lemma NoBlockPlace(mk: Markers, text: string)
    requires mk.Usable() && PartsOf(mk, text).Ok? && PartsOf(mk, text).value.block.None?
    ensures PartsOf(mk, text).value == Parts(text, None, [])
    ensures var t := TrimEnd(text);
            if t == [] then LeavesClosed(Seen(mk, text))
            else NeitherMarker(mk, Seen(mk, t)) && (LeavesClosed(Seen(mk, t)) <==> LeavesClosed(Seen(mk, text)))
  {
    NoBlock(mk, text);
    var t := TrimEnd(text);
    if t == [] {
      BlankTrims(text);
      BlankSeen(mk, text);
    } else {
      TrimmedSeen(mk, t, text[|t|..]);
      assert text == t + text[|t|..];
    }
  }

  /** The body before insertion, normalized. */
  function PartsIn(mk: Markers, body: string): Parts
    requires mk.Usable() && PartsOf(mk, Lf(body)).Ok?
  {
    PartsOf(mk, Lf(body)).value
  }

  /** What a caller can check: a block to replace, or a body that leaves no fence open. */
  predicate Placeable(mk: Markers, body: string)
    requires mk.Usable() && PartsOf(mk, Lf(body)).Ok?
  {
    PartsIn(mk, body).block.Some? || LeavesClosed(Seen(mk, Lf(body)))
  }

  lemma PlaceableIsGood(mk: Markers, body: string)
    requires mk.Usable() && PartsOf(mk, Lf(body)).Ok? && Placeable(mk, body)
    ensures GoodBefore(mk, BeforeOf(PartsIn(mk, body))) && GoodAfter(mk, AfterOf(PartsIn(mk, body)))
  {
    if PartsIn(mk, body).block.Some? {
      FoundParts(mk, Lf(body));
    } else {
      NoBlockPlace(mk, Lf(body));
      NewlineAfter(mk);
      var t := TrimEnd(Lf(body));
      if t == [] {
        EmptyBefore(mk);
        assert t + Gap(t) == [];
      } else {
        GapIsGood(mk, t);
      }
    }
  }

  // ---- the receipt ----

  lemma OccursWithin(r: string, line: string, m: string, o: nat, c: nat)
    requires OccursAt(r, line, o) && OccursAt(line, m, c)
    ensures OccursAt(r, m, o + c)
  {
    forall i | 0 <= i < |m| ensures r[o + c + i] == m[i] {
      assert r[o + c + i] == r[o..o + |line|][c + i];
      assert m[i] == line[c..c + |m|][i];
    }
  }

  lemma TrimOccurs(line: string, m: string)
    requires Trim(line) == m
    ensures OccursAt(line, m, Lead(line))
  {
    TrimColumns(line, m);
  }

  lemma WithinLine(text: string, k: nat, m: string, c: nat)
    requires k < |Lines(text)| && OccursAt(Lines(text)[k], m, c)
    ensures OccursAt(text, m, Offset(Lines(text), k) + c)
  {
    LineInText(text, k);
    OccursWithin(text, Lines(text)[k], m, Offset(Lines(text), k), c);
  }

  lemma OccursInLine(r: string, m: string, k: nat)
    requires k < |Lines(r)| && Trim(Lines(r)[k]) == m
    ensures Contains(r, m)
  {
    var c := Lead(Lines(r)[k]);
    TrimOccurs(Lines(r)[k], m);
    WithinLine(r, k, m, c);
    assert OccursAt(r, m, Offset(Lines(r), k) + c);
  }

  lemma FirstPart(t: string)
    ensures Lines(t)[0] <= t
  {
    JoinSplit(t, '\n');
  }

  lemma LineInText(text: string, k: nat)
    requires k < |Lines(text)|
    ensures OccursAt(text, Lines(text)[k], Offset(Lines(text), k))
  {
    var o, line := Offset(Lines(text), k), Lines(text)[k];
    CutLines(text, k, 0);
    assert line[0..] == line;
    FirstPart(text[o..]);
    assert text[o..][..|line|] == text[o..o + |line|];
  }

  lemma ReceiptIsPlain(mk: Markers, r: string)
    requires mk.Usable() && !Contains(r, mk.start) && !Contains(r, mk.end)
    ensures Plain(mk, r)
  {
    forall k | 0 <= k < |Seen(mk, r)|
      ensures Seen(mk, r)[k].text != mk.start && Seen(mk, r)[k].text != mk.end
    {
      var line := Lines(r)[k];
      if mk.look(line).text == mk.start || mk.look(line).text == mk.end {
        assert TextIsTrimmed(mk.look, line);
        OccursInLine(r, Trim(line), k);
      }
    }
  }

  // ---- a receipt that leaves a fence open ----

  /** The start line is a marker, the end line is fenced: a closing marker can only be found further on. */
  lemma OpenMarkers(mk: Markers, p: seq<Line>, r: seq<Line>, s: seq<Line>, k: nat)
    requires mk.Usable() && LeavesClosed(p) && !LeavesClosed(r) && NeitherMarker(mk, p)
    requires forall i | 0 <= i < |r| :: r[i].text != mk.end
    ensures var lines := p + [Plainly(mk.start)] + r + [Plainly(mk.end)] + s;
            && MarkerAt(lines, |p|, mk.start)
            && (k < |lines| && MarkerAt(lines, k, mk.end) ==> k > |p| + 1 + |r|)
  {
    var x := p + [Plainly(mk.start)];
    var tail := r + [Plainly(mk.end)] + s;
    var lines := x + tail;
    assert lines == p + [Plainly(mk.start)] + r + [Plainly(mk.end)] + s;
    OtherMarker(p, [], mk.end, mk.start);
    assert x + [] == x;
    OneMarkerAt(p, tail, mk.start);
    MarkersAppend(x, tail, mk.end);
    if k < |lines| && MarkerAt(lines, k, mk.end) {
      assert k >= |x| ==> MarkerAt(tail, k - |x|, mk.end);
      OpenTail(mk, r, s);
    }
  }

  lemma OpenTail(mk: Markers, r: seq<Line>, s: seq<Line>)
    requires !LeavesClosed(r) && forall i | 0 <= i < |r| :: r[i].text != mk.end
    ensures var tail := r + [Plainly(mk.end)] + s; forall k | 0 <= k <= |r| :: !MarkerAt(tail, k, mk.end)
  {
    var tail := r + [Plainly(mk.end)] + s;
    assert tail[..|r|] == r[..|r|];
    FenceOfPrefix(tail, r, |r|);
  }

  lemma OneMarkerAt(x: seq<Line>, y: seq<Line>, m: string)
    requires LeavesClosed(x)
    ensures MarkerAt(x + [Plainly(m)] + y, |x|, m)
  {
    FenceOfPrefix(x + [Plainly(m)] + y, x, |x|);
    assert (x + [Plainly(m)] + y)[..|x|] == x[..|x|];
  }

  lemma TrimKeeps(u: string, y: string)
    requires y != [] && !IsSpace(y[0]) && TrimEnd(y) != []
    ensures Trim(u + y) == TrimStart(u) + TrimEnd(y)
  {
    TrimStartKeeps(u, y);
    TrimEndKeeps(TrimStart(u), y);
  }

  /** Trimmed text grows with what stands in front of it. */
  lemma TrimLonger(u: string, m: string, v: string)
    requires IsMarkerText(m)
    ensures |Trim(u + (m + v))| > |Trim(v)|
  {
    var y := m + v;
    MarkerTail(m, v);
    assert y[0] == m[0];
    TrimKeeps(u, y);
    TrimShrinks(v);
  }

  lemma MarkerTail(m: string, v: string)
    requires IsMarkerText(m)
    ensures TrimEnd(m + v) == m + TrimEnd(v)
  {
    if TrimEnd(v) == [] {
      BlankTrims(v);
      TrimEndIs(m, v);
      assert m + [] == m;
    } else {
      TrimEndKeeps(m, v);
    }
  }

  lemma TrimShrinks(v: string)
    ensures |Trim(v)| <= |TrimEnd(v)|
  {
    var s := TrimStart(v);
    var lead := v[..|v| - |s|];
    assert v == lead + s;
    if TrimEnd(s) != [] {
      TrimEndKeeps(lead, s);
    }
  }

  lemma Beyond(lines: seq<string>, q: nat, j: nat)
    requires q < j < |lines|
    ensures Place(lines, j) > Offset(lines, q) + |lines[q]|
  {
    OffsetGrows(lines, q, j);
  }

  /** In the text with such a receipt, the opening marker stands where it was put, the closing one further on. */
  lemma OpenPlaces(mk: Markers, b: string, r: string, a: string) returns (e: nat, o: nat)
    requires mk.Usable() && GoodBefore(mk, b) && GoodAfter(mk, a) && Plain(mk, r) && !LeavesClosed(Seen(mk, r))
    requires PartsOf(mk, Whole(mk, b, r, a)).Ok?
    ensures |b| + |Block(mk, r)| <= e && OccursAt(Whole(mk, b, r, a), mk.end, e)
    ensures var text := Whole(mk, b, r, a);
            o == e + |mk.end| && PartsOf(mk, text).value.before == b && PartsOf(mk, text).value.after == text[o..]
  {
    var text := Whole(mk, b, r, a);
    var lines := Lines(text);
    OpenSeen(mk, b, r, a);
    PlacesNone(mk, lines, mk.start);
    assert !NoMarker(Seen(mk, text), mk.start);
    HasStart(mk, text);
    var s;
    s, e, o := OneEach(mk, text);
    OpenStart(mk, b, r, a, s);
    var j := PlacesOne(mk, lines, mk.end);
    assert MarkerAt(Seen(mk, text), j, mk.end);
    FarEnd(mk, b, r, a, j, e);
  }

  lemma LookOccurs(mk: Markers, line: string, m: string)
    requires mk.Usable() && mk.look(line).text == m != []
    ensures OccursAt(line, m, Lead(line))
  {
    assert TextIsTrimmed(mk.look, line);
    TrimOccurs(line, m);
  }

  lemma LineTextOccurs(text: string, j: nat, m: string, e: nat)
    requires j < |Lines(text)| && e == Place(Lines(text), j) && OccursAt(Lines(text)[j], m, Lead(Lines(text)[j]))
    ensures OccursAt(text, m, e)
  {
    WithinLine(text, j, m, Lead(Lines(text)[j]));
  }

  lemma FarEnd(mk: Markers, b: string, r: string, a: string, j: nat, e: nat)
    requires mk.Usable() && |Lines(b)| + |Lines(r)| < j < |Lines(Whole(mk, b, r, a))|
    requires var lines := Lines(Whole(mk, b, r, a)); mk.look(lines[j]).text == mk.end && e == Place(lines, j)
    ensures |b| + |Block(mk, r)| <= e && OccursAt(Whole(mk, b, r, a), mk.end, e)
  {
    var text, q := Whole(mk, b, r, a), |Lines(b)| + |Lines(r)|;
    LookOccurs(mk, Lines(text)[j], mk.end);
    LineTextOccurs(text, j, mk.end, e);
    EndPlace(mk, b, r, a, q);
    EndLine(mk, b, r, a, q);
    Beyond(Lines(text), q, j);
    assert |Block(mk, r)| == |mk.start| + |r| + 2 + |mk.end|;
  }

  lemma OpenStart(mk: Markers, b: string, r: string, a: string, s: nat)
    requires mk.Usable() && GoodBefore(mk, b)
    requires var text := Whole(mk, b, r, a);
             && |Lines(b)| - 1 < |Lines(text)| && MarkerAt(Seen(mk, text), |Lines(b)| - 1, mk.start)
             && Places(mk.look, Lines(text), mk.start, |Lines(text)|) == [s]
    ensures s == |b| && Whole(mk, b, r, a)[..s] == b
  {
    var text := Whole(mk, b, r, a);
    var i := PlacesOne(mk, Lines(text), mk.start);
    assert i == |Lines(b)| - 1;
    StartPlace(mk, b, r, a);
    StartsWith(b, Block(mk, r), a);
  }

  lemma StartsWith(b: string, x: string, a: string)
    ensures (b + x + a)[..|b|] == b
  {
  }

  lemma CombineShorter(x: string, y: string, z: string)
    requires |y| < |z|
    ensures |Combine(x, y)| < |Combine(x, z)|
  {
  }

  lemma EndLine(mk: Markers, b: string, r: string, a: string, q: nat)
    requires mk.Usable() && q == |Lines(b)| + |Lines(r)|
    ensures q < |Lines(Whole(mk, b, r, a))|
    ensures Lead(Lines(Whole(mk, b, r, a))[q]) == 0 && |Lines(Whole(mk, b, r, a))[q]| >= |mk.end|
  {
    WholeLines(mk, b, r, a);
    var line := mk.end + Lines(a)[0];
    assert Lines(Whole(mk, b, r, a))[q] == line;
    LeadOf([], line);
    assert [] + line == line;
  }

  lemma HasStart(mk: Markers, text: string)
    requires mk.Usable() && PartsOf(mk, text).Ok?
    requires Places(mk.look, Lines(text), mk.start, |Lines(text)|) != []
    ensures PartsOf(mk, text).value.block.Some?
  {
    PlacesFit(mk, text, mk.end, |Lines(text)|);
  }

  lemma OpenSeen(mk: Markers, b: string, r: string, a: string)
    requires mk.Usable() && GoodBefore(mk, b) && GoodAfter(mk, a) && Plain(mk, r) && !LeavesClosed(Seen(mk, r))
    ensures var lines := Seen(mk, Whole(mk, b, r, a)); var n := |Lines(b)| - 1;
            && n < |lines| && MarkerAt(lines, n, mk.start)
            && forall k: nat | k < |lines| && MarkerAt(lines, k, mk.end) :: k > n + 1 + |Lines(r)|
  {
    WholeSeen(mk, b, r, a);
    var lines, n := Seen(mk, Whole(mk, b, r, a)), |Lines(b)| - 1;
    OpenMarkers(mk, Seen(mk, b)[..n], Seen(mk, r), Seen(mk, a)[1..], 0);
    forall k: nat | k < |lines| && MarkerAt(lines, k, mk.end) ensures k > n + 1 + |Lines(r)| {
      OpenMarkers(mk, Seen(mk, b)[..n], Seen(mk, r), Seen(mk, a)[1..], k);
    }
  }

  /** So the text after the block found is a proper end of the text after the block written. */
  lemma OpenReceiptShrinks(mk: Markers, b: string, r: string, a: string)
    requires mk.Usable() && GoodBefore(mk, b) && GoodAfter(mk, a) && Plain(mk, r) && !LeavesClosed(Seen(mk, r))
    requires PartsOf(mk, Whole(mk, b, r, a)).Ok?
    ensures |Reviewed(PartsOf(mk, Whole(mk, b, r, a)).value)| < |Reviewed(Parts(b, None, a))|
  {
    var e, o := OpenPlaces(mk, b, r, a);
    var u := CutTail(b + Block(mk, r), a, mk.end, e, o);
    var v := Whole(mk, b, r, a)[o..];
    ReviewedShrinks(PartsOf(mk, Whole(mk, b, r, a)).value, b, u, mk.end, v, a);
  }

  lemma ReviewedShrinks(p: Parts, b: string, u: string, m: string, v: string, a: string)
    requires p.before == b && p.after == v && IsMarkerText(m) && a == u + (m + v)
    ensures |Reviewed(p)| < |Reviewed(Parts(b, None, a))|
  {
    TrimLonger(u, m, v);
    CombineShorter(TrimEnd(b), Trim(v), Trim(a));
  }

  lemma CutTail(head: string, a: string, m: string, e: nat, o: nat) returns (u: string)
    requires |head| <= e && OccursAt(head + a, m, e) && o == e + |m|
    ensures a == u + (m + (head + a)[o..])
  {
    var text := head + a;
    u := text[|head|..e];
    assert a == text[|head|..];
    assert text[|head|..] == text[|head|..e] + (text[e..o] + text[o..]);
  }

  // ---- a body that leaves a fence open ----

  /** Behind an open fence the start line is no marker, so no block is found. */
  lemma FencedStart(mk: Markers, p: seq<Line>, r: seq<Line>, s: seq<Line>)
    requires mk.Usable() && !LeavesClosed(p) && NeitherMarker(mk, p)
    requires forall i | 0 <= i < |r| :: r[i].text != mk.start
    requires forall i | 0 <= i < |s| :: s[i].text != mk.start
    ensures NoMarker(p + [Plainly(mk.start)] + r + [Plainly(mk.end)] + s, mk.start)
  {
    Regrouped(p, Plainly(mk.start), r, Plainly(mk.end), s);
    FenceFrom(p, [Plainly(mk.start)] + (r + [Plainly(mk.end)] + s), mk.start);
  }

  lemma Regrouped(p: seq<Line>, first: Line, r: seq<Line>, last: Line, s: seq<Line>)
    ensures p + [first] + r + [last] + s == p + ([first] + (r + [last] + s))
  {
  }

  lemma FenceFrom(p: seq<Line>, tail: seq<Line>, m: string)
    requires !LeavesClosed(p) && NoMarker(p, m)
    requires forall i | 0 < i < |tail| :: tail[i].text != m
    ensures NoMarker(p + tail, m)
  {
    var lines := p + tail;
    assert lines[..|p|] == p == p[..|p|];
    FenceOfPrefix(lines, p, |p|);
    NoMarkerPrefix(lines, p, |p|, m);
    forall k | 0 <= k < |lines| ensures !MarkerAt(lines, k, m) {
      if k > |p| {
        assert lines[k] == tail[k - |p|];
      }
    }
  }

  lemma NoStart(mk: Markers, text: string)
    requires mk.Usable() && NoMarker(Seen(mk, text), mk.start) && PartsOf(mk, text).Ok?
    ensures PartsOf(mk, text).value == Parts(text, None, [])
  {
    PlacesFit(mk, text, mk.end, |Lines(text)|);
    PlacesNone(mk, Lines(text), mk.start);
  }

  /** A text that is its own normalization with more behind would lose fewer carriage returns than characters. */
  lemma NotItselfLonger(t: string, x: string)
    requires x != [] && x[0] != '\r'
    ensures t != Lf(t) + x
  {
    assert Crs(x) <= |x[1..]| < |x|;
    LfDropsCrs(t);
    CrsAppend(Lf(t), x);
  }

  /** A place that is good but for an open fence. */
  ghost predicate FencedPlace(mk: Markers, b: string) {
    var n := |Lines(b)| - 1;
    && Blank(Lines(b)[n]) && !Indented(Lines(b)[n] + mk.start)
    && NeitherMarker(mk, Seen(mk, b)[..n]) && !LeavesClosed(Seen(mk, b)[..n])
  }

  lemma FencedPlaceLf(mk: Markers, b: string)
    requires mk.Usable() && FencedPlace(mk, b)
    ensures FencedPlace(mk, Lf(b))
  {
    SeenLf(mk, b);
    LfLines(b);
  }

  lemma OpenBodyParts(mk: Markers, b: string, r: string)
    requires mk.Usable() && Plain(mk, r) && !EndsCr(r)
    requires FencedPlace(mk, b)
    requires PartsOf(mk, Lf(Whole(mk, b, r, "\n"))).Ok?
    ensures PartsOf(mk, Lf(Whole(mk, b, r, "\n"))).value == Parts(Whole(mk, Lf(b), Lf(r), "\n"), None, [])
  {
    FencedPlaceLf(mk, b);
    ReceiptLf(mk, r);
    NoCr("\n");
    LfWhole(mk, b, r, "\n");
    OpenBodySeen(mk, Lf(b), Lf(r));
    NoStart(mk, Whole(mk, Lf(b), Lf(r), "\n"));
  }

  lemma WholeTrimmed(mk: Markers, t: string, gap: string, r: string)
    requires mk.Usable()
    ensures Reviewed(Parts(Whole(mk, t + gap, r, "\n"), None, [])) == t + (gap + Block(mk, r))
  {
    var x := t + (gap + Block(mk, r));
    WholeRegrouped(mk, t, gap, r);
    EndsWithMarker(mk, t + gap, r);
    assert IsSpace('\n');
    TrimEndIs(x, "\n");
    ReviewedAlone(x + "\n");
  }

  lemma WholeRegrouped(mk: Markers, t: string, gap: string, r: string)
    ensures Whole(mk, t + gap, r, "\n") == t + (gap + Block(mk, r)) + "\n"
    ensures t + gap + Block(mk, r) == t + (gap + Block(mk, r))
  {
  }

  lemma EndsWithMarker(mk: Markers, b: string, r: string)
    requires mk.Usable()
    ensures var x := b + Block(mk, r); x != [] && !IsSpace(x[|x| - 1])
  {
    assert Block(mk, r)[|Block(mk, r)| - 1] == mk.end[|mk.end| - 1];
  }

  /** So the whole text, receipt and all, would be the reviewed body: never the body that was reviewed. */
  lemma OpenBodyDiffers(mk: Markers, t: string, r: string)
    requires mk.Usable() && t != [] && !IsSpace(t[|t| - 1]) && NeitherMarker(mk, Seen(mk, t))
    requires !LeavesClosed(Seen(mk, t)) && Plain(mk, r) && !EndsCr(r)
    requires PartsOf(mk, Lf(Whole(mk, t + Gap(t), r, "\n"))).Ok?
    ensures Reviewed(PartsOf(mk, Lf(Whole(mk, t + Gap(t), r, "\n"))).value) != t
  {
    GapIsGood(mk, t);
    OpenBodyParts(mk, t + Gap(t), r);
    LfGap(t);
    WholeTrimmed(mk, Lf(t), Gap(t), Lf(r));
    NotItselfLonger(t, Gap(t) + Block(mk, Lf(r)));
  }

  lemma LfGap(t: string)
    requires t != [] && !IsSpace(t[|t| - 1])
    ensures Lf(t + Gap(t)) == Lf(t) + Gap(t)
  {
    assert IsSpace('\r');
    NoCr(Gap(t));
    LfAppend(t, Gap(t));
  }

  lemma OpenBodySeen(mk: Markers, b: string, r: string)
    requires mk.Usable() && Plain(mk, r)
    requires FencedPlace(mk, b)
    ensures NoMarker(Seen(mk, Whole(mk, b, r, "\n")), mk.start)
  {
    SplitAt([], [], '\n');
    SplitOnce([], '\n');
    assert [] + ['\n'] + [] == "\n";
    assert Lines("\n") == [[], []];
    WholeSeen(mk, b, r, "\n");
    var s := Seen(mk, "\n")[1..];
    assert BlankIsPlain(mk.look, []);
    FencedStart(mk, Seen(mk, b)[..|Lines(b)| - 1], Seen(mk, r), s);
  }

  // ---- the theorem ----

  /** The receipt is valid and records the body it is inserted into. */
  predicate Accepted(mk: Markers, reader: Reader, body: string, receipt: string)
    requires mk.Usable()
  {
    var r := Receipt(receipt);
    && !Contains(r, mk.start) && !Contains(r, mk.end) && Split(r, '\n')[0] == HEADING && reader.proper(r)
    && ReviewedBody(mk, body).Ok? && reader.recorded(r) == reader.digest(ReviewedBody(mk, body).value)
  }

  /** The body the upsert writes. */
  function Next(mk: Markers, body: string, receipt: string): string
    requires mk.Usable() && PartsOf(mk, Lf(body)).Ok?
  {
    Inserted(mk, PartsIn(mk, body), Receipt(receipt))
  }

  lemma ReceiptEnds(r: string)
    requires Split(Trim(r), '\n')[0] == HEADING
    ensures Trim(r) != [] && !EndsCr(Trim(r))
  {
    assert IsSpace('\r');
    assert HEADING != [];
    if Trim(r) == [] { SplitOnce([], '\n'); }
  }

  /** With a place for the block and a closed receipt, what was written is read back, normalized. */
  lemma ReadBack(mk: Markers, reader: Reader, body: string, receipt: string)
    requires mk.Usable() && Accepted(mk, reader, body, receipt)
    requires Placeable(mk, body) && LeavesClosed(Seen(mk, Receipt(receipt)))
    ensures var p, r := PartsIn(mk, body), Receipt(receipt);
            && PartsOf(mk, Lf(Next(mk, body, receipt))) == Ok(Parts(Lf(BeforeOf(p)), Some(Block(mk, Lf(r))),
                    Lf(AfterOf(p))))
            && ReviewedBody(mk, Next(mk, body, receipt)) == Ok(Lf(Reviewed(p)))
  {
    var p, r := PartsIn(mk, body), Receipt(receipt);
    var b, a := BeforeOf(p), AfterOf(p);
    ReceiptEnds(Lf(receipt));
    ReceiptIsPlain(mk, r);
    PlaceableIsGood(mk, body);
    InsertedIsWhole(mk, p, r);
    LfWhole(mk, b, r, a);
    GoodLf(mk, b, a);
    ReceiptLf(mk, r);
    BlockIsFound(mk, Lf(b), Lf(r), Lf(a));
    BodyParts(mk, body);
    ReviewedLf(b, p.block, a);
    SameReviewed(p);
  }

  lemma BodyParts(mk: Markers, body: string)
    requires mk.Usable() && PartsOf(mk, Lf(body)).Ok?
    ensures PartsIn(mk, body).block.None? ==> PartsIn(mk, body) == Parts(Lf(body), None, [])
  {
    if PartsIn(mk, body).block.None? {
      NoBlock(mk, Lf(body));
    }
  }

  /** What a caller can check before inserting a receipt. */
  predicate Insertable(mk: Markers, body: string, receipt: string)
    requires mk.Usable() && PartsOf(mk, Lf(body)).Ok?
  {
    && Placeable(mk, body)
    && LeavesClosed(Seen(mk, Receipt(receipt)))
    && !HasCrlf(Reviewed(PartsIn(mk, body)))
  }

  /** Otherwise the reviewed body changes, or the markers no longer pair up. */
  lemma NotInsertable(mk: Markers, reader: Reader, body: string, receipt: string)
    requires mk.Usable() && Accepted(mk, reader, body, receipt) && !Insertable(mk, body, receipt)
    ensures ReviewedBody(mk, Next(mk, body, receipt)) != ReviewedBody(mk, body)
  {
    var p, r := PartsIn(mk, body), Receipt(receipt);
    var b, a := BeforeOf(p), AfterOf(p);
    BodyParts(mk, body);
    if Placeable(mk, body) && LeavesClosed(Seen(mk, r)) {
      ReadBack(mk, reader, body, receipt);
      LfShrinks(Reviewed(p));
    } else if PartsOf(mk, Lf(Next(mk, body, receipt))).Ok? {
      ReceiptEnds(Lf(receipt));
      ReceiptIsPlain(mk, r);
      InsertedIsWhole(mk, p, r);
      SameReviewed(p);
      if Placeable(mk, body) {
        PlaceableIsGood(mk, body);
        GoodLf(mk, b, a);
        ReceiptLf(mk, r);
        LfWhole(mk, b, r, a);
        OpenReceiptShrinks(mk, Lf(b), Lf(r), Lf(a));
        ReviewedLf(b, None, a);
        LfShrinks(Reviewed(Parts(b, None, a)));
      } else {
        var t := TrimEnd(Lf(body));
        NoBlockPlace(mk, Lf(body));
        OpenBodyDiffers(mk, t, r);
      }
    }
  }

  lemma UpsertIs(mk: Markers, reader: Reader, body: string, receipt: string)
    requires mk.Usable() && Accepted(mk, reader, body, receipt)
    ensures var next := Next(mk, body, receipt); var again := ReviewedBody(mk, next);
            UpsertWith(mk, reader, body, receipt) ==
              if again.Failed? then Failed(again.error)
              else if reader.digest(again.value) != reader.digest(ReviewedBody(mk, body).value) then Failed(Internal)
              else Ok(next)
  {
  }

  /**
   * The upsert succeeds exactly when there is a block to replace or the body leaves no fence open, the receipt
   * leaves none open, and no CRLF survives in the reviewed body.
   */
  lemma UpsertSucceedsExactly(mk: Markers, reader: Reader, body: string, receipt: string)
    requires mk.Usable() && Accepted(mk, reader, body, receipt) && Injective(reader.digest)
    ensures UpsertWith(mk, reader, body, receipt).Ok? <==> Insertable(mk, body, receipt)
    ensures Insertable(mk, body, receipt) ==>
              && UpsertWith(mk, reader, body, receipt) == Ok(Next(mk, body, receipt))
              && ReviewedBody(mk, Next(mk, body, receipt)) == ReviewedBody(mk, body)
  {
    UpsertIs(mk, reader, body, receipt);
    if Insertable(mk, body, receipt) {
      ReadBack(mk, reader, body, receipt);
      LfShrinks(Reviewed(PartsIn(mk, body)));
    } else {
      NotInsertable(mk, reader, body, receipt);
    }
  }

  /** A CRLF that survives normalization in the reviewed body is what makes the internal error reachable. */
  lemma CrlfIsInternalError(mk: Markers, reader: Reader, body: string, receipt: string)
    requires mk.Usable() && Accepted(mk, reader, body, receipt) && Injective(reader.digest)
    requires Placeable(mk, body) && LeavesClosed(Seen(mk, Receipt(receipt))) && HasCrlf(Reviewed(PartsIn(mk, body)))
    ensures UpsertWith(mk, reader, body, receipt) == Failed(Internal)
  {
    UpsertIs(mk, reader, body, receipt);
    ReadBack(mk, reader, body, receipt);
    LfShrinks(Reviewed(PartsIn(mk, body)));
  }

  lemma ReviewedAlone(text: string)
    ensures Reviewed(Parts(text, None, [])) == TrimEnd(text)
  {
    NothingTrimmed();
    CombineEmpty(TrimEnd(text));
  }

  lemma NothingTrimmed()
    ensures Trim([]) == []
  {
  }

  lemma CombineEmpty(x: string)
    ensures Combine(x, []) == x
  {
  }

  lemma ShortLines(mk: Markers, text: string)
    requires mk.Usable()
    requires forall k | 0 <= k < |Lines(text)| :: |Lines(text)[k]| < 4
    ensures PartsOf(mk, text) == Ok(Parts(text, None, []))
  {
    forall k, m | 0 <= k < |Lines(text)| && IsMarkerText(m) ensures !MarkerAt(Seen(mk, text), k, m) {
      var line := Lines(text)[k];
      assert TextIsTrimmed(mk.look, line);
      assert |Trim(line)| <= |line|;
    }
    assert NoMarker(Seen(mk, text), mk.start) && NoMarker(Seen(mk, text), mk.end);
    PlacesNone(mk, Lines(text), mk.start);
    PlacesNone(mk, Lines(text), mk.end);
    PlacesFit(mk, text, mk.end, |Lines(text)|);
  }

  lemma CrlfText()
    ensures Lf("a\r\r\nb") == "a\r\nb"
  {
    var body := "a\r\r\nb";
    assert body[1..] == "\r\r\nb" && body[1..][1..] == "\r\nb" && "\r\nb"[2..] == "b" && "b"[1..] == [];
    assert Lf("b") == "b";
    assert Lf("\r\nb") == "\nb";
  }

  lemma CrlfLines()
    ensures Lines("a\r\nb") == ["a\r", "b"]
  {
    SplitAt("a\r", "b", '\n');
    SplitOnce("a\r", '\n');
    SplitOnce("b", '\n');
    assert "a\r" + ['\n'] + "b" == "a\r\nb";
  }

  lemma LetterLine(line: string)
    requires line != [] && 'a' <= line[0] <= 'z'
    ensures MarkdownMark(line) == None
  {
    assert line[0..] == line;
  }

  lemma CrlfReviewed()
    ensures HasCrlf(Reviewed(Parts("a\r\nb", None, [])))
  {
    var text := "a\r\nb";
    ReviewedAlone(text);
    TrimEndIs(text, []);
    assert text + [] == text;
    assert text[1] == '\r' && text[1 + 1] == '\n';
  }

  lemma WithoutBlock(mk: Markers, body: string, text: string)
    requires mk.Usable() && Lf(body) == text && PartsOf(mk, text) == Ok(Parts(text, None, []))
    requires LeavesClosed(Seen(mk, text)) && HasCrlf(Reviewed(Parts(text, None, [])))
    ensures PartsOf(mk, Lf(body)).Ok? && Placeable(mk, body) && HasCrlf(Reviewed(PartsIn(mk, body)))
  {
  }

  lemma CrlfExample() returns (body: string, text: string)
    ensures body == "a\r\r\nb" && Lf(body) == text && |Lines(text)| == 2
    ensures forall k | 0 <= k < 2 :: |Lines(text)[k]| < 4 && MarkdownMark(Lines(text)[k]) == None
    ensures HasCrlf(Reviewed(Parts(text, None, [])))
  {
    body, text := "a\r\r\nb", "a\r\nb";
    CrlfText();
    CrlfLines();
    CrlfReviewed();
    LetterLine("a\r");
    LetterLine("b");
  }

  lemma TwoPlainLines(mk: Markers, text: string)
    requires mk.look == MarkdownLine && |Lines(text)| == 2
    requires MarkdownMark(Lines(text)[0]) == None && MarkdownMark(Lines(text)[1]) == None
    ensures LeavesClosed(Seen(mk, text))
  {
    TwoWithoutFence(Seen(mk, text));
  }

  lemma TwoWithoutFence(x: seq<Line>)
    requires |x| == 2 && x[0].mark == None && x[1].mark == None
    ensures LeavesClosed(x)
  {
    assert FenceAt(x, 0) == Closed;
    assert FenceAt(x, 1) == Step(FenceAt(x, 0), x[0].mark);
    assert FenceAt(x, 2) == Step(FenceAt(x, 1), x[1].mark);
  }

  /** Such a body exists: its fences are closed, and the CR before its CRLF is followed by a LF in the end. */
  lemma CrlfBody(mk: Markers) returns (body: string)
    requires mk.Usable() && mk.look == MarkdownLine
    ensures PartsOf(mk, Lf(body)).Ok? && Placeable(mk, body) && HasCrlf(Reviewed(PartsIn(mk, body)))
  {
    var text;
    body, text := CrlfExample();
    ShortLines(mk, text);
    TwoPlainLines(mk, text);
    WithoutBlock(mk, body, text);
  }

  lemma TrimmedReceipt(r: string)
    requires r != [] && !IsSpace(r[0]) && !IsSpace(r[|r| - 1]) && '\r' !in r
    ensures Receipt(r) == r
  {
    NoCr(r);
    TrimIs([], r, []);
    assert [] + r + [] == r;
  }

  lemma HashLine(line: string)
    requires line != [] && line[0] == '#'
    ensures MarkdownMark(line) == None
  {
    assert line[0..] == line;
  }

  lemma OneWithoutFence(x: seq<Line>)
    requires |x| == 1 && x[0].mark == None
    ensures LeavesClosed(x)
  {
    assert FenceAt(x, 0) == Closed;
    assert FenceAt(x, 1) == Step(FenceAt(x, 0), x[0].mark);
  }

  /** A receipt of one line that starts with a hash. */
  lemma OneLineReceipt(mk: Markers, r: string)
    requires mk.Usable() && mk.look == MarkdownLine
    requires r != [] && r[0] == '#' && !IsSpace(r[|r| - 1]) && '\r' !in r && '\n' !in r
    ensures Receipt(r) == r && Split(r, '\n') == [r] && LeavesClosed(Seen(mk, r))
  {
    TrimmedReceipt(r);
    SplitOnce(r, '\n');
    HashLine(r);
    OneWithoutFence(Seen(mk, r));
  }

  lemma HeadingFits()
    ensures |HEADING| < 30 && |HEADING| > 0 && HEADING[0] == '#' && HEADING[|HEADING| - 1] == 'p'
    ensures '\r' !in HEADING && '\n' !in HEADING
  {
  }

  lemma TooShort(r: string, m: string)
    requires |r| < |m|
    ensures !Contains(r, m)
  {
  }

  /** A body, a receipt and a reader that accepts it, for which the upsert ends in its internal error. */
  lemma InternalIsReached(mk: Markers) returns (reader: Reader, body: string, receipt: string)
    requires mk.Usable() && mk.look == MarkdownLine && |mk.start| >= 30 && |mk.end| >= 30
    ensures Injective(reader.digest) && Accepted(mk, reader, body, receipt)
    ensures UpsertWith(mk, reader, body, receipt) == Failed(Internal)
  {
    body := CrlfBody(mk);
    receipt := HEADING;
    var reviewed := ReviewedBody(mk, body).value;
    reader := Reader(r => true, r => reviewed, text => text);
    HeadingFits();
    OneLineReceipt(mk, HEADING);
    TooShort(HEADING, mk.start);
    TooShort(HEADING, mk.end);
    CrlfIsInternalError(mk, reader, body, receipt);
  }

  /** The same with the markers of docs-ship. */
  lemma DocsShipInternal() returns (reader: Reader, body: string, receipt: string)
    ensures Injective(reader.digest) && Accepted(DocsShip(), reader, body, receipt)
    ensures Upsert(reader, body, receipt) == Failed(Internal)
  {
    StartText();
    EndText();
    reader, body, receipt := InternalIsReached(DocsShip());
  }

  /** The block read back after a success is the block inserted, exactly when no CRLF is left in the receipt. */
  lemma BlockReadBack(mk: Markers, reader: Reader, body: string, receipt: string)
    requires mk.Usable() && Accepted(mk, reader, body, receipt) && Insertable(mk, body, receipt)
    ensures var r, found := Receipt(receipt), PartsOf(mk, Lf(Next(mk, body, receipt)));
            && found.Ok? && found.value.block == Some(Lf(Block(mk, r)))
            && (found.value.block == Some(Block(mk, r)) <==> !HasCrlf(r))
  {
    var r := Receipt(receipt);
    ReadBack(mk, reader, body, receipt);
    ReceiptEnds(Lf(receipt));
    LfBlock(mk, r);
    LfShrinks(r);
    assert Block(mk, Lf(r)) == Block(mk, r) ==> |Lf(r)| == |r|;
  }

  lemma ReviewedAgain(mk: Markers, reader: Reader, body: string, receipt: string)
    requires mk.Usable() && Accepted(mk, reader, body, receipt) && Insertable(mk, body, receipt)
    ensures ReviewedBody(mk, Next(mk, body, receipt)) == ReviewedBody(mk, body)
  {
    ReadBack(mk, reader, body, receipt);
    LfShrinks(Reviewed(PartsIn(mk, body)));
  }

  lemma AcceptedAgain(mk: Markers, reader: Reader, body: string, next: string, receipt: string)
    requires mk.Usable() && Accepted(mk, reader, body, receipt)
    requires ReviewedBody(mk, next) == ReviewedBody(mk, body)
    ensures Accepted(mk, reader, next, receipt)
  {
  }

  lemma InsertableAgain(mk: Markers, body: string, next: string, receipt: string)
    requires mk.Usable() && PartsOf(mk, Lf(body)).Ok? && Insertable(mk, body, receipt)
    requires ReviewedBody(mk, next) == ReviewedBody(mk, body)
    requires PartsOf(mk, Lf(next)).Ok? && PartsIn(mk, next).block.Some?
    ensures Insertable(mk, next, receipt)
  {
    assert Reviewed(PartsIn(mk, next)) == Reviewed(PartsIn(mk, body));
  }

  /** A second insertion of the same receipt goes between the same texts, normalized. */
  lemma AgainBetween(mk: Markers, reader: Reader, body: string, receipt: string)
    requires mk.Usable() && Accepted(mk, reader, body, receipt) && Insertable(mk, body, receipt)
    ensures var p, next := PartsIn(mk, body), Next(mk, body, receipt);
            && Accepted(mk, reader, next, receipt) && Insertable(mk, next, receipt)
            && Next(mk, next, receipt) == Whole(mk, Lf(BeforeOf(p)), Receipt(receipt), Lf(AfterOf(p)))
  {
    var next := Next(mk, body, receipt);
    ReadBack(mk, reader, body, receipt);
    ReviewedAgain(mk, reader, body, receipt);
    AcceptedAgain(mk, reader, body, next, receipt);
    InsertableAgain(mk, body, next, receipt);
    NextAgain(mk, next, receipt, PartsIn(mk, next));
  }

  lemma NextAgain(mk: Markers, next: string, receipt: string, p: Parts)
    requires mk.Usable() && PartsOf(mk, Lf(next)) == Ok(p) && p.block.Some?
    ensures Next(mk, next, receipt) == Whole(mk, p.before, Receipt(receipt), p.after)
  {
    InsertedIsWhole(mk, p, Receipt(receipt));
  }

  /** It succeeds; it changes nothing exactly when no CRLF stands around the block. */
  lemma SecondUpsert(mk: Markers, reader: Reader, body: string, receipt: string)
    requires mk.Usable() && Accepted(mk, reader, body, receipt) && Insertable(mk, body, receipt)
    requires Injective(reader.digest)
    ensures var p, next := PartsIn(mk, body), Next(mk, body, receipt);
            var again := UpsertWith(mk, reader, next, receipt);
            && again.Ok?
            && (again == Ok(next) <==> !HasCrlf(BeforeOf(p)) && !HasCrlf(AfterOf(p)))
  {
    var p, r, next := PartsIn(mk, body), Receipt(receipt), Next(mk, body, receipt);
    AgainBetween(mk, reader, body, receipt);
    UpsertSucceedsExactly(mk, reader, next, receipt);
    InsertedIsWhole(mk, p, r);
    SameWhole(mk, BeforeOf(p), r, AfterOf(p));
  }

  /** Around a block that was not there before, none does. */
  lemma FirstInsertionIsStable(mk: Markers, reader: Reader, body: string, receipt: string)
    requires mk.Usable() && Accepted(mk, reader, body, receipt) && Insertable(mk, body, receipt)
    requires Injective(reader.digest) && PartsIn(mk, body).block.None?
    ensures UpsertWith(mk, reader, Next(mk, body, receipt), receipt) == Ok(Next(mk, body, receipt))
  {
    SecondUpsert(mk, reader, body, receipt);
    BodyParts(mk, body);
    GapWithoutCrlf(Lf(body));
  }

  lemma GapWithoutCrlf(text: string)
    requires !HasCrlf(Reviewed(Parts(text, None, [])))
    ensures !HasCrlf(BeforeOf(Parts(text, None, []))) && !HasCrlf(AfterOf(Parts(text, None, [])))
  {
    var t := TrimEnd(text);
    ReviewedAlone(text);
    NoCrlfInGap(t);
    LfShrinks(t + Gap(t));
  }

  lemma SameWhole(mk: Markers, b: string, r: string, a: string)
    ensures Whole(mk, Lf(b), r, Lf(a)) == Whole(mk, b, r, a) <==> !HasCrlf(b) && !HasCrlf(a)
  {
    LfShrinks(b);
    LfShrinks(a);
    assert |Whole(mk, Lf(b), r, Lf(a))| - |Lf(b)| - |Lf(a)| == |Whole(mk, b, r, a)| - |b| - |a|;
  }

  lemma NoCrlfInGap(t: string)
    requires !HasCrlf(t) && (t != [] ==> !IsSpace(t[|t| - 1]))
    ensures Lf(t + Gap(t)) == t + Gap(t)
  {
    LfShrinks(t);
    if t != [] {
      LfGap(t);
    }
  }

  /** The same for the markers that docs-ship uses. */
  lemma DocsShipUpsert(reader: Reader, body: string, receipt: string)
    requires Accepted(DocsShip(), reader, body, receipt) && Injective(reader.digest)
    ensures Upsert(reader, body, receipt).Ok? <==> Insertable(DocsShip(), body, receipt)
    ensures Upsert(reader, body, receipt).Ok? ==>
              ReviewedBody(DocsShip(), Upsert(reader, body, receipt).value) == ReviewedBody(DocsShip(), body)
  {
    UpsertSucceedsExactly(DocsShip(), reader, body, receipt);
  }
}
