/**
 * What inserting a receipt keeps: the reviewed body, the block read back, and a second insertion. A text with
 * a block is `Whole` of what stands before it, the receipt and what stands after it.
 */
module ReceiptTheorems {
  import opened Common
  import opened Text
  import opened Fences
  import opened LineEndings
  import opened LineLooks
  import opened ReceiptBody
  import opened MarkerLines

  function Last(x: seq<string>): string
    requires |x| > 0
  {
    x[|x| - 1]
  }

  ghost predicate NeitherMarker(mk: Markers, lines: seq<Line>) {
    NoMarker(lines, mk.start) && NoMarker(lines, mk.end)
  }

  /** What may stand before a block: no marker line, no open fence, and only harmless space on the block's own line. */
  ghost predicate GoodBefore(mk: Markers, b: string) {
    var n := |Lines(b)| - 1;
    && LeavesClosed(Seen(mk, b)[..n]) && NeitherMarker(mk, Seen(mk, b)[..n])
    && Blank(Lines(b)[n]) && !Indented(Lines(b)[n] + mk.start)
  }

  /** What may stand after it: only space on the block's own line, and no marker line. */
  ghost predicate GoodAfter(mk: Markers, a: string) {
    Blank(Lines(a)[0]) && NeitherMarker(mk, Seen(mk, a)[1..])
  }

  /** A receipt has no line that could be taken for a marker, fenced or not. */
  ghost predicate Plain(mk: Markers, r: string) {
    forall k | 0 <= k < |Seen(mk, r)| :: Seen(mk, r)[k].text != mk.start && Seen(mk, r)[k].text != mk.end
  }

  function Whole(mk: Markers, b: string, r: string, a: string): string {
    b + Block(mk, r) + a
  }

  lemma WholeText(mk: Markers, b: string, r: string, a: string)
    ensures Whole(mk, b, r, a) == (b + mk.start + ['\n'] + r) + ['\n'] + (mk.end + a)
  {
  }

  lemma HeadLines(mk: Markers, b: string, r: string)
    requires mk.Usable()
    ensures Lines(b + mk.start + ['\n'] + r) == Glue(Lines(b), [mk.start]) + Lines(r)
  {
    SplitOnce(mk.start, '\n');
    SplitAppend(b, mk.start, '\n');
    SplitAt(b + mk.start, r, '\n');
  }

  /** The three runs of lines of a text with a block in it. */
  lemma WholeLines(mk: Markers, b: string, r: string, a: string)
    requires mk.Usable()
    ensures Lines(Whole(mk, b, r, a)) == Glue(Lines(b), [mk.start]) + Lines(r) + Glue([mk.end], Lines(a))
  {
    HeadLines(mk, b, r);
    SplitOnce(mk.end, '\n');
    SplitAppend(mk.end, a, '\n');
    SplitAt(b + mk.start + ['\n'] + r, mk.end + a, '\n');
    WholeText(mk, b, r, a);
  }

  /** The same as the marker scan sees it: two marker lines between three runs. */
  lemma WholeSeen(mk: Markers, b: string, r: string, a: string)
    requires mk.Usable() && Blank(Lines(a)[0])
    requires Blank(Lines(b)[|Lines(b)| - 1]) && !Indented(Lines(b)[|Lines(b)| - 1] + mk.start)
    ensures Seen(mk, Whole(mk, b, r, a)) ==
            Seen(mk, b)[..|Lines(b)| - 1] + [Plainly(mk.start)] + Seen(mk, r) + [Plainly(mk.end)] + Seen(mk, a)[1..]
  {
    WholeLines(mk, b, r, a);
    var n := |Lines(b)| - 1;
    var first, last := Lines(b)[n] + mk.start, mk.end + Lines(a)[0];
    GlueIs(Lines(b), mk.start);
    GlueIs(Lines(a), mk.end);
    assert Opens(mk.look, mk.start, Lines(b)[n]) && Closes(mk.look, mk.end, Lines(a)[0]);
    SeenParts(mk.look, Lines(b)[..n], first, Lines(r), last, Lines(a)[1..]);
    ScanSlices(mk.look, Lines(b), n);
    ScanSlices(mk.look, Lines(a), 1);
    Regroup(Lines(b)[..n], first, Lines(r), last, Lines(a)[1..]);
  }

  lemma Regroup(p: seq<string>, first: string, r: seq<string>, last: string, s: seq<string>)
    ensures p + [first] + r + ([last] + s) == p + [first] + r + [last] + s
  {
  }

  lemma ScanSlices(look: string -> Line, x: seq<string>, n: nat)
    requires n <= |x|
    ensures Scan(look, x[..n]) == Scan(look, x)[..n] && Scan(look, x[n..]) == Scan(look, x)[n..]
  {
  }

  lemma GlueIs(x: seq<string>, m: string)
    requires |x| > 0
    ensures Glue(x, [m]) == x[..|x| - 1] + [x[|x| - 1] + m]
    ensures Glue([m], x) == [m + x[0]] + x[1..]
  {
  }

  lemma SeenParts(look: string -> Line, p: seq<string>, first: string, r: seq<string>, last: string, s: seq<string>)
    ensures Scan(look, p + [first] + r + [last] + s)
         == Scan(look, p) + [look(first)] + Scan(look, r) + [look(last)] + Scan(look, s)
  {
  }

  lemma PlainHasNoMarker(mk: Markers, r: string)
    requires Plain(mk, r)
    ensures NeitherMarker(mk, Seen(mk, r))
  {
  }

  /** Two marker lines, each the only one of its kind. */
  lemma TwoMarkers(mk: Markers, p: seq<Line>, r: seq<Line>, s: seq<Line>)
    requires mk.Usable() && LeavesClosed(p) && LeavesClosed(r)
    requires NeitherMarker(mk, p) && NeitherMarker(mk, r) && NeitherMarker(mk, s)
    ensures var lines := p + [Plainly(mk.start)] + r + [Plainly(mk.end)] + s;
            OnlyMarker(lines, |p|, mk.start) && OnlyMarker(lines, |p| + 1 + |r|, mk.end)
  {
    var tail := r + [Plainly(mk.end)] + s;
    OtherMarker(r, s, mk.start, mk.end);
    OneMarker(p, tail, mk.start);
    assert p + [Plainly(mk.start)] + tail == p + [Plainly(mk.start)] + r + [Plainly(mk.end)] + s;
    var head := p + [Plainly(mk.start)] + r;
    OtherMarker(p, r, mk.end, mk.start);
    ClosedAppend(p + [Plainly(mk.start)], r);
    OneMarker(head, s, mk.end);
  }

  /** Where the closing marker stands. */
  function EndOf(mk: Markers, b: string, r: string): nat {
    |b| + |mk.start| + |r| + 2
  }

  lemma StartPlace(mk: Markers, b: string, r: string, a: string)
    requires mk.Usable() && GoodBefore(mk, b)
    ensures |Lines(b)| - 1 < |Lines(Whole(mk, b, r, a))|
    ensures Place(Lines(Whole(mk, b, r, a)), |Lines(b)| - 1) == |b|
  {
    WholeLines(mk, b, r, a);
    var lines, n := Lines(Whole(mk, b, r, a)), |Lines(b)| - 1;
    OffsetFits(b, n);
    assert lines[..n] == Lines(b)[..n];
    OffsetOfPrefix(lines, Lines(b), n);
    assert lines[n] == Lines(b)[n] + mk.start;
    TrimStartIs(Lines(b)[n], mk.start);
  }

  lemma EndPlace(mk: Markers, b: string, r: string, a: string, n: nat)
    requires mk.Usable() && n == |Lines(b)| + |Lines(r)|
    ensures n < |Lines(Whole(mk, b, r, a))|
    ensures Place(Lines(Whole(mk, b, r, a)), n) == EndOf(mk, b, r)
  {
    WholeLines(mk, b, r, a);
    HeadLines(mk, b, r);
    var lines := Lines(Whole(mk, b, r, a));
    var head := b + mk.start + ['\n'] + r;
    SplitAt(head, [], '\n');
    var x := Lines(head + ['\n'] + []);
    assert x == Lines(head) + [[]];
    OffsetFits(head + ['\n'] + [], n);
    assert lines[..n] == x[..n];
    OffsetOfPrefix(lines, x, n);
    assert lines[n] == mk.end + Lines(a)[0];
    TrimStartIs([], mk.end + Lines(a)[0]);
    assert [] + (mk.end + Lines(a)[0]) == lines[n];
  }

  lemma EndPlaces(mk: Markers, b: string, r: string, a: string, j: nat)
    requires mk.Usable() && j == |Lines(b)| + |Lines(r)| && OnlyMarker(Seen(mk, Whole(mk, b, r, a)), j, mk.end)
    ensures var lines := Lines(Whole(mk, b, r, a));
            Places(mk.look, lines, mk.end, |lines|) == [EndOf(mk, b, r)]
  {
    var lines := Lines(Whole(mk, b, r, a));
    PlacesOnly(mk, lines, mk.end, j);
    EndPlace(mk, b, r, a, j);
  }

  lemma BlockMarkers(mk: Markers, b: string, r: string, a: string)
    requires mk.Usable() && GoodBefore(mk, b) && GoodAfter(mk, a) && Plain(mk, r) && LeavesClosed(Seen(mk, r))
    ensures OnlyMarker(Seen(mk, Whole(mk, b, r, a)), |Lines(b)| - 1, mk.start)
    ensures OnlyMarker(Seen(mk, Whole(mk, b, r, a)), |Lines(b)| + |Lines(r)|, mk.end)
  {
    WholeSeen(mk, b, r, a);
    PlainHasNoMarker(mk, r);
    TwoMarkers(mk, Seen(mk, b)[..|Lines(b)| - 1], Seen(mk, r), Seen(mk, a)[1..]);
  }

  lemma BlockPlaces(mk: Markers, b: string, r: string, a: string)
    requires mk.Usable() && GoodBefore(mk, b) && GoodAfter(mk, a) && Plain(mk, r) && LeavesClosed(Seen(mk, r))
    ensures var lines := Lines(Whole(mk, b, r, a));
            && Places(mk.look, lines, mk.start, |lines|) == [|b|]
            && Places(mk.look, lines, mk.end, |lines|) == [EndOf(mk, b, r)]
  {
    BlockMarkers(mk, b, r, a);
    PlacesOnly(mk, Lines(Whole(mk, b, r, a)), mk.start, |Lines(b)| - 1);
    StartPlace(mk, b, r, a);
    EndPlaces(mk, b, r, a, |Lines(b)| + |Lines(r)|);
  }

  /** A closed receipt between good texts is found again, with exactly these texts around it. */
  lemma BlockIsFound(mk: Markers, b: string, r: string, a: string)
    requires mk.Usable() && GoodBefore(mk, b) && GoodAfter(mk, a) && Plain(mk, r) && LeavesClosed(Seen(mk, r))
    ensures PartsOf(mk, Whole(mk, b, r, a)) == Ok(Parts(b, Some(Block(mk, r)), a))
  {
    BlockPlaces(mk, b, r, a);
    CutAround(mk, b, r, a);
  }

  lemma CutAround(mk: Markers, b: string, r: string, a: string)
    ensures |b| + |Block(mk, r)| == |Whole(mk, b, r, a)| - |a|
    ensures CutAt(mk, Whole(mk, b, r, a), [|b|], [EndOf(mk, b, r)]) == Ok(Parts(b, Some(Block(mk, r)), a))
  {
    var text := Whole(mk, b, r, a);
    assert text[..|b|] == b;
    assert text[|b|..|b| + |Block(mk, r)|] == Block(mk, r);
    assert text[|b| + |Block(mk, r)|..] == a;
  }
}
