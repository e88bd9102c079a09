/**
 * Inserting a receipt keeps the reviewed body: exactly when, and what is then read back. The converse of
 * `ReceiptTheorems`: a block is found only between texts that may surround one.
 */
module ReceiptRoundTrip {
  import opened Common
  import opened Text
  import opened Fences
  import opened LineEndings
  import opened LineLooks
  import opened ReceiptBody
  import opened MarkerLines
  import opened ReceiptTheorems

  // ---- the texts around a block that was found ----

  /** The columns of a marker on its line. */
  lemma MarkerColumns(mk: Markers, line: string, m: string)
    requires mk.Usable() && IsMarkerText(m) && mk.look(line).text == m
    ensures !Indented(line) && Lead(line) + |m| <= |line|
    ensures Blank(line[..Lead(line)]) && Blank(line[Lead(line) + |m|..])
    ensures !Indented(line[..Lead(line)] + m)
  {
    assert TextIsTrimmed(mk.look, line);
    TrimColumns(line, m);
    TrimSpace(line, m);
    PrefixIndent(line, line[..Lead(line)] + m);
  }

  lemma PrefixIndent(line: string, x: string)
    requires x <= line && |x| >= 4
    ensures Indented(x) == Indented(line)
  {
    assert x[..4] == line[..4];
  }

  lemma RunBefore(lines: seq<Line>, i: nat, m: string, other: string)
    requires i < |lines| && MarkerAt(lines, i, m)
    requires forall k | 0 <= k < i :: !MarkerAt(lines, k, other)
    ensures LeavesClosed(lines[..i]) && NoMarker(lines[..i], other)
  {
    var p := lines[..i];
    assert p[..i] == p;
    FenceOfPrefix(p, lines, i);
    NoMarkerPrefix(p, lines, i, other);
  }

  lemma RunAfter(lines: seq<Line>, j: nat, m: string, other: string)
    requires j < |lines| && MarkerAt(lines, j, m)
    requires forall k | j < k < |lines| :: !MarkerAt(lines, k, other)
    ensures NoMarker(lines[j + 1..], other)
  {
    var x, y := lines[..j + 1], lines[j + 1..];
    assert x + y == lines && x[..j] == lines[..j];
    FenceOfPrefix(x, lines, j);
    assert x[j] == lines[j];
    MarkersAppend(x, y, other);
    forall k | 0 <= k < |y| ensures !MarkerAt(y, k, other) {
      assert !MarkerAt(lines, j + 1 + k, other);
    }
  }

  lemma GoodBeforeIs(mk: Markers, b: string, p: seq<string>, w: string)
    requires Lines(b) == p + [w] && Blank(w) && !Indented(w + mk.start)
    requires LeavesClosed(Scan(mk.look, p)) && NeitherMarker(mk, Scan(mk.look, p))
    ensures GoodBefore(mk, b)
  {
    ScanSlices(mk.look, Lines(b), |p|);
    assert Lines(b)[..|p|] == p;
  }

  lemma GoodAfterIs(mk: Markers, a: string, x: string, s: seq<string>)
    requires Lines(a) == [x] + s && Blank(x) && NeitherMarker(mk, Scan(mk.look, s))
    ensures GoodAfter(mk, a)
  {
    ScanSlices(mk.look, Lines(a), 1);
    assert Lines(a)[1..] == s;
  }

  lemma CutHere(text: string, k: nat, c: nat, o: nat)
    requires k < |Lines(text)| && c <= |Lines(text)[k]| && o == Offset(Lines(text), k) + c
    ensures o <= |text|
    ensures Lines(text[..o]) == Lines(text)[..k] + [Lines(text)[k][..c]]
    ensures Lines(text[o..]) == [Lines(text)[k][c..]] + Lines(text)[k + 1..]
  {
    CutLines(text, k, c);
  }

  lemma BeforeMarker(mk: Markers, text: string, i: nat, s: nat)
    requires mk.Usable() && i < |Lines(text)| && s == Place(Lines(text), i)
    requires mk.look(Lines(text)[i]).text == mk.start
    requires LeavesClosed(Seen(mk, text)[..i]) && NeitherMarker(mk, Seen(mk, text)[..i])
    ensures s <= |text| && GoodBefore(mk, text[..s])
  {
    var line := Lines(text)[i];
    MarkerColumns(mk, line, mk.start);
    CutHere(text, i, Lead(line), s);
    ScanSlices(mk.look, Lines(text), i);
    GoodBeforeIs(mk, text[..s], Lines(text)[..i], line[..Lead(line)]);
  }

  lemma AfterColumn(mk: Markers, text: string, j: nat, c: nat, o: nat)
    requires j < |Lines(text)| && c <= |Lines(text)[j]| && o == Offset(Lines(text), j) + c
    requires Blank(Lines(text)[j][c..]) && NeitherMarker(mk, Seen(mk, text)[j + 1..])
    ensures o <= |text| && GoodAfter(mk, text[o..])
  {
    CutHere(text, j, c, o);
    ScanSlices(mk.look, Lines(text), j + 1);
    GoodAfterIs(mk, text[o..], Lines(text)[j][c..], Lines(text)[j + 1..]);
  }

  /** What the two marker lines say about the lines around them. */
  lemma RunsAround(mk: Markers, lines: seq<Line>, i: nat, j: nat)
    requires i < j && OnlyMarker(lines, i, mk.start) && OnlyMarker(lines, j, mk.end)
    ensures lines[i].text == mk.start && lines[j].text == mk.end
    ensures LeavesClosed(lines[..i]) && NeitherMarker(mk, lines[..i]) && NeitherMarker(mk, lines[j + 1..])
  {
    assert MarkerAt(lines, i, mk.start) && MarkerAt(lines, j, mk.end);
    RunBefore(lines, i, mk.start, mk.start);
    RunBefore(lines, i, mk.start, mk.end);
    RunAfter(lines, j, mk.end, mk.start);
    RunAfter(lines, j, mk.end, mk.end);
  }

  lemma OneEach(mk: Markers, text: string) returns (s: nat, e: nat, o: nat)
    requires mk.Usable() && PartsOf(mk, text).Ok? && PartsOf(mk, text).value.block.Some?
    ensures Places(mk.look, Lines(text), mk.start, |Lines(text)|) == [s]
    ensures Places(mk.look, Lines(text), mk.end, |Lines(text)|) == [e]
    ensures s <= e && o == e + |mk.end| && o <= |text|
    ensures PartsOf(mk, text).value == Parts(text[..s], Some(text[s..o]), text[o..])
  {
    var lines := Lines(text);
    PlacesFit(mk, text, mk.end, |lines|);
    var starts, ends := Places(mk.look, lines, mk.start, |lines|), Places(mk.look, lines, mk.end, |lines|);
    assert |starts| == 1 && |ends| == 1;
    s, e := starts[0], ends[0];
    o := e + |mk.end|;
  }

  lemma InOrder(mk: Markers, lines: seq<string>, i: nat, j: nat)
    requires mk.Usable() && i < |lines| && j < |lines|
    requires mk.look(lines[i]).text == mk.start && mk.look(lines[j]).text == mk.end
    requires Place(lines, i) <= Place(lines, j)
    ensures i < j
  {
    if j < i {
      OffsetGrows(lines, j, i);
      MarkerColumns(mk, lines[j], mk.end);
    }
  }

  /** A block is only ever found between texts that a block may stand between. */
  lemma FoundParts(mk: Markers, text: string)
    requires mk.Usable() && PartsOf(mk, text).Ok? && PartsOf(mk, text).value.block.Some?
    ensures GoodBefore(mk, PartsOf(mk, text).value.before) && GoodAfter(mk, PartsOf(mk, text).value.after)
  {
    var s, o, i, j := FoundLines(mk, text);
    BeforeMarker(mk, text, i, s);
    var line := Lines(text)[j];
    MarkerColumns(mk, line, mk.end);
    AfterColumn(mk, text, j, Lead(line) + |mk.end|, o);
  }

  lemma FoundLines(mk: Markers, text: string) returns (s: nat, o: nat, i: nat, j: nat)
    requires mk.Usable() && PartsOf(mk, text).Ok? && PartsOf(mk, text).value.block.Some?
    ensures s <= o <= |text| && PartsOf(mk, text).value == Parts(text[..s], Some(text[s..o]), text[o..])
    ensures i < j < |Lines(text)| && s == Place(Lines(text), i) && o == Place(Lines(text), j) + |mk.end|
    ensures mk.look(Lines(text)[i]).text == mk.start && mk.look(Lines(text)[j]).text == mk.end
    ensures LeavesClosed(Seen(mk, text)[..i]) && NeitherMarker(mk, Seen(mk, text)[..i])
    ensures NeitherMarker(mk, Seen(mk, text)[j + 1..])
  {
    var e;
    s, e, o := OneEach(mk, text);
    var lines := Lines(text);
    i := PlacesOne(mk, lines, mk.start);
    j := PlacesOne(mk, lines, mk.end);
    assert MarkerAt(Seen(mk, text), i, mk.start) && MarkerAt(Seen(mk, text), j, mk.end);
    InOrder(mk, lines, i, j);
    RunsAround(mk, Seen(mk, text), i, j);
  }

  /** No block: no marker line at all. */
  lemma NoBlock(mk: Markers, text: string)
    requires mk.Usable() && PartsOf(mk, text).Ok? && PartsOf(mk, text).value.block.None?
    ensures NeitherMarker(mk, Seen(mk, text)) && PartsOf(mk, text).value == Parts(text, None, [])
  {
    PlacesFit(mk, text, mk.end, |Lines(text)|);
    PlacesNone(mk, Lines(text), mk.start);
    PlacesNone(mk, Lines(text), mk.end);
  }

  // ---- normalization ----

  lemma GoodLf(mk: Markers, b: string, a: string)
    requires mk.Usable()
    ensures GoodBefore(mk, b) ==> GoodBefore(mk, Lf(b))
    ensures GoodAfter(mk, a) ==> GoodAfter(mk, Lf(a))
  {
    SeenLf(mk, b);
    SeenLf(mk, a);
    LfLines(b);
    LfLines(a);
  }

  lemma ReceiptLf(mk: Markers, r: string)
    requires mk.Usable()
    ensures Plain(mk, r) ==> Plain(mk, Lf(r))
    ensures LeavesClosed(Seen(mk, Lf(r))) <==> LeavesClosed(Seen(mk, r))
  {
    SeenLf(mk, r);
  }

  lemma NoCr(s: string)
    requires '\r' !in s
    ensures Lf(s) == s
  {
    LfShrinks(s);
  }

  lemma LfBlock(mk: Markers, r: string)
    requires mk.Usable() && !EndsCr(r)
    ensures Lf(Block(mk, r)) == Block(mk, Lf(r))
  {
    var tail := "\n" + mk.end;
    NoCr(mk.start + "\n");
    NoCr(tail);
    LfAppend(r, tail);
    LfAppend(mk.start + "\n", r + tail);
    BlockParts(mk, r);
    BlockParts(mk, Lf(r));
  }

  lemma BlockParts(mk: Markers, r: string)
    ensures Block(mk, r) == (mk.start + "\n") + (r + ("\n" + mk.end))
  {
  }

  lemma LfWhole(mk: Markers, b: string, r: string, a: string)
    requires mk.Usable() && !EndsCr(r)
    ensures Lf(Whole(mk, b, r, a)) == Whole(mk, Lf(b), Lf(r), Lf(a))
  {
    LfBlock(mk, r);
    assert Block(mk, r)[0] == mk.start[0];
    assert Block(mk, r)[|Block(mk, r)| - 1] == mk.end[|mk.end| - 1];
    LfAppend(b, Block(mk, r));
    LfAppend(b + Block(mk, r), a);
  }

  lemma LfCombine(x: string, y: string)
    requires !EndsCr(x)
    ensures Lf(Combine(x, y)) == Combine(Lf(x), Lf(y))
  {
    LfShrinks(x);
    LfShrinks(y);
    if x != [] && y != [] {
      NoCr("\n\n");
      LfAppend(x, "\n\n");
      LfAppend(x + "\n\n", y);
    }
  }

  /** Normalizing the texts around the block normalizes the reviewed body. */
  lemma ReviewedLf(b: string, block: Option<string>, a: string)
    ensures Reviewed(Parts(Lf(b), block, Lf(a))) == Lf(Reviewed(Parts(b, block, a)))
  {
    LfTrimEnd(b);
    LfTrim(a);
    assert IsSpace('\r');
    LfCombine(TrimEnd(b), Trim(a));
  }

  // ---- where the block goes ----

  function Gap(t: string): string {
    if t != [] then "\n\n" else []
  }

  function BeforeOf(p: Parts): string {
    if p.block.None? then TrimEnd(p.before) + Gap(TrimEnd(p.before)) else p.before
  }

  function AfterOf(p: Parts): string {
    if p.block.None? then "\n" else p.after
  }

  lemma InsertedIsWhole(mk: Markers, p: Parts, r: string)
    ensures Inserted(mk, p, r) == Whole(mk, BeforeOf(p), r, AfterOf(p))
  {
    BlankTrims(p.before);
  }

  /** The inserted block is set off by an empty line, which the reviewed body does not count. */
  lemma SameReviewed(p: Parts)
    requires p.block.None? ==> p.after == []
    ensures Reviewed(Parts(BeforeOf(p), p.block, AfterOf(p))) == Reviewed(p)
  {
    if p.block.None? {
      GapTrimmed(TrimEnd(p.before));
    }
  }

  lemma GapTrimmed(t: string)
    requires t != [] ==> !IsSpace(t[|t| - 1])
    ensures TrimEnd(t + Gap(t)) == t && Trim("\n") == [] && Trim([]) == []
  {
    assert IsSpace('\n');
    TrimEndIs(t, Gap(t));
    BlankTrims("\n");
    BlankTrims([]);
  }
}
