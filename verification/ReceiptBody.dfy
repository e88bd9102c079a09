/**
 * The docs-ship receipt in a pull-request body: finding the block between its markers, the reviewed body
 * that the receipt binds, and inserting or replacing the block without changing that body.
 */
module ReceiptBody {
  import opened Common
  import opened Text
  import opened Fences
  import opened LineEndings
  import opened LineLooks

  const START := "<!-- docs-ship:receipt:start -->"
  const END := "<!-- docs-ship:receipt:end -->"
  const HEADING := "## Docs ship"

  // What the reasoning needs to know about the reading of a line, one fact at a time.

  ghost predicate Opens(look: string -> Line, m: string, w: string) {
    Blank(w) && !Indented(w + m) ==> look(w + m) == Plainly(m)
  }

  ghost predicate Closes(look: string -> Line, m: string, x: string) {
    Blank(x) ==> look(m + x) == Plainly(m)
  }

  ghost predicate BlankIsPlain(look: string -> Line, w: string) {
    Blank(w) ==> look(w) == Plainly([])
  }

  ghost predicate DropsCr(look: string -> Line, line: string) {
    look(DropCr(line)) == look(line)
  }

  ghost predicate DropsSpace(look: string -> Line, line: string, w: string) {
    Blank(w) && line != [] && !IsSpace(line[|line| - 1]) ==> look(line + w) == look(line)
  }

  ghost predicate TextIsTrimmed(look: string -> Line, line: string) {
    look(line).text != [] ==> !Indented(line) && look(line).text == Trim(line)
  }

  /** The two markers and the reading of a line. */
  datatype Markers = Markers(start: string, end: string, look: string -> Line) {
    ghost predicate Usable() {
      && IsMarkerText(start) && IsMarkerText(end) && start != end
      && (forall w {:trigger Opens(look, start, w)} :: Opens(look, start, w))
      && (forall x {:trigger Closes(look, end, x)} :: Closes(look, end, x))
      && (forall w {:trigger BlankIsPlain(look, w)} :: BlankIsPlain(look, w))
      && (forall line {:trigger DropsCr(look, line)} :: DropsCr(look, line))
      && (forall line, w {:trigger DropsSpace(look, line, w)} :: DropsSpace(look, line, w))
      && (forall line {:trigger TextIsTrimmed(look, line)} :: TextIsTrimmed(look, line))
    }
  }

  lemma StartText()
    ensures IsMarkerText(START) && |START| == 32
  {
    assert START[|START| - 1] == '>';
  }

  lemma EndText()
    ensures IsMarkerText(END) && |END| == 30
  {
    assert END[|END| - 1] == '>';
  }

  function DocsShip(): (mk: Markers)
    ensures mk.Usable()
  {
    StartText();
    EndText();
    OpeningLine(START);
    ClosingLine(END);
    DropCrKeepsLook();
    BlankLines();
    TrailingKeepsLook();
    Markers(START, END, MarkdownLine)
  }

  datatype Error = ReceiptMarkers | ReceiptInvalid | HashMismatch | Internal
  datatype Outcome<T> = Ok(value: T) | Failed(error: Error)
  datatype Parts = Parts(before: string, block: Option<string>, after: string)

  // ---- marker lines ----

  predicate MarkerAt(lines: seq<Line>, k: nat, marker: string)
    requires k < |lines|
  {
    !Fenced(lines, k) && lines[k].text == marker
  }

  /** Where line `k` starts in the text. */
  function Offset(lines: seq<string>, k: nat): nat
    requires k <= |lines|
  {
    if k == 0 then 0 else Offset(lines, k - 1) + |lines[k - 1]| + 1
  }

  function Place(lines: seq<string>, k: nat): nat
    requires k < |lines|
  {
    Offset(lines, k) + Lead(lines[k])
  }

  /** The positions of the noted lines, among the first `n`. */
  function Where(noted: seq<bool>, position: seq<nat>, n: nat): seq<nat>
    requires n <= |noted| == |position|
  {
    if n == 0 then [] else Where(noted, position, n - 1) + if noted[n - 1] then [position[n - 1]] else []
  }

  function Marked(lines: seq<Line>, marker: string): seq<bool> {
    seq(|lines|, k requires 0 <= k < |lines| => MarkerAt(lines, k, marker))
  }

  function Positions(lines: seq<string>): seq<nat> {
    seq(|lines|, k requires 0 <= k < |lines| => Place(lines, k))
  }

  /** Where the marker stands, among the first `n` lines. */
  function Places(look: string -> Line, lines: seq<string>, marker: string, n: nat): seq<nat>
    requires n <= |lines|
  {
    Where(Marked(Scan(look, lines), marker), Positions(lines), n)
  }

  lemma LeadFits(line: string)
    ensures Lead(line) + |Trim(line)| <= |line|
  {
  }

  lemma {:induction false} PlacesFit(mk: Markers, text: string, marker: string, n: nat)
    requires mk.Usable() && marker != [] && n <= |Split(text, '\n')|
    ensures forall i | 0 <= i < |Places(mk.look, Split(text, '\n'), marker, n)| ::
              Places(mk.look, Split(text, '\n'), marker, n)[i] + |marker| <= |text|
  {
    var lines := Split(text, '\n');
    if n > 0 {
      PlacesFit(mk, text, marker, n - 1);
      OffsetFits(text, n - 1);
      assert Marked(Scan(mk.look, lines), marker)[n - 1] == MarkerAt(Scan(mk.look, lines), n - 1, marker);
      assert Positions(lines)[n - 1] == Place(lines, n - 1);
      assert TextIsTrimmed(mk.look, lines[n - 1]);
      LeadFits(lines[n - 1]);
      var before, now := Places(mk.look, lines, marker, n - 1), Places(mk.look, lines, marker, n);
      assert forall i | 0 <= i < |before| :: now[i] == before[i];
    }
  }

  lemma {:induction false} OffsetFits(text: string, k: nat)
    requires k < |Split(text, '\n')|
    ensures Offset(Split(text, '\n'), k) + |Split(text, '\n')[k]| <= |text|
    ensures k == |Split(text, '\n')| - 1 ==> Offset(Split(text, '\n'), k) + |Split(text, '\n')[k]| == |text|
  {
    var lines := Split(text, '\n');
    if text != [] {
      var rest := Split(text[1..], '\n');
      if text[0] == '\n' {
        if k > 0 {
          OffsetFits(text[1..], k - 1);
          OffsetCons([], rest, k - 1);
        }
      } else {
        OffsetFits(text[1..], k);
        OffsetPush(text[0], rest, k);
      }
    }
  }

  lemma {:induction false} OffsetCons(first: string, rest: seq<string>, k: nat)
    requires k <= |rest|
    ensures Offset([first] + rest, k + 1) == |first| + 1 + Offset(rest, k)
  {
    if k > 0 {
      OffsetCons(first, rest, k - 1);
    }
  }

  lemma {:induction false} OffsetPush(c: char, rest: seq<string>, k: nat)
    requires k < |rest| && c != '\n'
    ensures Offset(Push(c, rest, '\n'), k) == Offset(rest, k) + if k == 0 then 0 else 1
  {
    if k > 0 {
      OffsetPush(c, rest, k - 1);
    }
  }

  /** The text around the one block; unpaired or repeated markers are refused. */
  function CutAt(mk: Markers, text: string, starts: seq<nat>, ends: seq<nat>): Outcome<Parts>
    requires forall i | 0 <= i < |ends| :: ends[i] + |mk.end| <= |text|
  {
    if starts == [] && ends == [] then Ok(Parts(text, None, []))
    else if starts == [] || ends == [] || ends[0] < starts[0] then Failed(ReceiptMarkers)
    else if |starts| > 1 || |ends| > 1 then Failed(ReceiptMarkers)
    else Ok(Parts(text[..starts[0]], Some(text[starts[0]..ends[0] + |mk.end|]), text[ends[0] + |mk.end|..]))
  }

  function PartsOf(mk: Markers, text: string): Outcome<Parts>
    requires mk.Usable()
  {
    var lines := Split(text, '\n');
    PlacesFit(mk, text, mk.end, |lines|);
    CutAt(mk, text, Places(mk.look, lines, mk.start, |lines|), Places(mk.look, lines, mk.end, |lines|))
  }

  lemma NotedAt(look: string -> Line, lines: seq<string>, i: nat, m: string)
    requires i < |lines|
    ensures Marked(Scan(look, lines), m)[i] == (!Fenced(Scan(look, lines), i) && look(lines[i]).text == m)
    ensures Positions(lines)[i] == Offset(lines, i) + Lead(lines[i])
  {
  }

  method Note(ghost noted: seq<bool>, ghost positions: seq<nat>, i: nat, hit: bool, place: nat, places: seq<nat>)
    returns (next: seq<nat>)
    requires i < |noted| == |positions| && noted[i] == hit && positions[i] == place
    requires places == Where(noted, positions, i)
    ensures next == Where(noted, positions, i + 1)
  {
    next := if hit then places + [place] else places;
  }

  /** One pass over the lines, noting where each marker stands. */
  method FindMarkers(look: string -> Line, lines: seq<string>, first: string, last: string)
    returns (starts: seq<nat>, ends: seq<nat>)
    ensures starts == Places(look, lines, first, |lines|)
    ensures ends == Places(look, lines, last, |lines|)
  {
    var fenced := FencedLines(look, lines);
    ghost var positions := Positions(lines);
    ghost var firsts, lasts := Marked(Scan(look, lines), first), Marked(Scan(look, lines), last);
    starts, ends := [], [];
    var offset := 0;
    for i := 0 to |lines|
      invariant offset == Offset(lines, i)
      invariant starts == Where(firsts, positions, i)
      invariant ends == Where(lasts, positions, i)
    {
      NotedAt(look, lines, i, first);
      NotedAt(look, lines, i, last);
      var line, lead := look(lines[i]), Lead(lines[i]);
      starts := Note(firsts, positions, i, i !in fenced && line.text == first, offset + lead, starts);
      ends := Note(lasts, positions, i, i !in fenced && line.text == last, offset + lead, ends);
      offset := offset + |lines[i]| + 1;
    }
  }

  method SplitBody(mk: Markers, body: string) returns (r: Outcome<Parts>)
    requires mk.Usable()
    ensures r == PartsOf(mk, Lf(body))
  {
    var text := Lf(body);
    var lines := Split(text, '\n');
    var starts, ends := FindMarkers(mk.look, lines, mk.start, mk.end);
    PlacesFit(mk, text, mk.end, |lines|);
    r := CutAt(mk, text, starts, ends);
  }

  // ---- the reviewed body and the receipt ----

  function Combine(before: string, after: string): string {
    if before != [] && after != [] then before + "\n\n" + after else if before != [] then before else after
  }

  function Reviewed(p: Parts): string {
    Combine(TrimEnd(p.before), Trim(p.after))
  }

  function ReviewedBody(mk: Markers, body: string): Outcome<string>
    requires mk.Usable()
  {
    match PartsOf(mk, Lf(body))
    case Failed(e) => Failed(e)
    case Ok(p) => Ok(Reviewed(p))
  }

  predicate OccursAt(s: string, t: string, i: int) {
    0 <= i <= |s| - |t| && s[i..i + |t|] == t
  }

  predicate Contains(s: string, t: string) {
    exists i | 0 <= i <= |s| :: OccursAt(s, t, i)
  }

  /** Reading the receipt's fields, and the digest of a text. */
  datatype Reader = Reader(proper: string -> bool, recorded: string -> string, digest: string -> string)

  ghost predicate Injective(f: string -> string) {
    forall x, y | f(x) == f(y) :: x == y
  }

  function Block(mk: Markers, r: string): string {
    mk.start + "\n" + r + "\n" + mk.end
  }

  function Inserted(mk: Markers, p: Parts, r: string): string {
    if p.block.None? then TrimEnd(p.before) + (if Trim(p.before) != [] then "\n\n" else []) + Block(mk, r) + "\n"
    else p.before + Block(mk, r) + p.after
  }

  /** The receipt as it is inserted. */
  function Receipt(receipt: string): string {
    Trim(Lf(receipt))
  }

  function UpsertWith(mk: Markers, reader: Reader, body: string, receipt: string): Outcome<string>
    requires mk.Usable()
  {
    var r := Receipt(receipt);
    if Contains(r, mk.start) || Contains(r, mk.end) then Failed(ReceiptInvalid)
    else if Split(r, '\n')[0] != HEADING then Failed(ReceiptInvalid)
    else if !reader.proper(r) then Failed(ReceiptInvalid)
    else
      var reviewed := ReviewedBody(mk, body);
      if reviewed.Failed? then Failed(reviewed.error)
      else if reader.recorded(r) != reader.digest(reviewed.value) then Failed(HashMismatch)
      else
        var next := Inserted(mk, PartsOf(mk, Lf(body)).value, r);
        var again := ReviewedBody(mk, next);
        if again.Failed? then Failed(again.error)
        else if reader.digest(again.value) != reader.digest(reviewed.value) then Failed(Internal)
        else Ok(next)
  }

  function Upsert(reader: Reader, body: string, receipt: string): Outcome<string> {
    UpsertWith(DocsShip(), reader, body, receipt)
  }
}
