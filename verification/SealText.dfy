/** The review-record section as text, and reading the seal back out of it. */
module SealText {
  import opened Common
  import opened Text
  import opened Fences
  import opened LineEndings
  import opened PlanParts
  import opened PlanSeal

  const RECORD_HEADING := "## Review record"
  const REPORT_HEADING := "## GSTACK REVIEW REPORT"
  const PROSE_A := "The full review record (reviewer outputs, "
  const PROSE_B := "consensus tables, decision audit trail "
  const PROSE_C := "and prompt sizes) is in the sidecar below. "
  const PROSE_D := "Implementation needs only this plan."
  const SIDECAR := "- Sidecar: `"
  const SHA := "- SHA-256: `"
  const BYTES := "- Bytes: "

  datatype Seal = Seal(path: Option<string>, hash: Option<string>, bytes: Option<nat>)

  // ---- a line of a plan ----

  function Upper(c: char): char {
    if 'a' <= c <= 'z' then ((c as int) - 32) as char else c
  }

  /** The heading, in any case, and nothing but white space after it. */
  predicate Heads(text: string, heading: string) {
    && |text| >= |heading| && (forall i | 0 <= i < |heading| :: Upper(text[i]) == Upper(heading[i]))
    && Blank(text[|heading|..])
  }

  /** Two hashes, white space, and some text. */
  predicate IsH2(text: string) {
    |text| > 2 && text[0] == '#' && text[1] == '#' && IsSpace(text[2]) && !Blank(text[2..])
  }

  function PlanLook(raw: string): PlanLine {
    var line := DropCr(raw);
    Scanned(PlanMark(line), Kind(Heads(line, RECORD_HEADING), Heads(line, REPORT_HEADING), IsH2(line)))
  }

  lemma HeadingIsH2(text: string, heading: string)
    requires |heading| > 3 && heading[..3] == "## " && 'A' <= heading[3] <= 'Z' && Heads(text, heading)
    ensures IsH2(text) && Upper(text[3]) == heading[3]
  {
    assert heading[0] == heading[..3][0] == '#' && heading[1] == heading[..3][1] == '#'
            && heading[2] == heading[..3][2] == ' ';
    assert Upper(text[0]) == Upper(heading[0]) && Upper(text[1]) == Upper(heading[1])
            && Upper(text[2]) == Upper(heading[2]);
    assert Upper(text[3]) == Upper(heading[3]);
    assert text[2..][1] == text[3] && !IsSpace(text[3]);
  }

  lemma HeadingFacts()
    ensures |RECORD_HEADING| > 3 && RECORD_HEADING[..3] == "## " && RECORD_HEADING[3] == 'R'
    ensures |REPORT_HEADING| > 3 && REPORT_HEADING[..3] == "## " && REPORT_HEADING[3] == 'G'
  {
    assert RECORD_HEADING[3] == 'R' && REPORT_HEADING[3] == 'G';
  }

  /** The reading of plan lines is sound: both headings are level-two headings, and no line is both. */
  lemma PlanLookSound()
    ensures Sound(PlanLook)
  {
    HeadingFacts();
    forall raw ensures SoundKind(PlanLook, raw) {
      var line := DropCr(raw);
      if Heads(line, RECORD_HEADING) {
        HeadingIsH2(line, RECORD_HEADING);
      }
      if Heads(line, REPORT_HEADING) {
        HeadingIsH2(line, REPORT_HEADING);
      }
    }
  }

  /** A line that starts with an ordinary character is no heading and no fence. */
  lemma OrdinaryLine(line: string)
    requires line != [] && !IsSpace(line[0]) && line[0] != '#' && line[0] != '`' && line[0] != '~'
    ensures PlanLook(line) == QUIET
  {
    assert IsSpace('\r');
    var x := DropCr(line);
    assert x != [] && x[0] == line[0];
    HeadingFacts();
    assert RECORD_HEADING[0] == RECORD_HEADING[..3][0] == '#' && REPORT_HEADING[0] == REPORT_HEADING[..3][0] == '#';
    assert Upper(x[0]) != '#';
  }

  lemma EmptyLine()
    ensures PlanLook([]) == QUIET
  {
  }

  lemma SelfHeads(h: string)
    ensures Heads(h, h)
  {
    assert h[|h|..] == [];
  }

  lemma HashMark(line: string)
    requires line != [] && line[0] == '#'
    ensures PlanMark(line) == None
  {
    assert !IsSpace('#');
  }

  lemma OtherHeading(line: string, other: string)
    requires |line| > 3 && |other| > 3 && Upper(line[3]) != Upper(other[3])
    ensures !Heads(line, other)
  {
  }

  lemma NotCr(line: string)
    requires line != [] && line[|line| - 1] != '\r'
    ensures DropCr(line) == line
  {
  }

  lemma HeadingLook(line: string, other: string)
    requires RECORD_HEADING == line && REPORT_HEADING == other
    requires |line| > 3 && line[..3] == "## " && line[3] == 'R' && line[|line| - 1] != '\r'
    requires |other| > 3 && other[3] == 'G'
    ensures PlanLook(line) == HEADING
  {
    assert line[0] == line[..3][0] == '#';
    NotCr(line);
    SelfHeads(line);
    HeadingIsH2(line, line);
    HashMark(line);
    OtherHeading(line, other);
  }

  lemma HeadingLine()
    ensures PlanLook(RECORD_HEADING) == HEADING
  {
    assert RECORD_HEADING[|RECORD_HEADING| - 1] == 'd';
    HeadingFacts();
    HeadingLook(RECORD_HEADING, REPORT_HEADING);
  }

  // ---- numbers ----

  predicate IsDigit(c: char) {
    '0' <= c <= '9'
  }

  function Decimal(n: nat): (s: string)
    ensures s != [] && forall i | 0 <= i < |s| :: IsDigit(s[i])
  {
    var d := [('0' as int + n % 10) as char];
    if n < 10 then d else Decimal(n / 10) + d
  }

  function Number(s: string): nat
    requires forall i | 0 <= i < |s| :: IsDigit(s[i])
  {
    if s == [] then 0
    else
      assert IsDigit(s[|s| - 1]);
      10 * Number(s[..|s| - 1]) + (s[|s| - 1] as int - '0' as int)
  }

  lemma {:induction false} NumberOfDecimal(n: nat)
    ensures Number(Decimal(n)) == n
  {
    var s := Decimal(n);
    if n < 10 {
      assert s[..0] == [];
    } else {
      NumberOfDecimal(n / 10);
      assert s[..|s| - 1] == Decimal(n / 10);
    }
  }

  function DigitRun(t: string): (n: nat)
    ensures n <= |t| && (forall i | 0 <= i < n :: IsDigit(t[i])) && (n < |t| ==> !IsDigit(t[n]))
  {
    if t != [] && IsDigit(t[0]) then 1 + DigitRun(t[1..]) else 0
  }

  // ---- reading the seal ----

  predicate IsTerminator(c: char) {
    c == '\n' || c == '\r' || c == '\U{2028}' || c == '\U{2029}'
  }

  predicate IsHex(c: char) {
    IsDigit(c) || 'a' <= c <= 'f'
  }

  predicate IsHash(h: string) {
    |h| == 64 && forall i | 0 <= i < 64 :: IsHex(h[i])
  }

  /** Only white space up to the end of a line. */
  predicate BlankToEnd(t: string) {
    t == [] || IsTerminator(t[0]) || (IsSpace(t[0]) && BlankToEnd(t[1..]))
  }

  function UntilTick(t: string): (n: nat)
    ensures n <= |t| && '`' !in t[..n] && (n < |t| ==> t[n] == '`')
  {
    if t == [] || t[0] == '`' then 0
    else
      var n := UntilTick(t[1..]);
      assert t[..n + 1] == [t[0]] + t[1..][..n];
      n + 1
  }

  function SidecarAt(t: string): Option<string> {
    if !(SIDECAR <= t) then None
    else
      var rest := t[|SIDECAR|..];
      var k := UntilTick(rest);
      if 0 < k < |rest| && BlankToEnd(rest[k + 1..]) then Some(rest[..k]) else None
  }

  function HashAt(t: string): Option<string> {
    if !(SHA <= t) then None
    else
      var rest := t[|SHA|..];
      if |rest| > 64 && IsHash(rest[..64]) && rest[64] == '`' && BlankToEnd(rest[65..]) then Some(rest[..64]) else None
  }

  function BytesAt(t: string): Option<nat> {
    if !(BYTES <= t) then None
    else
      var rest := t[|BYTES|..];
      var d := DigitRun(rest);
      if d > 0 && BlankToEnd(rest[d..]) then Some(Number(rest[..d])) else None
  }

  /** The first match at the start of a line; a line starts after any line terminator, a lone CR among them. */
  function FirstMatch<T>(at: string -> Option<T>, t: string, starts: bool): Option<T>
    decreases |t|
  {
    if starts && at(t).Some? then at(t)
    else if t == [] then None
    else FirstMatch(at, t[1..], IsTerminator(t[0]))
  }

  function ReadSeal(record: Option<string>): Seal {
    match record
    case None => Seal(None, None, None)
    case Some(t) => Seal(FirstMatch(SidecarAt, t, true), FirstMatch(HashAt, t, true), FirstMatch(BytesAt, t, true))
  }

  // ---- the section ----

  function Prose(): string {
    PROSE_A + PROSE_B + PROSE_C + PROSE_D
  }

  function SectionLines(path: string, hash: string, bytes: nat): seq<string> {
    [RECORD_HEADING, [], Prose(), [], SIDECAR + path + "`", SHA + hash + "`", BYTES + Decimal(bytes)]
  }

  function RecordSection(path: string, hash: string, bytes: nat): string {
    Join(SectionLines(path, hash, bytes) + [[]], '\n')
  }
}
