/** The exclusion globs of the merge gate: the compiler to regular-expression text, and what that text accepts. */
module Glob {
  import opened Common
  import opened Text

  datatype Result<T> = Ok(value: T) | Usage(pattern: string)

  // ---- paths ----

  predicate SlashFree(s: string) {
    '/' !in s
  }

  predicate Segments(segs: seq<string>) {
    |segs| > 0 && forall s | s in segs :: SlashFree(s)
  }

  /** No segment is empty, as in the paths git lists. */
  predicate Proper(segs: seq<string>) {
    Segments(segs) && forall s | s in segs :: s != []
  }

  // ---- what a glob means ----

  /** `*` stands for any run of characters of the segment, every other character for itself. */
  ghost predicate SegmentMatches(pat: string, seg: string) {
    if pat == [] then seg == []
    else if pat[0] == '*' then exists k | 0 <= k <= |seg| :: SegmentMatches(pat[1..], seg[k..])
    else seg != [] && seg[0] == pat[0] && SegmentMatches(pat[1..], seg[1..])
  }

  /** `**` stands for zero or more segments, or for one or more when it is last. */
  ghost predicate PathMatches(pats: seq<string>, segs: seq<string>) {
    if pats == [] then segs == []
    else if pats[0] == "**" then
      if |pats| == 1 then |segs| > 0
      else exists k | 0 <= k <= |segs| :: PathMatches(pats[1..], segs[k..])
    else segs != [] && SegmentMatches(pats[0], segs[0]) && PathMatches(pats[1..], segs[1..])
  }

  ghost predicate SkipsTo(segs: seq<string>, k: nat) {
    k < |segs| && forall i | 0 <= i < k :: segs[i] != []
  }

  /** As the code has it: a `**` that is not last skips nonempty segments only, and a last one needs a nonempty rest. */
  ghost predicate ExactMatches(pats: seq<string>, segs: seq<string>) {
    if pats == [] then segs == []
    else if pats[0] == "**" then
      if |pats| == 1 then Join(segs, '/') != []
      else exists k: nat :: SkipsTo(segs, k) && ExactMatches(pats[1..], segs[k..])
    else segs != [] && SegmentMatches(pats[0], segs[0]) && ExactMatches(pats[1..], segs[1..])
  }

  // ---- regular expressions ----

  datatype Regex = Lit(c: char) | NotSlash | AnyChar | Cat(a: Regex, b: Regex) | Star(r: Regex)

  function Plus(r: Regex): Regex {
    Cat(r, Star(r))
  }

  ghost predicate Matches(r: Regex, s: string)
    decreases r, |s|
  {
    match r
    case Lit(c) => s == [c]
    case NotSlash => |s| == 1 && s[0] != '/'
    case AnyChar => |s| == 1
    case Cat(a, b) => exists k | 0 <= k <= |s| :: Matches(a, s[..k]) && Matches(b, s[k..])
    case Star(q) => s == [] || exists k | 0 < k <= |s| :: Matches(q, s[..k]) && Matches(r, s[k..])
  }

  /** The atoms one after another, from end to end of the text. */
  ghost predicate AllMatch(atoms: seq<Regex>, s: string)
    decreases |atoms|, 1
  {
    if atoms == [] then s == [] else exists k: nat :: FirstTakes(atoms, s, k)
  }

  /** The first atom takes `k` characters and the others take the rest. */
  ghost predicate FirstTakes(atoms: seq<Regex>, s: string, k: nat)
    requires atoms != []
    decreases |atoms|, 0
  {
    k <= |s| && Matches(atoms[0], s[..k]) && AllMatch(atoms[1..], s[k..])
  }

  const IN_SEGMENT := "[^/]*"
  const DIRECTORIES := "(?:[^/]+/)*"
  const EVERYTHING := "[\\s\\S]+"

  function InSegment(): Regex { Star(NotSlash) }
  function Directories(): Regex { Star(Cat(Plus(NotSlash), Lit('/'))) }
  function Everything(): Regex { Plus(AnyChar) }

  /** The characters that are not literals in a regular expression. */
  predicate IsSyntax(c: char) {
    c in {'^', '$', '\\', '.', '*', '+', '?', '(', ')', '[', ']', '{', '}', '|'}
  }

  datatype Token = Token(atom: Regex, length: nat)

  predicate StartsInSegment(t: string) {
    |t| >= 5 && t[0] == '[' && t[1] == '^' && t[2] == '/' && t[3] == ']' && t[4] == '*'
  }

  predicate StartsEverything(t: string) {
    && |t| >= 7 && t[0] == '[' && t[1] == '\\' && t[2] == 's' && t[3] == '\\' && t[4] == 'S' && t[5] == ']'
    && t[6] == '+'
  }

  predicate StartsDirectories(t: string) {
    && |t| >= 11 && t[0] == '(' && t[1] == '?' && t[2] == ':' && t[3] == '[' && t[4] == '^' && t[5] == '/'
    && t[6] == ']' && t[7] == '+' && t[8] == '/' && t[9] == ')' && t[10] == '*'
  }

  /** The first token of regular-expression text; constructs the globs never need are None. */
  function First(t: string): (r: Option<Token>)
    requires t != []
    ensures r.Some? ==> 0 < r.value.length <= |t|
  {
    if t[0] == '[' then
      if StartsInSegment(t) then Some(Token(InSegment(), 5))
      else if StartsEverything(t) then Some(Token(Everything(), 7))
      else None
    else if t[0] == '(' then
      if StartsDirectories(t) then Some(Token(Directories(), 11)) else None
    else if t[0] == '\\' then
      if |t| > 1 && IsSyntax(t[1]) then Some(Token(Lit(t[1]), 2)) else None
    else if IsSyntax(t[0]) then None
    else Some(Token(Lit(t[0]), 1))
  }

  /** Regular-expression text, read token by token. */
  function Read(t: string): Option<seq<Regex>> {
    if t == [] then Some([])
    else match First(t)
      case None => None
      case Some(token) => Before(token.atom, Read(t[token.length..]))
  }

  function Before(r: Regex, rest: Option<seq<Regex>>): Option<seq<Regex>> {
    if rest.Some? then Some([r] + rest.value) else None
  }

  /** `^…$`: the whole text has to match. */
  ghost predicate Accepts(re: string, file: string) {
    && |re| >= 2 && re[0] == '^' && re[|re| - 1] == '$'
    && Read(re[1..|re| - 1]).Some?
    && AllMatch(Read(re[1..|re| - 1]).value, file)
  }

  /** Readable text keeps its meaning when more text follows it. */
  lemma {:induction false} ReadAppend(a: string, b: string)
    requires Read(a).Some? && Read(b).Some?
    ensures Read(a + b) == Some(Read(a).value + Read(b).value)
  {
    if a == [] {
      assert a + b == b;
      assert Read(a).value + Read(b).value == Read(b).value;
    } else {
      FirstAppend(a, b);
      var token := First(a).value;
      var rest := a[token.length..];
      ReadStep(a, rest);
      ReadAppend(rest, b);
      DropAppend(a, b, token.length);
      ReadStep(a + b, rest + b);
      BeforeAll(token.atom, Read(rest).value, Read(b).value);
    }
  }

  lemma DropAppend(a: string, b: string, n: nat)
    requires n <= |a|
    ensures (a + b)[n..] == a[n..] + b
  {
  }

  lemma ReadStep(t: string, rest: string)
    requires t != [] && First(t).Some? && rest == t[First(t).value.length..]
    ensures Read(t) == Before(First(t).value.atom, Read(rest))
  {
  }

  lemma BeforeAll(atom: Regex, x: seq<Regex>, y: seq<Regex>)
    ensures Before(atom, Some(x + y)) == Some(Before(atom, Some(x)).value + y)
  {
    assert [atom] + (x + y) == ([atom] + x) + y;
  }

  lemma FirstAppend(a: string, b: string)
    requires a != [] && First(a).Some?
    ensures First(a + b) == First(a)
  {
    assert forall i | 0 <= i < |a| :: (a + b)[i] == a[i];
  }

  // ---- the compiler ----

  predicate IsBracket(c: char) {
    c == '[' || c == ']' || c == '{' || c == '}'
  }

  /** Brackets and braces are refused before anything is compiled. */
  predicate Plain(pattern: string) {
    forall c | c in pattern :: !IsBracket(c)
  }

  function SegmentAtoms(seg: string): seq<Regex> {
    if seg == [] then [] else [if seg[0] == '*' then InSegment() else Lit(seg[0])] + SegmentAtoms(seg[1..])
  }

  function Piece(segs: seq<string>, i: nat): seq<Regex>
    requires i < |segs|
  {
    if segs[i] == "**" then [if i == |segs| - 1 then Everything() else Directories()]
    else SegmentAtoms(segs[i]) + (if i == |segs| - 1 then [] else [Lit('/')])
  }

  function AtomsFrom(segs: seq<string>, i: nat): seq<Regex>
    requires i <= |segs|
    decreases |segs| - i
  {
    if i == |segs| then [] else Piece(segs, i) + AtomsFrom(segs, i + 1)
  }

  function EscapeChar(c: char): string {
    if c in {'\\', '^', '$', '.', '|', '+', '?', '(', ')', '[', ']'} then ['\\', c] else [c]
  }

  method SegmentRegex(seg: string) returns (out: string)
    requires Plain(seg)
    ensures Read(out) == Some(SegmentAtoms(seg))
  {
    out := "";
    for i := 0 to |seg|
      invariant Reads(out, SegmentAtoms(seg[i..]), SegmentAtoms(seg))
    {
      assert seg[i] in seg;
      assert seg[i..][0] == seg[i] && seg[i..][1..] == seg[i + 1..];
      OneAtom(seg[i]);
      var piece := if seg[i] == '*' then IN_SEGMENT else EscapeChar(seg[i]);
      ReadsMore(out, piece, SegmentAtoms(seg[i + 1..]), SegmentAtoms(seg));
      out := out + piece;
    }
    assert Read(out).value + SegmentAtoms(seg[|seg|..]) == Read(out).value;
  }

  /** What `out` reads as, followed by the atoms still to come, is the whole. */
  ghost predicate Reads(out: string, rest: seq<Regex>, whole: seq<Regex>) {
    Read(out).Some? && Read(out).value + rest == whole
  }

  lemma ReadsMore(out: string, piece: string, rest: seq<Regex>, whole: seq<Regex>)
    requires Read(piece).Some?
    requires Reads(out, Read(piece).value + rest, whole)
    ensures Reads(out + piece, rest, whole)
  {
    ReadAppend(out, piece);
    var x, y := Read(out).value, Read(piece).value;
    Associate(x, y, rest);
  }

  lemma Associate(x: seq<Regex>, y: seq<Regex>, z: seq<Regex>)
    ensures x + (y + z) == (x + y) + z
  {
  }

  lemma OneToken(t: string)
    requires t != [] && First(t).Some? && First(t).value.length == |t|
    ensures Read(t) == Some([First(t).value.atom])
  {
    assert t[|t|..] == [];
    assert [First(t).value.atom] + [] == [First(t).value.atom];
  }

  lemma OneAtom(c: char)
    requires !IsBracket(c)
    ensures Read(if c == '*' then IN_SEGMENT else EscapeChar(c)) == Some([if c == '*' then InSegment() else Lit(c)])
  {
    if c == '*' {
      assert IN_SEGMENT[0] == '[';
      OneToken(IN_SEGMENT);
    } else {
      var t := EscapeChar(c);
      assert First(t) == Some(Token(Lit(c), |t|));
      OneToken(t);
    }
  }

  method CompileGlob(pattern: string) returns (re: string)
    requires Plain(pattern)
    ensures |re| >= 2 && re[0] == '^' && re[|re| - 1] == '$'
    ensures Read(re[1..|re| - 1]) == Some(AtomsFrom(Split(pattern, '/'), 0))
  {
    var segments := Split(pattern, '/');
    SplitPlain(pattern);
    re := "^";
    for i := 0 to |segments|
      invariant ReadsFrom(re, segments, i)
    {
      var piece := PieceRegex(segments, i);
      PieceReads(re, piece, segments, i);
      re := re + piece;
    }
    AllRead(re, segments);
    re := re + "$";
  }

  /** The expression so far, and the atoms of the segments still to come. */
  ghost predicate ReadsFrom(re: string, segments: seq<string>, i: nat)
    requires i <= |segments|
  {
    |re| >= 1 && re[0] == '^' && Reads(re[1..], AtomsFrom(segments, i), AtomsFrom(segments, 0))
  }

  lemma PieceReads(re: string, piece: string, segments: seq<string>, i: nat)
    requires i < |segments| && ReadsFrom(re, segments, i) && Read(piece) == Some(Piece(segments, i))
    ensures ReadsFrom(re + piece, segments, i + 1)
  {
    FromHere(segments, i);
    ReadsMore(re[1..], piece, AtomsFrom(segments, i + 1), AtomsFrom(segments, 0));
    TailOf(re, piece);
  }

  lemma FromHere(segments: seq<string>, i: nat)
    requires i < |segments|
    ensures AtomsFrom(segments, i) == Piece(segments, i) + AtomsFrom(segments, i + 1)
  {
  }

  lemma TailOf(re: string, piece: string)
    requires re != []
    ensures re + piece != [] && (re + piece)[0] == re[0] && (re + piece)[1..] == re[1..] + piece
  {
  }

  lemma AllRead(re: string, segments: seq<string>)
    requires ReadsFrom(re, segments, |segments|)
    ensures Read((re + "$")[1..|re|]) == Some(AtomsFrom(segments, 0))
  {
    assert (re + "$")[1..|re|] == re[1..];
    assert Read(re[1..]).value + AtomsFrom(segments, |segments|) == Read(re[1..]).value;
  }

  /** What one segment adds to the expression. */
  method PieceRegex(segments: seq<string>, i: nat) returns (piece: string)
    requires i < |segments| && Plain(segments[i])
    ensures Read(piece) == Some(Piece(segments, i))
  {
    var last := i == |segments| - 1;
    if segments[i] == "**" {
      WildReads();
      return if last then EVERYTHING else DIRECTORIES;
    }
    piece := SegmentRegex(segments[i]);
    if !last {
      SlashReads(piece);
      piece := piece + "/";
    } else {
      assert Read(piece).value + [] == Read(piece).value;
    }
  }

  lemma WildReads()
    ensures Read(EVERYTHING) == Some([Everything()])
    ensures Read(DIRECTORIES) == Some([Directories()])
  {
    assert EVERYTHING[0] == '[' && EVERYTHING[2] == 's' && IN_SEGMENT[2] == '/';
    OneToken(EVERYTHING);
    assert DIRECTORIES[0] == '(';
    OneToken(DIRECTORIES);
  }

  lemma SlashReads(out: string)
    requires Read(out).Some?
    ensures Read(out + "/") == Some(Read(out).value + [Lit('/')])
  {
    OneToken("/");
    ReadAppend(out, "/");
  }

  lemma {:induction false} SplitPlain(s: string)
    requires Plain(s)
    ensures forall i | 0 <= i < |Split(s, '/')| :: Plain(Split(s, '/')[i])
  {
    if s != [] {
      assert Plain(s[1..]);
      SplitPlain(s[1..]);
      assert s[0] in s;
    }
  }

  // ---- what the compiled atoms accept ----

  lemma {:induction false} InSegmentMeans(s: string)
    ensures Matches(InSegment(), s) <==> SlashFree(s)
    decreases |s|
  {
    if s != [] {
      forall k | 0 < k <= |s| { InSegmentMeans(s[k..]); }
      if SlashFree(s) {
        assert Matches(NotSlash, s[..1]) && Matches(InSegment(), s[1..]);
      }
    }
  }

  /** One segment's atoms, then `rest`: a slash-free start the segment pattern matches, then `rest`. */
  ghost predicate SegmentThen(seg: string, rest: seq<Regex>, s: string, k: nat) {
    k <= |s| && SlashFree(s[..k]) && SegmentMatches(seg, s[..k]) && AllMatch(rest, s[k..])
  }

  lemma Uncons(atom: Regex, rest: seq<Regex>, s: string) returns (k: nat)
    requires AllMatch([atom] + rest, s)
    ensures k <= |s| && Matches(atom, s[..k]) && AllMatch(rest, s[k..])
  {
    var atoms := [atom] + rest;
    assert atoms[1..] == rest;
    k :| FirstTakes(atoms, s, k);
  }

  lemma {:induction false} SegmentForward(seg: string, rest: seq<Regex>, s: string) returns (k: nat)
    requires AllMatch(SegmentAtoms(seg) + rest, s) && SlashFree(seg)
    ensures SegmentThen(seg, rest, s, k)
  {
    if seg == [] {
      k := 0;
      assert SegmentAtoms(seg) + rest == rest && s[0..] == s;
    } else {
      var tail := SegmentAtoms(seg[1..]) + rest;
      assert SegmentAtoms(seg) + rest == [SegmentAtoms(seg)[0]] + tail;
      var j := Uncons(SegmentAtoms(seg)[0], tail, s);
      var n := SegmentForward(seg[1..], rest, s[j..]);
      k := j + n;
      LongerSegment(seg, rest, s, j, n);
    }
  }

  /** What the first character of the pattern takes, put in front of what the others take. */
  lemma LongerSegment(seg: string, rest: seq<Regex>, s: string, j: nat, n: nat)
    requires seg != [] && SlashFree(seg) && j <= |s| && Matches(SegmentAtoms(seg)[0], s[..j])
    requires SegmentThen(seg[1..], rest, s[j..], n)
    ensures SegmentThen(seg, rest, s, j + n)
  {
    var k := j + n;
    var t, u := s[..j], s[j..][..n];
    FrontOfSegment(seg, t, u);
    assert s[..k] == t + u;
    assert s[k..] == s[j..][n..];
  }

  lemma FrontOfSegment(seg: string, t: string, u: string)
    requires seg != [] && SlashFree(seg) && Matches(SegmentAtoms(seg)[0], t)
    requires SegmentMatches(seg[1..], u) && SlashFree(u)
    ensures SegmentMatches(seg, t + u) && SlashFree(t + u)
  {
    InSegmentMeans(t);
    assert (t + u)[|t|..] == u;
  }

  lemma Cons(atom: Regex, rest: seq<Regex>, s: string, j: nat)
    requires j <= |s| && Matches(atom, s[..j]) && AllMatch(rest, s[j..])
    ensures AllMatch([atom] + rest, s)
  {
    assert ([atom] + rest)[1..] == rest;
    assert FirstTakes([atom] + rest, s, j);
  }

  lemma {:induction false} SegmentBackward(seg: string, t: string, rest: seq<Regex>, u: string)
    requires SlashFree(t) && SegmentMatches(seg, t) && AllMatch(rest, u)
    ensures AllMatch(SegmentAtoms(seg) + rest, t + u)
    decreases |seg|
  {
    if seg == [] {
      assert SegmentAtoms(seg) + rest == rest && t + u == u;
    } else {
      var j, atom := StartOfSegment(seg, t);
      SegmentBackward(seg[1..], t[j..], rest, u);
      Prepend(atom, SegmentAtoms(seg[1..]) + rest, t[..j], t[j..] + u);
      FirstAtom(seg, rest);
      Rejoin(t, j, u);
    }
  }

  lemma FirstAtom(seg: string, rest: seq<Regex>)
    requires seg != []
    ensures [SegmentAtoms(seg)[0]] + (SegmentAtoms(seg[1..]) + rest) == SegmentAtoms(seg) + rest
  {
  }

  lemma Rejoin(t: string, j: nat, u: string)
    requires j <= |t|
    ensures t[..j] + (t[j..] + u) == t + u
  {
  }

  lemma Prepend(atom: Regex, rest: seq<Regex>, t: string, u: string)
    requires Matches(atom, t) && AllMatch(rest, u)
    ensures AllMatch([atom] + rest, t + u)
  {
    assert (t + u)[..|t|] == t && (t + u)[|t|..] == u;
    Cons(atom, rest, t + u, |t|);
  }

  /** The part of a matched segment that the first character of its pattern takes. */
  lemma StartOfSegment(seg: string, t: string) returns (j: nat, atom: Regex)
    requires seg != [] && SlashFree(t) && SegmentMatches(seg, t)
    ensures atom == SegmentAtoms(seg)[0]
    ensures j <= |t| && Matches(atom, t[..j]) && SlashFree(t[j..]) && SegmentMatches(seg[1..], t[j..])
  {
    atom := SegmentAtoms(seg)[0];
    if seg[0] == '*' {
      j :| 0 <= j <= |t| && SegmentMatches(seg[1..], t[j..]);
      InSegmentMeans(t[..j]);
    } else {
      j := 1;
      assert t[..1] == [seg[0]];
    }
  }

  lemma LiteralThen(c: char, rest: seq<Regex>, s: string)
    ensures AllMatch([Lit(c)] + rest, s) <==> s != [] && s[0] == c && AllMatch(rest, s[1..])
  {
    if AllMatch([Lit(c)] + rest, s) {
      var k := Uncons(Lit(c), rest, s);
      assert s[..k][0] == s[0];
    }
    if s != [] && s[0] == c && AllMatch(rest, s[1..]) {
      Cons(Lit(c), rest, s, 1);
    }
  }

  lemma {:induction false} EverythingMeans(s: string)
    ensures AllMatch([Everything()], s) <==> s != []
  {
    if s != [] {
      AnyStar(s[1..]);
      assert Matches(AnyChar, s[..1]) && Matches(Star(AnyChar), s[1..]);
      assert s[..|s|] == s && s[|s|..] == [];
      Cons(Everything(), [], s, |s|);
      assert [Everything()] + [] == [Everything()];
    } else {
      assert !Matches(Everything(), s) by {
        assert forall j | 0 <= j <= |s| :: !Matches(AnyChar, s[..j]);
      }
      assert forall k | 0 <= k <= |s| :: s[..k] == s;
    }
  }

  lemma {:induction false} AnyStar(s: string)
    ensures Matches(Star(AnyChar), s)
  {
    if s != [] {
      AnyStar(s[1..]);
      assert Matches(AnyChar, s[..1]) && Matches(Star(AnyChar), s[1..]);
    }
  }

  // ---- directories ----

  function Directory(): Regex { Cat(Plus(NotSlash), Lit('/')) }

  /** One turn of `[^/]+/` takes exactly a nonempty slash-free name and its slash. */
  lemma DirectoryMeans(s: string)
    ensures Matches(Directory(), s) <==> |s| >= 2 && s[|s| - 1] == '/' && SlashFree(s[..|s| - 1])
  {
    if Matches(Directory(), s) {
      var k :| 0 <= k <= |s| && Matches(Plus(NotSlash), s[..k]) && Matches(Lit('/'), s[k..]);
      PlusMeans(s[..k]);
      assert s[k..] == ['/'] && k == |s| - 1;
    }
    if |s| >= 2 && s[|s| - 1] == '/' && SlashFree(s[..|s| - 1]) {
      PlusMeans(s[..|s| - 1]);
      assert s[|s| - 1..] == ['/'];
      assert Matches(Plus(NotSlash), s[..|s| - 1]) && Matches(Lit('/'), s[|s| - 1..]);
    }
  }

  lemma PlusMeans(s: string)
    ensures Matches(Plus(NotSlash), s) <==> s != [] && SlashFree(s)
  {
    if Matches(Plus(NotSlash), s) {
      var j :| 0 <= j <= |s| && Matches(NotSlash, s[..j]) && Matches(Star(NotSlash), s[j..]);
      InSegmentMeans(s[j..]);
      assert s == s[..j] + s[j..];
    }
    if s != [] && SlashFree(s) {
      InSegmentMeans(s[1..]);
      assert Matches(NotSlash, s[..1]) && Matches(Star(NotSlash), s[1..]);
    }
  }

  /** The star's first turn takes `k` characters, and the star then `rest` take what follows. */
  ghost predicate Turn(r: Regex, rest: seq<Regex>, s: string, k: nat) {
    0 < k <= |s| && Matches(r, s[..k]) && AllMatch([Star(r)] + rest, s[k..])
  }

  lemma StarForward(r: Regex, rest: seq<Regex>, s: string)
    requires AllMatch([Star(r)] + rest, s)
    ensures AllMatch(rest, s) || exists k :: Turn(r, rest, s, k)
  {
    var j := Uncons(Star(r), rest, s);
    if j == 0 {
      assert s[0..] == s;
    } else {
      var k := FirstTurn(r, s[..j]);
      SliceAround(s, k, j);
      Cons(Star(r), rest, s[k..], j - k);
      assert Turn(r, rest, s, k);
    }
  }

  lemma FirstTurn(r: Regex, t: string) returns (k: nat)
    requires t != [] && Matches(Star(r), t)
    ensures 0 < k <= |t| && Matches(r, t[..k]) && Matches(Star(r), t[k..])
  {
    k :| 0 < k <= |t| && Matches(r, t[..k]) && Matches(Star(r), t[k..]);
  }

  lemma SliceAround(s: string, k: nat, j: nat)
    requires k <= j <= |s|
    ensures s[..j][..k] == s[..k] && s[..j][k..] == s[k..][..j - k] && s[k..][j - k..] == s[j..]
  {
  }

  lemma StarStops(r: Regex, rest: seq<Regex>, s: string)
    requires AllMatch(rest, s)
    ensures AllMatch([Star(r)] + rest, s)
  {
    assert s[..0] == [] && s[0..] == s;
    Cons(Star(r), rest, s, 0);
  }

  lemma StarTurns(r: Regex, rest: seq<Regex>, s: string, k: nat)
    requires Turn(r, rest, s, k)
    ensures AllMatch([Star(r)] + rest, s)
  {
    var u := s[k..];
    var j := Uncons(Star(r), rest, u);
    var t := s[..k + j];
    assert t[..k] == s[..k] && t[k..] == u[..j] && s[k + j..] == u[j..];
    Cons(Star(r), rest, s, k + j);
  }

  /** A path starts with its first segment, then a slash and the other segments. */
  lemma FirstSegment(segs: seq<string>)
    requires Segments(segs)
    ensures |segs| == 1 ==> Join(segs, '/') == segs[0]
    ensures |segs| > 1 ==> Segments(segs[1..]) && Join(segs, '/') == segs[0] + "/" + Join(segs[1..], '/')
    ensures SlashFree(segs[0]) && |segs[0]| <= |Join(segs, '/')|
            && Join(segs, '/')[..|segs[0]|] == segs[0]
    ensures |segs| > 1 ==> Join(segs, '/')[|segs[0]|] == '/' && Join(segs, '/')[|segs[0]| + 1..] == Join(segs[1..], '/')
  {
    assert segs[0] in segs;
    if |segs| > 1 {
      assert forall s | s in segs[1..] :: s in segs;
    }
  }

  /** Where a slash-free start of a path is followed by a slash, it is the first segment. */
  lemma SlashAfter(segs: seq<string>, k: nat)
    requires Segments(segs)
    requires k < |Join(segs, '/')| && SlashFree(Join(segs, '/')[..k]) && Join(segs, '/')[k] == '/'
    ensures |segs| > 1 && k == |segs[0]|
  {
    FirstSegment(segs);
    var path := Join(segs, '/');
    assert forall i | 0 <= i < |segs[0]| :: path[i] == segs[0][i] && segs[0][i] != '/';
    assert forall i | 0 <= i < k :: path[i] == path[..k][i] && path[..k][i] != '/';
  }

  ghost predicate FromSome(rest: seq<Regex>, segs: seq<string>) {
    exists k: nat :: SkipsTo(segs, k) && AllMatch(rest, Join(segs[k..], '/'))
  }

  /** `(?:[^/]+/)*` skips whole nonempty segments and nothing else. */
  lemma {:induction false} SkipsSegments(rest: seq<Regex>, segs: seq<string>)
    requires Segments(segs)
    ensures AllMatch([Directories()] + rest, Join(segs, '/')) <==> FromSome(rest, segs)
    decreases |segs|
  {
    var s, atoms := Join(segs, '/'), [Directories()] + rest;
    FirstSegment(segs);
    assert segs[0..] == segs;
    if AllMatch(rest, s) {
      StarStops(Directory(), rest, s);
      assert SkipsTo(segs, 0);
    } else if AllMatch(atoms, s) {
      StarForward(Directory(), rest, s);
      var k: nat :| Turn(Directory(), rest, s, k);
      DirectoryMeans(s[..k]);
      assert s[..k][..k - 1] == s[..k - 1] && s[..k][k - 1] == s[k - 1];
      SlashAfter(segs, k - 1);
      SkipsSegments(rest, segs[1..]);
      var j: nat :| SkipsTo(segs[1..], j) && AllMatch(rest, Join(segs[1..][j..], '/'));
      assert segs[1..][j..] == segs[j + 1..];
      assert SkipsTo(segs, j + 1);
    } else if FromSome(rest, segs) {
      var k: nat :| SkipsTo(segs, k) && AllMatch(rest, Join(segs[k..], '/'));
      assert segs[k..] == segs[1..][k - 1..];
      assert SkipsTo(segs[1..], k - 1) by {
        assert forall i | 0 <= i < k - 1 :: segs[1..][i] == segs[i + 1];
      }
      SkipsSegments(rest, segs[1..]);
      TurnsOnce(rest, segs);
    }
  }

  lemma TurnsOnce(rest: seq<Regex>, segs: seq<string>)
    requires Segments(segs) && |segs| > 1 && segs[0] != []
    requires AllMatch([Directories()] + rest, Join(segs[1..], '/'))
    ensures AllMatch([Directories()] + rest, Join(segs, '/'))
  {
    FirstSegment(segs);
    var s, n := Join(segs, '/'), |segs[0]|;
    DirectoryMeans(s[..n + 1]);
    assert s[..n + 1][..n] == segs[0];
    StarTurns(Directory(), rest, s, n + 1);
  }

  // ---- the theorem ----

  lemma {:induction false} NeedsASegment(pats: seq<string>)
    requires pats != []
    ensures !ExactMatches(pats, [])
  {
    if pats[0] == "**" && |pats| > 1 {
      NeedsASegment(pats[1..]);
      var none: seq<string> := [];
      assert forall k | 0 <= k <= |none| :: none[k..] == none;
    }
  }

  lemma AtomsAtLast(pats: seq<string>)
    requires |pats| > 0
    ensures AtomsFrom(pats, |pats| - 1) ==
            if pats[|pats| - 1] == "**" then [Everything()] else SegmentAtoms(pats[|pats| - 1])
  {
    var i := |pats| - 1;
    assert AtomsFrom(pats, i) == Piece(pats, i) + [] == Piece(pats, i);
    assert SegmentAtoms(pats[i]) + [] == SegmentAtoms(pats[i]);
  }

  lemma AtomsAtWild(pats: seq<string>, i: nat)
    requires i < |pats| - 1 && pats[i] == "**"
    ensures AtomsFrom(pats, i) == [Directories()] + AtomsFrom(pats, i + 1)
  {
  }

  lemma AtomsBefore(pats: seq<string>, i: nat)
    requires i < |pats| - 1 && pats[i] != "**"
    ensures AtomsFrom(pats, i) == SegmentAtoms(pats[i]) + ([Lit('/')] + AtomsFrom(pats, i + 1))
  {
    assert Piece(pats, i) == SegmentAtoms(pats[i]) + [Lit('/')];
    Associate(SegmentAtoms(pats[i]), [Lit('/')], AtomsFrom(pats, i + 1));
  }

  /** From any segment of the glob on, the compiled atoms accept the paths the rest of the glob describes. */
  lemma {:induction false} AtomsMeanGlob(pats: seq<string>, i: nat, segs: seq<string>)
    requires i < |pats| && Segments(segs) && forall p | p in pats :: SlashFree(p)
    ensures AllMatch(AtomsFrom(pats, i), Join(segs, '/')) <==> ExactMatches(pats[i..], segs)
    decreases |pats| - i
  {
    var pat := pats[i..];
    assert pat[0] == pats[i] && pat[1..] == pats[i + 1..] && pats[i] in pats;
    if i == |pats| - 1 {
      AtomsAtLast(pats);
      LastMeans(pat, segs);
    } else {
      var rest := AtomsFrom(pats, i + 1);
      forall k: nat | k < |segs|
        ensures AllMatch(rest, Join(segs[k..], '/')) <==> ExactMatches(pat[1..], segs[k..])
      {
        assert forall x | x in segs[k..] :: x in segs;
        AtomsMeanGlob(pats, i + 1, segs[k..]);
      }
      if pats[i] == "**" {
        AtomsAtWild(pats, i);
        WildMeans(pat, rest, segs);
      } else {
        AtomsBefore(pats, i);
        InnerMeans(pat, rest, segs);
      }
    }
  }

  /** The last segment of a glob. */
  lemma LastMeans(pat: seq<string>, segs: seq<string>)
    requires |pat| == 1 && SlashFree(pat[0]) && Segments(segs)
    ensures AllMatch(if pat[0] == "**" then [Everything()] else SegmentAtoms(pat[0]), Join(segs, '/')) <==> ExactMatches(pat, segs)
  {
    if pat[0] == "**" {
      EverythingMeans(Join(segs, '/'));
    } else {
      LastSegment(pat[0], segs);
      assert SegmentAtoms(pat[0]) + [] == SegmentAtoms(pat[0]);
    }
  }

  /** A `**` that is not last, when the rest of the glob is understood. */
  lemma WildMeans(pat: seq<string>, rest: seq<Regex>, segs: seq<string>)
    requires |pat| > 1 && pat[0] == "**" && Segments(segs)
    requires forall k: nat | k < |segs| :: AllMatch(rest, Join(segs[k..], '/')) <==> ExactMatches(pat[1..], segs[k..])
    ensures AllMatch([Directories()] + rest, Join(segs, '/')) <==> ExactMatches(pat, segs)
  {
    SkipsSegments(rest, segs);
  }

  /** Any other segment that is not last. */
  lemma InnerMeans(pat: seq<string>, rest: seq<Regex>, segs: seq<string>)
    requires |pat| > 1 && pat[0] != "**" && SlashFree(pat[0]) && Segments(segs)
    requires |segs| > 1 ==> (AllMatch(rest, Join(segs[1..], '/')) <==> ExactMatches(pat[1..], segs[1..]))
    ensures AllMatch(SegmentAtoms(pat[0]) + ([Lit('/')] + rest), Join(segs, '/')) <==> ExactMatches(pat, segs)
  {
    if AllMatch(SegmentAtoms(pat[0]) + ([Lit('/')] + rest), Join(segs, '/')) {
      InnerForward(pat[0], rest, segs);
    }
    if |segs| > 1 && SegmentMatches(pat[0], segs[0]) && AllMatch(rest, Join(segs[1..], '/')) {
      InnerBackward(pat[0], rest, segs);
    }
    if |segs| == 1 {
      assert segs[1..] == [];
      NeedsASegment(pat[1..]);
    }
  }

  lemma LastSegment(seg: string, segs: seq<string>)
    requires Segments(segs) && SlashFree(seg)
    ensures AllMatch(SegmentAtoms(seg) + [], Join(segs, '/')) <==> SegmentMatches(seg, segs[0]) && |segs| == 1
  {
    FirstSegment(segs);
    var s := Join(segs, '/');
    assert |segs| > 1 ==> s[|segs[0]|] in s;
    if AllMatch(SegmentAtoms(seg) + [], s) {
      var k := SegmentForward(seg, [], s);
      assert s[..k] == s;
    }
    if SegmentMatches(seg, segs[0]) && |segs| == 1 {
      SegmentBackward(seg, s, [], []);
      assert s + [] == s;
    }
  }

  lemma InnerForward(seg: string, rest: seq<Regex>, segs: seq<string>)
    requires Segments(segs) && SlashFree(seg)
    requires AllMatch(SegmentAtoms(seg) + ([Lit('/')] + rest), Join(segs, '/'))
    ensures |segs| > 1 && SegmentMatches(seg, segs[0]) && AllMatch(rest, Join(segs[1..], '/'))
  {
    FirstSegment(segs);
    var s := Join(segs, '/');
    var k := SegmentForward(seg, [Lit('/')] + rest, s);
    LiteralThen('/', rest, s[k..]);
    SlashAfter(segs, k);
    assert s[k..][1..] == s[k + 1..];
  }

  lemma InnerBackward(seg: string, rest: seq<Regex>, segs: seq<string>)
    requires Segments(segs) && SlashFree(seg)
    requires |segs| > 1 && SegmentMatches(seg, segs[0]) && AllMatch(rest, Join(segs[1..], '/'))
    ensures AllMatch(SegmentAtoms(seg) + ([Lit('/')] + rest), Join(segs, '/'))
  {
    FirstSegment(segs);
    var tail := "/" + Join(segs[1..], '/');
    assert tail[1..] == Join(segs[1..], '/');
    LiteralThen('/', rest, tail);
    SegmentBackward(seg, segs[0], [Lit('/')] + rest, tail);
    assert segs[0] + tail == Join(segs, '/');
  }

  /** The compiled expression accepts a path exactly when the glob matches it, segment by segment. */
  lemma CompiledMeansGlob(pattern: string, re: string, file: string)
    requires |re| >= 2 && re[0] == '^' && re[|re| - 1] == '$'
    requires Read(re[1..|re| - 1]) == Some(AtomsFrom(Split(pattern, '/'), 0))
    ensures Accepts(re, file) <==> ExactMatches(Split(pattern, '/'), Split(file, '/'))
    ensures Proper(Split(file, '/')) ==> (Accepts(re, file) <==> PathMatches(Split(pattern, '/'), Split(file, '/')))
  {
    JoinSplit(file, '/');
    var pats, segs := Split(pattern, '/'), Split(file, '/');
    assert forall p | p in pats :: SlashFree(p);
    AtomsMeanGlob(pats, 0, segs);
    assert pats[0..] == pats;
    if Proper(segs) {
      ProperAgrees(pats, segs);
    }
  }

  // ---- where the code keeps to the documented meaning ----

  /** Without empty segments the two meanings are the same. */
  lemma {:induction false} ProperAgrees(pats: seq<string>, segs: seq<string>)
    requires segs == [] || Proper(segs)
    ensures ExactMatches(pats, segs) <==> PathMatches(pats, segs)
    decreases |pats|
  {
    if pats != [] {
      forall k: nat | k <= |segs| ensures ExactMatches(pats[1..], segs[k..]) <==> PathMatches(pats[1..], segs[k..]) {
        assert forall x | x in segs[k..] :: x in segs;
        ProperAgrees(pats[1..], segs[k..]);
      }
      if pats[0] == "**" {
        NonemptyPath(segs);
        if |pats| > 1 {
          SkipAnywhere(pats, segs);
        }
      } else if segs != [] {
        assert segs[1..] == segs[1..][..];
      }
    }
  }

  lemma NonemptyPath(segs: seq<string>)
    requires segs == [] || Proper(segs)
    ensures Join(segs, '/') != [] <==> |segs| > 0
  {
    if segs != [] {
      assert segs[0] in segs;
    }
  }

  lemma SkipAnywhere(pats: seq<string>, segs: seq<string>)
    requires pats != [] && pats[0] == "**" && |pats| > 1 && (segs == [] || Proper(segs))
    requires forall k: nat | k <= |segs| :: ExactMatches(pats[1..], segs[k..]) <==> PathMatches(pats[1..], segs[k..])
    ensures ExactMatches(pats, segs) <==> PathMatches(pats, segs)
  {
    if PathMatches(pats, segs) {
      var k :| 0 <= k <= |segs| && PathMatches(pats[1..], segs[k..]);
      assert k < |segs|;
      assert SkipsTo(segs, k) by {
        assert forall i | 0 <= i < k :: segs[i] in segs;
      }
    }
  }

  /** `n` segments that are one star each. */
  function Stars(n: nat): (r: seq<string>)
    ensures |r| == n && forall i | 0 <= i < n :: r[i] == "*"
  {
    seq(n, i => "*")
  }

  lemma StarTakesSegment(seg: string)
    ensures SegmentMatches("*", seg)
  {
    assert "*"[1..] == [] && seg[|seg|..] == [];
    assert SegmentMatches("*"[1..], seg[|seg|..]);
  }

  /** `n` stars, then `tail`, describe the paths whose first `n` segments are followed by what `tail` describes. */
  lemma {:induction false} StarsThen(n: nat, tail: seq<string>, segs: seq<string>)
    ensures PathMatches(Stars(n) + tail, segs) <==> n <= |segs| && PathMatches(tail, segs[n..])
    ensures ExactMatches(Stars(n) + tail, segs) <==> n <= |segs| && ExactMatches(tail, segs[n..])
  {
    var pats := Stars(n) + tail;
    if n == 0 {
      assert pats == tail && segs[0..] == segs;
    } else {
      assert pats[0] == "*" && pats[1..] == Stars(n - 1) + tail;
      if segs != [] {
        StarTakesSegment(segs[0]);
        StarsThen(n - 1, tail, segs[1..]);
        assert n <= |segs| ==> segs[1..][n - 1..] == segs[n..];
      }
    }
  }

  /** A glob that tells the two meanings apart at the empty segment `e`. */
  function Separating(e: nat, n: nat): (pats: seq<string>)
    requires e < n
    ensures |pats| > 0 && forall p | p in pats :: p == "*" || p == "**"
  {
    if e == n - 1 then Stars(e) + ["**"] else ["**"] + Stars(n - e - 1)
  }

  lemma SeparatesLast(segs: seq<string>)
    requires |segs| > 0 && segs[|segs| - 1] == []
    ensures var pats := Stars(|segs| - 1) + ["**"]; PathMatches(pats, segs) && !ExactMatches(pats, segs)
  {
    StarsThen(|segs| - 1, ["**"], segs);
    assert segs[|segs| - 1..] == [[]];
  }

  lemma StarsTake(n: nat, segs: seq<string>)
    ensures PathMatches(Stars(n), segs) <==> n == |segs|
    ensures ExactMatches(Stars(n), segs) <==> n == |segs|
  {
    assert Stars(n) + [] == Stars(n);
    StarsThen(n, [], segs);
  }

  lemma DescribedAcross(segs: seq<string>, e: nat)
    requires e < |segs| - 1
    ensures PathMatches(["**"] + Stars(|segs| - e - 1), segs)
  {
    var n := |segs| - e - 1;
    var pats := ["**"] + Stars(n);
    assert pats[0] == "**" && pats[1..] == Stars(n);
    StarsTake(n, segs[e + 1..]);
  }

  lemma NotSkipped(segs: seq<string>, e: nat, k: nat)
    requires e < |segs| - 1 && segs[e] == [] && SkipsTo(segs, k)
    ensures !ExactMatches(Stars(|segs| - e - 1), segs[k..])
  {
    StarsTake(|segs| - e - 1, segs[k..]);
  }

  lemma SeparatesInner(segs: seq<string>, e: nat)
    requires e < |segs| - 1 && segs[e] == []
    ensures var pats := ["**"] + Stars(|segs| - e - 1); PathMatches(pats, segs) && !ExactMatches(pats, segs)
  {
    var pats := ["**"] + Stars(|segs| - e - 1);
    DescribedAcross(segs, e);
    assert pats[0] == "**" && pats[1..] == Stars(|segs| - e - 1);
    forall k: nat | SkipsTo(segs, k) ensures !ExactMatches(pats[1..], segs[k..]) {
      NotSkipped(segs, e, k);
    }
  }

  lemma Separates(segs: seq<string>, e: nat)
    requires e < |segs| && segs[e] == []
    ensures PathMatches(Separating(e, |segs|), segs) && !ExactMatches(Separating(e, |segs|), segs)
  {
    if e == |segs| - 1 {
      SeparatesLast(segs);
    } else {
      SeparatesInner(segs, e);
    }
  }

  /** The compiled glob accepts the path exactly when the documented meaning describes it. */
  ghost predicate Agrees(pattern: string, file: string) {
    AllMatch(AtomsFrom(Split(pattern, '/'), 0), file) <==> PathMatches(Split(pattern, '/'), Split(file, '/'))
  }

  lemma {:induction false} StarsArePlain(pats: seq<string>)
    requires forall p | p in pats :: p == "*" || p == "**"
    ensures Plain(Join(pats, '/'))
  {
    if |pats| > 0 {
      assert pats[0] in pats;
      assert Plain(pats[0]) && forall p | p in pats[1..] :: p in pats;
      StarsArePlain(pats[1..]);
    }
  }

  lemma AgreesWhen(pattern: string, file: string)
    ensures var pats, segs := Split(pattern, '/'), Split(file, '/');
            Agrees(pattern, file) <==> (ExactMatches(pats, segs) <==> PathMatches(pats, segs))
  {
    JoinSplit(file, '/');
    var pats := Split(pattern, '/');
    AtomsMeanGlob(pats, 0, Split(file, '/'));
    assert pats[0..] == pats;
  }

  lemma Disagrees(file: string, e: nat) returns (pattern: string)
    requires e < |Split(file, '/')| && Split(file, '/')[e] == []
    ensures Plain(pattern) && !Agrees(pattern, file)
  {
    var segs := Split(file, '/');
    var pats := Separating(e, |segs|);
    pattern := Join(pats, '/');
    Separates(segs, e);
    StarsArePlain(pats);
    SplitJoin(pats, '/');
    AgreesWhen(pattern, file);
  }

  /** All globs keep to their documented meaning on a path exactly when no segment of it is empty. */
  lemma AgreesExactly(file: string)
    ensures (forall pattern | Plain(pattern) :: Agrees(pattern, file)) <==> Proper(Split(file, '/'))
  {
    var segs := Split(file, '/');
    if Proper(segs) {
      forall pattern ensures Agrees(pattern, file) {
        AgreesWhen(pattern, file);
        ProperAgrees(Split(pattern, '/'), segs);
      }
    } else {
      var e: nat :| e < |segs| && segs[e] == [];
      var pattern := Disagrees(file, e);
    }
  }

  /** The expression accepts exactly the paths the glob matches. */
  ghost predicate MeansGlob(re: string, pattern: string) {
    forall file :: Accepts(re, file) <==> ExactMatches(Split(pattern, '/'), Split(file, '/'))
  }

  /** Some expression accepts the path exactly when some glob matches it, which is what is documented of proper paths. */
  ghost predicate MatchesAny(compiled: seq<string>, patterns: seq<string>, file: string) {
    && ((exists i | 0 <= i < |compiled| :: Accepts(compiled[i], file))
        <==> (exists i | 0 <= i < |patterns| :: ExactMatches(Split(patterns[i], '/'), Split(file, '/'))))
    && (Proper(Split(file, '/')) ==>
          ((exists i | 0 <= i < |compiled| :: Accepts(compiled[i], file))
           <==> (exists i | 0 <= i < |patterns| :: PathMatches(Split(patterns[i], '/'), Split(file, '/')))))
  }

  lemma AnyMeansAny(compiled: seq<string>, patterns: seq<string>, file: string)
    requires |compiled| == |patterns| && forall j | 0 <= j < |patterns| :: MeansGlob(compiled[j], patterns[j])
    ensures MatchesAny(compiled, patterns, file)
  {
    forall i | 0 <= i < |patterns|
      ensures Accepts(compiled[i], file) <==> ExactMatches(Split(patterns[i], '/'), Split(file, '/'))
      ensures Proper(Split(file, '/')) ==>
                (Accepts(compiled[i], file) <==> PathMatches(Split(patterns[i], '/'), Split(file, '/')))
    {
      assert MeansGlob(compiled[i], patterns[i]);
      if Proper(Split(file, '/')) {
        ProperAgrees(Split(patterns[i], '/'), Split(file, '/'));
      }
    }
  }

  lemma CompiledIsGlob(pattern: string, re: string)
    requires |re| >= 2 && re[0] == '^' && re[|re| - 1] == '$'
    requires Read(re[1..|re| - 1]) == Some(AtomsFrom(Split(pattern, '/'), 0))
    ensures MeansGlob(re, pattern)
  {
    forall file ensures Accepts(re, file) <==> ExactMatches(Split(pattern, '/'), Split(file, '/')) {
      CompiledMeansGlob(pattern, re, file);
    }
  }

  method CompileAll(patterns: seq<string>) returns (compiled: seq<string>)
    requires forall j | 0 <= j < |patterns| :: Plain(patterns[j])
    ensures |compiled| == |patterns| && forall j | 0 <= j < |patterns| :: MeansGlob(compiled[j], patterns[j])
  {
    compiled := [];
    for i := 0 to |patterns|
      invariant |compiled| == i && forall j | 0 <= j < i :: MeansGlob(compiled[j], patterns[j])
    {
      var re := CompileGlob(patterns[i]);
      CompiledIsGlob(patterns[i], re);
      compiled := compiled + [re];
    }
  }

  /**
   * The matcher for a list of globs: refused when one holds a bracket or brace; otherwise a path is
   * matched exactly when one of the globs matches it.
   */
  method GlobMatcher(patterns: seq<string>) returns (r: Result<seq<string>>)
    ensures r.Usage? ==> r.pattern in patterns && !Plain(r.pattern)
    ensures r.Usage? <==> exists p | p in patterns :: !Plain(p)
    ensures r.Ok? ==> forall file {:trigger MatchesAny(r.value, patterns, file)} :: MatchesAny(r.value, patterns, file)
  {
    for i := 0 to |patterns|
      invariant forall j | 0 <= j < i :: Plain(patterns[j])
    {
      if exists c | c in patterns[i] :: IsBracket(c) {
        return Usage(patterns[i]);
      }
    }
    var compiled := CompileAll(patterns);
    forall file ensures MatchesAny(compiled, patterns, file) {
      AnyMeansAny(compiled, patterns, file);
    }
    r := Ok(compiled);
  }
}
