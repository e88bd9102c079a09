/**
 * The misquotation check: the one-row longest-common-subsequence table, and the search for the passage of
 * a brief closest to a quotation within its work budget.
 */
module NearestPassage {
  import opened Common

  // ---- longest common subsequence ----

  /** `s` is `t` with some elements left out: `at` lists the places in `t` it keeps. */
  ghost predicate Embeds(s: seq<string>, t: seq<string>, at: seq<nat>) {
    && |at| == |s|
    && (forall i | 0 <= i < |s| :: at[i] < |t| && t[at[i]] == s[i])
    && (forall i, j | 0 <= i < j < |s| :: at[i] < at[j])
  }

  ghost predicate Subsequence(s: seq<string>, t: seq<string>) {
    exists at: seq<nat> :: Embeds(s, t, at)
  }

  ghost predicate IsCommon(s: seq<string>, a: seq<string>, b: seq<string>) {
    Subsequence(s, a) && Subsequence(s, b)
  }

  function Front(s: seq<string>): seq<string>
    requires s != []
  {
    s[..|s| - 1]
  }

  function Last(s: seq<string>): string
    requires s != []
  {
    s[|s| - 1]
  }

  function MaxOf(a: int, b: int): int {
    if a < b then b else a
  }

  /** The textbook recursion from the ends. */
  function Lcs(a: seq<string>, b: seq<string>): nat
    decreases |a| + |b|
  {
    if a == [] || b == [] then 0
    else if Last(a) == Last(b) then Lcs(Front(a), Front(b)) + 1
    else MaxOf(Lcs(Front(a), b), Lcs(a, Front(b)))
  }

  lemma DropLast(s: seq<string>, t: seq<string>)
    requires s != [] && Subsequence(s, t)
    ensures t != [] && Subsequence(Front(s), Front(t))
    ensures Last(s) != Last(t) ==> Subsequence(s, Front(t))
  {
    var at: seq<nat> :| Embeds(s, t, at);
    assert at[|s| - 1] < |t| && forall i | 0 <= i < |s| - 1 :: at[i] < at[|s| - 1];
    assert Embeds(Front(s), Front(t), at[..|at| - 1]);
    if Last(s) != Last(t) {
      assert Embeds(s, Front(t), at);
    }
  }

  /** No common subsequence is longer. */
  lemma {:induction false} NoLonger(s: seq<string>, a: seq<string>, b: seq<string>)
    requires IsCommon(s, a, b)
    ensures |s| <= Lcs(a, b)
    decreases |a| + |b|
  {
    if s != [] {
      DropLast(s, a);
      DropLast(s, b);
      if Last(a) == Last(b) {
        NoLonger(Front(s), Front(a), Front(b));
      } else if Last(s) != Last(a) {
        NoLonger(s, Front(a), b);
      } else {
        NoLonger(s, a, Front(b));
      }
    }
  }

  lemma KeepsLonger(s: seq<string>, t: seq<string>)
    requires t != [] && Subsequence(s, Front(t))
    ensures Subsequence(s, t) && Subsequence(s + [Last(t)], t)
  {
    var at: seq<nat> :| Embeds(s, Front(t), at);
    assert Embeds(s, t, at);
    assert Embeds(s + [Last(t)], t, at + [|t| - 1]);
  }

  /** And one is that long. */
  lemma {:induction false} Attained(a: seq<string>, b: seq<string>) returns (s: seq<string>)
    ensures IsCommon(s, a, b) && |s| == Lcs(a, b)
    decreases |a| + |b|
  {
    if a == [] || b == [] {
      s := [];
      assert Embeds(s, a, []) && Embeds(s, b, []);
    } else if Last(a) == Last(b) {
      s := Attained(Front(a), Front(b));
      KeepsLonger(s, a);
      KeepsLonger(s, b);
      s := s + [Last(a)];
    } else if Lcs(Front(a), b) >= Lcs(a, Front(b)) {
      s := Attained(Front(a), b);
      KeepsLonger(s, a);
    } else {
      s := Attained(a, Front(b));
      KeepsLonger(s, b);
    }
  }

  /** The recursion gives the greatest length a common subsequence can have. */
  lemma LcsIsLongest(a: seq<string>, b: seq<string>)
    ensures exists s :: IsCommon(s, a, b) && |s| == Lcs(a, b)
    ensures forall s | IsCommon(s, a, b) :: |s| <= Lcs(a, b)
  {
    var s := Attained(a, b);
    forall s | IsCommon(s, a, b) ensures |s| <= Lcs(a, b) {
      NoLonger(s, a, b);
    }
  }

  /** One row of the table, overwritten in place for every element of `a`. */
  method LcsRow(a: seq<string>, b: seq<string>) returns (n: nat)
    ensures n == Lcs(a, b)
  {
    var prev := new nat[|b| + 1](_ => 0);
    for i := 1 to |a| + 1
      invariant forall k | 0 <= k <= |b| :: prev[k] == Lcs(a[..i - 1], b[..k])
    {
      var diag := 0;
      for j := 1 to |b| + 1
        invariant diag == Lcs(a[..i - 1], b[..j - 1])
        invariant forall k | 0 <= k < j :: prev[k] == Lcs(a[..i], b[..k])
        invariant forall k | j <= k <= |b| :: prev[k] == Lcs(a[..i - 1], b[..k])
      {
        var up := prev[j];
        assert Front(a[..i]) == a[..i - 1] && Front(b[..j]) == b[..j - 1];
        prev[j] := if a[i - 1] == b[j - 1] then diag + 1 else MaxOf(prev[j], prev[j - 1]);
        diag := up;
      }
    }
    assert a[..|a|] == a && b[..|b|] == b;
    n := prev[|b|];
  }

  // ---- windows ----

  datatype Token = Token(word: string, start: nat, end: nat)
  datatype Passage = Passage(start: nat, end: nat, score: real)

  const MIN_WORDS := 3
  const MAX_WORDS := 128
  const MAX_TOKENS := 25000
  const BUDGET := 1000000
  const THRESHOLD: real := 0.6

  function Words(b: seq<Token>): seq<string> {
    seq(|b|, i requires 0 <= i < |b| => b[i].word)
  }

  /** A window starts on a word of the quotation and is within two words of its length. */
  predicate IsWindow(q: seq<string>, b: seq<Token>, i: int, len: int) {
    0 <= i < |b| && b[i].word in q && MaxOf(1, |q| - 2) <= len <= |q| + 2 && i + len <= |b|
  }

  function Score(q: seq<string>, b: seq<Token>, i: int, len: int): real
    requires IsWindow(q, b, i, len)
  {
    Lcs(q, Words(b[i..i + len])) as real / MaxOf(|q|, len) as real
  }

  /** The order the windows are tried in. */
  predicate Before(i: int, len: int, j: int, n: int) {
    i < j || (i == j && len < n)
  }

  /** The first of the best-scoring windows among those before (`j`, `n`). */
  ghost predicate BestBefore(q: seq<string>, b: seq<Token>, j: int, n: int, i: int, len: int) {
    && IsWindow(q, b, i, len) && Before(i, len, j, n)
    && forall x, y {:trigger Before(x, y, j, n)} | IsWindow(q, b, x, y) && Before(x, y, j, n) ::
         Score(q, b, x, y) <= Score(q, b, i, len) && (Before(x, y, i, len) ==> Score(q, b, x, y) < Score(q, b, i, len))
  }

  ghost predicate Found(q: seq<string>, b: seq<Token>, j: int, n: int, best: Option<Passage>) {
    match best
    case Some(p) =>
      exists i, len :: BestBefore(q, b, j, n, i, len) && p == Passage(b[i].start, b[i + len - 1].end, Score(q, b, i, len))
    case None => forall x, y {:trigger Before(x, y, j, n)} | IsWindow(q, b, x, y) :: !Before(x, y, j, n)
  }

  /** The right answers of a search that has tried the windows before (`j`, `n`). */
  ghost function Answers(q: seq<string>, b: seq<Token>, j: int, n: int): iset<Option<Passage>> {
    iset best | Found(q, b, j, n, best)
  }

  /** Table cells for one window. */
  function Area(q: seq<string>, len: nat): nat {
    |q| * len
  }

  /** Table cells for the windows at `i` shorter than `len`. */
  function RowCells(q: seq<string>, b: seq<Token>, i: nat, len: nat): (cells: nat)
    decreases len
  {
    if len == 0 then 0
    else RowCells(q, b, i, len - 1) + if IsWindow(q, b, i, len - 1) then Area(q, len - 1) else 0
  }

  /** Table cells for the windows that start before `i`. */
  function Cells(q: seq<string>, b: seq<Token>, i: nat): (cells: nat) {
    if i == 0 then 0 else Cells(q, b, i - 1) + RowCells(q, b, i - 1, |q| + 3)
  }

  predicate WithinLimits(q: seq<string>, b: seq<Token>) {
    MIN_WORDS <= |q| <= MAX_WORDS && |b| <= MAX_TOKENS && Cells(q, b, |b|) <= BUDGET
  }

  lemma {:induction false} CellsGrow(q: seq<string>, b: seq<Token>, i: nat, j: nat)
    requires i <= j
    ensures Cells(q, b, i) <= Cells(q, b, j)
    decreases j
  {
    if i < j {
      CellsGrow(q, b, i, j - 1);
    }
  }

  lemma {:induction false} RowCellsGrow(q: seq<string>, b: seq<Token>, i: nat, m: nat, n: nat)
    requires m <= n
    ensures RowCells(q, b, i, m) <= RowCells(q, b, i, n)
    decreases n
  {
    if m < n {
      RowCellsGrow(q, b, i, m, n - 1);
    }
  }

  lemma {:induction false} NoCells(q: seq<string>, b: seq<Token>, i: nat, m: nat, n: nat)
    requires m <= n && forall len | m <= len < n :: !IsWindow(q, b, i, len)
    ensures RowCells(q, b, i, n) == RowCells(q, b, i, m)
    decreases n
  {
    if m < n {
      NoCells(q, b, i, m, n - 1);
    }
  }

  function PassageAt(q: seq<string>, b: seq<Token>, i: int, len: int): Passage
    requires IsWindow(q, b, i, len)
  {
    Passage(b[i].start, b[i + len - 1].end, Score(q, b, i, len))
  }

  lemma FoundAt(q: seq<string>, b: seq<Token>, j: int, n: int, i: int, len: int)
    requires BestBefore(q, b, j, n, i, len)
    ensures Found(q, b, j, n, Some(PassageAt(q, b, i, len)))
  {
  }

  lemma FirstIsBest(q: seq<string>, b: seq<Token>, i: int, len: int)
    requires IsWindow(q, b, i, len) && Found(q, b, i, len, None)
    ensures BestBefore(q, b, i, len + 1, i, len)
  {
    forall x, y | IsWindow(q, b, x, y) && Before(x, y, i, len + 1) ensures x == i && y == len {
      assert !Before(x, y, i, len);
    }
  }

  lemma OneLower(q: seq<string>, b: seq<Token>, i: int, len: int, x: int, y: int, v: int, w: int)
    requires BestBefore(q, b, i, len, x, y) && IsWindow(q, b, v, w) && Before(v, w, i, len)
    ensures Score(q, b, v, w) <= Score(q, b, x, y)
    ensures Before(v, w, x, y) ==> Score(q, b, v, w) < Score(q, b, x, y)
  {
  }

  lemma BetterIsBest(q: seq<string>, b: seq<Token>, i: int, len: int, x: int, y: int)
    requires IsWindow(q, b, i, len) && BestBefore(q, b, i, len, x, y) && Score(q, b, i, len) > Score(q, b, x, y)
    ensures BestBefore(q, b, i, len + 1, i, len)
  {
    forall v, w | IsWindow(q, b, v, w) && Before(v, w, i, len + 1)
      ensures Score(q, b, v, w) <= Score(q, b, i, len)
      ensures Before(v, w, i, len) ==> Score(q, b, v, w) < Score(q, b, i, len)
    {
      if Before(v, w, i, len) {
        OneLower(q, b, i, len, x, y, v, w);
      } else {
        assert v == i && w == len;
      }
    }
  }

  lemma BestStays(q: seq<string>, b: seq<Token>, i: int, len: int, x: int, y: int)
    requires IsWindow(q, b, i, len) && BestBefore(q, b, i, len, x, y) && Score(q, b, i, len) <= Score(q, b, x, y)
    ensures BestBefore(q, b, i, len + 1, x, y)
  {
    forall v, w | IsWindow(q, b, v, w) && Before(v, w, i, len + 1)
      ensures Score(q, b, v, w) <= Score(q, b, x, y)
      ensures Before(v, w, x, y) ==> Score(q, b, v, w) < Score(q, b, x, y)
    {
      if Before(v, w, i, len) {
        OneLower(q, b, i, len, x, y, v, w);
      } else {
        assert v == i && w == len;
      }
    }
  }

  /** Keep a passage if it is the first or beats the best so far. */
  function Better(best: Option<Passage>, here: Passage): Option<Passage> {
    if best.None? || here.score > best.value.score then Some(here) else best
  }

  lemma NewBest(q: seq<string>, b: seq<Token>, i: int, len: int, x: int, y: int)
    requires IsWindow(q, b, i, len) && BestBefore(q, b, i, len, x, y)
    requires PassageAt(q, b, i, len).score > PassageAt(q, b, x, y).score
    ensures Found(q, b, i, len + 1, Some(PassageAt(q, b, i, len)))
  {
    BetterIsBest(q, b, i, len, x, y);
    FoundAt(q, b, i, len + 1, i, len);
  }

  lemma OldBest(q: seq<string>, b: seq<Token>, i: int, len: int, x: int, y: int)
    requires IsWindow(q, b, i, len) && BestBefore(q, b, i, len, x, y)
    requires PassageAt(q, b, i, len).score <= PassageAt(q, b, x, y).score
    ensures Found(q, b, i, len + 1, Some(PassageAt(q, b, x, y)))
  {
    BestStays(q, b, i, len, x, y);
    FoundAt(q, b, i, len + 1, x, y);
  }

  lemma Compare(q: seq<string>, b: seq<Token>, i: int, len: int, x: int, y: int)
    requires IsWindow(q, b, i, len) && BestBefore(q, b, i, len, x, y)
    ensures Found(q, b, i, len + 1, Better(Some(PassageAt(q, b, x, y)), PassageAt(q, b, i, len)))
  {
    var kept, here := PassageAt(q, b, x, y), PassageAt(q, b, i, len);
    if here.score > kept.score {
      NewBest(q, b, i, len, x, y);
      assert Better(Some(kept), here) == Some(here);
    } else {
      OldBest(q, b, i, len, x, y);
      assert Better(Some(kept), here) == Some(kept);
    }
  }

  lemma BestIs(q: seq<string>, b: seq<Token>, j: int, n: int, p: Passage) returns (x: int, y: int)
    requires Found(q, b, j, n, Some(p))
    ensures BestBefore(q, b, j, n, x, y) && p == PassageAt(q, b, x, y)
  {
    x, y :| BestBefore(q, b, j, n, x, y) && p == Passage(b[x].start, b[x + y - 1].end, Score(q, b, x, y));
  }

  /** Trying one more window keeps the search's answer right. */
  lemma TryWindow(q: seq<string>, b: seq<Token>, i: int, len: int, best: Option<Passage>)
    requires IsWindow(q, b, i, len) && Found(q, b, i, len, best)
    ensures Found(q, b, i, len + 1, Better(best, PassageAt(q, b, i, len)))
  {
    if best.None? {
      FirstIsBest(q, b, i, len);
      FoundAt(q, b, i, len + 1, i, len);
    } else {
      var x, y := BestIs(q, b, i, len, best.value);
      Compare(q, b, i, len, x, y);
    }
  }

  /** The answer does not change when the bound moves over no window. */
  lemma SkipNone(q: seq<string>, b: seq<Token>, j: int, n: int, k: int, m: int, best: Option<Passage>)
    requires Found(q, b, j, n, best)
    requires forall x, y | IsWindow(q, b, x, y) :: Before(x, y, j, n) <==> Before(x, y, k, m)
    ensures Found(q, b, k, m, best)
  {
    if best.Some? {
      var i, len :| BestBefore(q, b, j, n, i, len)
              && best.value == Passage(b[i].start, b[i + len - 1].end, Score(q, b, i, len));
      assert BestBefore(q, b, k, m, i, len);
    }
  }

  lemma OverBudget(q: seq<string>, b: seq<Token>, i: nat, len: nat)
    requires IsWindow(q, b, i, len) && Cells(q, b, i) + RowCells(q, b, i, len) + Area(q, len) > BUDGET
    ensures Cells(q, b, i + 1) > BUDGET
  {
    RowCellsGrow(q, b, i, len + 1, |q| + 3);
  }

  /** Score one window and keep it if it is the first or beats the best so far. */
  method Consider(q: seq<string>, b: seq<Token>, i: nat, len: nat,
          best0: Option<Passage>) returns (best: Option<Passage>)
    requires IsWindow(q, b, i, len) && best0 in Answers(q, b, i, len)
    ensures best in Answers(q, b, i, len + 1)
  {
    TryWindow(q, b, i, len, best0);
    var window := b[i..i + len];
    var common := LcsRow(q, Words(window));
    best := Better(best0, Passage(window[0].start, window[len - 1].end, common as real / MaxOf(|q|, len) as real));
  }

  /** Every window before (`i`, `len`) has been paid for and considered. */
  ghost predicate Searched(q: seq<string>, b: seq<Token>, i: nat, len: nat, cells: nat, best: Option<Passage>) {
    cells == Cells(q, b, i) + RowCells(q, b, i, len) <= BUDGET && best in Answers(q, b, i, len)
  }

  /** No window of `len` words or more starts at `i`. */
  predicate RowEnds(q: seq<string>, b: seq<Token>, i: nat, len: nat) {
    MaxOf(1, |q| - 2) <= len <= |q| + 3 && (len > |q| + 2 || i + len > |b|)
  }

  lemma StartRow(q: seq<string>, b: seq<Token>, i: nat, len: nat, cells: nat, best: Option<Passage>)
    requires Searched(q, b, i, 0, cells, best) && len == MaxOf(1, |q| - 2)
    ensures Searched(q, b, i, len, cells, best)
  {
    NoCells(q, b, i, 0, len);
    SkipNone(q, b, i, 0, i, len, best);
  }

  lemma EndRow(q: seq<string>, b: seq<Token>, i: nat, len: nat, cells: nat, best: Option<Passage>)
    requires Searched(q, b, i, len, cells, best) && RowEnds(q, b, i, len)
    ensures Searched(q, b, i + 1, 0, cells, best)
  {
    NoCells(q, b, i, len, |q| + 3);
    SkipNone(q, b, i, len, i + 1, 0, best);
  }

  /** Pay for one window and consider it; the budget may run out. */
  method TryOne(q: seq<string>, b: seq<Token>, i: nat, len: nat, cells0: nat, best0: Option<Passage>)
    returns (cells: nat, best: Option<Passage>, spent: bool)
    requires IsWindow(q, b, i, len) && Searched(q, b, i, len, cells0, best0)
    ensures spent ==> Cells(q, b, i + 1) > BUDGET
    ensures !spent ==> Searched(q, b, i, len + 1, cells, best)
  {
    cells, best := cells0 + Area(q, len), best0;
    spent := cells > BUDGET;
    if spent {
      OverBudget(q, b, i, len);
    } else {
      best := Consider(q, b, i, len, best);
    }
  }

  /** The windows that start at `i`, tried in order of length. */
  method TryLengths(q: seq<string>, b: seq<Token>, i: nat, first: nat, cells0: nat, best0: Option<Passage>)
    returns (len: nat, cells: nat, best: Option<Passage>, spent: bool)
    requires i < |b| && b[i].word in q && first == MaxOf(1, |q| - 2) <= |q| + 3
    requires Searched(q, b, i, first, cells0, best0)
    ensures spent ==> Cells(q, b, i + 1) > BUDGET
    ensures !spent ==> RowEnds(q, b, i, len) && Searched(q, b, i, len, cells, best)
  {
    len, cells, best, spent := first, cells0, best0, false;
    while len <= |q| + 2 && i + len <= |b|
      invariant first <= len <= |q| + 3
      invariant Searched(q, b, i, len, cells, best)
      decreases |q| + 3 - len
    {
      cells, best, spent := TryOne(q, b, i, len, cells, best);
      if spent {
        return;
      }
      len := len + 1;
    }
  }

  method TryStart(q: seq<string>, b: seq<Token>, i: nat, cells0: nat, best0: Option<Passage>)
    returns (cells: nat, best: Option<Passage>, spent: bool)
    requires |q| >= MIN_WORDS && i < |b| && b[i].word in q
    requires Searched(q, b, i, 0, cells0, best0)
    ensures spent ==> Cells(q, b, i + 1) > BUDGET
    ensures !spent ==> Searched(q, b, i + 1, 0, cells, best)
  {
    var len: nat := MaxOf(1, |q| - 2);
    StartRow(q, b, i, len, cells0, best0);
    len, cells, best, spent := TryLengths(q, b, i, len, cells0, best0);
    if !spent {
      EndRow(q, b, i, len, cells, best);
    }
  }

  /**
   * The passage of the brief nearest to the quotation: within the limits, the first of the windows with the
   * greatest score when that reaches the threshold, and nothing when no window does.
   */
  method NearestPassage(q: seq<string>, b: seq<Token>) returns (r: Option<Passage>)
    ensures !WithinLimits(q, b) ==> r.None?
    ensures WithinLimits(q, b) && r.Some? ==> r.value.score >= THRESHOLD && Found(q, b, |b|, 0, r)
    ensures WithinLimits(q, b) && r.None? ==> forall i, len | IsWindow(q, b, i, len) :: Score(q, b, i, len) < THRESHOLD
  {
    if |q| < MIN_WORDS || |q| > MAX_WORDS || |b| > MAX_TOKENS {
      return None;
    }
    var cells: nat := 0;
    var best: Option<Passage> := None;
    for i := 0 to |b|
      invariant Searched(q, b, i, 0, cells, best)
    {
      if b[i].word !in q {
        NoCells(q, b, i, 0, |q| + 3);
        SkipNone(q, b, i, 0, i + 1, 0, best);
      } else {
        var spent;
        cells, best, spent := TryStart(q, b, i, cells, best);
        if spent {
          CellsGrow(q, b, i + 1, |b|);
          return None;
        }
      }
    }
    if best.Some? && best.value.score >= THRESHOLD {
      return best;
    }
    r := None;
    forall i, len | IsWindow(q, b, i, len) ensures Score(q, b, i, len) < THRESHOLD {
      assert Before(i, len, |b|, 0);
    }
  }

  /** A window scores between 0 and 1, and 1 exactly when it repeats the quotation word for word. */
  lemma FullScoreIsVerbatim(q: seq<string>, b: seq<Token>, i: int, len: int)
    requires IsWindow(q, b, i, len)
    ensures 0.0 <= Score(q, b, i, len) <= 1.0
    ensures Score(q, b, i, len) == 1.0 <==> Words(b[i..i + len]) == q
  {
    var w := Words(b[i..i + len]);
    LcsBounds(q, w);
    Ratio(Lcs(q, w), MaxOf(|q|, len));
  }

  lemma Ratio(n: int, m: int)
    requires 0 <= n <= m && 0 < m
    ensures 0.0 <= n as real / m as real <= 1.0
    ensures n as real / m as real == 1.0 <==> n == m
  {
    var r := n as real / m as real;
    assert r * m as real == n as real;
  }

  lemma LcsBounds(q: seq<string>, w: seq<string>)
    ensures Lcs(q, w) <= MaxOf(|q|, |w|)
    ensures Lcs(q, w) == MaxOf(|q|, |w|) <==> q == w
  {
    var s := Attained(q, w);
    Shorter(s, q);
    Shorter(s, w);
    LcsOfItself(q);
  }

  lemma {:induction false} LcsOfItself(q: seq<string>)
    ensures Lcs(q, q) == |q|
  {
    if q != [] {
      LcsOfItself(Front(q));
    }
  }

  lemma Shorter(s: seq<string>, t: seq<string>)
    requires Subsequence(s, t)
    ensures |s| <= |t|
    ensures |s| == |t| ==> s == t
  {
    var at: seq<nat> :| Embeds(s, t, at);
    AtLeast(s, t, at, |s|);
    if |s| == |t| {
      forall i | 0 <= i < |s| ensures s[i] == t[i] {
        AtMost(s, t, at, i);
        AtLeast(s, t, at, i + 1);
      }
    }
  }

  lemma {:induction false} AtLeast(s: seq<string>, t: seq<string>, at: seq<nat>, n: nat)
    requires Embeds(s, t, at) && n <= |s|
    ensures n > 0 ==> at[n - 1] >= n - 1
  {
    if n > 1 {
      AtLeast(s, t, at, n - 1);
      assert at[n - 2] < at[n - 1];
    }
  }

  lemma {:induction false} AtMost(s: seq<string>, t: seq<string>, at: seq<nat>, i: nat)
    requires Embeds(s, t, at) && i < |s|
    ensures at[i] + (|s| - i) <= |t|
    decreases |s| - i
  {
    if i + 1 < |s| {
      AtMost(s, t, at, i + 1);
      assert at[i] < at[i + 1];
    }
  }
}
