/** Placing a time in the innermost of the steps that contain it, by ancestor elimination. */
module PlaceStep {
  import opened Common

  /** A step's bounds and declared parent; an open step has no upper bound, an unstarted one no lower bound. */
  datatype Step = Step(lo: Option<int>, hi: Option<int>, parent: Option<int>)
  datatype Placement = Outside | InStep(step: int) | Overlapping

  type Steps = map<int, Step>

  predicate Contains(s: Step, ts: int) {
    s.lo.Some? && s.lo.value <= ts && (s.hi.Some? ==> ts <= s.hi.value)
  }

  function Containing(steps: Steps, ts: int): set<int> {
    set id | id in steps && Contains(steps[id], ts)
  }

  /** The id reached by following `n` parent links, if all of them exist. */
  function Walk(steps: Steps, id: int, n: nat): Option<int> {
    if n == 0 then Some(id)
    else
      var at := Walk(steps, id, n - 1);
      if at.Some? && at.value in steps then steps[at.value].parent else None
  }

  ghost predicate Above(steps: Steps, a: int, id: int) {
    a != id && exists n: nat :: n > 0 && Walk(steps, id, n) == Some(a)
  }

  ghost predicate Acyclic(steps: Steps) {
    forall id, n: nat :: n > 0 ==> Walk(steps, id, n) != Some(id)
  }

  /** The containing steps that lie above no other containing step. */
  ghost function Innermost(steps: Steps, ts: int): set<int> {
    set id | id in Containing(steps, ts) && forall t | t in Containing(steps, ts) :: !Above(steps, id, t)
  }

  ghost predicate IsInnermost(steps: Steps, ts: int, id: int) {
    id in Containing(steps, ts) && forall t | t in Containing(steps, ts) :: !Above(steps, id, t)
  }

  lemma {:induction false} WalkOn(steps: Steps, id: int, m: nat, n: nat)
    requires Walk(steps, id, m).Some?
    ensures Walk(steps, id, m + n) == Walk(steps, Walk(steps, id, m).value, n)
  {
    if n > 0 {
      WalkOn(steps, id, m, n - 1);
      assert m + n - 1 == m + (n - 1);
    }
  }

  lemma AboveTransitive(steps: Steps, a: int, b: int, c: int)
    requires Acyclic(steps) && Above(steps, a, b) && Above(steps, b, c)
    ensures Above(steps, a, c)
  {
    var m: nat :| m > 0 && Walk(steps, c, m) == Some(b);
    var n: nat :| n > 0 && Walk(steps, b, n) == Some(a);
    WalkOn(steps, c, m, n);
    assert Walk(steps, c, m + n) == Some(a);
  }

  lemma Loop(steps: Steps, a: int, b: int)
    requires Above(steps, a, b) && Above(steps, b, a)
    ensures exists n: nat :: n > 0 && Walk(steps, b, n) == Some(b)
  {
    var m: nat :| m > 0 && Walk(steps, b, m) == Some(a);
    var n: nat :| n > 0 && Walk(steps, a, n) == Some(b);
    WalkOn(steps, b, m, n);
    assert Walk(steps, b, m + n) == Some(b);
  }

  lemma AboveAsymmetric(steps: Steps, a: int, b: int)
    requires Acyclic(steps) && Above(steps, a, b)
    ensures !Above(steps, b, a)
  {
    if Above(steps, b, a) {
      Loop(steps, a, b);
    }
  }

  ghost function Below(steps: Steps, ts: int, id: int): set<int> {
    set t | t in Containing(steps, ts) && Above(steps, id, t)
  }

  /** With acyclic parents every containing step is innermost or lies above an innermost one. */
  lemma {:induction false} AboveSomeInnermost(steps: Steps, ts: int, id: int) returns (bottom: int)
    requires Acyclic(steps) && id in Containing(steps, ts)
    ensures IsInnermost(steps, ts, bottom) && (bottom == id || Above(steps, id, bottom))
    decreases |Below(steps, ts, id)|
  {
    if Below(steps, ts, id) == {} {
      assert forall t | t in Containing(steps, ts) && Above(steps, id, t) :: t in Below(steps, ts, id);
      bottom := id;
    } else {
      var t := Member(Below(steps, ts, id));
      forall u | u in Below(steps, ts, t) ensures u in Below(steps, ts, id) {
        AboveTransitive(steps, id, t, u);
      }
      assert t !in Below(steps, ts, t);
      Subset(Below(steps, ts, t), Below(steps, ts, id), t);
      bottom := AboveSomeInnermost(steps, ts, t);
      if bottom != t {
        AboveTransitive(steps, id, t, bottom);
      }
    }
  }

  lemma Singleton(s: set<int>) returns (x: int)
    requires |s| == 1
    ensures s == {x}
  {
    x := Member(s);
    assert s == {x} + (s - {x});
  }

  lemma Subset(a: set<int>, b: set<int>, x: int)
    requires a <= b && x in b && x !in a
    ensures |a| < |b|
  {
    assert a <= b - {x};
    SubsetSize(a, b - {x});
  }

  lemma {:induction false} SubsetSize(a: set<int>, b: set<int>)
    requires a <= b
    ensures |a| <= |b|
    decreases |a|
  {
    if a != {} {
      var x := Member(a);
      SubsetSize(a - {x}, b - {x});
    }
  }

  /** `s` contains the time, and every other containing step is one of its proper ancestors. */
  ghost predicate NestsAll(steps: Steps, ts: int, s: int) {
    s in Containing(steps, ts) && forall t | t in Containing(steps, ts) && t != s :: Above(steps, t, s)
  }

  lemma OnlyInnermost(steps: Steps, ts: int, s: int)
    requires Acyclic(steps)
    ensures Innermost(steps, ts) == {s} <==> NestsAll(steps, ts, s)
  {
    if Innermost(steps, ts) == {s} {
      assert s in Innermost(steps, ts);
      forall t | t in Containing(steps, ts) && t != s ensures Above(steps, t, s) {
        var bottom := AboveSomeInnermost(steps, ts, t);
        assert bottom in Innermost(steps, ts);
      }
    }
    if NestsAll(steps, ts, s) {
      forall t | t in Containing(steps, ts) ensures !Above(steps, s, t) {
        if t != s {
          AboveAsymmetric(steps, t, s);
        }
      }
      forall t ensures t in Innermost(steps, ts) <==> t == s {
        if t in Containing(steps, ts) && t != s {
          assert Above(steps, t, s);
        }
      }
    }
  }

  /** What the elimination answers for any parent links, cyclic ones included. */
  ghost function Placed(steps: Steps, ts: int): Placement {
    if Containing(steps, ts) == {} then Outside
    else if exists s :: Innermost(steps, ts) == {s} then var s :| Innermost(steps, ts) == {s}; InStep(s)
    else Overlapping
  }

  /**
   With acyclic parents the answer is a step exactly when every other containing step is its proper ancestor, and
   overlapping exactly when at least two steps contain the time and no such step exists.
   */
  lemma PlacedMeaning(steps: Steps, ts: int)
    requires Acyclic(steps)
    ensures Placed(steps, ts) == Outside <==> Containing(steps, ts) == {}
    ensures forall s :: Placed(steps, ts) == InStep(s) <==> NestsAll(steps, ts, s)
    ensures Placed(steps, ts) == Overlapping <==>
              |Containing(steps, ts)| >= 2 && forall s :: !NestsAll(steps, ts, s)
  {
    forall s ensures Placed(steps, ts) == InStep(s) <==> NestsAll(steps, ts, s) {
      OnlyInnermost(steps, ts, s);
      if exists r :: Innermost(steps, ts) == {r} {
        var r :| Placed(steps, ts) == InStep(r) && Innermost(steps, ts) == {r};
        assert {r} == {s} <==> r == s by {
          assert r in {r};
        }
      }
    }
    if Containing(steps, ts) != {} && |Containing(steps, ts)| < 2 {
      var s := Singleton(Containing(steps, ts));
      assert NestsAll(steps, ts, s);
    }
  }

  // ---- the walk ----

  function Links(steps: Steps): set<int> {
    steps.Keys + set id | id in steps && steps[id].parent.Some? :: steps[id].parent.value
  }

  ghost predicate StepsTo(steps: Steps, id: int, m: nat, x: int) {
    Walk(steps, id, m) == Some(x)
  }

  /** Every id that at most `n` parent links reach. */
  ghost predicate Reached(steps: Steps, id: int, n: nat, seen: set<int>) {
    && (forall x | x in seen :: exists m: nat :: m <= n && StepsTo(steps, id, m, x))
    && (forall m: nat, x :: m <= n && StepsTo(steps, id, m, x) ==> x in seen)
  }

  lemma {:induction false} WalkRepeats(steps: Steps, id: int, n: nat, seen: set<int>, m: nat)
    requires Reached(steps, id, n, seen) && Walk(steps, id, n + 1).Some? && Walk(steps, id, n + 1).value in seen
    ensures Walk(steps, id, m).Some? ==> Walk(steps, id, m).value in seen
    decreases m
  {
    if m > n + 1 {
      var x := Walk(steps, id, n + 1).value;
      var k: nat :| k <= n && StepsTo(steps, id, k, x);
      WalkOn(steps, id, n + 1, m - n - 1);
      WalkOn(steps, id, k, m - n - 1);
      WalkRepeats(steps, id, n, seen, k + (m - n - 1));
    } else if m <= n && Walk(steps, id, m).Some? {
      assert StepsTo(steps, id, m, Walk(steps, id, m).value);
    }
  }

  lemma WalkEnds(steps: Steps, id: int, n: nat, m: nat)
    requires Walk(steps, id, n + 1).None? && m > n
    ensures Walk(steps, id, m).None?
    decreases m
  {
    if m > n + 1 {
      WalkEnds(steps, id, n, m - 1);
    }
  }

  lemma WalkInLinks(steps: Steps, id: int, n: nat)
    requires id in steps && Walk(steps, id, n).Some?
    ensures Walk(steps, id, n).value in Links(steps)
  {
    if n > 0 {
      var at := Walk(steps, id, n - 1).value;
      assert at in steps && steps[at].parent == Walk(steps, id, n);
    }
  }

  lemma GrowReached(steps: Steps, id: int, n: nat, seen: set<int>)
    requires Reached(steps, id, n, seen) && Walk(steps, id, n + 1).Some?
    ensures Reached(steps, id, n + 1, seen + {Walk(steps, id, n + 1).value})
  {
    var at := Walk(steps, id, n + 1).value;
    forall x | x in seen + {at} ensures exists m: nat :: m <= n + 1 && StepsTo(steps, id, m, x) {
      if x in seen {
        var m: nat :| m <= n && StepsTo(steps, id, m, x);
      } else {
        assert StepsTo(steps, id, n + 1, x);
      }
    }
  }

  /** After `n` links the ids in `seen` have been passed, and `curr` is next. */
  ghost predicate Chasing(steps: Steps, id: int, n: nat, seen: set<int>, curr: Option<int>) {
    Reached(steps, id, n, seen) && id in seen && seen <= Links(steps) && curr == Walk(steps, id, n + 1)
  }

  function Parent(steps: Steps, id: int): Option<int> {
    if id in steps then steps[id].parent else None
  }

  lemma OneLinkMore(steps: Steps, id: int, n: nat, seen: set<int>, at: int)
    requires id in steps && Chasing(steps, id, n, seen, Some(at)) && at !in seen
    ensures Chasing(steps, id, n + 1, seen + {at}, Parent(steps, at))
    ensures |Links(steps) - (seen + {at})| < |Links(steps) - seen|
  {
    WalkInLinks(steps, id, n + 1);
    GrowReached(steps, id, n, seen);
    Subset(Links(steps) - (seen + {at}), Links(steps) - seen, at);
  }

  /** Marks the containing proper ancestors of one step; ends on cyclic parents too. */
  method MarkAncestors(steps: Steps, containing: set<int>, id: int, marked: set<int>) returns (out: set<int>)
    requires id in steps && containing <= steps.Keys
    ensures forall a :: a in out <==> a in marked || (a in containing && Above(steps, a, id))
  {
    out := marked;
    var seen := {id};
    var curr := steps[id].parent;
    ghost var n := 0;
    assert StepsTo(steps, id, 0, id) && curr == Walk(steps, id, 1);
    while curr.Some? && curr.value !in seen
      invariant Chasing(steps, id, n, seen, curr)
      invariant forall a :: a in out <==> a in marked || (a in containing && a in seen && a != id)
      decreases |Links(steps) - seen|
    {
      var at := curr.value;
      OneLinkMore(steps, id, n, seen, at);
      seen := seen + {at};
      if at in containing {
        out := out + {at};
      }
      n := n + 1;
      curr := Parent(steps, at);
    }
    SeenIsAbove(steps, id, n, seen);
  }

  /** Once the next link repeats or is missing, the ids seen are the step and everything above it. */
  lemma SeenIsAbove(steps: Steps, id: int, n: nat, seen: set<int>)
    requires Reached(steps, id, n, seen)
    requires Walk(steps, id, n + 1).Some? ==> Walk(steps, id, n + 1).value in seen
    ensures forall a :: Above(steps, a, id) <==> a in seen && a != id
  {
    forall a ensures Above(steps, a, id) <==> a in seen && a != id {
      if Above(steps, a, id) {
        var m: nat :| m > 0 && Walk(steps, id, m) == Some(a);
        if Walk(steps, id, n + 1).Some? {
          WalkRepeats(steps, id, n, seen, m);
        } else if m > n {
          WalkEnds(steps, id, n, m);
        } else {
          assert StepsTo(steps, id, m, a);
        }
      }
      if a in seen && a != id {
        var m: nat :| m <= n && StepsTo(steps, id, m, a);
        assert m > 0;
      }
    }
  }

  lemma PlacedOne(steps: Steps, ts: int, s: int)
    requires Innermost(steps, ts) == {s}
    ensures Placed(steps, ts) == InStep(s)
  {
    assert s in Innermost(steps, ts);
    forall r | Innermost(steps, ts) == {r} ensures r == s {
      assert r in {s};
    }
  }

  lemma PlacedMany(steps: Steps, ts: int)
    requires Containing(steps, ts) != {} && |Innermost(steps, ts)| != 1
    ensures Placed(steps, ts) == Overlapping
  {
    forall r ensures Innermost(steps, ts) != {r} {
      assert |{r}| == 1;
    }
  }

  method MarkAll(steps: Steps, containing: set<int>) returns (marked: set<int>)
    requires containing <= steps.Keys
    ensures forall a :: a in marked <==> a in containing && exists t | t in containing :: Above(steps, a, t)
  {
    marked := {};
    var todo := containing;
    while todo != {}
      invariant todo <= containing
      invariant forall a :: a in marked <==> a in containing && exists t | t in containing && t !in todo :: Above(steps, a, t)
      decreases todo
    {
      ghost var w := Member(todo);
      var id :| id in todo;
      marked := MarkAncestors(steps, containing, id, marked);
      todo := todo - {id};
    }
  }

  /** The placement by ancestor elimination; without a deadline it always completes. */
  method Place(steps: Steps, ts: int) returns (p: Placement)
    ensures p == Placed(steps, ts)
  {
    var containing := Containing(steps, ts);
    if containing == {} {
      return Outside;
    }
    var marked := MarkAll(steps, containing);
    var innermost := containing - marked;
    assert innermost == Innermost(steps, ts) by {
      assert forall x :: x in innermost <==> x in Innermost(steps, ts);
    }
    if |innermost| == 1 {
      ghost var w := Singleton(innermost);
      var s :| s in innermost;
      PlacedOne(steps, ts, s);
      p := InStep(s);
    } else {
      PlacedMany(steps, ts);
      p := Overlapping;
    }
  }
}
