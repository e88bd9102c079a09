/** Small shared vocabulary: optional values, the elements of a list, least and greatest members. */
module Common {

  datatype Option<+T> = None | Some(value: T)

  function Elems<T>(s: seq<T>): set<T> {
    set x | x in s
  }

  lemma PermutedElems<T>(a: seq<T>, b: seq<T>)
    requires multiset(a) == multiset(b)
    ensures Elems(a) == Elems(b)
  {
    forall x ensures x in a <==> x in b {
      assert x in multiset(a) <==> x in multiset(b);
    }
  }

  ghost predicate IsMin(m: int, s: set<int>) {
    m in s && forall x | x in s :: m <= x
  }

  ghost predicate IsMax(m: int, s: set<int>) {
    m in s && forall x | x in s :: x <= m
  }

  lemma Member<T>(s: set<T>) returns (x: T)
    requires s != {}
    ensures x in s
  {
    assert (forall y :: y !in s) ==> s == {};
    x :| x in s;
  }

  lemma {:induction false} MinExists(s: set<int>)
    requires s != {}
    ensures exists m :: IsMin(m, s)
    decreases |s|
  {
    var x := Member(s);
    var rest := s - {x};
    if rest == {} {
      assert s == {x};
      assert IsMin(x, s);
    } else {
      assert s == rest + {x};
      MinExists(rest);
      var n :| IsMin(n, rest);
      assert IsMin(if x < n then x else n, s);
    }
  }

  lemma {:induction false} MaxExists(s: set<int>)
    requires s != {}
    ensures exists m :: IsMax(m, s)
    decreases |s|
  {
    var x := Member(s);
    var rest := s - {x};
    if rest == {} {
      assert s == {x};
      assert IsMax(x, s);
    } else {
      assert s == rest + {x};
      MaxExists(rest);
      var n :| IsMax(n, rest);
      assert IsMax(if x > n then x else n, s);
    }
  }

  ghost function Min(s: set<int>): (m: int)
    requires s != {}
    ensures IsMin(m, s)
  {
    MinExists(s);
    var m :| IsMin(m, s);
    m
  }

  ghost function Max(s: set<int>): (m: int)
    requires s != {}
    ensures IsMax(m, s)
  {
    MaxExists(s);
    var m :| IsMax(m, s);
    m
  }

  lemma Occurrences<T>(s: seq<T>, i: int, j: int)
    requires 0 <= i < j < |s| && s[i] == s[j]
    ensures multiset(s)[s[i]] >= 2
  {
    assert s == s[..i] + [s[i]] + s[i + 1..];
    assert s[i + 1..][j - i - 1] == s[j];
    assert s[j] in multiset(s[i + 1..]);
  }

  lemma {:induction false} Repeated<T>(s: seq<T>, x: T)
    requires multiset(s)[x] >= 2
    ensures exists i, j :: 0 <= i < j < |s| && s[i] == x && s[j] == x
  {
    assert s == [s[0]] + s[1..];
    if s[0] == x {
      assert x in multiset(s[1..]);
      var j :| 0 <= j < |s[1..]| && s[1..][j] == x;
      assert s[0] == x && s[j + 1] == x;
    } else {
      Repeated(s[1..], x);
      var i, j :| 0 <= i < j < |s[1..]| && s[1..][i] == x && s[1..][j] == x;
      assert s[i + 1] == x && s[j + 1] == x;
    }
  }

  lemma UniqueAfterReorder<T>(s: seq<T>, t: seq<T>, id: T -> int)
    requires multiset(s) == multiset(t)
    requires forall i, j | 0 <= i < j < |s| :: id(s[i]) != id(s[j])
    ensures forall i, j | 0 <= i < j < |t| :: id(t[i]) != id(t[j])
  {
    forall i, j | 0 <= i < j < |t| ensures id(t[i]) != id(t[j]) {
      PermutedElems(s, t);
      assert t[i] in Elems(t) && t[j] in Elems(t);
      var a :| 0 <= a < |s| && s[a] == t[i];
      var b :| 0 <= b < |s| && s[b] == t[j];
      if a == b {
        Occurrences(t, i, j);
        Repeated(s, t[i]);
      } else if a < b {
        assert id(s[a]) != id(s[b]);
      } else {
        assert id(s[b]) != id(s[a]);
      }
    }
  }
}
