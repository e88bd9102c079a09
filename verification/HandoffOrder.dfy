/** Which open handoff a start-less finish adopts: arrival stamps under any clock, and the pairing order. */
module HandoffOrder {
  import opened Common

  const INT64_MAX := 0x7FFF_FFFF_FFFF_FFFF
  const ADOPTION_BOUND_S := 86400
  const NANOSECONDS := 1_000_000_000

  /** An open handoff with a valid session id; `start` and `seqNo` are None when missing or malformed. */
  datatype Handoff = Handoff(sid: int, start: Option<nat>, seqNo: Option<nat>, harness: Option<int>)

  /** The arrival stamp of a handoff with a valid start. */
  function Stamp(h: Handoff): nat
    requires h.start.Some?
  {
    if h.seqNo.Some? then h.seqNo.value else h.start.value * NANOSECONDS
  }

  /** Order of `sort_key`: valid starts first, then stamps, then session ids. */
  predicate SortsBefore(a: Handoff, b: Handoff) {
    if a.start.None? then b.start.None? && a.sid < b.sid
    else b.start.None? || Stamp(a) < Stamp(b) || (Stamp(a) == Stamp(b) && a.sid < b.sid)
  }

  datatype Verdict = Adopt(rank: nat) | Malformed | Refuse

  function Consider(h: Handoff, resumable: bool, now: nat, current: Option<int>): Verdict {
    if h.start.None? then Malformed
    else
      var exact := h.harness.Some? && h.harness == current;
      if resumable then Adopt(if exact then 0 else 1)
      else if h.harness.Some? && current.Some? then if exact then Adopt(2) else Refuse
      else if (if h.start.value > now then 0 else now - h.start.value) <= ADOPTION_BOUND_S then Adopt(3)
      else Refuse
  }

  // ---- arrival stamps ----

  /** The newest stamp among open handoffs with a valid start, or -1. */
  ghost function Newest(open: set<Handoff>): int {
    var stamps := set h | h in open && h.start.Some? :: Stamp(h);
    if stamps == {} then -1 else Max(stamps)
  }

  method NextSeq(open: seq<Handoff>, clock: nat) returns (stamp: Option<nat>)
    ensures var next := if clock > Newest(Elems(open)) then clock else Newest(Elems(open)) + 1;
            stamp == if next <= INT64_MAX then Some(next) else None
  {
    var newest: int := -1;
    ghost var stamps := set h | h in Elems(open) && h.start.Some? :: Stamp(h);
    for i := 0 to |open|
      invariant newest == -1 || newest in stamps
      invariant forall k | 0 <= k < i && open[k].start.Some? :: Stamp(open[k]) <= newest
    {
      if open[i].start.Some? && Stamp(open[i]) > newest {
        assert open[i] in Elems(open) && Stamp(open[i]) in stamps;
        newest := Stamp(open[i]);
      }
    }
    if stamps == {} {
      assert newest == -1;
    } else {
      ghost var w := Member(stamps);
      assert forall s | s in stamps :: s <= newest;
      assert IsMax(newest, stamps);
    }
    var next := if clock > newest then clock else newest + 1;
    stamp := if next <= INT64_MAX then Some(next) else None;
  }

  /** Handoffs in the order their starts ran: later valid ones carry strictly larger stamps. */
  ghost predicate InStartOrder(arrived: seq<Handoff>) {
    && (forall i, j | 0 <= i < j < |arrived| :: arrived[i].sid != arrived[j].sid)
    && (forall i, j | 0 <= i < j < |arrived| && arrived[i].start.Some? && arrived[j].start.Some? :: Stamp(arrived[i]) < Stamp(arrived[j]))
  }

  // ---- pairing ----

  function RankOf(h: Handoff, resumable: bool, now: nat, current: Option<int>): Option<nat> {
    match Consider(h, resumable, now, current)
    case Adopt(r) => Some(r)
    case _ => None
  }

  ghost predicate BestRank(open: set<Handoff>, resumable: bool, now: nat, current: Option<int>, r: nat) {
    && (exists h | h in open :: RankOf(h, resumable, now, current) == Some(r))
    && forall h | h in open && RankOf(h, resumable, now, current).Some? :: r <= RankOf(h, resumable, now, current).value
  }

  predicate Precedes(a: Handoff, ra: nat, b: Handoff, rb: nat) {
    ra < rb || (ra == rb && if ra <= 1 then SortsBefore(b, a) else SortsBefore(a, b))
  }

  /** The adoptable handoff that pairs first, whatever order the directory lists them in. */
  method PickAdoption(open: seq<Handoff>, resumable: bool, now: nat,
          current: Option<int>) returns (chosen: Option<Handoff>)
    requires forall i, j | 0 <= i < j < |open| :: open[i].sid != open[j].sid
    ensures chosen.None? <==> forall h | h in open :: RankOf(h, resumable, now, current).None?
    ensures chosen.Some? ==>
              && chosen.value in open && RankOf(chosen.value, resumable, now, current).Some?
              && forall h | h in open && h != chosen.value && RankOf(h, resumable, now, current).Some? ::
                   Precedes(chosen.value, RankOf(chosen.value, resumable, now, current).value, h,
                           RankOf(h, resumable, now, current).value)
  {
    chosen := None;
    for i := 0 to |open|
      invariant chosen.None? <==> forall k | 0 <= k < i :: RankOf(open[k], resumable, now, current).None?
      invariant chosen.Some? ==> chosen.value in open[..i] && RankOf(chosen.value, resumable, now, current).Some?
      invariant chosen.Some? ==>
                  forall k | 0 <= k < i && open[k] != chosen.value && RankOf(open[k], resumable, now, current).Some? ::
                    Precedes(chosen.value, RankOf(chosen.value, resumable, now, current).value, open[k],
                            RankOf(open[k], resumable, now, current).value)
    {
      var h := open[i];
      var r := RankOf(h, resumable, now, current);
      assert open[..i + 1] == open[..i] + [h];
      if chosen.Some? {
        var k :| 0 <= k < i && open[k] == chosen.value;
        assert open[k].sid != h.sid;
      }
      if r.Some? && (chosen.None? || Precedes(h, r.value, chosen.value,
              RankOf(chosen.value, resumable, now, current).value)) {
        chosen := Some(h);
      }
    }
    assert open[..|open|] == open;
  }

  /**
   The adopted handoff is the last started of the best tier for resumable ranks, and the first started of it for the
   others: a stack and a queue.
   */
  ghost predicate PairsInOrder(arrived: seq<Handoff>, resumable: bool, now: nat, current: Option<int>, i: nat)
    requires i < |arrived|
  {
    && RankOf(arrived[i], resumable, now, current).Some?
    && var r := RankOf(arrived[i], resumable, now, current).value;
       && BestRank(Elems(arrived), resumable, now, current, r)
       && forall j | 0 <= j < |arrived| && RankOf(arrived[j], resumable, now, current) == Some(r) :: if r <= 1 then j <= i else i <= j
  }

  lemma AdoptedInOrder(arrived: seq<Handoff>, resumable: bool, now: nat, current: Option<int>, chosen: Handoff)
    requires InStartOrder(arrived) && chosen in arrived && RankOf(chosen, resumable, now, current).Some?
    requires forall h | h in arrived && h != chosen && RankOf(h, resumable, now, current).Some? ::
               Precedes(chosen, RankOf(chosen, resumable, now, current).value, h,
                       RankOf(h, resumable, now, current).value)
    ensures exists i: nat | i < |arrived| :: arrived[i] == chosen && PairsInOrder(arrived, resumable, now, current, i)
  {
    var i: nat :| i < |arrived| && arrived[i] == chosen;
    var r := RankOf(chosen, resumable, now, current).value;
    assert chosen in Elems(arrived);
    forall j | 0 <= j < |arrived| && RankOf(arrived[j], resumable, now, current) == Some(r) ensures if r <= 1 then j <= i else i <= j {
      if j != i {
        assert arrived[j] in arrived && arrived[j].sid != chosen.sid;
        assert Precedes(chosen, r, arrived[j], r);
      }
    }
    assert PairsInOrder(arrived, resumable, now, current, i);
  }

  /** When all open handoffs pair alike, a resumable skill adopts the newest start and the others the oldest. */
  lemma StackOrQueue(arrived: seq<Handoff>, resumable: bool, now: nat, current: Option<int>, i: nat, r: nat)
    requires i < |arrived| && PairsInOrder(arrived, resumable, now, current, i)
    requires forall h | h in arrived :: RankOf(h, resumable, now, current) == Some(r)
    ensures r <= 1 <==> resumable
    ensures i == if resumable then |arrived| - 1 else 0
  {
    assert arrived[i] in arrived && arrived[0] in arrived && arrived[|arrived| - 1] in arrived;
  }

  /** The open handoffs of one repository and skill; `arrived` remembers the order in which their starts ran. */
  class Store {
    var open: seq<Handoff>
    const resumable: bool
    ghost var arrived: seq<Handoff>

    /** The files list the started, unfinished handoffs in some order of their own. */
    ghost predicate Valid()
      reads this
    {
      multiset(open) == multiset(arrived) && InStartOrder(arrived)
    }

    constructor (resumable: bool)
      ensures Valid() && arrived == []
    {
      this.resumable := resumable;
      open, arrived := [], [];
    }

    /** A start under any clock reading; `at` is where the directory happens to list the new file. */
    method Start(sid: int, now: nat, clock: nat, harness: Option<int>, at: nat) returns (saved: bool)
      requires Valid() && (forall h | h in arrived :: h.sid != sid) && at <= |open|
      modifies this
      ensures Valid()
      ensures saved ==> exists h: Handoff :: h.sid == sid && h.start == Some(now) && h.harness == harness && arrived == old(arrived) + [h]
      ensures !saved ==> arrived == old(arrived) && open == old(open)
    {
      var stamp := NextSeq(open, clock);
      if stamp.None? {
        return false;
      }
      var h := Handoff(sid, Some(now), stamp, harness);
      PermutedElems(open, arrived);
      NewestBounds(open, arrived);
      assert open == open[..at] + open[at..];
      open := open[..at] + [h] + open[at..];
      arrived := arrived + [h];
      saved := true;
    }

    /** The handoff that a start-less finish adopts, and its place in start order. */
    method Adopt(now: nat, current: Option<int>) returns (chosen: Option<Handoff>, ghost i: nat)
      requires Valid()
      ensures chosen.None? <==> forall h | h in arrived :: RankOf(h, resumable, now, current).None?
      ensures chosen.Some? ==> i < |arrived| && arrived[i] == chosen.value && PairsInOrder(arrived, resumable, now, current, i)
    {
      SameSids(open, arrived);
      chosen := PickAdoption(open, resumable, now, current);
      i := 0;
      SameMembers(open, arrived);
      if chosen.Some? {
        AdoptedInOrder(arrived, resumable, now, current, chosen.value);
        i :| i < |arrived| && arrived[i] == chosen.value && PairsInOrder(arrived, resumable, now, current, i);
      }
    }

    method Consume(h: Handoff, ghost i: nat)
      requires Valid() && i < |arrived| && arrived[i] == h
      modifies this
      ensures Valid() && arrived == old(arrived)[..i] + old(arrived)[i + 1..]
    {
      SameMembers(open, arrived);
      assert h in arrived;
      var k :| 0 <= k < |open| && open[k] == h;
      Without(open, k);
      Without(arrived, i);
      OrderWithout(arrived, i);
      open := open[..k] + open[k + 1..];
      arrived := arrived[..i] + arrived[i + 1..];
    }

    /** A start-less finish: adopts by pairing order and consumes the chosen handoff. */
    method Finish(now: nat, current: Option<int>) returns (chosen: Option<Handoff>)
      requires Valid()
      modifies this
      ensures Valid()
      ensures chosen.None? <==> forall h | h in old(arrived) :: RankOf(h, resumable, now, current).None?
      ensures chosen.None? ==> arrived == old(arrived)
      ensures chosen.Some? ==> exists i: nat | i < |old(arrived)| ::
                old(arrived)[i] == chosen.value && PairsInOrder(old(arrived), resumable, now, current, i)
                && arrived == old(arrived)[..i] + old(arrived)[i + 1..]
    {
      ghost var i;
      chosen, i := Adopt(now, current);
      if chosen.Some? {
        Consume(chosen.value, i);
      }
    }
  }

  lemma SameMembers(a: seq<Handoff>, b: seq<Handoff>)
    requires multiset(a) == multiset(b)
    ensures forall h :: h in a <==> h in b
  {
    PermutedElems(a, b);
    assert forall h :: h in a <==> h in Elems(a);
    assert forall h :: h in b <==> h in Elems(b);
  }

  lemma NewestBounds(open: seq<Handoff>, arrived: seq<Handoff>)
    requires Elems(open) == Elems(arrived)
    ensures forall h | h in arrived && h.start.Some? :: Stamp(h) <= Newest(Elems(open))
  {
    var stamps := set h | h in Elems(open) && h.start.Some? :: Stamp(h);
    forall h | h in arrived && h.start.Some? ensures Stamp(h) <= Newest(Elems(open)) {
      assert h in Elems(arrived);
      assert Stamp(h) in stamps;
    }
  }

  lemma SameSids(open: seq<Handoff>, arrived: seq<Handoff>)
    requires multiset(open) == multiset(arrived)
    requires forall i, j | 0 <= i < j < |arrived| :: arrived[i].sid != arrived[j].sid
    ensures forall i, j | 0 <= i < j < |open| :: open[i].sid != open[j].sid
  {
    UniqueAfterReorder(arrived, open, (h: Handoff) => h.sid);
  }

  lemma Without(s: seq<Handoff>, i: nat)
    requires i < |s|
    ensures multiset(s[..i] + s[i + 1..]) == multiset(s) - multiset{s[i]}
  {
    assert s == s[..i] + [s[i]] + s[i + 1..];
  }

  lemma OrderWithout(s: seq<Handoff>, i: nat)
    requires i < |s| && InStartOrder(s)
    ensures InStartOrder(s[..i] + s[i + 1..])
  {
    var t := s[..i] + s[i + 1..];
    forall a, b | 0 <= a < b < |t|
      ensures t[a].sid != t[b].sid && (t[a].start.Some? && t[b].start.Some? ==> Stamp(t[a]) < Stamp(t[b]))
    {
      var x := if a < i then a else a + 1;
      var y := if b < i then b else b + 1;
      assert t[a] == s[x] && t[b] == s[y] && x < y;
    }
  }
}
